/**
 * String helpers shared by the card and its layout editor: the optional value
 * wrapper, ASCII case folding, whitespace trimming, substring search, splitting,
 * digit runs and the case-insensitive ordinal comparison that stands in for
 * `localeCompare(..., { sensitivity: "base" })`.
 */
module Text {

  datatype Option<T> = None | Some(value: T)

  predicate IsDigit(c: char) { '0' <= c <= '9' }

  predicate AllDigits(s: string) { forall i :: 0 <= i < |s| ==> IsDigit(s[i]) }

  /** A non-empty run of decimal digits (the test `/^\d+$/`). */
  predicate IsNumeral(s: string) { |s| > 0 && AllDigits(s) }

  function DigitValue(c: char): (d: nat)
    requires IsDigit(c)
    ensures d < 10
  {
    (c as int) - ('0' as int)
  }

  /** The value of a run of decimal digits, as `parseInt(s, 10)` reads it. */
  function NumeralValue(s: string): (v: nat)
    requires AllDigits(s)
    decreases |s|
  {
    if s == [] then 0 else NumeralValue(s[..|s| - 1]) * 10 + DigitValue(s[|s| - 1])
  }

  /** The decimal spelling of a whole number, as `String(n)` writes it. */
  function NatToString(n: nat): (s: string)
    ensures IsNumeral(s)
    decreases n
  {
    var d := ['0' + (n % 10) as char];
    if n < 10 then d else NatToString(n / 10) + d
  }

  /** Reading back the decimal spelling gives the number. */
  lemma {:induction false} NatToStringValue(n: nat)
    ensures NumeralValue(NatToString(n)) == n
    decreases n
  {
    var s := NatToString(n);
    if n >= 10 {
      NatToStringValue(n / 10);
      assert s[..|s| - 1] == NatToString(n / 10);
    }
  }

  // ASCII case folding; the letters outside ASCII are left as they are.

  function LowerChar(c: char): char { if 'A' <= c <= 'Z' then (c as int + 32) as char else c }

  function UpperChar(c: char): char { if 'a' <= c <= 'z' then (c as int - 32) as char else c }

  function Lower(s: string): (r: string)
    ensures |r| == |s|
  {
    seq(|s|, i requires 0 <= i < |s| => LowerChar(s[i]))
  }

  function Upper(s: string): (r: string)
    ensures |r| == |s|
  {
    seq(|s|, i requires 0 <= i < |s| => UpperChar(s[i]))
  }

  lemma LowerDistributes(a: string, b: string)
    ensures Lower(a + b) == Lower(a) + Lower(b)
  {
  }

  /** Upper-casing ignores the case the text was in. */
  lemma UpperIgnoresCase(s: string)
    ensures Upper(Lower(s)) == Upper(s)
  {
  }

  /** The characters that `String.prototype.trim` removes, restricted to the common ones. */
  predicate IsSpace(c: char)
  {
    c == ' ' || c == '\t' || c == '\n' || c == '\r' || c == '\U{000B}' || c == '\U{000C}'
    || c == '\U{00A0}' || c == '\U{FEFF}' || c == '\U{2028}' || c == '\U{2029}'
  }

  function TrimStart(s: string): (r: string)
    ensures |r| <= |s|
    ensures r == [] || !IsSpace(r[0])
    decreases |s|
  {
    if s != [] && IsSpace(s[0]) then TrimStart(s[1..]) else s
  }

  function TrimEnd(s: string): (r: string)
    ensures |r| <= |s|
    ensures r == [] || !IsSpace(r[|r| - 1])
    decreases |s|
  {
    if s != [] && IsSpace(s[|s| - 1]) then TrimEnd(s[..|s| - 1]) else s
  }

  /** `String(s).trim()`: no white space left at either end. */
  function Trim(s: string): (r: string)
    ensures |r| <= |s|
    ensures r == [] || (!IsSpace(r[0]) && !IsSpace(r[|r| - 1]))
  {
    var t := TrimStart(s);
    TrimEndDropsSpace(t);
    TrimEnd(t)
  }

  /** `TrimStart` drops a run of leading white space and keeps the rest. */
  lemma {:induction false} TrimStartDropsSpace(s: string)
    ensures TrimStart(s) == s[|s| - |TrimStart(s)|..]
    ensures forall i :: 0 <= i < |s| - |TrimStart(s)| ==> IsSpace(s[i])
    decreases |s|
  {
    if s != [] && IsSpace(s[0]) {
      TrimStartDropsSpace(s[1..]);
    }
  }

  /** `TrimEnd` drops a run of trailing white space and keeps the rest. */
  lemma {:induction false} TrimEndDropsSpace(s: string)
    ensures TrimEnd(s) == s[..|TrimEnd(s)|]
    ensures forall i :: |TrimEnd(s)| <= i < |s| ==> IsSpace(s[i])
    decreases |s|
  {
    if s != [] && IsSpace(s[|s| - 1]) {
      TrimEndDropsSpace(s[..|s| - 1]);
    }
  }

  /** What trimming keeps is the piece of `s` between the leading and the trailing white space. */
  lemma TrimIsSlice(s: string)
    ensures SliceAt(s, |s| - |TrimStart(s)|, Trim(s))
    ensures forall i :: 0 <= i < |s| - |TrimStart(s)| ==> IsSpace(s[i])
    ensures forall i :: |s| - |TrimStart(s)| + |Trim(s)| <= i < |s| ==> IsSpace(s[i])
  {
    var t := TrimStart(s);
    var k, r := |s| - |t|, Trim(s);
    TrimStartDropsSpace(s);
    TrimEndDropsSpace(t);
    assert r == t[..|r|] && t == s[k..];
    assert s[k..k + |r|] == r;
    forall i | k + |r| <= i < |s|
      ensures IsSpace(s[i])
    {
      assert s[i] == t[i - k];
    }
  }

  /** Trimming twice is trimming once. */
  lemma TrimIdempotent(s: string)
    ensures Trim(Trim(s)) == Trim(s)
  {
    var r := Trim(s);
    assert TrimStart(r) == r;
    assert TrimEnd(r) == r;
  }

  /** The normalised form the editor uses for port names and keys: trimmed, then lower-cased. */
  function Norm(s: string): string { Lower(Trim(s)) }

  /** `piece` occurs in `s` at offset `k`. */
  predicate SliceAt(s: string, k: int, piece: string)
  {
    0 <= k <= |s| - |piece| && s[k..k + |piece|] == piece
  }

  /** `hay.includes(needle)`: true exactly when `needle` occurs somewhere in `hay`. */
  function Contains(hay: string, needle: string): (b: bool)
    ensures b <==> exists k :: SliceAt(hay, k, needle)
    decreases |hay|
  {
    if |hay| < |needle| then false
    else if hay[..|needle|] == needle then
      assert SliceAt(hay, 0, needle);
      true
    else
      var b := Contains(hay[1..], needle);
      assert forall k :: SliceAt(hay[1..], k, needle) ==> SliceAt(hay, k + 1, needle);
      assert forall k :: SliceAt(hay, k, needle) && k > 0 ==> SliceAt(hay[1..], k - 1, needle);
      b
  }

  /** `s.split(sep)`: the pieces between separators, in order; always at least one piece. */
  function Split(s: string, sep: char): (parts: seq<string>)
    ensures |parts| >= 1
    ensures forall i :: 0 <= i < |parts| ==> sep !in parts[i]
    decreases |s|
  {
    if s == [] then [""]
    else
      var rest := Split(s[1..], sep);
      if s[0] == sep then [""] + rest else [[s[0]] + rest[0]] + rest[1..]
  }

  /** Joining the pieces of `Split` with the separator gives the text back. */
  function Join(parts: seq<string>, sep: char): string
    requires |parts| >= 1
    decreases |parts|
  {
    if |parts| == 1 then parts[0] else parts[0] + [sep] + Join(parts[1..], sep)
  }

  lemma {:induction false} SplitJoin(s: string, sep: char)
    ensures Join(Split(s, sep), sep) == s
    decreases |s|
  {
    if s != [] {
      SplitJoin(s[1..], sep);
      var rest := Split(s[1..], sep);
      if s[0] != sep {
        if |rest| > 1 {
          assert Join(Split(s, sep), sep) == [s[0]] + rest[0] + [sep] + Join(rest[1..], sep);
        }
      }
    }
  }

  /** `(id || "").split(".")[1] || ""`: the object id of an entity id such as `switch.gi1_0_1`. */
  function IdSuffix(id: string): (r: string)
    ensures '.' !in r
  {
    var parts := Split(id, '.');
    if |parts| >= 2 then parts[1] else ""
  }

  /** Ordinal comparison of two strings by character code: negative, zero or positive. */
  function Lex(a: string, b: string): (r: int)
    ensures -1 <= r <= 1
    ensures r == 0 <==> a == b
    decreases |a|
  {
    if a == [] then (if b == [] then 0 else -1)
    else if b == [] then 1
    else if a[0] < b[0] then -1
    else if a[0] > b[0] then 1
    else
      var r := Lex(a[1..], b[1..]);
      assert r == 0 ==> a == [a[0]] + a[1..] == [b[0]] + b[1..] == b;
      r
  }

  lemma {:induction false} LexAntisymmetric(a: string, b: string)
    ensures Lex(a, b) == -Lex(b, a)
    decreases |a|
  {
    if a != [] && b != [] && a[0] == b[0] {
      LexAntisymmetric(a[1..], b[1..]);
    }
  }

  lemma {:induction false} LexCommonPrefix(p: string, a: string, b: string)
    ensures Lex(p + a, p + b) == Lex(a, b)
    decreases |p|
  {
    if p != [] {
      assert (p + a)[0] == p[0] == (p + b)[0];
      assert (p + a)[1..] == p[1..] + a;
      assert (p + b)[1..] == p[1..] + b;
      LexCommonPrefix(p[1..], a, b);
      assert Lex(p + a, p + b) == Lex((p + a)[1..], (p + b)[1..]);
    } else {
      assert p + a == a && p + b == b;
    }
  }

  /** The ordinal order is transitive. */
  lemma {:induction false} LexTransitive(a: string, b: string, c: string)
    requires Lex(a, b) <= 0 && Lex(b, c) <= 0
    ensures Lex(a, c) <= 0
    decreases |a|
  {
    if a != [] && a[0] == c[0] {
      LexTransitive(a[1..], b[1..], c[1..]);
    }
  }

  /**
   * `a.localeCompare(b, undefined, { sensitivity: "base" })`, modelled as an
   * ordinal comparison of the case-folded strings: names that differ only in
   * letter case compare equal.
   */
  function FoldCompare(a: string, b: string): (r: int)
    ensures -1 <= r <= 1
    ensures r == 0 <==> Lower(a) == Lower(b)
  {
    Lex(Lower(a), Lower(b))
  }

  lemma FoldCompareAntisymmetric(a: string, b: string)
    ensures FoldCompare(a, b) == -FoldCompare(b, a)
  {
    LexAntisymmetric(Lower(a), Lower(b));
  }

  lemma FoldCompareTransitive(a: string, b: string, c: string)
    requires FoldCompare(a, b) <= 0 && FoldCompare(b, c) <= 0
    ensures FoldCompare(a, c) <= 0
  {
    LexTransitive(Lower(a), Lower(b), Lower(c));
  }
}
