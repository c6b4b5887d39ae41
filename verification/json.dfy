/**
 * JSON values as the card reads and writes them (layout maps, stored records,
 * the text of the advanced JSON box, card configuration), with objects kept as
 * ordered key/value lists: JavaScript objects remember the order in which
 * string keys were added, and `JSON.stringify` writes them in that order.
 */
module Json {
  import opened Text

  datatype JVal =
    | JNull
    | JBool(b: bool)
    | JNum(n: real)
    | JStr(s: string)
    | JArr(items: seq<JVal>)
    | JObj(fields: seq<(string, JVal)>)

  type Fields = seq<(string, JVal)>

  function Keys(fs: Fields): (ks: seq<string>)
    ensures |ks| == |fs|
    decreases |fs|
  {
    if fs == [] then [] else [fs[0].0] + Keys(fs[1..])
  }

  /** No key occurs twice, as in any JavaScript object. */
  predicate UniqueKeys(fs: Fields)
  {
    Distinct(Keys(fs))
  }

  predicate Distinct<T(==)>(s: seq<T>)
  {
    forall i, j :: 0 <= i < j < |s| ==> s[i] != s[j]
  }

  predicate HasKey(fs: Fields, k: string) { k in Keys(fs) }

  /** `obj[k]`, or `None` for `undefined`. */
  function Get(fs: Fields, k: string): (r: Option<JVal>)
    ensures r.None? <==> !HasKey(fs, k)
    ensures r.Some? ==> (k, r.value) in fs
    decreases |fs|
  {
    if fs == [] then None
    else if fs[0].0 == k then Some(fs[0].1)
    else
      Get(fs[1..], k)
  }

  /** `obj[k] = v`: an existing key keeps its place, a new key goes last. */
  function Put(fs: Fields, k: string, v: JVal): Fields
    decreases |fs|
  {
    if fs == [] then [(k, v)]
    else if fs[0].0 == k then [(k, v)] + fs[1..]
    else [fs[0]] + Put(fs[1..], k, v)
  }

  /** After `obj[k] = v`, reading `k` gives `v` and every other key reads as before. */
  lemma {:induction false} PutGet(fs: Fields, k: string, v: JVal, k': string)
    ensures Get(Put(fs, k, v), k') == if k' == k then Some(v) else Get(fs, k')
    decreases |fs|
  {
    if fs != [] && fs[0].0 != k {
      PutGet(fs[1..], k, v, k');
      var r := Put(fs, k, v);
      assert r[0] == fs[0] && r[1..] == Put(fs[1..], k, v);
    }
  }

  /** An existing key keeps its place and a new key is added last. */
  lemma {:induction false} PutKeys(fs: Fields, k: string, v: JVal)
    ensures Keys(Put(fs, k, v)) == if HasKey(fs, k) then Keys(fs) else Keys(fs) + [k]
    decreases |fs|
  {
    if fs != [] {
      var r := Put(fs, k, v);
      if fs[0].0 == k {
        assert r[1..] == fs[1..];
      } else {
        PutKeys(fs[1..], k, v);
        assert r[1..] == Put(fs[1..], k, v);
        assert Keys(fs) + [k] == [fs[0].0] + (Keys(fs[1..]) + [k]);
      }
    }
  }

  /** After `obj[k] = v` the object has `k` and every key it had. */
  lemma PutHasKey(fs: Fields, k: string, v: JVal, k': string)
    ensures HasKey(Put(fs, k, v), k') <==> HasKey(fs, k') || k' == k
  {
    PutKeys(fs, k, v);
  }

  /** Writing a key never duplicates one. */
  lemma PutKeepsKeysUnique(fs: Fields, k: string, v: JVal)
    requires UniqueKeys(fs)
    ensures UniqueKeys(Put(fs, k, v))
  {
    PutKeys(fs, k, v);
  }

  /** The member at position `i` is what its key reads, when no earlier member has that key. */
  lemma {:induction false} GetIndex(fs: Fields, i: nat)
    requires i < |fs|
    requires forall j :: 0 <= j < i ==> fs[j].0 != fs[i].0
    ensures Get(fs, fs[i].0) == Some(fs[i].1)
    decreases i
  {
    if i > 0 {
      GetIndex(fs[1..], i - 1);
    }
  }

  /** The `i`-th key is the key of the `i`-th member. */
  lemma {:induction false} KeysAt(fs: Fields, i: nat)
    requires i < |fs|
    ensures Keys(fs)[i] == fs[i].0 && HasKey(fs, fs[i].0)
    decreases i
  {
    if i > 0 {
      KeysAt(fs[1..], i - 1);
    }
  }

  /** A present key is the key of some member. */
  lemma {:induction false} KeyIndex(fs: Fields, k: string) returns (i: nat)
    requires HasKey(fs, k)
    ensures i < |fs| && fs[i].0 == k
    decreases |fs|
  {
    if fs[0].0 == k {
      i := 0;
    } else {
      var j := KeyIndex(fs[1..], k);
      i := j + 1;
    }
  }

  /** `delete obj[k]`. */
  function Remove(fs: Fields, k: string): Fields
    decreases |fs|
  {
    if fs == [] then []
    else if fs[0].0 == k then Remove(fs[1..], k)
    else [fs[0]] + Remove(fs[1..], k)
  }

  /** After `delete obj[k]`, `k` is gone and every other key reads as before. */
  lemma {:induction false} RemoveGet(fs: Fields, k: string, k': string)
    ensures Get(Remove(fs, k), k') == if k' == k then None else Get(fs, k')
    decreases |fs|
  {
    if fs != [] {
      RemoveGet(fs[1..], k, k');
      if fs[0].0 != k {
        var r := Remove(fs, k);
        assert r[0] == fs[0] && r[1..] == Remove(fs[1..], k);
      }
    }
  }

  /** JavaScript truthiness of a present value (`undefined` is handled by the callers as `None`). */
  predicate Truthy(j: JVal)
  {
    match j
    case JNull => false
    case JBool(b) => b
    case JNum(n) => n != 0.0
    case JStr(s) => s != []
    case JArr(_) => true
    case JObj(_) => true
  }

  /** `typeof j === "object" && j !== null` (arrays are objects too). */
  predicate IsObject(j: JVal) { j.JArr? || j.JObj? }

  /** The value of `c` as a digit in base `radix` (2, 8, 10 or 16), if it is one. */
  function DigitIn(c: char, radix: nat): (d: Option<nat>)
    ensures d.Some? ==> d.value < radix
  {
    var v := if '0' <= c <= '9' then c as int - '0' as int
             else if 'a' <= c <= 'f' then c as int - 'a' as int + 10
             else if 'A' <= c <= 'F' then c as int - 'A' as int + 10
             else 16;
    if v < radix then Some(v) else None
  }

  predicate RadixDigits(s: string, radix: nat) { forall i :: 0 <= i < |s| ==> DigitIn(s[i], radix).Some? }

  /** The value of `s` as digits in base `radix`, or `None` when some character is not such a digit. */
  function DigitsIn(s: string, radix: nat): Option<nat>
    decreases |s|
  {
    if s == [] then Some(0)
    else
      var init, d := DigitsIn(s[..|s| - 1], radix), DigitIn(s[|s| - 1], radix);
      if init.Some? && d.Some? then Some(init.value * radix + d.value) else None
  }

  /** The value of a run of digits in base `radix`. */
  function RadixValue(s: string, radix: nat): nat
    requires RadixDigits(s, radix)
    decreases |s|
  {
    if s == [] then 0 else RadixValue(s[..|s| - 1], radix) * radix + DigitIn(s[|s| - 1], radix).value
  }

  /** `x` times ten to the power `e`, one factor of ten at a time. */
  function Scale(x: real, e: int): real
    decreases if e >= 0 then e else -e
  {
    if e == 0 then x else if e > 0 then Scale(x, e - 1) * 10.0 else Scale(x, e + 1) / 10.0
  }

  /** The index of the first `c1` or `c2` in `s`, or `|s|` when there is none. */
  function FirstOf(s: string, c1: char, c2: char): (i: nat)
    ensures i <= |s|
    decreases |s|
  {
    if s == [] || s[0] == c1 || s[0] == c2 then 0 else 1 + FirstOf(s[1..], c1, c2)
  }

  /** An exponent: digits with an optional sign. */
  function SignedInteger(s: string): Option<int>
  {
    if s != [] && (s[0] == '+' || s[0] == '-') then
      var v := DigitsIn(s[1..], 10);
      var n: int := if v.Some? then v.value else 0;
      if |s| > 1 && v.Some? then Some(if s[0] == '-' then -n else n) else None
    else
      var v := DigitsIn(s, 10);
      if s != [] && v.Some? then Some(v.value) else None
  }

  /**
   * An unsigned decimal literal: digits with an optional fraction (at least one
   * digit on either side of the point) and an optional exponent.
   */
  function UnsignedDecimal(t: string): Option<real>
  {
    var e := FirstOf(t, 'e', 'E');
    var m := t[..e];
    var ex := if e == |t| then Some(0) else SignedInteger(t[e + 1..]);
    var dot := FirstOf(m, '.', '.');
    var whole := m[..dot];
    var frac := if dot < |m| then m[dot + 1..] else [];
    var v := DigitsIn(whole + frac, 10);
    if ex.Some? && v.Some? && |whole| + |frac| > 0 then Some(Scale(v.value as real, ex.value - |frac|))
    else None
  }

  /** The base named by the second character of a `0x`, `0o` or `0b` prefix, or 0 for none. */
  function RadixOf(c: char): nat
  {
    if c == 'x' || c == 'X' then 16 else if c == 'o' || c == 'O' then 8 else if c == 'b' || c == 'B' then 2 else 0
  }

  /**
   * `Number(s)` for a string, when finite: trimmed, the empty text is zero; a
   * `0x`, `0o` or `0b` integer is read in its base; otherwise a decimal literal
   * with an optional sign. Everything else, `Infinity` included, is none.
   */
  function NumberText(s: string): Option<real>
  {
    var t := Trim(s);
    if t == [] then Some(0.0)
    else if |t| >= 2 && t[0] == '0' && RadixOf(t[1]) != 0 then
      var r := RadixOf(t[1]);
      var v := DigitsIn(t[2..], r);
      if |t| > 2 && v.Some? then Some(v.value as real) else None
    else
      var v := UnsignedDecimal(if t[0] == '-' || t[0] == '+' then t[1..] else t);
      if v.Some? && t[0] == '-' then Some(-v.value) else v
  }

  /**
   * `Number(j)` when the result is finite, `None` when it is `NaN` or infinite.
   * An array is read through its text, the items joined by commas (`null`
   * becoming empty): empty is zero, one item is read as that item's text,
   * and two or more never make a number.
   */
  function NumberOf(j: JVal): Option<real>
    decreases j
  {
    match j
    case JNull => Some(0.0)
    case JBool(b) => Some(if b then 1.0 else 0.0)
    case JNum(n) => Some(n)
    case JStr(s) => NumberText(s)
    case JArr(items) =>
      if |items| == 0 then Some(0.0)
      else if |items| == 1 then (if items[0].JBool? then None else NumberOf(items[0]))
      else None
    case JObj(_) => None
  }

  /** Reading digits in a base agrees with `RadixDigits` and `RadixValue`. */
  lemma {:induction false} DigitsInRadix(s: string, radix: nat)
    ensures DigitsIn(s, radix) == if RadixDigits(s, radix) then Some(RadixValue(s, radix)) else None
    decreases |s|
  {
    if s != [] {
      var n := |s| - 1;
      DigitsInRadix(s[..n], radix);
      if RadixDigits(s[..n], radix) && DigitIn(s[n], radix).Some? {
        assert RadixDigits(s, radix) by {
          forall i | 0 <= i < |s|
            ensures DigitIn(s[i], radix).Some?
          {
            if i < n {
              assert s[..n][i] == s[i];
            }
          }
        }
      } else if !RadixDigits(s[..n], radix) {
        var i :| 0 <= i < n && DigitIn(s[..n][i], radix).None?;
        assert s[i] == s[..n][i];
      }
    }
  }

  /** Reading digits in base 10 agrees with `AllDigits` and `NumeralValue`. */
  lemma {:induction false} DigitsInDecimal(s: string)
    ensures DigitsIn(s, 10) == if AllDigits(s) then Some(NumeralValue(s)) else None
    decreases |s|
  {
    if s != [] {
      var n := |s| - 1;
      DigitsInDecimal(s[..n]);
      if AllDigits(s[..n]) && IsDigit(s[n]) {
        assert AllDigits(s) by {
          forall i | 0 <= i < |s|
            ensures IsDigit(s[i])
          {
            if i < n {
              assert s[..n][i] == s[i];
            }
          }
        }
      } else if !AllDigits(s[..n]) {
        var i :| 0 <= i < n && !IsDigit(s[..n][i]);
        assert s[i] == s[..n][i];
      }
    }
  }

  /** Digit text has no white space to trim. */
  lemma TrimKeepsNumeralEnds(t: string)
    requires t != [] && !IsSpace(t[0]) && !IsSpace(t[|t| - 1])
    ensures Trim(t) == t
  {
    assert TrimStart(t) == t;
  }

  /** Without either character, the search runs to the end. */
  lemma {:induction false} FirstOfAbsent(s: string, c1: char, c2: char)
    requires forall j :: 0 <= j < |s| ==> s[j] != c1 && s[j] != c2
    ensures FirstOf(s, c1, c2) == |s|
    decreases |s|
  {
    if s != [] {
      FirstOfAbsent(s[1..], c1, c2);
    }
  }

  /**
   * Digits with no point, followed by nothing or by an exponent, read as the
   * whole number scaled by the exponent.
   */
  lemma UnsignedDecimalWhole(t: string, k: nat, x: int)
    requires k <= |t| && FirstOf(t, 'e', 'E') == k
    requires k == |t| ==> x == 0
    requires k < |t| ==> SignedInteger(t[k + 1..]) == Some(x)
    requires IsNumeral(t[..k]) && FirstOf(t[..k], '.', '.') == k
    ensures UnsignedDecimal(t) == Some(Scale(NumeralValue(t[..k]) as real, x))
  {
    assert t[..k][..k] == t[..k] && t[..k] + [] == t[..k];
    DigitsInDecimal(t[..k]);
  }

  /** A run of decimal digits with no point and no exponent reads as its value. */
  lemma UnsignedDecimalOfNumeral(d: string)
    requires IsNumeral(d)
    ensures UnsignedDecimal(d) == Some(NumeralValue(d) as real)
  {
    FirstOfAbsent(d, 'e', 'E');
    assert d[..|d|] == d;
    FirstOfAbsent(d, '.', '.');
    UnsignedDecimalWhole(d, |d|, 0);
  }

  /** Text that trims to an unsigned decimal literal reads as that literal. */
  lemma NumberTextUnsigned(s: string)
    requires Trim(s) != [] && Trim(s)[0] != '-' && Trim(s)[0] != '+'
    requires |Trim(s)| >= 2 ==> RadixOf(Trim(s)[1]) == 0
    ensures NumberText(s) == UnsignedDecimal(Trim(s))
  {
  }

  /** Text that trims to a minus sign and an unsigned decimal literal reads as its negation. */
  lemma NumberTextNegative(s: string, v: real)
    requires Trim(s) != [] && Trim(s)[0] == '-' && UnsignedDecimal(Trim(s)[1..]) == Some(v)
    ensures NumberText(s) == Some(-v)
  {
  }

  /** Decimal digits read as their value. */
  lemma NumberTextOfNumeral(d: string)
    requires IsNumeral(d)
    ensures NumberText(d) == Some(NumeralValue(d) as real)
  {
    assert NumberText(d) == UnsignedDecimal(d) by {
      assert IsDigit(d[0]) && IsDigit(d[|d| - 1]);
      TrimKeepsNumeralEnds(d);
      if |d| >= 2 {
        assert IsDigit(d[1]);
      }
      NumberTextUnsigned(d);
    }
    UnsignedDecimalOfNumeral(d);
  }

  /** Decimal digits after a minus sign read as the negated value. */
  lemma NumberTextOfNegativeNumeral(m: string)
    requires m != [] && m[0] == '-' && IsNumeral(m[1..])
    ensures NumberText(m) == Some(-(NumeralValue(m[1..]) as real))
  {
    var d := m[1..];
    assert Trim(m) == m by {
      assert m[|m| - 1] == d[|d| - 1] && IsDigit(d[|d| - 1]);
      TrimKeepsNumeralEnds(m);
    }
    UnsignedDecimalOfNumeral(d);
    NumberTextNegative(m, NumeralValue(d) as real);
  }

  /**
   * The decimal spelling of a whole number, with or without a minus sign and
   * also as the single item of an array, reads back as the number.
   */
  lemma NumberOfReadsDecimal(n: nat)
    ensures NumberOf(JStr(NatToString(n))) == Some(n as real)
    ensures NumberOf(JStr("-" + NatToString(n))) == Some(-(n as real))
    ensures NumberOf(JArr([JStr(NatToString(n))])) == Some(n as real)
  {
    NatToStringValue(n);
    NumberTextOfNumeral(NatToString(n));
    var m := "-" + NatToString(n);
    assert m[1..] == NatToString(n);
    NumberTextOfNegativeNumeral(m);
  }

  /** Digits, a point and digits, with no exponent, read as the fraction they spell. */
  lemma UnsignedDecimalFraction(w: string, f: string)
    requires AllDigits(w) && AllDigits(f) && |w| + |f| > 0
    ensures UnsignedDecimal(w + "." + f) == Some(Scale(NumeralValue(w + f) as real, -|f|))
  {
    var t := w + "." + f;
    FractionHasNoExponent(w, f);
    FirstOfDot(w, f);
    assert t[..|w|] == w && t[|w| + 1..] == f;
    AllDigitsAppend(w, f);
    DigitsInDecimal(w + f);
    UnsignedDecimalPoint(t, |w|, NumeralValue(w + f));
  }

  /** A literal without an exponent reads as its digits on both sides of the point, scaled down by the fraction's length. */
  lemma UnsignedDecimalPoint(t: string, dot: nat, v: nat)
    requires FirstOf(t, 'e', 'E') == |t| && FirstOf(t, '.', '.') == dot && dot < |t| && |t| > 1
    requires DigitsIn(t[..dot] + t[dot + 1..], 10) == Some(v)
    ensures UnsignedDecimal(t) == Some(Scale(v as real, -(|t| - dot - 1)))
  {
    assert t[..|t|] == t;
  }

  /** Digits, a point and digits hold no exponent mark. */
  lemma FractionHasNoExponent(w: string, f: string)
    requires AllDigits(w) && AllDigits(f)
    ensures FirstOf(w + "." + f, 'e', 'E') == |w| + 1 + |f|
  {
    var wp := w + ".";
    assert forall j :: 0 <= j < |wp| ==> wp[j] == '.' || IsDigit(wp[j]);
    FirstOfSkips(wp, f, 'e', 'E');
    FirstOfAbsent(f, 'e', 'E');
  }

  /** A prefix without either character is skipped by the search. */
  lemma {:induction false} FirstOfSkips(a: string, b: string, c1: char, c2: char)
    requires forall j :: 0 <= j < |a| ==> a[j] != c1 && a[j] != c2
    ensures FirstOf(a + b, c1, c2) == |a| + FirstOf(b, c1, c2)
    decreases |a|
  {
    if a == [] {
      assert a + b == b;
    } else {
      assert (a + b)[0] == a[0] && (a + b)[1..] == a[1..] + b;
      FirstOfSkips(a[1..], b, c1, c2);
    }
  }

  lemma AllDigitsAppend(w: string, f: string)
    requires AllDigits(w) && AllDigits(f)
    ensures AllDigits(w + f)
  {
    forall j | 0 <= j < |w + f|
      ensures IsDigit((w + f)[j])
    {
      if j >= |w| {
        assert (w + f)[j] == f[j - |w|];
      }
    }
  }

  /** In digits followed by `c1` or `c2`, the first of them is the one after the digits. */
  lemma {:induction false} FirstOfAfterDigits(w: string, rest: string, c1: char, c2: char)
    requires AllDigits(w) && !IsDigit(c1) && !IsDigit(c2)
    requires rest != [] && (rest[0] == c1 || rest[0] == c2)
    ensures FirstOf(w + rest, c1, c2) == |w|
    decreases |w|
  {
    var t := w + rest;
    if w == [] {
      assert t == rest;
    } else {
      assert t[0] == w[0] && IsDigit(w[0]);
      assert t[1..] == w[1..] + rest;
      FirstOfAfterDigits(w[1..], rest, c1, c2);
    }
  }

  /** In digits, a point and more text, the first point is the one after the digits. */
  lemma FirstOfDot(w: string, f: string)
    requires AllDigits(w)
    ensures FirstOf(w + "." + f, '.', '.') == |w|
  {
    assert w + "." + f == w + ("." + f);
    FirstOfAfterDigits(w, "." + f, '.', '.');
  }

  /** Text that starts with a digit and has no radix prefix reads as an unsigned decimal literal. */
  lemma NumberTextOfDigitStart(t: string)
    requires t != [] && IsDigit(t[0]) && !IsSpace(t[|t| - 1])
    requires |t| >= 2 ==> RadixOf(t[1]) == 0
    ensures NumberText(t) == UnsignedDecimal(t)
  {
    TrimKeepsNumeralEnds(t);
    NumberTextUnsigned(t);
  }

  /** Digits, a point and digits read as all the digits scaled down by the fraction's length (`"12.5"` is 125 / 10). */
  lemma NumberTextOfFraction(w: string, f: string)
    requires IsNumeral(w) && AllDigits(f)
    ensures NumberText(w + "." + f) == Some(Scale(NumeralValue(w + f) as real, -|f|))
  {
    var t := w + "." + f;
    assert t[0] == w[0];
    assert t[|t| - 1] == '.' || IsDigit(t[|t| - 1]);
    assert t[1] == '.' || IsDigit(t[1]);
    NumberTextOfDigitStart(t);
    UnsignedDecimalFraction(w, f);
  }

  /** `Number()` reads the trimmed text: white space around it changes nothing. */
  lemma NumberTextTrims(s: string)
    ensures NumberText(s) == NumberText(Trim(s))
  {
    TrimIdempotent(s);
  }

  /** `Number()` reads a sign: `"-4"` is -4. */
  lemma NumberTextSigned(s: string)
    requires s == "-4"
    ensures NumberText(s) == Some(-4.0)
  {
    NumberTextOfNegativeNumeral(s);
    assert s[1..] == "4";
    assert NumeralValue("4") == 4;
  }

  /** Digits, an `e` and digits read as the number scaled by that power of ten (`"1e3"` is 1000). */
  lemma NumberTextOfExponent(w: string, e: string)
    requires IsNumeral(w) && IsNumeral(e)
    ensures NumberText(w + "e" + e) == Some(Scale(NumeralValue(w) as real, NumeralValue(e)))
  {
    var t := w + "e" + e;
    assert t[0] == w[0];
    assert t[|t| - 1] == e[|e| - 1] && IsDigit(e[|e| - 1]);
    assert t[1] == 'e' || IsDigit(t[1]);
    NumberTextOfDigitStart(t);
    UnsignedDecimalExponent(w, e);
  }

  /** Digits, an `e` and digits, with no point, read as the scaled whole number. */
  lemma UnsignedDecimalExponent(w: string, e: string)
    requires IsNumeral(w) && IsNumeral(e)
    ensures UnsignedDecimal(w + "e" + e) == Some(Scale(NumeralValue(w) as real, NumeralValue(e)))
  {
    var t := w + "e" + e;
    SplitAtExponent(w, e);
    FirstOfAbsent(w, '.', '.');
    assert SignedInteger(e) == Some(NumeralValue(e) as int) by {
      assert IsDigit(e[0]);
      DigitsInDecimal(e);
    }
    UnsignedDecimalWhole(t, |w|, NumeralValue(e));
  }

  /** In digits, an `e` and more text, the exponent marker is the one after the digits. */
  lemma SplitAtExponent(w: string, e: string)
    requires AllDigits(w)
    ensures FirstOf(w + "e" + e, 'e', 'E') == |w|
    ensures (w + "e" + e)[..|w|] == w && (w + "e" + e)[|w| + 1..] == e
  {
    var t := w + "e" + e;
    assert t == w + ("e" + e);
    FirstOfAfterDigits(w, "e" + e, 'e', 'E');
  }

  /** `0x` and hexadecimal digits read in base 16 (`"0x1A"` is 26). */
  lemma NumberTextOfHex(d: string)
    requires d != [] && RadixDigits(d, 16)
    ensures NumberText("0x" + d) == Some(RadixValue(d, 16) as real)
  {
    var t := "0x" + d;
    assert DigitIn(d[|d| - 1], 16).Some?;
    assert t[0] == '0' && t[1] == 'x' && t[|t| - 1] == d[|d| - 1];
    TrimKeepsNumeralEnds(t);
    assert t[2..] == d;
    DigitsInRadix(d, 16);
  }

  /** A literal that does not start with a digit, a point, a sign or a radix prefix is not a number. */
  lemma NotANumber(t: string)
    requires t != [] && !IsSpace(t[0]) && !IsSpace(t[|t| - 1])
    requires !IsDigit(t[0]) && t[0] != '.' && t[0] != '-' && t[0] != '+' && t[0] != 'e' && t[0] != 'E'
    ensures NumberText(t) == None
  {
    TrimKeepsNumeralEnds(t);
    var e := FirstOf(t, 'e', 'E');
    var m := t[..e];
    assert m[0] == t[0];
    var dot := FirstOf(m, '.', '.');
    var whole := m[..dot];
    var frac := if dot < |m| then m[dot + 1..] else [];
    assert dot > 0 && whole[0] == t[0] && (whole + frac)[0] == t[0];
    DigitsInDecimal(whole + frac);
  }

  /**
   * `Number()` of an array reads its text: empty is zero, a single item that
   * is not a boolean reads as that item, and two or more items never make a
   * number.
   */
  lemma ArrayNumber(items: seq<JVal>)
    ensures |items| == 0 ==> NumberOf(JArr(items)) == Some(0.0)
    ensures |items| == 1 && !items[0].JBool? ==> NumberOf(JArr(items)) == NumberOf(items[0])
    ensures |items| == 1 && items[0].JBool? ==> NumberOf(JArr(items)).None?
    ensures |items| >= 2 ==> NumberOf(JArr(items)).None?
  {
  }

  /** `Number(obj[k])` when finite; a missing key reads as `undefined`, which is `NaN`. */
  function NumberAt(fs: Fields, k: string): Option<real>
  {
    match Get(fs, k)
    case None => None
    case Some(v) => NumberOf(v)
  }

  /** `Number(v.k)` for any value: only objects have named members. */
  function MemberNumber(j: JVal, k: string): Option<real>
  {
    if j.JObj? then NumberAt(j.fields, k) else None
  }

  /** The layout map entry `{ x, y }` that the editor writes for a port. */
  function PointValue(x: real, y: real): (j: JVal)
    ensures MemberNumber(j, "x") == Some(x) && MemberNumber(j, "y") == Some(y)
  {
    var fs := [("x", JNum(x)), ("y", JNum(y))];
    assert "x" != "y" by {
      assert "x"[0] != "y"[0];
    }
    assert fs[1..] == [("y", JNum(y))];
    assert Get(fs, "y") == Get(fs[1..], "y") == Some(JNum(y));
    JObj(fs)
  }
}
