/**
 * The natural port-name order used by every sort in the layout editor
 * (`_ssmNaturalPortCompare`): names are cut into maximal runs of digits and of
 * non-digits and compared run by run; digit runs by value and then by width,
 * other runs case-insensitively, a text run before a digit run, a name whose
 * runs are used up first before the longer one, and a whole-name
 * case-insensitive comparison when every run ties.
 */
module NaturalOrder {
  import opened Text

  /** A token: a non-empty run of digits or a non-empty run of non-digits. */
  predicate IsRun(t: string)
  {
    |t| > 0 && forall i :: 0 <= i < |t| ==> IsDigit(t[i]) == IsDigit(t[0])
  }

  /** Whether a token is a digit run (false for the empty token). */
  predicate StartsWithDigit(t: string) { |t| > 0 && IsDigit(t[0]) }

  function Concat(ts: seq<string>): string
    decreases |ts|
  {
    if ts == [] then [] else ts[0] + Concat(ts[1..])
  }

  /** The length of the maximal run at the start of `s`. */
  function RunLength(s: string): (n: nat)
    requires s != []
    ensures 1 <= n <= |s|
    decreases |s|
  {
    if |s| == 1 || IsDigit(s[1]) != IsDigit(s[0]) then 1 else 1 + RunLength(s[1..])
  }

  /** The run at the start is of one kind throughout and stops at a change of kind. */
  lemma {:induction false} RunLengthIsMaximal(s: string)
    requires s != []
    ensures forall i :: 0 <= i < RunLength(s) ==> IsDigit(s[i]) == IsDigit(s[0])
    ensures RunLength(s) < |s| ==> IsDigit(s[RunLength(s)]) != IsDigit(s[0])
    decreases |s|
  {
    if !(|s| == 1 || IsDigit(s[1]) != IsDigit(s[0])) {
      RunLengthIsMaximal(s[1..]);
    }
  }

  /** The successive matches of `/(\d+|[^\d]+)/g`. */
  function Runs(s: string): seq<string>
    decreases |s|
  {
    if s == [] then [] else var n := RunLength(s); [s[..n]] + Runs(s[n..])
  }

  /** The tokens are maximal runs, alternating in kind, that spell the name out in order. */
  lemma {:induction false} RunsSpellName(s: string)
    ensures Concat(Runs(s)) == s
    ensures forall i :: 0 <= i < |Runs(s)| ==> IsRun(Runs(s)[i])
    ensures forall i :: 0 <= i < |Runs(s)| - 1 ==> StartsWithDigit(Runs(s)[i]) != StartsWithDigit(Runs(s)[i + 1])
    ensures s != [] ==> Runs(s) != [] && StartsWithDigit(Runs(s)[0]) == IsDigit(s[0])
    decreases |s|
  {
    if s != [] {
      var n := RunLength(s);
      var rest := Runs(s[n..]);
      RunLengthIsMaximal(s);
      RunsSpellName(s[n..]);
      var ts := [s[..n]] + rest;
      assert Runs(s) == ts;
      assert ts[1..] == rest;
      assert s == s[..n] + s[n..];
    }
  }

  /** `s.match(/(\d+|[^\d]+)/g) || [s]`: the empty name is a single empty text token. */
  function Tokens(s: string): seq<string>
  {
    if s == [] then [""] else Runs(s)
  }

  /** One step of the token loop: non-zero decides the comparison, zero moves to the next pair. */
  function TokenOrder(xa: string, xb: string): int
  {
    var na, nb := IsNumeral(xa), IsNumeral(xb);
    if na && nb then
      var ia, ib := NumeralValue(xa), NumeralValue(xb);
      if ia != ib then ia - ib else |xa| - |xb|
    else if !na && !nb then FoldCompare(xa, xb)
    else if na then 1
    else -1
  }

  /** The token loop, with the whole-name comparison when both token lists run out together. */
  function CompareTokens(ta: seq<string>, tb: seq<string>, sa: string, sb: string): int
    decreases |ta|
  {
    if ta == [] && tb == [] then FoldCompare(sa, sb)
    else if ta == [] then -1
    else if tb == [] then 1
    else
      var c := TokenOrder(ta[0], tb[0]);
      if c != 0 then c else CompareTokens(ta[1..], tb[1..], sa, sb)
  }

  /** `_ssmNaturalPortCompare(a, b)`: negative when `a` sorts first, positive when `b` does. */
  function Compare(a: string, b: string): int
  {
    if a == b then 0 else CompareTokens(Tokens(a), Tokens(b), a, b)
  }

  // ---------------------------------------------------------------- tokenizer

  lemma {:induction false} RunLengthAppend(s: string, u: string)
    requires s != [] && u != []
    requires IsDigit(s[|s| - 1]) != IsDigit(u[0])
    ensures RunLength(s + u) == RunLength(s)
    decreases |s|
  {
    if |s| > 1 && IsDigit(s[1]) == IsDigit(s[0]) {
      assert (s + u)[1..] == s[1..] + u;
      RunLengthAppend(s[1..], u);
    }
  }

  /** Cutting at a change of kind: the runs of `s + u` are the runs of `s` followed by those of `u`. */
  lemma {:induction false} RunsAppend(s: string, u: string)
    requires s != [] && u != []
    requires IsDigit(s[|s| - 1]) != IsDigit(u[0])
    ensures Runs(s + u) == Runs(s) + Runs(u)
    decreases |s|
  {
    RunLengthAppend(s, u);
    var n := RunLength(s);
    if n < |s| {
      RunsAppend(s[n..], u);
      RunsAppendStep(s, u);
    } else {
      RunsAppendWhole(s, u);
    }
  }

  /** When `s` is one run, it is the first run of `s + u` and the rest are the runs of `u`. */
  lemma RunsAppendWhole(s: string, u: string)
    requires s != [] && RunLength(s) == |s| && RunLength(s + u) == |s|
    ensures Runs(s + u) == Runs(s) + Runs(u)
  {
    var su := s + u;
    RunsCons(su);
    RunsCons(s);
    assert su[..|s|] == s && su[|s|..] == u;
    assert s[..|s|] == s && s[|s|..] == [];
    assert Runs(s) == [s];
  }

  /** When `s` is more than one run, its first run is the first run of `s + u`. */
  lemma RunsAppendStep(s: string, u: string)
    requires s != [] && RunLength(s) < |s| && RunLength(s + u) == RunLength(s)
    requires Runs(s[RunLength(s)..] + u) == Runs(s[RunLength(s)..]) + Runs(u)
    ensures Runs(s + u) == Runs(s) + Runs(u)
  {
    var n := RunLength(s);
    RunsOfAppend(s, u);
    RunsCons(s);
    AppendAssoc([s[..n]], Runs(s[n..]), Runs(u));
  }

  /** The first run of `s + u`, when it is the first run of `s`, is followed by the runs of the rest of `s` and `u`. */
  lemma RunsOfAppend(s: string, u: string)
    requires s != [] && RunLength(s + u) == RunLength(s)
    ensures Runs(s + u) == [s[..RunLength(s)]] + Runs(s[RunLength(s)..] + u)
  {
    var n := RunLength(s);
    RunsCons(s + u);
    assert (s + u)[..n] == s[..n];
    assert (s + u)[n..] == s[n..] + u;
  }

  lemma AppendAssoc<T>(a: seq<T>, b: seq<T>, c: seq<T>)
    ensures a + (b + c) == (a + b) + c
  {
  }


  /** One step of `Runs`: the first maximal run, then the runs of what follows it. */
  lemma RunsCons(x: string)
    requires x != []
    ensures Runs(x) == [x[..RunLength(x)]] + Runs(x[RunLength(x)..])
  {
  }

  /** A single run is its own only token. */
  lemma RunIsWhole(d: string)
    requires IsRun(d)
    ensures Runs(d) == [d]
  {
    var n := RunLength(d);
    RunLengthIsMaximal(d);
    if n < |d| {
      assert false;
    }
    assert d[..n] == d;
  }

  /** A run followed by text of the other kind: the run is the first token. */
  lemma RunThenRest(d: string, u: string)
    requires IsRun(d)
    requires u == [] || IsDigit(u[0]) != IsDigit(d[0])
    ensures Runs(d + u) == [d] + Runs(u)
  {
    RunIsWhole(d);
    if u != [] {
      RunsAppend(d, u);
    } else {
      assert d + u == d;
    }
  }

  lemma PrefixThenRun(t: string, du: string)
    requires du != []
    requires t == [] || IsDigit(t[|t| - 1]) != IsDigit(du[0])
    ensures Runs(t + du) == Runs(t) + Runs(du)
  {
    if t != [] {
      RunsAppend(t, du);
    } else {
      assert t + du == du;
      assert Runs(t) == [];
    }
  }

  /** The tokens of a name: a prefix, a run, and a rest, each cut where the kind changes. */
  lemma TokensAroundRun(t: string, d: string, u: string)
    requires IsRun(d)
    requires t == [] || IsDigit(t[|t| - 1]) != IsDigit(d[0])
    requires u == [] || IsDigit(u[0]) != IsDigit(d[0])
    ensures Tokens(t + d + u) == Runs(t) + [d] + Runs(u)
    ensures Tokens(t + d + u) == Runs(t) + ([d] + Runs(u))
  {
    var du := d + u;
    RunThenRest(d, u);
    assert du[0] == d[0];
    PrefixThenRun(t, du);
    AppendAssoc(t, d, u);
    AppendAssoc(Runs(t), [d], Runs(u));
    assert t + d + u != [];
  }

  // --------------------------------------------------------------- comparison

  lemma TokenOrderSelf(x: string)
    ensures TokenOrder(x, x) == 0
  {
  }

  lemma TokenOrderAntisymmetric(x: string, y: string)
    ensures TokenOrder(x, y) == -TokenOrder(y, x)
  {
    FoldCompareAntisymmetric(x, y);
  }

  lemma {:induction false} CompareTokensAntisymmetric(ta: seq<string>, tb: seq<string>, sa: string, sb: string)
    ensures CompareTokens(ta, tb, sa, sb) == -CompareTokens(tb, ta, sb, sa)
    decreases |ta|
  {
    if ta == [] && tb == [] {
      FoldCompareAntisymmetric(sa, sb);
    } else if ta != [] && tb != [] {
      TokenOrderAntisymmetric(ta[0], tb[0]);
      CompareTokensAntisymmetric(ta[1..], tb[1..], sa, sb);
    }
  }

  /** The order is antisymmetric: swapping the names negates the result. */
  lemma CompareAntisymmetric(a: string, b: string)
    ensures Compare(a, b) == -Compare(b, a)
  {
    if a != b {
      CompareTokensAntisymmetric(Tokens(a), Tokens(b), a, b);
    }
  }

  /** Token order is a total preorder: transitive, and a tie between the ends is a tie throughout. */
  lemma TokenOrderTransitive(x: string, y: string, z: string)
    requires TokenOrder(x, y) <= 0 && TokenOrder(y, z) <= 0
    ensures TokenOrder(x, z) <= 0
    ensures TokenOrder(x, z) == 0 ==> TokenOrder(x, y) == 0 && TokenOrder(y, z) == 0
  {
    if !IsNumeral(x) && !IsNumeral(y) && !IsNumeral(z) {
      FoldCompareTransitive(x, y, z);
      if FoldCompare(x, z) == 0 {
        FoldCompareAntisymmetric(x, y);
        assert FoldCompare(y, z) == FoldCompare(y, x);
      }
    }
  }

  lemma {:induction false} CompareTokensTransitive(ta: seq<string>, tb: seq<string>, tc: seq<string>, sa: string, sb: string, sc: string)
    requires CompareTokens(ta, tb, sa, sb) <= 0 && CompareTokens(tb, tc, sb, sc) <= 0
    ensures CompareTokens(ta, tc, sa, sc) <= 0
    ensures CompareTokens(ta, tc, sa, sc) == 0 ==> CompareTokens(ta, tb, sa, sb) == 0 && CompareTokens(tb, tc, sb, sc) == 0
    decreases |ta|
  {
    if ta == [] && tb == [] && tc == [] {
      FoldCompareTransitive(sa, sb, sc);
      if FoldCompare(sa, sc) == 0 {
        FoldCompareAntisymmetric(sa, sb);
        assert FoldCompare(sb, sc) == FoldCompare(sb, sa);
      }
    } else if ta != [] {
      TokenOrderTransitive(ta[0], tb[0], tc[0]);
      if TokenOrder(ta[0], tc[0]) == 0 {
        CompareTokensTransitive(ta[1..], tb[1..], tc[1..], sa, sb, sc);
      }
    }
  }

  /** With equal names the token loop ties too, so `Compare` is the token loop on every pair. */
  lemma CompareIsTokens(a: string, b: string)
    ensures Compare(a, b) == CompareTokens(Tokens(a), Tokens(b), a, b)
  {
    if a == b {
      var t := Tokens(a);
      assert t + [] == t;
      CompareTokensCommonPrefix(t, [], [], a, b);
    }
  }

  /**
   * The order is a total preorder, so the sorts that use it are well defined:
   * it is transitive, and a tie between the ends is a tie at every step.
   */
  lemma CompareTransitive(a: string, b: string, c: string)
    requires Compare(a, b) <= 0 && Compare(b, c) <= 0
    ensures Compare(a, c) <= 0
    ensures Compare(a, c) == 0 ==> Compare(a, b) == 0 && Compare(b, c) == 0
  {
    CompareIsTokens(a, b);
    CompareIsTokens(b, c);
    CompareIsTokens(a, c);
    CompareTokensTransitive(Tokens(a), Tokens(b), Tokens(c), a, b, c);
  }

  lemma {:induction false} CompareTokensZero(ta: seq<string>, tb: seq<string>, sa: string, sb: string)
    requires CompareTokens(ta, tb, sa, sb) == 0
    ensures Lower(sa) == Lower(sb)
    decreases |ta|
  {
    if ta != [] && tb != [] {
      CompareTokensZero(ta[1..], tb[1..], sa, sb);
    }
  }

  /** Two names tie only when they are equal up to letter case. */
  lemma CompareZeroOnlyForCaseVariants(a: string, b: string)
    requires Compare(a, b) == 0
    ensures Lower(a) == Lower(b)
  {
    if a != b {
      CompareTokensZero(Tokens(a), Tokens(b), a, b);
    }
  }

  /** Equal leading tokens are skipped: the comparison is decided by what follows them. */
  lemma {:induction false} CompareTokensCommonPrefix(p: seq<string>, ta: seq<string>, tb: seq<string>, sa: string, sb: string)
    ensures CompareTokens(p + ta, p + tb, sa, sb) == CompareTokens(ta, tb, sa, sb)
    decreases |p|
  {
    if p != [] {
      assert (p + ta)[0] == p[0] && (p + tb)[0] == p[0];
      assert (p + ta)[1..] == p[1..] + ta;
      assert (p + tb)[1..] == p[1..] + tb;
      TokenOrderSelf(p[0]);
      CompareTokensCommonPrefix(p[1..], ta, tb, sa, sb);
    } else {
      assert p + ta == ta && p + tb == tb;
    }
  }

  /** Names whose tokens differ after a common prefix are different names. */
  lemma TokensDiffer(a: string, b: string, p: seq<string>, ra: seq<string>, rb: seq<string>)
    requires Tokens(a) == p + ra && Tokens(b) == p + rb
    requires ra != [] && rb != [] && ra[0] != rb[0]
    ensures a != b
  {
    assert (p + ra)[|p|] == ra[0] && (p + rb)[|p|] == rb[0];
  }

  /** After a common prefix of tokens, the first pair of tokens that compare unequal decides. */
  lemma DecidedAtToken(a: string, b: string, p: seq<string>, x: string, y: string, ra: seq<string>, rb: seq<string>)
    requires Tokens(a) == p + ([x] + ra) && Tokens(b) == p + ([y] + rb)
    requires TokenOrder(x, y) != 0
    ensures Compare(a, b) == TokenOrder(x, y)
  {
    var ta, tb := [x] + ra, [y] + rb;
    assert ta[0] == x && tb[0] == y;
    TokenOrderSelf(x);
    TokensDiffer(a, b, p, ta, tb);
    CompareTokensCommonPrefix(p, ta, tb, a, b);
  }

  /** When two names differ first at a numeral, that pair of numerals decides the comparison. */
  lemma DecidedAtNumeral(t: string, d1: string, d2: string, u1: string, u2: string)
    requires t == [] || !IsDigit(t[|t| - 1])
    requires IsNumeral(d1) && IsNumeral(d2)
    requires u1 == [] || !IsDigit(u1[0])
    requires u2 == [] || !IsDigit(u2[0])
    requires TokenOrder(d1, d2) != 0
    ensures Compare(t + d1 + u1, t + d2 + u2) == TokenOrder(d1, d2)
  {
    TokensAroundRun(t, d1, u1);
    TokensAroundRun(t, d2, u2);
    DecidedAtToken(t + d1 + u1, t + d2 + u2, Runs(t), d1, d2, Runs(u1), Runs(u2));
  }

  /**
   * When two names differ first at a pair of text runs that are not equal up
   * to letter case, that pair decides, compared case-insensitively.
   */
  lemma DecidedAtText(t: string, x1: string, x2: string, u1: string, u2: string)
    requires t == [] || IsDigit(t[|t| - 1])
    requires IsRun(x1) && IsRun(x2) && !StartsWithDigit(x1) && !StartsWithDigit(x2)
    requires u1 == [] || IsDigit(u1[0])
    requires u2 == [] || IsDigit(u2[0])
    requires FoldCompare(x1, x2) != 0
    ensures Compare(t + x1 + u1, t + x2 + u2) == FoldCompare(x1, x2)
  {
    TokensAroundRun(t, x1, u1);
    TokensAroundRun(t, x2, u2);
    assert TokenOrder(x1, x2) == FoldCompare(x1, x2) by {
      assert !IsNumeral(x1) && !IsNumeral(x2);
    }
    DecidedAtToken(t + x1 + u1, t + x2 + u2, Runs(t), x1, x2, Runs(u1), Runs(u2));
  }

  /**
   * Digit runs at the same place compare by value and, for equal values, by width:
   * `Gi1/0/2` sorts before `Gi1/0/10`, and `01` after `1`.
   */
  lemma NumeralsByValueThenWidth(t: string, d1: string, d2: string, u1: string, u2: string)
    requires t == [] || !IsDigit(t[|t| - 1])
    requires IsNumeral(d1) && IsNumeral(d2)
    requires u1 == [] || !IsDigit(u1[0])
    requires u2 == [] || !IsDigit(u2[0])
    requires NumeralValue(d1) != NumeralValue(d2) || |d1| != |d2|
    ensures Compare(t + d1 + u1, t + d2 + u2) < 0
        <==> NumeralValue(d1) < NumeralValue(d2) || (NumeralValue(d1) == NumeralValue(d2) && |d1| < |d2|)
  {
    DecidedAtNumeral(t, d1, d2, u1, u2);
  }

  /** A concrete instance: the second port of a slot sorts before the tenth. */
  lemma GigabitTwoBeforeTen()
    ensures Compare("Gi1/0/2", "Gi1/0/10") < 0
  {
    assert NumeralValue("2") == 2;
    assert NumeralValue("1") == 1;
    assert NumeralValue("10") == 10;
    NumeralsByValueThenWidth("Gi1/0/", "2", "10", "", "");
    assert "Gi1/0/" + "2" + "" == "Gi1/0/2";
    assert "Gi1/0/" + "10" + "" == "Gi1/0/10";
  }

  /** At the first token where two names differ in kind, the text token sorts before the digit run. */
  lemma TextBeforeNumeral(a: string, b: string, i: nat)
    requires i < |Tokens(a)| && i < |Tokens(b)|
    requires forall j :: 0 <= j < i ==> Tokens(a)[j] == Tokens(b)[j]
    requires !IsNumeral(Tokens(a)[i]) && IsNumeral(Tokens(b)[i])
    ensures Compare(a, b) < 0
  {
    var ta, tb := Tokens(a), Tokens(b);
    assert a != b;
    var p := ta[..i];
    assert ta == p + ta[i..] && tb == p + tb[i..];
    CompareTokensCommonPrefix(p, ta[i..], tb[i..], a, b);
  }

  /** A name that the other extends by whole tokens sorts first: `Gi1` before `Gi1/0`. */
  lemma ExtensionSortsAfter(a: string, u: string)
    requires a != [] && u != []
    requires IsDigit(a[|a| - 1]) != IsDigit(u[0])
    ensures Compare(a, a + u) < 0
  {
    RunsAppend(a, u);
    assert a + u != a by {
      assert |a + u| > |a|;
    }
    var p := Runs(a);
    assert p + [] == p;
    CompareTokensCommonPrefix(p, [], Runs(u), a, a + u);
  }
}
