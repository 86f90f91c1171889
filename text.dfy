/**
 * String operations the widget relies on: ASCII lower-casing (`toLowerCase`),
 * the whitespace trim of `$.trim`, the left-to-right global replacement of a
 * two-character sentinel (`replace(/{#/g, '<')`), `Array.join`, substring
 * search (the CSS `*=` attribute match) and the decimal form of a count.
 */
module Text {

  predicate IsUpper(c: char) {
    'A' <= c <= 'Z'
  }

  function LowerChar(c: char): char {
    if IsUpper(c) then (c as int + 32) as char else c
  }

  /** No ASCII capital letter occurs in `s`. */
  predicate NoUpper(s: string) {
    forall i :: 0 <= i < |s| ==> !IsUpper(s[i])
  }

  /** `s.toLowerCase()`, restricted to the ASCII letters. */
  function Lower(s: string): (r: string)
    ensures |r| == |s| && NoUpper(r)
    ensures forall i :: 0 <= i < |r| && !IsUpper(s[i]) ==> r[i] == s[i]
    ensures forall i :: 0 <= i < |r| && IsUpper(s[i]) ==>
              'a' <= r[i] <= 'z' && r[i] as int - 'a' as int == s[i] as int - 'A' as int
  {
    seq(|s|, i requires 0 <= i < |s| => LowerChar(s[i]))
  }

  lemma NoUpperAppend(a: string, b: string)
    requires NoUpper(a) && NoUpper(b)
    ensures NoUpper(a + b)
  {
    assert forall i :: |a| <= i < |a + b| ==> (a + b)[i] == b[i - |a|];
  }

  /** The characters `$.trim` strips: ECMAScript WhiteSpace and LineTerminator. */
  predicate IsSpace(c: char) {
    c == ' ' || c == '\t' || c == '\n' || c == '\r' || c == '\U{B}' || c == '\U{C}'
    || c == '\U{A0}' || c == '\U{1680}' || ('\U{2000}' <= c <= '\U{200A}')
    || c == '\U{2028}' || c == '\U{2029}' || c == '\U{202F}' || c == '\U{205F}'
    || c == '\U{3000}' || c == '\U{FEFF}'
  }

  /** Every character of `s` from index `lo` up to `hi` is whitespace. */
  predicate SpacesBetween(s: string, lo: int, hi: int) {
    forall j :: lo <= j < hi && 0 <= j < |s| ==> IsSpace(s[j])
  }

  /** Neither end of `s` is whitespace. */
  predicate IsTrimmed(s: string) {
    s == [] || (!IsSpace(s[0]) && !IsSpace(s[|s| - 1]))
  }

  /** The number of whitespace characters `s` starts with. */
  function LeadSpaces(s: string): (n: nat)
    ensures n <= |s| && SpacesBetween(s, 0, n)
    ensures n < |s| ==> !IsSpace(s[n])
  {
    if s != [] && IsSpace(s[0]) then
      var n := LeadSpaces(s[1..]);
      assert forall j :: 1 <= j < |s| ==> s[j] == s[1..][j - 1];
      n + 1
    else 0
  }

  /** The number of whitespace characters `s` ends with. */
  function TrailSpaces(s: string): (n: nat)
    ensures n <= |s| && SpacesBetween(s, |s| - n, |s|)
    ensures n < |s| ==> !IsSpace(s[|s| - 1 - n])
  {
    if s != [] && IsSpace(s[|s| - 1]) then
      var n := TrailSpaces(s[..|s| - 1]);
      assert forall j :: 0 <= j < |s| - 1 ==> s[j] == s[..|s| - 1][j];
      n + 1
    else 0
  }

  /** `r` is what is left of `s` from index `i` on, once both whitespace ends are cut. */
  predicate TrimmedAt(s: string, r: string, i: int) {
    0 <= i <= |s| - |r| && s[i..i + |r|] == r && SpacesBetween(s, 0, i) && SpacesBetween(s, i + |r|, |s|)
  }

  /**
   * `$.trim(s)`: the result is the run of `s` left after removing whitespace
   * from both ends.
   */
  function Trim(s: string): (r: string)
    ensures IsTrimmed(r)
    ensures TrimmedAt(s, r, LeadSpaces(s))
  {
    var i := LeadSpaces(s);
    if i == |s| then []
    else
      var t := TrailSpaces(s);
      assert !IsSpace(s[i]) && i < |s| - t;
      assert !IsSpace(s[|s| - 1 - t]);
      s[i..|s| - t]
  }

  lemma TrimEmpty()
    ensures Trim([]) == []
  {
    assert LeadSpaces([]) == 0;
  }

  /** Trimming introduces no capital letter. */
  lemma TrimNoUpper(s: string)
    requires NoUpper(s)
    ensures NoUpper(Trim(s))
  {
    var r := Trim(s);
    assert forall k :: 0 <= k < |r| ==> r[k] == s[LeadSpaces(s) + k];
  }

  /** Lower-casing turns no character into whitespace and no whitespace into anything else. */
  lemma LowerSpaces(s: string, lo: int, hi: int)
    requires SpacesBetween(Lower(s), lo, hi)
    ensures SpacesBetween(s, lo, hi)
  {
    forall j | lo <= j < hi && 0 <= j < |s| ensures IsSpace(s[j]) {
      assert IsSpace(Lower(s)[j]);
      if IsUpper(s[j]) {
        assert 'a' <= Lower(s)[j] <= 'z';
      }
    }
  }

  /** `needle` occurs in `hay` starting at index `k`. */
  predicate OccursAt(needle: string, hay: string, k: int) {
    0 <= k <= |hay| - |needle| && hay[k..k + |needle|] == needle
  }

  /** `needle` occurs in `hay` as a contiguous run. */
  predicate IsInfix(needle: string, hay: string) {
    exists k | 0 <= k <= |hay| - |needle| :: OccursAt(needle, hay, k)
  }

  /** A slice of a slice is a slice. */
  lemma SliceOfSlice(s: string, a: nat, b: nat, c: nat, d: nat)
    requires a <= b <= |s| && c <= d <= b - a
    ensures s[a..b][c..d] == s[a + c..a + d]
  {
    assert forall j :: 0 <= j < d - c ==> s[a..b][c..d][j] == s[a + c + j];
  }

  /**
   * A non-blank needle whose ends are not whitespace survives trimming of
   * the text that contains it.
   */
  lemma TrimKeepsInfix(q: string, s: string)
    requires q != [] && IsTrimmed(q)
    requires IsInfix(q, s)
    ensures IsInfix(q, Trim(s))
  {
    var k :| OccursAt(q, s, k);
    OccursInTrim(q, s, k);
  }

  /** The occurrence of `q` at `k` in `s` is one in `Trim(s)`, shifted by the leading whitespace. */
  lemma OccursInTrim(q: string, s: string, k: int)
    requires q != [] && IsTrimmed(q) && OccursAt(q, s, k)
    ensures OccursAt(q, Trim(s), k - LeadSpaces(s))
  {
    var r := Trim(s);
    var i := LeadSpaces(s);
    var e := k + |q| - 1;
    EndsOf(q, s, k);
    assert !IsSpace(s[k]) && !IsSpace(s[e]);
    InsideTrim(s, k);
    InsideTrim(s, e);
    assert TrimmedAt(s, r, i);
    OccursInSlice(q, s, r, i, i + |r|, k);
  }

  /** The first and last characters of an occurrence. */
  lemma EndsOf(q: string, s: string, k: int)
    requires q != [] && OccursAt(q, s, k)
    ensures s[k] == q[0] && s[k + |q| - 1] == q[|q| - 1]
  {
    assert s[k..k + |q|][0] == s[k];
    assert s[k..k + |q|][|q| - 1] == s[k + |q| - 1];
  }

  /** An occurrence lying inside the slice `s[a..b]` is an occurrence in that slice. */
  lemma OccursInSlice(q: string, s: string, t: string, a: nat, b: nat, k: nat)
    requires a <= k && k + |q| <= b <= |s| && OccursAt(q, s, k) && t == s[a..b]
    ensures OccursAt(q, t, k - a)
  {
    SliceOfSlice(s, a, b, k - a, k - a + |q|);
  }

  /** A character that is not whitespace lies within the trimmed run. */
  lemma InsideTrim(s: string, j: nat)
    requires j < |s| && !IsSpace(s[j])
    ensures LeadSpaces(s) <= j < LeadSpaces(s) + |Trim(s)|
  {
  }

  /** Whatever occurs in the trimmed text occurs in the text. */
  lemma InfixOfTrim(q: string, s: string)
    requires IsInfix(q, Trim(s))
    ensures IsInfix(q, s)
  {
    var r := Trim(s);
    var i := LeadSpaces(s);
    var k :| OccursAt(q, r, k);
    assert OccursAt(q, r, k);
    SliceOfSlice(s, i, i + |r|, k, k + |q|);
    assert OccursAt(q, s, i + k);
  }

  /** `s` holds the two-character sequence `a b` somewhere. */
  predicate HasPair(s: string, a: char, b: char) {
    exists i :: 0 <= i < |s| - 1 && s[i] == a && s[i + 1] == b
  }

  /**
   * `s.replace(/ab/g, rep)`: a left-to-right scan that replaces every
   * non-overlapping occurrence of the pair `a b` by the single character `rep`.
   */
  function ReplacePair(s: string, a: char, b: char, rep: char): (r: string)
    requires rep != a && rep != b
    ensures !HasPair(r, a, b)
    ensures |r| <= |s|
    ensures r != [] ==> r[0] == rep || r[0] == s[0]
  {
    if |s| < 2 then s
    else if s[0] == a && s[1] == b then [rep] + ReplacePair(s[2..], a, b, rep)
    else
      var t := ReplacePair(s[1..], a, b, rep);
      assert forall i :: 1 <= i < |t| ==> ([s[0]] + t)[i] == t[i - 1];
      [s[0]] + t
  }

  /** A replacement that introduces neither `c` nor `d` creates no pair `c d`. */
  lemma {:induction false} ReplacePairKeepsAbsent(s: string, a: char, b: char, rep: char, c: char, d: char)
    requires rep != a && rep != b && rep != c && rep != d
    requires !HasPair(s, c, d)
    ensures !HasPair(ReplacePair(s, a, b, rep), c, d)
  {
    if |s| < 2 {
    } else if s[0] == a && s[1] == b {
      assert !HasPair(s[2..], c, d) by {
        forall i | 0 <= i < |s| - 3 ensures !(s[2..][i] == c && s[2..][i + 1] == d) {
          assert s[2..][i] == s[i + 2] && s[2..][i + 1] == s[i + 3];
        }
      }
      ReplacePairKeepsAbsent(s[2..], a, b, rep, c, d);
      var t := ReplacePair(s[2..], a, b, rep);
      assert forall i :: 1 <= i < |t| + 1 ==> ([rep] + t)[i] == t[i - 1];
    } else {
      assert !HasPair(s[1..], c, d) by {
        forall i | 0 <= i < |s| - 2 ensures !(s[1..][i] == c && s[1..][i + 1] == d) {
          assert s[1..][i] == s[i + 1] && s[1..][i + 1] == s[i + 2];
        }
      }
      ReplacePairKeepsAbsent(s[1..], a, b, rep, c, d);
      var t := ReplacePair(s[1..], a, b, rep);
      assert forall i :: 1 <= i < |t| + 1 ==> ([s[0]] + t)[i] == t[i - 1];
    }
  }

  /** Text without the pair is left as it is. */
  lemma {:induction false} ReplacePairIdentity(s: string, a: char, b: char, rep: char)
    requires rep != a && rep != b
    requires !HasPair(s, a, b)
    ensures ReplacePair(s, a, b, rep) == s
  {
    if |s| >= 2 {
      assert !(s[0] == a && s[1] == b);
      assert !HasPair(s[1..], a, b) by {
        forall i | 0 <= i < |s| - 2 ensures !(s[1..][i] == a && s[1..][i + 1] == b) {
          assert s[1..][i] == s[i + 1] && s[1..][i + 1] == s[i + 2];
        }
      }
      ReplacePairIdentity(s[1..], a, b, rep);
      assert [s[0]] + s[1..] == s;
    }
  }

  /** Every `rep` written out as the pair `a b`: the text the replacement undoes. */
  function Expand(t: string, rep: char, a: char, b: char): (s: string)
    ensures |s| >= |t|
    ensures t != [] && t[0] != rep ==> s != [] && s[0] == t[0]
    ensures t != [] && t[0] == rep ==> |s| >= 2 && s[0] == a
  {
    if t == [] then []
    else (if t[0] == rep then [a, b] else [t[0]]) + Expand(t[1..], rep, a, b)
  }

  /** Writing out `rep` brings in no character other than `a` and `b`. */
  lemma {:induction false} ExpandKeepsAbsent(t: string, rep: char, a: char, b: char, c: char)
    requires c != a && c != b && c !in t
    ensures c !in Expand(t, rep, a, b)
  {
    if t != [] {
      assert c !in t[1..] by {
        assert forall x :: x in t[1..] ==> x in t;
      }
      ExpandKeepsAbsent(t[1..], rep, a, b, c);
    }
  }

  /**
   * The replacement inverts `Expand`: in a text without the pair `a b`,
   * writing each `rep` as `a b` and replacing the pairs again gives the
   * text back, so each pair becomes exactly one `rep` and every other
   * character is kept, in order.
   */
  lemma {:induction false} ReplacePairExpand(t: string, a: char, b: char, rep: char)
    requires rep != a && rep != b && a != b
    requires !HasPair(t, a, b)
    ensures ReplacePair(Expand(t, rep, a, b), a, b, rep) == t
  {
    if t != [] {
      var e := Expand(t[1..], rep, a, b);
      assert !HasPair(t[1..], a, b) by {
        forall i | 0 <= i < |t| - 2 ensures !(t[1..][i] == a && t[1..][i + 1] == b) {
          assert t[1..][i] == t[i + 1] && t[1..][i + 1] == t[i + 2];
        }
      }
      ReplacePairExpand(t[1..], a, b, rep);
      if t[0] == rep {
        assert Expand(t, rep, a, b) == [a, b] + e;
        assert ([a, b] + e)[2..] == e;
      } else {
        assert Expand(t, rep, a, b) == [t[0]] + e;
        assert ([t[0]] + e)[1..] == e;
        if |t| >= 2 && t[0] == a {
          assert t[1] != b;
        }
        if |[t[0]] + e| < 2 {
          assert e == [] && t[1..] == [];
        }
        assert [t[0]] + t[1..] == t;
      }
    }
  }

  /** `xs.join(sep)`. */
  function Join(xs: seq<string>, sep: string): (r: string)
    ensures xs == [] ==> r == []
    ensures xs != [] ==> xs[0] <= r && |xs[|xs| - 1]| <= |r|
    ensures xs != [] ==> r[|r| - |xs[|xs| - 1]|..] == xs[|xs| - 1]
  {
    if xs == [] then []
    else if |xs| == 1 then xs[0]
    else
      var t := Join(xs[1..], sep);
      assert (xs[0] + sep + t)[|xs[0] + sep + t| - |t|..] == t;
      xs[0] + sep + t
  }

  /**
   * Joining two non-empty lists is joining each and putting one separator
   * between them: the labels appear in order with `sep` between neighbours.
   */
  lemma {:induction false} JoinAppend(xs: seq<string>, ys: seq<string>, sep: string)
    requires xs != [] && ys != []
    ensures Join(xs + ys, sep) == Join(xs, sep) + sep + Join(ys, sep)
  {
    var x, rest := xs[0], xs[1..];
    assert xs == [x] + rest;
    if rest == [] {
      JoinCons(x, ys, sep);
    } else {
      assert xs + ys == [x] + (rest + ys);
      JoinAppend(rest, ys, sep);
      JoinCons(x, rest + ys, sep);
      JoinCons(x, rest, sep);
      Assoc5(x, sep, Join(rest, sep), sep, Join(ys, sep));
    }
  }

  lemma JoinCons(x: string, zs: seq<string>, sep: string)
    requires zs != []
    ensures Join([x] + zs, sep) == x + sep + Join(zs, sep)
  {
    assert ([x] + zs)[1..] == zs;
  }

  lemma Assoc5(a: string, b: string, c: string, d: string, e: string)
    ensures a + b + (c + d + e) == (a + b + c) + d + e
  {
  }

  /** The joined text of two or more labels: the first, a separator, and the rest joined. */
  lemma JoinSnoc(xs: seq<string>, x: string, sep: string)
    requires xs != []
    ensures Join(xs + [x], sep) == Join(xs, sep) + sep + x
  {
    JoinAppend(xs, [x], sep);
  }

  predicate IsDigit(c: char) {
    '0' <= c <= '9'
  }

  function DigitChar(d: nat): (c: char)
    requires d < 10
    ensures IsDigit(c)
  {
    ('0' as int + d) as char
  }

  /** The decimal numeral JavaScript produces when a count meets a string (`12 + ' selected'`). */
  function NatToString(n: nat): (r: string)
    ensures r != []
    ensures forall i :: 0 <= i < |r| ==> IsDigit(r[i])
    ensures r[0] == '0' ==> n == 0
  {
    if n < 10 then [DigitChar(n)]
    else NatToString(n / 10) + [DigitChar(n % 10)]
  }

  /** Reads a numeral back, last digit lowest. */
  function ParseDecimal(s: string): nat
    requires forall i :: 0 <= i < |s| ==> IsDigit(s[i])
  {
    if s == [] then 0
    else
      var d := s[|s| - 1] as int - '0' as int;
      assert IsDigit(s[|s| - 1]);
      ParseDecimal(s[..|s| - 1]) * 10 + d
  }

  /** The numeral denotes the count it was made from. */
  lemma {:induction false} NatToStringRoundTrip(n: nat)
    ensures ParseDecimal(NatToString(n)) == n
  {
    if n >= 10 {
      NatToStringRoundTrip(n / 10);
      var s := NatToString(n);
      assert s[..|s| - 1] == NatToString(n / 10);
    }
  }
}
