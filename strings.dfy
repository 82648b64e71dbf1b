/**
 * The java.lang.String operations the utilities use, on `string` (a `seq<char>`):
 * startsWith, endsWith, indexOf, lastIndexOf, trim, split, replaceAll("  ", " "),
 * compareTo and Integer.toString for non-negative values.
 */
module Strings {

  /** `s.startsWith(p)` */
  predicate StartsWith(s: string, p: string) {
    |p| <= |s| && s[..|p|] == p
  }

  /** `s.endsWith(p)` */
  predicate EndsWith(s: string, p: string) {
    |p| <= |s| && s[|s| - |p|..] == p
  }

  /** `p` occurs in `s` starting at position `i`. */
  predicate OccursAt(s: string, p: string, i: int) {
    0 <= i && i + |p| <= |s| && s[i..i + |p|] == p
  }

  /** `s.indexOf(p)`: the first position where `p` occurs in `s`, or -1. */
  function IndexOf(s: string, p: string): (r: int)
    ensures r == -1 || OccursAt(s, p, r)
    ensures forall i | 0 <= i && (r == -1 || i < r) :: !OccursAt(s, p, i)
  {
    IndexFrom(s, p, 0)
  }

  function IndexFrom(s: string, p: string, from: nat): (r: int)
    requires from <= |s|
    ensures r == -1 || (from <= r && OccursAt(s, p, r))
    ensures forall i | from <= i && (r == -1 || i < r) :: !OccursAt(s, p, i)
    decreases |s| - from
  {
    if from + |p| > |s| then -1
    else if s[from..from + |p|] == p then from
    else IndexFrom(s, p, from + 1)
  }

  /** `s.indexOf(c)` for a character. */
  function IndexOfChar(s: string, c: char): (r: int)
    ensures r == -1 <==> c !in s
    ensures r != -1 ==> 0 <= r < |s| && s[r] == c && c !in s[..r]
  {
    if s == [] then -1
    else if s[0] == c then 0
    else
      var k := IndexOfChar(s[1..], c);
      assert k != -1 ==> s[..k + 1] == [s[0]] + s[1..][..k];
      if k == -1 then -1 else k + 1
  }

  /** `s.lastIndexOf(c)` for a character. */
  function LastIndexOfChar(s: string, c: char): (r: int)
    ensures r == -1 <==> c !in s
    ensures r != -1 ==> 0 <= r < |s| && s[r] == c && c !in s[r + 1..]
  {
    if s == [] then -1
    else if s[|s| - 1] == c then |s| - 1
    else
      var k := LastIndexOfChar(s[..|s| - 1], c);
      assert s == s[..|s| - 1] + [s[|s| - 1]];
      assert k != -1 ==> s[k + 1..] == s[..|s| - 1][k + 1..] + [s[|s| - 1]];
      k
  }

  /** Characters that `String.trim` removes: every code point up to U+0020. */
  predicate IsTrimmed(c: char) {
    c <= ' '
  }

  function TrimStart(s: string): string {
    if s != [] && IsTrimmed(s[0]) then TrimStart(s[1..]) else s
  }

  function TrimEnd(s: string): string {
    if s != [] && IsTrimmed(s[|s| - 1]) then TrimEnd(s[..|s| - 1]) else s
  }

  /** `s.trim()` */
  function Trim(s: string): string {
    TrimEnd(TrimStart(s))
  }

  /** A string that starts and ends with a character above a space is its own trim. */
  lemma TrimKeeps(s: string)
    requires s != [] && !IsTrimmed(s[0]) && !IsTrimmed(s[|s| - 1])
    ensures Trim(s) == s
  {
  }

  /** `s.replaceAll("  ", " ")`: pairs of spaces, matched left to right, become one space. */
  function CollapseDoubleSpaces(s: string): string {
    if |s| >= 2 && s[0] == ' ' && s[1] == ' ' then " " + CollapseDoubleSpaces(s[2..])
    else if s == [] then []
    else [s[0]] + CollapseDoubleSpaces(s[1..])
  }

  /** Every field between delimiters, empty ones included: one more than the delimiters in `s`. */
  function Pieces(s: string, delims: set<char>): (r: seq<string>)
    ensures |r| >= 1
  {
    if s == [] then [""]
    else
      var rest := Pieces(s[1..], delims);
      if s[0] in delims then [""] + rest else [[s[0]] + rest[0]] + rest[1..]
  }

  function DropTrailingEmpty(xs: seq<string>): (r: seq<string>)
    ensures r <= xs
    ensures r == [] || r[|r| - 1] != ""
  {
    if xs != [] && xs[|xs| - 1] == "" then DropTrailingEmpty(xs[..|xs| - 1]) else xs
  }

  /**
   * `s.split(regex)` for a regex that matches exactly one character of `delims`:
   * trailing empty fields are removed, and the empty string splits into one empty field.
   */
  function Split(s: string, delims: set<char>): seq<string> {
    if s == [] then [""] else DropTrailingEmpty(Pieces(s, delims))
  }

  /** No character of `w` is a delimiter. */
  predicate NoDelimiter(w: string, delims: set<char>) {
    forall i | 0 <= i < |w| :: w[i] !in delims
  }

  lemma {:induction false} PiecesPlain(w: string, delims: set<char>)
    requires NoDelimiter(w, delims)
    ensures Pieces(w, delims) == [w]
  {
    if w != [] {
      PiecesPlain(w[1..], delims);
      assert w == [w[0]] + w[1..];
    }
  }

  /** A field followed by a delimiter is split off at the front. */
  lemma {:induction false} PiecesCons(w: string, c: char, rest: string, delims: set<char>)
    requires NoDelimiter(w, delims) && c in delims
    ensures Pieces(w + [c] + rest, delims) == [w] + Pieces(rest, delims)
  {
    if w == [] {
      assert w + [c] + rest == [c] + rest;
      assert ([c] + rest)[1..] == rest;
    } else {
      var s := w + [c] + rest;
      assert s[1..] == w[1..] + [c] + rest;
      PiecesCons(w[1..], c, rest, delims);
      assert w == [w[0]] + w[1..];
    }
  }

  /** Dropping trailing empty fields keeps every field up to a non-empty one. */
  lemma DropTrailingKeeps(xs: seq<string>, k: nat)
    requires k < |xs| && xs[k] != ""
    ensures var r := DropTrailingEmpty(xs); k < |r| && r[..k + 1] == xs[..k + 1]
    decreases |xs|
  {
    if xs[|xs| - 1] == "" {
      DropTrailingKeeps(xs[..|xs| - 1], k);
    }
  }

  /** `a.compareTo(b) <= 0`: lexicographic order by character, a proper prefix first. */
  predicate LessEq(a: string, b: string) {
    if a == [] then true
    else if b == [] then false
    else if a[0] != b[0] then a[0] < b[0]
    else LessEq(a[1..], b[1..])
  }

  lemma {:induction false} LessEqTotal(a: string, b: string)
    ensures LessEq(a, b) || LessEq(b, a)
  {
    if a != [] && b != [] && a[0] == b[0] {
      LessEqTotal(a[1..], b[1..]);
    }
  }

  lemma {:induction false} LessEqReflexive(a: string)
    ensures LessEq(a, a)
  {
    if a != [] {
      LessEqReflexive(a[1..]);
    }
  }

  lemma {:induction false} LessEqAntisymmetric(a: string, b: string)
    requires LessEq(a, b) && LessEq(b, a)
    ensures a == b
  {
    if a != [] && b != [] {
      LessEqAntisymmetric(a[1..], b[1..]);
      assert a == [a[0]] + a[1..] && b == [b[0]] + b[1..];
    }
  }

  lemma {:induction false} LessEqTransitive(a: string, b: string, c: string)
    requires LessEq(a, b) && LessEq(b, c)
    ensures LessEq(a, c)
  {
    if a != [] && b != [] && c != [] && a[0] == b[0] && b[0] == c[0] {
      LessEqTransitive(a[1..], b[1..], c[1..]);
    }
  }

  /** The decimal digit for `d`. */
  function DigitChar(d: nat): char
    requires d < 10
  {
    "0123456789"[d]
  }

  /** `Integer.toString(n)` for `n >= 0`. */
  function NatToString(n: nat): (r: string)
    ensures |r| >= 1
    ensures n >= 10 ==> |r| >= 2
  {
    if n < 10 then [DigitChar(n)] else NatToString(n / 10) + [DigitChar(n % 10)]
  }

  /** A printed number is made of digits only: it holds no space. */
  lemma {:induction false} NatToStringNoSpace(n: nat)
    ensures ' ' !in NatToString(n)
  {
    if n >= 10 {
      NatToStringNoSpace(n / 10);
    }
  }

  /** Different numbers print differently. */
  lemma {:induction false} NatToStringInjective(a: nat, b: nat)
    requires NatToString(a) == NatToString(b)
    ensures a == b
  {
    if a >= 10 && b >= 10 {
      var sa, sb := NatToString(a), NatToString(b);
      assert sa[..|sa| - 1] == NatToString(a / 10);
      assert sb[..|sb| - 1] == NatToString(b / 10);
      NatToStringInjective(a / 10, b / 10);
      assert DigitChar(a % 10) == sa[|sa| - 1] == sb[|sb| - 1] == DigitChar(b % 10);
    }
  }
}
