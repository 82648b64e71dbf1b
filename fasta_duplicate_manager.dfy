/**
 * FastaDuplicateManager: renaming of repeated accessions (`removeDuplicateInFasta`)
 * and comparison of the sequences of repeated accessions (`compareDuplicateInFasta`).
 */
module FastaDuplicateManager {
  import opened Strings
  import opened Seqs
  import opened Fasta
  import opened Wrappers

  // ---------------------------------------------------------------------------
  // Fresh names: `accPref + "_" + nbDup`
  // ---------------------------------------------------------------------------

  /** The name tried for the `k`-th rename of `acc`. */
  function Suffixed(acc: string, k: nat): (r: string)
    ensures |r| > |acc| && r[..|acc|] == acc
  {
    acc + "_" + NatToString(k)
  }

  /** Different indices give different names. */
  lemma SuffixedInjective(acc: string, j: nat, k: nat)
    requires Suffixed(acc, j) == Suffixed(acc, k)
    ensures j == k
  {
    var n := |acc| + 1;
    assert Suffixed(acc, j)[n..] == NatToString(j);
    assert Suffixed(acc, k)[n..] == NatToString(k);
    NatToStringInjective(j, k);
  }

  /** The names `acc_1` .. `acc_k`. */
  function SuffixedUpTo(acc: string, k: nat): set<string> {
    if k == 0 then {} else SuffixedUpTo(acc, k - 1) + {Suffixed(acc, k)}
  }

  lemma {:induction false} SuffixedUpToHas(acc: string, j: nat, k: nat)
    requires 1 <= j <= k
    ensures Suffixed(acc, j) in SuffixedUpTo(acc, k)
  {
    if j < k {
      SuffixedUpToHas(acc, j, k - 1);
    }
  }

  lemma {:induction false} SuffixedUpToLacks(acc: string, j: nat, k: nat)
    requires j > k
    ensures Suffixed(acc, j) !in SuffixedUpTo(acc, k)
  {
    if k > 0 {
      SuffixedUpToLacks(acc, j, k - 1);
      if Suffixed(acc, j) == Suffixed(acc, k) {
        SuffixedInjective(acc, j, k);
      }
    }
  }

  lemma {:induction false} SuffixedUpToCard(acc: string, k: nat)
    ensures |SuffixedUpTo(acc, k)| == k
  {
    if k > 0 {
      SuffixedUpToCard(acc, k - 1);
      SuffixedUpToLacks(acc, k, k - 1);
    }
  }

  /** When `acc_1` .. `acc_k` are all taken, there are at least `k` names. */
  lemma AllTakenBound(names: set<string>, acc: string, k: nat)
    requires forall j | 1 <= j <= k :: Suffixed(acc, j) in names
    ensures k <= |names|
  {
    var taken := SuffixedUpTo(acc, k);
    forall x | x in taken ensures x in names {
      SuffixedMember(acc, k, x);
    }
    SuffixedUpToCard(acc, k);
    assert names == taken + (names - taken);
  }

  lemma {:induction false} SuffixedMember(acc: string, k: nat, x: string)
    requires x in SuffixedUpTo(acc, k)
    ensures exists j | 1 <= j <= k :: x == Suffixed(acc, j)
  {
    if x != Suffixed(acc, k) {
      SuffixedMember(acc, k - 1, x);
    }
  }

  /**
   * The inner loop of lines 49-54: the smallest index `>= k` whose name is not taken.
   * Each taken `acc_j` is a distinct element of `names`, so the search ends.
   */
  function FreeIndex(names: set<string>, acc: string, k: nat): (r: nat)
    requires k >= 1
    requires forall j | 1 <= j < k :: Suffixed(acc, j) in names
    ensures r >= k && Suffixed(acc, r) !in names
    ensures forall j | 1 <= j < r :: Suffixed(acc, j) in names
    decreases |names| + 1 - k
  {
    if Suffixed(acc, k) !in names then k
    else
      AllTakenBound(names, acc, k);
      FreeIndex(names, acc, k + 1)
  }

  /**
   * The accession written for a header whose parsed accession is `acc`: `acc` itself
   * when it is new, otherwise `acc_k` for the smallest `k >= 1` not yet taken.
   */
  function NewAcc(names: set<string>, acc: string): (r: string)
    ensures r !in names
    ensures r == acc <==> acc !in names
    ensures acc in names ==>
      exists k | k >= 1 :: r == Suffixed(acc, k) && forall j | 1 <= j < k :: Suffixed(acc, j) in names
  {
    if acc in names then Suffixed(acc, FreeIndex(names, acc, 1)) else acc
  }

  /** The inner loop of lines 49-54: try `acc_1`, `acc_2`, ... until a name is free. */
  method Rename(names: set<string>, accPref: string) returns (currentAcc: string)
    requires accPref in names
    ensures currentAcc == NewAcc(names, accPref)
  {
    currentAcc := accPref;
    var nbDup := 1;
    while currentAcc in names
      invariant nbDup >= 1
      invariant forall j | 1 <= j < nbDup - 1 :: Suffixed(accPref, j) in names
      invariant currentAcc == if nbDup == 1 then accPref else Suffixed(accPref, nbDup - 1)
      decreases |names| + 2 - nbDup
    {
      if nbDup > 1 {
        assert forall j | 1 <= j <= nbDup - 1 :: Suffixed(accPref, j) in names;
        AllTakenBound(names, accPref, nbDup - 1);
      }
      currentAcc := accPref + "_" + NatToString(nbDup);
      nbDup := nbDup + 1;
    }
    assert FreeIndex(names, accPref, 1) == nbDup - 1;
  }

  // ---------------------------------------------------------------------------
  // removeDuplicateInFasta (lines 23-78)
  // ---------------------------------------------------------------------------

  /**
   * `line.substring(1, index)` throws when the separator is found at position 0 (an
   * empty separator, or one that starts with `>`): the caller must avoid that.
   */
  predicate SplitsCleanly(lines: seq<string>, sep: string) {
    forall i | 0 <= i < |lines| :: IsHeader(lines[i]) ==> !OccursAt(lines[i], sep, 0)
  }

  /**
   * What `removeDuplicateInFasta` has done after some lines: the `names` set, the lines
   * written and `nbDuplicate`; `parsed` and `emitted` list, header by header, the
   * accession read and the accession written.
   */
  datatype RenameState = RenameState(
    names: set<string>, output: seq<string>, nbDuplicate: nat,
    parsed: seq<string>, emitted: seq<string>)

  function RenameLine(st: RenameState, line: string, sep: string): RenameState
    requires IsHeader(line) ==> !OccursAt(line, sep, 0)
  {
    if IsHeader(line) then
      var p := SplitHeader(line, sep);
      var acc := NewAcc(st.names, p.acc);
      RenameState(
        st.names + {acc}, st.output + [">" + acc + " " + p.desc],
        st.nbDuplicate + (if p.acc in st.names then 1 else 0),
        st.parsed + [p.acc], st.emitted + [acc])
    else st.(output := st.output + [line])
  }

  /** The state after reading `lines`, starting with no names. */
  function RenameAll(lines: seq<string>, sep: string): RenameState
    requires SplitsCleanly(lines, sep)
  {
    if lines == [] then RenameState({}, [], 0, [], [])
    else
      var init := lines[..|lines| - 1];
      assert forall i | 0 <= i < |init| :: init[i] == lines[i];
      RenameLine(RenameAll(init, sep), lines[|lines| - 1], sep)
  }

  lemma RenameAllStep(lines: seq<string>, i: nat, sep: string)
    requires i < |lines| && SplitsCleanly(lines, sep)
    ensures SplitsCleanly(lines[..i], sep) && SplitsCleanly(lines[..i + 1], sep)
    ensures RenameAll(lines[..i + 1], sep) == RenameLine(RenameAll(lines[..i], sep), lines[i], sep)
  {
    assert forall k | 0 <= k < i + 1 :: lines[..i + 1][k] == lines[k];
    assert lines[..i + 1][..i] == lines[..i];
  }

  /** Lines 37-44: the accession and the description of a header. */
  method SplitHeaderLine(line: string, separator: string) returns (currentAcc: string, desc: string)
    requires IsHeader(line) && !OccursAt(line, separator, 0)
    ensures HeaderParts(currentAcc, desc) == SplitHeader(line, separator)
  {
    var index := IndexOf(line, separator);
    var hasDesc := index >= 0;
    currentAcc := line[1..];
    desc := "";
    if hasDesc {
      currentAcc := line[1..index];
      desc := line[index..];
    }
  }

  /**
   * `removeDuplicateInFasta`: the lines written and the number of duplicates found
   * are those of `RenameAll`.
   */
  method RemoveDuplicateInFasta(lines: seq<string>, separator: string) returns (output: seq<string>, nbDuplicate: nat)
    requires SplitsCleanly(lines, separator)
    ensures output == RenameAll(lines, separator).output
    ensures nbDuplicate == RenameAll(lines, separator).nbDuplicate
  {
    var names: set<string> := {};
    output := [];
    nbDuplicate := 0;
    ghost var st := RenameState({}, [], 0, [], []);
    var i := 0;
    while i < |lines|
      invariant 0 <= i <= |lines|
      invariant SplitsCleanly(lines[..i], separator)
      invariant st == RenameAll(lines[..i], separator)
      invariant names == st.names && output == st.output && nbDuplicate == st.nbDuplicate
    {
      var line := lines[i];
      RenameAllStep(lines, i, separator);
      if IsHeader(line) {
        var currentAcc, desc := SplitHeaderLine(line, separator);
        if currentAcc in names {
          nbDuplicate := nbDuplicate + 1;
          currentAcc := Rename(names, currentAcc);
          names := names + {currentAcc};
        } else {
          names := names + {currentAcc};
        }
        output := output + [">" + currentAcc + " " + desc];
      } else {
        output := output + [line];
      }
      st := RenameLine(st, line, separator);
      i := i + 1;
    }
    assert lines[..i] == lines;
  }

  /** Lines only ever get appended: the output for a prefix is a prefix of the output. */
  lemma {:induction false} RenameOutputPrefix(lines: seq<string>, sep: string, i: nat)
    requires i <= |lines| && SplitsCleanly(lines, sep)
    ensures SplitsCleanly(lines[..i], sep)
    ensures |RenameAll(lines, sep).output| == |lines|
    ensures RenameAll(lines, sep).output[..i] == RenameAll(lines[..i], sep).output
    decreases |lines|, i
  {
    assert forall k | 0 <= k < i :: lines[..i][k] == lines[k];
    if lines == [] {
    } else if i == |lines| {
      assert lines[..i] == lines;
      RenameOutputPrefix(lines, sep, i - 1);
      RenameAllStep(lines, i - 1, sep);
    } else {
      var n := |lines| - 1;
      var init := lines[..n];
      RenameAllStep(lines, n, sep);
      assert lines[..n + 1] == lines;
      RenameOutputPrefix(init, sep, i);
      assert init[..i] == lines[..i];
    }
  }

  /**
   * One output line per input line (lines 32-72): a sequence line is copied, and a
   * header becomes `>` + the new accession + ` ` + its description, where the new
   * accession is the parsed one when it is not yet among the names seen before this
   * line, and its first free `_k` rename otherwise.
   */
  lemma RenameOutputAt(lines: seq<string>, sep: string, i: nat)
    requires i < |lines| && SplitsCleanly(lines, sep)
    ensures SplitsCleanly(lines[..i], sep)
    ensures |RenameAll(lines, sep).output| == |lines|
    ensures !IsHeader(lines[i]) ==> RenameAll(lines, sep).output[i] == lines[i]
    ensures IsHeader(lines[i]) ==>
      var p := SplitHeader(lines[i], sep);
      RenameAll(lines, sep).output[i] == ">" + NewAcc(RenameAll(lines[..i], sep).names, p.acc) + " " + p.desc
  {
    RenameOutputPrefix(lines, sep, i + 1);
    RenameAllStep(lines, i, sep);
    var out := RenameAll(lines, sep).output;
    assert out[i] == out[..i + 1][i];
  }

  /** The number of positions where two equally long sequences differ. */
  function CountDiffs(a: seq<string>, b: seq<string>): nat
    requires |a| == |b|
  {
    if a == [] then 0
    else CountDiffs(a[..|a| - 1], b[..|b| - 1]) + if a[|a| - 1] != b[|b| - 1] then 1 else 0
  }

  lemma CountDiffsSnoc(a: seq<string>, b: seq<string>, x: string, y: string)
    requires |a| == |b|
    ensures CountDiffs(a + [x], b + [y]) == CountDiffs(a, b) + if x != y then 1 else 0
  {
    assert (a + [x])[..|a|] == a && (b + [y])[..|b|] == b;
  }

  /**
   * The invariant of the renamer (lines 45-59): the names set is exactly the set of
   * accessions written, no accession is written twice, and `nbDuplicate` is the number
   * of headers whose accession was changed.
   */
  lemma {:induction false} RenameInvariant(lines: seq<string>, sep: string)
    requires SplitsCleanly(lines, sep)
    ensures var st := RenameAll(lines, sep);
            && st.names == ToSet(st.emitted)
            && Distinct(st.emitted)
            && |st.parsed| == |st.emitted|
            && st.nbDuplicate == CountDiffs(st.parsed, st.emitted)
  {
    if lines != [] {
      var n := |lines| - 1;
      RenameAllStep(lines, n, sep);
      assert lines[..n + 1] == lines;
      RenameInvariant(lines[..n], sep);
      var st := RenameAll(lines[..n], sep);
      var line := lines[n];
      if IsHeader(line) {
        var p := SplitHeader(line, sep);
        var acc := NewAcc(st.names, p.acc);
        ToSetAppend(st.emitted, acc);
        CountDiffsSnoc(st.parsed, st.emitted, p.acc, acc);
        DistinctSnoc(st.emitted, acc);
      }
    }
  }

  lemma DistinctSnoc(s: seq<string>, x: string)
    requires Distinct(s) && x !in s
    ensures Distinct(s + [x])
  {
  }

  lemma RenameAllSnoc(lines: seq<string>, x: string, sep: string)
    requires SplitsCleanly(lines + [x], sep)
    ensures SplitsCleanly(lines, sep)
    ensures RenameAll(lines + [x], sep) == RenameLine(RenameAll(lines, sep), x, sep)
  {
    assert (lines + [x])[..|lines|] == lines;
    RenameAllStep(lines + [x], |lines|, sep);
  }

  /** A repeated accession takes the first `_k` not yet taken. */
  lemma RenameFirstFree(names: set<string>, acc: string, k: nat)
    requires acc in names && k >= 1
    requires forall j | 1 <= j < k :: Suffixed(acc, j) in names
    requires Suffixed(acc, k) !in names
    ensures NewAcc(names, acc) == Suffixed(acc, k)
  {
    var r := FreeIndex(names, acc, 1);
  }

  /**
   * A repeat takes the first free `_k`, and a name produced by an earlier rename counts
   * as taken: a header `>a_1` read after two `>a` headers is itself renamed.
   */
  lemma RenameCollision()
    ensures NewAcc({"a"}, "a") == "a_1"
    ensures NewAcc({"a", "a_1"}, "a") == "a_2"
    ensures NewAcc({"a", "a_1"}, "a_1") == "a_1_1"
  {
    assert NewAcc({"a"}, "a") == "a_1" by {
      assert Suffixed("a", 1) == "a_1" by { assert NatToString(1) == "1"; }
      RenameFirstFree({"a"}, "a", 1);
    }
    assert NewAcc({"a", "a_1"}, "a") == "a_2" by {
      assert Suffixed("a", 1) == "a_1" by { assert NatToString(1) == "1"; }
      assert Suffixed("a", 2) == "a_2" by { assert NatToString(2) == "2"; }
      RenameFirstFree({"a", "a_1"}, "a", 2);
    }
    assert Suffixed("a_1", 1) == "a_1_1" by { assert NatToString(1) == "1"; }
    RenameFirstFree({"a", "a_1"}, "a_1", 1);
  }

  /** Renaming a file made of one header. */
  lemma RenameSingle(h: string)
    requires IsHeader(h)
    ensures SplitsCleanly([h], " ")
    ensures RenameAll([h], " ").output == [">" + SplitHeader(h, " ").acc + " " + SplitHeader(h, " ").desc]
  {
    SpaceNotFirst(h);
    assert [] + [h] == [h];
    assert SplitsCleanly([h], " ");
    RenameAllSnoc([], h, " ");
    var p := SplitHeader(h, " ");
    assert NewAcc({}, p.acc) == p.acc;
    assert RenameAll([], " ").output == [];
  }

  /** Splitting at a space never throws, whatever the lines. */
  lemma SpaceSplitsCleanly(lines: seq<string>)
    ensures SplitsCleanly(lines, " ")
  {
    forall i | 0 <= i < |lines| && IsHeader(lines[i]) ensures !OccursAt(lines[i], " ", 0) {
      SpaceNotFirst(lines[i]);
    }
  }

  /** A first header followed by a sequence line. */
  lemma RenameFirstPair(a: string, x: string)
    requires ' ' !in a && !IsHeader(x)
    ensures SplitsCleanly([">" + a, x], " ")
    ensures RenameAll([">" + a, x], " ") == RenameState({a}, [">" + a + " ", x], 0, [a], [a])
  {
    var h := ">" + a;
    SpaceSplitsCleanly([h, x]);
    SplitAtFirstSpace(a, "");
    assert ">" + a + "" == ">" + a;
    assert RenameAll([h], " ") == RenameState({a}, [">" + a + " "], 0, [a], [a]) by {
      RenameSingle(h);
      assert ">" + a + " " + "" == ">" + a + " ";
    }
    RenameAllSnoc([h], x, " ");
    assert [h] + [x] == [h, x];
  }

  /** A header repeating the only accession seen so far is renamed with `_1`. */
  lemma RenameRepeatLine(a: string, out: seq<string>)
    requires ' ' !in a
    ensures RenameLine(RenameState({a}, out, 0, [a], [a]), ">" + a, " ")
         == RenameState({a, Suffixed(a, 1)}, out + [">" + Suffixed(a, 1) + " "], 1, [a, a], [a, Suffixed(a, 1)])
  {
    var a1 := Suffixed(a, 1);
    SplitAtFirstSpace(a, "");
    assert ">" + a + "" == ">" + a;
    assert a1 != a;
    RenameFirstFree({a}, a, 1);
    assert ">" + a1 + " " + "" == ">" + a1 + " ";
    assert [a] + [a] == [a, a] && [a] + [a1] == [a, a1];
  }

  /**
   * Two headers with the same accession, each followed by a sequence line: the second
   * is written with `_1` appended.
   */
  lemma RenameRepeat(a: string, x: string, y: string)
    requires ' ' !in a && !IsHeader(x) && !IsHeader(y)
    ensures SplitsCleanly([">" + a, x, ">" + a, y], " ")
    ensures RenameAll([">" + a, x, ">" + a, y], " ").output == [">" + a + " ", x, ">" + Suffixed(a, 1) + " ", y]
    ensures RenameAll([">" + a, x, ">" + a, y], " ").nbDuplicate == 1
  {
    var h, a1 := ">" + a, Suffixed(a, 1);
    SpaceSplitsCleanly([h, x, h, y]);
    SpaceSplitsCleanly([h, x, h]);
    RenameFirstPair(a, x);
    RenameRepeatLine(a, [">" + a + " ", x]);
    RenameAllSnoc([h, x], h, " ");
    assert [h, x] + [h] == [h, x, h];
    RenameAllSnoc([h, x, h], y, " ");
    assert [h, x, h] + [y] == [h, x, h, y];
  }

  /** Two headers with the same accession: the second is written as `a_1`. */
  lemma RenameExample()
    ensures RenameAll([">a", "X", ">a", "Y"], " ").output == [">a ", "X", ">a_1 ", "Y"]
    ensures RenameAll([">a", "X", ">a", "Y"], " ").nbDuplicate == 1
  {
    RenameRepeat("a", "X", "Y");
    assert ">" + "a" == ">a" && ">" + "a" + " " == ">a ";
    assert Suffixed("a", 1) == "a_1" by { assert NatToString(1) == "1"; }
    assert ">" + "a_1" + " " == ">a_1 ";
  }

  /**
   * Renaming is not idempotent on lines: a header is always written back with a space
   * after its accession, so a second pass over the output adds another one.
   */
  lemma RenameTwiceAddsSpace()
    ensures RenameAll([">a"], " ").output == [">a "]
    ensures RenameAll([">a "], " ").output == [">a  "]
  {
    RenamePlainHeader();
    RenameSpacedHeader();
  }

  /** A header without a space gains one after its accession. */
  lemma RenamePlain(a: string)
    requires ' ' !in a
    ensures SplitsCleanly([">" + a], " ")
    ensures RenameAll([">" + a], " ").output == [">" + a + " "]
  {
    SplitAtFirstSpace(a, "");
    assert ">" + a + "" == ">" + a;
    RenameSingle(">" + a);
    assert ">" + a + " " + "" == ">" + a + " ";
  }

  /** A header whose accession is followed by a space gains a second one. */
  lemma RenameSpaced(a: string)
    requires ' ' !in a
    ensures SplitsCleanly([">" + a + " "], " ")
    ensures RenameAll([">" + a + " "], " ").output == [">" + a + " " + " "]
  {
    SplitAtFirstSpace(a, " ");
    RenameSingle(">" + a + " ");
  }

  lemma RenamePlainHeader()
    ensures RenameAll([">a"], " ").output == [">a "]
  {
    RenamePlain("a");
    assert ">" + "a" == ">a" && ">" + "a" + " " == ">a ";
  }

  lemma RenameSpacedHeader()
    ensures RenameAll([">a "], " ").output == [">a  "]
  {
    RenameSpaced("a");
    assert ">" + "a" + " " == ">a " && ">" + "a" + " " + " " == ">a  ";
  }

  /** Renamed with a space separator, an accession still has no space. */
  lemma NewAccNoSpace(names: set<string>, acc: string)
    requires ' ' !in acc
    ensures ' ' !in NewAcc(names, acc)
  {
    if acc in names {
      var k := FreeIndex(names, acc, 1);
      NatToStringNoSpace(k);
      assert Suffixed(acc, k) == acc + ("_" + NatToString(k));
    }
  }

  /**
   * A second pass over the written lines reads back, header by header, exactly the
   * accessions the first pass wrote.
   */
  lemma {:induction false} RenameAgainParsed(lines: seq<string>)
    requires SplitsCleanly(lines, " ")
    ensures SplitsCleanly(RenameAll(lines, " ").output, " ")
    ensures RenameAll(RenameAll(lines, " ").output, " ").parsed == RenameAll(lines, " ").emitted
  {
    SpaceSplitsCleanly(lines);
    var out := RenameAll(lines, " ").output;
    SpaceSplitsCleanly(out);
    if lines != [] {
      var n := |lines| - 1;
      var init, x := lines[..n], lines[n];
      var st := RenameAll(init, " ");
      assert SplitsCleanly(init, " ") && RenameAll(lines, " ") == RenameLine(st, x, " ") by {
        assert lines == init + [x];
        RenameAllSnoc(init, x, " ");
      }
      RenameAgainParsed(init);
      var st2 := RenameAll(st.output, " ");
      var y := out[|out| - 1];
      assert RenameAll(out, " ") == RenameLine(st2, y, " ") by {
        assert out == st.output + [y];
        RenameAllSnoc(st.output, y, " ");
      }
      if IsHeader(x) {
        var p := SplitHeader(x, " ");
        var acc := NewAcc(st.names, p.acc);
        assert IsHeader(y) && SplitHeader(y, " ").acc == acc by {
          ReadBack(st.names, x);
        }
      }
    }
  }

  /** The header written for `x` splits back, at its first space, into the accession written. */
  lemma ReadBack(names: set<string>, x: string)
    requires IsHeader(x)
    ensures var p := SplitHeader(x, " ");
            var acc := NewAcc(names, p.acc);
            var y := ">" + acc + " " + p.desc;
            IsHeader(y) && SplitHeader(y, " ").acc == acc
  {
    var p := SplitHeader(x, " ");
    var acc := NewAcc(names, p.acc);
    SplitAccNoSpace(x);
    NewAccNoSpace(names, p.acc);
    assert ">" + acc + " " + p.desc == ">" + acc + (" " + p.desc);
    SplitAtFirstSpace(acc, " " + p.desc);
  }

  /** Accessions that never repeat are all kept: nothing is renamed. */
  lemma {:induction false} DistinctNotRenamed(lines: seq<string>, sep: string)
    requires SplitsCleanly(lines, sep) && Distinct(RenameAll(lines, sep).parsed)
    ensures var st := RenameAll(lines, sep);
            st.nbDuplicate == 0 && st.emitted == st.parsed && st.names == ToSet(st.parsed)
  {
    if lines != [] {
      var n := |lines| - 1;
      var init, x := lines[..n], lines[n];
      assert lines == init + [x];
      RenameAllSnoc(init, x, sep);
      var st := RenameAll(init, sep);
      if IsHeader(x) {
        var acc := SplitHeader(x, sep).acc;
        var ps := st.parsed + [acc];
        assert forall i | 0 <= i < |st.parsed| :: st.parsed[i] == ps[i] && st.parsed[i] != ps[|ps| - 1];
        DistinctNotRenamed(init, sep);
        ToSetAppend(st.parsed, acc);
      } else {
        DistinctNotRenamed(init, sep);
      }
    }
  }

  /**
   * Renaming the written lines again with a space separator renames nothing: every
   * accession written by the first pass is distinct and holds no space.
   */
  lemma RenameAgain(lines: seq<string>)
    requires SplitsCleanly(lines, " ")
    ensures SplitsCleanly(RenameAll(lines, " ").output, " ")
    ensures RenameAll(RenameAll(lines, " ").output, " ").nbDuplicate == 0
  {
    RenameAgainParsed(lines);
    RenameInvariant(lines, " ");
    DistinctNotRenamed(RenameAll(lines, " ").output, " ");
  }

  // ---------------------------------------------------------------------------
  // compareDuplicateInFasta (lines 88-138)
  // ---------------------------------------------------------------------------

  /** The accession of an entry: the header split at its first space, whatever separator is given (lines 121-128). */
  function AccOf(e: Entry): string
    requires IsHeader(e.header)
  {
    SpaceNotFirst(e.header);
    SplitHeader(e.header, " ").acc
  }

  /** The sequence of an entry: its body lines appended one after the other. */
  function Concat(body: seq<string>): (r: string)
    ensures body == [] ==> r == ""
  {
    if body == [] then "" else Concat(body[..|body| - 1]) + body[|body| - 1]
  }

  lemma ConcatSnoc(body: seq<string>, x: string)
    ensures Concat(body + [x]) == Concat(body) + x
  {
    assert (body + [x])[..|body|] == body;
  }

  /** `seqByAcc` and the two counters. */
  datatype CompareState = CompareState(seqByAcc: map<string, string>, nbDuplicate: nat, nbDupDiff: nat)

  predicate HeadersOk(es: seq<Entry>) {
    forall k | 0 <= k < |es| :: IsHeader(es[k].header)
  }

  /** Lines 102-115: the sequence `s` read for accession `acc` is stored, or compared with the one stored. */
  function Record(st: CompareState, acc: string, s: string): CompareState {
    if acc in st.seqByAcc then
      CompareState(st.seqByAcc, st.nbDuplicate + 1, st.nbDupDiff + if st.seqByAcc[acc] == s then 0 else 1)
    else st.(seqByAcc := st.seqByAcc[acc := s])
  }

  /** One entry is evaluated against the sequences stored so far. */
  function Evaluate(st: CompareState, e: Entry): CompareState
    requires IsHeader(e.header)
  {
    Record(st, AccOf(e), Concat(e.body))
  }

  /** Lines 102-115 in place: the entry just closed is recorded. */
  method Close(seqByAcc: map<string, string>, nbDuplicate: nat, nbDupDiff: nat, acc: string, sequence: string)
    returns (seqByAcc': map<string, string>, nbDuplicate': nat, nbDupDiff': nat)
    ensures CompareState(seqByAcc', nbDuplicate', nbDupDiff') == Record(CompareState(seqByAcc, nbDuplicate, nbDupDiff), acc, sequence)
  {
    seqByAcc', nbDuplicate', nbDupDiff' := seqByAcc, nbDuplicate, nbDupDiff;
    if acc in seqByAcc {
      nbDuplicate' := nbDuplicate + 1;
      var prevSeq := seqByAcc[acc];
      if prevSeq != sequence {
        nbDupDiff' := nbDupDiff + 1;
      }
    } else {
      seqByAcc' := seqByAcc[acc := sequence];
    }
  }

  function EvaluateAll(es: seq<Entry>): CompareState
    requires HeadersOk(es)
  {
    if es == [] then CompareState(map[], 0, 0)
    else
      assert HeadersOk(es[..|es| - 1]);
      Evaluate(EvaluateAll(es[..|es| - 1]), es[|es| - 1])
  }

  lemma EvaluateAllSnoc(es: seq<Entry>, e: Entry)
    requires HeadersOk(es) && IsHeader(e.header)
    ensures HeadersOk(es + [e])
    ensures EvaluateAll(es + [e]) == Evaluate(EvaluateAll(es), e)
  {
    assert (es + [e])[..|es|] == es;
  }

  /** All entries but the last, which no later header closes. */
  function Pending(es: seq<Entry>): seq<Entry> {
    if es == [] then [] else es[..|es| - 1]
  }

  /** The entries `compareDuplicateInFasta` evaluates. */
  function Evaluated(lines: seq<string>): (es: seq<Entry>)
    ensures HeadersOk(es)
  {
    Pending(Entries(lines))
  }

  /** A header closes the open entry, which is evaluated. */
  lemma PendingHeader(es: seq<Entry>, line: string)
    requires IsHeader(line) && HeadersOk(es)
    ensures HeadersOk(es + [Entry(line, [])]) && Pending(es + [Entry(line, [])]) == es
    ensures es != [] ==> HeadersOk(Pending(es)) && EvaluateAll(es) == Evaluate(EvaluateAll(Pending(es)), es[|es| - 1])
  {
    PendingSnoc(es, Entry(line, []));
  }

  lemma PendingSnoc(es: seq<Entry>, e: Entry)
    ensures Pending(es + [e]) == es
  {
    assert (es + [e])[..|es|] == es;
  }

  /** A sequence line extends the open entry and leaves the evaluated ones alone. */
  lemma PendingBody(es: seq<Entry>, line: string)
    requires es != [] && HeadersOk(es)
    ensures HeadersOk(Grow(es, line)) && Pending(Grow(es, line)) == Pending(es)
    ensures var g := Grow(es, line)[|es| - 1];
            g.header == es[|es| - 1].header && Concat(g.body) == Concat(es[|es| - 1].body) + line
  {
    ConcatSnoc(es[|es| - 1].body, line);
  }

  function Compare(lines: seq<string>): CompareState {
    EvaluateAll(Evaluated(lines))
  }

  /** The variables of `compareDuplicateInFasta` besides the lines: the counts and map, `seq` and `currentAcc`. */
  datatype CompareScan = CompareScan(st: CompareState, sequence: string, currentAcc: Option<string>)

  /** Lines 99-132 after the lines `lines`: a header closes the open entry, any other line extends its sequence. */
  function ScanCompare(lines: seq<string>): CompareScan {
    if lines == [] then CompareScan(CompareState(map[], 0, 0), "", None)
    else
      var s := ScanCompare(lines[..|lines| - 1]);
      var line := lines[|lines| - 1];
      if IsHeader(line) then
        var st := if s.currentAcc.Some? then Record(s.st, s.currentAcc.value, s.sequence) else s.st;
        CompareScan(st, "", Some(AccOf(Entry(line, []))))
      else CompareScan(s.st, s.sequence + line, s.currentAcc)
  }

  /**
   * Line by line, `currentAcc` and `seq` are the accession and the sequence of the
   * open entry, and the counts and map are those of evaluating every closed entry.
   */
  lemma {:induction false} ScanCompareEntries(lines: seq<string>)
    ensures var s, es := ScanCompare(lines), Entries(lines);
            && HeadersOk(es) && HeadersOk(Pending(es))
            && s.st == EvaluateAll(Pending(es))
            && (es == [] ==> s.currentAcc == None)
            && (es != [] ==> s.currentAcc == Some(AccOf(es[|es| - 1])) && s.sequence == Concat(es[|es| - 1].body))
  {
    if lines != [] {
      var init, line := lines[..|lines| - 1], lines[|lines| - 1];
      assert lines == init + [line];
      ScanCompareEntries(init);
      EntriesSnoc(init, line);
      var es := Entries(init);
      if IsHeader(line) {
        PendingHeader(es, line);
        assert Concat([]) == "";
      } else if es != [] {
        PendingBody(es, line);
      }
    }
  }

  /**
   * `compareDuplicateInFasta`: the counts are those of the evaluated entries. The
   * separator argument is never used.
   */
  method CompareDuplicateInFasta(lines: seq<string>, separator: string) returns (nbDuplicate: nat, nbDupDiff: nat)
    ensures nbDuplicate == Compare(lines).nbDuplicate
    ensures nbDupDiff == Compare(lines).nbDupDiff
  {
    var seqByAcc: map<string, string> := map[];
    nbDuplicate := 0;
    nbDupDiff := 0;
    var sequence := "";
    var currentAcc: Option<string> := None;
    var i := 0;
    while i < |lines|
      invariant 0 <= i <= |lines|
      invariant CompareScan(CompareState(seqByAcc, nbDuplicate, nbDupDiff), sequence, currentAcc) == ScanCompare(lines[..i])
    {
      var line := lines[i];
      assert lines[..i + 1][..i] == lines[..i];
      if IsHeader(line) {
        if currentAcc.Some? {
          seqByAcc, nbDuplicate, nbDupDiff := Close(seqByAcc, nbDuplicate, nbDupDiff, currentAcc.value, sequence);
        }
        sequence := "";
        SpaceNotFirst(line);
        var acc, desc := SplitHeaderLine(line, " ");
        currentAcc := Some(acc);
      } else {
        sequence := sequence + line;
      }
      i := i + 1;
    }
    assert lines[..i] == lines;
    ScanCompareEntries(lines);
  }

  /** The accessions of a sequence of entries, in order. */
  function AccList(es: seq<Entry>): (r: seq<string>)
    requires HeadersOk(es)
    ensures |r| == |es| && forall k | 0 <= k < |es| :: r[k] == AccOf(es[k])
  {
    if es == [] then []
    else
      assert HeadersOk(es[..|es| - 1]);
      AccList(es[..|es| - 1]) + [AccOf(es[|es| - 1])]
  }

  lemma AccListSnoc(es: seq<Entry>, e: Entry)
    requires HeadersOk(es) && IsHeader(e.header)
    ensures HeadersOk(es + [e]) && AccList(es + [e]) == AccList(es) + [AccOf(e)]
  {
    assert (es + [e])[..|es|] == es;
  }

  /** Entries with the same accession have the same sequence. */
  predicate Consistent(es: seq<Entry>)
    requires HeadersOk(es)
  {
    var a := AccList(es);
    forall i, j | 0 <= i < j < |es| && a[i] == a[j] :: Concat(es[i].body) == Concat(es[j].body)
  }

  /** The map has one key per distinct accession. */
  predicate KeysMatch(st: CompareState, es: seq<Entry>)
    requires HeadersOk(es)
  {
    st.seqByAcc.Keys == ToSet(AccList(es))
  }

  /** Each key is bound to the sequence of the first entry with that accession. */
  predicate FirstSeqs(st: CompareState, es: seq<Entry>)
    requires HeadersOk(es)
  {
    var a := AccList(es);
    forall acc | acc in st.seqByAcc :: acc in a && st.seqByAcc[acc] == Concat(es[FirstIndex(a, acc)].body)
  }

  /** Every entry that is not the first of its accession is a duplicate; differing ones are among them. */
  predicate CountsMatch(st: CompareState, es: seq<Entry>) {
    st.nbDuplicate + |st.seqByAcc.Keys| == |es| && st.nbDupDiff <= st.nbDuplicate
  }

  /** No duplicate differs exactly when entries sharing an accession share a sequence. */
  predicate DiffMatch(st: CompareState, es: seq<Entry>)
    requires HeadersOk(es)
  {
    st.nbDupDiff == 0 <==> Consistent(es)
  }

  /** What the evaluation of `es` holds. */
  predicate Summarises(st: CompareState, es: seq<Entry>)
    requires HeadersOk(es)
  {
    KeysMatch(st, es) && FirstSeqs(st, es) && CountsMatch(st, es) && DiffMatch(st, es)
  }

  lemma {:induction false} EvaluateAllSummarises(es: seq<Entry>)
    requires HeadersOk(es)
    ensures Summarises(EvaluateAll(es), es)
  {
    if es != [] {
      var init, e := es[..|es| - 1], es[|es| - 1];
      assert es == init + [e];
      assert HeadersOk(init);
      EvaluateAllSummarises(init);
      EvaluateAllSnoc(init, e);
      AccListSnoc(init, e);
      var st := EvaluateAll(init);
      KeysSnoc(st, init, e);
      FirstSeqsSnoc(st, init, e);
      CountsSnoc(st, init, e);
      DiffSnoc(st, init, e);
    }
  }

  lemma KeysSnoc(st: CompareState, es: seq<Entry>, e: Entry)
    requires HeadersOk(es) && IsHeader(e.header) && KeysMatch(st, es)
    ensures HeadersOk(es + [e]) && KeysMatch(Evaluate(st, e), es + [e])
  {
    AccListSnoc(es, e);
    ToSetAppend(AccList(es), AccOf(e));
  }

  lemma CountsSnoc(st: CompareState, es: seq<Entry>, e: Entry)
    requires HeadersOk(es) && IsHeader(e.header) && CountsMatch(st, es)
    ensures CountsMatch(Evaluate(st, e), es + [e])
  {
    var acc := AccOf(e);
    if acc !in st.seqByAcc {
      assert st.seqByAcc[acc := Concat(e.body)].Keys == st.seqByAcc.Keys + {acc};
    }
  }

  lemma FirstSeqsSnoc(st: CompareState, es: seq<Entry>, e: Entry)
    requires HeadersOk(es) && IsHeader(e.header) && KeysMatch(st, es) && FirstSeqs(st, es)
    ensures HeadersOk(es + [e]) && FirstSeqs(Evaluate(st, e), es + [e])
  {
    AccListSnoc(es, e);
    var a, acc := AccList(es), AccOf(e);
    var a' := a + [acc];
    var st' := Evaluate(st, e);
    forall x | x in st'.seqByAcc
      ensures x in a' && st'.seqByAcc[x] == Concat((es + [e])[FirstIndex(a', x)].body)
    {
      if x in a {
        FirstIndexSnoc(a, acc, x);
        assert x in st.seqByAcc by { assert x in ToSet(a); }
      } else {
        assert x == acc && acc !in st.seqByAcc;
        assert FirstIndex(a', x) == |es| by {
          assert a'[|es|] == x;
        }
      }
    }
  }

  /** Consistency of a longer sequence carries over to its prefix. */
  lemma ConsistentPrefix(es: seq<Entry>, e: Entry)
    requires HeadersOk(es) && IsHeader(e.header)
    ensures HeadersOk(es + [e]) && (Consistent(es + [e]) ==> Consistent(es))
  {
    AccListSnoc(es, e);
    assert forall k | 0 <= k < |es| :: (es + [e])[k] == es[k];
  }

  lemma DiffSnoc(st: CompareState, es: seq<Entry>, e: Entry)
    requires HeadersOk(es) && IsHeader(e.header)
    requires KeysMatch(st, es) && FirstSeqs(st, es) && DiffMatch(st, es)
    ensures HeadersOk(es + [e]) && DiffMatch(Evaluate(st, e), es + [e])
  {
    ConsistentPrefix(es, e);
    if Consistent(es + [e]) {
      DiffSnocSame(st, es, e);
    } else if Evaluate(st, e).nbDupDiff == 0 {
      DiffSnocConsistent(st, es, e);
    }
  }

  /** A consistent file adds no differing duplicate. */
  lemma DiffSnocSame(st: CompareState, es: seq<Entry>, e: Entry)
    requires HeadersOk(es) && IsHeader(e.header)
    requires KeysMatch(st, es) && FirstSeqs(st, es) && st.nbDupDiff == 0
    requires HeadersOk(es + [e]) && Consistent(es + [e])
    ensures Evaluate(st, e).nbDupDiff == 0
  {
    AccListSnoc(es, e);
    var a, acc := AccList(es), AccOf(e);
    if acc in st.seqByAcc {
      var f := FirstIndex(a, acc);
      var a' := AccList(es + [e]);
      assert a'[f] == a'[|es|];
      assert (es + [e])[f] == es[f];
    }
  }

  /** Without a differing duplicate, the file read so far is consistent. */
  lemma DiffSnocConsistent(st: CompareState, es: seq<Entry>, e: Entry)
    requires HeadersOk(es) && IsHeader(e.header)
    requires KeysMatch(st, es) && FirstSeqs(st, es) && DiffMatch(st, es)
    requires Evaluate(st, e).nbDupDiff == 0
    ensures HeadersOk(es + [e]) && Consistent(es + [e])
  {
    AccListSnoc(es, e);
    var a, acc := AccList(es), AccOf(e);
    var es', a' := es + [e], a + [acc];
    forall i, j | 0 <= i < j < |es'| && a'[i] == a'[j]
      ensures Concat(es'[i].body) == Concat(es'[j].body)
    {
      assert es'[i] == es[i] && a'[i] == a[i];
      if j == |es| {
        LastAgrees(st, es, e, i);
      } else {
        assert es'[j] == es[j] && a'[j] == a[j];
      }
    }
  }

  /** An earlier entry with the accession of a new entry that adds no differing duplicate has its sequence. */
  lemma LastAgrees(st: CompareState, es: seq<Entry>, e: Entry, i: nat)
    requires HeadersOk(es) && IsHeader(e.header)
    requires KeysMatch(st, es) && FirstSeqs(st, es) && DiffMatch(st, es)
    requires Evaluate(st, e).nbDupDiff == 0
    requires i < |es| && AccOf(es[i]) == AccOf(e)
    ensures Concat(es[i].body) == Concat(e.body)
  {
    var a, acc := AccList(es), AccOf(e);
    assert a[i] == acc;
    assert acc in ToSet(a);
    var f := FirstIndex(a, acc);
    if i != f {
      assert a[i] == a[f];
    }
  }

  /**
   * The counts of `compareDuplicateInFasta`: every evaluated entry whose accession
   * was seen before is a duplicate, at most all of them differ, and none differs
   * exactly when all entries sharing an accession share a sequence.
   */
  lemma CompareCounts(lines: seq<string>)
    ensures var es, st := Evaluated(lines), Compare(lines);
            && st.nbDuplicate == |es| - |ToSet(AccList(es))|
            && st.nbDupDiff <= st.nbDuplicate
            && (st.nbDupDiff == 0 <==> Consistent(es))
  {
    EvaluateAllSummarises(Evaluated(lines));
  }

  /** The map holds, for each accession seen, the sequence of its first entry. */
  lemma CompareKeepsFirst(lines: seq<string>)
    ensures var es, st := Evaluated(lines), Compare(lines);
            && st.seqByAcc.Keys == ToSet(AccList(es))
            && forall acc | acc in st.seqByAcc :: st.seqByAcc[acc] == Concat(es[FirstIndex(AccList(es), acc)].body)
  {
    EvaluateAllSummarises(Evaluated(lines));
  }

  /** A sequence line changes nothing that is counted: the last entry is never evaluated. */
  lemma CompareBodyLine(lines: seq<string>, x: string)
    requires !IsHeader(x)
    ensures Compare(lines + [x]) == Compare(lines)
  {
    EntriesSnoc(lines, x);
    var es := Entries(lines);
    if es != [] {
      PendingBody(es, x);
    }
  }

  /** A header closes the open entry, which is then evaluated. */
  lemma CompareHeaderLine(lines: seq<string>, x: string)
    requires IsHeader(x)
    ensures Evaluated(lines + [x]) == Entries(lines)
  {
    EntriesSnoc(lines, x);
    PendingSnoc(Entries(lines), Entry(x, []));
  }

  /** The evaluation the method leaves out: every entry, the last one included. */
  function CompareAll(lines: seq<string>): (st: CompareState)
    ensures var es := Entries(lines);
            && HeadersOk(es)
            && st.nbDuplicate == |es| - |ToSet(AccList(es))|
            && st.nbDupDiff <= st.nbDuplicate
            && (st.nbDupDiff == 0 <==> Consistent(es))
  {
    var es := Entries(lines);
    EvaluateAllSummarises(es);
    EvaluateAll(es)
  }

  /** A header followed by one sequence line appends one entry. */
  lemma EntriesHeaderLine(ls: seq<string>, h: string, x: string)
    requires IsHeader(h) && !IsHeader(x)
    ensures Entries(ls + [h, x]) == Entries(ls) + [Entry(h, [x])]
  {
    var es := Entries(ls);
    EntriesSnoc(ls, h);
    EntriesSnoc(ls + [h], x);
    assert ls + [h] + [x] == ls + [h, x];
    assert (es + [Entry(h, [])])[..|es|] == es;
    assert [] + [x] == [x];
  }

  /** Two headers, each followed by one sequence line, make two entries. */
  lemma TwoEntries(h1: string, x: string, h2: string, y: string)
    requires IsHeader(h1) && IsHeader(h2) && !IsHeader(x) && !IsHeader(y)
    ensures Entries([h1, x, h2, y]) == [Entry(h1, [x]), Entry(h2, [y])]
  {
    var first := [h1, x];
    assert Entries(first) == [Entry(h1, [x])] by {
      EntriesHeaderLine([], h1, x);
      assert [] + [h1, x] == first;
    }
    assert Entries(first + [h2, y]) == Entries(first) + [Entry(h2, [y])] by {
      EntriesHeaderLine(first, h2, y);
    }
    assert first + [h2, y] == [h1, x, h2, y];
  }

  lemma ExampleEntries()
    ensures Entries([">a", "X", ">a", "Y"]) == [Entry(">a", ["X"]), Entry(">a", ["Y"])]
  {
    TwoEntries(">a", "X", ">a", "Y");
  }

  /** Evaluating one entry reports nothing; a second one with the same accession and another sequence is a differing duplicate. */
  lemma EvaluateTwo(e1: Entry, e2: Entry)
    requires IsHeader(e1.header) && IsHeader(e2.header)
    requires AccOf(e1) == AccOf(e2) && Concat(e1.body) != Concat(e2.body)
    ensures HeadersOk([e1]) && EvaluateAll([e1]).nbDuplicate == 0
    ensures HeadersOk([e1, e2]) && EvaluateAll([e1, e2]).nbDuplicate == 1 && EvaluateAll([e1, e2]).nbDupDiff == 1
  {
    EvaluateAllSnoc([], e1);
    assert [] + [e1] == [e1];
    EvaluateAllSnoc([e1], e2);
    assert [e1] + [e2] == [e1, e2];
  }

  /**
   * Two entries for `a` with different sequences, the second one last in the file:
   * it is never compared, so nothing is reported, while evaluating every entry
   * reports one differing duplicate.
   */
  lemma LastEntryNeverCompared()
    ensures Compare([">a", "X", ">a", "Y"]).nbDuplicate == 0
    ensures CompareAll([">a", "X", ">a", "Y"]).nbDuplicate == 1
    ensures CompareAll([">a", "X", ">a", "Y"]).nbDupDiff == 1
  {
    var e1, e2 := Entry(">a", ["X"]), Entry(">a", ["Y"]);
    assert AccOf(e1) == "a" && AccOf(e2) == "a" by {
      SplitAtFirstSpace("a", "");
      assert ">" + "a" + "" == ">a";
    }
    assert Concat(["X"]) == "X" by { assert ["X"][..0] == []; }
    assert Concat(["Y"]) == "Y" by { assert ["Y"][..0] == []; }
    EvaluateTwo(e1, e2);
    ExampleEntries();
    assert Pending([e1, e2]) == [e1];
  }
}
