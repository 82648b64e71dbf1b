/**
 * FASTA files as sequences of lines (line terminators already stripped, as
 * `BufferedReader.readLine` does). A header line starts with `>`; an entry is a
 * header with the lines that follow it up to the next header.
 */
module Fasta {
  import opened Strings
  import opened Seqs

  /** `line.startsWith(">")` */
  predicate IsHeader(line: string) {
    |line| > 0 && line[0] == '>'
  }

  /** A header line and the non-header lines after it. */
  datatype Entry = Entry(header: string, body: seq<string>)

  predicate WellFormed(e: Entry) {
    IsHeader(e.header) && forall l | 0 <= l < |e.body| :: !IsHeader(e.body[l])
  }

  /** The lines of one entry, as they stand in the file. */
  function EntryLines(e: Entry): seq<string> {
    [e.header] + e.body
  }

  /** `f` applied to every entry, the results concatenated in order. */
  function ConcatMap(f: Entry -> seq<string>, es: seq<Entry>): seq<string> {
    if es == [] then [] else ConcatMap(f, es[..|es| - 1]) + f(es[|es| - 1])
  }

  lemma ConcatMapSnoc(f: Entry -> seq<string>, es: seq<Entry>, e: Entry)
    ensures ConcatMap(f, es + [e]) == ConcatMap(f, es) + f(e)
  {
    assert (es + [e])[..|es|] == es;
  }

  /** All the lines of a sequence of entries. */
  function Flatten(es: seq<Entry>): seq<string> {
    ConcatMap(EntryLines, es)
  }

  /**
   * The entries of a file in order. The file is read line by line: a header opens a
   * new entry and any other line joins the entry that is open; lines before the first
   * header belong to no entry.
   */
  function Entries(lines: seq<string>): (es: seq<Entry>)
    ensures forall k | 0 <= k < |es| :: WellFormed(es[k])
  {
    if lines == [] then []
    else
      var init := Entries(lines[..|lines| - 1]);
      var line := lines[|lines| - 1];
      if IsHeader(line) then init + [Entry(line, [])]
      else if init == [] then []
      else init[..|init| - 1] + [Entry(init[|init| - 1].header, init[|init| - 1].body + [line])]
  }

  /** A file has no entries exactly when none of its lines is a header. */
  lemma {:induction false} EntriesNone(lines: seq<string>)
    ensures Entries(lines) == [] <==> forall i | 0 <= i < |lines| :: !IsHeader(lines[i])
  {
    if lines != [] {
      var init, x := lines[..|lines| - 1], lines[|lines| - 1];
      EntriesNone(init);
      assert forall i | 0 <= i < |init| :: init[i] == lines[i];
      if !IsHeader(x) && Entries(init) != [] {
        var k :| 0 <= k < |init| && IsHeader(init[k]);
        assert IsHeader(lines[k]);
      }
    }
  }

  /** The entries once the last one has gained the body line `line`. */
  function Grow(es: seq<Entry>, line: string): (r: seq<Entry>)
    requires es != []
    ensures |r| == |es| && r[..|es| - 1] == es[..|es| - 1]
    ensures r[|es| - 1] == Entry(es[|es| - 1].header, es[|es| - 1].body + [line])
  {
    var last := es[|es| - 1];
    es[..|es| - 1] + [Entry(last.header, last.body + [line])]
  }

  /** Reading one more line: a header opens an entry, any other line joins the open one or is skipped. */
  lemma EntriesSnoc(ls: seq<string>, line: string)
    ensures IsHeader(line) ==> Entries(ls + [line]) == Entries(ls) + [Entry(line, [])]
    ensures !IsHeader(line) && Entries(ls) == [] ==> Entries(ls + [line]) == []
    ensures !IsHeader(line) && Entries(ls) != [] ==> Entries(ls + [line]) == Grow(Entries(ls), line)
  {
    assert (ls + [line])[..|ls|] == ls;
  }

  /** The entries once one more line has been read. */
  function AddLine(es: seq<Entry>, line: string): seq<Entry> {
    if IsHeader(line) then es + [Entry(line, [])]
    else if es == [] then []
    else Grow(es, line)
  }

  lemma EntriesStep(lines: seq<string>, i: nat)
    requires i < |lines|
    ensures Entries(lines[..i + 1]) == AddLine(Entries(lines[..i]), lines[i])
  {
    assert lines[..i + 1] == lines[..i] + [lines[i]];
    EntriesSnoc(lines[..i], lines[i]);
  }

  /** `ConcatMap` over grown entries: only the part of the last entry changes. */
  lemma ConcatMapGrow(f: Entry -> seq<string>, es: seq<Entry>, line: string)
    requires es != []
    ensures var last := es[|es| - 1];
            && ConcatMap(f, es) == ConcatMap(f, es[..|es| - 1]) + f(last)
            && ConcatMap(f, Grow(es, line)) == ConcatMap(f, es[..|es| - 1]) + f(Entry(last.header, last.body + [line]))
  {
    var last := es[|es| - 1];
    ConcatMapSnoc(f, es[..|es| - 1], Entry(last.header, last.body + [line]));
  }

  /** The lines before the first header. */
  function Preamble(lines: seq<string>): (p: seq<string>)
    ensures p <= lines
    ensures forall i | 0 <= i < |p| :: !IsHeader(p[i])
    ensures |p| < |lines| ==> IsHeader(lines[|p|])
  {
    if lines == [] || IsHeader(lines[0]) then [] else [lines[0]] + Preamble(lines[1..])
  }

  /** Extending a file keeps its preamble once a header has been read. */
  lemma PreambleOfPrefix(lines: seq<string>, x: string)
    ensures Preamble(lines + [x]) == (if |Preamble(lines)| < |lines| || IsHeader(x) then Preamble(lines) else lines + [x])
  {
    var p := Preamble(lines);
    assert p == lines[..|p|];
    assert forall i | 0 <= i < |lines| :: (lines + [x])[i] == lines[i];
    if |p| < |lines| || IsHeader(x) {
      PreambleUnique(lines + [x], p);
    } else {
      assert p == lines;
      PreambleUnique(lines + [x], lines + [x]);
    }
  }

  /** The preamble is the one header-free prefix that is followed by a header or the end. */
  lemma PreambleUnique(lines: seq<string>, p: seq<string>)
    requires p <= lines
    requires forall i | 0 <= i < |p| :: !IsHeader(p[i])
    requires |p| < |lines| ==> IsHeader(lines[|p|])
    ensures Preamble(lines) == p
  {
    var q := Preamble(lines);
    if |q| < |p| {
      assert false;
    } else if |p| < |q| {
      assert false;
    }
    assert q == lines[..|q|] && p == lines[..|p|];
  }

  /** A file is its preamble followed by the lines of its entries: nothing is lost or reordered. */
  lemma {:induction false} EntriesPartition(lines: seq<string>)
    ensures Preamble(lines) + Flatten(Entries(lines)) == lines
  {
    if lines != [] {
      var init, x := lines[..|lines| - 1], lines[|lines| - 1];
      assert lines == init + [x];
      EntriesPartition(init);
      PreambleOfPrefix(init, x);
      if IsHeader(x) {
        PartitionHeaderStep(init, x);
      } else if Entries(init) == [] {
        PartitionPreambleStep(init, x);
      } else {
        PartitionBodyStep(init, x);
      }
    }
  }

  lemma PartitionHeaderStep(init: seq<string>, x: string)
    requires IsHeader(x)
    requires Preamble(init) + Flatten(Entries(init)) == init
    ensures Preamble(init + [x]) + Flatten(Entries(init + [x])) == init + [x]
  {
    assert (init + [x])[..|init|] == init;
    PreambleOfPrefix(init, x);
    ConcatMapSnoc(EntryLines, Entries(init), Entry(x, []));
  }

  lemma PartitionPreambleStep(init: seq<string>, x: string)
    requires !IsHeader(x) && Entries(init) == []
    requires Preamble(init) + Flatten(Entries(init)) == init
    ensures Preamble(init + [x]) + Flatten(Entries(init + [x])) == init + [x]
  {
    assert (init + [x])[..|init|] == init;
    PreambleOfPrefix(init, x);
  }

  lemma PartitionBodyStep(init: seq<string>, x: string)
    requires !IsHeader(x) && Entries(init) != []
    requires Preamble(init) + Flatten(Entries(init)) == init
    ensures Preamble(init + [x]) + Flatten(Entries(init + [x])) == init + [x]
  {
    var es := Entries(init);
    EntriesSnoc(init, x);
    FlattenGrow(es, x);
    PreambleOfPrefix(init, x);
  }

  /** The last entry gaining a line adds that line at the end of the flattened entries. */
  lemma FlattenGrow(es: seq<Entry>, x: string)
    requires es != []
    ensures Flatten(Grow(es, x)) == Flatten(es) + [x]
    ensures |Flatten(es)| > 0
  {
    var last := es[|es| - 1];
    ConcatMapGrow(EntryLines, es, x);
    assert EntryLines(Entry(last.header, last.body + [x])) == EntryLines(last) + [x];
  }

  /** The parts of a header line: an accession and a description. */
  datatype HeaderParts = HeaderParts(acc: string, desc: string)

  /**
   * `acc` is the text between the leading `>` and the first occurrence of `sep`,
   * and `desc` runs from that occurrence to the end of the line; when `sep` does not
   * occur, `acc` is the rest of the line and `desc` is empty. A separator found at
   * position 0 would make `substring(1, 0)` throw, hence the precondition.
   */
  function SplitHeader(line: string, sep: string): (parts: HeaderParts)
    requires IsHeader(line) && !OccursAt(line, sep, 0)
    ensures line == ">" + parts.acc + parts.desc
    ensures parts.desc == "" <==> forall i | 0 <= i :: !OccursAt(line, sep, i)
    ensures parts.desc != "" ==>
      OccursAt(line, sep, 1 + |parts.acc|) && forall i | 0 <= i < 1 + |parts.acc| :: !OccursAt(line, sep, i)
  {
    var index := IndexOf(line, sep);
    if index >= 0 then HeaderParts(line[1..index], line[index..]) else HeaderParts(line[1..], "")
  }

  /** A header split at its first space: the accession has no space, and the description is empty or starts with one. */
  lemma SplitAtFirstSpace(acc: string, desc: string)
    requires ' ' !in acc && (desc == "" || desc[0] == ' ')
    ensures SplitHeader(">" + acc + desc, " ") == HeaderParts(acc, desc)
  {
    var line := ">" + acc + desc;
    var n := 1 + |acc|;
    forall i | 0 <= i < n
      ensures !OccursAt(line, " ", i)
    {
      assert line[i] == (">" + acc)[i];
      assert line[i..i + 1] == [line[i]];
    }
    var index := IndexOf(line, " ");
    assert line[1..n] == acc;
    if desc == "" {
      assert |line| == n;
      assert index == -1;
      assert line[1..] == acc;
    } else {
      assert line[n..n + 1] == [desc[0]];
      assert OccursAt(line, " ", n);
      assert index == n;
      assert line[n..] == desc;
    }
  }

  /** Split at its first space, a header gives an accession without a space. */
  lemma SplitAccNoSpace(line: string)
    requires IsHeader(line)
    ensures !OccursAt(line, " ", 0) && ' ' !in SplitHeader(line, " ").acc
  {
    SpaceNotFirst(line);
    var p := SplitHeader(line, " ");
    forall j | 0 <= j < |p.acc|
      ensures p.acc[j] != ' '
    {
      assert line[1 + j] == p.acc[j];
      assert line[1 + j..2 + j] == [p.acc[j]];
      assert !OccursAt(line, " ", 1 + j);
    }
  }

  /** A space never occurs first in a header, so splitting on a space never throws. */
  lemma SpaceNotFirst(line: string)
    requires IsHeader(line)
    ensures !OccursAt(line, " ", 0)
  {
  }
}
