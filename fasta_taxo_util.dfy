/**
 * FastaTaxoUtil: `extractTaxonomy` copies the entries whose accession ends with a
 * taxonomy mnemonic (for UniProt entries `ACC_HUMAN`, the mnemonic `_HUMAN`).
 */
module FastaTaxoUtil {
  import opened Strings
  import opened Fasta

  /** The accession and description of a header, split at its first space (lines 37-44). */
  function TaxoParts(header: string): HeaderParts
    requires IsHeader(header)
  {
    SpaceNotFirst(header);
    SplitHeader(header, " ")
  }

  /** Line 46: the entry is of interest. */
  predicate Matches(mnemo: string, header: string)
    requires IsHeader(header)
  {
    EndsWith(TaxoParts(header).acc, mnemo)
  }

  /** The header as written back: `">" + acc + " " + desc` (lines 53-57). */
  function Rewritten(header: string): (r: string)
    requires IsHeader(header)
    ensures IsHeader(r)
  {
    var p := TaxoParts(header);
    ">" + p.acc + " " + p.desc
  }

  /** What one entry contributes to the output: all of it, header rewritten, or nothing. */
  function TaxoKept(mnemo: string, e: Entry): (r: seq<string>)
    ensures |r| <= |EntryLines(e)|
    ensures IsHeader(e.header) ==> (r != [] <==> Matches(mnemo, e.header))
    ensures r != [] ==> IsHeader(e.header) && r == [Rewritten(e.header)] + e.body
  {
    if IsHeader(e.header) && Matches(mnemo, e.header) then [Rewritten(e.header)] + e.body else []
  }

  /** The lines written for some entries. */
  function Kept(es: seq<Entry>, mnemo: string): seq<string> {
    if es == [] then [] else Kept(es[..|es| - 1], mnemo) + TaxoKept(mnemo, es[|es| - 1])
  }

  lemma KeptSnoc(es: seq<Entry>, e: Entry, mnemo: string)
    ensures Kept(es + [e], mnemo) == Kept(es, mnemo) + TaxoKept(mnemo, e)
  {
    assert (es + [e])[..|es|] == es;
  }

  /** The lines `extractTaxonomy` writes. */
  function Extract(lines: seq<string>, mnemo: string): seq<string> {
    Kept(Entries(lines), mnemo)
  }

  /** The number of entries of interest. */
  function CountMatching(es: seq<Entry>, mnemo: string): (n: nat)
    ensures n <= |es|
  {
    if es == [] then 0
    else
      var e := es[|es| - 1];
      CountMatching(es[..|es| - 1], mnemo) + Hit(mnemo, e)
  }

  /** One for an entry of interest, zero otherwise. */
  function Hit(mnemo: string, e: Entry): nat {
    if IsHeader(e.header) && Matches(mnemo, e.header) then 1 else 0
  }

  lemma CountMatchingSnoc(es: seq<Entry>, e: Entry, mnemo: string)
    ensures CountMatching(es + [e], mnemo) == CountMatching(es, mnemo) + Hit(mnemo, e)
  {
    assert (es + [e])[..|es|] == es;
  }

  /** Growing the last entry changes neither which entries match nor how many. */
  lemma CountMatchingGrow(es: seq<Entry>, line: string, mnemo: string)
    requires es != []
    ensures CountMatching(Grow(es, line), mnemo) == CountMatching(es, mnemo)
    ensures Writing(Grow(es, line), mnemo) == Writing(es, mnemo)
  {
    var g := Grow(es, line);
    assert g == es[..|es| - 1] + [g[|es| - 1]];
    assert es == es[..|es| - 1] + [es[|es| - 1]];
    CountMatchingSnoc(es[..|es| - 1], g[|es| - 1], mnemo);
    CountMatchingSnoc(es[..|es| - 1], es[|es| - 1], mnemo);
  }

  /** A sequence line joins the output exactly when the open entry is of interest. */
  lemma KeptGrow(mnemo: string, e: Entry, line: string)
    requires IsHeader(e.header)
    ensures TaxoKept(mnemo, Entry(e.header, e.body + [line])) ==
            TaxoKept(mnemo, e) + if Matches(mnemo, e.header) then [line] else []
  {
  }

  /** Open entry of interest: the flag `sequenceMustBeWritten`. */
  predicate Writing(es: seq<Entry>, mnemo: string) {
    es != [] && IsHeader(es[|es| - 1].header) && Matches(mnemo, es[|es| - 1].header)
  }

  /** A header line opens an entry; it is written, and counted, when it is of interest. */
  lemma ExtractHeaderStep(es: seq<Entry>, line: string, mnemo: string)
    requires IsHeader(line)
    ensures Kept(es + [Entry(line, [])], mnemo) == Kept(es, mnemo) + if Matches(mnemo, line) then [Rewritten(line)] else []
    ensures CountMatching(es + [Entry(line, [])], mnemo) == CountMatching(es, mnemo) + if Matches(mnemo, line) then 1 else 0
    ensures Writing(es + [Entry(line, [])], mnemo) == Matches(mnemo, line)
  {
    assert [Rewritten(line)] + [] == [Rewritten(line)];
    KeptSnoc(es, Entry(line, []), mnemo);
    CountMatchingSnoc(es, Entry(line, []), mnemo);
  }

  /** A sequence line is written when the open entry is of interest. */
  lemma ExtractBodyStep(es: seq<Entry>, line: string, mnemo: string)
    requires es != [] && IsHeader(es[|es| - 1].header)
    ensures Kept(Grow(es, line), mnemo) == Kept(es, mnemo) + (if Writing(es, mnemo) then [line] else [])
    ensures CountMatching(Grow(es, line), mnemo) == CountMatching(es, mnemo)
    ensures Writing(Grow(es, line), mnemo) == Writing(es, mnemo)
  {
    var init, last := es[..|es| - 1], es[|es| - 1];
    assert es == init + [last];
    assert Grow(es, line) == init + [Entry(last.header, last.body + [line])];
    KeptSnoc(init, last, mnemo);
    KeptSnoc(init, Entry(last.header, last.body + [line]), mnemo);
    KeptGrow(mnemo, last, line);
    CountMatchingGrow(es, line, mnemo);
  }

  /** Lines 37-44: the accession up to the first space, and the description from it on. */
  method ParseHeader(line: string) returns (currentAcc: string, desc: string)
    requires IsHeader(line)
    ensures HeaderParts(currentAcc, desc) == TaxoParts(line)
  {
    var index := IndexOf(line, " ");
    var hasDesc := index >= 0;
    currentAcc := line[1..];
    desc := "";
    if hasDesc {
      currentAcc := line[1..index];
      desc := line[index..];
    }
  }

  /** The writer's lines, `nbExtracted` and `sequenceMustBeWritten`. */
  datatype TaxoState = TaxoState(output: seq<string>, nbExtracted: nat, writing: bool)

  /** Lines 35-66: one line read. */
  function TaxoLine(st: TaxoState, line: string, mnemo: string): TaxoState {
    if IsHeader(line) then
      if Matches(mnemo, line) then TaxoState(st.output + [Rewritten(line)], st.nbExtracted + 1, true)
      else st.(writing := false)
    else if st.writing then st.(output := st.output + [line])
    else st
  }

  /** The state after reading `lines`, one line at a time. */
  function ScanTaxo(lines: seq<string>, mnemo: string): TaxoState {
    if lines == [] then TaxoState([], 0, false)
    else TaxoLine(ScanTaxo(lines[..|lines| - 1], mnemo), lines[|lines| - 1], mnemo)
  }

  lemma ScanTaxoStep(lines: seq<string>, i: nat, mnemo: string)
    requires i < |lines|
    ensures ScanTaxo(lines[..i + 1], mnemo) == TaxoLine(ScanTaxo(lines[..i], mnemo), lines[i], mnemo)
  {
    assert lines[..i + 1][..i] == lines[..i];
  }

  /**
   * Reading the file line by line writes the entries of interest, whole, and counts
   * them; the flag says whether the open entry is one of them.
   */
  lemma {:induction false} ScanTaxoEntries(lines: seq<string>, mnemo: string)
    ensures var es := Entries(lines);
            ScanTaxo(lines, mnemo) == TaxoState(Kept(es, mnemo), CountMatching(es, mnemo), Writing(es, mnemo))
  {
    if lines != [] {
      var init, line := lines[..|lines| - 1], lines[|lines| - 1];
      assert lines == init + [line];
      ScanTaxoEntries(init, mnemo);
      EntriesSnoc(init, line);
      var es := Entries(init);
      if IsHeader(line) {
        ExtractHeaderStep(es, line, mnemo);
      } else if es != [] {
        assert WellFormed(es[|es| - 1]);
        ExtractBodyStep(es, line, mnemo);
      }
    }
  }

  /**
   * `extractTaxonomy` on the lines of the input file: the lines written, and
   * `nbExtracted`, the number of entries of interest.
   */
  method ExtractTaxonomy(lines: seq<string>, taxoMnemo: string) returns (output: seq<string>, nbExtracted: nat)
    ensures output == Extract(lines, taxoMnemo)
    ensures nbExtracted == CountMatching(Entries(lines), taxoMnemo)
  {
    output := [];
    nbExtracted := 0;
    var sequenceMustBeWritten := false;
    var i := 0;
    while i < |lines|
      invariant 0 <= i <= |lines|
      invariant TaxoState(output, nbExtracted, sequenceMustBeWritten) == ScanTaxo(lines[..i], taxoMnemo)
    {
      var line := lines[i];
      ScanTaxoStep(lines, i, taxoMnemo);
      if IsHeader(line) {
        sequenceMustBeWritten := false;
        var currentAcc, desc := ParseHeader(line);
        if EndsWith(currentAcc, taxoMnemo) {
          sequenceMustBeWritten := true;
          nbExtracted := nbExtracted + 1;
          output := output + [">" + currentAcc + " " + desc];
        }
      } else {
        if sequenceMustBeWritten {
          output := output + [line];
        }
      }
      i := i + 1;
    }
    assert lines[..i] == lines;
    ScanTaxoEntries(lines, taxoMnemo);
  }

  lemma {:induction false} KeptShorter(es: seq<Entry>, mnemo: string)
    ensures |Kept(es, mnemo)| <= |Flatten(es)|
  {
    if es != [] {
      var init, e := es[..|es| - 1], es[|es| - 1];
      KeptShorter(init, mnemo);
      assert ConcatMap(EntryLines, es) == ConcatMap(EntryLines, init) + EntryLines(e);
      assert |TaxoKept(mnemo, e)| <= |EntryLines(e)|;
    }
  }

  /** Whole entries are kept or dropped and the preamble is dropped: the output is never longer. */
  lemma ExtractLength(lines: seq<string>, mnemo: string)
    ensures |Extract(lines, mnemo)| <= |lines| - |Preamble(lines)|
  {
    EntriesPartition(lines);
    KeptShorter(Entries(lines), mnemo);
  }

  /** The number of headers among some lines. */
  function CountHeaders(ls: seq<string>): nat {
    if ls == [] then 0 else CountHeaders(ls[..|ls| - 1]) + if IsHeader(ls[|ls| - 1]) then 1 else 0
  }

  lemma {:induction false} CountHeadersAppend(a: seq<string>, b: seq<string>)
    ensures CountHeaders(a + b) == CountHeaders(a) + CountHeaders(b)
    decreases |b|
  {
    if b != [] {
      var b' := b[..|b| - 1];
      assert (a + b)[..|a + b| - 1] == a + b';
      CountHeadersAppend(a, b');
    } else {
      assert a + b == a;
    }
  }

  lemma {:induction false} CountHeadersBody(body: seq<string>)
    requires forall l | 0 <= l < |body| :: !IsHeader(body[l])
    ensures CountHeaders(body) == 0
  {
    if body != [] {
      CountHeadersBody(body[..|body| - 1]);
    }
  }

  lemma {:induction false} HeadersOfKept(es: seq<Entry>, mnemo: string)
    requires forall k | 0 <= k < |es| :: WellFormed(es[k])
    ensures CountHeaders(Kept(es, mnemo)) == CountMatching(es, mnemo)
  {
    if es != [] {
      var init, e := es[..|es| - 1], es[|es| - 1];
      assert WellFormed(e);
      HeadersOfKept(init, mnemo);
      CountHeadersAppend(Kept(init, mnemo), TaxoKept(mnemo, e));
      if Matches(mnemo, e.header) {
        CountHeadersBody(e.body);
        CountHeadersAppend([Rewritten(e.header)], e.body);
        assert [Rewritten(e.header)][..0] == [];
      }
    }
  }

  /** The headers written are the ones counted by `nbExtracted`: one per entry of interest. */
  lemma ExtractHeaders(lines: seq<string>, mnemo: string)
    ensures CountHeaders(Extract(lines, mnemo)) == CountMatching(Entries(lines), mnemo)
  {
    HeadersOfKept(Entries(lines), mnemo);
  }

  lemma {:induction false} CountMatchingEmpty(es: seq<Entry>)
    requires forall k | 0 <= k < |es| :: WellFormed(es[k])
    ensures CountMatching(es, "") == |es|
  {
    if es != [] {
      assert WellFormed(es[|es| - 1]);
      CountMatchingEmpty(es[..|es| - 1]);
    }
  }

  lemma {:induction false} KeptEmptyMnemo(es: seq<Entry>)
    requires forall k | 0 <= k < |es| :: WellFormed(es[k])
    ensures |Kept(es, "")| == |Flatten(es)|
  {
    if es != [] {
      var init, e := es[..|es| - 1], es[|es| - 1];
      assert WellFormed(e);
      KeptEmptyMnemo(init);
      assert ConcatMap(EntryLines, es) == ConcatMap(EntryLines, init) + EntryLines(e);
      assert Matches("", e.header);
    }
  }

  /**
   * Every string ends with the empty mnemonic: every entry is extracted and written
   * whole, its header rewritten, so every line after the preamble has its place in
   * the output.
   */
  lemma ExtractEverything(lines: seq<string>)
    ensures CountMatching(Entries(lines), "") == |Entries(lines)|
    ensures var es := Entries(lines);
            forall k | 0 <= k < |es| :: TaxoKept("", es[k]) == [Rewritten(es[k].header)] + es[k].body
    ensures |Extract(lines, "")| == |lines| - |Preamble(lines)|
  {
    var es := Entries(lines);
    CountMatchingEmpty(es);
    forall k | 0 <= k < |es|
      ensures TaxoKept("", es[k]) == [Rewritten(es[k].header)] + es[k].body
    {
      assert WellFormed(es[k]);
      EmptyMnemoMatches(es[k].header);
    }
    KeptEmptyMnemo(es);
    EntriesPartition(lines);
  }

  /** Every header is of interest for the empty mnemonic. */
  lemma EmptyMnemoMatches(header: string)
    requires IsHeader(header)
    ensures Matches("", header)
  {
    var acc := TaxoParts(header).acc;
    assert acc[|acc|..] == "";
  }

  /**
   * A header is written back with one more space before its description, and it is
   * of interest exactly when its accession ends with the mnemonic.
   */
  lemma RewrittenSplit(acc: string, desc: string, mnemo: string)
    requires ' ' !in acc && (desc == "" || desc[0] == ' ')
    ensures IsHeader(">" + acc + desc)
    ensures Rewritten(">" + acc + desc) == ">" + acc + " " + desc
    ensures Matches(mnemo, ">" + acc + desc) <==> EndsWith(acc, mnemo)
  {
    SplitAtFirstSpace(acc, desc);
  }
}
