/**
 * FastaUtil: shortening of over-long accessions (`shortenAccession`) and removal of
 * entries without sequence (`removeEmptyEntries`). Each reads a FASTA file line by
 * line and writes one output line per `write(...); write('\n')` group.
 */
module FastaUtil {
  import opened Strings
  import opened Seqs
  import opened Fasta

  /** Accessions longer than this are cut. */
  const MaxAccessionLength := 50

  /** The characters an accession may not keep: `,`, `"` and `'`. */
  predicate IsUnsafe(c: char) {
    c == ',' || c == '"' || c == '\''
  }

  /** The three `replaceAll` calls: every unsafe character becomes `_`. */
  function Clean(s: string): (r: string)
    ensures |r| == |s|
    ensures forall k | 0 <= k < |s| :: r[k] == (if IsUnsafe(s[k]) then '_' else s[k])
  {
    if s == [] then [] else [if IsUnsafe(s[0]) then '_' else s[0]] + Clean(s[1..])
  }

  /** A cleaned accession holds no unsafe character, and a safe accession is kept as it is. */
  lemma CleanIsSafe(s: string)
    ensures forall k | 0 <= k < |Clean(s)| :: !IsUnsafe(Clean(s)[k])
    ensures (forall k | 0 <= k < |s| :: !IsUnsafe(s[k])) ==> Clean(s) == s
  {
  }

  /**
   * The shortening rule, stated on its own: an accession of at most 50 characters is
   * kept; a longer one is cut before its first `/`, or failing that before its last
   * `_`, or kept whole when it has neither.
   */
  ghost predicate IsShortened(c: string, t: string) {
    && t <= c
    && (|c| <= MaxAccessionLength ==> t == c)
    && (|c| > MaxAccessionLength && '/' in c ==> |t| < |c| && c[|t|] == '/' && '/' !in t)
    && (|c| > MaxAccessionLength && '/' !in c && '_' in c ==> |t| < |c| && c[|t|] == '_' && '_' !in c[|t| + 1..])
    && (|c| > MaxAccessionLength && '/' !in c && '_' !in c ==> t == c)
  }

  /** Lines 62-80: cut an accession longer than 50 characters. */
  function Truncate(c: string): (t: string)
    ensures IsShortened(c, t)
  {
    if |c| > MaxAccessionLength then
      var slash := IndexOfChar(c, '/');
      if slash != -1 then c[..slash]
      else
        var underscore := LastIndexOfChar(c, '_');
        if underscore != -1 then c[..underscore] else c
    else c
  }

  /** Lines 62-80 as the source writes them, step by step. */
  method CutAccession(candidate: string) returns (accession: string)
    ensures accession == Truncate(candidate)
  {
    accession := candidate;
    if |accession| > MaxAccessionLength {
      var index := IndexOfChar(accession, '/');
      if index != -1 {
        accession := accession[..index];
      } else {
        index := LastIndexOfChar(accession, '_');
        if index != -1 {
          accession := accession[..index];
        }
      }
    }
  }

  /** The shortening rule leaves one choice only, so `Truncate` is exactly that rule. */
  lemma ShortenedUnique(c: string, t1: string, t2: string)
    requires IsShortened(c, t1) && IsShortened(c, t2)
    ensures t1 == t2
  {
    assert t1 == c[..|t1|] && t2 == c[..|t2|];
    if |c| > MaxAccessionLength && '/' !in c && '_' in c {
      if |t1| < |t2| {
        assert false;
      } else if |t2| < |t1| {
        assert false;
      }
    }
  }

  /** The accession candidate of a header: the text after the first character of the separator's first occurrence. */
  function Candidate(line: string, sep: string): string
    requires IsHeader(line) && IndexOf(line, sep) >= 0
  {
    line[IndexOf(line, sep) + 1..]
  }

  /** The output line `shortenAccession` writes for one input line. */
  function ShortenLine(line: string, sep: string): (r: string)
    ensures !IsHeader(line) || IndexOf(line, sep) == -1 ==> r == line
  {
    if IsHeader(line) && IndexOf(line, sep) != -1 then
      ">" + Clean(Truncate(Candidate(line, sep))) + " " + line[1..]
    else line
  }

  /**
   * A header with the separator gains an accession in front of its original text:
   * `>` + a + ` ` + the header without its `>`, where a is the shortened candidate
   * with its unsafe characters replaced.
   */
  lemma ShortenedHeader(line: string, sep: string)
    requires IsHeader(line) && IndexOf(line, sep) != -1
    ensures var c := Candidate(line, sep);
            var a := Clean(Truncate(c));
            && ShortenLine(line, sep) == ">" + a + " " + line[1..]
            && CleanedPrefix(c, a)
  {
    var c := Candidate(line, sep);
    CleanOfPrefix(c, Truncate(c));
  }

  /**
   * `a` is a prefix of `c` with its unsafe characters replaced by `_`: as long as the
   * prefix, free of unsafe characters, and equal to `c` when `c` is safe and at most
   * 50 characters long.
   */
  ghost predicate CleanedPrefix(c: string, a: string) {
    && |a| <= |c|
    && (forall k | 0 <= k < |a| :: !IsUnsafe(a[k]))
    && (forall k | 0 <= k < |a| :: a[k] == c[k] || (IsUnsafe(c[k]) && a[k] == '_'))
    && (|c| <= MaxAccessionLength && (forall k | 0 <= k < |c| :: !IsUnsafe(c[k])) ==> a == c)
  }

  lemma CleanOfPrefix(c: string, t: string)
    requires IsShortened(c, t)
    ensures CleanedPrefix(c, Clean(t))
  {
    CleanIsSafe(t);
    assert t == c[..|t|];
  }

  /** The accessions `shortenAccession` records in its `names` set, one per header with the separator, in order. */
  function Accessions(lines: seq<string>, sep: string): seq<string> {
    if lines == [] then []
    else
      var line := lines[|lines| - 1];
      Accessions(lines[..|lines| - 1], sep)
        + if IsHeader(line) && IndexOf(line, sep) != -1 then [Truncate(Candidate(line, sep))] else []
  }

  /** One more recorded accession: the set grows by it, and the warning count by one when it was there. */
  lemma RecordStep(accs: seq<string>, names: set<string>, count: nat, a: string)
    requires names == ToSet(accs) && count + |names| == |accs|
    ensures a in names ==> ToSet(accs + [a]) == names && count + 1 + |names| == |accs + [a]|
    ensures a !in names ==> ToSet(accs + [a]) == names + {a} && count + |names + {a}| == |accs + [a]|
  {
    ToSetAppend(accs, a);
  }

  /** `f` applied to every line, in order. */
  function MapLines(f: string -> string, lines: seq<string>): (r: seq<string>)
    ensures |r| == |lines|
    ensures forall i | 0 <= i < |lines| :: r[i] == f(lines[i])
  {
    if lines == [] then [] else MapLines(f, lines[..|lines| - 1]) + [f(lines[|lines| - 1])]
  }

  /** The lines `shortenAccession` writes. */
  function ShortenAll(lines: seq<string>, sep: string): seq<string> {
    MapLines(line => ShortenLine(line, sep), lines)
  }

  /** One output line per input line, each the rewriting of its input line. */
  lemma ShortenAllLines(lines: seq<string>, sep: string)
    ensures |ShortenAll(lines, sep)| == |lines|
    ensures forall i | 0 <= i < |lines| :: ShortenAll(lines, sep)[i] == ShortenLine(lines[i], sep)
  {
  }

  /**
   * One line of `shortenAccession`: the recorded accessions, the line written, and
   * the warning count all advance together.
   */
  lemma ShortenStep(lines: seq<string>, i: nat, sep: string)
    requires i < |lines|
    ensures ShortenAll(lines[..i + 1], sep) == ShortenAll(lines[..i], sep) + [ShortenLine(lines[i], sep)]
    ensures IsHeader(lines[i]) && IndexOf(lines[i], sep) != -1 ==>
      Accessions(lines[..i + 1], sep) == Accessions(lines[..i], sep) + [Truncate(lines[i][IndexOf(lines[i], sep) + 1..])]
    ensures !(IsHeader(lines[i]) && IndexOf(lines[i], sep) != -1) ==>
      Accessions(lines[..i + 1], sep) == Accessions(lines[..i], sep)
  {
    assert lines[..i + 1][..i] == lines[..i];
    assert Accessions(lines[..i], sep) + [] == Accessions(lines[..i], sep);
    ghost var f := line => ShortenLine(line, sep);
    assert MapLines(f, lines[..i + 1]) == MapLines(f, lines[..i]) + [f(lines[i])];
  }

  /**
   * `shortenAccession` (lines 48-111): every line is copied except headers holding the
   * separator, which are rewritten by `ShortenLine`. It also counts the `duplicate`
   * warnings it prints: one for each recorded accession already recorded before, so
   * the count is the number of records less the number of distinct ones.
   */
  method ShortenAccession(lines: seq<string>, separator: string) returns (output: seq<string>, nbDuplicateWarnings: nat)
    ensures output == ShortenAll(lines, separator)
    ensures nbDuplicateWarnings == |Accessions(lines, separator)| - |ToSet(Accessions(lines, separator))|
  {
    var names: set<string> := {};
    output := [];
    nbDuplicateWarnings := 0;
    var i := 0;
    while i < |lines|
      invariant 0 <= i <= |lines|
      invariant output == ShortenAll(lines[..i], separator)
      invariant names == ToSet(Accessions(lines[..i], separator))
      invariant nbDuplicateWarnings + |names| == |Accessions(lines[..i], separator)|
    {
      var line := lines[i];
      ghost var accs := Accessions(lines[..i], separator);
      ShortenStep(lines, i, separator);
      var written := line;
      if IsHeader(line) {
        var index := IndexOf(line, separator);
        if index != -1 {
          var accession := CutAccession(line[index + 1..]);
          RecordStep(accs, names, nbDuplicateWarnings, accession);
          if accession in names {
            nbDuplicateWarnings := nbDuplicateWarnings + 1;
          } else {
            names := names + {accession};
          }
          accession := Clean(accession);
          written := ">" + accession + " " + line[1..];
        }
      }
      output := output + [written];
      i := i + 1;
    }
    assert lines[..i] == lines;
  }

  /** The lines of `body` from its first non-empty line on. */
  function FromFirstNonEmpty(body: seq<string>): (r: seq<string>)
    ensures |r| <= |body| && r == body[|body| - |r|..]
    ensures forall j | 0 <= j < |body| - |r| :: body[j] == ""
    ensures r != [] ==> r[0] != ""
  {
    if body == [] then []
    else if body[0] == "" then FromFirstNonEmpty(body[1..])
    else body
  }

  lemma {:induction false} FromFirstNonEmptySnoc(body: seq<string>, x: string)
    ensures FromFirstNonEmpty(body + [x]) ==
      if FromFirstNonEmpty(body) != [] then FromFirstNonEmpty(body) + [x]
      else if x == "" then [] else [x]
  {
    if body == [] {
      assert body + [x] == [x] && [x][1..] == [];
    } else if body[0] == "" {
      assert (body + [x])[0] == "" && (body + [x])[1..] == body[1..] + [x];
      FromFirstNonEmptySnoc(body[1..], x);
    } else {
      assert (body + [x])[0] != "";
    }
  }

  /**
   * What `removeEmptyEntries` keeps of one entry: nothing when every line of its body
   * is empty; otherwise its header, immediately followed by its first non-empty line
   * and every later line of the body.
   */
  function KeptLines(e: Entry): (r: seq<string>)
    ensures r == [] <==> forall j | 0 <= j < |e.body| :: e.body[j] == ""
    ensures r != [] ==> |r| >= 2 && r[0] == e.header && r[1] != ""
  {
    var rest := FromFirstNonEmpty(e.body);
    if rest == [] then [] else [e.header] + rest
  }

  /** What is kept of an entry is the entry with lines left out, in order. */
  lemma KeptIsSubsequence(e: Entry)
    ensures IsSubsequence(KeptLines(e), EntryLines(e))
  {
    var rest := FromFirstNonEmpty(e.body);
    if rest == [] {
      SubsequenceRefl(KeptLines(e));
    } else {
      SuffixIsSubsequence(e.body, rest);
      SubsequenceRefl([e.header]);
      SubsequenceConcat([e.header], [e.header], rest, e.body);
    }
  }

  /** The file `removeEmptyEntries` writes, entry by entry. */
  function RemoveEmpty(lines: seq<string>): seq<string> {
    ConcatMap(KeptLines, Entries(lines))
  }

  /**
   * What `removeEmptyEntries` remembers after reading the entries `es`: `prevEntry`
   * holds the header of the last entry while no non-empty line of it has been read,
   * and is empty otherwise; `correctEntry` says that such a line has been read.
   */
  ghost predicate RemoveState(es: seq<Entry>, prevEntry: string, correctEntry: bool) {
    if es == [] then prevEntry == "" && !correctEntry
    else
      var last := es[|es| - 1];
      && IsHeader(last.header)
      && correctEntry == (FromFirstNonEmpty(last.body) != [])
      && prevEntry == (if correctEntry then "" else last.header)
  }

  /** A header opens an entry that has nothing to show yet. */
  lemma RemoveHeaderStep(es: seq<Entry>, line: string)
    requires IsHeader(line)
    ensures ConcatMap(KeptLines, es + [Entry(line, [])]) == ConcatMap(KeptLines, es)
    ensures RemoveState(es + [Entry(line, [])], line, false)
  {
    ConcatMapSnoc(KeptLines, es, Entry(line, []));
  }

  /** A non-empty line after a header still waiting for one: the header and the line are written. */
  lemma RemoveFirstLineStep(es: seq<Entry>, line: string, prevEntry: string)
    requires es != [] && line != "" && prevEntry != ""
    requires RemoveState(es, prevEntry, false)
    ensures ConcatMap(KeptLines, Grow(es, line)) == ConcatMap(KeptLines, es) + [prevEntry, line]
    ensures RemoveState(Grow(es, line), "", true)
  {
    FirstLineState(es, line, prevEntry);
    var last := es[|es| - 1];
    var grown := Entry(last.header, last.body + [line]);
    assert KeptLines(last) == [] && KeptLines(grown) == [prevEntry, line];
    ConcatMapGrow(KeptLines, es, line);
    var pre := ConcatMap(KeptLines, es[..|es| - 1]);
    assert pre + [] == pre;
  }

  lemma FirstLineState(es: seq<Entry>, line: string, prevEntry: string)
    requires es != [] && line != ""
    requires RemoveState(es, prevEntry, false)
    ensures var last := es[|es| - 1];
            && FromFirstNonEmpty(last.body) == []
            && FromFirstNonEmpty(last.body + [line]) == [line]
            && RemoveState(Grow(es, line), "", true)
  {
    FromFirstNonEmptySnoc(es[|es| - 1].body, line);
  }

  /** Any line of an entry that has shown a non-empty line is written. */
  lemma RemoveLaterLineStep(es: seq<Entry>, line: string)
    requires es != []
    requires RemoveState(es, "", true)
    ensures ConcatMap(KeptLines, Grow(es, line)) == ConcatMap(KeptLines, es) + [line]
    ensures RemoveState(Grow(es, line), "", true)
  {
    var last := es[|es| - 1];
    KeptLinesLater(last, line);
    ConcatMapGrow(KeptLines, es, line);
    var pre := ConcatMap(KeptLines, es[..|es| - 1]);
    assert pre + (KeptLines(last) + [line]) == (pre + KeptLines(last)) + [line];
  }

  /** An entry that has shown a non-empty line keeps every further line. */
  lemma KeptLinesLater(e: Entry, line: string)
    requires FromFirstNonEmpty(e.body) != []
    ensures FromFirstNonEmpty(e.body + [line]) == FromFirstNonEmpty(e.body) + [line]
    ensures KeptLines(Entry(e.header, e.body + [line])) == KeptLines(e) + [line]
  {
    FromFirstNonEmptySnoc(e.body, line);
    var rest := FromFirstNonEmpty(e.body);
    assert [e.header] + (rest + [line]) == ([e.header] + rest) + [line];
  }

  /** An empty line after a header still waiting for a non-empty one is dropped. */
  lemma RemoveEmptyLineStep(es: seq<Entry>, prevEntry: string)
    requires es != [] && prevEntry != ""
    requires RemoveState(es, prevEntry, false)
    ensures ConcatMap(KeptLines, Grow(es, "")) == ConcatMap(KeptLines, es)
    ensures RemoveState(Grow(es, ""), prevEntry, false)
  {
    ConcatMapGrow(KeptLines, es, "");
    var last := es[|es| - 1];
    FromFirstNonEmptySnoc(last.body, "");
  }

  /**
   * Lines 127-140 on a sequence line: the new `prevEntry`, the new `correctEntry`,
   * and the lines written.
   */
  function SequenceLineOutcome(prevEntry: string, correctEntry: bool, line: string): (string, bool, seq<string>) {
    if prevEntry != "" && line != "" then ("", true, [prevEntry, line])
    else (prevEntry, correctEntry, if correctEntry then [line] else [])
  }

  /** The state of `removeEmptyEntries` between two lines, with what it has written. */
  datatype RemoveScan = RemoveScan(prevEntry: string, correctEntry: bool, output: seq<string>)

  /** The state of `removeEmptyEntries` once it has read `lines`. */
  function ScanRemove(lines: seq<string>): RemoveScan {
    if lines == [] then RemoveScan("", false, [])
    else
      var s := ScanRemove(lines[..|lines| - 1]);
      var line := lines[|lines| - 1];
      if IsHeader(line) then RemoveScan(line, false, s.output)
      else
        var o := SequenceLineOutcome(s.prevEntry, s.correctEntry, line);
        RemoveScan(o.0, o.1, s.output + o.2)
  }

  /** A sequence line keeps the state in step with the entries read so far. */
  lemma RemoveBodyStep(es: seq<Entry>, prevEntry: string, correctEntry: bool, line: string,
                       prevEntry': string, correctEntry': bool, written: seq<string>)
    requires RemoveState(es, prevEntry, correctEntry)
    requires !IsHeader(line)
    requires prevEntry' == SequenceLineOutcome(prevEntry, correctEntry, line).0
    requires correctEntry' == SequenceLineOutcome(prevEntry, correctEntry, line).1
    requires written == SequenceLineOutcome(prevEntry, correctEntry, line).2
    ensures ConcatMap(KeptLines, AddLine(es, line)) == ConcatMap(KeptLines, es) + written
    ensures RemoveState(AddLine(es, line), prevEntry', correctEntry')
  {
    if es == [] {
      assert written == [];
      assert ConcatMap(KeptLines, es) + [] == ConcatMap(KeptLines, es);
    } else if correctEntry {
      assert prevEntry == "" && written == [line];
      RemoveLaterLineStep(es, line);
    } else if line != "" {
      assert prevEntry == es[|es| - 1].header && prevEntry != "";
      assert written == [prevEntry, line];
      RemoveFirstLineStep(es, line, prevEntry);
    } else {
      assert prevEntry == es[|es| - 1].header && prevEntry != "";
      assert written == [];
      RemoveEmptyLineStep(es, prevEntry);
      assert ConcatMap(KeptLines, es) + [] == ConcatMap(KeptLines, es);
    }
  }

  /** Read line by line, the state of `removeEmptyEntries` follows the entries of the file. */
  lemma {:induction false} ScanRemoveEntries(lines: seq<string>)
    ensures RemoveState(Entries(lines), ScanRemove(lines).prevEntry, ScanRemove(lines).correctEntry)
    ensures ScanRemove(lines).output == RemoveEmpty(lines)
  {
    if lines != [] {
      var init, line := lines[..|lines| - 1], lines[|lines| - 1];
      assert lines == init + [line];
      ScanRemoveEntries(init);
      EntriesSnoc(init, line);
      var s := ScanRemove(init);
      if IsHeader(line) {
        RemoveHeaderStep(Entries(init), line);
      } else {
        var o := SequenceLineOutcome(s.prevEntry, s.correctEntry, line);
        RemoveBodyStep(Entries(init), s.prevEntry, s.correctEntry, line, o.0, o.1, o.2);
      }
    }
  }

  /**
   * `removeEmptyEntries` (lines 113-148). `prevEntry` holds a header until the first
   * non-empty line of its entry, and `correctEntry` says that this line has been seen.
   */
  method RemoveEmptyEntries(lines: seq<string>) returns (output: seq<string>)
    ensures output == RemoveEmpty(lines)
  {
    var prevEntry := "";
    var correctEntry := false;
    output := [];
    var i := 0;
    while i < |lines|
      invariant 0 <= i <= |lines|
      invariant RemoveScan(prevEntry, correctEntry, output) == ScanRemove(lines[..i])
    {
      var line := lines[i];
      assert lines[..i + 1][..i] == lines[..i];
      if IsHeader(line) {
        prevEntry := line;
        correctEntry := false;
      } else {
        if prevEntry != "" {
          if line != "" {
            correctEntry := true;
            output := output + [prevEntry];
            prevEntry := "";
          }
        }
        if correctEntry {
          output := output + [line];
        }
      }
      i := i + 1;
    }
    assert lines[..i] == lines;
    ScanRemoveEntries(lines);
  }

  /**
   * The output of `removeEmptyEntries` is the input with lines left out, the order kept;
   * in particular it is never longer. The lines before the first header are all left out.
   */
  lemma RemoveEmptyIsSubsequence(lines: seq<string>)
    ensures IsSubsequence(RemoveEmpty(lines), lines)
    ensures |RemoveEmpty(lines)| <= |lines|
  {
    var es := Entries(lines);
    KeptSubsequence(es);
    EntriesPartition(lines);
    SubsequenceExtendLeft(RemoveEmpty(lines), Flatten(es), Preamble(lines));
    SubsequenceLength(RemoveEmpty(lines), lines);
  }

  lemma {:induction false} KeptSubsequence(es: seq<Entry>)
    ensures IsSubsequence(ConcatMap(KeptLines, es), Flatten(es))
  {
    if es != [] {
      var es', e := es[..|es| - 1], es[|es| - 1];
      KeptSubsequence(es');
      var kept := KeptLines(e);
      KeptIsSubsequence(e);
      SubsequenceConcat(ConcatMap(KeptLines, es'), Flatten(es'), kept, EntryLines(e));
    }
  }

  /** Every entry that remains starts with its header, followed at once by a non-empty line. */
  lemma RemoveEmptyEntryShape(lines: seq<string>, k: nat)
    requires k < |Entries(lines)|
    ensures var e := Entries(lines)[k];
            KeptLines(e) != [] <==> exists j | 0 <= j < |e.body| :: e.body[j] != ""
  {
  }
}
