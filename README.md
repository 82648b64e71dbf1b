# mascot-swissknife FASTA and search-log utilities in Dafny

This project models the line-oriented tools of mascot-swissknife. They are utilities around
Mascot sequence databases:

- **Accession shortener** (`FastaUtil.shortenAccession`). It prefixes every FASTA header that
  contains the separator with a cleaned, possibly truncated accession taken from the text
  after the separator.
- **Empty-entry filter** (`FastaUtil.removeEmptyEntries`). It drops the entries that have no
  non-empty sequence line, and the empty lines that lead an entry.
- **Duplicate renamer** (`FastaDuplicateManager.removeDuplicateInFasta`). It renames a repeated
  accession to `acc_k`, using the smallest free `k`.
- **Duplicate comparer** (`FastaDuplicateManager.compareDuplicateInFasta`). It counts repeated
  accessions, and the repeats whose sequence differs from the first one stored.
- **Taxonomy extractor** (`FastaTaxoUtil.extractTaxonomy`). It copies the entries whose
  accession ends with a taxonomy mnemonic.
- **Database usage report** (`DBUsageLog`). It reads the `Databases` section of `mascot.dat`
  into a status map. It then scans Mascot's tab-separated searches log into one record per
  database (`found`, `status`, `lastUsage`), and prints these records sorted by name.

Each input file is a `seq<string>` of lines with the terminators already stripped. Each output
is a `seq<string>` holding one element per line written. Every source loop is a Dafny `method`
with a `while`/`for` loop. Each method is proved equal to a specification function over the
prefix read so far (`ScanRemove`, `ScanTaxo`, `RenameAll`, `ScanLog`, `ScanStatus`, ...).
Lemmas then relate those functions to the FASTA entries of the file (`Fasta.Entries`), or
state the promised properties directly.

Modules: `Wrappers` (Option/Result), `Strings` (the `java.lang.String` operations used:
`indexOf`, `lastIndexOf`, `trim`, `split` with Java's trailing-empty rule, `compareTo`,
`Integer.toString`), `Seqs`, `Dates` (the ordering of `LocalDate`), `Fasta` (headers, entries,
header splitting), `FastaUtil`, `FastaDuplicateManager`, `FastaTaxoUtil` and `DbUsageLog`.

Behaviours of the code worth knowing, all kept in the model:

- **Empty-entry filter.** `removeEmptyEntries` skips only the empty lines that lead an
  entry's sequence, and then writes the header and every later line. An entry is dropped
  only when all its sequence lines are empty (`FastaUtil.KeptLines`).
- **Renaming twice.** Each renaming pass writes one more space after every accession, so a
  second pass changes the lines (`FastaDuplicateManager.RenameTwiceAddsSpace`). With a
  space separator it renames nothing, though: the accessions written are distinct and hold
  no space (`FastaDuplicateManager.RenameAgain`).
- **Status lookup in target mode.** In target mode the status of the target is looked up
  again on every line that lists it, while read-all mode looks a name up only while its
  status is still `-`. The letter found is the same each time.
- **The comparer's last entry.** The comparer evaluates an entry only when the next header
  arrives, so it never counts the last entry of the file. The model keeps this
  (`FastaDuplicateManager.Compare`). `FastaDuplicateManager.CompareAll` is the evaluation of
  every entry, for comparison (`LastEntryNeverCompared`).

## Model

| member | source | states |
|---|---|---|
| `Fasta.Entries` | src/main/java/fr/edyp/mascot/fasta/FastaUtil.java:123-142 | every entry read line by line starts with a header and holds no header in its body |
| `Fasta.EntriesNone` | src/main/java/fr/edyp/mascot/fasta/FastaUtil.java:123-142 | a file has no entries exactly when none of its lines is a header |
| `Fasta.EntriesPartition` | src/main/java/fr/edyp/mascot/fasta/FastaUtil.java:123-142 | a file is its header-free preamble followed by the lines of its entries, in order: nothing lost, nothing reordered |
| `Fasta.SplitHeader` | src/main/java/fr/edyp/mascot/fasta/FastaDuplicateManager.java:36-43 | `line == ">" + acc + desc`; `desc` is empty iff the separator does not occur; otherwise `desc` starts at the first occurrence and `acc` contains none |
| `FastaUtil.Clean` | src/main/java/fr/edyp/mascot/fasta/FastaUtil.java:89-91 | same length; each `,`, `"` and `'` becomes `_` and every other character is kept |
| `FastaUtil.CleanIsSafe` | src/main/java/fr/edyp/mascot/fasta/FastaUtil.java:89-91 | a cleaned accession has no `,`, `"` or `'`, and an accession without them is unchanged |
| `FastaUtil.Truncate` | src/main/java/fr/edyp/mascot/fasta/FastaUtil.java:62-80 | the result is a prefix of the candidate: whole when at most 50 characters; otherwise cut before the first `/`, else before the last `_`, else whole |
| `FastaUtil.ShortenedUnique` | src/main/java/fr/edyp/mascot/fasta/FastaUtil.java:62-80 | the shortening rule allows only one result, so `Truncate` is exactly that rule |
| `FastaUtil.CutAccession` | src/main/java/fr/edyp/mascot/fasta/FastaUtil.java:61-80 | the step-by-step reassignment of `accession` ends at the shortened accession |
| `FastaUtil.ShortenLine` | src/main/java/fr/edyp/mascot/fasta/FastaUtil.java:98-105 | non-header lines, and headers without the separator, are copied unchanged |
| `FastaUtil.ShortenedHeader` | src/main/java/fr/edyp/mascot/fasta/FastaUtil.java:59-97 | a header with the separator becomes `">" + a + " " + line[1..]`, where `a` is the text after the first character of the separator's first occurrence (all of the separator when it is one character, as the program's `"_"` is), shortened, with its length kept by cleaning and with no unsafe character |
| `FastaUtil.ShortenAllLines` | src/main/java/fr/edyp/mascot/fasta/FastaUtil.java:57-105 | one output line per input line, each the rewriting of its own input line |
| `FastaUtil.RecordStep` | src/main/java/fr/edyp/mascot/fasta/FastaUtil.java:83-87 | recording an accession grows the names set by it, or counts one `duplicate` warning when it was already there |
| `FastaUtil.ShortenAccession` | src/main/java/fr/edyp/mascot/fasta/FastaUtil.java:48-111 | the output is the line-by-line rewriting, which does not depend on the names set; the warnings are the recorded accessions less the distinct ones |
| `FastaUtil.FromFirstNonEmpty` | src/main/java/fr/edyp/mascot/fasta/FastaUtil.java:129-141 | a suffix of the body that drops only empty lines and starts with a non-empty line |
| `FastaUtil.KeptLines` | src/main/java/fr/edyp/mascot/fasta/FastaUtil.java:124-141 | an entry is dropped iff all its lines are empty; a kept entry is its header followed at once by a non-empty line |
| `FastaUtil.KeptIsSubsequence` | src/main/java/fr/edyp/mascot/fasta/FastaUtil.java:129-141 | what is kept of an entry is an order-preserving subsequence of the entry |
| `FastaUtil.ScanRemoveEntries` | src/main/java/fr/edyp/mascot/fasta/FastaUtil.java:120-143 | the `prevEntry`/`correctEntry` state machine writes exactly the kept lines of each entry, with no preamble line |
| `FastaUtil.RemoveEmptyEntries` | src/main/java/fr/edyp/mascot/fasta/FastaUtil.java:113-148 | the lines written are the kept lines of the file's entries |
| `FastaUtil.RemoveEmptyIsSubsequence` | src/main/java/fr/edyp/mascot/fasta/FastaUtil.java:120-136 | the output is an order-preserving subsequence of the input and never longer |
| `FastaTaxoUtil.Rewritten` | src/main/java/fr/edyp/mascot/fasta/FastaTaxoUtil.java:53-57 | the written header is still a header |
| `FastaTaxoUtil.TaxoKept` | src/main/java/fr/edyp/mascot/fasta/FastaTaxoUtil.java:35-66 | an entry is written iff its accession ends with the mnemonic, and then as its rewritten header followed by its whole body |
| `FastaTaxoUtil.ParseHeader` | src/main/java/fr/edyp/mascot/fasta/FastaTaxoUtil.java:37-44 | the accession runs up to the first space, or to the end of the line, and the description from that space on |
| `FastaTaxoUtil.ScanTaxoEntries` | src/main/java/fr/edyp/mascot/fasta/FastaTaxoUtil.java:32-66 | line by line, the flag `sequenceMustBeWritten` says that the open entry matches; whole matching entries are written and counted |
| `FastaTaxoUtil.ExtractTaxonomy` | src/main/java/fr/edyp/mascot/fasta/FastaTaxoUtil.java:23-73 | the output is the matching entries in order, and `nbExtracted` is the number of matching entries |
| `FastaTaxoUtil.ExtractLength` | src/main/java/fr/edyp/mascot/fasta/FastaTaxoUtil.java:60-65 | the output is never longer than the input less its preamble |
| `FastaTaxoUtil.ExtractHeaders` | src/main/java/fr/edyp/mascot/fasta/FastaTaxoUtil.java:46-57 | the number of headers written equals `nbExtracted` |
| `FastaTaxoUtil.ExtractEverything` | src/main/java/fr/edyp/mascot/fasta/FastaTaxoUtil.java:46 | the empty mnemonic selects every entry, each entry is written whole with its header rewritten, and the output has as many lines as follow the preamble |
| `FastaTaxoUtil.RewrittenSplit` | src/main/java/fr/edyp/mascot/fasta/FastaTaxoUtil.java:37-57 | for any header split at its first space, the line written is `>` + accession + one more space + the description, and the entry is of interest exactly when the accession ends with the mnemonic |
| `FastaDuplicateManager.Suffixed` | src/main/java/fr/edyp/mascot/fasta/FastaDuplicateManager.java:52 | a renamed accession extends the original one |
| `FastaDuplicateManager.SuffixedInjective` | src/main/java/fr/edyp/mascot/fasta/FastaDuplicateManager.java:52 | different indices give different names |
| `FastaDuplicateManager.AllTakenBound` | src/main/java/fr/edyp/mascot/fasta/FastaDuplicateManager.java:51-54 | when `acc_1` to `acc_k` are all taken, the set has at least `k` names, so the search ends |
| `FastaDuplicateManager.FreeIndex` | src/main/java/fr/edyp/mascot/fasta/FastaDuplicateManager.java:50-54 | the smallest index whose name is free |
| `FastaDuplicateManager.NewAcc` | src/main/java/fr/edyp/mascot/fasta/FastaDuplicateManager.java:45-59 | the written accession is never in the seen-set; it is the parsed one iff that one is new; otherwise it is `acc_k` with every smaller `acc_j` taken |
| `FastaDuplicateManager.Rename` | src/main/java/fr/edyp/mascot/fasta/FastaDuplicateManager.java:49-54 | the inner `while` loop ends at the first free `acc_k` |
| `FastaDuplicateManager.RemoveDuplicateInFasta` | src/main/java/fr/edyp/mascot/fasta/FastaDuplicateManager.java:23-78 | the lines written and `nbDuplicate` are those of the line-by-line renaming |
| `FastaDuplicateManager.RenameOutputPrefix` | src/main/java/fr/edyp/mascot/fasta/FastaDuplicateManager.java:32-72 | one output line per input line; the output for a prefix is a prefix of the output |
| `FastaDuplicateManager.RenameOutputAt` | src/main/java/fr/edyp/mascot/fasta/FastaDuplicateManager.java:34-72 | a sequence line is copied; a header becomes `">" + acc' + " " + desc`, where `acc'` is the new name for the accession against the names seen before it |
| `FastaDuplicateManager.RenameInvariant` | src/main/java/fr/edyp/mascot/fasta/FastaDuplicateManager.java:45-59 | the seen-set is the set of accessions written, which are pairwise distinct, and `nbDuplicate` counts the headers whose accession was changed |
| `FastaDuplicateManager.RenameCollision` | src/main/java/fr/edyp/mascot/fasta/FastaDuplicateManager.java:45-59 | `a` repeated becomes `a_1`, then `a_2`; a later `a_1` becomes `a_1_1` |
| `FastaDuplicateManager.RenameExample` | src/main/java/fr/edyp/mascot/fasta/FastaDuplicateManager.java:32-72 | `>a`, `X`, `>a`, `Y` is written as `>a `, `X`, `>a_1 `, `Y` with one duplicate |
| `FastaDuplicateManager.RenameTwiceAddsSpace` | src/main/java/fr/edyp/mascot/fasta/FastaDuplicateManager.java:61-66 | a second pass over the output adds a second space, so renaming is not idempotent on lines |
| `FastaDuplicateManager.RenameAgain` | src/main/java/fr/edyp/mascot/fasta/FastaDuplicateManager.java:32-72 | renaming the output again with a space separator finds no duplicate (`nbDuplicate == 0`) |
| `FastaDuplicateManager.Close` | src/main/java/fr/edyp/mascot/fasta/FastaDuplicateManager.java:102-115 | closing an entry stores its sequence under a new accession, or counts a duplicate and a difference |
| `FastaDuplicateManager.SplitHeaderLine` | src/main/java/fr/edyp/mascot/fasta/FastaDuplicateManager.java:35-43 | the accession runs from after `>` to the first occurrence of the separator and the description from there to the end, or the whole rest is the accession; the comparer splits at the first space (lines 121-128), whatever separator was passed |
| `FastaDuplicateManager.ScanCompareEntries` | src/main/java/fr/edyp/mascot/fasta/FastaDuplicateManager.java:99-132 | line by line, `currentAcc` and `seq` are the accession and the concatenated sequence of the open entry, and the map and counters are those of evaluating every entry a later header has closed |
| `FastaDuplicateManager.CompareDuplicateInFasta` | src/main/java/fr/edyp/mascot/fasta/FastaDuplicateManager.java:88-138 | the two counters are those of evaluating every entry but the last |
| `FastaDuplicateManager.EvaluateAllSummarises` | src/main/java/fr/edyp/mascot/fasta/FastaDuplicateManager.java:102-115 | the map's keys are the accessions seen, each bound to its first sequence; duplicates plus keys equal entries; `nbDupDiff <= nbDuplicate`; no difference iff same accession implies same sequence |
| `FastaDuplicateManager.CompareCounts` | src/main/java/fr/edyp/mascot/fasta/FastaDuplicateManager.java:99-135 | `nbDuplicate` is the evaluated entries less their distinct accessions; `nbDupDiff <= nbDuplicate`; `nbDupDiff == 0` iff duplicates agree |
| `FastaDuplicateManager.CompareKeepsFirst` | src/main/java/fr/edyp/mascot/fasta/FastaDuplicateManager.java:104-114 | each accession maps to the sequence of its first entry, against which later duplicates are compared |
| `FastaDuplicateManager.CompareBodyLine` | src/main/java/fr/edyp/mascot/fasta/FastaDuplicateManager.java:130-132 | a sequence line changes no count: the open entry is not evaluated |
| `FastaDuplicateManager.CompareHeaderLine` | src/main/java/fr/edyp/mascot/fasta/FastaDuplicateManager.java:100-119 | a header makes every entry before it evaluated |
| `FastaDuplicateManager.CompareAll` | src/main/java/fr/edyp/mascot/fasta/FastaDuplicateManager.java:99-135 | evaluating every entry, the last one included, gives the same relations between counts and accessions |
| `FastaDuplicateManager.LastEntryNeverCompared` | src/main/java/fr/edyp/mascot/fasta/FastaDuplicateManager.java:99-135 | with a differing duplicate as the last entry, the source reports no duplicate, while evaluating every entry reports one |
| `DbUsageLog.ActiveLine` | src/main/java/fr/edyp/mascot/fasta/DBUsageLog.java:78-85 | a line made of a name, alone or followed by a blank and anything, declares that database active |
| `DbUsageLog.InactiveLine` | src/main/java/fr/edyp/mascot/fasta/DBUsageLog.java:78-85 | a line made of `#`, a blank and a name, alone or followed by a blank and anything, declares that database inactive |
| `DbUsageLog.LoneHash` | src/main/java/fr/edyp/mascot/fasta/DBUsageLog.java:78-81 | a lone `#` names nothing: it is the failure case |
| `DbUsageLog.ScanInSection` | src/main/java/fr/edyp/mascot/fasta/DBUsageLog.java:74-87 | inside the section, reading the lines applies their declarations in order |
| `DbUsageLog.StatusSection` | src/main/java/fr/edyp/mascot/fasta/DBUsageLog.java:61-89 | only the lines strictly between the first `Databases` line and the next `end` line count, as their declarations |
| `DbUsageLog.StatusNoSection` | src/main/java/fr/edyp/mascot/fasta/DBUsageLog.java:61-89 | without a `Databases` line nothing is recorded |
| `DbUsageLog.LastDeclarationWins` | src/main/java/fr/edyp/mascot/fasta/DBUsageLog.java:85 | the last line declaring a database decides its status |
| `DbUsageLog.UndeclaredKept` | src/main/java/fr/edyp/mascot/fasta/DBUsageLog.java:85 | a database no line declares is not added or changed |
| `DbUsageLog.ActiveThenInactive` | src/main/java/fr/edyp/mascot/fasta/DBUsageLog.java:61-89 | the file `Databases`, `a`, `# b`, `end` reads without failure and gives `a` active and `b` inactive (for plain names `a` and `b`) |
| `DbUsageLog.StatusLetter` | src/main/java/fr/edyp/mascot/fasta/DBUsageLog.java:94-101 | `D` iff absent, `A` iff present and true, `I` iff present and false |
| `DbUsageLog.NewDbInfo` | src/main/java/fr/edyp/mascot/fasta/DBUsageLog.java:260-265 | a new record is not found, has status `-` and last usage 1900-01-01 |
| `DbUsageLog.AddName` | src/main/java/fr/edyp/mascot/fasta/DBUsageLog.java:193-198 | a listed database gets a record, whatever it held before |
| `DbUsageLog.AddNames` | src/main/java/fr/edyp/mascot/fasta/DBUsageLog.java:192-200 | the keys grow by exactly the listed names |
| `DbUsageLog.MarkFound` | src/main/java/fr/edyp/mascot/fasta/DBUsageLog.java:214 | marking found adds or removes no record |
| `DbUsageLog.RaiseDate` | src/main/java/fr/edyp/mascot/fasta/DBUsageLog.java:223-227 | raising dates adds or removes no record |
| `DbUsageLog.ColumnStep` | src/main/java/fr/edyp/mascot/fasta/DBUsageLog.java:183-235 | one column keeps every record and the line's records tracked; in target mode it adds no key |
| `DbUsageLog.Columns` | src/main/java/fr/edyp/mascot/fasta/DBUsageLog.java:179-241 | the columns in index order never drop a record; in target mode they add none |
| `DbUsageLog.ColumnCount` | src/main/java/fr/edyp/mascot/fasta/DBUsageLog.java:171 | at most the first 16 columns, and no more than the line has, are read |
| `DbUsageLog.ColumnsStopped` | src/main/java/fr/edyp/mascot/fasta/DBUsageLog.java:237-238 | after a rejection no further column is read |
| `DbUsageLog.ColumnsIdle` | src/main/java/fr/edyp/mascot/fasta/DBUsageLog.java:183-235 | columns other than 2, 3 and 7 change nothing |
| `DbUsageLog.LogLine` | src/main/java/fr/edyp/mascot/fasta/DBUsageLog.java:168-242 | a line never drops a record, and in target mode adds none |
| `DbUsageLog.InitialInfos` | src/main/java/fr/edyp/mascot/fasta/DBUsageLog.java:158-161 | in target mode the map starts with the target's record |
| `DbUsageLog.ScanLog` | src/main/java/fr/edyp/mascot/fasta/DBUsageLog.java:146-252 | in target mode the keys are exactly the target |
| `DbUsageLog.LogLineOutcome` | src/main/java/fr/edyp/mascot/fasta/DBUsageLog.java:170-241 | the column walk equals a pipeline: a blank column 2, a missing target or a monitor user ends the line, and only columns 2, 3 and 7 act |
| `DbUsageLog.LineOutcomeKeys` | src/main/java/fr/edyp/mascot/fasta/DBUsageLog.java:185-199 | a line adds a key iff it is in read-all mode and lists the name in an accepted column 2 |
| `DbUsageLog.LineOutcomeRecord` | src/main/java/fr/edyp/mascot/fasta/DBUsageLog.java:185-233 | a line changes one record by that record's own field rules |
| `DbUsageLog.ReadAllKeys` | src/main/java/fr/edyp/mascot/fasta/DBUsageLog.java:185-199 | in read-all mode the keys are exactly the names listed in a non-blank column 2, even when column 3 rejects the line |
| `DbUsageLog.RecordUnlisted` | src/main/java/fr/edyp/mascot/fasta/DBUsageLog.java:255-265 | a database no line lists keeps its default record |
| `DbUsageLog.ScanLogRecord` | src/main/java/fr/edyp/mascot/fasta/DBUsageLog.java:166-243 | each record of the map is built from the lines that concern it alone |
| `DbUsageLog.RecordFound` | src/main/java/fr/edyp/mascot/fasta/DBUsageLog.java:210-216 | `found` iff some line lists the database and its column 3 is not a monitoring user |
| `DbUsageLog.RecordStatus` | src/main/java/fr/edyp/mascot/fasta/DBUsageLog.java:193-205 | the status is the mascot.dat letter once a line has listed the database and a status file was given, and `-` otherwise |
| `DbUsageLog.RecordLastUsage` | src/main/java/fr/edyp/mascot/fasta/DBUsageLog.java:218-233 | the last usage is the maximum of 1900-01-01 and every parsed start time of the database's accepted lines |
| `DbUsageLog.RecordLastUsageGrows` | src/main/java/fr/edyp/mascot/fasta/DBUsageLog.java:224-226 | the last usage never decreases as lines are read |
| `DbUsageLog.SearchesLogRecord` | src/main/java/fr/edyp/mascot/fasta/DBUsageLog.java:146-252 | each returned record, field by field: name, `found`, status and last usage as above |
| `DbUsageLog.ReadAllStatus` | src/main/java/fr/edyp/mascot/fasta/DBUsageLog.java:196-198 | in read-all mode every record has the mascot.dat letter when a status file was given |
| `DbUsageLog.ScanLogGrows` | src/main/java/fr/edyp/mascot/fasta/DBUsageLog.java:166-243 | records are never dropped and their last usage never moves back |
| `DbUsageLog.AddDbNames` | src/main/java/fr/edyp/mascot/fasta/DBUsageLog.java:192-200 | the loop over the listed names builds their records and appends them to `currentDbInfos` |
| `DbUsageLog.AddDbName` | src/main/java/fr/edyp/mascot/fasta/DBUsageLog.java:193-198 | one listed name: create when absent, then look up the status while it is `-` |
| `DbUsageLog.SetFound` | src/main/java/fr/edyp/mascot/fasta/DBUsageLog.java:214 | the `forEach` marks every record of the line found |
| `DbUsageLog.RaiseLastUsage` | src/main/java/fr/edyp/mascot/fasta/DBUsageLog.java:223-227 | the `forEach` raises every record of the line to the parsed date |
| `DbUsageLog.ReadColumn` | src/main/java/fr/edyp/mascot/fasta/DBUsageLog.java:180-235 | the `switch` on one column |
| `DbUsageLog.ReadLine` | src/main/java/fr/edyp/mascot/fasta/DBUsageLog.java:168-241 | the inner loop with `goToNextLine` computes the line's effect |
| `DbUsageLog.DBUsageLog.constructor` | src/main/java/fr/edyp/mascot/fasta/DBUsageLog.java:44-47 | a new reader has an empty status map |
| `DbUsageLog.DBUsageLog.ReadDbStatusInMap` | src/main/java/fr/edyp/mascot/fasta/DBUsageLog.java:58-92 | the loop with `dbSectionStart` leaves the map of the section scan, and fails exactly where the source throws |
| `DbUsageLog.DBUsageLog.ReadSearchesLog` | src/main/java/fr/edyp/mascot/fasta/DBUsageLog.java:146-252 | the records returned are those of the log scan |
| `DbUsageLog.DBUsageLog.PrintFastaDBInfo` | src/main/java/fr/edyp/mascot/fasta/DBUsageLog.java:103-144 | with an output file, the header followed by the report rows; without one, nothing is written |
| `DbUsageLog.Open` | src/main/java/fr/edyp/mascot/fasta/DBUsageLog.java:44-55 | succeeds iff no status file was given or its section reads cleanly, with the map read from it |
| `DbUsageLog.SortedNames` | src/main/java/fr/edyp/mascot/fasta/DBUsageLog.java:116 | the names are exactly the keys, each once, in strictly increasing `compareTo` order |
| `DbUsageLog.Report` | src/main/java/fr/edyp/mascot/fasta/DBUsageLog.java:111-121 | the report is the header followed by exactly one row per database record |
| `DbUsageLog.ReportRows` | src/main/java/fr/edyp/mascot/fasta/DBUsageLog.java:116-121 | row `k + 1` is `name \t (found ? date : "-") \t status` for the `k`-th name in sorted order |
| `DbUsageLog.WriteRows` | src/main/java/fr/edyp/mascot/fasta/DBUsageLog.java:117-128 | the loop writes one row per name in the order given |
| `DbUsageLog.RowFields` | src/main/java/fr/edyp/mascot/fasta/DBUsageLog.java:121 | a row splits back on tabs into its three fields |
| `Dates.Later` | src/main/java/fr/edyp/mascot/fasta/DBUsageLog.java:224-226 | the later of two dates: one of them, and before neither |

## Left out

- The command dispatcher (`main`, `parseCommand`, the argument parser, `System.exit`, the usage
  text) and `CommandArguments` are not part of this model. Neither is `createFileWithSuffix`.
- File I/O is not modelled. This covers readers, writers, flush/close, `IOException` and the
  logger and console messages. Files are sequences of lines, and the counters stand for what
  the messages report.
- Date parsing (`LocalDate.parse` with the log's pattern) is a parameter
  `parse: string -> Option<Date>`. `LocalDate.toString` is a parameter `format`. Calendar
  validation is not modelled.
- Java's regex `split` is modelled only for single-character delimiters, with Java's rule of
  dropping trailing empty fields. Unicode code points and surrogate pairs are not modelled.
- `DbUsageLog.ReadSearchesLog`: `DbInfo` records are values in a map keyed by name, not shared
  objects. `currentDbInfos` is a list of names. Every update made through it is by name and
  idempotent, so aliasing between list and map is not captured, and this gives the same
  records.
- `FastaDuplicateManager.RemoveDuplicateInFasta` requires that the separator never occurs at
  position 0 of a header (an empty separator, or one starting with `>`). There the source's
  `substring(1, 0)` throws, and that failure is not modelled.
- `DbUsageLog.DBUsageLog.ReadDbStatusInMap` reports a line it cannot read (only blanks, or a
  lone `#`) as `ok == false`, where the source throws `ArrayIndexOutOfBoundsException`.
- The logged (non-file) form of `printFastaDBInfo` writes to the logger only, so its output is
  not modelled.
