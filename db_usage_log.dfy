/**
 * DBUsageLog: the databases named in Mascot's searches log, with the date each was
 * last searched and its status in `mascot.dat` (active, inactive or deleted).
 *
 * The searches log is a tab-separated file, one search per line; column 2 lists the
 * databases searched (comma-separated), column 3 the user and column 7 the start time.
 * The `Databases` section of `mascot.dat` has one line per database, inactive ones
 * commented out with a leading `#` token.
 */
module DbUsageLog {
  import opened Wrappers
  import opened Strings
  import opened Seqs
  import opened Dates

  // ---------------------------------------------------------------------------
  // The Databases section of mascot.dat (readDbStatusInMap)
  // ---------------------------------------------------------------------------

  /** The separators of `split("[ \t]")`. */
  const Blanks: set<char> := {' ', '\t'}

  /**
   * Lines 78-84: the database a line of the section declares, and whether it is
   * active. `None` where the source reads past the end of the token array (a line of
   * blanks only, or a `#` with nothing after it), which throws.
   */
  function ParseStatusLine(line: string): Option<(string, bool)> {
    var part := Split(line, Blanks);
    if |part| == 0 then None
    else if part[0] == "#" then (if |part| < 2 then None else Some((part[1], false)))
    else Some((part[0], true))
  }

  /** A plain name: not empty, no blank in it. */
  predicate PlainName(name: string) {
    name != "" && NoDelimiter(name, Blanks)
  }

  /** A line that starts with a name, alone or followed by a blank, declares that database active. */
  lemma ActiveLine(name: string, rest: string)
    requires PlainName(name) && name != "#" && (rest == "" || rest[0] in Blanks)
    ensures ParseStatusLine(name + rest) == Some((name, true))
  {
    if rest == "" {
      assert name + rest == name;
      PiecesPlain(name, Blanks);
    } else {
      assert name + rest == name + [rest[0]] + rest[1..];
      PiecesCons(name, rest[0], rest[1..], Blanks);
    }
    DropTrailingKeeps(Pieces(name + rest, Blanks), 0);
  }

  /** A name after a `#` token, alone or followed by a blank, is declared inactive. */
  lemma InactiveLine(c: char, name: string, rest: string)
    requires PlainName(name) && c in Blanks && (rest == "" || rest[0] in Blanks)
    ensures ParseStatusLine("#" + [c] + name + rest) == Some((name, false))
  {
    var line := "#" + [c] + name + rest;
    assert line == "#" + [c] + (name + rest);
    PiecesCons("#", c, name + rest, Blanks);
    if rest == "" {
      assert name + rest == name;
      PiecesPlain(name, Blanks);
    } else {
      assert name + rest == name + [rest[0]] + rest[1..];
      PiecesCons(name, rest[0], rest[1..], Blanks);
    }
    var ps := Pieces(line, Blanks);
    assert ps[..2] == ["#", name];
    DropTrailingKeeps(ps, 1);
  }

  /** A lone `#` names nothing: the source fails on it. */
  lemma LoneHash()
    ensures ParseStatusLine("#") == None
  {
    PiecesPlain("#", Blanks);
  }

  /**
   * `dbSectionStart`, the `end` that stopped the loop, a failure on a line the source
   * cannot read, and the map `fastaDbStatusByName`.
   */
  datatype StatusState = StatusState(inSection: bool, ended: bool, failed: bool, statusByName: map<string, bool>)

  /** Lines 64-88: one line of mascot.dat read. */
  function StatusLine(st: StatusState, line: string): StatusState {
    if st.ended || st.failed then st
    else if st.inSection && Trim(line) == "end" then st.(ended := true)
    else if Trim(line) == "Databases" then st.(inSection := true)
    else if !st.inSection then st
    else
      match ParseStatusLine(line)
      case None => st.(failed := true)
      case Some((name, active)) => st.(statusByName := st.statusByName[name := active])
  }

  /** The state after reading `lines` from `st`. */
  function ScanFrom(st: StatusState, lines: seq<string>): StatusState {
    if lines == [] then st else StatusLine(ScanFrom(st, lines[..|lines| - 1]), lines[|lines| - 1])
  }

  /** `readDbStatusInMap` from a map `m0`. */
  function ScanStatus(lines: seq<string>, m0: map<string, bool>): StatusState {
    ScanFrom(StatusState(false, false, false, m0), lines)
  }

  lemma ScanFromStep(st: StatusState, lines: seq<string>, i: nat)
    requires i < |lines|
    ensures ScanFrom(st, lines[..i + 1]) == StatusLine(ScanFrom(st, lines[..i]), lines[i])
  {
    assert lines[..i + 1][..i] == lines[..i];
  }

  /** Reading two parts of a file one after the other. */
  lemma {:induction false} ScanFromAppend(st: StatusState, a: seq<string>, b: seq<string>)
    ensures ScanFrom(st, a + b) == ScanFrom(ScanFrom(st, a), b)
    decreases |b|
  {
    if b == [] {
      assert a + b == a;
    } else {
      var b' := b[..|b| - 1];
      assert (a + b)[..|a + b| - 1] == a + b';
      ScanFromAppend(st, a, b');
    }
  }

  /** Once stopped, by `end` or by a failure, nothing read changes the state. */
  lemma {:induction false} ScanFromStopped(st: StatusState, lines: seq<string>)
    requires st.ended || st.failed
    ensures ScanFrom(st, lines) == st
  {
    if lines != [] {
      ScanFromStopped(st, lines[..|lines| - 1]);
    }
  }

  /** Before the section opens, nothing is recorded. */
  lemma {:induction false} ScanOutside(st: StatusState, lines: seq<string>)
    requires !st.inSection && !st.ended && !st.failed
    requires forall i | 0 <= i < |lines| :: Trim(lines[i]) != "Databases"
    ensures ScanFrom(st, lines) == st
  {
    if lines != [] {
      ScanOutside(st, lines[..|lines| - 1]);
    }
  }

  /**
   * The section as a list of declarations: each line that is not a further
   * `Databases` line declares one database, later lines overwriting earlier ones;
   * `None` when a line cannot be read.
   */
  function Declared(body: seq<string>, m: map<string, bool>): Option<map<string, bool>> {
    if body == [] then Some(m)
    else
      var line := body[|body| - 1];
      match Declared(body[..|body| - 1], m)
      case None => None
      case Some(m') =>
        if Trim(line) == "Databases" then Some(m')
        else match ParseStatusLine(line)
          case None => None
          case Some((name, active)) => Some(m'[name := active])
  }

  /** Inside the section, reading lines is applying their declarations. */
  lemma {:induction false} ScanInSection(m: map<string, bool>, body: seq<string>)
    requires forall i | 0 <= i < |body| :: Trim(body[i]) != "end"
    ensures var r := ScanFrom(StatusState(true, false, false, m), body);
            && r.inSection && !r.ended
            && (r.failed <==> Declared(body, m).None?)
            && (!r.failed ==> r.statusByName == Declared(body, m).value)
  {
    if body != [] {
      ScanInSection(m, body[..|body| - 1]);
      var r := ScanFrom(StatusState(true, false, false, m), body[..|body| - 1]);
      if !r.failed {
        assert Trim(body[|body| - 1]) != "end";
      }
    }
  }

  /**
   * Lines 61-89: only the lines after the first `Databases` line and before the next
   * `end` line count, and they count as their declarations.
   */
  lemma StatusSection(pre: seq<string>, open: string, body: seq<string>, close: string, post: seq<string>, m0: map<string, bool>)
    requires forall i | 0 <= i < |pre| :: Trim(pre[i]) != "Databases"
    requires Trim(open) == "Databases" && Trim(close) == "end"
    requires forall i | 0 <= i < |body| :: Trim(body[i]) != "end"
    ensures var r := ScanStatus(pre + [open] + body + [close] + post, m0);
            && (r.failed <==> Declared(body, m0).None?)
            && (!r.failed ==> r.statusByName == Declared(body, m0).value)
  {
    var st0 := StatusState(false, false, false, m0);
    ScanOutside(st0, pre);
    ScanFromAppend(st0, pre, [open]);
    assert ScanFrom(st0, pre + [open]) == StatusState(true, false, false, m0) by {
      assert (pre + [open])[..|pre|] == pre;
    }
    ScanInSection(m0, body);
    ScanFromAppend(st0, pre + [open], body);
    var r := ScanFrom(st0, pre + [open] + body);
    ScanFromAppend(st0, pre + [open] + body, [close]);
    ScanFromAppend(st0, pre + [open] + body + [close], post);
    assert ScanFrom(r, [close]) == StatusLine(r, close) by {
      assert [close][..0] == [];
    }
    ScanFromStopped(StatusLine(r, close), post);
  }

  /** A file without a `Databases` line records nothing. */
  lemma StatusNoSection(lines: seq<string>, m0: map<string, bool>)
    requires forall i | 0 <= i < |lines| :: Trim(lines[i]) != "Databases"
    ensures ScanStatus(lines, m0) == StatusState(false, false, false, m0)
  {
    ScanOutside(StatusState(false, false, false, m0), lines);
  }

  /** `body[k]` declares `name`, unless it is a `Databases` line or cannot be read. */
  predicate Declares(line: string, name: string) {
    Trim(line) != "Databases" && ParseStatusLine(line).Some? && ParseStatusLine(line).value.0 == name
  }

  /** The last declaration of a database wins. */
  lemma {:induction false} LastDeclarationWins(body: seq<string>, m: map<string, bool>, k: nat, name: string, active: bool)
    requires k < |body| && Trim(body[k]) != "Databases" && ParseStatusLine(body[k]) == Some((name, active))
    requires forall j | k < j < |body| :: !Declares(body[j], name)
    requires Declared(body, m).Some?
    ensures name in Declared(body, m).value && Declared(body, m).value[name] == active
  {
    var init := body[..|body| - 1];
    if k < |body| - 1 {
      assert forall j | k < j < |init| :: init[j] == body[j];
      LastDeclarationWins(init, m, k, name, active);
    }
  }

  /** A database no line declares keeps its entry, or its absence, from `m`. */
  lemma {:induction false} UndeclaredKept(body: seq<string>, m: map<string, bool>, name: string)
    requires forall j | 0 <= j < |body| :: !Declares(body[j], name)
    requires Declared(body, m).Some?
    ensures (name in Declared(body, m).value <==> name in m)
    ensures name in m ==> Declared(body, m).value[name] == m[name]
  {
    if body != [] {
      UndeclaredKept(body[..|body| - 1], m, name);
    }
  }

  /** A section declaring `a` active and then `b` inactive: `Databases`, `a`, `# b`, `end`. */
  lemma ActiveThenInactive(a: string, b: string)
    requires PlainName(a) && !IsTrimmed(a[0]) && !IsTrimmed(a[|a| - 1])
    requires a != "#" && a != "Databases" && a != "end"
    requires PlainName(b) && !IsTrimmed(b[|b| - 1])
    ensures var r := ScanStatus(["Databases", a, "# " + b, "end"], map[]);
            !r.failed && r.statusByName == map[a := true, b := false]
  {
    var hb := "# " + b;
    var body := [a, hb];
    assert Declared(body, map[]) == Some(map[a := true, b := false]) by {
      TrimKeeps(a);
      TrimKeeps(hb);
      DeclaredTwo(a, b);
    }
    assert forall i | 0 <= i < |body| :: Trim(body[i]) != "end" by {
      TrimKeeps(a);
      TrimKeeps(hb);
      assert hb[0] != "end"[0];
    }
    assert Trim("Databases") == "Databases" && Trim("end") == "end" by {
      TrimKeeps("Databases");
      TrimKeeps("end");
    }
    assert [] + ["Databases"] + body + ["end"] + [] == ["Databases", a, hb, "end"];
    StatusSection([], "Databases", body, "end", [], map[]);
  }

  lemma DeclaredTwo(a: string, b: string)
    requires PlainName(a) && a != "#" && a != "Databases" && Trim(a) == a
    requires PlainName(b) && Trim("# " + b) == "# " + b
    ensures Declared([a, "# " + b], map[]) == Some(map[a := true, b := false])
  {
    assert ("# " + b)[0] != "Databases"[0];
    assert Declared([a], map[]) == Some(map[a := true]) by {
      ActiveLine(a, "");
      assert a + "" == a;
      assert [a][..0] == [];
    }
    InactiveLine(' ', b, "");
    assert "#" + [' '] == "# ";
    assert "# " + b + "" == "# " + b;
    assert [a, "# " + b][..1] == [a];
  }

  // ---------------------------------------------------------------------------
  // getStatusStr
  // ---------------------------------------------------------------------------

  /** Lines 94-101: `D`eleted when absent from mascot.dat, else `A`ctive or `I`nactive. */
  function StatusLetter(statusByName: map<string, bool>, dbName: string): (r: string)
    ensures r == "D" <==> dbName !in statusByName
    ensures r == "A" <==> dbName in statusByName && statusByName[dbName]
    ensures r == "I" <==> dbName in statusByName && !statusByName[dbName]
  {
    if dbName !in statusByName then "D"
    else if statusByName[dbName] then "A"
    else "I"
  }

  // ---------------------------------------------------------------------------
  // DbInfo and the searches log (readSearchesLog)
  // ---------------------------------------------------------------------------

  /** Columns of the searches log (lines 19-36). */
  const ColDbNames: nat := 2
  const ColUser: nat := 3
  const ColStartTime: nat := 7
  const LastCol: nat := 15

  /** Searches by this user are monitoring runs, not real searches (line 38). */
  const MonitorUserPrefix := "Monitor Test DB"

  /** One database's record. */
  datatype DbInfo = DbInfo(lastUsage: Date, name: string, found: bool, status: string)

  /** Lines 260-265: a record before any search has been read for it. */
  function NewDbInfo(dbname: string): (r: DbInfo)
    ensures r.name == dbname && !r.found && r.status == "-" && r.lastUsage == Date(1900, 1, 1)
  {
    DbInfo(Default, dbname, false, "-")
  }

  /**
   * The target database (`None` for read-all mode, `dbName == null`), and what the
   * log reader knows of mascot.dat: the status map and whether the file was given.
   */
  datatype Config = Config(target: Option<string>, statusByName: map<string, bool>, hasStatusFile: bool)

  /** The names in `current` all have a record. */
  predicate Tracked(infos: map<string, DbInfo>, current: seq<string>) {
    forall k | 0 <= k < |current| :: current[k] in infos
  }

  /** Lines 193-198: a database listed in read-all mode gets a record, and its status once. */
  function AddName(infos: map<string, DbInfo>, n: string, cfg: Config): (r: map<string, DbInfo>)
    ensures r.Keys == infos.Keys + {n}
  {
    var created := if n in infos then infos else infos[n := NewDbInfo(n)];
    var info := created[n];
    if info.status == "-" && cfg.hasStatusFile then created[n := info.(status := StatusLetter(cfg.statusByName, n))]
    else created
  }

  /** Lines 192-200: every listed database, in order. */
  function AddNames(infos: map<string, DbInfo>, dbs: seq<string>, cfg: Config): (r: map<string, DbInfo>)
    ensures r.Keys == infos.Keys + ToSet(dbs)
  {
    if dbs == [] then infos
    else
      var init := dbs[..|dbs| - 1];
      assert dbs == init + [dbs[|dbs| - 1]];
      ToSetAppend(init, dbs[|dbs| - 1]);
      AddName(AddNames(infos, init, cfg), dbs[|dbs| - 1], cfg)
  }

  /** Line 214: every record of the line is marked found. */
  function MarkFound(infos: map<string, DbInfo>, current: seq<string>): (r: map<string, DbInfo>)
    requires Tracked(infos, current)
    ensures r.Keys == infos.Keys
  {
    if current == [] then infos
    else
      var m := MarkFound(infos, current[..|current| - 1]);
      var n := current[|current| - 1];
      m[n := m[n].(found := true)]
  }

  /** Lines 223-227: every record of the line is last used no earlier than `d`. */
  function RaiseDate(infos: map<string, DbInfo>, current: seq<string>, d: Date): (r: map<string, DbInfo>)
    requires Tracked(infos, current)
    ensures r.Keys == infos.Keys
  {
    if current == [] then infos
    else
      var m := RaiseDate(infos, current[..|current| - 1], d);
      var n := current[|current| - 1];
      m[n := m[n].(lastUsage := Later(m[n].lastUsage, d))]
  }

  /** The records, the names of `currentDbInfos`, and `goToNextLine`. */
  datatype Scan = Scan(infos: map<string, DbInfo>, current: seq<string>, stop: bool)

  predicate ScanOk(s: Scan, cfg: Config) {
    && Tracked(s.infos, s.current)
    && (cfg.target.Some? ==> cfg.target.value in s.infos && s.current == [cfg.target.value])
  }

  /** Lines 183-235: one column of a line. */
  function ColumnStep(s: Scan, index: nat, value: string, cfg: Config, parse: string -> Option<Date>): (r: Scan)
    requires ScanOk(s, cfg)
    ensures ScanOk(r, cfg) && r.infos.Keys >= s.infos.Keys
    ensures cfg.target.Some? ==> r.infos.Keys == s.infos.Keys
  {
    if index == ColDbNames then
      if Trim(value) == "" then s.(stop := true)
      else
        var dbs := Split(value, {','});
        if cfg.target.None? then
          var infos := AddNames(s.infos, dbs, cfg);
          assert Tracked(infos, s.current + dbs) by {
            forall k | 0 <= k < |s.current + dbs| ensures (s.current + dbs)[k] in infos {
              if k >= |s.current| {
                assert (s.current + dbs)[k] == dbs[k - |s.current|] && dbs[k - |s.current|] in ToSet(dbs);
              }
            }
          }
          s.(infos := infos, current := s.current + dbs)
        else
          var t := cfg.target.value;
          if t !in dbs then s.(stop := true)
          else if cfg.hasStatusFile then s.(infos := s.infos[t := s.infos[t].(status := StatusLetter(cfg.statusByName, t))])
          else s
    else if index == ColUser then
      if StartsWith(value, MonitorUserPrefix) then s.(stop := true)
      else s.(infos := MarkFound(s.infos, s.current))
    else if index == ColStartTime then
      match parse(CollapseDoubleSpaces(Trim(value)))
      case None => s
      case Some(d) => s.(infos := RaiseDate(s.infos, s.current, d))
    else s
  }

  /** The state after the first `k` columns; a rejection skips the rest of the line. */
  function Columns(s0: Scan, items: seq<string>, k: nat, cfg: Config, parse: string -> Option<Date>): (r: Scan)
    requires ScanOk(s0, cfg) && k <= |items|
    ensures ScanOk(r, cfg) && r.infos.Keys >= s0.infos.Keys
    ensures cfg.target.Some? ==> r.infos.Keys == s0.infos.Keys
  {
    if k == 0 then s0
    else
      var s := Columns(s0, items, k - 1, cfg, parse);
      if s.stop then s else ColumnStep(s, k - 1, items[k - 1], cfg, parse)
  }

  /** Lines 170-177: the fields of a line, and the records it starts with. */
  function LogItems(line: string): seq<string> {
    Split(line, {'\t'})
  }

  /** Line 171: `Math.min(LAST_COL + 1, lineItems.length)`. */
  function ColumnCount(items: seq<string>): (max: nat)
    ensures max <= |items| && max <= LastCol + 1
  {
    if LastCol + 1 < |items| then LastCol + 1 else |items|
  }

  function LineStart(infos: map<string, DbInfo>, cfg: Config): Scan {
    Scan(infos, if cfg.target.Some? then [cfg.target.value] else [], false)
  }

  predicate InfosOk(infos: map<string, DbInfo>, cfg: Config) {
    cfg.target.Some? ==> cfg.target.value in infos
  }

  /** Lines 168-242: one line of the searches log. */
  function LogLine(infos: map<string, DbInfo>, line: string, cfg: Config, parse: string -> Option<Date>): (r: map<string, DbInfo>)
    requires InfosOk(infos, cfg)
    ensures InfosOk(r, cfg) && r.Keys >= infos.Keys
    ensures cfg.target.Some? ==> r.Keys == infos.Keys
  {
    var items := LogItems(line);
    Columns(LineStart(infos, cfg), items, ColumnCount(items), cfg, parse).infos
  }

  /** Lines 158-161: the records before the first line. */
  function InitialInfos(cfg: Config): (r: map<string, DbInfo>)
    ensures InfosOk(r, cfg)
  {
    if cfg.target.Some? then map[cfg.target.value := NewDbInfo(cfg.target.value)] else map[]
  }

  /** `readSearchesLog` on the lines of the searches log. */
  function ScanLog(lines: seq<string>, cfg: Config, parse: string -> Option<Date>): (r: map<string, DbInfo>)
    ensures InfosOk(r, cfg)
    ensures cfg.target.Some? ==> r.Keys == {cfg.target.value}
  {
    if lines == [] then InitialInfos(cfg)
    else LogLine(ScanLog(lines[..|lines| - 1], cfg, parse), lines[|lines| - 1], cfg, parse)
  }

  lemma ColumnsStep(s0: Scan, items: seq<string>, k: nat, cfg: Config, parse: string -> Option<Date>)
    requires ScanOk(s0, cfg) && k < |items|
    ensures var s := Columns(s0, items, k, cfg, parse);
            Columns(s0, items, k + 1, cfg, parse) == if s.stop then s else ColumnStep(s, k, items[k], cfg, parse)
  {
  }

  /** After a rejection the remaining columns are not read. */
  lemma {:induction false} ColumnsStopped(s0: Scan, items: seq<string>, k: nat, m: nat, cfg: Config, parse: string -> Option<Date>)
    requires ScanOk(s0, cfg) && k <= m <= |items|
    requires Columns(s0, items, k, cfg, parse).stop
    ensures Columns(s0, items, m, cfg, parse) == Columns(s0, items, k, cfg, parse)
    decreases m
  {
    if m > k {
      ColumnsStopped(s0, items, k, m - 1, cfg, parse);
    }
  }

  lemma ScanLogStep(lines: seq<string>, i: nat, cfg: Config, parse: string -> Option<Date>)
    requires i < |lines|
    ensures ScanLog(lines[..i + 1], cfg, parse) == LogLine(ScanLog(lines[..i], cfg, parse), lines[i], cfg, parse)
  {
    assert lines[..i + 1][..i] == lines[..i];
  }

  // ---------------------------------------------------------------------------
  // The column steps as the source performs them
  // ---------------------------------------------------------------------------

  /** Lines 192-200: each listed database gets a record and joins the line's records. */
  method AddDbNames(infos: map<string, DbInfo>, current: seq<string>, dbs: seq<string>, cfg: Config)
    returns (infoByDbName: map<string, DbInfo>, currentDbInfos: seq<string>)
    ensures infoByDbName == AddNames(infos, dbs, cfg) && currentDbInfos == current + dbs
  {
    infoByDbName, currentDbInfos := infos, current;
    for k := 0 to |dbs|
      invariant infoByDbName == AddNames(infos, dbs[..k], cfg)
      invariant currentDbInfos == current + dbs[..k]
    {
      AddNamesStep(infos, dbs, k, cfg);
      var nextDbname := dbs[k];
      infoByDbName := AddDbName(infoByDbName, nextDbname, cfg);
      AppendTakeSnoc(current, dbs, k);
      currentDbInfos := currentDbInfos + [nextDbname];
    }
    assert dbs[..|dbs|] == dbs;
  }

  /** Lines 193-198: the record of one listed database. */
  method AddDbName(infos: map<string, DbInfo>, nextDbname: string, cfg: Config) returns (infoByDbName: map<string, DbInfo>)
    ensures infoByDbName == AddName(infos, nextDbname, cfg)
  {
    infoByDbName := infos;
    if nextDbname !in infoByDbName {
      infoByDbName := infoByDbName[nextDbname := NewDbInfo(nextDbname)];
    }
    var nextDbInfo := infoByDbName[nextDbname];
    if nextDbInfo.status == "-" && cfg.hasStatusFile {
      infoByDbName := infoByDbName[nextDbname := nextDbInfo.(status := StatusLetter(cfg.statusByName, nextDbname))];
    }
  }

  lemma AddNamesStep(infos: map<string, DbInfo>, dbs: seq<string>, k: nat, cfg: Config)
    requires k < |dbs|
    ensures AddNames(infos, dbs[..k + 1], cfg) == AddName(AddNames(infos, dbs[..k], cfg), dbs[k], cfg)
  {
    assert dbs[..k + 1][..k] == dbs[..k];
  }

  /** Line 214: `currentDbInfos.forEach(di -> di.found = true)`. */
  method SetFound(infos: map<string, DbInfo>, current: seq<string>) returns (infoByDbName: map<string, DbInfo>)
    requires Tracked(infos, current)
    ensures infoByDbName == MarkFound(infos, current)
  {
    infoByDbName := infos;
    for k := 0 to |current|
      invariant Tracked(infos, current[..k])
      invariant infoByDbName == MarkFound(infos, current[..k])
    {
      assert current[..k + 1][..k] == current[..k];
      var di := infoByDbName[current[k]];
      infoByDbName := infoByDbName[current[k] := di.(found := true)];
    }
    assert current[..|current|] == current;
  }

  /** Lines 223-227: each record of the line is last used no earlier than `currentDate`. */
  method RaiseLastUsage(infos: map<string, DbInfo>, current: seq<string>, currentDate: Date) returns (infoByDbName: map<string, DbInfo>)
    requires Tracked(infos, current)
    ensures infoByDbName == RaiseDate(infos, current, currentDate)
  {
    infoByDbName := infos;
    for k := 0 to |current|
      invariant Tracked(infos, current[..k])
      invariant infoByDbName == RaiseDate(infos, current[..k], currentDate)
    {
      assert current[..k + 1][..k] == current[..k];
      var di := infoByDbName[current[k]];
      if IsBefore(di.lastUsage, currentDate) {
        infoByDbName := infoByDbName[current[k] := di.(lastUsage := currentDate)];
      }
    }
    assert current[..|current|] == current;
  }

  /** Lines 180-235: the `switch` on one column. */
  method ReadColumn(infos: map<string, DbInfo>, current: seq<string>, index: nat, value: string,
                    cfg: Config, parse: string -> Option<Date>)
    returns (infoByDbName: map<string, DbInfo>, currentDbInfos: seq<string>, goToNextLine: bool)
    requires ScanOk(Scan(infos, current, false), cfg)
    ensures Scan(infoByDbName, currentDbInfos, goToNextLine) == ColumnStep(Scan(infos, current, false), index, value, cfg, parse)
  {
    infoByDbName, currentDbInfos, goToNextLine := infos, current, false;
    if index == ColDbNames {
      if Trim(value) == "" {
        goToNextLine := true;
      } else {
        var dbs := Split(value, {','});
        if cfg.target.None? {
          infoByDbName, currentDbInfos := AddDbNames(infos, current, dbs, cfg);
        } else {
          var dbName := cfg.target.value;
          if dbName !in dbs {
            goToNextLine := true;
          } else if cfg.hasStatusFile {
            infoByDbName := infos[dbName := infos[dbName].(status := StatusLetter(cfg.statusByName, dbName))];
          }
        }
      }
    } else if index == ColUser {
      if StartsWith(value, MonitorUserPrefix) {
        goToNextLine := true;
      } else {
        infoByDbName := SetFound(infos, current);
      }
    } else if index == ColStartTime {
      var currentDate := parse(CollapseDoubleSpaces(Trim(value)));
      if currentDate.Some? {
        infoByDbName := RaiseLastUsage(infos, current, currentDate.value);
      }
    }
  }

  /** Lines 168-241: the columns of one line, up to the first rejection. */
  method ReadLine(infos: map<string, DbInfo>, line: string, cfg: Config, parse: string -> Option<Date>)
    returns (infoByDbName: map<string, DbInfo>)
    requires InfosOk(infos, cfg)
    ensures infoByDbName == LogLine(infos, line, cfg, parse)
  {
    infoByDbName := infos;
    var lineItems := LogItems(line);
    var max := ColumnCount(lineItems);
    var index := 0;
    var goToNextLine := false;
    var currentDbInfos: seq<string> := if cfg.target.Some? then [cfg.target.value] else [];
    ghost var start := LineStart(infos, cfg);
    while index < max && !goToNextLine
      invariant index <= max
      invariant Scan(infoByDbName, currentDbInfos, goToNextLine) == Columns(start, lineItems, index, cfg, parse)
    {
      infoByDbName, currentDbInfos, goToNextLine := ReadColumn(infoByDbName, currentDbInfos, index, lineItems[index], cfg, parse);
      index := index + 1;
    }
    if goToNextLine {
      ColumnsStopped(start, lineItems, index, max, cfg, parse);
    }
  }

  // ---------------------------------------------------------------------------
  // The reader
  // ---------------------------------------------------------------------------

  /**
   * The reader of Mascot's logs. `hasStatusFile` says whether a `mascot.dat` was
   * given (`mascotDatFile != null`); its contents are passed to the operations as
   * lines, as is the searches log.
   */
  class DBUsageLog {
    var fastaDbStatusByName: map<string, bool>
    var hasStatusFile: bool

    /** Lines 44-47: no status read yet. */
    constructor (hasStatusFile: bool)
      ensures this.hasStatusFile == hasStatusFile && fastaDbStatusByName == map[]
    {
      this.hasStatusFile := hasStatusFile;
      fastaDbStatusByName := map[];
    }

    /**
     * Lines 58-92: reads the Databases section of `mascot.dat` into the status map.
     * `ok` is false where the source throws on a line it cannot read; the map then
     * holds what was read before that line.
     */
    method ReadDbStatusInMap(datLines: seq<string>) returns (ok: bool)
      modifies this
      ensures var r := ScanStatus(datLines, old(fastaDbStatusByName));
              ok == !r.failed && fastaDbStatusByName == r.statusByName
      ensures hasStatusFile == old(hasStatusFile)
    {
      var st0 := StatusState(false, false, false, fastaDbStatusByName);
      var i := 0;
      var dbSectionStart := false;
      while i < |datLines|
        invariant 0 <= i <= |datLines|
        invariant ScanFrom(st0, datLines[..i]) == StatusState(dbSectionStart, false, false, fastaDbStatusByName)
        invariant st0.statusByName == old(fastaDbStatusByName) && hasStatusFile == old(hasStatusFile)
      {
        var line := datLines[i];
        ScanFromStep(st0, datLines, i);
        if dbSectionStart && Trim(line) == "end" {
          StatusRest(st0, datLines, i + 1);
          return true;
        }
        if Trim(line) == "Databases" {
          dbSectionStart := true;
          i := i + 1;
          continue;
        }
        if dbSectionStart {
          var part := Split(line, Blanks);
          if |part| == 0 || (part[0] == "#" && |part| < 2) {
            StatusRest(st0, datLines, i + 1);
            return false;
          }
          var activeStatus := true;
          var dbName;
          if part[0] == "#" {
            activeStatus := false;
            dbName := part[1];
          } else {
            dbName := part[0];
          }
          fastaDbStatusByName := fastaDbStatusByName[dbName := activeStatus];
        }
        i := i + 1;
      }
      assert datLines[..i] == datLines;
      return true;
    }

    /**
     * Lines 146-252: the records of the databases named in the searches log, or
     * of `dbName` alone. `parse` stands for `LocalDate.parse` with the log's format.
     */
    method ReadSearchesLog(dbName: Option<string>, logLines: seq<string>, parse: string -> Option<Date>)
      returns (infoByDbName: map<string, DbInfo>)
      ensures infoByDbName == ScanLog(logLines, Config(dbName, fastaDbStatusByName, hasStatusFile), parse)
    {
      var cfg := Config(dbName, fastaDbStatusByName, hasStatusFile);
      infoByDbName := if dbName.Some? then map[dbName.value := NewDbInfo(dbName.value)] else map[];
      var i := 0;
      while i < |logLines|
        invariant 0 <= i <= |logLines|
        invariant infoByDbName == ScanLog(logLines[..i], cfg, parse)
      {
        ScanLogStep(logLines, i, cfg, parse);
        infoByDbName := ReadLine(infoByDbName, logLines[i], cfg, parse);
        i := i + 1;
      }
      assert logLines[..i] == logLines;
    }

    /**
     * Lines 103-144 with an output file (`writeInfo`): the header and one row per
     * database, in name order. Without one the source only logs, and nothing is written.
     * `format` stands for `LocalDate.toString`.
     */
    method PrintFastaDBInfo(dbName: Option<string>, writeInfo: bool, logLines: seq<string>,
                            parse: string -> Option<Date>, format: Date -> string)
      returns (written: seq<string>)
      ensures var infos := ScanLog(logLines, Config(dbName, fastaDbStatusByName, hasStatusFile), parse);
              written == if writeInfo then Report(infos, format) else []
    {
      var infos := ReadSearchesLog(dbName, logLines, parse);
      var dbNames := SortedNames(infos.Keys);
      Listing(infos, dbNames);
      written := WriteRows(infos, dbNames, writeInfo, format);
    }
  }

  /**
   * Lines 44-55: a reader, with the status of each database read from mascot.dat
   * when one is given. A line of the Databases section that cannot be read makes the
   * source throw; here it is a `Failure`.
   */
  method Open(datLines: Option<seq<string>>) returns (r: Result<DBUsageLog, string>)
    ensures r.Success? <==> datLines.None? || !ScanStatus(datLines.value, map[]).failed
    ensures r.Success? ==> fresh(r.value) && r.value.hasStatusFile == datLines.Some?
    ensures r.Success? ==> r.value.fastaDbStatusByName == if datLines.Some? then ScanStatus(datLines.value, map[]).statusByName else map[]
  {
    var log := new DBUsageLog(datLines.Some?);
    if datLines.Some? {
      var ok := log.ReadDbStatusInMap(datLines.value);
      if !ok {
        return Failure("a line of the Databases section has no name");
      }
    }
    return Success(log);
  }

  /** Once the loop stops at line `i`, the lines after it change nothing. */
  lemma StatusRest(st0: StatusState, lines: seq<string>, i: nat)
    requires i <= |lines|
    requires var r := ScanFrom(st0, lines[..i]); r.ended || r.failed
    ensures ScanFrom(st0, lines) == ScanFrom(st0, lines[..i])
  {
    ScanFromAppend(st0, lines[..i], lines[i..]);
    ScanFromStopped(ScanFrom(st0, lines[..i]), lines[i..]);
    assert lines[..i] + lines[i..] == lines;
  }

  // ---------------------------------------------------------------------------
  // What one line of the searches log does
  // ---------------------------------------------------------------------------

  /** A column the `switch` has no case for. */
  predicate Idle(c: nat) {
    c != ColDbNames && c != ColUser && c != ColStartTime
  }

  /** Columns other than 2, 3 and 7 change nothing. */
  lemma {:induction false} ColumnsIdle(s0: Scan, items: seq<string>, j: nat, k: nat, cfg: Config, parse: string -> Option<Date>)
    requires ScanOk(s0, cfg) && j <= k <= |items|
    requires forall c | j <= c < k :: Idle(c)
    ensures Columns(s0, items, k, cfg, parse) == Columns(s0, items, j, cfg, parse)
    decreases k
  {
    if k > j {
      assert Idle(k - 1);
      ColumnsIdle(s0, items, j, k - 1, cfg, parse);
    }
  }

  /** The databases of the line's records, once column 2 has been accepted. */
  function Current(dbs: seq<string>, cfg: Config): seq<string> {
    if cfg.target.None? then dbs else [cfg.target.value]
  }

  /** The records once column 2 has been accepted. */
  function Listed(infos: map<string, DbInfo>, dbs: seq<string>, cfg: Config): (r: map<string, DbInfo>)
    requires InfosOk(infos, cfg)
    ensures Tracked(r, Current(dbs, cfg)) && r.Keys >= infos.Keys
  {
    if cfg.target.None? then
      var r := AddNames(infos, dbs, cfg);
      assert forall k | 0 <= k < |dbs| :: dbs[k] in ToSet(dbs);
      r
    else
      var t := cfg.target.value;
      if cfg.hasStatusFile then infos[t := infos[t].(status := StatusLetter(cfg.statusByName, t))] else infos
  }

  /**
   * A line in closed form: a blank column 2, a missing target or a monitor user ends
   * the line, and only columns 2, 3 and 7 do anything.
   */
  function LineOutcome(infos: map<string, DbInfo>, items: seq<string>, cfg: Config, parse: string -> Option<Date>): map<string, DbInfo>
    requires InfosOk(infos, cfg)
  {
    if !DbsAccepted(items, cfg) then infos
    else
      var dbs := Split(items[ColDbNames], {','});
      var listed := Listed(infos, dbs, cfg);
      if !UserAccepted(items) then listed
      else
        var found := MarkFound(listed, Current(dbs, cfg));
        if |items| <= ColStartTime then found
        else Dated(found, Current(dbs, cfg), items[ColStartTime], parse)
  }

  /** Lines 219-233: the records once column 7 has been read. */
  function Dated(infos: map<string, DbInfo>, current: seq<string>, value: string, parse: string -> Option<Date>): map<string, DbInfo>
    requires Tracked(infos, current)
  {
    match parse(CollapseDoubleSpaces(Trim(value)))
    case None => infos
    case Some(d) => RaiseDate(infos, current, d)
  }

  /** Column 2 accepts the line: it is not blank and, in target mode, lists the target. */
  predicate DbsAccepted(items: seq<string>, cfg: Config) {
    && |items| > ColDbNames && Trim(items[ColDbNames]) != ""
    && (cfg.target.Some? ==> cfg.target.value in Split(items[ColDbNames], {','}))
  }

  /** Column 3 accepts the line: it is not a monitoring run. */
  predicate UserAccepted(items: seq<string>) {
    |items| > ColUser && !StartsWith(items[ColUser], MonitorUserPrefix)
  }

  lemma AfterDbColumn(infos: map<string, DbInfo>, items: seq<string>, cfg: Config, parse: string -> Option<Date>)
    requires InfosOk(infos, cfg) && |items| > ColDbNames
    ensures var s0 := LineStart(infos, cfg);
            var dbs := Split(items[ColDbNames], {','});
            Columns(s0, items, 3, cfg, parse)
              == if DbsAccepted(items, cfg) then Scan(Listed(infos, dbs, cfg), Current(dbs, cfg), false) else s0.(stop := true)
  {
    var s0 := LineStart(infos, cfg);
    ColumnsIdle(s0, items, 0, 2, cfg, parse);
    ColumnsStep(s0, items, 2, cfg, parse);
    if cfg.target.None? {
      assert s0.current + Split(items[ColDbNames], {','}) == Split(items[ColDbNames], {','});
    }
  }

  lemma AfterUserColumn(infos: map<string, DbInfo>, items: seq<string>, cfg: Config, parse: string -> Option<Date>)
    requires InfosOk(infos, cfg) && DbsAccepted(items, cfg) && |items| > ColUser
    ensures var s0 := LineStart(infos, cfg);
            var dbs := Split(items[ColDbNames], {','});
            var listed := Listed(infos, dbs, cfg);
            Columns(s0, items, 4, cfg, parse)
              == if UserAccepted(items) then Scan(MarkFound(listed, Current(dbs, cfg)), Current(dbs, cfg), false)
                 else Scan(listed, Current(dbs, cfg), true)
  {
    var s0 := LineStart(infos, cfg);
    AfterDbColumn(infos, items, cfg, parse);
    ColumnsStep(s0, items, 3, cfg, parse);
  }

  lemma AfterDateColumn(infos: map<string, DbInfo>, items: seq<string>, cfg: Config, parse: string -> Option<Date>)
    requires InfosOk(infos, cfg) && DbsAccepted(items, cfg) && UserAccepted(items) && |items| > ColStartTime
    ensures var s0 := LineStart(infos, cfg);
            var dbs := Split(items[ColDbNames], {','});
            var found := MarkFound(Listed(infos, dbs, cfg), Current(dbs, cfg));
            Columns(s0, items, 8, cfg, parse).infos == Dated(found, Current(dbs, cfg), items[ColStartTime], parse)
  {
    var s0 := LineStart(infos, cfg);
    AfterUserColumn(infos, items, cfg, parse);
    ColumnsIdle(s0, items, 4, 7, cfg, parse);
    ColumnsStep(s0, items, 7, cfg, parse);
  }

  /** Lines 170-241: the column walk is the closed form. */
  lemma LogLineOutcome(infos: map<string, DbInfo>, line: string, cfg: Config, parse: string -> Option<Date>)
    requires InfosOk(infos, cfg)
    ensures LogLine(infos, line, cfg, parse) == LineOutcome(infos, LogItems(line), cfg, parse)
  {
    ColumnsOutcome(infos, LogItems(line), cfg, parse);
  }

  lemma ColumnsOutcome(infos: map<string, DbInfo>, items: seq<string>, cfg: Config, parse: string -> Option<Date>)
    requires InfosOk(infos, cfg)
    ensures Columns(LineStart(infos, cfg), items, ColumnCount(items), cfg, parse).infos == LineOutcome(infos, items, cfg, parse)
  {
    var max := ColumnCount(items);
    if max <= ColDbNames || !DbsAccepted(items, cfg) {
      OutcomeRejected(infos, items, cfg, parse);
    } else if max <= ColUser || !UserAccepted(items) {
      OutcomeListed(infos, items, cfg, parse);
    } else {
      OutcomeFound(infos, items, cfg, parse);
    }
  }

  /** A line without an accepted database column leaves the records alone. */
  lemma OutcomeRejected(infos: map<string, DbInfo>, items: seq<string>, cfg: Config, parse: string -> Option<Date>)
    requires InfosOk(infos, cfg)
    requires ColumnCount(items) <= ColDbNames || !DbsAccepted(items, cfg)
    ensures Columns(LineStart(infos, cfg), items, ColumnCount(items), cfg, parse).infos == infos
    ensures LineOutcome(infos, items, cfg, parse) == infos
  {
    var s0 := LineStart(infos, cfg);
    var max := ColumnCount(items);
    if max <= ColDbNames {
      ColumnsIdle(s0, items, 0, max, cfg, parse);
    } else {
      AfterDbColumn(infos, items, cfg, parse);
      ColumnsStopped(s0, items, 3, max, cfg, parse);
    }
  }

  /** A line whose user column is missing or rejected only lists its databases. */
  lemma OutcomeListed(infos: map<string, DbInfo>, items: seq<string>, cfg: Config, parse: string -> Option<Date>)
    requires InfosOk(infos, cfg)
    requires ColDbNames < ColumnCount(items) && DbsAccepted(items, cfg)
    requires ColumnCount(items) <= ColUser || !UserAccepted(items)
    ensures var listed := Listed(infos, Split(items[ColDbNames], {','}), cfg);
            Columns(LineStart(infos, cfg), items, ColumnCount(items), cfg, parse).infos == listed
            && LineOutcome(infos, items, cfg, parse) == listed
  {
    var s0 := LineStart(infos, cfg);
    var max := ColumnCount(items);
    var dbs := Split(items[ColDbNames], {','});
    assert !UserAccepted(items);
    if max <= ColUser {
      assert max == 3;
      AfterDbColumn(infos, items, cfg, parse);
      assert Columns(s0, items, 3, cfg, parse).infos == Listed(infos, dbs, cfg);
    } else {
      AfterUserColumn(infos, items, cfg, parse);
      assert Columns(s0, items, 4, cfg, parse) == Scan(Listed(infos, dbs, cfg), Current(dbs, cfg), true);
      ColumnsStopped(s0, items, 4, max, cfg, parse);
    }
  }

  /** A line with an accepted user marks its databases found, and dates them when it can. */
  lemma OutcomeFound(infos: map<string, DbInfo>, items: seq<string>, cfg: Config, parse: string -> Option<Date>)
    requires InfosOk(infos, cfg)
    requires ColUser < ColumnCount(items) && DbsAccepted(items, cfg) && UserAccepted(items)
    ensures Columns(LineStart(infos, cfg), items, ColumnCount(items), cfg, parse).infos == LineOutcome(infos, items, cfg, parse)
  {
    var s0 := LineStart(infos, cfg);
    var max := ColumnCount(items);
    var dbs := Split(items[ColDbNames], {','});
    var found := MarkFound(Listed(infos, dbs, cfg), Current(dbs, cfg));
    if max <= ColStartTime {
      AfterUserColumn(infos, items, cfg, parse);
      ColumnsIdle(s0, items, 4, max, cfg, parse);
      assert LineOutcome(infos, items, cfg, parse) == found;
    } else {
      AfterDateColumn(infos, items, cfg, parse);
      ColumnsIdle(s0, items, 8, max, cfg, parse);
      assert LineOutcome(infos, items, cfg, parse) == Dated(found, Current(dbs, cfg), items[ColStartTime], parse);
    }
  }

  // ---------------------------------------------------------------------------
  // One record at a time
  // ---------------------------------------------------------------------------

  /** The record of `n` before a line: the one in the map, or a new one. */
  function Before(infos: map<string, DbInfo>, n: string): DbInfo {
    if n in infos then infos[n] else NewDbInfo(n)
  }

  /** Lines 196-198: the status is looked up while it is still unknown. */
  function ListedOnce(info: DbInfo, n: string, cfg: Config): DbInfo {
    if info.status == "-" && cfg.hasStatusFile then info.(status := StatusLetter(cfg.statusByName, n)) else info
  }

  lemma {:induction false} AddNamesAt(infos: map<string, DbInfo>, dbs: seq<string>, cfg: Config, n: string)
    requires n in AddNames(infos, dbs, cfg)
    ensures AddNames(infos, dbs, cfg)[n] == if n in dbs then ListedOnce(Before(infos, n), n, cfg) else infos[n]
  {
    if dbs != [] {
      var init := dbs[..|dbs| - 1];
      assert dbs == init + [dbs[|dbs| - 1]];
      if n in AddNames(infos, init, cfg) {
        AddNamesAt(infos, init, cfg, n);
      }
    }
  }

  lemma {:induction false} MarkFoundAt(infos: map<string, DbInfo>, current: seq<string>, n: string)
    requires Tracked(infos, current) && n in infos
    ensures MarkFound(infos, current)[n] == if n in current then infos[n].(found := true) else infos[n]
  {
    if current != [] {
      var init := current[..|current| - 1];
      assert current == init + [current[|current| - 1]];
      MarkFoundAt(infos, init, n);
    }
  }

  lemma {:induction false} RaiseDateAt(infos: map<string, DbInfo>, current: seq<string>, d: Date, n: string)
    requires Tracked(infos, current) && n in infos
    ensures RaiseDate(infos, current, d)[n] == if n in current then infos[n].(lastUsage := Later(infos[n].lastUsage, d)) else infos[n]
  {
    if current != [] {
      var init := current[..|current| - 1];
      assert current == init + [current[|current| - 1]];
      RaiseDateAt(infos, init, d, n);
    }
  }

  /** Line `line` lists `n` in an accepted column 2. */
  predicate ListsAt(line: string, n: string) {
    var items := LogItems(line);
    |items| > ColDbNames && Trim(items[ColDbNames]) != "" && n in Split(items[ColDbNames], {','})
  }

  /** Line `line` is a real search of `n`: listed, and column 3 is not a monitoring run. */
  predicate FoundAt(line: string, n: string) {
    ListsAt(line, n) && UserAccepted(LogItems(line))
  }

  /** The start time line `line` gives to `n`, if it is a real search and the time parses. */
  function DateAt(line: string, n: string, parse: string -> Option<Date>): Option<Date> {
    var items := LogItems(line);
    if FoundAt(line, n) && |items| > ColStartTime then parse(CollapseDoubleSpaces(Trim(items[ColStartTime]))) else None
  }

  /** What one line does to the record of `n`, one field at a time. */
  function RecordStep(info: DbInfo, line: string, n: string, cfg: Config, parse: string -> Option<Date>): DbInfo {
    var listed :=
      if ListsAt(line, n) && cfg.hasStatusFile && (cfg.target.Some? || info.status == "-")
      then info.(status := StatusLetter(cfg.statusByName, n)) else info;
    var found := if FoundAt(line, n) then listed.(found := true) else listed;
    match DateAt(line, n, parse)
    case None => found
    case Some(d) => found.(lastUsage := Later(found.lastUsage, d))
  }

  /** In target mode only the target's record is touched; in read-all mode a listed name joins the keys. */
  lemma LineOutcomeKeys(infos: map<string, DbInfo>, items: seq<string>, line: string, cfg: Config, parse: string -> Option<Date>, n: string)
    requires InfosOk(infos, cfg) && items == LogItems(line)
    ensures var r := LineOutcome(infos, items, cfg, parse);
            n in r <==> n in infos || (cfg.target.None? && ListsAt(line, n))
  {
  }

  /** The record of a listed or known name once column 2 has been accepted. */
  lemma ListedRecord(infos: map<string, DbInfo>, dbs: seq<string>, cfg: Config, n: string)
    requires InfosOk(infos, cfg) && (n in infos || n in dbs)
    requires cfg.target.Some? ==> n == cfg.target.value && n in dbs
    ensures n in Listed(infos, dbs, cfg) && (n in Current(dbs, cfg) <==> n in dbs)
    ensures var info := Before(infos, n);
            Listed(infos, dbs, cfg)[n]
              == if n in dbs && cfg.hasStatusFile && (cfg.target.Some? || info.status == "-")
                 then info.(status := StatusLetter(cfg.statusByName, n)) else info
  {
    if cfg.target.None? {
      AddNamesAt(infos, dbs, cfg, n);
      assert n in ToSet(dbs) <==> n in dbs;
    }
  }

  lemma LineOutcomeRecord(infos: map<string, DbInfo>, items: seq<string>, line: string, cfg: Config, parse: string -> Option<Date>, n: string)
    requires InfosOk(infos, cfg) && items == LogItems(line)
    requires n in LineOutcome(infos, items, cfg, parse)
    requires cfg.target.Some? ==> n == cfg.target.value
    ensures LineOutcome(infos, items, cfg, parse)[n] == RecordStep(Before(infos, n), line, n, cfg, parse)
  {
    if DbsAccepted(items, cfg) {
      var dbs := Split(items[ColDbNames], {','});
      var current := Current(dbs, cfg);
      var listed := Listed(infos, dbs, cfg);
      assert ListsAt(line, n) <==> n in dbs;
      ListedRecord(infos, dbs, cfg, n);
      if UserAccepted(items) {
        var found := MarkFound(listed, current);
        MarkFoundAt(listed, current, n);
        assert FoundAt(line, n) <==> n in current;
        if |items| > ColStartTime {
          match parse(CollapseDoubleSpaces(Trim(items[ColStartTime])))
          case None =>
          case Some(d) => RaiseDateAt(found, current, d, n);
        }
      }
    }
  }

  // ---------------------------------------------------------------------------
  // The whole log, one record at a time
  // ---------------------------------------------------------------------------

  /** The record of `n` after `lines`, built from its own history alone. */
  function Record(lines: seq<string>, n: string, cfg: Config, parse: string -> Option<Date>): DbInfo {
    if lines == [] then NewDbInfo(n)
    else RecordStep(Record(lines[..|lines| - 1], n, cfg, parse), lines[|lines| - 1], n, cfg, parse)
  }

  /** Some line of `lines` lists `n`. */
  predicate EverListed(lines: seq<string>, n: string) {
    exists j | 0 <= j < |lines| :: ListsAt(lines[j], n)
  }

  lemma EverListedSnoc(init: seq<string>, x: string, n: string)
    ensures EverListed(init + [x], n) <==> EverListed(init, n) || ListsAt(x, n)
  {
    var lines := init + [x];
    if EverListed(init, n) {
      var j :| 0 <= j < |init| && ListsAt(init[j], n);
      assert lines[j] == init[j];
    }
    if ListsAt(x, n) {
      assert lines[|init|] == x;
    }
    if EverListed(lines, n) {
      var j :| 0 <= j < |lines| && ListsAt(lines[j], n);
      if j < |init| {
        assert init[j] == lines[j];
      }
    }
  }

  /**
   * Lines 185-199: in read-all mode the keys are exactly the names listed in an
   * accepted column 2, whatever columns 3 and 7 hold.
   */
  lemma {:induction false} ReadAllKeys(lines: seq<string>, cfg: Config, parse: string -> Option<Date>, n: string)
    requires cfg.target.None?
    ensures n in ScanLog(lines, cfg, parse) <==> EverListed(lines, n)
  {
    if lines != [] {
      var init, x := lines[..|lines| - 1], lines[|lines| - 1];
      assert lines == init + [x];
      ReadAllKeys(init, cfg, parse, n);
      LogLineOutcome(ScanLog(init, cfg, parse), x, cfg, parse);
      LineOutcomeKeys(ScanLog(init, cfg, parse), LogItems(x), x, cfg, parse, n);
      EverListedSnoc(init, x, n);
    }
  }

  /** A name no line lists keeps the record it was created with. */
  lemma {:induction false} RecordUnlisted(lines: seq<string>, n: string, cfg: Config, parse: string -> Option<Date>)
    requires !EverListed(lines, n)
    ensures Record(lines, n, cfg, parse) == NewDbInfo(n)
  {
    if lines != [] {
      var init, x := lines[..|lines| - 1], lines[|lines| - 1];
      assert lines == init + [x];
      EverListedSnoc(init, x, n);
      RecordUnlisted(init, n, cfg, parse);
    }
  }

  /** Each record of the map is built from the lines that concern it, one field rule at a time. */
  lemma {:induction false} ScanLogRecord(lines: seq<string>, cfg: Config, parse: string -> Option<Date>, n: string)
    requires n in ScanLog(lines, cfg, parse)
    ensures ScanLog(lines, cfg, parse)[n] == Record(lines, n, cfg, parse)
  {
    if lines == [] {
    } else {
      var init, x := lines[..|lines| - 1], lines[|lines| - 1];
      var m := ScanLog(init, cfg, parse);
      LogLineOutcome(m, x, cfg, parse);
      LineOutcomeRecord(m, LogItems(x), x, cfg, parse, n);
      if n in m {
        ScanLogRecord(init, cfg, parse, n);
      } else {
        ReadAllKeys(init, cfg, parse, n);
        RecordUnlisted(init, n, cfg, parse);
      }
    }
  }

  /** Some line of `lines` is a real search of `n`. */
  predicate EverFound(lines: seq<string>, n: string) {
    exists j | 0 <= j < |lines| :: FoundAt(lines[j], n)
  }

  lemma EverFoundSnoc(init: seq<string>, x: string, n: string)
    ensures EverFound(init + [x], n) <==> EverFound(init, n) || FoundAt(x, n)
  {
    var lines := init + [x];
    if EverFound(init, n) {
      var j :| 0 <= j < |init| && FoundAt(init[j], n);
      assert lines[j] == init[j];
    }
    if FoundAt(x, n) {
      assert lines[|init|] == x;
    }
    if EverFound(lines, n) {
      var j :| 0 <= j < |lines| && FoundAt(lines[j], n);
      if j < |init| {
        assert init[j] == lines[j];
      }
    }
  }

  /** Lines 210-216: `found` is set by a real search and by nothing else; a failed date changes nothing here. */
  lemma {:induction false} RecordFound(lines: seq<string>, n: string, cfg: Config, parse: string -> Option<Date>)
    ensures Record(lines, n, cfg, parse).found <==> EverFound(lines, n)
    ensures Record(lines, n, cfg, parse).name == n
  {
    if lines != [] {
      var init, x := lines[..|lines| - 1], lines[|lines| - 1];
      assert lines == init + [x];
      RecordFound(init, n, cfg, parse);
      EverFoundSnoc(init, x, n);
    }
  }

  /**
   * Lines 193-205: the status is the mascot.dat letter once a line has listed the
   * database and a status file was given, and `-` otherwise.
   */
  lemma {:induction false} RecordStatus(lines: seq<string>, n: string, cfg: Config, parse: string -> Option<Date>)
    ensures Record(lines, n, cfg, parse).status
            == if cfg.hasStatusFile && EverListed(lines, n) then StatusLetter(cfg.statusByName, n) else "-"
  {
    if lines != [] {
      var init, x := lines[..|lines| - 1], lines[|lines| - 1];
      assert lines == init + [x];
      RecordStatus(init, n, cfg, parse);
      EverListedSnoc(init, x, n);
      RecordStepStatus(Record(init, n, cfg, parse), x, n, cfg, parse);
      assert StatusLetter(cfg.statusByName, n) != "-";
    }
  }

  lemma RecordStepStatus(info: DbInfo, line: string, n: string, cfg: Config, parse: string -> Option<Date>)
    ensures RecordStep(info, line, n, cfg, parse).status
            == if ListsAt(line, n) && cfg.hasStatusFile && (cfg.target.Some? || info.status == "-")
               then StatusLetter(cfg.statusByName, n) else info.status
  {
  }

  /**
   * Lines 218-233: the last usage is no earlier than 1900-01-01 and than any start
   * time given to the database, and it is one of them.
   */
  lemma {:induction false} RecordLastUsage(lines: seq<string>, n: string, cfg: Config, parse: string -> Option<Date>)
    ensures var last := Record(lines, n, cfg, parse).lastUsage;
            && !IsBefore(last, Default)
            && (forall j | 0 <= j < |lines| && DateAt(lines[j], n, parse).Some? :: !IsBefore(last, DateAt(lines[j], n, parse).value))
            && (last == Default || exists j | 0 <= j < |lines| :: DateAt(lines[j], n, parse) == Some(last))
  {
    if lines != [] {
      var init, x := lines[..|lines| - 1], lines[|lines| - 1];
      assert lines == init + [x];
      RecordLastUsage(init, n, cfg, parse);
      var prev := Record(init, n, cfg, parse).lastUsage;
      var last := Record(lines, n, cfg, parse).lastUsage;
      assert !IsBefore(last, prev);
      forall j | 0 <= j < |lines| && DateAt(lines[j], n, parse).Some?
        ensures !IsBefore(last, DateAt(lines[j], n, parse).value)
      {
        if j < |init| {
          assert lines[j] == init[j];
          NotBeforeTransitive(last, prev, DateAt(lines[j], n, parse).value);
        }
      }
      NotBeforeTransitive(last, prev, Default);
      if last != prev {
        assert DateAt(lines[|init|], n, parse) == Some(last);
      } else if prev != Default {
        var j :| 0 <= j < |init| && DateAt(init[j], n, parse) == Some(prev);
        assert lines[j] == init[j];
      }
    }
  }

  /** Line 224: the last usage never moves back as more lines are read. */
  lemma {:induction false} RecordLastUsageGrows(lines: seq<string>, i: nat, n: string, cfg: Config, parse: string -> Option<Date>)
    requires i <= |lines|
    ensures !IsBefore(Record(lines, n, cfg, parse).lastUsage, Record(lines[..i], n, cfg, parse).lastUsage)
    decreases |lines|
  {
    if i < |lines| {
      var init := lines[..|lines| - 1];
      assert init[..i] == lines[..i];
      RecordLastUsageGrows(init, i, n, cfg, parse);
      NotBeforeTransitive(Record(lines, n, cfg, parse).lastUsage, Record(init, n, cfg, parse).lastUsage, Record(lines[..i], n, cfg, parse).lastUsage);
    } else {
      assert lines[..i] == lines;
    }
  }

  /**
   * Lines 146-252: each record `readSearchesLog` returns, field by field. `found`
   * records a real search; the status is the mascot.dat letter once the database has
   * been listed with a status file given; the last usage is the latest start time of
   * its real searches, or 1900-01-01.
   */
  lemma SearchesLogRecord(lines: seq<string>, cfg: Config, parse: string -> Option<Date>, n: string)
    requires n in ScanLog(lines, cfg, parse)
    ensures var info := ScanLog(lines, cfg, parse)[n];
            && info.name == n
            && (info.found <==> EverFound(lines, n))
            && info.status == (if cfg.hasStatusFile && EverListed(lines, n) then StatusLetter(cfg.statusByName, n) else "-")
            && !IsBefore(info.lastUsage, Default)
            && (forall j | 0 <= j < |lines| && DateAt(lines[j], n, parse).Some? :: !IsBefore(info.lastUsage, DateAt(lines[j], n, parse).value))
            && (info.lastUsage == Default || exists j | 0 <= j < |lines| :: DateAt(lines[j], n, parse) == Some(info.lastUsage))
  {
    ScanLogRecord(lines, cfg, parse, n);
    RecordFound(lines, n, cfg, parse);
    RecordStatus(lines, n, cfg, parse);
    RecordLastUsage(lines, n, cfg, parse);
  }

  /** In read-all mode every record has been listed, so its status is known whenever mascot.dat was given. */
  lemma ReadAllStatus(lines: seq<string>, cfg: Config, parse: string -> Option<Date>, n: string)
    requires cfg.target.None? && n in ScanLog(lines, cfg, parse)
    ensures ScanLog(lines, cfg, parse)[n].status == if cfg.hasStatusFile then StatusLetter(cfg.statusByName, n) else "-"
  {
    ReadAllKeys(lines, cfg, parse, n);
    SearchesLogRecord(lines, cfg, parse, n);
  }

  /** Records are never dropped and their last usage never moves back as the log is read. */
  lemma ScanLogGrows(lines: seq<string>, i: nat, cfg: Config, parse: string -> Option<Date>, n: string)
    requires i <= |lines| && n in ScanLog(lines[..i], cfg, parse)
    ensures n in ScanLog(lines, cfg, parse)
    ensures !IsBefore(ScanLog(lines, cfg, parse)[n].lastUsage, ScanLog(lines[..i], cfg, parse)[n].lastUsage)
  {
    if cfg.target.None? {
      ReadAllKeys(lines[..i], cfg, parse, n);
      ReadAllKeys(lines, cfg, parse, n);
      var j :| 0 <= j < i && ListsAt(lines[..i][j], n);
      assert lines[..i][j] == lines[j];
    }
    ScanLogRecord(lines[..i], cfg, parse, n);
    ScanLogRecord(lines, cfg, parse, n);
    RecordLastUsageGrows(lines, i, n, cfg, parse);
  }

  // ---------------------------------------------------------------------------
  // The report (printFastaDBInfo)
  // ---------------------------------------------------------------------------

  /** `a` comes before `b` and differs from it. */
  predicate StrictlySorted(names: seq<string>) {
    forall i, j | 0 <= i < j < |names| :: LessEq(names[i], names[j]) && names[i] != names[j]
  }

  /** `m` comes first among `keys`. */
  predicate IsLeast(m: string, keys: set<string>) {
    m in keys && forall y | y in keys :: LessEq(m, y)
  }

  lemma {:induction false} LeastExists(keys: set<string>)
    requires keys != {}
    ensures exists m :: IsLeast(m, keys)
    decreases keys
  {
    var x :| x in keys;
    if keys - {x} == {} {
      assert keys == {x};
      LessEqReflexive(x);
      assert IsLeast(x, keys);
    } else {
      LeastExists(keys - {x});
      var m :| IsLeast(m, keys - {x});
      LessEqTotal(x, m);
      if LessEq(x, m) {
        forall y | y in keys ensures LessEq(x, y) {
          if y != x {
            LessEqTransitive(x, m, y);
          } else {
            LessEqReflexive(x);
          }
        }
        assert IsLeast(x, keys);
      } else {
        assert IsLeast(m, keys);
      }
    }
  }

  lemma LeastUnique(keys: set<string>)
    ensures forall a, b | IsLeast(a, keys) && IsLeast(b, keys) :: a == b
  {
    forall a, b | IsLeast(a, keys) && IsLeast(b, keys) ensures a == b {
      LessEqAntisymmetric(a, b);
    }
  }

  /** The least name in front of the sorted others. */
  lemma SortedCons(m: string, rest: seq<string>, keys: set<string>)
    requires IsLeast(m, keys) && ToSet(rest) == keys - {m} && StrictlySorted(rest)
    ensures ToSet([m] + rest) == keys && StrictlySorted([m] + rest)
  {
    assert forall y :: y in [m] + rest <==> y == m || y in rest;
    assert ToSet([m] + rest) == {m} + ToSet(rest);
    assert keys == {m} + (keys - {m});
    forall i, j | 0 <= i < j < |[m] + rest|
      ensures LessEq(([m] + rest)[i], ([m] + rest)[j]) && ([m] + rest)[i] != ([m] + rest)[j]
    {
      if i == 0 {
        assert ([m] + rest)[j] == rest[j - 1] && rest[j - 1] in ToSet(rest);
      } else {
        assert ([m] + rest)[i] == rest[i - 1] && ([m] + rest)[j] == rest[j - 1];
      }
    }
  }

  /** Line 116: `keySet().stream().sorted()`, the names in `compareTo` order. */
  function SortedNames(keys: set<string>): (names: seq<string>)
    ensures ToSet(names) == keys && |names| == |keys|
    ensures forall k | 0 <= k < |names| :: names[k] in keys
    ensures StrictlySorted(names)
    decreases keys
  {
    if keys == {} then []
    else
      LeastExists(keys);
      LeastUnique(keys);
      var m :| IsLeast(m, keys);
      var rest := SortedNames(keys - {m});
      SortedCons(m, rest, keys);
      [m] + rest
  }

  /** Line 111. */
  const ReportHeader := "Name\tLast Usage Date\tStatus (<A>ctive, <I>nactive, <D>eleted)"

  /** Lines 120-121: the name, the last usage date or `-` if never searched, and the status. */
  function Row(name: string, info: DbInfo, format: Date -> string): string {
    name + "\t" + (if info.found then format(info.lastUsage) else "-") + "\t" + info.status
  }

  function Rows(infos: map<string, DbInfo>, names: seq<string>, format: Date -> string): (r: seq<string>)
    requires forall k | 0 <= k < |names| :: names[k] in infos
    ensures |r| == |names|
    ensures forall k | 0 <= k < |names| :: r[k] == Row(names[k], infos[names[k]], format)
  {
    if names == [] then []
    else Rows(infos, names[..|names| - 1], format) + [Row(names[|names| - 1], infos[names[|names| - 1]], format)]
  }

  /** Lines 117-128: the header, then one row per name in the order given. */
  method WriteRows(infos: map<string, DbInfo>, dbNames: seq<string>, writeInfo: bool, format: Date -> string)
    returns (written: seq<string>)
    requires forall k | 0 <= k < |dbNames| :: dbNames[k] in infos
    ensures written == if writeInfo then [ReportHeader] + Rows(infos, dbNames, format) else []
  {
    written := if writeInfo then [ReportHeader] else [];
    for k := 0 to |dbNames|
      invariant written == if writeInfo then [ReportHeader] + Rows(infos, dbNames[..k], format) else []
    {
      RowsStep(infos, dbNames, k, format);
      var info := infos[dbNames[k]];
      if writeInfo {
        var date := if info.found then format(info.lastUsage) else "-";
        written := written + [dbNames[k] + "\t" + date + "\t" + info.status];
      }
    }
    assert dbNames[..|dbNames|] == dbNames;
  }

  /** Every name of a listing of the keys has a record. */
  lemma Listing(infos: map<string, DbInfo>, names: seq<string>)
    requires ToSet(names) == infos.Keys
    ensures forall k | 0 <= k < |names| :: names[k] in infos
  {
    assert forall k | 0 <= k < |names| :: names[k] in ToSet(names);
  }

  lemma RowsStep(infos: map<string, DbInfo>, names: seq<string>, k: nat, format: Date -> string)
    requires k < |names| && forall j | 0 <= j < |names| :: names[j] in infos
    ensures Rows(infos, names[..k + 1], format) == Rows(infos, names[..k], format) + [Row(names[k], infos[names[k]], format)]
  {
    assert names[..k + 1][..k] == names[..k];
  }

  /** Lines 111-128: the written report. */
  function Report(infos: map<string, DbInfo>, format: Date -> string): (r: seq<string>)
    ensures |r| == |infos| + 1 && r[0] == ReportHeader
  {
    var names := SortedNames(infos.Keys);
    var rows := Rows(infos, names, format);
    assert |rows| == |infos.Keys| == |infos|;
    [ReportHeader] + rows
  }

  /** Lines 116-121: after the header, row `k + 1` is that of the `k`-th name in sorted order. */
  lemma ReportRows(infos: map<string, DbInfo>, format: Date -> string)
    ensures var names := SortedNames(infos.Keys);
            var r := Report(infos, format);
            forall k | 0 <= k < |names| :: r[k + 1] == Row(names[k], infos[names[k]], format)
  {
    var names := SortedNames(infos.Keys);
    var rows := Rows(infos, names, format);
    assert Report(infos, format) == [ReportHeader] + rows;
  }

  /** A row splits back on tabs into its three fields. */
  lemma RowFields(name: string, date: string, status: string)
    requires NoDelimiter(name, {'\t'}) && NoDelimiter(date, {'\t'}) && NoDelimiter(status, {'\t'}) && status != ""
    ensures Split(name + "\t" + date + "\t" + status, {'\t'}) == [name, date, status]
  {
    var line := name + "\t" + date + "\t" + status;
    assert line == name + ['\t'] + (date + ['\t'] + status);
    PiecesCons(name, '\t', date + ['\t'] + status, {'\t'});
    PiecesCons(date, '\t', status, {'\t'});
    PiecesPlain(status, {'\t'});
    var ps := Pieces(line, {'\t'});
    assert ps == [name, date, status];
    DropTrailingKeeps(ps, 2);
    assert ps[..3] == ps;
  }
}
