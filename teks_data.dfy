/**
 * The two delimited-text standards parsers of services/teksData.ts.
 *
 * Both walk the text line by line and fill a record keyed by standard ID;
 * a later line for the same ID overwrites an earlier one. Each parser is a
 * method whose loop mirrors the source and is proved equal to `Database`
 * applied to the per-line results (`CsvRow`, `TsvRow`); the properties of
 * the resulting databases are lemmas about those functions.
 */
module TeksData {
  import opened Strings
  import opened Types

  /** The placeholder used when a row has no description. */
  const NoDescription: string := "No description provided"
  /** The placeholder category. */
  const General: string := "General"

  /** `s || fallback` on strings: the empty string is falsy. */
  function OrDefault(s: string, fallback: string): string {
    if s == [] then fallback else s
  }

  /** `text.split('\n')` */
  function Lines(text: string): seq<string> {
    Split(text, '\n')
  }

  // =====================================================================
  // The database that `db[id] = ...` builds, one optional entry per line

  /** True when the line's outcome is an entry for ID `k`. */
  predicate Defines(row: Option<StandardDefinition>, k: string) {
    row.Some? && row.value.id == k
  }

  function Insert(db: StandardsDb, row: Option<StandardDefinition>): StandardsDb {
    if row.Some? then db[row.value.id := row.value] else db
  }

  /**
   * The record left after processing the lines in order; every key is the
   * `id` of the definition stored under it.
   */
  function Database(rows: seq<Option<StandardDefinition>>): (db: StandardsDb)
    ensures forall k :: k in db ==> db[k].id == k
    decreases |rows|
  {
    if rows == [] then map[] else Insert(Database(rows[..|rows| - 1]), rows[|rows| - 1])
  }

  lemma DatabaseStep(rows: seq<Option<StandardDefinition>>, i: nat)
    requires i < |rows|
    ensures Database(rows[..i + 1]) == Insert(Database(rows[..i]), rows[i])
  {
    assert rows[..i + 1][..i] == rows[..i];
  }

  /** A key is present exactly when some line produced an entry for it. */
  lemma {:induction false} DatabaseKeys(rows: seq<Option<StandardDefinition>>, k: string)
    ensures k in Database(rows) <==> exists i :: 0 <= i < |rows| && Defines(rows[i], k)
    decreases |rows|
  {
    if rows != [] {
      var init := rows[..|rows| - 1];
      DatabaseKeys(init, k);
      if k in Database(init) {
        var i :| 0 <= i < |init| && Defines(init[i], k);
        assert rows[i] == init[i];
      }
      if exists i :: 0 <= i < |rows| && Defines(rows[i], k) {
        var i :| 0 <= i < |rows| && Defines(rows[i], k);
        if i < |init| {
          assert Defines(init[i], k);
        }
      }
    }
  }

  /** Last write wins: the entry under an ID comes from the last line that defines it. */
  lemma {:induction false} DatabaseLastWins(rows: seq<Option<StandardDefinition>>, i: nat)
    requires i < |rows| && rows[i].Some?
    requires forall j :: i < j < |rows| ==> !Defines(rows[j], rows[i].value.id)
    ensures rows[i].value.id in Database(rows)
    ensures Database(rows)[rows[i].value.id] == rows[i].value
    decreases |rows|
  {
    var init := rows[..|rows| - 1];
    if i < |rows| - 1 {
      forall j | i < j < |init| ensures !Defines(init[j], rows[i].value.id) {
        assert init[j] == rows[j];
      }
      DatabaseLastWins(init, i);
    }
  }

  /** Every stored definition is the output of the last line defining its key. */
  lemma {:induction false} DatabaseValueFromRow(rows: seq<Option<StandardDefinition>>, k: string)
    requires k in Database(rows)
    ensures exists i :: 0 <= i < |rows| && rows[i] == Some(Database(rows)[k])
    decreases |rows|
  {
    var init := rows[..|rows| - 1];
    if !Defines(rows[|rows| - 1], k) {
      DatabaseValueFromRow(init, k);
      var i :| 0 <= i < |init| && init[i] == Some(Database(init)[k]);
      assert rows[i] == init[i];
    }
  }

  // =====================================================================
  // The CSV tokenizer: line.match(/(".*?"|[^",\s]+)(?=\s*,|\s*$)/g)
  //
  // The pattern has no look-behind and no `^`, so whether it matches at a
  // position depends only on the rest of the line from there; the scan is
  // therefore stated on that rest, `t`.

  /** The characters `.` refuses to match. */
  predicate IsLineTerminator(c: char) {
    c == '\n' || c == '\r'
  }

  /** `[^",\s]` */
  predicate IsBareChar(c: char) {
    c != '"' && c != ',' && !IsSpace(c)
  }

  /** The look-ahead `(?=\s*,|\s*$)` at the start of `rest`. */
  predicate AtFieldEnd(rest: string) {
    var u := DropSpaces(rest);
    u == [] || u[0] == ','
  }

  /** Length of the maximal run of `[^",\s]` at the start of `t`. */
  function BareRunLength(t: string): (n: nat)
    ensures n <= |t|
    ensures forall i :: 0 <= i < n ==> IsBareChar(t[i])
    ensures n == |t| || !IsBareChar(t[n])
    decreases |t|
  {
    if t != [] && IsBareChar(t[0]) then 1 + BareRunLength(t[1..]) else 0
  }

  /**
   * The lazy alternative `".*?"` after its opening quote: the closing quote
   * is the first `"` at or after index `k` that the look-ahead accepts, and
   * `.` cannot cross a line terminator. Yields the length of the match.
   */
  function QuotedMatchLength(t: string, k: nat): (r: Option<nat>)
    ensures r.Some? ==> k < r.value <= |t| && t[r.value - 1] == '"' && AtFieldEnd(t[r.value..])
    decreases |t| - k
  {
    if k >= |t| || IsLineTerminator(t[k]) then None
    else if t[k] == '"' && AtFieldEnd(t[k + 1..]) then Some(k + 1)
    else QuotedMatchLength(t, k + 1)
  }

  /**
   * Laziness of `".*?"`: the closing quote found is the first quote from `k`
   * on that the look-ahead accepts, with no line terminator before it; and
   * when none is found, every quote the look-ahead would accept lies past a
   * line terminator.
   */
  lemma {:induction false} QuotedMatchIsFirst(t: string, k: nat)
    ensures QuotedMatchLength(t, k).Some? ==>
              forall j :: k <= j < QuotedMatchLength(t, k).value - 1 ==>
                !IsLineTerminator(t[j]) && !(t[j] == '"' && AtFieldEnd(t[j + 1..]))
    ensures QuotedMatchLength(t, k).None? ==>
              forall j :: k <= j < |t| && t[j] == '"' && AtFieldEnd(t[j + 1..]) ==>
                exists i :: k <= i < j && IsLineTerminator(t[i])
    decreases |t| - k
  {
    if k < |t| && !IsLineTerminator(t[k]) && !(t[k] == '"' && AtFieldEnd(t[k + 1..])) {
      QuotedMatchIsFirst(t, k + 1);
    }
  }

  /**
   * The length of the match starting at the head of `t`, if any. The quoted
   * alternative is tried first; the bare alternative can only succeed with
   * its maximal run (see `BareBacktrackingFails`).
   */
  function MatchLength(t: string): (r: Option<nat>)
    ensures r.Some? ==> 0 < r.value <= |t|
  {
    if t == [] then None
    else if t[0] == '"' then QuotedMatchLength(t, 1)
    else
      var n := BareRunLength(t);
      if n > 0 && AtFieldEnd(t[n..]) then Some(n) else None
  }

  /** Backtracking the greedy bare run to a shorter length never satisfies the look-ahead. */
  lemma BareBacktrackingFails(t: string, m: nat)
    requires 0 < m < BareRunLength(t)
    ensures !AtFieldEnd(t[m..])
  {
    assert t[m..][0] == t[m];
  }

  /** The global scan: every match, left to right, resuming after each one. */
  function Matches(t: string): (ms: seq<string>)
    ensures forall i :: 0 <= i < |ms| ==> ms[i] != []
    decreases |t|
  {
    if t == [] then []
    else match MatchLength(t)
      case Some(n) => [t[..n]] + Matches(t[n..])
      case None => Matches(t[1..])
  }

  /** `col.replace(/^"|"$/g, '')` */
  function StripQuotes(s: string): string {
    var a := if s != [] && s[0] == '"' then s[1..] else s;
    if a != [] && a[|a| - 1] == '"' then a[..|a| - 1] else a
  }

  function StripAll(ms: seq<string>): (r: seq<string>)
    ensures |r| == |ms|
    ensures forall i :: 0 <= i < |ms| ==> r[i] == StripQuotes(ms[i])
  {
    seq(|ms|, i requires 0 <= i < |ms| => StripQuotes(ms[i]))
  }

  /** The columns of a trimmed CSV line; `split(',')` only when nothing matched. */
  function CsvColumns(line: string): seq<string> {
    var ms := Matches(line);
    if ms == [] then TrimAll(Split(line, ',')) else TrimAll(StripAll(ms))
  }

  // =====================================================================
  // parseCSV

  predicate IsCsvHeader(id: string) {
    Lower(id) == "id" || Lower(id) == "standard"
  }

  /** `cols[i]` where a missing column reads as the empty (falsy) string. */
  function Column(cols: seq<string>, i: nat): string {
    if i < |cols| then cols[i] else []
  }

  /** A tokenized line yields an entry: two columns, not a header, an ID longer than 2. */
  predicate CsvQualifies(cols: seq<string>) {
    |cols| >= 2 && !IsCsvHeader(cols[0]) && |cols[0]| > 2
  }

  function CsvDefinition(cols: seq<string>): StandardDefinition
    requires |cols| >= 1
  {
    StandardDefinition(cols[0], OrDefault(Column(cols, 1), NoDescription),
                       Some(OrDefault(Column(cols, 2), General)), None)
  }

  /** The outcome of one line of the CSV loop. */
  function CsvRow(rawLine: string): Option<StandardDefinition> {
    var line := Trim(rawLine);
    if line == [] then None
    else
      var cols := CsvColumns(line);
      if CsvQualifies(cols) then Some(CsvDefinition(cols)) else None
  }

  function CsvRows(lines: seq<string>): (rows: seq<Option<StandardDefinition>>)
    ensures |rows| == |lines|
    ensures forall i :: 0 <= i < |lines| ==> rows[i] == CsvRow(lines[i])
  {
    seq(|lines|, i requires 0 <= i < |lines| => CsvRow(lines[i]))
  }

  function CsvDatabase(text: string): StandardsDb {
    Database(CsvRows(Lines(text)))
  }

  /**
   * The body of the parseCSV loop for one line, with its `continue`s as early
   * returns: the entry it stores, if any. It is kept apart from `ParseCsv` so
   * that the loop's proof handles one line at a time; `CsvRow` is the same
   * rule as a value, for the lemmas.
   */
  method CsvLine(rawLine: string) returns (entry: Option<StandardDefinition>)
    ensures entry == CsvRow(rawLine)
  {
    var line := Trim(rawLine);
    if line == [] {
      return None;
    }
    var cols := CsvColumns(line);
    if |cols| < 2 {
      return None;
    }
    var id := cols[0];
    if Lower(id) == "id" || Lower(id) == "standard" {
      return None;
    }
    if id != [] && |id| > 2 {
      entry := Some(StandardDefinition(
                 id,
                 OrDefault(cols[1], NoDescription),
                 Some(OrDefault(if |cols| > 2 then cols[2] else [], General)),
                 None));
    } else {
      entry := None;
    }
  }

  /** parseCSV: total; malformed, blank and header lines are skipped. */
  method ParseCsv(csvText: string) returns (db: StandardsDb)
    ensures db == CsvDatabase(csvText)
  {
    var lines := Split(csvText, '\n');
    ghost var rows := CsvRows(lines);
    db := map[];
    for i := 0 to |lines|
      invariant db == Database(rows[..i])
    {
      DatabaseStep(rows, i);
      var entry := CsvLine(lines[i]);
      if entry.Some? {
        db := db[entry.value.id := entry.value];
      }
    }
    assert rows[..|lines|] == rows;
  }

  // =====================================================================
  // parseTSV

  predicate IsTsvHeader(id: string) {
    Lower(id) == "new id" || Lower(id) == "id"
  }

  /** The outcome of one line of the TSV loop. */
  function TsvRow(rawLine: string): Option<StandardDefinition> {
    var line := Trim(rawLine);
    if line == [] then None
    else
      var cols := Split(line, '\t');
      if |cols| < 3 then None
      else
        var id := Trim(cols[0]);
        if IsTsvHeader(id) || id == [] then None
        else Some(StandardDefinition(id, OrDefault(Trim(cols[2]), NoDescription),
                                     Some(General), Some(Trim(cols[1]) == "f")))
  }

  function TsvRows(lines: seq<string>): (rows: seq<Option<StandardDefinition>>)
    ensures |rows| == |lines|
    ensures forall i :: 0 <= i < |lines| ==> rows[i] == TsvRow(lines[i])
  {
    seq(|lines|, i requires 0 <= i < |lines| => TsvRow(lines[i]))
  }

  function TsvDatabase(text: string): StandardsDb {
    Database(TsvRows(Lines(text)))
  }

  /**
   * The body of the parseTSV loop for one line, with its `continue`s as early
   * returns; `TsvRow` is the same rule as a value, for the lemmas.
   */
  method TsvLine(rawLine: string) returns (entry: Option<StandardDefinition>)
    ensures entry == TsvRow(rawLine)
  {
    var line := Trim(rawLine);
    if line == [] {
      return None;
    }
    var cols := Split(line, '\t');
    if |cols| < 3 {
      return None;
    }
    var id := Trim(cols[0]);
    var flag := Trim(cols[1]);
    var description := Trim(cols[2]);
    if Lower(id) == "new id" || Lower(id) == "id" {
      return None;
    }
    if id != [] {
      entry := Some(StandardDefinition(
                 id, OrDefault(description, NoDescription), Some(General), Some(flag == "f")));
    } else {
      entry := None;
    }
  }

  /** parseTSV: total; short, blank, header and ID-less lines are skipped. */
  method ParseTsv(tsvText: string) returns (db: StandardsDb)
    ensures db == TsvDatabase(tsvText)
  {
    var lines := Split(tsvText, '\n');
    ghost var rows := TsvRows(lines);
    db := map[];
    for i := 0 to |lines|
      invariant db == Database(rows[..i])
    {
      DatabaseStep(rows, i);
      var entry := TsvLine(lines[i]);
      if entry.Some? {
        db := db[entry.value.id := entry.value];
      }
    }
    assert rows[..|lines|] == rows;
  }
}
