/**
 * What the two parsers of services/teksData.ts guarantee about the
 * databases they build, and how the CSV tokenizer splits typical lines.
 */
module TeksDataFacts {
  import opened Strings
  import opened Types
  import opened TeksData

  // =====================================================================
  // parseCSV: the database as a whole

  /**
   * Every entry of a CSV database is keyed by its own ID, that ID is longer
   * than two characters and is no header word, and the description and
   * category are never empty.
   */
  lemma CsvDatabaseEntries(text: string)
    ensures forall k :: k in CsvDatabase(text) ==>
      var e := CsvDatabase(text)[k];
      && e.id == k
      && |k| > 2
      && !IsCsvHeader(k)
      && e.description != []
      && e.category.Some? && e.category.value != []
      && e.isFolder.None?
  {
    var lines := Lines(text);
    var rows := CsvRows(lines);
    forall k | k in Database(rows)
      ensures var e := Database(rows)[k];
              |k| > 2 && !IsCsvHeader(k) && e.description != [] &&
              e.category.Some? && e.category.value != [] && e.isFolder.None?
    {
      DatabaseValueFromRow(rows, k);
      var i :| 0 <= i < |rows| && rows[i] == Some(Database(rows)[k]);
      CsvRowShape(lines[i]);
    }
  }

  /** What any entry made from one CSV line looks like. */
  lemma CsvRowShape(line: string)
    ensures CsvRow(line).Some? ==>
      var e := CsvRow(line).value;
      |e.id| > 2 && !IsCsvHeader(e.id) && e.description != [] &&
      e.category.Some? && e.category.value != [] && e.isFolder.None?
  {
  }

  /** True when the line is non-blank and its columns make an entry for `k`. */
  predicate CsvLineDefines(line: string, k: string) {
    Trim(line) != [] && CsvQualifies(CsvColumns(Trim(line))) && CsvColumns(Trim(line))[0] == k
  }

  lemma CsvRowDefines(line: string, k: string)
    ensures Defines(CsvRow(line), k) <==> CsvLineDefines(line, k)
    ensures CsvLineDefines(line, k) ==> CsvRow(line) == Some(CsvDefinition(CsvColumns(Trim(line))))
  {
  }

  /** A key is present exactly when some qualifying line carries it as its first column. */
  lemma CsvDatabaseKeys(text: string, k: string)
    ensures k in CsvDatabase(text) <==>
            exists i :: 0 <= i < |Lines(text)| && CsvLineDefines(Lines(text)[i], k)
  {
    var lines := Lines(text);
    var rows := CsvRows(lines);
    DatabaseKeys(rows, k);
    if k in Database(rows) {
      var i :| 0 <= i < |rows| && Defines(rows[i], k);
      CsvRowDefines(lines[i], k);
    }
    if exists i :: 0 <= i < |lines| && CsvLineDefines(lines[i], k) {
      var i :| 0 <= i < |lines| && CsvLineDefines(lines[i], k);
      CsvRowDefines(lines[i], k);
    }
  }

  /**
   * The entry for an ID comes from the last qualifying line carrying it:
   * the description is its second column, or the placeholder when that is
   * empty, and the category its third, or "General" when that is missing
   * or empty.
   */
  lemma CsvLastLineWins(text: string, i: nat, k: string)
    requires i < |Lines(text)| && CsvLineDefines(Lines(text)[i], k)
    requires forall j :: i < j < |Lines(text)| ==> !CsvLineDefines(Lines(text)[j], k)
    ensures k in CsvDatabase(text)
    ensures var cols := CsvColumns(Trim(Lines(text)[i]));
            var e := CsvDatabase(text)[k];
            && e.id == k
            && e.description == (if cols[1] == [] then NoDescription else cols[1])
            && e.category == Some(if |cols| < 3 || cols[2] == [] then General else cols[2])
  {
    var lines := Lines(text);
    var rows := CsvRows(lines);
    forall j | i < j < |rows| ensures !Defines(rows[j], k) {
      CsvRowDefines(lines[j], k);
    }
    CsvRowDefines(lines[i], k);
    DatabaseLastWins(rows, i);
  }

  // =====================================================================
  // The CSV tokenizer on quoted fields

  function Quote(f: string): string {
    "\"" + f + "\""
  }

  function QuoteAll(fields: seq<string>): (r: seq<string>)
    ensures |r| == |fields|
    ensures forall i :: 0 <= i < |fields| ==> r[i] == Quote(fields[i])
  {
    seq(|fields|, i requires 0 <= i < |fields| => Quote(fields[i]))
  }

  /** `"f1","f2",...,"fn"` */
  function QuotedLine(fields: seq<string>): string {
    Join(QuoteAll(fields), ",")
  }

  /** A field the quoted alternative reads in one piece: no quote, no line terminator. */
  predicate PlainQuotedField(f: string) {
    '"' !in f && '\n' !in f && '\r' !in f
  }

  lemma {:induction false} QuotedScan(f: string, rest: string, k: nat)
    requires PlainQuotedField(f) && AtFieldEnd(rest)
    requires 1 <= k <= |f| + 1
    ensures QuotedMatchLength(Quote(f) + rest, k) == Some(|f| + 2)
    decreases |f| + 1 - k
  {
    var t := Quote(f) + rest;
    if k == |f| + 1 {
      assert t[k] == '"';
      assert t[k + 1..] == rest;
    } else {
      assert t[k] == f[k - 1];
      QuotedScan(f, rest, k + 1);
    }
  }

  /** A quoted field followed by a comma or the end of the line is one match. */
  lemma QuotedFieldMatches(f: string, rest: string)
    requires PlainQuotedField(f) && AtFieldEnd(rest)
    ensures Matches(Quote(f) + rest) == [Quote(f)] + Matches(rest)
  {
    var t := Quote(f) + rest;
    QuotedScan(f, rest, 1);
    assert t[0] == '"';
    assert t[..|f| + 2] == Quote(f);
    assert t[|f| + 2..] == rest;
  }

  /** A comma never starts a match, so an empty field leaves no column behind. */
  lemma CommaSkipped(rest: string)
    ensures Matches("," + rest) == Matches(rest)
  {
    assert ("," + rest)[1..] == rest;
  }

  lemma QuotedLineCons(fields: seq<string>)
    requires |fields| > 1
    ensures QuotedLine(fields) == Quote(fields[0]) + ("," + QuotedLine(fields[1..]))
  {
    assert QuoteAll(fields)[1..] == QuoteAll(fields[1..]);
  }

  lemma {:induction false} QuotedLineMatches(fields: seq<string>)
    requires |fields| >= 1
    requires forall i :: 0 <= i < |fields| ==> PlainQuotedField(fields[i])
    ensures Matches(QuotedLine(fields)) == QuoteAll(fields)
    decreases |fields|
  {
    if |fields| == 1 {
      QuotedFieldMatches(fields[0], []);
      assert Quote(fields[0]) + [] == Quote(fields[0]);
    } else {
      QuotedLineMatchesCons(fields);
      QuotedLineMatches(fields[1..]);
      assert [Quote(fields[0])] + QuoteAll(fields[1..]) == QuoteAll(fields);
    }
  }

  lemma QuotedLineMatchesCons(fields: seq<string>)
    requires |fields| > 1 && PlainQuotedField(fields[0])
    ensures Matches(QuotedLine(fields)) == [Quote(fields[0])] + Matches(QuotedLine(fields[1..]))
  {
    QuotedLineCons(fields);
    QuotedFieldThenComma(fields[0], QuotedLine(fields[1..]));
  }

  lemma QuotedFieldThenComma(f: string, rest: string)
    requires PlainQuotedField(f)
    ensures Matches(Quote(f) + ("," + rest)) == [Quote(f)] + Matches(rest)
  {
    CommaIsFieldEnd(rest);
    QuotedFieldMatches(f, "," + rest);
    CommaSkipped(rest);
  }

  lemma StripQuote(f: string)
    ensures StripQuotes(Quote(f)) == f
  {
    var a := Quote(f)[1..];
    assert a == f + "\"";
    assert a[..|a| - 1] == f;
  }

  /**
   * A line of comma-separated quoted fields without embedded quotes yields
   * one column per field, quotes stripped and the text trimmed; a comma
   * inside a field stays in that field.
   */
  lemma QuotedFieldsAreColumns(fields: seq<string>)
    requires |fields| >= 1
    requires forall i :: 0 <= i < |fields| ==> PlainQuotedField(fields[i])
    ensures IsTrimmed(QuotedLine(fields))
    ensures CsvColumns(QuotedLine(fields)) == TrimAll(fields)
  {
    QuotedLineMatches(fields);
    var line := QuotedLine(fields);
    assert QuoteAll(fields)[0][0] == '"';
    QuotedLineEnds(fields);
    forall i | 0 <= i < |fields| ensures StripAll(QuoteAll(fields))[i] == fields[i] {
      StripQuote(fields[i]);
    }
    assert StripAll(QuoteAll(fields)) == fields;
  }

  lemma {:induction false} QuotedLineEnds(fields: seq<string>)
    requires |fields| >= 1
    ensures |QuotedLine(fields)| >= 2
    ensures QuotedLine(fields)[0] == '"'
    ensures QuotedLine(fields)[|QuotedLine(fields)| - 1] == '"'
    decreases |fields|
  {
    if |fields| > 1 {
      assert QuoteAll(fields)[1..] == QuoteAll(fields[1..]);
      QuotedLineEnds(fields[1..]);
    }
  }

  // =====================================================================
  // The CSV tokenizer on unquoted fields

  /** Every character is one of `[^",\s]`. */
  predicate AllBare(w: string) {
    forall c :: c in w ==> IsBareChar(c)
  }

  lemma {:induction false} BareRunOfWord(w: string, rest: string)
    requires AllBare(w)
    requires rest == [] || !IsBareChar(rest[0])
    ensures BareRunLength(w + rest) == |w|
    decreases |w|
  {
    if w == [] {
      assert w + rest == rest;
    } else {
      assert w[0] in w;
      assert (w + rest)[1..] == w[1..] + rest;
      assert AllBare(w[1..]) by {
        forall c | c in w[1..] ensures IsBareChar(c) {
          assert c in w;
        }
      }
      BareRunOfWord(w[1..], rest);
    }
  }

  /** An unquoted word followed by a comma or the end of the line is one match. */
  lemma BareFieldMatches(w: string, rest: string)
    requires w != [] && AllBare(w) && AtFieldEnd(rest)
    ensures Matches(w + rest) == [w] + Matches(rest)
  {
    if rest != [] && !IsSpace(rest[0]) {
      assert DropSpaces(rest) == rest;
    }
    BareRunOfWord(w, rest);
    assert w[0] in w;
    assert (w + rest)[..|w|] == w;
    assert (w + rest)[|w|..] == rest;
  }

  /** Whitespace never starts a match and never belongs to one. */
  lemma {:induction false} SpacesSkipped(sp: string, u: string)
    requires AllSpace(sp)
    ensures Matches(sp + u) == Matches(u)
    decreases |sp|
  {
    if sp == [] {
      assert sp + u == u;
    } else {
      assert (sp + u)[1..] == sp[1..] + u;
      SpacesSkipped(sp[1..], u);
    }
  }

  /**
   * An unquoted word followed by whitespace and another word is dropped:
   * the look-ahead wants a comma or the end of the line after optional
   * whitespace, so an unquoted multi-word field keeps only its last word.
   */
  lemma {:induction false} WordBeforeSpaceDropped(w: string, sp: string, u: string)
    requires AllBare(w)
    requires sp != [] && AllSpace(sp)
    requires u != [] && IsBareChar(u[0])
    ensures Matches(w + sp + u) == Matches(u)
    decreases |w|
  {
    if w == [] {
      assert w + sp + u == sp + u;
      SpacesSkipped(sp, u);
    } else {
      WordNotAField(w, sp, u);
      AllBareTail(w);
      WordBeforeSpaceDropped(w[1..], sp, u);
    }
  }

  lemma AllBareTail(w: string)
    requires w != [] && AllBare(w)
    ensures AllBare(w[1..])
  {
    forall c | c in w[1..] ensures IsBareChar(c) {
      assert c in w;
    }
  }

  /** No match starts inside such a word: the scan moves on by one character. */
  lemma WordNotAField(w: string, sp: string, u: string)
    requires w != [] && AllBare(w)
    requires sp != [] && AllSpace(sp)
    requires u != [] && IsBareChar(u[0])
    ensures Matches(w + sp + u) == Matches(w[1..] + sp + u)
  {
    var t := w + sp + u;
    NoMatchAtWord(w, sp, u);
    NoMatchSkips(t);
    DropFirstOfThree(w, sp, u);
  }

  lemma DropFirstOfThree(w: string, sp: string, u: string)
    requires w != []
    ensures (w + sp + u)[1..] == w[1..] + sp + u
  {
  }

  /** Where no match starts, the scan resumes one character later. */
  lemma NoMatchSkips(t: string)
    requires t != [] && MatchLength(t) == None
    ensures Matches(t) == Matches(t[1..])
  {
  }

  lemma NoMatchAtWord(w: string, sp: string, u: string)
    requires w != [] && AllBare(w)
    requires sp != [] && AllSpace(sp)
    requires u != [] && IsBareChar(u[0])
    ensures MatchLength(w + sp + u) == None
  {
    var t := w + sp + u;
    assert t == w + (sp + u);
    assert w[0] in w;
    BareRunOfWord(w, sp + u);
    SpaceThenWordNotFieldEnd(sp, u);
    assert t[|w|..] == sp + u;
  }

  lemma SpaceThenWordNotFieldEnd(sp: string, u: string)
    requires AllSpace(sp)
    requires u != [] && IsBareChar(u[0])
    ensures !AtFieldEnd(sp + u)
  {
    DropSpacesAppend(sp, u);
    assert DropSpaces(u) == u;
  }

  // =====================================================================
  // parseCSV on typical lines

  /**
   * A line of three quoted fields makes the entry those fields describe; a
   * comma inside the description stays in the description.
   */
  lemma QuotedCsvRow(id: string, description: string, category: string)
    requires PlainQuotedField(id) && PlainQuotedField(description) && PlainQuotedField(category)
    requires IsTrimmed(id) && IsTrimmed(description) && IsTrimmed(category)
    requires |id| > 2 && !IsCsvHeader(id)
    ensures CsvRow(QuotedLine([id, description, category]))
         == Some(StandardDefinition(id, OrDefault(description, NoDescription),
                                    Some(OrDefault(category, General)), None))
  {
    var fields := [id, description, category];
    QuotedFieldsAreColumns(fields);
    TrimAllOfTrimmed(fields);
    CsvRowOfColumns(QuotedLine(fields), fields);
  }

  lemma TrimAllOfTrimmed(xs: seq<string>)
    requires forall i :: 0 <= i < |xs| ==> IsTrimmed(xs[i])
    ensures TrimAll(xs) == xs
  {
    forall i | 0 <= i < |xs| ensures TrimAll(xs)[i] == xs[i] {
      TrimOfTrimmed(xs[i]);
    }
  }

  /** A trimmed line whose columns qualify makes the entry they describe. */
  lemma CsvRowOfColumns(line: string, cols: seq<string>)
    requires line != [] && IsTrimmed(line) && CsvColumns(line) == cols && CsvQualifies(cols)
    ensures CsvRow(line) == Some(CsvDefinition(cols))
  {
    TrimOfTrimmed(line);
  }

  /** An unquoted word is its own column: `trim` and the quote stripping leave it alone. */
  lemma BareWordIsClean(w: string)
    requires w != [] && AllBare(w)
    ensures StripQuotes(w) == w && Trim(w) == w
  {
    assert w[0] in w;
    assert w[|w| - 1] in w;
    TrimOfTrimmed(w);
  }

  /** `w2,cat` at the end of a line: two matches. */
  lemma TwoBareFields(w2: string, cat: string)
    requires w2 != [] && AllBare(w2) && cat != [] && AllBare(cat)
    ensures Matches(w2 + ("," + cat)) == [w2, cat]
  {
    BareFieldThenComma(w2, cat);
    LastBareField(cat);
  }

  /** An unquoted word at the end of a line is the last match. */
  lemma LastBareField(w: string)
    requires w != [] && AllBare(w)
    ensures Matches(w) == [w]
  {
    BareFieldMatches(w, []);
    assert w + [] == w;
  }

  /** A bare field followed by a comma contributes one match and the scan goes on after the comma. */
  lemma BareFieldThenComma(w: string, rest: string)
    requires w != [] && AllBare(w)
    ensures Matches(w + ("," + rest)) == [w] + Matches(rest)
  {
    CommaIsFieldEnd(rest);
    BareFieldMatches(w, "," + rest);
    CommaSkipped(rest);
  }

  lemma CommaIsFieldEnd(rest: string)
    ensures AtFieldEnd("," + rest)
  {
    assert DropSpaces("," + rest) == "," + rest;
  }

  /**
   * Unquoted, a two-word description keeps only its second word: the first
   * word is not followed by a comma or the end of the line, so the
   * look-ahead rejects it.
   */
  lemma UnquotedMultiWordField(id: string, w1: string, w2: string, cat: string)
    requires id != [] && AllBare(id) && AllBare(w1)
    requires w2 != [] && AllBare(w2) && cat != [] && AllBare(cat)
    ensures CsvColumns(id + "," + w1 + " " + w2 + "," + cat) == [id, w2, cat]
  {
    MultiWordMatches(id, w1, w2, cat);
    CsvColumnsOfBareMatches(id + "," + w1 + " " + w2 + "," + cat);
  }

  lemma MultiWordMatches(id: string, w1: string, w2: string, cat: string)
    requires id != [] && AllBare(id) && AllBare(w1)
    requires w2 != [] && AllBare(w2) && cat != [] && AllBare(cat)
    ensures Matches(id + "," + w1 + " " + w2 + "," + cat) == [id, w2, cat]
  {
    var tail := w2 + ("," + cat);
    TwoBareFields(w2, cat);
    assert w2[0] in w2;
    WordBeforeSpaceDropped(w1, " ", tail);
    var mid := w1 + " " + tail;
    BareFieldThenComma(id, mid);
    MultiWordShape(id, w1, w2, cat);
  }

  lemma MultiWordShape(id: string, w1: string, w2: string, cat: string)
    ensures id + "," + w1 + " " + w2 + "," + cat == id + ("," + (w1 + " " + (w2 + ("," + cat))))
  {
  }

  /** When every match is an unquoted word, the columns are the matches themselves. */
  lemma CsvColumnsOfBareMatches(line: string)
    requires Matches(line) != []
    requires forall i :: 0 <= i < |Matches(line)| ==> AllBare(Matches(line)[i])
    ensures CsvColumns(line) == Matches(line)
  {
    var ms := Matches(line);
    BareMatchesAreClean(ms);
    TrimAllOfTrimmed(ms);
  }

  lemma BareMatchesAreClean(ms: seq<string>)
    requires forall i :: 0 <= i < |ms| ==> ms[i] != [] && AllBare(ms[i])
    ensures StripAll(ms) == ms
    ensures forall i :: 0 <= i < |ms| ==> IsTrimmed(ms[i])
  {
    forall i | 0 <= i < |ms| ensures StripAll(ms)[i] == ms[i] && IsTrimmed(ms[i]) {
      BareWordIsClean(ms[i]);
    }
  }

  // =====================================================================
  // parseTSV

  /**
   * Every entry of a TSV database is keyed by its own non-empty, non-header
   * ID, has category "General", a folder flag and a non-empty description.
   */
  lemma TsvDatabaseEntries(text: string)
    ensures forall k :: k in TsvDatabase(text) ==>
      var e := TsvDatabase(text)[k];
      && e.id == k
      && k != []
      && !IsTsvHeader(k)
      && e.description != []
      && e.category == Some(General)
      && e.isFolder.Some?
  {
    var lines := Lines(text);
    var rows := TsvRows(lines);
    forall k | k in Database(rows)
      ensures var e := Database(rows)[k];
              k != [] && !IsTsvHeader(k) && e.description != [] &&
              e.category == Some(General) && e.isFolder.Some?
    {
      DatabaseValueFromRow(rows, k);
      var i :| 0 <= i < |rows| && rows[i] == Some(Database(rows)[k]);
      TsvRowShape(lines[i]);
    }
  }

  /** What any entry made from one TSV line looks like. */
  lemma TsvRowShape(line: string)
    ensures TsvRow(line).Some? ==>
      var e := TsvRow(line).value;
      e.id != [] && !IsTsvHeader(e.id) && e.description != [] &&
      e.category == Some(General) && e.isFolder.Some?
  {
  }

  /** True when the line has three tab-separated columns and a usable ID `k`. */
  predicate TsvLineDefines(line: string, k: string) {
    var cols := Split(Trim(line), '\t');
    Trim(line) != [] && |cols| >= 3 && Trim(cols[0]) == k && k != [] && !IsTsvHeader(k)
  }

  lemma TsvRowDefines(line: string, k: string)
    ensures Defines(TsvRow(line), k) <==> TsvLineDefines(line, k)
    ensures TsvLineDefines(line, k) ==>
      var cols := Split(Trim(line), '\t');
      TsvRow(line) == Some(StandardDefinition(k, OrDefault(Trim(cols[2]), NoDescription),
                                              Some(General), Some(Trim(cols[1]) == "f")))
  {
  }

  /** A key is present exactly when some line of three or more columns carries it; no length filter. */
  lemma TsvDatabaseKeys(text: string, k: string)
    ensures k in TsvDatabase(text) <==>
            exists i :: 0 <= i < |Lines(text)| && TsvLineDefines(Lines(text)[i], k)
  {
    var lines := Lines(text);
    var rows := TsvRows(lines);
    DatabaseKeys(rows, k);
    if k in Database(rows) {
      var i :| 0 <= i < |rows| && Defines(rows[i], k);
      TsvRowDefines(lines[i], k);
    }
    if exists i :: 0 <= i < |lines| && TsvLineDefines(lines[i], k) {
      var i :| 0 <= i < |lines| && TsvLineDefines(lines[i], k);
      TsvRowDefines(lines[i], k);
    }
  }

  /**
   * The entry for an ID comes from the last line carrying it; it is a
   * folder exactly when that line's trimmed second column is `f`.
   */
  lemma TsvLastLineWins(text: string, i: nat, k: string)
    requires i < |Lines(text)| && TsvLineDefines(Lines(text)[i], k)
    requires forall j :: i < j < |Lines(text)| ==> !TsvLineDefines(Lines(text)[j], k)
    ensures k in TsvDatabase(text)
    ensures var cols := Split(Trim(Lines(text)[i]), '\t');
            var e := TsvDatabase(text)[k];
            && e.id == k
            && e.description == (if Trim(cols[2]) == [] then NoDescription else Trim(cols[2]))
            && e.category == Some(General)
            && (e.isFolder == Some(true) <==> Trim(cols[1]) == "f")
  {
    var lines := Lines(text);
    var rows := TsvRows(lines);
    forall j | i < j < |rows| ensures !Defines(rows[j], k) {
      TsvRowDefines(lines[j], k);
    }
    TsvRowDefines(lines[i], k);
    DatabaseLastWins(rows, i);
  }

  /**
   * A line `ID<TAB>Flag<TAB>Description<TAB>Grade` whose ID is trimmed and
   * not a header, and whose grade does not end in whitespace, yields its ID,
   * description and folder flag; the grade is dropped.
   */
  lemma TsvFieldsRoundTrip(id: string, flag: string, description: string, grade: string)
    requires '\t' !in id && '\t' !in flag && '\t' !in description && '\t' !in grade
    requires id != [] && IsTrimmed(id) && !IsTsvHeader(id)
    requires grade != [] && !IsSpace(grade[|grade| - 1])
    ensures TsvRow(id + "\t" + flag + "\t" + description + "\t" + grade)
         == Some(StandardDefinition(id, OrDefault(Trim(description), NoDescription),
                                    Some(General), Some(Trim(flag) == "f")))
  {
    var fields := [id, flag, description, grade];
    var line := id + "\t" + flag + "\t" + description + "\t" + grade;
    JoinFour(id, flag, description, grade, '\t');
    TabLineTrimmed(id, flag, description, grade);
    SplitJoin(fields, '\t');
    TsvRowOfFields(line, fields);
  }

  lemma TabLineTrimmed(id: string, flag: string, description: string, grade: string)
    requires id != [] && IsTrimmed(id)
    requires grade != [] && !IsSpace(grade[|grade| - 1])
    ensures Trim(id + "\t" + flag + "\t" + description + "\t" + grade) == id + "\t" + flag + "\t" + description + "\t" + grade
  {
    var line := id + "\t" + flag + "\t" + description + "\t" + grade;
    assert line[0] == id[0];
    assert line[|line| - 1] == grade[|grade| - 1];
    TrimOfTrimmed(line);
  }

  lemma TsvRowOfFields(line: string, fields: seq<string>)
    requires Trim(line) == line && |fields| == 4 && Split(line, '\t') == fields
    requires fields[0] != [] && IsTrimmed(fields[0]) && !IsTsvHeader(fields[0])
    ensures TsvRow(line)
         == Some(StandardDefinition(fields[0], OrDefault(Trim(fields[2]), NoDescription),
                                    Some(General), Some(Trim(fields[1]) == "f")))
  {
    TrimOfTrimmed(fields[0]);
    assert line != [] by {
      JoinSplit(line, '\t');
    }
  }

  /** A one-character ID survives the TSV parser, which has no length filter... */
  lemma ShortIdKeptByTsv(c: char, x: string)
    requires IsBareChar(c) && x != [] && AllBare(x)
    ensures TsvRow([c] + "\t" + x + "\t" + x + "\t" + x).Some?
  {
    assert x[|x| - 1] in x;
    assert |Lower([c])| == 1;
    TsvFieldsRoundTrip([c], x, x, x);
  }

  /** ...but not the CSV parser, which wants IDs longer than two characters. */
  lemma ShortIdDroppedByCsv(c: char, x: string)
    requires IsBareChar(c) && x != [] && AllBare(x)
    ensures CsvRow([c] + "," + x) == None
  {
    var line := [c] + "," + x;
    assert line == [c] + ("," + x);
    assert x[|x| - 1] in x;
    assert line[0] == c && line[|line| - 1] == x[|x| - 1];
    TrimOfTrimmed(line);
    assert AllBare([c]);
    TwoBareFields([c], x);
    CsvColumnsOfBareMatches(line);
  }

  /**
   * Lengths here count Unicode scalar values: the ID "𝔸a" has length two
   * (JavaScript's `length`, in UTF-16 code units, is three), so its line is
   * dropped as too short.
   */
  lemma AstralIdDropped()
    ensures |"\U{1D538}a"| == 2
    ensures CsvRow("\U{1D538}a,x") == None
  {
    var id := "\U{1D538}a";
    var line := id + ("," + "x");
    assert line == "\U{1D538}a,x";
    assert AllBare(id) && AllBare("x");
    TrimOfTrimmed(line);
    TwoBareFields(id, "x");
    CsvColumnsOfBareMatches(line);
  }

  /**
   * The tokenizer never yields an empty match, so an empty middle column
   * vanishes and the next value moves left: in `id,,cat` the category
   * becomes the second column.
   */
  lemma EmptyFieldShifts(id: string, cat: string)
    requires id != [] && AllBare(id) && cat != [] && AllBare(cat)
    ensures CsvColumns(id + ",," + cat) == [id, cat]
  {
    var line := id + ",," + cat;
    assert line == id + ("," + ("," + cat));
    BareFieldThenComma(id, "," + cat);
    CommaSkipped(cat);
    LastBareField(cat);
    CsvColumnsOfBareMatches(line);
  }

  /** ...and so the entry takes the category as its description and falls back to "General". */
  lemma EmptyFieldShiftsEntry(id: string, cat: string)
    requires id != [] && AllBare(id) && cat != [] && AllBare(cat)
    requires |id| > 2 && !IsCsvHeader(id)
    ensures CsvRow(id + ",," + cat) == Some(StandardDefinition(id, cat, Some(General), None))
  {
    var line := id + ",," + cat;
    assert id[0] in id && cat[|cat| - 1] in cat;
    assert line[0] == id[0] && line[|line| - 1] == cat[|cat| - 1];
    TrimOfTrimmed(line);
    EmptyFieldShifts(id, cat);
    CsvRowOfColumns(line, [id, cat]);
  }

  /**
   * `trim` runs before the tab split, so a line whose columns after the
   * flag are all empty loses its trailing tabs and is skipped as too short.
   */
  lemma TrailingEmptyColumnsDropLine(id: string, flag: string, pad: string)
    requires '\t' !in id && '\t' !in flag
    requires id != [] && !IsSpace(id[0]) && flag != [] && !IsSpace(flag[|flag| - 1])
    requires AllSpace(pad)
    ensures TsvRow(id + "\t" + flag + pad) == None
  {
    var line := id + "\t" + flag;
    assert line[0] == id[0] && line[|line| - 1] == flag[|flag| - 1];
    TrimTrailingSpace(line, pad);
    SplitTwo(id, flag, '\t');
  }
}
