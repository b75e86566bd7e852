/**
 * App.tsx: the subject-to-filename resolver and the state the page keeps
 * (the JSON text, the loaded plan, the standards database, the error
 * message and the loading flag), with the handlers and the load effect
 * that update it.
 *
 * `JSON.parse` and `fetch` are inputs: the parse outcome comes from a
 * function of the text, and each fetch from a function of the path.
 */
module AppShell {
  import opened Strings
  import opened Types
  import opened TeksData
  import opened TeksDataFacts

  // =====================================================================
  // getCsvFilename

  /** Common subject names and the CSV file each one is stored under. */
  const SubjectFileMap: map<string, string> := map[
    "english language arts" := "english",
    "english" := "english",
    "ela" := "english",
    "math" := "mathematics",
    "mathematics" := "mathematics",
    "science" := "science",
    "social studies" := "social-studies",
    "fine arts" := "fine-arts",
    "health" := "health-education",
    "health education" := "health-education",
    "pe" := "physical-education",
    "physical education" := "physical-education",
    "tech apps" := "technology-applications",
    "technology applications" := "technology-applications",
    "lote" := "languages-other-than-english",
    "languages other than english" := "languages-other-than-english",
    "career" := "career",
    "cte" := "career",
    "career and technical education" := "career"
  ]

  /** `subject.toLowerCase().trim()` */
  function Normalize(subject: string): string {
    Trim(Lower(subject))
  }

  /**
   * `s.replace(/\s+/g, '-')`: every maximal whitespace run becomes one `-`,
   * emitted at the run's last character.
   */
  function ReplaceSpaceRuns(s: string): (r: string)
    ensures NoSpace(r)
    decreases |s|
  {
    if s == [] then []
    else if !IsSpace(s[0]) then [s[0]] + ReplaceSpaceRuns(s[1..])
    else if |s| > 1 && IsSpace(s[1]) then ReplaceSpaceRuns(s[1..])
    else "-" + ReplaceSpaceRuns(s[1..])
  }

  /** The lookup step of `getCsvFilename`, on the normalized subject. */
  function FileNameFor(n: string): string {
    if n in SubjectFileMap then SubjectFileMap[n] else ReplaceSpaceRuns(n)
  }

  /** `getCsvFilename`: a table hit, or the normalized subject with dashes for spaces. */
  function CsvFilename(subject: string): string {
    FileNameFor(Normalize(subject))
  }

  /** The primary standards file for a subject. */
  function PrimaryPath(subject: string): string {
    "CSVs/" + CsvFilename(subject) + ".csv"
  }

  /** The generic file tried when the primary one is not served. */
  const FallbackPath: string := "CSVs/teks.csv"

  // ---------------------------------------------------------------------
  // Facts about the whitespace replacement

  /** Text without whitespace is left as it is. */
  lemma {:induction false} ReplaceSpaceRunsOfNoSpace(s: string)
    requires NoSpace(s)
    ensures ReplaceSpaceRuns(s) == s
    decreases |s|
  {
    if s != [] {
      ReplaceSpaceRunsOfNoSpace(s[1..]);
    }
  }

  /** Only a whitespace run or a dash already present can put a dash in the result. */
  lemma {:induction false} ReplaceSpaceRunsWithoutDash(s: string)
    requires '-' !in ReplaceSpaceRuns(s)
    ensures NoSpace(s) && '-' !in s
    decreases |s|
  {
    if s != [] {
      var r := ReplaceSpaceRuns(s[1..]);
      if IsSpace(s[0]) {
        ReplaceSpaceRunsWithoutDash(s[1..]);
      } else {
        assert ReplaceSpaceRuns(s) == [s[0]] + r;
        assert forall c :: c in r ==> c in ReplaceSpaceRuns(s);
        ReplaceSpaceRunsWithoutDash(s[1..]);
        assert s == [s[0]] + s[1..];
      }
    }
  }

  /** Text ending in a non-space character is replaced independently of what follows. */
  lemma {:induction false} ReplaceSpaceRunsAppend(x: string, z: string)
    requires x == [] || !IsSpace(x[|x| - 1])
    ensures ReplaceSpaceRuns(x + z) == ReplaceSpaceRuns(x) + ReplaceSpaceRuns(z)
    decreases |x|
  {
    if x == [] {
      assert x + z == z;
    } else {
      assert (x + z)[1..] == x[1..] + z;
      if |x| > 1 {
        assert (x + z)[1] == x[1];
      }
      ReplaceSpaceRunsAppend(x[1..], z);
    }
  }

  /** A run of whitespace in front of a word becomes one dash. */
  lemma {:induction false} ReplaceLeadingRun(w: string, y: string)
    requires w != [] && AllSpace(w)
    requires y == [] || !IsSpace(y[0])
    ensures ReplaceSpaceRuns(w + y) == "-" + ReplaceSpaceRuns(y)
    decreases |w|
  {
    assert (w + y)[1..] == w[1..] + y;
    if |w| > 1 {
      assert (w + y)[1] == w[1];
      ReplaceLeadingRun(w[1..], y);
    } else {
      assert w[1..] + y == y;
    }
  }

  /**
   * The replacement turns one whitespace run between two words into exactly
   * one dash and leaves the words on either side alone.
   */
  lemma {:induction false} ReplaceOneRun(x: string, w: string, y: string)
    requires x == [] || !IsSpace(x[|x| - 1])
    requires w != [] && AllSpace(w)
    requires y == [] || !IsSpace(y[0])
    ensures ReplaceSpaceRuns(x + w + y) == ReplaceSpaceRuns(x) + "-" + ReplaceSpaceRuns(y)
  {
    assert x + w + y == x + (w + y);
    ReplaceSpaceRunsAppend(x, w + y);
    ReplaceLeadingRun(w, y);
  }

  /** The replacement keeps lower-case text lower-case. */
  lemma {:induction false} ReplaceSpaceRunsLowerCase(s: string)
    requires IsLowerCase(s)
    ensures IsLowerCase(ReplaceSpaceRuns(s))
    decreases |s|
  {
    if s != [] {
      assert IsLowerCase(s[1..]);
      ReplaceSpaceRunsLowerCase(s[1..]);
    }
  }

  // ---------------------------------------------------------------------
  // Facts about the table

  /** The characters file names are made of. */
  predicate IsNameChar(c: char) {
    'a' <= c <= 'z' || c == '-'
  }

  /** A file name: letters and dashes only. */
  predicate IsFileName(v: string) {
    forall i :: 0 <= i < |v| ==> IsNameChar(v[i])
  }

  /** The ten file names the table resolves to. */
  lemma TableValues()
    ensures forall k :: k in SubjectFileMap ==>
      SubjectFileMap[k] in {"english", "mathematics", "science", "social-studies", "fine-arts",
                            "health-education", "physical-education", "technology-applications",
                            "languages-other-than-english", "career"}
  {
  }

  lemma CoreNamesAreFileNames()
    ensures IsFileName("english") && IsFileName("mathematics") && IsFileName("science")
  {
  }

  lemma SocialArtsNamesAreFileNames()
    ensures IsFileName("social-studies") && IsFileName("fine-arts")
  {
  }

  lemma HealthNamesAreFileNames()
    ensures IsFileName("health-education") && IsFileName("physical-education")
  {
  }

  lemma TechnologyNameIsFileName()
    ensures IsFileName("technology-applications")
  {
  }

  lemma LanguagesNameIsFileName()
    ensures IsFileName("languages-other-than-english") && IsFileName("career")
  {
  }

  lemma LanguageArtsMathKeys()
    ensures forall k :: k in {"english language arts", "english", "ela", "math", "mathematics"} ==> '-' !in k
  {
  }

  lemma ScienceArtsHealthKeys()
    ensures forall k :: k in {"science", "social studies", "fine arts", "health", "health education"} ==> '-' !in k
  {
  }

  lemma PhysicalTechnologyKeys()
    ensures forall k :: k in {"pe", "physical education", "tech apps", "technology applications"} ==> '-' !in k
  {
  }

  lemma LanguagesCareerKeys()
    ensures forall k :: k in {"lote", "languages other than english", "career", "cte"} ==> '-' !in k
  {
  }

  lemma CareerEducationKey()
    ensures '-' !in "career and technical education"
  {
  }

  lemma TableKeysHaveNoDash()
    ensures forall k :: k in SubjectFileMap ==> '-' !in k
  {
    LanguageArtsMathKeys();
    ScienceArtsHealthKeys();
    PhysicalTechnologyKeys();
    LanguagesCareerKeys();
    CareerEducationKey();
  }

  lemma TableNameChars()
    ensures forall k :: k in SubjectFileMap ==> IsFileName(SubjectFileMap[k])
  {
    TableValues();
    CoreNamesAreFileNames();
    SocialArtsNamesAreFileNames();
    HealthNamesAreFileNames();
    TechnologyNameIsFileName();
    LanguagesNameIsFileName();
  }

  /** Every file name is lower-case without whitespace. */
  lemma TableNamesClean()
    ensures forall k :: k in SubjectFileMap ==> NoSpace(SubjectFileMap[k]) && IsLowerCase(SubjectFileMap[k])
  {
    TableNameChars();
    forall k | k in SubjectFileMap ensures NoSpace(SubjectFileMap[k]) && IsLowerCase(SubjectFileMap[k]) {
      var v := SubjectFileMap[k];
      forall i | 0 <= i < |v| ensures !IsSpace(v[i]) && !('A' <= v[i] <= 'Z') {
        assert IsNameChar(v[i]);
      }
    }
  }

  /** The file names that are also keys resolve to themselves. */
  lemma SelfNamedEntries()
    ensures SubjectFileMap["english"] == "english" && SubjectFileMap["mathematics"] == "mathematics"
    ensures SubjectFileMap["science"] == "science" && SubjectFileMap["career"] == "career"
  {
  }

  /** The other file names hold a dash. */
  lemma DashedNames()
    ensures '-' in "social-studies" && '-' in "fine-arts" && '-' in "health-education"
    ensures '-' in "physical-education" && '-' in "technology-applications"
    ensures '-' in "languages-other-than-english"
  {
    ShortDashedNames();
    LongDashedNames();
  }

  lemma ShortDashedNames()
    ensures '-' in "social-studies" && '-' in "fine-arts" && '-' in "health-education"
  {
    assert "social-studies"[6] == '-';
    assert "fine-arts"[4] == '-';
    assert "health-education"[6] == '-';
  }

  lemma LongDashedNames()
    ensures '-' in "physical-education" && '-' in "technology-applications"
    ensures '-' in "languages-other-than-english"
  {
    assert "physical-education"[8] == '-';
    assert "technology-applications"[10] == '-';
    assert "languages-other-than-english"[9] == '-';
  }

  /** A file name that is also a key names itself. */
  lemma TableFixedPoints()
    ensures forall k :: k in SubjectFileMap && SubjectFileMap[k] in SubjectFileMap ==>
              SubjectFileMap[SubjectFileMap[k]] == SubjectFileMap[k]
  {
    TableValues();
    TableKeysHaveNoDash();
    SelfNamedEntries();
    DashedNames();
  }

  // ---------------------------------------------------------------------
  // Facts about getCsvFilename

  lemma NormalizeIsLowerCase(subject: string)
    ensures IsLowerCase(Normalize(subject))
  {
    LowerIsLowerCase(subject);
    TrimKeepsChars(Lower(subject));
    var n := Normalize(subject);
    forall i | 0 <= i < |n| ensures !('A' <= n[i] <= 'Z') {
      assert n[i] in n;
      var j :| 0 <= j < |Lower(subject)| && Lower(subject)[j] == n[i];
    }
  }

  /** The file name never contains whitespace, so it fits in a path unescaped. */
  lemma CsvFilenameHasNoSpace(subject: string)
    ensures NoSpace(CsvFilename(subject))
    ensures IsLowerCase(CsvFilename(subject))
  {
    TableNamesClean();
    NormalizeIsLowerCase(subject);
    ReplaceSpaceRunsLowerCase(Normalize(subject));
  }

  /** A name with no whitespace and no capitals normalizes to itself. */
  lemma NormalizeOfClean(s: string)
    requires NoSpace(s) && IsLowerCase(s)
    ensures Normalize(s) == s
  {
    LowerOfLowerCase(s);
    TrimOfTrimmed(s);
  }

  /** Resolving a resolved name changes nothing. */
  lemma CsvFilenameIdempotent(subject: string)
    ensures CsvFilename(CsvFilename(subject)) == CsvFilename(subject)
  {
    var n := Normalize(subject);
    var r := CsvFilename(subject);
    CsvFilenameHasNoSpace(subject);
    NormalizeOfClean(r);
    TableKeysHaveNoDash();
    if n in SubjectFileMap {
      TableFixedPoints();
      if r !in SubjectFileMap {
        ReplaceSpaceRunsOfNoSpace(r);
      }
    } else {
      if r in SubjectFileMap {
        ReplaceSpaceRunsWithoutDash(n);
        ReplaceSpaceRunsOfNoSpace(n);
      }
      ReplaceSpaceRunsOfNoSpace(r);
    }
  }

  /** Surrounding whitespace and capitals never change the file name. */
  lemma CsvFilenameIgnoresPaddingAndCase(subject: string, w1: string, w2: string)
    requires AllSpace(w1) && AllSpace(w2)
    ensures CsvFilename(w1 + subject + w2) == CsvFilename(subject)
    ensures CsvFilename(Lower(subject)) == CsvFilename(subject)
  {
    LowerAppend(w1 + subject, w2);
    LowerAppend(w1, subject);
    LowerKeepsSpaces(w1);
    LowerKeepsSpaces(w2);
    TrimPadded(Lower(w1), Lower(subject), Lower(w2));
    LowerIsLowerCase(subject);
    LowerOfLowerCase(Lower(subject));
  }

  /** A subject outside the table is its normalized text with dashes for whitespace runs. */
  lemma CsvFilenameOutsideTable(subject: string)
    requires Normalize(subject) !in SubjectFileMap
    ensures CsvFilename(subject) == ReplaceSpaceRuns(Normalize(subject))
    ensures '-' !in Normalize(subject) && NoSpace(Normalize(subject)) ==> CsvFilename(subject) == Normalize(subject)
  {
    var n := Normalize(subject);
    FileNameOutsideTable(n);
  }

  lemma {:induction false} FileNameOutsideTable(n: string)
    requires n !in SubjectFileMap
    ensures FileNameFor(n) == ReplaceSpaceRuns(n)
    ensures NoSpace(n) ==> FileNameFor(n) == n
  {
    if NoSpace(n) {
      ReplaceSpaceRunsOfNoSpace(n);
    }
  }

  lemma PaddedShape()
    ensures " ELA " == " " + "ELA" + " "
  {
  }

  lemma LowerEla()
    ensures Lower("ELA") == "ela"
  {
  }

  lemma NormalizeEla()
    ensures Normalize("ela") == "ela"
  {
    assert IsLowerCase("ela") && NoSpace("ela");
    NormalizeOfClean("ela");
  }

  lemma EnglishAbbreviation()
    ensures FileNameFor("ela") == "english"
  {
  }

  /** `" ELA "` is found in the table under `ela`. */
  lemma PaddedAbbreviationResolves()
    ensures CsvFilename(" ELA ") == "english"
  {
    PaddedShape();
    CsvFilenameIgnoresPaddingAndCase("ELA", " ", " ");
    LowerEla();
    NormalizeEla();
    EnglishAbbreviation();
  }

  // =====================================================================
  // The page state

  /** What `JSON.parse` followed by the first property read produced. */
  datatype ParseOutcome =
    /** An exception before the required-field test (a syntax error, or reading a field of `null`). */
    | Thrown(message: string)
    /**
     * A value; a required field that is absent, `null`, `false` or `0` is
     * `None`, and the empty string is kept as `Some("")`. Any other present
     * field is taken to be of its declared kind.
     */
    | Parsed(candidate: Candidate)

  /** The fields of the parsed value; the optional ones are assumed well-typed. */
  datatype Candidate = Candidate(
    title: Option<string>,
    description: string,
    subject: Option<string>,
    goals: seq<string>,
    activities: Option<seq<Activity>>,
    notes: Option<string>)

  /** `parsed.title && parsed.activities && parsed.subject`: strings must be non-empty, any array will do. */
  predicate HasRequiredFields(c: Candidate) {
    c.title.Some? && c.title.value != [] && c.activities.Some? && c.subject.Some? && c.subject.value != []
  }

  function PlanOf(c: Candidate): LessonPlan
    requires HasRequiredFields(c)
  {
    LessonPlan(c.title.value, c.description, c.subject.value, c.goals, c.activities.value, c.notes)
  }

  const MissingFieldsMessage: string := "Invalid JSON: Missing required fields (title, activities, subject)"
  const DefaultParseMessage: string := "Invalid JSON format"

  /** The error message a rejected input leaves behind, if it is rejected. */
  function RejectionMessage(outcome: ParseOutcome): Option<string> {
    match outcome
    case Thrown(message) => Some(OrDefault(message, DefaultParseMessage))
    case Parsed(c) => if HasRequiredFields(c) then None else Some(MissingFieldsMessage)
  }

  /** What one fetch produced: a response with its status flag and body, or a rejected promise. */
  datatype FetchOutcome = NetworkError | Response(ok: bool, body: string)

  /**
   * The text the standards come from: the primary file if served, else the
   * generic file if served; nothing when the primary fetch itself is
   * rejected, since that goes straight to the error handler.
   */
  function StandardsSource(fetch: string -> FetchOutcome, primary: string): Option<string> {
    match fetch(primary)
    case NetworkError => None
    case Response(ok, body) =>
      if ok then Some(body)
      else match fetch(FallbackPath)
        case NetworkError => None
        case Response(ok2, body2) => if ok2 then Some(body2) else None
  }

  function LoadedDatabase(fetch: string -> FetchOutcome, primary: string): StandardsDb {
    match StandardsSource(fetch, primary)
    case Some(text) => CsvDatabase(text)
    case None => map[]
  }

  class App {
    var jsonInput: string
    var lessonPlan: Option<LessonPlan>
    var standardsDb: StandardsDb
    var error: Option<string>
    var loading: bool

    constructor(initialJson: string)
      ensures jsonInput == initialJson
      ensures lessonPlan == None && standardsDb == map[] && error == None && !loading
    {
      jsonInput := initialJson;
      lessonPlan := None;
      standardsDb := map[];
      error := None;
      loading := false;
    }

    /** The editor's change handler. */
    method SetJsonInput(text: string)
      modifies this
      ensures jsonInput == text
      ensures lessonPlan == old(lessonPlan) && standardsDb == old(standardsDb)
      ensures error == old(error) && loading == old(loading)
    {
      jsonInput := text;
    }

    /**
     * `handleVisualize`: the error is cleared first; an input that throws or
     * lacks a required field leaves the plan as it was and sets the message,
     * otherwise the parsed plan replaces it.
     */
    method HandleVisualize(parse: string -> ParseOutcome)
      modifies this
      ensures error == RejectionMessage(parse(old(jsonInput)))
      ensures lessonPlan == (if error.None? then Some(PlanOf(parse(old(jsonInput)).candidate)) else old(lessonPlan))
      ensures jsonInput == old(jsonInput) && standardsDb == old(standardsDb) && loading == old(loading)
    {
      error := None;
      var outcome := parse(jsonInput);
      match outcome {
        case Thrown(message) =>
          error := Some(if message != [] then message else DefaultParseMessage);
        case Parsed(c) =>
          if c.title.None? || c.title.value == [] || c.activities.None? || c.subject.None? || c.subject.value == [] {
            error := Some(MissingFieldsMessage);
          } else {
            lessonPlan := Some(LessonPlan(c.title.value, c.description, c.subject.value,
                                          c.goals, c.activities.value, c.notes));
          }
      }
    }

    /** `handleBack`: forget the plan, its standards and any error. */
    method HandleBack()
      modifies this
      ensures lessonPlan == None && standardsDb == map[] && error == None
      ensures jsonInput == old(jsonInput) && loading == old(loading)
    {
      lessonPlan := None;
      standardsDb := map[];
      error := None;
    }

    /**
     * The effect that runs when the plan changes: with a plan, fetch the
     * subject's file, else the generic file, parse whichever was served, and
     * settle on the empty database otherwise; loading always ends.
     */
    method LoadStandards(fetch: string -> FetchOutcome)
      modifies this
      ensures old(lessonPlan).Some? ==>
                standardsDb == LoadedDatabase(fetch, PrimaryPath(old(lessonPlan).value.subject)) && !loading
      ensures old(lessonPlan).None? ==> standardsDb == old(standardsDb) && loading == old(loading)
      ensures lessonPlan == old(lessonPlan) && jsonInput == old(jsonInput) && error == old(error)
    {
      if lessonPlan.Some? {
        loading := true;
        var subject := lessonPlan.value.subject;
        var path := PrimaryPath(subject);
        var res := fetch(path);
        if res.Response? && !res.ok {
          res := fetch(FallbackPath);
        }
        if res.Response? && res.ok {
          var parsed := ParseCsv(res.body);
          standardsDb := parsed;
          loading := false;
        } else {
          standardsDb := map[];
          loading := false;
        }
      }
    }
  }

  // =====================================================================
  // Facts about the handlers and the load outcome

  /** The message shown after a rejection is never empty, so the alert always appears. */
  lemma RejectionMessageNonEmpty(outcome: ParseOutcome)
    ensures RejectionMessage(outcome).Some? ==> RejectionMessage(outcome).value != []
    ensures RejectionMessage(outcome).None? <==> outcome.Parsed? && HasRequiredFields(outcome.candidate)
  {
  }

  /** An empty activity list passes the required-field test; an empty title does not. */
  lemma EmptyActivitiesAccepted(c: Candidate)
    requires c.title.Some? && c.subject.Some? && c.title.value != [] && c.subject.value != []
    ensures HasRequiredFields(c.(activities := Some([])))
    ensures !HasRequiredFields(c.(title := Some([])))
  {
  }

  /**
   * The three outcomes of the load effect, for the subject's primary path:
   * the primary file when served, else the generic file when served, else
   * the empty database.
   */
  lemma LoadOutcomes(fetch: string -> FetchOutcome, primary: string)
    ensures fetch(primary).Response? && fetch(primary).ok ==>
              LoadedDatabase(fetch, primary) == CsvDatabase(fetch(primary).body)
    ensures fetch(primary).Response? && !fetch(primary).ok &&
            fetch(FallbackPath).Response? && fetch(FallbackPath).ok ==>
              LoadedDatabase(fetch, primary) == CsvDatabase(fetch(FallbackPath).body)
    ensures StandardsSource(fetch, primary).None? <==>
              (fetch(primary).NetworkError? ||
               (!fetch(primary).ok && !(fetch(FallbackPath).Response? && fetch(FallbackPath).ok)))
    ensures StandardsSource(fetch, primary).None? ==> LoadedDatabase(fetch, primary) == map[]
  {
  }

  /** The primary path is the resolved name under `CSVs/`, free of whitespace. */
  lemma PrimaryPathShape(subject: string)
    ensures NoSpace(PrimaryPath(subject))
    ensures PrimaryPath(subject)[..5] == "CSVs/"
    ensures PrimaryPath(subject)[|PrimaryPath(subject)| - 4..] == ".csv"
  {
    CsvFilenameHasNoSpace(subject);
    PathAround(CsvFilename(subject));
  }

  lemma PathAround(name: string)
    requires NoSpace(name)
    ensures NoSpace("CSVs/" + name + ".csv")
    ensures ("CSVs/" + name + ".csv")[..5] == "CSVs/"
    ensures ("CSVs/" + name + ".csv")[|"CSVs/" + name + ".csv"| - 4..] == ".csv"
  {
    NoSpaceAround("CSVs/", name, ".csv");
    assert NoSpace("CSVs/") && NoSpace(".csv");
    ConcatEnds("CSVs/", name, ".csv");
  }

  lemma NoSpaceAround(a: string, b: string, c: string)
    requires NoSpace(a) && NoSpace(b) && NoSpace(c)
    ensures NoSpace(a + b + c)
  {
  }

  lemma ConcatEnds(a: string, b: string, c: string)
    ensures (a + b + c)[..|a|] == a
    ensures (a + b + c)[|a + b + c| - |c|..] == c
  {
  }

  /** Whatever the network does, the loaded database is keyed by its entries' own IDs. */
  lemma LoadedDatabaseWellFormed(fetch: string -> FetchOutcome, primary: string)
    ensures forall k :: k in LoadedDatabase(fetch, primary) ==>
              LoadedDatabase(fetch, primary)[k].id == k && |k| > 2
  {
    var src := StandardsSource(fetch, primary);
    if src.Some? {
      CsvDatabaseEntries(src.value);
    }
  }
}
