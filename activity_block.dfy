/**
 * components/ActivityBlock.tsx: the edit buffer behind one activity card,
 * the comma-separated text field used to edit its standards list, and the
 * position-dependent move buttons.
 *
 * The buffer starts as the activity the card was first given; edits change
 * one field (or one rubric level) of the buffer at a time; saving hands the
 * buffer to the parent and cancelling copies the current activity back.
 */
module ActivityBlock {
  import opened Strings
  import opened Types

  // =====================================================================
  // Single-field edits: handleChange

  /** The activity fields the edit form binds to an input. */
  datatype ActivityField = TitleField | TimeframeField | StudentWillField | AssignmentField | StandardsField

  /** `handleChange(field, value)` for each field the form edits. */
  datatype FieldEdit =
    | SetTitle(text: string)
    | SetTimeframe(text: string)
    | SetStudentWill(text: string)
    | SetAssignment(text: string)
    | SetStandards(ids: seq<string>)

  function FieldOf(e: FieldEdit): ActivityField {
    match e
    case SetTitle(_) => TitleField
    case SetTimeframe(_) => TimeframeField
    case SetStudentWill(_) => StudentWillField
    case SetAssignment(_) => AssignmentField
    case SetStandards(_) => StandardsField
  }

  /** `a` and `b` hold the same value in field `f`. */
  predicate AgreeOn(a: Activity, b: Activity, f: ActivityField) {
    match f
    case TitleField => a.title == b.title
    case TimeframeField => a.timeframe == b.timeframe
    case StudentWillField => a.studentWillStatement == b.studentWillStatement
    case AssignmentField => a.assignmentDescription == b.assignmentDescription
    case StandardsField => a.activityStandards == b.activityStandards
  }

  /** `a` and `b` differ at most in field `f`; the rubric and the suggestions are equal. */
  predicate AgreeExcept(a: Activity, b: Activity, f: ActivityField) {
    && (forall g: ActivityField :: g != f ==> AgreeOn(a, b, g))
    && a.evaluationCriteria == b.evaluationCriteria
    && a.ainaraActivities == b.ainaraActivities
  }

  /** The edit's value is what activity `a` holds in the edited field. */
  predicate Holds(a: Activity, e: FieldEdit) {
    match e
    case SetTitle(v) => a.title == v
    case SetTimeframe(v) => a.timeframe == v
    case SetStudentWill(v) => a.studentWillStatement == v
    case SetAssignment(v) => a.assignmentDescription == v
    case SetStandards(ids) => a.activityStandards == ids
  }

  /** `{ ...prev, [field]: value }` */
  function ApplyEdit(a: Activity, e: FieldEdit): (r: Activity)
    ensures Holds(r, e)
    ensures AgreeExcept(a, r, FieldOf(e))
  {
    match e
    case SetTitle(v) => a.(title := v)
    case SetTimeframe(v) => a.(timeframe := v)
    case SetStudentWill(v) => a.(studentWillStatement := v)
    case SetAssignment(v) => a.(assignmentDescription := v)
    case SetStandards(ids) => a.(activityStandards := ids)
  }

  /** Two activities agreeing on every field, the rubric and the suggestions are equal. */
  lemma ActivityExtensionality(a: Activity, b: Activity)
    requires forall g: ActivityField :: AgreeOn(a, b, g)
    requires a.evaluationCriteria == b.evaluationCriteria && a.ainaraActivities == b.ainaraActivities
    ensures a == b
  {
    assert AgreeOn(a, b, TitleField) && AgreeOn(a, b, TimeframeField) && AgreeOn(a, b, StudentWillField);
    assert AgreeOn(a, b, AssignmentField) && AgreeOn(a, b, StandardsField);
  }

  /** Edits to different fields can be made in either order. */
  lemma EditsCommute(a: Activity, e1: FieldEdit, e2: FieldEdit)
    requires FieldOf(e1) != FieldOf(e2)
    ensures ApplyEdit(ApplyEdit(a, e1), e2) == ApplyEdit(ApplyEdit(a, e2), e1)
  {
  }

  /** Of two edits to the same field, the later one wins. */
  lemma LastEditWins(a: Activity, e1: FieldEdit, e2: FieldEdit)
    requires FieldOf(e1) == FieldOf(e2)
    ensures ApplyEdit(ApplyEdit(a, e1), e2) == ApplyEdit(a, e2)
  {
  }

  /** Writing back the value a field already holds changes nothing. */
  lemma EditToSameValue(a: Activity, e: FieldEdit)
    requires Holds(a, e)
    ensures ApplyEdit(a, e) == a
  {
    var r := ApplyEdit(a, e);
    forall g: ActivityField ensures AgreeOn(a, r, g) {
    }
    ActivityExtensionality(a, r);
  }

  // =====================================================================
  // Rubric edits: handleRubricChange

  /** The five rubric levels, `score_4_proficient` down to `score_0_no_participation`. */
  datatype RubricLevel = Proficient4 | Developing3 | Beginning2 | NotYet1 | NoParticipation0

  function LevelText(r: Rubric, l: RubricLevel): string {
    match l
    case Proficient4 => r.score4Proficient
    case Developing3 => r.score3Developing
    case Beginning2 => r.score2Beginning
    case NotYet1 => r.score1NotYet
    case NoParticipation0 => r.score0NoParticipation
  }

  /** `{ ...prev.evaluation_criteria, [field]: value }` */
  function SetLevel(r: Rubric, l: RubricLevel, v: string): (s: Rubric)
    ensures LevelText(s, l) == v
    ensures forall m: RubricLevel :: m != l ==> LevelText(s, m) == LevelText(r, m)
  {
    match l
    case Proficient4 => r.(score4Proficient := v)
    case Developing3 => r.(score3Developing := v)
    case Beginning2 => r.(score2Beginning := v)
    case NotYet1 => r.(score1NotYet := v)
    case NoParticipation0 => r.(score0NoParticipation := v)
  }

  /** A rubric is determined by the text of its five levels. */
  lemma RubricExtensionality(r: Rubric, s: Rubric)
    requires forall l: RubricLevel :: LevelText(r, l) == LevelText(s, l)
    ensures r == s
  {
    assert LevelText(r, Proficient4) == LevelText(s, Proficient4);
    assert LevelText(r, Developing3) == LevelText(s, Developing3);
    assert LevelText(r, Beginning2) == LevelText(s, Beginning2);
    assert LevelText(r, NotYet1) == LevelText(s, NotYet1);
    assert LevelText(r, NoParticipation0) == LevelText(s, NoParticipation0);
  }

  /** Writing back a level's own text leaves the rubric as it was. */
  lemma SetLevelToSameText(r: Rubric, l: RubricLevel)
    ensures SetLevel(r, l, LevelText(r, l)) == r
  {
    RubricExtensionality(SetLevel(r, l, LevelText(r, l)), r);
  }

  /** The buffer after a rubric edit: one level replaced, every other field kept. */
  function ApplyRubricEdit(a: Activity, l: RubricLevel, v: string): (r: Activity)
    ensures LevelText(r.evaluationCriteria, l) == v
    ensures forall m: RubricLevel :: m != l ==> LevelText(r.evaluationCriteria, m) == LevelText(a.evaluationCriteria, m)
    ensures forall g: ActivityField :: AgreeOn(a, r, g)
    ensures r.ainaraActivities == a.ainaraActivities
  {
    a.(evaluationCriteria := SetLevel(a.evaluationCriteria, l, v))
  }

  // =====================================================================
  // The standards text field

  /** `ids.join(', ')`, the text shown in the standards input. */
  function FormatStandards(ids: seq<string>): string {
    Join(ids, ", ")
  }

  /** `.filter(Boolean)` on strings: drop the empty ones. */
  function DropEmpty(xs: seq<string>): (r: seq<string>)
    ensures |r| <= |xs|
    ensures forall i :: 0 <= i < |r| ==> r[i] != [] && r[i] in xs
    ensures (forall i :: 0 <= i < |xs| ==> xs[i] != []) ==> r == xs
    ensures forall x :: x in r <==> x in xs && x != []
  {
    if xs == [] then []
    else if xs[0] == [] then DropEmpty(xs[1..])
    else [xs[0]] + DropEmpty(xs[1..])
  }

  /**
   * The filter works element by element and keeps the order: filtering a
   * concatenation filters each part. With `DropEmpty([x])` being `[x]` or
   * `[]`, this fixes the result completely.
   */
  lemma {:induction false} DropEmptyAppend(xs: seq<string>, ys: seq<string>)
    ensures DropEmpty(xs + ys) == DropEmpty(xs) + DropEmpty(ys)
    decreases |xs|
  {
    if xs == [] {
      assert xs + ys == ys;
    } else {
      assert (xs + ys)[0] == xs[0];
      assert (xs + ys)[1..] == xs[1..] + ys;
      DropEmptyAppend(xs[1..], ys);
      if xs[0] != [] {
        assert [xs[0]] + DropEmpty(xs[1..]) + DropEmpty(ys)
            == [xs[0]] + (DropEmpty(xs[1..]) + DropEmpty(ys));
      }
    }
  }

  lemma DropEmptyOne(x: string)
    ensures DropEmpty([x]) == if x == [] then [] else [x]
  {
    assert [x][1..] == [];
  }

  /** `text.split(',').map(s => s.trim()).filter(Boolean)` */
  function ParseStandards(text: string): seq<string> {
    DropEmpty(TrimAll(Split(text, ',')))
  }

  /** What every parsed list looks like: non-empty, trimmed, comma-free IDs. */
  predicate IsCleanId(id: string) {
    id != [] && IsTrimmed(id) && ',' !in id
  }

  lemma ParsedIdsAreClean(text: string)
    ensures forall i :: 0 <= i < |ParseStandards(text)| ==> IsCleanId(ParseStandards(text)[i])
  {
    var parts := Split(text, ',');
    var trimmed := TrimAll(parts);
    var r := DropEmpty(trimmed);
    forall i | 0 <= i < |r| ensures IsCleanId(r[i]) {
      var j :| 0 <= j < |trimmed| && trimmed[j] == r[i];
      TrimIsTrimmed(parts[j]);
      TrimKeepsChars(parts[j]);
    }
  }

  /** The pieces of `ids.join(', ')` between commas: every ID after the first keeps its space. */
  function Spaced(ids: seq<string>): (r: seq<string>)
    requires |ids| >= 1
    ensures |r| == |ids| && r[0] == ids[0]
    ensures forall i :: 1 <= i < |ids| ==> r[i] == " " + ids[i]
  {
    seq(|ids|, i requires 0 <= i < |ids| => if i == 0 then ids[0] else " " + ids[i])
  }

  lemma JoinPrependFirst(p: string, parts: seq<string>, sep: string)
    requires |parts| >= 1
    ensures Join([p + parts[0]] + parts[1..], sep) == p + Join(parts, sep)
  {
    assert ([p + parts[0]] + parts[1..])[1..] == parts[1..];
  }

  lemma SpacedTail(ids: seq<string>)
    requires |ids| >= 2
    ensures Spaced(ids)[1..] == [" " + Spaced(ids[1..])[0]] + Spaced(ids[1..])[1..]
  {
  }

  lemma {:induction false} JoinSpaced(ids: seq<string>)
    requires |ids| >= 1
    ensures FormatStandards(ids) == Join(Spaced(ids), ",")
    decreases |ids|
  {
    if |ids| > 1 {
      var tail := Spaced(ids[1..]);
      JoinSpaced(ids[1..]);
      SpacedTail(ids);
      JoinPrependFirst(" ", tail, ",");
      assert ids[0] + ", " + Join(ids[1..], ", ") == ids[0] + "," + (" " + Join(tail, ","));
    }
  }

  lemma TrimAllSpaced(ids: seq<string>)
    requires |ids| >= 1
    requires forall i :: 0 <= i < |ids| ==> IsCleanId(ids[i])
    ensures TrimAll(Spaced(ids)) == ids
  {
    var r := TrimAll(Spaced(ids));
    forall i | 0 <= i < |ids| ensures r[i] == ids[i] {
      if i == 0 {
        TrimOfTrimmed(ids[i]);
      } else {
        TrimLeadingSpace(ids[i]);
      }
    }
  }

  lemma TrimLeadingSpace(x: string)
    requires IsTrimmed(x)
    ensures Trim(" " + x) == x
  {
    TrimPadded(" ", x, []);
    assert " " + x + [] == " " + x;
    TrimOfTrimmed(x);
  }

  lemma FormatThenSplit(ids: seq<string>)
    requires |ids| >= 1
    requires forall i :: 0 <= i < |ids| ==> IsCleanId(ids[i])
    ensures TrimAll(Split(FormatStandards(ids), ',')) == ids
  {
    var parts := Spaced(ids);
    forall i | 0 <= i < |parts| ensures ',' !in parts[i] {
    }
    JoinSpaced(ids);
    SplitJoin(parts, ',');
    TrimAllSpaced(ids);
  }

  /**
   * Round trip: a list of clean IDs comes back unchanged from its displayed
   * text; the empty list shows as the empty string and parses back empty.
   */
  lemma ParseFormatRoundTrip(ids: seq<string>)
    requires forall i :: 0 <= i < |ids| ==> IsCleanId(ids[i])
    ensures ParseStandards(FormatStandards(ids)) == ids
  {
    if ids != [] {
      FormatThenSplit(ids);
    } else {
      assert TrimAll([[]]) == [[]];
    }
  }

  /** Re-displaying a parsed list and parsing it again gives the same list. */
  lemma ParseIsStable(text: string)
    ensures ParseStandards(FormatStandards(ParseStandards(text))) == ParseStandards(text)
  {
    ParsedIdsAreClean(text);
    ParseFormatRoundTrip(ParseStandards(text));
  }

  // =====================================================================
  // The card's position controls

  /** The move-up button is disabled on the first card. */
  predicate MoveUpDisabled(index: int) {
    index == 0
  }

  /** The move-down button is disabled on the last card. */
  predicate MoveDownDisabled(index: int, totalActivities: int) {
    index == totalActivities - 1
  }

  /** The "Activity n" label counts from one. */
  function DisplayNumber(index: int): int {
    index + 1
  }

  /**
   * For a card at a valid position, an enabled move stays within the list,
   * both moves are disabled for a single card, and the label is between one
   * and the number of cards.
   */
  lemma MoveBounds(index: int, totalActivities: int)
    requires 0 <= index < totalActivities
    ensures !MoveUpDisabled(index) ==> 0 <= index - 1
    ensures !MoveDownDisabled(index, totalActivities) ==> index + 1 < totalActivities
    ensures totalActivities == 1 ==> MoveUpDisabled(index) && MoveDownDisabled(index, totalActivities)
    ensures 1 <= DisplayNumber(index) <= totalActivities
  {
  }

  /** The suggestions panel appears only for a present, non-empty suggestion list. */
  predicate ShowsSuggestions(a: Activity) {
    a.ainaraActivities.Some? && |a.ainaraActivities.value| > 0
  }

  /**
   * No edit the card offers touches the suggestions: whether the panel shows
   * is the same before and after any field or rubric edit.
   */
  lemma SuggestionsSurviveEdits(a: Activity, e: FieldEdit, l: RubricLevel, v: string)
    ensures ShowsSuggestions(ApplyEdit(a, e)) == ShowsSuggestions(a)
    ensures ShowsSuggestions(ApplyRubricEdit(a, l, v)) == ShowsSuggestions(a)
  {
  }

  /**
   * Typing back the text the standards input displays leaves the activity as
   * it was, provided its IDs are clean (trimmed, non-empty, comma-free).
   */
  lemma RetypedStandardsUnchanged(a: Activity)
    requires forall i :: 0 <= i < |a.activityStandards| ==> IsCleanId(a.activityStandards[i])
    ensures ApplyEdit(a, SetStandards(ParseStandards(FormatStandards(a.activityStandards)))) == a
  {
    ParseFormatRoundTrip(a.activityStandards);
    EditToSameValue(a, SetStandards(a.activityStandards));
  }

  // =====================================================================
  // The card's state

  class ActivityEditor {
    /** The props: the activity shown, its position and the number of cards. */
    var activity: Activity
    var index: int
    var totalActivities: int
    /** The state: edit mode and the edit buffer. */
    var isEditing: bool
    var editedActivity: Activity

    constructor(activity0: Activity, index0: int, totalActivities0: int)
      ensures activity == activity0 && index == index0 && totalActivities == totalActivities0
      ensures !isEditing && editedActivity == activity0
    {
      activity := activity0;
      index := index0;
      totalActivities := totalActivities0;
      isEditing := false;
      editedActivity := activity0;
    }

    /** A re-render with new props; the buffer keeps its value. */
    method ReceiveProps(activity1: Activity, index1: int, totalActivities1: int)
      modifies this
      ensures activity == activity1 && index == index1 && totalActivities == totalActivities1
      ensures isEditing == old(isEditing) && editedActivity == old(editedActivity)
    {
      activity := activity1;
      index := index1;
      totalActivities := totalActivities1;
    }

    /** The Edit button. */
    method StartEditing()
      modifies this
      ensures isEditing
      ensures editedActivity == old(editedActivity) && activity == old(activity)
      ensures index == old(index) && totalActivities == old(totalActivities)
    {
      isEditing := true;
    }

    /** The text the standards input shows. */
    function StandardsText(): string
      reads this
    {
      FormatStandards(editedActivity.activityStandards)
    }

    method HandleChange(e: FieldEdit)
      modifies this
      ensures editedActivity == ApplyEdit(old(editedActivity), e)
      ensures isEditing == old(isEditing) && activity == old(activity)
      ensures index == old(index) && totalActivities == old(totalActivities)
    {
      editedActivity := ApplyEdit(editedActivity, e);
    }

    /** The standards input's change handler. */
    method HandleStandardsInput(text: string)
      modifies this
      ensures editedActivity == ApplyEdit(old(editedActivity), SetStandards(ParseStandards(text)))
      ensures isEditing == old(isEditing) && activity == old(activity)
      ensures index == old(index) && totalActivities == old(totalActivities)
      ensures text == old(StandardsText()) &&
              (forall i :: 0 <= i < |old(editedActivity).activityStandards| ==>
                 IsCleanId(old(editedActivity).activityStandards[i])) ==>
                editedActivity == old(editedActivity)
    {
      if text == StandardsText() &&
         forall i :: 0 <= i < |editedActivity.activityStandards| ==> IsCleanId(editedActivity.activityStandards[i])
      {
        RetypedStandardsUnchanged(editedActivity);
      }
      HandleChange(SetStandards(ParseStandards(text)));
    }

    method HandleRubricChange(l: RubricLevel, v: string)
      modifies this
      ensures editedActivity == ApplyRubricEdit(old(editedActivity), l, v)
      ensures isEditing == old(isEditing) && activity == old(activity)
      ensures index == old(index) && totalActivities == old(totalActivities)
    {
      editedActivity := editedActivity.(evaluationCriteria := SetLevel(editedActivity.evaluationCriteria, l, v));
    }

    /** `handleSave`: the buffer goes to the parent's `onUpdate`, and edit mode ends. */
    method HandleSave() returns (updated: Activity)
      modifies this
      ensures updated == old(editedActivity)
      ensures !isEditing && editedActivity == old(editedActivity) && activity == old(activity)
      ensures index == old(index) && totalActivities == old(totalActivities)
    {
      updated := editedActivity;
      isEditing := false;
    }

    /** `handleCancel`: the buffer is reset to the current activity, and edit mode ends. */
    method HandleCancel()
      modifies this
      ensures !isEditing && editedActivity == activity && activity == old(activity)
      ensures index == old(index) && totalActivities == old(totalActivities)
    {
      editedActivity := activity;
      isEditing := false;
    }
  }
}
