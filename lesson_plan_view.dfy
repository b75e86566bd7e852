/**
 * The missing-standards check of components/LessonPlanView.tsx: the list of
 * standard IDs a plan cites that the standards database does not define.
 *
 * The goal IDs are walked first and every absent one is pushed, repeats
 * included; then every activity's IDs are walked in order and an absent ID
 * is pushed only when the list does not already hold it. A database entry
 * is an object, so `!standardsDb[id]` holds exactly when `id` is no key.
 */
module LessonPlanView {
  import opened Types

  /** The goal phase: every goal ID absent from the database, in goal order. */
  function GoalsMissing(goals: seq<string>, db: StandardsDb): (r: seq<string>)
    ensures |r| <= |goals|
    decreases |goals|
  {
    if goals == [] then []
    else
      var init := GoalsMissing(goals[..|goals| - 1], db);
      var x := goals[|goals| - 1];
      if x !in db then init + [x] else init
  }

  /** All activity IDs, activity by activity, each in list order. */
  function Flatten(acts: seq<Activity>): seq<string>
    decreases |acts|
  {
    if acts == [] then []
    else Flatten(acts[..|acts| - 1]) + acts[|acts| - 1].activityStandards
  }

  /**
   * The activity phase: starting from `start`, each ID of `ids` in turn is
   * appended when it is absent from the database and not yet listed.
   */
  function AddNew(start: seq<string>, ids: seq<string>, db: StandardsDb): (r: seq<string>)
    ensures |start| <= |r|
    decreases |ids|
  {
    if ids == [] then start
    else
      var acc := AddNew(start, ids[..|ids| - 1], db);
      var x := ids[|ids| - 1];
      if x !in db && x !in acc then acc + [x] else acc
  }

  /** The `errors` list for a plan. */
  function MissingReport(plan: LessonPlan, db: StandardsDb): seq<string> {
    AddNew(GoalsMissing(plan.overarchingGoalsStandards, db), Flatten(plan.activities), db)
  }

  /** The error banner is shown exactly when the list is non-empty. */
  predicate ShowsErrorBanner(plan: LessonPlan, db: StandardsDb) {
    |MissingReport(plan, db)| > 0
  }

  // =====================================================================
  // The computation as written: two nested walks pushing onto `missing`

  lemma FlattenStep(acts: seq<Activity>, a: nat)
    requires a < |acts|
    ensures Flatten(acts[..a + 1]) == Flatten(acts[..a]) + acts[a].activityStandards
  {
    assert acts[..a + 1][..a] == acts[..a];
  }

  lemma AddNewStep(start: seq<string>, prefix: seq<string>, ids: seq<string>, j: nat, db: StandardsDb)
    requires j < |ids|
    ensures var acc := AddNew(start, prefix + ids[..j], db);
            AddNew(start, prefix + ids[..j + 1], db)
              == if ids[j] !in db && ids[j] !in acc then acc + [ids[j]] else acc
  {
    var s := prefix + ids[..j + 1];
    assert s[..|s| - 1] == prefix + ids[..j];
    assert s[|s| - 1] == ids[j];
  }

  method FindMissingStandards(plan: LessonPlan, db: StandardsDb) returns (missing: seq<string>)
    ensures missing == MissingReport(plan, db)
  {
    var goals := plan.overarchingGoalsStandards;
    missing := [];
    for i := 0 to |goals|
      invariant missing == GoalsMissing(goals[..i], db)
    {
      assert goals[..i + 1][..i] == goals[..i];
      if goals[i] !in db {
        missing := missing + [goals[i]];
      }
    }
    assert goals[..|goals|] == goals;
    ghost var start := missing;
    var acts := plan.activities;
    for a := 0 to |acts|
      invariant missing == AddNew(start, Flatten(acts[..a]), db)
    {
      var ids := acts[a].activityStandards;
      assert Flatten(acts[..a]) + ids[..0] == Flatten(acts[..a]);
      for j := 0 to |ids|
        invariant missing == AddNew(start, Flatten(acts[..a]) + ids[..j], db)
      {
        AddNewStep(start, Flatten(acts[..a]), ids, j, db);
        if ids[j] !in db && ids[j] !in missing {
          missing := missing + [ids[j]];
        }
      }
      assert ids[..|ids|] == ids;
      FlattenStep(acts, a);
    }
    assert acts[..|acts|] == acts;
  }

  // =====================================================================
  // What the list contains

  lemma {:induction false} GoalsMissingMembers(goals: seq<string>, db: StandardsDb, x: string)
    ensures x in GoalsMissing(goals, db) <==> x in goals && x !in db
    decreases |goals|
  {
    if goals != [] {
      var init := goals[..|goals| - 1];
      GoalsMissingMembers(init, db, x);
      assert goals == init + [goals[|goals| - 1]];
    }
  }

  lemma {:induction false} AddNewMembers(start: seq<string>, ids: seq<string>, db: StandardsDb, x: string)
    ensures x in AddNew(start, ids, db) <==> x in start || (x in ids && x !in db)
    decreases |ids|
  {
    if ids != [] {
      var init := ids[..|ids| - 1];
      AddNewMembers(start, init, db, x);
      assert ids == init + [ids[|ids| - 1]];
    }
  }

  /** An ID is an activity ID exactly when some activity lists it. */
  lemma {:induction false} FlattenMembers(acts: seq<Activity>, x: string)
    ensures x in Flatten(acts) <==> exists a :: 0 <= a < |acts| && x in acts[a].activityStandards
    decreases |acts|
  {
    if acts != [] {
      var init := acts[..|acts| - 1];
      FlattenMembers(init, x);
      if x in Flatten(init) {
        var a :| 0 <= a < |init| && x in init[a].activityStandards;
        assert acts[a] == init[a];
      }
      if exists a :: 0 <= a < |acts| && x in acts[a].activityStandards {
        var a :| 0 <= a < |acts| && x in acts[a].activityStandards;
        if a < |init| {
          assert init[a] == acts[a];
        }
      }
    }
  }

  /** True when the plan cites `x`, as a goal or in some activity. */
  predicate Cites(plan: LessonPlan, x: string) {
    x in plan.overarchingGoalsStandards ||
    exists a :: 0 <= a < |plan.activities| && x in plan.activities[a].activityStandards
  }

  /**
   * Sound and complete: an ID is listed exactly when the plan cites it and
   * the database does not define it.
   */
  lemma MissingReportMembers(plan: LessonPlan, db: StandardsDb, x: string)
    ensures x in MissingReport(plan, db) <==> Cites(plan, x) && x !in db
  {
    GoalsMissingMembers(plan.overarchingGoalsStandards, db, x);
    AddNewMembers(GoalsMissing(plan.overarchingGoalsStandards, db), Flatten(plan.activities), db, x);
    FlattenMembers(plan.activities, x);
  }

  /** Every listed ID is absent from the database. */
  lemma MissingAreAbsent(plan: LessonPlan, db: StandardsDb)
    ensures forall x :: x in MissingReport(plan, db) ==> x !in db
  {
    forall x | x in MissingReport(plan, db) ensures x !in db {
      MissingReportMembers(plan, db, x);
    }
  }

  /** No banner exactly when every ID the plan cites is defined. */
  lemma NoBannerIffAllDefined(plan: LessonPlan, db: StandardsDb)
    ensures !ShowsErrorBanner(plan, db) <==> forall x :: Cites(plan, x) ==> x in db
  {
    var r := MissingReport(plan, db);
    if r != [] {
      MissingReportMembers(plan, db, r[0]);
    }
    forall x | Cites(plan, x) && x !in db ensures r != [] {
      MissingReportMembers(plan, db, x);
    }
  }

  // =====================================================================
  // Order and repeats

  predicate NoDuplicates(s: seq<string>) {
    forall i, j :: 0 <= i < j < |s| ==> s[i] != s[j]
  }

  /** The activity phase only appends: the goal phase's list is a prefix of the result. */
  lemma {:induction false} AddNewExtends(start: seq<string>, ids: seq<string>, db: StandardsDb)
    ensures AddNew(start, ids, db)[..|start|] == start
    decreases |ids|
  {
    if ids != [] {
      AddNewExtends(start, ids[..|ids| - 1], db);
    }
  }

  /** Goal IDs come first: the list begins with the absent goals in goal order. */
  lemma GoalsComeFirst(plan: LessonPlan, db: StandardsDb)
    ensures var g := GoalsMissing(plan.overarchingGoalsStandards, db);
            MissingReport(plan, db)[..|g|] == g
  {
    AddNewExtends(GoalsMissing(plan.overarchingGoalsStandards, db), Flatten(plan.activities), db);
  }

  /** Index of the first occurrence of `x` in `s`. */
  function FirstIndex(s: seq<string>, x: string): (i: nat)
    requires x in s
    ensures i < |s| && s[i] == x && x !in s[..i]
  {
    if s[0] == x then 0 else 1 + FirstIndex(s[1..], x)
  }

  lemma FirstIndexExtend(s: seq<string>, x: string, y: string)
    requires x in s
    ensures x in s + [y] && FirstIndex(s + [y], x) == FirstIndex(s, x)
  {
    var i := FirstIndex(s, x);
    var t := s + [y];
    assert t[..i] == s[..i];
    assert t[i] == x;
    FirstIndexUnique(t, x, i);
  }

  lemma FirstIndexUnique(s: seq<string>, x: string, i: nat)
    requires i < |s| && s[i] == x && x !in s[..i]
    ensures FirstIndex(s, x) == i
  {
  }

  /** The IDs the activity phase appends to `start`. */
  function Appended(start: seq<string>, ids: seq<string>, db: StandardsDb): seq<string> {
    AddNew(start, ids, db)[|start|..]
  }

  /**
   * Every appended ID is an activity ID absent from the database and new to
   * the list: it is neither in `start` nor appended twice.
   */
  lemma {:induction false} AppendedAreNew(start: seq<string>, ids: seq<string>, db: StandardsDb)
    ensures forall x :: x in Appended(start, ids, db) ==> x in ids && x !in db && x !in start
    ensures NoDuplicates(Appended(start, ids, db))
    decreases |ids|
  {
    if ids != [] {
      var init := ids[..|ids| - 1];
      var x := ids[|ids| - 1];
      var acc := AddNew(start, init, db);
      AppendedAreNew(start, init, db);
      AddNewExtends(start, init, db);
      assert ids == init + [x];
      var a := Appended(start, init, db);
      assert acc == start + a;
      if x !in db && x !in acc {
        assert Appended(start, ids, db) == a + [x];
      } else {
        assert Appended(start, ids, db) == a;
      }
    }
  }

  /** Every element of `a` occurs in `ids`, and `a` lists them by first occurrence in `ids`. */
  predicate FirstSeenOrder(ids: seq<string>, a: seq<string>) {
    && (forall y :: y in a ==> y in ids)
    && (forall i, j :: 0 <= i < j < |a| ==> FirstIndex(ids, a[i]) < FirstIndex(ids, a[j]))
  }

  lemma FirstSeenExtend(ids: seq<string>, a: seq<string>, x: string)
    requires FirstSeenOrder(ids, a)
    ensures FirstSeenOrder(ids + [x], a)
    ensures x !in ids ==> FirstSeenOrder(ids + [x], a + [x])
  {
    forall i | 0 <= i < |a| ensures a[i] in ids && FirstIndex(ids + [x], a[i]) == FirstIndex(ids, a[i]) {
      assert a[i] in a;
      FirstIndexExtend(ids, a[i], x);
    }
    if x !in ids {
      FirstIndexUnique(ids + [x], x, |ids|);
      var b := a + [x];
      forall i | 0 <= i < |b| ensures b[i] in ids + [x] && FirstIndex(ids + [x], b[i]) <= |ids| {
        if i < |a| {
          assert b[i] == a[i];
        }
      }
    }
  }

  /**
   * First-seen order: an ID appended earlier first occurs earlier among the
   * activity IDs.
   */
  lemma {:induction false} AppendedInFirstSeenOrder(start: seq<string>, ids: seq<string>, db: StandardsDb)
    ensures FirstSeenOrder(ids, Appended(start, ids, db))
    decreases |ids|
  {
    if ids != [] {
      var init := ids[..|ids| - 1];
      var x := ids[|ids| - 1];
      var acc := AddNew(start, init, db);
      AppendedInFirstSeenOrder(start, init, db);
      AddNewExtends(start, init, db);
      assert ids == init + [x];
      var a := Appended(start, init, db);
      assert acc == start + a;
      FirstSeenExtend(init, a, x);
      if x !in db && x !in acc {
        AddNewMembers(start, init, db, x);
        assert Appended(start, ids, db) == a + [x];
      } else {
        assert Appended(start, ids, db) == a;
      }
    }
  }

  /**
   * The whole list: the absent goals in goal order, then the newly seen
   * absent activity IDs in first-seen order, none of them repeated or
   * already listed as a goal.
   */
  lemma MissingReportOrder(plan: LessonPlan, db: StandardsDb)
    ensures var g := GoalsMissing(plan.overarchingGoalsStandards, db);
            var a := Appended(g, Flatten(plan.activities), db);
            && MissingReport(plan, db) == g + a
            && FirstSeenOrder(Flatten(plan.activities), a)
            && NoDuplicates(a)
            && (forall x :: x in a ==> x !in g)
  {
    var g := GoalsMissing(plan.overarchingGoalsStandards, db);
    AddNewExtends(g, Flatten(plan.activities), db);
    AppendedInFirstSeenOrder(g, Flatten(plan.activities), db);
    AppendedAreNew(g, Flatten(plan.activities), db);
  }

  /** Absent goals are listed as often as they occur as goals. */
  lemma RepeatedGoalListedTwice(plan: LessonPlan, db: StandardsDb, x: string)
    requires plan.overarchingGoalsStandards == [x, x] && x !in db
    ensures |MissingReport(plan, db)| >= 2 && MissingReport(plan, db)[..2] == [x, x]
  {
    var goals := [x, x];
    assert goals[..1] == [x];
    assert GoalsMissing([x], db) == [x] by {
      assert [x][..0] == [];
    }
    assert GoalsMissing(goals, db) == [x, x];
    GoalsComeFirst(plan, db);
  }

  /** With repeat-free goals the whole list is repeat-free. */
  lemma NoDuplicatesWhenGoalsDistinct(plan: LessonPlan, db: StandardsDb)
    requires NoDuplicates(plan.overarchingGoalsStandards)
    ensures NoDuplicates(MissingReport(plan, db))
  {
    var g := GoalsMissing(plan.overarchingGoalsStandards, db);
    GoalsMissingDistinct(plan.overarchingGoalsStandards, db);
    var r := MissingReport(plan, db);
    AddNewExtends(g, Flatten(plan.activities), db);
    AppendedAreNew(g, Flatten(plan.activities), db);
    var a := Appended(g, Flatten(plan.activities), db);
    assert r == g + a;
    forall i, j | 0 <= i < j < |r| ensures r[i] != r[j] {
      if j < |g| {
        assert r[i] == g[i] && r[j] == g[j];
      } else if i < |g| {
        assert r[j] == a[j - |g|] && r[i] in g;
      } else {
        assert r[i] == a[i - |g|] && r[j] == a[j - |g|];
      }
    }
  }

  lemma {:induction false} GoalsMissingDistinct(goals: seq<string>, db: StandardsDb)
    requires NoDuplicates(goals)
    ensures NoDuplicates(GoalsMissing(goals, db))
    decreases |goals|
  {
    if goals != [] {
      var init := goals[..|goals| - 1];
      var x := goals[|goals| - 1];
      assert NoDuplicates(init);
      GoalsMissingDistinct(init, db);
      GoalsMissingMembers(init, db, x);
      assert x !in init;
    }
  }
}
