/** The participant reconciliation rule `verifyParticipants`: every signup
    row after the header is joined by admin number to the feedback sheet and
    to the helper sheet, classified, and either counted invalid or kept as a
    participant and tallied under its course label. */
module VerificationEngine {
  import opened Sheets
  import opened Sequences

  /** Column of the admin number in a signup row. */
  const SignupKey: nat := 2
  /** Column of the admin number in a feedback row. */
  const FeedbackKey: nat := 3
  /** Column of the admin number in a helper row. */
  const HelperKey: nat := 4
  /** Column of the course label in a signup row. */
  const CourseColumn: nat := 5

  /** How one signup row is judged, in the order the checks are made. */
  datatype Verdict = NoFeedback | HelperDuplicate | Valid

  datatype Stats = Stats(invalidCount: nat, courseTurnup: map<string, nat>)

  datatype Verification = Verification(participants: Grid, stats: Stats)

  /** The classification of one signup row against the full feedback and
      helper grids (their header rows included). */
  function Classify(student: Row, feedback: Grid, helper: Grid): Verdict
  {
    var adminNum := Cell(student, SignupKey);
    if Find(feedback, FeedbackKey, adminNum).None? then NoFeedback
    else if Find(helper, HelperKey, adminNum).Some? then HelperDuplicate
    else Valid
  }

  /** What each verdict means in terms of matches anywhere in the grids. */
  lemma ClassifyMeaning(student: Row, feedback: Grid, helper: Grid)
    ensures var v := Classify(student, feedback, helper);
      var adminNum := Cell(student, SignupKey);
      && (v == NoFeedback <==> !HasMatch(feedback, FeedbackKey, adminNum))
      && (v == HelperDuplicate <==>
            HasMatch(feedback, FeedbackKey, adminNum) && HasMatch(helper, HelperKey, adminNum))
      && (v == Valid <==>
            HasMatch(feedback, FeedbackKey, adminNum) && !HasMatch(helper, HelperKey, adminNum))
  {
    FindIndexFirstMatch(feedback, FeedbackKey, Cell(student, SignupKey));
    FindIndexFirstMatch(helper, HelperKey, Cell(student, SignupKey));
  }

  /** The signup rows that pass, in signup order. */
  function Accepted(rows: Grid, feedback: Grid, helper: Grid): Grid
  {
    Filter(rows, (student: Row) => Classify(student, feedback, helper) == Valid)
  }

  /** The number of signup rows that fail either check. */
  function Rejected(rows: Grid, feedback: Grid, helper: Grid): nat
  {
    CountWhere(rows, (student: Row) => Classify(student, feedback, helper) != Valid)
  }

  /** The course label `student[5]` when it is truthy: present and non-empty.
      It is used verbatim. */
  function Course(student: Row): (course: Option<string>)
    ensures course.Some? ==> course.value != "" && Cell(student, CourseColumn) == course
    ensures course.None? ==> Cell(student, CourseColumn) in {None, Some("")}
  {
    match Cell(student, CourseColumn)
    case Some(c) => if c != "" then Some(c) else None
    case None => None
  }

  /** `courseTurnup` after one more participant: the entry of its course
      label, when the label is truthy, is bumped (created at 1 when absent). */
  function Bump(turnup: map<string, nat>, student: Row): (bumped: map<string, nat>)
    ensures bumped.Keys == turnup.Keys + (if Course(student).Some? then {Course(student).value} else {})
  {
    match Course(student)
    case Some(c) => turnup[c := (if c in turnup then turnup[c] else 0) + 1]
    case None => turnup
  }

  /** The `courseTurnup` record built by walking `participants` in order and
      bumping the entry of each one's course label. */
  function Tally(participants: Grid): map<string, nat>
  {
    if |participants| == 0 then map[]
    else Bump(Tally(participants[..|participants| - 1]), participants[|participants| - 1])
  }

  /** The number of participants whose course label is exactly `c`. */
  function CourseCount(participants: Grid, c: string): nat
  {
    CountWhere(participants, (student: Row) => Course(student) == Some(c))
  }

  /** The number of participants that carry a course label at all. */
  function LabelledCount(participants: Grid): nat
  {
    CountWhere(participants, (student: Row) => Course(student).Some?)
  }

  /** Some key of a non-empty tally. */
  ghost function Pick(m: map<string, nat>): (k: string)
    requires |m| > 0
    ensures k in m
  {
    var k :| k in m; k
  }

  /** The sum of the values of a tally. */
  ghost function SumValues(m: map<string, nat>): nat
    decreases |m|
  {
    if |m| == 0 then 0
    else
      var k := Pick(m);
      assert |(m - {k}).Keys| < |m.Keys| by {
        assert (m - {k}).Keys == m.Keys - {k};
      }
      m[k] + SumValues(m - {k})
  }

  /** One iteration of the loop: a row without feedback, or with a helper
      match, adds one to the invalid count; any other row is appended to the
      participants and tallied. */
  function Step(state: Verification, student: Row, feedback: Grid, helper: Grid): (next: Verification)
    ensures |next.participants| + next.stats.invalidCount ==
      |state.participants| + state.stats.invalidCount + 1
    ensures next.participants == state.participants + [student] ||
      (next.participants == state.participants && next.stats.courseTurnup == state.stats.courseTurnup)
  {
    if Classify(student, feedback, helper) == Valid then
      Verification(state.participants + [student],
        state.stats.(courseTurnup := Bump(state.stats.courseTurnup, student)))
    else
      Verification(state.participants, state.stats.(invalidCount := state.stats.invalidCount + 1))
  }

  /** The loop's result after processing `rows` in order, from no
      participants, 0 invalid and an empty turnup record. */
  function Run(rows: Grid, feedback: Grid, helper: Grid): Verification
  {
    if |rows| == 0 then Verification([], Stats(0, map[]))
    else Step(Run(rows[..|rows| - 1], feedback, helper), rows[|rows| - 1], feedback, helper)
  }

  /** Running the loop over `rows` yields exactly the passing rows, in order,
      and the number of failing rows. */
  lemma {:induction false} RunMeaning(rows: Grid, feedback: Grid, helper: Grid)
    ensures Run(rows, feedback, helper).participants == Accepted(rows, feedback, helper)
    ensures Run(rows, feedback, helper).stats.invalidCount == Rejected(rows, feedback, helper)
  {
    if |rows| > 0 {
      RunMeaning(rows[..|rows| - 1], feedback, helper);
    }
  }

  /** The turnup record of a run is the tally of the participants it kept. */
  lemma {:induction false} RunTally(rows: Grid, feedback: Grid, helper: Grid)
    ensures Run(rows, feedback, helper).stats.courseTurnup == Tally(Run(rows, feedback, helper).participants)
  {
    if |rows| > 0 {
      var init := rows[..|rows| - 1];
      RunTally(init, feedback, helper);
      var kept := Run(init, feedback, helper).participants;
      assert (kept + [rows[|rows| - 1]])[..|kept|] == kept;
    }
  }

  /** Processing one more row steps the run by that row. */
  lemma RunPrefix(rows: Grid, i: nat, feedback: Grid, helper: Grid)
    requires i < |rows|
    ensures Run(rows[..i + 1], feedback, helper) == Step(Run(rows[..i], feedback, helper), rows[i], feedback, helper)
  {
    assert rows[..i + 1][..i] == rows[..i];
  }

  /** `verifyParticipants(signupData, feedbackData, helperData)`. The grids
      are values here and are only read. */
  method VerifyParticipants(signupData: Grid, feedbackData: Grid, helperData: Grid)
    returns (result: Verification)
    ensures result.participants == Accepted(Body(signupData), feedbackData, helperData)
    ensures result.stats.invalidCount == Rejected(Body(signupData), feedbackData, helperData)
    ensures result.stats.courseTurnup == Tally(result.participants)
    ensures |result.participants| + result.stats.invalidCount == |Body(signupData)|
    ensures |signupData| <= 1 ==> result.participants == [] && result.stats.invalidCount == 0
    ensures forall c :: c in result.stats.courseTurnup ==>
      result.stats.courseTurnup[c] == CourseCount(result.participants, c) >= 1
  {
    var participantArray: Grid := [];
    var invalidCount: nat := 0;
    var courseTurnup: map<string, nat> := map[];
    var rows := Body(signupData);

    for i := 0 to |rows|
      invariant Verification(participantArray, Stats(invalidCount, courseTurnup)) == Run(rows[..i], feedbackData, helperData)
    {
      var student := rows[i];
      RunPrefix(rows, i, feedbackData, helperData);
      var studentAdminNum := Cell(student, SignupKey);
      var feedbackEntry := Find(feedbackData, FeedbackKey, studentAdminNum);
      var helperEntry := Find(helperData, HelperKey, studentAdminNum);

      if feedbackEntry.None? {
        invalidCount := invalidCount + 1;
        continue;
      } else if helperEntry.Some? {
        invalidCount := invalidCount + 1;
        continue;
      }

      var courseName := Cell(student, CourseColumn);
      if courseName.Some? && courseName.value != "" {
        var c := courseName.value;
        courseTurnup := courseTurnup[c := (if c in courseTurnup then courseTurnup[c] else 0) + 1];
      }
      participantArray := participantArray + [student];
    }
    assert rows[..|rows|] == rows;
    result := Verification(participantArray, Stats(invalidCount, courseTurnup));
    RunMeaning(rows, feedbackData, helperData);
    RunTally(rows, feedbackData, helperData);
    TallyPositive(participantArray);
    Partition(rows, feedbackData, helperData);
  }

  /** Every processed signup row is counted exactly once: as a participant
      or as invalid. */
  lemma Partition(rows: Grid, feedback: Grid, helper: Grid)
    ensures |Accepted(rows, feedback, helper)| + Rejected(rows, feedback, helper) == |rows|
  {
    FilterCountPartition(rows,
      (student: Row) => Classify(student, feedback, helper) == Valid,
      (student: Row) => Classify(student, feedback, helper) != Valid);
  }

  /** A row is a participant exactly when some feedback row (header included)
      carries its admin number in column 3 and no helper row carries it in
      column 4. */
  lemma AcceptedIff(rows: Grid, feedback: Grid, helper: Grid, student: Row)
    ensures student in Accepted(rows, feedback, helper) <==>
      student in rows
      && HasMatch(feedback, FeedbackKey, Cell(student, SignupKey))
      && !HasMatch(helper, HelperKey, Cell(student, SignupKey))
  {
    FilterMembership(rows, (s: Row) => Classify(s, feedback, helper) == Valid, student);
    ClassifyMeaning(student, feedback, helper);
  }

  /** Admin numbers are compared as `===` compares cells: a signup row too
      short to hold an admin number matches every feedback row too short to
      hold one (two `undefined`s are equal), so it is accepted when no helper
      row is that short. */
  lemma MissingAdminNumbersMatch(student: Row, feedback: Grid, helper: Grid, j: nat)
    requires |student| <= SignupKey
    requires j < |feedback| && |feedback[j]| <= FeedbackKey
    requires forall k :: 0 <= k < |helper| ==> |helper[k]| > HelperKey
    ensures Classify(student, feedback, helper) == Valid
  {
    ClassifyMeaning(student, feedback, helper);
    assert Cell(feedback[j], FeedbackKey) == Cell(student, SignupKey);
    assert !HasMatch(helper, HelperKey, Cell(student, SignupKey)) by {
      forall k | 0 <= k < |helper|
        ensures Cell(helper[k], HelperKey) != Cell(student, SignupKey)
      {
        assert Cell(helper[k], HelperKey).Some?;
      }
    }
  }

  /** The participants are the signup rows in their original order, each
      passing row kept unchanged with all its repetitions, every other row
      dropped. */
  lemma AcceptedInOrder(rows: Grid, feedback: Grid, helper: Grid, student: Row)
    ensures IsSubsequence(Accepted(rows, feedback, helper), rows)
    ensures multiset(Accepted(rows, feedback, helper))[student] ==
      if Classify(student, feedback, helper) == Valid then multiset(rows)[student] else 0
  {
    var valid := (s: Row) => Classify(s, feedback, helper) == Valid;
    FilterIsSubsequence(rows, valid);
    FilterMultiset(rows, valid, student);
  }

  /** A course is a key of the tally exactly when some participant carries
      it as a non-empty label, and its value is the number of such
      participants; the empty label is never a key. */
  lemma {:induction false} TallyCounts(participants: Grid, c: string)
    ensures c in Tally(participants) <==> CourseCount(participants, c) > 0
    ensures c in Tally(participants) ==> Tally(participants)[c] == CourseCount(participants, c)
    ensures "" !in Tally(participants)
  {
    if |participants| > 0 {
      TallyCounts(participants[..|participants| - 1], c);
    }
  }

  /** Every entry of the tally is the count of its course, hence at least 1. */
  lemma TallyPositive(participants: Grid)
    ensures forall c :: c in Tally(participants) ==>
      Tally(participants)[c] == CourseCount(participants, c) >= 1
  {
    forall c | c in Tally(participants)
      ensures Tally(participants)[c] == CourseCount(participants, c) >= 1
    {
      TallyCounts(participants, c);
    }
  }

  /** Removing one key from a tally removes exactly its value from the sum. */
  lemma {:induction false} SumValuesRemove(m: map<string, nat>, k: string)
    requires k in m
    ensures SumValues(m) == m[k] + SumValues(m - {k})
    decreases |m|
  {
    var k' := Pick(m);
    if k' != k {
      var a, b := m - {k'}, m - {k};
      assert a.Keys == m.Keys - {k'} && b.Keys == m.Keys - {k};
      assert k in a && k' in b;
      SumValuesRemove(a, k);
      SumValuesRemove(b, k');
      assert a - {k} == b - {k'};
    }
  }

  /** Bumping one entry of a tally (creating it at 1 when absent) adds one
      to the sum. */
  lemma SumValuesBump(m: map<string, nat>, c: string)
    ensures SumValues(m[c := (if c in m then m[c] else 0) + 1]) == SumValues(m) + 1
  {
    var next := m[c := (if c in m then m[c] else 0) + 1];
    SumValuesRemove(next, c);
    if c in m {
      SumValuesRemove(m, c);
      assert next - {c} == m - {c};
    } else {
      assert next - {c} == m;
    }
  }

  /** The tally values sum to the number of participants with a non-empty
      course label. */
  lemma {:induction false} TallySum(participants: Grid)
    ensures SumValues(Tally(participants)) == LabelledCount(participants)
  {
    if |participants| > 0 {
      var init := participants[..|participants| - 1];
      TallySum(init);
      match Course(participants[|participants| - 1])
      case Some(c) => SumValuesBump(Tally(init), c);
      case None =>
    }
  }
}
