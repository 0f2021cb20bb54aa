// Runs of the learning engines: observations, evaluations, rejections and lessons in any order.
// Nobody changes a pattern's or a candidate's status by hand.
module LessonRuns {
  import opened Wrappers
  import opened PatternEvidence
  import opened LessonGovernance
  import StepPlanning

  datatype Operation =
    | Observe(o: Observation)
    | Evaluate(key: string, contradiction: Contradiction)
    | Reject(key: string)
    | Institutionalize(key: string)
    | Approve(key: string, ceo: Principal, targetScope: Option<Scope>)

  datatype State = State(patterns: Patterns, candidates: Candidates, lessons: seq<Lesson>)

  // An operation on a key that does not exist does nothing.
  function After(t: Text, s: State, op: Operation): State {
    match op
    case Observe(o) =>
      var ps := Observed(t, s.patterns, o);
      s.(patterns := ps, candidates := CandidatesAfter(t, s.candidates, ps, o))
    case Evaluate(key, contradiction) =>
      if key in s.patterns && s.patterns[key].projectId != "" then
        var p := s.patterns[key];
        s.(candidates := s.candidates[CandidateKey(p) := Evaluated(Get(s.candidates, CandidateKey(p)), p, contradiction)])
      else s
    case Reject(key) =>
      if key in s.candidates then s.(candidates := s.candidates[key := s.candidates[key].(status := Rejected)]) else s
    case Institutionalize(key) =>
      if key in s.candidates then WithLesson(s, OperationalOutcome(s.candidates[key])) else s
    case Approve(key, ceo, targetScope) =>
      if key in s.candidates then WithLesson(s, CEOOutcome(s.candidates[key], ceo, targetScope)) else s
  }

  function WithLesson(s: State, r: Result<Lesson, LessonError>): State {
    if r.Success? then s.(lessons := s.lessons + [r.value]) else s
  }

  function AfterAll(t: Text, ops: seq<Operation>): State {
    if ops == [] then State(map[], map[], []) else After(t, AfterAll(t, ops[..|ops| - 1]), ops[|ops| - 1])
  }

  function Observations(ops: seq<Operation>): seq<Observation> {
    if ops == [] then []
    else
      var last := ops[|ops| - 1];
      Observations(ops[..|ops| - 1]) + (if last.Observe? then [last.o] else [])
  }

  // ---------- Candidates follow their patterns ----------

  // A candidate reports the evidence of its pattern, and its status is what that evidence decides.
  ghost predicate Matches(c: Candidate, p: Pattern) {
    && c.taskIds == p.taskIds && c.corroboration == p.corroboration
    && c.requiresCEOApproval == NeedsApproval(TypeOf(p)) && c.kind == TypeOf(p)
    && (c.status == Rejected || c.status == if IsEligible(p, c.contradiction) then Eligible else Proposed)
  }

  ghost predicate Keyed(ps: Patterns) {
    forall key | key in ps :: CandidateKey(ps[key]) == key && ps[key].projectId != "" && ps[key].status == Active
  }

  ghost predicate Tracks(s: State) {
    && Keyed(s.patterns) && s.candidates.Keys == s.patterns.Keys
    && forall key | key in s.candidates :: Matches(s.candidates[key], s.patterns[key])
  }

  lemma NewKeyed(t: Text, o: Observation)
    requires Accepted(t, o)
    ensures CandidateKey(NewPattern(t, o)) == KeyOf(t, o) && NewPattern(t, o).projectId != "" && NewPattern(t, o).status == Active
  {
    hide StepPlanning.Trim, Signature;
  }

  lemma ReinforcedKeyed(p: Pattern, o: Observation)
    ensures CandidateKey(Reinforced(p, o)) == CandidateKey(p)
    ensures Reinforced(p, o).projectId == p.projectId && Reinforced(p, o).status == p.status && TypeOf(Reinforced(p, o)) == TypeOf(p)
  {
    hide PatternKey;
  }

  lemma EvaluatedMatches(before: Option<Candidate>, p: Pattern, contradiction: Contradiction)
    requires p.status == Active && (before.Some? ==> before.value.kind == TypeOf(p) && before.value.status != BlockedCandidate)
    ensures Matches(Evaluated(before, p, contradiction), p)
    ensures Evaluated(before, p, contradiction).contradiction == contradiction
    ensures before.Some? && before.value.status == Rejected ==> Evaluated(before, p, contradiction).status == Rejected
  {
    hide TypeOf;
  }

  lemma ObserveTracks(t: Text, s: State, o: Observation)
    requires Tracks(s)
    ensures Tracks(After(t, s, Observe(o)))
  {
    hide Accepted, KeyOf, CandidateKey, NewPattern, Reinforced, Evaluated, TypeOf, Matches;
    if Accepted(t, o) {
      var key := KeyOf(t, o);
      NewKeyed(t, o);
      if key in s.patterns {
        ReinforcedKeyed(s.patterns[key], o);
        MatchedKind(s.candidates[key], s.patterns[key]);
      }
      EvaluatedMatches(Get(s.candidates, key), Observed(t, s.patterns, o)[key], Clean);
    }
  }

  lemma MatchedKind(c: Candidate, p: Pattern)
    requires Matches(c, p)
    ensures c.kind == TypeOf(p) && c.status != BlockedCandidate
  {
  }

  lemma RejectedMatches(c: Candidate, p: Pattern)
    requires Matches(c, p)
    ensures Matches(c.(status := Rejected), p)
  {
  }

  lemma StepTracks(t: Text, s: State, op: Operation)
    requires Tracks(s)
    ensures Tracks(After(t, s, op))
  {
    hide CandidateKey, Evaluated, TypeOf, Matches, OperationalOutcome, CEOOutcome;
    match op
    case Observe(o) =>
      ObserveTracks(t, s, o);
    case Evaluate(key, contradiction) =>
      if key in s.patterns {
        MatchedKind(s.candidates[key], s.patterns[key]);
        EvaluatedMatches(Get(s.candidates, key), s.patterns[key], contradiction);
      }
    case Reject(key) =>
      if key in s.candidates {
        RejectedMatches(s.candidates[key], s.patterns[key]);
      }
    case Institutionalize(_) =>
    case Approve(_, _, _) =>
  }

  lemma {:induction false} RunTracks(t: Text, ops: seq<Operation>)
    ensures Tracks(AfterAll(t, ops)) && AfterAll(t, ops).patterns == ObservedAll(t, Observations(ops))
  {
    hide Tracks, Observed;
    if ops == [] {
      StartTracks();
    } else {
      var front, last := ops[..|ops| - 1], ops[|ops| - 1];
      RunTracks(t, front);
      StepTracks(t, AfterAll(t, front), last);
      if last.Observe? {
        var log := Observations(front);
        assert (log + [last.o])[..|log|] == log;
      } else {
        assert Observations(front) + [] == Observations(front);
      }
    }
  }

  lemma StartTracks()
    ensures Tracks(State(map[], map[], []))
  {
  }

  // In every run a candidate that nobody rejected is eligible exactly when the log of its pattern
  // has three distinct tasks, a verified remediation and a confirmation by a reviewer or by QA,
  // and no contradiction was raised when it was last evaluated.
  lemma EligibleExactlyWhen(t: Text, ops: seq<Operation>, key: string)
    requires key in AfterAll(t, ops).candidates && AfterAll(t, ops).candidates[key].status != Rejected
    ensures var c := AfterAll(t, ops).candidates[key];
            var log := LogOf(t, Observations(ops), key);
            c.status == Eligible <==>
            && |Tasks(log)| >= 3 && Confirmations(log, OfRemediation) != {}
            && (Confirmations(log, ByReviewer) != {} || Confirmations(log, ByQa) != {})
            && c.contradiction != Unresolved
  {
    hide Tasks, Confirmations, Lists;
    RunTracks(t, ops);
    IncrementalIsBatch(t, Observations(ops), key);
    var log := LogOf(t, Observations(ops), key);
    NonEmpty(Confirmations(log, OfRemediation));
    NonEmpty(Confirmations(log, ByReviewer));
    NonEmpty(Confirmations(log, ByQa));
  }

  lemma NonEmpty(s: set<nat>)
    ensures |s| >= 1 <==> s != {}
  {
  }

  // ---------- Staying eligible, staying rejected ----------

  predicate Harmless(op: Operation, key: string) {
    !(op.Reject? && op.key == key) && !(op.Evaluate? && op.key == key && op.contradiction == Unresolved)
  }

  lemma MoreEvidence(p: Pattern, o: Observation)
    requires IsEligible(p, Clean) && p.corroboration.independentTaskCount == |p.taskIds|
    ensures IsEligible(Reinforced(p, o), Clean)
  {
  }

  // One operation on a state whose candidates track their patterns.
  lemma StatusStep(t: Text, s: State, op: Operation, key: string)
    requires Tracks(s) && key in s.candidates
    requires s.patterns[key].corroboration.independentTaskCount == |s.patterns[key].taskIds|
    ensures key in After(t, s, op).candidates
    ensures s.candidates[key].status == Eligible && Harmless(op, key) ==> After(t, s, op).candidates[key].status == Eligible
    ensures s.candidates[key].status == Rejected ==> After(t, s, op).candidates[key].status == Rejected
  {
    hide CandidateKey, TypeOf, KeyOf, Accepted, Reinforced, NewPattern, OperationalOutcome, CEOOutcome;
    if op.Observe? && Accepted(t, op.o) {
      NewKeyed(t, op.o);
      if KeyOf(t, op.o) in s.patterns {
        ReinforcedKeyed(s.patterns[KeyOf(t, op.o)], op.o);
      }
      if KeyOf(t, op.o) == key && s.candidates[key].status == Eligible {
        MoreEvidence(s.patterns[key], op.o);
      }
    }
  }

  // Evidence only grows: an eligible candidate stays eligible until somebody rejects it or reports
  // an unresolved contradiction; and a rejected one stays rejected whatever happens.
  lemma StatusStays(t: Text, ops: seq<Operation>, op: Operation, key: string)
    requires key in AfterAll(t, ops).candidates
    ensures key in After(t, AfterAll(t, ops), op).candidates
    ensures AfterAll(t, ops).candidates[key].status == Eligible && Harmless(op, key)
            ==> After(t, AfterAll(t, ops), op).candidates[key].status == Eligible
    ensures AfterAll(t, ops).candidates[key].status == Rejected
            ==> After(t, AfterAll(t, ops), op).candidates[key].status == Rejected
  {
    hide AfterAll, After, Tasks, Confirmations, Lists, LogOf, Observations, ObservedAll, Harmless, Matches, Keyed;
    RunTracks(t, ops);
    IncrementalIsBatch(t, Observations(ops), key);
    ListLength(AfterAll(t, ops).patterns[key].taskIds, Tasks(LogOf(t, Observations(ops), key)));
    StatusStep(t, AfterAll(t, ops), op, key);
  }

  lemma {:induction false} StaysEligible(t: Text, ops: seq<Operation>, later: seq<Operation>, key: string)
    requires key in AfterAll(t, ops).candidates && AfterAll(t, ops).candidates[key].status == Eligible
    requires forall op | op in later :: Harmless(op, key)
    ensures key in AfterAll(t, ops + later).candidates && AfterAll(t, ops + later).candidates[key].status == Eligible
  {
    hide Harmless, After;
    if later == [] {
      assert ops + later == ops;
    } else {
      var n := |later| - 1;
      assert later[n] in later && forall op | op in later[..n] :: op in later;
      StaysEligible(t, ops, later[..n], key);
      StatusStays(t, ops + later[..n], later[n], key);
      Extend(t, ops, later);
    }
  }

  lemma Extend(t: Text, ops: seq<Operation>, later: seq<Operation>)
    requires later != []
    ensures AfterAll(t, ops + later) == After(t, AfterAll(t, ops + later[..|later| - 1]), later[|later| - 1])
  {
    hide After;
    var all := ops + later;
    assert all[..|all| - 1] == ops + later[..|later| - 1] && all[|all| - 1] == later[|later| - 1];
  }

  // ---------- Lessons ----------

  predicate Sensitive(l: Lesson) {
    l.kind == SecurityLesson || l.kind == ArchitectureLesson || l.kind == StrategicLesson || l.scope == GlobalScope
  }

  ghost predicate WellFounded(t: Text, l: Lesson, log: seq<Observation>) {
    && |l.taskIds| >= 3 && (forall i, j :: 0 <= i < j < |l.taskIds| ==> l.taskIds[i] != l.taskIds[j])
    && (forall id | id in l.taskIds :: id in Tasks(LogOf(t, log, l.key)))
    && (Sensitive(l) ==> l.approvedByCEO)
  }

  lemma TasksGrow(t: Text, log: seq<Observation>, o: Observation, key: string)
    ensures Tasks(LogOf(t, log, key)) <= Tasks(LogOf(t, log + [o], key))
  {
    hide Accepted, KeyOf;
    assert (log + [o])[..|log|] == log;
    if Accepted(t, o) && KeyOf(t, o) == key {
      TasksAppend(LogOf(t, log, key), o);
    } else {
      assert LogOf(t, log + [o], key) == LogOf(t, log, key) + [] == LogOf(t, log, key);
    }
  }

  lemma MadeWell(t: Text, ops: seq<Operation>, key: string, l: Lesson)
    requires key in AfterAll(t, ops).candidates && l.key == key
    requires l.taskIds == AfterAll(t, ops).candidates[key].taskIds && AfterAll(t, ops).candidates[key].status == Eligible
    requires Sensitive(l) ==> l.approvedByCEO
    ensures WellFounded(t, l, Observations(ops))
  {
    hide Tasks, Confirmations, LogOf;
    RunTracks(t, ops);
    IncrementalIsBatch(t, Observations(ops), key);
    ListLength(l.taskIds, Tasks(LogOf(t, Observations(ops), key)));
  }

  lemma {:induction false} CandidatesKeepKey(t: Text, ops: seq<Operation>, key: string)
    requires key in AfterAll(t, ops).candidates
    ensures AfterAll(t, ops).candidates[key].key == key && AfterAll(t, ops).candidates[key].scope == ProjectScope
  {
    hide Accepted, KeyOf, CandidateKey, TypeOf, NewPattern, Reinforced, OperationalOutcome, CEOOutcome;
    var front := ops[..|ops| - 1];
    RunTracks(t, front);
    RunTracks(t, ops);
    if key in AfterAll(t, front).candidates {
      CandidatesKeepKey(t, front, key);
    }
    EvaluateKeepsKey(t, AfterAll(t, front), ops[|ops| - 1], key);
  }

  lemma EvaluateKeepsKey(t: Text, s: State, op: Operation, key: string)
    requires Keyed(s.patterns) && key in After(t, s, op).candidates
    requires key in s.candidates ==> s.candidates[key].key == key && s.candidates[key].scope == ProjectScope
    ensures After(t, s, op).candidates[key].key == key && After(t, s, op).candidates[key].scope == ProjectScope
  {
    hide Accepted, KeyOf, CandidateKey, TypeOf, NewPattern, Reinforced, OperationalOutcome, CEOOutcome, NextStatus;
  }

  // Every lesson ever made rests on at least three distinct tasks from the log of its pattern, and
  // what concerns security, architecture or everybody was approved by the CEO.
  lemma {:induction false} LessonsAreWellFounded(t: Text, ops: seq<Operation>)
    ensures forall l | l in AfterAll(t, ops).lessons :: WellFounded(t, l, Observations(ops))
  {
    hide WellFounded, CandidatesAfter, Observed, Evaluated, CandidateKey;
    if ops != [] {
      var front, op := ops[..|ops| - 1], ops[|ops| - 1];
      LessonsAreWellFounded(t, front);
      forall l | l in AfterAll(t, ops).lessons
        ensures WellFounded(t, l, Observations(ops))
      {
        if l in AfterAll(t, front).lessons {
          StillWellFounded(t, front, op, l);
          assert ops == front + [op];
        } else {
          CandidatesKeepKey(t, front, op.key);
          MadeWell(t, front, op.key, l);
          assert Observations(ops) == Observations(front) + [] == Observations(front);
        }
      }
    }
  }

  lemma StillWellFounded(t: Text, ops: seq<Operation>, op: Operation, l: Lesson)
    requires WellFounded(t, l, Observations(ops))
    ensures WellFounded(t, l, Observations(ops + [op]))
  {
    hide Tasks, LogOf;
    assert (ops + [op])[..|ops|] == ops;
    if op.Observe? {
      TasksGrow(t, Observations(ops), op.o, l.key);
    } else {
      assert Observations(ops + [op]) == Observations(ops) + [] == Observations(ops);
    }
  }
}
