// The rules of the learning engines in the fields of their inputs: which observations count, what
// makes a candidate eligible, and which lessons need whose approval.
module LessonMeaning {
  import opened Wrappers
  import opened PatternEvidence
  import opened LessonGovernance
  import opened LessonRuns
  import StepPlanning

  // ---------- Observations ----------

  // An observation counts exactly when it names a project, is no talk of agents or users, and has a
  // finding left once that is normalised. It then adds one to one pattern and touches no other.
  lemma CountsExactlyWhen(t: Text, ps: Patterns, o: Observation)
    ensures var next := Observed(t, ps, o);
            && (next != ps <==>
                && StepPlanning.Trim(o.projectId) != "" && o.source !in {"AGENT_CONVERSATION", "USER_CHAT"}
                && t.normalize(o.findingText) != "")
            && (next != ps ==>
                  && KeyOf(t, o) in next
                  && next[KeyOf(t, o)].recurrenceCount == 1 + (if KeyOf(t, o) in ps then ps[KeyOf(t, o)].recurrenceCount else 0)
                  && next.Keys == ps.Keys + {KeyOf(t, o)}
                  && (forall key | key in ps && key != KeyOf(t, o) :: next[key] == ps[key]))
  {
    hide KeyOf, StepPlanning.Trim, Add, Signature;
    var next := Observed(t, ps, o);
    if Accepted(t, o) {
      assert next[KeyOf(t, o)].recurrenceCount == 1 + (if KeyOf(t, o) in ps then ps[KeyOf(t, o)].recurrenceCount else 0);
    }
  }

  // What the first observation of a pattern makes of it, and what later ones leave alone.
  lemma PatternFields(t: Text, o: Observation, p: Pattern, later: Observation)
    ensures var q := NewPattern(t, o);
            && q.tenantId == (if StepPlanning.Trim(o.tenantId) == "" then "pub-dev-loop" else StepPlanning.Trim(o.tenantId))
            && q.projectId == StepPlanning.Trim(o.projectId)
            && q.component == StepPlanning.Trim(if o.component == "" then "general" else o.component)
            && q.taskType == StepPlanning.Trim(if o.taskType == "" then "task" else o.taskType)
            && q.ruleId == (if StepPlanning.Trim(o.ruleId) == "" then "" else t.upper(StepPlanning.Trim(o.ruleId)))
            && q.remediation == (if o.remediationText == "" then "" else t.normalize(o.remediationText))
            && KeyOf(t, o) == q.tenantId + ":" + q.projectId + ":" + q.signature
    ensures var r := Reinforced(p, later);
            && r.tenantId == p.tenantId && r.projectId == p.projectId && r.component == p.component && r.taskType == p.taskType
            && r.ruleId == p.ruleId && r.remediation == p.remediation && r.signature == p.signature && r.status == p.status
  {
    hide StepPlanning.Trim;
  }

  // Observations belong to the same pattern when their trimmed fields agree; a missing tenant,
  // component and task type read as pub-dev-loop, general and task, and of the rule only its upper
  // case counts.
  lemma SamePattern(t: Text, a: Observation, b: Observation)
    requires StepPlanning.Trim(if StepPlanning.Trim(a.tenantId) == "" then "pub-dev-loop" else a.tenantId)
          == StepPlanning.Trim(if StepPlanning.Trim(b.tenantId) == "" then "pub-dev-loop" else b.tenantId)
    requires StepPlanning.Trim(a.projectId) == StepPlanning.Trim(b.projectId)
    requires StepPlanning.Trim(if a.component == "" then "general" else a.component)
          == StepPlanning.Trim(if b.component == "" then "general" else b.component)
    requires StepPlanning.Trim(if a.taskType == "" then "task" else a.taskType)
          == StepPlanning.Trim(if b.taskType == "" then "task" else b.taskType)
    requires StepPlanning.Trim(a.ruleId) == "" <==> StepPlanning.Trim(b.ruleId) == ""
    requires StepPlanning.Trim(a.ruleId) != "" ==> t.upper(StepPlanning.Trim(a.ruleId)) == t.upper(StepPlanning.Trim(b.ruleId))
    requires t.normalize(a.findingText) == t.normalize(b.findingText)
    requires a.remediationText == "" <==> b.remediationText == ""
    requires a.remediationText != "" ==> t.normalize(a.remediationText) == t.normalize(b.remediationText)
    ensures KeyOf(t, a) == KeyOf(t, b)
  {
    hide StepPlanning.Trim;
    DefaultTenant();
  }

  lemma DefaultTenant()
    ensures StepPlanning.Trim("pub-dev-loop") == "pub-dev-loop"
  {
    assert !StepPlanning.IsSpace('p');
  }

  // ---------- Candidates ----------

  // What an evaluation decides: blocked patterns block, rejections and blocks stay, and otherwise
  // three tasks, a verified remediation, a confirmation and no open contradiction make a candidate
  // eligible. The CEO is needed for architecture and security.
  lemma EvaluationMeaning(before: Option<Candidate>, p: Pattern, contradiction: Contradiction)
    ensures var c := Evaluated(before, p, contradiction);
            var k := p.corroboration;
            && (c.status == BlockedCandidate <==>
                p.status == PatternEvidence.Blocked || (before.Some? && before.value.status == BlockedCandidate))
            && (c.status == Rejected <==> p.status != PatternEvidence.Blocked && before.Some? && before.value.status == Rejected)
            && (c.status !in {BlockedCandidate, Rejected} ==>
                  c.status == if && k.independentTaskCount >= 3 && k.remediationVerifiedCount >= 1
                                 && (k.reviewerConfirmedCount >= 1 || k.qaConfirmedCount >= 1)
                                 && contradiction in {Clean, ContextDependent}
                              then Eligible else Proposed)
            && c.taskIds == p.taskIds && c.corroboration == p.corroboration && c.contradiction == contradiction
            && (c.requiresCEOApproval <==> TypeOf(p) in {ArchitectureGuidance, SecurityGuidance})
            && (before.None? ==>
                  var tenant := if p.tenantId == "" then "pub-dev-loop" else p.tenantId;
                  && c.kind == TypeOf(p) && c.scope == ProjectScope && c.tenantId == tenant
                  && c.key == tenant + ":" + p.projectId + ":" + p.signature)
            && (before.Some? ==>
                  && c.kind == before.value.kind && c.scope == before.value.scope
                  && c.key == before.value.key && c.tenantId == before.value.tenantId)
  {
    hide TypeOf;
  }

  ghost predicate Mentions(s: string, part: string) {
    exists i :: 0 <= i <= |s| && part <= s[i..]
  }

  lemma {:induction false} IncludesMeans(s: string, part: string)
    ensures Includes(s, part) <==> Mentions(s, part)
  {
    if part <= s {
      assert part <= s[0..];
    } else if s == "" {
      assert forall i :: 0 <= i <= |s| ==> s[i..] == s;
    } else {
      IncludesMeans(s[1..], part);
      if i :| 0 <= i <= |s[1..]| && part <= s[1..][i..] {
        assert s[1..][i..] == s[i + 1..];
      }
      if i :| 0 <= i <= |s| && part <= s[i..] {
        assert s[0..] == s;
        assert s[i..] == s[1..][i - 1..];
      }
    }
  }

  // Security by the rule, then architecture by the component, then testing by the type of the task.
  lemma KindExactlyWhen(p: Pattern)
    ensures var security := "RULE_SEC_" <= p.ruleId || Mentions(p.ruleId, "AUTH");
            var architecture := Mentions(p.component, "arch") || Mentions(p.component, "schema") || Mentions(p.component, "migration");
            var testing := Mentions(p.taskType, "test") || Mentions(p.taskType, "qa");
            && (TypeOf(p) == SecurityGuidance <==> security)
            && (TypeOf(p) == ArchitectureGuidance <==> !security && architecture)
            && (TypeOf(p) == TestingPractice <==> !security && !architecture && testing)
            && (TypeOf(p) == OperationalPractice <==> !security && !architecture && !testing)
  {
    hide Includes, Mentions;
    IncludesMeans(p.ruleId, "AUTH");
    IncludesMeans(p.component, "arch");
    IncludesMeans(p.component, "schema");
    IncludesMeans(p.component, "migration");
    IncludesMeans(p.taskType, "test");
    IncludesMeans(p.taskType, "qa");
  }

  // ---------- Lessons ----------

  // Without the CEO a lesson is made exactly of an eligible, uncontradicted candidate that concerns
  // neither security nor architecture nor everybody.
  lemma OperationalExactlyWhen(c: Candidate)
    ensures var r := OperationalOutcome(c);
            && (r.Success? <==>
                && c.status == Eligible && c.contradiction != Unresolved
                && c.kind !in {SecurityGuidance, ArchitectureGuidance} && c.scope != GlobalScope)
            && (r.Success? ==>
                  && r.value.key == c.key && r.value.taskIds == c.taskIds && r.value.scope == c.scope && !r.value.approvedByCEO
                  && r.value.kind == if c.kind == TestingPractice then TestingLesson else OperationalLesson)
            && (r == Failure(CandidateBlocked) <==> c.status == BlockedCandidate)
            && (r == Failure(CandidateRejected) <==> c.status == Rejected)
            && (r == Failure(CandidateIneligible) <==> c.status in {Proposed, SupersededCandidate})
            && (r == Failure(ActiveContradiction) <==> c.status == Eligible && c.contradiction == Unresolved)
  {
  }

  // With the CEO one is made of every eligible, uncontradicted candidate of the CEO's own tenant,
  // for the scope the CEO chooses, or the candidate's.
  lemma ApprovalExactlyWhen(c: Candidate, ceo: Principal, targetScope: Option<Scope>)
    ensures var r := CEOOutcome(c, ceo, targetScope);
            var tenant := if ceo.tenantId in {None, Some("")} then "pub-dev-loop" else ceo.tenantId.value;
            && (r.Success? <==> ceo.isCEO && c.tenantId == tenant && c.status == Eligible && c.contradiction != Unresolved)
            && (r.Success? ==>
                  && r.value.key == c.key && r.value.taskIds == c.taskIds && r.value.approvedByCEO
                  && r.value.scope == (if targetScope.Some? then targetScope.value else c.scope)
                  && (r.value.kind == SecurityLesson <==> c.kind == SecurityGuidance)
                  && (r.value.kind == ArchitectureLesson <==> c.kind == ArchitectureGuidance)
                  && (r.value.kind == StrategicLesson <==>
                      c.kind !in {SecurityGuidance, ArchitectureGuidance} && c.scope == GlobalScope))
            && (r == Failure(Forbidden) <==> !ceo.isCEO)
            && (r == Failure(OtherTenant) <==> ceo.isCEO && c.tenantId != tenant)
  {
  }

  // ---------- Over whole runs ----------

  // A lesson's kind follows from its pattern.
  ghost predicate KindFits(s: State, l: Lesson) {
    && l.key in s.patterns
    && (TypeOf(s.patterns[l.key]) == SecurityGuidance <==> l.kind == SecurityLesson)
    && (TypeOf(s.patterns[l.key]) == ArchitectureGuidance <==> l.kind == ArchitectureLesson)
  }

  lemma PatternsKeepKind(t: Text, s: State, op: LessonRuns.Operation, key: string)
    requires key in s.patterns
    ensures key in After(t, s, op).patterns && TypeOf(After(t, s, op).patterns[key]) == TypeOf(s.patterns[key])
  {
    hide TypeOf, Evaluated, Reinforced, NewPattern, KeyOf, Accepted, CandidatesAfter, OperationalOutcome, CEOOutcome;
    if op.Observe? && key == KeyOf(t, op.o) {
      ReinforcedKeyed(s.patterns[key], op.o);
    }
  }

  lemma NewLessonFits(t: Text, ops: seq<LessonRuns.Operation>, key: string, l: Lesson)
    requires key in AfterAll(t, ops).candidates
    requires var c := AfterAll(t, ops).candidates[key];
             OperationalOutcome(c) == Success(l) || exists ceo, scope :: CEOOutcome(c, ceo, scope) == Success(l)
    ensures KindFits(AfterAll(t, ops), l)
  {
    var c := AfterAll(t, ops).candidates[key];
    RunTracks(t, ops);
    CandidatesKeepKey(t, ops, key);
    MatchedKind(c, AfterAll(t, ops).patterns[key]);
    OperationalExactlyWhen(c);
    if ceo, scope :| CEOOutcome(c, ceo, scope) == Success(l) {
      ApprovalExactlyWhen(c, ceo, scope);
    }
    hide OperationalOutcome, CEOOutcome, TypeOf, AfterAll, Matches, Keyed;
  }

  lemma {:induction false} KindsFit(t: Text, ops: seq<LessonRuns.Operation>)
    ensures forall l | l in AfterAll(t, ops).lessons :: KindFits(AfterAll(t, ops), l)
  {
    hide KindFits, Observed, CandidatesAfter, Evaluated, CandidateKey, OperationalOutcome, CEOOutcome;
    if ops != [] {
      var front, op := ops[..|ops| - 1], ops[|ops| - 1];
      KindsFit(t, front);
      forall l | l in AfterAll(t, ops).lessons
        ensures KindFits(AfterAll(t, ops), l)
      {
        if l !in AfterAll(t, front).lessons {
          NewLessonFits(t, front, op.key, l);
        }
        StillFits(t, AfterAll(t, front), op, l);
      }
    }
  }

  lemma StillFits(t: Text, s: State, op: LessonRuns.Operation, l: Lesson)
    requires KindFits(s, l)
    ensures KindFits(After(t, s, op), l)
  {
    PatternsKeepKind(t, s, op, l.key);
    hide TypeOf, After;
  }

  // In every run a lesson whose pattern names a security or authorisation rule, or an architecture,
  // schema or migration component, was approved by the CEO.
  lemma SensitivePatternsNeedTheCEO(t: Text, ops: seq<LessonRuns.Operation>, l: Lesson)
    requires l in AfterAll(t, ops).lessons
    ensures l.key in AfterAll(t, ops).patterns
    ensures var p := AfterAll(t, ops).patterns[l.key];
            || "RULE_SEC_" <= p.ruleId || Mentions(p.ruleId, "AUTH")
            || Mentions(p.component, "arch") || Mentions(p.component, "schema") || Mentions(p.component, "migration")
            ==> l.approvedByCEO
  {
    KindsFit(t, ops);
    LessonsAreWellFounded(t, ops);
    assert KindFits(AfterAll(t, ops), l) && WellFounded(t, l, Observations(ops));
    KindExactlyWhen(AfterAll(t, ops).patterns[l.key]);
    hide AfterAll, Mentions, TypeOf;
  }
}
