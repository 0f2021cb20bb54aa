// From patterns to lesson candidates to institutional lessons (src/office/pattern-detection.ts,
// src/office/lesson-candidate.ts, src/office/lesson-validation.ts).
module LessonGovernance {
  import opened Wrappers
  import opened PatternEvidence
  import StepPlanning

  datatype CandidateStatus = Proposed | Eligible | BlockedCandidate | Rejected | SupersededCandidate

  datatype CandidateType =
    | OperationalPractice | FailurePattern | RemediationPattern | TestingPractice | ArchitectureGuidance | SecurityGuidance

  datatype Contradiction = Clean | ContextDependent | Unresolved

  datatype Scope = ProjectScope | AgentScope | TaskScope | GlobalScope

  datatype Candidate = Candidate(
    key: string, tenantId: string, status: CandidateStatus, kind: CandidateType, scope: Scope, taskIds: seq<string>,
    corroboration: Corroboration, contradiction: Contradiction, requiresCEOApproval: bool)

  datatype LessonType = OperationalLesson | TestingLesson | ArchitectureLesson | SecurityLesson | StrategicLesson

  datatype Lesson = Lesson(key: string, kind: LessonType, scope: Scope, taskIds: seq<string>, approvedByCEO: bool)

  datatype Principal = Principal(isCEO: bool, tenantId: Option<string>)

  datatype LessonError =
    | CandidateBlocked | CandidateRejected | CandidateIneligible | ActiveContradiction | NeedsCEO | Forbidden | OtherTenant

  // ---------- Candidates ----------

  predicate Includes(s: string, part: string) {
    part <= s || (s != "" && Includes(s[1..], part))
  }

  function TypeOf(p: Pattern): CandidateType {
    if "RULE_SEC_" <= p.ruleId || Includes(p.ruleId, "AUTH") then SecurityGuidance
    else if Includes(p.component, "arch") || Includes(p.component, "schema") || Includes(p.component, "migration") then
      ArchitectureGuidance
    else if Includes(p.taskType, "test") || Includes(p.taskType, "qa") then TestingPractice
    else OperationalPractice
  }

  predicate EnoughEvidence(c: Corroboration) {
    c.independentTaskCount >= 3 && c.remediationVerifiedCount >= 1 && (c.reviewerConfirmedCount >= 1 || c.qaConfirmedCount >= 1)
  }

  predicate IsEligible(p: Pattern, contradiction: Contradiction) {
    EnoughEvidence(p.corroboration) && contradiction != Unresolved && p.status != Blocked
  }

  function NextStatus(before: Option<Candidate>, p: Pattern, contradiction: Contradiction): CandidateStatus {
    if p.status == Blocked then BlockedCandidate
    else if before.Some? && before.value.status == Rejected then Rejected
    else if before.Some? && before.value.status == BlockedCandidate then BlockedCandidate
    else if IsEligible(p, contradiction) then Eligible
    else Proposed
  }

  function CandidateKey(p: Pattern): string {
    PatternKey(Or(p.tenantId, "pub-dev-loop"), p.projectId, p.signature)
  }

  function NeedsApproval(kind: CandidateType): bool {
    kind == ArchitectureGuidance || kind == SecurityGuidance
  }

  function Evaluated(before: Option<Candidate>, p: Pattern, contradiction: Contradiction): Candidate {
    var status, approval := NextStatus(before, p, contradiction), NeedsApproval(TypeOf(p));
    match before
    case Some(c) =>
      c.(status := status, taskIds := p.taskIds, corroboration := p.corroboration, contradiction := contradiction,
      requiresCEOApproval := approval)
    case None =>
      Candidate(CandidateKey(p), Or(p.tenantId, "pub-dev-loop"), status, TypeOf(p), ProjectScope, p.taskIds, p.corroboration,
                contradiction, approval)
  }

  type Candidates = map<string, Candidate>

  // ---------- Lessons ----------

  datatype Requirement = Requirement(requiresCEO: bool, kind: LessonType, scope: Scope)

  function GovernanceRequirement(c: Candidate): Requirement {
    if c.kind == SecurityGuidance then Requirement(true, SecurityLesson, c.scope)
    else if c.kind == ArchitectureGuidance then Requirement(true, ArchitectureLesson, c.scope)
    else if c.scope == GlobalScope then Requirement(true, StrategicLesson, GlobalScope)
    else if c.kind == TestingPractice then Requirement(false, TestingLesson, c.scope)
    else Requirement(false, OperationalLesson, c.scope)
  }

  function Objection(c: Candidate): Option<LessonError> {
    if c.status == BlockedCandidate then Some(CandidateBlocked)
    else if c.status == Rejected then Some(CandidateRejected)
    else if c.status != Eligible then Some(CandidateIneligible)
    else if c.contradiction == Unresolved then Some(ActiveContradiction)
    else None
  }

  function OperationalOutcome(c: Candidate): Result<Lesson, LessonError> {
    if Objection(c).Some? then Failure(Objection(c).value)
    else
      var r := GovernanceRequirement(c);
      if r.requiresCEO then Failure(NeedsCEO) else Success(Lesson(c.key, r.kind, r.scope, c.taskIds, false))
  }

  function CEOOutcome(c: Candidate, ceo: Principal, targetScope: Option<Scope>): Result<Lesson, LessonError> {
    if !ceo.isCEO then Failure(Forbidden)
    else if c.tenantId != Or(ceo.tenantId.GetOr(""), "pub-dev-loop") then Failure(OtherTenant)
    else if Objection(c).Some? then Failure(Objection(c).value)
    else
      var r := GovernanceRequirement(c);
      Success(Lesson(c.key, r.kind, targetScope.GetOr(r.scope), c.taskIds, true))
  }

  // ---------- The engines ----------

  class LessonCandidateEngine {
    var candidates: Candidates

    constructor ()
      ensures candidates == map[]
    {
      candidates := map[];
    }

    method EvaluateAndUpsertCandidate(p: Pattern, contradiction: Contradiction) returns (r: Option<Candidate>)
      modifies this
      ensures p.projectId == "" ==> r == None && candidates == old(candidates)
      ensures p.projectId != "" ==>
                && r == Some(Evaluated(Get(old(candidates), CandidateKey(p)), p, contradiction))
                && candidates == old(candidates)[CandidateKey(p) := r.value]
    {
      if p.projectId == "" {
        return None;
      }
      var key := CandidateKey(p);
      var kind := TypeOf(p);
      var eligible := IsEligible(p, contradiction);
      var status := Proposed;
      if p.status == Blocked {
        status := BlockedCandidate;
      } else if key in candidates && candidates[key].status == Rejected {
        status := Rejected;
      } else if key in candidates && candidates[key].status == BlockedCandidate {
        status := BlockedCandidate;
      } else if eligible {
        status := Eligible;
      }
      if key in candidates {
        candidates := candidates[key := candidates[key].(
          status := status, taskIds := p.taskIds, corroboration := p.corroboration, contradiction := contradiction,
          requiresCEOApproval := NeedsApproval(kind))];
      } else {
        candidates := candidates[key := Candidate(key, Or(p.tenantId, "pub-dev-loop"), status, kind, ProjectScope, p.taskIds,
                                                  p.corroboration, contradiction, NeedsApproval(kind))];
      }
      r := Some(candidates[key]);
    }

    // rejectCandidate, on a candidate of this engine.
    method RejectCandidate(key: string)
      requires key in candidates
      modifies this
      ensures candidates == old(candidates)[key := old(candidates)[key].(status := Rejected)]
    {
      candidates := candidates[key := candidates[key].(status := Rejected)];
    }
  }

  class PatternDetectionEngine {
    const candidateEngine: LessonCandidateEngine
    var patterns: Patterns

    constructor (candidateEngine: LessonCandidateEngine)
      ensures this.candidateEngine == candidateEngine && patterns == map[]
    {
      this.candidateEngine := candidateEngine;
      patterns := map[];
    }

    static method Reinforce(p: Pattern, o: Observation) returns (q: Pattern)
      ensures q == Reinforced(p, o)
    {
      var tasks, agents := Add(p.taskIds, o.taskId), Add(p.agentIds, o.actorId);
      var c := p.corroboration.(observationCount := p.recurrenceCount + 1, independentTaskCount := |tasks|,
                                independentAgentCount := |agents|, independentProjectCount := 1);
      if o.reviewerConfirmed {
        c := c.(reviewerConfirmedCount := c.reviewerConfirmedCount + 1);
      }
      if o.qaConfirmed {
        c := c.(qaConfirmedCount := c.qaConfirmedCount + 1);
      }
      if o.remediationVerified {
        c := c.(remediationVerifiedCount := c.remediationVerifiedCount + 1);
      }
      q := p.(recurrenceCount := p.recurrenceCount + 1, memoryIds := Add(p.memoryIds, o.memoryId),
              eventIds := Add(p.eventIds, o.eventId), taskIds := tasks, agentIds := agents, corroboration := c);
    }

    // The observation is counted, and the candidate of its pattern is evaluated again.
    method ProcessObservation(t: Text, o: Observation) returns (r: Option<Pattern>)
      modifies this, candidateEngine
      ensures patterns == Observed(t, old(patterns), o)
      ensures r == if Accepted(t, o) then Get(patterns, KeyOf(t, o)) else None
      ensures candidateEngine.candidates == CandidatesAfter(t, old(candidateEngine.candidates), patterns, o)
    {
      hide Signature, PatternKey, CandidateKey, NewPattern, Reinforced, Evaluated, StepPlanning.Trim;
      var projectId := StepPlanning.Trim(o.projectId);
      if projectId == "" {
        return None;
      }
      if o.source == "AGENT_CONVERSATION" || o.source == "USER_CHAT" {
        return None;
      }
      if t.normalize(o.findingText) == "" {
        return None;
      }
      var key := PatternKey(Tenant(o), projectId, Signature(t, o));
      var pattern: Pattern;
      if key in patterns {
        pattern := Reinforce(patterns[key], o);
      } else {
        pattern := NewPattern(t, o);
      }
      patterns := patterns[key := pattern];
      var _ := candidateEngine.EvaluateAndUpsertCandidate(pattern, Clean);
      r := Some(pattern);
    }
  }

  class LessonValidationEngine {
    var lessons: seq<Lesson>

    constructor ()
      ensures lessons == []
    {
      lessons := [];
    }

    method ValidateAndInstitutionalizeOperational(c: Candidate) returns (r: Result<Lesson, LessonError>)
      modifies this
      ensures r == OperationalOutcome(c)
      ensures lessons == if r.Success? then old(lessons) + [r.value] else old(lessons)
    {
      if Objection(c).Some? {
        return Failure(Objection(c).value);
      }
      var requirement := GovernanceRequirement(c);
      if requirement.requiresCEO {
        return Failure(NeedsCEO);
      }
      var lesson := Lesson(c.key, requirement.kind, requirement.scope, c.taskIds, false);
      lessons := lessons + [lesson];
      r := Success(lesson);
    }

    method ApproveAndInstitutionalizeByCEO(c: Candidate, ceo: Principal, targetScope: Option<Scope>)
      returns (r: Result<Lesson, LessonError>)
      modifies this
      ensures r == CEOOutcome(c, ceo, targetScope)
      ensures lessons == if r.Success? then old(lessons) + [r.value] else old(lessons)
    {
      if !ceo.isCEO {
        return Failure(Forbidden);
      }
      if c.tenantId != Or(ceo.tenantId.GetOr(""), "pub-dev-loop") {
        return Failure(OtherTenant);
      }
      if Objection(c).Some? {
        return Failure(Objection(c).value);
      }
      var requirement := GovernanceRequirement(c);
      if targetScope.Some? {
        requirement := requirement.(scope := targetScope.value);
      }
      var lesson := Lesson(c.key, requirement.kind, requirement.scope, c.taskIds, true);
      lessons := lessons + [lesson];
      r := Success(lesson);
    }
  }

  function CandidatesAfter(t: Text, cs: Candidates, ps: Patterns, o: Observation): Candidates {
    if Accepted(t, o) && KeyOf(t, o) in ps && ps[KeyOf(t, o)].projectId != "" then
      var p := ps[KeyOf(t, o)];
      cs[CandidateKey(p) := Evaluated(Get(cs, CandidateKey(p)), p, Clean)]
    else cs
  }
}
