// Evidence about recurring findings, counted as it arrives (src/office/pattern-detection.ts).
module PatternEvidence {
  import opened Wrappers
  import StepPlanning

  // A missing optional field reads as "".
  datatype Observation = Observation(
    tenantId: string, projectId: string, component: string, taskType: string, ruleId: string,
    findingText: string, remediationText: string, memoryId: string, eventId: string, taskId: string, actorId: string,
    reviewerConfirmed: bool, qaConfirmed: bool, remediationVerified: bool, source: string)

  // Text normalisation, upper case and the digest of the seven parts are plain functions.
  datatype Text = Text(
    normalize: string -> string,
    upper: string -> string,
    digest: seq<string> -> string)

  datatype Corroboration = Corroboration(
    observationCount: int, independentTaskCount: int, independentAgentCount: int, independentProjectCount: int,
    reviewerConfirmedCount: int, qaConfirmedCount: int, remediationVerifiedCount: int)

  datatype PatternStatus = Active | Superseded | Blocked

  datatype Pattern = Pattern(
    tenantId: string, projectId: string, signature: string, status: PatternStatus, component: string, taskType: string,
    ruleId: string, remediation: string, recurrenceCount: int, memoryIds: seq<string>, eventIds: seq<string>,
    taskIds: seq<string>, agentIds: seq<string>, corroboration: Corroboration)

  // ---------- Which pattern an observation belongs to ----------

  function Or(s: string, fallback: string): string {
    if s != "" then s else fallback
  }

  function Tenant(o: Observation): string {
    Or(StepPlanning.Trim(o.tenantId), "pub-dev-loop")
  }

  function Component(o: Observation): string {
    StepPlanning.Trim(Or(o.component, "general"))
  }

  function TaskType(o: Observation): string {
    StepPlanning.Trim(Or(o.taskType, "task"))
  }

  function RuleId(t: Text, o: Observation): string {
    if StepPlanning.Trim(o.ruleId) != "" then t.upper(StepPlanning.Trim(o.ruleId)) else ""
  }

  function Remediation(t: Text, o: Observation): string {
    if o.remediationText != "" then t.normalize(o.remediationText) else ""
  }

  predicate Accepted(t: Text, o: Observation) {
    && StepPlanning.Trim(o.projectId) != ""
    && o.source != "AGENT_CONVERSATION" && o.source != "USER_CHAT"
    && t.normalize(o.findingText) != ""
  }

  function Signature(t: Text, o: Observation): string {
    t.digest([Tenant(o), StepPlanning.Trim(o.projectId), Component(o), TaskType(o), RuleId(t, o), t.normalize(o.findingText),
              Remediation(t, o)])
  }

  function PatternKey(tenantId: string, projectId: string, signature: string): string {
    tenantId + ":" + projectId + ":" + signature
  }

  function KeyOf(t: Text, o: Observation): string {
    PatternKey(Tenant(o), StepPlanning.Trim(o.projectId), Signature(t, o))
  }

  // ---------- Counting as it arrives ----------

  // Append without duplicates; a missing id is not appended.
  function Add(ids: seq<string>, id: string): seq<string> {
    if id == "" || id in ids then ids else ids + [id]
  }

  function One(b: bool): int {
    if b then 1 else 0
  }

  function NewPattern(t: Text, o: Observation): Pattern {
    var tasks, agents := Add([], o.taskId), Add([], o.actorId);
    Pattern(Tenant(o), StepPlanning.Trim(o.projectId), Signature(t, o), Active, Component(o), TaskType(o), RuleId(t, o),
            Remediation(t, o), 1, Add([], o.memoryId), Add([], o.eventId), tasks, agents,
            Corroboration(1, |tasks|, |agents|, 1, One(o.reviewerConfirmed), One(o.qaConfirmed), One(o.remediationVerified)))
  }

  function Reinforced(p: Pattern, o: Observation): Pattern {
    var tasks, agents, c := Add(p.taskIds, o.taskId), Add(p.agentIds, o.actorId), p.corroboration;
    p.(recurrenceCount := p.recurrenceCount + 1,
    memoryIds := Add(p.memoryIds, o.memoryId), eventIds := Add(p.eventIds, o.eventId), taskIds := tasks, agentIds := agents,
    corroboration := Corroboration(p.recurrenceCount + 1, |tasks|, |agents|, 1,
                                   c.reviewerConfirmedCount + One(o.reviewerConfirmed),
                                   c.qaConfirmedCount + One(o.qaConfirmed),
                                   c.remediationVerifiedCount + One(o.remediationVerified)))
  }

  type Patterns = map<string, Pattern>

  function Observed(t: Text, ps: Patterns, o: Observation): Patterns {
    if !Accepted(t, o) then ps
    else if KeyOf(t, o) in ps then ps[KeyOf(t, o) := Reinforced(ps[KeyOf(t, o)], o)]
    else ps[KeyOf(t, o) := NewPattern(t, o)]
  }

  function ObservedAll(t: Text, log: seq<Observation>): Patterns {
    if log == [] then map[] else Observed(t, ObservedAll(t, log[..|log| - 1]), log[|log| - 1])
  }

  // ---------- Counting the whole log ----------

  function LogOf(t: Text, log: seq<Observation>, key: string): seq<Observation> {
    if log == [] then []
    else
      var last := log[|log| - 1];
      LogOf(t, log[..|log| - 1], key) + (if Accepted(t, last) && KeyOf(t, last) == key then [last] else [])
  }

  function Tasks(log: seq<Observation>): set<string> {
    set i | 0 <= i < |log| && log[i].taskId != "" :: log[i].taskId
  }

  function Agents(log: seq<Observation>): set<string> {
    set i | 0 <= i < |log| && log[i].actorId != "" :: log[i].actorId
  }

  datatype Confirmation = ByReviewer | ByQa | OfRemediation

  predicate Confirms(o: Observation, kind: Confirmation) {
    match kind
    case ByReviewer => o.reviewerConfirmed
    case ByQa => o.qaConfirmed
    case OfRemediation => o.remediationVerified
  }

  // Which of the observations carry the confirmation.
  function Confirmations(log: seq<Observation>, kind: Confirmation): set<nat> {
    set i | 0 <= i < |log| && Confirms(log[i], kind)
  }

  // What the counters of a pattern should be, given its observations.
  function Batch(log: seq<Observation>): Corroboration {
    Corroboration(|log|, |Tasks(log)|, |Agents(log)|, 1,
                  |Confirmations(log, ByReviewer)|, |Confirmations(log, ByQa)|,
                  |Confirmations(log, OfRemediation)|)
  }

  ghost predicate Lists(ids: seq<string>, elements: set<string>) {
    && (forall i, j :: 0 <= i < j < |ids| ==> ids[i] != ids[j])
    && (forall id :: id in ids <==> id in elements)
  }

  ghost predicate CountsOf(p: Pattern, log: seq<Observation>) {
    && p.recurrenceCount == |log| && p.status == Active
    && Lists(p.taskIds, Tasks(log)) && Lists(p.agentIds, Agents(log))
    && p.corroboration == Batch(log)
  }

  lemma {:induction false} ListLength(ids: seq<string>, elements: set<string>)
    requires Lists(ids, elements)
    ensures |ids| == |elements|
  {
    if ids == [] {
      assert elements == {};
    } else {
      var n := |ids| - 1;
      assert forall id :: id in ids <==> id in ids[..n] || id == ids[n];
      ListLength(ids[..n], elements - {ids[n]});
      assert elements == (elements - {ids[n]}) + {ids[n]};
    }
  }

  lemma TasksAppend(log: seq<Observation>, o: Observation)
    ensures Tasks(log + [o]) == if o.taskId == "" then Tasks(log) else Tasks(log) + {o.taskId}
  {
    var next := log + [o];
    assert forall i | 0 <= i < |log| :: next[i] == log[i];
    assert next[|log|] == o;
    forall id | id in Tasks(log)
      ensures id in Tasks(next)
    {
      var i :| 0 <= i < |log| && log[i].taskId != "" && log[i].taskId == id;
      assert next[i].taskId == id;
    }
  }

  lemma AgentsAppend(log: seq<Observation>, o: Observation)
    ensures Agents(log + [o]) == if o.actorId == "" then Agents(log) else Agents(log) + {o.actorId}
  {
    var next := log + [o];
    assert forall i | 0 <= i < |log| :: next[i] == log[i];
    assert next[|log|] == o;
    forall id | id in Agents(log)
      ensures id in Agents(next)
    {
      var i :| 0 <= i < |log| && log[i].actorId != "" && log[i].actorId == id;
      assert next[i].actorId == id;
    }
  }

  lemma ConfirmationsAppend(log: seq<Observation>, o: Observation, kind: Confirmation)
    ensures |Confirmations(log + [o], kind)| == |Confirmations(log, kind)| + One(Confirms(o, kind))
  {
    var next, n := log + [o], |log|;
    assert next[n] == o && forall i | 0 <= i < n :: next[i] == log[i];
    assert Confirmations(next, kind) == Confirmations(log, kind) + if Confirms(o, kind) then {n} else {};
  }

  lemma AddLists(ids: seq<string>, elements: set<string>, id: string)
    requires Lists(ids, elements)
    ensures Lists(Add(ids, id), if id == "" then elements else elements + {id})
  {
  }

  lemma NewCounts(t: Text, o: Observation)
    ensures CountsOf(NewPattern(t, o), [o])
  {
    hide Tasks, Agents, Confirmations;
    NothingCounted();
    TasksAppend([], o);
    AgentsAppend([], o);
    ConfirmationsAppend([], o, ByReviewer);
    ConfirmationsAppend([], o, ByQa);
    ConfirmationsAppend([], o, OfRemediation);
    assert [] + [o] == [o];
    AddLists([], {}, o.taskId);
    AddLists([], {}, o.actorId);
    ListLength(Add([], o.taskId), Tasks([o]));
    ListLength(Add([], o.actorId), Agents([o]));
  }

  lemma NothingCounted()
    ensures Tasks([]) == {} && Agents([]) == {}
    ensures forall kind :: Confirmations([], kind) == {}
  {
  }

  lemma ReinforcedCounts(p: Pattern, log: seq<Observation>, o: Observation)
    requires CountsOf(p, log)
    ensures CountsOf(Reinforced(p, o), log + [o])
  {
    hide Tasks, Agents, Confirmations, Lists, Add;
    TasksAppend(log, o);
    AgentsAppend(log, o);
    ConfirmationsAppend(log, o, ByReviewer);
    ConfirmationsAppend(log, o, ByQa);
    ConfirmationsAppend(log, o, OfRemediation);
    AddLists(p.taskIds, Tasks(log), o.taskId);
    AddLists(p.agentIds, Agents(log), o.actorId);
    ListLength(Add(p.taskIds, o.taskId), Tasks(log + [o]));
    ListLength(Add(p.agentIds, o.actorId), Agents(log + [o]));
  }

  // Incremental evidence is batch evidence: after any observations, in any order, each pattern
  // counts exactly the observations of its key.
  lemma {:induction false} IncrementalIsBatch(t: Text, log: seq<Observation>, key: string)
    ensures key in ObservedAll(t, log) <==> LogOf(t, log, key) != []
    ensures key in ObservedAll(t, log) ==> CountsOf(ObservedAll(t, log)[key], LogOf(t, log, key))
  {
    hide CountsOf, NewPattern, Reinforced, KeyOf, Accepted;
    if log != [] {
      var front, o := log[..|log| - 1], log[|log| - 1];
      IncrementalIsBatch(t, front, key);
      if Accepted(t, o) && KeyOf(t, o) == key {
        if key in ObservedAll(t, front) {
          ReinforcedCounts(ObservedAll(t, front)[key], LogOf(t, front, key), o);
        } else {
          NewCounts(t, o);
          assert LogOf(t, log, key) == [] + [o] == [o];
        }
      } else {
        assert LogOf(t, log, key) == LogOf(t, front, key);
      }
    }
  }

  // ---------- The other identifiers ----------

  datatype Source = OfMemory | OfEvent

  function IdOf(o: Observation, source: Source): string {
    match source
    case OfMemory => o.memoryId
    case OfEvent => o.eventId
  }

  function Sources(log: seq<Observation>, source: Source): set<string> {
    set i | 0 <= i < |log| && IdOf(log[i], source) != "" :: IdOf(log[i], source)
  }

  lemma SourcesAppend(log: seq<Observation>, o: Observation, source: Source)
    ensures Sources(log + [o], source) == if IdOf(o, source) == "" then Sources(log, source) else Sources(log, source) + {IdOf(o, source)}
  {
    var next := log + [o];
    assert next[|log|] == o;
    forall id | id in Sources(log, source)
      ensures id in Sources(next, source)
    {
      var i :| 0 <= i < |log| && IdOf(log[i], source) != "" && IdOf(log[i], source) == id;
      assert next[i] == log[i];
    }
    forall id | id in Sources(next, source)
      ensures id in Sources(log, source) || id == IdOf(o, source)
    {
      var i :| 0 <= i < |next| && IdOf(next[i], source) != "" && IdOf(next[i], source) == id;
      assert i < |log| ==> next[i] == log[i];
    }
  }

  // After any observations each pattern lists exactly the memories and the events of its log.
  lemma {:induction false} SourcesAreListed(t: Text, log: seq<Observation>, key: string)
    requires key in ObservedAll(t, log)
    ensures var p := ObservedAll(t, log)[key];
            Lists(p.memoryIds, Sources(LogOf(t, log, key), OfMemory)) && Lists(p.eventIds, Sources(LogOf(t, log, key), OfEvent))
  {
    hide KeyOf, Accepted, Lists, Add, Sources, Signature, StepPlanning.Trim;
    var front, o := log[..|log| - 1], log[|log| - 1];
    if Accepted(t, o) && KeyOf(t, o) == key {
      SourcesAppend(LogOf(t, front, key), o, OfMemory);
      SourcesAppend(LogOf(t, front, key), o, OfEvent);
      if key in ObservedAll(t, front) {
        SourcesAreListed(t, front, key);
        var p := ObservedAll(t, front)[key];
        AddLists(p.memoryIds, Sources(LogOf(t, front, key), OfMemory), o.memoryId);
        AddLists(p.eventIds, Sources(LogOf(t, front, key), OfEvent), o.eventId);
      } else {
        IncrementalIsBatch(t, front, key);
        NoSources();
        AddLists([], {}, o.memoryId);
        AddLists([], {}, o.eventId);
      }
    } else {
      SourcesAreListed(t, front, key);
      assert LogOf(t, log, key) == LogOf(t, front, key);
    }
  }

  lemma NoSources()
    ensures forall source :: Sources([], source) == {}
    ensures Lists([], {})
  {
  }
}
