// Gap analysis, action selection and state update of the mission loop
// (src/office/autonomy-loop.ts).
module MissionLoop {
  import opened Wrappers
  import opened Graphs

  datatype CapabilityStatus = Absent | Partial | Verified | Blocked

  datatype Category = Foundation | Context | Research | Reasoning | Execution | Verification | Feedback

  datatype Capability = Capability(id: string, category: Category, status: CapabilityStatus, dependencies: seq<string>)

  type Capabilities = map<string, Capability>

  datatype Severity = Critical | High | Medium | Low

  datatype Gap = Gap(
    capabilityId: string, currentStatus: CapabilityStatus, blockedBy: seq<string>, isActionable: bool, severity: Severity)

  datatype Risk = LowRisk | MediumRisk | HighRisk | CriticalRisk

  datatype Action =
    | CompleteMission
    | BlockedReview
    | Advance(target: string, verifyOnly: bool, priority: nat, risk: Risk)

  predicate IsVerified(caps: Capabilities, id: string) {
    id in caps && caps[id].status == Verified
  }

  function Unsatisfied(caps: Capabilities, deps: seq<string>): (r: seq<string>)
    ensures forall d :: d in r <==> d in deps && !IsVerified(caps, d)
    ensures r == [] <==> forall d :: d in deps ==> IsVerified(caps, d)
  {
    if deps == [] then []
    else (if IsVerified(caps, deps[0]) then [] else [deps[0]]) + Unsatisfied(caps, deps[1..])
  }

  function SeverityOf(category: Category): Severity {
    match category
    case Foundation => Critical
    case Context => Critical
    case Research => High
    case Feedback => High
    case _ => Medium
  }

  // The gap reported for one target, if any.
  function GapsOf(caps: Capabilities, target: string): (r: seq<Gap>)
    ensures |r| <= 1 && (r == [] <==> IsVerified(caps, target))
  {
    if target !in caps then [Gap(target, Absent, [], true, High)]
    else
      var c := caps[target];
      if c.status == Verified then []
      else
        var blockers := Unsatisfied(caps, c.dependencies);
        [Gap(c.id, c.status, blockers, |blockers| == 0, SeverityOf(c.category))]
  }

  function Gaps(caps: Capabilities, targets: seq<string>): seq<Gap> {
    if targets == [] then []
    else Gaps(caps, targets[..|targets| - 1]) + GapsOf(caps, targets[|targets| - 1])
  }

  lemma GapsMore(caps: Capabilities, targets: seq<string>, i: nat)
    requires i < |targets|
    ensures Gaps(caps, targets[..i + 1]) == Gaps(caps, targets[..i]) + GapsOf(caps, targets[i])
  {
    assert targets[..i + 1][..i] == targets[..i];
  }

  lemma NoGaps(caps: Capabilities)
    ensures Gaps(caps, []) == []
  {
  }

  method AnalyzeGaps(caps: Capabilities, targets: seq<string>) returns (gaps: seq<Gap>)
    ensures gaps == Gaps(caps, targets)
  {
    hide Gaps, Unsatisfied;
    gaps := [];
    NoGaps(caps);
    for i := 0 to |targets|
      invariant gaps == Gaps(caps, targets[..i])
    {
      GapsMore(caps, targets, i);
      var targetId := targets[i];
      if targetId !in caps {
        gaps := gaps + [Gap(targetId, Absent, [], true, High)];
        continue;
      }
      var capability := caps[targetId];
      if capability.status != Verified {
        var unsatisfiedDeps := Unsatisfied(caps, capability.dependencies);
        var severity := Medium;
        if capability.category == Foundation || capability.category == Context {
          severity := Critical;
        } else if capability.category == Research || capability.category == Feedback {
          severity := High;
        }
        gaps := gaps + [Gap(capability.id, capability.status, unsatisfiedDeps, |unsatisfiedDeps| == 0, severity)];
      }
    }
    assert targets[..|targets|] == targets;
  }

  predicate DependsOn(cap: Capability, id: string) {
    cap.status != Verified && cap.id != id && id in cap.dependencies
  }

  // The unverified capabilities, among the given keys, that depend directly on the given one.
  function DependentsAmong(caps: Capabilities, id: string, keys: set<string>): set<string> {
    set k | k in keys && k in caps && DependsOn(caps[k], id)
  }

  function Leverage(caps: Capabilities, id: string): nat {
    |DependentsAmong(caps, id, caps.Keys)|
  }

  lemma OneMoreKey(caps: Capabilities, id: string, keys: set<string>, k: string)
    requires k in caps && k !in keys
    ensures |DependentsAmong(caps, id, keys + {k})|
            == |DependentsAmong(caps, id, keys)| + if DependsOn(caps[k], id) then 1 else 0
  {
    var before := DependentsAmong(caps, id, keys);
    assert DependentsAmong(caps, id, keys + {k}) == if DependsOn(caps[k], id) then before + {k} else before;
  }

  method CalculateUnblockingLeverage(caps: Capabilities, id: string) returns (count: nat)
    ensures count == Leverage(caps, id)
  {
    count := 0;
    var rest := caps.Keys;
    ghost var seen: set<string> := {};
    while rest != {}
      invariant rest !! seen && rest + seen == caps.Keys
      invariant count == |DependentsAmong(caps, id, seen)|
      decreases rest
    {
      var k :| k in rest;
      OneMoreKey(caps, id, seen, k);
      if DependsOn(caps[k], id) {
        count := count + 1;
      }
      rest, seen := rest - {k}, seen + {k};
    }
    assert seen == caps.Keys;
  }

  function Score(caps: Capabilities, gap: Gap): nat {
    Leverage(caps, gap.capabilityId) * 25
    + (match gap.severity case Critical => 30 case High => 20 case Medium => 10 case Low => 5)
    + if gap.currentStatus == Partial then 15 else 0
  }

  // The first actionable gap of highest score, which is what a stable descending sort puts
  // in front; the number of gaps if none is actionable.
  function BestIndex(caps: Capabilities, gaps: seq<Gap>): (b: nat)
    ensures b <= |gaps|
    ensures b == |gaps| <==> forall i :: 0 <= i < |gaps| ==> !gaps[i].isActionable
    ensures b < |gaps| ==> gaps[b].isActionable
    ensures b < |gaps| ==> forall i :: 0 <= i < |gaps| && gaps[i].isActionable ==> Score(caps, gaps[i]) <= Score(caps, gaps[b])
    ensures b < |gaps| ==> forall i :: 0 <= i < b && gaps[i].isActionable ==> Score(caps, gaps[i]) < Score(caps, gaps[b])
  {
    hide Score;
    if gaps == [] then 0
    else
      var front := gaps[..|gaps| - 1];
      var last := gaps[|gaps| - 1];
      var b := BestIndex(caps, front);
      if b == |front| then (if last.isActionable then b else b + 1)
      else if last.isActionable && Score(caps, last) > Score(caps, front[b]) then |front|
      else b
  }

  function SelectNextBestAction(caps: Capabilities, gaps: seq<Gap>): Action {
    if gaps == [] then CompleteMission
    else
      var b := BestIndex(caps, gaps);
      if b == |gaps| then BlockedReview
      else Advance(gaps[b].capabilityId, gaps[b].currentStatus == Partial,
                   if Score(caps, gaps[b]) > 40 then 3 else 2,
                   if gaps[b].severity == Critical then HighRisk else MediumRisk)
  }

  function NextAction(caps: Capabilities, targets: seq<string>): Action {
    SelectNextBestAction(caps, Gaps(caps, targets))
  }

  function ApplyStateUpdate(caps: Capabilities, id: string, status: CapabilityStatus): Capabilities {
    if id in caps then caps[id := caps[id].(status := status)]
    else caps[id := Capability(id, Execution, status, [])]
  }

  // ---------- Properties ----------

  // Records are kept under their own id.
  predicate WellKeyed(caps: Capabilities) {
    forall k :: k in caps ==> caps[k].id == k
  }

  function VerifiedIds(caps: Capabilities): set<string> {
    set k | k in caps && caps[k].status == Verified
  }

  // Everything that a verified capability depends on is verified.
  predicate DependencyClosed(caps: Capabilities) {
    forall k, d :: k in caps && caps[k].status == Verified && d in caps[k].dependencies ==> IsVerified(caps, d)
  }

  predicate ReadyToAdvance(caps: Capabilities, t: string) {
    !IsVerified(caps, t) && (t in caps ==> forall d :: d in caps[t].dependencies ==> IsVerified(caps, d))
  }

  ghost predicate GapFor(caps: Capabilities, g: Gap, t: string) {
    g.capabilityId == t && !IsVerified(caps, t) && (g.isActionable <==> ReadyToAdvance(caps, t))
    && g.currentStatus == (if t in caps then caps[t].status else Absent)
    && g.severity == (if t in caps then SeverityOf(caps[t].category) else High)
  }

  lemma {:induction false} EveryGapHasItsTarget(caps: Capabilities, targets: seq<string>)
    requires WellKeyed(caps)
    ensures forall i :: 0 <= i < |Gaps(caps, targets)| ==>
                        Gaps(caps, targets)[i].capabilityId in targets
                        && GapFor(caps, Gaps(caps, targets)[i], Gaps(caps, targets)[i].capabilityId)
    ensures forall t :: t in targets && !IsVerified(caps, t) ==>
                        exists i :: 0 <= i < |Gaps(caps, targets)| && Gaps(caps, targets)[i].capabilityId == t
  {
    if targets != [] {
      var front, last := targets[..|targets| - 1], targets[|targets| - 1];
      EveryGapHasItsTarget(caps, front);
      var gaps, rest, own := Gaps(caps, targets), Gaps(caps, front), GapsOf(caps, last);
      assert gaps == rest + own && targets == front + [last];
      forall i | 0 <= i < |gaps|
        ensures gaps[i].capabilityId in targets && GapFor(caps, gaps[i], gaps[i].capabilityId)
      {
        if i < |rest| {
          assert gaps[i] == rest[i];
        } else {
          assert gaps[i] == own[0];
        }
      }
      forall t | t in targets && !IsVerified(caps, t)
        ensures exists i :: 0 <= i < |gaps| && gaps[i].capabilityId == t
      {
        if t in front {
          var i :| 0 <= i < |rest| && rest[i].capabilityId == t;
          assert gaps[i] == rest[i];
        } else {
          assert gaps[|rest|] == own[0];
        }
      }
    }
  }

  // What the selected action says about the state: the mission is complete, or nothing can
  // move, or the target is an unverified mission target whose dependencies are all verified.
  lemma ActionMeaning(caps: Capabilities, targets: seq<string>)
    requires WellKeyed(caps)
    ensures NextAction(caps, targets).CompleteMission? <==> forall t :: t in targets ==> IsVerified(caps, t)
    ensures NextAction(caps, targets).BlockedReview? <==>
            (exists t :: t in targets && !IsVerified(caps, t)) && forall t :: t in targets ==> !ReadyToAdvance(caps, t)
    ensures NextAction(caps, targets).Advance? ==>
            NextAction(caps, targets).target in targets && ReadyToAdvance(caps, NextAction(caps, targets).target)
    ensures NextAction(caps, targets).Advance? ==>
            var t := NextAction(caps, targets).target;
            NextAction(caps, targets).risk
            == if t in caps && (caps[t].category == Foundation || caps[t].category == Context) then HighRisk else MediumRisk
  {
    EveryGapHasItsTarget(caps, targets);
    var gaps := Gaps(caps, targets);
    var b := BestIndex(caps, gaps);
    if gaps == [] {
      assert forall t :: t in targets ==> IsVerified(caps, t);
    } else {
      assert !IsVerified(caps, gaps[0].capabilityId);
      if b < |gaps| {
        assert GapFor(caps, gaps[b], gaps[b].capabilityId);
      } else {
        forall t | t in targets && !IsVerified(caps, t)
          ensures !ReadyToAdvance(caps, t)
        {
          var i :| 0 <= i < |gaps| && gaps[i].capabilityId == t;
          assert GapFor(caps, gaps[i], t);
        }
      }
    }
  }

  // Updating an unverified capability loses no verified one and keeps records under their ids.
  lemma UpdateKeepsVerified(caps: Capabilities, t: string, status: CapabilityStatus)
    requires WellKeyed(caps) && (!IsVerified(caps, t) || status == Verified)
    ensures WellKeyed(ApplyStateUpdate(caps, t, status))
    ensures VerifiedIds(ApplyStateUpdate(caps, t, status)) == VerifiedIds(caps) + if status == Verified then {t} else {}
    ensures forall k :: IsVerified(ApplyStateUpdate(caps, t, status), k) <==> IsVerified(caps, k) || (k == t && status == Verified)
  {
  }

  // Verifying a capability that was ready keeps the verified set closed, and so does PARTIAL.
  lemma UpdateKeepsClosed(caps: Capabilities, t: string, status: CapabilityStatus)
    requires WellKeyed(caps) && DependencyClosed(caps)
    requires if status == Verified then ReadyToAdvance(caps, t) || IsVerified(caps, t) else !IsVerified(caps, t)
    ensures DependencyClosed(ApplyStateUpdate(caps, t, status))
  {
    var after := ApplyStateUpdate(caps, t, status);
    UpdateKeepsVerified(caps, t, status);
    forall k, d | k in after && after[k].status == Verified && d in after[k].dependencies
      ensures IsVerified(after, d)
    {
      if k != t {
        assert caps[k].status == Verified;
      }
    }
  }

  // PARTIAL changes nobody's leverage, so no other score moves.
  lemma PartialKeepsLeverage(caps: Capabilities, t: string, id: string)
    requires WellKeyed(caps) && !IsVerified(caps, t)
    ensures Leverage(ApplyStateUpdate(caps, t, Partial), id) == Leverage(caps, id)
  {
    var after := ApplyStateUpdate(caps, t, Partial);
    assert DependentsAmong(after, id, after.Keys) == DependentsAmong(caps, id, caps.Keys);
  }

  // The gaps before and after t is marked PARTIAL, side by side.
  ghost predicate Alongside(caps: Capabilities, t: string, before: Gap, after: Gap) {
    && after.capabilityId == before.capabilityId
    && after.isActionable == before.isActionable
    && (before.capabilityId != t ==> Score(ApplyStateUpdate(caps, t, Partial), after) == Score(caps, before))
    && (before.capabilityId == t ==> Score(ApplyStateUpdate(caps, t, Partial), after) >= Score(caps, before))
  }

  lemma {:induction false} SameUnsatisfied(a: Capabilities, b: Capabilities, deps: seq<string>)
    requires forall k :: IsVerified(a, k) <==> IsVerified(b, k)
    ensures Unsatisfied(a, deps) == Unsatisfied(b, deps)
  {
    if deps != [] {
      SameUnsatisfied(a, b, deps[1..]);
    }
  }

  lemma PartialGap(caps: Capabilities, t: string, target: string)
    requires WellKeyed(caps) && ReadyToAdvance(caps, t)
    ensures |GapsOf(ApplyStateUpdate(caps, t, Partial), target)| == |GapsOf(caps, target)|
    ensures GapsOf(caps, target) != [] ==>
            Alongside(caps, t, GapsOf(caps, target)[0], GapsOf(ApplyStateUpdate(caps, t, Partial), target)[0])
  {
    hide Leverage, Unsatisfied;
    var after := ApplyStateUpdate(caps, t, Partial);
    UpdateKeepsVerified(caps, t, Partial);
    PartialKeepsLeverage(caps, t, target);
    if target in caps {
      SameUnsatisfied(caps, after, caps[target].dependencies);
    }
  }

  lemma {:induction false} PartialGaps(caps: Capabilities, t: string, targets: seq<string>)
    requires WellKeyed(caps) && ReadyToAdvance(caps, t)
    ensures |Gaps(ApplyStateUpdate(caps, t, Partial), targets)| == |Gaps(caps, targets)|
    ensures forall i :: 0 <= i < |Gaps(caps, targets)| ==>
                        Alongside(caps, t, Gaps(caps, targets)[i], Gaps(ApplyStateUpdate(caps, t, Partial), targets)[i])
  {
    if targets != [] {
      PartialGaps(caps, t, targets[..|targets| - 1]);
      PartialGap(caps, t, targets[|targets| - 1]);
    }
  }

  ghost predicate AllAlongside(caps: Capabilities, t: string, before: seq<Gap>, now: seq<Gap>) {
    |before| == |now| && forall i :: 0 <= i < |before| ==> Alongside(caps, t, before[i], now[i])
  }

  lemma OneAlongside(caps: Capabilities, t: string, before: seq<Gap>, now: seq<Gap>, i: nat)
    requires AllAlongside(caps, t, before, now) && i < |before|
    ensures |before| == |now| && Alongside(caps, t, before[i], now[i])
  {
  }

  lemma NoneBeats(caps: Capabilities, gaps: seq<Gap>, i: nat)
    requires i < |gaps| && gaps[i].isActionable
    ensures var b := BestIndex(caps, gaps);
            && b < |gaps| && gaps[b].isActionable && Score(caps, gaps[i]) <= Score(caps, gaps[b])
            && (i < b ==> Score(caps, gaps[i]) < Score(caps, gaps[b]))
  {
    hide BestIndex, Score;
  }

  // The best gap keeps its place when only gaps of its own capability gain.
  lemma BestStaysBest(caps: Capabilities, t: string, before: seq<Gap>, now: seq<Gap>)
    requires AllAlongside(caps, t, before, now)
    requires BestIndex(caps, before) < |before| && before[BestIndex(caps, before)].capabilityId == t
    ensures BestIndex(ApplyStateUpdate(caps, t, Partial), now) < |now|
    ensures now[BestIndex(ApplyStateUpdate(caps, t, Partial), now)].capabilityId == t
  {
    hide AllAlongside, BestIndex, Score, ApplyStateUpdate;
    var after := ApplyStateUpdate(caps, t, Partial);
    var b := BestIndex(caps, before);
    OneAlongside(caps, t, before, now, b);
    NoneBeats(after, now, b);
    var c := BestIndex(after, now);
    OneAlongside(caps, t, before, now, c);
    NoneBeats(caps, before, c);
    NoneBeats(after, now, c);
  }

  // After a failed validation the next selection is the same capability again, also when the
  // capability was not registered before.
  lemma FailureIsRetried(caps: Capabilities, targets: seq<string>)
    requires WellKeyed(caps) && NextAction(caps, targets).Advance?
    ensures var t := NextAction(caps, targets).target;
            var again := NextAction(ApplyStateUpdate(caps, t, Partial), targets);
            again.Advance? && again.target == t && again.risk == NextAction(caps, targets).risk
  {
    var t := NextAction(caps, targets).target;
    var after := ApplyStateUpdate(caps, t, Partial);
    ActionMeaning(caps, targets);
    PartialGaps(caps, t, targets);
    assert AllAlongside(caps, t, Gaps(caps, targets), Gaps(after, targets));
    BestStaysBest(caps, t, Gaps(caps, targets), Gaps(after, targets));
    UpdateKeepsVerified(caps, t, Partial);
    ActionMeaning(after, targets);
  }

  // ---------- What the score prefers ----------

  // Capabilities never have severity LOW: the weights that occur are 10, 20 and 30.
  lemma GapsAreNeverLow(caps: Capabilities, targets: seq<string>, i: nat)
    requires WellKeyed(caps) && i < |Gaps(caps, targets)|
    ensures Gaps(caps, targets)[i].severity != Low
  {
    EveryGapHasItsTarget(caps, targets);
    assert GapFor(caps, Gaps(caps, targets)[i], Gaps(caps, targets)[i].capabilityId);
  }

  // Two more direct dependents outweigh everything else; one more is outweighed in exactly one
  // case, by critical work already in flight against fresh work of medium severity.
  lemma DependentsOutweigh(caps: Capabilities, a: Gap, b: Gap)
    requires a.severity != Low && b.severity != Low
    ensures Leverage(caps, a.capabilityId) >= Leverage(caps, b.capabilityId) + 2 ==> Score(caps, a) > Score(caps, b)
    ensures Leverage(caps, a.capabilityId) == Leverage(caps, b.capabilityId) + 1 ==>
              (Score(caps, a) < Score(caps, b) <==>
               a.severity == Medium && a.currentStatus != Partial && b.severity == Critical && b.currentStatus == Partial)
  {
  }

  // With equal leverage, work in flight outweighs one level of severity but not two.
  lemma InFlightOutweighs(caps: Capabilities, a: Gap, b: Gap)
    requires Leverage(caps, a.capabilityId) == Leverage(caps, b.capabilityId)
    requires a.severity != Low && b.severity != Low && a.currentStatus == Partial && b.currentStatus != Partial
    ensures Score(caps, a) > Score(caps, b) <==> !(a.severity == Medium && b.severity == Critical)
  {
  }

  // The selected target is never beaten by an actionable one with two more direct dependents.
  lemma SelectedHasMostDependents(caps: Capabilities, targets: seq<string>, t: string)
    requires WellKeyed(caps) && NextAction(caps, targets).Advance? && t in targets && ReadyToAdvance(caps, t)
    ensures Leverage(caps, NextAction(caps, targets).target) + 1 >= Leverage(caps, t)
  {
    var gaps := Gaps(caps, targets);
    var b := BestIndex(caps, gaps);
    EveryGapHasItsTarget(caps, targets);
    var i :| 0 <= i < |gaps| && gaps[i].capabilityId == t;
    assert GapFor(caps, gaps[i], t) && gaps[i].isActionable;
    GapsAreNeverLow(caps, targets, i);
    GapsAreNeverLow(caps, targets, b);
    DependentsOutweigh(caps, gaps[i], gaps[b]);
  }

  // ---------- Progress on an acyclic graph ----------

  function DependencyGraph(caps: Capabilities): Graph<string> {
    map k | k in caps :: caps[k].dependencies
  }

  function OpenTargets(caps: Capabilities, targets: seq<string>): set<string> {
    set t | t in targets && !IsVerified(caps, t)
  }

  // The assumptions under which a mission cannot get stuck.
  ghost predicate Solvable(caps: Capabilities, targets: seq<string>) {
    && WellKeyed(caps)
    && !Cyclic(DependencyGraph(caps))
    && (forall t, d :: t in targets && t in caps && d in caps[t].dependencies && !IsVerified(caps, d) ==> d in targets)
    && (forall t :: t in targets && t in caps && !IsVerified(caps, t) ==>
                      caps[t].category != Foundation && caps[t].category != Context)
  }

  lemma SolvableAdvances(caps: Capabilities, targets: seq<string>)
    requires Solvable(caps, targets) && OpenTargets(caps, targets) != {}
    ensures NextAction(caps, targets).Advance? && NextAction(caps, targets).risk == MediumRisk
    ensures NextAction(caps, targets).target in OpenTargets(caps, targets)
  {
    var open := OpenTargets(caps, targets);
    var g := DependencyGraph(caps);
    ActionMeaning(caps, targets);
    if forall t :: t in open ==> t in caps {
      var t := AcyclicHasSource(g, open);
      assert forall d :: d in caps[t].dependencies && !IsVerified(caps, d) ==> d in open && d in g[t];
      assert ReadyToAdvance(caps, t);
    } else {
      var t :| t in open && t !in caps;
      assert ReadyToAdvance(caps, t);
    }
  }

  // Verifying the selected target leaves exactly the other open targets, and nothing stuck.
  lemma VerifyingKeepsSolvable(caps: Capabilities, targets: seq<string>, t: string)
    requires Solvable(caps, targets) && t in OpenTargets(caps, targets)
    ensures Solvable(ApplyStateUpdate(caps, t, Verified), targets)
    ensures OpenTargets(ApplyStateUpdate(caps, t, Verified), targets) == OpenTargets(caps, targets) - {t}
  {
    var after := ApplyStateUpdate(caps, t, Verified);
    UpdateKeepsVerified(caps, t, Verified);
    RegistrationKeepsAcyclic(caps, t);
    assert OpenTargets(after, targets) == OpenTargets(caps, targets) - {t};
  }

  // Registering t without dependencies can only add edges that end at t, which closes no walk.
  lemma RegistrationKeepsAcyclic(caps: Capabilities, t: string)
    requires !Cyclic(DependencyGraph(caps))
    ensures !Cyclic(DependencyGraph(ApplyStateUpdate(caps, t, Verified)))
  {
    var a, b := DependencyGraph(caps), DependencyGraph(ApplyStateUpdate(caps, t, Verified));
    if t in caps {
      assert a == b;
    } else if Cyclic(b) {
      var p: seq<string> :| IsCycle(b, p);
      forall i | 0 <= i < |p| - 1
        ensures p[i] != t
      {
        assert Edge(b, p[i], p[i + 1]);
      }
      forall i | 0 <= i < |p| - 1
        ensures Edge(a, p[i], p[i + 1])
      {
        assert Edge(b, p[i], p[i + 1]);
        assert p[i + 1] != t by {
          if i + 1 == |p| - 1 {
            assert p[i + 1] == p[0];
          }
        }
      }
      assert forall i :: 0 <= i < |p| ==> p[i] in a by {
        forall i | 0 <= i < |p|
          ensures p[i] in a
        {
          if i < |p| - 1 {
            assert Edge(a, p[i], p[i + 1]);
          } else {
            assert Edge(a, p[i - 1], p[i]);
          }
        }
      }
      assert IsCycle(a, p);
    }
  }
}
