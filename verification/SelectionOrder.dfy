// Which target the mission loop selects, in terms of the capabilities alone: how many others wait
// for it, its category, and whether work on it is in flight (selectNextBestAction in
// src/office/autonomy-loop.ts).
module SelectionOrder {
  import opened Wrappers
  import opened MissionLoop

  // The unverified capabilities that name the given one among their dependencies.
  function Dependents(caps: Capabilities, id: string): set<string> {
    set k | k in caps && k != id && caps[k].status != Verified && id in caps[k].dependencies
  }

  predicate InFlight(caps: Capabilities, id: string) {
    id in caps && caps[id].status == Partial
  }

  // Foundations before research and what is not registered yet, and these before the rest.
  function Tier(caps: Capabilities, id: string): nat {
    if id !in caps then 1
    else match caps[id].category
      case Foundation => 2
      case Context => 2
      case Research => 1
      case Feedback => 1
      case Reasoning => 0
      case Execution => 0
      case Verification => 0
  }

  // Two more dependents always decide. One more decides unless the other is a tier or two ahead
  // and in flight while this one is not. Otherwise work in flight makes up for one tier.
  predicate Outranks(caps: Capabilities, a: string, b: string) {
    var more := |Dependents(caps, a)| - |Dependents(caps, b)|;
    var tier := Tier(caps, a) - Tier(caps, b);
    var ahead := InFlight(caps, a) && !InFlight(caps, b);
    var behind := !InFlight(caps, a) && InFlight(caps, b);
    || more >= 2
    || (more == 1 && !(behind && tier < 0))
    || (more == 0 && (if ahead then tier >= -1 else if behind then tier == 2 else tier > 0))
    || (more == -1 && ahead && tier == 2)
  }

  lemma LeverageIsDependents(caps: Capabilities, id: string)
    requires WellKeyed(caps)
    ensures Leverage(caps, id) == |Dependents(caps, id)|
  {
    assert DependentsAmong(caps, id, caps.Keys) == Dependents(caps, id);
  }

  lemma HigherScoreOutranks(caps: Capabilities, g: Gap, h: Gap)
    requires WellKeyed(caps) && GapFor(caps, g, g.capabilityId) && GapFor(caps, h, h.capabilityId)
    ensures Score(caps, g) > Score(caps, h) <==> Outranks(caps, g.capabilityId, h.capabilityId)
  {
    LeverageIsDependents(caps, g.capabilityId);
    LeverageIsDependents(caps, h.capabilityId);
    hide Leverage, Dependents, ReadyToAdvance, IsVerified, WellKeyed;
  }

  // The first of the best: ready, ahead of every ready target listed before it, and not behind
  // any ready target at all.
  ghost predicate FirstBest(caps: Capabilities, targets: seq<string>, i: nat) {
    && i < |targets| && ReadyToAdvance(caps, targets[i])
    && (forall j | 0 <= j < i && ReadyToAdvance(caps, targets[j]) :: Outranks(caps, targets[i], targets[j]))
    && (forall j | i <= j < |targets| && ReadyToAdvance(caps, targets[j]) :: !Outranks(caps, targets[j], targets[i]))
  }

  lemma OnlyOneIsFirst(caps: Capabilities, targets: seq<string>, i: nat, j: nat)
    requires FirstBest(caps, targets, i) && FirstBest(caps, targets, j)
    ensures i == j
  {
  }

  // Appending a target that is not ready changes nothing; a ready one takes over exactly if there
  // was none before or it outranks the one before.
  lemma FirstBestAppend(caps: Capabilities, targets: seq<string>, t: string, i: nat)
    requires FirstBest(caps, targets, i)
    ensures ReadyToAdvance(caps, t) && Outranks(caps, t, targets[i]) ==> FirstBest(caps, targets + [t], |targets|)
    ensures !(ReadyToAdvance(caps, t) && Outranks(caps, t, targets[i])) ==> FirstBest(caps, targets + [t], i)
  {
  }

  lemma FirstReady(caps: Capabilities, targets: seq<string>, t: string)
    requires ReadyToAdvance(caps, t) && forall u | u in targets :: !ReadyToAdvance(caps, u)
    ensures FirstBest(caps, targets + [t], |targets|)
  {
    hide Outranks;
    var all := targets + [t];
    assert forall j | 0 <= j < |targets| :: all[j] == targets[j] && targets[j] in targets;
    NeverItself(caps, t);
  }

  lemma NeverItself(caps: Capabilities, t: string)
    ensures !Outranks(caps, t, t)
  {
  }

  // What the scan of the gaps has found after one more target.
  lemma OneMoreGap(caps: Capabilities, front: seq<Gap>, g: Gap)
    ensures var b := BestIndex(caps, front);
            BestIndex(caps, front + [g])
            == if b == |front| then (if g.isActionable then b else b + 1)
               else if g.isActionable && Score(caps, g) > Score(caps, front[b]) then |front|
               else b
  {
    assert (front + [g])[..|front|] == front;
  }

  // The gap that is selected belongs to the first of the best targets.
  ghost predicate BestGapIs(caps: Capabilities, targets: seq<string>, i: nat) {
    var gaps := Gaps(caps, targets);
    && FirstBest(caps, targets, i) && BestIndex(caps, gaps) < |gaps|
    && gaps[BestIndex(caps, gaps)].capabilityId == targets[i] && GapFor(caps, gaps[BestIndex(caps, gaps)], targets[i])
  }

  ghost predicate NoneReady(caps: Capabilities, targets: seq<string>) {
    BestIndex(caps, Gaps(caps, targets)) == |Gaps(caps, targets)| && forall t | t in targets :: !ReadyToAdvance(caps, t)
  }

  lemma OwnGap(caps: Capabilities, t: string)
    requires WellKeyed(caps)
    ensures GapsOf(caps, t) != [] ==> GapsOf(caps, t) == [GapsOf(caps, t)[0]] && GapFor(caps, GapsOf(caps, t)[0], t)
    ensures GapsOf(caps, t) == [] ==> !ReadyToAdvance(caps, t)
  {
  }

  lemma ScanFromBest(caps: Capabilities, front: seq<string>, t: string, i: nat) returns (k: nat)
    requires WellKeyed(caps) && BestGapIs(caps, front, i)
    ensures BestGapIs(caps, front + [t], k)
  {
    assert i < |front|;
    hide BestIndex, Score, Outranks, FirstBest, ReadyToAdvance, WellKeyed;
    var all, own := front + [t], GapsOf(caps, t);
    assert all[..|front|] == front;
    OwnGap(caps, t);
    FirstBestAppend(caps, front, t, i);
    k := i;
    if own == [] {
      assert Gaps(caps, all) == Gaps(caps, front);
    } else {
      OneMoreGap(caps, Gaps(caps, front), own[0]);
      HigherScoreOutranks(caps, own[0], Gaps(caps, front)[BestIndex(caps, Gaps(caps, front))]);
      if own[0].isActionable && Outranks(caps, t, front[i]) {
        k := |front|;
      }
    }
  }

  lemma ScanFromNone(caps: Capabilities, front: seq<string>, t: string)
    requires WellKeyed(caps) && NoneReady(caps, front)
    ensures if ReadyToAdvance(caps, t) then BestGapIs(caps, front + [t], |front|) else NoneReady(caps, front + [t])
  {
    hide BestIndex, Score, Outranks, FirstBest, ReadyToAdvance, WellKeyed;
    var all, own := front + [t], GapsOf(caps, t);
    assert all[..|front|] == front;
    OwnGap(caps, t);
    if own == [] {
      assert Gaps(caps, all) == Gaps(caps, front);
    } else {
      OneMoreGap(caps, Gaps(caps, front), own[0]);
      if ReadyToAdvance(caps, t) {
        FirstReady(caps, front, t);
      }
    }
  }

  lemma {:induction false} Scan(caps: Capabilities, targets: seq<string>) returns (i: nat)
    requires WellKeyed(caps)
    ensures NoneReady(caps, targets) || BestGapIs(caps, targets, i)
  {
    hide BestGapIs, NoneReady, WellKeyed;
    i := 0;
    if targets == [] {
      NothingToScan(caps);
    } else {
      var front, t := targets[..|targets| - 1], targets[|targets| - 1];
      assert targets == front + [t];
      i := Scan(caps, front);
      if BestGapIs(caps, front, i) {
        i := ScanFromBest(caps, front, t, i);
      } else {
        ScanFromNone(caps, front, t);
        i := |front|;
      }
    }
  }

  lemma NothingToScan(caps: Capabilities)
    ensures NoneReady(caps, [])
  {
  }

  lemma SomeReady(caps: Capabilities, targets: seq<string>, i: nat)
    requires FirstBest(caps, targets, i)
    ensures !NoneReady(caps, targets)
  {
    assert targets[i] in targets;
  }

  // The selected target is exactly the first of the best ones: nothing ready outranks it, and it
  // outranks every ready target listed before it.
  lemma SelectedExactlyWhen(caps: Capabilities, targets: seq<string>, t: string)
    requires WellKeyed(caps)
    ensures NextAction(caps, targets).Advance? && NextAction(caps, targets).target == t
            <==> exists i: nat :: FirstBest(caps, targets, i) && targets[i] == t
  {
    hide Outranks, BestIndex, Score, Gaps;
    var k := Scan(caps, targets);
    if i: nat :| FirstBest(caps, targets, i) && targets[i] == t {
      SomeReady(caps, targets, i);
      OnlyOneIsFirst(caps, targets, i, k);
    }
  }

  // Between ready targets with equally many dependents and equal progress, foundation and context
  // go before everything else, and research, feedback and what is not registered yet before
  // reasoning, execution and verification.
  lemma CategoriesInOrder(caps: Capabilities, targets: seq<string>, t: string)
    requires WellKeyed(caps) && NextAction(caps, targets).Advance? && t in targets && ReadyToAdvance(caps, t)
    requires var s := NextAction(caps, targets).target;
             && |Dependents(caps, s)| == |Dependents(caps, t)|
             && (s in caps && caps[s].status == Partial <==> t in caps && caps[t].status == Partial)
    ensures var s := NextAction(caps, targets).target;
            && (t in caps && caps[t].category in {Foundation, Context} ==>
                  s in caps && caps[s].category in {Foundation, Context})
            && (t !in caps || caps[t].category in {Research, Feedback} ==>
                  s !in caps || caps[s].category !in {Reasoning, Execution, Verification})
  {
    hide Dependents, ReadyToAdvance, WellKeyed;
    NotOutranked(caps, targets, t);
  }

  lemma NotOutranked(caps: Capabilities, targets: seq<string>, t: string)
    requires WellKeyed(caps) && NextAction(caps, targets).Advance? && t in targets && ReadyToAdvance(caps, t)
    ensures !Outranks(caps, t, NextAction(caps, targets).target)
  {
    hide Outranks, BestIndex, Score, Gaps;
    var s := NextAction(caps, targets).target;
    SelectedExactlyWhen(caps, targets, s);
    var i: nat :| FirstBest(caps, targets, i) && targets[i] == s;
    var j :| 0 <= j < |targets| && targets[j] == t;
    if j < i {
      Asymmetric(caps, s, t);
    }
  }

  lemma Asymmetric(caps: Capabilities, a: string, b: string)
    requires Outranks(caps, a, b)
    ensures !Outranks(caps, b, a)
  {
  }

  // With everything else equal, more dependents, a higher tier and work in flight each decide.
  lemma EachDecides(caps: Capabilities, targets: seq<string>, t: string)
    requires WellKeyed(caps) && NextAction(caps, targets).Advance? && t in targets && ReadyToAdvance(caps, t)
    ensures var s := NextAction(caps, targets).target;
            && |Dependents(caps, s)| + 1 >= |Dependents(caps, t)|
            && (Tier(caps, s) == Tier(caps, t) && (InFlight(caps, s) <==> InFlight(caps, t)) ==>
                  |Dependents(caps, s)| >= |Dependents(caps, t)|)
            && (Tier(caps, s) == Tier(caps, t) && |Dependents(caps, s)| == |Dependents(caps, t)| ==>
                  (InFlight(caps, t) ==> InFlight(caps, s)))
  {
    NotOutranked(caps, targets, t);
    hide Dependents, ReadyToAdvance, WellKeyed, Tier;
  }

  // What else the action says: work in flight is only verified, and the priority is high for two
  // dependents, for one unless it is fresh work of the lowest tier, and without any for
  // foundations in flight.
  lemma ActionFields(caps: Capabilities, targets: seq<string>)
    requires WellKeyed(caps) && NextAction(caps, targets).Advance?
    ensures var action := NextAction(caps, targets);
            var t := action.target;
            && (action.verifyOnly <==> t in caps && caps[t].status == Partial)
            && (action.priority == 3 <==>
                || |Dependents(caps, t)| >= 2
                || (|Dependents(caps, t)| == 1
                    && (t !in caps || caps[t].status == Partial || caps[t].category !in {Reasoning, Execution, Verification}))
                || (t in caps && caps[t].status == Partial && caps[t].category in {Foundation, Context}))
            && (action.priority == 2 || action.priority == 3)
  {
    hide Outranks, BestIndex, Gaps, Leverage, Dependents, ReadyToAdvance, WellKeyed;
    var k := Scan(caps, targets);
    LeverageIsDependents(caps, NextAction(caps, targets).target);
  }
}
