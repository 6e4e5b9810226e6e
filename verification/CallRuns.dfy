/**
 * What every run of a call aggregate keeps: winner safety, climbing attempts, coordinator lineage, hand-off
 * candidates.
 */
module CallRuns {
  import opened Prelude
  import opened Ordering
  import opened CallAggregates

  datatype Step =
    | SetRole(session: Id, role: LegRole, now: nat)
    | LegLeft(session: Id, now: nat)
    | SetLegState(session: Id, legState: LegState)
    | NewLeg(newLeg: Session)
    | NewBridge(bridge: Id, legA: Id, legB: Id, media: nat, now: nat)
    | Activate(bridge: Id, media: nat, now: nat)
    | Release(bridge: Id, now: nat)
    | ReleaseAll(now: nat)
    | HandOver(owner: Id, expected: nat, target: Id)
    | NewAttempt(attempt: Id, session: Id, number: string)
    | SetAttempt(attempt: Id, state: AttemptState, cause: Option<string>)
    | Select(attempt: Id, now: nat)
    | Replace(attempt: Id, now: nat)

  function Apply(c: Call, step: Step): Call {
    match step
    case SetRole(session, role, now) => c.UpdateLegRole(session, role, now).0
    case LegLeft(session, now) => c.MarkLegLeft(session, now).0
    case SetLegState(session, state) => c.UpdateLegState(session, state).0
    case NewLeg(s) => c.AddLeg(s).0
    case NewBridge(bridge, a, b, media, now) => c.AddBridge(bridge, a, b, media, now).0
    case Activate(bridge, media, now) => c.ActivateBridge(bridge, media, now).0
    case Release(bridge, now) => c.ReleaseBridge(bridge, now).0
    case ReleaseAll(now) => c.ReleaseAllBridges(now)
    case HandOver(owner, expected, target) => c.Handoff(owner, expected, target).0
    case NewAttempt(a, session, number) => c.AddAttempt(a, session, number).0
    case SetAttempt(a, state, cause) => c.UpdateAttempt(a, state, cause).0
    case Select(a, now) => c.SelectWinner(a, now).0
    case Replace(a, now) => c.ReplaceWinner(a, now).0
  }

  function Execute(c: Call, run: seq<Step>): Call
    decreases |run|
  {
    if run == [] then c else Execute(Apply(c, run[0]), run[1..])
  }

  // ---- The winner ----

  /** A winner names an attempt that was selected, and is set exactly when the call has an answer time. */
  ghost predicate WinnerSafe(c: Call) {
    && (c.winner.Some? <==> c.answeredAt.Some?)
    && (c.winner.Some? ==>
          c.winner.value in c.attempts
          && (c.attempts[c.winner.value].state.Selected? || c.attempts[c.winner.value].state.Destroyed?))
  }

  ghost predicate PolicyKept(c: Call) { c.policy == SingleCallee ==> |c.attempts| <= 1 }

  /** Attempts, bridges and the coordinator refer to legs of the call. */
  ghost predicate Anchored(c: Call) {
    && c.callerLeg in c.legs && c.coordinator in c.legs
    && (forall a :: a in c.attempts ==> c.attempts[a].session in c.legs)
    && (forall b :: b in c.bridges ==>
          c.bridges[b].legA in c.legs && c.bridges[b].legB in c.legs && c.bridges[b].legA != c.bridges[b].legB)
  }

  ghost predicate Inv(c: Call) { WinnerSafe(c) && PolicyKept(c) && Anchored(c) && c.generation <= U64_MAX }

  lemma NewCallSafe(caller: Session, policy: Policy)
    ensures NewCall(caller, policy).Ok? <==> caller.role == Caller
    ensures NewCall(caller, policy).Ok? ==>
              Inv(NewCall(caller, policy).value) && OnlyWinnerSelected(NewCall(caller, policy).value)
  {
  }

  /** As many attempts as before, unless one is added. */
  lemma SameCount(x: Attempts, y: Attempts)
    requires x.Keys == y.Keys
    ensures |x| == |y|
  {
    assert |x| == |x.Keys| && |y| == |y.Keys|;
  }

  lemma ChosenKeeps(attempts: Attempts, a: Id)
    requires a in attempts
    ensures var y := CancelOthers(attempts, a)[a := attempts[a].(state := Selected)];
            && y.Keys == attempts.Keys && |y| == |attempts|
            && forall x :: x in attempts ==> y[x].session == attempts[x].session
  {
    SameCount(attempts, CancelOthers(attempts, a)[a := attempts[a].(state := Selected)]);
  }

  lemma ChooseSafe(c: Call, a: Id, now: nat)
    requires Inv(c)
    ensures Inv(c.Choose(a, now).0)
  {
    if c.Choose(a, now).1.Ok? {
      ChosenKeeps(c.attempts, a);
    }
  }

  lemma NewAttemptSafe(c: Call, a: Id, session: Id, number: string)
    requires Inv(c)
    ensures Inv(c.AddAttempt(a, session, number).0)
  {
    var d := c.AddAttempt(a, session, number).0;
    if d.attempts != c.attempts {
      assert d == c.(attempts := d.attempts);
      assert c.policy == SingleCallee ==> c.attempts == map[];
    }
  }

  /** Replacing an attempt by one of the same session. */
  lemma AttemptReplaced(c: Call, a: Id, attempt: Attempt)
    requires Inv(c) && a in c.attempts && attempt.session == c.attempts[a].session
    requires c.winner == Some(a) ==> attempt.state.Selected? || attempt.state.Destroyed?
    ensures Inv(c.(attempts := c.attempts[a := attempt]))
  {
    SameCount(c.attempts, c.attempts[a := attempt]);
  }

  lemma SetAttemptSafe(c: Call, a: Id, state: AttemptState, cause: Option<string>)
    requires Inv(c)
    ensures Inv(c.UpdateAttempt(a, state, cause).0)
  {
    if a in c.attempts && c.attempts[a].state != state && ValidTransition(c.attempts[a].state, state) {
      AttemptReplaced(c, a,
        c.attempts[a].(state := state, cause := if cause.Some? then cause else c.attempts[a].cause));
    }
  }

  /** Steps that leave attempts and winner alone keep what is said about them. */
  lemma UninvolvedSafe(c: Call, d: Call)
    requires Inv(c) && d.attempts == c.attempts && d.winner == c.winner && d.answeredAt == c.answeredAt
    requires d.policy == c.policy && Anchored(d) && d.generation <= U64_MAX
    ensures Inv(d)
  {
  }

  lemma LegStepAnchored(c: Call, step: Step)
    requires Inv(c) && (step.SetRole? || step.LegLeft? || step.SetLegState? || step.NewLeg? || step.HandOver?)
    ensures Anchored(Apply(c, step))
  {
    assert c.legs.Keys <= Apply(c, step).legs.Keys;
  }

  lemma BridgeReplaced(c: Call, b: Id, bridge: Bridge)
    requires Anchored(c) && bridge.legA in c.legs && bridge.legB in c.legs && bridge.legA != bridge.legB
    ensures Anchored(c.(bridges := c.bridges[b := bridge]))
  {
  }

  lemma ActivateAnchored(c: Call, bridge: Id, media: nat, now: nat)
    requires Anchored(c)
    ensures Anchored(c.ActivateBridge(bridge, media, now).0)
  {
    if bridge in c.bridges {
      var edge := c.bridges[bridge];
      BridgeReplaced(c, bridge, edge.(state := Active, activeAt := OrElse(edge.activeAt, now)));
    }
  }

  lemma ReleaseAnchored(c: Call, bridge: Id, now: nat)
    requires Anchored(c)
    ensures Anchored(c.ReleaseBridge(bridge, now).0)
  {
    if bridge in c.bridges {
      BridgeReplaced(c, bridge, c.bridges[bridge].Release(now));
    }
  }

  lemma AddBridgeAnchored(c: Call, bridge: Id, a: Id, b: Id, media: nat, now: nat)
    requires Anchored(c)
    ensures Anchored(c.AddBridge(bridge, a, b, media, now).0)
  {
    if a != b && a in c.legs && b in c.legs {
      BridgeReplaced(c, bridge, Bridge(a, b, media, BridgeState.Planned, now, None, None));
    }
  }

  lemma BridgeStepAnchored(c: Call, step: Step)
    requires Anchored(c) && (step.NewBridge? || step.Activate? || step.Release? || step.ReleaseAll?)
    ensures Anchored(Apply(c, step))
  {
    match step
    case NewBridge(bridge, a, b, media, now) => AddBridgeAnchored(c, bridge, a, b, media, now);
    case Activate(bridge, media, now) => ActivateAnchored(c, bridge, media, now);
    case Release(bridge, now) => ReleaseAnchored(c, bridge, now);
    case ReleaseAll(_) =>
  }

  lemma BridgeStepSafe(c: Call, step: Step)
    requires Inv(c) && (step.NewBridge? || step.Activate? || step.Release? || step.ReleaseAll?)
    ensures Inv(Apply(c, step))
  {
    BridgeStepAnchored(c, step);
    UninvolvedSafe(c, Apply(c, step));
  }

  lemma LegStepSafe(c: Call, step: Step)
    requires Inv(c) && (step.SetRole? || step.LegLeft? || step.SetLegState? || step.NewLeg? || step.HandOver?)
    ensures Inv(Apply(c, step))
  {
    LegStepAnchored(c, step);
    UninvolvedSafe(c, Apply(c, step));
  }

  lemma StepSafe(c: Call, step: Step)
    requires Inv(c)
    ensures Inv(Apply(c, step))
  {
    match step
    case Select(a, now) => ChooseSafe(c, a, now);
    case Replace(a, now) => ChooseSafe(c, a, now);
    case NewAttempt(a, session, number) => NewAttemptSafe(c, a, session, number);
    case SetAttempt(a, state, cause) => SetAttemptSafe(c, a, state, cause);
    case NewBridge(_, _, _, _, _) => BridgeStepSafe(c, step);
    case Activate(_, _, _) => BridgeStepSafe(c, step);
    case Release(_, _) => BridgeStepSafe(c, step);
    case ReleaseAll(_) => BridgeStepSafe(c, step);
    case _ => LegStepSafe(c, step);
  }

  /** Winner safety, the single-callee limit and referential integrity hold on every run. */
  lemma {:induction false} SafeOnEveryRun(c: Call, run: seq<Step>)
    requires Inv(c)
    ensures Inv(Execute(c, run))
    decreases |run|
  {
    if run != [] {
      StepSafe(c, run[0]);
      SafeOnEveryRun(Apply(c, run[0]), run[1..]);
    }
  }

  /** So selecting the winner again never meets a winner without an attempt. */
  lemma SelectNeverPanics(c: Call, run: seq<Step>, a: Id, now: nat)
    requires Inv(c)
    ensures Execute(c, run).SelectWinner(a, now).1 != Err(WinnerMissing)
    ensures Execute(c, run).ReplaceWinner(a, now).1 != Err(WinnerMissing)
  {
    SafeOnEveryRun(c, run);
  }

  /** A new selection: the others are all terminal, and the sessions returned are exactly those that were live. */
  lemma SelectionExact(c: Call, a: Id, now: nat)
    requires c.Choose(a, now).1.Ok?
    ensures var (d, answer) := c.Choose(a, now);
            && d.winner == Some(a) && d.attempts.Keys == c.attempts.Keys
            && (forall x :: x in d.attempts ==>
               if x == a then d.attempts[x].state.Selected? else d.attempts[x].state.Terminal())
            && (forall x :: x in d.attempts && c.attempts[x].state.Terminal() ==> d.attempts[x] == c.attempts[x])
            && answer.value.winner == c.attempts[a].session
            && exists ids :: CancelledBy(c, a, ids, answer.value.cancelled)
  {
    AscendingAscends(c.attempts.Keys);
    LiveAmongExact(c.attempts, a, Ascending(c.attempts.Keys));
    assert CancelledBy(c, a, LiveOthers(c.attempts, a), c.Choose(a, now).1.value.cancelled);
  }

  /** `sessions` are those of the live attempts other than `a`, each once, in attempt order. */
  ghost predicate CancelledBy(c: Call, a: Id, ids: seq<Id>, sessions: seq<Id>) {
    && Ascends(ids) && Duplicateless(ids)
    && (forall x :: x in ids <==> x in c.attempts && LiveOther(c.attempts, a, x))
    && |sessions| == |ids| && forall i :: 0 <= i < |ids| ==> sessions[i] == c.attempts[ids[i]].session
  }

  // ---- Attempts only climb ----

  function Rank(s: AttemptState): nat {
    match s
    case Planned => 0
    case Dialing => 1
    case Ringing => 2
    case Answered => 3
    case Selected => 4
    case Cancelled => 5
    case Failed => 5
    case Destroyed => 6
  }

  /** Nothing an attempt was is lost, and its state is the same or strictly higher. */
  ghost predicate AttemptClimbs(x: Attempt, y: Attempt) {
    && y.session == x.session && y.target == x.target
    && (y.state == x.state || Rank(x.state) < Rank(y.state))
    && (x.state.Terminal() ==> y.state.Terminal())
  }

  ghost predicate LegKept(x: Leg, y: Leg) {
    && y.joinedAt == x.joinedAt && (x.leftAt.Some? ==> y.leftAt == x.leftAt) && x.roles <= y.roles
    && (x.roles != [] && x.roles[|x.roles| - 1].role == x.role ==>
       y.roles != [] && y.roles[|y.roles| - 1].role == y.role)
  }

  ghost predicate BridgeKept(x: Bridge, y: Bridge) {
    && y.legA == x.legA && y.legB == x.legB && y.generation == x.generation && y.createdAt == x.createdAt
    && (x.state.Released? ==> y.state.Released?) && (x.state.Active? ==> !y.state.Planned?)
    && (x.activeAt.Some? ==> y.activeAt == x.activeAt) && (x.releasedAt.Some? ==> y.releasedAt == x.releasedAt)
  }

  ghost predicate AttemptsGrow(x: Attempts, y: Attempts) {
    forall a :: a in x ==> a in y && AttemptClimbs(x[a], y[a])
  }

  ghost predicate LegsGrow(x: map<Id, Leg>, y: map<Id, Leg>) {
    forall l :: l in x ==> l in y && LegKept(x[l], y[l])
  }

  ghost predicate BridgesGrow(x: map<Id, Bridge>, y: map<Id, Bridge>) {
    forall b :: b in x ==> b in y && BridgeKept(x[b], y[b])
  }

  ghost predicate Grows(c: Call, d: Call) {
    && AttemptsGrow(c.attempts, d.attempts) && LegsGrow(c.legs, d.legs) && BridgesGrow(c.bridges, d.bridges)
    && (c.answeredAt.Some? ==> d.answeredAt == c.answeredAt)
    && (c.winner.Some? ==> d.winner.Some?)
    && d.policy == c.policy && d.callerLeg == c.callerLeg
  }

  lemma GrowsReflexive(c: Call)
    ensures Grows(c, c)
  {
  }

  lemma LegUpdated(legs: map<Id, Leg>, id: Id, leg: Leg)
    requires id in legs ==> LegKept(legs[id], leg)
    ensures LegsGrow(legs, legs[id := leg])
  {
  }

  lemma BridgeUpdated(bridges: map<Id, Bridge>, id: Id, bridge: Bridge)
    requires id in bridges ==> BridgeKept(bridges[id], bridge)
    ensures BridgesGrow(bridges, bridges[id := bridge])
  {
  }

  lemma AttemptUpdated(attempts: Attempts, id: Id, attempt: Attempt)
    requires id in attempts ==> AttemptClimbs(attempts[id], attempt)
    ensures AttemptsGrow(attempts, attempts[id := attempt])
  {
  }

  lemma LegStepGrows(c: Call, step: Step)
    requires step.SetRole? || step.LegLeft? || step.SetLegState? || step.NewLeg? || step.HandOver?
    ensures Grows(c, Apply(c, step))
  {
    GrowsReflexive(c);
    var d := Apply(c, step);
    if !step.HandOver? && d.legs != c.legs {
      var id := if step.NewLeg? then step.newLeg.id else step.session;
      LegUpdated(c.legs, id, d.legs[id]);
      assert d == c.(legs := c.legs[id := d.legs[id]]);
    }
  }

  lemma BridgeStepGrows(c: Call, bridge: Id, edge: Bridge)
    requires bridge in c.bridges ==> BridgeKept(c.bridges[bridge], edge)
    ensures Grows(c, c.(bridges := c.bridges[bridge := edge]))
  {
    GrowsReflexive(c);
    BridgeUpdated(c.bridges, bridge, edge);
  }

  lemma AddBridgeGrows(c: Call, bridge: Id, a: Id, b: Id, media: nat, now: nat)
    ensures Grows(c, c.AddBridge(bridge, a, b, media, now).0)
  {
    GrowsReflexive(c);
    if bridge !in c.bridges {
      BridgeStepGrows(c, bridge, Bridge(a, b, media, BridgeState.Planned, now, None, None));
    }
  }

  lemma ActivateGrows(c: Call, bridge: Id, media: nat, now: nat)
    ensures Grows(c, c.ActivateBridge(bridge, media, now).0)
  {
    GrowsReflexive(c);
    if bridge in c.bridges && c.bridges[bridge].state.Planned? {
      var edge := c.bridges[bridge];
      BridgeStepGrows(c, bridge, edge.(state := Active, activeAt := OrElse(edge.activeAt, now)));
    }
  }

  lemma ReleaseGrows(c: Call, bridge: Id, now: nat)
    ensures Grows(c, c.ReleaseBridge(bridge, now).0)
  {
    GrowsReflexive(c);
    if bridge in c.bridges {
      BridgeStepGrows(c, bridge, c.bridges[bridge].Release(now));
    }
  }

  lemma ReleaseAllGrows(c: Call, now: nat)
    ensures Grows(c, c.ReleaseAllBridges(now))
  {
    GrowsReflexive(c);
    assert BridgesGrow(c.bridges, c.ReleaseAllBridges(now).bridges);
  }

  lemma TransitionClimbs(from: AttemptState, to: AttemptState)
    requires ValidTransition(from, to)
    ensures Rank(from) < Rank(to) && (from.Terminal() ==> to.Terminal())
  {
  }

  lemma AttemptStepGrows(c: Call, step: Step)
    requires step.NewAttempt? || step.SetAttempt?
    ensures Grows(c, Apply(c, step))
  {
    GrowsReflexive(c);
    var d := Apply(c, step);
    if d.attempts != c.attempts {
      if step.SetAttempt? {
        TransitionClimbs(c.attempts[step.attempt].state, step.state);
      }
      AttemptUpdated(c.attempts, step.attempt, d.attempts[step.attempt]);
      assert d == c.(attempts := c.attempts[step.attempt := d.attempts[step.attempt]]);
    }
  }

  lemma ChosenClimb(attempts: Attempts, a: Id)
    requires a in attempts && attempts[a].state.Answered?
    ensures AttemptsGrow(attempts, CancelOthers(attempts, a)[a := attempts[a].(state := Selected)])
  {
    forall x | x in attempts && x != a
      ensures AttemptClimbs(attempts[x], CancelIfLive(attempts, a, x))
    {
    }
  }

  lemma ChooseGrows(c: Call, a: Id, now: nat)
    ensures Grows(c, c.Choose(a, now).0)
  {
    GrowsReflexive(c);
    if c.Choose(a, now).1.Ok? {
      ChosenClimb(c.attempts, a);
    }
  }

  lemma StepGrows(c: Call, step: Step)
    ensures Grows(c, Apply(c, step))
  {
    GrowsReflexive(c);
    match step
    case Select(a, now) => ChooseGrows(c, a, now);
    case Replace(a, now) => ChooseGrows(c, a, now);
    case NewAttempt(_, _, _) => AttemptStepGrows(c, step);
    case SetAttempt(_, _, _) => AttemptStepGrows(c, step);
    case NewBridge(bridge, a, b, media, now) => AddBridgeGrows(c, bridge, a, b, media, now);
    case Activate(bridge, media, now) => ActivateGrows(c, bridge, media, now);
    case Release(bridge, now) => ReleaseGrows(c, bridge, now);
    case ReleaseAll(now) => ReleaseAllGrows(c, now);
    case _ => LegStepGrows(c, step);
  }

  lemma GrowsTransitive(c: Call, d: Call, e: Call)
    requires Grows(c, d) && Grows(d, e)
    ensures Grows(c, e)
  {
    forall a | a in c.attempts
      ensures a in e.attempts && AttemptClimbs(c.attempts[a], e.attempts[a])
    {
      assert AttemptClimbs(c.attempts[a], d.attempts[a]) && AttemptClimbs(d.attempts[a], e.attempts[a]);
    }
    forall l | l in c.legs
      ensures l in e.legs && LegKept(c.legs[l], e.legs[l])
    {
      assert LegKept(c.legs[l], d.legs[l]) && LegKept(d.legs[l], e.legs[l]);
    }
    forall b | b in c.bridges
      ensures b in e.bridges && BridgeKept(c.bridges[b], e.bridges[b])
    {
      assert BridgeKept(c.bridges[b], d.bridges[b]) && BridgeKept(d.bridges[b], e.bridges[b]);
    }
  }

  /**
   * Over every run: attempts climb and no terminal one revives, the first answer time is kept, a released bridge stays
   * released, role histories only grow, and a leg's departure is final.
   */
  lemma {:induction false} GrowsOnEveryRun(c: Call, run: seq<Step>)
    ensures Grows(c, Execute(c, run))
    decreases |run|
  {
    if run == [] {
      assert Grows(c, c);
    } else {
      var d := Apply(c, run[0]);
      StepGrows(c, run[0]);
      GrowsOnEveryRun(d, run[1..]);
      GrowsTransitive(c, d, Execute(d, run[1..]));
    }
  }

  // ---- Who is Selected ----

  ghost predicate OnlyWinnerSelected(c: Call) {
    forall a :: a in c.attempts && c.attempts[a].state.Selected? ==> c.winner == Some(a)
  }

  /** The update that selects an answered attempt without making it the winner. */
  predicate DirectSelection(c: Call, step: Step) {
    step.SetAttempt? && step.state.Selected? && step.attempt in c.attempts && c.attempts[step.attempt].state.Answered?
  }

  /** An update selects an attempt only directly. */
  lemma UpdateOnly(c: Call, a: Id, state: AttemptState, cause: Option<string>)
    requires Inv(c) && OnlyWinnerSelected(c)
    ensures OnlyWinnerSelected(c.UpdateAttempt(a, state, cause).0) <==> !DirectSelection(c, SetAttempt(a, state, cause))
  {
    var d := c.UpdateAttempt(a, state, cause).0;
    if DirectSelection(c, SetAttempt(a, state, cause)) {
      assert d.attempts[a].state.Selected? && d.winner == c.winner != Some(a);
    }
  }

  lemma AddedOnly(c: Call, a: Id, session: Id, number: string)
    requires OnlyWinnerSelected(c)
    ensures OnlyWinnerSelected(c.AddAttempt(a, session, number).0)
  {
  }

  lemma UninvolvedOnly(c: Call, step: Step)
    requires !step.Select? && !step.Replace? && !step.NewAttempt? && !step.SetAttempt?
    ensures Apply(c, step).attempts == c.attempts && Apply(c, step).winner == c.winner
  {
  }

  /** One step keeps "only the winner is Selected" exactly unless it is a direct selection. */
  lemma OnlyWinnerExactly(c: Call, step: Step)
    requires Inv(c) && OnlyWinnerSelected(c)
    ensures OnlyWinnerSelected(Apply(c, step)) <==> !DirectSelection(c, step)
  {
    match step
    case SetAttempt(a, state, cause) => UpdateOnly(c, a, state, cause);
    case NewAttempt(a, session, number) => AddedOnly(c, a, session, number);
    case Select(a, now) => ChosenOnly(c, a, now);
    case Replace(a, now) => ChosenOnly(c, a, now);
    case _ => UninvolvedOnly(c, step);
  }

  lemma ChosenOnly(c: Call, a: Id, now: nat)
    requires OnlyWinnerSelected(c)
    ensures OnlyWinnerSelected(c.Choose(a, now).0)
  {
    if c.Choose(a, now).1.Ok? {
      SelectionExact(c, a, now);
    }
  }

  /** Only the winner is Selected, at the start and after every step. */
  ghost predicate AlwaysOnlyWinner(c: Call, run: seq<Step>)
    decreases |run|
  {
    OnlyWinnerSelected(c) && (run != [] ==> AlwaysOnlyWinner(Apply(c, run[0]), run[1..]))
  }

  ghost predicate NeverDirect(c: Call, run: seq<Step>)
    decreases |run|
  {
    run != [] ==> !DirectSelection(c, run[0]) && NeverDirect(Apply(c, run[0]), run[1..])
  }

  /** A run keeps "only the winner is Selected" throughout exactly if none of its steps is a direct selection. */
  lemma {:induction false} OnlyWinnerOnEveryRun(c: Call, run: seq<Step>)
    requires Inv(c) && OnlyWinnerSelected(c)
    ensures AlwaysOnlyWinner(c, run) <==> NeverDirect(c, run)
    decreases |run|
  {
    if run != [] {
      OnlyWinnerExactly(c, run[0]);
      StepSafe(c, run[0]);
      if OnlyWinnerSelected(Apply(c, run[0])) {
        OnlyWinnerOnEveryRun(Apply(c, run[0]), run[1..]);
      }
    }
  }

  lemma {:induction false} ExecuteConcat(c: Call, first: seq<Step>, second: seq<Step>)
    ensures Execute(c, first + second) == Execute(Execute(c, first), second)
    decreases |first|
  {
    if first == [] {
      assert first + second == second;
    } else {
      ExecuteConcat(Apply(c, first[0]), first[1..], second);
      assert (first + second)[1..] == first[1..] + second;
    }
  }

  lemma OneStep(c: Call, step: Step)
    ensures Execute(c, [step]) == Apply(c, step)
  {
    assert [step][1..] == [] && Execute(Apply(c, step), []) == Apply(c, step);
  }

  lemma Prepend(c: Call, step: Step, rest: seq<Step>)
    ensures Execute(c, [step] + rest) == Execute(Apply(c, step), rest)
  {
    assert ([step] + rest)[1..] == rest;
  }

  /** A callee joins, is dialled and answers. */
  function AnswerSteps(s: Session, a: Id): seq<Step> {
    [NewLeg(s), NewAttempt(a, s.id, "100"), SetAttempt(a, AttemptState.Dialing, None), SetAttempt(a, Answered, None)]
  }

  lemma Answers(c: Call, s: Session, a: Id)
    requires s.domain == c.domain && s.call == c.id && s.id !in c.legs && s.role == Callee(a) && a !in c.attempts
    requires c.policy != SingleCallee
    ensures Execute(c, AnswerSteps(s, a))
            == c.(legs := c.legs[s.id := LegOf(s)], attempts := c.attempts[a := Attempt(s.id, "100", Answered, None)])
  {
    var run := AnswerSteps(s, a);
    var c1 := Apply(c, run[0]);
    var c2 := Apply(c1, run[1]);
    var c3 := Apply(c2, run[2]);
    OneStep(c3, run[3]);
    Prepend(c2, run[2], [run[3]]);
    Prepend(c1, run[1], [run[2], run[3]]);
    Prepend(c, run[0], [run[1], run[2], run[3]]);
    assert Apply(c3, run[3]).attempts == c.attempts[a := Attempt(s.id, "100", Answered, None)];
  }

  function SelectSteps(a: Id, b: Id): seq<Step> { [SetAttempt(a, Selected, None), SetAttempt(b, Selected, None)] }

  /** Direct selections make two answered attempts Selected at once, and leave the winner as it was. */
  lemma TwoSelected(c: Call, a: Id, b: Id)
    requires a != b && a in c.attempts && b in c.attempts
    requires c.attempts[a].state.Answered? && c.attempts[b].state.Answered?
    ensures var d := Execute(c, SelectSteps(a, b));
            && a in d.attempts && b in d.attempts && d.winner == c.winner
            && d.attempts[a].state.Selected? && d.attempts[b].state.Selected?
  {
    var run := SelectSteps(a, b);
    OneStep(Apply(c, run[0]), run[1]);
    Prepend(c, run[0], [run[1]]);
  }

  /** Such a call is reachable: from a new call in which two callees are dialled in parallel and both answer. */
  lemma TwoSelectedReachable(caller: Session, s: Session, t: Session, a: Id, b: Id)
    requires caller.role == Caller && s.role == Callee(a) && t.role == Callee(b) && a != b
    requires s.domain == t.domain == caller.domain && s.call == t.call == caller.call
    requires s.id != t.id && s.id != caller.id && t.id != caller.id
    ensures var c := NewCall(caller, ParallelFirstAnswer).value;
            var d := Execute(c, AnswerSteps(s, a) + AnswerSteps(t, b) + SelectSteps(a, b));
            && a in d.attempts && b in d.attempts && d.winner == None
            && d.attempts[a].state.Selected? && d.attempts[b].state.Selected?
  {
    var c := NewCall(caller, ParallelFirstAnswer).value;
    var c1 := Execute(c, AnswerSteps(s, a));
    Answers(c, s, a);
    Answers(c1, t, b);
    ExecuteConcat(c, AnswerSteps(s, a), AnswerSteps(t, b));
    ExecuteConcat(c, AnswerSteps(s, a) + AnswerSteps(t, b), SelectSteps(a, b));
    TwoSelected(Execute(c1, AnswerSteps(t, b)), a, b);
  }

  // ---- The coordinator ----

  /** Changes of ownership during a run. */
  function Moves(c: Call, run: seq<Step>): nat
    decreases |run|
  {
    if run == [] then 0
    else (if Apply(c, run[0]).coordinator != c.coordinator then 1 else 0) + Moves(Apply(c, run[0]), run[1..])
  }

  lemma CoordinatorStep(c: Call, step: Step)
    ensures var d := Apply(c, step);
            d.generation == c.generation + if d.coordinator != c.coordinator then 1 else 0
  {
  }

  /** The generation counts the changes of ownership, so each generation has exactly one owner, which is a leg. */
  lemma {:induction false} LineageOnEveryRun(c: Call, run: seq<Step>)
    requires Inv(c)
    ensures var d := Execute(c, run);
            && d.generation == c.generation + Moves(c, run)
            && (d.generation == c.generation ==> d.coordinator == c.coordinator)
            && d.coordinator in d.legs
    decreases |run|
  {
    if run != [] {
      CoordinatorStep(c, run[0]);
      StepSafe(c, run[0]);
      LineageOnEveryRun(Apply(c, run[0]), run[1..]);
    }
  }

  /** An (owner, generation) pair moves ownership at most once: every later hand-off with that generation is stale. */
  lemma MovesAtMostOnce(c: Call, step: Step, run: seq<Step>, owner: Id, target: Id)
    requires Inv(c) && Apply(c, step).coordinator != c.coordinator
    ensures var d := Execute(Apply(c, step), run);
            d.Handoff(owner, c.generation, target) == (d, Err(StaleCoordinator(d.coordinator, d.generation)))
  {
    CoordinatorStep(c, step);
    StepSafe(c, step);
    LineageOnEveryRun(Apply(c, step), run);
  }

  /** A leg that has left never becomes coordinator again, even if its state is set back. */
  lemma LeftIsFinal(c: Call, session: Id, run: seq<Step>, owner: Id, expected: nat)
    requires session in c.legs && c.legs[session].leftAt.Some?
    ensures Execute(c, run).Handoff(owner, expected, session).1.Err?
  {
    GrowsOnEveryRun(c, run);
  }

  // ---- Hand-off candidates ----

  lemma BeforeTotal(c: Call, continuation: Option<Id>, x: Id, y: Id)
    ensures c.Before(continuation, x, y) || c.Before(continuation, y, x)
  {
    StrTotal(x, y);
  }

  lemma BeforeTransitive(c: Call, continuation: Option<Id>, x: Id, y: Id, z: Id)
    requires c.Before(continuation, x, y) && c.Before(continuation, y, z)
    ensures c.Before(continuation, x, z)
  {
    if StrLeq(x, y) && StrLeq(y, z) {
      StrTransitive(x, y, z);
    }
  }

  lemma CandidateOrder(c: Call, continuation: Option<Id>)
    ensures Order((x: Id, y: Id) => c.Before(continuation, x, y))
  {
    forall x, y ensures c.Before(continuation, x, y) || c.Before(continuation, y, x) {
      BeforeTotal(c, continuation, x, y);
    }
    forall x, y, z | c.Before(continuation, x, y) && c.Before(continuation, y, z) ensures c.Before(continuation, x, z) {
      BeforeTransitive(c, continuation, x, y, z);
    }
  }

  lemma {:induction false} CandidatesAmongExact(c: Call, ids: seq<Id>)
    requires Duplicateless(ids)
    ensures Duplicateless(c.CandidatesAmong(ids))
    ensures forall x :: x in c.CandidatesAmong(ids) <==> x in ids && c.Candidate(x)
  {
    if ids != [] {
      var front, last := ids[..|ids| - 1], ids[|ids| - 1];
      CandidatesAmongExact(c, front);
      assert ids == front + [last];
      assert last !in front;
    }
  }

  /** The list is sorted, without repetition, and holds exactly the candidates. */
  lemma CandidatesExact(c: Call, continuation: Option<Id>)
    ensures forall i, j :: 0 <= i < j < |c.Candidates(continuation)| ==>
              c.Before(continuation, c.Candidates(continuation)[i], c.Candidates(continuation)[j])
    ensures Duplicateless(c.Candidates(continuation))
    ensures forall x :: x in c.Candidates(continuation) <==> c.Candidate(x)
  {
    var leq := (x: Id, y: Id) => c.Before(continuation, x, y);
    var among := c.CandidatesAmong(Ascending(c.legs.Keys));
    var sorted := c.Candidates(continuation);
    CandidateOrder(c, continuation);
    SortSorts(among, leq);
    CandidatesAmongExact(c, Ascending(c.legs.Keys));
    assert sorted == Sort(among, leq);
    DuplicatelessPart(among, sorted);
    forall x | c.Candidate(x) ensures x in sorted {
      assert x in Ascending(c.legs.Keys) && x in among && x in multiset(sorted);
    }
  }

  /**
   * Below the last generation the candidates are exactly the other legs a hand-off accepts; at it, none is
   * accepted.
   */
  lemma CandidatesAreAccepted(c: Call, continuation: Option<Id>, x: Id)
    requires c.generation <= U64_MAX
    ensures c.generation < U64_MAX ==>
              (x in c.Candidates(continuation) <==>
                x != c.coordinator && c.Handoff(c.coordinator, c.generation, x).1.Ok?)
    ensures c.generation == U64_MAX && x != c.coordinator ==> c.Handoff(c.coordinator, c.generation, x).1.Err?
  {
    CandidatesExact(c, continuation);
  }

  /** The first of the list is not after any other. */
  lemma FirstIsBefore(c: Call, continuation: Option<Id>, x: Id)
    requires c.Candidate(x)
    ensures var list := c.Candidates(continuation);
            list != [] && c.Candidate(list[0]) && c.Tier(continuation, list[0]) <= c.Tier(continuation, x)
  {
    CandidatesExact(c, continuation);
    var list := c.Candidates(continuation);
    assert x in list;
    var i :| 0 <= i < |list| && list[i] == x;
    assert list[0] in list;
    if i > 0 {
      assert c.Before(continuation, list[0], list[i]);
    }
  }

  /** An available explicit continuation comes first; without one, a candidate in an active bridge does. */
  lemma PreferredFirst(c: Call, continuation: Option<Id>)
    ensures continuation.Some? && c.Candidate(continuation.value) ==>
              c.Candidates(continuation) != [] && c.Candidates(continuation)[0] == continuation.value
    ensures (continuation.None? || !c.Candidate(continuation.value))
            && (exists x :: c.Candidate(x) && c.InActiveBridge(x)) ==>
              c.Candidates(continuation) != [] && c.InActiveBridge(c.Candidates(continuation)[0])
  {
    if continuation.Some? && c.Candidate(continuation.value) {
      FirstIsBefore(c, continuation, continuation.value);
    } else if x :| c.Candidate(x) && c.InActiveBridge(x) {
      FirstIsBefore(c, continuation, x);
    }
  }
}
