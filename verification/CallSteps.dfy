/** What single operations of the call aggregate do and do not change. */
module CallSteps {
  import opened Prelude
  import opened Ordering
  import opened CallAggregates
  import opened CallRuns

  // ---- The winner ----

  /** Selecting never changes a set winner: the winner again is confirmed, any other attempt is refused. */
  lemma SelectKeepsWinner(c: Call, a: Id, now: nat)
    requires Inv(c) && c.winner.Some?
    ensures var (d, answer) := c.SelectWinner(a, now);
            && d == c
            && answer == (if a == c.winner.value then Ok(Selection(c.attempts[a].session, []))
                          else Err(WinnerAlreadySelected(c.winner.value)))
  {
  }

  /** A step sets the winner exactly if it selects a first one, or replaces it, by an answered attempt. */
  lemma WinnerChangesExactly(c: Call, step: Step)
    ensures var answered := (step.Select? || step.Replace?) && step.attempt in c.attempts
                            && c.attempts[step.attempt].state.Answered?;
            && (Apply(c, step).winner != c.winner <==>
                  answered && (if step.Select? then c.winner.None? else c.winner != Some(step.attempt)))
            && (Apply(c, step).winner != c.winner ==>
                  && Apply(c, step).winner == Some(step.attempt)
                  && Apply(c, step).answeredAt == Some(if c.answeredAt.Some? then c.answeredAt.value else step.now))
            && (Apply(c, step).winner == c.winner ==> Apply(c, step).answeredAt == c.answeredAt)
  {
  }

  /** On a run without a replacement, a set winner stays. */
  lemma {:induction false} WinnerStays(c: Call, run: seq<Step>)
    requires c.winner.Some? && forall i :: 0 <= i < |run| ==> !run[i].Replace?
    ensures Execute(c, run).winner == c.winner && Execute(c, run).answeredAt == c.answeredAt
    decreases |run|
  {
    if run != [] {
      WinnerChangesExactly(c, run[0]);
      WinnerStays(Apply(c, run[0]), run[1..]);
    }
  }

  // ---- Attempts ----

  /** From which states an attempt can get into a state. */
  predicate CanEnter(state: AttemptState, from: AttemptState) {
    match state
    case Planned => false
    case Dialing => from.Planned?
    case Ringing => from.Dialing?
    case Answered => from.Dialing? || from.Ringing?
    case Selected => from.Answered?
    case Cancelled => from.Planned? || from.Dialing? || from.Ringing? || from.Answered?
    case Failed => from.Planned? || from.Dialing? || from.Ringing? || from.Answered?
    case Destroyed => from.Selected? || from.Cancelled? || from.Failed?
  }

  /** An update is refused, has nothing to do, or moves this one attempt, which keeps its cause unless given one. */
  lemma AttemptUpdatedExactly(c: Call, a: Id, state: AttemptState, cause: Option<string>)
    ensures var (d, answer) := c.UpdateAttempt(a, state, cause);
            if a !in c.attempts then d == c && answer == Err(AttemptNotFound)
            else
              var before := c.attempts[a];
              if before.state == state then d == c && answer == Ok(())
              else if CanEnter(state, before.state) then
                && answer == Ok(()) && d == c.(attempts := d.attempts)
                && d.attempts == c.attempts[a := Attempt(before.session, before.target, state,
                                                         if cause == None then before.cause else cause)]
              else d == c && answer == Err(InvalidTransition)
  {
  }

  /** An attempt is added, planned, exactly for a leg that plays its callee, once, and once at all for one callee. */
  lemma AttemptAddedExactly(c: Call, a: Id, session: Id, number: string)
    ensures var (d, answer) := c.AddAttempt(a, session, number);
            && (answer.Ok? <==>
                  && session in c.legs && c.legs[session].role == Callee(a) && a !in c.attempts
                  && (c.policy == SingleCallee ==> c.attempts.Keys == {}))
            && d == (if answer.Ok?
                     then c.(attempts := c.attempts[a := Attempt(session, number, AttemptState.Planned, None)]) else c)
            && (answer == Err(SingleCalleeLimit) ==> c.policy == SingleCallee && c.attempts.Keys != {})
            && (answer == Err(DuplicateAttempt) ==> a in c.attempts)
            && (answer == Err(SessionNotFound) <==> session !in c.legs)
            && (answer == Err(RoleMismatch) <==> session in c.legs && c.legs[session].role != Callee(a))
  {
    assert c.attempts.Keys == {} ==> c.attempts == map[];
  }

  // ---- Legs ----

  /** Nothing but this leg has changed, and of it at most role, state, role history and leaving time. */
  ghost predicate OnlyLeg(c: Call, d: Call, session: Id) {
    && session in c.legs && d == c.(legs := d.legs) && d.legs.Keys == c.legs.Keys
    && (forall x :: x in c.legs && x != session ==> d.legs[x] == c.legs[x])
    && d.legs[session].joinedAt == c.legs[session].joinedAt
  }

  /** A new role is entered in the history with its time, the role there is is not. */
  lemma RoleUpdatedExactly(c: Call, session: Id, role: LegRole, now: nat)
    ensures var (d, answer) := c.UpdateLegRole(session, role, now);
            && (answer == Ok(()) <==> session in c.legs) && (session !in c.legs ==> answer == Err(SessionNotFound))
            && (if session !in c.legs || c.legs[session].role == role then d == c
                else
                  && OnlyLeg(c, d, session) && d.legs[session].role == role
                  && d.legs[session].roles == c.legs[session].roles + [RoleAssignment(role, now)]
                  && d.legs[session].state == c.legs[session].state
                  && d.legs[session].leftAt == c.legs[session].leftAt)
  {
  }

  /** A leg that leaves is destroyed, at the time it first left, and no longer available. */
  lemma LegLeftExactly(c: Call, session: Id, now: nat)
    ensures var (d, answer) := c.MarkLegLeft(session, now);
            && (answer == Ok(()) <==> session in c.legs)
            && (session !in c.legs ==> d == c && answer == Err(SessionNotFound))
            && (session in c.legs ==>
                  && OnlyLeg(c, d, session) && !d.legs[session].Available()
                  && d.legs[session].state == LegState.Destroyed
                  && d.legs[session].leftAt == (if c.legs[session].leftAt == None then Some(now)
                                                else c.legs[session].leftAt)
                  && d.legs[session].role == c.legs[session].role && d.legs[session].roles == c.legs[session].roles)
  {
  }

  lemma LegStateExactly(c: Call, session: Id, state: LegState)
    ensures var (d, answer) := c.UpdateLegState(session, state);
            && (answer == Ok(()) <==> session in c.legs)
            && (session !in c.legs ==> d == c && answer == Err(SessionNotFound))
            && (session in c.legs ==>
                  OnlyLeg(c, d, session) && d.legs[session] == c.legs[session].(state := state))
  {
  }

  /** A session of this call and domain becomes a leg, once, with one role from the time it was created. */
  lemma LegAddedExactly(c: Call, s: Session)
    ensures var (d, answer) := c.AddLeg(s);
            && (answer == Ok(()) <==> s.call == c.id && s.domain == c.domain && s.id !in c.legs)
            && (answer == Err(ForeignSession) <==> s.call != c.id || s.domain != c.domain)
            && (answer.Err? ==> d == c && answer.error in {ForeignSession, DuplicateSession})
            && (answer.Ok? ==>
                  && d == c.(legs := d.legs) && d.legs.Keys == c.legs.Keys + {s.id}
                  && (forall x :: x in c.legs ==> d.legs[x] == c.legs[x])
                  && d.legs[s.id] == Leg(s.role, s.state, [RoleAssignment(s.role, s.createdAt)], s.createdAt, None))
  {
  }

  /** The history ends in the role a leg has, and no assignment repeats the one before it. */
  ghost predicate History(leg: Leg) {
    && leg.roles != [] && leg.roles[|leg.roles| - 1].role == leg.role
    && forall i :: 0 < i < |leg.roles| ==> leg.roles[i].role != leg.roles[i - 1].role
  }

  ghost predicate Histories(c: Call) { forall x :: x in c.legs ==> History(c.legs[x]) }

  lemma LegsKept(c: Call, step: Step)
    requires !step.SetRole? && !step.LegLeft? && !step.SetLegState? && !step.NewLeg?
    ensures Apply(c, step).legs == c.legs
  {
  }

  lemma RoleHistories(c: Call, session: Id, role: LegRole, now: nat)
    requires Histories(c)
    ensures Histories(c.UpdateLegRole(session, role, now).0)
  {
    RoleUpdatedExactly(c, session, role, now);
    assert session in c.legs ==> History(c.legs[session]);
  }

  lemma AddedHistories(c: Call, s: Session)
    requires Histories(c)
    ensures Histories(c.AddLeg(s).0)
  {
    LegAddedExactly(c, s);
  }

  lemma StepHistories(c: Call, step: Step)
    requires Histories(c)
    ensures Histories(Apply(c, step))
  {
    match step
    case SetRole(session, role, now) => RoleHistories(c, session, role, now);
    case LegLeft(session, now) => LegLeftExactly(c, session, now);
    case SetLegState(session, state) => LegStateExactly(c, session, state);
    case NewLeg(s) => AddedHistories(c, s);
    case _ => LegsKept(c, step);
  }

  /** From a new call on, every leg's role history ends in its role and records changes only. */
  lemma {:induction false} HistoriesOnEveryRun(c: Call, run: seq<Step>)
    requires Histories(c)
    ensures Histories(Execute(c, run))
    decreases |run|
  {
    if run != [] {
      StepHistories(c, run[0]);
      HistoriesOnEveryRun(Apply(c, run[0]), run[1..]);
    }
  }

  /** A new call has the caller's leg, which owns generation 1, and nothing else. */
  lemma NewCallExactly(caller: Session, policy: Policy)
    requires NewCall(caller, policy).Ok?
    ensures var c := NewCall(caller, policy).value;
            && c.id == caller.call && c.domain == caller.domain && c.policy == policy
            && c.callerLeg == caller.id && c.coordinator == caller.id && c.generation == 1
            && c.legs.Keys == {caller.id} && c.attempts.Keys == {} && c.bridges.Keys == {}
            && c.winner.None? && c.answeredAt.None? && Histories(c)
            && c.legs[caller.id].role.Caller? && c.legs[caller.id].state == caller.state
            && c.legs[caller.id].joinedAt == caller.createdAt && c.legs[caller.id].leftAt.None?
  {
  }

  // ---- Bridges ----

  lemma BridgeAddedExactly(c: Call, bridge: Id, a: Id, b: Id, media: nat, now: nat)
    ensures var (d, answer) := c.AddBridge(bridge, a, b, media, now);
            && (answer == Ok(()) <==> a != b && a in c.legs && b in c.legs && bridge !in c.bridges)
            && (answer == Err(DistinctLegsRequired) <==> a == b)
            && (answer == Err(DuplicateBridge) ==> bridge in c.bridges)
            && (answer == Err(SessionNotFound) ==> a !in c.legs || b !in c.legs)
            && (answer.Err? ==> d == c)
            && (answer.Ok? ==>
                  && d == c.(bridges := d.bridges) && d.bridges.Keys == c.bridges.Keys + {bridge}
                  && (forall x :: x in c.bridges ==> d.bridges[x] == c.bridges[x])
                  && d.bridges[bridge] == Bridge(a, b, media, BridgeState.Planned, now, None, None)
                  && !d.bridges[bridge].Connects(a) && !d.bridges[bridge].Connects(b))
  {
  }

  /** A planned bridge of this media generation connects its legs from now on; a released one never does again. */
  lemma BridgeActivatedExactly(c: Call, bridge: Id, media: nat, now: nat)
    ensures var (d, answer) := c.ActivateBridge(bridge, media, now);
            if bridge !in c.bridges then d == c && answer == Err(BridgeNotFound)
            else
              var before := c.bridges[bridge];
              && (answer == Ok(()) <==> before.generation == media && !before.state.Released?)
              && (answer == Err(GenerationMismatch) <==> before.generation != media)
              && (answer == Err(AlreadyReleased) <==> before.generation == media && before.state.Released?)
              && (answer.Err? || before.state.Active? ==> d == c)
              && (answer.Ok? ==>
                    && d.bridges.Keys == c.bridges.Keys && d == c.(bridges := d.bridges)
                    && (forall x :: x in c.bridges && x != bridge ==> d.bridges[x] == c.bridges[x])
                    && d.bridges[bridge].Connects(before.legA) && d.bridges[bridge].Connects(before.legB)
                    && (before.state.Planned? && before.activeAt == None ==>
                          d.bridges[bridge] == before.(state := Active, activeAt := Some(now))))
  {
  }

  /** A released bridge connects no leg, and keeps the time it was first released. */
  ghost predicate ReleasedFrom(before: Bridge, after: Bridge, now: nat) {
    && (forall session :: !after.Connects(session))
    && after == before.(state := Released, releasedAt := if before.releasedAt == None then Some(now)
                                                         else before.releasedAt)
  }

  lemma BridgeReleasedExactly(c: Call, bridge: Id, now: nat)
    ensures var (d, answer) := c.ReleaseBridge(bridge, now);
            && (answer == if bridge in c.bridges then Ok(()) else Err(BridgeNotFound))
            && d == c.(bridges := d.bridges) && d.bridges.Keys == c.bridges.Keys
            && (forall x :: x in c.bridges && x != bridge ==> d.bridges[x] == c.bridges[x])
            && (bridge in c.bridges ==> ReleasedFrom(c.bridges[bridge], d.bridges[bridge], now))
  {
  }

  lemma AllReleasedExactly(c: Call, now: nat)
    ensures var d := c.ReleaseAllBridges(now);
            && d == c.(bridges := d.bridges) && d.bridges.Keys == c.bridges.Keys
            && (forall x :: x in c.bridges ==> ReleasedFrom(c.bridges[x], d.bridges[x], now))
            && forall session :: !d.InActiveBridge(session)
  {
  }

  // ---- The coordinator ----

  /** Ownership moves, to an available leg other than the owner, exactly for the current owner and generation. */
  lemma HandedOverExactly(c: Call, owner: Id, expected: nat, target: Id)
    ensures var (d, answer) := c.Handoff(owner, expected, target);
            && (d != c <==>
                  && owner == c.coordinator && expected == c.generation && target in c.legs && target != owner
                  && c.legs[target].leftAt.None? && c.legs[target].state != LegState.Destroyed
                  && c.generation < 0xFFFF_FFFF_FFFF_FFFF)
            && (d != c ==> d == c.(coordinator := target, generation := c.generation + 1))
            && (answer.Ok? <==> d != c || (owner == c.coordinator == target && expected == c.generation
                                           && target in c.legs && c.legs[target].Available()))
            && (answer.Ok? ==> answer.value == d.generation)
            && (answer == Err(StaleCoordinator(c.coordinator, c.generation)) <==>
                  owner != c.coordinator || expected != c.generation)
  {
  }

  /** The leg is bridged and an end of an active bridge. */
  ghost predicate InBridge(c: Call, x: Id)
    requires x in c.legs
  {
    c.legs[x].state == LegState.Bridged && exists b :: b in c.bridges && ActiveEnd(c.bridges[b], x)
  }

  predicate ActiveEnd(bridge: Bridge, x: Id) {
    bridge.state == BridgeState.Active && (x == bridge.legA || x == bridge.legB)
  }

  lemma InBridgeExactly(c: Call, x: Id)
    requires x in c.legs
    ensures c.InActiveBridge(x) <==> InBridge(c, x)
  {
    if b :| b in c.bridges && c.bridges[b].Connects(x) {
      assert ActiveEnd(c.bridges[b], x);
    }
    if b :| b in c.bridges && ActiveEnd(c.bridges[b], x) {
      assert c.bridges[b].Connects(x);
    }
  }

  /**
   * Of two candidates the earlier one is the explicit continuation, or else is in an active bridge unless neither is,
   * or else joined first, or at the same time and has the smaller id.
   */
  lemma CandidatesInOrder(c: Call, continuation: Option<Id>, i: nat, j: nat)
    requires i < j < |c.Candidates(continuation)|
    ensures var x, y := c.Candidates(continuation)[i], c.Candidates(continuation)[j];
            && x in c.legs && y in c.legs && continuation != Some(y)
            && (continuation == Some(x) || (InBridge(c, x) && !InBridge(c, y)) ||
                (InBridge(c, x) == InBridge(c, y) &&
                 (c.legs[x].joinedAt < c.legs[y].joinedAt ||
                  (c.legs[x].joinedAt == c.legs[y].joinedAt && Smaller(x, y)))))
  {
    var list := c.Candidates(continuation);
    CandidatesExact(c, continuation);
    assert c.Before(continuation, list[i], list[j]) && list[i] in list && list[j] in list;
    InBridgeExactly(c, list[i]);
    InBridgeExactly(c, list[j]);
    SmallerExactly(list[i], list[j]);
  }
}
