/** The call aggregate: legs, callee attempts, bridges, the winner and the coordinator of one call. */
module CallAggregates {
  import opened Prelude
  import opened Ordering

  type Id = string

  datatype LegState = Idle | Routing | Dialing | WaitForAnswer | Bridged | HangingUp | Destroyed {
    predicate Terminal() { Destroyed? }
  }

  datatype LegRole = Caller | Callee(attempt: Id)

  datatype Session = Session(id: Id, domain: Id, call: Id, role: LegRole, state: LegState, createdAt: nat)

  datatype RoleAssignment = RoleAssignment(role: LegRole, since: nat)

  datatype Leg = Leg(role: LegRole, state: LegState, roles: seq<RoleAssignment>, joinedAt: nat, leftAt: Option<nat>) {
    predicate Available() { !state.Terminal() && leftAt.None? }
  }

  function LegOf(s: Session): Leg { Leg(s.role, s.state, [RoleAssignment(s.role, s.createdAt)], s.createdAt, None) }

  datatype BridgeState = Planned | Active | Released

  datatype Bridge = Bridge(legA: Id, legB: Id, generation: nat, state: BridgeState, createdAt: nat,
                           activeAt: Option<nat>, releasedAt: Option<nat>) {
    /** The bridge is active on the leg. */
    predicate Connects(session: Id) { state == Active && (legA == session || legB == session) }

    function Release(now: nat): Bridge { this.(state := Released, releasedAt := OrElse(releasedAt, now)) }
  }

  datatype AttemptState = Planned | Dialing | Ringing | Answered | Selected | Cancelled | Failed | Destroyed {
    predicate Terminal() { Cancelled? || Failed? || Destroyed? }
  }

  datatype Attempt = Attempt(session: Id, target: string, state: AttemptState, cause: Option<string>)

  datatype Policy = SingleCallee | ParallelFirstAnswer | SequentialHunt

  datatype Selection = Selection(winner: Id, cancelled: seq<Id>)

  datatype CallError =
    | CallerRoleRequired | ForeignSession | DuplicateSession | SessionNotFound | DuplicateAttempt | SingleCalleeLimit
    | AttemptNotFound | RoleMismatch | NotAnswered | WinnerAlreadySelected(winner: Id) | InvalidTransition
    | DuplicateBridge | BridgeNotFound | DistinctLegsRequired | GenerationMismatch | AlreadyReleased
    | StaleCoordinator(owner: Id, generation: nat) | TargetUnavailable | GenerationExhausted
    | WinnerMissing  // stands for the panic on a winner that names no attempt

  function OrElse(o: Option<nat>, x: nat): Option<nat> { if o.Some? then o else Some(x) }

  predicate ValidTransition(from: AttemptState, to: AttemptState) {
    match from
    case Planned => to.Dialing? || to.Cancelled? || to.Failed?
    case Dialing => to.Ringing? || to.Answered? || to.Cancelled? || to.Failed?
    case Ringing => to.Answered? || to.Cancelled? || to.Failed?
    case Answered => to.Selected? || to.Cancelled? || to.Failed?
    case Selected => to.Destroyed?
    case Cancelled => to.Destroyed?
    case Failed => to.Destroyed?
    case Destroyed => false
  }

  // ---- Keys in order ----

  predicate Least(s: set<Id>, x: Id) { x in s && forall y :: y in s ==> StrLeq(x, y) }

  lemma {:induction false} LeastExists(s: set<Id>)
    requires s != {}
    ensures exists x :: Least(s, x)
  {
    var z :| z in s;
    StrTotal(z, z);
    if s == {z} {
      assert Least(s, z);
    } else {
      LeastExists(s - {z});
      var x :| Least(s - {z}, x);
      StrTotal(x, z);
      if StrLeq(x, z) {
        assert Least(s, x);
      } else {
        LowerBound(s - {z}, x, z);
        assert Least(s, z);
      }
    }
  }

  lemma LowerBound(s: set<Id>, x: Id, z: Id)
    requires Least(s, x) && StrLeq(z, x)
    ensures forall y :: y in s ==> StrLeq(z, y)
  {
    forall y | y in s ensures StrLeq(z, y) {
      StrTransitive(z, x, y);
    }
  }

  lemma LeastUnique(s: set<Id>)
    ensures forall x, y :: Least(s, x) && Least(s, y) ==> x == y
  {
    forall x, y | Least(s, x) && Least(s, y)
      ensures x == y
    {
      StrAntisymmetric(x, y);
    }
  }

  ghost predicate Ascends(ids: seq<Id>) {
    forall i, j :: 0 <= i < j < |ids| ==> StrLeq(ids[i], ids[j])
  }

  ghost predicate Enumerates(ids: seq<Id>, s: set<Id>) {
    Duplicateless(ids) && forall x :: x in ids <==> x in s
  }

  /** The order in which a map's entries are visited. */
  function Ascending(s: set<Id>): (r: seq<Id>)
    ensures Enumerates(r, s)
  {
    if s == {} then []
    else
      LeastExists(s);
      LeastUnique(s);
      var x :| Least(s, x);
      var rest := Ascending(s - {x});
      assert forall i :: 0 <= i < |rest| ==> rest[i] in s - {x};
      [x] + rest
  }

  lemma {:induction false} AscendingAscends(s: set<Id>)
    ensures Ascends(Ascending(s))
  {
    if s != {} {
      LeastExists(s);
      var r := Ascending(s);
      AscendingAscends(s - {r[0]});
      var rest := Ascending(s - {r[0]});
      assert Least(s, r[0]) && r == [r[0]] + rest;
      forall i | 0 <= i < |rest| ensures StrLeq(r[0], rest[i]) {
        assert rest[i] in rest;
      }
    }
  }

  type Attempts = map<Id, Attempt>

  predicate LiveOther(attempts: Attempts, winner: Id, a: Id)
    requires a in attempts
  {
    a != winner && !attempts[a].state.Terminal()
  }

  /** The live attempts among the given ones, other than the winner, in order. */
  function LiveAmong(attempts: Attempts, winner: Id, ids: seq<Id>): (r: seq<Id>)
    requires forall i :: 0 <= i < |ids| ==> ids[i] in attempts
    ensures forall i :: 0 <= i < |r| ==> r[i] in attempts && r[i] != winner
  {
    if ids == [] then []
    else
      var last := ids[|ids| - 1];
      LiveAmong(attempts, winner, ids[..|ids| - 1]) + if LiveOther(attempts, winner, last) then [last] else []
  }

  function LiveOthers(attempts: Attempts, winner: Id): (r: seq<Id>)
    ensures forall i :: 0 <= i < |r| ==> r[i] in attempts && r[i] != winner
  {
    LiveAmong(attempts, winner, Ascending(attempts.Keys))
  }

  lemma {:induction false} LiveAmongExact(attempts: Attempts, winner: Id, ids: seq<Id>)
    requires Ascends(ids) && Duplicateless(ids) && forall i :: 0 <= i < |ids| ==> ids[i] in attempts
    ensures Ascends(LiveAmong(attempts, winner, ids)) && Duplicateless(LiveAmong(attempts, winner, ids))
    ensures forall a :: a in LiveAmong(attempts, winner, ids) <==> a in ids && LiveOther(attempts, winner, a)
  {
    if ids != [] {
      var front, last := ids[..|ids| - 1], ids[|ids| - 1];
      LiveAmongExact(attempts, winner, front);
      assert ids == front + [last];
      var live := LiveAmong(attempts, winner, front);
      forall i | 0 <= i < |live|
        ensures StrLeq(live[i], last) && live[i] != last
      {
        assert live[i] in front;
      }
    }
  }

  /** Sessions of the given attempts. */
  function SessionsOf(attempts: Attempts, ids: seq<Id>): seq<Id>
    requires forall i :: 0 <= i < |ids| ==> ids[i] in attempts
  {
    seq(|ids|, i requires 0 <= i < |ids| => attempts[ids[i]].session)
  }

  function CancelOthers(attempts: Attempts, winner: Id): Attempts {
    map a | a in attempts :: CancelIfLive(attempts, winner, a)
  }

  function CancelIfLive(attempts: Attempts, winner: Id, a: Id): Attempt
    requires a in attempts
  {
    if LiveOther(attempts, winner, a) then attempts[a].(state := Cancelled) else attempts[a]
  }

  /** The attempts after the first n of the given ones were cancelled if live. */
  ghost function CancelledFirst(attempts: Attempts, winner: Id, ids: seq<Id>, n: nat): (r: Attempts)
    requires n <= |ids| && forall i :: 0 <= i < |ids| ==> ids[i] in attempts
    ensures r.Keys == attempts.Keys
  {
    if n == 0 then attempts
    else CancelledFirst(attempts, winner, ids, n - 1)[ids[n - 1] := CancelIfLive(attempts, winner, ids[n - 1])]
  }

  lemma {:induction false} CancelledAt(attempts: Attempts, winner: Id, ids: seq<Id>, n: nat, x: Id)
    requires n <= |ids| && (forall i :: 0 <= i < |ids| ==> ids[i] in attempts) && x in attempts
    ensures CancelledFirst(attempts, winner, ids, n)[x]
            == if x in ids[..n] then CancelIfLive(attempts, winner, x) else attempts[x]
  {
    if n > 0 {
      CancelledAt(attempts, winner, ids, n - 1, x);
      assert ids[..n] == ids[..n - 1] + [ids[n - 1]];
    }
  }

  lemma NotYetCancelled(attempts: Attempts, winner: Id, ids: seq<Id>, n: nat)
    requires Duplicateless(ids) && n < |ids| && forall i :: 0 <= i < |ids| ==> ids[i] in attempts
    ensures CancelledFirst(attempts, winner, ids, n)[ids[n]] == attempts[ids[n]]
  {
    CancelledAt(attempts, winner, ids, n, ids[n]);
    assert ids[n] !in ids[..n];
  }

  lemma AllCancelled(attempts: Attempts, winner: Id, ids: seq<Id>)
    requires Enumerates(ids, attempts.Keys)
    ensures ids[..|ids|] == ids && CancelledFirst(attempts, winner, ids, |ids|) == CancelOthers(attempts, winner)
  {
    assert ids[..|ids|] == ids;
    forall x | x in attempts
      ensures CancelledFirst(attempts, winner, ids, |ids|)[x] == CancelIfLive(attempts, winner, x)
    {
      CancelledAt(attempts, winner, ids, |ids|, x);
      assert x in ids;
    }
  }

  /** The loop's progress over the first n of the given attempts. */
  ghost predicate CancelledSoFar(before: Attempts, winner: Id, ids: seq<Id>, n: nat, now: Attempts, cancelled: seq<Id>)
    requires n <= |ids| && Enumerates(ids, before.Keys)
  {
    && now == CancelledFirst(before, winner, ids, n)
    && cancelled == SessionsOf(before, LiveAmong(before, winner, ids[..n]))
  }

  lemma CancelNext(before: Attempts, winner: Id, ids: seq<Id>, n: nat, now: Attempts, cancelled: seq<Id>)
    requires n < |ids| && Enumerates(ids, before.Keys) && CancelledSoFar(before, winner, ids, n, now, cancelled)
    ensures ids[n] in now
    ensures CancelledSoFar(before, winner, ids, n + 1, now[ids[n] := CancelIfLive(now, winner, ids[n])],
                           cancelled + if LiveOther(now, winner, ids[n]) then [now[ids[n]].session] else [])
  {
    LiveSessionsNext(before, winner, ids, n);
    NotYetCancelled(before, winner, ids, n);
  }

  lemma LiveSessionsNext(attempts: Attempts, winner: Id, ids: seq<Id>, i: nat)
    requires i < |ids| && forall j :: 0 <= j < |ids| ==> ids[j] in attempts
    ensures SessionsOf(attempts, LiveAmong(attempts, winner, ids[..i + 1]))
            == SessionsOf(attempts, LiveAmong(attempts, winner, ids[..i]))
               + if LiveOther(attempts, winner, ids[i]) then [attempts[ids[i]].session] else []
  {
    assert ids[..i + 1][..i] == ids[..i];
  }

  // ---- The aggregate as a value ----

  datatype Call = Call(id: Id, domain: Id, callerLeg: Id, coordinator: Id, generation: nat, policy: Policy,
                       legs: map<Id, Leg>, attempts: Attempts, bridges: map<Id, Bridge>,
                       winner: Option<Id>, answeredAt: Option<nat>) {

    function UpdateLegRole(session: Id, role: LegRole, now: nat): (Call, Result<(), CallError>) {
      if session !in legs then (this, Err(SessionNotFound))
      else if legs[session].role == role then (this, Ok(()))
      else
        var leg := legs[session].(role := role, roles := legs[session].roles + [RoleAssignment(role, now)]);
        (this.(legs := legs[session := leg]), Ok(()))
    }

    function MarkLegLeft(session: Id, now: nat): (Call, Result<(), CallError>) {
      if session !in legs then (this, Err(SessionNotFound))
      else
        var leg := legs[session].(leftAt := OrElse(legs[session].leftAt, now), state := LegState.Destroyed);
        (this.(legs := legs[session := leg]), Ok(()))
    }

    function UpdateLegState(session: Id, state: LegState): (Call, Result<(), CallError>) {
      if session !in legs then (this, Err(SessionNotFound))
      else (this.(legs := legs[session := legs[session].(state := state)]), Ok(()))
    }

    function AddLeg(s: Session): (Call, Result<(), CallError>) {
      if s.domain != domain || s.call != id then (this, Err(ForeignSession))
      else if s.id in legs then (this, Err(DuplicateSession))
      else (this.(legs := legs[s.id := LegOf(s)]), Ok(()))
    }

    function AddBridge(bridge: Id, a: Id, b: Id, media: nat, now: nat): (Call, Result<(), CallError>) {
      if a == b then (this, Err(DistinctLegsRequired))
      else if a !in legs || b !in legs then (this, Err(SessionNotFound))
      else if bridge in bridges then (this, Err(DuplicateBridge))
      else (this.(bridges := bridges[bridge := Bridge(a, b, media, BridgeState.Planned, now, None, None)]), Ok(()))
    }

    function ActivateBridge(bridge: Id, media: nat, now: nat): (Call, Result<(), CallError>) {
      if bridge !in bridges then (this, Err(BridgeNotFound))
      else
        var edge := bridges[bridge];
        if edge.generation != media then (this, Err(GenerationMismatch))
        else match edge.state
          case Planned =>
            var active := edge.(state := Active, activeAt := OrElse(edge.activeAt, now));
            (this.(bridges := bridges[bridge := active]), Ok(()))
          case Active => (this, Ok(()))
          case Released => (this, Err(AlreadyReleased))
    }

    function ReleaseBridge(bridge: Id, now: nat): (Call, Result<(), CallError>) {
      if bridge !in bridges then (this, Err(BridgeNotFound))
      else (this.(bridges := bridges[bridge := bridges[bridge].Release(now)]), Ok(()))
    }

    function ReleaseAllBridges(now: nat): Call {
      this.(bridges := map b | b in bridges :: bridges[b].Release(now))
    }

    function Handoff(owner: Id, expected: nat, target: Id): (Call, Result<nat, CallError>) {
      if coordinator != owner || generation != expected then (this, Err(StaleCoordinator(coordinator, generation)))
      else if target !in legs then (this, Err(SessionNotFound))
      else if !legs[target].Available() then (this, Err(TargetUnavailable))
      else if target == owner then (this, Ok(generation))
      else if generation >= U64_MAX then (this, Err(GenerationExhausted))
      else (this.(coordinator := target, generation := generation + 1), Ok(generation + 1))
    }

    function AddAttempt(a: Id, session: Id, target: string): (Call, Result<(), CallError>) {
      if session !in legs then (this, Err(SessionNotFound))
      else if legs[session].role != Callee(a) then (this, Err(RoleMismatch))
      else if a in attempts then (this, Err(DuplicateAttempt))
      else if policy == SingleCallee && attempts != map[] then (this, Err(SingleCalleeLimit))
      else (this.(attempts := attempts[a := Attempt(session, target, AttemptState.Planned, None)]), Ok(()))
    }

    function UpdateAttempt(a: Id, state: AttemptState, cause: Option<string>): (Call, Result<(), CallError>) {
      if a !in attempts then (this, Err(AttemptNotFound))
      else if attempts[a].state == state then (this, Ok(()))
      else if !ValidTransition(attempts[a].state, state) then (this, Err(InvalidTransition))
      else
        var attempt := attempts[a].(state := state, cause := if cause.Some? then cause else attempts[a].cause);
        (this.(attempts := attempts[a := attempt]), Ok(()))
    }

    /** A new winner: every other live attempt is cancelled and its session returned, in attempt order. */
    function Choose(a: Id, now: nat): (Call, Result<Selection, CallError>) {
      if a !in attempts then (this, Err(AttemptNotFound))
      else if attempts[a].state != Answered then (this, Err(NotAnswered))
      else
        (this.(attempts := CancelOthers(attempts, a)[a := attempts[a].(state := Selected)], winner := Some(a),
               answeredAt := OrElse(answeredAt, now)),
         Ok(Selection(attempts[a].session, SessionsOf(attempts, LiveOthers(attempts, a)))))
    }

    function SelectWinner(a: Id, now: nat): (Call, Result<Selection, CallError>) {
      if winner == Some(a) then
        (this, if a in attempts then Ok(Selection(attempts[a].session, [])) else Err(WinnerMissing))
      else if winner.Some? then (this, Err(WinnerAlreadySelected(winner.value)))
      else Choose(a, now)
    }

    function ReplaceWinner(a: Id, now: nat): (Call, Result<Selection, CallError>) {
      if winner == Some(a) then SelectWinner(a, now) else Choose(a, now)
    }

    /** A bridged leg with an active bridge. */
    predicate InActiveBridge(session: Id) {
      && session in legs && legs[session].state == Bridged
      && exists b :: b in bridges && bridges[b].Connects(session)
    }

    predicate Candidate(session: Id) { session in legs && session != coordinator && legs[session].Available() }

    /** Position of a candidate: the explicit continuation first, then bridged legs, then by join time and id. */
    predicate Before(continuation: Option<Id>, x: Id, y: Id) {
      var rx, ry := Tier(continuation, x), Tier(continuation, y);
      rx < ry || (rx == ry && (Joined(x) < Joined(y) || (Joined(x) == Joined(y) && StrLeq(x, y))))
    }

    function Tier(continuation: Option<Id>, x: Id): nat {
      (if continuation == Some(x) then 0 else 2) + (if InActiveBridge(x) then 0 else 1)
    }

    function Joined(x: Id): nat { if x in legs then legs[x].joinedAt else 0 }

    function Candidates(continuation: Option<Id>): seq<Id> {
      Sort(CandidatesAmong(Ascending(legs.Keys)), (x, y) => Before(continuation, x, y))
    }

    function CandidatesAmong(ids: seq<Id>): seq<Id> {
      if ids == [] then []
      else CandidatesAmong(ids[..|ids| - 1]) + if Candidate(ids[|ids| - 1]) then [ids[|ids| - 1]] else []
    }
  }

  /** CallAggregate::new */
  function NewCall(caller: Session, policy: Policy): Result<Call, CallError> {
    if caller.role != Caller then Err(CallerRoleRequired)
    else
      var legs := map[caller.id := LegOf(caller)];
      Ok(Call(caller.call, caller.domain, caller.id, caller.id, 1, policy, legs, map[], map[], None, None))
  }

  class CallAggregate {
    const id: Id
    const domain: Id
    const callerLeg: Id
    const policy: Policy
    var coordinator: Id
    var generation: nat
    var legs: map<Id, Leg>
    var attempts: Attempts
    var bridges: map<Id, Bridge>
    var winner: Option<Id>
    var answeredAt: Option<nat>

    function View(): Call
      reads this
    {
      Call(id, domain, callerLeg, coordinator, generation, policy, legs, attempts, bridges, winner, answeredAt)
    }

    constructor (caller: Session, policy: Policy)
      requires caller.role == Caller
      ensures NewCall(caller, policy) == Ok(View())
    {
      this.id, this.domain, this.callerLeg, this.policy := caller.call, caller.domain, caller.id, policy;
      coordinator, generation := caller.id, 1;
      legs, attempts, bridges := map[caller.id := LegOf(caller)], map[], map[];
      winner, answeredAt := None, None;
    }

    method UpdateLegRole(session: Id, role: LegRole, now: nat) returns (answer: Result<(), CallError>)
      modifies this
      ensures (View(), answer) == old(View()).UpdateLegRole(session, role, now)
    {
      if session !in legs {
        return Err(SessionNotFound);
      }
      var leg := legs[session];
      if leg.role != role {
        leg := leg.(role := role, roles := leg.roles + [RoleAssignment(role, now)]);
        legs := legs[session := leg];
      }
      answer := Ok(());
    }

    method MarkLegLeft(session: Id, now: nat) returns (answer: Result<(), CallError>)
      modifies this
      ensures (View(), answer) == old(View()).MarkLegLeft(session, now)
    {
      if session !in legs {
        return Err(SessionNotFound);
      }
      var leg := legs[session];
      if leg.leftAt.None? {
        leg := leg.(leftAt := Some(now));
      }
      legs := legs[session := leg.(state := LegState.Destroyed)];
      answer := Ok(());
    }

    method UpdateLegState(session: Id, state: LegState) returns (answer: Result<(), CallError>)
      modifies this
      ensures (View(), answer) == old(View()).UpdateLegState(session, state)
    {
      if session !in legs {
        return Err(SessionNotFound);
      }
      legs := legs[session := legs[session].(state := state)];
      answer := Ok(());
    }

    method AddLeg(s: Session) returns (answer: Result<(), CallError>)
      modifies this
      ensures (View(), answer) == old(View()).AddLeg(s)
    {
      if s.domain != domain || s.call != id {
        return Err(ForeignSession);
      }
      if s.id in legs {
        return Err(DuplicateSession);
      }
      legs := legs[s.id := LegOf(s)];
      answer := Ok(());
    }

    method AddBridge(bridge: Id, a: Id, b: Id, media: nat, now: nat) returns (answer: Result<(), CallError>)
      modifies this
      ensures (View(), answer) == old(View()).AddBridge(bridge, a, b, media, now)
    {
      if a == b {
        return Err(DistinctLegsRequired);
      }
      if a !in legs || b !in legs {
        return Err(SessionNotFound);
      }
      if bridge in bridges {
        return Err(DuplicateBridge);
      }
      bridges := bridges[bridge := Bridge(a, b, media, BridgeState.Planned, now, None, None)];
      answer := Ok(());
    }

    method ActivateBridge(bridge: Id, media: nat, now: nat) returns (answer: Result<(), CallError>)
      modifies this
      ensures (View(), answer) == old(View()).ActivateBridge(bridge, media, now)
    {
      if bridge !in bridges {
        return Err(BridgeNotFound);
      }
      var edge := bridges[bridge];
      if edge.generation != media {
        return Err(GenerationMismatch);
      }
      if edge.state == Released {
        return Err(AlreadyReleased);
      }
      if edge.state.Planned? {
        bridges := bridges[bridge := edge.(state := Active, activeAt := OrElse(edge.activeAt, now))];
      }
      answer := Ok(());
    }

    method ReleaseBridge(bridge: Id, now: nat) returns (answer: Result<(), CallError>)
      modifies this
      ensures (View(), answer) == old(View()).ReleaseBridge(bridge, now)
    {
      if bridge !in bridges {
        return Err(BridgeNotFound);
      }
      bridges := bridges[bridge := bridges[bridge].Release(now)];
      answer := Ok(());
    }

    method ReleaseAllBridges(now: nat)
      modifies this`bridges
      ensures View() == old(View()).ReleaseAllBridges(now)
    {
      ReleaseAmong(Ascending(bridges.Keys), now);
    }

    method ReleaseAmong(keys: seq<Id>, now: nat)
      requires Enumerates(keys, bridges.Keys)
      modifies this`bridges
      ensures bridges == map b | b in old(bridges) :: old(bridges)[b].Release(now)
    {
      ghost var before := bridges;
      for i := 0 to |keys|
        invariant bridges.Keys == before.Keys
        invariant forall j :: 0 <= j < i ==> bridges[keys[j]] == before[keys[j]].Release(now)
        invariant forall j :: i <= j < |keys| ==> bridges[keys[j]] == before[keys[j]]
      {
        bridges := bridges[keys[i] := bridges[keys[i]].Release(now)];
      }
      assert forall b :: b in bridges ==> b in keys;
    }

    method HandoffCoordinator(owner: Id, expected: nat, target: Id) returns (answer: Result<nat, CallError>)
      modifies this
      ensures (View(), answer) == old(View()).Handoff(owner, expected, target)
    {
      if coordinator != owner || generation != expected {
        return Err(StaleCoordinator(coordinator, generation));
      }
      if target !in legs {
        return Err(SessionNotFound);
      }
      if legs[target].state.Terminal() || legs[target].leftAt.Some? {
        return Err(TargetUnavailable);
      }
      if target == owner {
        return Ok(generation);
      }
      if generation >= U64_MAX {
        return Err(GenerationExhausted);
      }
      coordinator, generation := target, generation + 1;
      answer := Ok(generation);
    }

    method AddCalleeAttempt(a: Id, session: Id, target: string) returns (answer: Result<(), CallError>)
      modifies this
      ensures (View(), answer) == old(View()).AddAttempt(a, session, target)
    {
      if session !in legs {
        return Err(SessionNotFound);
      }
      if legs[session].role != Callee(a) {
        return Err(RoleMismatch);
      }
      if a in attempts {
        return Err(DuplicateAttempt);
      }
      if policy == SingleCallee && attempts != map[] {
        return Err(SingleCalleeLimit);
      }
      attempts := attempts[a := Attempt(session, target, AttemptState.Planned, None)];
      answer := Ok(());
    }

    method UpdateAttemptState(a: Id, state: AttemptState, cause: Option<string>) returns (answer: Result<(), CallError>)
      modifies this
      ensures (View(), answer) == old(View()).UpdateAttempt(a, state, cause)
    {
      if a !in attempts {
        return Err(AttemptNotFound);
      }
      var attempt := attempts[a];
      if attempt.state == state {
        return Ok(());
      }
      if !ValidTransition(attempt.state, state) {
        return Err(InvalidTransition);
      }
      attempt := attempt.(state := state);
      if cause.Some? {
        attempt := attempt.(cause := cause);
      }
      attempts := attempts[a := attempt];
      answer := Ok(());
    }

    /** One turn of the loop shared by both selections. */
    method CancelIfOther(a: Id, key: Id) returns (cancelled: seq<Id>)
      requires key in attempts
      modifies this`attempts
      ensures attempts == old(attempts)[key := CancelIfLive(old(attempts), a, key)]
      ensures cancelled == if LiveOther(old(attempts), a, key) then [old(attempts)[key].session] else []
    {
      cancelled := [];
      var attempt := attempts[key];
      if key != a && !attempt.state.Terminal() {
        cancelled := [attempt.session];
        attempts := attempts[key := attempt.(state := Cancelled)];
      }
    }

    /** The loop shared by both selections. */
    method CancelAmong(a: Id, keys: seq<Id>) returns (cancelled: seq<Id>)
      requires Enumerates(keys, attempts.Keys)
      modifies this`attempts
      ensures attempts == CancelOthers(old(attempts), a)
      ensures cancelled == SessionsOf(old(attempts), LiveAmong(old(attempts), a, keys))
    {
      cancelled := [];
      ghost var before := attempts;
      for i := 0 to |keys|
        invariant CancelledSoFar(before, a, keys, i, attempts, cancelled)
      {
        CancelNext(before, a, keys, i, attempts, cancelled);
        var more := CancelIfOther(a, keys[i]);
        cancelled := cancelled + more;
      }
      AllCancelled(before, a, keys);
    }

    method SelectWinner(a: Id, now: nat) returns (answer: Result<Selection, CallError>)
      modifies this
      ensures (View(), answer) == old(View()).SelectWinner(a, now)
    {
      if winner.Some? {
        if winner.value == a {
          return if a in attempts then Ok(Selection(attempts[a].session, [])) else Err(WinnerMissing);
        }
        return Err(WinnerAlreadySelected(winner.value));
      }
      answer := ChooseWinner(a, now);
    }

    method ReplaceWinner(a: Id, now: nat) returns (answer: Result<Selection, CallError>)
      modifies this
      ensures (View(), answer) == old(View()).ReplaceWinner(a, now)
    {
      if winner == Some(a) {
        answer := SelectWinner(a, now);
      } else {
        answer := ChooseWinner(a, now);
      }
    }

    method ChooseWinner(a: Id, now: nat) returns (answer: Result<Selection, CallError>)
      modifies this
      ensures (View(), answer) == old(View()).Choose(a, now)
    {
      if a !in attempts {
        return Err(AttemptNotFound);
      }
      if attempts[a].state != Answered {
        return Err(NotAnswered);
      }
      ghost var before := attempts;
      var session := attempts[a].session;
      attempts := attempts[a := attempts[a].(state := Selected)];
      SelectingKeepsOthers(before, attempts, a);
      var cancelled := CancelAmong(a, Ascending(attempts.Keys));
      winner := Some(a);
      answeredAt := OrElse(answeredAt, now);
      answer := Ok(Selection(session, cancelled));
    }
  }

  lemma {:induction false} LiveAmongSame(before: Attempts, after: Attempts, a: Id, ids: seq<Id>)
    requires before.Keys == after.Keys && forall x :: x in before && x != a ==> after[x] == before[x]
    requires forall i :: 0 <= i < |ids| ==> ids[i] in before
    ensures LiveAmong(after, a, ids) == LiveAmong(before, a, ids)
  {
    if ids != [] {
      LiveAmongSame(before, after, a, ids[..|ids| - 1]);
    }
  }

  /** Marking the winner first does not change who is cancelled. */
  lemma SelectingKeepsOthers(before: Attempts, after: Attempts, a: Id)
    requires a in before && after == before[a := before[a].(state := Selected)]
    ensures CancelOthers(after, a) == CancelOthers(before, a)[a := after[a]]
    ensures LiveOthers(after, a) == LiveOthers(before, a)
    ensures SessionsOf(after, LiveOthers(after, a)) == SessionsOf(before, LiveOthers(before, a))
  {
    assert before.Keys == after.Keys;
    assert CancelOthers(after, a).Keys == CancelOthers(before, a)[a := after[a]].Keys;
    LiveAmongSame(before, after, a, Ascending(before.Keys));
  }
}
