/** DTMF capability leases of one media bridge, and their interplay with the fast path. */
module DtmfLeases {
  import opened Prelude
  import opened DtmfTypes
  import opened FastPathTypes
  import FPC = FastPathController
  import FPR = FastPathRuntime
  import Runs = FastPathRuns

  datatype Request = Request(leaseId: string, owner: string, session: string, mode: MediaMode, generation: nat)

  datatype Lease = Lease(request: Request, side: Direction, ready: nat, active: bool, released: Option<nat>)

  datatype Bindings = Bindings(caller: string, callee: string)

  /** Who holds the operation lock: a lease waiting for its policy to be applied, or one draining after release. */
  datatype Operation = Idle | Applying(id: string, side: Direction) | Draining(id: string, side: Direction)

  datatype LeaseError =
    | CallTerminating | InvalidMode | BindingsUnavailable | StaleSession | IdCollision | AlreadyReleased
    | StaleGeneration | NotNegotiated | CollectorConflict | DemotionFailed(cause: FPR.BlockError) | NotFound
    | TapAlreadyEnabled

  /** Outcome of the part of an operation before its first suspension. */
  datatype Progress = Done(generation: nat) | Suspended(generation: nat) | Failed(error: LeaseError)

  type Leases = map<string, Lease>

  predicate On(leases: Leases, id: string, side: Direction, mode: MediaMode) {
    id in leases && leases[id].active && leases[id].side == side && leases[id].request.mode == mode
  }

  predicate Holds(leases: Leases, side: Direction, mode: MediaMode) {
    exists id :: id in leases && On(leases, id, side, mode)
  }

  /** The highest-priority mode among the active leases of a side. */
  function TopMode(leases: Leases, side: Direction): MediaMode {
    if Holds(leases, side, Collect) then Collect
    else if Holds(leases, side, Observe) then Observe
    else Transparent
  }

  datatype Bridge = Bridge(leases: Leases, caller: ParserConfig, callee: ParserConfig, bindings: Option<Bindings>,
                           stopped: bool, tapped: bool, op: Operation, fast: FPR.State) {
    function Config(side: Direction): ParserConfig { if side == CallerToCallee then caller else callee }

    function Put(side: Direction, config: ParserConfig): Bridge {
      if side == CallerToCallee then this.(caller := config) else this.(callee := config)
    }

    /** Sets the side's parser mode to what its active leases call for. */
    function Settle(side: Direction): Bridge { Put(side, Config(side).SetMode(TopMode(leases, side))) }

    function SideOf(session: string): Result<Direction, LeaseError> {
      if bindings.None? then Err(BindingsUnavailable)
      else if bindings.value.caller == session then Ok(CallerToCallee)
      else if bindings.value.callee == session then Ok(CalleeToCaller)
      else Err(StaleSession)
    }

    /** What a request must meet before the fast path is blocked for it. */
    function Refusal(request: Request, side: Direction): Option<LeaseError> {
      if request.generation > Config(side).generation then Some(StaleGeneration)
      else if Config(side).capability.None? then Some(NotNegotiated)
      else if request.mode == Collect && Holds(leases, side, Collect) then Some(CollectorConflict)
      else None
    }

    /** acquire_dtmf_capability up to waiting for the policy to be applied */
    function Acquire(request: Request, faults: FPC.Faults): (Bridge, Progress) {
      if stopped then (this, Failed(CallTerminating))
      else if request.mode == Transparent then (this, Failed(InvalidMode))
      else if SideOf(request.session).Err? then (this, Failed(SideOf(request.session).error))
      else if request.leaseId in leases then
        var existing := leases[request.leaseId];
        (this, if existing.request != request then Failed(IdCollision)
               else if !existing.active then Failed(AlreadyReleased)
               else Done(existing.ready))
      else
        var side := SideOf(request.session).value;
        if Refusal(request, side).Some? then (this, Failed(Refusal(request, side).value))
        else
          var (fast', answer) := fast.Block(faults);
          var b := this.(fast := fast');
          if answer.Err? then (b, Failed(DemotionFailed(answer.error))) else b.Grant(request, side)
    }

    function Grant(request: Request, side: Direction): (Bridge, Progress) {
      var wanted := if request.mode.Priority() >= TopMode(leases, side).Priority()
                    then request.mode else TopMode(leases, side);
      var config := Config(side).SetMode(wanted);
      var lease := Lease(request, side, config.generation, true, None);
      (Put(side, config).(leases := leases[request.leaseId := lease], op := Applying(request.leaseId, side)),
       Suspended(config.generation))
    }

    /** The wait for the policy ends; on a timeout the lease is withdrawn and the mode falls back. */
    function Applied(timely: bool): Bridge
      requires op.Applying?
    {
      if timely then this.(op := Idle) else this.(op := Idle, leases := leases - {op.id}).Settle(op.side)
    }

    /** release_dtmf_capability up to its first suspension; giving up a collector drains before the mode changes */
    function Release(id: string): (Bridge, Progress) {
      if id !in leases then (this, Failed(NotFound))
      else if !leases[id].active then
        (this, Done(if leases[id].released.Some? then leases[id].released.value else leases[id].ready))
      else
        var side := leases[id].side;
        var b := this.(leases := leases[id := leases[id].(active := false)]);
        if Config(side).mode == Collect && TopMode(b.leases, side) != Collect
        then (b.(op := Draining(id, side)), Suspended(Config(side).generation))
        else (b.Finish(id, side), Suspended(b.Settle(side).Config(side).generation))
    }

    /** The end of a release: the remaining leases decide the mode. */
    function Finish(id: string, side: Direction): Bridge {
      var b := Settle(side);
      var released := Some(b.Config(side).generation);
      b.(op := Idle, leases := if id in leases then leases[id := leases[id].(released := released)] else leases)
    }

    function EnableTap(faults: FPC.Faults): (Bridge, Result<(), LeaseError>) {
      if stopped then (this, Err(CallTerminating))
      else
        var (fast', answer) := fast.Block(faults);
        var b := this.(fast := fast');
        if answer.Err? then (b, Err(DemotionFailed(answer.error)))
        else if tapped then (b, Err(TapAlreadyEnabled))
        else (b.(tapped := true), Ok(()))
    }

    /** update_dtmf_negotiation: new generation and capability, same mode */
    function Negotiate(side: Direction, capability: Option<Capability>, generation: nat): Bridge {
      Put(side, WithMode(generation, capability, Config(side).mode))
    }
  }

  /** A bridge without leases; the caller's capability is known from the start, the callee's is not. */
  function NewBridge(offered: Option<Capability>, fast: FPR.State): Bridge {
    var caller, callee := WithMode(0, offered, Transparent), ParserConfig(0, None, Transparent);
    Bridge(map[], caller, callee, None, false, false, Idle, fast)
  }

  /** The lease operations of the bridge object; the operation lock spans the suspensions. */
  class DtmfCapabilities {
    const fastPath: FPR.FastPathRuntime
    var leases: Leases
    var callerConfig: ParserConfig
    var calleeConfig: ParserConfig
    var bindings: Option<Bindings>
    var stopped: bool
    var tapped: bool
    var op: Operation

    ghost function View(): Bridge
      reads this, fastPath, fastPath.controller
    {
      Bridge(leases, callerConfig, calleeConfig, bindings, stopped, tapped, op, fastPath.View())
    }

    constructor (fastPath: FPR.FastPathRuntime, offered: Option<Capability>)
      ensures this.fastPath == fastPath
      ensures View() == NewBridge(offered, fastPath.View())
    {
      this.fastPath := fastPath;
      leases, bindings, stopped, tapped, op := map[], None, false, false, Idle;
      callerConfig, calleeConfig := WithMode(0, offered, Transparent), ParserConfig(0, None, Transparent);
    }

    function Config(side: Direction): ParserConfig
      reads this
    {
      if side == CallerToCallee then callerConfig else calleeConfig
    }

    method SetMode(side: Direction, mode: MediaMode) returns (generation: nat)
      modifies `callerConfig, `calleeConfig
      ensures View() == old(View()).Put(side, Config(side)) && Config(side).mode == mode
      ensures generation == Config(side).generation
      ensures generation == if mode == old(Config(side).mode) then old(Config(side).generation)
                            else SatAdd(old(Config(side).generation), 1)
      ensures mode == old(Config(side).mode) ==> Config(side) == old(Config(side))
      ensures mode != old(Config(side).mode) ==>
              Config(side) == WithMode(generation, old(Config(side).capability), mode)
    {
      if side == CallerToCallee {
        callerConfig := callerConfig.SetMode(mode);
      } else {
        calleeConfig := calleeConfig.SetMode(mode);
      }
      generation := Config(side).generation;
    }

    method SideOf(session: string) returns (side: Result<Direction, LeaseError>)
      ensures side == View().SideOf(session)
    {
      if bindings.None? {
        return Err(BindingsUnavailable);
      }
      if bindings.value.caller == session {
        return Ok(CallerToCallee);
      }
      side := if bindings.value.callee == session then Ok(CalleeToCaller) else Err(StaleSession);
    }

    method Acquire(request: Request, faults: FPC.Faults) returns (progress: Progress)
      modifies this, fastPath, fastPath.controller
      ensures (View(), progress) == old(View()).Acquire(request, faults)
    {
      if stopped {
        return Failed(CallTerminating);
      }
      if request.mode == Transparent {
        return Failed(InvalidMode);
      }
      var found := SideOf(request.session);
      if found.Err? {
        return Failed(found.error);
      }
      if request.leaseId in leases {
        var existing := leases[request.leaseId];
        if existing.request != request {
          return Failed(IdCollision);
        }
        return if existing.active then Done(existing.ready) else Failed(AlreadyReleased);
      }
      var side := found.value;
      var current := Config(side);
      if request.generation > current.generation {
        return Failed(StaleGeneration);
      }
      if current.capability.None? {
        return Failed(NotNegotiated);
      }
      if request.mode == Collect && Holds(leases, side, Collect) {
        return Failed(CollectorConflict);
      }
      var blocked := fastPath.BlockForUserspaceCapability(faults);
      if blocked.Err? {
        return Failed(DemotionFailed(blocked.error));
      }
      var others := TopMode(leases, side);
      var ready := SetMode(side, if request.mode.Priority() >= others.Priority() then request.mode else others);
      leases := leases[request.leaseId := Lease(request, side, ready, true, None)];
      op := Applying(request.leaseId, side);
      progress := Suspended(ready);
    }

    method PolicyApplied(timely: bool)
      requires op.Applying?
      modifies this
      ensures View() == old(View()).Applied(timely)
    {
      if !timely {
        leases := leases - {op.id};
        var _ := SetMode(op.side, TopMode(leases, op.side));
      }
      op := Idle;
    }

    method Release(id: string) returns (progress: Progress)
      modifies this
      ensures (View(), progress) == old(View()).Release(id)
    {
      if id !in leases {
        return Failed(NotFound);
      }
      var existing := leases[id];
      if !existing.active {
        return Done(if existing.released.Some? then existing.released.value else existing.ready);
      }
      leases := leases[id := existing.(active := false)];
      if Config(existing.side).mode == Collect && TopMode(leases, existing.side) != Collect {
        op := Draining(id, existing.side);
        return Suspended(Config(existing.side).generation);
      }
      var released := FinishRelease(id, existing.side);
      progress := Suspended(released);
    }

    method FinishRelease(id: string, side: Direction) returns (released: nat)
      modifies this
      ensures View() == old(View()).Finish(id, side)
      ensures released == Config(side).generation
    {
      released := SetMode(side, TopMode(leases, side));
      if id in leases {
        leases := leases[id := leases[id].(released := Some(released))];
      }
      op := Idle;
    }

    method EnableAiTap(faults: FPC.Faults) returns (answer: Result<(), LeaseError>)
      modifies this, fastPath, fastPath.controller
      ensures (View(), answer) == old(View()).EnableTap(faults)
    {
      if stopped {
        return Err(CallTerminating);
      }
      var blocked := fastPath.BlockForUserspaceCapability(faults);
      if blocked.Err? {
        return Err(DemotionFailed(blocked.error));
      }
      if tapped {
        return Err(TapAlreadyEnabled);
      }
      tapped := true;
      answer := Ok(());
    }
  }

  // ---- Runs ----

  datatype Step =
    | Acquire(request: Request, faults: FPC.Faults)
    | Applied(timely: bool)
    | Release(id: string)
    | Drained
    | EnableTap(faults: FPC.Faults)
    | Negotiate(side: Direction, capability: Option<Capability>, generation: nat)
    | Bind(bindings: Bindings)
    | StopBridge(faults: FPC.Faults)
    | FastPathStep(step: Runs.Step)

  /** The operation lock admits one lease operation at a time; everything else interleaves freely. */
  ghost predicate Enabled(b: Bridge, step: Step) {
    match step
    case Acquire(_, _) => b.op.Idle?
    case Release(_) => b.op.Idle?
    case Applied(_) => b.op.Applying?
    case Drained => b.op.Draining?
    case FastPathStep(s) => Runs.Enabled(Runs.World(b.fast, NO_STATS), s)
    case _ => true
  }

  ghost function Apply(b: Bridge, step: Step): Bridge
    requires Enabled(b, step)
  {
    match step
    case Acquire(request, f) => b.Acquire(request, f).0
    case Applied(timely) => b.Applied(timely)
    case Release(id) => b.Release(id).0
    case Drained => b.Finish(b.op.id, b.op.side)
    case EnableTap(f) => b.EnableTap(f).0
    case Negotiate(side, capability, generation) => b.Negotiate(side, capability, generation)
    case Bind(bindings) => b.(bindings := Some(bindings))
    case StopBridge(f) => b.(stopped := true, fast := b.fast.Stop(f))
    case FastPathStep(s) => b.(fast := Runs.Apply(Runs.World(b.fast, NO_STATS), s).s)
  }

  ghost predicate Valid(b: Bridge, run: seq<Step>)
    decreases |run|
  {
    run != [] ==> Enabled(b, run[0]) && Valid(Apply(b, run[0]), run[1..])
  }

  ghost function Execute(b: Bridge, run: seq<Step>): Bridge
    requires Valid(b, run)
    decreases |run|
  {
    if run == [] then b else Execute(Apply(b, run[0]), run[1..])
  }

  /** At most one active collector per side, and no transparent lease. */
  ghost predicate OneCollector(leases: Leases) {
    && (forall id :: id in leases ==> leases[id].request.mode != Transparent)
    && forall i, j, side :: On(leases, i, side, Collect) && On(leases, j, side, Collect) ==> i == j
  }

  ghost predicate ModeSettled(b: Bridge, side: Direction) {
    b.Config(side).mode == TopMode(b.leases, side) || (b.op.Draining? && b.op.side == side)
  }

  /** Leases and taps are only ever installed on a call that has left the fast path for good. */
  ghost predicate OffFastPath(b: Bridge) {
    b.leases != map[] || b.tapped ==> Runs.Silenced(b.fast)
  }

  /**
   * A suspended operation remembers its lease's side; a draining lease is already inactive, one being applied is
   * not.
   */
  ghost predicate OperationFits(b: Bridge) {
    && (!b.op.Idle? && b.op.id in b.leases ==> b.leases[b.op.id].side == b.op.side)
    && (!b.op.Idle? && b.op.id in b.leases ==> (b.leases[b.op.id].active <==> b.op.Applying?))
  }

  ghost predicate Inv(b: Bridge) {
    && OneCollector(b.leases) && OperationFits(b) && ModeSettled(b, CallerToCallee) && ModeSettled(b, CalleeToCaller)
    && Runs.Good(b.fast) && OffFastPath(b)
  }

  /** The mode TopMode names is held by an active lease, and no active lease of the side outranks it. */
  lemma TopModeIsHighest(leases: Leases, side: Direction)
    requires OneCollector(leases)
    ensures var top := TopMode(leases, side);
            && (top != Transparent ==> Holds(leases, side, top))
            && (forall id :: id in leases && leases[id].active && leases[id].side == side ==>
                  leases[id].request.mode.Priority() <= top.Priority())
            && (top == Transparent <==> forall id :: id in leases && leases[id].side == side ==> !leases[id].active)
  {
    forall id | id in leases && leases[id].active && leases[id].side == side
      ensures On(leases, id, side, leases[id].request.mode)
    {
    }
  }

  lemma BlockSilences(s: FPR.State, faults: FPC.Faults)
    requires Runs.Good(s)
    ensures Runs.Good(s.Block(faults).0)
    ensures s.Block(faults).1.Ok? ==> Runs.Silenced(s.Block(faults).0)
    ensures Runs.Silenced(s) ==> Runs.Silenced(s.Block(faults).0)
  {
    var w := Runs.World(s, NO_STATS);
    Runs.BlockGood(s, faults);
    if s.Block(faults).1.Ok? {
      Runs.BlockedForEver(w, faults, []);
    }
    if Runs.Silenced(s) {
      assert Runs.Valid(Runs.Apply(w, Runs.Block(faults)), []);
      Runs.SilencedOnEveryRun(w, [Runs.Block(faults)]);
      assert Runs.Execute(w, [Runs.Block(faults)]) == Runs.Apply(w, Runs.Block(faults));
    }
  }

  lemma FastStepInv(s: FPR.State, step: Runs.Step)
    requires Runs.Good(s) && Runs.Enabled(Runs.World(s, NO_STATS), step)
    ensures var next := Runs.Apply(Runs.World(s, NO_STATS), step).s;
            Runs.Good(next) && (Runs.Silenced(s) ==> Runs.Silenced(next))
  {
    var w := Runs.World(s, NO_STATS);
    Runs.ApplyGood(w, step);
    if Runs.Silenced(s) {
      assert Runs.Valid(Runs.Apply(w, step), []);
      Runs.SilencedOnEveryRun(w, [step]);
      assert Runs.Execute(w, [step]) == Runs.Apply(w, step);
    }
  }

  /** Leases that stand for the same modes on a side call for the same parser mode. */
  lemma TopModeFrame(a: Leases, b: Leases, side: Direction)
    requires forall id, mode :: On(a, id, side, mode) <==> On(b, id, side, mode)
    ensures TopMode(a, side) == TopMode(b, side)
  {
  }

  /** The leases after a grant hold what they held, and the new one. */
  lemma GrantedOn(b: Bridge, request: Request, side: Direction)
    requires request.leaseId !in b.leases
    ensures forall id, s, m :: On(b.Grant(request, side).0.leases, id, s, m) <==>
                               On(b.leases, id, s, m) || (id == request.leaseId && s == side && m == request.mode)
  {
  }

  lemma GrantedLeases(b: Bridge, request: Request, side: Direction)
    requires OneCollector(b.leases) && request.mode != Transparent
    requires request.leaseId !in b.leases && b.Refusal(request, side).None?
    ensures OneCollector(b.Grant(request, side).0.leases)
  {
    var granted := b.Grant(request, side).0.leases;
    GrantedOn(b, request, side);
    forall i, j, s | On(granted, i, s, Collect) && On(granted, j, s, Collect) ensures i == j {
      if request.mode == Collect && s == side {
        assert !Holds(b.leases, side, Collect);
        assert !On(b.leases, i, side, Collect) && !On(b.leases, j, side, Collect);
      }
    }
  }

  /** After a grant the side has the mode its leases call for. */
  lemma GrantedMode(b: Bridge, request: Request, side: Direction)
    requires b.op.Idle? && request.mode != Transparent && request.leaseId !in b.leases
    requires ModeSettled(b, CallerToCallee) && ModeSettled(b, CalleeToCaller)
    ensures ModeSettled(b.Grant(request, side).0, CallerToCallee)
            && ModeSettled(b.Grant(request, side).0, CalleeToCaller)
  {
    var b' := b.Grant(request, side).0;
    GrantedOn(b, request, side);
    assert On(b'.leases, request.leaseId, side, request.mode);
    TopModeFrame(b.leases, b'.leases, if side == CallerToCallee then CalleeToCaller else CallerToCallee);
    HoldsAfterGrant(b.leases, b'.leases, request.leaseId, side, request.mode);
  }

  lemma HoldsAfterGrant(x: Leases, y: Leases, id: string, side: Direction, mode: MediaMode)
    requires forall i, m :: On(y, i, side, m) <==> On(x, i, side, m) || (i == id && m == mode)
    requires On(y, id, side, mode)
    ensures forall m :: Holds(y, side, m) <==> Holds(x, side, m) || m == mode
  {
    forall m ensures Holds(y, side, m) <==> Holds(x, side, m) || m == mode {
      if i :| i in x && On(x, i, side, m) {
        assert On(y, i, side, m);
      }
      if i :| i in y && On(y, i, side, m) {
        assert On(x, i, side, m) || m == mode;
      }
    }
  }

  lemma GrantInv(b: Bridge, request: Request, side: Direction)
    requires Inv(b) && b.op.Idle? && Runs.Silenced(b.fast) && request.mode != Transparent
    requires request.leaseId !in b.leases && b.Refusal(request, side).None?
    ensures Inv(b.Grant(request, side).0)
  {
    GrantedLeases(b, request, side);
    GrantedMode(b, request, side);
  }

  lemma AcquireInv(b: Bridge, request: Request, faults: FPC.Faults)
    requires Inv(b) && b.op.Idle?
    ensures Inv(b.Acquire(request, faults).0)
  {
    BlockSilences(b.fast, faults);
    var b' := b.(fast := b.fast.Block(faults).0);
    if !b.stopped && request.mode != Transparent && b.SideOf(request.session).Ok? && request.leaseId !in b.leases {
      var side := b.SideOf(request.session).value;
      if b.Refusal(request, side).None? && b.fast.Block(faults).1.Ok? {
        assert b'.Refusal(request, side).None?;
        GrantInv(b', request, side);
      }
    }
  }

  /** After leases of one side changed, settling that side restores the invariant. */
  lemma SettleInv(b: Bridge, leases': Leases, op: Operation, side: Direction)
    requires Inv(b) && OneCollector(leases') && (leases' != map[] ==> b.leases != map[])
    requires forall id, s, m :: On(leases', id, s, m) ==> On(b.leases, id, s, m)
    requires forall id, m, s :: s != side ==> (On(b.leases, id, s, m) <==> On(leases', id, s, m))
    requires op.Idle? && (b.op.Draining? ==> b.op.side == side)
    ensures Inv(b.(leases := leases', op := op).Settle(side))
  {
    TopModeFrame(b.leases, leases', if side == CallerToCallee then CalleeToCaller else CallerToCallee);
  }

  lemma FinishInv(b: Bridge, id: string, side: Direction)
    requires Inv(b) && (b.op.Draining? ==> b.op.side == side)
    ensures Inv(b.Finish(id, side))
  {
    var b' := b.Finish(id, side);
    assert forall k, s, m :: On(b'.leases, k, s, m) <==> On(b.leases, k, s, m);
    SettleInv(b, b.leases, Idle, side);
    TopModeFrame(b.leases, b'.leases, CallerToCallee);
    TopModeFrame(b.leases, b'.leases, CalleeToCaller);
  }

  lemma ReleaseInv(b: Bridge, id: string)
    requires Inv(b) && b.op.Idle?
    ensures Inv(b.Release(id).0)
  {
    if id in b.leases && b.leases[id].active {
      var side := b.leases[id].side;
      var b' := b.(leases := b.leases[id := b.leases[id].(active := false)]);
      assert forall k, s, m :: On(b'.leases, k, s, m) <==> On(b.leases, k, s, m) && k != id;
      TopModeFrame(b.leases, b'.leases, if side == CallerToCallee then CalleeToCaller else CallerToCallee);
      var d := b'.(op := Draining(id, side));
      assert Inv(d);
      FinishInv(d, id, side);
      assert b'.Finish(id, side) == d.Finish(id, side);
    }
  }

  lemma AppliedInv(b: Bridge, timely: bool)
    requires Inv(b) && b.op.Applying?
    ensures Inv(b.Applied(timely))
  {
    if !timely {
      assert forall id, s, m :: On(b.leases - {b.op.id}, id, s, m) ==> On(b.leases, id, s, m);
      SettleInv(b, b.leases - {b.op.id}, Idle, b.op.side);
    }
  }

  lemma ApplyInv(b: Bridge, step: Step)
    requires Inv(b) && Enabled(b, step)
    ensures Inv(Apply(b, step))
  {
    match step
    case Acquire(request, f) => AcquireInv(b, request, f);
    case Release(id) => ReleaseInv(b, id);
    case Drained => FinishInv(b, b.op.id, b.op.side);
    case Applied(timely) => AppliedInv(b, timely);
    case EnableTap(f) => BlockSilences(b.fast, f);
    case FastPathStep(s) => FastStepInv(b.fast, s);
    case StopBridge(f) => FastStepInv(b.fast, Runs.Stop(f));
    case _ =>
  }

  /** A new bridge on a new runtime meets the invariant. */
  lemma NewBridgeInv(offered: Option<Capability>, fast: FPR.State)
    requires Runs.Initial(Runs.World(fast, NO_STATS))
    ensures Inv(NewBridge(offered, fast))
  {
  }

  /**
   * On every run, whatever fails or interleaves: one collector per side, every side's parser in the highest mode its
   * active leases call for (unless that side is draining), and no fast path once a lease or tap is installed.
   */
  lemma {:induction false} LeasesOnEveryRun(b: Bridge, run: seq<Step>)
    requires Inv(b) && Valid(b, run)
    ensures Inv(Execute(b, run))
    decreases |run|
  {
    if run != [] {
      ApplyInv(b, run[0]);
      LeasesOnEveryRun(Apply(b, run[0]), run[1..]);
    }
  }

  lemma ReleasedStep(b: Bridge, step: Step, id: string)
    requires OperationFits(b) && Enabled(b, step) && id in b.leases && !b.leases[id].active
    ensures id in Apply(b, step).leases && !Apply(b, step).leases[id].active
  {
  }

  /** A released lease is never active again and its id is never free again. */
  lemma {:induction false} ReleasedForEver(b: Bridge, run: seq<Step>, id: string)
    requires Inv(b) && Valid(b, run) && id in b.leases && !b.leases[id].active
    ensures var end := Execute(b, run); id in end.leases && !end.leases[id].active
    decreases |run|
  {
    if run != [] {
      ApplyInv(b, run[0]);
      ReleasedStep(b, run[0], id);
      ReleasedForEver(Apply(b, run[0]), run[1..], id);
    }
  }

  /** Lease operations change a parser's generation exactly with its mode, by one. */
  lemma GenerationCountsModeChanges(b: Bridge, step: Step, side: Direction)
    requires Enabled(b, step) && !step.Negotiate?
    ensures var c, c' := b.Config(side), Apply(b, step).Config(side);
            c'.generation == (if c'.mode == c.mode then c.generation else SatAdd(c.generation, 1))
  {
  }

  // ---- Which leases are granted, and to whom ----

  /** The side whose digits come from a session. */
  ghost predicate Speaks(b: Bridge, session: string, side: Direction) {
    && b.bindings.Some?
    && (side == CallerToCallee ==> session == b.bindings.value.caller)
    && (side == CalleeToCaller ==> session == b.bindings.value.callee && session != b.bindings.value.caller)
  }

  /** What the bridge asks of a new lease on a side. */
  ghost predicate Grantable(b: Bridge, request: Request, side: Direction) {
    && !b.stopped && request.mode != Transparent && request.leaseId !in b.leases && Speaks(b, request.session, side)
    && request.generation <= b.Config(side).generation && b.Config(side).capability.Some?
    && (request.mode == Collect ==>
          forall id :: id in b.leases && b.leases[id].active && b.leases[id].side == side ==>
            b.leases[id].request.mode != Collect)
  }

  /**
   * A lease is granted exactly if it is grantable on the side its session speaks on and the fast path was blocked. It
   * is then active on that side with the generation it was answered, and the other side is left alone; otherwise no
   * lease and no parser changes.
   */
  lemma GrantedExactly(b: Bridge, request: Request, faults: FPC.Faults)
    ensures var (b', progress) := b.Acquire(request, faults);
            && (progress.Suspended? <==>
                  b.fast.Block(faults).1.Ok? && exists side :: Grantable(b, request, side))
            && (progress.Suspended? ==>
                  forall side :: Speaks(b, request.session, side) ==>
                    && b'.leases == b.leases[request.leaseId := Lease(request, side, progress.generation, true, None)]
                    && b'.Config(side).generation == progress.generation
                    && b'.Config(Other(side)) == b.Config(Other(side)))
            && (!progress.Suspended? ==> b'.leases == b.leases && b'.caller == b.caller && b'.callee == b.callee)
  {
    if b.SideOf(request.session).Ok? {
      var side := b.SideOf(request.session).value;
      assert Speaks(b, request.session, side);
      assert b.Refusal(request, side).None? && !b.stopped && request.mode != Transparent && request.leaseId !in b.leases
        ==> Grantable(b, request, side);
    }
    forall side | Grantable(b, request, side)
      ensures b.SideOf(request.session) == Ok(side) && b.Refusal(request, side).None?
    {
    }
  }

  function Other(side: Direction): Direction { if side == CallerToCallee then CalleeToCaller else CallerToCallee }

  /** The same request again is answered as before; another request under the id, or a released id, fails. */
  lemma AcquireAgain(b: Bridge, request: Request, faults: FPC.Faults)
    requires !b.stopped && request.mode != Transparent && request.leaseId in b.leases
    requires b.bindings.Some? && request.session in {b.bindings.value.caller, b.bindings.value.callee}
    ensures var lease := b.leases[request.leaseId];
            b.Acquire(request, faults)
            == (b, if lease.request != request then Failed(IdCollision)
                   else if lease.active then Done(lease.ready) else Failed(AlreadyReleased))
  {
  }

  /**
   * Releasing an active lease: a side that loses its last collector drains with its parser unchanged; any other side
   * has at once the mode its remaining leases call for, and the lease keeps the generation of that moment.
   */
  lemma ReleasedExactly(b: Bridge, id: string)
    requires id in b.leases && b.leases[id].active
    ensures var b' := b.Release(id).0;
            var side := b.leases[id].side;
            && id in b'.leases && !b'.leases[id].active
            && (if b.Config(side).mode == Collect && TopMode(b'.leases, side) != Collect
                then b'.op == Draining(id, side) && b'.Config(side) == b.Config(side)
                else
                  && b'.op == Idle && b'.Config(side).mode == TopMode(b'.leases, side)
                  && b'.leases[id].released == Some(b'.Config(side).generation))
            && b'.Config(Other(side)) == b.Config(Other(side))
  {
    var side := b.leases[id].side;
    var inactive := b.leases[id := b.leases[id].(active := false)];
    assert forall k, s, m :: On(b.Release(id).0.leases, k, s, m) <==> On(inactive, k, s, m);
    TopModeFrame(inactive, b.Release(id).0.leases, side);
  }

  /** A released lease answers the generation its release ended with; while that is pending, the one it began with. */
  lemma ReleaseAgain(b: Bridge, id: string)
    requires id in b.leases && !b.leases[id].active
    ensures b.Release(id) == (b, Done(match b.leases[id].released case Some(g) => g case None => b.leases[id].ready))
  {
  }

  /** A lease applied in time stays; one that was not is withdrawn, and the others of its side decide the mode. */
  lemma AppliedExactly(b: Bridge, timely: bool)
    requires b.op.Applying?
    ensures var b', id, side := b.Applied(timely), b.op.id, b.op.side;
            && b'.op == Idle && b'.fast == b.fast && b'.tapped == b.tapped
            && b'.Config(Other(side)) == b.Config(Other(side))
            && (timely ==> b'.leases == b.leases && b'.Config(side) == b.Config(side))
            && (!timely ==>
                  && id !in b'.leases && (forall x :: x in b.leases && x != id ==> x in b'.leases)
                  && (forall x :: x in b'.leases ==> x in b.leases && b'.leases[x] == b.leases[x])
                  && b'.Config(side).mode == TopMode(b'.leases, side))
  {
  }

  /** The tap goes in once, after the fast path was blocked for it; a second attempt blocks and is refused. */
  lemma TapExactly(b: Bridge, faults: FPC.Faults)
    ensures var (b', answer) := b.EnableTap(faults);
            && b' == b.(fast := b'.fast, tapped := b'.tapped)
            && (answer.Ok? <==> !b.stopped && !b.tapped && b.fast.Block(faults).1.Ok?)
            && (b'.tapped <==> b.tapped || answer.Ok?)
            && b'.fast == (if b.stopped then b.fast else b.fast.Block(faults).0)
            && (answer == Err(TapAlreadyEnabled) <==> !b.stopped && b.tapped && b.fast.Block(faults).1.Ok?)
            && (answer == Err(CallTerminating) <==> b.stopped)
  {
  }
}
