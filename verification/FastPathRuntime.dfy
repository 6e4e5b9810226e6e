/** The per-call fast path runtime: promotion, rebinding, blocking, health checks and teardown. */
module FastPathRuntime {
  import opened Prelude
  import opened FastPathTypes
  import opened FastPathController

  const REDIRECT_ERROR_THRESHOLD: nat := 3

  /** A remote media address; only IPv4 ones can take the fast path. */
  datatype Remote = V4(addr: SocketAddr) | V6(id: nat)

  datatype Slot = CallerRtp | CallerRtcp | CalleeRtp | CalleeRtcp {
    function Direction(): Direction { if CallerRtp? || CallerRtcp? then CallerToCallee else CalleeToCaller }
  }

  /** Four bound relay sockets, the two advertised addresses (None: not IPv4) and the four remote endpoints. */
  datatype Endpoints = Endpoints(callerIp: Option<nat>, calleeIp: Option<nat>,
                                 callerRtpPort: nat, callerRtcpPort: nat, calleeRtpPort: nat, calleeRtcpPort: nat,
                                 callerRtp: Option<Remote>, callerRtcp: Option<Remote>,
                                 calleeRtp: Option<Remote>, calleeRtcp: Option<Remote>) {
    function At(slot: Slot): Option<Remote> {
      match slot
      case CallerRtp => callerRtp
      case CallerRtcp => callerRtcp
      case CalleeRtp => calleeRtp
      case CalleeRtcp => calleeRtcp
    }

    function Put(slot: Slot, remote: Option<Remote>): Endpoints {
      match slot
      case CallerRtp => this.(callerRtp := remote)
      case CallerRtcp => this.(callerRtcp := remote)
      case CalleeRtp => this.(calleeRtp := remote)
      case CalleeRtcp => this.(calleeRtcp := remote)
    }

    function Ports(): set<nat> { {callerRtpPort, callerRtcpPort, calleeRtpPort, calleeRtcpPort} }

    /** The operating system never binds two of the sockets to one port. */
    predicate DistinctPorts() {
      && callerRtpPort != callerRtcpPort && callerRtpPort != calleeRtpPort && callerRtpPort != calleeRtcpPort
      && callerRtcpPort != calleeRtpPort && callerRtcpPort != calleeRtcpPort && calleeRtpPort != calleeRtcpPort
    }

    predicate AllV4() {
      && callerIp.Some? && calleeIp.Some?
      && callerRtp.Some? && callerRtp.value.V4? && callerRtcp.Some? && callerRtcp.value.V4?
      && calleeRtp.Some? && calleeRtp.value.V4? && calleeRtcp.Some? && calleeRtcp.value.V4?
    }

    /** One flow per media kind and direction, or nothing for incomplete or non-IPv4 media. */
    function Flows(): Option<seq<FlowSpec>> {
      if !AllV4() then None
      else
        var caller := Leg(SocketAddr(callerIp.value, callerRtpPort), callerRtp.value.addr,
                          SocketAddr(callerIp.value, callerRtcpPort), callerRtcp.value.addr);
        var callee := Leg(SocketAddr(calleeIp.value, calleeRtpPort), calleeRtp.value.addr,
                          SocketAddr(calleeIp.value, calleeRtcpPort), calleeRtcp.value.addr);
        Some(LegFlows(caller, callee))
    }
  }

  datatype Leg = Leg(localRtp: SocketAddr, remoteRtp: SocketAddr, localRtcp: SocketAddr, remoteRtcp: SocketAddr)

  function LegFlows(caller: Leg, callee: Leg): seq<FlowSpec> {
    [FlowSpec(Rtp, CallerToCallee, caller.localRtp, caller.remoteRtp, callee.localRtp, callee.remoteRtp),
     FlowSpec(Rtp, CalleeToCaller, callee.localRtp, callee.remoteRtp, caller.localRtp, caller.remoteRtp),
     FlowSpec(Rtcp, CallerToCallee, caller.localRtcp, caller.remoteRtcp, callee.localRtcp, callee.remoteRtcp),
     FlowSpec(Rtcp, CalleeToCaller, callee.localRtcp, callee.remoteRtcp, caller.localRtcp, caller.remoteRtcp)]
  }

  datatype Runtime = Runtime(bridgeId: Option<string>, generation: nat, active: Option<nat>, stats: Stats,
                             history: History, blocked: bool, stopped: bool, endpoints: Endpoints)

  function NewRuntime(endpoints: Endpoints): Runtime {
    Runtime(None, 0, None, NO_STATS, NEW_HISTORY, false, false, endpoints)
  }

  datatype BlockError = BridgeStopped | DemotionFailed(cause: ControllerError)

  /** Runtime and shared controller, with the set of error codes the controller has answered to this runtime. */
  datatype State = State(rt: Runtime, tables: Tables, answers: set<ControllerError>) {

    function Demote(id: string, generation: nat, faults: Faults): (State, Result<Stats, ControllerError>) {
      var (tables', answer) := RemoveTables(tables, id, generation, faults);
      (this.(tables := tables', answers := if answer.Err? then answers + {answer.error} else answers), answer)
    }

    function Retire(collected: Stats): State {
      this.(rt := rt.(active := None, stats := rt.stats.Merge(collected)))
    }

    function WithHistory(history: History): State { this.(rt := rt.(history := history)) }

    /** block_for_userspace_capability */
    function Block(faults: Faults): (State, Result<(), BlockError>) {
      if rt.stopped then (this, Err(BridgeStopped))
      else
        var s := this.(rt := rt.(blocked := true));
        if rt.bridgeId.None? || rt.active.None? then (s, Ok(()))
        else
          var (d, answer) := s.Demote(rt.bridgeId.value, rt.active.value, faults);
          if answer.Err? then (d, Err(DemotionFailed(answer.error)))
          else (d.Retire(answer.value).WithHistory(rt.history.DemoteBoth()), Ok(()))
    }

    /** promote_locked */
    function Install(specs: seq<FlowSpec>, faults: Faults): State {
      if rt.blocked || rt.bridgeId.None? then this
      else
        var generation := SatAdd(rt.generation, 1);
        var (tables', answer) := PromoteTables(tables, rt.bridgeId.value, generation, specs, faults);
        if answer.Err? then this.(tables := tables', answers := answers + {answer.error})
        else this.(tables := tables',
                   rt := rt.(generation := generation, active := Some(generation), history := rt.history.PromoteBoth()))
    }

    function Promote(id: string, available: bool, faults: Faults): State {
      if !available || rt.endpoints.Flows().None? then this
      else if rt.stopped || rt.blocked || rt.active.Some? then this
      else if rt.bridgeId.Some? && rt.bridgeId.value != id then this
      else this.(rt := rt.(bridgeId := Some(id))).Install(rt.endpoints.Flows().value, faults)
    }

    /** confirm_rebind; the demotion and the new promotion fail independently */
    function Rebind(slot: Slot, source: Remote, demotion: Faults, promotion: Faults): State {
      if rt.endpoints.At(slot) == Some(source) then this
      else
        var s := Moved(slot, source);
        if rt.stopped || rt.bridgeId.None? then s
        else if rt.active.None? then s.Reinstall(promotion)
        else
          var (d, answer) := s.DemoteOne(slot.Direction(), demotion);
          if answer.Err? then d else d.Reinstall(promotion)
    }

    function Moved(slot: Slot, source: Remote): State {
      this.(rt := rt.(endpoints := rt.endpoints.Put(slot, Some(source))))
    }

    /** Demotes the active generation after an endpoint of one direction changed. */
    function DemoteOne(direction: Direction, faults: Faults): (State, Result<Stats, ControllerError>)
      requires rt.bridgeId.Some? && rt.active.Some?
    {
      var (d, answer) := Demote(rt.bridgeId.value, rt.active.value, faults);
      var r := if answer.Ok? then d.Retire(answer.value) else d;
      (r.WithHistory(rt.history.MarkDemoted(direction)), answer)
    }

    function Reinstall(faults: Faults): State {
      if rt.endpoints.Flows().Some? then Install(rt.endpoints.Flows().value, faults) else this
    }

    /** demote_and_block_locked */
    function DemoteAndBlock(id: string, generation: nat, faults: Faults): State {
      if rt.active != Some(generation) then this
      else
        var (d, answer) := Demote(id, generation, faults);
        var r := if answer.Ok? then d.Retire(answer.value) else d;
        r.(rt := r.rt.(history := rt.history.DemoteBoth(), blocked := true))
    }

    /** check_redirect_health */
    function Health(snapshot: Faults, demotion: Faults): State {
      if rt.stopped || rt.bridgeId.None? || rt.active.None? then this
      else
        var answer := SnapshotTables(tables, rt.bridgeId.value, rt.active.value, snapshot);
        if answer.Ok? && answer.value.MaxRedirectErrors() < REDIRECT_ERROR_THRESHOLD then this
        else
          var s := if answer.Err? then this.(answers := answers + {answer.error}) else this;
          s.DemoteAndBlock(rt.bridgeId.value, rt.active.value, demotion)
    }

    /** stop; the result returned to the caller is `rt.stats` and `rt.history` of the new state */
    function Stop(faults: Faults): State {
      var s := this.(rt := rt.(stopped := true, active := None));
      if rt.bridgeId.None? || rt.active.None? then s
      else
        var (d, answer) := s.Demote(rt.bridgeId.value, rt.active.value, faults);
        if answer.Ok? then d.Retire(answer.value) else d
    }

    /** stop_without_log: as stop, once, and the collected statistics are dropped */
    function Drop(faults: Faults): State {
      if rt.stopped then this
      else
        var s := this.(rt := rt.(stopped := true, active := None));
        if rt.bridgeId.None? || rt.active.None? then s
        else s.Demote(rt.bridgeId.value, rt.active.value, faults).0
    }
  }

  /** The runtime object. Its lock makes every method atomic with respect to the others. */
  class FastPathRuntime {
    const controller: EbpfFastPathController
    var endpoints: Endpoints
    var bridgeId: Option<string>
    var generation: nat
    var active: Option<nat>
    var stats: Stats
    var history: History
    var blocked: bool
    var stopped: bool
    ghost var answers: set<ControllerError>

    ghost function View(): State
      reads this, controller
    {
      State(Runtime(bridgeId, generation, active, stats, history, blocked, stopped, endpoints),
            controller.View(), answers)
    }

    constructor (controller: EbpfFastPathController, endpoints: Endpoints)
      ensures this.controller == controller
      ensures View() == State(NewRuntime(endpoints), controller.View(), {})
    {
      this.controller := controller;
      this.endpoints := endpoints;
      bridgeId, generation, active := None, 0, None;
      stats, history := NO_STATS, NEW_HISTORY;
      blocked, stopped := false, false;
      answers := {};
    }

    method Demote(id: string, generation: nat, faults: Faults) returns (answer: Result<Stats, ControllerError>)
      modifies controller, `answers
      ensures (View(), answer) == old(View()).Demote(id, generation, faults)
    {
      answer := controller.Remove(id, generation, faults);
      if answer.Err? {
        answers := answers + {answer.error};
      }
    }

    method BlockForUserspaceCapability(faults: Faults) returns (answer: Result<(), BlockError>)
      modifies this, controller
      ensures (View(), answer) == old(View()).Block(faults)
    {
      if stopped {
        return Err(BridgeStopped);
      }
      blocked := true;
      if bridgeId.None? || active.None? {
        return Ok(());
      }
      var demoted := Demote(bridgeId.value, active.value, faults);
      if demoted.Err? {
        return Err(DemotionFailed(demoted.error));
      }
      active := None;
      stats := stats.Merge(demoted.value);
      history := history.MarkDemoted(CallerToCallee);
      history := history.MarkDemoted(CalleeToCaller);
      answer := Ok(());
    }

    method PromoteLocked(specs: seq<FlowSpec>, faults: Faults)
      modifies this, controller
      ensures View() == old(View()).Install(specs, faults)
    {
      if blocked || bridgeId.None? {
        return;
      }
      var next := SatAdd(generation, 1);
      var answer := controller.Promote(bridgeId.value, next, specs, faults);
      if answer.Ok? {
        generation, active := next, Some(next);
        history := history.MarkPromoted(CallerToCallee);
        history := history.MarkPromoted(CalleeToCaller);
      } else {
        answers := answers + {answer.error};
      }
    }

    method Promote(id: string, available: bool, faults: Faults)
      modifies this, controller
      ensures View() == old(View()).Promote(id, available, faults)
    {
      if !available {
        return;
      }
      var flows := endpoints.Flows();
      if flows.None? || stopped || blocked || active.Some? {
        return;
      }
      if bridgeId.Some? && bridgeId.value != id {
        return;
      }
      bridgeId := Some(id);
      PromoteLocked(flows.value, faults);
    }

    /** The demotion half of confirm_rebind; the history remembers it even if it failed. */
    method DemoteMoved(direction: Direction, faults: Faults) returns (answer: Result<Stats, ControllerError>)
      requires bridgeId.Some? && active.Some?
      modifies this, controller
      ensures (View(), answer) == old(View()).DemoteOne(direction, faults)
    {
      answer := Demote(bridgeId.value, active.value, faults);
      if answer.Ok? {
        active := None;
        stats := stats.Merge(answer.value);
      }
      history := history.MarkDemoted(direction);
    }

    method ConfirmRebind(slot: Slot, source: Remote, demotion: Faults, promotion: Faults)
      modifies this, controller
      ensures View() == old(View()).Rebind(slot, source, demotion, promotion)
    {
      if endpoints.At(slot) == Some(source) {
        return;
      }
      endpoints := endpoints.Put(slot, Some(source));
      var flows := endpoints.Flows();
      if stopped || bridgeId.None? {
        return;
      }
      if active.Some? {
        var answer := DemoteMoved(slot.Direction(), demotion);
        if answer.Err? {
          return;
        }
      }
      if flows.Some? {
        PromoteLocked(flows.value, promotion);
      }
    }

    method CheckRedirectHealth(snapshot: Faults, demotion: Faults)
      modifies this, controller
      ensures View() == old(View()).Health(snapshot, demotion)
    {
      if stopped || (blocked && active.None?) || bridgeId.None? || active.None? {
        return;
      }
      var answer := controller.Snapshot(bridgeId.value, active.value, snapshot);
      if answer.Ok? && answer.value.MaxRedirectErrors() < REDIRECT_ERROR_THRESHOLD {
        return;
      }
      if answer.Err? {
        answers := answers + {answer.error};
      }
      DemoteAndBlockLocked(bridgeId.value, active.value, demotion);
    }

    method DemoteAndBlockLocked(id: string, generation: nat, faults: Faults)
      modifies this, controller
      ensures View() == old(View()).DemoteAndBlock(id, generation, faults)
    {
      if active != Some(generation) {
        return;
      }
      var answer := Demote(id, generation, faults);
      if answer.Ok? {
        active := None;
        stats := stats.Merge(answer.value);
      }
      history := history.MarkDemoted(CallerToCallee);
      history := history.MarkDemoted(CalleeToCaller);
      blocked := true;
    }

    method Stop(faults: Faults) returns (total: Stats, final: History)
      modifies this, controller
      ensures View() == old(View()).Stop(faults)
      ensures total == stats && final == history
    {
      stopped := true;
      var taken := active;
      active := None;
      if bridgeId.Some? && taken.Some? {
        var answer := Demote(bridgeId.value, taken.value, faults);
        if answer.Ok? {
          stats := stats.Merge(answer.value);
        }
      }
      return stats, history;
    }

    method StopWithoutLog(faults: Faults)
      modifies this, controller
      ensures View() == old(View()).Drop(faults)
    {
      if stopped {
        return;
      }
      stopped := true;
      var taken := active;
      active := None;
      if bridgeId.Some? && taken.Some? {
        var _ := Demote(bridgeId.value, taken.value, faults);
      }
    }
  }
}
