/** Where the installed flows send packets, and which counters make the health check demote. */
module FastPathRoutes {
  import opened Prelude
  import opened FastPathTypes
  import opened FastPathController
  import opened FastPathRuntime
  import opened FastPathRuns

  // ---- Routes ----

  /**
   * In the bridge's generation, the kernel sends what arrives at `local` from `remote` out of `source` to
   * `destination`, and the table lists the flow as media of this kind and direction.
   */
  ghost predicate Forwards(t: Tables, id: string, kind: MediaKind, direction: Direction, local: SocketAddr,
                           remote: SocketAddr, source: SocketAddr, destination: SocketAddr) {
    && id in t.bridges && FlowKey(local, remote) in t.flows
    && InstalledFlow(FlowKey(local, remote), kind, direction) in t.bridges[id].installed
    && var action := t.flows[FlowKey(local, remote)];
       && action.source == source && action.destination == destination
       && action.direction == direction && action.generation == t.bridges[id].generation
  }

  /** Both advertised addresses are IPv4, and all four remote endpoints are known and IPv4. */
  predicate Complete(e: Endpoints) {
    && e.callerIp.Some? && e.calleeIp.Some?
    && e.callerRtp.Some? && e.callerRtp.value.V4? && e.callerRtcp.Some? && e.callerRtcp.value.V4?
    && e.calleeRtp.Some? && e.calleeRtp.value.V4? && e.calleeRtcp.Some? && e.calleeRtcp.value.V4?
  }

  /** Each party's media leaves the other party's relay socket for the other party, RTP and RTCP apart. */
  ghost predicate Routed(e: Endpoints, t: Tables, id: string) {
    && Complete(e)
    && var callerRtp, calleeRtp := SocketAddr(e.callerIp.value, e.callerRtpPort),
                                   SocketAddr(e.calleeIp.value, e.calleeRtpPort);
       var callerRtcp, calleeRtcp := SocketAddr(e.callerIp.value, e.callerRtcpPort),
                                     SocketAddr(e.calleeIp.value, e.calleeRtcpPort);
       && Forwards(t, id, Rtp, CallerToCallee, callerRtp, e.callerRtp.value.addr, calleeRtp, e.calleeRtp.value.addr)
       && Forwards(t, id, Rtp, CalleeToCaller, calleeRtp, e.calleeRtp.value.addr, callerRtp, e.callerRtp.value.addr)
       && Forwards(t, id, Rtcp, CallerToCallee, callerRtcp, e.callerRtcp.value.addr, calleeRtcp,
                   e.calleeRtcp.value.addr)
       && Forwards(t, id, Rtcp, CalleeToCaller, calleeRtcp, e.calleeRtcp.value.addr, callerRtcp,
                   e.callerRtcp.value.addr)
  }

  lemma FlowsExactly(e: Endpoints)
    ensures e.Flows().Some? <==> Complete(e)
    ensures e.Flows().Some? ==> |e.Flows().value| == 4
  {
  }

  /** No insertion of the four flows fails. */
  predicate InsertionsWork(faults: Faults) {
    0 !in faults.insert && 1 !in faults.insert && 2 !in faults.insert && 3 !in faults.insert
  }

  lemma SpecsRouted(e: Endpoints, t: Tables, id: string)
    requires Complete(e) && id in t.bridges && t.bridges[id].installed == InstalledFlows(e.Flows().value)
    requires var specs := e.Flows().value;
             forall q :: 0 <= q < |specs| ==>
               specs[q].Key() in t.flows && t.flows[specs[q].Key()] == specs[q].Action(t.bridges[id].generation)
    ensures Routed(e, t, id)
  {
    var specs, installed := e.Flows().value, t.bridges[id].installed;
    assert specs[0].Installed() == installed[0] && specs[1].Installed() == installed[1];
    assert specs[2].Installed() == installed[2] && specs[3].Installed() == installed[3];
    assert specs[0].Key() in t.flows && specs[1].Key() in t.flows && specs[2].Key() in t.flows;
    assert specs[3].Key() in t.flows;
  }

  /** An installation succeeds exactly if no insertion fails, and then routes the media. */
  lemma InstallRoutes(s: State, faults: Faults)
    requires s.rt.endpoints.DistinctPorts() && Complete(s.rt.endpoints) && !s.rt.blocked && s.rt.active.None?
    requires s.rt.bridgeId.Some? && s.rt.bridgeId.value !in s.tables.bridges
    ensures s.rt.endpoints.Flows().Some?
    ensures var s' := s.Install(s.rt.endpoints.Flows().value, faults);
            && (s'.rt.active.Some? <==> InsertionsWork(faults))
            && s'.rt.endpoints == s.rt.endpoints && s'.rt.bridgeId == s.rt.bridgeId
            && (s'.rt.active.Some? ==>
                  && s'.rt.active == Some(SatAdd(s.rt.generation, 1)) && s'.rt.generation == SatAdd(s.rt.generation, 1)
                  && Routed(s.rt.endpoints, s'.tables, s'.rt.bridgeId.value))
            && (s'.rt.active.None? ==> s'.rt == s.rt)
  {
    FlowsExactly(s.rt.endpoints);
    OwnFlowsDistinct(s.rt.endpoints);
    var specs := s.rt.endpoints.Flows().value;
    PromoteEffect(s.tables, s.rt.bridgeId.value, SatAdd(s.rt.generation, 1), specs, faults);
    var s' := s.Install(specs, faults);
    assert (forall i :: 0 <= i < |specs| ==> i !in faults.insert) <==> InsertionsWork(faults);
    if s'.rt.active.Some? {
      SpecsRouted(s.rt.endpoints, s'.tables, s.rt.bridgeId.value);
    }
  }

  /** A call is promoted exactly under these conditions, and then its media is routed in a new generation. */
  lemma PromotedExactly(s: State, id: string, available: bool, faults: Faults)
    requires Good(s) && (s.rt.bridgeId.None? ==> id !in s.tables.bridges)
    ensures var s' := s.Promote(id, available, faults);
            && (s.rt.active.None? && s'.rt.active.Some? <==>
                  && available && Complete(s.rt.endpoints) && !s.rt.stopped && !s.rt.blocked && s.rt.active.None?
                  && (s.rt.bridgeId.Some? ==> s.rt.bridgeId.value == id) && InsertionsWork(faults))
            && s'.rt.endpoints == s.rt.endpoints
            && (s.rt.active.None? && s'.rt.active.Some? ==>
                  && s'.rt.bridgeId == Some(id) && s'.rt.generation == SatAdd(s.rt.generation, 1)
                  && Routed(s.rt.endpoints, s'.tables, s'.rt.bridgeId.value))
  {
    FlowsExactly(s.rt.endpoints);
    if available && Complete(s.rt.endpoints) && !s.rt.stopped && !s.rt.blocked && s.rt.active.None?
       && (s.rt.bridgeId.Some? ==> s.rt.bridgeId.value == id) {
      InstallRoutes(s.(rt := s.rt.(bridgeId := Some(id))), faults);
    }
  }

  /** The endpoints with one remote endpoint replaced. */
  function WithRemote(e: Endpoints, slot: Slot, source: Remote): Endpoints {
    if slot == CallerRtp then e.(callerRtp := Some(source))
    else if slot == CallerRtcp then e.(callerRtcp := Some(source))
    else if slot == CalleeRtp then e.(calleeRtp := Some(source))
    else e.(calleeRtcp := Some(source))
  }

  lemma MovedExactly(e: Endpoints, slot: Slot, source: Remote)
    ensures e.Put(slot, Some(source)) == WithRemote(e, slot, source)
    ensures e.At(slot) == Some(source) <==> WithRemote(e, slot, source) == e
    ensures WithRemote(e, slot, source).DistinctPorts() == e.DistinctPorts()
  {
  }

  /**
   * Rebinding replaces exactly the one remote endpoint. A new source on a promoted call is demoted first, and once
   * that succeeded, as on a call not promoted, the media is routed to the new endpoints exactly if they are complete
   * and no insertion fails.
   */
  lemma ReboundExactly(s: State, slot: Slot, source: Remote, demotion: Faults, promotion: Faults)
    requires Good(s) && s.rt.bridgeId.Some? && !s.rt.stopped && !s.rt.blocked
    requires WithRemote(s.rt.endpoints, slot, source) != s.rt.endpoints
    requires s.rt.active.Some? ==> demotion == NO_FAULTS
    requires s.rt.active.Some? ==> s.rt.bridgeId.value in s.tables.bridges
    ensures var s', e := s.Rebind(slot, source, demotion, promotion), WithRemote(s.rt.endpoints, slot, source);
            && s'.rt.endpoints == e && s'.rt.bridgeId == s.rt.bridgeId
            && (s'.rt.active.Some? <==> Complete(e) && InsertionsWork(promotion))
            && (s'.rt.active.Some? ==>
                  s'.rt.generation == SatAdd(s.rt.generation, 1) && Routed(e, s'.tables, s'.rt.bridgeId.value))
            && (s.rt.active.Some? ==> s'.rt.history.Mode() == Mixed)
  {
    var m := s.Moved(slot, source);
    MovedExactly(s.rt.endpoints, slot, source);
    MovedGood(s, slot, source);
    FlowsExactly(m.rt.endpoints);
    if s.rt.active.None? {
      if Complete(m.rt.endpoints) {
        InstallRoutes(m, promotion);
      }
    } else {
      var (d, answer) := m.DemoteOne(slot.Direction(), demotion);
      DemotedCleanly(m, slot.Direction());
      if Complete(d.rt.endpoints) {
        InstallRoutes(d, promotion);
      }
    }
  }

  /** Moving an endpoint of a promoted call interrupts its party's media, whatever fails, and only that. */
  lemma ReboundHistory(s: State, slot: Slot, source: Remote, demotion: Faults, promotion: Faults)
    requires Good(s) && s.rt.active.Some? && WithRemote(s.rt.endpoints, slot, source) != s.rt.endpoints
    ensures var history := s.Rebind(slot, source, demotion, promotion).rt.history;
            && history.caller.demoted == (s.rt.history.caller.demoted || slot == CallerRtp || slot == CallerRtcp)
            && history.callee.demoted == (s.rt.history.callee.demoted || slot == CalleeRtp || slot == CalleeRtcp)
            && history.caller.promoted && history.callee.promoted
  {
    MovedExactly(s.rt.endpoints, slot, source);
    var m := s.Moved(slot, source);
    assert m.rt.history == s.rt.history && m.rt.active == s.rt.active;
    var (d, answer) := m.DemoteOne(slot.Direction(), demotion);
    DemotedHistory(m, slot.Direction(), demotion);
    ReinstalledHistory(d, promotion);
  }

  lemma DemotedHistory(m: State, direction: Direction, faults: Faults)
    requires m.rt.bridgeId.Some? && m.rt.active.Some?
    ensures m.DemoteOne(direction, faults).0.rt.history == m.rt.history.MarkDemoted(direction)
  {
  }

  lemma ReinstalledHistory(s: State, faults: Faults)
    ensures var history := s.Reinstall(faults).rt.history;
            history == s.rt.history || history == s.rt.history.PromoteBoth()
  {
  }

  lemma DemotedCleanly(m: State, direction: Direction)
    requires Good(m) && m.rt.active.Some? && m.rt.bridgeId.value in m.tables.bridges
    ensures var (d, answer) := m.DemoteOne(direction, NO_FAULTS);
            && answer.Ok? && d.rt.active.None? && d.rt.endpoints == m.rt.endpoints && d.rt.bridgeId == m.rt.bridgeId
            && d.rt.blocked == m.rt.blocked && d.rt.stopped == m.rt.stopped && d.rt.generation == m.rt.generation
            && d.rt.bridgeId.value !in d.tables.bridges && d.rt.history.Mode() == Mixed
            && d.rt.history == m.rt.history.MarkDemoted(direction)
  {
    var installed := m.tables.bridges[m.rt.bridgeId.value].installed;
    DemoteOwn(m, m.rt.active.value, NO_FAULTS);
    RemoveClean(Removal(m.tables.flows, NO_STATS, true), installed, 0, NO_FAULTS);
  }

  // ---- Every installed flow has its reverse ----

  /** The flow at j carries the opposite direction of the one at i, and each leaves where the other arrives. */
  ghost predicate Reverse(flows: FlowMap, installed: seq<InstalledFlow>, generation: nat, i: nat, j: nat) {
    && i < |installed| && j < |installed| && installed[i].key in flows
    && installed[j].kind == installed[i].kind && installed[j].direction != installed[i].direction
    && var action := flows[installed[i].key];
       && action.source == installed[j].key.local && action.destination == installed[j].key.remote
       && action.direction == installed[i].direction && action.generation == generation
  }

  ghost predicate HasReverse(flows: FlowMap, installed: seq<InstalledFlow>, generation: nat, i: nat) {
    exists j :: 0 <= j < |installed| && Reverse(flows, installed, generation, i, j)
  }

  ghost predicate Mirrored(s: State) {
    s.rt.bridgeId.Some? && s.rt.bridgeId.value in s.tables.bridges ==>
      var entry := s.tables.bridges[s.rt.bridgeId.value];
      forall i :: 0 <= i < |entry.installed| ==> HasReverse(s.tables.flows, entry.installed, entry.generation, i)
  }

  lemma InstalledMirrored(e: Endpoints, flows: FlowMap, generation: nat)
    requires e.Flows().Some?
    requires var specs := e.Flows().value;
             forall q :: 0 <= q < |specs| ==>
               specs[q].Key() in flows && flows[specs[q].Key()] == specs[q].Action(generation)
    ensures var installed := InstalledFlows(e.Flows().value);
            forall i :: 0 <= i < |installed| ==> HasReverse(flows, installed, generation, i)
  {
    var installed := InstalledFlows(e.Flows().value);
    assert Reverse(flows, installed, generation, 0, 1) && Reverse(flows, installed, generation, 1, 0);
    assert Reverse(flows, installed, generation, 2, 3) && Reverse(flows, installed, generation, 3, 2);
  }

  lemma InstallMirrored(s: State, faults: Faults)
    requires s.rt.endpoints.DistinctPorts() && s.rt.endpoints.Flows().Some?
    requires s.rt.bridgeId.Some? ==> s.rt.bridgeId.value !in s.tables.bridges
    ensures Mirrored(s.Install(s.rt.endpoints.Flows().value, faults))
  {
    if !s.rt.blocked && s.rt.bridgeId.Some? {
      var specs, generation := s.rt.endpoints.Flows().value, SatAdd(s.rt.generation, 1);
      OwnFlowsDistinct(s.rt.endpoints);
      PromoteEffect(s.tables, s.rt.bridgeId.value, generation, specs, faults);
      var s' := s.Install(specs, faults);
      if s'.rt.bridgeId.value in s'.tables.bridges {
        InstalledMirrored(s.rt.endpoints, s'.tables.flows, generation);
      }
    }
  }

  /** Demoting leaves no entry to mirror. */
  lemma DemoteMirrored(s: State, generation: nat, faults: Faults, end: State)
    requires s.rt.bridgeId.Some?
    requires s.rt.bridgeId.value in s.tables.bridges ==> s.tables.bridges[s.rt.bridgeId.value].generation == generation
    requires end.tables == s.Demote(s.rt.bridgeId.value, generation, faults).0.tables
    requires end.rt.bridgeId == s.rt.bridgeId
    ensures Mirrored(end)
  {
    DemoteOwn(s, generation, faults);
  }

  lemma ReinstallMirrored(s: State, faults: Faults)
    requires Good(s) && s.rt.active.None? && Mirrored(s)
    ensures Mirrored(s.Reinstall(faults))
  {
    if s.rt.endpoints.Flows().Some? {
      InstallMirrored(s, faults);
    }
  }

  lemma RebindMirrored(s: State, slot: Slot, source: Remote, demotion: Faults, promotion: Faults)
    requires Good(s) && Mirrored(s)
    ensures Mirrored(s.Rebind(slot, source, demotion, promotion))
  {
    var m := s.Moved(slot, source);
    MovedGood(s, slot, source);
    RebindOutcome(s, slot, source, demotion, promotion);
    if m.rt.active.None? {
      ReinstallMirrored(m, promotion);
    } else {
      var (d, answer) := m.DemoteOne(slot.Direction(), demotion);
      DemoteMirrored(m, m.rt.active.value, demotion, d);
      DemoteOneGood(m, slot.Direction(), demotion);
      if answer.Ok? {
        ReinstallMirrored(d, promotion);
      }
    }
  }

  /** Routes do not depend on the counters, and other calls leave this call's ports alone. */
  lemma OutsideMirrored(w: World, step: Step)
    requires Good(w.s) && Enabled(w, step) && Mirrored(w.s) && (step.Packet? || step.Others? || step.Prepare?)
    ensures Mirrored(Apply(w, step).s)
  {
    var s, end := w.s, Apply(w, step).s;
    if end.rt.bridgeId.Some? && end.rt.bridgeId.value in end.tables.bridges {
      var entry := end.tables.bridges[end.rt.bridgeId.value];
      assert entry == s.tables.bridges[s.rt.bridgeId.value];
      forall i | 0 <= i < |entry.installed|
        ensures HasReverse(end.tables.flows, entry.installed, entry.generation, i)
      {
        assert HasReverse(s.tables.flows, entry.installed, entry.generation, i);
        var j :| 0 <= j < |entry.installed| && Reverse(s.tables.flows, entry.installed, entry.generation, i, j);
        assert step.Others? ==> SameAt(s.tables.flows, end.tables.flows, entry.installed[i].key);
        assert Reverse(end.tables.flows, entry.installed, entry.generation, i, j);
      }
    }
  }

  lemma StepMirrored(w: World, step: Step)
    requires Good(w.s) && Enabled(w, step) && Mirrored(w.s)
    ensures Mirrored(Apply(w, step).s)
  {
    var s, rt := w.s, w.s.rt;
    match step
    case Promote(id, available, f) =>
      if available && rt.endpoints.Flows().Some? && !rt.stopped && !rt.blocked && rt.active.None?
         && (rt.bridgeId.Some? ==> rt.bridgeId.value == id) {
        InstallMirrored(s.(rt := rt.(bridgeId := Some(id))), f);
      }
    case Rebind(slot, source, d, p) => RebindMirrored(s, slot, source, d, p);
    case Block(f) =>
      if !rt.stopped && rt.active.Some? {
        DemoteMirrored(s.(rt := rt.(blocked := true)), rt.active.value, f, s.Block(f).0);
      }
    case Health(f, d) => HealthMirrored(s, f, d);
    case Stop(f) => StopMirrored(s, f);
    case Drop(f) => StopMirrored(s, f);
    case _ => OutsideMirrored(w, step);
  }

  lemma StopMirrored(s: State, faults: Faults)
    requires Good(s) && Mirrored(s)
    ensures Mirrored(s.Stop(faults)) && Mirrored(s.Drop(faults))
  {
    if s.rt.active.Some? {
      var b := s.(rt := s.rt.(stopped := true, active := None));
      DemoteMirrored(b, s.rt.active.value, faults, s.Stop(faults));
      DemoteMirrored(b, s.rt.active.value, faults, s.Drop(faults));
    }
  }

  lemma HealthMirrored(s: State, snapshot: Faults, demotion: Faults)
    requires Good(s) && Mirrored(s)
    ensures Mirrored(s.Health(snapshot, demotion))
  {
    if s.rt.active.Some? && s.Health(snapshot, demotion) != s {
      DemoteMirrored(s, s.rt.active.value, demotion, s.Health(snapshot, demotion));
    }
  }

  /**
   * On every run, every installed flow of the call has an installed reverse: packets leave the socket where the
   * other party's packets arrive, for the address they come from.
   */
  lemma {:induction false} MirroredOnEveryRun(w: World, run: seq<Step>)
    requires Good(w.s) && Valid(w, run) && Mirrored(w.s)
    ensures Mirrored(Execute(w, run).s)
    decreases |run|
  {
    if run != [] {
      ApplyGood(w, run[0]);
      StepMirrored(w, run[0]);
      MirroredOnEveryRun(Apply(w, run[0]), run[1..]);
    }
  }

  // ---- Generations ----

  /** A bridge's flows are removed or read only in its own generation; in another nothing happens. */
  lemma GenerationGuards(t: Tables, id: string, generation: nat, faults: Faults)
    ensures RemoveTables(t, id, generation, faults).1 == Err(StaleGeneration) <==>
            id in t.bridges && t.bridges[id].generation != generation
    ensures SnapshotTables(t, id, generation, faults) == Err(StaleGeneration) <==>
            id in t.bridges && t.bridges[id].generation != generation
    ensures id !in t.bridges ==> RemoveTables(t, id, generation, faults) == (t, Ok(NO_STATS))
    ensures SnapshotTables(t, id, generation, faults) == Err(BridgeMissing) <==> id !in t.bridges
    ensures id !in t.bridges || t.bridges[id].generation != generation ==>
              RemoveTables(t, id, generation, faults).0 == t
  {
    if id in t.bridges {
      ReadErrors(t.flows, NO_STATS, t.bridges[id].installed, 0, faults);
    }
  }

  lemma {:induction false} ReadErrors(flows: FlowMap, stats: Stats, installed: seq<InstalledFlow>, position: nat,
                                      faults: Faults)
    requires position <= |installed|
    ensures var answer := ReadFlows(flows, stats, installed, position, faults);
            answer.Err? ==> answer.error == MapReadFailed
    decreases |installed| - position
  {
    if position < |installed| && installed[position].key in flows {
      ReadErrors(flows, AddFlow(stats, installed[position], flows[installed[position].key].counts), installed,
                 position + 1, faults);
    }
  }

  // ---- The health check ----

  /** Some installed flow cannot be read or has failed to redirect three packets. */
  ghost predicate Ailing(flows: FlowMap, installed: seq<InstalledFlow>, position: nat, faults: Faults) {
    exists i :: position <= i < |installed| && Ails(flows, installed, faults, i)
  }

  predicate Ails(flows: FlowMap, installed: seq<InstalledFlow>, faults: Faults, i: nat)
    requires i < |installed|
  {
    i in faults.read || installed[i].key !in flows || flows[installed[i].key].counts.redirectErrors >= 3
  }

  lemma {:induction false} ReadLeavesPair(flows: FlowMap, stats: Stats, installed: seq<InstalledFlow>, position: nat,
                                          faults: Faults, kind: MediaKind, direction: Direction)
    requires position <= |installed| && ReadFlows(flows, stats, installed, position, faults).Ok?
    requires forall i :: position <= i < |installed| ==>
               !(installed[i].kind == kind && installed[i].direction == direction)
    ensures ReadFlows(flows, stats, installed, position, faults).value.At(kind, direction) == stats.At(kind, direction)
    decreases |installed| - position
  {
    if position < |installed| {
      ReadLeavesPair(flows, AddFlow(stats, installed[position], flows[installed[position].key].counts), installed,
                     position + 1, faults, kind, direction);
    }
  }

  lemma {:induction false} ReadCollects(flows: FlowMap, stats: Stats, installed: seq<InstalledFlow>, position: nat,
                                        faults: Faults, q: nat)
    requires position <= q < |installed| && Distinct(installed)
    requires ReadFlows(flows, stats, installed, position, faults).Ok?
    ensures installed[q].key in flows
    ensures var flow := installed[q];
            ReadFlows(flows, stats, installed, position, faults).value.At(flow.kind, flow.direction)
            == stats.At(flow.kind, flow.direction).SatPlus(flows[flow.key].counts)
    decreases |installed| - position
  {
    var next := AddFlow(stats, installed[position], flows[installed[position].key].counts);
    if position == q {
      ReadLeavesPair(flows, next, installed, q + 1, faults, installed[q].kind, installed[q].direction);
    } else {
      ReadCollects(flows, next, installed, position + 1, faults, q);
    }
  }

  lemma {:induction false} ReadableExactly(flows: FlowMap, stats: Stats, installed: seq<InstalledFlow>, position: nat,
                                           faults: Faults)
    requires position <= |installed|
    ensures ReadFlows(flows, stats, installed, position, faults).Ok? <==>
            forall i :: position <= i < |installed| ==> installed[i].key in flows && i !in faults.read
    decreases |installed| - position
  {
    if position < |installed| && installed[position].key in flows {
      ReadableExactly(flows, AddFlow(stats, installed[position], flows[installed[position].key].counts), installed,
                      position + 1, faults);
    }
  }

  /** The largest error count is three exactly if that of some pair is. */
  lemma LargestErrors(stats: Stats)
    ensures stats.MaxRedirectErrors() >= 3 <==>
            exists kind, direction :: stats.At(kind, direction).redirectErrors >= 3
  {
    assert stats.At(Rtp, CallerToCallee) == stats.callerRtp && stats.At(Rtp, CalleeToCaller) == stats.calleeRtp;
    assert stats.At(Rtcp, CallerToCallee) == stats.callerRtcp && stats.At(Rtcp, CalleeToCaller) == stats.calleeRtcp;
  }

  /** In a readable snapshot, three errors of some pair are those of an installed flow. */
  lemma PairAilsExactly(flows: FlowMap, installed: seq<InstalledFlow>, faults: Faults, kind: MediaKind,
                        direction: Direction)
    requires Distinct(installed) && ReadFlows(flows, NO_STATS, installed, 0, faults).Ok?
    requires ReadFlows(flows, NO_STATS, installed, 0, faults).value.At(kind, direction).redirectErrors >= 3
    ensures Ailing(flows, installed, 0, faults)
  {
    if i :| 0 <= i < |installed| && installed[i].kind == kind && installed[i].direction == direction {
      ReadCollects(flows, NO_STATS, installed, 0, faults, i);
      assert Ails(flows, installed, faults, i);
    } else {
      ReadLeavesPair(flows, NO_STATS, installed, 0, faults, kind, direction);
    }
  }

  lemma SnapshotHealthy(flows: FlowMap, installed: seq<InstalledFlow>, faults: Faults)
    requires Distinct(installed)
    ensures var answer := ReadFlows(flows, NO_STATS, installed, 0, faults);
            answer.Ok? && answer.value.MaxRedirectErrors() < 3 <==> !Ailing(flows, installed, 0, faults)
  {
    var answer := ReadFlows(flows, NO_STATS, installed, 0, faults);
    ReadableExactly(flows, NO_STATS, installed, 0, faults);
    if answer.Err? {
      var i :| 0 <= i < |installed| && !(installed[i].key in flows && i !in faults.read);
      assert Ails(flows, installed, faults, i);
    } else {
      LargestErrors(answer.value);
      if kind, direction :| answer.value.At(kind, direction).redirectErrors >= 3 {
        PairAilsExactly(flows, installed, faults, kind, direction);
      }
      if i :| 0 <= i < |installed| && Ails(flows, installed, faults, i) {
        ReadCollects(flows, NO_STATS, installed, 0, faults, i);
        assert answer.value.At(installed[i].kind, installed[i].direction).redirectErrors >= 3;
      }
    }
  }

  /** The table holds flows for the call, each readable and with fewer than three redirect errors. */
  ghost predicate Healthy(s: State, snapshot: Faults)
    requires s.rt.bridgeId.Some?
  {
    && s.rt.bridgeId.value in s.tables.bridges
    && !Ailing(s.tables.flows, s.tables.bridges[s.rt.bridgeId.value].installed, 0, snapshot)
  }

  /**
   * The health check changes nothing on a promoted call that is healthy; any other it demotes and blocks, and the
   * call is in user space again unless a removal fails.
   */
  lemma HealthExactly(s: State, snapshot: Faults, demotion: Faults)
    requires Good(s) && s.rt.active.Some?
    ensures var end := s.Health(snapshot, demotion);
            if Healthy(s, snapshot) then end == s
            else
              && end.rt.blocked && end.rt.bridgeId == s.rt.bridgeId && end.rt.bridgeId.value !in end.tables.bridges
              && (demotion.remove == {} ==> end.rt.active.None?)
  {
    DemoteOwn(s, s.rt.active.value, demotion);
    if s.rt.bridgeId.value in s.tables.bridges {
      var installed := s.tables.bridges[s.rt.bridgeId.value].installed;
      SnapshotHealthy(s.tables.flows, installed, snapshot);
      if demotion.remove == {} {
        RemoveClean(Removal(s.tables.flows, NO_STATS, true), installed, 0, demotion);
      }
    }
  }
}
