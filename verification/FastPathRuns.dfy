/** Whole runs of one call's fast path runtime over the shared controller and the kernel data path. */
module FastPathRuns {
  import opened Prelude
  import opened FastPathTypes
  import opened FastPathController
  import opened FastPathRuntime

  // ---- What the controller operations do to the tables ----

  /** The two maps agree on a key. */
  ghost predicate SameAt(a: FlowMap, b: FlowMap, key: FlowKey) {
    (key in a <==> key in b) && (key in a ==> a[key] == b[key])
  }

  ghost predicate Mentions(installed: seq<InstalledFlow>, key: FlowKey) {
    exists i :: 0 <= i < |installed| && installed[i].key == key
  }

  /** No two flows share a key or a (media kind, direction) pair. */
  ghost predicate Distinct(installed: seq<InstalledFlow>) {
    forall i, j :: 0 <= i < j < |installed| ==>
      && installed[i].key != installed[j].key
      && !(installed[i].kind == installed[j].kind && installed[i].direction == installed[j].direction)
  }

  lemma {:induction false} RollbackFrame(flows: FlowMap, installed: seq<InstalledFlow>, position: nat, faults: Faults,
                                         key: FlowKey)
    requires position <= |installed| && !Mentions(installed, key)
    ensures SameAt(flows, Rollback(flows, installed, position, faults), key)
    decreases |installed| - position
  {
    if position < |installed| {
      var rest := if Removable(flows, installed[position], position, faults)
                  then flows - {installed[position].key} else flows;
      RollbackFrame(rest, installed, position + 1, faults, key);
    }
  }

  lemma {:induction false} InsertFrame(flows: FlowMap, generation: nat, specs: seq<FlowSpec>, position: nat,
                                       faults: Faults, key: FlowKey)
    requires position <= |specs| && !Mentions(InstalledFlows(specs), key)
    ensures SameAt(flows, InsertFlows(flows, generation, specs, position, faults).0, key)
    decreases |specs| - position
  {
    if position < |specs| {
      assert InstalledFlows(specs)[position].key == specs[position].Key();
      if position in faults.insert {
        var earlier := InstalledFlows(specs[..position]);
        forall i | 0 <= i < position ensures earlier[i].key != key {
          assert earlier[i] == InstalledFlows(specs)[i];
        }
        RollbackFrame(flows, earlier, 0, faults, key);
      } else {
        InsertFrame(flows[specs[position].Key() := specs[position].Action(generation)], generation, specs,
                    position + 1, faults, key);
      }
    }
  }

  lemma {:induction false} InsertedFlow(flows: FlowMap, generation: nat, specs: seq<FlowSpec>, position: nat,
                                        faults: Faults, q: nat)
    requires position <= |specs| && q < |specs| && Distinct(InstalledFlows(specs))
    requires q < position ==> specs[q].Key() in flows && flows[specs[q].Key()] == specs[q].Action(generation)
    ensures var (flows', inserted) := InsertFlows(flows, generation, specs, position, faults);
            inserted ==> specs[q].Key() in flows' && flows'[specs[q].Key()] == specs[q].Action(generation)
    decreases |specs| - position
  {
    if position < |specs| && position !in faults.insert {
      var all := InstalledFlows(specs);
      assert position != q ==> all[position].key != all[q].key;
      InsertedFlow(flows[specs[position].Key() := specs[position].Action(generation)], generation, specs,
                   position + 1, faults, q);
    }
  }

  lemma {:induction false} InsertSucceeds(flows: FlowMap, generation: nat, specs: seq<FlowSpec>, position: nat,
                                          faults: Faults)
    requires position <= |specs|
    ensures InsertFlows(flows, generation, specs, position, faults).1
       <==> forall i :: position <= i < |specs| ==> i !in faults.insert
    decreases |specs| - position
  {
    if position < |specs| && position !in faults.insert {
      InsertSucceeds(flows[specs[position].Key() := specs[position].Action(generation)], generation, specs,
                     position + 1, faults);
    }
  }

  /** A promotion is all or nothing in the bridge table, and touches no key outside its specification. */
  lemma PromoteEffect(t: Tables, id: string, generation: nat, specs: seq<FlowSpec>, faults: Faults)
    requires Distinct(InstalledFlows(specs))
    ensures var (t', answer) := PromoteTables(t, id, generation, specs, faults);
            && (answer == Err(BridgeExists) <==> id in t.bridges)
            && (answer.Ok? <==> id !in t.bridges && forall i :: 0 <= i < |specs| ==> i !in faults.insert)
            && (answer.Err? ==> answer.error in {BridgeExists, MapInsertFailed} && t'.bridges == t.bridges)
            && (answer.Ok? ==>
                  && t'.bridges == t.bridges[id := BridgeEntry(generation, InstalledFlows(specs))]
                  && forall q :: 0 <= q < |specs| ==>
                       specs[q].Key() in t'.flows && t'.flows[specs[q].Key()] == specs[q].Action(generation))
            && forall key :: !Mentions(InstalledFlows(specs), key) ==> SameAt(t.flows, t'.flows, key)
  {
    var (t', answer) := PromoteTables(t, id, generation, specs, faults);
    InsertSucceeds(t.flows, generation, specs, 0, faults);
    forall key | !Mentions(InstalledFlows(specs), key) ensures SameAt(t.flows, t'.flows, key) {
      InsertFrame(t.flows, generation, specs, 0, faults, key);
    }
    forall q | 0 <= q < |specs|
      ensures answer.Ok? ==> specs[q].Key() in t'.flows && t'.flows[specs[q].Key()] == specs[q].Action(generation)
    {
      InsertedFlow(t.flows, generation, specs, 0, faults, q);
    }
  }

  /** Statistics of a pair no remaining flow is for stay as they are. */
  lemma {:induction false} RemoveLeavesPair(so: Removal, installed: seq<InstalledFlow>, position: nat, faults: Faults,
                                            kind: MediaKind, direction: Direction)
    requires position <= |installed|
    requires forall i :: position <= i < |installed| ==>
             !(installed[i].kind == kind && installed[i].direction == direction)
    ensures RemoveFlows(so, installed, position, faults).stats.At(kind, direction) == so.stats.At(kind, direction)
    decreases |installed| - position
  {
    if position < |installed| {
      RemoveLeavesPair(so.Next(installed[position], position, faults), installed, position + 1, faults, kind,
                       direction);
    }
  }

  /** What a removal pass collects for the flow at `q`, whatever happens to the other flows. */
  lemma {:induction false} RemoveCollects(so: Removal, installed: seq<InstalledFlow>, position: nat,
                                          faults: Faults, q: nat)
    requires position <= q < |installed| && Distinct(installed)
    ensures var flow := installed[q];
            RemoveFlows(so, installed, position, faults).stats.At(flow.kind, flow.direction) ==
              if Readable(so.flows, flow, q, faults)
              then so.stats.At(flow.kind, flow.direction).SatPlus(so.flows[flow.key].counts)
              else so.stats.At(flow.kind, flow.direction)
    decreases |installed| - position
  {
    var next := so.Next(installed[position], position, faults);
    if position == q {
      RemoveLeavesPair(next, installed, q + 1, faults, installed[q].kind, installed[q].direction);
    } else {
      assert installed[position].key != installed[q].key;
      RemoveCollects(next, installed, position + 1, faults, q);
    }
  }

  lemma {:induction false} RemoveClean(so: Removal, installed: seq<InstalledFlow>, position: nat, faults: Faults)
    requires position <= |installed| && Distinct(installed) && so.clean && faults.remove == {}
    requires forall i :: position <= i < |installed| ==> installed[i].key in so.flows
    ensures RemoveFlows(so, installed, position, faults).clean
    decreases |installed| - position
  {
    if position < |installed| {
      RemoveClean(so.Next(installed[position], position, faults), installed, position + 1, faults);
    }
  }

  // ---- The system ----

  /** `seen` is the sum of the kernel's counters of the flows installed for this call, over all generations. */
  datatype World = World(s: State, seen: Stats) {
    ghost predicate HasEntry() { s.rt.bridgeId.Some? && s.rt.bridgeId.value in s.tables.bridges }

    ghost function Entry(): BridgeEntry
      requires HasEntry()
    {
      s.tables.bridges[s.rt.bridgeId.value]
    }

    /** Kernel counters of the pair in the installed generation. */
    ghost function Current(kind: MediaKind, direction: Direction): Counts {
      if HasEntry() then CountsOf(s.tables.flows, Entry().installed, kind, direction) else NO_COUNTS
    }
  }

  ghost predicate IsFlow(flows: FlowMap, installed: seq<InstalledFlow>, i: int, kind: MediaKind, direction: Direction) {
    && 0 <= i < |installed| && installed[i].kind == kind && installed[i].direction == direction
    && installed[i].key in flows
  }

  ghost function CountsOf(flows: FlowMap, installed: seq<InstalledFlow>, kind: MediaKind,
                          direction: Direction): Counts {
    if exists i :: IsFlow(flows, installed, i, kind, direction) then
      var i :| IsFlow(flows, installed, i, kind, direction);
      flows[installed[i].key].counts
    else NO_COUNTS
  }

  datatype Step =
    | Promote(id: string, available: bool, faults: Faults)
    | Rebind(slot: Slot, source: Remote, demotion: Faults, promotion: Faults)
    | Block(faults: Faults)
    | Health(snapshot: Faults, demotion: Faults)
    | Stop(faults: Faults)
    | Drop(faults: Faults)
      /** SDP re-preparation replaces the callee's advertised address and remote endpoints. */
    | Prepare(calleeIp: Option<nat>, calleeRtp: Option<Remote>, calleeRtcp: Option<Remote>)
      /** The kernel matches a packet: forwarded with its payload size, or counted as a redirect error. */
    | Packet(key: FlowKey, event: Counts)
      /** Any work of other calls on the shared controller. */
    | Others(tables: Tables)
  {
    ghost predicate Faultless() {
      match this
      case Promote(_, _, f) => f == NO_FAULTS
      case Rebind(_, _, d, p) => d == NO_FAULTS && p == NO_FAULTS
      case Block(f) => f == NO_FAULTS
      case Health(f, d) => f == NO_FAULTS && d == NO_FAULTS
      case Stop(f) => f == NO_FAULTS
      case Drop(_) => false
      case _ => true
    }
  }

  /** Other calls use other bridge ids and other relay ports; a call's bridge id is its own. */
  ghost predicate Enabled(w: World, step: Step) {
    match step
    case Promote(id, _, _) => w.s.rt.bridgeId.None? ==> id !in w.s.tables.bridges
    case Packet(_, event) => (event.packets == 1 && event.redirectErrors == 0) || event == Counts(0, 0, 1)
    case Others(t) =>
      && (w.s.rt.bridgeId.Some? ==>
            var id := w.s.rt.bridgeId.value;
            && (id in t.bridges <==> id in w.s.tables.bridges)
            && (id in t.bridges ==> t.bridges[id] == w.s.tables.bridges[id]))
      && forall key: FlowKey :: key.local.port in w.s.rt.endpoints.Ports() ==> SameAt(w.s.tables.flows, t.flows, key)
    case _ => true
  }

  /** The kernel counts with wrapping 64-bit additions. */
  function Counted(flows: FlowMap, key: FlowKey, event: Counts): FlowMap {
    if key in flows then flows[key := flows[key].(counts := flows[key].counts.Plus(event).Wrapped())] else flows
  }

  /** The flow of this call's entry that a packet hits, if any. */
  ghost predicate Hits(w: World, key: FlowKey, kind: MediaKind, direction: Direction) {
    w.HasEntry() && key in w.s.tables.flows && HitAt(w.Entry().installed, key, kind, direction)
  }

  ghost predicate HitAt(installed: seq<InstalledFlow>, key: FlowKey, kind: MediaKind, direction: Direction) {
    exists i :: 0 <= i < |installed| && installed[i] == InstalledFlow(key, kind, direction)
  }

  /** The sum with one counter's value replaced. */
  function Recount(seen: Counts, before: Counts, after: Counts): Counts {
    Counts(SatSub(seen.packets, before.packets) + after.packets, SatSub(seen.bytes, before.bytes) + after.bytes,
           SatSub(seen.redirectErrors, before.redirectErrors) + after.redirectErrors)
  }

  ghost function Credited(w: World, key: FlowKey, event: Counts): Stats {
    if w.HasEntry() && key in w.s.tables.flows && Mentions(w.Entry().installed, key) then
      var i :| 0 <= i < |w.Entry().installed| && w.Entry().installed[i].key == key;
      var flow, counts := w.Entry().installed[i], w.s.tables.flows[key].counts;
      var seen := w.seen.At(flow.kind, flow.direction);
      w.seen.Put(flow.kind, flow.direction, Recount(seen, counts, counts.Plus(event).Wrapped()))
    else w.seen
  }

  ghost function Apply(w: World, step: Step): World {
    match step
    case Promote(id, available, f) => w.(s := w.s.Promote(id, available, f))
    case Rebind(slot, source, d, p) => w.(s := w.s.Rebind(slot, source, d, p))
    case Block(f) => w.(s := w.s.Block(f).0)
    case Health(f, d) => w.(s := w.s.Health(f, d))
    case Stop(f) => w.(s := w.s.Stop(f))
    case Drop(f) => w.(s := w.s.Drop(f))
    case Prepare(ip, rtp, rtcp) =>
      w.(s := w.s.(rt := w.s.rt.(endpoints := w.s.rt.endpoints.(calleeIp := ip, calleeRtp := rtp, calleeRtcp := rtcp))))
    case Packet(key, event) =>
      World(w.s.(tables := w.s.tables.(flows := Counted(w.s.tables.flows, key, event))), Credited(w, key, event))
    case Others(t) => w.(s := w.s.(tables := t))
  }

  ghost predicate Initial(w: World) {
    w.s.rt == NewRuntime(w.s.rt.endpoints) && w.s.rt.endpoints.DistinctPorts() && w.s.answers == {}
      && w.seen == NO_STATS
  }

  ghost function Execute(w: World, run: seq<Step>): World
    decreases |run|
  {
    if run == [] then w else Execute(Apply(w, run[0]), run[1..])
  }

  ghost predicate Valid(w: World, run: seq<Step>)
    decreases |run|
  {
    run != [] ==> Enabled(w, run[0]) && Valid(Apply(w, run[0]), run[1..])
  }

  // ---- The linking invariant ----

  /** A table entry of this call belongs to the active generation; only a live runtime has an active generation. */
  ghost predicate Linked(s: State) {
    && (s.rt.active.Some? ==> s.rt.bridgeId.Some? && !s.rt.stopped && s.rt.active.value == s.rt.generation >= 1)
    && (s.rt.bridgeId.Some? && s.rt.bridgeId.value in s.tables.bridges ==>
          s.rt.active == Some(s.tables.bridges[s.rt.bridgeId.value].generation))
  }

  /** The installed flows: one per media kind and direction, on this call's ports, all present in the flow map. */
  ghost predicate WellInstalled(s: State) {
    && s.rt.endpoints.DistinctPorts()
    && (s.rt.bridgeId.Some? && s.rt.bridgeId.value in s.tables.bridges ==>
          var installed := s.tables.bridges[s.rt.bridgeId.value].installed;
          && Distinct(installed)
          && forall i :: 0 <= i < |installed| ==>
               installed[i].key in s.tables.flows && installed[i].key.local.port in s.rt.endpoints.Ports())
  }

  ghost predicate HistoryMatches(rt: Runtime) {
    && rt.generation <= U64_MAX
    && (rt.generation >= 1 <==> rt.history.caller.promoted) && (rt.generation >= 1 <==> rt.history.callee.promoted)
    && (rt.history.caller.demoted ==> rt.history.caller.promoted)
    && (rt.history.callee.demoted ==> rt.history.callee.promoted)
    && (rt.generation >= 2 || (rt.generation >= 1 && rt.active.None? && !rt.stopped) ==>
          rt.history.caller.demoted || rt.history.callee.demoted)
  }

  ghost predicate NeverConfused(s: State) { BridgeExists !in s.answers && StaleGeneration !in s.answers }

  ghost predicate Good(s: State) { Linked(s) && WellInstalled(s) && HistoryMatches(s.rt) && NeverConfused(s) }

  /** Demoting the entry the table may hold: it is gone afterwards, and nothing but a map removal can fail. */
  lemma DemoteOwn(s: State, generation: nat, faults: Faults)
    requires s.rt.bridgeId.Some?
    requires s.rt.bridgeId.value in s.tables.bridges ==> s.tables.bridges[s.rt.bridgeId.value].generation == generation
    ensures var (d, answer) := s.Demote(s.rt.bridgeId.value, generation, faults);
            && d.tables.bridges == s.tables.bridges - {s.rt.bridgeId.value}
            && d.rt == s.rt
            && (answer.Err? ==> answer.error == MapRemoveFailed)
            && d.answers == (if answer.Err? then s.answers + {MapRemoveFailed} else s.answers)
  {
  }

  lemma OwnFlowsDistinct(endpoints: Endpoints)
    requires endpoints.DistinctPorts() && endpoints.Flows().Some?
    ensures var installed := InstalledFlows(endpoints.Flows().value);
            && Distinct(installed) && |installed| == 4
            && forall i :: 0 <= i < 4 ==> installed[i].key.local.port in endpoints.Ports()
  {
  }

  /** Installing on a bridge without an entry and without an active generation. */
  lemma InstallGood(s: State, faults: Faults)
    requires Good(s) && s.rt.active.None? && !s.rt.stopped && s.rt.endpoints.Flows().Some?
    ensures Good(s.Install(s.rt.endpoints.Flows().value, faults))
  {
    if !s.rt.blocked && s.rt.bridgeId.Some? {
      var specs := s.rt.endpoints.Flows().value;
      OwnFlowsDistinct(s.rt.endpoints);
      PromoteEffect(s.tables, s.rt.bridgeId.value, SatAdd(s.rt.generation, 1), specs, faults);
      var s' := s.Install(specs, faults);
      if s'.rt.bridgeId.value in s'.tables.bridges {
        var installed := s'.tables.bridges[s'.rt.bridgeId.value].installed;
        assert forall i :: 0 <= i < |installed| ==> installed[i].key == specs[i].Key();
      }
    }
  }

  lemma BlockGood(s: State, faults: Faults)
    requires Good(s)
    ensures Good(s.Block(faults).0)
  {
    if s.rt.bridgeId.Some? && s.rt.active.Some? {
      DemoteOwn(s.(rt := s.rt.(blocked := true)), s.rt.active.value, faults);
    }
  }

  lemma DemoteAndBlockGood(s: State, faults: Faults)
    requires Good(s) && s.rt.active.Some?
    ensures Good(s.DemoteAndBlock(s.rt.bridgeId.value, s.rt.active.value, faults))
  {
    DemoteOwn(s, s.rt.active.value, faults);
  }

  lemma HealthGood(s: State, snapshot: Faults, demotion: Faults)
    requires Good(s)
    ensures Good(s.Health(snapshot, demotion))
  {
    if s.rt.bridgeId.Some? && s.rt.active.Some? {
      var answer := SnapshotTables(s.tables, s.rt.bridgeId.value, s.rt.active.value, snapshot);
      if s.rt.bridgeId.value in s.tables.bridges {
        ReadErrors(s.tables.flows, NO_STATS, s.tables.bridges[s.rt.bridgeId.value].installed, 0, snapshot);
      }
      var s' := if answer.Err? then s.(answers := s.answers + {answer.error}) else s;
      DemoteAndBlockGood(s', demotion);
    }
  }

  lemma {:induction false} ReadErrors(flows: FlowMap, stats: Stats, installed: seq<InstalledFlow>, position: nat,
                                      faults: Faults)
    requires position <= |installed|
    ensures var answer := ReadFlows(flows, stats, installed, position, faults);
            answer.Err? ==> answer.error == MapReadFailed
    decreases |installed| - position
  {
    if position < |installed| && Readable(flows, installed[position], position, faults) {
      ReadErrors(flows, AddFlow(stats, installed[position], flows[installed[position].key].counts), installed,
                 position + 1, faults);
    }
  }

  lemma StopGood(s: State, faults: Faults)
    requires Good(s)
    ensures Good(s.Stop(faults)) && Good(s.Drop(faults))
  {
    if s.rt.bridgeId.Some? && s.rt.active.Some? {
      DemoteOwn(s.(rt := s.rt.(stopped := true, active := None)), s.rt.active.value, faults);
    }
  }

  lemma DemoteOneGood(s: State, direction: Direction, faults: Faults)
    requires Good(s) && s.rt.active.Some?
    ensures Good(s.DemoteOne(direction, faults).0)
  {
    DemoteOwn(s, s.rt.active.value, faults);
  }

  lemma ReinstallGood(s: State, faults: Faults)
    requires Good(s) && s.rt.active.None? && !s.rt.stopped
    ensures Good(s.Reinstall(faults))
  {
    if s.rt.endpoints.Flows().Some? {
      InstallGood(s, faults);
    }
  }

  lemma MovedGood(s: State, slot: Slot, source: Remote)
    requires Good(s)
    ensures Good(s.Moved(slot, source))
  {
  }

  lemma RebindGood(s: State, slot: Slot, source: Remote, demotion: Faults, promotion: Faults)
    requires Good(s)
    ensures Good(s.Rebind(slot, source, demotion, promotion))
  {
    var m := s.Moved(slot, source);
    if s.rt.endpoints.At(slot) != Some(source) && !s.rt.stopped && s.rt.bridgeId.Some? {
      if s.rt.active.None? {
        ReinstallGood(m, promotion);
      } else {
        DemoteOneGood(m, slot.Direction(), demotion);
        var (d, answer) := m.DemoteOne(slot.Direction(), demotion);
        if answer.Ok? {
          ReinstallGood(d, promotion);
        }
      }
    }
  }

  lemma ApplyGood(w: World, step: Step)
    requires Good(w.s) && Enabled(w, step)
    ensures Good(Apply(w, step).s)
  {
    match step
    case Promote(id, available, f) =>
      if available && w.s.rt.endpoints.Flows().Some? && !w.s.rt.stopped && !w.s.rt.blocked && w.s.rt.active.None?
         && (w.s.rt.bridgeId.Some? ==> w.s.rt.bridgeId.value == id) {
        InstallGood(w.s.(rt := w.s.rt.(bridgeId := Some(id))), f);
      }
    case Rebind(slot, source, d, p) => RebindGood(w.s, slot, source, d, p);
    case Block(f) => BlockGood(w.s, f);
    case Health(f, d) => HealthGood(w.s, f, d);
    case Stop(f) => StopGood(w.s, f);
    case Drop(f) => StopGood(w.s, f);
    case _ =>
  }

  /**
   * On every run, with any map failures: the table holds a generation for the call only if it is the active one,
   * and the controller never answers bridge_exists or stale_generation.
   */
  lemma {:induction false} LinkedOnEveryRun(w: World, run: seq<Step>)
    requires Good(w.s) && Valid(w, run)
    ensures Good(Execute(w, run).s)
    decreases |run|
  {
    if run != [] {
      ApplyGood(w, run[0]);
      LinkedOnEveryRun(Apply(w, run[0]), run[1..]);
    }
  }

  lemma InitialGood(w: World)
    requires Initial(w)
    ensures Good(w.s)
  {
  }

  // ---- Blocking and stopping are final ----

  /** No further promotion is possible, nothing is active and the table has no entry. */
  ghost predicate Silenced(s: State) {
    && (s.rt.blocked || s.rt.stopped) && s.rt.active.None?
    && (s.rt.bridgeId.Some? ==> s.rt.bridgeId.value !in s.tables.bridges)
  }

  lemma {:induction false} SilencedOnEveryRun(w: World, run: seq<Step>)
    requires Silenced(w.s) && Valid(w, run)
    ensures var end := Execute(w, run).s;
            Silenced(end) && (w.s.rt.blocked ==> end.rt.blocked) && (w.s.rt.stopped ==> end.rt.stopped)
    decreases |run|
  {
    if run != [] {
      assert Silenced(Apply(w, run[0]).s);
      SilencedOnEveryRun(Apply(w, run[0]), run[1..]);
    }
  }

  /** Once blocking for a userspace capability succeeds, the call never takes the fast path again. */
  lemma BlockedForEver(w: World, faults: Faults, run: seq<Step>)
    requires Good(w.s) && w.s.Block(faults).1.Ok? && Valid(Apply(w, Block(faults)), run)
    ensures var end := Execute(Apply(w, Block(faults)), run).s;
            Silenced(end) && end.rt.blocked
  {
    if w.s.rt.bridgeId.Some? && w.s.rt.active.Some? {
      DemoteOwn(w.s.(rt := w.s.rt.(blocked := true)), w.s.rt.active.value, faults);
    }
    SilencedOnEveryRun(Apply(w, Block(faults)), run);
  }

  /** After teardown the bridge has no table entry for ever, even if map removals failed. */
  lemma StoppedForEver(w: World, faults: Faults, logged: bool, run: seq<Step>)
    requires Good(w.s) && Valid(Apply(w, if logged then Stop(faults) else Drop(faults)), run)
    ensures var end := Execute(Apply(w, if logged then Stop(faults) else Drop(faults)), run).s;
            Silenced(end) && end.rt.stopped
  {
    if w.s.rt.bridgeId.Some? && w.s.rt.active.Some? {
      DemoteOwn(w.s.(rt := w.s.rt.(stopped := true, active := None)), w.s.rt.active.value, faults);
    }
    SilencedOnEveryRun(Apply(w, if logged then Stop(faults) else Drop(faults)), run);
  }

  // ---- Forwarding mode ----

  /** Number of steps of the run that install a new generation. */
  ghost function Promotions(w: World, run: seq<Step>): nat
    decreases |run|
  {
    if run == [] then 0
    else
      var next := Apply(w, run[0]);
      (if next.s.rt.generation != w.s.rt.generation then 1 else 0) + Promotions(next, run[1..])
  }

  /** The mode does not fall and the generation advances by at most one. */
  ghost predicate Climbs(x: Runtime, y: Runtime) {
    x.history.Mode().Rank() <= y.history.Mode().Rank() && x.generation <= y.generation <= x.generation + 1
  }

  lemma InstallClimbs(s: State, specs: seq<FlowSpec>, faults: Faults)
    requires HistoryMatches(s.rt)
    ensures Climbs(s.rt, s.Install(specs, faults).rt)
  {
  }

  lemma DemoteOneClimbs(s: State, direction: Direction, faults: Faults)
    requires HistoryMatches(s.rt) && s.rt.bridgeId.Some? && s.rt.active.Some?
    ensures var rt := s.DemoteOne(direction, faults).0.rt;
            && Climbs(s.rt, rt) && rt.generation == s.rt.generation
            && rt.history == s.rt.history.MarkDemoted(direction)
  {
  }

  /** Installing after an endpoint moved cannot undo that the direction was demoted. */
  lemma ReinstallClimbs(d: State, history: History, direction: Direction, faults: Faults)
    requires d.rt.history == history.MarkDemoted(direction)
    requires history.caller.promoted == history.callee.promoted
    requires (history.caller.demoted ==> history.caller.promoted)
             && (history.callee.demoted ==> history.callee.promoted)
    requires d.rt.generation <= U64_MAX
    ensures var rt := d.Reinstall(faults).rt;
            history.Mode().Rank() <= rt.history.Mode().Rank() && d.rt.generation <= rt.generation <= d.rt.generation + 1
  {
  }

  lemma RebindClimbs(s: State, slot: Slot, source: Remote, demotion: Faults, promotion: Faults)
    requires Good(s)
    ensures Climbs(s.rt, s.Rebind(slot, source, demotion, promotion).rt)
  {
    var m := s.Moved(slot, source);
    if s.rt.endpoints.At(slot) != Some(source) && !s.rt.stopped && s.rt.bridgeId.Some? {
      if s.rt.active.Some? {
        DemoteOneClimbs(m, slot.Direction(), demotion);
        ReinstallClimbs(m.DemoteOne(slot.Direction(), demotion).0, m.rt.history, slot.Direction(), promotion);
      } else if m.rt.endpoints.Flows().Some? {
        InstallClimbs(m, m.rt.endpoints.Flows().value, promotion);
      }
    }
  }

  lemma ModeStep(w: World, step: Step)
    requires Good(w.s)
    ensures Climbs(w.s.rt, Apply(w, step).s.rt)
  {
    match step
    case Rebind(slot, source, d, p) => RebindClimbs(w.s, slot, source, d, p);
    case Promote(id, _, f) =>
      if w.s.rt.endpoints.Flows().Some? {
        InstallClimbs(w.s.(rt := w.s.rt.(bridgeId := Some(id))), w.s.rt.endpoints.Flows().value, f);
      }
    case _ =>
  }

  /** The mode only climbs from userspace over fast path to mixed; two promotions already make it mixed. */
  lemma {:induction false} ModeClimbs(w: World, run: seq<Step>)
    requires Good(w.s) && Valid(w, run)
    ensures var end := Execute(w, run).s.rt;
            && w.s.rt.history.Mode().Rank() <= end.history.Mode().Rank()
            && end.generation == w.s.rt.generation + Promotions(w, run)
            && (Promotions(w, run) >= 2 ==> end.history.Mode() == Mixed)
            && (end.history.Mode() == FastPath && !end.stopped ==> end.active.Some?)
    decreases |run|
  {
    LinkedOnEveryRun(w, run);
    if run != [] {
      ApplyGood(w, run[0]);
      ModeStep(w, run[0]);
      ModeClimbs(Apply(w, run[0]), run[1..]);
    }
  }

  // ---- Conservation of the statistics ----

  /**
   * Collected statistics plus current kernel counters never exceed the sum of all counters; in an exact run the
   * collected ones are that sum without the current counters, saturated.
   */
  ghost predicate Tally(collected: Counts, current: Counts, seen: Counts, exact: bool) {
    && collected == collected.Saturated()
    && collected.Plus(current).AtMost(seen)
    && (exact ==> collected == Recount(seen, current, NO_COUNTS).Saturated())
  }

  ghost predicate Balanced(w: World, kind: MediaKind, direction: Direction, exact: bool) {
    Tally(w.s.rt.stats.At(kind, direction), w.Current(kind, direction), w.seen.At(kind, direction), exact)
  }

  lemma TallyEvent(collected: Counts, current: Counts, seen: Counts, after: Counts, exact: bool)
    requires Tally(collected, current, seen, exact)
    ensures Tally(collected, after, Recount(seen, current, after), exact)
  {
  }

  /** No fault, and the runtime is not dropped while a generation is active. */
  ghost predicate ExactStep(w: World, step: Step) {
    step.Faultless() || (step.Drop? && (w.s.rt.stopped || w.s.rt.active.None?))
  }

  ghost predicate ExactRun(w: World, run: seq<Step>)
    decreases |run|
  {
    run != [] ==> ExactStep(w, run[0]) && ExactRun(Apply(w, run[0]), run[1..])
  }

  lemma CountsOfFlow(flows: FlowMap, installed: seq<InstalledFlow>, i: nat)
    requires Distinct(installed) && i < |installed| && installed[i].key in flows
    ensures CountsOf(flows, installed, installed[i].kind, installed[i].direction) == flows[installed[i].key].counts
  {
    assert IsFlow(flows, installed, i, installed[i].kind, installed[i].direction);
  }

  /** What removing the installed flows collects for a pair. */
  lemma RemoveBalanced(flows: FlowMap, installed: seq<InstalledFlow>, faults: Faults, kind: MediaKind,
                       direction: Direction)
    requires Distinct(installed) && forall i :: 0 <= i < |installed| ==> installed[i].key in flows
    ensures var end := RemoveFlows(Removal(flows, NO_STATS, true), installed, 0, faults);
            var current := CountsOf(flows, installed, kind, direction);
            && end.stats.At(kind, direction) in {NO_COUNTS, current.Saturated()}
            && (faults == NO_FAULTS ==> end.clean && end.stats.At(kind, direction) == current.Saturated())
  {
    var so := Removal(flows, NO_STATS, true);
    if i :| 0 <= i < |installed| && installed[i].kind == kind && installed[i].direction == direction {
      CountsOfFlow(flows, installed, i);
      RemoveCollects(so, installed, 0, faults, i);
    } else {
      RemoveLeavesPair(so, installed, 0, faults, kind, direction);
    }
    if faults == NO_FAULTS {
      RemoveClean(so, installed, 0, faults);
    }
  }

  lemma MergeAt(x: Stats, y: Stats, kind: MediaKind, direction: Direction)
    ensures x.Merge(y).At(kind, direction) == x.At(kind, direction).SatPlus(y.At(kind, direction))
  {
  }

  lemma CountRetire(collected: nat, current: nat, seen: nat, got: nat)
    requires collected <= U64_MAX && collected + current <= seen && (got == 0 || got == Min(current, U64_MAX))
    ensures SatAdd(collected, got) <= Min(seen, U64_MAX) && collected <= seen
    ensures collected == Min(seen - current, U64_MAX) && got == Min(current, U64_MAX) ==>
              SatAdd(collected, got) == Min(seen, U64_MAX)
  {
  }

  /** Moving the current counters, or nothing, into the collected statistics. */
  lemma TallyRetire(collected: Counts, current: Counts, seen: Counts, got: Counts, exact: bool)
    requires Tally(collected, current, seen, exact)
    requires got in {NO_COUNTS, current.Saturated()} && (exact ==> got == current.Saturated())
    ensures Tally(collected.SatPlus(got), NO_COUNTS, seen, exact) && Tally(collected, NO_COUNTS, seen, false)
  {
    assert collected.packets <= U64_MAX && collected.bytes <= U64_MAX && collected.redirectErrors <= U64_MAX;
    CountRetire(collected.packets, current.packets, seen.packets, got.packets);
    CountRetire(collected.bytes, current.bytes, seen.bytes, got.bytes);
    CountRetire(collected.redirectErrors, current.redirectErrors, seen.redirectErrors, got.redirectErrors);
  }

  lemma DemoteBalanced(s: State, seen: Stats, generation: nat, faults: Faults, kind: MediaKind, direction: Direction,
                       exact: bool)
    requires s.rt.bridgeId.Some? && WellInstalled(s) && Balanced(World(s, seen), kind, direction, exact)
    requires s.rt.bridgeId.value in s.tables.bridges ==> s.tables.bridges[s.rt.bridgeId.value].generation == generation
    requires exact ==> faults == NO_FAULTS
    ensures var (d, answer) := s.Demote(s.rt.bridgeId.value, generation, faults);
            && (exact ==> answer.Ok?)
            && Balanced(World(d, seen), kind, direction, false)
            && (answer.Ok? ==> Balanced(World(d.Retire(answer.value), seen), kind, direction, exact))
  {
    var id := s.rt.bridgeId.value;
    if id in s.tables.bridges {
      var installed := s.tables.bridges[id].installed;
      RemoveBalanced(s.tables.flows, installed, faults, kind, direction);
      var got := RemoveFlows(Removal(s.tables.flows, NO_STATS, true), installed, 0, faults).stats;
      MergeAt(s.rt.stats, got, kind, direction);
      TallyRetire(s.rt.stats.At(kind, direction), CountsOf(s.tables.flows, installed, kind, direction),
                  seen.At(kind, direction), got.At(kind, direction), exact);
    } else {
      MergeAt(s.rt.stats, NO_STATS, kind, direction);
    }
    DemoteOwn(s, generation, faults);
  }

  /** The balance rests on tables, bridge id and statistics alone. */
  lemma BalancedFrame(s: State, s': State, seen: Stats, kind: MediaKind, direction: Direction, exact: bool)
    requires Balanced(World(s, seen), kind, direction, exact)
    requires s'.tables == s.tables && s'.rt.bridgeId == s.rt.bridgeId && s'.rt.stats == s.rt.stats
    ensures Balanced(World(s', seen), kind, direction, exact)
  {
    assert World(s', seen).Current(kind, direction) == World(s, seen).Current(kind, direction);
  }

  /** An inexact balance is part of an exact one. */
  lemma BalancedWeakly(w: World, kind: MediaKind, direction: Direction, exact: bool)
    requires Balanced(w, kind, direction, exact)
    ensures Balanced(w, kind, direction, false)
  {
  }

  lemma InstallBalanced(s: State, seen: Stats, faults: Faults, kind: MediaKind, direction: Direction, exact: bool)
    requires Good(s) && s.rt.active.None? && s.rt.endpoints.Flows().Some?
    requires Balanced(World(s, seen), kind, direction, exact)
    ensures Balanced(World(s.Install(s.rt.endpoints.Flows().value, faults), seen), kind, direction, exact)
  {
    if !s.rt.blocked && s.rt.bridgeId.Some? {
      var specs := s.rt.endpoints.Flows().value;
      OwnFlowsDistinct(s.rt.endpoints);
      PromoteEffect(s.tables, s.rt.bridgeId.value, SatAdd(s.rt.generation, 1), specs, faults);
      var s' := s.Install(specs, faults);
      var installed := InstalledFlows(specs);
      forall i | 0 <= i < |specs| && specs[i].Key() in s'.tables.flows
                 && s'.tables.flows[specs[i].Key()] == specs[i].Action(SatAdd(s.rt.generation, 1))
        ensures CountsOf(s'.tables.flows, installed, installed[i].kind, installed[i].direction) == NO_COUNTS
      {
        CountsOfFlow(s'.tables.flows, installed, i);
      }
    }
  }

  lemma ReinstallBalanced(s: State, seen: Stats, faults: Faults, kind: MediaKind, direction: Direction, exact: bool)
    requires Good(s) && s.rt.active.None? && Balanced(World(s, seen), kind, direction, exact)
    ensures Balanced(World(s.Reinstall(faults), seen), kind, direction, exact)
  {
    if s.rt.endpoints.Flows().Some? {
      InstallBalanced(s, seen, faults, kind, direction, exact);
    }
  }

  /** After a demotion, and its bookkeeping if it succeeded, nothing but flags and history may change. */
  lemma DemotedBalanced(s: State, seen: Stats, generation: nat, faults: Faults, kind: MediaKind, direction: Direction,
                        exact: bool, end: State)
    requires s.rt.bridgeId.Some? && WellInstalled(s) && Balanced(World(s, seen), kind, direction, exact)
    requires s.rt.bridgeId.value in s.tables.bridges ==> s.tables.bridges[s.rt.bridgeId.value].generation == generation
    requires exact ==> faults == NO_FAULTS
    requires var (d, answer) := s.Demote(s.rt.bridgeId.value, generation, faults);
             var r := if answer.Ok? then d.Retire(answer.value) else d;
             end.tables == r.tables && end.rt.bridgeId == r.rt.bridgeId && end.rt.stats == r.rt.stats
    ensures Balanced(World(end, seen), kind, direction, exact)
  {
    DemoteBalanced(s, seen, generation, faults, kind, direction, exact);
    var (d, answer) := s.Demote(s.rt.bridgeId.value, generation, faults);
    BalancedFrame(if answer.Ok? then d.Retire(answer.value) else d, end, seen, kind, direction, exact);
  }

  lemma DemoteOneBalanced(s: State, seen: Stats, side: Direction, faults: Faults, kind: MediaKind, direction: Direction,
                          exact: bool)
    requires Linked(s) && WellInstalled(s) && s.rt.active.Some? && Balanced(World(s, seen), kind, direction, exact)
    requires exact ==> faults == NO_FAULTS
    ensures Balanced(World(s.DemoteOne(side, faults).0, seen), kind, direction, exact)
  {
    DemotedBalanced(s, seen, s.rt.active.value, faults, kind, direction, exact, s.DemoteOne(side, faults).0);
  }

  /** A rebind of a promoted call, after its endpoint moved. */
  lemma ReboundBalanced(m: State, seen: Stats, side: Direction, demotion: Faults, promotion: Faults,
                        kind: MediaKind, direction: Direction, exact: bool)
    requires Good(m) && m.rt.active.Some? && Balanced(World(m, seen), kind, direction, exact)
    requires exact ==> demotion == NO_FAULTS
    ensures var (d, answer) := m.DemoteOne(side, demotion);
            Balanced(World(if answer.Err? then d else d.Reinstall(promotion), seen), kind, direction, exact)
  {
    DemoteOneBalanced(m, seen, side, demotion, kind, direction, exact);
    DemoteOneGood(m, side, demotion);
    var (d, answer) := m.DemoteOne(side, demotion);
    if answer.Ok? {
      ReinstallBalanced(d, seen, promotion, kind, direction, exact);
    }
  }

  lemma MovedBalanced(s: State, seen: Stats, slot: Slot, source: Remote, kind: MediaKind, direction: Direction,
                      exact: bool)
    requires Good(s) && Balanced(World(s, seen), kind, direction, exact)
    ensures Good(s.Moved(slot, source)) && Balanced(World(s.Moved(slot, source), seen), kind, direction, exact)
  {
    MovedGood(s, slot, source);
    BalancedFrame(s, s.Moved(slot, source), seen, kind, direction, exact);
  }

  /** The four outcomes of a rebind. */
  lemma RebindOutcome(s: State, slot: Slot, source: Remote, demotion: Faults, promotion: Faults)
    requires Good(s)
    ensures var m, r := s.Moved(slot, source), s.Rebind(slot, source, demotion, promotion);
            || r == s
            || r == m
            || (m.rt.active.None? && r == m.Reinstall(promotion))
            || (m.rt.active.Some? && m.rt.bridgeId.Some?
                && var (d, answer) := m.DemoteOne(slot.Direction(), demotion);
                   r == if answer.Err? then d else d.Reinstall(promotion))
  {
  }

  lemma RebindBalanced(w: World, slot: Slot, source: Remote, demotion: Faults, promotion: Faults,
                       kind: MediaKind, direction: Direction, exact: bool)
    requires Good(w.s) && Balanced(w, kind, direction, exact) && (exact ==> demotion == NO_FAULTS)
    ensures Balanced(World(w.s.Rebind(slot, source, demotion, promotion), w.seen), kind, direction, exact)
  {
    var m := w.s.Moved(slot, source);
    MovedBalanced(w.s, w.seen, slot, source, kind, direction, exact);
    if m.rt.active.None? {
      ReinstallBalanced(m, w.seen, promotion, kind, direction, exact);
    } else {
      ReboundBalanced(m, w.seen, slot.Direction(), demotion, promotion, kind, direction, exact);
    }
    RebindOutcome(w.s, slot, source, demotion, promotion);
  }

  /** Events are credited to the pair whose installed flow they hit, and to no other. */
  lemma CreditedAt(w: World, key: FlowKey, event: Counts, i: nat)
    requires w.HasEntry() && Distinct(w.Entry().installed) && i < |w.Entry().installed|
    requires w.Entry().installed[i].key in w.s.tables.flows
    ensures var flow := w.Entry().installed[i];
            var seen, counts := w.seen.At(flow.kind, flow.direction), w.s.tables.flows[flow.key].counts;
            Credited(w, key, event).At(flow.kind, flow.direction)
            == if flow.key == key then Recount(seen, counts, counts.Plus(event).Wrapped()) else seen
  {
    assert w.Entry().installed[i].key == key ==> Mentions(w.Entry().installed, key);
  }

  lemma CreditedElsewhere(w: World, key: FlowKey, event: Counts, kind: MediaKind, direction: Direction)
    requires w.HasEntry() ==> forall i :: 0 <= i < |w.Entry().installed| ==>
               !(w.Entry().installed[i].kind == kind && w.Entry().installed[i].direction == direction)
    ensures Credited(w, key, event).At(kind, direction) == w.seen.At(kind, direction)
  {
  }

  lemma PacketBalanced(w: World, key: FlowKey, event: Counts, kind: MediaKind, direction: Direction, exact: bool)
    requires WellInstalled(w.s) && Balanced(w, kind, direction, exact)
    ensures Balanced(Apply(w, Packet(key, event)), kind, direction, exact)
  {
    var flows, flows' := w.s.tables.flows, Counted(w.s.tables.flows, key, event);
    if i :| w.HasEntry() && 0 <= i < |w.Entry().installed|
            && w.Entry().installed[i].kind == kind && w.Entry().installed[i].direction == direction {
      var installed := w.Entry().installed;
      CreditedAt(w, key, event, i);
      CountsOfFlow(flows, installed, i);
      CountsOfFlow(flows', installed, i);
      if installed[i].key == key {
        TallyEvent(w.s.rt.stats.At(kind, direction), flows[key].counts, w.seen.At(kind, direction),
                   flows[key].counts.Plus(event).Wrapped(), exact);
      }
    } else {
      CreditedElsewhere(w, key, event, kind, direction);
    }
  }

  /** Other calls' work leaves the counters of this call's installed flows. */
  lemma OthersKeepFlow(w: World, t: Tables, i: nat)
    requires WellInstalled(w.s) && Enabled(w, Others(t)) && w.HasEntry() && i < |w.Entry().installed|
    ensures var key := w.Entry().installed[i].key; key in t.flows && t.flows[key] == w.s.tables.flows[key]
    ensures Apply(w, Others(t)).HasEntry() && Apply(w, Others(t)).Entry() == w.Entry()
  {
    assert SameAt(w.s.tables.flows, t.flows, w.Entry().installed[i].key);
  }

  lemma OthersKeepCurrent(w: World, t: Tables, kind: MediaKind, direction: Direction)
    requires WellInstalled(w.s) && Enabled(w, Others(t))
    ensures Apply(w, Others(t)).Current(kind, direction) == w.Current(kind, direction)
  {
    if i :| w.HasEntry() && 0 <= i < |w.Entry().installed|
            && w.Entry().installed[i].kind == kind && w.Entry().installed[i].direction == direction {
      OthersKeepFlow(w, t, i);
      CountsOfFlow(w.s.tables.flows, w.Entry().installed, i);
      CountsOfFlow(t.flows, w.Entry().installed, i);
    }
  }

  lemma OthersBalanced(w: World, t: Tables, kind: MediaKind, direction: Direction, exact: bool)
    requires WellInstalled(w.s) && Enabled(w, Others(t)) && Balanced(w, kind, direction, exact)
    ensures Balanced(Apply(w, Others(t)), kind, direction, exact)
  {
    OthersKeepCurrent(w, t, kind, direction);
  }

  lemma DemoteAndBlockBalanced(s: State, seen: Stats, faults: Faults, kind: MediaKind, direction: Direction,
                               exact: bool)
    requires Linked(s) && WellInstalled(s) && s.rt.active.Some? && Balanced(World(s, seen), kind, direction, exact)
    requires exact ==> faults == NO_FAULTS
    ensures Balanced(World(s.DemoteAndBlock(s.rt.bridgeId.value, s.rt.active.value, faults), seen),
                     kind, direction, exact)
  {
    DemotedBalanced(s, seen, s.rt.active.value, faults, kind, direction, exact,
                    s.DemoteAndBlock(s.rt.bridgeId.value, s.rt.active.value, faults));
  }

  lemma HealthBalanced(w: World, snapshot: Faults, demotion: Faults, kind: MediaKind, direction: Direction, exact: bool)
    requires Good(w.s) && Balanced(w, kind, direction, exact) && (exact ==> demotion == NO_FAULTS)
    ensures Balanced(w.(s := w.s.Health(snapshot, demotion)), kind, direction, exact)
  {
    var s := w.s;
    if !s.rt.stopped && s.rt.bridgeId.Some? && s.rt.active.Some? {
      var answer := SnapshotTables(s.tables, s.rt.bridgeId.value, s.rt.active.value, snapshot);
      if answer.Err? {
        var told := s.(answers := s.answers + {answer.error});
        BalancedFrame(s, told, w.seen, kind, direction, exact);
        DemoteAndBlockBalanced(told, w.seen, demotion, kind, direction, exact);
      } else {
        DemoteAndBlockBalanced(s, w.seen, demotion, kind, direction, exact);
      }
    }
  }

  lemma StopBalanced(w: World, faults: Faults, kind: MediaKind, direction: Direction, exact: bool)
    requires Good(w.s) && Balanced(w, kind, direction, exact) && (exact ==> faults == NO_FAULTS)
    ensures Balanced(w.(s := w.s.Stop(faults)), kind, direction, exact)
  {
    var s := w.s.(rt := w.s.rt.(stopped := true, active := None));
    BalancedFrame(w.s, s, w.seen, kind, direction, exact);
    if w.s.rt.bridgeId.Some? && w.s.rt.active.Some? {
      DemotedBalanced(s, w.seen, w.s.rt.active.value, faults, kind, direction, exact, w.s.Stop(faults));
    }
  }

  lemma DropBalanced(w: World, faults: Faults, kind: MediaKind, direction: Direction)
    requires Good(w.s) && Balanced(w, kind, direction, false)
    ensures Balanced(w.(s := w.s.Drop(faults)), kind, direction, false)
  {
    var s := w.s.(rt := w.s.rt.(stopped := true, active := None));
    BalancedFrame(w.s, s, w.seen, kind, direction, false);
    if !w.s.rt.stopped && w.s.rt.bridgeId.Some? && w.s.rt.active.Some? {
      DemoteBalanced(s, w.seen, w.s.rt.active.value, faults, kind, direction, false);
    }
  }

  lemma IdleDropBalanced(w: World, faults: Faults, kind: MediaKind, direction: Direction, exact: bool)
    requires Balanced(w, kind, direction, exact) && (w.s.rt.stopped || w.s.rt.active.None?)
    ensures Balanced(w.(s := w.s.Drop(faults)), kind, direction, exact)
  {
    BalancedFrame(w.s, w.s.Drop(faults), w.seen, kind, direction, exact);
  }

  lemma BlockBalanced(w: World, faults: Faults, kind: MediaKind, direction: Direction, exact: bool)
    requires Linked(w.s) && WellInstalled(w.s) && Balanced(w, kind, direction, exact) && (exact ==> faults == NO_FAULTS)
    ensures Balanced(w.(s := w.s.Block(faults).0), kind, direction, exact)
  {
    var s := w.s.(rt := w.s.rt.(blocked := true));
    BalancedFrame(w.s, s, w.seen, kind, direction, exact);
    if !s.rt.stopped && s.rt.bridgeId.Some? && s.rt.active.Some? {
      DemotedBalanced(s, w.seen, s.rt.active.value, faults, kind, direction, exact, w.s.Block(faults).0);
    }
  }

  lemma PromoteBalanced(w: World, id: string, available: bool, faults: Faults,
                        kind: MediaKind, direction: Direction, exact: bool)
    requires Good(w.s) && Enabled(w, Promote(id, available, faults)) && Balanced(w, kind, direction, exact)
    ensures Balanced(w.(s := w.s.Promote(id, available, faults)), kind, direction, exact)
  {
    var s := w.s;
    if available && s.rt.endpoints.Flows().Some? && !s.rt.stopped && !s.rt.blocked && s.rt.active.None?
       && (s.rt.bridgeId.Some? ==> s.rt.bridgeId.value == id) {
      InstallBalanced(s.(rt := s.rt.(bridgeId := Some(id))), w.seen, faults, kind, direction, exact);
    }
  }

  lemma ApplyBalanced(w: World, step: Step, kind: MediaKind, direction: Direction, exact: bool)
    requires Good(w.s) && Enabled(w, step) && Balanced(w, kind, direction, exact) && (exact ==> ExactStep(w, step))
    ensures Balanced(Apply(w, step), kind, direction, exact)
  {
    match step
    case Promote(id, available, f) => PromoteBalanced(w, id, available, f, kind, direction, exact);
    case Rebind(slot, source, d, p) => RebindBalanced(w, slot, source, d, p, kind, direction, exact);
    case Block(f) => BlockBalanced(w, f, kind, direction, exact);
    case Health(f, d) => HealthBalanced(w, f, d, kind, direction, exact);
    case Stop(f) => StopBalanced(w, f, kind, direction, exact);
    case Drop(f) =>
      if w.s.rt.stopped || w.s.rt.active.None? {
        IdleDropBalanced(w, f, kind, direction, exact);
      } else {
        BalancedWeakly(w, kind, direction, exact);
        DropBalanced(w, f, kind, direction);
      }
    case Packet(key, event) => PacketBalanced(w, key, event, kind, direction, exact);
    case Others(t) => OthersBalanced(w, t, kind, direction, exact);
    case Prepare(_, _, _) =>
  }

  lemma {:induction false} BalancedOnEveryRun(w: World, run: seq<Step>, kind: MediaKind, direction: Direction,
                                              exact: bool)
    requires Good(w.s) && Valid(w, run) && Balanced(w, kind, direction, exact) && (exact ==> ExactRun(w, run))
    ensures Balanced(Execute(w, run), kind, direction, exact)
    decreases |run|
  {
    if run != [] {
      ApplyGood(w, run[0]);
      ApplyBalanced(w, run[0], kind, direction, exact);
      BalancedOnEveryRun(Apply(w, run[0]), run[1..], kind, direction, exact);
    }
  }

  lemma StoppedBalance(s: State, seen: Stats, kind: MediaKind, direction: Direction, exact: bool)
    requires Silenced(s) && Balanced(World(s, seen), kind, direction, exact)
    ensures s.rt.stats.At(kind, direction).AtMost(seen.At(kind, direction))
    ensures exact ==> s.rt.stats.At(kind, direction) == seen.At(kind, direction).Saturated()
  {
  }

  /**
   * The statistics stop returns: never more than the sum of the kernel's counters over all generations, whatever
   * fails; and exactly that sum, saturated, when no map operation fails. The sum is at most the number of kernel
   * events, and equal to it while no counter wraps.
   */
  lemma StatisticsConserved(w: World, run: seq<Step>, faults: Faults, kind: MediaKind, direction: Direction)
    requires Initial(w) && Valid(w, run)
    ensures Returned(Execute(w, run), faults, kind, direction, ExactRun(w, run) && faults == NO_FAULTS)
    ensures Sums(NO_COUNTS, Execute(w, run).seen.At(kind, direction), Events(w, run, kind, direction),
                 NoWrapRun(w, run))
  {
    CountersReturned(w, run, faults, kind, direction);
    EventsCounted(w, run, kind, direction);
  }

  lemma NothingYet(kind: MediaKind, direction: Direction, exact: bool)
    ensures NO_STATS.At(kind, direction) == NO_COUNTS && Tally(NO_COUNTS, NO_COUNTS, NO_COUNTS, exact)
  {
  }

  lemma InitialBalanced(w: World, kind: MediaKind, direction: Direction, exact: bool)
    requires Initial(w)
    ensures Balanced(w, kind, direction, exact) && w.seen.At(kind, direction) == NO_COUNTS
  {
    NothingYet(kind, direction, exact);
    assert w.Current(kind, direction) == NO_COUNTS && w.s.rt.stats == NO_STATS;
  }

  lemma CountersReturned(w: World, run: seq<Step>, faults: Faults, kind: MediaKind, direction: Direction)
    requires Initial(w) && Valid(w, run)
    ensures Returned(Execute(w, run), faults, kind, direction, ExactRun(w, run) && faults == NO_FAULTS)
  {
    var exact := ExactRun(w, run) && faults == NO_FAULTS;
    InitialGood(w);
    InitialBalanced(w, kind, direction, exact);
    TotalsFrom(w, run, faults, kind, direction, exact);
  }

  lemma EventsCounted(w: World, run: seq<Step>, kind: MediaKind, direction: Direction)
    requires Initial(w) && Valid(w, run)
    ensures Sums(NO_COUNTS, Execute(w, run).seen.At(kind, direction), Events(w, run, kind, direction),
                 NoWrapRun(w, run))
  {
    InitialGood(w);
    InitialBalanced(w, kind, direction, false);
    SumGrows(w, run, kind, direction);
  }

  /** What stop returns for a pair is at most the sum of its counters, and that sum saturated if nothing failed. */
  ghost predicate Returned(w: World, faults: Faults, kind: MediaKind, direction: Direction, exact: bool) {
    var total, sum := w.s.Stop(faults).rt.stats.At(kind, direction), w.seen.At(kind, direction);
    total.AtMost(sum) && (exact ==> total == sum.Saturated())
  }

  /** A sum grew by at most so many events, and by exactly so many if no counter wrapped. */
  ghost predicate Sums(before: Counts, sum: Counts, events: Counts, exact: bool) {
    sum.AtMost(before.Plus(events)) && (exact ==> sum == before.Plus(events))
  }

  lemma SumsTwice(a: Counts, b: Counts, c: Counts, first: Counts, second: Counts, exact: bool)
    requires Sums(a, b, first, exact) && Sums(b, c, second, exact)
    ensures Sums(a, c, first.Plus(second), exact)
  {
  }

  // ---- Counters and events ----

  /** Kernel events of a run on the installed flows of a pair. */
  ghost function Events(w: World, run: seq<Step>, kind: MediaKind, direction: Direction): Counts
    decreases |run|
  {
    if run == [] then NO_COUNTS
    else StepEvents(w, run[0], kind, direction).Plus(Events(Apply(w, run[0]), run[1..], kind, direction))
  }

  ghost function StepEvents(w: World, step: Step, kind: MediaKind, direction: Direction): Counts {
    if step.Packet? && Hits(w, step.key, kind, direction) then step.event else NO_COUNTS
  }

  /** No kernel counter of this call wraps at 64 bits. */
  ghost predicate NoWrap(w: World, step: Step) {
    step.Packet? && step.key in w.s.tables.flows ==>
      var counts := w.s.tables.flows[step.key].counts.Plus(step.event);
      counts.Wrapped() == counts
  }

  ghost predicate NoWrapRun(w: World, run: seq<Step>)
    decreases |run|
  {
    run != [] ==> NoWrap(w, run[0]) && NoWrapRun(Apply(w, run[0]), run[1..])
  }

  lemma RecountEvent(seen: Counts, current: Counts, event: Counts)
    requires current.AtMost(seen)
    ensures Recount(seen, current, current.Plus(event).Wrapped()).AtMost(seen.Plus(event))
    ensures Recount(seen, current, current.Plus(event)) == seen.Plus(event)
  {
  }

  lemma PacketEvents(w: World, key: FlowKey, event: Counts, kind: MediaKind, direction: Direction)
    requires WellInstalled(w.s) && Balanced(w, kind, direction, false)
    ensures Sums(w.seen.At(kind, direction), Credited(w, key, event).At(kind, direction),
                 StepEvents(w, Packet(key, event), kind, direction), NoWrap(w, Packet(key, event)))
  {
    if i :| w.HasEntry() && 0 <= i < |w.Entry().installed|
            && w.Entry().installed[i].kind == kind && w.Entry().installed[i].direction == direction {
      var flow := w.Entry().installed[i];
      CreditedAt(w, key, event, i);
      CountsOfFlow(w.s.tables.flows, w.Entry().installed, i);
      assert HitAt(w.Entry().installed, key, kind, direction) <==> flow.key == key;
      RecountEvent(w.seen.At(kind, direction), w.s.tables.flows[flow.key].counts, event);
    } else {
      CreditedElsewhere(w, key, event, kind, direction);
    }
  }

  lemma StepSum(w: World, step: Step, kind: MediaKind, direction: Direction)
    requires WellInstalled(w.s) && Balanced(w, kind, direction, false)
    ensures Sums(w.seen.At(kind, direction), Apply(w, step).seen.At(kind, direction),
                 StepEvents(w, step, kind, direction), NoWrap(w, step))
  {
    match step
    case Packet(key, event) => PacketEvents(w, key, event, kind, direction);
    case _ =>
  }

  lemma SumNext(w: World, run: seq<Step>, kind: MediaKind, direction: Direction)
    requires run != []
    requires Sums(w.seen.At(kind, direction), Apply(w, run[0]).seen.At(kind, direction),
                  StepEvents(w, run[0], kind, direction), NoWrap(w, run[0]))
    requires Sums(Apply(w, run[0]).seen.At(kind, direction), Execute(w, run).seen.At(kind, direction),
                  Events(Apply(w, run[0]), run[1..], kind, direction), NoWrapRun(Apply(w, run[0]), run[1..]))
    ensures Sums(w.seen.At(kind, direction), Execute(w, run).seen.At(kind, direction),
                 Events(w, run, kind, direction), NoWrapRun(w, run))
  {
    SumsTwice(w.seen.At(kind, direction), Apply(w, run[0]).seen.At(kind, direction),
              Execute(w, run).seen.At(kind, direction), StepEvents(w, run[0], kind, direction),
              Events(Apply(w, run[0]), run[1..], kind, direction), NoWrapRun(w, run));
  }

  /** The sum of the counters grows by at most the number of events. */
  lemma {:induction false} SumGrows(w: World, run: seq<Step>, kind: MediaKind, direction: Direction)
    requires Good(w.s) && Valid(w, run) && Balanced(w, kind, direction, false)
    ensures Sums(w.seen.At(kind, direction), Execute(w, run).seen.At(kind, direction), Events(w, run, kind, direction),
                 NoWrapRun(w, run))
    decreases |run|
  {
    if run != [] {
      StepSum(w, run[0], kind, direction);
      ApplyGood(w, run[0]);
      ApplyBalanced(w, run[0], kind, direction, false);
      SumGrows(Apply(w, run[0]), run[1..], kind, direction);
      SumNext(w, run, kind, direction);
    }
  }

  lemma TotalsFrom(w: World, run: seq<Step>, faults: Faults, kind: MediaKind, direction: Direction, exact: bool)
    requires Good(w.s) && Valid(w, run) && Balanced(w, kind, direction, exact)
    requires exact ==> ExactRun(w, run) && faults == NO_FAULTS
    ensures Returned(Execute(w, run), faults, kind, direction, exact)
  {
    BalancedOnEveryRun(w, run, kind, direction, exact);
    LinkedOnEveryRun(w, run);
    StopTotals(Execute(w, run), faults, kind, direction, exact);
  }

  lemma StopTotals(w: World, faults: Faults, kind: MediaKind, direction: Direction, exact: bool)
    requires Good(w.s) && Balanced(w, kind, direction, exact) && (exact ==> faults == NO_FAULTS)
    ensures Returned(w, faults, kind, direction, exact)
  {
    StopBalanced(w, faults, kind, direction, exact);
    StoppedForEver(w, faults, true, []);
    StoppedBalance(w.s.Stop(faults), w.seen, kind, direction, exact);
  }
}
