/** Which kernel flows a call has left behind: exactly those whose removal failed. */
module FastPathFlows {
  import opened Prelude
  import opened FastPathTypes
  import opened FastPathController
  import opened FastPathRuntime
  import opened FastPathRuns

  // ---- What one controller operation leaves in the flow map ----

  /** A removal pass from `position` on that succeeds for the key. */
  ghost predicate Removed(installed: seq<InstalledFlow>, position: nat, faults: Faults, key: FlowKey) {
    exists i :: position <= i < |installed| && installed[i].key == key && i !in faults.remove
  }

  lemma RemovedNext(installed: seq<InstalledFlow>, position: nat, faults: Faults, key: FlowKey)
    requires position < |installed|
    ensures Removed(installed, position, faults, key) <==>
            || (installed[position].key == key && position !in faults.remove)
            || Removed(installed, position + 1, faults, key)
  {
  }

  lemma {:induction false} RemoveLeaves(so: Removal, installed: seq<InstalledFlow>, position: nat, faults: Faults,
                                        key: FlowKey)
    requires position <= |installed|
    ensures key in RemoveFlows(so, installed, position, faults).flows <==>
            key in so.flows && !Removed(installed, position, faults, key)
    decreases |installed| - position
  {
    if position < |installed| {
      RemovedNext(installed, position, faults, key);
      RemoveLeaves(so.Next(installed[position], position, faults), installed, position + 1, faults, key);
    }
  }

  lemma {:induction false} RollbackLeaves(flows: FlowMap, installed: seq<InstalledFlow>, position: nat, faults: Faults,
                                          key: FlowKey)
    requires position <= |installed|
    ensures key in Rollback(flows, installed, position, faults) <==>
            key in flows && !Removed(installed, position, faults, key)
    decreases |installed| - position
  {
    if position < |installed| {
      RemovedNext(installed, position, faults, key);
      var rest := if Removable(flows, installed[position], position, faults)
                  then flows - {installed[position].key} else flows;
      RollbackLeaves(rest, installed, position + 1, faults, key);
    }
  }

  /** The first insertion, from `position` on, that fails. */
  function FirstFailure(n: nat, position: nat, faults: Faults): (p: nat)
    requires position <= n
    ensures position <= p <= n && (p < n ==> p in faults.insert)
    decreases n - position
  {
    if position == n || position in faults.insert then position else FirstFailure(n, position + 1, faults)
  }

  /** One of the specifications between two positions is for the key. */
  ghost predicate Specified(specs: seq<FlowSpec>, low: nat, high: nat, key: FlowKey)
    requires high <= |specs|
  {
    exists i :: low <= i < high && specs[i].Key() == key
  }

  lemma {:induction false} InsertLeaves(flows: FlowMap, generation: nat, specs: seq<FlowSpec>, position: nat,
                                        faults: Faults, key: FlowKey)
    requires position <= |specs|
    ensures var p := FirstFailure(|specs|, position, faults);
            key in InsertFlows(flows, generation, specs, position, faults).0 <==>
              (key in flows || Specified(specs, position, p, key))
              && (p < |specs| ==> !Removed(InstalledFlows(specs[..p]), 0, faults, key))
    decreases |specs| - position
  {
    if position < |specs| {
      if position in faults.insert {
        RollbackLeaves(flows, InstalledFlows(specs[..position]), 0, faults, key);
      } else {
        var p := FirstFailure(|specs|, position + 1, faults);
        assert Specified(specs, position, p, key) <==>
               specs[position].Key() == key || Specified(specs, position + 1, p, key);
        InsertLeaves(flows[specs[position].Key() := specs[position].Action(generation)], generation, specs,
                     position + 1, faults, key);
      }
    }
  }

  // ---- The flows whose removal failed ----

  ghost function Keys(installed: seq<InstalledFlow>): set<FlowKey> {
    set i | 0 <= i < |installed| :: installed[i].key
  }

  /** Keys of the flows whose removal fails in a pass over all of them. */
  ghost function Failing(installed: seq<InstalledFlow>, faults: Faults): set<FlowKey> {
    set i | 0 <= i < |installed| && i in faults.remove :: installed[i].key
  }

  /** The keys left behind after a pass that tries to remove the given flows. */
  ghost function AfterPass(stuck: set<FlowKey>, installed: seq<InstalledFlow>, faults: Faults): set<FlowKey> {
    (stuck - Keys(installed)) + Failing(installed, faults)
  }

  lemma PassExact(stuck: set<FlowKey>, installed: seq<InstalledFlow>, faults: Faults, key: FlowKey)
    requires Distinct(installed)
    ensures key in AfterPass(stuck, installed, faults) <==>
            (key in stuck || Mentions(installed, key)) && !Removed(installed, 0, faults, key)
  {
    if i :| 0 <= i < |installed| && installed[i].key == key {
      assert Removed(installed, 0, faults, key) <==> i !in faults.remove;
      assert key in Failing(installed, faults) <==> i in faults.remove;
    }
  }

  /** Demoting the call's entry tries to remove its flows. */
  ghost function DemoteStuck(s: State, stuck: set<FlowKey>, faults: Faults): set<FlowKey> {
    if s.rt.bridgeId.Some? && s.rt.bridgeId.value in s.tables.bridges
    then AfterPass(stuck, s.tables.bridges[s.rt.bridgeId.value].installed, faults) else stuck
  }

  /** A failed promotion tries to remove what it had inserted; a full one leaves nothing behind. */
  ghost function InstallStuck(s: State, stuck: set<FlowKey>, specs: seq<FlowSpec>, faults: Faults): set<FlowKey> {
    var p := FirstFailure(|specs|, 0, faults);
    if s.rt.blocked || s.rt.bridgeId.None? then stuck
    else if p < |specs| then AfterPass(stuck, InstalledFlows(specs[..p]), faults)
    else stuck - Keys(InstalledFlows(specs))
  }

  ghost function ReinstallStuck(s: State, stuck: set<FlowKey>, faults: Faults): set<FlowKey> {
    if s.rt.endpoints.Flows().Some? then InstallStuck(s, stuck, s.rt.endpoints.Flows().value, faults) else stuck
  }

  ghost function RebindStuck(s: State, stuck: set<FlowKey>, slot: Slot, source: Remote, demotion: Faults,
                             promotion: Faults): set<FlowKey> {
    var m := s.Moved(slot, source);
    if s.rt.endpoints.At(slot) == Some(source) || s.rt.stopped || s.rt.bridgeId.None? then stuck
    else if s.rt.active.None? then ReinstallStuck(m, stuck, promotion)
    else
      var (d, answer) := m.DemoteOne(slot.Direction(), demotion);
      var left := DemoteStuck(m, stuck, demotion);
      if answer.Err? then left else ReinstallStuck(d, left, promotion)
  }

  /** The demotion that follows an unhealthy snapshot. */
  ghost predicate Unhealthy(s: State, snapshot: Faults) {
    && !s.rt.stopped && s.rt.bridgeId.Some? && s.rt.active.Some?
    && var answer := SnapshotTables(s.tables, s.rt.bridgeId.value, s.rt.active.value, snapshot);
       answer.Err? || answer.value.MaxRedirectErrors() >= REDIRECT_ERROR_THRESHOLD
  }

  /** The flows left behind after a step. */
  ghost function StepStuck(w: World, step: Step, stuck: set<FlowKey>): set<FlowKey> {
    var rt := w.s.rt;
    match step
    case Promote(id, available, f) =>
      if available && rt.endpoints.Flows().Some? && !rt.stopped && !rt.blocked && rt.active.None?
         && (rt.bridgeId.Some? ==> rt.bridgeId.value == id)
      then InstallStuck(w.s.(rt := rt.(bridgeId := Some(id))), stuck, rt.endpoints.Flows().value, f) else stuck
    case Rebind(slot, source, d, p) => RebindStuck(w.s, stuck, slot, source, d, p)
    case Block(f) => if !rt.stopped && rt.active.Some? then DemoteStuck(w.s, stuck, f) else stuck
    case Health(f, d) => if Unhealthy(w.s, f) then DemoteStuck(w.s, stuck, d) else stuck
    case Stop(f) => if rt.active.Some? then DemoteStuck(w.s, stuck, f) else stuck
    case Drop(f) => if !rt.stopped && rt.active.Some? then DemoteStuck(w.s, stuck, f) else stuck
    case _ => stuck
  }

  ghost function RunStuck(w: World, run: seq<Step>, stuck: set<FlowKey>): set<FlowKey>
    decreases |run|
  {
    if run == [] then stuck else RunStuck(Apply(w, run[0]), run[1..], StepStuck(w, run[0], stuck))
  }

  // ---- The invariant ----

  ghost predicate InEntry(s: State, key: FlowKey) {
    && s.rt.bridgeId.Some? && s.rt.bridgeId.value in s.tables.bridges
    && Mentions(s.tables.bridges[s.rt.bridgeId.value].installed, key)
  }

  ghost predicate OwnKey(s: State, key: FlowKey) { key.local.port in s.rt.endpoints.Ports() }

  /** On the call's ports the kernel has exactly the flows of the installed entry and those left behind. */
  ghost predicate Accounted(s: State, stuck: set<FlowKey>) {
    forall key: FlowKey :: OwnKey(s, key) ==> AccountedAt(s, stuck, key)
  }

  ghost predicate AccountedAt(s: State, stuck: set<FlowKey>, key: FlowKey) {
    key in s.tables.flows <==> InEntry(s, key) || key in stuck
  }

  lemma AccountedFrame(s: State, s': State, stuck: set<FlowKey>)
    requires Accounted(s, stuck) && s'.tables == s.tables && s'.rt.bridgeId == s.rt.bridgeId
    requires s'.rt.endpoints.Ports() == s.rt.endpoints.Ports()
    ensures Accounted(s', stuck)
  {
    forall key: FlowKey | OwnKey(s', key) ensures AccountedAt(s', stuck, key) {
      assert OwnKey(s, key) && AccountedAt(s, stuck, key);
    }
  }

  /** Demoting accounts for every flow, whatever fails. */
  lemma DemoteAccounted(s: State, stuck: set<FlowKey>, generation: nat, faults: Faults)
    requires s.rt.bridgeId.Some? && WellInstalled(s) && Accounted(s, stuck)
    requires s.rt.bridgeId.value in s.tables.bridges ==> s.tables.bridges[s.rt.bridgeId.value].generation == generation
    ensures Accounted(s.Demote(s.rt.bridgeId.value, generation, faults).0, DemoteStuck(s, stuck, faults))
  {
    var id, d := s.rt.bridgeId.value, s.Demote(s.rt.bridgeId.value, generation, faults).0;
    DemoteOwn(s, generation, faults);
    forall key: FlowKey | OwnKey(d, key) ensures AccountedAt(d, DemoteStuck(s, stuck, faults), key) {
      assert OwnKey(s, key) && AccountedAt(s, stuck, key);
      if id in s.tables.bridges {
        var installed := s.tables.bridges[id].installed;
        PassExact(stuck, installed, faults, key);
        RemoveLeaves(Removal(s.tables.flows, NO_STATS, true), installed, 0, faults, key);
      }
    }
  }

  /** As before, when only flags, history and statistics change besides. */
  lemma DemotedAccounted(s: State, stuck: set<FlowKey>, generation: nat, faults: Faults, end: State)
    requires s.rt.bridgeId.Some? && WellInstalled(s) && Accounted(s, stuck)
    requires s.rt.bridgeId.value in s.tables.bridges ==> s.tables.bridges[s.rt.bridgeId.value].generation == generation
    requires end.tables == s.Demote(s.rt.bridgeId.value, generation, faults).0.tables
    requires end.rt.bridgeId == s.rt.bridgeId && end.rt.endpoints.Ports() == s.rt.endpoints.Ports()
    ensures Accounted(end, DemoteStuck(s, stuck, faults))
  {
    DemoteAccounted(s, stuck, generation, faults);
    DemoteOwn(s, generation, faults);
    AccountedFrame(s.Demote(s.rt.bridgeId.value, generation, faults).0, end, DemoteStuck(s, stuck, faults));
  }

  lemma PartDistinct(specs: seq<FlowSpec>, p: nat)
    requires Distinct(InstalledFlows(specs)) && p <= |specs|
    ensures Distinct(InstalledFlows(specs[..p]))
    ensures forall key :: Mentions(InstalledFlows(specs[..p]), key) <==> Specified(specs, 0, p, key)
  {
    var part := InstalledFlows(specs[..p]);
    forall i | 0 <= i < p ensures part[i] == InstalledFlows(specs)[i] && part[i].key == specs[i].Key() {
    }
    forall key ensures Mentions(part, key) <==> Specified(specs, 0, p, key) {
      if i :| 0 <= i < |part| && part[i].key == key {
        assert specs[i].Key() == key;
      }
      if i :| 0 <= i < p && specs[i].Key() == key {
        assert part[i].key == key;
      }
    }
  }

  lemma KeysExact(installed: seq<InstalledFlow>, key: FlowKey)
    ensures key in Keys(installed) <==> Mentions(installed, key)
  {
  }

  /** Installing on a bridge without an entry accounts for every flow, whatever fails. */
  lemma InstallAccounted(s: State, stuck: set<FlowKey>, faults: Faults)
    requires s.rt.endpoints.DistinctPorts() && s.rt.endpoints.Flows().Some? && Accounted(s, stuck)
    requires s.rt.bridgeId.Some? ==> s.rt.bridgeId.value !in s.tables.bridges
    ensures var specs := s.rt.endpoints.Flows().value;
            Accounted(s.Install(specs, faults), InstallStuck(s, stuck, specs, faults))
  {
    if !s.rt.blocked && s.rt.bridgeId.Some? {
      var specs := s.rt.endpoints.Flows().value;
      var end := s.Install(specs, faults);
      OwnFlowsDistinct(s.rt.endpoints);
      forall key: FlowKey | OwnKey(end, key) ensures AccountedAt(end, InstallStuck(s, stuck, specs, faults), key) {
        assert OwnKey(s, key) && AccountedAt(s, stuck, key);
        InstalledAt(s, stuck, specs, faults, key);
      }
    }
  }

  lemma InstalledAt(s: State, stuck: set<FlowKey>, specs: seq<FlowSpec>, faults: Faults, key: FlowKey)
    requires !s.rt.blocked && s.rt.bridgeId.Some? && s.rt.bridgeId.value !in s.tables.bridges
    requires Distinct(InstalledFlows(specs)) && AccountedAt(s, stuck, key)
    ensures AccountedAt(s.Install(specs, faults), InstallStuck(s, stuck, specs, faults), key)
  {
    var generation, p := SatAdd(s.rt.generation, 1), FirstFailure(|specs|, 0, faults);
    InsertLeaves(s.tables.flows, generation, specs, 0, faults, key);
    InsertOutcome(s.tables.flows, generation, specs, 0, faults);
    PartDistinct(specs, p);
    assert specs[..|specs|] == specs;
    if p < |specs| {
      PassExact(stuck, InstalledFlows(specs[..p]), faults, key);
    } else {
      KeysExact(InstalledFlows(specs), key);
    }
  }

  lemma {:induction false} InsertOutcome(flows: FlowMap, generation: nat, specs: seq<FlowSpec>, position: nat,
                                         faults: Faults)
    requires position <= |specs|
    ensures InsertFlows(flows, generation, specs, position, faults).1 <==>
            FirstFailure(|specs|, position, faults) == |specs|
    decreases |specs| - position
  {
    if position < |specs| && position !in faults.insert {
      InsertOutcome(flows[specs[position].Key() := specs[position].Action(generation)], generation, specs,
                    position + 1, faults);
    }
  }

  lemma ReinstallAccounted(s: State, stuck: set<FlowKey>, faults: Faults)
    requires Good(s) && s.rt.active.None? && Accounted(s, stuck)
    ensures Accounted(s.Reinstall(faults), ReinstallStuck(s, stuck, faults))
  {
    if s.rt.endpoints.Flows().Some? {
      InstallAccounted(s, stuck, faults);
    }
  }

  /** A rebind of a promoted call, after its endpoint moved. */
  lemma ReboundAccounted(m: State, stuck: set<FlowKey>, direction: Direction, demotion: Faults, promotion: Faults)
    requires Good(m) && m.rt.active.Some? && Accounted(m, stuck)
    ensures var (d, answer) := m.DemoteOne(direction, demotion);
            var left := DemoteStuck(m, stuck, demotion);
            if answer.Err? then Accounted(d, left)
            else Accounted(d.Reinstall(promotion), ReinstallStuck(d, left, promotion))
  {
    DemotedAccounted(m, stuck, m.rt.active.value, demotion, m.DemoteOne(direction, demotion).0);
    DemoteOneGood(m, direction, demotion);
    var (d, answer) := m.DemoteOne(direction, demotion);
    if answer.Ok? {
      ReinstallAccounted(d, DemoteStuck(m, stuck, demotion), promotion);
    }
  }

  lemma MovedAccounted(s: State, stuck: set<FlowKey>, slot: Slot, source: Remote)
    requires Good(s) && Accounted(s, stuck)
    ensures Good(s.Moved(slot, source)) && Accounted(s.Moved(slot, source), stuck)
  {
    MovedGood(s, slot, source);
    AccountedFrame(s, s.Moved(slot, source), stuck);
  }

  lemma RebindAccounted(s: State, stuck: set<FlowKey>, slot: Slot, source: Remote, demotion: Faults, promotion: Faults)
    requires Good(s) && Accounted(s, stuck)
    ensures Accounted(s.Rebind(slot, source, demotion, promotion),
                      RebindStuck(s, stuck, slot, source, demotion, promotion))
  {
    var m := s.Moved(slot, source);
    MovedAccounted(s, stuck, slot, source);
    if s.rt.endpoints.At(slot) != Some(source) && !s.rt.stopped && s.rt.bridgeId.Some? {
      if s.rt.active.None? {
        ReinstallAccounted(m, stuck, promotion);
      } else {
        ReboundAccounted(m, stuck, slot.Direction(), demotion, promotion);
      }
    }
  }

  lemma PromoteAccounted(w: World, id: string, available: bool, faults: Faults, stuck: set<FlowKey>)
    requires Good(w.s) && Enabled(w, Promote(id, available, faults)) && Accounted(w.s, stuck)
    ensures Accounted(w.s.Promote(id, available, faults), StepStuck(w, Promote(id, available, faults), stuck))
  {
    var rt := w.s.rt;
    if available && rt.endpoints.Flows().Some? && !rt.stopped && !rt.blocked && rt.active.None?
       && (rt.bridgeId.Some? ==> rt.bridgeId.value == id) {
      var s := w.s.(rt := rt.(bridgeId := Some(id)));
      forall key: FlowKey | OwnKey(s, key) ensures AccountedAt(s, stuck, key) {
        assert OwnKey(w.s, key) && AccountedAt(w.s, stuck, key);
      }
      InstallAccounted(s, stuck, faults);
    }
  }

  lemma BlockAccounted(s: State, stuck: set<FlowKey>, faults: Faults)
    requires Good(s) && Accounted(s, stuck)
    ensures Accounted(s.Block(faults).0,
                      if !s.rt.stopped && s.rt.active.Some? then DemoteStuck(s, stuck, faults) else stuck)
  {
    var b := s.(rt := s.rt.(blocked := true));
    AccountedFrame(s, b, stuck);
    if !s.rt.stopped && s.rt.active.Some? {
      DemotedAccounted(b, stuck, s.rt.active.value, faults, s.Block(faults).0);
    }
  }

  lemma StopAccounted(s: State, stuck: set<FlowKey>, faults: Faults)
    requires Good(s) && Accounted(s, stuck)
    ensures Accounted(s.Stop(faults), if s.rt.active.Some? then DemoteStuck(s, stuck, faults) else stuck)
    ensures Accounted(s.Drop(faults),
                      if !s.rt.stopped && s.rt.active.Some? then DemoteStuck(s, stuck, faults) else stuck)
  {
    var b := s.(rt := s.rt.(stopped := true, active := None));
    AccountedFrame(s, b, stuck);
    if s.rt.active.Some? {
      DemotedAccounted(b, stuck, s.rt.active.value, faults, s.Stop(faults));
      DemotedAccounted(b, stuck, s.rt.active.value, faults, s.Drop(faults));
    }
  }

  lemma HealthAccounted(s: State, stuck: set<FlowKey>, snapshot: Faults, demotion: Faults)
    requires Good(s) && Accounted(s, stuck)
    ensures Accounted(s.Health(snapshot, demotion),
                      if Unhealthy(s, snapshot) then DemoteStuck(s, stuck, demotion) else stuck)
  {
    if Unhealthy(s, snapshot) {
      DemotedAccounted(s, stuck, s.rt.active.value, demotion, s.Health(snapshot, demotion));
    }
  }

  /** Packets only count, and other calls leave this call's ports alone. */
  lemma OutsideAccounted(w: World, step: Step, stuck: set<FlowKey>)
    requires Good(w.s) && Enabled(w, step) && Accounted(w.s, stuck) && (step.Packet? || step.Others? || step.Prepare?)
    ensures Accounted(Apply(w, step).s, stuck)
  {
    var end := Apply(w, step).s;
    forall key: FlowKey | OwnKey(end, key) ensures AccountedAt(end, stuck, key) {
      assert OwnKey(w.s, key) && AccountedAt(w.s, stuck, key);
      assert step.Others? ==> SameAt(w.s.tables.flows, step.tables.flows, key);
    }
  }

  lemma StepAccounted(w: World, step: Step, stuck: set<FlowKey>)
    requires Good(w.s) && Enabled(w, step) && Accounted(w.s, stuck)
    ensures Accounted(Apply(w, step).s, StepStuck(w, step, stuck))
  {
    match step
    case Promote(id, available, f) => PromoteAccounted(w, id, available, f, stuck);
    case Rebind(slot, source, d, p) => RebindAccounted(w.s, stuck, slot, source, d, p);
    case Block(f) => BlockAccounted(w.s, stuck, f);
    case Health(f, d) => HealthAccounted(w.s, stuck, f, d);
    case Stop(f) => StopAccounted(w.s, stuck, f);
    case Drop(f) => StopAccounted(w.s, stuck, f);
    case _ => OutsideAccounted(w, step, stuck);
  }

  /**
   * On every run, whatever fails, the flows on the call's ports are exactly those of the installed entry and those
   * whose last removal failed.
   */
  lemma {:induction false} FlowsOnEveryRun(w: World, run: seq<Step>, stuck: set<FlowKey>)
    requires Good(w.s) && Valid(w, run) && Accounted(w.s, stuck)
    ensures Accounted(Execute(w, run).s, RunStuck(w, run, stuck))
    decreases |run|
  {
    if run != [] {
      ApplyGood(w, run[0]);
      StepAccounted(w, run[0], stuck);
      FlowsOnEveryRun(Apply(w, run[0]), run[1..], StepStuck(w, run[0], stuck));
    }
  }

  /** Removals work in every call of the step; insertions and reads may fail. */
  ghost predicate RemovalsWork(step: Step) {
    match step
    case Promote(_, _, f) => f.remove == {}
    case Rebind(_, _, d, p) => d.remove == {} && p.remove == {}
    case Block(f) => f.remove == {}
    case Health(_, d) => d.remove == {}
    case Stop(f) => f.remove == {}
    case Drop(f) => f.remove == {}
    case _ => true
  }

  lemma NothingStuckStep(w: World, step: Step)
    requires RemovalsWork(step)
    ensures StepStuck(w, step, {}) == {}
  {
  }

  lemma {:induction false} NothingStuck(w: World, run: seq<Step>)
    requires forall i :: 0 <= i < |run| ==> RemovalsWork(run[i])
    ensures RunStuck(w, run, {}) == {}
    decreases |run|
  {
    if run != [] {
      NothingStuckStep(w, run[0]);
      assert forall i :: 0 <= i < |run| - 1 ==> run[1..][i] == run[i + 1];
      NothingStuck(Apply(w, run[0]), run[1..]);
    }
  }

  ghost predicate NoFlows(s: State) { forall key: FlowKey :: OwnKey(s, key) ==> key !in s.tables.flows }

  /**
   * A call that starts without flows on its ports leaves, once it is blocked or stopped, exactly the flows whose
   * removal failed; none if all removals worked, even if insertions and reads did not.
   */
  lemma FlowsLeftBehind(w: World, run: seq<Step>)
    requires Initial(w) && NoFlows(w.s) && Valid(w, run) && Silenced(Execute(w, run).s)
    ensures var end := Execute(w, run).s;
            forall key: FlowKey :: OwnKey(end, key) ==> (key in end.tables.flows <==> key in RunStuck(w, run, {}))
    ensures (forall i :: 0 <= i < |run| ==> RemovalsWork(run[i])) ==> NoFlows(Execute(w, run).s)
  {
    var end, stuck := Execute(w, run).s, RunStuck(w, run, {});
    InitialGood(w);
    forall key: FlowKey | OwnKey(w.s, key) ensures AccountedAt(w.s, {}, key) {
    }
    FlowsOnEveryRun(w, run, {});
    forall key: FlowKey | OwnKey(end, key) ensures key in end.tables.flows <==> key in stuck {
      assert AccountedAt(end, stuck, key);
    }
    if forall i :: 0 <= i < |run| ==> RemovalsWork(run[i]) {
      NothingStuck(w, run);
    }
  }
}
