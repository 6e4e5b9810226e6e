/** The flow controller: a bridge table over a kernel flow map whose operations may fail. */
module FastPathController {
  import opened Prelude
  import opened FastPathTypes

  datatype SocketAddr = SocketAddr(ip: nat, port: nat)

  /** The flow map key; interface index and protocol are the same for every key. */
  datatype FlowKey = FlowKey(local: SocketAddr, remote: SocketAddr)

  datatype FlowAction = FlowAction(source: SocketAddr, destination: SocketAddr, direction: Direction,
                                   generation: nat, counts: Counts)

  datatype FlowSpec = FlowSpec(kind: MediaKind, direction: Direction, local: SocketAddr, remote: SocketAddr,
                               source: SocketAddr, destination: SocketAddr) {
    function Key(): FlowKey { FlowKey(local, remote) }

    /** A freshly inserted action starts with zero counters. */
    function Action(generation: nat): FlowAction {
      FlowAction(source, destination, direction, generation, NO_COUNTS)
    }

    function Installed(): InstalledFlow { InstalledFlow(Key(), kind, direction) }
  }

  datatype InstalledFlow = InstalledFlow(key: FlowKey, kind: MediaKind, direction: Direction)

  datatype BridgeEntry = BridgeEntry(generation: nat, installed: seq<InstalledFlow>)

  datatype ControllerError =
    | BridgeExists | StaleGeneration | BridgeMissing | MapInsertFailed | MapReadFailed | MapRemoveFailed

  /** Which map operations of one controller call fail: the positions of the flows they are for. */
  datatype Faults = Faults(insert: set<nat>, read: set<nat>, remove: set<nat>)

  const NO_FAULTS := Faults({}, {}, {})

  type FlowMap = map<FlowKey, FlowAction>

  datatype Tables = Tables(flows: FlowMap, bridges: map<string, BridgeEntry>)

  /** Reading a missing key fails, as does a faulty read. */
  predicate Readable(flows: FlowMap, flow: InstalledFlow, position: nat, faults: Faults) {
    flow.key in flows && position !in faults.read
  }

  /** Removing a missing key fails, as does a faulty removal. */
  predicate Removable(flows: FlowMap, flow: InstalledFlow, position: nat, faults: Faults) {
    flow.key in flows && position !in faults.remove
  }

  /** Best-effort removal of the flows from `position` on; the rollback of a failed promotion. */
  function Rollback(flows: FlowMap, installed: seq<InstalledFlow>, position: nat, faults: Faults): FlowMap
    requires position <= |installed|
    decreases |installed| - position
  {
    if position == |installed| then flows
    else
      var rest := if Removable(flows, installed[position], position, faults)
                  then flows - {installed[position].key} else flows;
      Rollback(rest, installed, position + 1, faults)
  }

  function InstalledFlows(specs: seq<FlowSpec>): (r: seq<InstalledFlow>)
    ensures |r| == |specs|
    ensures forall i :: 0 <= i < |specs| ==> r[i] == specs[i].Installed()
  {
    seq(|specs|, i requires 0 <= i < |specs| => specs[i].Installed())
  }

  /** Inserts the flows from `position` on; on the first failure the earlier ones are rolled back. */
  function InsertFlows(flows: FlowMap, generation: nat, specs: seq<FlowSpec>, position: nat, faults: Faults)
    : (FlowMap, bool)
    requires position <= |specs|
    decreases |specs| - position
  {
    if position == |specs| then (flows, true)
    else if position in faults.insert then (Rollback(flows, InstalledFlows(specs[..position]), 0, faults), false)
    else InsertFlows(flows[specs[position].Key() := specs[position].Action(generation)], generation, specs,
                     position + 1, faults)
  }

  function PromoteTables(t: Tables, id: string, generation: nat, specs: seq<FlowSpec>, faults: Faults)
    : (Tables, Result<(), ControllerError>)
  {
    if id in t.bridges then (t, Err(BridgeExists))
    else
      var (flows, inserted) := InsertFlows(t.flows, generation, specs, 0, faults);
      if inserted then (Tables(flows, t.bridges[id := BridgeEntry(generation, InstalledFlows(specs))]), Ok(()))
      else (Tables(flows, t.bridges), Err(MapInsertFailed))
  }

  function AddFlow(stats: Stats, flow: InstalledFlow, counts: Counts): Stats {
    stats.Put(flow.kind, flow.direction, stats.At(flow.kind, flow.direction).SatPlus(counts))
  }

  /** What a removal pass over the installed flows leaves: map, collected statistics, all removals succeeded. */
  datatype Removal = Removal(flows: FlowMap, stats: Stats, clean: bool) {
    function Next(flow: InstalledFlow, position: nat, faults: Faults): Removal {
      var stats' := if Readable(flows, flow, position, faults)
                    then AddFlow(stats, flow, flows[flow.key].counts) else stats;
      if Removable(flows, flow, position, faults) then Removal(flows - {flow.key}, stats', clean)
      else Removal(flows, stats', false)
    }
  }

  function RemoveFlows(so: Removal, installed: seq<InstalledFlow>, position: nat, faults: Faults): Removal
    requires position <= |installed|
    decreases |installed| - position
  {
    if position == |installed| then so
    else RemoveFlows(so.Next(installed[position], position, faults), installed, position + 1, faults)
  }

  /** remove and demote: a failed map removal still drops the table entry. */
  function RemoveTables(t: Tables, id: string, generation: nat, faults: Faults)
    : (Tables, Result<Stats, ControllerError>)
  {
    if id !in t.bridges then (t, Ok(NO_STATS))
    else if t.bridges[id].generation != generation then (t, Err(StaleGeneration))
    else
      var end := RemoveFlows(Removal(t.flows, NO_STATS, true), t.bridges[id].installed, 0, faults);
      (Tables(end.flows, t.bridges - {id}), if end.clean then Ok(end.stats) else Err(MapRemoveFailed))
  }

  function ReadFlows(flows: FlowMap, stats: Stats, installed: seq<InstalledFlow>, position: nat, faults: Faults)
    : Result<Stats, ControllerError>
    requires position <= |installed|
    decreases |installed| - position
  {
    if position == |installed| then Ok(stats)
    else if !Readable(flows, installed[position], position, faults) then Err(MapReadFailed)
    else ReadFlows(flows, AddFlow(stats, installed[position], flows[installed[position].key].counts), installed,
                   position + 1, faults)
  }

  function SnapshotTables(t: Tables, id: string, generation: nat, faults: Faults): Result<Stats, ControllerError> {
    if id !in t.bridges then Err(BridgeMissing)
    else if t.bridges[id].generation != generation then Err(StaleGeneration)
    else ReadFlows(t.flows, NO_STATS, t.bridges[id].installed, 0, faults)
  }

  /** The controller object; its lock makes every method atomic. */
  class EbpfFastPathController {
    var flows: FlowMap
    var bridges: map<string, BridgeEntry>

    ghost function View(): Tables reads this { Tables(flows, bridges) }

    constructor ()
      ensures View() == Tables(map[], map[])
    {
      flows, bridges := map[], map[];
    }

    method Promote(id: string, generation: nat, specs: seq<FlowSpec>, faults: Faults)
      returns (answer: Result<(), ControllerError>)
      modifies this
      ensures (View(), answer) == PromoteTables(old(View()), id, generation, specs, faults)
    {
      if id in bridges {
        return Err(BridgeExists);
      }
      var installed: seq<InstalledFlow> := [];
      for i := 0 to |specs|
        invariant installed == InstalledFlows(specs[..i])
        invariant bridges == old(bridges)
        invariant InsertFlows(flows, generation, specs, i, faults)
                  == InsertFlows(old(flows), generation, specs, 0, faults)
      {
        if i in faults.insert {
          for j := 0 to |installed|
            invariant bridges == old(bridges)
            invariant Rollback(flows, installed, j, faults)
                   == InsertFlows(old(flows), generation, specs, 0, faults).0
          {
            if installed[j].key in flows && j !in faults.remove {
              flows := flows - {installed[j].key};
            }
          }
          return Err(MapInsertFailed);
        }
        flows := flows[specs[i].Key() := specs[i].Action(generation)];
        installed := installed + [specs[i].Installed()];
      }
      assert specs[..|specs|] == specs;
      bridges := bridges[id := BridgeEntry(generation, installed)];
      answer := Ok(());
    }

    method Remove(id: string, generation: nat, faults: Faults) returns (answer: Result<Stats, ControllerError>)
      modifies this
      ensures (View(), answer) == RemoveTables(old(View()), id, generation, faults)
    {
      if id !in bridges {
        return Ok(NO_STATS);
      }
      var entry := bridges[id];
      if entry.generation != generation {
        return Err(StaleGeneration);
      }
      bridges := bridges - {id};
      var stats, failed := NO_STATS, false;
      for i := 0 to |entry.installed|
        invariant bridges == old(bridges) - {id}
        invariant RemoveFlows(Removal(flows, stats, !failed), entry.installed, i, faults)
               == RemoveFlows(Removal(old(flows), NO_STATS, true), entry.installed, 0, faults)
      {
        var flow := entry.installed[i];
        if flow.key in flows && i !in faults.read {
          stats := AddFlow(stats, flow, flows[flow.key].counts);
        }
        if flow.key in flows && i !in faults.remove {
          flows := flows - {flow.key};
        } else {
          failed := true;
        }
      }
      answer := if failed then Err(MapRemoveFailed) else Ok(stats);
    }

    method Snapshot(id: string, generation: nat, faults: Faults) returns (answer: Result<Stats, ControllerError>)
      ensures answer == SnapshotTables(View(), id, generation, faults)
    {
      if id !in bridges {
        return Err(BridgeMissing);
      }
      var entry := bridges[id];
      if entry.generation != generation {
        return Err(StaleGeneration);
      }
      var stats := NO_STATS;
      for i := 0 to |entry.installed|
        invariant ReadFlows(flows, stats, entry.installed, i, faults)
               == ReadFlows(flows, NO_STATS, entry.installed, 0, faults)
      {
        var flow := entry.installed[i];
        if flow.key !in flows || i in faults.read {
          return Err(MapReadFailed);
        }
        stats := AddFlow(stats, flow, flows[flow.key].counts);
      }
      answer := Ok(stats);
    }
  }
}
