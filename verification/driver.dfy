/** The order in which the test driver's `run` uses the pieces: the `add`
    requests, the `skip_setup` early return, the 2.x manager filter, the
    node loop and the hosts file. Package set-up, firewall ports and the
    playbook run in between are not part of this model. */
module Driver {
  import opened Wrappers
  import opened Text
  import opened Cluster
  import opened AddNodes
  import opened BuildFilter
  import opened Devices
  import opened Inventory

  /** The configuration entries the modelled steps read. */
  datatype RunConfig = RunConfig(
    add: seq<AddRequest>,
    skipSetup: bool,
    build: Option<string>,
    settings: OsdSettings)

  /** Why the run stopped: an exception from the add block, or the node loop's failure. */
  datatype RunError = AddFailed(addError: AddError) | InventoryFailed(loopError: InventoryError)

  /** How a run that did not stop on an error ends: set-up skipped (the
      driver returns 0), or the inventory the playbook will read. */
  datatype RunOutcome = Skipped | Written(text: InventoryText)

  /** `search_ethernet_interface(node, ceph_nodes)` for each working node;
      the lookup is a parameter keyed by short name. */
  function InterfacesOf(states: seq<NodeState>, ifaceOf: string -> Option<string>): (ifaces: seq<Option<string>>)
    ensures |ifaces| == |states|
    ensures forall j :: 0 <= j < |states| ==> ifaces[j] == ifaceOf(states[j].shortname)
  {
    seq(|states|, j requires 0 <= j < |states| => ifaceOf(states[j].shortname))
  }

  /** Lines 63-105 over node states: the nodes the inventory is built from. */
  function WorkingAfterAdds(states: seq<NodeState>, cfg: RunConfig, matches: (string, string) -> bool): seq<NodeState>
  {
    WorkingStates(BuildVersion(cfg.build), AddAll(states, cfg.add, matches).states)
  }

  /** Lines 165-235 over node states. */
  function InventoryStep(working: seq<NodeState>, ifaceOf: string -> Option<string>, settings: OsdSettings): Result<RunOutcome, RunError>
  {
    match Collect(working, InterfacesOf(working, ifaceOf), settings)
    case Failure(e) => Failure(InventoryFailed(e))
    case Success(h) => Success(Written(InventoryText(HostsFile(h), h.numOsds, h.numMons)))
  }

  /** Lines 63-235 over node states: an add error stops the run, then
      `skip_setup` ends it, and only then is the inventory built. */
  function RunSpec(states: seq<NodeState>, cfg: RunConfig, matches: (string, string) -> bool,
                   ifaceOf: string -> Option<string>): (r: Result<RunOutcome, RunError>)
    ensures (r.Failure? && r.error.AddFailed?) <==> AddAll(states, cfg.add, matches).err.Some?
    ensures r == Success(Skipped) <==> AddAll(states, cfg.add, matches).err.None? && cfg.skipSetup
    ensures r.Success? && r.value.Written? ==> !cfg.skipSetup
  {
    var added := AddAll(states, cfg.add, matches);
    if added.err.Some? then Failure(AddFailed(added.err.value))
    else if cfg.skipSetup then Success(Skipped)
    else InventoryStep(WorkingAfterAdds(states, cfg, matches), ifaceOf, cfg.settings)
  }

  /** An inventory built from nodes none of which is a manager has no
      `[mgrs]` section and counts no manager. */
  lemma InventoryStepNoMgrs(working: seq<NodeState>, ifaceOf: string -> Option<string>, settings: OsdSettings)
    requires CountRole(working, Mgr) == 0
    requires InventoryStep(working, ifaceOf, settings).Success?
    ensures var c := Collect(working, InterfacesOf(working, ifaceOf), settings);
            && c.Success?
            && c.value.mgrs == [] && c.value.numMgrs == 0
            && "mgrs" !in PresentNames(Sections(c.value))
            && InventoryStep(working, ifaceOf, settings).value
               == Written(InventoryText(HostsFile(c.value), c.value.numOsds, c.value.numMons))
  {
    var ifaces := InterfacesOf(working, ifaceOf);
    var h := Collect(working, ifaces, settings).value;
    CollectCounts(working, ifaces, settings, h);
    InventorySections(working, ifaces, settings, h);
  }

  /** A run on a 2.x build that gets as far as the hosts file writes no
      `[mgrs]` section and counts no manager, even when an add request made
      a node a manager. */
  lemma RunNoMgrsOn2x(states: seq<NodeState>, cfg: RunConfig, matches: (string, string) -> bool,
                      ifaceOf: string -> Option<string>)
    requires StartsWithChar(BuildVersion(cfg.build), '2')
    ensures CountRole(WorkingAfterAdds(states, cfg, matches), Mgr) == 0
    ensures RunSpec(states, cfg, matches, ifaceOf).Success? && !cfg.skipSetup ==>
            var working := WorkingAfterAdds(states, cfg, matches);
            var c := Collect(working, InterfacesOf(working, ifaceOf), cfg.settings);
            && c.Success?
            && c.value.mgrs == [] && c.value.numMgrs == 0
            && "mgrs" !in PresentNames(Sections(c.value))
            && RunSpec(states, cfg, matches, ifaceOf).value
               == Written(InventoryText(HostsFile(c.value), c.value.numOsds, c.value.numMons))
  {
    var working := WorkingAfterAdds(states, cfg, matches);
    WithoutMgrStatesSpec(AddAll(states, cfg.add, matches).states);
    if RunSpec(states, cfg, matches, ifaceOf).Success? && !cfg.skipSetup {
      InventoryStepNoMgrs(working, ifaceOf, cfg.settings);
    }
  }

  /** Lines 101-105 and 165-235 on the node objects: the 2.x filter, then
      the inventory built from the nodes that remain. The working nodes end
      as the node loop leaves them; the others are untouched; no node changes
      anything but its interface, and that only to the one looked up for it. */
  method InventoryFromNodes(nodes: seq<Node>, build: string, ifaceOf: string -> Option<string>, settings: OsdSettings)
    returns (r: Result<RunOutcome, RunError>)
    requires Distinct(nodes)
    modifies set n | n in nodes
    ensures r == InventoryStep(WorkingStates(build, old(Snapshot(nodes))), ifaceOf, settings)
    ensures var working := old(WorkingNodes(build, nodes));
            Snapshot(working) == Interfaced(old(Snapshot(working)), InterfacesOf(old(Snapshot(working)), ifaceOf), settings)
    ensures forall k :: 0 <= k < |nodes| && nodes[k] !in old(WorkingNodes(build, nodes)) ==> nodes[k].State() == old(nodes[k].State())
    ensures StartsWithChar(build, '2') ==>
              forall k :: 0 <= k < |nodes| && Mgr in old(nodes[k].roles) ==> nodes[k].State() == old(nodes[k].State())
    ensures forall k :: 0 <= k < |nodes| ==> nodes[k].State() == old(nodes[k].State()).(ethInterface := nodes[k].ethInterface)
    ensures forall k :: 0 <= k < |nodes| ==>
              nodes[k].ethInterface == old(nodes[k].ethInterface) || nodes[k].ethInterface == ifaceOf(nodes[k].shortname)
  {
    var cephNodes := nodes;
    if StartsWithChar(build, '2') {
      cephNodes := WithoutMgrs(nodes);
    }
    WorkingNodesSnapshot(build, nodes);
    assert cephNodes == WorkingNodes(build, nodes);
    ghost var working := Snapshot(cephNodes);
    var ifaces := seq(|cephNodes|, j requires 0 <= j < |cephNodes| => ifaceOf(cephNodes[j].shortname));
    assert ifaces == InterfacesOf(working, ifaceOf);
    ghost var before := Snapshot(cephNodes);
    var inventory := BuildInventory(cephNodes, ifaces, settings);
    forall k | 0 <= k < |nodes|
      ensures nodes[k].State() == old(nodes[k].State()).(ethInterface := nodes[k].ethInterface)
      ensures nodes[k].ethInterface == old(nodes[k].ethInterface) || nodes[k].ethInterface == ifaceOf(nodes[k].shortname)
      ensures StartsWithChar(build, '2') && Mgr in old(nodes[k].roles) ==> nodes[k].State() == old(nodes[k].State())
    {
      if nodes[k] in cephNodes {
        var j :| 0 <= j < |cephNodes| && cephNodes[j] == nodes[k];
        assert nodes[k].State() == Snapshot(cephNodes)[j];
        assert before[j] == old(nodes[k].State());
      }
    }
    if inventory.Failure? {
      return Failure(InventoryFailed(inventory.error));
    }
    r := Success(Written(inventory.value));
  }

  /** Lines 63-235 on the node objects. The nodes end as the add requests
      leave them; a run that builds the inventory may also set interfaces,
      each to the one looked up for its node, and on a 2.x build never on a
      manager. */
  method Run(nodes: seq<Node>, cfg: RunConfig, matches: (string, string) -> bool, ifaceOf: string -> Option<string>)
    returns (r: Result<RunOutcome, RunError>)
    requires Distinct(nodes)
    modifies set n | n in nodes
    ensures r == RunSpec(old(Snapshot(nodes)), cfg, matches, ifaceOf)
    ensures var added := AddAll(old(Snapshot(nodes)), cfg.add, matches).states;
            && ((r.Failure? && r.error.AddFailed?) || r == Success(Skipped) ==> Snapshot(nodes) == added)
            && (forall k :: 0 <= k < |nodes| ==> nodes[k].State() == added[k].(ethInterface := nodes[k].ethInterface))
            && (forall k :: 0 <= k < |nodes| ==>
                  nodes[k].ethInterface == added[k].ethInterface || nodes[k].ethInterface == ifaceOf(added[k].shortname))
            && (StartsWithChar(BuildVersion(cfg.build), '2') ==>
                  forall k :: 0 <= k < |nodes| && Mgr in added[k].roles ==> nodes[k].State() == added[k])
  {
    var err := ApplyAdds(nodes, cfg.add, matches);
    if err.Some? {
      return Failure(AddFailed(err.value));
    }
    if cfg.skipSetup {
      return Success(Skipped);
    }
    var build := BuildVersion(cfg.build);
    r := InventoryFromNodes(nodes, build, ifaceOf, cfg.settings);
  }
}
