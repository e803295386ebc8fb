/** Lines 165-235: the ansible inventory. Every node gets its network
    interface, each of its roles adds one host line to that role's list, and
    the non-empty lists become `[section]` blocks in a fixed order. */
module Inventory {
  import opened Wrappers
  import opened Text
  import opened Cluster
  import opened Devices

  const MonitorKey := " monitor_interface="
  const RadosgwKey := " radosgw_interface="
  const ClientKey := " client_interface="

  /** The six host lists and the three counters the node loop accumulates. */
  datatype HostLists = HostLists(
    mons: seq<string>,
    mgrs: seq<string>,
    osds: seq<string>,
    mdss: seq<string>,
    rgws: seq<string>,
    clients: seq<string>,
    numOsds: nat,
    numMons: nat,
    numMgrs: nat)

  const NoHosts := HostLists([], [], [], [], [], [], 0, 0, 0)

  /** Why the node loop stopped at node `at`: no usable interface (the
      driver returns 1), or an exception from device enumeration. */
  datatype InventoryError =
    | NoInterface(at: nat)
    | DeviceFailure(at: nat, cause: DeviceError)

  /** What the driver keeps from a successful inventory build. */
  datatype InventoryText = InventoryText(hostsFile: string, numOsds: nat, numMons: nat)

  function HostLine(shortname: string, key: string, iface: string): string
  {
    shortname + key + iface
  }

  /** Lines 189-206 for a node that holds the OSD role: one more OSD line and
      the node's devices counted, or the enumeration's error at this node;
      the other lists and counters are untouched. */
  function OsdStep(acc: HostLists, n: NodeState, iface: string, at: nat, settings: OsdSettings): (r: Result<HostLists, InventoryError>)
    ensures r.Success? <==> DevicesFor(AllocatedCount(n.volumes), settings).Success?
    ensures r.Failure? ==> r.error == DeviceFailure(at, DevicesFor(AllocatedCount(n.volumes), settings).error)
    ensures r.Success? ==>
              && |r.value.osds| == |acc.osds| + 1 && r.value.osds[..|acc.osds|] == acc.osds
              && r.value.numOsds == acc.numOsds + |DevicesFor(AllocatedCount(n.volumes), settings).value|
              && r.value == acc.(osds := r.value.osds, numOsds := r.value.numOsds)
  {
    match DevicesFor(AllocatedCount(n.volumes), settings)
    case Failure(cause) => Failure(DeviceFailure(at, cause))
    case Success(devs) =>
      Success(acc.(osds := acc.osds + [OsdHostLine(n.shortname, iface, devs, settings.autoDiscovery)],
                   numOsds := acc.numOsds + |devs|))
  }

  // Lines 181-188 and 207-215: a node holding a role adds its host line to
  // that role's list (and bumps the monitor or manager counter).
  function MonStage(acc: HostLists, n: NodeState, e: string): HostLists
  {
    if Mon in n.roles then acc.(mons := acc.mons + [HostLine(n.shortname, MonitorKey, e)], numMons := acc.numMons + 1) else acc
  }

  function MgrStage(acc: HostLists, n: NodeState, e: string): HostLists
  {
    if Mgr in n.roles then acc.(mgrs := acc.mgrs + [HostLine(n.shortname, MonitorKey, e)], numMgrs := acc.numMgrs + 1) else acc
  }

  function MdsStage(acc: HostLists, n: NodeState, e: string): HostLists
  {
    if Mds in n.roles then acc.(mdss := acc.mdss + [HostLine(n.shortname, MonitorKey, e)]) else acc
  }

  function RgwStage(acc: HostLists, n: NodeState, e: string): HostLists
  {
    if Rgw in n.roles then acc.(rgws := acc.rgws + [HostLine(n.shortname, RadosgwKey, e)]) else acc
  }

  function ClientStage(acc: HostLists, n: NodeState, e: string): HostLists
  {
    if Client in n.roles then acc.(clients := acc.clients + [HostLine(n.shortname, ClientKey, e)]) else acc
  }

  /** Lines 175-215 for the node at position `at`. */
  function NodeStep(acc: HostLists, n: NodeState, iface: Option<string>, at: nat, settings: OsdSettings): (r: Result<HostLists, InventoryError>)
    ensures r.Failure? ==> r.error.at == at
    ensures r.Failure? && r.error.NoInterface? ==> iface.None?
    ensures r.Failure? && r.error.DeviceFailure? ==> iface.Some?
  {
    if iface.None? then Failure(NoInterface(at))
    else
      var e := iface.value;
      var a2 := MgrStage(MonStage(acc, n, e), n, e);
      var a3 :- if Osd in n.roles then OsdStep(a2, n, e, at, settings) else Success(a2);
      Success(ClientStage(RgwStage(MdsStage(a3, n, e), n, e), n, e))
  }

  /** Lines 165-215: the node loop over node states, stopping at the first failure. */
  function Collect(states: seq<NodeState>, ifaces: seq<Option<string>>, settings: OsdSettings): (r: Result<HostLists, InventoryError>)
    requires |ifaces| == |states|
    ensures r.Failure? ==> r.error.at < |states|
    ensures r.Failure? && r.error.NoInterface? ==> ifaces[r.error.at].None?
    ensures r.Failure? && r.error.DeviceFailure? ==> ifaces[r.error.at].Some?
    decreases |states|
  {
    if states == [] then Success(NoHosts)
    else
      var k := |states| - 1;
      var acc :- Collect(states[..k], ifaces[..k], settings);
      NodeStep(acc, states[k], ifaces[k], k, settings)
  }

  /** A node the loop passes: it has an interface and, if it is an OSD node,
      its devices can be enumerated. */
  predicate NodeOk(n: NodeState, iface: Option<string>, settings: OsdSettings)
  {
    iface.Some? && (Osd in n.roles ==> DevicesFor(AllocatedCount(n.volumes), settings).Success?)
  }

  /** The loop succeeds exactly when every node passes, and otherwise stops
      at the first node that does not. */
  lemma {:induction false} CollectStopsAtFirstFailure(states: seq<NodeState>, ifaces: seq<Option<string>>, settings: OsdSettings)
    requires |ifaces| == |states|
    ensures Collect(states, ifaces, settings).Success?
            <==> forall j :: 0 <= j < |states| ==> NodeOk(states[j], ifaces[j], settings)
    ensures Collect(states, ifaces, settings).Failure? ==>
              var at := Collect(states, ifaces, settings).error.at;
              && (forall j :: 0 <= j < at ==> NodeOk(states[j], ifaces[j], settings))
              && !NodeOk(states[at], ifaces[at], settings)
    decreases |states|
  {
    if states != [] {
      var k := |states| - 1;
      CollectStopsAtFirstFailure(states[..k], ifaces[..k], settings);
      match Collect(states[..k], ifaces[..k], settings)
      case Failure(e) =>
        assert !NodeOk(states[..k][e.at], ifaces[..k][e.at], settings);
      case Success(acc) =>
        assert forall j :: 0 <= j < k ==> states[..k][j] == states[j] && ifaces[..k][j] == ifaces[j];
        var n := states[k];
        if ifaces[k].Some? && Osd in n.roles {
          var e := ifaces[k].value;
          var a2 := MgrStage(MonStage(acc, n, e), n, e);
          assert OsdStep(a2, n, e, k, settings).Success? <==> DevicesFor(AllocatedCount(n.volumes), settings).Success?;
        }
    }
  }

  /** A failure in a prefix of the nodes is the failure of the whole loop. */
  lemma {:induction false} CollectPrefixFailure(states: seq<NodeState>, ifaces: seq<Option<string>>, settings: OsdSettings, m: nat)
    requires |ifaces| == |states| && m <= |states|
    requires Collect(states[..m], ifaces[..m], settings).Failure?
    ensures Collect(states, ifaces, settings) == Collect(states[..m], ifaces[..m], settings)
    decreases |states|
  {
    if m < |states| {
      var k := |states| - 1;
      assert states[..k][..m] == states[..m] && ifaces[..k][..m] == ifaces[..m];
      CollectPrefixFailure(states[..k], ifaces[..k], settings, m);
    } else {
      assert states[..m] == states && ifaces[..m] == ifaces;
    }
  }

  predicate AllInterfaces(ifaces: seq<Option<string>>)
  {
    forall j :: 0 <= j < |ifaces| ==> ifaces[j].Some?
  }

  /** One host line per node holding `role`, in node order. */
  function RoleLines(states: seq<NodeState>, ifaces: seq<Option<string>>, role: string, key: string): seq<string>
    requires |ifaces| == |states| && AllInterfaces(ifaces)
  {
    if states == [] then []
    else
      var k := |states| - 1;
      RoleLines(states[..k], ifaces[..k], role, key)
        + (if role in states[k].roles then [HostLine(states[k].shortname, key, ifaces[k].value)] else [])
  }

  /** One OSD host line per OSD node, in node order. */
  function OsdLines(states: seq<NodeState>, ifaces: seq<Option<string>>, settings: OsdSettings): seq<string>
    requires |ifaces| == |states|
    requires forall j :: 0 <= j < |states| ==> NodeOk(states[j], ifaces[j], settings)
  {
    if states == [] then []
    else
      var k := |states| - 1;
      var n := states[k];
      assert NodeOk(n, ifaces[k], settings);
      assert forall j :: 0 <= j < k ==> states[..k][j] == states[j] && ifaces[..k][j] == ifaces[j];
      OsdLines(states[..k], ifaces[..k], settings)
        + (if Osd in n.roles
           then [OsdHostLine(n.shortname, ifaces[k].value, DevicesFor(AllocatedCount(n.volumes), settings).value, settings.autoDiscovery)]
           else [])
  }

  /** The number of OSD devices the nodes contribute. */
  function DeviceTotal(states: seq<NodeState>, settings: OsdSettings): nat
  {
    if states == [] then 0
    else
      var k := |states| - 1;
      var n := states[k];
      DeviceTotal(states[..k], settings)
        + (if Osd in n.roles && DevicesFor(AllocatedCount(n.volumes), settings).Success?
           then |DevicesFor(AllocatedCount(n.volumes), settings).value| else 0)
  }

  /** What one successful node step adds to each list and counter. */
  lemma NodeStepEffect(acc: HostLists, n: NodeState, iface: Option<string>, at: nat, settings: OsdSettings)
    requires NodeStep(acc, n, iface, at, settings).Success?
    ensures NodeOk(n, iface, settings)
    ensures var h := NodeStep(acc, n, iface, at, settings).value;
            var e := iface.value;
            && h.mons == acc.mons + (if Mon in n.roles then [HostLine(n.shortname, MonitorKey, e)] else [])
            && h.mgrs == acc.mgrs + (if Mgr in n.roles then [HostLine(n.shortname, MonitorKey, e)] else [])
            && h.mdss == acc.mdss + (if Mds in n.roles then [HostLine(n.shortname, MonitorKey, e)] else [])
            && h.rgws == acc.rgws + (if Rgw in n.roles then [HostLine(n.shortname, RadosgwKey, e)] else [])
            && h.clients == acc.clients + (if Client in n.roles then [HostLine(n.shortname, ClientKey, e)] else [])
            && h.numMons == acc.numMons + (if Mon in n.roles then 1 else 0)
            && h.numMgrs == acc.numMgrs + (if Mgr in n.roles then 1 else 0)
            && h.osds == acc.osds
               + (if Osd in n.roles
                  then [OsdHostLine(n.shortname, e, DevicesFor(AllocatedCount(n.volumes), settings).value, settings.autoDiscovery)]
                  else [])
            && h.numOsds == acc.numOsds
               + (if Osd in n.roles then |DevicesFor(AllocatedCount(n.volumes), settings).value| else 0)
  {
  }

  /** What a successful loop produced: every list holds one line per node of
      its role, in node order. */
  lemma {:induction false} CollectLines(states: seq<NodeState>, ifaces: seq<Option<string>>, settings: OsdSettings, h: HostLists)
    requires |ifaces| == |states|
    requires Collect(states, ifaces, settings) == Success(h)
    ensures AllInterfaces(ifaces) && CollectOkAll(states, ifaces, settings)
    ensures h.mons == RoleLines(states, ifaces, Mon, MonitorKey)
    ensures h.mgrs == RoleLines(states, ifaces, Mgr, MonitorKey)
    ensures h.mdss == RoleLines(states, ifaces, Mds, MonitorKey)
    ensures h.rgws == RoleLines(states, ifaces, Rgw, RadosgwKey)
    ensures h.clients == RoleLines(states, ifaces, Client, ClientKey)
    ensures h.osds == OsdLines(states, ifaces, settings)
    decreases |states|
  {
    CollectStopsAtFirstFailure(states, ifaces, settings);
    if states != [] {
      var k := |states| - 1;
      var acc := Collect(states[..k], ifaces[..k], settings).value;
      CollectLines(states[..k], ifaces[..k], settings, acc);
      NodeStepEffect(acc, states[k], ifaces[k], k, settings);
    }
  }

  /** After a successful loop, `num_mons` and `num_mgrs` count the monitor and
      manager nodes, every list has one line per node of its role, and
      `num_osds` adds up the OSD devices. */
  lemma {:induction false} CollectCounts(states: seq<NodeState>, ifaces: seq<Option<string>>, settings: OsdSettings, h: HostLists)
    requires |ifaces| == |states|
    requires Collect(states, ifaces, settings) == Success(h)
    ensures |h.mons| == h.numMons == CountRole(states, Mon)
    ensures |h.mgrs| == h.numMgrs == CountRole(states, Mgr)
    ensures |h.osds| == CountRole(states, Osd)
    ensures |h.mdss| == CountRole(states, Mds)
    ensures |h.rgws| == CountRole(states, Rgw)
    ensures |h.clients| == CountRole(states, Client)
    ensures h.numOsds == DeviceTotal(states, settings)
    decreases |states|
  {
    if states != [] {
      var k := |states| - 1;
      var acc := Collect(states[..k], ifaces[..k], settings).value;
      CollectCounts(states[..k], ifaces[..k], settings, acc);
      NodeStepEffect(acc, states[k], ifaces[k], k, settings);
    }
  }

  /** Every node passes the loop (names the precondition of OsdLines). */
  predicate CollectOkAll(states: seq<NodeState>, ifaces: seq<Option<string>>, settings: OsdSettings)
    requires |ifaces| == |states|
  {
    forall j :: 0 <= j < |states| ==> NodeOk(states[j], ifaces[j], settings)
  }

  /** When the loop fails, the node interfaces set so far: up to the failing
      node, or including it when the failure came after `set_eth_interface`. */
  function Touched(r: Result<HostLists, InventoryError>, count: nat): nat
  {
    match r
    case Success(_) => count
    case Failure(NoInterface(at)) => at
    case Failure(DeviceFailure(at, _)) => at + 1
  }

  /** The node states once the loop has reached the first `upto` nodes:
      each of those carries the interface found for it, and nothing else
      about any node changes. */
  function SetInterfaces(states: seq<NodeState>, ifaces: seq<Option<string>>, upto: nat): (r: seq<NodeState>)
    requires |ifaces| == |states|
    ensures |r| == |states|
    ensures forall j :: 0 <= j < |states| ==> r[j] == states[j].(ethInterface := r[j].ethInterface)
    ensures forall j :: 0 <= j < |states| ==> r[j].ethInterface == states[j].ethInterface || r[j].ethInterface == ifaces[j]
  {
    seq(|states|, j requires 0 <= j < |states| => if j < upto then states[j].(ethInterface := ifaces[j]) else states[j])
  }

  /** The node states after the node loop (line 179 on every node it reaches). */
  function Interfaced(states: seq<NodeState>, ifaces: seq<Option<string>>, settings: OsdSettings): seq<NodeState>
    requires |ifaces| == |states|
  {
    SetInterfaces(states, ifaces, Touched(Collect(states, ifaces, settings), |states|))
  }

  /** A finished loop gives every node its interface; a stopped one gives
      it to the nodes before the failing node, to that node only when its
      devices failed after `set_eth_interface`, and to none after it. */
  lemma InterfacedSpec(states: seq<NodeState>, ifaces: seq<Option<string>>, settings: OsdSettings)
    requires |ifaces| == |states|
    ensures var r := Interfaced(states, ifaces, settings);
            var c := Collect(states, ifaces, settings);
            && (c.Success? ==> forall j :: 0 <= j < |states| ==> ifaces[j].Some? && r[j].ethInterface == ifaces[j])
            && (c.Failure? ==> forall j :: 0 <= j < c.error.at ==> ifaces[j].Some? && r[j].ethInterface == ifaces[j])
            && (c.Failure? && c.error.NoInterface? ==> r[c.error.at] == states[c.error.at])
            && (c.Failure? && c.error.DeviceFailure? ==> r[c.error.at].ethInterface == ifaces[c.error.at] != None)
            && (c.Failure? ==> forall j :: c.error.at < j < |states| ==> r[j] == states[j])
  {
    CollectStopsAtFirstFailure(states, ifaces, settings);
  }

  /** Lines 175-215 for one node object. */
  method AddNodeHosts(node: Node, iface: Option<string>, at: nat, settings: OsdSettings, acc: HostLists)
    returns (r: Result<HostLists, InventoryError>)
    modifies node
    ensures r == NodeStep(acc, old(node.State()), iface, at, settings)
    ensures node.State() == if iface.None? then old(node.State()) else old(node.State()).(ethInterface := iface)
  {
    if iface.None? {
      return Failure(NoInterface(at));
    }
    ghost var n := node.State();
    node.SetEthInterface(iface.value);
    var ethInterface := iface.value;
    var monInterface := " monitor_interface=" + ethInterface + " ";
    var monHosts, mgrHosts, osdHosts := acc.mons, acc.mgrs, acc.osds;
    var mdsHosts, rgwHosts, clientHosts := acc.mdss, acc.rgws, acc.clients;
    var numOsds, numMons, numMgrs := acc.numOsds, acc.numMons, acc.numMgrs;
    if Mon in node.roles {
      monHosts := monHosts + [node.shortname + " monitor_interface=" + ethInterface];
      numMons := numMons + 1;
    }
    assert HostLists(monHosts, mgrHosts, osdHosts, mdsHosts, rgwHosts, clientHosts, numOsds, numMons, numMgrs)
           == MonStage(acc, n, ethInterface);
    if Mgr in node.roles {
      mgrHosts := mgrHosts + [node.shortname + " monitor_interface=" + ethInterface];
      numMgrs := numMgrs + 1;
    }
    ghost var a2 := MgrStage(MonStage(acc, n, ethInterface), n, ethInterface);
    assert HostLists(monHosts, mgrHosts, osdHosts, mdsHosts, rgwHosts, clientHosts, numOsds, numMons, numMgrs) == a2;
    ghost var a3 := a2;
    if Osd in node.roles {
      var devices := AllocatedCount(node.volumes);
      var generated := EnumerateDevices(devices);
      if generated.Failure? {
        assert OsdStep(a2, n, ethInterface, at, settings) == Failure(DeviceFailure(at, generated.error));
        return Failure(DeviceFailure(at, generated.error));
      }
      var reservedDevs: set<string> := {};
      if settings.osdScenario == Some(NonCollocated) {
        if settings.dedicatedDevices.None? {
          assert OsdStep(a2, n, ethInterface, at, settings) == Failure(DeviceFailure(at, NoDedicatedDevices));
          return Failure(DeviceFailure(at, NoDedicatedDevices));
        }
        reservedDevs := set d | d in settings.dedicatedDevices.value;
      }
      var devs := RemoveReserved(generated.value, reservedDevs);
      assert DevicesFor(devices, settings) == Success(devs);
      numOsds := numOsds + |devs|;
      var osdHost := node.shortname + monInterface
                     + (if !settings.autoDiscovery then " devices='" + JsonList(devs) + "'" else "");
      osdHosts := osdHosts + [osdHost];
      a3 := OsdStep(a2, n, ethInterface, at, settings).value;
    }
    assert HostLists(monHosts, mgrHosts, osdHosts, mdsHosts, rgwHosts, clientHosts, numOsds, numMons, numMgrs) == a3;
    if Mds in node.roles {
      mdsHosts := mdsHosts + [node.shortname + " monitor_interface=" + ethInterface];
    }
    assert HostLists(monHosts, mgrHosts, osdHosts, mdsHosts, rgwHosts, clientHosts, numOsds, numMons, numMgrs)
           == MdsStage(a3, n, ethInterface);
    if Rgw in node.roles {
      rgwHosts := rgwHosts + [node.shortname + " radosgw_interface=" + ethInterface];
    }
    assert HostLists(monHosts, mgrHosts, osdHosts, mdsHosts, rgwHosts, clientHosts, numOsds, numMons, numMgrs)
           == RgwStage(MdsStage(a3, n, ethInterface), n, ethInterface);
    if Client in node.roles {
      clientHosts := clientHosts + [node.shortname + " client_interface=" + ethInterface];
    }
    r := Success(HostLists(monHosts, mgrHosts, osdHosts, mdsHosts, rgwHosts, clientHosts, numOsds, numMons, numMgrs));
    assert r == Success(ClientStage(RgwStage(MdsStage(a3, n, ethInterface), n, ethInterface), n, ethInterface));
  }

  /** Lines 165-215: the node loop on the node objects. Each node visited gets
      its interface set; the loop stops at the first node that fails. */
  method CollectHosts(nodes: seq<Node>, ifaces: seq<Option<string>>, settings: OsdSettings)
    returns (r: Result<HostLists, InventoryError>)
    requires Distinct(nodes) && |ifaces| == |nodes|
    modifies set n | n in nodes
    ensures r == Collect(old(Snapshot(nodes)), ifaces, settings)
    ensures forall j :: 0 <= j < |nodes| ==>
              nodes[j].State() == old(nodes[j].State()).(ethInterface :=
                if j < Touched(r, |nodes|) then ifaces[j] else old(nodes[j].ethInterface))
  {
    ghost var start := Snapshot(nodes);
    var acc := NoHosts;
    for j := 0 to |nodes|
      invariant Collect(start[..j], ifaces[..j], settings) == Success(acc)
      invariant forall t :: 0 <= t < |nodes| ==>
                  nodes[t].State() == start[t].(ethInterface := if t < j then ifaces[t] else start[t].ethInterface)
    {
      assert start[..j + 1][..j] == start[..j] && ifaces[..j + 1][..j] == ifaces[..j];
      var step := AddNodeHosts(nodes[j], ifaces[j], j, settings, acc);
      forall t | 0 <= t < |nodes| && t != j
        ensures nodes[t].State() == start[t].(ethInterface := if t < j then ifaces[t] else start[t].ethInterface)
      {
        assert nodes[t] != nodes[j];
      }
      if step.Failure? {
        CollectPrefixFailure(start, ifaces, settings, j + 1);
        return step;
      }
      acc := step.value;
    }
    assert start[..|nodes|] == start && ifaces[..|nodes|] == ifaces;
    r := Success(acc);
  }

  // ---- the hosts file ----

  datatype Section = Section(name: string, lines: seq<string>)

  /** The sections in the order the hosts file lists them. */
  function Sections(h: HostLists): seq<Section>
  {
    [Section("mons", h.mons), Section("mgrs", h.mgrs), Section("osds", h.osds),
     Section("mdss", h.mdss), Section("rgws", h.rgws), Section("clients", h.clients)]
  }

  function Header(sec: Section): string
  {
    "[" + sec.name + "]"
  }

  /** `'[name]\n' + '\n'.join(lines)`, closed by a newline. */
  function SectionText(sec: Section): string
  {
    Header(sec) + "\n" + Join(sec.lines, "\n") + "\n"
  }

  /** A section's text, or nothing when it has no lines. */
  function Part(sec: Section): string
  {
    if sec.lines == [] then "" else SectionText(sec)
  }

  /** The sections in order, each written only when it has lines. */
  function Render(secs: seq<Section>): string
  {
    if secs == [] then "" else Part(secs[0]) + Render(secs[1..])
  }

  /** Nothing is written exactly when no section has lines. */
  lemma {:induction false} RenderEmpty(secs: seq<Section>)
    ensures Render(secs) == "" <==> forall i :: 0 <= i < |secs| ==> secs[i].lines == []
  {
    if secs != [] {
      RenderEmpty(secs[1..]);
      assert forall i :: 1 <= i < |secs| ==> secs[i] == secs[1..][i - 1];
    }
  }

  /** Lines 217-235: the hosts file of the six host lists. It is empty
      exactly when every list is. */
  function HostsFile(h: HostLists): (r: string)
    ensures r == "" <==> h.mons == [] && h.mgrs == [] && h.osds == [] && h.mdss == [] && h.rgws == [] && h.clients == []
  {
    var secs := Sections(h);
    assert secs[0].lines == h.mons && secs[1].lines == h.mgrs && secs[2].lines == h.osds;
    assert secs[3].lines == h.mdss && secs[4].lines == h.rgws && secs[5].lines == h.clients;
    RenderEmpty(secs);
    Render(secs)
  }

  /** The reference reading of a hosts file: its lines, a header line before
      the host lines of every non-empty section. */
  function FileLines(secs: seq<Section>): seq<string>
  {
    if secs == [] then []
    else (if secs[0].lines == [] then [] else [Header(secs[0])] + secs[0].lines) + FileLines(secs[1..])
  }

  /** The names of the sections that appear, in order. */
  function PresentNames(secs: seq<Section>): seq<string>
  {
    if secs == [] then []
    else (if secs[0].lines == [] then [] else [secs[0].name]) + PresentNames(secs[1..])
  }

  /** The rendered file is, line by line, a header for each non-empty section
      followed by that section's host lines. */
  lemma {:induction false} RenderLines(secs: seq<Section>)
    ensures Render(secs) == Unlines(FileLines(secs))
  {
    if secs != [] {
      RenderLines(secs[1..]);
      var first := if secs[0].lines == [] then [] else [Header(secs[0])] + secs[0].lines;
      UnlinesAppend(first, FileLines(secs[1..]));
      if secs[0].lines != [] {
        JoinThenNewline(secs[0].lines);
        assert ([Header(secs[0])] + secs[0].lines)[1..] == secs[0].lines;
        assert Unlines(first) == Header(secs[0]) + "\n" + Unlines(secs[0].lines);
      }
    }
  }

  /** Rendering two runs of sections one after the other. */
  lemma {:induction false} RenderAppend(a: seq<Section>, b: seq<Section>)
    ensures Render(a + b) == Render(a) + Render(b)
  {
    if a == [] {
      assert a + b == b;
    } else {
      assert (a + b)[1..] == a[1..] + b;
      RenderAppend(a[1..], b);
    }
  }

  /** One more section adds its part at the end. */
  lemma RenderPrefix(secs: seq<Section>, k: nat)
    requires k < |secs|
    ensures Render(secs[..k + 1]) == Render(secs[..k]) + Part(secs[k])
  {
    assert secs[..k + 1] == secs[..k] + [secs[k]];
    assert [secs[k]][1..] == [];
    RenderAppend(secs[..k], [secs[k]]);
  }

  /** A hosts file is the parts of its six sections, in order. */
  lemma HostsFileParts(h: HostLists)
    ensures HostsFile(h)
            == Part(Section("mons", h.mons)) + Part(Section("mgrs", h.mgrs)) + Part(Section("osds", h.osds))
               + Part(Section("mdss", h.mdss)) + Part(Section("rgws", h.rgws)) + Part(Section("clients", h.clients))
  {
    var secs := Sections(h);
    assert secs[..0] == [];
    RenderPrefix(secs, 0);
    assert Render(secs[..1]) == Part(secs[0]);
    RenderPrefix(secs, 1);
    RenderPrefix(secs, 2);
    RenderPrefix(secs, 3);
    RenderPrefix(secs, 4);
    RenderPrefix(secs, 5);
    assert secs[..6] == secs;
  }

  /** One `hosts_file += '[name]\n' + '\n'.join(lines) + '\n'` appends that
      section's part; a section without lines adds nothing. */
  lemma AppendPart(before: string, name: string, header: string, lines: seq<string>)
    requires header == "[" + name + "]\n"
    ensures lines != [] ==> before + (header + Join(lines, "\n")) + "\n" == before + Part(Section(name, lines))
    ensures lines == [] ==> before == before + Part(Section(name, lines))
  {
    if lines != [] {
      assert before + (header + Join(lines, "\n")) + "\n" == before + (header + Join(lines, "\n") + "\n");
    }
  }

  /** The present names of two runs of sections one after the other. */
  lemma {:induction false} PresentNamesAppend(a: seq<Section>, b: seq<Section>)
    ensures PresentNames(a + b) == PresentNames(a) + PresentNames(b)
  {
    if a == [] {
      assert a + b == b;
    } else {
      assert (a + b)[1..] == a[1..] + b;
      PresentNamesAppend(a[1..], b);
    }
  }

  /** One more section adds its name at the end when it has lines. */
  lemma PresentPrefix(secs: seq<Section>, k: nat)
    requires k < |secs|
    ensures PresentNames(secs[..k + 1])
            == PresentNames(secs[..k]) + (if secs[k].lines == [] then [] else [secs[k].name])
  {
    assert secs[..k + 1] == secs[..k] + [secs[k]];
    assert [secs[k]][1..] == [];
    PresentNamesAppend(secs[..k], [secs[k]]);
  }

  /** Lines 217-235: the `hosts_file +=` chain. */
  method RenderHostsFile(h: HostLists) returns (hostsFile: string)
    ensures hostsFile == HostsFile(h)
  {
    hostsFile := "";
    AppendPart(hostsFile, "mons", "[mons]\n", h.mons);
    if h.mons != [] {
      var mon := "[mons]\n" + Join(h.mons, "\n");
      hostsFile := hostsFile + mon + "\n";
    }
    assert hostsFile == Part(Section("mons", h.mons));
    AppendPart(hostsFile, "mgrs", "[mgrs]\n", h.mgrs);
    if h.mgrs != [] {
      var mgr := "[mgrs]\n" + Join(h.mgrs, "\n");
      hostsFile := hostsFile + mgr + "\n";
    }
    assert hostsFile == Part(Section("mons", h.mons)) + Part(Section("mgrs", h.mgrs));
    AppendPart(hostsFile, "osds", "[osds]\n", h.osds);
    if h.osds != [] {
      var osd := "[osds]\n" + Join(h.osds, "\n");
      hostsFile := hostsFile + osd + "\n";
    }
    assert hostsFile == Part(Section("mons", h.mons)) + Part(Section("mgrs", h.mgrs)) + Part(Section("osds", h.osds));
    AppendPart(hostsFile, "mdss", "[mdss]\n", h.mdss);
    if h.mdss != [] {
      var mds := "[mdss]\n" + Join(h.mdss, "\n");
      hostsFile := hostsFile + mds + "\n";
    }
    assert hostsFile == Part(Section("mons", h.mons)) + Part(Section("mgrs", h.mgrs)) + Part(Section("osds", h.osds)) + Part(Section("mdss", h.mdss));
    AppendPart(hostsFile, "rgws", "[rgws]\n", h.rgws);
    if h.rgws != [] {
      var rgw := "[rgws]\n" + Join(h.rgws, "\n");
      hostsFile := hostsFile + rgw + "\n";
    }
    assert hostsFile == Part(Section("mons", h.mons)) + Part(Section("mgrs", h.mgrs)) + Part(Section("osds", h.osds)) + Part(Section("mdss", h.mdss)) + Part(Section("rgws", h.rgws));
    AppendPart(hostsFile, "clients", "[clients]\n", h.clients);
    if h.clients != [] {
      var client := "[clients]\n" + Join(h.clients, "\n");
      hostsFile := hostsFile + client + "\n";
    }
    assert hostsFile == Part(Section("mons", h.mons)) + Part(Section("mgrs", h.mgrs)) + Part(Section("osds", h.osds)) + Part(Section("mdss", h.mdss)) + Part(Section("rgws", h.rgws)) + Part(Section("clients", h.clients));
    HostsFileParts(h);
  }

  /** The name of a role's section when the role has nodes. */
  function SectionIf(states: seq<NodeState>, role: string, name: string): seq<string>
  {
    if CountRole(states, role) > 0 then [name] else []
  }

  /** After a successful loop, a section appears exactly when its role has at
      least one node, and the sections come in the order mons, mgrs, osds,
      mdss, rgws, clients; the file is those sections' headers and lines. */
  lemma InventorySections(states: seq<NodeState>, ifaces: seq<Option<string>>, settings: OsdSettings, h: HostLists)
    requires |ifaces| == |states|
    requires Collect(states, ifaces, settings) == Success(h)
    ensures PresentNames(Sections(h))
            == SectionIf(states, Mon, "mons") + SectionIf(states, Mgr, "mgrs") + SectionIf(states, Osd, "osds")
               + SectionIf(states, Mds, "mdss") + SectionIf(states, Rgw, "rgws") + SectionIf(states, Client, "clients")
    ensures HostsFile(h) == Unlines(FileLines(Sections(h)))
  {
    CollectCounts(states, ifaces, settings, h);
    RenderLines(Sections(h));
    PresentSections(h);
  }

  /** The sections of a hosts file that appear: those with lines, in order. */
  lemma PresentSections(h: HostLists)
    ensures PresentNames(Sections(h))
            == (if h.mons == [] then [] else ["mons"]) + (if h.mgrs == [] then [] else ["mgrs"])
               + (if h.osds == [] then [] else ["osds"]) + (if h.mdss == [] then [] else ["mdss"])
               + (if h.rgws == [] then [] else ["rgws"]) + (if h.clients == [] then [] else ["clients"])
  {
    var secs := Sections(h);
    assert secs[..0] == [];
    PresentPrefix(secs, 0);
    assert PresentNames(secs[..1]) == if h.mons == [] then [] else ["mons"];
    PresentPrefix(secs, 1);
    PresentPrefix(secs, 2);
    PresentPrefix(secs, 3);
    PresentPrefix(secs, 4);
    PresentPrefix(secs, 5);
    assert secs[..6] == secs;
  }

  /** Lines 165-235: the node loop, then the hosts file. A node without a
      usable interface stops it before any file text exists. */
  method BuildInventory(nodes: seq<Node>, ifaces: seq<Option<string>>, settings: OsdSettings)
    returns (r: Result<InventoryText, InventoryError>)
    requires Distinct(nodes) && |ifaces| == |nodes|
    modifies set n | n in nodes
    ensures match Collect(old(Snapshot(nodes)), ifaces, settings)
            case Failure(e) => r == Failure(e)
            case Success(h) => r == Success(InventoryText(HostsFile(h), h.numOsds, h.numMons))
    ensures Snapshot(nodes) == Interfaced(old(Snapshot(nodes)), ifaces, settings)
  {
    ghost var start := Snapshot(nodes);
    var hosts := CollectHosts(nodes, ifaces, settings);
    assert Snapshot(nodes) == SetInterfaces(start, ifaces, Touched(hosts, |nodes|));
    if hosts.Failure? {
      return Failure(hosts.error);
    }
    var h := hosts.value;
    var text := RenderHostsFile(h);
    r := Success(InventoryText(text, h.numOsds, h.numMons));
  }
}
