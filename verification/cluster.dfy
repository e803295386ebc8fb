/** The test nodes the driver works on: their short names, role containers,
    storage volumes and chosen network interface. */
module Cluster {
  import opened Wrappers
  import opened Text

  // Role names as the driver compares them.
  const Mon := "mon"
  const Mgr := "mgr"
  const Osd := "osd"
  const Mds := "mds"
  const Rgw := "rgw"
  const Client := "client"

  /** NodeVolume.status: a volume is free until an OSD daemon claims it. */
  datatype VolumeStatus = Free | Allocated

  /** The value of a node at one moment; specifications are stated over these. */
  datatype NodeState = NodeState(
    shortname: string,
    roles: set<string>,
    volumes: seq<VolumeStatus>,
    ethInterface: Option<string>)

  /** A test machine. The role container is the set of role names, so
      `node.role == 'mon'` asks whether "mon" is one of them. */
  class Node {
    const shortname: string
    var roles: set<string>
    var volumes: seq<VolumeStatus>
    var ethInterface: Option<string>

    constructor (shortname: string, roles: set<string>, volumes: seq<VolumeStatus>)
      ensures State() == NodeState(shortname, roles, volumes, None)
    {
      this.shortname := shortname;
      this.roles := roles;
      this.volumes := volumes;
      this.ethInterface := None;
    }

    function State(): NodeState
      reads this
    {
      NodeState(shortname, roles, volumes, ethInterface)
    }

    /** `node.set_eth_interface(iface)`. */
    method SetEthInterface(iface: string)
      modifies this
      ensures State() == old(State()).(ethInterface := Some(iface))
    {
      ethInterface := Some(iface);
    }

    /** `node.role.update_role(daemons)`: the listed daemons join the role set. */
    method UpdateRole(daemons: seq<string>)
      modifies this
      ensures State() == old(State()).(roles := old(roles) + set d | d in daemons)
      ensures forall d :: d in daemons ==> d in roles
    {
      roles := roles + set d | d in daemons;
    }
  }

  /** The states of a list of nodes, position by position. */
  function Snapshot(nodes: seq<Node>): (s: seq<NodeState>)
    reads set n | n in nodes
    ensures |s| == |nodes|
    ensures forall j :: 0 <= j < |nodes| ==> s[j] == nodes[j].State()
  {
    seq(|nodes|, j requires 0 <= j < |nodes| reads set n | n in nodes => nodes[j].State())
  }

  function ShortNames(states: seq<NodeState>): (names: seq<string>)
    ensures |names| == |states|
    ensures forall j :: 0 <= j < |states| ==> names[j] == states[j].shortname
  {
    seq(|states|, j requires 0 <= j < |states| => states[j].shortname)
  }

  /** The number of nodes whose role set holds `role`. */
  function CountRole(states: seq<NodeState>, role: string): nat
  {
    if states == [] then 0
    else CountRole(states[..|states| - 1], role) + (if role in states[|states| - 1].roles then 1 else 0)
  }

  // ---- volumes ----

  predicate StrictlyIncreasing(xs: seq<nat>)
  {
    forall i, j :: 0 <= i < j < |xs| ==> xs[i] < xs[j]
  }

  /** The positions of the volumes with status `st`, in list order. */
  function IndicesWith(vs: seq<VolumeStatus>, st: VolumeStatus): (r: seq<nat>)
    ensures StrictlyIncreasing(r)
    ensures forall i :: i in r ==> i < |vs| && vs[i] == st
    ensures forall i :: 0 <= i < |vs| && vs[i] == st ==> i in r
    ensures |r| <= |vs|
  {
    if vs == [] then []
    else
      var earlier := IndicesWith(vs[..|vs| - 1], st);
      assert forall k :: 0 <= k < |earlier| ==> earlier[k] < |vs| - 1 by {
        forall k | 0 <= k < |earlier| ensures earlier[k] < |vs| - 1 {
          assert earlier[k] in earlier;
        }
      }
      earlier + (if vs[|vs| - 1] == st then [|vs| - 1] else [])
  }

  /** `node.get_free_volumes()`: the free volumes, in list order; with the
      allocated ones they are all of the node's volumes. */
  function FreeIndices(vs: seq<VolumeStatus>): (r: seq<nat>)
    ensures StrictlyIncreasing(r)
    ensures |r| + AllocatedCount(vs) == |vs|
  {
    StatusCounts(vs);
    IndicesWith(vs, Free)
  }

  /** `len(node.get_allocated_volumes())`: zero exactly when no volume is
      allocated. */
  function AllocatedCount(vs: seq<VolumeStatus>): (c: nat)
    ensures c <= |vs|
    ensures c == 0 <==> Allocated !in vs
  {
    var r := IndicesWith(vs, Allocated);
    assert r != [] ==> r[0] in r;
    |r|
  }

  /** Two increasing lists with the same elements are the same list. */
  lemma {:induction false} IncreasingUnique(a: seq<nat>, b: seq<nat>)
    requires StrictlyIncreasing(a) && StrictlyIncreasing(b)
    requires forall x :: x in a <==> x in b
    ensures a == b
  {
    assert a != [] ==> a[0] in b;
    assert b != [] ==> b[0] in a;
    if a != [] {
      assert a[0] == b[0] by {
        assert a[0] in b;
        assert b[0] in a;
      }
      forall x
        ensures x in a[1..] <==> x in b[1..]
      {
        if x in a[1..] {
          assert x in b;
          assert x != b[0];
        }
        if x in b[1..] {
          assert x in a;
          assert x != a[0];
        }
      }
      IncreasingUnique(a[1..], b[1..]);
      assert a == [a[0]] + a[1..];
      assert b == [b[0]] + b[1..];
    }
  }

  /** Every volume is either free or allocated. */
  lemma {:induction false} StatusCounts(vs: seq<VolumeStatus>)
    ensures |IndicesWith(vs, Free)| + |IndicesWith(vs, Allocated)| == |vs|
  {
    if vs != [] {
      StatusCounts(vs[..|vs| - 1]);
    }
  }
}
