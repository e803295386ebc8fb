/** Lines 101-105: on a 2.x build there is no manager daemon, so manager
    nodes leave the working node list before anything else looks at it. */
module BuildFilter {
  import opened Wrappers
  import opened Cluster
  import opened Text

  /** `config.get('build', '3')`: without a build entry the run is not a
      2.x run. */
  function BuildVersion(configured: Option<string>): (v: string)
    ensures StartsWithChar(v, '2') <==> configured.Some? && StartsWithChar(configured.value, '2')
  {
    match configured
    case Some(b) => b
    case None => "3"
  }

  /** `[node for node in ceph_nodes if node.role != 'mgr']`. */
  function WithoutMgrs(nodes: seq<Node>): (kept: seq<Node>)
    reads set n | n in nodes
    ensures |kept| <= |nodes|
    ensures forall j :: 0 <= j < |kept| ==> kept[j] in nodes
    ensures forall j :: 0 <= j < |kept| ==> Mgr !in kept[j].roles
  {
    if nodes == [] then []
    else
      var last := nodes[|nodes| - 1];
      WithoutMgrs(nodes[..|nodes| - 1]) + (if Mgr in last.roles then [] else [last])
  }

  /** The working node list for a build: drawn from the node list, and
      without managers on a 2.x build. */
  function WorkingNodes(build: string, nodes: seq<Node>): (working: seq<Node>)
    reads set n | n in nodes
    ensures |working| <= |nodes|
    ensures forall j :: 0 <= j < |working| ==> working[j] in nodes
    ensures StartsWithChar(build, '2') ==> forall j :: 0 <= j < |working| ==> Mgr !in working[j].roles
  {
    if StartsWithChar(build, '2') then WithoutMgrs(nodes) else nodes
  }

  /** The same filter on node states. */
  function WithoutMgrStates(states: seq<NodeState>): seq<NodeState>
  {
    if states == [] then []
    else
      var last := states[|states| - 1];
      WithoutMgrStates(states[..|states| - 1]) + (if Mgr in last.roles then [] else [last])
  }

  /** The working node states for a build. */
  function WorkingStates(build: string, states: seq<NodeState>): seq<NodeState>
  {
    if StartsWithChar(build, '2') then WithoutMgrStates(states) else states
  }

  /** Filtering the node objects and then reading them is reading them and
      then filtering the states. */
  lemma {:induction false} SnapshotWithoutMgrs(nodes: seq<Node>)
    ensures Snapshot(WithoutMgrs(nodes)) == WithoutMgrStates(Snapshot(nodes))
  {
    if nodes != [] {
      var prefix := nodes[..|nodes| - 1];
      var last := nodes[|nodes| - 1];
      SnapshotWithoutMgrs(prefix);
      assert Snapshot(nodes)[..|nodes| - 1] == Snapshot(prefix);
      var kept := WithoutMgrs(prefix);
      var tail := if Mgr in last.roles then [] else [last];
      assert Snapshot(kept + tail) == Snapshot(kept) + Snapshot(tail);
    }
  }

  /** On states the filter keeps exactly the non-manager states, in order,
      so no manager is counted afterwards. */
  lemma {:induction false} WithoutMgrStatesSpec(states: seq<NodeState>)
    ensures forall st :: st in WithoutMgrStates(states) <==> st in states && Mgr !in st.roles
    ensures CountRole(WithoutMgrStates(states), Mgr) == 0
    ensures |WithoutMgrStates(states)| == |states| - CountRole(states, Mgr)
  {
    if states != [] {
      var prefix := states[..|states| - 1];
      var last := states[|states| - 1];
      WithoutMgrStatesSpec(prefix);
      assert states == prefix + [last];
      var kept := WithoutMgrStates(prefix);
      if Mgr !in last.roles {
        var grown := kept + [last];
        assert grown[..|grown| - 1] == kept;
      } else {
        assert kept + [] == kept;
      }
    }
  }

  /** The filter drops exactly the manager nodes. */
  lemma {:induction false} WithoutMgrsMembers(nodes: seq<Node>)
    ensures forall n :: n in WithoutMgrs(nodes) <==> n in nodes && Mgr !in n.roles
  {
    if nodes != [] {
      var prefix := nodes[..|nodes| - 1];
      WithoutMgrsMembers(prefix);
      assert nodes == prefix + [nodes[|nodes| - 1]];
    }
  }

  /** The filter keeps the order of the nodes it keeps. */
  lemma {:induction false} WithoutMgrsAppend(a: seq<Node>, b: seq<Node>)
    ensures WithoutMgrs(a + b) == WithoutMgrs(a) + WithoutMgrs(b)
    decreases |b|
  {
    if b == [] {
      assert a + b == a;
    } else {
      var prefix := b[..|b| - 1];
      assert (a + b)[..|a + b| - 1] == a + prefix;
      WithoutMgrsAppend(a, prefix);
    }
  }

  /** Dropping nodes never makes a node appear twice. */
  lemma {:induction false} WithoutMgrsDistinct(nodes: seq<Node>)
    requires Distinct(nodes)
    ensures Distinct(WithoutMgrs(nodes))
  {
    if nodes != [] {
      var prefix := nodes[..|nodes| - 1];
      var last := nodes[|nodes| - 1];
      WithoutMgrsDistinct(prefix);
      WithoutMgrsMembers(prefix);
      assert last !in prefix;
      var kept := WithoutMgrs(prefix);
      if Mgr !in last.roles {
        forall i, j | 0 <= i < j < |kept| + 1
          ensures (kept + [last])[i] != (kept + [last])[j]
        {
          if j == |kept| {
            assert kept[i] in kept;
          }
        }
      }
    }
  }

  /** On a 2.x build no manager is left and every other node stays, in order;
      on any other build the list is untouched. */
  lemma WorkingNodesSpec(build: string, nodes: seq<Node>)
    ensures StartsWithChar(build, '2') ==>
              && (forall n :: n in WorkingNodes(build, nodes) ==> Mgr !in n.roles)
              && (forall n :: n in nodes && Mgr !in n.roles ==> n in WorkingNodes(build, nodes))
              && CountRole(Snapshot(WorkingNodes(build, nodes)), Mgr) == 0
    ensures !StartsWithChar(build, '2') ==> WorkingNodes(build, nodes) == nodes
    ensures Distinct(nodes) ==> Distinct(WorkingNodes(build, nodes))
  {
    WithoutMgrsMembers(nodes);
    if Distinct(nodes) {
      WithoutMgrsDistinct(nodes);
    }
    if StartsWithChar(build, '2') {
      var kept := WithoutMgrs(nodes);
      forall j | 0 <= j < |kept|
        ensures Mgr !in Snapshot(kept)[j].roles
      {
        assert kept[j] in kept;
        assert Snapshot(kept)[j] == kept[j].State();
      }
      NoRoleNoCount(Snapshot(kept), Mgr);
    }
  }

  /** The working node list keeps distinct nodes distinct, and reads as the
      working states of the node states. */
  lemma WorkingNodesSnapshot(build: string, nodes: seq<Node>)
    ensures Snapshot(WorkingNodes(build, nodes)) == WorkingStates(build, Snapshot(nodes))
    ensures Distinct(nodes) ==> Distinct(WorkingNodes(build, nodes))
  {
    SnapshotWithoutMgrs(nodes);
    WithoutMgrsMembers(nodes);
    if Distinct(nodes) {
      WithoutMgrsDistinct(nodes);
    }
  }

  /** A role no node holds is counted zero times. */
  lemma {:induction false} NoRoleNoCount(states: seq<NodeState>, role: string)
    requires forall j :: 0 <= j < |states| ==> role !in states[j].roles
    ensures CountRole(states, role) == 0
  {
    if states != [] {
      NoRoleNoCount(states[..|states| - 1], role);
    }
  }
}
