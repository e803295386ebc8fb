/** The `add` section of the test configuration: each request names a node
    by a pattern over short names and lists the daemons it should gain.
    OSD daemons claim free volumes, taken from the end of the node's free list. */
module AddNodes {
  import opened Wrappers
  import opened Cluster
  import opened Text

  /** One entry of `config['add']`: the `node-name` pattern and the `demon` list. */
  datatype AddRequest = AddRequest(pattern: string, daemons: seq<string>)

  /** The RuntimeErrors the add block raises. */
  datatype AddError =
    | MultipleMatches(pattern: string)
    | NoMatch(pattern: string)
    | InsufficientVolumes(required: nat, found: nat)

  /** The state reached by a run of add requests, and the error that stopped it, if any. */
  datatype AddOutcome = AddOutcome(states: seq<NodeState>, err: Option<AddError>)

  /** `[demon for demon in demon_list if demon == 'osd']`. */
  function OsdsRequired(daemons: seq<string>): (osds: seq<string>)
    ensures forall d :: d in osds ==> d == Osd
    ensures |osds| == multiset(daemons)[Osd]
  {
    if daemons == [] then []
    else
      var last := daemons[|daemons| - 1];
      assert daemons == daemons[..|daemons| - 1] + [last];
      OsdsRequired(daemons[..|daemons| - 1]) + (if last == Osd then [last] else [])
  }

  /** `filter(matcher.match, short_name_list)`, read as a list. The regular
      expression engine is the parameter `matches(pattern, name)`. */
  function MatchedNames(names: seq<string>, pattern: string, matches: (string, string) -> bool): (m: seq<string>)
    ensures forall x :: x in m ==> x in names && matches(pattern, x)
    ensures forall j :: 0 <= j < |names| && matches(pattern, names[j]) ==> names[j] in m
    ensures |m| <= |names|
  {
    if names == [] then []
    else
      var last := names[|names| - 1];
      MatchedNames(names[..|names| - 1], pattern, matches) + (if matches(pattern, last) then [last] else [])
  }

  /** The position of the last name equal to `x`, or -1: the loop that keeps
      the last node whose short name equals the match. */
  function LastIndexOf(names: seq<string>, x: string): (r: int)
    ensures -1 <= r < |names|
    ensures r == -1 <==> x !in names
    ensures 0 <= r ==> names[r] == x && forall k :: r < k < |names| ==> names[k] != x
  {
    if names == [] then -1
    else if names[|names| - 1] == x then |names| - 1
    else LastIndexOf(names[..|names| - 1], x)
  }

  /** Two different positions whose names match give at least two matched names. */
  lemma {:induction false} TwoMatchesCounted(names: seq<string>, pattern: string, matches: (string, string) -> bool, i: nat, j: nat)
    requires i < j < |names|
    requires matches(pattern, names[i]) && matches(pattern, names[j])
    ensures |MatchedNames(names, pattern, matches)| >= 2
  {
    var prefix := names[..|names| - 1];
    if j == |names| - 1 {
      assert prefix[i] == names[i];
      assert names[i] in MatchedNames(prefix, pattern, matches);
    } else {
      assert prefix[i] == names[i] && prefix[j] == names[j];
      TwoMatchesCounted(prefix, pattern, matches, i, j);
    }
  }

  /** At least two matched names come from two different matching positions. */
  lemma {:induction false} MatchedTwiceWitness(names: seq<string>, pattern: string, matches: (string, string) -> bool)
    returns (i: nat, j: nat)
    requires |MatchedNames(names, pattern, matches)| >= 2
    ensures i < j < |names|
    ensures matches(pattern, names[i]) && matches(pattern, names[j])
  {
    var prefix := names[..|names| - 1];
    var earlier := MatchedNames(prefix, pattern, matches);
    var last := names[|names| - 1];
    if matches(pattern, last) && |earlier| >= 1 {
      assert earlier[0] in earlier;
      var k :| 0 <= k < |prefix| && prefix[k] == earlier[0];
      i, j := k, |names| - 1;
    } else {
      i, j := MatchedTwiceWitness(prefix, pattern, matches);
    }
  }

  /** Lines 69-79: the node a request names, by position in the node list. */
  function Resolve(states: seq<NodeState>, pattern: string, matches: (string, string) -> bool): (r: Result<nat, AddError>)
    ensures r.Success? ==> r.value < |states|
    ensures r.Failure? ==> r.error == MultipleMatches(pattern) || r.error == NoMatch(pattern)
  {
    var names := ShortNames(states);
    var m := MatchedNames(names, pattern, matches);
    if |m| > 1 then Failure(MultipleMatches(pattern))
    else if |m| == 0 then Failure(NoMatch(pattern))
    else
      assert m[0] in m;
      Success(LastIndexOf(names, m[0]) as nat)
  }

  /** The pattern matches the short name at `i` and at no other position. */
  ghost predicate UniqueMatch(states: seq<NodeState>, pattern: string, matches: (string, string) -> bool, i: int)
  {
    && 0 <= i < |states|
    && matches(pattern, states[i].shortname)
    && forall j :: 0 <= j < |states| && j != i ==> !matches(pattern, states[j].shortname)
  }

  /** Several matched names exactly when two different positions match. */
  lemma SeveralMatches(states: seq<NodeState>, pattern: string, matches: (string, string) -> bool)
    ensures |MatchedNames(ShortNames(states), pattern, matches)| >= 2
        <==> exists j, k :: 0 <= j < k < |states| && matches(pattern, states[j].shortname) && matches(pattern, states[k].shortname)
  {
    var names := ShortNames(states);
    if |MatchedNames(names, pattern, matches)| >= 2 {
      var j, k := MatchedTwiceWitness(names, pattern, matches);
      assert matches(pattern, states[j].shortname) && matches(pattern, states[k].shortname);
    }
    if exists j, k :: 0 <= j < k < |states| && matches(pattern, states[j].shortname) && matches(pattern, states[k].shortname) {
      var j, k :| 0 <= j < k < |states| && matches(pattern, states[j].shortname) && matches(pattern, states[k].shortname);
      TwoMatchesCounted(names, pattern, matches, j, k);
    }
  }

  /** A single matched name sits at exactly one matching position: the one
      the selection loop keeps. */
  lemma SingleMatch(states: seq<NodeState>, pattern: string, matches: (string, string) -> bool)
    requires |MatchedNames(ShortNames(states), pattern, matches)| == 1
    ensures UniqueMatch(states, pattern, matches,
                        LastIndexOf(ShortNames(states), MatchedNames(ShortNames(states), pattern, matches)[0]))
  {
    var names := ShortNames(states);
    var m := MatchedNames(names, pattern, matches);
    assert m[0] in m;
    var r := LastIndexOf(names, m[0]);
    forall j | 0 <= j < |states| && j != r
      ensures !matches(pattern, states[j].shortname)
    {
      assert matches(pattern, names[j]) ==> names[j] in m;
      if matches(pattern, states[j].shortname) {
        if j < r {
          TwoMatchesCounted(names, pattern, matches, j, r);
        } else {
          assert false;
        }
      }
    }
  }

  /** A request selects a node exactly when its pattern matches one short name;
      no match and several matches are the two errors. */
  lemma ResolveExactlyOne(states: seq<NodeState>, pattern: string, matches: (string, string) -> bool, i: int)
    ensures Resolve(states, pattern, matches) == Success(i) <==> UniqueMatch(states, pattern, matches, i)
    ensures Resolve(states, pattern, matches) == Failure(NoMatch(pattern))
        <==> forall j :: 0 <= j < |states| ==> !matches(pattern, states[j].shortname)
    ensures Resolve(states, pattern, matches) == Failure(MultipleMatches(pattern))
        <==> exists j, k :: 0 <= j < k < |states| && matches(pattern, states[j].shortname) && matches(pattern, states[k].shortname)
  {
    var names := ShortNames(states);
    var m := MatchedNames(names, pattern, matches);
    SeveralMatches(states, pattern, matches);
    if |m| == 1 {
      SingleMatch(states, pattern, matches);
    }
    if UniqueMatch(states, pattern, matches, i) {
      assert names[i] in m;
    }
  }

  /** Volumes marked allocated by popping `k` entries off the free list:
      the last `k` free volumes. */
  function AllocateLast(vs: seq<VolumeStatus>, k: nat): (r: seq<VolumeStatus>)
    requires k <= |FreeIndices(vs)|
    ensures |r| == |vs|
  {
    var f := FreeIndices(vs);
    seq(|vs|, j requires 0 <= j < |vs| => if j in f[|f| - k..] then Allocated else vs[j])
  }

  /** Allocating `k` volumes leaves the first free volumes free, in order,
      adds exactly `k` allocated volumes and never frees one. */
  lemma AllocateLastEffect(vs: seq<VolumeStatus>, k: nat)
    requires k <= |FreeIndices(vs)|
    ensures FreeIndices(AllocateLast(vs, k)) == FreeIndices(vs)[..|FreeIndices(vs)| - k]
    ensures AllocatedCount(AllocateLast(vs, k)) == AllocatedCount(vs) + k
    ensures forall j :: 0 <= j < |vs| && vs[j] == Allocated ==> AllocateLast(vs, k)[j] == Allocated
  {
    var f := FreeIndices(vs);
    var r := AllocateLast(vs, k);
    var kept := f[..|f| - k];
    forall x: nat
      ensures x in kept <==> x in FreeIndices(r)
    {
      if x in kept {
        var t :| 0 <= t < |f| - k && f[t] == x;
        assert x in f;
        assert r[x] == Free;
      }
      if x in FreeIndices(r) {
        assert x < |vs| && r[x] == Free;
        assert vs[x] == Free && x !in f[|f| - k..];
        assert x in f;
        var t :| 0 <= t < |f| && f[t] == x;
        assert kept[t] == x;
      }
    }
    IncreasingUnique(kept, FreeIndices(r));
  }

  /** Lines 65-88 for one request, over node states. */
  function AddStep(states: seq<NodeState>, req: AddRequest, matches: (string, string) -> bool): (r: Result<seq<NodeState>, AddError>)
    ensures r.Success? ==> |r.value| == |states|
  {
    var i :- Resolve(states, req.pattern, matches);
    var required := |OsdsRequired(req.daemons)|;
    var free := FreeIndices(states[i].volumes);
    if required > |free| then Failure(InsufficientVolumes(required, |free|))
    else
      var node := states[i];
      Success(states[i := node.(volumes := AllocateLast(node.volumes, required),
                                roles := node.roles + set d | d in req.daemons)])
  }

  /** One add request on a node list where the pattern picks node `i`: too many
      OSD daemons for the free volumes is an error; otherwise exactly that many
      volumes, from the end of the free list, become allocated, the node gains
      the daemons as roles and every other node is unchanged. */
  lemma AddStepSelected(states: seq<NodeState>, req: AddRequest, matches: (string, string) -> bool, i: int)
    requires UniqueMatch(states, req.pattern, matches, i)
    ensures var k := multiset(req.daemons)[Osd];
            var free := FreeIndices(states[i].volumes);
            && (k > |free| ==> AddStep(states, req, matches) == Failure(InsufficientVolumes(k, |free|)))
            && (k <= |free| ==>
                  && AddStep(states, req, matches).Success?
                  && var s := AddStep(states, req, matches).value;
                  && (forall j :: 0 <= j < |states| && j != i ==> s[j] == states[j])
                  && s[i].shortname == states[i].shortname
                  && s[i].ethInterface == states[i].ethInterface
                  && s[i].roles == states[i].roles + (set d | d in req.daemons)
                  && |s[i].volumes| == |states[i].volumes|
                  && AllocatedCount(s[i].volumes) == AllocatedCount(states[i].volumes) + k
                  && FreeIndices(s[i].volumes) == free[..|free| - k]
                  && (forall v :: 0 <= v < |states[i].volumes| && states[i].volumes[v] == Allocated ==> s[i].volumes[v] == Allocated))
  {
    ResolveExactlyOne(states, req.pattern, matches, i);
    var k := multiset(req.daemons)[Osd];
    if k <= |FreeIndices(states[i].volumes)| {
      AllocateLastEffect(states[i].volumes, k);
    }
  }

  /** A request whose pattern matches no short name, or several, fails
      without changing anything. */
  lemma AddStepMatchErrors(states: seq<NodeState>, req: AddRequest, matches: (string, string) -> bool)
    ensures (forall j :: 0 <= j < |states| ==> !matches(req.pattern, states[j].shortname))
        ==> AddStep(states, req, matches) == Failure(NoMatch(req.pattern))
    ensures (exists j, k :: 0 <= j < k < |states| && matches(req.pattern, states[j].shortname) && matches(req.pattern, states[k].shortname))
        ==> AddStep(states, req, matches) == Failure(MultipleMatches(req.pattern))
  {
    ResolveExactlyOne(states, req.pattern, matches, 0);
  }

  /** Lines 63-88: the requests in order; the first error stops the run and
      keeps the changes made by the requests before it. */
  function AddAll(states: seq<NodeState>, reqs: seq<AddRequest>, matches: (string, string) -> bool): (r: AddOutcome)
    ensures |r.states| == |states|
    decreases |reqs|
  {
    if reqs == [] then AddOutcome(states, None)
    else match AddStep(states, reqs[0], matches)
      case Failure(e) => AddOutcome(states, Some(e))
      case Success(next) => AddAll(next, reqs[1..], matches)
  }

  /** Short names never change, whatever the requests do. */
  lemma {:induction false} AddAllKeepsNames(states: seq<NodeState>, reqs: seq<AddRequest>, matches: (string, string) -> bool)
    ensures ShortNames(AddAll(states, reqs, matches).states) == ShortNames(states)
    decreases |reqs|
  {
    if reqs != [] {
      match AddStep(states, reqs[0], matches)
      case Failure(_) =>
      case Success(next) =>
        var i := Resolve(states, reqs[0].pattern, matches).value;
        assert forall j :: 0 <= j < |states| ==> next[j].shortname == states[j].shortname;
        assert ShortNames(next) == ShortNames(states);
        AddAllKeepsNames(next, reqs[1..], matches);
    }
  }

  // ---- the add block on node objects ----

  /** `for osd in osds_required: free_volumes.pop().status = NodeVolume.ALLOCATED`. */
  method AllocateVolumes(node: Node, osds: seq<string>)
    requires |osds| <= |FreeIndices(node.volumes)|
    modifies node
    ensures node.State() == old(node.State()).(volumes := AllocateLast(old(node.volumes), |osds|))
  {
    var freeVolumes := FreeIndices(node.volumes);
    ghost var vs := node.volumes;
    ghost var f := freeVolumes;
    for t := 0 to |osds|
      invariant freeVolumes == f[..|f| - t]
      invariant node.volumes == AllocateLast(vs, t)
      invariant node.roles == old(node.roles) && node.ethInterface == old(node.ethInterface)
    {
      var v := freeVolumes[|freeVolumes| - 1];
      freeVolumes := freeVolumes[..|freeVolumes| - 1];
      assert v == f[|f| - t - 1];
      assert v < |vs| by { assert f[|f| - t - 1] in f; }
      node.volumes := node.volumes[v := Allocated];
      forall j | 0 <= j < |vs|
        ensures node.volumes[j] == AllocateLast(vs, t + 1)[j]
      {
        assert j in f[|f| - (t + 1)..] <==> j == v || j in f[|f| - t..];
      }
    }
  }

  /** The loop that keeps the last node whose short name equals `name`. */
  method FindLastNamed(nodes: seq<Node>, name: string) returns (sel: int)
    ensures sel == LastIndexOf(ShortNames(Snapshot(nodes)), name)
  {
    ghost var names := ShortNames(Snapshot(nodes));
    sel := -1;
    for j := 0 to |nodes|
      invariant sel == LastIndexOf(names[..j], name)
    {
      assert names[..j + 1][..j] == names[..j];
      if nodes[j].shortname == name {
        sel := j;
      }
    }
    assert names[..|nodes|] == names;
  }

  /** Lines 65-88 for one request, on the node objects. */
  method ApplyAdd(nodes: seq<Node>, req: AddRequest, matches: (string, string) -> bool) returns (err: Option<AddError>)
    requires Distinct(nodes)
    modifies set n | n in nodes
    ensures match AddStep(old(Snapshot(nodes)), req, matches)
            case Success(s) => err == None && Snapshot(nodes) == s
            case Failure(e) => err == Some(e) && Snapshot(nodes) == old(Snapshot(nodes))
  {
    ghost var before := Snapshot(nodes);
    var osdsRequired := OsdsRequired(req.daemons);
    var shortNameList := seq(|nodes|, j requires 0 <= j < |nodes| => nodes[j].shortname);
    assert shortNameList == ShortNames(before);
    var matched := MatchedNames(shortNameList, req.pattern, matches);
    if |matched| > 1 {
      return Some(MultipleMatches(req.pattern));
    }
    if |matched| == 0 {
      return Some(NoMatch(req.pattern));
    }
    assert matched[0] in matched;
    var sel := FindLastNamed(nodes, matched[0]);
    var node := nodes[sel];
    var freeVolumes := FreeIndices(node.volumes);
    if |osdsRequired| > |freeVolumes| {
      return Some(InsufficientVolumes(|osdsRequired|, |freeVolumes|));
    }
    AllocateVolumes(node, osdsRequired);
    node.UpdateRole(req.daemons);
    err := None;
    forall j | 0 <= j < |nodes| && j != sel
      ensures nodes[j].State() == before[j]
    {
      assert nodes[j] != node;
    }
  }

  /** Lines 63-88: every request in order, on the node objects. */
  method ApplyAdds(nodes: seq<Node>, reqs: seq<AddRequest>, matches: (string, string) -> bool) returns (err: Option<AddError>)
    requires Distinct(nodes)
    modifies set n | n in nodes
    ensures AddAll(old(Snapshot(nodes)), reqs, matches) == AddOutcome(Snapshot(nodes), err)
  {
    ghost var start := Snapshot(nodes);
    for t := 0 to |reqs|
      invariant AddAll(start, reqs, matches) == AddAll(Snapshot(nodes), reqs[t..], matches)
    {
      assert reqs[t..][1..] == reqs[t + 1..];
      err := ApplyAdd(nodes, reqs[t], matches);
      if err.Some? {
        return;
      }
    }
    err := None;
  }
}
