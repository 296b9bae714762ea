/** Class SpaceNodes of mycscloud/space_nodes.go without its pool of API
    clients, which is class ClientPool. */
module SpaceNodesClass {
  import opened Outcomes
  import opened SpaceIndex

  class SpaceNodes {
    const parse: UrlParser

    var spaceNodes: map<string, SpaceNode>
    var spaceNodeByEndpoint: map<string, SpaceNode>

    // The shared slice: a backing array and the slice's length.
    var sharedSpaces: array<SpaceNode>
    var sharedLen: nat

    var asyncCallError: Option<string>

    ghost predicate Valid() reads this {
      sharedLen <= sharedSpaces.Length
    }

    ghost function Shared(): seq<SpaceNode>
      requires Valid()
      reads this, sharedSpaces
    {
      sharedSpaces[..sharedLen]
    }

    ghost function Indexes(): Index reads this {
      Index(spaceNodes, spaceNodeByEndpoint)
    }

    constructor (parse: UrlParser)
      ensures Valid() && Indexes() == NO_NODES && Shared() == [] && asyncCallError == None
      ensures this.parse == parse && fresh(sharedSpaces)
    {
      this.parse := parse;
      spaceNodes, spaceNodeByEndpoint := map[], map[];
      sharedSpaces := new SpaceNode[0](_ => SpaceNode(0, "", "", None));
      sharedLen := 0;
      asyncCallError := None;
    }

    /** The body of the goroutine of GetSpaceNodes, for the answer `spaces`
        and `error` of the remote call. */
    method FetchSharedSpaces(spaces: seq<SpaceNode>, error: Option<string>)
      modifies this`sharedSpaces, this`sharedLen, this`asyncCallError
      ensures Valid() && fresh(sharedSpaces)
      ensures Shared() == spaces && asyncCallError == error
    {
      sharedSpaces := new SpaceNode[|spaces|](i requires 0 <= i < |spaces| => spaces[i]);
      sharedLen := |spaces|;
      asyncCallError := error;
    }

    method PutNodeEndpoint(node: SpaceNode)
      modifies this`spaceNodeByEndpoint
      ensures spaceNodeByEndpoint == PutEndpoint(old(spaceNodeByEndpoint), parse, node)
    {
      if node.endpoint.Some? {
        var endpoint := node.endpoint.value;
        spaceNodeByEndpoint := spaceNodeByEndpoint[endpoint := node];
        var url := parse(endpoint);
        if url.Some? {
          spaceNodeByEndpoint := spaceNodeByEndpoint[BeforeColon(url.value) := node];
        }
      }
    }

    /** `append(s[0:i], s[i+1:]...)` on the shared slice: the tail moves one
        place down in the backing array. */
    method RemoveShared(i: nat)
      requires Valid() && i < sharedLen
      modifies this`sharedLen, sharedSpaces
      ensures Valid() && sharedSpaces == old(sharedSpaces)
      ensures Shared() == old(Shared()[..i] + Shared()[i + 1..])
      ensures sharedSpaces[sharedLen..] == old(sharedSpaces[sharedLen - 1..])
    {
      ghost var was := sharedSpaces[..];
      var k := i;
      while k + 1 < sharedLen
        invariant sharedSpaces == old(sharedSpaces) && sharedLen == old(sharedLen)
        invariant i <= k < sharedLen
        invariant sharedSpaces[..k] == was[..i] + was[i + 1..k + 1]
        invariant sharedSpaces[k..] == was[k..]
      {
        assert sharedSpaces[k + 1] == sharedSpaces[k..][1] == was[k + 1];
        ghost var rest := sharedSpaces[k..];
        sharedSpaces[k] := sharedSpaces[k + 1];
        k := k + 1;
        assert sharedSpaces[k..] == rest[1..];
      }
      sharedLen := sharedLen - 1;
    }

    method DropShared(i: nat, j: nat)
      requires Valid() && i <= j == sharedLen - 1
      modifies this`sharedLen, sharedSpaces
      ensures Valid() && sharedSpaces == old(sharedSpaces) && sharedLen == old(sharedLen) - 1
      ensures Shared() == old(Shared()[..i] + Shared()[i + 1..])
    {
      if i == j {
        sharedLen := i;
      } else {
        RemoveShared(i);
      }
    }

    /** The loop over the local targets; `spaceTargets` collects their IDs. */
    method IndexLocalTargets(targets: seq<Target>) returns (spaceTargets: map<string, Target>)
      requires Indexes() == NO_NODES
      modifies this`spaceNodes, this`spaceNodeByEndpoint
      ensures Indexes() == IndexTargets(parse, targets) && spaceTargets == TargetIDs(targets)
    {
      spaceTargets := map[];
      for n := 0 to |targets|
        invariant Indexes() == IndexTargets(parse, targets[..n]) && spaceTargets == TargetIDs(targets[..n])
      {
        var t := targets[n];
        TargetsStep(parse, targets, n);
        if t.bastion {
          if |t.nodeID| > 0 {
            spaceTargets := spaceTargets[t.nodeID := t];
          }
          spaceNodes := spaceNodes[t.node.key := t.node];
          if t.loaded {
            PutNodeEndpoint(t.node);
          }
        }
      }
      assert targets[..|targets|] == targets;
    }

    /** Indexes shared space i and tells whether a local target has its ID. */
    method ConsolidateShared(i: nat, spaceTargets: map<string, Target>) returns (isTarget: bool)
      requires Valid() && i < sharedLen
      modifies this`spaceNodes, this`spaceNodeByEndpoint
      ensures Indexes() == AddSpace(parse, old(Indexes()), Shared()[i])
      ensures isTarget <==> Shared()[i].spaceID in spaceTargets
    {
      var node := sharedSpaces[i];
      assert node == Shared()[i];
      if node.key !in spaceNodes {
        spaceNodes := spaceNodes[node.key := node];
        PutNodeEndpoint(node);
      }
      isTarget := node.spaceID in spaceTargets;
    }

    /** The body of the scan: i is the space looked at, j the last one left. */
    method ScanShared(i: nat, j: nat, spaceTargets: map<string, Target>, ghost all: seq<SpaceNode>) returns (last: int)
      requires Valid() && i <= j == sharedLen - 1 && i < |all|
      requires Shared() == PartlyFiltered(spaceTargets.Keys, all, i + 1)
      modifies this`spaceNodes, this`spaceNodeByEndpoint, this`sharedLen, sharedSpaces
      ensures Valid() && sharedSpaces == old(sharedSpaces) && last == sharedLen - 1 >= i - 1
      ensures Shared() == PartlyFiltered(spaceTargets.Keys, all, i)
      ensures Indexes() == AddSpace(parse, old(Indexes()), all[i])
    {
      PartlyFilteredStep(spaceTargets.Keys, all, i);
      last := j;
      var isTarget := ConsolidateShared(i, spaceTargets);
      if isTarget {
        DropShared(i, j);
        last := j - 1;
      }
    }

    /** The backwards scan of the shared slice. */
    method ScanSharedSpaces(spaceTargets: map<string, Target>)
      requires Valid()
      modifies this`spaceNodes, this`spaceNodeByEndpoint, this`sharedLen, sharedSpaces
      ensures Valid()
      ensures Indexes() == ScanSpaces(parse, old(Indexes()), old(Shared()))
      ensures Shared() == KeepShared(spaceTargets.Keys, old(Shared()))
    {
      ghost var all := Shared();
      ScanBounds(parse, Indexes(), spaceTargets.Keys, all);
      var j: int := sharedLen - 1;
      var i: int := j;
      while i >= 0
        invariant -1 <= i < |all| && i <= j == sharedLen - 1 && Valid()
        invariant sharedSpaces == old(sharedSpaces)
        invariant Shared() == PartlyFiltered(spaceTargets.Keys, all, i + 1)
        invariant ScanSpaces(parse, Indexes(), all[..i + 1]) == ScanSpaces(parse, old(Indexes()), all)
      {
        ScanSpacesStep(parse, Indexes(), all, i);
        j := ScanShared(i, j, spaceTargets, all);
        i := i - 1;
      }
      ScanBounds(parse, Indexes(), spaceTargets.Keys, all);
    }

    method ConsolidateRemoteAndLocalNodes(targets: seq<Target>) returns (err: Option<string>)
      requires Valid() && Indexes() == NO_NODES
      modifies this`spaceNodes, this`spaceNodeByEndpoint, this`sharedLen, sharedSpaces
      ensures Valid() && err == asyncCallError
      ensures err.Some? ==> Indexes() == IndexTargets(parse, targets) && Shared() == old(Shared())
      ensures err == None ==> Indexes() == Consolidated(parse, targets, old(Shared()))
      ensures err == None ==> Shared() == KeepShared(TargetIDs(targets).Keys, old(Shared()))
    {
      var spaceTargets := IndexLocalTargets(targets);
      if asyncCallError.Some? {
        return asyncCallError;
      }

      ScanSharedSpaces(spaceTargets);
      return None;
    }

    /** In indexes consolidated from these targets and shared spaces, the node
        is the last local target with the key, else the shared space furthest
        back with it, else none. */
    method LookupSpace(key: string, ghost targets: seq<Target>, ghost spaces: seq<SpaceNode>)
      returns (node: Option<SpaceNode>)
      requires Indexes() == Consolidated(parse, targets, spaces)
      ensures node.Some? <==> LocalKey(targets, key) || exists i :: LastSpaceWithKey(spaces, i, key)
      ensures forall i | LastLocalWithKey(targets, i, key) :: node == Some(targets[i].node)
      ensures !LocalKey(targets, key) ==> forall i | LastSpaceWithKey(spaces, i, key) :: node == Some(spaces[i])
    {
      LookupSpaceExact(parse, targets, spaces, key);
      node := if key in spaceNodes then Some(spaceNodes[key]) else None;
    }

    /** In indexes consolidated from these targets and shared spaces, the node
        is the first registered shared space with that endpoint or host, else the
        last loaded local target with it, else none. */
    method LookupSpaceByEndpoint(endpoint: string, ghost targets: seq<Target>, ghost spaces: seq<SpaceNode>)
      returns (node: Option<SpaceNode>)
      requires Indexes() == Consolidated(parse, targets, spaces)
      ensures var local := IndexTargets(parse, targets);
              && (node.Some? <==> (exists i :: FirstSpaceWriter(parse, local, spaces, i, endpoint))
                                  || (exists i :: LastLocalWriter(parse, targets, i, endpoint)))
              && (forall i | FirstSpaceWriter(parse, local, spaces, i, endpoint) :: node == Some(spaces[i]))
              && ((forall i :: !FirstSpaceWriter(parse, local, spaces, i, endpoint)) ==>
                    forall i | LastLocalWriter(parse, targets, i, endpoint) :: node == Some(targets[i].node))
    {
      LookupEndpointExact(parse, targets, spaces, endpoint);
      node := if endpoint in spaceNodeByEndpoint then Some(spaceNodeByEndpoint[endpoint]) else None;
    }
  }

  /** Only the locally owned targets. */
  method NewSpaceNodes(parse: UrlParser, targets: seq<Target>) returns (sn: SpaceNodes)
    ensures fresh(sn) && sn.Valid() && sn.Indexes() == IndexTargets(parse, targets) && sn.Shared() == []
  {
    sn := new SpaceNodes(parse);
    var _ := sn.ConsolidateRemoteAndLocalNodes(targets);
  }

  /** All owned and shared spaces, in the schedule in which the fetch is over
      before the local loop starts. Module ForkJoin shows that every other
      schedule gives the same result. */
  method GetSpaceNodes(parse: UrlParser, targets: seq<Target>, spaces: seq<SpaceNode>, error: Option<string>)
    returns (sn: Result<SpaceNodes>)
    ensures sn.Err? <==> error.Some?
    ensures sn.Err? ==> sn.error == error.value
    ensures sn.Ok? ==>
              && sn.value.Valid()
              && sn.value.Indexes() == Consolidated(parse, targets, spaces)
              && sn.value.Shared() == KeepShared(TargetIDs(targets).Keys, spaces)
  {
    var nodes := new SpaceNodes(parse);
    nodes.FetchSharedSpaces(spaces, error);
    var err := nodes.ConsolidateRemoteAndLocalNodes(targets);
    if err.Some? {
      return Err(err.value);
    }
    return Ok(nodes);
  }
}
