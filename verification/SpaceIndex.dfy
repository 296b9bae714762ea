/** The two indexes built by consolidation (mycscloud/space_nodes.go): the
    functions that specify the loops of class SpaceNodes, and what a lookup
    in the finished indexes returns. */
module SpaceIndex {
  import opened Outcomes

  /** A node as the indexes see it. `ref` is the identity of the object behind
      the pointer; nothing reads it, it only tells equal-looking nodes apart.
      `endpoint` is None when GetEndpoint() returns an error. */
  datatype SpaceNode = SpaceNode(ref: nat, key: string, spaceID: string, endpoint: Option<string>)

  /** A locally managed target. `loaded` is `Error() == nil`. */
  datatype Target = Target(node: SpaceNode, bastion: bool, nodeID: string, loaded: bool)

  datatype Index = Index(byKey: map<string, SpaceNode>, byEndpoint: map<string, SpaceNode>)

  const NO_NODES := Index(map[], map[])

  /** url.Parse followed by the Host field; None when the URL does not parse. */
  type UrlParser = string -> Option<string>

  /** The part of a host before its first ':', `strings.Split(host, ":")[0]`. */
  function BeforeColon(host: string): (name: string)
    ensures ':' !in name && name <= host
    ensures |name| < |host| ==> host[|name|] == ':'
  {
    if host == "" || host[0] == ':' then "" else [host[0]] + BeforeColon(host[1..])
  }

  /** The longest prefix of the host without a ':'. */
  predicate HostName(host: string, name: string) {
    name <= host && ':' !in name && (|name| < |host| ==> host[|name|] == ':')
  }

  /** The node can be looked up by this string: its endpoint or, when that
      parses, its host name. */
  predicate NamedBy(parse: UrlParser, node: SpaceNode, e: string) {
    && node.endpoint.Some?
    && (e == node.endpoint.value
        || (parse(node.endpoint.value).Some? && HostName(parse(node.endpoint.value).value, e)))
  }

  lemma {:induction false} OneHostName(host: string, name: string)
    ensures HostName(host, name) <==> name == BeforeColon(host)
  {
    if host != "" && host[0] != ':' && name != "" {
      OneHostName(host[1..], name[1..]);
      assert name == [name[0]] + name[1..] && host == [host[0]] + host[1..];
      assert name <= host <==> name[0] == host[0] && name[1..] <= host[1..];
      assert |name| < |host| ==> host[|name|] == host[1..][|name| - 1];
    }
  }

  function PutEndpoint(m: map<string, SpaceNode>, parse: UrlParser, node: SpaceNode): (r: map<string, SpaceNode>)
    ensures forall e :: e in r <==> e in m || NamedBy(parse, node, e)
    ensures forall e | e in r :: r[e] == if NamedBy(parse, node, e) then node else m[e]
  {
    match node.endpoint
    case None => m
    case Some(e) =>
      var m1 := m[e := node];
      match parse(e)
      case None => m1
      case Some(h) =>
        assert forall name :: HostName(h, name) <==> name == BeforeColon(h) by {
          forall name ensures HostName(h, name) <==> name == BeforeColon(h) { OneHostName(h, name); }
        }
        m1[BeforeColon(h) := node]
  }

  // The loop over the local targets.

  function AddTarget(parse: UrlParser, index: Index, t: Target): Index {
    if !t.bastion then index
    else Index(index.byKey[t.node.key := t.node],
               if t.loaded then PutEndpoint(index.byEndpoint, parse, t.node) else index.byEndpoint)
  }

  function IndexTargets(parse: UrlParser, targets: seq<Target>): Index {
    if targets == [] then NO_NODES
    else AddTarget(parse, IndexTargets(parse, targets[..|targets| - 1]), targets[|targets| - 1])
  }

  function AddTargetID(ids: map<string, Target>, t: Target): map<string, Target> {
    if t.bastion && |t.nodeID| > 0 then ids[t.nodeID := t] else ids
  }

  function TargetIDs(targets: seq<Target>): (ids: map<string, Target>)
    ensures forall id :: id in ids <==> exists i | 0 <= i < |targets| ::
                           targets[i].bastion && |id| > 0 && targets[i].nodeID == id
  {
    if targets == [] then map[]
    else
      var n := |targets| - 1;
      assert targets == targets[..n] + [targets[n]];
      AddTargetID(TargetIDs(targets[..n]), targets[n])
  }

  lemma TargetsStep(parse: UrlParser, targets: seq<Target>, n: nat)
    requires n < |targets|
    ensures IndexTargets(parse, targets[..n + 1]) == AddTarget(parse, IndexTargets(parse, targets[..n]), targets[n])
    ensures TargetIDs(targets[..n + 1]) == AddTargetID(TargetIDs(targets[..n]), targets[n])
  {
    assert targets[..n + 1][..n] == targets[..n];
  }

  // The backwards scan over the shared spaces.

  function AddSpace(parse: UrlParser, index: Index, s: SpaceNode): Index {
    if s.key in index.byKey then index
    else Index(index.byKey[s.key := s], PutEndpoint(index.byEndpoint, parse, s))
  }

  function ScanSpaces(parse: UrlParser, index: Index, spaces: seq<SpaceNode>): Index
    decreases |spaces|
  {
    if spaces == [] then index
    else ScanSpaces(parse, AddSpace(parse, index, spaces[|spaces| - 1]), spaces[..|spaces| - 1])
  }

  /** The shared spaces that no local target manages, in their order. */
  function KeepShared(ids: set<string>, spaces: seq<SpaceNode>): seq<SpaceNode> {
    if spaces == [] then []
    else
      var last := spaces[|spaces| - 1];
      KeepShared(ids, spaces[..|spaces| - 1]) + if last.spaceID in ids then [] else [last]
  }

  function Consolidated(parse: UrlParser, targets: seq<Target>, spaces: seq<SpaceNode>): Index {
    ScanSpaces(parse, IndexTargets(parse, targets), spaces)
  }

  // ---------------------------------------------------------------------
  // The remaining shared list is the order-preserving filter.

  lemma {:induction false} KeepSharedConcat(ids: set<string>, a: seq<SpaceNode>, b: seq<SpaceNode>)
    ensures KeepShared(ids, a + b) == KeepShared(ids, a) + KeepShared(ids, b)
  {
    if b == [] {
      assert a + b == a;
    } else {
      var n := |b| - 1;
      assert (a + b)[..|a + b| - 1] == a + b[..n];
      KeepSharedConcat(ids, a, b[..n]);
    }
  }

  lemma KeepSharedFirst(ids: set<string>, spaces: seq<SpaceNode>, i: nat)
    requires i < |spaces|
    ensures KeepShared(ids, spaces[i..])
            == (if spaces[i].spaceID in ids then [] else [spaces[i]]) + KeepShared(ids, spaces[i + 1..])
  {
    assert spaces[i..] == [spaces[i]] + spaces[i + 1..];
    KeepSharedConcat(ids, [spaces[i]], spaces[i + 1..]);
    assert [spaces[i]][..0] == [];
  }

  /** The list once the spaces from position i on have been filtered. */
  function PartlyFiltered(ids: set<string>, spaces: seq<SpaceNode>, i: nat): seq<SpaceNode>
    requires i <= |spaces|
  {
    spaces[..i] + KeepShared(ids, spaces[i..])
  }

  lemma ScanSpacesStep(parse: UrlParser, index: Index, spaces: seq<SpaceNode>, i: nat)
    requires i < |spaces|
    ensures ScanSpaces(parse, index, spaces[..i + 1])
            == ScanSpaces(parse, AddSpace(parse, index, spaces[i]), spaces[..i])
  {
    assert spaces[..i + 1][..i] == spaces[..i];
  }

  /** Before and after the scan. */
  lemma ScanBounds(parse: UrlParser, index: Index, ids: set<string>, spaces: seq<SpaceNode>)
    ensures PartlyFiltered(ids, spaces, |spaces|) == spaces && PartlyFiltered(ids, spaces, 0) == KeepShared(ids, spaces)
    ensures ScanSpaces(parse, index, spaces[..|spaces|]) == ScanSpaces(parse, index, spaces)
    ensures ScanSpaces(parse, index, spaces[..0]) == index
  {
    assert spaces[..|spaces|] == spaces && spaces[|spaces|..] == [];
    assert spaces[..0] == [] && spaces[0..] == spaces;
  }

  lemma PartlyFilteredStep(ids: set<string>, spaces: seq<SpaceNode>, i: nat)
    requires i < |spaces|
    ensures var now := PartlyFiltered(ids, spaces, i + 1);
            && now[i] == spaces[i]
            && PartlyFiltered(ids, spaces, i)
               == if spaces[i].spaceID in ids then now[..i] + now[i + 1..] else now
  {
    KeepSharedFirst(ids, spaces, i);
  }

  ghost predicate Increasing(p: seq<nat>) {
    forall i, j | 0 <= i < j < |p| :: p[i] < p[j]
  }

  /** Where in the list the kept spaces are. */
  function KeptAt(ids: set<string>, spaces: seq<SpaceNode>): seq<nat> {
    if spaces == [] then []
    else
      var n := |spaces| - 1;
      KeptAt(ids, spaces[..n]) + if spaces[n].spaceID in ids then [] else [n]
  }

  /** The kept spaces are the original ones at increasing positions ... */
  lemma {:induction false} KeepSharedKeepsOrder(ids: set<string>, spaces: seq<SpaceNode>)
    ensures var at := KeptAt(ids, spaces);
            && Increasing(at) && |at| == |KeepShared(ids, spaces)|
            && forall i | 0 <= i < |at| :: at[i] < |spaces| && KeepShared(ids, spaces)[i] == spaces[at[i]]
  {
    if spaces != [] {
      KeepSharedKeepsOrder(ids, spaces[..|spaces| - 1]);
    }
  }

  /** ... and those positions are exactly the ones whose space ID no local
      target has. */
  lemma {:induction false} KeepSharedIsFilter(ids: set<string>, spaces: seq<SpaceNode>, j: nat)
    requires j < |spaces|
    ensures j in KeptAt(ids, spaces) <==> spaces[j].spaceID !in ids
  {
    var n := |spaces| - 1;
    if j < n {
      KeepSharedIsFilter(ids, spaces[..n], j);
    } else {
      KeepSharedKeepsOrder(ids, spaces[..n]);
    }
  }

  // ---------------------------------------------------------------------
  // Lookup by key.

  predicate LocalWithKey(targets: seq<Target>, i: int, k: string) {
    0 <= i < |targets| && targets[i].bastion && targets[i].node.key == k
  }

  ghost predicate LastLocalWithKey(targets: seq<Target>, i: int, k: string) {
    LocalWithKey(targets, i, k) && forall j | i < j < |targets| :: !LocalWithKey(targets, j, k)
  }

  ghost predicate LocalKey(targets: seq<Target>, k: string) {
    exists i :: LocalWithKey(targets, i, k)
  }

  lemma {:induction false} LocalLookupExact(parse: UrlParser, targets: seq<Target>, k: string)
    ensures k in IndexTargets(parse, targets).byKey <==> LocalKey(targets, k)
    ensures forall i | LastLocalWithKey(targets, i, k) :: IndexTargets(parse, targets).byKey[k] == targets[i].node
  {
    if targets != [] {
      var n := |targets| - 1;
      var init := targets[..n];
      LocalLookupExact(parse, init, k);
      forall i | 0 <= i < n ensures LocalWithKey(targets, i, k) == LocalWithKey(init, i, k) {}
      if LocalKey(init, k) {
        var i :| LocalWithKey(init, i, k);
        assert LocalWithKey(targets, i, k);
      }
      if !LocalWithKey(targets, n, k) {
        forall i | LastLocalWithKey(targets, i, k) ensures LastLocalWithKey(init, i, k) {
          forall j | i < j < |init| ensures !LocalWithKey(init, j, k) {
            assert !LocalWithKey(targets, j, k);
          }
        }
      } else {
        forall i | LastLocalWithKey(targets, i, k) ensures i == n {
          assert LocalWithKey(targets, n, k);
        }
      }
    }
  }

  /** Space i is the one a scan registers under its key: the key is not in the
      index already and no space further back in the list has it. */
  ghost predicate Registered(index: Index, spaces: seq<SpaceNode>, i: int) {
    && 0 <= i < |spaces|
    && spaces[i].key !in index.byKey
    && forall j | i < j < |spaces| :: spaces[j].key != spaces[i].key
  }

  lemma RegisteredInit(parse: UrlParser, index: Index, spaces: seq<SpaceNode>, i: int)
    requires 0 <= i < |spaces| - 1
    ensures Registered(index, spaces, i)
            <==> Registered(AddSpace(parse, index, spaces[|spaces| - 1]), spaces[..|spaces| - 1], i)
  {
    var n := |spaces| - 1;
    if Registered(AddSpace(parse, index, spaces[n]), spaces[..n], i) {
      forall j | i < j < |spaces| ensures spaces[j].key != spaces[i].key {
        if j < n { assert spaces[..n][j] == spaces[j]; }
      }
    }
  }

  lemma {:induction false} ScanLookupExact(parse: UrlParser, index: Index, spaces: seq<SpaceNode>, k: string)
    ensures var r := ScanSpaces(parse, index, spaces).byKey;
            && (k in index.byKey ==> k in r && r[k] == index.byKey[k])
            && (forall i | Registered(index, spaces, i) && spaces[i].key == k :: k in r && r[k] == spaces[i])
            && (k in r && k !in index.byKey ==> exists i :: Registered(index, spaces, i) && spaces[i].key == k)
    decreases |spaces|
  {
    if spaces != [] {
      var n := |spaces| - 1;
      var index1 := AddSpace(parse, index, spaces[n]);
      ScanLookupExact(parse, index1, spaces[..n], k);
      forall i | 0 <= i < n ensures Registered(index, spaces, i) <==> Registered(index1, spaces[..n], i) {
        RegisteredInit(parse, index, spaces, i);
      }
      if k !in index.byKey && k in index1.byKey {
        assert Registered(index, spaces, n);
      }
    }
  }

  ghost predicate LastSpaceWithKey(spaces: seq<SpaceNode>, i: int, k: string) {
    0 <= i < |spaces| && spaces[i].key == k && forall j | i < j < |spaces| :: spaces[j].key != k
  }

  /** LookupSpace(k): the local target with that key (the last one, should the
      keys not be unique), else the shared space furthest back in the original
      list with that key, else nothing. */
  lemma LookupSpaceExact(parse: UrlParser, targets: seq<Target>, spaces: seq<SpaceNode>, k: string)
    ensures var byKey := Consolidated(parse, targets, spaces).byKey;
            && (k in byKey <==> LocalKey(targets, k) || exists i :: LastSpaceWithKey(spaces, i, k))
            && (forall i | LastLocalWithKey(targets, i, k) :: byKey[k] == targets[i].node)
            && (!LocalKey(targets, k) ==> forall i | LastSpaceWithKey(spaces, i, k) :: byKey[k] == spaces[i])
  {
    var local := IndexTargets(parse, targets);
    LocalLookupExact(parse, targets, k);
    ScanLookupExact(parse, local, spaces, k);
    forall i | 0 <= i < |spaces| && spaces[i].key == k && k !in local.byKey
      ensures Registered(local, spaces, i) <==> LastSpaceWithKey(spaces, i, k)
    {}
    forall i | LastSpaceWithKey(spaces, i, k) && !LocalKey(targets, k) ensures Registered(local, spaces, i) {}
  }

  // ---------------------------------------------------------------------
  // Lookup by endpoint or host name.

  predicate LocalWriter(parse: UrlParser, targets: seq<Target>, i: int, e: string) {
    0 <= i < |targets| && targets[i].bastion && targets[i].loaded && NamedBy(parse, targets[i].node, e)
  }

  ghost predicate LastLocalWriter(parse: UrlParser, targets: seq<Target>, i: int, e: string) {
    LocalWriter(parse, targets, i, e) && forall j | i < j < |targets| :: !LocalWriter(parse, targets, j, e)
  }

  lemma {:induction false} LocalEndpointExact(parse: UrlParser, targets: seq<Target>, e: string)
    ensures e in IndexTargets(parse, targets).byEndpoint <==> exists i :: LastLocalWriter(parse, targets, i, e)
    ensures forall i | LastLocalWriter(parse, targets, i, e) ::
              IndexTargets(parse, targets).byEndpoint[e] == targets[i].node
  {
    if targets != [] {
      var n := |targets| - 1;
      var init := targets[..n];
      LocalEndpointExact(parse, init, e);
      forall i | 0 <= i < n ensures LocalWriter(parse, targets, i, e) == LocalWriter(parse, init, i, e) {}
      if LocalWriter(parse, targets, n, e) {
        assert LastLocalWriter(parse, targets, n, e);
        forall i | LastLocalWriter(parse, targets, i, e) ensures i == n {
          assert LocalWriter(parse, targets, n, e);
        }
      } else {
        forall i | 0 <= i < n
          ensures LastLocalWriter(parse, targets, i, e) <==> LastLocalWriter(parse, init, i, e)
        {
          if LastLocalWriter(parse, init, i, e) {
            forall j | i < j < |targets| ensures !LocalWriter(parse, targets, j, e) {
              if j < n { assert !LocalWriter(parse, init, j, e); }
            }
          }
          if LastLocalWriter(parse, targets, i, e) {
            forall j | i < j < n ensures !LocalWriter(parse, init, j, e) {
              assert !LocalWriter(parse, targets, j, e);
            }
          }
        }
        forall i | LastLocalWriter(parse, targets, i, e) ensures i < n {}
        if exists i :: LastLocalWriter(parse, init, i, e) {
          var i :| LastLocalWriter(parse, init, i, e);
          assert LastLocalWriter(parse, targets, i, e);
        }
      }
    }
  }

  ghost predicate SpaceWriter(parse: UrlParser, index: Index, spaces: seq<SpaceNode>, i: int, e: string) {
    Registered(index, spaces, i) && NamedBy(parse, spaces[i], e)
  }

  ghost predicate FirstSpaceWriter(parse: UrlParser, index: Index, spaces: seq<SpaceNode>, i: int, e: string) {
    SpaceWriter(parse, index, spaces, i, e) && forall j | 0 <= j < i :: !SpaceWriter(parse, index, spaces, j, e)
  }

  lemma FirstWriterInit(parse: UrlParser, index: Index, index1: Index, spaces: seq<SpaceNode>, i: int, e: string)
    requires 0 <= i < |spaces| - 1
    requires forall j | 0 <= j < |spaces| - 1 ::
               SpaceWriter(parse, index, spaces, j, e) <==> SpaceWriter(parse, index1, spaces[..|spaces| - 1], j, e)
    ensures FirstSpaceWriter(parse, index, spaces, i, e)
            <==> FirstSpaceWriter(parse, index1, spaces[..|spaces| - 1], i, e)
  {
    var init := spaces[..|spaces| - 1];
    if FirstSpaceWriter(parse, index, spaces, i, e) {
      forall j | 0 <= j < i ensures !SpaceWriter(parse, index1, init, j, e) {
        assert !SpaceWriter(parse, index, spaces, j, e);
      }
    }
    if FirstSpaceWriter(parse, index1, init, i, e) {
      forall j | 0 <= j < i ensures !SpaceWriter(parse, index, spaces, j, e) {
        assert !SpaceWriter(parse, index1, init, j, e);
      }
    }
  }

  /** A writer implies a first writer. */
  lemma {:induction false} NoFirstNoWriter(parse: UrlParser, index: Index, spaces: seq<SpaceNode>, j: int, e: string)
    requires forall i :: !FirstSpaceWriter(parse, index, spaces, i, e)
    ensures !SpaceWriter(parse, index, spaces, j, e)
  {
    forall k | 0 <= k < j ensures !SpaceWriter(parse, index, spaces, k, e) {
      NoFirstNoWriter(parse, index, spaces, k, e);
    }
    assert !FirstSpaceWriter(parse, index, spaces, j, e);
  }

  /** The scan runs backwards and overwrites, so the writer at the lowest
      position wins; without one the entry is left as it was. */
  lemma {:induction false} ScanEndpointExact(parse: UrlParser, index: Index, spaces: seq<SpaceNode>, e: string)
    ensures var r := ScanSpaces(parse, index, spaces).byEndpoint;
            && (forall i | FirstSpaceWriter(parse, index, spaces, i, e) :: e in r && r[e] == spaces[i])
            && ((forall i :: !FirstSpaceWriter(parse, index, spaces, i, e)) ==>
                  && (e in r <==> e in index.byEndpoint)
                  && (e in r ==> r[e] == index.byEndpoint[e]))
    decreases |spaces|
  {
    if spaces != [] {
      var n := |spaces| - 1;
      var init := spaces[..n];
      var index1 := AddSpace(parse, index, spaces[n]);
      ScanEndpointExact(parse, index1, init, e);
      forall i | 0 <= i < n
        ensures SpaceWriter(parse, index, spaces, i, e) <==> SpaceWriter(parse, index1, init, i, e)
      {
        RegisteredInit(parse, index, spaces, i);
      }
      forall i | 0 <= i < n
        ensures FirstSpaceWriter(parse, index, spaces, i, e) <==> FirstSpaceWriter(parse, index1, init, i, e)
      {
        FirstWriterInit(parse, index, index1, spaces, i, e);
      }
      if forall i :: !FirstSpaceWriter(parse, index1, init, i, e) {
        forall j | 0 <= j < n ensures !SpaceWriter(parse, index, spaces, j, e) {
          NoFirstNoWriter(parse, index1, init, j, e);
        }
        assert SpaceWriter(parse, index, spaces, n, e) ==> FirstSpaceWriter(parse, index, spaces, n, e);
      } else {
        var i :| FirstSpaceWriter(parse, index1, init, i, e);
        assert FirstSpaceWriter(parse, index, spaces, i, e);
        assert !FirstSpaceWriter(parse, index, spaces, n, e);
      }
    }
  }

  /** LookupSpaceByEndpoint(e): the first shared space of the original list
      that was registered and has that endpoint or host; else the last local
      target with it; else nothing. */
  lemma LookupEndpointExact(
    parse: UrlParser, targets: seq<Target>, spaces: seq<SpaceNode>, e: string)
    ensures var local := IndexTargets(parse, targets);
            var r := Consolidated(parse, targets, spaces).byEndpoint;
            && (e in r <==> (exists i :: FirstSpaceWriter(parse, local, spaces, i, e))
                            || (exists i :: LastLocalWriter(parse, targets, i, e)))
            && (forall i | FirstSpaceWriter(parse, local, spaces, i, e) :: r[e] == spaces[i])
            && ((forall i :: !FirstSpaceWriter(parse, local, spaces, i, e)) ==>
                  forall i | LastLocalWriter(parse, targets, i, e) :: r[e] == targets[i].node)
  {
    LocalEndpointExact(parse, targets, e);
    ScanEndpointExact(parse, IndexTargets(parse, targets), spaces, e);
  }

  // ---------------------------------------------------------------------
  // The two indexes agree.

  ghost predicate UniqueLocalKeys(targets: seq<Target>) {
    forall i, j, k | LocalWithKey(targets, i, k) && LocalWithKey(targets, j, k) :: i == j
  }

  /** An endpoint entry is sound when it is a name of the node it maps to, and
      that node is the one the key index holds under its own key. */
  ghost predicate SoundEntry(parse: UrlParser, index: Index, e: string)
    requires e in index.byEndpoint
  {
    var node := index.byEndpoint[e];
    NamedBy(parse, node, e) && node.key in index.byKey && index.byKey[node.key] == node
  }

  /** Local target i keeps the endpoint entry e, and local target j is the one
      that the key index holds under the key of i. */
  ghost predicate Shadow(parse: UrlParser, targets: seq<Target>, spaces: seq<SpaceNode>, e: string, i: int, j: int) {
    && LastLocalWriter(parse, targets, i, e)
    && LastLocalWithKey(targets, j, targets[i].node.key)
    && forall m :: !FirstSpaceWriter(parse, IndexTargets(parse, targets), spaces, m, e)
  }

  lemma ShadowedEntry(parse: UrlParser, targets: seq<Target>, spaces: seq<SpaceNode>, e: string, i: int, j: int)
    requires Shadow(parse, targets, spaces, e, i, j)
    ensures e in Consolidated(parse, targets, spaces).byEndpoint
    ensures SoundEntry(parse, Consolidated(parse, targets, spaces), e) <==> targets[j].node == targets[i].node
  {
    LookupEndpointExact(parse, targets, spaces, e);
    LookupSpaceExact(parse, targets, spaces, targets[i].node.key);
  }

  lemma {:induction false} SomeLastLocalWithKey(targets: seq<Target>, i: int, k: string)
    requires LocalWithKey(targets, i, k)
    ensures exists j :: LastLocalWithKey(targets, j, k)
    decreases |targets| - i
  {
    if j :| i < j < |targets| && LocalWithKey(targets, j, k) {
      SomeLastLocalWithKey(targets, j, k);
    } else {
      assert LastLocalWithKey(targets, i, k);
    }
  }

  lemma UnsoundEntry(parse: UrlParser, targets: seq<Target>, spaces: seq<SpaceNode>, e: string) returns (i: int, j: int)
    requires e in Consolidated(parse, targets, spaces).byEndpoint
    requires !SoundEntry(parse, Consolidated(parse, targets, spaces), e)
    ensures Shadow(parse, targets, spaces, e, i, j)
  {
    var local := IndexTargets(parse, targets);
    LookupEndpointExact(parse, targets, spaces, e);
    forall m ensures !FirstSpaceWriter(parse, local, spaces, m, e) {
      if FirstSpaceWriter(parse, local, spaces, m, e) {
        ScanLookupExact(parse, local, spaces, spaces[m].key);
      }
    }
    i :| LastLocalWriter(parse, targets, i, e);
    SomeLastLocalWithKey(targets, i, targets[i].node.key);
    j :| LastLocalWithKey(targets, j, targets[i].node.key);
  }

  /** Soundness, exactly: it holds of every entry just when a local target
      that keeps an endpoint entry is not replaced under its key by another
      local target. */
  lemma EndpointIndexSoundIff(parse: UrlParser, targets: seq<Target>, spaces: seq<SpaceNode>)
    ensures var index := Consolidated(parse, targets, spaces);
            (forall e | e in index.byEndpoint :: SoundEntry(parse, index, e))
            <==>
            (forall e, i, j | Shadow(parse, targets, spaces, e, i, j) :: targets[j].node == targets[i].node)
  {
    var index := Consolidated(parse, targets, spaces);
    forall e, i, j | Shadow(parse, targets, spaces, e, i, j)
      ensures e in index.byEndpoint && (SoundEntry(parse, index, e) <==> targets[j].node == targets[i].node)
    {
      ShadowedEntry(parse, targets, spaces, e, i, j);
    }
    forall e | e in index.byEndpoint && !SoundEntry(parse, index, e)
      ensures exists i, j :: Shadow(parse, targets, spaces, e, i, j)
    {
      var i, j := UnsoundEntry(parse, targets, spaces, e);
    }
  }

  /** Soundness under the source's assumption that local keys are unique. */
  lemma EndpointIndexSound(parse: UrlParser, targets: seq<Target>, spaces: seq<SpaceNode>)
    requires UniqueLocalKeys(targets)
    ensures var index := Consolidated(parse, targets, spaces);
            forall e | e in index.byEndpoint :: SoundEntry(parse, index, e)
  {
    forall e, i, j | Shadow(parse, targets, spaces, e, i, j) ensures targets[j].node == targets[i].node {
      assert LocalWithKey(targets, i, targets[i].node.key);
    }
    EndpointIndexSoundIff(parse, targets, spaces);
  }

  lemma {:induction false} SomeLastLocalWriter(parse: UrlParser, targets: seq<Target>, i: int, e: string)
    requires LocalWriter(parse, targets, i, e)
    ensures exists j :: LastLocalWriter(parse, targets, j, e)
    decreases |targets| - i
  {
    if j :| i < j < |targets| && LocalWriter(parse, targets, j, e) {
      SomeLastLocalWriter(parse, targets, j, e);
    } else {
      assert LastLocalWriter(parse, targets, i, e);
    }
  }

  /** Completeness: every name of a loaded local target and of every registered
      shared space is found, which is what a TLS lookup by host relies on. */
  lemma EndpointIndexComplete(parse: UrlParser, targets: seq<Target>, spaces: seq<SpaceNode>, e: string)
    ensures e in Consolidated(parse, targets, spaces).byEndpoint
            <==> || (exists i :: LocalWriter(parse, targets, i, e))
                 || (exists i :: SpaceWriter(parse, IndexTargets(parse, targets), spaces, i, e))
  {
    var local := IndexTargets(parse, targets);
    LookupEndpointExact(parse, targets, spaces, e);
    if forall i :: !FirstSpaceWriter(parse, local, spaces, i, e) {
      forall i ensures !SpaceWriter(parse, local, spaces, i, e) { NoFirstNoWriter(parse, local, spaces, i, e); }
    }
    if i :| LocalWriter(parse, targets, i, e) { SomeLastLocalWriter(parse, targets, i, e); }
  }

  /** Without unique local keys soundness fails: the first of two targets with
      one key keeps its endpoint entry but loses its key entry. */
  lemma DuplicateLocalKeysBreakSoundness(parse: UrlParser) returns (targets: seq<Target>, e: string)
    ensures var index := Consolidated(parse, targets, []);
            e in index.byEndpoint && !SoundEntry(parse, index, e)
  {
    e := "https://a";
    var first := Target(SpaceNode(0, "k", "", Some(e)), true, "", true);
    var second := Target(SpaceNode(1, "k", "", None), true, "", true);
    targets := [first, second];
    assert targets[..1] == [first];
    assert IndexTargets(parse, [first]) == AddTarget(parse, NO_NODES, first);
  }

  // ---------------------------------------------------------------------
  // A shared copy of a local space is hidden by key, removed by space ID.

  /** The key index holds no shared copy of a locally managed space exactly
      when every shared space that is the last with its key and whose space ID
      a local target has, also has a local target's key. */
  lemma SharedCopiesHiddenIff(parse: UrlParser, targets: seq<Target>, spaces: seq<SpaceNode>)
    ensures var byKey := Consolidated(parse, targets, spaces).byKey;
            (forall k | k in byKey && !LocalKey(targets, k) :: byKey[k].spaceID !in TargetIDs(targets))
            <==>
            (forall i | 0 <= i < |spaces| && LastSpaceWithKey(spaces, i, spaces[i].key)
                             && spaces[i].spaceID in TargetIDs(targets) :: LocalKey(targets, spaces[i].key))
  {
    var byKey := Consolidated(parse, targets, spaces).byKey;
    if forall k | k in byKey && !LocalKey(targets, k) :: byKey[k].spaceID !in TargetIDs(targets) {
      forall i | 0 <= i < |spaces| && LastSpaceWithKey(spaces, i, spaces[i].key)
                      && spaces[i].spaceID in TargetIDs(targets)
        ensures LocalKey(targets, spaces[i].key)
      {
        LookupSpaceExact(parse, targets, spaces, spaces[i].key);
      }
    }
    if forall i | 0 <= i < |spaces| && LastSpaceWithKey(spaces, i, spaces[i].key)
                       && spaces[i].spaceID in TargetIDs(targets) :: LocalKey(targets, spaces[i].key) {
      forall k | k in byKey && !LocalKey(targets, k) ensures byKey[k].spaceID !in TargetIDs(targets) {
        LookupSpaceExact(parse, targets, spaces, k);
        var i :| LastSpaceWithKey(spaces, i, k);
        assert spaces[i].key == k;
      }
    }
  }

  /** A shared copy under another key stays visible and takes over the
      endpoint of the local target it duplicates. */
  lemma SharedCopyTakesEndpoint(parse: UrlParser) returns (local: Target, copy: SpaceNode, e: string)
    ensures local.nodeID == copy.spaceID != "" && KeepShared(TargetIDs([local]).Keys, [copy]) == []
    ensures var index := Consolidated(parse, [local], [copy]);
            && copy.key in index.byKey && index.byKey[copy.key] == copy
            && e in index.byEndpoint && local.node.endpoint == Some(e) && index.byEndpoint[e] == copy != local.node
  {
    e := "https://a";
    local := Target(SpaceNode(0, "mine", "id", Some(e)), true, "id", true);
    copy := SpaceNode(1, "theirs", "id", Some(e));
    assert [local][..0] == [] && [copy][..0] == [];
    assert [local][0].bastion && [local][0].nodeID == "id";
    assert IndexTargets(parse, [local]) == AddTarget(parse, NO_NODES, local);
    assert ScanSpaces(parse, IndexTargets(parse, [local]), [copy])
           == AddSpace(parse, IndexTargets(parse, [local]), copy);
  }
}
