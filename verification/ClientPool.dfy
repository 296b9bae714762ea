/** The half of class SpaceNodes (mycscloud/space_nodes.go) that shares API
    clients, with the client instances as objects. */
module ClientPoolClass {
  import opened Outcomes
  import opened SpaceIndex
  import opened PoolModel

  /** mycsnode.ApiClient, as far as the pool uses it. */
  class ApiClient {
    const node: SpaceNode
    ghost const id: ClientID
    var stops: nat

    constructor (node: SpaceNode, ghost id: ClientID)
      ensures this.node == node && this.id == id && stops == 0
    {
      this.node := node;
      this.id := id;
      stops := 0;
    }

    method Stop()
      modifies this
      ensures stops == old(stops) + 1
    {
      stops := stops + 1;
    }
  }

  class ApiClientInstance {
    var refCount: int
    const apiClient: ApiClient

    constructor (apiClient: ApiClient)
      ensures this.apiClient == apiClient && refCount == 0
    {
      this.apiClient := apiClient;
      refCount := 0;
    }
  }

  /** How a Get ends. */
  datatype Acquisition = Acquired(client: ApiClient) | NotStarted | NotAuthenticated

  class ClientPool {
    var spaceAPIClients: map<string, ApiClientInstance>

    /** Every client ever put into the pool; a client's id is its position. */
    ghost var created: seq<ApiClient>

    // The model's pool, field by field.
    ghost var slots: map<string, Slot>
    ghost var keys: seq<string>
    ghost var stops: seq<nat>
    ghost var held: multiset<ClientID>
    ghost var timedOut: multiset<ClientID>

    ghost function Model(): Pool reads this {
      Pool(slots, keys, stops, held, timedOut)
    }

    /** The entry for k is as in the model. */
    ghost predicate Represents(k: string)
      requires k in spaceAPIClients
      reads `spaceAPIClients, `slots, `created, {spaceAPIClients[k]}`refCount
    {
      var inst := spaceAPIClients[k];
      && k in slots
      && inst.refCount == slots[k].refCount
      && inst.apiClient.id == slots[k].client < |created|
      && created[inst.apiClient.id] == inst.apiClient && inst.apiClient.node.key == k
    }

    ghost predicate Entries() reads `spaceAPIClients, `slots, `created, spaceAPIClients.Values`refCount {
      && slots.Keys == spaceAPIClients.Keys
      && forall k | k in spaceAPIClients :: Represents(k)
    }

    ghost predicate Numbered(i: nat)
      requires i < |created|
      reads `created, `keys, `stops, {created[i]}`stops
    {
      && i < |keys| && i < |stops|
      && created[i].id == i && created[i].node.key == keys[i] && created[i].stops == stops[i]
    }

    ghost predicate Clients() reads `created, `keys, `stops, created`stops {
      |created| == |keys| == |stops| && forall i: nat | i < |created| :: Numbered(i)
    }

    ghost predicate Valid()
      reads `spaceAPIClients, `slots, `created, `keys, `stops, spaceAPIClients.Values`refCount, created`stops
    {
      Entries() && Clients()
    }

    constructor ()
      ensures Valid() && Model() == NO_CLIENTS && created == [] && spaceAPIClients == map[]
    {
      spaceAPIClients, created := map[], [];
      slots, keys, stops, held, timedOut := map[], [], [], multiset{}, multiset{};
    }

    /** Makes a client, which is not in the pool yet. */
    method NewClient(space: SpaceNode) returns (apiClient: ApiClient)
      requires Clients()
      modifies `created, `keys, `stops
      ensures Clients() && fresh(apiClient) && apiClient.node == space && apiClient.id == |old(created)|
      ensures created == old(created) + [apiClient]
      ensures keys == old(keys) + [space.key] && stops == old(stops) + [0]
    {
      apiClient := new ApiClient(space, |created|);
      created, keys, stops := created + [apiClient], keys + [space.key], stops + [0];
      forall i: nat | i < |created| ensures Numbered(i) {
        if i < |created| - 1 { assert old(Numbered(i)); }
      }
    }

    method AddClient(space: SpaceNode) returns (ref: ApiClientInstance)
      requires Valid() && space.key !in spaceAPIClients
      modifies `spaceAPIClients, `created, `slots, `keys, `stops
      ensures Valid() && Model() == PoolNew(old(Model()), space.key)
      ensures fresh(ref) && fresh(ref.apiClient) && ref.apiClient.node == space
      ensures ref.apiClient.id == |old(keys)|
      ensures spaceAPIClients == old(spaceAPIClients)[space.key := ref]
      ensures created == old(created) + [ref.apiClient]
    {
      var apiClient := NewClient(space);
      ref := new ApiClientInstance(apiClient);
      spaceAPIClients := spaceAPIClients[space.key := ref];
      slots := slots[space.key := Slot(apiClient.id, 0)];
      forall k | k in spaceAPIClients ensures Represents(k) {
        if k != space.key { assert old(Represents(k)); }
      }
    }

    /** Sets the refCount of a pooled client. */
    method Count(key: string, refCount: int)
      requires Entries() && key in spaceAPIClients
      modifies spaceAPIClients[key], `slots
      ensures Entries() && spaceAPIClients[key].refCount == refCount
      ensures slots == old(slots)[key := old(slots)[key].(refCount := refCount)]
    {
      var ref := spaceAPIClients[key];
      assert Represents(key);
      ref.refCount := refCount;
      slots := slots[key := slots[key].(refCount := refCount)];
      forall k | k in spaceAPIClients ensures Represents(k) { assert old(Represents(k)); }
    }

    method ShareClient(key: string) returns (ref: ApiClientInstance)
      requires Valid() && key in spaceAPIClients
      modifies spaceAPIClients[key], `slots
      ensures Valid() && Model() == PoolShare(old(Model()), key)
      ensures ref == spaceAPIClients[key]
    {
      ref := spaceAPIClients[key];
      assert Represents(key);
      Count(key, ref.refCount + 1);
    }

    method UnshareClient(key: string)
      requires Valid() && key in spaceAPIClients && spaceAPIClients[key].refCount != 0
      modifies spaceAPIClients[key], `slots
      ensures Valid() && Model() == ReleaseKey(old(Model()), key)
    {
      assert Represents(key);
      Count(key, spaceAPIClients[key].refCount - 1);
    }

    /** Stops a client. */
    method StopClient(apiClient: ApiClient)
      requires Clients() && apiClient in created
      modifies apiClient, `stops
      ensures Clients() && apiClient.id < |old(stops)|
      ensures stops == old(stops)[apiClient.id := old(stops)[apiClient.id] + 1]
    {
      ghost var i: nat :| i < |created| && created[i] == apiClient;
      assert Numbered(i);
      apiClient.Stop();
      stops := stops[i := stops[i] + 1];
      forall j: nat | j < |created| ensures Numbered(j) { assert old(Numbered(j)); }
    }

    method DropClient(key: string)
      requires Valid() && key in spaceAPIClients && spaceAPIClients[key].refCount == 0
      modifies spaceAPIClients[key].apiClient, `stops, `slots, `spaceAPIClients
      ensures Valid() && Model() == ReleaseKey(old(Model()), key)
      ensures spaceAPIClients == old(spaceAPIClients) - {key}
    {
      var ref := spaceAPIClients[key];
      assert Represents(key);
      spaceAPIClients, slots := spaceAPIClients - {key}, slots - {key};
      StopClient(ref.apiClient);
      forall k | k in spaceAPIClients ensures Represents(k) { assert old(Represents(k)); }
    }

    /** The part of GetApiClientForSpace that takes the reference. */
    method TakeReference(space: SpaceNode, startup: Startup) returns (ref: Option<ApiClientInstance>)
      requires Valid()
      modifies `spaceAPIClients, `created, `slots, `keys, `stops, spaceAPIClients.Values
      ensures Valid()
      ensures ref == None <==> space.key !in old(slots) && startup == Refused
      ensures ref == None ==> Model() == old(Model())
      ensures ref.Some? ==>
                && Model() == TakeStep(old(Model()), space.key)
                && ref.value.apiClient.id == ClientFor(old(Model()), space.key) && ref.value.apiClient in created
      ensures ref.Some? && space.key !in old(slots) ==>
                && fresh(ref.value) && spaceAPIClients == old(spaceAPIClients)[space.key := ref.value]
                && fresh(ref.value.apiClient) && created == old(created) + [ref.value.apiClient]
      ensures ref == None || space.key in old(slots) ==>
                spaceAPIClients == old(spaceAPIClients) && created == old(created)
    {
      if space.key !in spaceAPIClients {
        if startup == Refused {
          return None;
        }
        var added := AddClient(space);
        return Some(added);
      }
      assert Represents(space.key);
      var shared := ShareClient(space.key);
      return Some(shared);
    }

    /** A reference is handed out or, after a timeout, kept. */
    ghost method Record(c: ClientID, authenticated: bool)
      requires Valid()
      modifies `held, `timedOut
      ensures Valid()
      ensures held == old(held) + if authenticated then multiset{c} else multiset{}
      ensures timedOut == old(timedOut) + if authenticated then multiset{} else multiset{c}
    {
      if authenticated {
        held := held + multiset{c};
      } else {
        timedOut := timedOut + multiset{c};
      }
    }

    /** `startup` tells whether NewApiClient and Start succeed, should a client
        have to be made, and `authenticated` what WaitForAuth answers. */
    method GetApiClientForSpace(space: SpaceNode, startup: Startup, authenticated: bool)
      returns (r: Acquisition)
      requires Valid()
      modifies this, spaceAPIClients.Values
      ensures Valid()
      ensures |slots| == |old(slots)| ==> spaceAPIClients == old(spaceAPIClients) && created == old(created)
      ensures |slots| != |old(slots)| ==>
                && space.key in spaceAPIClients && fresh(spaceAPIClients[space.key])
                && spaceAPIClients == old(spaceAPIClients)[space.key := spaceAPIClients[space.key]]
                && fresh(spaceAPIClients[space.key].apiClient)
                && created == old(created) + [spaceAPIClients[space.key].apiClient]
      ensures Model() == GetStep(old(Model()), space.key, startup, authenticated)
      ensures r == NotStarted <==> space.key !in old(slots) && startup == Refused
      ensures r.Acquired? <==> Granted(old(Model()), space.key, startup, authenticated) != multiset{}
      ensures r.Acquired? ==>
                && r.client in created
                && Granted(old(Model()), space.key, startup, authenticated) == multiset{r.client.id}
    {
      var ref := TakeReference(space, startup);
      if ref == None {
        return NotStarted;
      }
      Record(ref.value.apiClient.id, authenticated);
      return if authenticated then Acquired(ref.value.apiClient) else NotAuthenticated;
    }

    /** With the counts conserved, a client that someone holds is running and
        is the one the pool finds under the key by which it is released. */
    lemma HeldClientIsPooled(c: ApiClient)
      requires Valid() && Conserved(Model()) && c in created && c.id in held
      ensures c.stops == 0
      ensures c.node.key in spaceAPIClients && spaceAPIClients[c.node.key].apiClient == c
      ensures spaceAPIClients[c.node.key].refCount + 1 == References(Model(), c.id)
    {
      var i: nat :| i < |created| && created[i] == c;
      assert Numbered(i) && ClientConserved(Model(), c.id);
      assert Represents(c.node.key);
    }

    method ReleaseApiClientForSpace(apiClient: ApiClient)
      requires Valid()
      modifies this, created, spaceAPIClients.Values
      ensures Valid() && created == old(created)
      ensures spaceAPIClients.Keys <= old(spaceAPIClients.Keys)
      ensures forall k | k in spaceAPIClients :: spaceAPIClients[k] == old(spaceAPIClients)[k]
      ensures apiClient in created ==>
                apiClient.id < |old(keys)| && Model() == ReleaseStep(old(Model()), apiClient.id)
      ensures apiClient !in created ==> Model() == ReleaseKey(old(Model()), apiClient.node.key)
    {
      var key := apiClient.node.key;
      if apiClient in created {
        ghost var i: nat :| i < |created| && created[i] == apiClient;
        assert Numbered(i);
        held := held - multiset{apiClient.id};
      }
      if key in spaceAPIClients {
        assert Represents(key);
        if spaceAPIClients[key].refCount == 0 {
          DropClient(key);
        } else {
          UnshareClient(key);
        }
      }
    }
  }
}
