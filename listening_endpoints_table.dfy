/**
 * ListeningEndpointsTable: for each endpoint id, the list of the applications listening on it, in
 * registration order. update appends, getValues lists the ids, getValue returns one list, and clean
 * drops what has been inactive for the expiration time.
 */
module ListeningEndpointsTable {
  import opened Wire
  import opened Table

  /** An endpoint registration; lastActivity is the steady_clock reading of its last activity. */
  datatype Endpoint = Endpoint(id: Id, address: seq<byte>, port: uint16, socket: int, lastActivity: int)

  function IdOf(e: Endpoint): Id
  {
    e.id
  }

  /**
   * Endpoint::update, the entry update the Table template delegates to: the stored endpoint takes
   * the newer one's address, port and socket, and its activity restarts at now.
   */
  function Refresh(stored: Endpoint, newer: Endpoint, now: int): (r: Endpoint)
    ensures r.id == stored.id && r.lastActivity == now
    ensures r.address == newer.address && r.port == newer.port && r.socket == newer.socket
  {
    stored.(address := newer.address, port := newer.port, socket := newer.socket, lastActivity := now)
  }

  /** A Table of endpoints keeps every entry under its own id through any sequence of updates. */
  lemma RefreshKeepsId(t: Table<Endpoint>)
    requires t.idOf == IdOf && t.refresh == Refresh
    ensures t.RefreshKeepsId()
  {
  }

  function ActivityOf(e: Endpoint): int
  {
    e.lastActivity
  }

  /** What update makes of the table: the endpoint appended to the id's list, a new list if absent. */
  function Appended(values: map<Id, seq<Endpoint>>, endpointId: Id, endpoint: Endpoint): (r: map<Id, seq<Endpoint>>)
    ensures r.Keys == values.Keys + {endpointId}
    ensures r[endpointId] == (if endpointId in values then values[endpointId] else []) + [endpoint]
    ensures forall k | k in values && k != endpointId :: r[k] == values[k]
  {
    values[endpointId := (if endpointId in values then values[endpointId] else []) + [endpoint]]
  }

  /** As clean is written: a list is dropped only when it holds one endpoint and that one has expired. */
  predicate DroppedAsWritten(list: seq<Endpoint>, expirationTime: int, now: int)
  {
    |list| == 1 && Expired(list[0].lastActivity, expirationTime, now)
  }

  function CleanedAsWritten(values: map<Id, seq<Endpoint>>, expirationTime: int, now: int): (r: map<Id, seq<Endpoint>>)
    ensures r.Keys <= values.Keys
    ensures forall k | k in r :: r[k] == values[k]
  {
    map k | k in values && !DroppedAsWritten(values[k], expirationTime, now) :: values[k]
  }

  /** The endpoints of a list that have not expired, in their order. */
  function Live(list: seq<Endpoint>, expirationTime: int, now: int): (r: seq<Endpoint>)
    ensures |r| <= |list|
    ensures forall e :: e in r <==> e in list && !Expired(e.lastActivity, expirationTime, now)
  {
    if list == [] then []
    else
      var front := Live(list[..|list| - 1], expirationTime, now);
      var last := list[|list| - 1];
      assert list == list[..|list| - 1] + [last];
      if Expired(last.lastActivity, expirationTime, now) then front else front + [last]
  }

  /** clean as intended: every expired endpoint leaves its list, and an emptied list leaves the table. */
  function Cleaned(values: map<Id, seq<Endpoint>>, expirationTime: int, now: int): (r: map<Id, seq<Endpoint>>)
    ensures r.Keys <= values.Keys
  {
    map k | k in values && Live(values[k], expirationTime, now) != [] :: Live(values[k], expirationTime, now)
  }

  class ListeningEndpointsTable {
    var values: map<Id, seq<Endpoint>>

    constructor()
      ensures values == map[]
    {
      values := map[];
    }

    /** Every stored list is non-empty. */
    predicate Valid()
      reads this
    {
      forall k | k in values :: values[k] != []
    }

    /** update: the endpoint is appended to the list of its id, which is created when absent. */
    method Update(endpointId: Id, endpoint: Endpoint)
      modifies this
      ensures values == Appended(old(values), endpointId, endpoint)
      ensures old(Valid()) ==> Valid()
    {
      if endpointId in values {
        values := values[endpointId := values[endpointId] + [endpoint]];
      } else {
        var endpoints := [endpoint];
        assert endpoints == [] + [endpoint];
        values := values[endpointId := endpoints];
      }
    }

    /** getValues: every id once, ascending. */
    method GetValues() returns (keys: seq<Id>)
      ensures Ascending(keys) && |keys| == |values|
      ensures forall k :: k in keys <==> k in values
    {
      keys := KeysInOrder(values);
    }

    /** getValue: the list of the id, or TableException for an absent id. */
    method GetValue(name: Id) returns (r: Result<seq<Endpoint>, TableError>)
      ensures r.Ok? <==> name in values
      ensures r.Ok? ==> r.value == values[name]
      ensures r.Err? ==> r.error == ValueNotFound
    {
      if name in values {
        r := Ok(values[name]);
      } else {
        r := Err(ValueNotFound);
      }
    }

    /**
     * clean as written: for each expired endpoint the list is copied, the endpoint erased from the
     * copy, and the id erased when the copy is empty; the stored list itself never changes.
     */
    method Clean(expirationTime: int32, now: int)
      modifies this
      ensures values == CleanedAsWritten(old(values), expirationTime, now)
    {
      var todo := values.Keys;
      while todo != {}
        invariant todo <= old(values).Keys
        invariant forall k :: k in values <==> k in old(values) && (k in todo || !DroppedAsWritten(old(values)[k], expirationTime, now))
        invariant forall k | k in values :: values[k] == old(values)[k]
        decreases |todo|
      {
        var k :| k in todo;
        var list := values[k];
        ghost var before := values;
        for i := 0 to |list|
          invariant i < |list| ==> k in values && values[k] == list
          invariant values == if i == 1 && DroppedAsWritten(list, expirationTime, now) then before - {k} else before
        {
          if Expired(list[i].lastActivity, expirationTime, now) {
            var endpoints := values[k];
            endpoints := endpoints[..i] + endpoints[i + 1..];
            if |endpoints| == 0 {
              values := values - {k};
            }
          }
        }
        todo := todo - {k};
      }
    }

    /** clean as intended: expired endpoints leave the stored lists, and emptied lists leave the table. */
    method CleanExpired(expirationTime: int32, now: int)
      modifies this
      ensures values == Cleaned(old(values), expirationTime, now)
    {
      ghost var orig := values;
      var todo := values.Keys;
      while todo != {}
        invariant todo <= orig.Keys
        invariant CleanedBut(orig, values, todo, expirationTime, now)
        decreases |todo|
      {
        var k :| k in todo;
        var live := LiveEndpoints(values[k], expirationTime, now);
        ghost var before := values;
        if live == [] {
          values := values - {k};
        } else {
          values := values[k := live];
        }
        CleanStep(orig, before, values, todo, k, expirationTime, now);
        todo := todo - {k};
      }
      CleanDone(orig, values, expirationTime, now);
    }
  }

  /** The table part way through the intended clean: the ids in todo are untouched, the others cleaned. */
  ghost predicate CleanedBut(orig: map<Id, seq<Endpoint>>, values: map<Id, seq<Endpoint>>, todo: set<Id>,
                       expirationTime: int, now: int)
  {
    && (forall k :: k in values <==> k in orig && (k in todo || Live(orig[k], expirationTime, now) != []))
    && (forall k | k in values && k in todo :: values[k] == orig[k])
    && (forall k | k in values && k !in todo :: values[k] == Live(orig[k], expirationTime, now))
  }

  lemma CleanStep(orig: map<Id, seq<Endpoint>>, before: map<Id, seq<Endpoint>>, after: map<Id, seq<Endpoint>>,
                  todo: set<Id>, k: Id, expirationTime: int, now: int)
    requires k in todo && todo <= orig.Keys && CleanedBut(orig, before, todo, expirationTime, now)
    requires var live := Live(before[k], expirationTime, now);
      after == if live == [] then before - {k} else before[k := live]
    ensures CleanedBut(orig, after, todo - {k}, expirationTime, now)
  {
  }

  lemma CleanDone(orig: map<Id, seq<Endpoint>>, values: map<Id, seq<Endpoint>>, expirationTime: int, now: int)
    requires CleanedBut(orig, values, {}, expirationTime, now)
    ensures values == Cleaned(orig, expirationTime, now)
  {
  }

  /** The endpoints of one list that have not expired, kept in order. */
  method LiveEndpoints(list: seq<Endpoint>, expirationTime: int, now: int) returns (live: seq<Endpoint>)
    ensures live == Live(list, expirationTime, now)
  {
    live := [];
    for i := 0 to |list|
      invariant live == Live(list[..i], expirationTime, now)
    {
      assert list[..i + 1][..i] == list[..i];
      if !Expired(list[i].lastActivity, expirationTime, now) {
        live := live + [list[i]];
      }
    }
    assert list[..|list|] == list;
  }

  // ----- Properties -----

  /** Two registrations under one new id give a two-entry list, in registration order. */
  lemma TwoUpdates(values: map<Id, seq<Endpoint>>, endpointId: Id, first: Endpoint, second: Endpoint)
    requires endpointId !in values
    ensures Appended(Appended(values, endpointId, first), endpointId, second)[endpointId] == [first, second]
  {
  }

  /**
   * After the intended clean no expired endpoint is left, every live endpoint is still listed under
   * its id, and no list is empty.
   */
  lemma CleanedSpec(values: map<Id, seq<Endpoint>>, expirationTime: int, now: int)
    ensures forall k, e | k in Cleaned(values, expirationTime, now) && e in Cleaned(values, expirationTime, now)[k] ::
      k in values && e in values[k] && !Expired(e.lastActivity, expirationTime, now)
    ensures forall k, e | k in values && e in values[k] && !Expired(e.lastActivity, expirationTime, now) ::
      k in Cleaned(values, expirationTime, now) && e in Cleaned(values, expirationTime, now)[k]
    ensures forall k | k in Cleaned(values, expirationTime, now) :: Cleaned(values, expirationTime, now)[k] != []
  {
    var r := Cleaned(values, expirationTime, now);
    forall k | k in r
      ensures r[k] == Live(values[k], expirationTime, now)
    {
    }
  }

  /** Cleaning as intended twice at the same reading removes nothing more. */
  lemma {:induction false} CleanedIdempotent(values: map<Id, seq<Endpoint>>, expirationTime: int, now: int)
    ensures Cleaned(Cleaned(values, expirationTime, now), expirationTime, now) == Cleaned(values, expirationTime, now)
  {
    var once := Cleaned(values, expirationTime, now);
    forall k | k in once
      ensures Live(once[k], expirationTime, now) == once[k]
    {
      LiveOfLive(values[k], expirationTime, now);
    }
  }

  lemma {:induction false} LiveOfLive(list: seq<Endpoint>, expirationTime: int, now: int)
    ensures Live(Live(list, expirationTime, now), expirationTime, now) == Live(list, expirationTime, now)
    decreases |list|
  {
    if list != [] {
      var front := list[..|list| - 1];
      var last := list[|list| - 1];
      LiveOfLive(front, expirationTime, now);
      var f := Live(front, expirationTime, now);
      if !Expired(last.lastActivity, expirationTime, now) {
        assert (f + [last])[..|f + [last]| - 1] == f;
      }
    }
  }

  /**
   * The stored lists never shrink as clean is written: two expired endpoints under one id both
   * survive it, while the intended clean removes the id.
   */
  lemma AsWrittenKeepsExpiredPair(endpointId: Id, first: Endpoint, second: Endpoint, expirationTime: int, now: int)
    requires Expired(first.lastActivity, expirationTime, now) && Expired(second.lastActivity, expirationTime, now)
    ensures CleanedAsWritten(map[endpointId := [first, second]], expirationTime, now) == map[endpointId := [first, second]]
    ensures Cleaned(map[endpointId := [first, second]], expirationTime, now) == map[]
  {
    var list := [first, second];
    assert list[..|list| - 1] == [first];
    assert [first][..0] == [];
    assert Live(list, expirationTime, now) == [];
  }

  /** Both cleans agree on single-endpoint lists, the only ones registrations made one at a time with distinct ids produce. */
  lemma CleansAgreeOnSingletons(values: map<Id, seq<Endpoint>>, expirationTime: int, now: int)
    requires forall k | k in values :: |values[k]| == 1
    ensures CleanedAsWritten(values, expirationTime, now) == Cleaned(values, expirationTime, now)
  {
    forall k | k in values
      ensures Live(values[k], expirationTime, now) == if DroppedAsWritten(values[k], expirationTime, now) then [] else values[k]
    {
      var list := values[k];
      assert list[..0] == [];
    }
  }
}
