/**
 * NeighbourTable: the node's single table of the neighbours its discovery has heard, by node id.
 * update records a beacon's address and port, cleanNeighbours drops the neighbours inactive for the
 * expiration time, and getNeighbours copies the table into a caller's map.
 */
module NeighbourTable {
  import opened Wire
  import opened Table

  /** A neighbour; lastActivity is the steady_clock reading taken when it was first recorded. */
  datatype Neighbour = Neighbour(nodeId: Id, nodeAddress: seq<byte>, nodePort: uint16, lastActivity: int)

  function ActivityOf(n: Neighbour): int
  {
    n.lastActivity
  }

  /**
   * What update makes of the table: a present neighbour takes the new address and port and keeps its
   * id and its activity time; an absent one is created with now as its activity time.
   */
  function Updated(neighbours: map<Id, Neighbour>, nodeId: Id, nodeAddress: seq<byte>, nodePort: uint16, now: int): (r: map<Id, Neighbour>)
    ensures r.Keys == neighbours.Keys + {nodeId}
    ensures r[nodeId].nodeAddress == nodeAddress && r[nodeId].nodePort == nodePort
    ensures nodeId in neighbours ==> r[nodeId].nodeId == neighbours[nodeId].nodeId && r[nodeId].lastActivity == neighbours[nodeId].lastActivity
    ensures nodeId !in neighbours ==> r[nodeId] == Neighbour(nodeId, nodeAddress, nodePort, now)
    ensures forall k | k in neighbours && k != nodeId :: r[k] == neighbours[k]
  {
    if nodeId in neighbours then
      neighbours[nodeId := neighbours[nodeId].(nodeAddress := nodeAddress, nodePort := nodePort)]
    else
      neighbours[nodeId := Neighbour(nodeId, nodeAddress, nodePort, now)]
  }

  /** std::map::insert of a range: the caller's entries stay, and the keys it lacks are added. */
  function InsertAbsent(into: map<Id, Neighbour>, from: map<Id, Neighbour>): (r: map<Id, Neighbour>)
    ensures r.Keys == into.Keys + from.Keys
    ensures forall k | k in into :: r[k] == into[k]
    ensures forall k | k in from && k !in into :: r[k] == from[k]
  {
    map k | k in into.Keys + from.Keys :: if k in into then into[k] else from[k]
  }

  class NeighbourTable {
    var neighbours: map<Id, Neighbour>

    constructor()
      ensures neighbours == map[]
    {
      neighbours := map[];
    }

    /** Every neighbour is stored under its own node id. */
    predicate Valid()
      reads this
    {
      forall k | k in neighbours :: neighbours[k].nodeId == k
    }

    /**
     * update: the address and the port of a present neighbour are overwritten, each only when it
     * differs; an absent neighbour is created.
     */
    method Update(nodeId: Id, nodeAddress: seq<byte>, nodePort: uint16, now: int)
      modifies this
      ensures neighbours == Updated(old(neighbours), nodeId, nodeAddress, nodePort, now)
      ensures old(Valid()) ==> Valid()
    {
      if nodeId in neighbours {
        if neighbours[nodeId].nodeAddress != nodeAddress {
          neighbours := neighbours[nodeId := neighbours[nodeId].(nodeAddress := nodeAddress)];
        }
        if neighbours[nodeId].nodePort != nodePort {
          neighbours := neighbours[nodeId := neighbours[nodeId].(nodePort := nodePort)];
        }
      } else {
        neighbours := neighbours[nodeId := Neighbour(nodeId, nodeAddress, nodePort, now)];
      }
    }

    /** cleanNeighbours: every neighbour whose elapsed time has reached the expiration time is erased. */
    method CleanNeighbours(expirationTime: int32, now: int)
      modifies this
      ensures neighbours == Unexpired(old(neighbours), ActivityOf, expirationTime, now)
      ensures old(Valid()) ==> Valid()
    {
      var todo := neighbours.Keys;
      while todo != {}
        invariant todo <= old(neighbours).Keys
        invariant forall k :: k in neighbours <==> k in old(neighbours) && (k in todo || !Expired(old(neighbours)[k].lastActivity, expirationTime, now))
        invariant forall k | k in neighbours :: neighbours[k] == old(neighbours)[k]
        decreases |todo|
      {
        var k :| k in todo;
        if Expired(neighbours[k].lastActivity, expirationTime, now) {
          neighbours := neighbours - {k};
        }
        todo := todo - {k};
      }
    }

    /** getNeighbours: the caller's map with every neighbour it does not already hold inserted. */
    method GetNeighbours(into: map<Id, Neighbour>) returns (r: map<Id, Neighbour>)
      ensures r == InsertAbsent(into, neighbours)
    {
      r := into;
      var todo := neighbours.Keys;
      while todo != {}
        invariant todo <= neighbours.Keys
        invariant forall k | k in into :: k in r && r[k] == into[k]
        invariant forall k | k in neighbours && k !in todo :: k in r
        invariant forall k | k in r :: k in into || (k in neighbours && r[k] == neighbours[k])
        decreases |todo|
      {
        var k :| k in todo;
        if k !in r {
          r := r[k := neighbours[k]];
        }
        todo := todo - {k};
      }
      InsertAbsentOf(r, into, neighbours);
    }
  }

  /** The holder of the single instance that getInstance hands out. */
  class Singleton {
    var instance: NeighbourTable?

    constructor()
      ensures instance == null
    {
      instance := null;
    }

    /** getInstance: the first call creates the table; every call returns the same one. */
    method GetInstance() returns (t: NeighbourTable)
      modifies this
      ensures old(instance) != null ==> t == old(instance) && instance == old(instance)
      ensures old(instance) == null ==> fresh(t) && t.neighbours == map[]
      ensures instance == t
    {
      if instance == null {
        instance := new NeighbourTable();
      }
      t := instance;
    }
  }

  /** A map holding the caller's entries and, besides, exactly the table's is the insertion's result. */
  lemma InsertAbsentOf(r: map<Id, Neighbour>, into: map<Id, Neighbour>, from: map<Id, Neighbour>)
    requires forall k | k in into :: k in r && r[k] == into[k]
    requires forall k | k in from :: k in r
    requires forall k | k in r :: k in into || (k in from && r[k] == from[k])
    ensures r == InsertAbsent(into, from)
  {
    assert r.Keys == InsertAbsent(into, from).Keys;
  }

  // ----- Properties -----

  /** Updating a present neighbour never changes the set of neighbours. */
  lemma UpdateKeepsKeys(neighbours: map<Id, Neighbour>, nodeId: Id, nodeAddress: seq<byte>, nodePort: uint16, now: int)
    requires nodeId in neighbours
    ensures Updated(neighbours, nodeId, nodeAddress, nodePort, now).Keys == neighbours.Keys
  {
  }

  /**
   * A neighbour that keeps sending beacons is still erased once the expiration time has passed since
   * it was first recorded: update does not restart its activity.
   */
  lemma UpdateDoesNotRefresh(neighbours: map<Id, Neighbour>, nodeId: Id, nodeAddress: seq<byte>, nodePort: uint16, now: int, expirationTime: int)
    requires nodeId in neighbours && Expired(neighbours[nodeId].lastActivity, expirationTime, now)
    ensures nodeId !in Unexpired(Updated(neighbours, nodeId, nodeAddress, nodePort, now), ActivityOf, expirationTime, now)
  {
  }

  /** getNeighbours into an empty map copies the whole table; into any map it overwrites nothing. */
  lemma InsertAbsentProperties(into: map<Id, Neighbour>, from: map<Id, Neighbour>)
    ensures InsertAbsent(map[], from) == from
    ensures InsertAbsent(into, from) == from + into
  {
  }
}
