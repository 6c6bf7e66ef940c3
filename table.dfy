/**
 * Table: the node's tables map string ids to entries. update inserts the value of an absent id and
 * hands the new value to the stored entry's own update otherwise; getValues lists the ids in the
 * order in which a std::map visits them; getValue returns the entry or fails with TableException.
 * The id order, the in-order key listing and the activity clock are shared with the other tables.
 */
module Table {
  import opened Wire

  /** A std::string, as its bytes. */
  type Id = seq<byte>

  /** The exception a lookup of an absent id throws ("Value not found."). */
  datatype TableError = ValueNotFound

  // ----- The order of std::string keys -----

  /** std::string's operator<: byte-wise lexicographic order, a proper prefix first. */
  predicate Below(a: Id, b: Id)
    decreases |a|
  {
    |b| > 0 && (|a| == 0 || a[0] < b[0] || (a[0] == b[0] && Below(a[1..], b[1..])))
  }

  lemma {:induction false} BelowIrreflexive(a: Id)
    ensures !Below(a, a)
    decreases |a|
  {
    if |a| > 0 {
      BelowIrreflexive(a[1..]);
    }
  }

  lemma {:induction false} BelowTransitive(a: Id, b: Id, c: Id)
    requires Below(a, b) && Below(b, c)
    ensures Below(a, c)
    decreases |a|
  {
    if |a| > 0 && a[0] == b[0] && b[0] == c[0] {
      BelowTransitive(a[1..], b[1..], c[1..]);
    }
  }

  /** Any two ids are equal or ordered one way or the other. */
  lemma {:induction false} BelowTotal(a: Id, b: Id)
    ensures a == b || Below(a, b) || Below(b, a)
    decreases |a|
  {
    if |a| > 0 && |b| > 0 && a[0] == b[0] {
      BelowTotal(a[1..], b[1..]);
      if a[1..] == b[1..] {
        assert a == [a[0]] + a[1..] && b == [b[0]] + b[1..];
      }
    }
  }

  /** m is the least id of s. */
  predicate Least(m: Id, s: set<Id>)
  {
    m in s && forall k | k in s && k != m :: Below(m, k)
  }

  /** Adding x to a set whose least id is m leaves x or m least. */
  lemma LeastOfAdded(x: Id, rest: set<Id>, m: Id)
    requires Least(m, rest)
    ensures Least(x, rest + {x}) || Least(m, rest + {x})
  {
    BelowTotal(x, m);
    if Below(x, m) {
      forall k | k in rest + {x} && k != x
        ensures Below(x, k)
      {
        if k != m {
          BelowTransitive(x, m, k);
        }
      }
    }
  }

  /** A finite non-empty set of ids has a least one. */
  lemma {:induction false} LeastExists(s: set<Id>)
    requires s != {}
    ensures exists m :: Least(m, s)
    decreases |s|
  {
    var x :| x in s;
    var rest := s - {x};
    if rest == {} {
      assert s == {x};
      assert Least(x, s);
    } else {
      LeastExists(rest);
      var m :| Least(m, rest);
      LeastOfAdded(x, rest, m);
      assert rest + {x} == s;
    }
  }

  /** Strictly ascending, hence each id at most once. */
  predicate Ascending(ids: seq<Id>)
  {
    forall i, j | 0 <= i < j < |ids| :: Below(ids[i], ids[j])
  }

  /**
   * The ids of a map in the order a std::map iterates them: every key once, ascending.
   * getValues and getAppIds both copy the keys out in this order.
   */
  method KeysInOrder<V>(m: map<Id, V>) returns (keys: seq<Id>)
    ensures Ascending(keys) && |keys| == |m|
    ensures forall k :: k in keys <==> k in m
  {
    keys := [];
    var rest := m.Keys;
    while rest != {}
      invariant rest <= m.Keys && |keys| + |rest| == |m.Keys|
      invariant Ascending(keys)
      invariant forall k :: k in keys <==> k in m && k !in rest
      invariant forall i, k | 0 <= i < |keys| && k in rest :: Below(keys[i], k)
      decreases |rest|
    {
      LeastExists(rest);
      var least :| Least(least, rest);
      keys := keys + [least];
      rest := rest - {least};
    }
  }

  /** Two ascending lists of the same ids are the same list: the key listing is fully determined. */
  lemma {:induction false} AscendingUnique(a: seq<Id>, b: seq<Id>)
    requires Ascending(a) && Ascending(b)
    requires forall k :: k in a <==> k in b
    ensures a == b
    decreases |a|
  {
    SameEmpty(a, b);
    if a != [] {
      assert a[0] in a && b[0] in b;
      assert a[0] == b[0] by {
        var i :| 0 <= i < |a| && a[i] == b[0];
        var j :| 0 <= j < |b| && b[j] == a[0];
        if i != 0 && j != 0 {
          BelowTransitive(a[0], b[0], a[0]);
          BelowIrreflexive(a[0]);
        }
      }
      forall k | k in a[1..]
        ensures k in b[1..]
      {
        var i :| 1 <= i < |a| && a[i] == k;
        BelowIrreflexive(a[0]);
        assert k != b[0] && k in b;
        var j :| 0 <= j < |b| && b[j] == k;
        assert b[1..][j - 1] == k;
      }
      forall k | k in b[1..]
        ensures k in a[1..]
      {
        var j :| 1 <= j < |b| && b[j] == k;
        BelowIrreflexive(b[0]);
        assert k != a[0] && k in a;
        var i :| 0 <= i < |a| && a[i] == k;
        assert a[1..][i - 1] == k;
      }
      AscendingUnique(a[1..], b[1..]);
      assert a == [a[0]] + a[1..] && b == [b[0]] + b[1..];
    }
  }

  /** Lists of the same ids are both empty or both not. */
  lemma SameEmpty(a: seq<Id>, b: seq<Id>)
    requires forall k :: k in a <==> k in b
    ensures a == [] <==> b == []
  {
    if a != [] {
      assert a[0] in a;
    }
    if b != [] {
      assert b[0] in b;
    }
  }

  // ----- Activity time -----

  /** steady_clock counts nanoseconds. */
  const NANOS_PER_SECOND: int := 1_000_000_000

  /**
   * getElapsedActivityTime of an entry last active at lastActivity, read at now: the difference in
   * whole seconds, truncated toward zero as C++ integer division does.
   */
  function ElapsedSeconds(lastActivity: int, now: int): (r: int)
    ensures lastActivity <= now ==> 0 <= r && r * NANOS_PER_SECOND <= now - lastActivity < (r + 1) * NANOS_PER_SECOND
    ensures now < lastActivity ==> r <= 0 && -r * NANOS_PER_SECOND <= lastActivity - now < (-r + 1) * NANOS_PER_SECOND
  {
    if lastActivity <= now then (now - lastActivity) / NANOS_PER_SECOND
    else -((lastActivity - now) / NANOS_PER_SECOND)
  }

  /** The cleaners drop an entry whose elapsed time has reached the expiration time. */
  predicate Expired(lastActivity: int, expirationTime: int, now: int)
  {
    ElapsedSeconds(lastActivity, now) >= expirationTime
  }

  /** The entries a cleaner keeps: those not yet expired. */
  function Unexpired<V>(m: map<Id, V>, activity: V -> int, expirationTime: int, now: int): (r: map<Id, V>)
    ensures forall k | k in r :: k in m && r[k] == m[k] && !Expired(activity(m[k]), expirationTime, now)
    ensures forall k | k in m && !Expired(activity(m[k]), expirationTime, now) :: k in r
  {
    map k | k in m && !Expired(activity(m[k]), expirationTime, now) :: m[k]
  }

  /** Cleaning twice at the same reading removes nothing more. */
  lemma UnexpiredIdempotent<V>(m: map<Id, V>, activity: V -> int, expirationTime: int, now: int)
    ensures Unexpired(Unexpired(m, activity, expirationTime, now), activity, expirationTime, now)
         == Unexpired(m, activity, expirationTime, now)
  {
  }

  /** An entry that expires at a shorter expiration time is gone when that one is used. */
  lemma UnexpiredMonotone<V>(m: map<Id, V>, activity: V -> int, shorter: int, longer: int, now: int)
    requires shorter <= longer
    ensures Unexpired(m, activity, shorter, now).Keys <= Unexpired(m, activity, longer, now).Keys
  {
  }

  // ----- The table template -----

  /**
   * Table<T>: ids to entries. idOf is the entry's getId; refresh is the stored entry's own update,
   * given the new value and the clock reading at the call.
   */
  class Table<T(!new)> {
    const idOf: T -> Id
    const refresh: (T, T, int) -> T
    var values: map<Id, T>

    constructor(idOf: T -> Id, refresh: (T, T, int) -> T)
      ensures this.idOf == idOf && this.refresh == refresh && values == map[]
    {
      this.idOf := idOf;
      this.refresh := refresh;
      values := map[];
    }

    /** Every entry is stored under its own id. */
    predicate Valid()
      reads this
    {
      forall k | k in values :: idOf(values[k]) == k
    }

    /** The entry's update leaves its id alone. */
    ghost predicate RefreshKeepsId()
      reads this
    {
      forall stored, newer, now :: idOf(refresh(stored, newer, now)) == idOf(stored)
    }

    /**
     * update: an absent id gets the value itself; a present one keeps its entry, updated by the new
     * value. Either way the id is in the table afterwards and no other entry changes.
     */
    method Update(value: T, now: int)
      modifies this
      ensures var id := idOf(value);
        values == old(values)[id := if id in old(values) then refresh(old(values)[id], value, now) else value]
      ensures values.Keys == old(values).Keys + {idOf(value)}
      ensures old(Valid()) && RefreshKeepsId() ==> Valid()
    {
      var id := idOf(value);
      if id in values {
        values := values[id := refresh(values[id], value, now)];
      } else {
        values := values[id := value];
      }
    }

    /** getValues: every id once, ascending. */
    method GetValues() returns (keys: seq<Id>)
      ensures Ascending(keys) && |keys| == |values|
      ensures forall k :: k in keys <==> k in values
    {
      keys := KeysInOrder(values);
    }

    /** getValue: the stored entry, or TableException for an absent id. */
    method GetValue(name: Id) returns (r: Result<T, TableError>)
      ensures r.Ok? <==> name in values
      ensures r.Ok? ==> r.value == values[name]
      ensures r.Err? ==> r.error == ValueNotFound
    {
      if name in values {
        r := Ok(values[name]);
      } else {
        r := Err(ValueNotFound);
      }
    }
  }
}
