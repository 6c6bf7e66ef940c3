/**
 * NumericMapedFields: a map from a field code to a signed 64-bit value, where -1 marks a field whose
 * value is not specified. It holds the parameters of the forwarding algorithms and the node's
 * network metrics.
 */
module NumericMapedFields {
  import opened Wire

  const UNSPECIFIED: int64 := -1
  const INT64_MAX: int := 0x7FFF_FFFF_FFFF_FFFF

  /** std::out_of_range from map::at. */
  datatype FieldError = OutOfRange

  /** The keys whose value is specified (not negative). */
  function Specified<K>(fields: map<K, int64>): (r: set<K>)
    ensures r <= fields.Keys
  {
    set k | k in fields && fields[k] >= 0
  }

  class NumericMapedFields<K(==)> {
    var fields: map<K, int64>

    /** The constructor resets an empty map: no fields. */
    constructor()
      ensures fields == map[]
    {
      fields := map[];
    }

    /** setField: the entry for key is value, created when absent; the others are unchanged. */
    method SetField(key: K, value: int64)
      modifies this
      ensures fields == old(fields)[key := value]
    {
      fields := fields[key := value];
    }

    /** getFieldAt: the value of key, or out_of_range when the map has no such key. */
    method GetFieldAt(key: K) returns (r: Result<int64, FieldError>)
      ensures key in fields ==> r == Ok(fields[key])
      ensures key !in fields ==> r == Err(OutOfRange)
    {
      if key in fields {
        r := Ok(fields[key]);
      } else {
        r := Err(OutOfRange);
      }
    }

    /**
     * incrementField: operator[] creates the entry at 0 when absent, then it is incremented; the new
     * value is returned as a uint64. A signed overflow past the int64 maximum is undefined, so the
     * value must be below it.
     */
    method IncrementField(key: K) returns (r: uint64)
      requires key !in fields || fields[key] < INT64_MAX
      modifies this
      ensures key in fields && fields == old(fields)[key := fields[key]]
      ensures fields[key] == (if key in old(fields) then old(fields)[key] else 0) + 1
      ensures r == U64(fields[key])
    {
      var v := if key in fields then fields[key] else 0;
      fields := fields[key := v + 1];
      r := U64(v + 1);
    }

    /** reset: every value becomes -1 and the keys stay, one entry at a time. */
    method Reset()
      modifies this
      ensures fields.Keys == old(fields).Keys
      ensures forall k | k in fields :: fields[k] == UNSPECIFIED
    {
      var todo := fields.Keys;
      while todo != {}
        invariant todo <= fields.Keys && fields.Keys == old(fields).Keys
        invariant forall k | k in fields && k !in todo :: fields[k] == UNSPECIFIED
        decreases |todo|
      {
        var k :| k in todo;
        fields := fields[k := UNSPECIFIED];
        todo := todo - {k};
      }
    }

    /** getNumberOfSpecifiedValues: counts the entries with a value >= 0 in a uint8 counter. */
    method NumberOfSpecifiedValues() returns (r: uint8)
      ensures r == U8(|Specified(fields)|)
    {
      var todo := fields.Keys;
      var count: uint8 := 0;
      ghost var counted: set<K> := {};
      ghost var n: nat := 0;
      while todo != {}
        invariant todo <= fields.Keys && counted == Specified(fields) - todo
        invariant n == |counted| && count == U8(n)
        decreases |todo|
      {
        var k :| k in todo;
        CountStep(fields, todo, counted, k);
        if fields[k] >= 0 {
          WrapStep(n, count);
          count := if count == 255 then 0 else count + 1;
          counted := counted + {k};
          n := n + 1;
        }
        todo := todo - {k};
      }
      r := count;
    }

    /** isEmpty: the map has no keys. */
    method IsEmpty() returns (r: bool)
      ensures r <==> fields.Keys == {}
    {
      r := |fields| == 0;
    }
  }

  /** One key taken from those still to visit: it is counted exactly when its value is specified. */
  lemma CountStep<K>(fields: map<K, int64>, todo: set<K>, counted: set<K>, k: K)
    requires todo <= fields.Keys && counted == Specified(fields) - todo && k in todo
    ensures fields[k] >= 0 ==> k !in counted && Specified(fields) - (todo - {k}) == counted + {k}
    ensures fields[k] < 0 ==> Specified(fields) - (todo - {k}) == counted
  {
  }

  /** A uint8 counter incremented with wrap-around keeps counting modulo 256. */
  lemma WrapStep(n: nat, count: uint8)
    requires count == U8(n)
    ensures (if count == 255 then 0 else count + 1) == U8(n + 1)
  {
  }

  /** After a reset no field is specified. */
  lemma ResetClearsSpecified<K>(fields: map<K, int64>)
    requires forall k | k in fields :: fields[k] == UNSPECIFIED
    ensures Specified(fields) == {}
  {
  }

  /**
   * Setting a field adds its key to the specified ones exactly when the value is not negative, and
   * leaves the other keys as they were.
   */
  lemma SetFieldSpecified<K>(fields: map<K, int64>, key: K, value: int64)
    ensures Specified(fields[key := value]) == if value >= 0 then Specified(fields) + {key} else Specified(fields) - {key}
  {
  }

  /** The fields of a new object after setField(k, 0) for k = 0, 1, ..., n - 1. */
  function Filled(n: nat): (r: map<int, int64>)
    ensures forall k :: k in r <==> 0 <= k < n
  {
    if n == 0 then map[] else Filled(n - 1)[n - 1 := 0]
  }

  /** n fields set one by one are n specified values, which the uint8 counter reads modulo 256. */
  lemma {:induction false} FilledCount(n: nat)
    ensures |Specified(Filled(n))| == n
    ensures U8(|Specified(Filled(n))|) == n % 256
  {
    if n > 0 {
      FilledCount(n - 1);
      SetFieldSpecified(Filled(n - 1), n - 1, 0);
      assert n - 1 !in Specified(Filled(n - 1));
    }
  }

  /**
   * A map filled with 256 specified fields, one setField at a time, reports 0 specified values,
   * the same count as a new object.
   */
  lemma FullCountWraps()
    ensures |Specified(Filled(256))| == 256
    ensures U8(|Specified(Filled(256))|) == 0 == U8(|Specified(Filled(0))|)
  {
    FilledCount(256);
    FilledCount(0);
  }
}
