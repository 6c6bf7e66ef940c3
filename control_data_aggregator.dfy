/**
 * ControlDataAggregator: the controller collects one map of metric or directive values per node
 * report (the raw data) and groups them into a canonical map from each code to the list of its
 * values, in report order. The raw data is held through a pointer that may be null.
 */
module ControlDataAggregator {
  import opened Wire

  /** The values of key k across the maps, in the order of the maps. */
  function Column<T, V>(maps: seq<map<T, V>>, k: T): (r: seq<V>)
    ensures |r| <= |maps|
  {
    if maps == [] then []
    else
      var last := maps[|maps| - 1];
      Column(maps[..|maps| - 1], k) + (if k in last then [last[k]] else [])
  }

  /** Every key of some map. */
  function AllKeys<T, V>(maps: seq<map<T, V>>): (r: set<T>)
    ensures forall i, k | 0 <= i < |maps| && k in maps[i] :: k in r
  {
    if maps == [] then {} else AllKeys(maps[..|maps| - 1]) + maps[|maps| - 1].Keys
  }

  /** The canonical form: each key with the list of its values. */
  function Group<T, V>(maps: seq<map<T, V>>): map<T, seq<V>>
  {
    map k | k in AllKeys(maps) :: Column(maps, k)
  }

  /** The entries of all maps together. */
  function Sizes<T, V>(maps: seq<map<T, V>>): nat
  {
    if maps == [] then 0 else Sizes(maps[..|maps| - 1]) + |maps[|maps| - 1]|
  }

  /** The number of values in the lists of a canonical map. */
  ghost function Count<T, V>(g: map<T, seq<V>>): nat
    decreases |g|
  {
    if g == map[] then 0
    else
      var k :| k in g;
      |g[k]| + Count(g - {k})
  }

  /**
   * The canonical map part-way through one raw map m: the grouping g of the maps before it, with
   * m's value appended for the keys already visited.
   */
  function Merge<T, V>(g: map<T, seq<V>>, m: map<T, V>, visited: set<T>): map<T, seq<V>>
    requires visited <= m.Keys
  {
    map k | k in g.Keys + visited :: (if k in g then g[k] else []) + (if k in visited then [m[k]] else [])
  }

  class ControlDataAggregator<T(==), V> {
    var rawData: Option<seq<map<T, V>>>
    var canonicalData: map<T, seq<V>>
    var aggregatedData: map<T, V>

    /** The constructor leaves the pointer unset; here it starts null, with nothing grouped. */
    constructor()
      ensures rawData == None && canonicalData == map[] && aggregatedData == map[]
    {
      rawData := None;
      canonicalData := map[];
      aggregatedData := map[];
    }

    /** init: a new raw data pointer, and the aggregated and canonical maps cleared. */
    method Init(rawData: Option<seq<map<T, V>>>)
      modifies this
      ensures this.rawData == rawData && canonicalData == map[] && aggregatedData == map[]
    {
      this.rawData := rawData;
      aggregatedData := map[];
      canonicalData := map[];
    }

    /**
     * getCanonicalData: when the raw data is set and nothing is grouped yet, every entry of every
     * map is appended to the list of its key; otherwise the cached canonical map is returned.
     */
    method GetCanonicalData() returns (r: map<T, seq<V>>)
      modifies this
      ensures rawData == old(rawData) && aggregatedData == old(aggregatedData)
      ensures old(rawData).Some? && old(canonicalData) == map[] ==> canonicalData == Group(rawData.value)
      ensures old(rawData).None? || old(canonicalData) != map[] ==> canonicalData == old(canonicalData)
      ensures r == canonicalData
    {
      if rawData.Some? && |canonicalData| == 0 {
        var maps := rawData.value;
        assert Group(maps[..0]) == canonicalData;
        for i := 0 to |maps|
          invariant rawData == old(rawData) && aggregatedData == old(aggregatedData)
          invariant canonicalData == Group(maps[..i])
        {
          canonicalData := AddEntries(canonicalData, maps[i]);
          GroupStep(maps[..i + 1]);
          assert maps[..i + 1][..i] == maps[..i];
        }
        assert maps[..|maps|] == maps;
      }
      r := canonicalData;
    }
  }

  /** The inner loop of getCanonicalData: every entry of one raw map appended to the list of its key. */
  method AddEntries<T, V>(canonical: map<T, seq<V>>, aMap: map<T, V>) returns (c: map<T, seq<V>>)
    ensures c == Merge(canonical, aMap, aMap.Keys)
  {
    c := canonical;
    var todo := aMap.Keys;
    MergeNone(canonical, aMap);
    while todo != {}
      invariant todo <= aMap.Keys
      invariant c == Merge(canonical, aMap, aMap.Keys - todo)
      decreases |todo|
    {
      var k :| k in todo;
      var values := if k in c then c[k] else [];
      VisitStep(canonical, aMap, todo, k, c, values);
      c := c[k := values + [aMap[k]]];
      todo := todo - {k};
    }
  }

  /** Visiting one more key of m appends its value to that key's list. */
  lemma MergeStep<T, V>(g: map<T, seq<V>>, m: map<T, V>, visited: set<T>, k: T)
    requires visited <= m.Keys && k in m && k !in visited
    ensures
      var h := Merge(g, m, visited);
      Merge(g, m, visited + {k}) == h[k := (if k in h then h[k] else []) + [m[k]]]
  {
    var h := Merge(g, m, visited);
    var h2 := Merge(g, m, visited + {k});
    var h3 := h[k := (if k in h then h[k] else []) + [m[k]]];
    assert h2.Keys == h3.Keys;
    if k in g {
      assert h[k] == g[k] + [];
    }
    forall j | j in h2
      ensures h2[j] == h3[j]
    {
    }
  }

  /** MergeStep in the terms of the loop: the keys still to visit. */
  lemma VisitStep<T, V>(g: map<T, seq<V>>, m: map<T, V>, todo: set<T>, k: T, c: map<T, seq<V>>, values: seq<V>)
    requires todo <= m.Keys && k in todo
    requires c == Merge(g, m, m.Keys - todo)
    requires values == if k in c then c[k] else []
    ensures Merge(g, m, m.Keys - (todo - {k})) == c[k := values + [m[k]]]
  {
    MergeStep(g, m, m.Keys - todo, k);
    assert m.Keys - todo + {k} == m.Keys - (todo - {k});
  }

  /** Before any key of m is visited the canonical map is unchanged. */
  lemma MergeNone<T, V>(g: map<T, seq<V>>, m: map<T, V>)
    ensures Merge(g, m, {}) == g
  {
    var h := Merge(g, m, {});
    assert h.Keys == g.Keys;
    forall k | k in g
      ensures h[k] == g[k]
    {
      assert h[k] == g[k] + [];
    }
  }

  /** A key no map has gets no values. */
  lemma {:induction false} ColumnOutside<T, V>(maps: seq<map<T, V>>, k: T)
    requires k !in AllKeys(maps)
    ensures Column(maps, k) == []
    decreases |maps|
  {
    if maps != [] {
      ColumnOutside(maps[..|maps| - 1], k);
    }
  }

  /** Visiting every key of the last map gives the grouping of all the maps. */
  lemma GroupStep<T, V>(maps: seq<map<T, V>>)
    requires maps != []
    ensures Group(maps) == Merge(Group(maps[..|maps| - 1]), maps[|maps| - 1], maps[|maps| - 1].Keys)
  {
    var front := maps[..|maps| - 1];
    var last := maps[|maps| - 1];
    var g := Group(maps);
    var h := Merge(Group(front), last, last.Keys);
    assert g.Keys == h.Keys;
    forall k | k in g
      ensures g[k] == h[k]
    {
      if k !in AllKeys(front) {
        ColumnOutside(front, k);
      }
    }
  }

  // ----- Properties of the grouping -----

  /** Each list holds exactly the values of its key, in order: the i-th map contributes m[k] when it has k. */
  lemma {:induction false} ColumnOfAppend<T, V>(maps: seq<map<T, V>>, m: map<T, V>, k: T)
    ensures Column(maps + [m], k) == Column(maps, k) + (if k in m then [m[k]] else [])
  {
    assert (maps + [m])[..|maps|] == maps;
  }

  /** A key is in the canonical map exactly when some raw map has it, and its list is never empty. */
  lemma {:induction false} GroupKeys<T, V>(maps: seq<map<T, V>>, k: T)
    ensures k in Group(maps) <==> exists i | 0 <= i < |maps| :: k in maps[i]
    ensures k in Group(maps) ==> |Group(maps)[k]| >= 1
    decreases |maps|
  {
    if maps != [] {
      var front := maps[..|maps| - 1];
      GroupKeys(front, k);
      if k in AllKeys(front) {
        var i :| 0 <= i < |front| && k in front[i];
        assert maps[i] == front[i];
      }
      if exists i | 0 <= i < |maps| :: k in maps[i] {
        var i :| 0 <= i < |maps| && k in maps[i];
        if i < |maps| - 1 {
          assert front[i] == maps[i];
        }
      }
    }
  }

  /** Removing any key of a canonical map removes exactly its values from the count. */
  lemma {:induction false} CountRemove<T, V>(g: map<T, seq<V>>, k: T)
    requires k in g
    ensures Count(g) == |g[k]| + Count(g - {k})
    decreases |g|
  {
    var j :| j in g && Count(g) == |g[j]| + Count(g - {j});
    if j != k {
      var gj := g - {j};
      var gk := g - {k};
      assert |gj| < |g|;
      CountRemove(gj, k);
      CountRemove(gk, j);
      assert gj - {k} == gk - {j};
    }
  }

  /** Setting one entry changes the count by the difference of the lists. */
  lemma CountUpdate<T, V>(g: map<T, seq<V>>, k: T, s: seq<V>)
    ensures Count(g[k := s]) == Count(g) - (if k in g then |g[k]| else 0) + |s|
  {
    CountRemove(g[k := s], k);
    assert g[k := s] - {k} == g - {k};
    if k in g {
      CountRemove(g, k);
    } else {
      assert g - {k} == g;
    }
  }

  /** One pass over the keys of m adds one value per visited key. */
  lemma {:induction false} MergeCount<T, V>(g: map<T, seq<V>>, m: map<T, V>, visited: set<T>)
    requires visited <= m.Keys
    ensures Count(Merge(g, m, visited)) == Count(g) + |visited|
    decreases |visited|
  {
    if visited == {} {
      MergeNone(g, m);
    } else {
      var k :| k in visited;
      var fewer := visited - {k};
      var h := Merge(g, m, fewer);
      MergeCount(g, m, fewer);
      MergeStep(g, m, fewer, k);
      assert fewer + {k} == visited;
      var s := (if k in h then h[k] else []) + [m[k]];
      CountUpdate(h, k, s);
      assert |s| == (if k in h then |h[k]| else 0) + 1;
    }
  }

  /** The canonical map holds as many values as there are entries in all the raw maps. */
  lemma {:induction false} GroupCount<T, V>(maps: seq<map<T, V>>)
    ensures Count(Group(maps)) == Sizes(maps)
    decreases |maps|
  {
    if maps == [] {
      assert Group(maps) == map[];
    } else {
      var front := maps[..|maps| - 1];
      var last := maps[|maps| - 1];
      GroupCount(front);
      GroupStep(maps);
      MergeCount(Group(front), last, last.Keys);
    }
  }
}
