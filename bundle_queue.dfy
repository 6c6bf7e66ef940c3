/**
 * The byte-budgeted bundle queue: duplicate rejection, and a drop policy that either refuses a bundle
 * that does not fit or evicts queued bundles in the order a comparator gives until it fits.
 */
module BundleQueue {
  import opened Wire
  import opened BundleInfo

  /** A strict weak ordering on bundles: true when the first is to be dropped before the second. */
  type Comparator = (Info, Info) -> bool

  /** InBundleQueueException, and DroppedBundleQueueException with its two messages. */
  datatype QueueError = InBundleQueue | DroppedLarger | DroppedFull

  datatype QueueState = QueueState(
    bundles: seq<Info>,
    ids: set<Id>,
    byteSize: uint64,
    maxByteSize: uint64,
    lastId: Id)

  // ----- Sizes and ids -----

  /** The bytes the bundles take. */
  function Sum(bs: seq<Info>): nat
  {
    if bs == [] then 0 else Sum(bs[..|bs| - 1]) + bs[|bs| - 1].size
  }

  function Ids(bs: seq<Info>): set<Id>
  {
    set b | b in bs :: b.id
  }

  predicate Distinct(bs: seq<Info>)
  {
    forall i, j | 0 <= i < j < |bs| :: bs[i].id != bs[j].id
  }

  /** The queue invariant: the id set and the byte count match the queued bundles, within budget. */
  predicate Valid(q: QueueState)
  {
    q.ids == Ids(q.bundles) && Distinct(q.bundles) && q.byteSize == Sum(q.bundles)
    && q.byteSize <= q.maxByteSize
  }

  // ----- The eviction order: indices sorted by the comparator -----

  predicate Below(s: seq<nat>, n: nat)
  {
    forall k | 0 <= k < |s| :: s[k] < n
  }

  predicate DistinctIndices(s: seq<nat>)
  {
    forall j, k | 0 <= j < k < |s| :: s[j] != s[k]
  }

  /** Puts index i before the first index whose bundle it compares less than. */
  function Insert(i: nat, s: seq<nat>, bs: seq<Info>, comp: Comparator): (r: seq<nat>)
    requires i < |bs| && Below(s, |bs|)
    ensures |r| == |s| + 1 && Below(r, |bs|)
    ensures forall x :: x in r <==> x in s || x == i
  {
    if s == [] then [i]
    else if comp(bs[i], bs[s[0]]) then [i] + s
    else [s[0]] + Insert(i, s[1..], bs, comp)
  }

  /** The indices 0 .. n-1 sorted by the comparator on their bundles. */
  function SortIndices(bs: seq<Info>, n: nat, comp: Comparator): (r: seq<nat>)
    requires n <= |bs|
    ensures |r| == n && Below(r, |bs|)
    ensures forall x: nat :: x in r <==> x < n
  {
    if n == 0 then []
    else
      var s := SortIndices(bs, n - 1, comp);
      assert Below(s, |bs|);
      Insert(n - 1, s, bs, comp)
  }

  /** The order std::sort gives the queued bundles before eviction. */
  function Order(bs: seq<Info>, comp: Comparator): (r: seq<nat>)
    ensures |r| == |bs| && Below(r, |bs|)
  {
    SortIndices(bs, |bs|, comp)
  }

  predicate Sorted(s: seq<nat>, bs: seq<Info>, comp: Comparator)
    requires Below(s, |bs|)
  {
    forall j, k | 0 <= j < k < |s| :: !comp(bs[s[k]], bs[s[j]])
  }

  ghost predicate StrictWeakOrder(comp: Comparator)
  {
    (forall a :: !comp(a, a))
    && (forall a, b, c :: comp(a, b) && comp(b, c) ==> comp(a, c))
  }

  // ----- Eviction -----

  /**
   * The eviction loop: while the free bytes are fewer than the bundle needs, drop the next bundle in
   * the order. Returns how many were dropped and the bytes left. The loop in the source has no guard
   * for running out of bundles; under Valid it never does (EvictFits).
   */
  function Evict(bs: seq<Info>, order: seq<nat>, acc: int, size: nat, max: nat): (r: (nat, int))
    requires Below(order, |bs|)
    ensures r.0 <= |order|
    decreases |order|
  {
    if max - acc >= size || order == [] then (0, acc)
    else
      var rest := Evict(bs, order[1..], acc - bs[order[0]].size, size, max);
      (rest.0 + 1, rest.1)
  }

  /** The bundles whose index (below k) is not in gone, in queue order. */
  function Keep(bs: seq<Info>, gone: set<nat>, k: nat): (r: seq<Info>)
    requires k <= |bs|
    ensures |r| <= k
  {
    if k == 0 then []
    else Keep(bs, gone, k - 1) + (if k - 1 in gone then [] else [bs[k - 1]])
  }

  function Prefix(s: seq<nat>, k: nat): set<nat>
    requires k <= |s|
  {
    set j | 0 <= j < k :: s[j]
  }

  /** The branch enqueue takes for a bundle. */
  datatype Decision = Refuse(error: QueueError) | Append | MakeRoom

  /**
   * enqueue (BundleQueue.h): refuse a duplicate or the last dequeued id; append when it fits (the
   * sum is taken in uint64); refuse a bundle larger than the queue, or any bundle that does not fit
   * when drop is set; otherwise make room.
   */
  function Decide(q: QueueState, b: Info, drop: bool): Decision
  {
    if b.id in q.ids || b.id == q.lastId then Refuse(InBundleQueue)
    else if U64(q.byteSize + b.size) <= q.maxByteSize then Append
    else if b.size > q.maxByteSize then Refuse(DroppedLarger)
    else if drop then Refuse(DroppedFull)
    else MakeRoom
  }

  /** The bundle pushed at the back, its id recorded. */
  function Appended(q: QueueState, b: Info): QueueState
  {
    q.(bundles := q.bundles + [b], ids := q.ids + {b.id}, byteSize := U64(q.byteSize + b.size))
  }

  /**
   * Making room: evict in comparator order until the bundle fits, erase the evicted ids, then push
   * the bundle and record its id. The byte count is left to the caller, with the bytes left.
   */
  function Evicted(q: QueueState, b: Info, comp: Comparator): (QueueState, int)
  {
    var order := Order(q.bundles, comp);
    var (k, left) := Evict(q.bundles, order, q.byteSize, b.size, q.maxByteSize);
    var gone := Prefix(order, k);
    (q.(bundles := Keep(q.bundles, gone, |q.bundles|) + [b],
        ids := q.ids - IdsAt(q.bundles, gone) + {b.id}),
     left)
  }

  /** enqueue, with the byte count after an eviction being the bytes left plus the new bundle. */
  function Enqueued(q: QueueState, b: Info, drop: bool, comp: Comparator): (r: Result<QueueState, QueueError>)
    ensures r.Err? <==> Decide(q, b, drop).Refuse?
    ensures r.Ok? ==> r.value.bundles != [] && r.value.bundles[|r.value.bundles| - 1] == b && b.id in r.value.ids
    ensures r.Ok? ==> r.value.maxByteSize == q.maxByteSize && r.value.lastId == q.lastId
  {
    match Decide(q, b, drop)
      case Refuse(e) => Err(e)
      case Append => Ok(Appended(q, b))
      case MakeRoom =>
        var (next, left) := Evicted(q, b, comp);
        Ok(next.(byteSize := U64(left + b.size)))
  }

  /** enqueue as written: after an eviction the byte count is decreased by the new bundle's size. */
  function EnqueuedAsWritten(q: QueueState, b: Info, drop: bool, comp: Comparator): Result<QueueState, QueueError>
  {
    match Decide(q, b, drop)
      case Refuse(e) => Err(e)
      case Append => Ok(Appended(q, b))
      case MakeRoom =>
        var (next, _) := Evicted(q, b, comp);
        Ok(next.(byteSize := U64(q.byteSize - b.size)))
  }

  // ----- The order is a sorted permutation of the indices -----

  lemma {:induction false} InsertDistinct(i: nat, s: seq<nat>, bs: seq<Info>, comp: Comparator)
    requires i < |bs| && Below(s, |bs|) && DistinctIndices(s) && i !in s
    ensures DistinctIndices(Insert(i, s, bs, comp))
    decreases |s|
  {
    if s != [] && !comp(bs[i], bs[s[0]]) {
      InsertDistinct(i, s[1..], bs, comp);
      var t := Insert(i, s[1..], bs, comp);
      assert s[0] !in t by {
        assert s[0] !in s[1..];
      }
    }
  }

  lemma {:induction false} SortDistinct(bs: seq<Info>, n: nat, comp: Comparator)
    requires n <= |bs|
    ensures DistinctIndices(SortIndices(bs, n, comp))
  {
    if n > 0 {
      SortDistinct(bs, n - 1, comp);
      InsertDistinct(n - 1, SortIndices(bs, n - 1, comp), bs, comp);
    }
  }

  lemma {:induction false} InsertSorted(i: nat, s: seq<nat>, bs: seq<Info>, comp: Comparator)
    requires StrictWeakOrder(comp)
    requires i < |bs| && Below(s, |bs|) && Sorted(s, bs, comp)
    ensures Sorted(Insert(i, s, bs, comp), bs, comp)
    decreases |s|
  {
    if s == [] {
    } else if comp(bs[i], bs[s[0]]) {
      var r := [i] + s;
      forall j, k | 0 <= j < k < |r|
        ensures !comp(bs[r[k]], bs[r[j]])
      {
        if j == 0 {
          NotBefore(bs[r[k]], bs[i], bs[s[0]], comp);
        }
      }
    } else {
      InsertSorted(i, s[1..], bs, comp);
      var t := Insert(i, s[1..], bs, comp);
      var r := [s[0]] + t;
      forall j, k | 0 <= j < k < |r|
        ensures !comp(bs[r[k]], bs[r[j]])
      {
        if j == 0 {
          assert r[k] in t;
          if r[k] != i {
            var m :| 0 <= m < |s[1..]| && s[1..][m] == r[k];
            assert s[m + 1] == r[k];
          }
        } else {
          assert r[j] == t[j - 1] && r[k] == t[k - 1];
        }
      }
    }
  }

  /** Transitivity read backwards: if b is below c and a is not, a is not below b. */
  lemma NotBefore(a: Info, b: Info, c: Info, comp: Comparator)
    requires StrictWeakOrder(comp) && comp(b, c) && !comp(a, c)
    ensures !comp(a, b)
  {
  }

  lemma {:induction false} SortSorted(bs: seq<Info>, n: nat, comp: Comparator)
    requires StrictWeakOrder(comp) && n <= |bs|
    ensures Sorted(SortIndices(bs, n, comp), bs, comp)
  {
    if n > 0 {
      SortSorted(bs, n - 1, comp);
      InsertSorted(n - 1, SortIndices(bs, n - 1, comp), bs, comp);
    }
  }

  /**
   * The eviction order holds every queued index once, and with a strict weak ordering no bundle
   * comes after one it compares less than.
   */
  lemma OrderIsSortedPermutation(bs: seq<Info>, comp: Comparator)
    ensures DistinctIndices(Order(bs, comp))
    ensures forall j: nat :: j in Order(bs, comp) <==> j < |bs|
    ensures StrictWeakOrder(comp) ==> Sorted(Order(bs, comp), bs, comp)
  {
    SortDistinct(bs, |bs|, comp);
    if StrictWeakOrder(comp) {
      SortSorted(bs, |bs|, comp);
    }
  }

  // ----- What eviction keeps -----

  lemma SumSnoc(bs: seq<Info>, x: Info)
    ensures Sum(bs + [x]) == Sum(bs) + x.size
  {
    assert (bs + [x])[..|bs|] == bs;
  }

  lemma {:induction false} KeepNothingGone(bs: seq<Info>, gone: set<nat>, k: nat)
    requires k <= |bs| && forall j | 0 <= j < k :: j !in gone
    ensures Keep(bs, gone, k) == bs[..k]
  {
    if k > 0 {
      KeepNothingGone(bs, gone, k - 1);
      assert bs[..k] == bs[..k - 1] + [bs[k - 1]];
    }
  }

  lemma {:induction false} KeepAllGone(bs: seq<Info>, gone: set<nat>, k: nat)
    requires k <= |bs| && forall j | 0 <= j < k :: j in gone
    ensures Keep(bs, gone, k) == []
  {
    if k > 0 {
      KeepAllGone(bs, gone, k - 1);
    }
  }

  lemma KeepStep(bs: seq<Info>, gone: set<nat>, k: nat)
    requires 0 < k <= |bs|
    ensures Sum(Keep(bs, gone, k)) == Sum(Keep(bs, gone, k - 1)) + (if k - 1 in gone then 0 else bs[k - 1].size)
  {
    if k - 1 !in gone {
      SumSnoc(Keep(bs, gone, k - 1), bs[k - 1]);
    } else {
      assert Keep(bs, gone, k) == Keep(bs, gone, k - 1);
    }
  }

  /** The bytes of the bundles below k whose index is not in gone. */
  function KeptSize(bs: seq<Info>, gone: set<nat>, k: nat): nat
    requires k <= |bs|
  {
    if k == 0 then 0 else KeptSize(bs, gone, k - 1) + (if k - 1 in gone then 0 else bs[k - 1].size)
  }

  lemma {:induction false} KeptSizeIsSum(bs: seq<Info>, gone: set<nat>, k: nat)
    requires k <= |bs|
    ensures KeptSize(bs, gone, k) == Sum(Keep(bs, gone, k))
  {
    if k > 0 {
      KeptSizeIsSum(bs, gone, k - 1);
      KeepStep(bs, gone, k);
    }
  }

  /** Evicting one more queued bundle takes its bytes off what is kept. */
  lemma {:induction false} KeepOneMore(bs: seq<Info>, gone: set<nat>, more: set<nat>, i: nat, k: nat)
    requires k <= |bs| && i < k && i !in gone && more == gone + {i}
    ensures KeptSize(bs, gone, k) == KeptSize(bs, more, k) + bs[i].size
  {
    if i < k - 1 {
      KeepOneMore(bs, gone, more, i, k - 1);
    } else {
      KeptSizeSame(bs, gone, more, k - 1);
    }
  }

  lemma {:induction false} KeptSizeSame(bs: seq<Info>, a: set<nat>, b: set<nat>, k: nat)
    requires k <= |bs| && forall j | 0 <= j < k :: j in a <==> j in b
    ensures KeptSize(bs, a, k) == KeptSize(bs, b, k)
  {
    if k > 0 {
      KeptSizeSame(bs, a, b, k - 1);
    }
  }

  lemma PrefixNext(order: seq<nat>, m: nat)
    requires m < |order| && DistinctIndices(order)
    ensures Prefix(order, m + 1) == Prefix(order, m) + {order[m]}
    ensures order[m] !in Prefix(order, m)
  {
  }

  /** Every index below n occurs in the order. */
  predicate Covers(order: seq<nat>, n: nat)
  {
    forall j | 0 <= j < n :: j in Prefix(order, |order|)
  }

  lemma CoversAll(order: seq<nat>, n: nat)
    requires Covers(order, n)
    ensures forall j | 0 <= j < n :: j in Prefix(order, |order|)
  {
  }

  /** The bytes counted after the eviction loop has dropped the first m bundles of the order. */
  function Left(bs: seq<Info>, order: seq<nat>, m: nat): int
    requires Below(order, |bs|) && m <= |order|
  {
    if m == 0 then Sum(bs) else Left(bs, order, m - 1) - bs[order[m - 1]].size
  }

  /**
   * The eviction loop from any point m of the order, when the count is right there and dropping the
   * whole order would leave nothing: it stops within the order, with room for the new bundle, and
   * its count is that of the point where it stops.
   */
  lemma {:induction false} EvictLeft(bs: seq<Info>, order: seq<nat>, m: nat, acc: int, size: nat, max: nat)
    requires Below(order, |bs|) && m <= |order| && acc == Left(bs, order, m)
    requires size <= max && Left(bs, order, |order|) == 0
    ensures m + Evict(bs, order[m..], acc, size, max).0 <= |order|
    ensures Evict(bs, order[m..], acc, size, max).1 == Left(bs, order, m + Evict(bs, order[m..], acc, size, max).0)
    ensures max - Evict(bs, order[m..], acc, size, max).1 >= size
    decreases |order| - m
  {
    if max - acc >= size {
    } else if m == |order| {
    } else {
      assert order[m..][1..] == order[m + 1..];
      EvictLeft(bs, order, m + 1, acc - bs[order[m]].size, size, max);
    }
  }

  /** The count after m evictions is the size of the bundles the first m of the order leave. */
  lemma {:induction false} LeftIsKept(bs: seq<Info>, order: seq<nat>, m: nat)
    requires Below(order, |bs|) && DistinctIndices(order) && m <= |order|
    ensures Left(bs, order, m) == Sum(Keep(bs, Prefix(order, m), |bs|))
  {
    LeftIsKeptSize(bs, order, m);
    KeptSizeIsSum(bs, Prefix(order, m), |bs|);
  }

  lemma {:induction false} LeftIsKeptSize(bs: seq<Info>, order: seq<nat>, m: nat)
    requires Below(order, |bs|) && DistinctIndices(order) && m <= |order|
    ensures Left(bs, order, m) == KeptSize(bs, Prefix(order, m), |bs|)
  {
    if m == 0 {
      assert Prefix(order, 0) == {};
      KeepNothingGone(bs, Prefix(order, 0), |bs|);
      assert bs[..|bs|] == bs;
      KeptSizeIsSum(bs, Prefix(order, 0), |bs|);
    } else {
      LeftIsKeptSize(bs, order, m - 1);
      PrefixNext(order, m - 1);
      KeepOneMore(bs, Prefix(order, m - 1), Prefix(order, m), order[m - 1], |bs|);
    }
  }

  /**
   * The eviction loop over a permutation of the queued indices, started from their total size: it
   * never runs out of bundles, it stops with room for the new one, and the bytes left are those of
   * the bundles it keeps.
   */
  lemma EvictFits(bs: seq<Info>, order: seq<nat>, size: nat, max: nat)
    requires Below(order, |bs|) && DistinctIndices(order) && Covers(order, |bs|) && size <= max
    ensures Evict(bs, order, Sum(bs), size, max).0 <= |order|
    ensures max - Evict(bs, order, Sum(bs), size, max).1 >= size
    ensures Evict(bs, order, Sum(bs), size, max).1
      == Sum(Keep(bs, Prefix(order, Evict(bs, order, Sum(bs), size, max).0), |bs|))
  {
    LeftIsKept(bs, order, |order|);
    CoversAll(order, |bs|);
    KeepAllGone(bs, Prefix(order, |order|), |bs|);
    assert order[0..] == order;
    EvictLeft(bs, order, 0, Sum(bs), size, max);
    LeftIsKept(bs, order, Evict(bs, order, Sum(bs), size, max).0);
  }

  // ----- What enqueue keeps -----

  lemma OrderCovers(bs: seq<Info>, comp: Comparator)
    ensures Covers(Order(bs, comp), |bs|) && DistinctIndices(Order(bs, comp))
  {
    var order := Order(bs, comp);
    OrderIsSortedPermutation(bs, comp);
    forall j | 0 <= j < |bs|
      ensures j in Prefix(order, |order|)
    {
      assert j in order;
      var m :| 0 <= m < |order| && order[m] == j;
    }
  }

  /** The ids of the kept bundles are those at the indices below k that are not gone. */
  lemma {:induction false} KeepIds(bs: seq<Info>, gone: set<nat>, k: nat)
    requires k <= |bs|
    ensures Ids(Keep(bs, gone, k)) == set j | 0 <= j < k && j !in gone :: bs[j].id
  {
    if k > 0 {
      KeepIds(bs, gone, k - 1);
      var prev := Keep(bs, gone, k - 1);
      if k - 1 in gone {
        assert Keep(bs, gone, k) == prev;
      } else {
        assert Ids(prev + [bs[k - 1]]) == Ids(prev) + {bs[k - 1].id};
      }
    }
  }

  lemma DistinctSnoc(bs: seq<Info>, x: Info)
    requires Distinct(bs) && x.id !in Ids(bs)
    ensures Distinct(bs + [x])
  {
    var r := bs + [x];
    forall i, j | 0 <= i < j < |r|
      ensures r[i].id != r[j].id
    {
      if j == |bs| {
        assert r[i] in bs;
      }
    }
  }

  /** Dropping bundles from a queue of distinct ids leaves distinct ids. */
  lemma {:induction false} KeepDistinct(bs: seq<Info>, gone: set<nat>, k: nat)
    requires k <= |bs| && Distinct(bs)
    ensures Distinct(Keep(bs, gone, k))
  {
    if k > 0 {
      KeepDistinct(bs, gone, k - 1);
      if k - 1 !in gone {
        KeepIds(bs, gone, k - 1);
        DistinctSnoc(Keep(bs, gone, k - 1), bs[k - 1]);
      }
    }
  }

  /** With distinct ids, keeping the bundles not gone removes exactly the ids of those gone. */
  lemma KeptIds(bs: seq<Info>, gone: set<nat>)
    requires Distinct(bs)
    ensures Ids(Keep(bs, gone, |bs|)) == Ids(bs) - IdsAt(bs, gone)
  {
    KeepIds(bs, gone, |bs|);
    var erased := IdsAt(bs, gone);
    forall x | x in Ids(bs) - erased
      ensures exists j :: 0 <= j < |bs| && j !in gone && bs[j].id == x
    {
      var b :| b in bs && b.id == x;
      var j :| 0 <= j < |bs| && bs[j] == b;
    }
  }

  /** The queue invariant after pushing a bundle that fits. */
  lemma AppendedValid(q: QueueState, b: Info, drop: bool)
    requires Valid(q) && q.byteSize + b.size < TWO_64 && Decide(q, b, drop) == Append
    ensures Valid(Appended(q, b))
  {
    SumSnoc(q.bundles, b);
    DistinctSnoc(q.bundles, b);
    assert Ids(q.bundles + [b]) == Ids(q.bundles) + {b.id};
  }

  /** The queue invariant after making room with the byte count corrected. */
  lemma EvictedValid(q: QueueState, b: Info, drop: bool, comp: Comparator)
    requires Valid(q) && Decide(q, b, drop) == MakeRoom
    ensures Valid(Enqueued(q, b, drop, comp).value)
  {
    var bs := q.bundles;
    var order := Order(bs, comp);
    OrderCovers(bs, comp);
    EvictFits(bs, order, b.size, q.maxByteSize);
    MadeRoom(q, b, drop, comp);
    var (k, left) := Evict(bs, order, q.byteSize, b.size, q.maxByteSize);
    PushedValid(bs, Prefix(order, k), b, left, q.maxByteSize, q.lastId);
  }

  lemma PushedIds(bs: seq<Info>, gone: set<nat>, b: Info)
    requires Distinct(bs) && b.id !in Ids(bs)
    ensures Ids(Keep(bs, gone, |bs|) + [b]) == Ids(bs) - IdsAt(bs, gone) + {b.id}
    ensures Distinct(Keep(bs, gone, |bs|) + [b])
  {
    var kept := Keep(bs, gone, |bs|);
    KeptIds(bs, gone);
    KeepDistinct(bs, gone, |bs|);
    DistinctSnoc(kept, b);
    assert Ids(kept + [b]) == Ids(kept) + {b.id};
  }

  /** Keeping some of a valid queue's bundles and pushing one with a new id, recounted, is valid. */
  lemma PushedValid(bs: seq<Info>, gone: set<nat>, b: Info, left: int, max: uint64, lastId: Id)
    requires Distinct(bs) && b.id !in Ids(bs)
    requires left == Sum(Keep(bs, gone, |bs|)) && left + b.size <= max
    ensures Valid(QueueState(Keep(bs, gone, |bs|) + [b], Ids(bs) - IdsAt(bs, gone) + {b.id},
      U64(left + b.size), max, lastId))
  {
    var kept := Keep(bs, gone, |bs|);
    PushedIds(bs, gone, b);
    SumSnoc(kept, b);
  }

  /**
   * enqueue keeps the queue invariant: the id set, the byte count and the budget still describe the
   * queued bundles. The byte count is taken in uint64, so the sum of the queued bytes and the new
   * bundle's must not wrap.
   */
  lemma EnqueueKeepsValid(q: QueueState, b: Info, drop: bool, comp: Comparator)
    requires Valid(q) && q.byteSize + b.size < TWO_64
    ensures Enqueued(q, b, drop, comp).Ok? ==> Valid(Enqueued(q, b, drop, comp).value)
  {
    match Decide(q, b, drop)
    case Refuse(_) =>
    case Append => AppendedValid(q, b, drop);
    case MakeRoom => EvictedValid(q, b, drop, comp);
  }

  /**
   * When enqueue fails and why: a queued or last dequeued id, a bundle larger than the queue, or a
   * bundle that does not fit when drop is set. On success the new bundle is at the back, the queued
   * bundles that stay keep their order, and nothing is dropped when the bundle fits.
   */
  lemma EnqueueOutcome(q: QueueState, b: Info, drop: bool, comp: Comparator)
    requires Valid(q) && q.byteSize + b.size < TWO_64
    ensures Enqueued(q, b, drop, comp) == Err(InBundleQueue)
      <==> (exists x :: x in q.bundles && x.id == b.id) || b.id == q.lastId
    ensures Enqueued(q, b, drop, comp) == Err(DroppedLarger)
      <==> (!(b.id in Ids(q.bundles) || b.id == q.lastId) && Sum(q.bundles) + b.size > q.maxByteSize
            && b.size > q.maxByteSize)
    ensures Enqueued(q, b, drop, comp) == Err(DroppedFull)
      <==> (!(b.id in Ids(q.bundles) || b.id == q.lastId) && Sum(q.bundles) + b.size > q.maxByteSize
            && b.size <= q.maxByteSize && drop)
    ensures Enqueued(q, b, drop, comp).Ok? ==>
      var r := Enqueued(q, b, drop, comp).value;
      r.lastId == q.lastId && r.maxByteSize == q.maxByteSize
      && exists gone: set<nat> :: r.bundles == Keep(q.bundles, gone, |q.bundles|) + [b]
    ensures Enqueued(q, b, drop, comp).Ok? && Sum(q.bundles) + b.size <= q.maxByteSize ==>
      Enqueued(q, b, drop, comp).value.bundles == q.bundles + [b]
  {
    if Enqueued(q, b, drop, comp).Ok? {
      var r := Enqueued(q, b, drop, comp).value;
      if Decide(q, b, drop) == Append {
        var none: set<nat> := {};
        KeepNothingGone(q.bundles, none, |q.bundles|);
        assert q.bundles[..|q.bundles|] == q.bundles;
        assert r.bundles == Keep(q.bundles, none, |q.bundles|) + [b];
      } else {
        var order := Order(q.bundles, comp);
        var k := Evict(q.bundles, order, q.byteSize, b.size, q.maxByteSize).0;
        assert r.bundles == Keep(q.bundles, Prefix(order, k), |q.bundles|) + [b];
      }
    }
  }

  /** A bundle of exactly the queue's capacity is accepted by an empty queue. */
  lemma ExactCapacity(q: QueueState, b: Info, drop: bool, comp: Comparator)
    requires Valid(q) && q.bundles == [] && b.size == q.maxByteSize && b.id != q.lastId
    ensures Enqueued(q, b, drop, comp) == Ok(q.(bundles := [b], ids := {b.id}, byteSize := q.maxByteSize))
  {
    assert q.ids == {} && q.byteSize == 0;
    assert Decide(q, b, drop) == Append;
    assert [] + [b] == [b] && {} + {b.id} == {b.id};
  }

  /**
   * The policy: with a strict weak ordering, no bundle that stays was to be dropped before one that
   * was evicted.
   */
  lemma EvictionFollowsComparator(q: QueueState, b: Info, drop: bool, comp: Comparator)
    requires Valid(q) && StrictWeakOrder(comp) && Decide(q, b, drop) == MakeRoom
    ensures
      var bs := q.bundles;
      var order := Order(bs, comp);
      var k := Evict(bs, order, q.byteSize, b.size, q.maxByteSize).0;
      forall i, j | i in Prefix(order, k) && 0 <= j < |bs| && j !in Prefix(order, k) :: !comp(bs[j], bs[i])
  {
    var bs := q.bundles;
    var order := Order(bs, comp);
    OrderIsSortedPermutation(bs, comp);
    OrderCovers(bs, comp);
    var k := Evict(bs, order, q.byteSize, b.size, q.maxByteSize).0;
    forall i, j | i in Prefix(order, k) && 0 <= j < |bs| && j !in Prefix(order, k)
      ensures !comp(bs[j], bs[i])
    {
      var p :| 0 <= p < k && order[p] == i;
      assert j in Prefix(order, |order|);
      var p' :| 0 <= p' < |order| && order[p'] == j;
      assert p < p';
    }
  }

  /** The queue's default comparator: the bundle created earlier is dropped first. */
  function OlderFirst(): (r: Comparator)
    ensures forall a, b :: r(a, b) <==> a.creationTimestamp < b.creationTimestamp
  {
    (a: Info, b: Info) => a.creationTimestamp < b.creationTimestamp
  }

  /**
   * With the default comparator, making room evicts the oldest bundles: no bundle that stays was
   * created before one that was evicted.
   */
  lemma EvictsOldestFirst(q: QueueState, b: Info, drop: bool)
    requires Valid(q) && Decide(q, b, drop) == MakeRoom
    ensures
      var bs := q.bundles;
      var order := Order(bs, OlderFirst());
      var k := Evict(bs, order, q.byteSize, b.size, q.maxByteSize).0;
      forall i, j | i in Prefix(order, k) && 0 <= j < |bs| && j !in Prefix(order, k) ::
        bs[i].creationTimestamp <= bs[j].creationTimestamp
  {
    assert StrictWeakOrder(OlderFirst());
    EvictionFollowsComparator(q, b, drop, OlderFirst());
  }

  /**
   * The eviction stops as soon as the bundle fits: keeping the last bundle evicted would not have
   * left room for it.
   */
  lemma EvictionIsMinimal(q: QueueState, b: Info, drop: bool, comp: Comparator)
    requires Valid(q) && Decide(q, b, drop) == MakeRoom
    ensures
      var bs := q.bundles;
      var order := Order(bs, comp);
      var k := Evict(bs, order, q.byteSize, b.size, q.maxByteSize).0;
      k > 0 ==> Sum(Keep(bs, Prefix(order, k - 1), |bs|)) + b.size > q.maxByteSize
  {
    var bs := q.bundles;
    var order := Order(bs, comp);
    OrderCovers(bs, comp);
    var k := Evict(bs, order, q.byteSize, b.size, q.maxByteSize).0;
    assert order[0..] == order;
    EvictStopsEarly(bs, order, 0, q.byteSize, b.size, q.maxByteSize);
    if k > 0 {
      LeftIsKept(bs, order, k - 1);
    }
  }

  /** The eviction loop drops a bundle only while the bundle does not fit. */
  lemma {:induction false} EvictStopsEarly(bs: seq<Info>, order: seq<nat>, m: nat, acc: int, size: nat, max: nat)
    requires Below(order, |bs|) && m <= |order| && acc == Left(bs, order, m)
    ensures Evict(bs, order[m..], acc, size, max).0 > 0 ==>
      max - Left(bs, order, m + Evict(bs, order[m..], acc, size, max).0 - 1) < size
    decreases |order| - m
  {
    if max - acc < size && m < |order| {
      assert order[m..][1..] == order[m + 1..];
      EvictStopsEarly(bs, order, m + 1, acc - bs[order[m]].size, size, max);
    }
  }

  // ----- The byte count as written -----

  /**
   * Making room subtracts the new bundle's size from the count instead of recounting: one queued
   * bundle of 6 bytes in a 10-byte queue, and a new one of 8, leave a count that wraps below zero,
   * where the corrected count is the 8 bytes of the only bundle left.
   */
  lemma AsWrittenLosesCount(q: QueueState, a: Info, b: Info, comp: Comparator)
    requires q.bundles == [a] && q.ids == {a.id} && q.byteSize == 6 && q.maxByteSize == 10
    requires a.size == 6 && b.size == 8 && b.id != a.id && b.id != q.lastId
    ensures Valid(q)
    ensures EnqueuedAsWritten(q, b, false, comp).Ok?
    ensures EnqueuedAsWritten(q, b, false, comp).value.bundles == [b]
    ensures EnqueuedAsWritten(q, b, false, comp).value.byteSize == TWO_64 - 2
    ensures !Valid(EnqueuedAsWritten(q, b, false, comp).value)
    ensures Enqueued(q, b, false, comp) == Ok(q.(bundles := [b], ids := {b.id}, byteSize := 8))
  {
    assert Sum(q.bundles) == 6 by {
      assert q.bundles[..0] == [];
    }
    assert Ids(q.bundles) == {a.id};
    var order := Order(q.bundles, comp);
    assert order == [0];
    assert Evict(q.bundles, order, 6, 8, 10) == (1, 0);
    assert Prefix(order, 1) == {0};
    assert Keep(q.bundles, {0}, 1) == [];
    assert (set j | j in {0} && j < 1 :: q.bundles[j].id) == {a.id};
    assert q.ids - {a.id} + {b.id} == {b.id};
    assert [] + [b] == [b];
    var r := Evicted(q, b, comp);
    assert r.1 == 0;
    assert r.0.bundles == [b];
    assert r.0.ids == {b.id};
    assert Sum([b]) == 8 by {
      assert [b][..0] == [];
    }
  }

  // ----- Erasing the evicted indices from the highest down -----

  /** Inserts x into a strictly decreasing sequence. */
  function InsertDescending(x: nat, s: seq<nat>): (r: seq<nat>)
    ensures |r| == |s| + 1 && forall y :: y in r <==> y in s || y == x
  {
    if s == [] || x > s[0] then [x] + s else [s[0]] + InsertDescending(x, s[1..])
  }

  /** The indices sorted from the highest down, as std::sort with std::greater does. */
  function SortDescending(s: seq<nat>): (r: seq<nat>)
    ensures |r| == |s| && forall y :: y in r <==> y in s
  {
    if s == [] then [] else InsertDescending(s[0], SortDescending(s[1..]))
  }

  lemma SortedBelow(s: seq<nat>, n: nat)
    requires Below(s, n)
    ensures Below(SortDescending(s), n)
  {
    var r := SortDescending(s);
    forall k | 0 <= k < |r|
      ensures r[k] < n
    {
      assert r[k] in s;
    }
  }

  predicate Descending(s: seq<nat>)
  {
    forall j, k | 0 <= j < k < |s| :: s[j] > s[k]
  }

  lemma {:induction false} InsertKeepsDescending(x: nat, s: seq<nat>)
    requires Descending(s) && x !in s
    ensures Descending(InsertDescending(x, s))
    decreases |s|
  {
    if s != [] && x <= s[0] {
      assert x != s[0];
      assert x !in s[1..];
      InsertKeepsDescending(x, s[1..]);
      var r := InsertDescending(x, s);
      forall j, k | 0 <= j < k < |r|
        ensures r[j] > r[k]
      {
        if j == 0 {
          assert r[k] in s[1..] || r[k] == x;
        }
      }
    }
  }

  lemma {:induction false} SortIsDescending(s: seq<nat>)
    requires DistinctIndices(s)
    ensures Descending(SortDescending(s))
  {
    if s != [] {
      assert DistinctIndices(s[1..]);
      SortIsDescending(s[1..]);
      assert s[0] !in s[1..];
      InsertKeepsDescending(s[0], SortDescending(s[1..]));
    }
  }

  /**
   * Erasing index i when every index already erased is above it: the bundles below i have not
   * moved, and erasing at position i is dropping bundle i.
   */
  lemma {:induction false} KeepErase(bs: seq<Info>, gone: set<nat>, i: nat, k: nat)
    requires i < k <= |bs| && forall j | j in gone :: j > i
    ensures |Keep(bs, gone, k)| > i && Keep(bs, gone, k)[i] == bs[i]
    ensures Keep(bs, gone + {i}, k) == Keep(bs, gone, k)[..i] + Keep(bs, gone, k)[i + 1..]
  {
    if k == i + 1 {
      KeepNothingGone(bs, gone, k);
      KeepNothingGone(bs, gone + {i}, i);
      assert Keep(bs, gone + {i}, k) == Keep(bs, gone + {i}, i);
      assert bs[..k][..i] == bs[..i];
    } else {
      KeepErase(bs, gone, i, k - 1);
      var prev := Keep(bs, gone, k - 1);
      var e := if k - 1 in gone then [] else [bs[k - 1]];
      assert Keep(bs, gone, k) == prev + e;
      assert Keep(bs, gone + {i}, k) == Keep(bs, gone + {i}, k - 1) + e;
      assert (prev + e)[..i] == prev[..i];
      assert (prev + e)[i + 1..] == prev[i + 1..] + e;
    }
  }

  /** The ids of the bundles at the given indices. */
  function IdsAt(bs: seq<Info>, gone: set<nat>): set<Id>
  {
    set j | j in gone && j < |bs| :: bs[j].id
  }

  /**
   * The queue of BundleQueue.h: the bundles, their ids, the bytes they take, the budget and the id
   * of the last bundle dequeued.
   */
  class BundleQueue {
    var bundles: seq<Info>
    var bundleIds: set<Id>
    var queueByteSize: uint64
    var queueMaxByteSize: uint64
    var lastBundleId: Id

    function State(): QueueState
      reads this
    {
      QueueState(bundles, bundleIds, queueByteSize, queueMaxByteSize, lastBundleId)
    }

    /** An empty queue with the given byte budget. */
    constructor(queueByteSize: uint64)
      ensures State() == QueueState([], {}, 0, queueByteSize, [])
      ensures Valid(State())
    {
      bundles := [];
      bundleIds := {};
      this.queueByteSize := 0;
      queueMaxByteSize := queueByteSize;
      lastBundleId := [];
    }

    /** The number of queued bundles. */
    function GetSize(): (r: nat)
      reads this
      ensures r == |State().bundles|
    {
      |bundles|
    }

    /**
     * enqueue: an error and no change, or the next state of Enqueued.
     */
    method Enqueue(b: Info, drop: bool, comp: Comparator) returns (error: Option<QueueError>)
      requires Valid(State())
      modifies this
      ensures Enqueued(old(State()), b, drop, comp).Err? ==>
        error == Some(Enqueued(old(State()), b, drop, comp).error) && State() == old(State())
      ensures Enqueued(old(State()), b, drop, comp).Ok? ==>
        error == None && State() == Enqueued(old(State()), b, drop, comp).value
    {
      if b.id in bundleIds || b.id == lastBundleId {
        return Some(InBundleQueue);
      }
      if U64(queueByteSize + b.size) <= queueMaxByteSize {
        queueByteSize := U64(queueByteSize + b.size);
        bundles := bundles + [b];
        bundleIds := bundleIds + {b.id};
        return None;
      }
      if b.size > queueMaxByteSize {
        return Some(DroppedLarger);
      }
      if drop {
        return Some(DroppedFull);
      }
      MakeRoomFor(b, comp);
      return None;
    }

    /**
     * Making room: sorts the queued indices by the comparator, evicts from the front of that order
     * while the bundle does not fit, erases the evicted bundles from the highest index down, then
     * pushes the bundle.
     */
    method MakeRoomFor(b: Info, comp: Comparator)
      requires Valid(State()) && Decide(State(), b, false) == MakeRoom
      modifies this
      ensures State() == Enqueued(old(State()), b, false, comp).value
    {
      ghost var q := State();
      var order := Order(bundles, comp);
      OrderCovers(bundles, comp);
      EvictFits(bundles, order, b.size, queueMaxByteSize);
      var toRemove, accumulatedSize := SelectEvicted(order, b.size);
      var k := |toRemove|;
      var descending := SortDescending(toRemove);
      ErasedIsPrefix(order, k, |bundles|);
      EraseAll(descending);
      MadeRoom(q, b, false, comp);
      queueByteSize := U64(accumulatedSize + b.size);
      bundles := bundles + [b];
      bundleIds := bundleIds + {b.id};
    }

    /**
     * The eviction loop: takes indices from the front of the order while the bundle does not fit,
     * counting down from the queue's byte count. The order must be one on which the loop ends with
     * room (EvictFits).
     */
    method SelectEvicted(order: seq<nat>, size: uint64) returns (toRemove: seq<nat>, accumulatedSize: int)
      requires Below(order, |bundles|) && size <= queueMaxByteSize
      requires queueMaxByteSize - Evict(bundles, order, queueByteSize, size, queueMaxByteSize).1 >= size
      ensures toRemove == order[..Evict(bundles, order, queueByteSize, size, queueMaxByteSize).0]
      ensures accumulatedSize == Evict(bundles, order, queueByteSize, size, queueMaxByteSize).1
    {
      var k := Evict(bundles, order, queueByteSize, size, queueMaxByteSize).0;
      var left := Evict(bundles, order, queueByteSize, size, queueMaxByteSize).1;
      var rest := order;
      accumulatedSize := queueByteSize;
      toRemove := [];
      while queueMaxByteSize - accumulatedSize < size
        invariant |toRemove| <= |order| && rest == order[|toRemove|..] && toRemove == order[..|toRemove|]
        invariant Evict(bundles, rest, accumulatedSize, size, queueMaxByteSize) == (k - |toRemove|, left)
        decreases |rest|
      {
        accumulatedSize := accumulatedSize - bundles[rest[0]].size;
        toRemove := toRemove + [rest[0]];
        rest := rest[1..];
        assert order[|toRemove|..] == rest;
      }
    }

    /**
     * The erase loop: drops the bundle at each index, from the highest down, and its id. Because the
     * indices decrease, each one still points at the bundle it named before the loop.
     */
    method EraseAll(descending: seq<nat>)
      requires Below(descending, |bundles|) && Descending(descending)
      modifies this
      ensures bundles == Keep(old(bundles), Erased(descending, |descending|), |old(bundles)|)
      ensures bundleIds == old(bundleIds) - IdsAt(old(bundles), Erased(descending, |descending|))
      ensures queueByteSize == old(queueByteSize) && queueMaxByteSize == old(queueMaxByteSize)
      ensures lastBundleId == old(lastBundleId)
    {
      ghost var bs := bundles;
      KeepNothingGone(bs, Erased(descending, 0), |bs|);
      assert bs[..|bs|] == bs;
      for t := 0 to |descending|
        invariant bundles == Keep(bs, Erased(descending, t), |bs|)
        invariant bundleIds == old(bundleIds) - IdsAt(bs, Erased(descending, t))
        invariant queueByteSize == old(queueByteSize) && queueMaxByteSize == old(queueMaxByteSize)
        invariant lastBundleId == old(lastBundleId)
      {
        EraseStep(bs, descending, t);
        var i := descending[t];
        bundleIds := bundleIds - {bundles[i].id};
        bundles := bundles[..i] + bundles[i + 1..];
      }
    }
  }

  /** The state enqueue leaves after making room, spelled out field by field. */
  lemma MadeRoom(q: QueueState, b: Info, drop: bool, comp: Comparator)
    requires Decide(q, b, drop) == MakeRoom
    ensures
      var order := Order(q.bundles, comp);
      var (k, left) := Evict(q.bundles, order, q.byteSize, b.size, q.maxByteSize);
      Enqueued(q, b, drop, comp) == Ok(QueueState(
        Keep(q.bundles, Prefix(order, k), |q.bundles|) + [b],
        q.ids - IdsAt(q.bundles, Prefix(order, k)) + {b.id},
        U64(left + b.size), q.maxByteSize, q.lastId))
  {
  }

  /** Erasing the first k indices of the order, sorted from the highest down, erases its prefix. */
  lemma ErasedIsPrefix(order: seq<nat>, k: nat, n: nat)
    requires k <= |order| && Below(order, n) && DistinctIndices(order)
    ensures Below(SortDescending(order[..k]), n) && Descending(SortDescending(order[..k]))
    ensures Erased(SortDescending(order[..k]), k) == Prefix(order, k)
  {
    var toRemove := order[..k];
    assert DistinctIndices(toRemove);
    SortIsDescending(toRemove);
    SortedBelow(toRemove, n);
    var descending := SortDescending(toRemove);
    assert descending[..k] == descending;
    forall j
      ensures j in Erased(descending, k) <==> j in Prefix(order, k)
    {
      if j in toRemove {
        var p :| 0 <= p < k && toRemove[p] == j;
      }
    }
  }

  /** The indices erased after t steps of the erase loop. */
  function Erased(descending: seq<nat>, t: nat): set<nat>
    requires t <= |descending|
  {
    set j | j in descending[..t]
  }

  /** One step of the erase loop, from the indices already erased to one more. */
  lemma EraseStep(bs: seq<Info>, descending: seq<nat>, t: nat)
    requires Below(descending, |bs|) && Descending(descending) && t < |descending|
    ensures
      var done := Erased(descending, t);
      var i := descending[t];
      && |Keep(bs, done, |bs|)| > i && Keep(bs, done, |bs|)[i] == bs[i]
      && Keep(bs, done + {i}, |bs|) == Keep(bs, done, |bs|)[..i] + Keep(bs, done, |bs|)[i + 1..]
      && Erased(descending, t + 1) == done + {i}
      && IdsAt(bs, done + {i}) == IdsAt(bs, done) + {bs[i].id}
  {
    var done := Erased(descending, t);
    var i := descending[t];
    forall j | j in Erased(descending, t)
      ensures j > i
    {
      var p :| 0 <= p < t && descending[p] == j;
    }
    KeepErase(bs, done, i, |bs|);
    assert descending[..t + 1] == descending[..t] + [i];
  }
}
