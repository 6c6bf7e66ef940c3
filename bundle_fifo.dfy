/**
 * The older bundle queue of BundleQueue.cpp: a plain first-in first-out queue of bundle containers
 * with no budget and no duplicate check.
 */
module BundleFifo {
  import opened Wire

  /** EmptyBundleQueueException. */
  datatype FifoError = EmptyBundleQueue

  class BundleQueue<T> {
    var bundles: seq<T>

    constructor()
      ensures bundles == []
    {
      bundles := [];
    }

    /** enqueue: push at the back. */
    method Enqueue(bundle: T)
      modifies this
      ensures bundles == old(bundles) + [bundle]
    {
      bundles := bundles + [bundle];
    }

    /** dequeue: take the front, or fail on an empty queue and leave it empty. */
    method Dequeue() returns (r: Result<T, FifoError>)
      modifies this
      ensures old(bundles) == [] ==> r == Err(EmptyBundleQueue) && bundles == []
      ensures old(bundles) != [] ==> r == Ok(old(bundles)[0]) && bundles == old(bundles)[1..]
    {
      if |bundles| > 0 {
        r := Ok(bundles[0]);
        bundles := bundles[1..];
      } else {
        r := Err(EmptyBundleQueue);
      }
    }
  }

  /** A call on the queue: an enqueue of a bundle, or a dequeue. */
  datatype Op<T> = Push(bundle: T) | Pop

  /** The bundles a run of calls enqueues, in order. */
  function Pushed<T>(ops: seq<Op<T>>): seq<T>
  {
    if ops == [] then []
    else Pushed(ops[..|ops| - 1]) + (match ops[|ops| - 1] case Push(x) => [x] case Pop => [])
  }

  /** The bundles enqueued by two runs one after the other are those of the first, then the second. */
  lemma {:induction false} PushedAppend<T>(a: seq<Op<T>>, b: seq<Op<T>>)
    ensures Pushed(a + b) == Pushed(a) + Pushed(b)
    decreases |b|
  {
    if b != [] {
      var c := b[..|b| - 1];
      assert (a + b)[..|a + b| - 1] == a + c;
      PushedAppend(a, c);
    } else {
      assert a + b == a;
    }
  }

  /**
   * Runs the calls against the queue and collects what the dequeues return. First in, first out:
   * what comes out, followed by what is still queued, is what was queued before followed by what
   * was enqueued, in the same order. A failed dequeue returns nothing.
   */
  method Run<T>(q: BundleQueue<T>, ops: seq<Op<T>>) returns (out: seq<T>)
    modifies q
    ensures out + q.bundles == old(q.bundles) + Pushed(ops)
  {
    out := [];
    for i := 0 to |ops|
      invariant out + q.bundles == old(q.bundles) + Pushed(ops[..i])
    {
      assert ops[..i + 1][..i] == ops[..i];
      label Step:
      match ops[i]
      case Push(x) =>
        assert Pushed(ops[..i + 1]) == Pushed(ops[..i]) + [x];
        q.Enqueue(x);
        assert out + q.bundles == (out + old@Step(q.bundles)) + [x];
      case Pop =>
        assert Pushed(ops[..i + 1]) == Pushed(ops[..i]);
        var r := q.Dequeue();
        if r.Ok? {
          assert old@Step(q.bundles) == [r.value] + q.bundles;
          out := out + [r.value];
        }
    }
    assert ops[..|ops|] == ops;
  }
}
