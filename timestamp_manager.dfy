/**
 * TimestampManager: the creation timestamp of a bundle is the pair (seconds since the year 2000,
 * sequence number), and bundles created in the same second get consecutive sequence numbers. The
 * clock is a parameter: the Unix time that time(NULL) would return.
 */
module TimestampManager {
  import opened Wire

  /** Seconds from the Unix epoch to 2000-01-01 00:00:00 UTC. */
  const TIME_FROM_2000: int := 946684800

  /** The manager's state: the last timestamp handed out and its sequence number. */
  datatype Stamp = Stamp(timestamp: uint64, seqNum: uint64)

  /** The clock reading as the manager stores it: the difference is taken in uint64. */
  function Seconds(now: int64): (r: uint64)
    ensures now >= TIME_FROM_2000 ==> r == now - TIME_FROM_2000
  {
    U64(now - TIME_FROM_2000)
  }

  /** What getTimestamp makes of the state: a new second restarts at 0, the same second counts on (in uint64). */
  function Next(s: Stamp, now: int64): (r: Stamp)
    ensures r.timestamp == Seconds(now)
    ensures s.timestamp != Seconds(now) ==> r.seqNum == 0
    ensures s.timestamp == Seconds(now) ==> r.seqNum == U64(s.seqNum + 1)
  {
    var timestamp := Seconds(now);
    if timestamp != s.timestamp then Stamp(timestamp, 0) else Stamp(s.timestamp, U64(s.seqNum + 1))
  }

  /** Lexicographic order on (timestamp, sequence number). */
  predicate Before(a: Stamp, b: Stamp)
  {
    a.timestamp < b.timestamp || (a.timestamp == b.timestamp && a.seqNum < b.seqNum)
  }

  class TimestampManager {
    var lastTimestamp: uint64
    var lastSeqNum: uint64

    constructor()
      ensures lastTimestamp == 0 && lastSeqNum == 0
    {
      lastTimestamp := 0;
      lastSeqNum := 0;
    }

    function State(): Stamp
      reads this
    {
      Stamp(lastTimestamp, lastSeqNum)
    }

    /** getTimestamp: the new state, which is also the result. */
    method GetTimestamp(now: int64) returns (r: Stamp)
      modifies this
      ensures State() == Next(old(State()), now) && r == State()
    {
      var timestamp := Seconds(now);
      if timestamp != lastTimestamp {
        lastSeqNum := 0;
        lastTimestamp := timestamp;
      } else {
        lastSeqNum := U64(lastSeqNum + 1);
      }
      r := Stamp(lastTimestamp, lastSeqNum);
    }
  }

  // ----- Properties -----

  /**
   * With a clock that does not go back (both readings after 2000) and a sequence number below the
   * uint64 maximum, each new stamp comes strictly after the previous one.
   */
  lemma NextIncreases(s: Stamp, before: int64, now: int64)
    requires TIME_FROM_2000 <= before <= now && s.timestamp == Seconds(before)
    requires s.seqNum < TWO_64 - 1
    ensures Before(s, Next(s, now))
  {
  }

  /** Three calls within one second (the first in a new second) give sequence numbers 0, 1 and 2. */
  lemma SameSecond(s: Stamp, now: int64)
    requires s.timestamp != Seconds(now)
    ensures Next(s, now) == Stamp(Seconds(now), 0)
    ensures Next(Next(s, now), now) == Stamp(Seconds(now), 1)
    ensures Next(Next(Next(s, now), now), now) == Stamp(Seconds(now), 2)
  {
  }

  /** The stamps of calls in the same second never repeat while the counter does not wrap. */
  lemma {:induction false} CountsOn(s: Stamp, now: int64, k: nat)
    requires s.timestamp == Seconds(now) && s.seqNum + k < TWO_64
    ensures Iterate(s, now, k) == Stamp(s.timestamp, s.seqNum + k)
    decreases k
  {
    if k > 0 {
      CountsOn(s, now, k - 1);
    }
  }

  /** k calls at the same clock reading. */
  function Iterate(s: Stamp, now: int64, k: nat): Stamp
    decreases k
  {
    if k == 0 then s else Next(Iterate(s, now, k - 1), now)
  }

  /** At the uint64 maximum the counter wraps to 0 and the stamp repeats an earlier one. */
  lemma SequenceWraps(s: Stamp, now: int64)
    requires s.timestamp == Seconds(now) && s.seqNum == TWO_64 - 1
    ensures Next(s, now) == Stamp(s.timestamp, 0)
  {
  }
}
