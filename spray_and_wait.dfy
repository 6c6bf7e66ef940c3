/**
 * The spray-and-wait forwarding algorithm: a bundle carries a number of copies L in its
 * spray-and-wait metadata block; forwarding walks the neighbours in order, handing each one half
 * of the copies, until one copy is left or the neighbours run out. A send that fails gives its half
 * back.
 */
module SprayAndWait {
  import opened Wire
  import NumericMapedFields

  /** SprayAndWaitParameterCode. */
  datatype ParameterCode = NrOfCopies | Binary

  type Parameters = map<ParameterCode, int64>

  /** NetworkError::NEIGHBOUR_IN_QUEUE: the neighbour already holds the bundle. */
  const NEIGHBOUR_IN_QUEUE: uint8 := 0x06

  /**
   * What one call of the forward function does: it delivers, or throws a ForwardException that
   * carries an error code per neighbour.
   */
  datatype Outcome = Delivered | Failed(errors: map<string, uint8>)

  /** A call of the forward function: the neighbour and the copies the bundle's block held then. */
  datatype Send = Send(neighbour: string, copies: uint16)

  /** The result of the loop: whether every failure was a neighbour that had the bundle, the calls, the copies left. */
  datatype Spray = Spray(forwarded: bool, sends: seq<Send>, copies: uint16)

  /** errors()[neighbour]: operator[] reads an absent neighbour as 0, a socket error. */
  function ErrorFor(errors: map<string, uint8>, neighbour: string): uint8
  {
    if neighbour in errors then errors[neighbour] else 0
  }

  /** Whether the outcome of a call keeps the result true: it delivered, or the neighbour already had the bundle. */
  predicate Harmless(o: Outcome, neighbour: string)
  {
    o.Delivered? || ErrorFor(o.errors, neighbour) == NEIGHBOUR_IN_QUEUE
  }

  /**
   * The forwarding loop from neighbour i on with the given copies: while more than one copy is left
   * and neighbours remain, halve the copies, send, and double the half back on a failure. The
   * outcome of the call to neighbour i is outcome(i).
   */
  function SprayFrom(neighbours: seq<string>, outcome: nat -> Outcome, i: nat, copies: uint16): (r: Spray)
    ensures r.sends == [] <==> copies <= 1 || i >= |neighbours|
    ensures r.sends != [] ==> i + |r.sends| <= |neighbours|
    ensures r.copies <= copies
    decreases |neighbours| - i
  {
    if copies <= 1 || i >= |neighbours| then Spray(true, [], copies)
    else
      var half := copies / 2;
      var o := outcome(i);
      var rest := SprayFrom(neighbours, outcome, i + 1, if o.Delivered? then half else half * 2);
      Spray(Harmless(o, neighbours[i]) && rest.forwarded, [Send(neighbours[i], half)] + rest.sends, rest.copies)
  }

  /** The spray-and-wait block of a bundle: its fields, or None when the bundle has none. */
  class Bundle {
    var sprayAndWait: Option<Parameters>

    constructor(sprayAndWait: Option<Parameters>)
      ensures this.sprayAndWait == sprayAndWait
    {
      this.sprayAndWait := sprayAndWait;
    }
  }

  class SprayAndWaitAlgorithm {
    var parameters: Parameters

    /** The constructor from a parameter map. */
    constructor FromParameters(parameters: Parameters)
      ensures this.parameters == parameters
    {
      this.parameters := parameters;
    }

    /** The constructor from a number of copies and the binary flag. */
    constructor(nrofCopies: int16, binary: bool)
      ensures parameters == map[NrOfCopies := nrofCopies as int64, Binary := if binary then 1 else 0]
    {
      parameters := map[NrOfCopies := nrofCopies as int64, Binary := if binary then 1 else 0];
    }

    /** isBinary: the BINARY parameter as a boolean, out_of_range when absent. */
    method IsBinary() returns (r: Result<bool, NumericMapedFields.FieldError>)
      ensures Binary in parameters ==> r == Ok(parameters[Binary] != 0)
      ensures Binary !in parameters ==> r == Err(NumericMapedFields.OutOfRange)
    {
      if Binary in parameters {
        r := Ok(parameters[Binary] != 0);
      } else {
        r := Err(NumericMapedFields.OutOfRange);
      }
    }

    /** getNrofCopies: the NR_OF_COPIES parameter cast to uint16, out_of_range when absent. */
    method GetNrofCopies() returns (r: Result<uint16, NumericMapedFields.FieldError>)
      ensures NrOfCopies in parameters ==> r == Ok(U16(parameters[NrOfCopies]))
      ensures NrOfCopies !in parameters ==> r == Err(NumericMapedFields.OutOfRange)
    {
      if NrOfCopies in parameters {
        r := Ok(U16(parameters[NrOfCopies]));
      } else {
        r := Err(NumericMapedFields.OutOfRange);
      }
    }

    /** setNrofCopies: only the NR_OF_COPIES parameter changes. */
    method SetNrofCopies(nrofCopies: int16)
      modifies this
      ensures parameters == old(parameters)[NrOfCopies := nrofCopies as int64]
    {
      parameters := parameters[NrOfCopies := nrofCopies as int64];
    }

    /**
     * doForward: gives the bundle a spray-and-wait block built from the parameters when it has
     * none, then runs the forwarding loop from the NR_OF_COPIES parameter, writing the copies into
     * the block before each call and after each failure. The neighbour index is unbounded here.
     */
    method DoForward(bundle: Bundle, neighbours: seq<string>, outcome: nat -> Outcome)
      returns (r: Result<bool, NumericMapedFields.FieldError>, sends: seq<Send>)
      modifies bundle
      ensures
        var base := if old(bundle.sprayAndWait).Some? then old(bundle.sprayAndWait).value else parameters;
        if NrOfCopies !in parameters then
          r == Err(NumericMapedFields.OutOfRange) && sends == [] && bundle.sprayAndWait == Some(base)
        else
          var sp := SprayFrom(neighbours, outcome, 0, U16(parameters[NrOfCopies]));
          && r == Ok(sp.forwarded) && sends == sp.sends
          && bundle.sprayAndWait == Some(if sends == [] then base else base[NrOfCopies := sp.copies as int64])
    {
      if bundle.sprayAndWait.None? {
        bundle.sprayAndWait := Some(parameters);
      }
      var base := bundle.sprayAndWait.value;
      sends := [];
      if NrOfCopies !in parameters {
        return Err(NumericMapedFields.OutOfRange), sends;
      }
      var forwarded := true;
      var nrofCopies := U16(parameters[NrOfCopies]);
      ghost var whole := SprayFrom(neighbours, outcome, 0, nrofCopies);
      var i: nat := 0;
      while nrofCopies > 1 && i < |neighbours|
        invariant i <= |neighbours|
        invariant whole.forwarded == (forwarded && SprayFrom(neighbours, outcome, i, nrofCopies).forwarded)
        invariant whole.sends == sends + SprayFrom(neighbours, outcome, i, nrofCopies).sends
        invariant whole.copies == SprayFrom(neighbours, outcome, i, nrofCopies).copies
        invariant bundle.sprayAndWait == Some(if sends == [] then base else base[NrOfCopies := nrofCopies as int64])
        decreases |neighbours| - i
      {
        SprayStep(neighbours, outcome, i, nrofCopies, sends);
        nrofCopies := nrofCopies / 2;
        bundle.sprayAndWait := Some(base[NrOfCopies := nrofCopies as int64]);
        sends := sends + [Send(neighbours[i], nrofCopies)];
        match outcome(i) {
          case Delivered =>
          case Failed(errors) =>
            nrofCopies := nrofCopies * 2;
            bundle.sprayAndWait := Some(base[NrOfCopies := nrofCopies as int64]);
            if ErrorFor(errors, neighbours[i]) != NEIGHBOUR_IN_QUEUE {
              forwarded := false;
            }
        }
        i := i + 1;
      }
      r := Ok(forwarded);
    }
  }

  // ----- Properties of the forwarding loop -----

  /** One turn of the loop: the call to neighbour i, then the loop from i + 1. */
  lemma SprayStep(neighbours: seq<string>, outcome: nat -> Outcome, i: nat, copies: uint16, sends: seq<Send>)
    requires copies > 1 && i < |neighbours|
    ensures
      var rest := SprayFrom(neighbours, outcome, i + 1, if outcome(i).Delivered? then copies / 2 else copies / 2 * 2);
      var sp := SprayFrom(neighbours, outcome, i, copies);
      && sp.forwarded == (Harmless(outcome(i), neighbours[i]) && rest.forwarded)
      && sends + sp.sends == sends + [Send(neighbours[i], copies / 2)] + rest.sends
      && sp.copies == rest.copies
  {
  }

  /**
   * The forward function is called at most once per neighbour, in list order: the j-th call goes to
   * neighbour i + j. The loop stops only when at most one copy is left or the neighbours are done.
   */
  lemma {:induction false} SprayVisitsInOrder(neighbours: seq<string>, outcome: nat -> Outcome, i: nat, copies: uint16)
    requires i <= |neighbours|
    ensures |SprayFrom(neighbours, outcome, i, copies).sends| <= |neighbours| - i
    ensures forall j | 0 <= j < |SprayFrom(neighbours, outcome, i, copies).sends| ::
      SprayFrom(neighbours, outcome, i, copies).sends[j].neighbour == neighbours[i + j]
    ensures i + |SprayFrom(neighbours, outcome, i, copies).sends| < |neighbours| ==>
      SprayFrom(neighbours, outcome, i, copies).copies <= 1
    decreases |neighbours| - i
  {
    if copies > 1 && i < |neighbours| {
      var half := copies / 2;
      var o := outcome(i);
      var next := if o.Delivered? then half else half * 2;
      SprayVisitsInOrder(neighbours, outcome, i + 1, next);
      var rest := SprayFrom(neighbours, outcome, i + 1, next);
      var sp := SprayFrom(neighbours, outcome, i, copies);
      assert sp.sends == [Send(neighbours[i], half)] + rest.sends;
      assert sp.copies == rest.copies;
      forall j | 1 <= j < |sp.sends|
        ensures sp.sends[j].neighbour == neighbours[i + j]
      {
        assert sp.sends[j] == rest.sends[j - 1];
        assert i + j == (i + 1) + (j - 1);
      }
    } else {
      assert SprayFrom(neighbours, outcome, i, copies) == Spray(true, [], copies);
    }
  }

  /**
   * Each call hands over half of the copies left before it (integer division): the first call gets
   * half of the initial copies; after a delivery the next gets half of that, after a failure the
   * same again, since the half was doubled back; the copies left at the end are the last half, or
   * twice it after a failure. The j-th call's outcome is outcome(i + j).
   */
  predicate Halving(sends: seq<Send>, outcome: nat -> Outcome, i: nat, copies: uint16, left: uint16)
  {
    && (sends != [] ==> sends[0].copies == copies / 2)
    && (forall j | 0 <= j < |sends| - 1 ::
          sends[j + 1].copies == if outcome(i + j).Delivered? then sends[j].copies / 2 else sends[j].copies)
    && (sends == [] ==> left == copies)
    && (sends != [] ==>
          var last := |sends| - 1;
          left == if outcome(i + last).Delivered? then sends[last].copies else sends[last].copies * 2)
  }

  /** The forwarding loop halves the copies call by call. */
  lemma {:induction false} SprayHalves(neighbours: seq<string>, outcome: nat -> Outcome, i: nat, copies: uint16)
    ensures Halving(SprayFrom(neighbours, outcome, i, copies).sends, outcome, i, copies,
                    SprayFrom(neighbours, outcome, i, copies).copies)
    decreases |neighbours| - i
  {
    if copies > 1 && i < |neighbours| {
      var half := copies / 2;
      var o := outcome(i);
      var next := if o.Delivered? then half else half * 2;
      SprayHalves(neighbours, outcome, i + 1, next);
      var rest := SprayFrom(neighbours, outcome, i + 1, next);
      var sp := SprayFrom(neighbours, outcome, i, copies);
      HalvesCons(Send(neighbours[i], half), rest.sends, sp.sends, outcome, i, copies, next, rest.copies);
    }
  }

  /** The halving pattern of the calls carries over to one more call in front. */
  lemma HalvesCons(x: Send, rest: seq<Send>, all: seq<Send>, outcome: nat -> Outcome, i: nat,
                   copies: uint16, next: uint16, left: uint16)
    requires all == [x] + rest && x.copies == copies / 2
    requires next == if outcome(i).Delivered? then x.copies else x.copies * 2
    requires Halving(rest, outcome, i + 1, next, left)
    ensures Halving(all, outcome, i, copies, left)
  {
    forall j | 0 <= j < |all| - 1
      ensures all[j + 1].copies == if outcome(i + j).Delivered? then all[j].copies / 2 else all[j].copies
    {
      if j > 0 {
        assert all[j + 1] == rest[j] && all[j] == rest[j - 1] && i + j == i + 1 + (j - 1);
      }
    }
    if rest != [] {
      assert all[|all| - 1] == rest[|rest| - 1] && i + (|all| - 1) == i + 1 + (|rest| - 1);
    }
  }

  /**
   * The result is false exactly when some call failed with an error other than the neighbour
   * already holding the bundle.
   */
  lemma {:induction false} SprayForwarded(neighbours: seq<string>, outcome: nat -> Outcome, i: nat, copies: uint16)
    ensures SprayFrom(neighbours, outcome, i, copies).forwarded <==>
      AllHarmless(SprayFrom(neighbours, outcome, i, copies).sends, outcome, i)
    decreases |neighbours| - i
  {
    if copies > 1 && i < |neighbours| {
      var half := copies / 2;
      var o := outcome(i);
      var next := if o.Delivered? then half else half * 2;
      SprayForwarded(neighbours, outcome, i + 1, next);
      var rest := SprayFrom(neighbours, outcome, i + 1, next);
      var sp := SprayFrom(neighbours, outcome, i, copies);
      assert sp.sends == [Send(neighbours[i], half)] + rest.sends;
      AllHarmlessCons(Send(neighbours[i], half), rest.sends, outcome, i);
    }
  }

  /** Every call outcome in sends, the j-th being outcome(i + j), delivered or met a neighbour that had the bundle. */
  predicate AllHarmless(sends: seq<Send>, outcome: nat -> Outcome, i: nat)
  {
    forall j | 0 <= j < |sends| :: Harmless(outcome(i + j), sends[j].neighbour)
  }

  lemma AllHarmlessCons(x: Send, sends: seq<Send>, outcome: nat -> Outcome, i: nat)
    ensures AllHarmless([x] + sends, outcome, i) <==> Harmless(outcome(i), x.neighbour) && AllHarmless(sends, outcome, i + 1)
  {
    var xs := [x] + sends;
    if Harmless(outcome(i), x.neighbour) && AllHarmless(sends, outcome, i + 1) {
      forall j | 1 <= j < |xs|
        ensures Harmless(outcome(i + j), xs[j].neighbour)
      {
        assert xs[j] == sends[j - 1] && i + j == i + 1 + (j - 1);
      }
    }
    if AllHarmless(xs, outcome, i) {
      assert Harmless(outcome(i + 0), xs[0].neighbour);
      forall j | 0 <= j < |sends|
        ensures Harmless(outcome(i + 1 + j), sends[j].neighbour)
      {
        assert xs[j + 1] == sends[j] && i + (j + 1) == i + 1 + j;
      }
    }
  }

  /** The copies handed to neighbours whose call delivered. */
  function HandedOut(sends: seq<Send>, outcome: nat -> Outcome, i: nat): nat
    decreases |sends|
  {
    if sends == [] then 0
    else (if outcome(i).Delivered? then sends[0].copies as nat else 0) + HandedOut(sends[1..], outcome, i + 1)
  }

  /** No copies are created: those handed to neighbours that received the bundle plus those left never exceed the initial ones. */
  lemma {:induction false} SprayConservesCopies(neighbours: seq<string>, outcome: nat -> Outcome, i: nat, copies: uint16)
    ensures
      var sp := SprayFrom(neighbours, outcome, i, copies);
      HandedOut(sp.sends, outcome, i) + sp.copies as nat <= copies as nat
    decreases |neighbours| - i
  {
    if copies > 1 && i < |neighbours| {
      var half := copies / 2;
      var o := outcome(i);
      var next := if o.Delivered? then half else half * 2;
      SprayConservesCopies(neighbours, outcome, i + 1, next);
      var sp := SprayFrom(neighbours, outcome, i, copies);
      assert sp.sends[1..] == SprayFrom(neighbours, outcome, i + 1, next).sends;
    }
  }

  // ----- The loop as written: a uint8 neighbour index -----

  /** The loop's variables as written: the uint8 index i, the copies, the result so far. */
  datatype LoopState = LoopState(i: uint8, copies: uint16, forwarded: bool)

  /** The loop condition as written: copies > 1 && ++i < size, the increment wrapping at 256. */
  predicate GuardAsWritten(neighbours: seq<string>, s: LoopState)
  {
    s.copies > 1 && U8(s.i as int + 1) as int < |neighbours|
  }

  /** One iteration as written, once the condition has incremented i. */
  function StepAsWritten(neighbours: seq<string>, outcome: nat -> Outcome, s: LoopState): LoopState
    requires GuardAsWritten(neighbours, s)
  {
    var i := U8(s.i as int + 1);
    var half := s.copies / 2;
    var o := outcome(i as nat);
    LoopState(i, if o.Delivered? then half else half * 2, s.forwarded && Harmless(o, neighbours[i]))
  }

  /** k iterations as written, for as long as the condition holds. */
  function RunAsWritten(neighbours: seq<string>, outcome: nat -> Outcome, s: LoopState, k: nat): LoopState
    decreases k
  {
    if k == 0 || !GuardAsWritten(neighbours, s) then s
    else RunAsWritten(neighbours, outcome, StepAsWritten(neighbours, outcome, s), k - 1)
  }

  /**
   * As written the loop need not end: with at least 256 neighbours, an even number of copies and
   * every call failing, the index wraps from 255 to 0, the copies never change, and the condition
   * holds after any number of iterations, so the first neighbours are sent to again and again.
   */
  lemma {:induction false} AsWrittenNeverStops(neighbours: seq<string>, outcome: nat -> Outcome, s: LoopState, k: nat)
    requires |neighbours| >= 256 && s.copies >= 2 && s.copies % 2 == 0
    requires forall j: nat :: outcome(j).Failed?
    ensures
      var t := RunAsWritten(neighbours, outcome, s, k);
      && GuardAsWritten(neighbours, t) && t.copies == s.copies
      && t.i as int == (s.i as int + k) % 256
    decreases k
  {
    assert GuardAsWritten(neighbours, s);
    if k > 0 {
      var next := StepAsWritten(neighbours, outcome, s);
      assert next.copies == s.copies;
      AsWrittenNeverStops(neighbours, outcome, next, k - 1);
      WrapAdd(s.i as int, k);
    }
  }

  lemma WrapAdd(i: int, k: nat)
    requires 0 <= i < 256 && k > 0
    ensures (U8(i + 1) as int + (k - 1)) % 256 == (i + k) % 256
  {
  }
}
