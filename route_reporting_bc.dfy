/**
 * The bundle container of the route-reporting queue (RouteReportingBC): a bundle container that
 * also records the node it was queued on and the times it arrived and left. Its serialized form
 * adds the two times, printed in decimal, each after a newline, between the raw bundle and the
 * footer. The bundle parser is a parameter, as for the plain container.
 */
module RouteReportingBC {
  import opened Wire
  import opened Decimal
  import BC = BundleContainer

  const NEWLINE: byte := 10

  /**
   * The fields of a container: the node the bundle came from, the raw bundle (None until one is
   * parsed), the node id, and the two times (time_t, 64 bits).
   */
  datatype Fields = Fields(from: seq<byte>, bundle: Option<seq<byte>>, nodeId: seq<byte>,
    arrivalTime: int64, departureTime: int64)

  /** serialize: header, from, NUL, raw bundle, newline, arrival, newline, departure, footer. */
  function Serialize(f: Fields): (r: seq<byte>)
    requires f.bundle.Some?
    ensures |r| > |f.from| + |f.bundle.value| + 11
  {
    BC.HeaderText() + f.from + [0] + f.bundle.value + [NEWLINE] + ToDecimalSigned(f.arrivalTime)
    + [NEWLINE] + ToDecimalSigned(f.departureTime) + BC.FooterText()
  }

  /** substr(position + 1) after find("\n"): npos + 1 wraps to 0, so with no newline all of s is kept. */
  function AfterNewline(s: seq<byte>): (r: seq<byte>)
    ensures NEWLINE in s ==> |r| < |s| && r == s[|s| - |r|..]
    ensures NEWLINE !in s ==> r == s
  {
    match IndexOf(s, NEWLINE)
      case None => s
      case Some(i) => s[i + 1..]
  }

  /**
   * deserialize, step by step, from the fields as they were: the header; the id, stored at once in
   * from; then the rest (ParseBody). The result is the fields as the run leaves them and the error
   * that stopped it, if any.
   */
  function Parse(s: Fields, data: seq<byte>, parses: seq<byte> -> bool): (r: (Fields, Option<BC.ContainerError>))
    ensures r.1.None? ==> r.0.bundle.Some? && parses(r.0.bundle.value) && r.0.nodeId == r.0.from
  {
    if BC.HeaderValue(data) != BC.HEADER then (s, Some(BC.BadHeader))
    else if |data| < BC.HEADER_SIZE then (s, Some(BC.ContainerError.OutOfRange))
    else
      var afterHeader := data[BC.HEADER_SIZE..];
      var from := BC.FromField(afterHeader);
      if |from| + 1 > |afterHeader| then (s.(from := from), Some(BC.ContainerError.OutOfRange))
      else ParseBody(s.(from := from), afterHeader[|from| + 1..], parses)
  }

  /**
   * The bytes after the id's NUL: the raw bundle up to the first newline, which must parse; the
   * node id, set to from; the arrival time up to the next newline and the departure time up to the
   * footer, each read by atoi; then the footer.
   */
  function ParseBody(s: Fields, newData: seq<byte>, parses: seq<byte> -> bool): (r: (Fields, Option<BC.ContainerError>))
    ensures r.0.from == s.from
    ensures r.1.None? ==> r.0.bundle.Some? && parses(r.0.bundle.value) && r.0.nodeId == s.from
  {
    var bundleData := Before(newData, NEWLINE);
    if !parses(bundleData) then (s, Some(BC.BadBundle))
    else
      var times := AfterNewline(newData);
      var s2 := s.(bundle := Some(bundleData), nodeId := s.from,
        arrivalTime := Atoi(Before(times, NEWLINE)), departureTime := Atoi(BC.BeforeFooter(AfterNewline(times))));
      if |newData| < BC.FOOTER_SIZE then (s2, Some(BC.ContainerError.OutOfRange))
      else if BC.FooterValue(newData) != BC.FOOTER then (s2, Some(BC.BadFooter))
      else (s2, None)
  }

  class RouteReportingBC {
    var from: seq<byte>
    var bundle: Option<seq<byte>>
    var nodeId: seq<byte>
    var arrivalTime: int64
    var departureTime: int64

    function State(): Fields
      reads this
    {
      Fields(from, bundle, nodeId, arrivalTime, departureTime)
    }

    /** The container of a bundle queued on nodeId: from and the node id are both nodeId. */
    constructor(nodeId: seq<byte>, arrivalTime: int64, departureTime: int64, bundle: seq<byte>)
      ensures State() == Fields(nodeId, Some(bundle), nodeId, arrivalTime, departureTime)
    {
      this.from := nodeId;
      this.bundle := Some(bundle);
      this.nodeId := nodeId;
      this.arrivalTime := arrivalTime;
      this.departureTime := departureTime;
    }

    /** setDepartureTime: only the departure time changes. */
    method SetDepartureTime(departureTime: int64)
      modifies this
      ensures State() == old(State()).(departureTime := departureTime)
    {
      this.departureTime := departureTime;
    }

    /** deserialize: updates the fields step by step and stops at the first error. */
    method Deserialize(data: seq<byte>, parses: seq<byte> -> bool) returns (error: Option<BC.ContainerError>)
      modifies this
      ensures (State(), error) == Parse(old(State()), data, parses)
    {
      if BC.HeaderValue(data) != BC.HEADER {
        return Some(BC.BadHeader);
      }
      if |data| < BC.HEADER_SIZE {
        return Some(BC.ContainerError.OutOfRange);
      }
      var newData := data[BC.HEADER_SIZE..];
      from := BC.FromField(newData);
      if |from| + 1 > |newData| {
        return Some(BC.ContainerError.OutOfRange);
      }
      error := DeserializeBody(newData[|from| + 1..], parses);
    }

    /** The part of deserialize after the id's NUL. */
    method DeserializeBody(newData: seq<byte>, parses: seq<byte> -> bool) returns (error: Option<BC.ContainerError>)
      modifies this
      ensures (State(), error) == ParseBody(old(State()), newData, parses)
    {
      var bundleData := Before(newData, NEWLINE);
      if !parses(bundleData) {
        return Some(BC.BadBundle);
      }
      bundle := Some(bundleData);
      nodeId := from;
      var subData := AfterNewline(newData);
      arrivalTime := Atoi(Before(subData, NEWLINE));
      subData := AfterNewline(subData);
      departureTime := Atoi(BC.BeforeFooter(subData));
      if |newData| < BC.FOOTER_SIZE {
        return Some(BC.ContainerError.OutOfRange);
      }
      if BC.FooterValue(newData) != BC.FOOTER {
        return Some(BC.BadFooter);
      }
      return None;
    }
  }

  // ----- Round trip -----

  /** Reading the two times back: each runs up to the next newline, the second up to the footer. */
  lemma TimesRead(arrival: int64, departure: int64, times: seq<byte>)
    requires times == ToDecimalSigned(arrival) + [NEWLINE] + ToDecimalSigned(departure) + BC.FooterText()
    ensures Atoi(Before(times, NEWLINE)) == I32(arrival)
    ensures AfterNewline(times) == ToDecimalSigned(departure) + BC.FooterText()
    ensures Atoi(BC.BeforeFooter(AfterNewline(times))) == I32(departure)
  {
    var tail := ToDecimalSigned(departure) + BC.FooterText();
    Assoc(ToDecimalSigned(arrival) + [NEWLINE], ToDecimalSigned(departure), BC.FooterText());
    FieldRead(arrival, tail, times);
    FooterCut(departure, tail);
  }

  /** A printed time followed by a newline: atoi reads it back, and what follows the newline is the rest. */
  lemma FieldRead(i: int64, tail: seq<byte>, s: seq<byte>)
    requires s == ToDecimalSigned(i) + [NEWLINE] + tail
    ensures Atoi(Before(s, NEWLINE)) == I32(i)
    ensures AfterNewline(s) == tail
  {
    var a := ToDecimalSigned(i);
    DecimalSymbols(i, NEWLINE);
    BeforeOfConcat(a, NEWLINE, tail);
    assert s[|a| + 1..] == tail;
    assert a == a + [];
    AtoiOfSigned(i, []);
  }

  /** A printed time followed by the footer: atoi reads back what comes before the footer. */
  lemma FooterCut(i: int64, s: seq<byte>)
    requires s == ToDecimalSigned(i) + BC.FooterText()
    ensures Atoi(BC.BeforeFooter(s)) == I32(i)
  {
    assert BC.BeforeFooter(s) == ToDecimalSigned(i) + [];
    AtoiOfSigned(i, []);
  }

  /** The header and the id of a serialized container are read back; what follows is the body. */
  lemma ParseHead(s: Fields, from: seq<byte>, newData: seq<byte>, parses: seq<byte> -> bool)
    requires 0 !in from && |from| < BC.FROM_BUFFER
    ensures Parse(s, BC.HeaderText() + from + [0] + newData, parses) == ParseBody(s.(from := from), newData, parses)
  {
    var data := BC.HeaderText() + from + [0] + newData;
    assert data == BC.HeaderText() + (from + [0] + newData);
    BC.HeaderRead(from + [0] + newData);
    assert data[BC.HEADER_SIZE..] == from + [0] + newData;
    BC.SplitFrom(from, newData);
  }

  /** The body of a serialized container: the bundle, the two times, the footer. */
  lemma ParseBodyOfSerialized(s: Fields, raw: seq<byte>, arrival: int64, departure: int64,
                              parses: seq<byte> -> bool)
    requires NEWLINE !in raw && parses(raw)
    ensures
      var newData := raw + [NEWLINE] + ToDecimalSigned(arrival) + [NEWLINE] + ToDecimalSigned(departure)
        + BC.FooterText();
      ParseBody(s, newData, parses)
        == (s.(bundle := Some(raw), nodeId := s.from, arrivalTime := I32(arrival), departureTime := I32(departure)), None)
  {
    var times := ToDecimalSigned(arrival) + [NEWLINE] + ToDecimalSigned(departure) + BC.FooterText();
    var front := raw + [NEWLINE] + ToDecimalSigned(arrival) + [NEWLINE] + ToDecimalSigned(departure);
    var newData := front + BC.FooterText();
    assert newData == raw + [NEWLINE] + times;
    BeforeOfConcat(raw, NEWLINE, times);
    assert AfterNewline(newData) == times by {
      assert newData[|raw| + 1..] == times;
    }
    TimesRead(arrival, departure, times);
    BC.FooterRead(front);
  }

  /**
   * Deserializing a serialized container restores it, with the node id taken from from and each
   * time cut to its low 32 bits by atoi, when from has no NUL and fits the buffer and the raw
   * bundle has no newline byte and parses.
   */
  lemma ParseSerialize(s: Fields, f: Fields, parses: seq<byte> -> bool)
    requires f.bundle.Some? && 0 !in f.from && |f.from| < BC.FROM_BUFFER
    requires NEWLINE !in f.bundle.value && parses(f.bundle.value)
    ensures Parse(s, Serialize(f), parses)
      == (f.(nodeId := f.from, arrivalTime := I32(f.arrivalTime), departureTime := I32(f.departureTime)), None)
  {
    var raw := f.bundle.value;
    var newData := raw + [NEWLINE] + ToDecimalSigned(f.arrivalTime) + [NEWLINE]
      + ToDecimalSigned(f.departureTime) + BC.FooterText();
    assert Serialize(f) == BC.HeaderText() + f.from + [0] + newData;
    ParseHead(s, f.from, newData, parses);
    ParseBodyOfSerialized(s.(from := f.from), raw, f.arrivalTime, f.departureTime, parses);
  }

  /**
   * A raw bundle holding a newline byte does not come back: the bundle is read only up to that
   * byte, so deserialize either fails or keeps a shorter bundle.
   */
  lemma NewlineInBundleBreaks(s: Fields, f: Fields, parses: seq<byte> -> bool)
    requires f.bundle.Some? && 0 !in f.from && |f.from| < BC.FROM_BUFFER && NEWLINE in f.bundle.value
    ensures
      var (r, error) := Parse(s, Serialize(f), parses);
      error.None? ==> r.bundle.Some? && |r.bundle.value| < |f.bundle.value|
  {
    var raw := f.bundle.value;
    var times := ToDecimalSigned(f.arrivalTime) + [NEWLINE] + ToDecimalSigned(f.departureTime) + BC.FooterText();
    var newData := raw + [NEWLINE] + times;
    SerializedBody(f, times, newData);
    ParseHead(s, f.from, newData, parses);
    var i := IndexOf(raw, NEWLINE).value;
    FirstNewlineInRaw(raw, times, newData, i);
    BodyBundle(s.(from := f.from), newData, parses);
  }

  /** A serialized container is the header, from, NUL and the body: the raw bundle, a newline and the times. */
  lemma SerializedBody(f: Fields, times: seq<byte>, newData: seq<byte>)
    requires f.bundle.Some?
    requires times == ToDecimalSigned(f.arrivalTime) + [NEWLINE] + ToDecimalSigned(f.departureTime) + BC.FooterText()
    requires newData == f.bundle.value + [NEWLINE] + times
    ensures Serialize(f) == BC.HeaderText() + f.from + [0] + newData
  {
  }

  /** The first newline of the body is the first one inside the raw bundle, when there is one. */
  lemma FirstNewlineInRaw(raw: seq<byte>, times: seq<byte>, newData: seq<byte>, i: nat)
    requires newData == raw + [NEWLINE] + times
    requires IndexOf(raw, NEWLINE) == Some(i)
    ensures i < |raw| && Before(newData, NEWLINE) == newData[..i]
  {
    assert newData[i] == raw[i] == NEWLINE;
    assert NEWLINE !in newData[..i] by {
      assert newData[..i] == raw[..i];
    }
    BeforeAt(newData, NEWLINE, i);
  }

  /** The bundle deserialize keeps is the body up to its first newline. */
  lemma BodyBundle(s: Fields, newData: seq<byte>, parses: seq<byte> -> bool)
    ensures ParseBody(s, newData, parses).1.None? ==> ParseBody(s, newData, parses).0.bundle == Some(Before(newData, NEWLINE))
  {
  }

  /** The bytes before the first x are those before any position holding x with no x before it. */
  lemma BeforeAt(s: seq<byte>, x: byte, i: nat)
    requires i < |s| && s[i] == x && x !in s[..i]
    ensures Before(s, x) == s[..i]
  {
    assert s == s[..i] + [x] + s[i + 1..];
    BeforeOfConcat(s[..i], x, s[i + 1..]);
  }

  /**
   * Whatever deserialize accepts sets the node id to from, holds a bundle that parses and has no
   * newline, and an id with no NUL under 1024 bytes; a header it refuses leaves every field as it
   * was, and a bundle it refuses leaves all but from.
   */
  lemma ParseOutcome(s: Fields, data: seq<byte>, parses: seq<byte> -> bool)
    ensures
      var (r, error) := Parse(s, data, parses);
      && (error.None? ==> r.nodeId == r.from && r.bundle.Some? && parses(r.bundle.value)
                          && NEWLINE !in r.bundle.value && 0 !in r.from && |r.from| < BC.FROM_BUFFER)
      && (error == Some(BC.BadHeader) <==> BC.HeaderValue(data) != BC.HEADER)
      && (error == Some(BC.BadHeader) ==> r == s)
      && (error == Some(BC.BadBundle) ==> r == s.(from := r.from))
  {
    if BC.HeaderValue(data) == BC.HEADER && |data| >= BC.HEADER_SIZE {
      var afterHeader := data[BC.HEADER_SIZE..];
      var from := BC.FromField(afterHeader);
      if |from| + 1 <= |afterHeader| {
        BodyOutcome(s.(from := from), afterHeader[|from| + 1..], parses);
      }
    }
  }

  lemma BodyOutcome(s: Fields, newData: seq<byte>, parses: seq<byte> -> bool)
    ensures
      var (r, error) := ParseBody(s, newData, parses);
      && r.from == s.from
      && (error.None? ==> r.nodeId == r.from && r.bundle.Some? && parses(r.bundle.value) && NEWLINE !in r.bundle.value)
      && error != Some(BC.BadHeader)
      && (error == Some(BC.BadBundle) ==> r == s)
  {
  }
}
