/**
 * The on-disk form of a queued bundle (BundleContainer): the decimal header 4607, the id of the node
 * it came from and a NUL, the raw bundle, and the decimal footer 65297. The bundle parser is not
 * part of this model: whether a byte string parses as a bundle is a parameter, and a parsed bundle
 * is represented by the raw bytes it was built from.
 */
module BundleContainer {
  import opened Wire
  import opened Decimal

  const HEADER: uint16 := 0x11ff
  const FOOTER: uint16 := 0xff11
  const HEADER_SIZE: nat := 4
  const FOOTER_SIZE: nat := 5
  /** The id is copied through a 1024-byte buffer, so at most 1023 bytes of it survive. */
  const FROM_BUFFER: nat := 1024

  /** BundleContainerCreationException for the three checks, and std::out_of_range from substr. */
  datatype ContainerError = BadHeader | BadBundle | BadFooter | OutOfRange

  datatype Container = Container(from: seq<byte>, bundle: seq<byte>)

  function HeaderText(): (r: seq<byte>)
    ensures |r| == HEADER_SIZE && AllDigits(r)
  {
    DecimalLength(HEADER);
    ToDecimal(HEADER)
  }

  function FooterText(): (r: seq<byte>)
    ensures |r| == FOOTER_SIZE && AllDigits(r)
  {
    DecimalLength(FOOTER);
    ToDecimal(FOOTER)
  }

  /** serialize: header, from, NUL, raw bundle, footer. */
  function Serialize(c: Container): (r: seq<byte>)
    ensures |r| == HEADER_SIZE + |c.from| + 1 + |c.bundle| + FOOTER_SIZE
  {
    HeaderText() + c.from + [0] + c.bundle + FooterText()
  }

  function Min(a: nat, b: nat): nat { if a < b then a else b }

  /** What snprintf into the 1024-byte buffer keeps of a C string: at most 1023 bytes. */
  function FromField(s: seq<byte>): (r: seq<byte>)
    ensures 0 !in r && |r| < FROM_BUFFER && |r| <= |s| && r == s[..|r|]
  {
    var c := CString(s);
    assert c == s[..|c|];
    c[..Min(|c|, FROM_BUFFER - 1)]
  }

  /** substr(0, n - 5) with the length taken in size_t: below 5 it wraps and takes everything. */
  function BeforeFooter(s: seq<byte>): (r: seq<byte>)
    ensures |r| <= |s| && r == s[..|r|]
  {
    if |s| >= FOOTER_SIZE then s[..|s| - FOOTER_SIZE] else s
  }

  /** The footer number as read: atoi of the last five bytes, cast to uint16. */
  function FooterValue(s: seq<byte>): uint16
    requires |s| >= FOOTER_SIZE
  {
    U16(Atoi(s[|s| - FOOTER_SIZE..]))
  }

  function HeaderValue(data: seq<byte>): uint16
  {
    U16(Atoi(data[..Min(HEADER_SIZE, |data|)]))
  }

  /**
   * deserialize: the header read by atoi; the id up to the first NUL through the buffer; the raw
   * bundle up to the footer, which must parse; then the footer read by atoi.
   */
  function Deserialize(data: seq<byte>, parses: seq<byte> -> bool): (r: Result<Container, ContainerError>)
    ensures r.Ok? ==> HeaderValue(data) == HEADER && parses(r.value.bundle)
    ensures r.Ok? ==> 0 !in r.value.from && |r.value.from| < FROM_BUFFER
    ensures r.Ok? ==> |data| == HEADER_SIZE + |r.value.from| + 1 + |r.value.bundle| + FOOTER_SIZE
    ensures r.Ok? ==> r.value.from == data[HEADER_SIZE..][..|r.value.from|]
    ensures r.Ok? ==> r.value.bundle == data[HEADER_SIZE..][|r.value.from| + 1..][..|r.value.bundle|]
    ensures r.Ok? ==> FooterValue(data[HEADER_SIZE..][|r.value.from| + 1..]) == FOOTER
  {
    if HeaderValue(data) != HEADER then Err(BadHeader)
    else if |data| < HEADER_SIZE then Err(ContainerError.OutOfRange)
    else
      var newData := data[HEADER_SIZE..];
      var from := FromField(newData);
      if |from| + 1 > |newData| then Err(ContainerError.OutOfRange)
      else
        var rest := newData[|from| + 1..];
        var bundleData := BeforeFooter(rest);
        if !parses(bundleData) then Err(BadBundle)
        else if |rest| < FOOTER_SIZE then Err(ContainerError.OutOfRange)
        else if FooterValue(rest) != FOOTER then Err(BadFooter)
        else Ok(Container(from, bundleData))
  }

  // ----- Round trip -----

  lemma HeaderRead(rest: seq<byte>)
    ensures HeaderValue(HeaderText() + rest) == HEADER
  {
    var data := HeaderText() + rest;
    assert data[..HEADER_SIZE] == HeaderText() + [];
    AtoiOfDecimal(HEADER, []);
  }

  lemma FooterRead(front: seq<byte>)
    ensures FooterValue(front + FooterText()) == FOOTER
  {
    var s := front + FooterText();
    assert s[|s| - FOOTER_SIZE..] == FooterText() + [];
    AtoiOfDecimal(FOOTER, []);
  }

  /** The fields after the header: the id, its NUL, and the rest. */
  lemma SplitFrom(from: seq<byte>, rest: seq<byte>)
    requires 0 !in from && |from| < FROM_BUFFER
    ensures FromField(from + [0] + rest) == from
    ensures (from + [0] + rest)[|from| + 1..] == rest
  {
    BeforeOfConcat(from, 0, rest);
  }

  /**
   * Deserializing a serialized container gives it back, when its id has no NUL and fits the buffer
   * and its bundle parses.
   */
  lemma DeserializeSerialize(c: Container, parses: seq<byte> -> bool)
    requires 0 !in c.from && |c.from| < FROM_BUFFER && parses(c.bundle)
    ensures Deserialize(Serialize(c), parses) == Ok(c)
  {
    var rest := c.bundle + FooterText();
    SerializedPieces(c, rest);
    DeserializePieces(Serialize(c), c.from, c.bundle, rest, parses);
  }

  lemma SerializedPieces(c: Container, rest: seq<byte>)
    requires rest == c.bundle + FooterText()
    ensures Serialize(c) == HeaderText() + (c.from + [0] + rest)
  {
  }

  /** deserialize of the header, an id, a NUL, a bundle and the footer. */
  lemma DeserializePieces(data: seq<byte>, from: seq<byte>, bundle: seq<byte>, rest: seq<byte>, parses: seq<byte> -> bool)
    requires 0 !in from && |from| < FROM_BUFFER && parses(bundle)
    requires rest == bundle + FooterText() && data == HeaderText() + (from + [0] + rest)
    ensures Deserialize(data, parses) == Ok(Container(from, bundle))
  {
    HeaderRead(from + [0] + rest);
    assert data[HEADER_SIZE..] == from + [0] + rest;
    SplitFrom(from, rest);
    assert BeforeFooter(rest) == bundle;
    FooterRead(bundle);
  }

  /**
   * Whatever deserialize accepts has the layout serialize writes: an accepted header, the id (no
   * NUL, under 1024 bytes) right after it, one separator byte, the bundle, which parses, and an
   * accepted footer in the last five bytes.
   */
  lemma DeserializeSound(data: seq<byte>, parses: seq<byte> -> bool, c: Container)
    requires Deserialize(data, parses) == Ok(c)
    ensures 0 !in c.from && |c.from| < FROM_BUFFER && parses(c.bundle)
    ensures HeaderValue(data) == HEADER && FooterValue(data) == FOOTER
    ensures |data| == HEADER_SIZE + |c.from| + 1 + |c.bundle| + FOOTER_SIZE
    ensures data[HEADER_SIZE..HEADER_SIZE + |c.from|] == c.from
    ensures data[HEADER_SIZE + |c.from| + 1..|data| - FOOTER_SIZE] == c.bundle
  {
    SoundLayout(data, c.from, c.bundle, data[HEADER_SIZE..][|c.from| + 1..]);
  }

  /** The layout facts of an accepted input, stated over its pieces. */
  lemma SoundLayout(data: seq<byte>, from: seq<byte>, bundle: seq<byte>, rest: seq<byte>)
    requires |data| == HEADER_SIZE + |from| + 1 + |bundle| + FOOTER_SIZE
    requires from == data[HEADER_SIZE..][..|from|]
    requires bundle == data[HEADER_SIZE..][|from| + 1..][..|bundle|]
    requires rest == data[HEADER_SIZE..][|from| + 1..]
    requires FooterValue(rest) == FOOTER
    ensures FooterValue(data) == FOOTER
    ensures data[HEADER_SIZE..HEADER_SIZE + |from|] == from
    ensures data[HEADER_SIZE + |from| + 1..|data| - FOOTER_SIZE] == bundle
  {
    Layout(data, from, bundle);
    FooterOfSuffix(data, rest);
  }

  /** The footer read from the end of the input or from any longer-than-footer end of it is the same. */
  lemma FooterOfSuffix(data: seq<byte>, rest: seq<byte>)
    requires |rest| >= FOOTER_SIZE && |rest| <= |data| && rest == data[|data| - |rest|..]
    ensures FooterValue(rest) == FooterValue(data)
  {
    SameTail(rest, data, FOOTER_SIZE);
  }

  /** Where the fields read after the header sit in the whole input. */
  lemma Layout(data: seq<byte>, from: seq<byte>, bundle: seq<byte>)
    requires |data| == HEADER_SIZE + |from| + 1 + |bundle| + FOOTER_SIZE
    requires from == data[HEADER_SIZE..][..|from|]
    requires bundle == data[HEADER_SIZE..][|from| + 1..][..|bundle|]
    ensures data[HEADER_SIZE..HEADER_SIZE + |from|] == from
    ensures data[HEADER_SIZE + |from| + 1..|data| - FOOTER_SIZE] == bundle
    ensures data[HEADER_SIZE..][|from| + 1..] == data[|data| - (|bundle| + FOOTER_SIZE)..]
  {
    var rest := data[HEADER_SIZE..][|from| + 1..];
    assert data[HEADER_SIZE..][..|from|] == data[HEADER_SIZE..HEADER_SIZE + |from|];
    assert rest == data[HEADER_SIZE + |from| + 1..];
    assert rest[..|bundle|] == data[HEADER_SIZE + |from| + 1..|data| - FOOTER_SIZE];
  }

  // ----- Refusals -----

  /**
   * The three refusals on the serialized layout: a header that atoi does not read as 4607, a
   * bundle that does not parse, a footer that atoi does not read as 65297 (modulo 2^16).
   */
  lemma Refusals(h: seq<byte>, from: seq<byte>, raw: seq<byte>, f: seq<byte>, parses: seq<byte> -> bool)
    requires |h| == HEADER_SIZE && |f| == FOOTER_SIZE && 0 !in from && |from| < FROM_BUFFER
    ensures U16(Atoi(h)) != HEADER ==> Deserialize(h + from + [0] + raw + f, parses) == Err(BadHeader)
    ensures U16(Atoi(h)) == HEADER && !parses(raw) ==>
      Deserialize(h + from + [0] + raw + f, parses) == Err(BadBundle)
    ensures U16(Atoi(h)) == HEADER && parses(raw) && U16(Atoi(f)) != FOOTER ==>
      Deserialize(h + from + [0] + raw + f, parses) == Err(BadFooter)
  {
    var rest := raw + f;
    var data := h + (from + [0] + rest);
    assert h + from + [0] + raw + f == data;
    assert data[..HEADER_SIZE] == h;
    assert data[HEADER_SIZE..] == from + [0] + rest;
    SplitFrom(from, rest);
    assert BeforeFooter(rest) == raw;
    assert rest[|rest| - FOOTER_SIZE..] == f;
  }

  /**
   * atoi and the uint16 cast accept footers other than the digits 65297: " -239" reads as -239,
   * which the cast turns into 65297.
   */
  lemma WrappedFooterAccepted(f: seq<byte>)
    requires f == [32, 45, 50, 51, 57]
    ensures |f| == FOOTER_SIZE && f != FooterText() && U16(Atoi(f)) == FOOTER
  {
    MinusTwoThreeNine(f);
    assert FooterText()[0] == 54 by {
      DecimalFirstDigit();
    }
  }

  /** strtol reads a space, a minus sign and the digits 2, 3, 9 as -239. */
  lemma MinusTwoThreeNine(f: seq<byte>)
    requires |f| == 5 && f[0] == 32 && f[1] == 45 && f[2] == 50 && f[3] == 51 && f[4] == 57
    ensures StrtolExact(f) == Some(-239)
  {
    var t := f[1..];
    assert SkipSpace(t) == t;
    assert SkipSpace(f) == t;
    var ds := t[1..];
    assert Sign(t) == (true, ds);
    TwoThreeNine(ds);
  }

  lemma TwoThreeNine(ds: seq<byte>)
    requires |ds| == 3 && ds[0] == 50 && ds[1] == 51 && ds[2] == 57
    ensures LeadingDigits(ds) == ds && AllDigits(ds) && DigitsValue(ds) == 239
  {
    assert LeadingDigits(ds[2..]) == ds[2..];
    assert LeadingDigits(ds[1..]) == ds[1..] by {
      assert ds[1..][1..] == ds[2..];
    }
    assert ds[1..] == [ds[1]] + ds[2..];
    assert LeadingDigits(ds) == ds;
    assert ds[..2][..1][..0] == [];
    assert DigitsValue(ds[..2][..1]) == 2;
    assert DigitsValue(ds[..2]) == 23;
  }

  lemma DecimalFirstDigit()
    ensures ToDecimal(FOOTER)[0] == 54
  {
    assert ToDecimal(6) == [54];
    assert ToDecimal(65) == [54, 53];
    assert ToDecimal(652) == [54, 53, 50];
    assert ToDecimal(6529) == [54, 53, 50, 57];
  }
}
