/**
 * The statistics tool's event logs: each node writes one line per event, "TYPE UNIX_TIME FIELDS...",
 * and each line becomes one stored entry. This module holds the entry, the reading of one line, the
 * queries the metrics run over the stored entries, and the specifications of the metric loops with
 * their properties.
 */
module StatisticsEvents {
  import opened Wire
  import opened Decimal
  import TimestampManager

  type Text = seq<byte>

  // The event types, as the first word of a line. Types 1 (platform end) and 5 (message delivered)
  // carry nothing beyond their time and are read like any unknown type.
  const PLATFORM_START: Text := [0x30]          // "0"
  const MESSAGE_CREATED: Text := [0x32]         // "2"
  const MESSAGE_RELAYED_FROM: Text := [0x33]    // "3"
  const MESSAGE_RELAYED: Text := [0x34]         // "4"
  const MESSAGE_DROPPED: Text := [0x36]         // "6"
  const MESSAGE_REMOVED: Text := [0x37]         // "7"
  const MESSAGE_RECEIVED: Text := [0x38]        // "8"
  const NEIGH_APPEAR: Text := [0x39]            // "9"
  const NEIGH_DISAPPEAR: Text := [0x31, 0x30]   // "10"

  const SPACE: byte := 0x20
  const NEWLINE: byte := 0x0A
  const COLON: byte := 0x3A

  /** The exceptions the statistics code lets escape. */
  datatype PyError = IndexError | ValueError | ZeroDivisionError

  /**
   * One stored entry. rabaId is the id the store gives it when it is saved; a field the line does
   * not set stays None.
   */
  datatype Entry = Entry(rabaId: nat, fileFrom: Text, typeId: Text, timestamp: int,
                         bundleId: Option<Text>, toId: Option<Text>, fromId: Option<Text>,
                         timestampBundle: Option<int>, sizeBundle: Option<Text>)

  // ----- Words of a line -----

  /** The longest prefix of s without white space. */
  function Word(s: Text): (r: Text)
    ensures r <= s && forall i | 0 <= i < |r| :: !IsSpace(r[i])
    ensures |r| < |s| ==> IsSpace(s[|r|])
    ensures s != [] && !IsSpace(s[0]) ==> r != []
  {
    if s == [] || IsSpace(s[0]) then [] else [s[0]] + Word(s[1..])
  }

  /** A word: at least one byte, none of them white space. */
  predicate IsWord(w: Text)
  {
    w != [] && forall i | 0 <= i < |w| :: !IsSpace(w[i])
  }

  /** Python's str.split() with no separator: the runs of non-white-space bytes, in order. */
  function Words(s: Text): (r: seq<Text>)
    ensures forall k | 0 <= k < |r| :: IsWord(r[k])
    decreases |s|
  {
    var t := SkipSpace(s);
    if t == [] then []
    else
      var w := Word(t);
      [w] + Words(t[|w|..])
  }

  /** Words joined by single spaces, as a node writes a log line (before its newline). */
  function Unwords(ws: seq<Text>): Text
  {
    if ws == [] then [] else if |ws| == 1 then ws[0] else ws[0] + [SPACE] + Unwords(ws[1..])
  }

  /** A word followed by white space or nothing is read back whole. */
  lemma {:induction false} WordOfConcat(w: Text, rest: Text)
    requires forall i | 0 <= i < |w| :: !IsSpace(w[i])
    requires rest == [] || IsSpace(rest[0])
    ensures Word(w + rest) == w
    decreases |w|
  {
    if w == [] {
      assert w + rest == rest;
    } else {
      assert (w + rest)[1..] == w[1..] + rest;
      WordOfConcat(w[1..], rest);
      assert w == [w[0]] + w[1..];
    }
  }

  /** A word followed by white space or nothing is the first word, then come the words of the rest. */
  lemma WordsStep(w: Text, rest: Text)
    requires IsWord(w) && (rest == [] || IsSpace(rest[0]))
    ensures Words(w + rest) == [w] + Words(rest)
  {
    var s := w + rest;
    WordOfConcat(w, rest);
    assert s[0] == w[0];
    assert SkipSpace(s) == s;
    assert s[|w|..] == rest;
  }

  /** White space alone holds no words. */
  lemma WordsOfSpace(tail: Text)
    requires SkipSpace(tail) == []
    ensures Words(tail) == [] && (tail == [] || IsSpace(tail[0]))
  {
  }

  lemma WordsAfterSpace(x: Text)
    ensures Words([SPACE] + x) == Words(x)
  {
    assert ([SPACE] + x)[1..] == x;
  }

  /** Splitting a written line gives back its words, whatever white space ends it. */
  lemma {:induction false} WordsOfUnwords(ws: seq<Text>, tail: Text)
    requires forall w | w in ws :: IsWord(w)
    requires SkipSpace(tail) == []
    ensures Words(Unwords(ws) + tail) == ws
    decreases |ws|
  {
    if ws == [] {
      WordsOfSpace(tail);
      assert Unwords(ws) + tail == tail;
    } else if |ws| == 1 {
      WordsOfOne(ws, tail);
    } else {
      assert forall w | w in ws[1..] :: w in ws;
      WordsOfUnwords(ws[1..], tail);
      WordsOfMore(ws, tail);
    }
  }

  lemma WordsOfOne(ws: seq<Text>, tail: Text)
    requires |ws| == 1 && IsWord(ws[0]) && SkipSpace(tail) == []
    ensures Words(Unwords(ws) + tail) == ws
  {
    WordsOfSpace(tail);
    WordsStep(ws[0], tail);
    assert Unwords(ws) == ws[0];
    ConsOfTail(ws);
    assert |ws[1..]| == 0;
  }

  lemma WordsOfMore(ws: seq<Text>, tail: Text)
    requires |ws| > 1 && IsWord(ws[0])
    requires Words(Unwords(ws[1..]) + tail) == ws[1..]
    ensures Words(Unwords(ws) + tail) == ws
  {
    var w, more := ws[0], ws[1..];
    var u := Unwords(more);
    var x := u + tail;
    assert Unwords(ws) == w + [SPACE] + u;
    Assoc(w + [SPACE], u, tail);
    Assoc(w, [SPACE], x);
    WordsStep(w, [SPACE] + x);
    WordsAfterSpace(x);
    ConsOfTail(ws);
  }

  lemma ConsOfTail(ws: seq<Text>)
    requires ws != []
    ensures ws == [ws[0]] + ws[1..]
  {
  }

  /** A printed integer is a word. */
  lemma DecimalIsWord(i: int)
    ensures IsWord(ToDecimalSigned(i))
  {
    if i < 0 {
      assert ToDecimalSigned(i) == [MINUS] + ToDecimal(-i);
    }
  }

  // ----- One line -----

  /** What parseFile makes of one line: the entry it saves, and the (name, node id) a start line declares. */
  datatype LineResult = LineResult(entry: Entry, declared: Option<(Text, Text)>)

  /**
   * The body of parseFile's loop for one line: the entry of the line's type, or the IndexError of a
   * missing word, or the ValueError of a time that is not an integer. Relay lines keep the node
   * part of "node:port"; a receipt line stores its bundle's creation time in milliseconds.
   */
  function ParseLine(fileFrom: Text, line: Text, rabaId: nat): (r: Result<LineResult, PyError>)
    ensures r.Ok? ==> r.value.entry.rabaId == rabaId && r.value.entry.fileFrom == fileFrom
    ensures r.Ok? ==> |Words(line)| >= 2 && r.value.entry.typeId == Words(line)[0]
    ensures r.Ok? ==> Some(r.value.entry.timestamp) == PyInt(Words(line)[1])
    ensures |Words(line)| < 2 ==> r == Err(IndexError)
  {
    ParseWords(fileFrom, Words(line), rabaId)
  }

  /** A bundle's creation time in milliseconds since 1970, from the seconds since 2000 a receipt line carries. */
  function CreationMillis(secondsFrom2000: int): int
  {
    (secondsFrom2000 + TimestampManager.TIME_FROM_2000) * 1000
  }

  /** ParseLine on the words of the line. */
  function ParseWords(fileFrom: Text, w: seq<Text>, rabaId: nat): (r: Result<LineResult, PyError>)
    ensures r.Ok? ==> r.value.entry.rabaId == rabaId && r.value.entry.fileFrom == fileFrom
    ensures r.Ok? ==> |w| >= 2 && r.value.entry.typeId == w[0] && Some(r.value.entry.timestamp) == PyInt(w[1])
    ensures |w| < 2 ==> r == Err(IndexError)
  {
    if |w| < 2 then Err(IndexError)
    else match PyInt(w[1])
      case None => Err(ValueError)
      case Some(time) =>
        var t := w[0];
        var e := Entry(rabaId, fileFrom, t, time, None, None, None, None, None);
        if t == PLATFORM_START then
          if |w| < 4 then Err(IndexError) else Ok(LineResult(e.(fromId := Some(w[2])), Some((w[3], w[2]))))
        else if t == MESSAGE_CREATED || t == MESSAGE_DROPPED || t == MESSAGE_REMOVED then
          if |w| < 3 then Err(IndexError) else Ok(LineResult(e.(bundleId := Some(w[2])), None))
        else if t == MESSAGE_RELAYED_FROM then
          if |w| < 4 then Err(IndexError) else Ok(LineResult(e.(bundleId := Some(w[2]), fromId := Some(Split(w[3], COLON)[0])), None))
        else if t == MESSAGE_RELAYED then
          if |w| < 4 then Err(IndexError) else Ok(LineResult(e.(bundleId := Some(w[2]), toId := Some(Split(w[3], COLON)[0])), None))
        else if t == MESSAGE_RECEIVED then
          if |w| < 5 then Err(IndexError)
          else match PyInt(w[4])
            case None => Err(ValueError)
            case Some(seconds) =>
              var created := CreationMillis(seconds);
              Ok(LineResult(e.(bundleId := Some(w[2]), sizeBundle := Some(w[3]), timestampBundle := Some(created)), None))
        else if t == NEIGH_APPEAR || t == NEIGH_DISAPPEAR then
          if |w| < 3 then Err(IndexError) else Ok(LineResult(e.(toId := Some(w[2])), None))
        else
          Ok(LineResult(e, None))
  }

  /**
   * The fields the metrics rely on, which every parsed line of the type has: a bundle id for the
   * message events, a destination for relays and contacts, a size and a creation time for receipts.
   */
  predicate Shaped(e: Entry)
  {
    (e.typeId in {MESSAGE_CREATED, MESSAGE_RELAYED_FROM, MESSAGE_RELAYED, MESSAGE_DROPPED, MESSAGE_REMOVED, MESSAGE_RECEIVED} ==> e.bundleId.Some?) &&
    (e.typeId in {MESSAGE_RELAYED, NEIGH_APPEAR, NEIGH_DISAPPEAR} ==> e.toId.Some?) &&
    (e.typeId == MESSAGE_RECEIVED ==> e.timestampBundle.Some? && e.sizeBundle.Some?)
  }

  lemma ParsedShaped(fileFrom: Text, line: Text, rabaId: nat)
    requires ParseLine(fileFrom, line, rabaId).Ok?
    ensures Shaped(ParseLine(fileFrom, line, rabaId).value.entry)
  {
  }

  /** A log line as a node writes it: its words, then a newline. */
  function LineOf(ws: seq<Text>): (r: Text)
    ensures r != [] && r[|r| - 1] == NEWLINE
  {
    Unwords(ws) + [NEWLINE]
  }

  lemma LineWords(ws: seq<Text>)
    requires forall w | w in ws :: IsWord(w)
    ensures Words(LineOf(ws)) == ws
  {
    assert [NEWLINE][1..] == [];
    WordsOfUnwords(ws, [NEWLINE]);
  }

  lemma FourWords(a: Text, b: Text, c: Text, d: Text)
    requires IsWord(a) && IsWord(b) && IsWord(c) && IsWord(d)
    ensures forall w | w in [a, b, c, d] :: IsWord(w)
  {
  }

  lemma FiveWords(a: Text, b: Text, c: Text, d: Text, e: Text)
    requires IsWord(a) && IsWord(b) && IsWord(c) && IsWord(d) && IsWord(e)
    ensures forall w | w in [a, b, c, d, e] :: IsWord(w)
  {
  }

  /** A written line parses as its words. */
  lemma ParseLineOfWords(fileFrom: Text, rabaId: nat, ws: seq<Text>)
    requires forall w | w in ws :: IsWord(w)
    ensures ParseLine(fileFrom, LineOf(ws), rabaId) == ParseWords(fileFrom, ws, rabaId)
  {
    LineWords(ws);
  }

  // The four line lemmas below go through their words: the parse of the words is worked out first,
  // on its own, and the line is then read back as those words.

  lemma StartWords(fileFrom: Text, rabaId: nat, timeWord: Text, time: int, nodeId: Text, name: Text)
    requires PyInt(timeWord) == Some(time)
    ensures ParseWords(fileFrom, [PLATFORM_START, timeWord, nodeId, name], rabaId)
         == Ok(LineResult(Entry(rabaId, fileFrom, PLATFORM_START, time, None, None, Some(nodeId), None, None), Some((name, nodeId))))
  {
  }

  /** A start line declares its node's name and records the node id as the source. */
  lemma StartLine(fileFrom: Text, rabaId: nat, timeWord: Text, time: int, nodeId: Text, name: Text)
    requires IsWord(timeWord) && PyInt(timeWord) == Some(time)
    requires IsWord(nodeId) && IsWord(name)
    ensures ParseLine(fileFrom, LineOf([PLATFORM_START, timeWord, nodeId, name]), rabaId)
         == Ok(LineResult(Entry(rabaId, fileFrom, PLATFORM_START, time, None, None, Some(nodeId), None, None), Some((name, nodeId))))
  {
    FourWords(PLATFORM_START, timeWord, nodeId, name);
    ParseLineOfWords(fileFrom, rabaId, [PLATFORM_START, timeWord, nodeId, name]);
    StartWords(fileFrom, rabaId, timeWord, time, nodeId, name);
  }

  lemma RelayWords(fileFrom: Text, rabaId: nat, typeId: Text, timeWord: Text, time: int, bundle: Text, node: Text, port: Text)
    requires typeId == MESSAGE_RELAYED_FROM || typeId == MESSAGE_RELAYED
    requires PyInt(timeWord) == Some(time) && COLON !in node
    ensures ParseWords(fileFrom, [typeId, timeWord, bundle, node + [COLON] + port], rabaId)
         == Ok(LineResult(Entry(rabaId, fileFrom, typeId, time, Some(bundle),
                                if typeId == MESSAGE_RELAYED then Some(node) else None,
                                if typeId == MESSAGE_RELAYED_FROM then Some(node) else None, None, None), None))
  {
    SplitHead(node, COLON, port, node + [COLON] + port);
  }

  /** A relay line keeps the node of its "node:port" word, as the source for type 3 and as the destination for type 4. */
  lemma RelayLine(fileFrom: Text, rabaId: nat, typeId: Text, timeWord: Text, time: int, bundle: Text, node: Text, port: Text)
    requires typeId == MESSAGE_RELAYED_FROM || typeId == MESSAGE_RELAYED
    requires IsWord(timeWord) && PyInt(timeWord) == Some(time)
    requires IsWord(bundle) && IsWord(node) && COLON !in node && forall i | 0 <= i < |port| :: !IsSpace(port[i])
    ensures ParseLine(fileFrom, LineOf([typeId, timeWord, bundle, node + [COLON] + port]), rabaId)
         == Ok(LineResult(Entry(rabaId, fileFrom, typeId, time, Some(bundle),
                                if typeId == MESSAGE_RELAYED then Some(node) else None,
                                if typeId == MESSAGE_RELAYED_FROM then Some(node) else None, None, None), None))
  {
    var hop := node + [COLON] + port;
    assert IsWord(hop) by {
      forall i | 0 <= i < |hop| ensures !IsSpace(hop[i]) {
        if i > |node| {
          assert hop[i] == port[i - |node| - 1];
        }
      }
    }
    FourWords(typeId, timeWord, bundle, hop);
    ParseLineOfWords(fileFrom, rabaId, [typeId, timeWord, bundle, hop]);
    RelayWords(fileFrom, rabaId, typeId, timeWord, time, bundle, node, port);
  }

  lemma ReceivedWords(fileFrom: Text, rabaId: nat, timeWord: Text, time: int, bundle: Text, size: Text, createdWord: Text, created: int)
    requires PyInt(timeWord) == Some(time) && PyInt(createdWord) == Some(created)
    ensures ParseWords(fileFrom, [MESSAGE_RECEIVED, timeWord, bundle, size, createdWord], rabaId)
         == Ok(LineResult(Entry(rabaId, fileFrom, MESSAGE_RECEIVED, time, Some(bundle), None, None,
                                Some(CreationMillis(created)), Some(size)), None))
  {
  }

  /** A receipt line records the bundle, its size text, and its creation time in milliseconds since 1970. */
  lemma ReceivedLine(fileFrom: Text, rabaId: nat, timeWord: Text, time: int, bundle: Text, size: Text, createdWord: Text, created: int)
    requires IsWord(timeWord) && PyInt(timeWord) == Some(time)
    requires IsWord(createdWord) && PyInt(createdWord) == Some(created)
    requires IsWord(bundle) && IsWord(size)
    ensures ParseLine(fileFrom, LineOf([MESSAGE_RECEIVED, timeWord, bundle, size, createdWord]), rabaId)
         == Ok(LineResult(Entry(rabaId, fileFrom, MESSAGE_RECEIVED, time, Some(bundle), None, None,
                                Some(CreationMillis(created)), Some(size)), None))
  {
    FiveWords(MESSAGE_RECEIVED, timeWord, bundle, size, createdWord);
    ParseLineOfWords(fileFrom, rabaId, [MESSAGE_RECEIVED, timeWord, bundle, size, createdWord]);
    ReceivedWords(fileFrom, rabaId, timeWord, time, bundle, size, createdWord, created);
  }

  lemma TruncatedWords(fileFrom: Text, rabaId: nat, timeWord: Text, time: int, bundle: Text, size: Text)
    requires PyInt(timeWord) == Some(time)
    ensures ParseWords(fileFrom, [MESSAGE_RECEIVED, timeWord, bundle, size], rabaId) == Err(IndexError)
  {
  }

  /** A receipt line without its creation time stops the reading with an IndexError. */
  lemma TruncatedReceipt(fileFrom: Text, rabaId: nat, timeWord: Text, time: int, bundle: Text, size: Text)
    requires IsWord(timeWord) && PyInt(timeWord) == Some(time)
    requires IsWord(bundle) && IsWord(size)
    ensures ParseLine(fileFrom, LineOf([MESSAGE_RECEIVED, timeWord, bundle, size]), rabaId) == Err(IndexError)
  {
    FourWords(MESSAGE_RECEIVED, timeWord, bundle, size);
    ParseLineOfWords(fileFrom, rabaId, [MESSAGE_RECEIVED, timeWord, bundle, size]);
    TruncatedWords(fileFrom, rabaId, timeWord, time, bundle, size);
  }

  /** Every integer, printed, is a time word that reads back as itself. */
  lemma PrintedTime(time: int)
    ensures IsWord(ToDecimalSigned(time)) && PyInt(ToDecimalSigned(time)) == Some(time)
  {
    DecimalIsWord(time);
    PyIntOfDecimal(time);
  }

  /** A line whose time is not an integer stops the reading with a ValueError, whatever its type. */
  lemma BadTime(fileFrom: Text, rabaId: nat, ws: seq<Text>)
    requires |ws| >= 2 && forall w | w in ws :: IsWord(w)
    requires PyInt(ws[1]).None?
    ensures ParseLine(fileFrom, LineOf(ws), rabaId) == Err(ValueError)
  {
    ParseLineOfWords(fileFrom, rabaId, ws);
  }

  // ----- Queries -----

  /**
   * One addFilter call of a RabaQuery: the type and every condition given must hold (a condition
   * left None is not given). A query of several calls selects what any one of them selects.
   */
  datatype Filter = Filter(typeId: Text, fileFrom: Option<Text>, bundleId: Option<Text>, toId: Option<Text>, fromId: Option<Text>)

  predicate Holds(e: Entry, f: Filter)
  {
    e.typeId == f.typeId &&
    (f.fileFrom.None? || e.fileFrom == f.fileFrom.value) &&
    (f.bundleId.None? || e.bundleId == f.bundleId) &&
    (f.toId.None? || e.toId == f.toId) &&
    (f.fromId.None? || e.fromId == f.fromId)
  }

  predicate Selected(e: Entry, q: seq<Filter>)
  {
    exists f | f in q :: Holds(e, f)
  }

  /** The entries of one type written by one node's log. */
  function OfType(typeId: Text, fileFrom: Text): Filter
  {
    Filter(typeId, Some(fileFrom), None, None, None)
  }

  /** run() and iterRun(): the selected entries, in the order they were saved. count() is its length. */
  function Run(store: seq<Entry>, q: seq<Filter>): (r: seq<Entry>)
    ensures |r| <= |store|
    ensures forall e :: e in r <==> e in store && Selected(e, q)
    decreases |store|
  {
    if store == [] then []
    else
      var last := store[|store| - 1];
      assert store == store[..|store| - 1] + [last];
      Run(store[..|store| - 1], q) + (if Selected(last, q) then [last] else [])
  }

  /** The entries of one type from one node's log are entries of the store, of that type, from that log. */
  lemma OfTypeMembers(store: seq<Entry>, typeId: Text, name: Text)
    ensures forall x | x in Run(store, [OfType(typeId, name)]) :: x in store && x.typeId == typeId && x.fileFrom == name
  {
    forall x | x in Run(store, [OfType(typeId, name)])
      ensures x in store && x.typeId == typeId && x.fileFrom == name
    {
      var f :| f in [OfType(typeId, name)] && Holds(x, f);
    }
  }

  /** A query that selects less, run on what a wider one selected, selects the same as on the store. */
  lemma {:induction false} RunNarrowed(store: seq<Entry>, wide: seq<Filter>, narrow: seq<Filter>)
    requires forall e | Selected(e, narrow) :: Selected(e, wide)
    ensures Run(Run(store, wide), narrow) == Run(store, narrow)
    decreases |store|
  {
    if store != [] {
      var front := store[..|store| - 1];
      var last := store[|store| - 1];
      RunNarrowed(front, wide, narrow);
      RunAppend(Run(front, wide), if Selected(last, wide) then [last] else [], narrow);
    }
  }

  lemma {:induction false} RunAppend(a: seq<Entry>, b: seq<Entry>, q: seq<Filter>)
    ensures Run(a + b, q) == Run(a, q) + Run(b, q)
    decreases |b|
  {
    if b == [] {
      assert a + b == a;
    } else {
      var front := b[..|b| - 1];
      var last := b[|b| - 1];
      assert (a + b)[..|a + b| - 1] == a + front;
      RunAppend(a, front, q);
      assert b[..|b| - 1] == front;
    }
  }

  // ----- Pairing start and end events -----

  /** The two pairings: a stored bundle with its removal, and a neighbour's appearance with its disappearance. */
  datatype Pairing = BufferTime | ContactTime

  /** The query for the end events of one node's log. */
  function Ends(kind: Pairing, name: Text): Filter
  {
    match kind
      case BufferTime => OfType(MESSAGE_REMOVED, name)
      case ContactTime => OfType(NEIGH_DISAPPEAR, name)
  }

  /** The query for the end events that match start event e: the same bundle, or the same neighbour. */
  function EndsFor(kind: Pairing, name: Text, e: Entry): Filter
  {
    match kind
      case BufferTime => Filter(MESSAGE_REMOVED, Some(name), e.bundleId, None, None)
      case ContactTime => Filter(NEIGH_DISAPPEAR, Some(name), None, e.toId, None)
  }

  /** The entries of xs whose ids are not in used, in order (the list aux). */
  function Unused(xs: seq<Entry>, used: seq<nat>): (r: seq<Entry>)
    ensures forall x :: x in r <==> x in xs && x.rabaId !in used
    decreases |xs|
  {
    if xs == [] then []
    else
      var last := xs[|xs| - 1];
      assert xs == xs[..|xs| - 1] + [last];
      Unused(xs[..|xs| - 1], used) + (if last.rabaId in used then [] else [last])
  }

  /** The time from a start event to its end event. */
  function Elapsed(start: Entry, end: Entry): int
  {
    end.timestamp - start.timestamp
  }

  /**
   * The pairing loop of calculateBufferTime and getNeighbourInfo over the start events, in order:
   * each takes the first matching end event whose id is not used yet, if there is one, and records
   * the time between the two. The result is the times and the ids used.
   */
  function Paired(store: seq<Entry>, kind: Pairing, name: Text, starts: seq<Entry>): (r: (seq<int>, seq<nat>))
    ensures |r.0| == |r.1| <= |starts|
    decreases |starts|
  {
    if starts == [] then ([], [])
    else
      var (times, used) := Paired(store, kind, name, starts[..|starts| - 1]);
      var e := starts[|starts| - 1];
      var aux := Unused(Run(store, [EndsFor(kind, name, e)]), used);
      if aux == [] then (times, used)
      else (times + [Elapsed(e, aux[0])], used + [aux[0].rabaId])
  }

  predicate Distinct(xs: seq<nat>)
  {
    forall i, j | 0 <= i < j < |xs| :: xs[i] != xs[j]
  }

  /** The ids of some entries. */
  function IdsOf(xs: seq<Entry>): (r: set<nat>)
    ensures |r| <= |xs|
    ensures forall x | x in xs :: x.rabaId in r
    ensures forall id | id in r :: exists x | x in xs :: x.rabaId == id
    decreases |xs|
  {
    if xs == [] then {}
    else
      var last := xs[|xs| - 1];
      assert xs == xs[..|xs| - 1] + [last];
      IdsOf(xs[..|xs| - 1]) + {last.rabaId}
  }

  /** The end event the pairing takes for start event e, given the ids already used: one of the node's end events. */
  lemma PairedStep(store: seq<Entry>, kind: Pairing, name: Text, e: Entry, used: seq<nat>)
    requires Unused(Run(store, [EndsFor(kind, name, e)]), used) != []
    ensures var x := Unused(Run(store, [EndsFor(kind, name, e)]), used)[0];
      x.rabaId !in used && x.rabaId in IdsOf(Run(store, [Ends(kind, name)]))
  {
    var x := Unused(Run(store, [EndsFor(kind, name, e)]), used)[0];
    assert x in Unused(Run(store, [EndsFor(kind, name, e)]), used);
    assert Holds(x, EndsFor(kind, name, e));
    assert Holds(x, Ends(kind, name)) && Selected(x, [Ends(kind, name)]);
  }

  /** The pairing never uses an end event twice, and every id it uses is one of an end event of the node. */
  lemma {:induction false} PairedUsesEndsOnce(store: seq<Entry>, kind: Pairing, name: Text, starts: seq<Entry>)
    ensures Distinct(Paired(store, kind, name, starts).1)
    ensures forall id | id in Paired(store, kind, name, starts).1 :: id in IdsOf(Run(store, [Ends(kind, name)]))
    decreases |starts|
  {
    if starts != [] {
      var front := starts[..|starts| - 1];
      PairedUsesEndsOnce(store, kind, name, front);
      var used := Paired(store, kind, name, front).1;
      var e := starts[|starts| - 1];
      var aux := Unused(Run(store, [EndsFor(kind, name, e)]), used);
      if aux != [] {
        PairedStep(store, kind, name, e, used);
        DistinctSnoc(used, aux[0].rabaId);
        assert Paired(store, kind, name, starts).1 == used + [aux[0].rabaId];
      } else {
        assert Paired(store, kind, name, starts).1 == used;
      }
    }
  }

  lemma DistinctSnoc(xs: seq<nat>, x: nat)
    requires Distinct(xs) && x !in xs
    ensures Distinct(xs + [x])
  {
  }

  /** Ids taken without repetition from a set are no more than the set holds. */
  lemma {:induction false} DistinctWithin(xs: seq<nat>, ids: set<nat>)
    requires Distinct(xs) && forall x | x in xs :: x in ids
    ensures |xs| <= |ids|
    decreases |xs|
  {
    if xs != [] {
      var last := xs[|xs| - 1];
      var front := xs[..|xs| - 1];
      assert forall x | x in front :: x in ids - {last} by {
        forall x | x in front
          ensures x in ids - {last}
        {
          var i :| 0 <= i < |front| && front[i] == x;
          assert xs[i] == x;
        }
      }
      DistinctWithin(front, ids - {last});
    }
  }

  /**
   * There are no more time samples than start events, nor than end events of the node: each end
   * event is paired at most once.
   */
  lemma PairedBound(store: seq<Entry>, kind: Pairing, name: Text, starts: seq<Entry>)
    ensures |Paired(store, kind, name, starts).0| <= |starts|
    ensures |Paired(store, kind, name, starts).0| <= |Run(store, [Ends(kind, name)])|
  {
    PairedUsesEndsOnce(store, kind, name, starts);
    DistinctWithin(Paired(store, kind, name, starts).1, IdsOf(Run(store, [Ends(kind, name)])));
  }

  // ----- Receipts -----

  /** The receipts of one bundle at one node. */
  function ReceiptsOf(name: Text, bundleId: Option<Text>): Filter
  {
    Filter(MESSAGE_RECEIVED, Some(name), bundleId, None, None)
  }

  /** The receipt a line records carries the bundle's creation time. */
  predicate Timed(receipts: seq<Entry>)
  {
    forall e | e in receipts :: e.timestampBundle.Some?
  }

  /** The time from a bundle's creation to its receipt. */
  function LifeTime(e: Entry): int
    requires e.timestampBundle.Some?
  {
    e.timestamp - e.timestampBundle.value
  }

  /**
   * calculateReceivedInfo's loop over the receipts, in order: the first receipt of each bundle adds
   * the count of all the node's receipts of that bundle; every receipt adds the time from the
   * bundle's creation. The result is the copy counts, the times, and the bundles seen.
   */
  function ReceivedSamples(store: seq<Entry>, name: Text, receipts: seq<Entry>): (r: (seq<nat>, seq<int>, set<Option<Text>>))
    requires Timed(receipts)
    ensures |r.1| == |receipts| && |r.0| == |r.2|
    decreases |receipts|
  {
    if receipts == [] then ([], [], {})
    else
      var e := receipts[|receipts| - 1];
      var (copies, times, seen) := ReceivedSamples(store, name, receipts[..|receipts| - 1]);
      var times' := times + [LifeTime(e)];
      if e.bundleId in seen then (copies, times', seen)
      else (copies + [|Run(store, [ReceiptsOf(name, e.bundleId)])|], times', seen + {e.bundleId})
  }

  function Sum(xs: seq<int>): int
  {
    if xs == [] then 0 else Sum(xs[..|xs| - 1]) + xs[|xs| - 1]
  }

  /** How many of the receipts belong to a bundle in s. */
  function CountIn(receipts: seq<Entry>, s: set<Option<Text>>): nat
  {
    if receipts == [] then 0
    else CountIn(receipts[..|receipts| - 1], s) + (if receipts[|receipts| - 1].bundleId in s then 1 else 0)
  }

  /** The bundles of some receipts. */
  function BundlesOf(receipts: seq<Entry>): set<Option<Text>>
  {
    set e | e in receipts :: e.bundleId
  }

  lemma {:induction false} CountInAdd(receipts: seq<Entry>, s: set<Option<Text>>, b: Option<Text>)
    requires b !in s
    ensures CountIn(receipts, s + {b}) == CountIn(receipts, s) + CountIn(receipts, {b})
    decreases |receipts|
  {
    if receipts != [] {
      CountInAdd(receipts[..|receipts| - 1], s, b);
    }
  }

  lemma {:induction false} CountInAll(receipts: seq<Entry>, s: set<Option<Text>>)
    requires BundlesOf(receipts) <= s
    ensures CountIn(receipts, s) == |receipts|
    decreases |receipts|
  {
    if receipts != [] {
      var front := receipts[..|receipts| - 1];
      assert BundlesOf(front) <= BundlesOf(receipts);
      CountInAll(front, s);
    }
  }

  lemma {:induction false} CountInMember(receipts: seq<Entry>, e: Entry)
    requires e in receipts
    ensures CountIn(receipts, {e.bundleId}) >= 1
    decreases |receipts|
  {
    var front := receipts[..|receipts| - 1];
    if e != receipts[|receipts| - 1] {
      assert receipts == front + [receipts[|receipts| - 1]];
      CountInMember(front, e);
    }
  }

  lemma CountInSnoc(xs: seq<Entry>, x: Entry, s: set<Option<Text>>)
    ensures CountIn(xs + [x], s) == CountIn(xs, s) + (if x.bundleId in s then 1 else 0)
  {
    assert (xs + [x])[..|xs|] == xs;
  }

  lemma {:induction false} CountInNone(xs: seq<Entry>)
    ensures CountIn(xs, {}) == 0
    decreases |xs|
  {
    if xs != [] {
      CountInNone(xs[..|xs| - 1]);
    }
  }

  /** Counting one bundle's receipts in the store is counting them among the node's receipts. */
  lemma {:induction false} CountOfBundle(store: seq<Entry>, name: Text, b: Option<Text>)
    requires b.Some?
    ensures |Run(store, [ReceiptsOf(name, b)])| == CountIn(Run(store, [OfType(MESSAGE_RECEIVED, name)]), {b})
    decreases |store|
  {
    if store == [] {
    } else {
      var front := store[..|store| - 1];
      var last := store[|store| - 1];
      CountOfBundle(front, name, b);
      var all := Run(front, [OfType(MESSAGE_RECEIVED, name)]);
      assert Selected(last, [ReceiptsOf(name, b)]) <==> Holds(last, ReceiptsOf(name, b));
      assert Selected(last, [OfType(MESSAGE_RECEIVED, name)]) <==> Holds(last, OfType(MESSAGE_RECEIVED, name));
      if Selected(last, [OfType(MESSAGE_RECEIVED, name)]) {
        CountInSnoc(all, last, {b});
      } else {
        assert all + [] == all;
      }
    }
  }

  /** A bundle not seen before adds the count of its receipts, at least 1, to the copies. */
  lemma ReceivedNew(receipts: seq<Entry>, seen: set<Option<Text>>, copies: seq<nat>, n: nat, e: Entry)
    requires Sum(copies) == CountIn(receipts, seen) && e.bundleId !in seen
    requires e in receipts && n == CountIn(receipts, {e.bundleId})
    ensures Sum(copies + [n]) == CountIn(receipts, seen + {e.bundleId}) && n >= 1
  {
    CountInAdd(receipts, seen, e.bundleId);
    CountInMember(receipts, e);
    assert (copies + [n])[..|copies|] == copies;
  }

  /** One more receipt of the node, seen or not yet seen by the loop. */
  lemma ReceivedStep(store: seq<Entry>, name: Text, front: seq<Entry>, e: Entry)
    requires Timed(front + [e]) && e.bundleId.Some?
    requires Sum(ReceivedSamples(store, name, front).0) == CountIn(Run(store, [OfType(MESSAGE_RECEIVED, name)]), ReceivedSamples(store, name, front).2)
    requires forall i | 0 <= i < |ReceivedSamples(store, name, front).0| :: ReceivedSamples(store, name, front).0[i] >= 1
    requires e in Run(store, [OfType(MESSAGE_RECEIVED, name)])
    ensures Sum(ReceivedSamples(store, name, front + [e]).0) == CountIn(Run(store, [OfType(MESSAGE_RECEIVED, name)]), ReceivedSamples(store, name, front + [e]).2)
    ensures forall i | 0 <= i < |ReceivedSamples(store, name, front + [e]).0| :: ReceivedSamples(store, name, front + [e]).0[i] >= 1
  {
    var receipts := Run(store, [OfType(MESSAGE_RECEIVED, name)]);
    var prefix := front + [e];
    assert prefix[..|prefix| - 1] == front;
    var before := ReceivedSamples(store, name, front);
    var after := ReceivedSamples(store, name, prefix);
    if e.bundleId !in before.2 {
      var n := |Run(store, [ReceiptsOf(name, e.bundleId)])|;
      CountOfBundle(store, name, e.bundleId);
      ReceivedNew(receipts, before.2, before.0, n, e);
      assert after.0 == before.0 + [n] && after.2 == before.2 + {e.bundleId};
    } else {
      assert after.0 == before.0 && after.2 == before.2;
    }
  }

  /** The loop over a prefix of the node's receipts: the copies so far count every receipt of the bundles seen. */
  lemma {:induction false} ReceivedPrefix(store: seq<Entry>, name: Text, prefix: seq<Entry>)
    requires prefix <= Run(store, [OfType(MESSAGE_RECEIVED, name)])
    requires Timed(prefix) && forall e | e in prefix :: e.bundleId.Some?
    ensures var (copies, _, seen) := ReceivedSamples(store, name, prefix);
      seen == BundlesOf(prefix) &&
      Sum(copies) == CountIn(Run(store, [OfType(MESSAGE_RECEIVED, name)]), seen) &&
      forall i | 0 <= i < |copies| :: copies[i] >= 1
    decreases |prefix|
  {
    var receipts := Run(store, [OfType(MESSAGE_RECEIVED, name)]);
    if prefix == [] {
      CountInNone(receipts);
      assert BundlesOf(prefix) == {};
    } else {
      var front := prefix[..|prefix| - 1];
      var e := prefix[|prefix| - 1];
      assert prefix == front + [e];
      assert e == receipts[|prefix| - 1];
      ReceivedPrefix(store, name, front);
      ReceivedStep(store, name, front, e);
      assert BundlesOf(prefix) == BundlesOf(front) + {e.bundleId};
    }
  }

  /**
   * Over all of a node's receipts: one copy count per distinct bundle, each at least 1, adding up
   * to the number of receipts; and one time sample per receipt.
   */
  lemma ReceivedCounts(store: seq<Entry>, name: Text)
    requires Timed(Run(store, [OfType(MESSAGE_RECEIVED, name)]))
    requires forall e | e in Run(store, [OfType(MESSAGE_RECEIVED, name)]) :: e.bundleId.Some?
    ensures var receipts := Run(store, [OfType(MESSAGE_RECEIVED, name)]);
      var (copies, times, seen) := ReceivedSamples(store, name, receipts);
      |copies| == |BundlesOf(receipts)| && Sum(copies) == |receipts| && |times| == |receipts| &&
      forall i | 0 <= i < |copies| :: copies[i] >= 1
  {
    var receipts := Run(store, [OfType(MESSAGE_RECEIVED, name)]);
    ReceivedPrefix(store, name, receipts);
    CountInAll(receipts, BundlesOf(receipts));
  }

  /** With no copy counts there are no times either: the source's branch for times without copies is never taken. */
  lemma {:induction false} NoCopiesNoTimes(store: seq<Entry>, name: Text, receipts: seq<Entry>)
    requires Timed(receipts)
    ensures ReceivedSamples(store, name, receipts).0 == [] ==> receipts == []
    decreases |receipts|
  {
    if receipts != [] {
      NoCopiesNoTimes(store, name, receipts[..|receipts| - 1]);
    }
  }

  // ----- Bytes -----

  /** getBytes' sum of int(size) over some receipts, or the ValueError of a size that is not an integer. */
  function SizesTotal(receipts: seq<Entry>): (r: Result<int, PyError>)
    requires forall e | e in receipts :: e.sizeBundle.Some?
    ensures r.Err? ==> r.error == ValueError
    decreases |receipts|
  {
    if receipts == [] then Ok(0)
    else
      var e := receipts[|receipts| - 1];
      match SizesTotal(receipts[..|receipts| - 1])
        case Err(x) => Err(x)
        case Ok(total) =>
          match PyInt(e.sizeBundle.value)
            case None => Err(ValueError)
            case Some(size) => Ok(total + size)
  }

  /** A receipt whose size is an integer between 0 and max. */
  predicate SizeWithin(e: Entry, max: nat)
  {
    e.sizeBundle.Some? && PyInt(e.sizeBundle.value).Some? && 0 <= PyInt(e.sizeBundle.value).value <= max
  }

  /** Sizes all between 0 and max make a total between 0 and max per receipt. */
  lemma {:induction false} SizesTotalBound(receipts: seq<Entry>, max: nat)
    requires forall e | e in receipts :: e.sizeBundle.Some? && SizeWithin(e, max)
    ensures SizesTotal(receipts).Ok? && 0 <= SizesTotal(receipts).value <= |receipts| * max
    decreases |receipts|
  {
    if receipts != [] {
      var front := receipts[..|receipts| - 1];
      var e := receipts[|receipts| - 1];
      assert forall x | x in front :: x in receipts;
      SizesTotalBound(front, max);
      assert e in receipts && SizeWithin(e, max);
      MulSucc(|front|, max);
    }
  }

  lemma MulSucc(n: nat, m: nat)
    ensures (n + 1) * m == n * m + m
  {
  }

  /** The relay event's query in getBytesDelivered: the bundle's arrivals relayed from the node. */
  function ArrivalsFrom(name: Text, bundleId: Option<Text>): Filter
  {
    Filter(MESSAGE_RELAYED_FROM, None, bundleId, None, Some(name))
  }

  /**
   * What one relayed event adds in getBytesDelivered: the size text of the first receipt of the
   * bundle at the node of the first arrival relayed from this node, or nothing.
   */
  function DeliveredSize(store: seq<Entry>, name: Text, e: Entry): (r: Option<Text>)
    requires forall x | x in store && x.typeId == MESSAGE_RECEIVED :: x.sizeBundle.Some?
    requires e.bundleId.Some?
    ensures r.Some? ==> exists x | x in store :: x.typeId == MESSAGE_RECEIVED && x.bundleId == e.bundleId && x.sizeBundle == r
  {
    var p := Run(store, [ArrivalsFrom(name, e.bundleId)]);
    if p == [] then None
    else
      var p1 := Run(store, [ReceiptsOf(p[0].fileFrom, e.bundleId)]);
      if p1 == [] then None
      else
        assert p1[0] in p1 && p1[0] in store && Holds(p1[0], ReceiptsOf(p[0].fileFrom, e.bundleId));
        p1[0].sizeBundle
  }

  /** getBytesDelivered's loop over the relayed events, or the ValueError of a size that is not an integer. */
  function DeliveredTotal(store: seq<Entry>, name: Text, relayed: seq<Entry>): (r: Result<int, PyError>)
    requires forall x | x in store && x.typeId == MESSAGE_RECEIVED :: x.sizeBundle.Some?
    requires forall x | x in relayed :: x.bundleId.Some?
    ensures r.Err? ==> r.error == ValueError
    ensures relayed == [] ==> r == Ok(0)
    decreases |relayed|
  {
    if relayed == [] then Ok(0)
    else
      match DeliveredTotal(store, name, relayed[..|relayed| - 1])
        case Err(x) => Err(x)
        case Ok(total) =>
          match DeliveredSize(store, name, relayed[|relayed| - 1])
            case None => Ok(total)
            case Some(text) =>
              match PyInt(text)
                case None => Err(ValueError)
                case Some(size) => Ok(total + size)
  }

  /**
   * Each relayed event adds at most one receipt's size: with every receipt size between 0 and max,
   * the delivered bytes are between 0 and max per relayed event.
   */
  lemma {:induction false} DeliveredBound(store: seq<Entry>, name: Text, relayed: seq<Entry>, max: nat)
    requires forall x | x in store && x.typeId == MESSAGE_RECEIVED :: x.sizeBundle.Some? && SizeWithin(x, max)
    requires forall x | x in relayed :: x.bundleId.Some?
    ensures DeliveredTotal(store, name, relayed).Ok?
    ensures 0 <= DeliveredTotal(store, name, relayed).value <= |relayed| * max
    decreases |relayed|
  {
    if relayed != [] {
      var front := relayed[..|relayed| - 1];
      DeliveredBound(store, name, front, max);
      var size := DeliveredSize(store, name, relayed[|relayed| - 1]);
      if size.Some? {
        var x :| x in store && x.typeId == MESSAGE_RECEIVED && x.bundleId == relayed[|relayed| - 1].bundleId && x.sizeBundle == size;
        assert SizeWithin(x, max);
      }
      MulSucc(|front|, max);
    }
  }

  // ----- Overhead -----

  /** Python 2's / on integers: the quotient rounded toward minus infinity. */
  function FloorDiv(a: int, b: int): (r: int)
    requires b != 0
    ensures b > 0 ==> b * r <= a < b * (r + 1)
    ensures b < 0 ==> b * (r + 1) < a <= b * r
  {
    if b > 0 then a / b else (-a) / (-b)
  }

  /** The overhead ratio of a node, 'NaN' when nothing was delivered. */
  datatype Overhead = NaN | Ratio(value: int)

  /**
   * generateJSON's per-node overhead ratio: (received - delivered) / delivered, or 'NaN' for the
   * ZeroDivisionError of no delivered bytes.
   */
  function OverheadRatio(received: int, delivered: int): (r: Overhead)
    ensures r == NaN <==> delivered == 0
    ensures delivered > 0 ==> r.value * delivered <= received - delivered < (r.value + 1) * delivered
  {
    if delivered == 0 then NaN else Ratio(FloorDiv(received - delivered, delivered))
  }

  /**
   * The ratio is the one integer q with q * delivered <= received - delivered < (q + 1) * delivered:
   * receiving what was delivered gives 0, receiving twice as much gives 1.
   */
  lemma OverheadIsFloor(received: int, delivered: int, q: int)
    requires delivered > 0 && q * delivered <= received - delivered < (q + 1) * delivered
    ensures OverheadRatio(received, delivered) == Ratio(q)
  {
    var r := OverheadRatio(received, delivered).value;
    ProductOrder(r, q + 1, delivered);
    ProductOrder(q, r + 1, delivered);
  }

  lemma ProductOrder(a: int, b: int, d: int)
    requires d > 0 && a * d < b * d
    ensures a < b
  {
    assert (b - a) * d > 0;
  }
}
