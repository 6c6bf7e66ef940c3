/**
 * The statistics tool: it reads every node's event log into one store of entries, replaces the
 * declared node names by their node ids, and then works out each node's metrics and the network's
 * totals from queries over the store.
 */
module StatisticsHelper {
  import opened Wire
  import opened Decimal
  import opened StatisticsEvents
  import opened Summary

  /** An open log file: its name (the node's name) and its lines. */
  datatype LogFile = LogFile(name: Text, lines: seq<Text>)

  /** Every entry is one a log line can produce. */
  predicate AllShaped(store: seq<Entry>)
  {
    forall e | e in store :: Shaped(e)
  }

  /** Every entry's id is its position in the store, and every entry is one a log line can produce. */
  predicate Indexed(store: seq<Entry>)
  {
    (forall i | 0 <= i < |store| :: store[i].rabaId == i) && AllShaped(store)
  }

  // ----- Reading the logs -----

  /** The store, the declared names, and the exception that stopped the reading, if any. */
  datatype Ingest = Ingest(store: seq<Entry>, lookup: map<Text, Text>, error: Option<PyError>)

  /** parseFile's handling of one line while no exception has been raised. */
  function IngestOne(st: Ingest, fileFrom: Text, line: Text): (r: Ingest)
    ensures r.error.None? <==> ParseLine(fileFrom, line, |st.store|).Ok?
    ensures r.error.Some? ==> r.store == st.store && r.lookup == st.lookup
    ensures r.error.None? ==> |r.store| == |st.store| + 1 && r.store[..|st.store|] == st.store
    ensures st.lookup.Keys <= r.lookup.Keys
    ensures forall i | |st.store| <= i < |r.store| :: r.store[i].rabaId == i && r.store[i].fileFrom == fileFrom && Shaped(r.store[i])
  {
    match ParseLine(fileFrom, line, |st.store|)
      case Err(e) => st.(error := Some(e))
      case Ok(parsed) =>
        ParsedShaped(fileFrom, line, |st.store|);
        var lookup := if parsed.declared.Some? then st.lookup[parsed.declared.value.0 := parsed.declared.value.1] else st.lookup;
        Ingest(st.store + [parsed.entry], lookup, None)
  }

  /**
   * parseFile over some lines: each line's entry is saved with the next id, a start line records
   * its name, and the first exception stops the reading with everything saved before it kept.
   */
  function IngestLines(st: Ingest, fileFrom: Text, lines: seq<Text>): (r: Ingest)
    ensures st.error.Some? ==> r == st
    ensures st.store <= r.store && |r.store| <= |st.store| + |lines|
    ensures st.error.None? && r.error.None? ==> |r.store| == |st.store| + |lines|
    ensures st.lookup.Keys <= r.lookup.Keys
    ensures forall i | |st.store| <= i < |r.store| :: r.store[i].rabaId == i && r.store[i].fileFrom == fileFrom && Shaped(r.store[i])
    decreases |lines|
  {
    if lines == [] then st
    else
      var before := IngestLines(st, fileFrom, lines[..|lines| - 1]);
      if before.error.Some? then before
      else IngestOne(before, fileFrom, lines[|lines| - 1])
  }

  lemma IngestLinesStep(st: Ingest, fileFrom: Text, lines: seq<Text>, i: nat)
    requires i < |lines| && IngestLines(st, fileFrom, lines[..i]).error.None?
    ensures IngestLines(st, fileFrom, lines[..i + 1]) == IngestOne(IngestLines(st, fileFrom, lines[..i]), fileFrom, lines[i])
  {
    assert lines[..i + 1][..i] == lines[..i];
  }

  /** Once an exception is raised, the lines after it change nothing. */
  lemma {:induction false} IngestStops(st: Ingest, fileFrom: Text, lines: seq<Text>, i: nat)
    requires i <= |lines| && IngestLines(st, fileFrom, lines[..i]).error.Some?
    ensures IngestLines(st, fileFrom, lines) == IngestLines(st, fileFrom, lines[..i])
    decreases |lines| - i
  {
    if i < |lines| {
      assert lines[..i + 1][..i] == lines[..i];
      assert IngestLines(st, fileFrom, lines[..i + 1]) == IngestLines(st, fileFrom, lines[..i]);
      IngestStops(st, fileFrom, lines, i + 1);
    } else {
      assert lines[..i] == lines;
    }
  }

  /** The first loop of parseFiles: parseFile on each file in turn, stopped by the first exception. */
  function IngestFiles(st: Ingest, files: seq<LogFile>): (r: Ingest)
    ensures st.error.Some? ==> r == st
    ensures st.store <= r.store && st.lookup.Keys <= r.lookup.Keys
    ensures forall i | |st.store| <= i < |r.store| :: r.store[i].rabaId == i && Shaped(r.store[i])
    decreases |files|
  {
    if files == [] then st
    else
      var before := IngestFiles(st, files[..|files| - 1]);
      var file := files[|files| - 1];
      IngestLines(before, file.name, file.lines)
  }

  lemma {:induction false} IngestFilesStops(st: Ingest, files: seq<LogFile>, j: nat)
    requires j <= |files| && IngestFiles(st, files[..j]).error.Some?
    ensures IngestFiles(st, files) == IngestFiles(st, files[..j])
    decreases |files| - j
  {
    if j < |files| {
      assert files[..j + 1][..j] == files[..j];
      assert IngestFiles(st, files[..j + 1]) == IngestFiles(st, files[..j]);
      IngestFilesStops(st, files, j + 1);
    } else {
      assert files[..j] == files;
    }
  }

  lemma IngestFilesStep(st: Ingest, files: seq<LogFile>, j: nat)
    requires j < |files|
    ensures IngestFiles(st, files[..j + 1]) == IngestLines(IngestFiles(st, files[..j]), files[j].name, files[j].lines)
  {
    assert files[..j + 1][..j] == files[..j];
  }

  /** Entries saved after an indexed store, each with its position as id and a shape, keep it indexed. */
  lemma IndexedGrows(before: seq<Entry>, after: seq<Entry>)
    requires Indexed(before) && before <= after
    requires forall i | |before| <= i < |after| :: after[i].rabaId == i && Shaped(after[i])
    ensures Indexed(after)
  {
    forall e | e in after
      ensures Shaped(e)
    {
      var i :| 0 <= i < |after| && after[i] == e;
      if i < |before| {
        assert before[i] in before;
      }
    }
  }

  /** Reading a well-formed log adds one entry per line, all from that log. */
  lemma ReadLog(st: Ingest, file: LogFile)
    requires st.error.None?
    requires IngestLines(st, file.name, file.lines).error.None?
    ensures var r := IngestLines(st, file.name, file.lines);
      |r.store| == |st.store| + |file.lines| && r.store[..|st.store|] == st.store &&
      forall i | |st.store| <= i < |r.store| :: r.store[i].fileFrom == file.name
  {
  }

  // ----- Replacing names by node ids -----

  /** The two fields parseFiles rewrites: the destination and the source. */
  datatype Role = Destination | Source

  function IdIn(e: Entry, role: Role): Option<Text>
  {
    match role
      case Destination => e.toId
      case Source => e.fromId
  }

  function WithId(e: Entry, role: Role, id: Option<Text>): (r: Entry)
    ensures IdIn(r, role) == id
  {
    match role
      case Destination => e.(toId := id)
      case Source => e.(fromId := id)
  }

  /** An id after the names in keys have been replaced. */
  function RenameId(id: Option<Text>, lookup: map<Text, Text>, keys: set<Text>): (r: Option<Text>)
    ensures id.None? ==> r.None?
    ensures r != id ==> id.Some? && id.value in keys && id.value in lookup && r == Some(lookup[id.value])
  {
    if id.Some? && id.value in keys && id.value in lookup then Some(lookup[id.value]) else id
  }

  function RenamedBy(e: Entry, lookup: map<Text, Text>, keys: set<Text>): Entry
  {
    e.(toId := RenameId(e.toId, lookup, keys), fromId := RenameId(e.fromId, lookup, keys))
  }

  /** An entry with every declared name among its ids replaced by its node id. */
  function Renamed(e: Entry, lookup: map<Text, Text>): Entry
  {
    RenamedBy(e, lookup, lookup.Keys)
  }

  /** No node id is itself a declared name, so the replacements do not feed each other. */
  predicate NoChains(lookup: map<Text, Text>)
  {
    forall k | k in lookup :: lookup[k] !in lookup
  }

  /** Two entries that differ at most in their destination and source. */
  predicate SameBut(a: Entry, b: Entry)
  {
    a.(toId := None, fromId := None) == b.(toId := None, fromId := None)
  }

  /** Without chains, replacing one more name k gives the ids renamed with k added to the keys. */
  lemma RenameStep(id: Option<Text>, lookup: map<Text, Text>, keys: set<Text>, k: Text)
    requires NoChains(lookup) && k in lookup && k !in keys
    ensures (if RenameId(id, lookup, keys) == Some(k) then Some(lookup[k]) else RenameId(id, lookup, keys))
         == RenameId(id, lookup, keys + {k})
  {
    if id.Some? && id.value in keys && id.value in lookup {
      assert lookup[id.value] !in lookup;
    }
  }

  /** The entry after the id in the role equal to k has been replaced by v. */
  function ReplacedIn(e: Entry, role: Role, k: Text, v: Text): (r: Entry)
    ensures SameBut(r, e) && r.rabaId == e.rabaId && (Shaped(e) ==> Shaped(r))
    ensures IdIn(r, role) == (if IdIn(e, role) == Some(k) then Some(v) else IdIn(e, role))
  {
    if IdIn(e, role) == Some(k) then WithId(e, role, Some(v)) else e
  }

  /**
   * Replacing k in the destination and then in the source keeps an entry the same but for its
   * ids and, without chains, takes it from the renaming by done to the renaming by done and k.
   */
  lemma ReplaceBoth(e0: Entry, e: Entry, lookup: map<Text, Text>, done: set<Text>, k: Text)
    requires k in lookup && k !in done && SameBut(e, e0)
    requires NoChains(lookup) ==> e == RenamedBy(e0, lookup, done)
    ensures var r := ReplacedIn(ReplacedIn(e, Destination, k, lookup[k]), Source, k, lookup[k]);
      SameBut(r, e0) && (NoChains(lookup) ==> r == RenamedBy(e0, lookup, done + {k}))
  {
    if NoChains(lookup) {
      RenameStep(e0.toId, lookup, done, k);
      RenameStep(e0.fromId, lookup, done, k);
    }
  }

  /**
   * The store part way through parseFiles' renaming loop, once the names in done have been
   * replaced: only ids have changed, the positions and shapes are kept and, without chains, every
   * entry is its original renamed by done.
   */
  predicate RenamedSoFar(orig: seq<Entry>, store: seq<Entry>, lookup: map<Text, Text>, done: set<Text>)
  {
    |store| == |orig| &&
    (forall i | 0 <= i < |orig| :: SameBut(store[i], orig[i])) &&
    (Indexed(orig) ==> Indexed(store)) &&
    (NoChains(lookup) ==> forall i | 0 <= i < |orig| :: store[i] == RenamedBy(orig[i], lookup, done))
  }

  /** One round of parseFiles' renaming loop, over the whole store. */
  lemma {:induction false} RenameRound(orig: seq<Entry>, before: seq<Entry>, middle: seq<Entry>, after: seq<Entry>,
                    lookup: map<Text, Text>, done: set<Text>, k: Text)
    requires k in lookup && k !in done
    requires RenamedSoFar(orig, before, lookup, done)
    requires |middle| == |orig| && |after| == |orig|
    requires forall i | 0 <= i < |orig| :: middle[i] == ReplacedIn(before[i], Destination, k, lookup[k])
    requires forall i | 0 <= i < |orig| :: after[i] == ReplacedIn(middle[i], Source, k, lookup[k])
    ensures RenamedSoFar(orig, after, lookup, done + {k})
  {
    forall i | 0 <= i < |orig|
      ensures SameBut(after[i], orig[i])
      ensures Indexed(orig) ==> after[i].rabaId == i && Shaped(after[i])
      ensures NoChains(lookup) ==> after[i] == RenamedBy(orig[i], lookup, done + {k})
    {
      ReplaceBoth(orig[i], before[i], lookup, done, k);
      if Indexed(orig) {
        assert before[i] in before;
      }
    }
    if Indexed(orig) {
      forall e | e in after
        ensures Shaped(e)
      {
        var i :| 0 <= i < |after| && after[i] == e;
      }
    }
  }

  /** With a declared name that is also a node id, the order of replacement decides the result. */
  lemma ChainsDependOnOrder(a: Text, b: Text, c: Text)
    requires a != b && b != c && a != c
    ensures var lookup := map[a := b, b := c];
      var first := Some(a);
      RenameId(RenameId(first, lookup, {a}), lookup, {b}) == Some(c) &&
      RenameId(RenameId(first, lookup, {b}), lookup, {a}) == Some(b)
  {
  }

  // ----- Metrics -----

  /** What generateJSON records for one node. Times are in milliseconds. */
  datatype NodeInfo = NodeInfo(nodeId: Text, created: nat, relayedFrom: nat, relayed: nat, delivered: int,
                               dropped: nat, received: int, copies: seq<nat>, lifeTimes: seq<int>,
                               bufferTimes: seq<int>, overhead: Overhead, contacts: nat, contactTimes: seq<int>)

  /** The start events of a stored bundle: its creation and its arrival. */
  function BufferStarts(name: Text): seq<Filter>
  {
    [OfType(MESSAGE_CREATED, name), OfType(MESSAGE_RELAYED_FROM, name)]
  }

  /**
   * One node's record, or the ValueError of a size that is not an integer (from the delivered
   * bytes first, then from the received bytes).
   */
  function NodeOf(store: seq<Entry>, name: Text): (r: Result<NodeInfo, PyError>)
    requires AllShaped(store)
    ensures r.Ok? <==> (DeliveredTotal(store, name, Run(store, [OfType(MESSAGE_RELAYED, name)])).Ok?
                        && SizesTotal(Run(store, [OfType(MESSAGE_RECEIVED, name)])).Ok?)
    ensures r.Ok? ==> r.value.nodeId == name && r.value.relayed == |Run(store, [OfType(MESSAGE_RELAYED, name)])|
  {
    OfTypeMembers(store, MESSAGE_RELAYED, name);
    OfTypeMembers(store, MESSAGE_RECEIVED, name);
    var relayed := Run(store, [OfType(MESSAGE_RELAYED, name)]);
    var receipts := Run(store, [OfType(MESSAGE_RECEIVED, name)]);
    match DeliveredTotal(store, name, relayed)
      case Err(e) => Err(e)
      case Ok(delivered) =>
        match SizesTotal(receipts)
          case Err(e) => Err(e)
          case Ok(received) =>
            var (copies, lifeTimes, _) := ReceivedSamples(store, name, receipts);
            var appear := Run(store, [OfType(NEIGH_APPEAR, name)]);
            Ok(NodeInfo(name,
                        |Run(store, [OfType(MESSAGE_CREATED, name)])|,
                        |Run(store, [OfType(MESSAGE_RELAYED_FROM, name)])|,
                        |relayed|,
                        delivered,
                        |Run(store, [OfType(MESSAGE_DROPPED, name)])|,
                        received,
                        copies,
                        lifeTimes,
                        Paired(store, BufferTime, name, Run(store, BufferStarts(name))).0,
                        OverheadRatio(received, delivered),
                        |appear|,
                        Paired(store, ContactTime, name, appear).0))
  }

  /** A node's record fails only with the ValueError of a size that is not an integer. */
  lemma NodeFails(store: seq<Entry>, name: Text)
    requires AllShaped(store)
    ensures NodeOf(store, name).Err? ==> NodeOf(store, name).error == ValueError
  {
    OfTypeMembers(store, MESSAGE_RELAYED, name);
    OfTypeMembers(store, MESSAGE_RECEIVED, name);
  }

  /** A node's record carries its name, and its overhead ratio is 'NaN' exactly when nothing was delivered. */
  lemma NodeOverhead(store: seq<Entry>, name: Text)
    requires AllShaped(store) && NodeOf(store, name).Ok?
    ensures var info := NodeOf(store, name).value;
      info.nodeId == name && (info.overhead == NaN <==> info.delivered == 0)
  {
    OfTypeMembers(store, MESSAGE_RELAYED, name);
    OfTypeMembers(store, MESSAGE_RECEIVED, name);
  }

  /** The copy counts of a node's record, all at least one, add up to its receipts, one lifetime each. */
  lemma NodeCopies(store: seq<Entry>, name: Text)
    requires AllShaped(store) && NodeOf(store, name).Ok?
    ensures var info := NodeOf(store, name).value;
      Sum(info.copies) == |Run(store, [OfType(MESSAGE_RECEIVED, name)])| == |info.lifeTimes| &&
      forall i | 0 <= i < |info.copies| :: info.copies[i] >= 1
  {
    OfTypeMembers(store, MESSAGE_RELAYED, name);
    OfTypeMembers(store, MESSAGE_RECEIVED, name);
    ReceivedCounts(store, name);
  }

  /**
   * A node's record has no more buffer times than starts or removals, and no more contact times
   * than contacts or disappearances.
   */
  lemma NodeTimes(store: seq<Entry>, name: Text)
    requires AllShaped(store) && NodeOf(store, name).Ok?
    ensures var info := NodeOf(store, name).value;
      |info.bufferTimes| <= |Run(store, BufferStarts(name))| &&
      |info.bufferTimes| <= |Run(store, [OfType(MESSAGE_REMOVED, name)])| &&
      |info.contactTimes| <= info.contacts &&
      |info.contactTimes| <= |Run(store, [OfType(NEIGH_DISAPPEAR, name)])|
  {
    OfTypeMembers(store, MESSAGE_RELAYED, name);
    OfTypeMembers(store, MESSAGE_RECEIVED, name);
    PairedBound(store, BufferTime, name, Run(store, BufferStarts(name)));
    PairedBound(store, ContactTime, name, Run(store, [OfType(NEIGH_APPEAR, name)]));
  }

  // ----- The values generateJSON stores for a node -----

  /**
   * One stored value: the integer 0 that calculateReceivedInfo returns for a node with no receipts,
   * a numpy float, or numpy's NaN for the median or mean of an empty list.
   */
  datatype Stat = Zero | Float(value: real) | NotANumber

  function FromNumpy(x: Option<real>): (r: Stat)
    ensures r == NotANumber <==> x.None?
    ensures x.Some? ==> r == Float(x.value)
  {
    if x.None? then NotANumber else Float(x.value)
  }

  /** A value divided by 1000 under Python 2: the integer 0 stays 0, NaN stays NaN. */
  function Thousandth(x: Stat): (r: Stat)
    ensures r.Zero? <==> x.Zero?
    ensures r.NotANumber? <==> x.NotANumber?
    ensures x.Float? ==> r.value * 1000.0 == x.value
  {
    match x
      case Float(v) => Float(v / 1000.0)
      case _ => x
  }

  /** calculateReceivedInfo's result: median and mean of the copy counts, then of the lifetimes. */
  datatype ReceivedStats = ReceivedStats(copiesMed: Stat, copiesAvg: Stat, lifeTimeMed: Stat, lifeTimeAvg: Stat)

  function ReceivedInfo(copies: seq<nat>, times: seq<int>): (r: ReceivedStats)
    ensures copies == [] ==> r.copiesMed == Zero && r.copiesAvg == Zero
    ensures copies != [] ==> r.copiesMed.Float? && r.copiesAvg.Float?
    ensures r.lifeTimeAvg.NotANumber? <==> copies != [] && times == []
  {
    if |copies| > 0 then
      ReceivedStats(FromNumpy(Median(Reals(copies))), FromNumpy(Mean(Reals(copies))),
                    FromNumpy(Median(Reals(times))), FromNumpy(Mean(Reals(times))))
    else if |times| > 0 then
      ReceivedStats(Zero, Zero, FromNumpy(Median(Reals(times))), FromNumpy(Mean(Reals(times))))
    else
      ReceivedStats(Zero, Zero, Zero, Zero)
  }

  /** What generateJSON stores for a node besides its counts: copies per bundle, and times in seconds. */
  datatype NodeReport = NodeReport(copiesMed: Stat, copiesAvg: Stat, lifeTimeMed: Stat, lifeTimeAvg: Stat,
                                   bufferTimeMed: Stat, bufferTimeAvg: Stat,
                                   contactTimeMed: Stat, contactTimeAvg: Stat)

  function ReportOf(info: NodeInfo): (r: NodeReport)
    ensures info.copies == [] ==> r.copiesMed == Zero && r.copiesAvg == Zero
    ensures r.bufferTimeAvg.NotANumber? <==> info.bufferTimes == []
    ensures r.contactTimeAvg.NotANumber? <==> info.contactTimes == []
  {
    var received := ReceivedInfo(info.copies, info.lifeTimes);
    NodeReport(received.copiesMed, received.copiesAvg,
               Thousandth(received.lifeTimeMed), Thousandth(received.lifeTimeAvg),
               Thousandth(FromNumpy(Median(Reals(info.bufferTimes)))), Thousandth(FromNumpy(Mean(Reals(info.bufferTimes)))),
               Thousandth(FromNumpy(Median(Reals(info.contactTimes)))), Thousandth(FromNumpy(Mean(Reals(info.contactTimes)))))
  }

  /**
   * A node's stored copies per bundle: the integer 0 when it received nothing, otherwise its receipts
   * over its distinct bundles, with a median between 1 and its largest copy count.
   */
  lemma NodeCopiesReport(store: seq<Entry>, name: Text, info: NodeInfo, most: nat)
    requires AllShaped(store) && NodeOf(store, name) == Ok(info)
    requires forall i | 0 <= i < |info.copies| :: info.copies[i] <= most
    ensures var report := ReportOf(info); var receipts := |Run(store, [OfType(MESSAGE_RECEIVED, name)])|;
      (receipts == 0 ==> report.copiesAvg == Zero && report.copiesMed == Zero) &&
      (receipts > 0 ==> report.copiesAvg.Float? && AverageOf(report.copiesAvg.value, receipts, |info.copies|) &&
                        report.copiesMed.Float? && 1.0 <= report.copiesMed.value <= most as real)
  {
    CopiesOf(store, name, info);
    CopiesStats(info.copies, info.lifeTimes, most);
    if info.copies == [] {
      assert Sum(info.copies) == 0;
    }
  }

  lemma CopiesOf(store: seq<Entry>, name: Text, info: NodeInfo)
    requires AllShaped(store) && NodeOf(store, name) == Ok(info)
    ensures Sum(info.copies) == |Run(store, [OfType(MESSAGE_RECEIVED, name)])| == |info.lifeTimes|
    ensures forall i | 0 <= i < |info.copies| :: info.copies[i] >= 1
  {
    NodeCopies(store, name);
  }

  lemma CopiesStats(copies: seq<nat>, times: seq<int>, most: nat)
    requires forall i | 0 <= i < |copies| :: 1 <= copies[i] <= most
    ensures var r := ReceivedInfo(copies, times);
      (copies == [] ==> r.copiesAvg == Zero && r.copiesMed == Zero) &&
      (copies != [] ==> r.copiesAvg.Float? && AverageOf(r.copiesAvg.value, Sum(copies), |copies|) &&
                        1.0 <= r.copiesAvg.value <= most as real &&
                        r.copiesMed.Float? && 1.0 <= r.copiesMed.value <= most as real)
  {
    if copies != [] {
      var xs := Reals(copies);
      MedianBounds(xs, 1.0, most as real);
      MeanBounds(xs, 1.0, most as real);
      SumOfReals(copies);
      var avg := ReceivedInfo(copies, times).copiesAvg;
      assert avg == Float(Mean(xs).value);
      MeanOfCounts(xs, avg.value, |copies|, Sum(copies));
    }
  }

  lemma MeanOfCounts(xs: seq<real>, m: real, n: nat, total: int)
    requires xs != [] && |xs| == n && SumOf(xs) == total as real && m == Mean(xs).value
    ensures AverageOf(m, total, n)
  {
  }

  /** m is the average of n numbers adding up to total. */
  predicate AverageOf(m: real, total: int, n: nat)
  {
    m * (n as real) == total as real
  }

  /** numpy's sum of a list of integers read as reals is their integer sum. */
  lemma {:induction false} SumOfReals(xs: seq<int>)
    ensures SumOf(Reals(xs)) == Sum(xs) as real
    decreases |xs|
  {
    if xs != [] {
      SumOfReals(xs[..|xs| - 1]);
      assert Reals(xs)[..|xs| - 1] == Reals(xs[..|xs| - 1]);
    }
  }

  /** A node's stored lifetimes, buffer times and contact times are NaN only for a node without any such sample. */
  lemma ReportTimes(info: NodeInfo)
    requires |info.copies| > 0 <==> |info.lifeTimes| > 0
    ensures var report := ReportOf(info);
      (report.lifeTimeAvg == Zero <==> info.lifeTimes == []) && !report.lifeTimeAvg.NotANumber? &&
      (report.bufferTimeAvg == NotANumber <==> info.bufferTimes == []) &&
      (report.contactTimeAvg == NotANumber <==> info.contactTimes == [])
  {
  }

  /** Each named node's record or exception, in the order of the names. */
  function Records(store: seq<Entry>, names: seq<Text>): (r: seq<Result<NodeInfo, PyError>>)
    requires AllShaped(store)
    ensures |r| == |names| && forall i | 0 <= i < |names| :: r[i] == NodeOf(store, names[i])
  {
    seq(|names|, i requires 0 <= i < |names| => NodeOf(store, names[i]))
  }

  /**
   * What a loop over some results that stops at the first exception keeps: the records before it,
   * and the exception, if any.
   */
  function Collected(results: seq<Result<NodeInfo, PyError>>): (r: (seq<NodeInfo>, Option<PyError>))
    ensures |r.0| <= |results|
    ensures r.1.None? <==> forall i | 0 <= i < |results| :: results[i].Ok?
    decreases |results|
  {
    if results == [] then ([], None)
    else
      var (done, error) := Collected(results[..|results| - 1]);
      if error.Some? then (done, error)
      else match results[|results| - 1]
        case Err(e) => (done, Some(e))
        case Ok(info) => (done + [info], None)
  }

  /** Without an exception, every result is kept, in order. */
  lemma {:induction false} CollectedAll(results: seq<Result<NodeInfo, PyError>>)
    requires Collected(results).1.None?
    ensures |Collected(results).0| == |results|
    ensures forall i | 0 <= i < |results| :: results[i] == Ok(Collected(results).0[i])
    decreases |results|
  {
    if results != [] {
      var front := results[..|results| - 1];
      assert Collected(front).1.None?;
      CollectedAll(front);
      assert Collected(results).0 == Collected(front).0 + [results[|results| - 1].value];
      forall i | 0 <= i < |results|
        ensures results[i] == Ok(Collected(results).0[i])
      {
        if i < |front| {
          assert front[i] == results[i];
        }
      }
    }
  }

  /** With an exception, the results after it are not looked at. */
  lemma {:induction false} CollectedStops(results: seq<Result<NodeInfo, PyError>>, more: seq<Result<NodeInfo, PyError>>)
    requires Collected(results).1.Some?
    ensures Collected(results + more).0 == Collected(results).0 && Collected(results + more).1 == Collected(results).1
    decreases |more|
  {
    if more == [] {
      assert results + more == results;
    } else {
      var front := more[..|more| - 1];
      CollectedStops(results, front);
      var all := results + more;
      assert all[..|all| - 1] == results + front;
    }
  }

  /** One more result, once no exception has been raised. */
  lemma CollectedSnoc(results: seq<Result<NodeInfo, PyError>>, x: Result<NodeInfo, PyError>)
    requires Collected(results).1.None?
    ensures x.Err? ==> Collected(results + [x]).0 == Collected(results).0 && Collected(results + [x]).1 == Some(x.error)
    ensures x.Ok? ==> Collected(results + [x]).0 == Collected(results).0 + [x.value] && Collected(results + [x]).1.None?
  {
    var all := results + [x];
    assert all[..|all| - 1] == results;
  }

  /** One more record in generateJSON's loop. */
  lemma RecordsStep(store: seq<Entry>, names: seq<Text>, j: nat, results: seq<Result<NodeInfo, PyError>>, info: Result<NodeInfo, PyError>)
    requires AllShaped(store) && j < |names|
    requires results == Records(store, names)[..j] && Collected(results).1.None?
    requires info == Records(store, names)[j]
    ensures results + [info] == Records(store, names)[..j + 1]
    ensures info.Err? ==> Collected(results + [info]).0 == Collected(results).0 && Collected(results + [info]).1 == Some(info.error)
    ensures info.Ok? ==> Collected(results + [info]).0 == Collected(results).0 + [info.value] && Collected(results + [info]).1.None?
  {
    var all := Records(store, names);
    assert all[..j + 1] == all[..j] + [all[j]];
    CollectedSnoc(results, info);
  }

  /** When generateJSON's loop ends, its records are those of all the names. */
  lemma RecordsEnd(store: seq<Entry>, names: seq<Text>, j: nat, results: seq<Result<NodeInfo, PyError>>)
    requires AllShaped(store) && j <= |names|
    requires results == Records(store, names)[..j]
    requires j == |names| || Collected(results).1.Some?
    ensures Collected(Records(store, names)).0 == Collected(results).0
    ensures Collected(Records(store, names)).1 == Collected(results).1
  {
    var all := Records(store, names);
    if j < |names| {
      assert all == results + all[j..];
      CollectedStops(results, all[j..]);
    } else {
      assert all == results;
    }
  }

  // ----- The network's totals -----

  function Column(nodes: seq<NodeInfo>, pick: NodeInfo -> int): (r: seq<int>)
    ensures |r| == |nodes| && forall i | 0 <= i < |nodes| :: r[i] == pick(nodes[i])
  {
    seq(|nodes|, i requires 0 <= i < |nodes| => pick(nodes[i]))
  }

  /** The stored copies per bundle of each node: the means, or the medians. */
  function CopiesColumn(nodes: seq<NodeInfo>, means: bool): (r: seq<Stat>)
    ensures |r| == |nodes|
    ensures forall i | 0 <= i < |nodes| :: r[i] == if means then ReportOf(nodes[i]).copiesAvg else ReportOf(nodes[i]).copiesMed
  {
    seq(|nodes|, i requires 0 <= i < |nodes| => if means then ReportOf(nodes[i]).copiesAvg else ReportOf(nodes[i]).copiesMed)
  }

  /** The values that pass the 'is not 0' filter: everything but the integer 0, in order. */
  function NonZero(xs: seq<Stat>): (r: seq<Stat>)
    ensures forall i | 0 <= i < |r| :: !r[i].Zero? && r[i] in xs
    ensures r == [] <==> forall i | 0 <= i < |xs| :: xs[i].Zero?
  {
    if xs == [] then []
    else if xs[0].Zero? then NonZero(xs[1..])
    else [xs[0]] + NonZero(xs[1..])
  }

  /** The floats of a list of values; the integer 0 and NaN read as 0.0. */
  function Floats(xs: seq<Stat>): (r: seq<real>)
    ensures |r| == |xs| && forall i | 0 <= i < |xs| :: xs[i].Float? ==> r[i] == xs[i].value
  {
    seq(|xs|, i requires 0 <= i < |xs| => if xs[i].Float? then xs[i].value else 0.0)
  }

  /** numpy.mean of some values: NaN if one of them is NaN or there are none. */
  function MeanOfStats(xs: seq<Stat>): (r: Stat)
    ensures r.NotANumber? <==> NotANumber in xs || xs == []
    ensures !r.Zero?
  {
    if NotANumber in xs then NotANumber else FromNumpy(Mean(Floats(xs)))
  }

  /** numpy.median of some values: NaN if one of them is NaN or there are none. */
  function MedianOfStats(xs: seq<Stat>): (r: Stat)
    ensures r.NotANumber? <==> NotANumber in xs || xs == []
    ensures !r.Zero?
  {
    if NotANumber in xs then NotANumber else FromNumpy(Median(Floats(xs)))
  }

  /**
   * The network's copies per bundle, mean and median over the nodes that received something, lie
   * between 1 and the largest copy count, and are NaN exactly when no node received anything.
   */
  lemma AggregateCopies(nodes: seq<NodeInfo>, most: nat)
    requires forall i | 0 <= i < |nodes| :: forall j | 0 <= j < |nodes[i].copies| :: 1 <= nodes[i].copies[j] <= most
    ensures var a := Aggregated(nodes);
      (a.copiesAvg == NotANumber <==> forall i | 0 <= i < |nodes| :: nodes[i].copies == []) &&
      (a.copiesMed == NotANumber <==> forall i | 0 <= i < |nodes| :: nodes[i].copies == []) &&
      (a.copiesAvg.Float? ==> 1.0 <= a.copiesAvg.value <= most as real) &&
      (a.copiesMed.Float? ==> 1.0 <= a.copiesMed.value <= most as real)
  {
    forall i | 0 <= i < |nodes|
      ensures (nodes[i].copies == []) == ReportOf(nodes[i]).copiesAvg.Zero? == ReportOf(nodes[i]).copiesMed.Zero?
      ensures InRange(ReportOf(nodes[i]).copiesAvg, most) && InRange(ReportOf(nodes[i]).copiesMed, most)
    {
      CopiesStats(nodes[i].copies, nodes[i].lifeTimes, most);
    }
    KeptInRange(CopiesColumn(nodes, true), most);
    KeptInRange(CopiesColumn(nodes, false), most);
  }

  /** The integer 0, or a float between 1 and most. */
  predicate InRange(x: Stat, most: nat)
  {
    x.Zero? || (x.Float? && 1.0 <= x.value <= most as real)
  }

  lemma KeptInRange(xs: seq<Stat>, most: nat)
    requires forall i | 0 <= i < |xs| :: InRange(xs[i], most)
    ensures MeanOfStats(NonZero(xs)) == NotANumber <==> forall i | 0 <= i < |xs| :: xs[i].Zero?
    ensures MedianOfStats(NonZero(xs)) == NotANumber <==> forall i | 0 <= i < |xs| :: xs[i].Zero?
    ensures MeanOfStats(NonZero(xs)).Float? ==> 1.0 <= MeanOfStats(NonZero(xs)).value <= most as real
    ensures MedianOfStats(NonZero(xs)).Float? ==> 1.0 <= MedianOfStats(NonZero(xs)).value <= most as real
  {
    var kept := NonZero(xs);
    forall i | 0 <= i < |kept|
      ensures kept[i].Float? && 1.0 <= kept[i].value <= most as real
    {
      var j :| 0 <= j < |xs| && xs[j] == kept[i];
    }
    assert NotANumber !in kept;
    if kept != [] {
      MeanBounds(Floats(kept), 1.0, most as real);
      MedianBounds(Floats(kept), 1.0, most as real);
    }
  }

  /** The totals over the nodes; the overhead ratio only where it is stored. */
  datatype Aggregate = Aggregate(created: int, relayed: int, relayedFrom: int, received: int, delivered: int,
                                 overhead: Option<Overhead>, copiesAvg: Stat, copiesMed: Stat)

  /**
   * The totals as generateJSON computes them: the network's overhead ratio is computed without a
   * guard and then dropped, so with no delivered bytes at all the division raises ZeroDivisionError
   * and nothing is written.
   */
  function AggregateAsWritten(nodes: seq<NodeInfo>): (r: Result<Aggregate, PyError>)
    ensures r.Err? <==> Sum(Column(nodes, (n: NodeInfo) => n.delivered)) == 0
    ensures r.Err? ==> r.error == ZeroDivisionError
    ensures r.Ok? ==> r.value.overhead.None?
  {
    var delivered := Sum(Column(nodes, (n: NodeInfo) => n.delivered));
    if delivered == 0 then Err(ZeroDivisionError)
    else Ok(Aggregate(Sum(Column(nodes, (n: NodeInfo) => n.created)), Sum(Column(nodes, (n: NodeInfo) => n.relayed)),
                      Sum(Column(nodes, (n: NodeInfo) => n.relayedFrom)), Sum(Column(nodes, (n: NodeInfo) => n.received)), delivered, None,
                      MeanOfStats(NonZero(CopiesColumn(nodes, true))), MedianOfStats(NonZero(CopiesColumn(nodes, false)))))
  }

  /** The totals with the network's overhead ratio guarded as each node's is, and stored. */
  function Aggregated(nodes: seq<NodeInfo>): (r: Aggregate)
    ensures r.overhead.Some? && (r.overhead.value == NaN <==> r.delivered == 0)
    ensures r.delivered == Sum(Column(nodes, (n: NodeInfo) => n.delivered)) && r.received == Sum(Column(nodes, (n: NodeInfo) => n.received))
  {
    var delivered := Sum(Column(nodes, (n: NodeInfo) => n.delivered));
    var received := Sum(Column(nodes, (n: NodeInfo) => n.received));
    Aggregate(Sum(Column(nodes, (n: NodeInfo) => n.created)), Sum(Column(nodes, (n: NodeInfo) => n.relayed)),
              Sum(Column(nodes, (n: NodeInfo) => n.relayedFrom)), received, delivered, Some(OverheadRatio(received, delivered)),
              MeanOfStats(NonZero(CopiesColumn(nodes, true))), MedianOfStats(NonZero(CopiesColumn(nodes, false))))
  }

  /**
   * A network where no relayed bundle was delivered, such as a single node that only created
   * bundles, makes the totals as written fail, while the guarded totals report 'NaN'.
   */
  lemma NoDeliveriesCrash(node: NodeInfo)
    requires node.delivered == 0
    ensures AggregateAsWritten([node]) == Err(ZeroDivisionError)
    ensures Aggregated([node]).overhead == Some(NaN)
  {
    assert Column([node], (n: NodeInfo) => n.delivered) == [0];
    assert [0][..0] == [];
  }

  /** Where the totals as written succeed, the guarded ones agree with them on every total. */
  lemma AggregatesAgree(nodes: seq<NodeInfo>)
    requires AggregateAsWritten(nodes).Ok?
    ensures AggregateAsWritten(nodes).value == Aggregated(nodes).(overhead := None)
    ensures Aggregated(nodes).overhead.value.Ratio?
  {
  }

  /** Each node's delivered bytes are at least 0, so the network's are 0 only when every node's are. */
  lemma {:induction false} NoDeliveriesAnywhere(nodes: seq<NodeInfo>)
    requires forall i | 0 <= i < |nodes| :: nodes[i].delivered >= 0
    ensures Sum(Column(nodes, (n: NodeInfo) => n.delivered)) >= 0
    ensures Sum(Column(nodes, (n: NodeInfo) => n.delivered)) == 0 <==> forall i | 0 <= i < |nodes| :: nodes[i].delivered == 0
    decreases |nodes|
  {
    if nodes != [] {
      var front := nodes[..|nodes| - 1];
      NoDeliveriesAnywhere(front);
      assert Column(nodes, (n: NodeInfo) => n.delivered)[..|front|] == Column(front, (n: NodeInfo) => n.delivered);
    }
  }

  // ----- The tool's state -----

  /**
   * The tool's global state: the store of entries, names_lookup (declared name to node id) and
   * info['nodes'] (the node records written so far).
   */
  class Statistics {
    var store: seq<Entry>
    var namesLookup: map<Text, Text>
    var nodes: seq<NodeInfo>

    constructor()
      ensures store == [] && namesLookup == map[] && nodes == []
    {
      store := [];
      namesLookup := map[];
      nodes := [];
    }

    /** The store is indexed by position and holds only entries a log line can produce. */
    predicate Valid()
      reads this`store
    {
      Indexed(store)
    }

    /** parseFile: each line of the file is saved as an entry, until a line raises an exception. */
    method ParseFile(file: LogFile) returns (error: Option<PyError>)
      modifies this`store, this`namesLookup
      ensures Ingest(store, namesLookup, error) == IngestLines(Ingest(old(store), old(namesLookup), None), file.name, file.lines)
      ensures old(Valid()) ==> Valid()
    {
      ghost var start := Ingest(store, namesLookup, None);
      error := None;
      var i := 0;
      while i < |file.lines| && error.None?
        invariant 0 <= i <= |file.lines|
        invariant Ingest(store, namesLookup, error) == IngestLines(start, file.name, file.lines[..i])
        decreases |file.lines| - i
      {
        IngestLinesStep(start, file.name, file.lines, i);
        ghost var next := IngestOne(Ingest(store, namesLookup, None), file.name, file.lines[i]);
        var parsed := ParseLine(file.name, file.lines[i], |store|);
        match parsed {
          case Err(e) =>
            error := Some(e);
          case Ok(line) =>
            store := store + [line.entry];
            if line.declared.Some? {
              namesLookup := namesLookup[line.declared.value.0 := line.declared.value.1];
            }
        }
        assert Ingest(store, namesLookup, error) == next;
        i := i + 1;
        assert Ingest(store, namesLookup, error) == IngestLines(start, file.name, file.lines[..i]);
      }
      if i < |file.lines| {
        IngestStops(start, file.name, file.lines, i);
      } else {
        assert file.lines[..i] == file.lines;
      }
    }

    /** One of the rewriting loops of parseFiles: every entry whose id in the role is k gets v instead. */
    method Replace(role: Role, k: Text, v: Text)
      modifies this`store
      ensures |store| == |old(store)|
      ensures forall i | 0 <= i < |store| :: store[i] == ReplacedIn(old(store)[i], role, k, v)
    {
      for i := 0 to |store|
        invariant |store| == |old(store)|
        invariant forall j | 0 <= j < i :: store[j] == ReplacedIn(old(store)[j], role, k, v)
        invariant forall j | i <= j < |store| :: store[j] == old(store)[j]
      {
        if IdIn(store[i], role) == Some(k) {
          store := store[i := WithId(store[i], role, Some(v))];
        }
      }
    }

    /**
     * parseFiles: every file is read in turn, then the declared names are replaced by node ids.
     * An exception while reading stops everything.
     */
    method ParseFiles(files: seq<LogFile>) returns (error: Option<PyError>)
      modifies this`store, this`namesLookup
      ensures var r := IngestFiles(Ingest(old(store), old(namesLookup), None), files);
        error == r.error && namesLookup == r.lookup && |store| == |r.store| &&
        (r.error.Some? ==> store == r.store) &&
        (forall i | 0 <= i < |store| :: SameBut(store[i], r.store[i])) &&
        (r.error.None? && NoChains(r.lookup) ==> forall i | 0 <= i < |store| :: store[i] == Renamed(r.store[i], r.lookup))
      ensures old(Valid()) ==> Valid()
    {
      error := ReadFiles(files);
      if error.None? {
        ReplaceNames();
      }
    }

    /** The first loop of parseFiles: parseFile on each file in turn, until one raises an exception. */
    method ReadFiles(files: seq<LogFile>) returns (error: Option<PyError>)
      modifies this`store, this`namesLookup
      ensures var r := IngestFiles(Ingest(old(store), old(namesLookup), None), files);
        store == r.store && namesLookup == r.lookup && error == r.error
      ensures old(Valid()) ==> Valid()
    {
      ghost var start := Ingest(store, namesLookup, None);
      error := None;
      var j := 0;
      while j < |files| && error.None?
        invariant 0 <= j <= |files|
        invariant var r := IngestFiles(start, files[..j]); store == r.store && namesLookup == r.lookup && error == r.error
        decreases |files| - j
      {
        IngestFilesStep(start, files, j);
        error := ParseFile(files[j]);
        j := j + 1;
      }
      if j < |files| {
        IngestFilesStops(start, files, j);
      } else {
        assert files[..j] == files;
      }
      if Indexed(start.store) {
        IndexedGrows(start.store, store);
      }
    }

    /**
     * The second loop of parseFiles: for each declared name, in the dictionary's order, the
     * destinations and then the sources equal to it are replaced by its node id.
     */
    method ReplaceNames()
      modifies this`store
      ensures RenamedSoFar(old(store), store, namesLookup, namesLookup.Keys)
    {
      ghost var orig := store;
      var todo := namesLookup.Keys;
      ghost var done: set<Text> := {};
      while todo != {}
        invariant todo <= namesLookup.Keys && done == namesLookup.Keys - todo
        invariant RenamedSoFar(orig, store, namesLookup, done)
        decreases |todo|
      {
        var k :| k in todo;
        ReplaceName(orig, done, k);
        done := done + {k};
        todo := todo - {k};
      }
      assert done == namesLookup.Keys;
    }

    /** One round of the renaming loop: the destinations, then the sources, equal to k get its node id. */
    method ReplaceName(ghost orig: seq<Entry>, ghost done: set<Text>, k: Text)
      requires k in namesLookup && k !in done && RenamedSoFar(orig, store, namesLookup, done)
      modifies this`store
      ensures RenamedSoFar(orig, store, namesLookup, done + {k})
    {
      var v := namesLookup[k];
      ghost var before := store;
      Replace(Destination, k, v);
      ghost var middle := store;
      Replace(Source, k, v);
      RenameRound(orig, before, middle, store, namesLookup, done, k);
    }

    /** The pairing loop shared by calculateBufferTime and getNeighbourInfo. */
    method PairEvents(kind: Pairing, name: Text, starts: seq<Entry>) returns (times: seq<int>)
      ensures times == Paired(store, kind, name, starts).0
    {
      times := [];
      var processed: seq<nat> := [];
      for i := 0 to |starts|
        invariant times == Paired(store, kind, name, starts[..i]).0 && processed == Paired(store, kind, name, starts[..i]).1
      {
        var e := starts[i];
        var p := Run(store, [EndsFor(kind, name, e)]);
        var aux := Unused(p, processed);
        if |aux| > 0 {
          times := times + [Elapsed(e, aux[0])];
          processed := processed + [aux[0].rabaId];
        }
        PairedSnoc(store, kind, name, starts, i);
      }
      assert starts[..|starts|] == starts;
    }

    /**
     * calculateBufferTime: for each creation or arrival of a bundle at the node, the time until the
     * first unused removal of that bundle there; no more times than starts, nor than removals.
     */
    method CalculateBufferTime(name: Text) returns (times: seq<int>)
      ensures times == Paired(store, BufferTime, name, Run(store, BufferStarts(name))).0
      ensures |times| <= |Run(store, BufferStarts(name))| && |times| <= |Run(store, [OfType(MESSAGE_REMOVED, name)])|
    {
      times := PairEvents(BufferTime, name, Run(store, BufferStarts(name)));
      PairedBound(store, BufferTime, name, Run(store, BufferStarts(name)));
    }

    /**
     * getNeighbourInfo: the number of contacts that began, and for each the time until the first
     * unused end of a contact with the same neighbour.
     */
    method GetNeighbourInfo(name: Text) returns (contacts: nat, times: seq<int>)
      ensures contacts == |Run(store, [OfType(NEIGH_APPEAR, name)])|
      ensures times == Paired(store, ContactTime, name, Run(store, [OfType(NEIGH_APPEAR, name)])).0
      ensures |times| <= contacts && |times| <= |Run(store, [OfType(NEIGH_DISAPPEAR, name)])|
    {
      var appear := Run(store, [OfType(NEIGH_APPEAR, name)]);
      contacts := |appear|;
      times := PairEvents(ContactTime, name, appear);
      PairedBound(store, ContactTime, name, appear);
    }

    /** getBytes: the sizes of the node's receipts added up, or the ValueError of a size that is not an integer. */
    method GetBytes(name: Text) returns (r: Result<int, PyError>)
      requires Valid()
      ensures (OfTypeMembers(store, MESSAGE_RECEIVED, name); r == SizesTotal(Run(store, [OfType(MESSAGE_RECEIVED, name)])))
    {
      OfTypeMembers(store, MESSAGE_RECEIVED, name);
      var receipts := Run(store, [OfType(MESSAGE_RECEIVED, name)]);
      var total := 0;
      for i := 0 to |receipts|
        invariant SizesTotal(receipts[..i]).Ok? && SizesTotal(receipts[..i]).value == total
      {
        SizesSnoc(receipts, i);
        match PyInt(receipts[i].sizeBundle.value) {
          case None =>
            SizesFail(receipts, i + 1);
            return Err(ValueError);
          case Some(size) =>
            total := total + size;
        }
      }
      assert receipts[..|receipts|] == receipts;
      r := Ok(total);
    }

    /**
     * calculateReceivedInfo: one copy count per bundle the node received (all its receipts of the
     * bundle), one time from creation per receipt; the counts add up to the receipts.
     */
    method CalculateReceivedInfo(name: Text) returns (copies: seq<nat>, times: seq<int>)
      requires Valid()
      ensures (OfTypeMembers(store, MESSAGE_RECEIVED, name);
        var receipts := Run(store, [OfType(MESSAGE_RECEIVED, name)]);
        copies == ReceivedSamples(store, name, receipts).0 && times == ReceivedSamples(store, name, receipts).1)
      ensures Sum(copies) == |Run(store, [OfType(MESSAGE_RECEIVED, name)])| == |times|
      ensures forall i | 0 <= i < |copies| :: copies[i] >= 1
    {
      OfTypeMembers(store, MESSAGE_RECEIVED, name);
      var receipts := Run(store, [OfType(MESSAGE_RECEIVED, name)]);
      copies, times := [], [];
      var alreadyProcessed: set<Option<Text>> := {};
      for i := 0 to |receipts|
        invariant var r := ReceivedSamples(store, name, receipts[..i]); copies == r.0 && times == r.1 && alreadyProcessed == r.2
      {
        ReceivedSnoc(store, name, receipts, i);
        var e := receipts[i];
        if e.bundleId !in alreadyProcessed {
          var f := Run(store, [ReceiptsOf(name, e.bundleId)]);
          copies := copies + [|f|];
          alreadyProcessed := alreadyProcessed + {e.bundleId};
        }
        times := times + [LifeTime(e)];
      }
      assert receipts[..|receipts|] == receipts;
      ReceivedCounts(store, name);
    }

    /**
     * getBytesDelivered: for each bundle the node relayed, the size of the first receipt of it at
     * the node of its first arrival relayed from this node, added up.
     */
    method GetBytesDelivered(name: Text) returns (r: Result<int, PyError>)
      requires Valid()
      ensures (OfTypeMembers(store, MESSAGE_RELAYED, name);
        r == DeliveredTotal(store, name, Run(store, [OfType(MESSAGE_RELAYED, name)])))
    {
      OfTypeMembers(store, MESSAGE_RELAYED, name);
      var relayed := Run(store, [OfType(MESSAGE_RELAYED, name)]);
      var total := 0;
      for i := 0 to |relayed|
        invariant DeliveredTotal(store, name, relayed[..i]).Ok? && DeliveredTotal(store, name, relayed[..i]).value == total
      {
        DeliveredSnoc(store, name, relayed, i);
        var e := relayed[i];
        var p := Run(store, [ArrivalsFrom(name, e.bundleId)]);
        if |p| > 0 {
          var p1 := Run(store, [ReceiptsOf(p[0].fileFrom, e.bundleId)]);
          if |p1| > 0 {
            assert p1[0] in p1;
            match PyInt(p1[0].sizeBundle.value) {
              case None =>
                DeliveredFails(store, name, relayed, i + 1);
                return Err(ValueError);
              case Some(size) =>
                total := total + size;
            }
          }
        }
      }
      assert relayed[..|relayed|] == relayed;
      r := Ok(total);
    }

    /**
     * generateJSON: each named node's record is worked out and appended, then the totals over all
     * the records are computed, with the network's overhead ratio guarded and stored.
     */
    method GenerateJson(names: seq<Text>) returns (r: Result<Aggregate, PyError>)
      requires Valid()
      modifies this`nodes
      ensures store == old(store) && namesLookup == old(namesLookup)
      ensures var (done, error) := Collected(Records(store, names));
        nodes == old(nodes) + done &&
        (error.Some? ==> r == Err(error.value)) &&
        (error.None? ==> r == Ok(Aggregated(nodes)))
    {
      var error := AppendNodes(names);
      if error.Some? {
        return Err(error.value);
      }
      r := Ok(Aggregated(nodes));
    }

    /** The loop of generateJSON: each named node's record is appended, until one raises an exception. */
    method AppendNodes(names: seq<Text>) returns (error: Option<PyError>)
      requires Valid()
      modifies this`nodes
      ensures var (done, e) := Collected(Records(store, names)); nodes == old(nodes) + done && error == e
    {
      var j := 0;
      error := None;
      ghost var results: seq<Result<NodeInfo, PyError>> := [];
      while j < |names| && error.None?
        invariant 0 <= j <= |names|
        invariant results == Records(store, names)[..j]
        invariant nodes == old(nodes) + Collected(results).0 && error == Collected(results).1
        decreases |names| - j
      {
        var info := NodeInfoOf(names[j]);
        RecordsStep(store, names, j, results, info);
        match info {
          case Err(e) =>
            error := Some(e);
          case Ok(node) =>
            Assoc(old(nodes), Collected(results).0, [node]);
            nodes := nodes + [node];
        }
        results := results + [info];
        j := j + 1;
      }
      RecordsEnd(store, names, j, results);
    }

    /** The body of generateJSON's loop for one node. */
    method NodeInfoOf(name: Text) returns (r: Result<NodeInfo, PyError>)
      requires Valid()
      ensures r == NodeOf(store, name)
    {
      var created := |Run(store, [OfType(MESSAGE_CREATED, name)])|;
      var relayedFrom := |Run(store, [OfType(MESSAGE_RELAYED_FROM, name)])|;
      var relayed := |Run(store, [OfType(MESSAGE_RELAYED, name)])|;
      var delivered := GetBytesDelivered(name);
      if delivered.Err? {
        return Err(delivered.error);
      }
      var dropped := |Run(store, [OfType(MESSAGE_DROPPED, name)])|;
      var received := GetBytes(name);
      if received.Err? {
        return Err(received.error);
      }
      var copies, lifeTimes := CalculateReceivedInfo(name);
      var bufferTimes := CalculateBufferTime(name);
      var overhead := OverheadRatio(received.value, delivered.value);
      var contacts, contactTimes := GetNeighbourInfo(name);
      r := Ok(NodeInfo(name, created, relayedFrom, relayed, delivered.value, dropped, received.value,
                       copies, lifeTimes, bufferTimes, overhead, contacts, contactTimes));
    }
  }

  lemma PairedSnoc(store: seq<Entry>, kind: Pairing, name: Text, starts: seq<Entry>, i: nat)
    requires i < |starts|
    ensures var before := Paired(store, kind, name, starts[..i]);
      var after := Paired(store, kind, name, starts[..i + 1]);
      var aux := Unused(Run(store, [EndsFor(kind, name, starts[i])]), before.1);
      (aux == [] ==> after.0 == before.0 && after.1 == before.1) &&
      (aux != [] ==> after.0 == before.0 + [Elapsed(starts[i], aux[0])] && after.1 == before.1 + [aux[0].rabaId])
  {
    var prefix := starts[..i + 1];
    assert prefix[..|prefix| - 1] == starts[..i];
    assert prefix[|prefix| - 1] == starts[i];
  }

  lemma SizesSnoc(receipts: seq<Entry>, i: nat)
    requires forall e | e in receipts :: e.sizeBundle.Some?
    requires i < |receipts| && SizesTotal(receipts[..i]).Ok?
    ensures PyInt(receipts[i].sizeBundle.value).None? ==> SizesTotal(receipts[..i + 1]) == Err(ValueError)
    ensures PyInt(receipts[i].sizeBundle.value).Some? ==>
      SizesTotal(receipts[..i + 1]).Ok? &&
      SizesTotal(receipts[..i + 1]).value == SizesTotal(receipts[..i]).value + PyInt(receipts[i].sizeBundle.value).value
  {
    assert receipts[..i + 1][..i] == receipts[..i];
    assert receipts[..i + 1][i] == receipts[i];
  }

  lemma DeliveredSnoc(store: seq<Entry>, name: Text, relayed: seq<Entry>, i: nat)
    requires forall x | x in store && x.typeId == MESSAGE_RECEIVED :: x.sizeBundle.Some?
    requires forall x | x in relayed :: x.bundleId.Some?
    requires i < |relayed| && DeliveredTotal(store, name, relayed[..i]).Ok?
    ensures var size := DeliveredSize(store, name, relayed[i]);
      size.None? ==> DeliveredTotal(store, name, relayed[..i + 1]) == DeliveredTotal(store, name, relayed[..i])
    ensures var size := DeliveredSize(store, name, relayed[i]);
      size.Some? && PyInt(size.value).None? ==> DeliveredTotal(store, name, relayed[..i + 1]) == Err(ValueError)
    ensures var size := DeliveredSize(store, name, relayed[i]);
      size.Some? && PyInt(size.value).Some? ==>
        DeliveredTotal(store, name, relayed[..i + 1]).Ok? &&
        DeliveredTotal(store, name, relayed[..i + 1]).value == DeliveredTotal(store, name, relayed[..i]).value + PyInt(size.value).value
  {
    var prefix := relayed[..i + 1];
    assert prefix[..|prefix| - 1] == relayed[..i];
    assert prefix[|prefix| - 1] == relayed[i];
    assert forall x | x in prefix :: x in relayed;
    var size := DeliveredSize(store, name, relayed[i]);
    if size.Some? && PyInt(size.value).Some? {
      var n := PyInt(size.value).value;
      var total := DeliveredTotal(store, name, relayed[..i]).value;
      assert DeliveredTotal(store, name, prefix).Ok?;
      assert DeliveredTotal(store, name, prefix).value == total + n;
    }
  }

  lemma ReceivedSnoc(store: seq<Entry>, name: Text, receipts: seq<Entry>, i: nat)
    requires Timed(receipts) && i < |receipts|
    ensures Timed(receipts[..i]) && Timed(receipts[..i + 1])
    ensures var before := ReceivedSamples(store, name, receipts[..i]);
      var after := ReceivedSamples(store, name, receipts[..i + 1]);
      var e := receipts[i];
      after.1 == before.1 + [LifeTime(e)] &&
      (e.bundleId in before.2 ==> after.0 == before.0 && after.2 == before.2) &&
      (e.bundleId !in before.2 ==> after.0 == before.0 + [|Run(store, [ReceiptsOf(name, e.bundleId)])|] && after.2 == before.2 + {e.bundleId})
  {
    var prefix := receipts[..i + 1];
    assert forall x | x in prefix :: x in receipts;
    assert forall x | x in receipts[..i] :: x in receipts;
    assert prefix[..|prefix| - 1] == receipts[..i];
    assert prefix[|prefix| - 1] == receipts[i];
  }

  /** A size that is not an integer makes the whole sum fail. */
  lemma {:induction false} SizesFail(receipts: seq<Entry>, i: nat)
    requires forall e | e in receipts :: e.sizeBundle.Some?
    requires 0 < i <= |receipts| && PyInt(receipts[i - 1].sizeBundle.value).None?
    ensures SizesTotal(receipts) == Err(ValueError)
    decreases |receipts|
  {
    if i < |receipts| {
      var front := receipts[..|receipts| - 1];
      assert front[i - 1] == receipts[i - 1];
      SizesFail(front, i);
    }
  }

  lemma {:induction false} DeliveredFails(store: seq<Entry>, name: Text, relayed: seq<Entry>, i: nat)
    requires forall x | x in store && x.typeId == MESSAGE_RECEIVED :: x.sizeBundle.Some?
    requires forall x | x in relayed :: x.bundleId.Some?
    requires 0 < i <= |relayed|
    requires var size := DeliveredSize(store, name, relayed[i - 1]); size.Some? && PyInt(size.value).None?
    ensures DeliveredTotal(store, name, relayed) == Err(ValueError)
    decreases |relayed|
  {
    if i < |relayed| {
      var front := relayed[..|relayed| - 1];
      assert front[i - 1] == relayed[i - 1];
      DeliveredFails(store, name, front, i);
    }
  }
}
