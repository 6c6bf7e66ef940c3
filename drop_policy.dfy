/**
 * The control-driven drop policy: a comparator for the bundle queue that scores each bundle by
 * whether this node is its source and which control metadata it carries, and drops the lower
 * score first, the older bundle first between equal scores.
 */
module DropPolicy {
  import opened Wire
  import opened BundleInfo
  import MetadataBlock
  import BundleQueue

  const I_AM_SRC_NODE_SCORE: uint8 := 100
  const CTRL_DIRECTIVE_MEB_SCORE: uint8 := 50
  const CTRL_METRIC_MEB_SCORE: uint8 := 30
  const DATA_PAYLOAD_SCORE: uint8 := 10

  /** The node-state entries read by the constructor, in the order of the flag array. */
  const ENTRIES: seq<string> := ["myCtrlDirective", "myCtrlMetric", "forwardedCtrlDirective",
    "forwardedMetricDirective"]

  /** Positions in the flag array. */
  const MY_CTRL_DIRECTIVE: nat := 0
  const MY_CTRL_METRIC: nat := 1
  const FORWARDED_CTRL_DIRECTIVE: nat := 2
  const FORWARDED_CTRL_METRIC: nat := 3

  /** The policy: the current node's id and the four 0/1 prioritisation flags. */
  datatype Policy = Policy(currentNodeId: seq<byte>, flags: seq<uint8>)

  predicate ValidPolicy(p: Policy)
  {
    |p.flags| == 4 && forall i | 0 <= i < 4 :: p.flags[i] <= 1
  }

  function Flag(on: bool): (r: uint8)
    ensures r <= 1 && (r == 1 <==> on)
  {
    if on then 1 else 0
  }

  /**
   * The constructor: one flag per node-state entry, 1 when the entry is true. The node state is a
   * JSON document; here it is the function from entry name to the boolean it holds.
   */
  method NewPolicy(currentNodeId: seq<byte>, nodeState: string -> bool) returns (p: Policy)
    ensures p.currentNodeId == currentNodeId && ValidPolicy(p)
    ensures forall i | 0 <= i < 4 :: p.flags[i] == Flag(nodeState(ENTRIES[i]))
  {
    var config := new uint8[4];
    var i: nat := 0;
    for k := 0 to |ENTRIES|
      invariant i == k
      invariant forall j | 0 <= j < k :: config[j] == Flag(nodeState(ENTRIES[j]))
    {
      config[i] := if nodeState(ENTRIES[k]) then 1 else 0;
      i := i + 1;
    }
    p := Policy(currentNodeId, config[..]);
  }

  /**
   * calculatePriorityScore, each addition taken in uint8: 100 when this node is the source; a
   * control directive adds 50 times its flag and a control metric 30 times its flag, the own or
   * the forwarded flag depending on the source; a bundle with neither adds 10.
   */
  function Score(p: Policy, b: Info): (r: uint8)
    requires |p.flags| == 4
    ensures !HasMetadataTypeBlock(b, MetadataBlock.CONTROL_DIRECTIVE_MEB) && !HasMetadataTypeBlock(b, MetadataBlock.CONTROL_METRICS_MEB) ==>
      r == if b.source == p.currentNodeId then 110 else 10
  {
    var mine := b.source == p.currentNodeId;
    var s0: uint8 := if mine then I_AM_SRC_NODE_SCORE else 0;
    var directive := HasMetadataTypeBlock(b, MetadataBlock.CONTROL_DIRECTIVE_MEB);
    var metric := HasMetadataTypeBlock(b, MetadataBlock.CONTROL_METRICS_MEB);
    var s1 := if directive then
      U8(s0 + CTRL_DIRECTIVE_MEB_SCORE
             * p.flags[if mine then MY_CTRL_DIRECTIVE else FORWARDED_CTRL_DIRECTIVE])
      else s0;
    var s2 := if metric then
      U8(s1 + CTRL_METRIC_MEB_SCORE * p.flags[if mine then MY_CTRL_METRIC else FORWARDED_CTRL_METRIC])
      else s1;
    if !directive && !metric then U8(s2 + DATA_PAYLOAD_SCORE) else s2
  }

  function Bit(b: bool): nat
  {
    if b then 1 else 0
  }

  /**
   * The score as a formula: 100 for an own bundle, plus 50 or 30 for each kind of control metadata
   * whose flag is set, plus 10 for a bundle with no control metadata; it never wraps and is at
   * most 180.
   */
  lemma ScoreFormula(p: Policy, b: Info)
    requires ValidPolicy(p)
    ensures
      var mine := b.source == p.currentNodeId;
      var directive := MetadataBlock.CONTROL_DIRECTIVE_MEB in b.metadataTypes;
      var metric := MetadataBlock.CONTROL_METRICS_MEB in b.metadataTypes;
      var fd := p.flags[if mine then 0 else 2] as int;
      var fm := p.flags[if mine then 1 else 3] as int;
      Score(p, b) as int == 100 * Bit(mine) + 50 * fd * Bit(directive) + 30 * fm * Bit(metric)
        + 10 * Bit(!directive && !metric)
    ensures Score(p, b) <= 180
  {
    assert p.flags[0] <= 1 && p.flags[1] <= 1 && p.flags[2] <= 1 && p.flags[3] <= 1;
  }

  /**
   * operator() as written: with equal scores, bundle 1's score is moved by -1 (older) or +1 in
   * uint8 before the comparison, so at score 0 the older bundle wraps to 255.
   */
  function LessAsWritten(p: Policy, b1: Info, b2: Info): bool
    requires |p.flags| == 4
  {
    var s1 := Score(p, b1);
    var s2 := Score(p, b2);
    var t1 := if s1 == s2 then U8(s1 + (if b1.creationTimestamp < b2.creationTimestamp then -1 else 1))
      else s1;
    t1 < s2
  }

  /** The comparator as intended: the lower score first, the older bundle first on equal scores. */
  function Less(p: Policy, b1: Info, b2: Info): (r: bool)
    requires |p.flags| == 4
    ensures b1 == b2 ==> !r
    ensures r ==> Score(p, b1) <= Score(p, b2)
    ensures Score(p, b1) < Score(p, b2) ==> r
  {
    var s1 := Score(p, b1);
    var s2 := Score(p, b2);
    s1 < s2 || (s1 == s2 && b1.creationTimestamp < b2.creationTimestamp)
  }

  /** Away from score 0 the comparator as written is the intended one. */
  lemma AsWrittenAgrees(p: Policy, b1: Info, b2: Info)
    requires ValidPolicy(p) && (Score(p, b1) != Score(p, b2) || Score(p, b1) > 0)
    ensures LessAsWritten(p, b1, b2) == Less(p, b1, b2)
  {
    ScoreFormula(p, b1);
  }

  /** As written, a bundle is never below itself, at any score. */
  lemma AsWrittenIrreflexive(p: Policy, b: Info)
    requires ValidPolicy(p)
    ensures !LessAsWritten(p, b, b)
  {
    ScoreFormula(p, b);
  }

  /**
   * At score 0 the tie-break is lost: a forwarded bundle that carries a control directive, with
   * forwarded directives not prioritised, scores 0, and as written neither of two such bundles is
   * dropped before the other, although one is older.
   */
  lemma AsWrittenLosesTie(p: Policy, b1: Info, b2: Info)
    requires ValidPolicy(p) && p.flags[FORWARDED_CTRL_DIRECTIVE] == 0
    requires b1.source != p.currentNodeId && b2.source != p.currentNodeId
    requires b1.metadataTypes == {MetadataBlock.CONTROL_DIRECTIVE_MEB} && b2.metadataTypes == b1.metadataTypes
    requires b1.creationTimestamp < b2.creationTimestamp
    ensures Score(p, b1) == 0 && Score(p, b2) == 0
    ensures !LessAsWritten(p, b1, b2) && !LessAsWritten(p, b2, b1)
    ensures Less(p, b1, b2)
  {
    ScoreFormula(p, b1);
    ScoreFormula(p, b2);
  }

  /** The policy as a comparator for the bundle queue. */
  function Comparator(p: Policy): (r: BundleQueue.Comparator)
    requires |p.flags| == 4
    ensures forall b1, b2 :: r(b1, b2) == Less(p, b1, b2)
  {
    (b1: Info, b2: Info) => Less(p, b1, b2)
  }

  /**
   * The intended comparator is a strict weak ordering, as std::sort needs: irreflexive, transitive,
   * and bundles that neither precedes are those of equal score and timestamp.
   */
  lemma LessIsStrictWeakOrder(p: Policy)
    requires ValidPolicy(p)
    ensures BundleQueue.StrictWeakOrder(Comparator(p))
    ensures forall b1, b2 :: !Less(p, b1, b2) && !Less(p, b2, b1) <==>
      Score(p, b1) == Score(p, b2) && b1.creationTimestamp == b2.creationTimestamp
  {
  }

  /**
   * With this policy, making room in the queue evicts by score: no bundle that stays scores lower
   * than one evicted.
   */
  lemma EvictsLowestScoreFirst(p: Policy, q: BundleQueue.QueueState, b: Info, drop: bool)
    requires ValidPolicy(p) && BundleQueue.Valid(q) && BundleQueue.Decide(q, b, drop) == BundleQueue.MakeRoom
    ensures
      var bs := q.bundles;
      var order := BundleQueue.Order(bs, Comparator(p));
      var k := BundleQueue.Evict(bs, order, q.byteSize, b.size, q.maxByteSize).0;
      forall i, j | i in BundleQueue.Prefix(order, k) && 0 <= j < |bs| && j !in BundleQueue.Prefix(order, k) ::
        Score(p, bs[i]) <= Score(p, bs[j])
  {
    LessIsStrictWeakOrder(p);
    BundleQueue.EvictionFollowsComparator(q, b, drop, Comparator(p));
  }
}
