/**
 Which tip buys which position in a block ordered by tip, highest first.

 Positions are measured in two currencies, transactions and gas. Every answer is characterised
 without reference to the order the sort left among equal tips.
 */
module BlockPosition {
  import opened Wrappers
  import opened Arithmetic
  import opened Samples
  import opened Sequences
  import opened Text
  import opened Quantile

  datatype TxIdentifier = ByHash(hash: string) | BySender(address: string, nonce: int)

  datatype BlockPositionQuery =
    | Rank(rank: int)
    | Percentile(percentile: int)
    | GasFromTop(gas: int)
    | AheadOf(tx: TxIdentifier)
    | Behind(tx: TxIdentifier)

  datatype BlockPositionResult = BlockPositionResult(
    requiredTip: nat,
    pivot: Option<TipSample>,
    rank: int,
    gasFromTop: int)

  predicate MatchesIdentifier(s: TipSample, id: TxIdentifier) {
    match id
    case ByHash(h) => s.hash.Some? && Lower(s.hash.value) == Lower(h)
    case BySender(address, nonce) =>
      && s.address.Some? && s.nonce.Some?
      && Lower(s.address.value) == Lower(address)
      && s.nonce.value == Decimal(nonce)
  }

  // ----- order-free measures -----

  function OneIfAtLeast(t: nat): TipSample -> int {
    (x: TipSample) => if x.tip >= t then 1 else 0
  }

  function GasIfAtLeast(t: nat): TipSample -> int {
    (x: TipSample) => if x.tip >= t then x.gas else 0
  }

  /** How many samples a tip of `t` fails to outbid. */
  ghost function CountAtLeast(s: seq<TipSample>, t: nat): int {
    Sum(s, OneIfAtLeast(t))
  }

  /** How much gas those samples take. */
  ghost function GasAtLeast(s: seq<TipSample>, t: nat): int {
    Sum(s, GasIfAtLeast(t))
  }

  lemma {:induction false} AtLeastRange(s: seq<TipSample>, t: nat)
    ensures 0 <= CountAtLeast(s, t) <= |s|
    ensures 0 <= GasAtLeast(s, t) <= TotalGas(s)
  {
    if s == [] {
    } else {
      AtLeastRange(s[1..], t);
    }
  }

  lemma {:induction false} AllAtLeast(s: seq<TipSample>, t: nat)
    requires forall i | 0 <= i < |s| :: s[i].tip >= t
    ensures CountAtLeast(s, t) == |s| && GasAtLeast(s, t) == TotalGas(s)
  {
    if s == [] {
    } else {
      AllAtLeast(s[1..], t);
    }
  }

  lemma {:induction false} NoneAtLeast(s: seq<TipSample>, t: nat)
    requires forall i | 0 <= i < |s| :: s[i].tip < t
    ensures CountAtLeast(s, t) == 0 && GasAtLeast(s, t) == 0
  {
    if s == [] {
    } else {
      NoneAtLeast(s[1..], t);
    }
  }

  lemma AtLeastSplit(s: seq<TipSample>, i: nat, t: nat)
    requires i <= |s|
    ensures CountAtLeast(s, t) == CountAtLeast(s[..i], t) + CountAtLeast(s[i..], t)
    ensures GasAtLeast(s, t) == GasAtLeast(s[..i], t) + GasAtLeast(s[i..], t)
  {
    assert s == s[..i] + s[i..];
    SumConcat(s[..i], s[i..], OneIfAtLeast(t));
    SumConcat(s[..i], s[i..], GasIfAtLeast(t));
  }

  lemma AtLeastOrderFree(a: seq<TipSample>, b: seq<TipSample>, t: nat)
    requires multiset(a) == multiset(b)
    ensures CountAtLeast(a, t) == CountAtLeast(b, t) && GasAtLeast(a, t) == GasAtLeast(b, t)
  {
    SumPermutation(a, b, OneIfAtLeast(t));
    SumPermutation(a, b, GasIfAtLeast(t));
  }

  /** In tip-descending order the samples at or above `t` sit in front of any index with a lower tip. */
  lemma FrontHoldsHigher(sorted: seq<TipSample>, k: nat, t: nat)
    requires Ordered(sorted, TipDescending) && k < |sorted|
    ensures t > sorted[k].tip ==> CountAtLeast(sorted, t) <= k && GasAtLeast(sorted, t) <= TotalGas(sorted[..k])
    ensures t <= sorted[k].tip ==>
              CountAtLeast(sorted, t) > k && GasAtLeast(sorted, t) >= TotalGas(sorted[..k + 1])
  {
    if t > sorted[k].tip {
      AtLeastSplit(sorted, k, t);
      AtLeastRange(sorted[..k], t);
      forall i | 0 <= i < |sorted[k..]|
        ensures sorted[k..][i].tip < t
      {
        assert i == 0 || TipDescending(sorted[k], sorted[k + i]);
      }
      NoneAtLeast(sorted[k..], t);
    } else {
      AtLeastSplit(sorted, k + 1, t);
      var front := sorted[..k + 1];
      forall i | 0 <= i < |front|
        ensures front[i].tip >= t
      {
        assert i == k || TipDescending(sorted[i], sorted[k]);
      }
      AllAtLeast(front, t);
      AtLeastRange(sorted[k + 1..], t);
    }
  }

  // ----- the computation over one sorted list -----

  /** Index whose cumulative gas first passes `target`, or -1. */
  ghost predicate IsGasIndex(sorted: seq<TipSample>, target: int, i: int) {
    if target <= 0 then i == 0
    else if TotalGas(sorted) <= target then i == -1
    else 0 <= i < |sorted| && TotalGas(sorted[..i]) <= target < TotalGas(sorted[..i + 1])
  }

  method IndexAtGasOffset(sorted: seq<TipSample>, targetGas: int) returns (index: int)
    ensures IsGasIndex(sorted, targetGas, index)
  {
    if targetGas <= 0 {
      return 0;
    }
    var cumulative := 0;
    for i := 0 to |sorted|
      invariant cumulative == TotalGas(sorted[..i]) <= targetGas
    {
      SumSnoc(sorted, i, Gas());
      cumulative := cumulative + sorted[i].gas;
      if cumulative > targetGas {
        assert sorted == sorted[..i + 1] + sorted[i + 1..];
        SumConcat(sorted[..i + 1], sorted[i + 1..], Gas());
        GasNonNegative(sorted[i + 1..]);
        return i;
      }
    }
    assert sorted[..|sorted|] == sorted;
    return -1;
  }

  function Clamp(i: int, n: nat): (k: nat)
    ensures k <= n
  {
    if i < 0 then 0 else if i < n then i else n
  }

  method SumGasUpTo(sorted: seq<TipSample>, indexExclusive: int) returns (g: int)
    ensures g == TotalGas(sorted[..Clamp(indexExclusive, |sorted|)])
  {
    g := 0;
    var upper := if indexExclusive < |sorted| then indexExclusive else |sorted|;
    var i := 0;
    while i < upper
      invariant 0 <= i <= Clamp(indexExclusive, |sorted|)
      invariant g == TotalGas(sorted[..i])
    {
      SumSnoc(sorted, i, Gas());
      g := g + sorted[i].gas;
      i := i + 1;
    }
  }

  function FirstMatch(sorted: seq<TipSample>, id: TxIdentifier): (i: int)
    ensures -1 <= i < |sorted|
    ensures i >= 0 ==> MatchesIdentifier(sorted[i], id)
    ensures forall j | 0 <= j < (if i < 0 then |sorted| else i) :: !MatchesIdentifier(sorted[j], id)
  {
    if sorted == [] then -1
    else if MatchesIdentifier(sorted[0], id) then 0
    else
      var i := FirstMatch(sorted[1..], id);
      assert forall j | 0 < j < |sorted| :: sorted[j] == sorted[1..][j - 1];
      if i < 0 then -1 else i + 1
  }

  function PercentileIndex(len: nat, percentile: int): int
    requires len > 0
  {
    var pct := if percentile < 0 then 0 else if percentile > 100 then 100 else percentile;
    var i := len * pct / 100;
    if i >= len then len - 1 else i
  }

  ghost predicate IsPivotIndex(sorted: seq<TipSample>, query: BlockPositionQuery, i: int)
    requires sorted != []
  {
    match query
    case Rank(rank) => i == rank
    case Percentile(percentile) => i == PercentileIndex(|sorted|, percentile)
    case GasFromTop(gas) => IsGasIndex(sorted, gas, i)
    case AheadOf(tx) => i == FirstMatch(sorted, tx)
    case Behind(tx) => i == FirstMatch(sorted, tx)
  }

  /** The answer read off one tip-descending arrangement of the samples. */
  ghost predicate IsPosition(
      sorted: seq<TipSample>, query: BlockPositionQuery, r: BlockPositionResult)
  {
    if sorted == [] then r == BlockPositionResult(0, None, 0, 0)
    else
      exists i :: IsPivotIndex(sorted, query, i) && IsPositionAt(sorted, query, i, r)
  }

  ghost predicate IsPositionAt(
      sorted: seq<TipSample>, query: BlockPositionQuery, i: int, r: BlockPositionResult)
  {
    if i < 0 || i >= |sorted| then r == BlockPositionResult(0, None, |sorted|, TotalGas(sorted))
    else
      var tip := sorted[i].tip;
      r == BlockPositionResult(
        if !query.Behind? then tip + 1 else if tip > 0 then tip - 1 else 0,
        Some(sorted[i]), i, TotalGas(sorted[..i]))
  }

  /** `r` answers the query for some way of breaking ties. */
  ghost predicate Answers(samples: seq<TipSample>, query: BlockPositionQuery, r: BlockPositionResult) {
    exists sorted :: OrderedPermutation(samples, sorted, TipDescending) && IsPosition(sorted, query, r)
  }

  method TipForBlockPosition(samples: seq<TipSample>, query: BlockPositionQuery)
    returns (r: BlockPositionResult)
    ensures Answers(samples, query, r)
  {
    if |samples| == 0 {
      r := BlockPositionResult(0, None, 0, 0);
      assert OrderedPermutation(samples, samples, TipDescending) && IsPosition(samples, query, r);
      return;
    }
    var desc := Sort(samples, TipDescending);
    assert |multiset(desc)| == |desc| && |multiset(samples)| == |samples|;
    var len := |desc|;
    var pivotIndex: int;
    var beatPivot := true;
    match query {
      case Rank(rank) =>
        pivotIndex := rank;
      case Percentile(percentile) =>
        var pct := if percentile < 0 then 0 else if percentile > 100 then 100 else percentile;
        pivotIndex := (len * pct) / 100;
        if pivotIndex >= len {
          pivotIndex := len - 1;
        }
      case GasFromTop(gas) =>
        pivotIndex := IndexAtGasOffset(desc, gas);
      case AheadOf(tx) =>
        pivotIndex := FirstMatch(desc, tx);
      case Behind(tx) =>
        pivotIndex := FirstMatch(desc, tx);
        beatPivot := false;
    }
    assert IsPivotIndex(desc, query, pivotIndex);
    if pivotIndex < 0 || pivotIndex >= len {
      var total := SumGasUpTo(desc, len);
      assert desc[..len] == desc;
      r := BlockPositionResult(0, None, len, total);
    } else {
      var pivot := desc[pivotIndex];
      var requiredTip := if beatPivot then pivot.tip + 1 else if pivot.tip > 0 then pivot.tip - 1 else 0;
      var gas := SumGasUpTo(desc, pivotIndex);
      r := BlockPositionResult(requiredTip, Some(pivot), pivotIndex, gas);
    }
    assert IsPositionAt(desc, query, pivotIndex, r);
    assert IsPosition(desc, query, r);
  }

  // ----- what the answers mean -----

  /**
   Rank, exactly: a tip is high enough for rank `k` (at most `k` samples are not outbid) if and
   only if it is at least the required tip. True for every rank, in range or not, and any ties.
   */
  lemma RankExact(samples: seq<TipSample>, k: nat, r: BlockPositionResult, t: nat)
    requires Answers(samples, Rank(k), r)
    ensures CountAtLeast(samples, t) <= k <==> t >= r.requiredTip
  {
    var sorted: seq<TipSample> :| OrderedPermutation(samples, sorted, TipDescending) && IsPosition(sorted, Rank(k), r);
    AtLeastOrderFree(samples, sorted, t);
    if k < |sorted| {
      FrontHoldsHigher(sorted, k, t);
    } else {
      AtLeastRange(sorted, t);
    }
  }

  /**
   Gas, exactly: for a positive query, the samples not outbid by `t` fit in `g` gas if and only
   if `t` is at least the required tip; and with a pivot the query falls inside the pivot's gas.
   */
  lemma GasExact(samples: seq<TipSample>, g: int, r: BlockPositionResult, t: nat)
    requires g > 0 && Answers(samples, GasFromTop(g), r)
    ensures GasAtLeast(samples, t) <= g <==> t >= r.requiredTip
    ensures match r.pivot
            case Some(p) => r.gasFromTop <= g < r.gasFromTop + p.gas
            case None => TotalGas(samples) <= g
  {
    var sorted: seq<TipSample> :| OrderedPermutation(samples, sorted, TipDescending) && IsPosition(sorted, GasFromTop(g), r);
    AtLeastOrderFree(samples, sorted, t);
    SumPermutation(samples, sorted, Gas());
    AtLeastRange(sorted, t);
    if sorted != [] {
      var i :| IsPivotIndex(sorted, GasFromTop(g), i) && IsPositionAt(sorted, GasFromTop(g), i, r);
      if 0 <= i < |sorted| {
        FrontHoldsHigher(sorted, i, t);
        SumSnoc(sorted, i, Gas());
      }
    }
  }

  /** A percentile is the rank that many hundredths down the list, and never past the bottom sample. */
  lemma PercentileIsRank(samples: seq<TipSample>, percentile: int, r: BlockPositionResult)
    requires samples != [] && Answers(samples, Percentile(percentile), r)
    ensures 0 <= r.rank < |samples| && Answers(samples, Rank(r.rank), r)
    ensures 0 <= percentile <= 100 ==> 100 * r.rank <= |samples| * percentile
    ensures 0 <= percentile < 100 ==> |samples| * percentile < 100 * (r.rank + 1)
    ensures percentile >= 100 ==> r.rank == |samples| - 1
  {
    var sorted: seq<TipSample> :| OrderedPermutation(samples, sorted, TipDescending) && IsPosition(sorted, Percentile(percentile), r);
    assert |multiset(sorted)| == |sorted| && |multiset(samples)| == |samples|;
    var pct := if percentile < 0 then 0 else if percentile > 100 then 100 else percentile;
    var len := |sorted|;
    DivBounds(len * pct, 100);
    DivLeast(len * pct, 100, 0) by { MulMonotone(0, pct, len); }
    MulMonotone(pct, 100, len);
    if pct < 100 {
      MulMonotone(pct, 99, len);
    }
    var i :| IsPivotIndex(sorted, Percentile(percentile), i)
          && IsPositionAt(sorted, Percentile(percentile), i, r);
    assert IsPivotIndex(sorted, Rank(i), i) && IsPositionAt(sorted, Rank(i), i, r);
    assert IsPosition(sorted, Rank(r.rank), r);
  }

  /** The first match in tip order is the dearest sample that goes by the identifier, if any does. */
  lemma FirstMatchIsDearest(samples: seq<TipSample>, sorted: seq<TipSample>, id: TxIdentifier)
    requires OrderedPermutation(samples, sorted, TipDescending)
    ensures var i := FirstMatch(sorted, id);
            && (i >= 0 ==> sorted[i] in samples && MatchesIdentifier(sorted[i], id))
            && (forall x | x in samples && MatchesIdentifier(x, id) :: i >= 0 && x.tip <= sorted[i].tip)
  {
    SameElements(samples, sorted);
    var i := FirstMatch(sorted, id);
    forall x | x in samples && MatchesIdentifier(x, id)
      ensures i >= 0 && x.tip <= sorted[i].tip
    {
      var j :| 0 <= j < |sorted| && sorted[j] == x;
      assert i >= 0 && i <= j;
      assert i == j || TipDescending(sorted[i], sorted[j]);
    }
  }

  /** Ahead of a transaction: the answer outbids every sample that goes by the identifier. */
  lemma AheadOutbids(samples: seq<TipSample>, id: TxIdentifier, r: BlockPositionResult)
    requires Answers(samples, AheadOf(id), r)
    ensures forall x | x in samples && MatchesIdentifier(x, id) :: x.tip < r.requiredTip
    ensures r.pivot == None <==> forall x | x in samples :: !MatchesIdentifier(x, id)
  {
    var sorted: seq<TipSample> :| OrderedPermutation(samples, sorted, TipDescending) && IsPosition(sorted, AheadOf(id), r);
    FirstMatchIsDearest(samples, sorted, id);
  }

  /** Behind a transaction: one wei below its dearest sample, unless that pays nothing already. */
  lemma BehindUndercuts(samples: seq<TipSample>, id: TxIdentifier, r: BlockPositionResult)
    requires Answers(samples, Behind(id), r)
    ensures r.pivot == None <==> forall x | x in samples :: !MatchesIdentifier(x, id)
    ensures r.pivot.Some? ==>
              && MatchesIdentifier(r.pivot.value, id) && r.pivot.value in samples
              && (forall x | x in samples && MatchesIdentifier(x, id) :: x.tip <= r.pivot.value.tip)
              && r.requiredTip == if r.pivot.value.tip == 0 then 0 else r.pivot.value.tip - 1
  {
    var sorted: seq<TipSample> :| OrderedPermutation(samples, sorted, TipDescending) && IsPosition(sorted, Behind(id), r);
    FirstMatchIsDearest(samples, sorted, id);
  }

  // ----- the answer, field by field -----

  lemma IdentifierSpelled(s: TipSample, id: TxIdentifier)
    ensures MatchesIdentifier(s, id) <==>
            match id
            case ByHash(h) => s.hash.Some? && SameIgnoringCase(s.hash.value, h)
            case BySender(address, nonce) =>
              && s.address.Some? && SameIgnoringCase(s.address.value, address)
              && s.nonce == Some(Decimal(nonce))
  {
    match id
    case ByHash(h) =>
      if s.hash.Some? {
        LowerFoldsCase(s.hash.value, h);
      }
    case BySender(address, nonce) =>
      if s.address.Some? {
        LowerFoldsCase(s.address.value, address);
      }
  }

  /** The samples ahead of the pivot: `rank` others, none cheaper, with `gasFromTop` gas between them. */
  ghost predicate IsAhead(samples: seq<TipSample>, ahead: seq<TipSample>, p: TipSample, r: BlockPositionResult) {
    && |ahead| == r.rank && TotalGas(ahead) == r.gasFromTop
    && multiset(ahead) + multiset{p} <= multiset(samples)
    && (forall x | x in ahead :: x.tip >= p.tip)
    && (forall x | x in samples && x.tip > p.tip :: multiset(ahead)[x] == multiset(samples)[x])
  }

  /**
   Every field, for every query: no samples give zeros, no pivot gives the whole block, and a pivot is
   outbid or undercut by one wei and stands behind the samples it reports.
   */
  lemma PositionSpelled(samples: seq<TipSample>, query: BlockPositionQuery, r: BlockPositionResult)
    returns (ahead: seq<TipSample>)
    requires Answers(samples, query, r)
    ensures samples == [] ==> r == BlockPositionResult(0, None, 0, 0)
    ensures samples != [] ==>
              match r.pivot
              case None => r == BlockPositionResult(0, None, |samples|, TotalGas(samples))
              case Some(p) =>
                && IsAhead(samples, ahead, p, r)
                && r.requiredTip == if !query.Behind? then p.tip + 1 else if p.tip == 0 then 0 else p.tip - 1
  {
    hide IsAhead, Ordered, IsGasIndex, FirstMatch, PercentileIndex, TotalGas;
    var sorted: seq<TipSample> :| OrderedPermutation(samples, sorted, TipDescending) && IsPosition(sorted, query, r);
    assert |multiset(sorted)| == |sorted| && |multiset(samples)| == |samples|;
    GasOrderFree(samples, sorted);
    ahead := [];
    if samples != [] {
      var i :| IsPivotIndex(sorted, query, i) && IsPositionAt(sorted, query, i, r);
      if 0 <= i < |sorted| {
        ahead := sorted[..i];
        FrontIsAhead(samples, sorted, i, r);
      }
    }
  }

  lemma GasOrderFree(a: seq<TipSample>, b: seq<TipSample>)
    requires multiset(a) == multiset(b)
    ensures TotalGas(a) == TotalGas(b)
  {
    SumPermutation(a, b, Gas());
  }

  /** Ranks outside the block have no pivot; a budget or a percentage of nothing asks for the top. */
  lemma PivotSpelled(samples: seq<TipSample>, query: BlockPositionQuery, r: BlockPositionResult)
    requires samples != [] && Answers(samples, query, r)
    ensures query.Rank? ==>
              (r.pivot.Some? <==> 0 <= query.rank < |samples|) && (r.pivot.Some? ==> r.rank == query.rank)
    ensures (query.GasFromTop? && query.gas <= 0) || (query.Percentile? && query.percentile <= 0) ==>
              r.pivot.Some? && r.rank == 0
  {
    hide Ordered, FirstMatch, TotalGas;
    var sorted: seq<TipSample> :| OrderedPermutation(samples, sorted, TipDescending) && IsPosition(sorted, query, r);
    assert |multiset(sorted)| == |sorted| && |multiset(samples)| == |samples|;
  }

  lemma FrontIsAhead(samples: seq<TipSample>, sorted: seq<TipSample>, i: nat, r: BlockPositionResult)
    requires OrderedPermutation(samples, sorted, TipDescending) && i < |sorted|
    requires r.rank == i && r.gasFromTop == TotalGas(sorted[..i])
    ensures IsAhead(samples, sorted[..i], sorted[i], r)
  {
    var ahead, p, rest := sorted[..i], sorted[i], sorted[i + 1..];
    assert sorted == ahead + [p] + rest;
    forall x | x in ahead
      ensures x.tip >= p.tip
    {
      var j :| 0 <= j < i && ahead[j] == x;
      assert TipDescending(sorted[j], sorted[i]);
    }
    forall j | 0 <= j < |rest|
      ensures rest[j].tip <= p.tip
    {
      assert TipDescending(sorted[i], sorted[i + 1 + j]);
    }
    forall x | x in samples && x.tip > p.tip
      ensures multiset(ahead)[x] == multiset(samples)[x]
    {
      assert x !in rest && x != p;
    }
  }
}
