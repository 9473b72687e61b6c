/** The price oracle: submitted candidates, averaged per token every few blocks. Anybody may submit
    any 64-bit candidate and the sum is taken with unchecked 64-bit additions, which wrap. */
module Oracle {
  import opened Base
  import opened Sums
  import opened LoanMath

  type Token = string

  datatype Prices = Prices(candidates: map<Token, seq<nat>>, current: map<Token, nat>, nextAggregateAt: nat)

  function CandidatesOf(candidates: map<Token, seq<nat>>, token: Token): seq<nat> {
    if token in candidates then candidates[token] else []
  }

  /** A stored candidate list always has an entry, so the mean never divides by zero. */
  ghost predicate NoneEmpty(candidates: map<Token, seq<nat>>) {
    forall k :: k in candidates ==> candidates[k] != []
  }

  ghost predicate SumsFit(candidates: map<Token, seq<nat>>) {
    forall k :: k in candidates ==> SumSeq(candidates[k]) < U64_BOUND
  }

  function Mean(s: seq<nat>): nat
    requires s != []
  {
    SumSeq(s) / |s|
  }

  /** What the code stores as the mean. */
  function StoredMean(s: seq<nat>): nat
    requires s != []
  {
    SumSeq(s) % U64_BOUND / |s|
  }

  function Stacked(p: Prices, token: Token, price: nat): Prices {
    p.(candidates := p.candidates[token := CandidatesOf(p.candidates, token) + [price]])
  }

  ghost function Averaged(candidates: map<Token, seq<nat>>, current: map<Token, nat>, done: set<Token>): map<Token, nat>
    requires NoneEmpty(candidates) && done <= candidates.Keys
  {
    map k | k in current.Keys + done :: if k in done then StoredMean(candidates[k]) else current[k]
  }

  /** A block: at multiples of the interval every token with candidates gets their stored mean. */
  ghost function Finalized(p: Prices, block: nat, interval: nat): Prices
    requires NoneEmpty(p.candidates) && interval > 0
  {
    if block % interval != 0 then p
    else Prices(map[], Averaged(p.candidates, p.current, p.candidates.Keys), block + interval)
  }

  // ---------- means ----------

  ghost predicate Within(s: seq<nat>, lo: nat, hi: nat) {
    forall x :: x in s ==> lo <= x <= hi
  }

  lemma {:induction false} SumBetween(s: seq<nat>, lo: nat, hi: nat)
    requires Within(s, lo, hi)
    ensures |s| * lo <= SumSeq(s) <= |s| * hi
  {
    if s != [] {
      assert s[0] in s && forall x :: x in s[1..] ==> x in s;
      SumBetween(s[1..], lo, hi);
      OneMore(|s[1..]|, lo);
      OneMore(|s[1..]|, hi);
    }
  }

  lemma OneMore(n: nat, k: nat)
    ensures (n + 1) * k == n * k + k
  {
  }

  /** The mean lies between any bounds of the candidates, so between the least and the greatest. */
  lemma MeanBetween(s: seq<nat>, lo: nat, hi: nat)
    requires s != [] && Within(s, lo, hi)
    ensures lo <= Mean(s) <= hi
  {
    SumBetween(s, lo, hi);
    FloorAtLeast(SumSeq(s), |s|, lo);
    FloorAtLeast(SumSeq(s), |s|, hi + 1);
    assert |s| * (hi + 1) == |s| * hi + |s|;
  }

  /** The stored mean is the mean exactly when the sum fits 64 bits: one wrap takes away at least
      as much as there can be candidates. */
  lemma StoredMeanIsMeanIff(s: seq<nat>)
    requires s != [] && |s| < U64_BOUND
    ensures StoredMean(s) == Mean(s) <==> SumSeq(s) < U64_BOUND
  {
    WrapLowersQuotient(SumSeq(s), |s|);
  }

  lemma WrapLowersQuotient(a: nat, b: nat)
    requires 0 < b < U64_BOUND
    ensures a % U64_BOUND / b == a / b <==> a < U64_BOUND
  {
    if a >= U64_BOUND {
      WrapLosesBound(a);
      FloorMonotone(a % U64_BOUND, a - b, b);
      OneQuotientLess(a, b);
    }
  }

  lemma WrapLosesBound(a: nat)
    requires a >= U64_BOUND
    ensures a % U64_BOUND <= a - U64_BOUND
  {
  }

  lemma OneQuotientLess(a: nat, b: nat)
    requires 0 < b <= a
    ensures (a - b) / b == a / b - 1
  {
    QuotientBounds(a, b);
    QuotientBounds(a - b, b);
    FloorAtLeast(a - b, b, a / b - 1);
    FloorAtLeast(a - b, b, a / b);
  }

  /** What is left of the wrapped sum is lo or more for each candidate. */
  predicate Reaches(s: seq<nat>, lo: nat) {
    |s| * lo <= SumSeq(s) % U64_BOUND
  }

  /** An upper bound of the candidates always bounds the stored mean. A lower bound does exactly
      when the wrapped sum still reaches it. */
  lemma StoredMeanBounds(s: seq<nat>, lo: nat, hi: nat)
    requires s != []
    ensures lo <= StoredMean(s) <==> Reaches(s, lo)
    ensures Within(s, 0, hi) ==> StoredMean(s) <= hi
    ensures Within(s, lo, hi) && SumSeq(s) < U64_BOUND ==> lo <= StoredMean(s)
  {
    FloorAtLeast(SumSeq(s) % U64_BOUND, |s|, lo);
    if Within(s, 0, hi) {
      FloorMonotone(SumSeq(s) % U64_BOUND, SumSeq(s), |s|);
      MeanBetween(s, 0, hi);
    }
    if Within(s, lo, hi) { SumBetween(s, lo, hi); }
  }

  /** A condition to check beforehand: enough room for as many candidates of that size. */
  lemma BoundedSumsFit(candidates: map<Token, seq<nat>>, hi: nat)
    requires forall k :: k in candidates ==> Within(candidates[k], 0, hi) && |candidates[k]| * hi < U64_BOUND
    ensures SumsFit(candidates)
  {
    forall k | k in candidates ensures SumSeq(candidates[k]) < U64_BOUND {
      SumBetween(candidates[k], 0, hi);
    }
  }

  // ---------- the pallet ----------

  lemma AverageOne(candidates: map<Token, seq<nat>>, current: map<Token, nat>, done: set<Token>, k: Token)
    requires NoneEmpty(candidates) && done <= candidates.Keys && k in candidates
    ensures Averaged(candidates, current, done + {k}) ==
            Averaged(candidates, current, done)[k := StoredMean(candidates[k])]
  {
  }

  class OracleCells {
    var priceCandidates: map<Token, seq<nat>>
    var currentPrice: map<Token, nat>
    var nextAggregateAt: nat

    ghost function View(): Prices
      reads this
    {
      Prices(priceCandidates, currentPrice, nextAggregateAt)
    }

    ghost predicate Valid()
      reads this
    {
      NoneEmpty(priceCandidates)
    }

    constructor (current: map<Token, nat>)
      ensures Valid() && View() == Prices(map[], current, 0)
    {
      priceCandidates, currentPrice, nextAggregateAt := map[], current, 0;
    }

    method StackPrice(token: Token, price: U64)
      requires Valid()
      modifies this`priceCandidates
      ensures Valid() && View() == Stacked(old(View()), token, price)
    {
      var v := CandidatesOf(priceCandidates, token);
      priceCandidates := priceCandidates[token := v + [price]];
    }

    /** The tokens are met in any order; each list is taken out before it is averaged. */
    method OnFinalize(block: nat, interval: nat)
      requires Valid() && interval > 0
      modifies this
      ensures Valid() && View() == Finalized(old(View()), block, interval)
    {
      if block % interval == 0 {
        ghost var candidates, current := priceCandidates, currentPrice;
        ghost var done: set<Token> := {};
        var keys := priceCandidates.Keys;
        assert Averaged(candidates, current, {}) == current;
        while keys != {}
          invariant done <= candidates.Keys && keys == candidates.Keys - done
          invariant priceCandidates == candidates - done
          invariant currentPrice == Averaged(candidates, current, done)
          invariant nextAggregateAt == old(nextAggregateAt)
          decreases keys
        {
          var k :| k in keys;
          var pc := priceCandidates[k];
          priceCandidates := priceCandidates - {k};
          var sum := Fold(pc);
          var mean := sum / |pc|;
          AverageOne(candidates, current, done, k);
          currentPrice := currentPrice[k := mean];
          keys := keys - {k};
          done := done + {k};
        }
        assert done == candidates.Keys;
        assert priceCandidates == map[];
        nextAggregateAt := block + interval;
      }
    }

    /** The running sum, wrapped at each addition, is the whole sum wrapped once. */
    static method Fold(pc: seq<nat>) returns (t: U64)
      ensures t == SumSeq(pc) % U64_BOUND
    {
      t := 0;
      for i := 0 to |pc|
        invariant t == SumSeq(pc[..i]) % U64_BOUND
      {
        assert pc[..i + 1] == pc[..i] + [pc[i]];
        SumSeqConcat(pc[..i], [pc[i]]);
        t := (t + pc[i]) % U64_BOUND;
      }
      assert pc[..|pc|] == pc;
    }
  }

  // ---------- runs ----------

  datatype OracleOp = StackOp(token: Token, price: U64) | FinalizeOp(block: nat)

  ghost function OracleStep(p: Prices, interval: nat, op: OracleOp): Prices
    requires NoneEmpty(p.candidates) && interval > 0
  {
    match op
    case StackOp(token, price) => Stacked(p, token, price)
    case FinalizeOp(block) => Finalized(p, block, interval)
  }

  ghost function OracleRun(p: Prices, interval: nat, ops: seq<OracleOp>): Prices
    requires NoneEmpty(p.candidates) && interval > 0
    decreases |ops|
  {
    if ops == [] then p else OracleRun(OracleStep(p, interval, ops[0]), interval, ops[1..])
  }

  ghost predicate PricesAtLeast(p: Prices, lo: nat) {
    forall k :: k in p.current ==> lo <= p.current[k]
  }

  ghost predicate AllAtMost(p: Prices, hi: nat) {
    && (forall k :: k in p.current ==> p.current[k] <= hi)
    && (forall k :: k in p.candidates ==> Within(p.candidates[k], 0, hi))
  }

  ghost predicate AllWithin(p: Prices, lo: nat, hi: nat) {
    && PricesAtLeast(p, lo) && AllAtMost(p, hi)
    && (forall k :: k in p.candidates ==> Within(p.candidates[k], lo, hi))
  }

  ghost predicate Aggregates(interval: nat, op: OracleOp)
    requires interval > 0
  {
    op.FinalizeOp? && op.block % interval == 0
  }

  /** An aggregation empties the candidates and sets exactly the tokens that had some: never above
      them, to their mean exactly when the sum fits 64 bits, and at least to a given price exactly
      when the wrapped sum reaches it for each candidate. */
  lemma AggregationSets(p: Prices, block: nat, interval: nat)
    requires NoneEmpty(p.candidates) && interval > 0 && block % interval == 0
    ensures var n := Finalized(p, block, interval);
            && n.candidates == map[] && n.nextAggregateAt == block + interval
            && n.current.Keys == p.current.Keys + p.candidates.Keys
            && (forall k :: k in p.current && k !in p.candidates ==> n.current[k] == p.current[k])
            && (forall k :: k in p.candidates && |p.candidates[k]| < U64_BOUND ==>
                  (n.current[k] == Mean(p.candidates[k]) <==> SumSeq(p.candidates[k]) < U64_BOUND))
            && (forall k, hi: nat :: k in p.candidates && Within(p.candidates[k], 0, hi) ==> n.current[k] <= hi)
            && (forall k, lo: nat :: k in p.candidates ==> (lo <= n.current[k] <==> Reaches(p.candidates[k], lo)))
  {
    var n := Finalized(p, block, interval);
    forall k | k in p.candidates && |p.candidates[k]| < U64_BOUND
      ensures n.current[k] == Mean(p.candidates[k]) <==> SumSeq(p.candidates[k]) < U64_BOUND
    {
      StoredMeanIsMeanIff(p.candidates[k]);
    }
    forall k, hi: nat | k in p.candidates && Within(p.candidates[k], 0, hi) ensures n.current[k] <= hi {
      StoredMeanBounds(p.candidates[k], 0, hi);
    }
    forall k, lo: nat | k in p.candidates
      ensures lo <= n.current[k] <==> Reaches(p.candidates[k], lo)
    {
      StoredMeanBounds(p.candidates[k], lo, 0);
    }
  }

  // ---------- upper bounds, in every run ----------

  /** Whatever bounds the first prices and all candidates from above bounds every price of every
      run, wrapped sums included. Below 2^32 it is a price the truncation in draw leaves alone. */
  lemma {:induction false} RunAtMost(p: Prices, interval: nat, ops: seq<OracleOp>, hi: nat)
    requires NoneEmpty(p.candidates) && interval > 0 && AllAtMost(p, hi)
    requires forall i :: 0 <= i < |ops| && ops[i].StackOp? ==> ops[i].price <= hi
    ensures NoneEmpty(OracleRun(p, interval, ops).candidates) && AllAtMost(OracleRun(p, interval, ops), hi)
    decreases |ops|
  {
    if ops != [] {
      StepAtMost(p, interval, ops[0], hi);
      RunAtMost(OracleStep(p, interval, ops[0]), interval, ops[1..], hi);
    }
  }

  lemma StepAtMost(p: Prices, interval: nat, op: OracleOp, hi: nat)
    requires NoneEmpty(p.candidates) && interval > 0 && AllAtMost(p, hi)
    requires op.StackOp? ==> op.price <= hi
    ensures AllAtMost(OracleStep(p, interval, op), hi)
  {
    if Aggregates(interval, op) { AggregationSets(p, op.block, interval); }
  }

  // ---------- lower bounds ----------

  /** Every state of the run, the first included, has all its prices at lo or above. */
  ghost predicate AlwaysAtLeast(p: Prices, interval: nat, ops: seq<OracleOp>, lo: nat)
    requires NoneEmpty(p.candidates) && interval > 0
    decreases |ops|
  {
    && PricesAtLeast(p, lo)
    && (ops == [] || AlwaysAtLeast(OracleStep(p, interval, ops[0]), interval, ops[1..], lo))
  }

  /** At each aggregation of the run every wrapped sum reaches lo for each of its candidates. */
  ghost predicate SumsReach(p: Prices, interval: nat, ops: seq<OracleOp>, lo: nat)
    requires NoneEmpty(p.candidates) && interval > 0
    decreases |ops|
  {
    ops == []
    || ((Aggregates(interval, ops[0]) ==> forall k :: k in p.candidates ==> Reaches(p.candidates[k], lo))
        && SumsReach(OracleStep(p, interval, ops[0]), interval, ops[1..], lo))
  }

  /** At each aggregation of the run every sum fits 64 bits. */
  ghost predicate SumsAlwaysFit(p: Prices, interval: nat, ops: seq<OracleOp>)
    requires NoneEmpty(p.candidates) && interval > 0
    decreases |ops|
  {
    ops == []
    || ((Aggregates(interval, ops[0]) ==> SumsFit(p.candidates))
        && SumsAlwaysFit(OracleStep(p, interval, ops[0]), interval, ops[1..]))
  }

  /** Over any run, whatever is submitted, no price ever falls below lo exactly when the first do
      not and every wrapped sum reaches it. With lo == 1 this says exactly when the loan arithmetic
      never divides by a price of 0. */
  lemma {:induction false} AlwaysAtLeastIff(p: Prices, interval: nat, ops: seq<OracleOp>, lo: nat)
    requires NoneEmpty(p.candidates) && interval > 0 && PricesAtLeast(p, lo)
    ensures AlwaysAtLeast(p, interval, ops, lo) <==> SumsReach(p, interval, ops, lo)
    decreases |ops|
  {
    if ops != [] {
      var n := OracleStep(p, interval, ops[0]);
      StepAtLeastIff(p, interval, ops[0], lo);
      if PricesAtLeast(n, lo) { AlwaysAtLeastIff(n, interval, ops[1..], lo); }
    }
  }

  lemma StepAtLeastIff(p: Prices, interval: nat, op: OracleOp, lo: nat)
    requires NoneEmpty(p.candidates) && interval > 0 && PricesAtLeast(p, lo)
    ensures PricesAtLeast(OracleStep(p, interval, op), lo) <==>
            (Aggregates(interval, op) ==> forall k :: k in p.candidates ==> Reaches(p.candidates[k], lo))
  {
    if Aggregates(interval, op) {
      AggregationSets(p, op.block, interval);
      var n := OracleStep(p, interval, op);
      assert forall k :: k in p.candidates ==> k in n.current;
    }
  }

  lemma StepWithin(p: Prices, interval: nat, op: OracleOp, lo: nat, hi: nat)
    requires NoneEmpty(p.candidates) && interval > 0 && AllWithin(p, lo, hi)
    requires op.StackOp? ==> lo <= op.price <= hi
    requires Aggregates(interval, op) ==> SumsFit(p.candidates)
    ensures AllWithin(OracleStep(p, interval, op), lo, hi)
  {
    StepAtMost(p, interval, op, hi);
    if Aggregates(interval, op) {
      forall k | k in p.candidates ensures Reaches(p.candidates[k], lo) {
        StoredMeanBounds(p.candidates[k], lo, hi);
      }
    }
    StepAtLeastIff(p, interval, op, lo);
  }

  /** While the sums fit, bounds on the first prices and all candidates bound every price. */
  lemma {:induction false} RunWithin(p: Prices, interval: nat, ops: seq<OracleOp>, lo: nat, hi: nat)
    requires NoneEmpty(p.candidates) && interval > 0 && AllWithin(p, lo, hi)
    requires forall i :: 0 <= i < |ops| && ops[i].StackOp? ==> lo <= ops[i].price <= hi
    requires SumsAlwaysFit(p, interval, ops)
    ensures AllWithin(OracleRun(p, interval, ops), lo, hi)
    ensures AlwaysAtLeast(p, interval, ops, lo) && SumsReach(p, interval, ops, lo)
    decreases |ops|
  {
    if ops != [] {
      StepWithin(p, interval, ops[0], lo, hi);
      RunWithin(OracleStep(p, interval, ops[0]), interval, ops[1..], lo, hi);
    }
    AlwaysAtLeastIff(p, interval, ops, lo);
  }

  const HALF: U64 := 0x8000_0000_0000_0000

  /** Two candidates of 2^63 make the next price 0, whatever it was. */
  lemma TwoHalvesMakeZero(p: Prices, token: Token, interval: nat, block: nat)
    requires NoneEmpty(p.candidates) && interval > 0 && block % interval == 0 && token !in p.candidates
    ensures var n := OracleRun(p, interval, [StackOp(token, HALF), StackOp(token, HALF), FinalizeOp(block)]);
            token in n.current && n.current[token] == 0
  {
    var ops := [StackOp(token, HALF), StackOp(token, HALF), FinalizeOp(block)];
    var p1 := OracleStep(p, interval, ops[0]);
    var p2 := OracleStep(p1, interval, ops[1]);
    assert p2.candidates[token] == [HALF, HALF];
    assert SumSeq([HALF, HALF]) == HALF + SumSeq([HALF]);
    assert OracleRun(p, interval, ops) == OracleRun(p1, interval, ops[1..]);
    assert ops[1..][1..] == [ops[2]];
    assert OracleRun(p1, interval, ops[1..]) == OracleRun(p2, interval, [ops[2]]);
    assert OracleRun(p2, interval, [ops[2]]) == Finalized(p2, block, interval);
  }
}
