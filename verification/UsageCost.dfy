/** What tokens cost at list prices, over reals. */
module UsageCost {
  import opened Options

  datatype Price = Price(input: real, output: real, cacheRead: real, cacheWrite: real)

  datatype Tokens = Tokens(input: int, output: int, reasoning: int, cacheRead: int, cacheWrite: int, total: int)

  datatype Cost = Cost(inputUSD: real, outputUSD: real, cacheReadUSD: real, cacheWriteUSD: real,
                       cacheSavingsUSD: real, unpricedTokens: int, priced: bool) {
    function TotalUSD(): real { inputUSD + outputUSD + cacheReadUSD + cacheWriteUSD }
  }

  const NOTHING := Cost(0.0, 0.0, 0.0, 0.0, 0.0, 0, false)

  function Positive(n: int): int { if n > 0 then n else 0 }

  function Larger(a: int, b: int): int { if a < b then b else a }

  function PriceUsage(t: Tokens, price: Option<Price>): Cost {
    var input, output := Positive(t.input), Positive(t.output) + Positive(t.reasoning);
    var read, write := Positive(t.cacheRead), Positive(t.cacheWrite);
    var classified := input + output + read + write;
    var unclassified := Larger(Positive(t.total) - classified, 0);
    if price.None? then NOTHING.(unpricedTokens := unclassified + classified)
    else if classified == 0 then NOTHING.(unpricedTokens := unclassified)
    else
      Priced(input, output, read, write, price.value, unclassified)
  }

  /** The cost of tokens at a price; a cache-write rate of zero bills writes at the input rate. */
  function Priced(input: int, output: int, read: int, write: int, p: Price, unclassified: int): Cost {
    var writeRate := if p.cacheWrite == 0.0 then p.input else p.cacheWrite;
    Cost(input as real * p.input / 1_000_000.0,
         output as real * p.output / 1_000_000.0,
         read as real * p.cacheRead / 1_000_000.0,
         write as real * writeRate / 1_000_000.0,
         (read as real * (p.input - p.cacheRead) - write as real * (writeRate - p.input)) / 1_000_000.0,
         unclassified, true)
  }

  function Plus(a: Cost, b: Cost): Cost {
    Cost(a.inputUSD + b.inputUSD, a.outputUSD + b.outputUSD, a.cacheReadUSD + b.cacheReadUSD,
         a.cacheWriteUSD + b.cacheWriteUSD, a.cacheSavingsUSD + b.cacheSavingsUSD,
         a.unpricedTokens + b.unpricedTokens, a.priced || b.priced)
  }

  /** A running total, as Add updates it. */
  class RunningCost {
    var cost: Cost

    constructor ()
      ensures cost == NOTHING
    {
      cost := NOTHING;
    }

    method Add(other: Cost)
      modifies this
      ensures cost == Plus(old(cost), other)
    {
      cost := cost.(inputUSD := cost.inputUSD + other.inputUSD, outputUSD := cost.outputUSD + other.outputUSD);
      cost := cost.(cacheReadUSD := cost.cacheReadUSD + other.cacheReadUSD,
                    cacheWriteUSD := cost.cacheWriteUSD + other.cacheWriteUSD);
      cost := cost.(cacheSavingsUSD := cost.cacheSavingsUSD + other.cacheSavingsUSD,
                    unpricedTokens := cost.unpricedTokens + other.unpricedTokens,
                    priced := cost.priced || other.priced);
    }
  }

  // ---- What a request's cost accounts for ----

  /** One recorded request, with the price in force for its model. */
  datatype Usage = Usage(tokens: Tokens, price: Option<Price>)

  function Classified(t: Tokens): int {
    Positive(t.input) + Positive(t.output) + Positive(t.reasoning) + Positive(t.cacheRead) + Positive(t.cacheWrite)
  }

  /** The tokens a price was applied to. */
  function PricedTokens(u: Usage): int {
    if u.price.None? then 0 else Classified(u.tokens)
  }

  /** Every token the request has: the vendor's total, or the classified kinds when they add up to more. */
  function AllTokens(u: Usage): int {
    Larger(Positive(u.tokens.total), Classified(u.tokens))
  }

  /** What the request would cost without prompt caching: every input token at the input rate. */
  function UncachedUSD(u: Usage): real {
    if u.price.None? then 0.0
    else
      var t := u.tokens;
      Uncached(Positive(t.input) + Positive(t.cacheRead) + Positive(t.cacheWrite),
               Positive(t.output) + Positive(t.reasoning), u.price.value)
  }

  function Uncached(input: int, output: int, p: Price): real {
    input as real * p.input / 1_000_000.0 + output as real * p.output / 1_000_000.0
  }

  /** One request: each token is priced or counted as unpriced, once; and cost plus savings is the uncached cost. */
  lemma RequestIsConserved(u: Usage)
    ensures var c := PriceUsage(u.tokens, u.price);
            && PricedTokens(u) + c.unpricedTokens == AllTokens(u)
            && c.TotalUSD() + c.cacheSavingsUSD == UncachedUSD(u)
            && (c.priced <==> PricedTokens(u) > 0)
  {
    TokensAreConserved(u);
    if u.price.Some? {
      MoneyIsConserved(u.tokens, u.price.value);
    }
  }

  lemma TokensAreConserved(u: Usage)
    ensures var c := PriceUsage(u.tokens, u.price);
            && PricedTokens(u) + c.unpricedTokens == AllTokens(u)
            && (c.priced <==> PricedTokens(u) > 0)
  {
  }

  lemma MoneyIsConserved(t: Tokens, p: Price)
    ensures var c := PriceUsage(t, Some(p));
            c.TotalUSD() + c.cacheSavingsUSD == UncachedUSD(Usage(t, Some(p)))
  {
    var input, output := Positive(t.input), Positive(t.output) + Positive(t.reasoning);
    var read, write := Positive(t.cacheRead), Positive(t.cacheWrite);
    var unclassified := Larger(Positive(t.total) - Classified(t), 0);
    if Classified(t) == 0 {
      NothingCostsNothing(input + read + write, output, p);
    } else {
      assert PriceUsage(t, Some(p)) == Priced(input, output, read, write, p, unclassified);
      PricedIsConserved(input, output, read, write, p, unclassified);
    }
  }

  lemma NothingCostsNothing(input: int, output: int, p: Price)
    requires input == output == 0
    ensures Uncached(input, output, p) == 0.0
  {
  }

  lemma PricedIsConserved(input: int, output: int, read: int, write: int, p: Price, unclassified: int)
    ensures var c := Priced(input, output, read, write, p, unclassified);
            c.TotalUSD() + c.cacheSavingsUSD == Uncached(input + read + write, output, p)
  {
    Savings(input, output, read, write, p, if p.cacheWrite == 0.0 then p.input else p.cacheWrite);
  }

  /** What caching saves is what turns the cached charges into charges at the input rate. */
  lemma Savings(input: int, output: int, read: int, write: int, p: Price, writeRate: real)
    ensures input as real * p.input / 1_000_000.0 + output as real * p.output / 1_000_000.0
            + read as real * p.cacheRead / 1_000_000.0 + write as real * writeRate / 1_000_000.0
            + (read as real * (p.input - p.cacheRead) - write as real * (writeRate - p.input)) / 1_000_000.0
            == (input + read + write) as real * p.input / 1_000_000.0 + output as real * p.output / 1_000_000.0
  {
    Distribute(input as real, read as real, write as real, p.input);
    Difference(read as real, p.input, p.cacheRead);
    Difference(write as real, writeRate, p.input);
  }

  lemma Distribute(a: real, b: real, c: real, x: real)
    ensures (a + b + c) * x == a * x + b * x + c * x
  {
  }

  lemma Difference(a: real, x: real, y: real)
    ensures a * (x - y) == a * x - a * y
  {
  }

  /**
   The unpriced tokens of counts that are not negative: those beyond the classified kinds, or
   without a price all of them.
   */
  lemma UnpricedInPlainTerms(t: Tokens, price: Option<Price>)
    requires t.input >= 0 && t.output >= 0 && t.reasoning >= 0 && t.cacheRead >= 0 && t.cacheWrite >= 0 && t.total >= 0
    ensures var classified := t.input + t.output + t.reasoning + t.cacheRead + t.cacheWrite;
            var beyond := if t.total > classified then t.total - classified else 0;
            PriceUsage(t, price).unpricedTokens == if price.Some? then beyond else classified + beyond
  {
  }

  // ---- What one more token costs ----

  /** What n more tokens cost at a rate per million. */
  function AtRate(n: int, rate: real): real { n as real * rate / 1_000_000.0 }

  /** No tokens cost nothing, priced or not. */
  lemma NoTokensCostNothing(t: Tokens, price: Option<Price>)
    requires t.input <= 0 && t.output <= 0 && t.reasoning <= 0 && t.cacheRead <= 0 && t.cacheWrite <= 0
    ensures PriceUsage(t, price) == NOTHING.(unpricedTokens := Positive(t.total))
  {
  }

  /** What a priced model's tokens cost, part by part. */
  lemma PartsOf(t: Tokens, p: Price)
    ensures var c := PriceUsage(t, Some(p));
            var writeRate := if p.cacheWrite == 0.0 then p.input else p.cacheWrite;
            && c.inputUSD == AtRate(Positive(t.input), p.input)
            && c.outputUSD == AtRate(Positive(t.output) + Positive(t.reasoning), p.output)
            && c.cacheReadUSD == AtRate(Positive(t.cacheRead), p.cacheRead)
            && c.cacheWriteUSD == AtRate(Positive(t.cacheWrite), writeRate)
            && c.cacheSavingsUSD ==
               AtRate(Positive(t.cacheRead), p.input - p.cacheRead) - AtRate(Positive(t.cacheWrite),
                   writeRate - p.input)
  {
    if Classified(t) == 0 {
      assert Positive(t.input) == Positive(t.output) == Positive(t.reasoning) == 0;
      assert Positive(t.cacheRead) == Positive(t.cacheWrite) == 0;
      NoRate(p.input);
      NoRate(p.output);
      NoRate(p.cacheRead);
    } else {
      var writeRate := if p.cacheWrite == 0.0 then p.input else p.cacheWrite;
      SavingsOf(Positive(t.cacheRead), Positive(t.cacheWrite), p.input - p.cacheRead, writeRate - p.input);
    }
  }

  lemma NoRate(rate: real)
    ensures AtRate(0, rate) == 0.0
  {
  }

  lemma SavingsOf(read: int, write: int, x: real, y: real)
    ensures (read as real * x - write as real * y) / 1_000_000.0 == AtRate(read, x) - AtRate(write, y)
  {
  }

  lemma RatesAdd(a: int, b: int, rate: real)
    ensures AtRate(a + b, rate) == AtRate(a, rate) + AtRate(b, rate)
  {
    Product(a as real, b as real, rate);
  }

  lemma Product(a: real, b: real, x: real)
    ensures (a + b) * x == a * x + b * x
  {
  }

  /** Cost d is cost c with these sums more in its parts. */
  predicate GrowsBy(c: Cost, d: Cost, input: real, output: real, read: real, write: real, savings: real) {
    && d.inputUSD == c.inputUSD + input && d.outputUSD == c.outputUSD + output
    && d.cacheReadUSD == c.cacheReadUSD + read && d.cacheWriteUSD == c.cacheWriteUSD + write
    && d.cacheSavingsUSD == c.cacheSavingsUSD + savings
    && d.TotalUSD() == c.TotalUSD() + input + output + read + write
  }

  /** n more input tokens cost the input rate, in the input part alone. */
  lemma MoreInput(t: Tokens, p: Price, n: nat)
    requires t.input >= 0
    ensures GrowsBy(PriceUsage(t, Some(p)), PriceUsage(t.(input := t.input + n), Some(p)),
                    AtRate(n, p.input), 0.0, 0.0, 0.0, 0.0)
  {
    var u := t.(input := t.input + n);
    InputPart(t, p, n);
    OtherParts(t, u, p);
    SameSavings(t, u, p);
    Grows(PriceUsage(t, Some(p)), PriceUsage(u, Some(p)), AtRate(n, p.input), 0.0, 0.0, 0.0, 0.0);
  }

  lemma InputPart(t: Tokens, p: Price, n: nat)
    requires t.input >= 0
    ensures PriceUsage(t.(input := t.input + n), Some(p)).inputUSD == PriceUsage(t, Some(p)).inputUSD +
        AtRate(n, p.input)
  {
    PartsOf(t, p);
    PartsOf(t.(input := t.input + n), p);
    RatesAdd(t.input, n, p.input);
  }

  /** n more output tokens cost the output rate, in the output part alone. */
  lemma MoreOutput(t: Tokens, p: Price, n: nat)
    requires t.output >= 0
    ensures GrowsBy(PriceUsage(t, Some(p)), PriceUsage(t.(output := t.output + n), Some(p)),
                    0.0, AtRate(n, p.output), 0.0, 0.0, 0.0)
  {
    var u := t.(output := t.output + n);
    OutputPart(t, p, n);
    OtherParts(t, u, p);
    SameSavings(t, u, p);
    Grows(PriceUsage(t, Some(p)), PriceUsage(u, Some(p)), 0.0, AtRate(n, p.output), 0.0, 0.0, 0.0);
  }

  lemma OutputPart(t: Tokens, p: Price, n: nat)
    requires t.output >= 0
    ensures PriceUsage(t.(output := t.output + n), Some(p)).outputUSD == PriceUsage(t, Some(p)).outputUSD +
        AtRate(n, p.output)
  {
    PartsOf(t, p);
    PartsOf(t.(output := t.output + n), p);
    RatesAdd(t.output + Positive(t.reasoning), n, p.output);
  }

  /** Reasoning tokens are output tokens and cost the output rate. */
  lemma MoreReasoning(t: Tokens, p: Price, n: nat)
    requires t.reasoning >= 0
    ensures GrowsBy(PriceUsage(t, Some(p)), PriceUsage(t.(reasoning := t.reasoning + n), Some(p)),
                    0.0, AtRate(n, p.output), 0.0, 0.0, 0.0)
  {
    var u := t.(reasoning := t.reasoning + n);
    ReasoningPart(t, p, n);
    OtherParts(t, u, p);
    SameSavings(t, u, p);
    Grows(PriceUsage(t, Some(p)), PriceUsage(u, Some(p)), 0.0, AtRate(n, p.output), 0.0, 0.0, 0.0);
  }

  lemma ReasoningPart(t: Tokens, p: Price, n: nat)
    requires t.reasoning >= 0
    ensures PriceUsage(t.(reasoning := t.reasoning + n), Some(p)).outputUSD == PriceUsage(t, Some(p)).outputUSD +
        AtRate(n, p.output)
  {
    PartsOf(t, p);
    PartsOf(t.(reasoning := t.reasoning + n), p);
    RatesAdd(Positive(t.output) + t.reasoning, n, p.output);
  }

  /** n more cache reads cost the cache-read rate, and save what the input rate would cost more. */
  lemma MoreCacheReads(t: Tokens, p: Price, n: nat)
    requires t.cacheRead >= 0
    ensures GrowsBy(PriceUsage(t, Some(p)), PriceUsage(t.(cacheRead := t.cacheRead + n), Some(p)),
                    0.0, 0.0, AtRate(n, p.cacheRead), 0.0,
                    AtRate(n, p.input - p.cacheRead))
  {
    var c, d := PriceUsage(t, Some(p)), PriceUsage(t.(cacheRead := t.cacheRead + n), Some(p));
    var read, saved := AtRate(n, p.cacheRead), AtRate(n, p.input - p.cacheRead);
    ReadParts(t, p, n);
    OtherParts(t, t.(cacheRead := t.cacheRead + n), p);
    Grows(c, d, 0.0, 0.0, read, 0.0, saved);
  }

  lemma ReadParts(t: Tokens, p: Price, n: nat)
    requires t.cacheRead >= 0
    ensures var c, d := PriceUsage(t, Some(p)), PriceUsage(t.(cacheRead := t.cacheRead + n), Some(p));
            && d.cacheReadUSD == c.cacheReadUSD + AtRate(n, p.cacheRead)
            && d.cacheSavingsUSD == c.cacheSavingsUSD + AtRate(n, p.input - p.cacheRead)
  {
    PartsOf(t, p);
    PartsOf(t.(cacheRead := t.cacheRead + n), p);
    RatesAdd(t.cacheRead, n, p.cacheRead);
    RatesAdd(t.cacheRead, n, p.input - p.cacheRead);
  }

  /** n more cache writes cost the cache-write rate, which takes off the savings what it is above the input rate. */
  lemma MoreCacheWrites(t: Tokens, p: Price, n: nat)
    requires t.cacheWrite >= 0 && p.cacheWrite != 0.0
    ensures GrowsBy(PriceUsage(t, Some(p)), PriceUsage(t.(cacheWrite := t.cacheWrite + n), Some(p)),
                    0.0, 0.0, 0.0, AtRate(n, p.cacheWrite),
                    -AtRate(n, p.cacheWrite - p.input))
  {
    var c, d := PriceUsage(t, Some(p)), PriceUsage(t.(cacheWrite := t.cacheWrite + n), Some(p));
    var write, extra := AtRate(n, p.cacheWrite), AtRate(n, p.cacheWrite - p.input);
    WriteParts(t, p, n);
    OtherParts(t, t.(cacheWrite := t.cacheWrite + n), p);
    Grows(c, d, 0.0, 0.0, 0.0, write, -extra);
  }

  lemma WriteParts(t: Tokens, p: Price, n: nat)
    requires t.cacheWrite >= 0
    ensures var c, d := PriceUsage(t, Some(p)), PriceUsage(t.(cacheWrite := t.cacheWrite + n), Some(p));
            var rate := if p.cacheWrite == 0.0 then p.input else p.cacheWrite;
            && d.cacheWriteUSD == c.cacheWriteUSD + AtRate(n, rate)
            && d.cacheSavingsUSD == c.cacheSavingsUSD - AtRate(n, rate - p.input)
  {
    var rate := if p.cacheWrite == 0.0 then p.input else p.cacheWrite;
    PartsOf(t, p);
    PartsOf(t.(cacheWrite := t.cacheWrite + n), p);
    RatesAdd(t.cacheWrite, n, rate);
    RatesAdd(t.cacheWrite, n, rate - p.input);
  }

  /** Without a cache-write rate, cache writes cost the input rate and save nothing. */
  lemma MoreCacheWritesAtInputRate(t: Tokens, p: Price, n: nat)
    requires t.cacheWrite >= 0 && p.cacheWrite == 0.0
    ensures GrowsBy(PriceUsage(t, Some(p)), PriceUsage(t.(cacheWrite := t.cacheWrite + n), Some(p)),
                    0.0, 0.0, 0.0, AtRate(n, p.input), 0.0)
  {
    var c, d := PriceUsage(t, Some(p)), PriceUsage(t.(cacheWrite := t.cacheWrite + n), Some(p));
    var write := AtRate(n, p.input);
    WriteParts(t, p, n);
    OtherParts(t, t.(cacheWrite := t.cacheWrite + n), p);
    NothingAtNoRate(n, p.input - p.input);
    Grows(c, d, 0.0, 0.0, 0.0, write, 0.0);
  }

  /** A part depends on its own kind of token alone. */
  lemma OtherParts(t: Tokens, u: Tokens, p: Price)
    ensures var c, d := PriceUsage(t, Some(p)), PriceUsage(u, Some(p));
            && (t.input == u.input ==> c.inputUSD == d.inputUSD)
            && (t.output == u.output && t.reasoning == u.reasoning ==> c.outputUSD == d.outputUSD)
            && (t.cacheRead == u.cacheRead ==> c.cacheReadUSD == d.cacheReadUSD)
            && (t.cacheWrite == u.cacheWrite ==> c.cacheWriteUSD == d.cacheWriteUSD)
  {
    PartsOf(t, p);
    PartsOf(u, p);
  }

  lemma SameSavings(t: Tokens, u: Tokens, p: Price)
    requires t.cacheRead == u.cacheRead && t.cacheWrite == u.cacheWrite
    ensures PriceUsage(t, Some(p)).cacheSavingsUSD == PriceUsage(u, Some(p)).cacheSavingsUSD
  {
    PartsOf(t, p);
    PartsOf(u, p);
  }

  lemma NothingAtNoRate(n: int, rate: real)
    requires rate == 0.0
    ensures AtRate(n, rate) == 0.0
  {
  }

  lemma Grows(c: Cost, d: Cost, input: real, output: real, read: real, write: real, savings: real)
    requires d.inputUSD == c.inputUSD + input && d.outputUSD == c.outputUSD + output
    requires d.cacheReadUSD == c.cacheReadUSD + read && d.cacheWriteUSD == c.cacheWriteUSD + write
    requires d.cacheSavingsUSD == c.cacheSavingsUSD + savings
    ensures GrowsBy(c, d, input, output, read, write, savings)
  {
  }

  /** A negative count counts as zero, and a model without a price costs nothing. */
  lemma NegativeIsZero(t: Tokens, price: Option<Price>)
    ensures t.input < 0 ==> PriceUsage(t, price) == PriceUsage(t.(input := 0), price)
    ensures t.output < 0 ==> PriceUsage(t, price) == PriceUsage(t.(output := 0), price)
    ensures t.reasoning < 0 ==> PriceUsage(t, price) == PriceUsage(t.(reasoning := 0), price)
    ensures t.cacheRead < 0 ==> PriceUsage(t, price) == PriceUsage(t.(cacheRead := 0), price)
    ensures t.cacheWrite < 0 ==> PriceUsage(t, price) == PriceUsage(t.(cacheWrite := 0), price)
    ensures t.total < 0 ==> PriceUsage(t, price) == PriceUsage(t.(total := 0), price)
    ensures PriceUsage(t, None).TotalUSD() == 0.0 && PriceUsage(t, None).cacheSavingsUSD == 0.0
  {
  }

  // ---- Any batch, summed in any grouping and order ----

  /** A sum built with Add: nothing, one request, or two sums added. */
  datatype Sum = Empty | One(u: Usage) | Both(left: Sum, right: Sum)

  function CostOf(s: Sum): Cost {
    match s
    case Empty => NOTHING
    case One(u) => PriceUsage(u.tokens, u.price)
    case Both(l, r) => Plus(CostOf(l), CostOf(r))
  }

  function Requests(s: Sum): seq<Usage> {
    match s
    case Empty => []
    case One(u) => [u]
    case Both(l, r) => Requests(l) + Requests(r)
  }

  function SumPriced(us: seq<Usage>): int {
    if us == [] then 0 else PricedTokens(us[0]) + SumPriced(us[1..])
  }

  function SumAll(us: seq<Usage>): int {
    if us == [] then 0 else AllTokens(us[0]) + SumAll(us[1..])
  }

  function SumUncached(us: seq<Usage>): real {
    if us == [] then 0.0 else UncachedUSD(us[0]) + SumUncached(us[1..])
  }

  lemma {:induction false} SumsAppend(a: seq<Usage>, b: seq<Usage>)
    ensures SumPriced(a + b) == SumPriced(a) + SumPriced(b)
    ensures SumAll(a + b) == SumAll(a) + SumAll(b)
    ensures SumUncached(a + b) == SumUncached(a) + SumUncached(b)
  {
    if a == [] {
      assert a + b == b;
    } else {
      assert (a + b)[1..] == a[1..] + b;
      SumsAppend(a[1..], b);
    }
  }

  /** The cost accounts for every token of the requests, and with its savings for their uncached cost. */
  ghost predicate Conserves(c: Cost, us: seq<Usage>) {
    && SumPriced(us) + c.unpricedTokens == SumAll(us)
    && c.TotalUSD() + c.cacheSavingsUSD == SumUncached(us)
    && (c.priced <==> exists i :: 0 <= i < |us| && PricedTokens(us[i]) > 0)
  }

  lemma PlusConserves(c: Cost, d: Cost, a: seq<Usage>, b: seq<Usage>)
    requires Conserves(c, a) && Conserves(d, b)
    ensures Conserves(Plus(c, d), a + b)
  {
    SumsAppend(a, b);
    assert forall i | 0 <= i < |a| :: (a + b)[i] == a[i];
    assert forall i | 0 <= i < |b| :: (a + b)[|a| + i] == b[i];
  }

  lemma OneConserves(u: Usage)
    ensures Conserves(PriceUsage(u.tokens, u.price), [u])
  {
    RequestIsConserved(u);
    assert [u][0] == u && [u][1..] == [];
  }

  /** Both laws hold of any sum of requests. */
  lemma {:induction false} SumIsConserved(s: Sum)
    ensures Conserves(CostOf(s), Requests(s))
  {
    match s
    case Empty =>
    case One(u) =>
      OneConserves(u);
    case Both(l, r) =>
      SumIsConserved(l);
      SumIsConserved(r);
      PlusConserves(CostOf(l), CostOf(r), Requests(l), Requests(r));
  }

  function CostOfRequest(u: Usage): Cost { PriceUsage(u.tokens, u.price) }

  /** The requests added one after another, each at its cost. */
  function Chain(us: seq<Usage>, cost: Usage -> Cost): Cost {
    if us == [] then NOTHING else Plus(cost(us[0]), Chain(us[1..], cost))
  }

  lemma {:induction false} ChainAppend(a: seq<Usage>, b: seq<Usage>, cost: Usage -> Cost)
    ensures Chain(a + b, cost) == Plus(Chain(a, cost), Chain(b, cost))
  {
    if a == [] {
      assert a + b == b;
    } else {
      assert (a + b)[1..] == a[1..] + b;
      ChainAppend(a[1..], b, cost);
    }
  }

  lemma {:induction false} SumIsChain(s: Sum)
    ensures CostOf(s) == Chain(Requests(s), CostOfRequest)
  {
    match s
    case Empty =>
    case One(u) =>
      assert Requests(s)[1..] == [];
    case Both(l, r) =>
      SumIsChain(l);
      SumIsChain(r);
      ChainAppend(Requests(l), Requests(r), CostOfRequest);
  }

  lemma ChainOfOne(u: Usage, cost: Usage -> Cost)
    ensures Chain([u], cost) == cost(u)
  {
    assert [u][1..] == [];
    PlusLaws(cost(u), NOTHING, NOTHING);
  }

  /** A request can be added first instead of in its place. */
  lemma MovedToFront(a: seq<Usage>, u: Usage, b: seq<Usage>, cost: Usage -> Cost)
    ensures Chain(a + [u] + b, cost) == Plus(cost(u), Chain(a + b, cost))
  {
    ChainAppend(a + [u], b, cost);
    ChainAppend(a, [u], cost);
    ChainAppend(a, b, cost);
    ChainOfOne(u, cost);
    PlusLaws(Chain(a, cost), cost(u), Chain(b, cost));
  }

  lemma PlusLaws(x: Cost, c: Cost, y: Cost)
    ensures Plus(x, NOTHING) == x
    ensures Plus(Plus(x, c), y) == Plus(c, Plus(x, y))
  {
  }

  lemma TakenOut(a: seq<Usage>, b: seq<Usage>, i: nat)
    requires a != [] && multiset(a) == multiset(b) && i < |b| && b[i] == a[0]
    ensures multiset(a[1..]) == multiset(b[..i] + b[i + 1..])
    ensures b == b[..i] + [a[0]] + b[i + 1..]
  {
    assert b == b[..i] + [b[i]] + b[i + 1..];
    assert a == [a[0]] + a[1..];
    assert multiset(a) == multiset(a[1..]) + multiset{a[0]};
    assert multiset(b) == multiset(b[..i] + b[i + 1..]) + multiset{a[0]};
    assert multiset(a[1..]) == multiset(a) - multiset{a[0]};
  }

  lemma {:induction false} ChainIgnoresOrder(a: seq<Usage>, b: seq<Usage>, cost: Usage -> Cost)
    requires multiset(a) == multiset(b)
    ensures Chain(a, cost) == Chain(b, cost)
  {
    if a == [] {
      assert |multiset(b)| == 0;
    } else {
      assert a[0] in multiset(b);
      var i :| 0 <= i < |b| && b[i] == a[0];
      TakenOut(a, b, i);
      ChainIgnoresOrder(a[1..], b[..i] + b[i + 1..], cost);
      MovedToFront(b[..i], a[0], b[i + 1..], cost);
    }
  }

  /** Two sums of the same requests, in whatever grouping and order, are the same cost. */
  lemma GroupingDoesNotMatter(s: Sum, t: Sum)
    requires multiset(Requests(s)) == multiset(Requests(t))
    ensures CostOf(s) == CostOf(t)
  {
    SumIsChain(s);
    SumIsChain(t);
    ChainIgnoresOrder(Requests(s), Requests(t), CostOfRequest);
  }
}
