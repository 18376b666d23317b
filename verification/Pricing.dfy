/** What a model request costs, and what it can cost at most; money is exact. */
module Pricing {
  import opened Results

  const PRICE_UNIT := 1000000.0

  /** USD per million tokens. */
  datatype Rates = Rates(input: real, cachedInput: real, cacheWrite: real, output: real)

  datatype Tier = Tier(aboveInputTokens: nat, rates: Rates)

  datatype Spec = Spec(openai: bool, contextTokens: nat, maxOutputTokens: nat, standard: Rates, longContext: Option<Tier>)

  datatype Usage = Usage(input: nat, cached: nat, written: nat, output: nat)

  /** The built-in model table. */
  const MODELS: map<string, Spec> := map[
    "gpt-5.6-sol" := Spec(true, 1050000, 128000, Rates(5.0, 0.5, 6.25, 30.0), Some(Tier(272000, Rates(10.0, 1.0, 12.5, 45.0)))),
    "gpt-5.6-terra" := Spec(true, 1050000, 128000, Rates(2.0, 0.2, 2.5, 12.0), Some(Tier(272000, Rates(4.0, 0.4, 5.0, 18.0)))),
    "gpt-5.6-luna" := Spec(true, 400000, 128000, Rates(0.2, 0.02, 0.25, 1.2), Some(Tier(272000, Rates(0.4, 0.04, 0.5, 1.8)))),
    "gpt-5.5" := Spec(true, 1050000, 128000, Rates(5.0, 0.5, 5.0, 30.0), Some(Tier(272000, Rates(10.0, 1.0, 10.0, 45.0)))),
    "claude-opus-5-5" := Spec(false, 1000000, 128000, Rates(4.0, 0.2, 5.0, 20.0), None),
    "claude-sonnet-5-5" := Spec(false, 1000000, 128000, Rates(2.0, 0.2, 2.5, 10.0), None),
    "claude-haiku-5-5" := Spec(false, 1000000, 128000, Rates(0.1, 0.01, 0.125, 0.5), Some(Tier(100000, Rates(0.5, 0.05, 0.625, 2.5))))
  ]

  function TierRates(spec: Spec, inputTokens: nat): Rates {
    match spec.longContext
    case Some(tier) => if inputTokens > tier.aboveInputTokens then tier.rates else spec.standard
    case None => spec.standard
  }

  function Paid(rates: Rates, regular: nat, cached: nat, written: nat, output: nat): real {
    regular as real * rates.input + cached as real * rates.cachedInput
    + written as real * rates.cacheWrite + output as real * rates.output
  }

  /** `cost`: the price of a request, or the ValueError for a usage that contradicts itself. */
  function Cost(spec: Spec, usage: Usage): Option<real> {
    var regular := usage.input - usage.cached - usage.written;
    if regular < 0 then None
    else Some(Paid(TierRates(spec, usage.input), regular, usage.cached, usage.written, usage.output) / PRICE_UNIT)
  }

  function Max(a: real, b: real): real {
    if a < b then b else a
  }

  function InputRate(rates: Rates): real {
    Max(Max(rates.input, rates.cachedInput), rates.cacheWrite)
  }

  function Uncached(rates: Rates, inputTokens: nat, outputTokens: nat): real {
    inputTokens as real * InputRate(rates) + outputTokens as real * rates.output
  }

  /** `upper_bound_cost`: no cache hit is assumed. */
  function UpperBound(spec: Spec, inputTokens: nat, outputTokens: nat): real {
    Uncached(TierRates(spec, inputTokens), inputTokens, outputTokens) / PRICE_UNIT
  }

  // ---------------------------------------------------------------- the bound holds

  predicate NotNegative(rates: Rates) {
    rates.input >= 0.0 && rates.cachedInput >= 0.0 && rates.cacheWrite >= 0.0 && rates.output > 0.0
  }

  /** Prices are not negative, output costs something, and a longer context is never cheaper. */
  predicate Priced(spec: Spec) {
    && NotNegative(spec.standard)
    && match spec.longContext
       case None => true
       case Some(tier) =>
         && NotNegative(tier.rates)
         && InputRate(spec.standard) <= InputRate(tier.rates) && spec.standard.output <= tier.rates.output
  }

  lemma TableIsPriced(name: string)
    requires name in MODELS
    ensures Priced(MODELS[name])
  {}

  lemma Mul(a: real, b: real, c: real, d: real)
    requires 0.0 <= a <= c && 0.0 <= b <= d
    ensures 0.0 <= a * b <= c * d
  {
    assert a * b <= c * b <= c * d;
  }

  lemma InputCosts(regular: nat, cached: nat, written: nat, rates: Rates)
    requires NotNegative(rates)
    ensures 0.0 <= regular as real * rates.input + cached as real * rates.cachedInput + written as real * rates.cacheWrite
                <= (regular + cached + written) as real * InputRate(rates)
  {
    var rate := InputRate(rates);
    Mul(regular as real, rates.input, regular as real, rate);
    Mul(cached as real, rates.cachedInput, cached as real, rate);
    Mul(written as real, rates.cacheWrite, written as real, rate);
    assert (regular + cached + written) as real == regular as real + cached as real + written as real;
  }

  /** A reservation covers every usage within it, whatever the cache did and also when the real
      input falls in a cheaper tier than the reserved one. */
  lemma ReservationCovers(spec: Spec, usage: Usage, inputTokens: nat, outputTokens: nat)
    requires Priced(spec) && Cost(spec, usage).Some?
    requires usage.input <= inputTokens && usage.output <= outputTokens
    ensures 0.0 <= Cost(spec, usage).value <= UpperBound(spec, inputTokens, outputTokens)
  {
    var low, high := TierRates(spec, usage.input), TierRates(spec, inputTokens);
    var regular := usage.input - usage.cached - usage.written;
    PaidIsCovered(low, high, regular, usage.cached, usage.written, usage.output, inputTokens, outputTokens);
    hide Paid, Uncached, InputRate;
  }

  lemma PaidIsCovered(low: Rates, high: Rates, regular: nat, cached: nat, written: nat, output: nat,
                      inputTokens: nat, outputTokens: nat)
    requires NotNegative(low) && InputRate(low) <= InputRate(high) && low.output <= high.output
    requires regular + cached + written <= inputTokens && output <= outputTokens
    ensures 0.0 <= Paid(low, regular, cached, written, output) <= Uncached(high, inputTokens, outputTokens)
  {
    InputCosts(regular, cached, written, low);
    Mul((regular + cached + written) as real, InputRate(low), inputTokens as real, InputRate(high));
    Mul(output as real, low.output, outputTokens as real, high.output);
  }

  /** The largest whole number of output tokens that `left` still pays for after the input. */
  function Affordable(spec: Spec, inputTokens: nat, left: real): int
    requires Priced(spec)
  {
    ((left - UpperBound(spec, inputTokens, 0)) * PRICE_UNIT / TierRates(spec, inputTokens).output).Floor
  }

  lemma UpperBoundIsAffine(spec: Spec, inputTokens: nat, outputTokens: nat)
    ensures UpperBound(spec, inputTokens, outputTokens)
            == UpperBound(spec, inputTokens, 0) + outputTokens as real * TierRates(spec, inputTokens).output / PRICE_UNIT
  {
    hide InputRate, TierRates;
    var rates := TierRates(spec, inputTokens);
    assert 0 as real * rates.output == 0.0;
  }

  lemma FloorBound(money: real, rate: real, n: int)
    requires rate > 0.0
    ensures n <= (money * PRICE_UNIT / rate).Floor <==> n as real * rate / PRICE_UNIT <= money
  {
    var x, paid := money * PRICE_UNIT / rate, n as real * rate;
    ScaledBound(n as real, x, rate, money * PRICE_UNIT);
  }

  lemma ScaledBound(a: real, x: real, rate: real, total: real)
    requires rate > 0.0 && x * rate == total
    ensures a <= x <==> a * rate <= total
  {}

  /** A request fits exactly when its output does not exceed what is affordable. */
  lemma AffordableIsExact(spec: Spec, inputTokens: nat, outputTokens: nat, left: real)
    requires Priced(spec)
    ensures outputTokens <= Affordable(spec, inputTokens, left) <==> UpperBound(spec, inputTokens, outputTokens) <= left
  {
    UpperBoundIsAffine(spec, inputTokens, outputTokens);
    FloorBound(left - UpperBound(spec, inputTokens, 0), TierRates(spec, inputTokens).output, outputTokens);
  }

  // ---------------------------------------------------------------- every token is paid

  /** The rates of the long context apply to a request whose whole input is above its threshold. */
  predicate AtLongRates(spec: Spec, inputTokens: nat) {
    spec.longContext.Some? && spec.longContext.value.aboveInputTokens < inputTokens
  }

  function RatesOf(spec: Spec, inputTokens: nat): Rates {
    if AtLongRates(spec, inputTokens) then spec.longContext.value.rates else spec.standard
  }

  lemma OneMore(n: nat, rate: real)
    ensures (n + 1) as real * rate == n as real * rate + rate
  {
    assert (n + 1) as real == n as real + 1.0;
  }

  /** A usage that contradicts itself has no price, an empty one costs nothing, and within a tier
      each further token costs what its kind costs. */
  lemma EveryTokenIsPaid(spec: Spec, usage: Usage)
    ensures Cost(spec, usage).None? <==> usage.input < usage.cached + usage.written
    ensures usage == Usage(0, 0, 0, 0) ==> Cost(spec, usage) == Some(0.0)
    ensures Cost(spec, usage).Some? ==>
              var (rates, paid) := (RatesOf(spec, usage.input), Cost(spec, usage).value);
              && Cost(spec, usage.(output := usage.output + 1)) == Some(paid + rates.output / 1000000.0)
              && (AtLongRates(spec, usage.input) == AtLongRates(spec, usage.input + 1) ==>
                    && Cost(spec, usage.(input := usage.input + 1)) == Some(paid + rates.input / 1000000.0)
                    && Cost(spec, usage.(input := usage.input + 1, cached := usage.cached + 1)) == Some(paid + rates.cachedInput / 1000000.0)
                    && Cost(spec, usage.(input := usage.input + 1, written := usage.written + 1)) == Some(paid + rates.cacheWrite / 1000000.0))
  {
    if Cost(spec, usage).Some? {
      var rates, regular := RatesOf(spec, usage.input), usage.input - usage.cached - usage.written;
      PaidPerToken(rates, regular, usage.cached, usage.written, usage.output);
      hide Paid;
      assert TierRates(spec, usage.input) == rates;
    }
    NothingPaid(TierRates(spec, usage.input));
  }

  lemma NothingPaid(rates: Rates)
    ensures Paid(rates, 0, 0, 0, 0) == 0.0
  {}

  lemma PaidPerToken(rates: Rates, regular: nat, cached: nat, written: nat, output: nat)
    ensures var paid := Paid(rates, regular, cached, written, output);
            && Paid(rates, regular + 1, cached, written, output) == paid + rates.input
            && Paid(rates, regular, cached + 1, written, output) == paid + rates.cachedInput
            && Paid(rates, regular, cached, written + 1, output) == paid + rates.cacheWrite
            && Paid(rates, regular, cached, written, output + 1) == paid + rates.output
  {
    OneMore(regular, rates.input);
    OneMore(cached, rates.cachedInput);
    OneMore(written, rates.cacheWrite);
    OneMore(output, rates.output);
  }

  /** The bound is no larger than it must be: some usage of exactly these tokens costs it. */
  lemma BoundIsReached(spec: Spec, inputTokens: nat, outputTokens: nat) returns (usage: Usage)
    ensures usage.input == inputTokens && usage.output == outputTokens
    ensures Cost(spec, usage) == Some(UpperBound(spec, inputTokens, outputTokens))
  {
    var rates := TierRates(spec, inputTokens);
    assert InputRate(rates) == rates.input || InputRate(rates) == rates.cachedInput || InputRate(rates) == rates.cacheWrite;
    usage := if InputRate(rates) == rates.input then Usage(inputTokens, 0, 0, outputTokens)
             else if InputRate(rates) == rates.cachedInput then Usage(inputTokens, inputTokens, 0, outputTokens)
             else Usage(inputTokens, 0, inputTokens, outputTokens);
    OneKind(rates, inputTokens, outputTokens);
    assert Paid(rates, usage.input - usage.cached - usage.written, usage.cached, usage.written, usage.output)
        == Uncached(rates, inputTokens, outputTokens);
  }

  lemma OneKind(rates: Rates, input: nat, output: nat)
    ensures var paid := output as real * rates.output;
            && Paid(rates, input, 0, 0, output) == input as real * rates.input + paid
            && Paid(rates, 0, input, 0, output) == input as real * rates.cachedInput + paid
            && Paid(rates, 0, 0, input, output) == input as real * rates.cacheWrite + paid
  {
    NoneOfIt(rates.input);
    NoneOfIt(rates.cachedInput);
    NoneOfIt(rates.cacheWrite);
  }

  lemma NoneOfIt(rate: real)
    ensures 0 as real * rate == 0.0
  {}
}
