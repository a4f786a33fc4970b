/**
 What one call costs (`track` in src/arail/costs.py), said without the formula: what one more token, one more
 millisecond and another source change in the figures of its record, and what whole runs add up to.
 */
module CostPrices {
  import opened Basics
  import opened Costs

  const MILLION := 1000000.0

  // ----- the raw price -----

  lemma Share(n: nat, more: nat, price: real)
    ensures ((n + more) as real / MILLION) * price == (n as real / MILLION) * price + (more as real / MILLION) * price
  {
    var a, b := n as real / MILLION, more as real / MILLION;
    assert (n + more) as real / MILLION == a + b;
    Distribute(a, b, price);
  }

  /** So many more tokens in raise the raw price by that part of the model's input price for a million. */
  lemma InputTokensCost(cfg: Config, call: Call, more: nat)
    ensures RecordOf(cfg, call.(tokensIn := call.tokensIn + more)).rawCloud
            == RecordOf(cfg, call).rawCloud + (more as real / MILLION) * cfg.priceIn(call.backend, call.model)
  {
    Share(call.tokensIn, more, cfg.priceIn(call.backend, call.model));
  }

  /** And so many more tokens out by that part of the output price. */
  lemma OutputTokensCost(cfg: Config, call: Call, more: nat)
    ensures RecordOf(cfg, call.(tokensOut := call.tokensOut + more)).rawCloud
            == RecordOf(cfg, call).rawCloud + (more as real / MILLION) * cfg.priceOut(call.backend, call.model)
  {
    Share(call.tokensOut, more, cfg.priceOut(call.backend, call.model));
  }

  lemma NoTokensNoPrice(cfg: Config, call: Call)
    ensures RecordOf(cfg, call.(tokensIn := 0, tokensOut := 0)).rawCloud == 0.0
  {
  }

  /** A million tokens in cost the input price, a million out the output price. */
  lemma MillionTokens(cfg: Config, call: Call)
    ensures RecordOf(cfg, call.(tokensIn := call.tokensIn + 1000000)).rawCloud
            == RecordOf(cfg, call).rawCloud + cfg.priceIn(call.backend, call.model)
    ensures RecordOf(cfg, call.(tokensOut := call.tokensOut + 1000000)).rawCloud
            == RecordOf(cfg, call).rawCloud + cfg.priceOut(call.backend, call.model)
  {
    InputTokensCost(cfg, call, 1000000);
    OutputTokensCost(cfg, call, 1000000);
  }

  // ----- the bill -----

  /**
   The bill is never under the minimum; a dearer call pays its raw price by the multipliers, and the agents' only if
   it is one.
   */
  lemma BillIs(cfg: Config, call: Call)
    ensures var r := RecordOf(cfg, call);
            && r.billed >= cfg.minCall
            && (r.billed > cfg.minCall && call.source == "ui" ==> r.billed == r.rawCloud * cfg.usageMultiplier)
            && (r.billed > cfg.minCall && call.source != "ui" ==>
                  r.billed == r.rawCloud * cfg.usageMultiplier * cfg.agentMultiplier)
            && r.billed >= r.rawCloud * cfg.usageMultiplier * (if call.source == "ui" then 1.0 else cfg.agentMultiplier)
            && r.savings == r.billed - r.energy
  {
    TimesTimes(RawCloud(cfg, call), cfg.usageMultiplier, cfg.agentMultiplier);
  }

  lemma TimesTimes(a: real, b: real, c: real)
    ensures a * (b * c) == a * b * c
  {
  }

  /** Above the minimum an agent's call is billed the agents' multiple of what the same call from the page is. */
  lemma AgentsPayTheirMultiple(cfg: Config, call: Call, agent: string)
    requires agent != "ui"
    requires RecordOf(cfg, call.(source := agent)).billed > cfg.minCall && RecordOf(cfg, call.(source := "ui")).billed > cfg.minCall
    ensures RecordOf(cfg, call.(source := agent)).billed == RecordOf(cfg, call.(source := "ui")).billed * cfg.agentMultiplier
  {
    BillIs(cfg, call.(source := agent));
    BillIs(cfg, call.(source := "ui"));
    assert RawCloud(cfg, call.(source := agent)) == RawCloud(cfg, call.(source := "ui"));
  }

  /** A real charge is put down for the three backends that make one, and for no other. */
  lemma ChargedIff(cfg: Config, call: Call)
    ensures var r := RecordOf(cfg, call);
            && (r.cloudCost.Some? <==> call.backend == "claude" || call.backend == "huggingface" || call.backend == "openrouter")
            && (r.cloudCost.Some? ==> r.cloudCost.value == cfg.round6(r.billed))
  {
  }

  /** No charge is known to be made for the six that run here, and nothing is known of any other. */
  lemma LocalIff(backend: string)
    ensures SourceOf(backend) == Local <==>
            || backend == "mlx" || backend == "cuda" || backend == "cpu"
            || backend == "airllm" || backend == "aerollm" || backend == "ollama_native"
    ensures SourceOf(backend) == Unpriced <==>
            SourceOf(backend) != Local && backend != "claude" && backend != "huggingface" && backend != "openrouter"
  {
  }

  // ----- the energy -----

  /** The energy is the larger of what the time and what the tokens cost, both kinds of token alike. */
  lemma EnergyIsLarger(cfg: Config, call: Call)
    ensures var e, tokens := RecordOf(cfg, call).energy, TokenEnergy(cfg, call.backend, call.tokensIn + call.tokensOut);
            && e >= LatencyEnergy(cfg, call) && e >= tokens
            && (e == LatencyEnergy(cfg, call) || e == tokens)
  {
  }

  /** A kilowatt for an hour costs the rate, and time and power count in proportion. */
  lemma KilowattHour(cfg: Config, call: Call, more: real)
    ensures cfg.watts(call.backend) == 1000.0 ==> LatencyEnergy(cfg, call.(latencyMs := 3600000.0)) == cfg.energyRate
    ensures LatencyEnergy(cfg, call.(latencyMs := call.latencyMs + more))
            == LatencyEnergy(cfg, call) + LatencyEnergy(cfg, call.(latencyMs := more))
    ensures LatencyEnergy(cfg, call.(latencyMs := 3600000.0)) == cfg.watts(call.backend) / 1000.0 * cfg.energyRate
  {
    var w, rate := cfg.watts(call.backend), cfg.energyRate;
    var a, b := call.latencyMs / 3600000.0, more / 3600000.0;
    assert (call.latencyMs + more) / 3600000.0 == a + b;
    FourParts(w, a, b, rate);
    Thousandth(w, rate);
    assert 3600000.0 / 3600000.0 == 1.0;
  }

  lemma FourParts(w: real, a: real, b: real, rate: real)
    ensures w * (a + b) * rate / 1000.0 == w * a * rate / 1000.0 + w * b * rate / 1000.0
  {
    Distribute(a, b, w);
    Distribute(w * a, w * b, rate);
  }

  lemma Thousandth(w: real, rate: real)
    ensures w * 1.0 * rate / 1000.0 == w / 1000.0 * rate
  {
    var k := w / 1000.0;
    assert w == 1000.0 * k && w * rate == 1000.0 * (k * rate);
  }

  /** 3.6 million joules are a kilowatt hour: one token more costs its joules. */
  lemma TokenJoules(cfg: Config, backend: string, tokens: nat)
    ensures tokens as real * cfg.joules(backend) == 3600000.0 ==> TokenEnergy(cfg, backend, tokens) == cfg.energyRate
    ensures TokenEnergy(cfg, backend, tokens + 1) == TokenEnergy(cfg, backend, tokens) + TokenEnergy(cfg, backend, 1)
  {
    assert 3600000.0 / 3600000.0 == 1.0;
    TokenEnergyAdds(cfg, backend, tokens, 1);
  }

  // ----- whole runs -----

  /** Every call of the run is of this backend and model. */
  ghost predicate AllOf(ops: seq<Op>, backend: string, model: string) {
    forall i :: 0 <= i < |ops| && ops[i].Tracked? ==> ops[i].call.backend == backend && ops[i].call.model == model
  }

  function PriceOf(cfg: Config, backend: string, model: string, tokensIn: int, tokensOut: int): real {
    (tokensIn as real / MILLION) * cfg.priceIn(backend, model) + (tokensOut as real / MILLION) * cfg.priceOut(backend, model)
  }

  lemma {:induction false} RatesDoNotPrice(cfg: Config, ops: seq<Op>)
    ensures InForce(cfg, ops) == cfg.(energyRate := InForce(cfg, ops).energyRate)
  {
    if ops != [] && !ops[|ops| - 1].Restarted? {
      RatesDoNotPrice(cfg, ops[..|ops| - 1]);
    }
  }

  /** A record as it is priced, whatever the energy rate in force. */
  ghost predicate Priced(cfg: Config, r: Record) {
    && r.billed >= cfg.minCall
    && r.rawCloud == PriceOf(cfg, r.call.backend, r.call.model, r.call.tokensIn, r.call.tokensOut)
  }

  lemma RecordIsPriced(cfg: Config, rate: real, call: Call)
    ensures Priced(cfg, RecordOf(cfg.(energyRate := rate), call))
  {
  }

  lemma {:induction false} MadeArePriced(cfg: Config, ops: seq<Op>)
    ensures forall r :: r in Made(cfg, ops) ==> Priced(cfg, r)
  {
    if ops != [] {
      var n := |ops| - 1;
      MadeArePriced(cfg, ops[..n]);
      RatesDoNotPrice(cfg, ops);
      if ops[n].Tracked? {
        RecordIsPriced(cfg, InForce(cfg, ops).energyRate, ops[n].call);
      }
    }
  }

  lemma {:induction false} MadeOf(cfg: Config, ops: seq<Op>, backend: string, model: string)
    requires AllOf(ops, backend, model)
    ensures forall r :: r in Made(cfg, ops) ==> r.call.backend == backend && r.call.model == model
  {
    if ops != [] {
      MadeOf(cfg, ops[..|ops| - 1], backend, model);
    }
  }

  lemma {:induction false} RawOfTokens(cfg: Config, records: seq<Record>, backend: string, model: string)
    requires forall r :: r in records ==> Priced(cfg, r) && r.call.backend == backend && r.call.model == model
    ensures Tally(records, RawFigure) * MILLION
            == Tally(records, TokensIn) * cfg.priceIn(backend, model) + Tally(records, TokensOut) * cfg.priceOut(backend, model)
  {
    if records != [] {
      var n := |records| - 1;
      var r := records[n];
      RawOfTokens(cfg, records[..n], backend, model);
      RawTimesMillion(r.rawCloud, TokensIn(r), TokensOut(r), cfg.priceIn(backend, model), cfg.priceOut(backend, model));
      Distribute(Tally(records[..n], TokensIn), TokensIn(r), cfg.priceIn(backend, model));
      Distribute(Tally(records[..n], TokensOut), TokensOut(r), cfg.priceOut(backend, model));
    }
  }

  lemma RawTimesMillion(raw: real, a: real, b: real, p: real, q: real)
    requires raw == (a / MILLION) * p + (b / MILLION) * q
    ensures raw * MILLION == a * p + b * q
  {
    var x, y := a / MILLION, b / MILLION;
    assert x * MILLION == a && y * MILLION == b;
    ThreeFactors(x, p);
    ThreeFactors(y, q);
  }

  lemma ThreeFactors(x: real, p: real)
    ensures (x * p) * MILLION == (x * MILLION) * p
  {
  }

  ghost predicate PricedByTokens(cfg: Config, t: Totals, backend: string, model: string) {
    t.rawCloud * MILLION
    == t.tokensIn as real * cfg.priceIn(backend, model) + t.tokensOut as real * cfg.priceOut(backend, model)
  }

  /**
   Over every run of calls and restarts of one backend and model, a million times the raw total is the tokens in
   at the input price and the tokens out at the output price.
   */
  lemma RunOfOneModel(cfg: Config, ops: seq<Op>, backend: string, model: string)
    requires AllOf(ops, backend, model)
    ensures PricedByTokens(cfg, Run(cfg, ops).totals, backend, model)
  {
    TotalsAreThoseOfTheRecords(cfg, ops, backend);
    MadeArePriced(cfg, ops);
    MadeOf(cfg, ops, backend, model);
    TotalsArePriced(cfg, Run(cfg, ops).totals, Made(cfg, ops), backend, model);
  }

  lemma TotalsArePriced(cfg: Config, t: Totals, made: seq<Record>, backend: string, model: string)
    requires TotalsFit(t, made) && forall r :: r in made ==> Priced(cfg, r) && r.call.backend == backend && r.call.model == model
    ensures PricedByTokens(cfg, t, backend, model)
  {
    RawOfTokens(cfg, made, backend, model);
  }

  lemma {:induction false} BilledOfCalls(cfg: Config, records: seq<Record>)
    requires forall r :: r in records ==> Priced(cfg, r)
    ensures Tally(records, BilledFigure) >= |records| as real * cfg.minCall
  {
    if records != [] {
      var n := |records| - 1;
      BilledOfCalls(cfg, records[..n]);
      assert Priced(cfg, records[n]);
      Distribute(n as real, 1.0, cfg.minCall);
    }
  }

  ghost predicate PaysTheMinimum(cfg: Config, t: Totals) {
    t.billed >= t.calls as real * cfg.minCall
  }

  /** Over every run the bill is at least the minimum for every call. */
  lemma RunPaysTheMinimum(cfg: Config, ops: seq<Op>)
    ensures PaysTheMinimum(cfg, Run(cfg, ops).totals)
  {
    TotalsAreThoseOfTheRecords(cfg, ops, "");
    MadeArePriced(cfg, ops);
    TotalsPay(cfg, Run(cfg, ops).totals, Made(cfg, ops));
  }

  lemma TotalsPay(cfg: Config, t: Totals, made: seq<Record>)
    requires TotalsFit(t, made) && forall r :: r in made ==> Priced(cfg, r)
    ensures PaysTheMinimum(cfg, t)
  {
    BilledOfCalls(cfg, made);
  }
}
