/**
 The cost tracker (src/arail/costs.py): running totals over inference calls, their breakdowns by backend
 and by source, and what saving and loading does to them. Money and energy are real numbers; the price
 and power tables, the rates and the rounding are parameters.
 */
module Costs {
  import opened Basics

  const HISTORY_MAX := 500

  datatype CostSource = BilledEstimate | Local | Unpriced

  /** `cost_source`: an allowlist; what is not on it is unpriced, never local. */
  function SourceOf(backend: string): CostSource {
    if backend in {"claude", "huggingface", "openrouter"} then BilledEstimate
    else if backend in {"mlx", "cuda", "cpu", "airllm", "aerollm", "ollama_native"} then Local
    else Unpriced
  }

  datatype Call = Call(
    backend: string, model: string, tokensIn: nat, tokensOut: nat, latencyMs: real, source: string,
    recapDepth: Option<int>, cacheRead: int, cacheCreation: int)

  datatype Config = Config(
    energyRate: real, usageMultiplier: real, agentMultiplier: real, minCall: real,
    priceIn: (string, string) -> real, priceOut: (string, string) -> real,
    watts: string -> real, joules: string -> real, round6: real -> real)

  /** The figures of one call that the totals are made of, and its real charge if it has one. */
  datatype Record = Record(
    call: Call, rawCloud: real, billed: real, energy: real, savings: real, cloudCost: Option<real>)

  datatype Totals = Totals(
    tokensIn: int, tokensOut: int, cloud: real, rawCloud: real, billed: real, energy: real, savings: real,
    calls: int, latencyMs: real, cacheRead: int, cacheCreation: int)

  datatype Breakdowns = Breakdowns(
    latencyBy: map<string, real>, callsBy: map<string, int>, callsBySource: map<string, int>,
    tokensBy: map<string, int>, cloudBy: map<string, real>, callsByDepth: map<int, int>)

  datatype State = State(totals: Totals, parts: Breakdowns, history: seq<Record>)

  const EMPTY := State(
    Totals(0, 0, 0.0, 0.0, 0.0, 0.0, 0.0, 0, 0.0, 0, 0),
    Breakdowns(map[], map[], map[], map[], map[], map[]),
    [])

  function Max(a: real, b: real): real {
    if b > a then b else a
  }

  // ----- one call -----

  function RawCloud(cfg: Config, call: Call): real {
    (call.tokensIn as real / 1000000.0) * cfg.priceIn(call.backend, call.model)
    + (call.tokensOut as real / 1000000.0) * cfg.priceOut(call.backend, call.model)
  }

  function Billed(cfg: Config, call: Call): real {
    var multiplier := if call.source != "ui" then cfg.usageMultiplier * cfg.agentMultiplier else cfg.usageMultiplier;
    Max(RawCloud(cfg, call) * multiplier, cfg.minCall)
  }

  /** The energy some tokens cost at the backend's joules for each. */
  function TokenEnergy(cfg: Config, backend: string, tokens: int): real {
    (tokens as real * cfg.joules(backend) / 3600000.0) * cfg.energyRate
  }

  function LatencyEnergy(cfg: Config, call: Call): real {
    cfg.watts(call.backend) * (call.latencyMs / 3600000.0) * cfg.energyRate / 1000.0
  }

  function Energy(cfg: Config, call: Call): real {
    Max(LatencyEnergy(cfg, call), TokenEnergy(cfg, call.backend, call.tokensIn + call.tokensOut))
  }

  function RecordOf(cfg: Config, call: Call): Record {
    var billed, energy := Billed(cfg, call), Energy(cfg, call);
    Record(call, RawCloud(cfg, call), billed, energy, billed - energy,
           if SourceOf(call.backend).BilledEstimate? then Some(cfg.round6(billed)) else None)
  }

  /** `d[key] = d.get(key, 0) + more`. */
  function Bump(m: map<string, int>, key: string, more: int): map<string, int> {
    m[key := (if key in m then m[key] else 0) + more]
  }

  function BumpReal(m: map<string, real>, key: string, more: real): map<string, real> {
    m[key := (if key in m then m[key] else 0.0) + more]
  }

  function LastOf(history: seq<Record>): (last: seq<Record>)
    ensures |last| <= HISTORY_MAX
  {
    if |history| > HISTORY_MAX then history[|history| - HISTORY_MAX..] else history
  }

  function AtDepth(m: map<int, int>, depth: Option<int>): map<int, int> {
    if depth.None? then m else m[depth.value := (if depth.value in m then m[depth.value] else 0) + 1]
  }

  function AddToTotals(t: Totals, r: Record): Totals {
    Totals(
      t.tokensIn + r.call.tokensIn, t.tokensOut + r.call.tokensOut, t.billed + r.billed, t.rawCloud + r.rawCloud,
      t.billed + r.billed, t.energy + r.energy, t.savings + r.savings, t.calls + 1, t.latencyMs + r.call.latencyMs,
      t.cacheRead + r.call.cacheRead, t.cacheCreation + r.call.cacheCreation)
  }

  function AddToBreakdowns(b: Breakdowns, r: Record): Breakdowns {
    Breakdowns(
      BumpReal(b.latencyBy, r.call.backend, r.call.latencyMs),
      Bump(b.callsBy, r.call.backend, 1),
      Bump(b.callsBySource, r.call.source, 1),
      Bump(b.tokensBy, r.call.backend, r.call.tokensIn + r.call.tokensOut),
      BumpReal(b.cloudBy, r.call.backend, r.billed),
      AtDepth(b.callsByDepth, r.call.recapDepth))
  }

  /** What `track` makes of the totals. */
  function Track(cfg: Config, s: State, call: Call): State {
    Add(s, RecordOf(cfg, call))
  }

  function Add(s: State, r: Record): State {
    State(AddToTotals(s.totals, r), AddToBreakdowns(s.parts, r), LastOf(s.history + [r]))
  }

  // ----- sums over a breakdown -----

  /** The sum of a breakdown, each entry weighed. */
  ghost function Sum<T>(m: map<string, T>, weigh: (string, T) -> real): real
    decreases |m|
  {
    if m == map[] then 0.0
    else
      var k :| k in m;
      Smaller(m, k);
      weigh(k, m[k]) + Sum(m - {k}, weigh)
  }

  lemma Smaller<T>(m: map<string, T>, k: string)
    requires k in m
    ensures |m - {k}| < |m|
  {
  }

  /** The sum does not depend on the order of the entries. */
  lemma {:induction false} SumTakes<T>(m: map<string, T>, k: string, weigh: (string, T) -> real)
    requires k in m
    ensures Sum(m, weigh) == weigh(k, m[k]) + Sum(m - {k}, weigh)
    decreases |m|
  {
    var j := Picked(m, weigh);
    if j != k {
      Smaller(m, j);
      SumTakes(m - {j}, k, weigh);
      SumTakes(m - {k}, j, weigh) by {
        Smaller(m, k);
      }
      assert m - {j} - {k} == m - {k} - {j};
    }
  }

  ghost function Picked<T>(m: map<string, T>, weigh: (string, T) -> real): (k: string)
    requires m != map[]
    ensures k in m && Sum(m, weigh) == weigh(k, m[k]) + Sum(m - {k}, weigh)
  {
    var k :| k in m && Sum(m, weigh) == weigh(k, m[k]) + Sum(m - {k}, weigh);
    k
  }

  lemma SumPut<T>(m: map<string, T>, k: string, v: T, weigh: (string, T) -> real)
    ensures Sum(m[k := v], weigh) == weigh(k, v) + (if k in m then Sum(m, weigh) - weigh(k, m[k]) else Sum(m, weigh))
  {
    var now := m[k := v];
    SumTakes(now, k, weigh);
    if k in m {
      SumTakes(m, k, weigh);
      assert now - {k} == m - {k};
    } else {
      assert now - {k} == m;
    }
  }

  function Count(k: string, n: int): real {
    n as real
  }

  function Amount(k: string, x: real): real {
    x
  }

  lemma BumpAdds(m: map<string, int>, key: string, more: int)
    ensures Sum(Bump(m, key, more), Count) == Sum(m, Count) + more as real
  {
    SumPut(m, key, (if key in m then m[key] else 0) + more, Count);
  }

  lemma BumpRealAdds(m: map<string, real>, key: string, more: real)
    ensures Sum(BumpReal(m, key, more), Amount) == Sum(m, Amount) + more
  {
    SumPut(m, key, (if key in m then m[key] else 0.0) + more, Amount);
  }

  // ----- saving and loading -----

  const BARE := "agent"
  const LEGACY := "agent:pre-p1-legacy"

  /** The rename of the bare agent bucket. */
  function Renamed(m: map<string, int>): map<string, int> {
    if BARE !in m then m
    else if m[BARE] == 0 then m - {BARE}
    else Bump(m - {BARE}, LEGACY, m[BARE])
  }

  /** The token floor of everything counted so far, at this rate. */
  ghost function Floor(cfg: Config, tokensBy: map<string, int>): real {
    Sum(tokensBy, InTokenEnergy(cfg))
  }

  ghost function InTokenEnergy(cfg: Config): (string, int) -> real {
    (backend, tokens) => TokenEnergy(cfg, backend, tokens)
  }

  ghost function Reconciled(cfg: Config, tokensBy: map<string, int>, energy: real): real {
    var floor := Floor(cfg, tokensBy);
    if floor > energy * 5.0 then cfg.round6(floor) else energy
  }

  /** `_load` of what `_save` wrote: the billed usage stands for the cloud total, which is not read back. */
  ghost function Reload(cfg: Config, s: State): State {
    State(
      s.totals.(cloud := s.totals.billed, energy := Reconciled(cfg, s.parts.tokensBy, s.totals.energy)),
      s.parts.(callsBySource := Renamed(s.parts.callsBySource)),
      LastOf(s.history))
  }

  datatype Op = Tracked(call: Call) | Restarted(energyRate: real)

  /** The configuration in force after some operations: each restart reads its own energy rate. */
  function InForce(cfg: Config, ops: seq<Op>): Config {
    if ops == [] then cfg
    else if ops[|ops| - 1].Restarted? then cfg.(energyRate := ops[|ops| - 1].energyRate)
    else InForce(cfg, ops[..|ops| - 1])
  }

  ghost function Step(cfg: Config, s: State, op: Op): State {
    match op
    case Tracked(call) => Track(cfg, s, call)
    case Restarted(_) => Reload(cfg, s)
  }

  ghost function Run(cfg: Config, ops: seq<Op>): State {
    if ops == [] then EMPTY else Step(InForce(cfg, ops), Run(cfg, ops[..|ops| - 1]), ops[|ops| - 1])
  }

  // ----- conservation -----

  /** The breakdowns add up to the totals. */
  ghost predicate Conserved(s: State) {
    && CountsConserved(s.totals, s.parts) && AmountsConserved(s.totals, s.parts)
    && s.totals.cloud == s.totals.billed
    && |s.history| <= HISTORY_MAX
  }

  ghost predicate CountsConserved(t: Totals, b: Breakdowns) {
    && Sum(b.callsBy, Count) == t.calls as real
    && Sum(b.callsBySource, Count) == t.calls as real
    && Sum(b.tokensBy, Count) == (t.tokensIn + t.tokensOut) as real
  }

  ghost predicate AmountsConserved(t: Totals, b: Breakdowns) {
    Sum(b.cloudBy, Amount) == t.billed && Sum(b.latencyBy, Amount) == t.latencyMs
  }

  lemma RenamedKeepsSum(m: map<string, int>)
    ensures Sum(Renamed(m), Count) == Sum(m, Count)
  {
    if BARE in m {
      SumTakes(m, BARE, Count);
      BumpAdds(m - {BARE}, LEGACY, m[BARE]);
    }
  }

  lemma AddConserves(s: State, r: Record)
    requires Conserved(s)
    ensures Conserved(Add(s, r))
  {
    AddConservesCounts(s.totals, s.parts, r);
    AddConservesAmounts(s.totals, s.parts, r);
  }

  lemma AddConservesCounts(t: Totals, b: Breakdowns, r: Record)
    requires CountsConserved(t, b)
    ensures CountsConserved(AddToTotals(t, r), AddToBreakdowns(b, r))
  {
    BumpAdds(b.callsBy, r.call.backend, 1);
    BumpAdds(b.callsBySource, r.call.source, 1);
    BumpAdds(b.tokensBy, r.call.backend, r.call.tokensIn + r.call.tokensOut);
  }

  lemma AddConservesAmounts(t: Totals, b: Breakdowns, r: Record)
    requires AmountsConserved(t, b)
    ensures AmountsConserved(AddToTotals(t, r), AddToBreakdowns(b, r))
  {
    BumpRealAdds(b.cloudBy, r.call.backend, r.billed);
    BumpRealAdds(b.latencyBy, r.call.backend, r.call.latencyMs);
  }

  /** In every run of calls and restarts, at whatever rates, the breakdowns add up to the totals. */
  lemma {:induction false} RunConserves(cfg: Config, ops: seq<Op>)
    ensures Conserved(Run(cfg, ops))
  {
    if ops != [] {
      var s := Run(cfg, ops[..|ops| - 1]);
      RunConserves(cfg, ops[..|ops| - 1]);
      match ops[|ops| - 1]
      case Tracked(call) => AddConserves(s, RecordOf(InForce(cfg, ops), call));
      case Restarted(rate) => RenamedKeepsSum(s.parts.callsBySource);
    }
  }

  // ----- the energy floor -----

  /** Rates and tables that are not negative. */
  ghost predicate Sensible(cfg: Config) {
    cfg.energyRate >= 0.0 && forall b :: cfg.joules(b) >= 0.0
  }

  lemma TokenEnergyAdds(cfg: Config, backend: string, a: int, b: int)
    ensures TokenEnergy(cfg, backend, a + b) == TokenEnergy(cfg, backend, a) + TokenEnergy(cfg, backend, b)
    ensures TokenEnergy(cfg, backend, 0) == 0.0
  {
  }

  /** One more call raises the floor by its own token energy. */
  lemma FloorGrows(cfg: Config, tokensBy: map<string, int>, backend: string, tokens: int)
    ensures Floor(cfg, Bump(tokensBy, backend, tokens)) == Floor(cfg, tokensBy) + TokenEnergy(cfg, backend, tokens)
  {
    var had := if backend in tokensBy then tokensBy[backend] else 0;
    SumPut(tokensBy, backend, had + tokens, InTokenEnergy(cfg));
    TokenEnergyAdds(cfg, backend, had, tokens);
  }

  lemma EnergyAboveFloor(cfg: Config, call: Call)
    ensures Energy(cfg, call) >= TokenEnergy(cfg, call.backend, call.tokensIn + call.tokensOut)
    ensures Sensible(cfg) ==> TokenEnergy(cfg, call.backend, call.tokensIn + call.tokensOut) >= 0.0
  {
  }

  /** Every run keeps at one rate. */
  ghost predicate SameRate(cfg: Config, ops: seq<Op>) {
    forall i :: 0 <= i < |ops| && ops[i].Restarted? ==> ops[i].energyRate == cfg.energyRate
  }

  lemma {:induction false} SameRateInForce(cfg: Config, ops: seq<Op>)
    requires SameRate(cfg, ops)
    ensures InForce(cfg, ops) == cfg
  {
    if ops != [] {
      SameRateInForce(cfg, ops[..|ops| - 1]);
    }
  }

  /** The energy is no less than the token floor, and the savings are what the energy leaves of the bill. */
  ghost predicate AboveFloor(cfg: Config, s: State) {
    s.totals.energy >= Floor(cfg, s.parts.tokensBy) >= 0.0 && s.totals.savings == s.totals.billed - s.totals.energy
  }

  lemma AddStaysAboveFloor(cfg: Config, s: State, r: Record)
    requires AboveFloor(cfg, s) && r.savings == r.billed - r.energy
    requires r.energy >= TokenEnergy(cfg, r.call.backend, r.call.tokensIn + r.call.tokensOut) >= 0.0
    ensures AboveFloor(cfg, Add(s, r))
  {
    FloorGrows(cfg, s.parts.tokensBy, r.call.backend, r.call.tokensIn + r.call.tokensOut);
  }

  lemma NotReconciled(cfg: Config, s: State)
    requires AboveFloor(cfg, s)
    ensures Reconciled(cfg, s.parts.tokensBy, s.totals.energy) == s.totals.energy
  {
  }

  /** At one rate the energy recorded never falls below the token floor, so a load never rewrites it. */
  lemma {:induction false} EnergyStaysAboveFloor(cfg: Config, ops: seq<Op>)
    requires Sensible(cfg) && SameRate(cfg, ops)
    ensures AboveFloor(cfg, Run(cfg, ops))
    ensures Reconciled(cfg, Run(cfg, ops).parts.tokensBy, Run(cfg, ops).totals.energy) == Run(cfg, ops).totals.energy
  {
    if ops != [] {
      var n := |ops| - 1;
      EnergyStaysAboveFloor(cfg, ops[..n]);
      SameRateInForce(cfg, ops);
      match ops[n]
      case Tracked(call) =>
        EnergyAboveFloor(cfg, call);
        AddStaysAboveFloor(cfg, Run(cfg, ops[..n]), RecordOf(cfg, call));
      case Restarted(_) =>
    }
    NotReconciled(cfg, Run(cfg, ops));
  }

  /** Saved and loaded at its own rate, a tracker is what it was exactly when no bare agent bucket is in it. */
  lemma ReloadIsIdentityIff(cfg: Config, ops: seq<Op>)
    requires Sensible(cfg) && SameRate(cfg, ops)
    ensures Reload(cfg, Run(cfg, ops)) == Run(cfg, ops) <==> BARE !in Run(cfg, ops).parts.callsBySource
  {
    RunConserves(cfg, ops);
    EnergyStaysAboveFloor(cfg, ops);
    assert BARE !in Renamed(Run(cfg, ops).parts.callsBySource);
  }

  /** The bare bucket is there exactly when a call left its source at the default since the last restart. */
  lemma {:induction false} BareBucketIff(cfg: Config, ops: seq<Op>)
    ensures BARE in Run(cfg, ops).parts.callsBySource <==> DefaultSourceSinceRestart(ops)
  {
    if ops != [] {
      BareBucketIff(cfg, ops[..|ops| - 1]);
    }
  }

  predicate DefaultSourceSinceRestart(ops: seq<Op>) {
    ops != [] && ops[|ops| - 1].Tracked?
    && (ops[|ops| - 1].call.source == BARE || DefaultSourceSinceRestart(ops[..|ops| - 1]))
  }

  /**
   Loading is settled after one load: whatever the first changed, a second one changes nothing. The cloud total
   is then the billed usage, whatever was written beside it.
   */
  lemma ReloadIsSettled(cfg: Config, s: State)
    ensures Reload(cfg, Reload(cfg, s)) == Reload(cfg, s)
    ensures Reload(cfg, s).totals.cloud == Reload(cfg, s).totals.billed == s.totals.billed
  {
  }

  lemma Distribute(a: real, b: real, c: real)
    ensures (a + b) * c == a * c + b * c
  {
  }

  lemma {:induction false} SumSame<T>(m: map<string, T>, f: (string, T) -> real, g: (string, T) -> real)
    requires forall k :: k in m ==> g(k, m[k]) == f(k, m[k])
    ensures Sum(m, g) == Sum(m, f)
    decreases |m|
  {
    if m != map[] {
      var k :| k in m;
      Smaller(m, k);
      SumSame(m - {k}, f, g);
      SumTakes(m, k, f);
      SumTakes(m, k, g);
    }
  }

  ghost function Times<T>(f: (string, T) -> real, times: real): (string, T) -> real {
    (k, v) => f(k, v) * times
  }

  lemma {:induction false} SumScales<T>(m: map<string, T>, f: (string, T) -> real, times: real)
    ensures Sum(m, Times(f, times)) == Sum(m, f) * times
    decreases |m|
  {
    if m != map[] {
      var k :| k in m;
      Smaller(m, k);
      SumScales(m - {k}, f, times);
      SumTakes(m, k, f);
      SumTakes(m, k, Times(f, times));
      Distribute(f(k, m[k]), Sum(m - {k}, f), times);
    }
  }

  lemma WeighScales(cfg: Config, times: real, backend: string, tokens: int)
    ensures InTokenEnergy(cfg.(energyRate := cfg.energyRate * times))(backend, tokens)
            == Times(InTokenEnergy(cfg), times)(backend, tokens)
  {
  }

  /** How the floor moves with the rate. */
  lemma FloorScales(cfg: Config, tokensBy: map<string, int>, times: real)
    ensures Floor(cfg.(energyRate := cfg.energyRate * times), tokensBy) == Floor(cfg, tokensBy) * times
  {
    var f, g := InTokenEnergy(cfg), InTokenEnergy(cfg.(energyRate := cfg.energyRate * times));
    forall k | k in tokensBy ensures g(k, tokensBy[k]) == Times(f, times)(k, tokensBy[k]) {
      WeighScales(cfg, times, k, tokensBy[k]);
    }
    SumSame(tokensBy, Times(f, times), g);
    SumScales(tokensBy, f, times);
  }

  /** The token floor of some totals at a rate of one. */
  ghost function UnitFloor(cfg: Config, tokensBy: map<string, int>): real {
    Floor(cfg.(energyRate := 1.0), tokensBy)
  }

  ghost function FloorAt(cfg: Config, tokensBy: map<string, int>, rate: real): real {
    UnitFloor(cfg, tokensBy) * rate
  }

  lemma FloorAtRate(cfg: Config, tokensBy: map<string, int>, rate: real)
    ensures Floor(cfg.(energyRate := rate), tokensBy) == FloorAt(cfg, tokensBy, rate)
  {
    FloorScales(cfg.(energyRate := 1.0), tokensBy, rate);
    assert cfg.(energyRate := 1.0).(energyRate := 1.0 * rate) == cfg.(energyRate := rate);
  }

  /** What a load at `rate` would take for the energy: too far above what is recorded, and not what it rounds to. */
  ghost predicate Rewrites(cfg: Config, s: State, rate: real) {
    var floor := FloorAt(cfg, s.parts.tokensBy, rate);
    floor > s.totals.energy * 5.0 && cfg.round6(floor) != s.totals.energy
  }

  /**
   After every run of calls and restarts, at whatever rates, one more restart leaves the energy as it was
   exactly when the token floor at the new rate is at most five times that energy, or rounds to it.
   */
  lemma RestartKeepsEnergyIff(cfg: Config, ops: seq<Op>, rate: real)
    ensures Run(cfg, ops + [Restarted(rate)]).totals.energy == Run(cfg, ops).totals.energy <==> !Rewrites(cfg, Run(cfg, ops), rate)
    ensures Rewrites(cfg, Run(cfg, ops), rate) ==>
              Run(cfg, ops + [Restarted(rate)]).totals.energy == cfg.round6(FloorAt(cfg, Run(cfg, ops).parts.tokensBy, rate))
  {
    OneMoreRestart(cfg, ops, rate);
    ReconciledAt(cfg, Run(cfg, ops), rate);
  }

  lemma OneMoreRestart(cfg: Config, ops: seq<Op>, rate: real)
    ensures Run(cfg, ops + [Restarted(rate)]) == Reload(cfg.(energyRate := rate), Run(cfg, ops))
  {
    var all := ops + [Restarted(rate)];
    assert all[..|all| - 1] == ops && InForce(cfg, all) == cfg.(energyRate := rate);
  }

  lemma ReconciledAt(cfg: Config, s: State, rate: real)
    ensures Reload(cfg.(energyRate := rate), s).totals.energy ==
            if Rewrites(cfg, s, rate) then cfg.round6(FloorAt(cfg, s.parts.tokensBy, rate)) else s.totals.energy
  {
    FloorAtRate(cfg, s.parts.tokensBy, rate);
  }

  /** In terms of the rate: with tokens to account for, the threshold is five times the energy per unit of floor. */
  lemma RewriteThreshold(cfg: Config, s: State, rate: real)
    requires UnitFloor(cfg, s.parts.tokensBy) > 0.0
    ensures Rewrites(cfg, s, rate) <==>
            && rate > s.totals.energy * 5.0 / UnitFloor(cfg, s.parts.tokensBy)
            && cfg.round6(FloorAt(cfg, s.parts.tokensBy, rate)) != s.totals.energy
  {
    AboveQuotient(UnitFloor(cfg, s.parts.tokensBy), rate, s.totals.energy * 5.0);
  }

  lemma AboveQuotient(a: real, b: real, c: real)
    requires a > 0.0
    ensures a * b > c <==> b > c / a
  {
    QuotientTimes(a, c);
    Spread(a, b, c / a);
    if b != c / a {
      Product(a, b - c / a);
    }
  }

  lemma QuotientTimes(a: real, c: real)
    requires a > 0.0
    ensures a * (c / a) == c
  {
  }

  lemma Spread(a: real, b: real, c: real)
    ensures a * (b - c) == a * b - a * c
  {
  }

  lemma ScalesInOrder(floor: real, energy: real, times: real)
    requires energy >= floor >= 0.0
    ensures times <= 5.0 ==> floor * times <= energy * 5.0
    ensures floor == energy > 0.0 ==> (floor * times > energy * 5.0 <==> times > 5.0)
  {
    Product(floor, 5.0 - times);
    Spread(floor, 5.0, times);
  }

  /** A product has the sign of its second factor, if the first is positive. */
  lemma Product(a: real, b: real)
    ensures a >= 0.0 && b >= 0.0 ==> a * b >= 0.0
    ensures a > 0.0 && b < 0.0 ==> a * b < 0.0
    ensures a > 0.0 && b > 0.0 ==> a * b > 0.0
  {
  }

  /** A restart at up to five times the rate leaves the energy alone; beyond that it rewrites it, if it was all token floor. */
  lemma RateUpToFiveTimes(cfg: Config, ops: seq<Op>, times: real)
    requires Sensible(cfg) && SameRate(cfg, ops)
    ensures var s := Run(cfg, ops); var raised := cfg.(energyRate := cfg.energyRate * times);
            && (times <= 5.0 ==> Reconciled(raised, s.parts.tokensBy, s.totals.energy) == s.totals.energy)
            && (s.totals.energy == Floor(cfg, s.parts.tokensBy) > 0.0 ==>
                 (Floor(raised, s.parts.tokensBy) > s.totals.energy * 5.0 <==> times > 5.0))
  {
    EnergyStaysAboveFloor(cfg, ops);
    RateUpTo(cfg, Run(cfg, ops), times);
  }

  lemma RateUpTo(cfg: Config, s: State, times: real)
    requires s.totals.energy >= Floor(cfg, s.parts.tokensBy) >= 0.0
    ensures var raised := cfg.(energyRate := cfg.energyRate * times);
            && (times <= 5.0 ==> Reconciled(raised, s.parts.tokensBy, s.totals.energy) == s.totals.energy)
            && (s.totals.energy == Floor(cfg, s.parts.tokensBy) > 0.0 ==>
                 (Floor(raised, s.parts.tokensBy) > s.totals.energy * 5.0 <==> times > 5.0))
  {
    FloorScales(cfg, s.parts.tokensBy, times);
    ScalesInOrder(Floor(cfg, s.parts.tokensBy), s.totals.energy, times);
  }

  /** At a negative rate one call whose token energy is the larger is enough for a rewrite. */
  lemma NegativeRateReconciles(cfg: Config, call: Call)
    requires LatencyEnergy(cfg, call) <= TokenEnergy(cfg, call.backend, call.tokensIn + call.tokensOut) < 0.0
    ensures var s := Track(cfg, EMPTY, call);
            && Floor(cfg, s.parts.tokensBy) > s.totals.energy * 5.0
            && Reconciled(cfg, s.parts.tokensBy, s.totals.energy) == cfg.round6(s.totals.energy)
            && (Rewrites(cfg, s, cfg.energyRate) <==> cfg.round6(s.totals.energy) != s.totals.energy)
  {
    FloorGrows(cfg, map[], call.backend, call.tokensIn + call.tokensOut);
    FloorAtRate(cfg, Track(cfg, EMPTY, call).parts.tokensBy, cfg.energyRate);
    assert cfg.(energyRate := cfg.energyRate) == cfg;
    var s := Track(cfg, EMPTY, call);
    assert FloorAt(cfg, s.parts.tokensBy, cfg.energyRate) == s.totals.energy;
  }

  /** And one whose latency energy is zero is not: the energy recorded is then above its negative floor. */
  lemma NegativeRateCanKeep(cfg: Config, call: Call)
    requires LatencyEnergy(cfg, call) == 0.0 >= TokenEnergy(cfg, call.backend, call.tokensIn + call.tokensOut)
    ensures !Rewrites(cfg, Track(cfg, EMPTY, call), cfg.energyRate)
  {
    FloorGrows(cfg, map[], call.backend, call.tokensIn + call.tokensOut);
    FloorAtRate(cfg, Track(cfg, EMPTY, call).parts.tokensBy, cfg.energyRate);
    assert cfg.(energyRate := cfg.energyRate) == cfg;
  }

  // ----- the history -----

  /** Every record made, in order. */
  function Made(cfg: Config, ops: seq<Op>): seq<Record> {
    if ops == [] then []
    else
      Made(cfg, ops[..|ops| - 1]) + MadeBy(InForce(cfg, ops), ops[|ops| - 1])
  }

  function MadeBy(cfg: Config, op: Op): seq<Record> {
    if op.Tracked? then [RecordOf(cfg, op.call)] else []
  }

  lemma LastOfMore(records: seq<Record>, r: Record)
    ensures LastOf(LastOf(records) + [r]) == LastOf(records + [r])
  {
  }

  lemma LastOfLast(records: seq<Record>)
    ensures LastOf(LastOf(records)) == LastOf(records)
  {
  }

  /** Through restarts too, the history is the last 500 records made. */
  lemma {:induction false} HistoryIsLastMade(cfg: Config, ops: seq<Op>)
    ensures Run(cfg, ops).history == LastOf(Made(cfg, ops))
  {
    if ops != [] {
      var n := |ops| - 1;
      HistoryIsLastMade(cfg, ops[..n]);
      StepHistory(InForce(cfg, ops), Run(cfg, ops[..n]), Made(cfg, ops[..n]), ops[n]);
    }
  }

  lemma StepHistory(cfg: Config, s: State, made: seq<Record>, op: Op)
    requires s.history == LastOf(made)
    ensures Step(cfg, s, op).history == LastOf(made + MadeBy(cfg, op))
  {
    match op
    case Tracked(call) => LastOfMore(made, RecordOf(cfg, call));
    case Restarted(_) =>
      LastOfLast(made);
      assert made + [] == made;
  }

  // ----- the totals against the records -----

  /** One figure summed over records. */
  function Tally(records: seq<Record>, figure: Record -> real): real {
    if records == [] then 0.0 else Tally(records[..|records| - 1], figure) + figure(records[|records| - 1])
  }

  function One(r: Record): real { 1.0 }
  function TokensIn(r: Record): real { r.call.tokensIn as real }
  function TokensOut(r: Record): real { r.call.tokensOut as real }
  function AllTokens(r: Record): real { (r.call.tokensIn + r.call.tokensOut) as real }
  function RawFigure(r: Record): real { r.rawCloud }
  function BilledFigure(r: Record): real { r.billed }
  function Latency(r: Record): real { r.call.latencyMs }
  function SavedFigure(r: Record): real { r.savings }
  function CacheRead(r: Record): real { r.call.cacheRead as real }
  function CacheCreation(r: Record): real { r.call.cacheCreation as real }

  /** The figure summed over a backend's own records. */
  function Share(records: seq<Record>, backend: string, figure: Record -> real): real {
    if records == [] then 0.0
    else
      var last := records[|records| - 1];
      Share(records[..|records| - 1], backend, figure) + if last.call.backend == backend then figure(last) else 0.0
  }

  lemma TallyMore(records: seq<Record>, r: Record, figure: Record -> real)
    ensures Tally(records + [r], figure) == Tally(records, figure) + figure(r)
  {
    assert (records + [r])[..|records|] == records;
  }

  lemma ShareMore(records: seq<Record>, r: Record, backend: string, figure: Record -> real)
    ensures Share(records + [r], backend, figure)
            == Share(records, backend, figure) + if r.call.backend == backend then figure(r) else 0.0
  {
    assert (records + [r])[..|records|] == records;
  }

  /** The running totals that a load never rewrites, as figures of a record. */
  ghost predicate TotalsFit(t: Totals, made: seq<Record>) {
    && t.tokensIn as real == Tally(made, TokensIn)
    && t.tokensOut as real == Tally(made, TokensOut)
    && t.rawCloud == Tally(made, RawFigure)
    && t.cloud == t.billed == Tally(made, BilledFigure)
    && t.latencyMs == Tally(made, Latency)
    && t.savings == Tally(made, SavedFigure)
    && t.cacheRead as real == Tally(made, CacheRead)
    && t.cacheCreation as real == Tally(made, CacheCreation)
    && t.calls == |made|
  }

  function CountAt(m: map<string, int>, key: string): real {
    if key in m then m[key] as real else 0.0
  }

  function AmountAt(m: map<string, real>, key: string): real {
    if key in m then m[key] else 0.0
  }

  /** A backend's share of each breakdown is the figure summed over its own records. */
  ghost predicate SharesFit(parts: Breakdowns, made: seq<Record>, backend: string) {
    && CountAt(parts.callsBy, backend) == Share(made, backend, One)
    && CountAt(parts.tokensBy, backend) == Share(made, backend, AllTokens)
    && AmountAt(parts.cloudBy, backend) == Share(made, backend, BilledFigure)
    && AmountAt(parts.latencyBy, backend) == Share(made, backend, Latency)
  }

  lemma AddFitsTotals(t: Totals, made: seq<Record>, r: Record)
    requires TotalsFit(t, made)
    ensures TotalsFit(AddToTotals(t, r), made + [r])
  {
    TallyMore(made, r, TokensIn);
    TallyMore(made, r, TokensOut);
    TallyMore(made, r, RawFigure);
    TallyMore(made, r, BilledFigure);
    TallyMore(made, r, Latency);
    TallyMore(made, r, SavedFigure);
    TallyMore(made, r, CacheRead);
    TallyMore(made, r, CacheCreation);
  }

  lemma AddFitsShares(parts: Breakdowns, made: seq<Record>, r: Record, backend: string)
    requires SharesFit(parts, made, backend)
    ensures SharesFit(AddToBreakdowns(parts, r), made + [r], backend)
  {
    ShareMore(made, r, backend, One);
    ShareMore(made, r, backend, AllTokens);
    ShareMore(made, r, backend, BilledFigure);
    ShareMore(made, r, backend, Latency);
  }

  /** In every run of calls and restarts the totals, and each backend's shares, are those of the records made. */
  lemma {:induction false} TotalsAreThoseOfTheRecords(cfg: Config, ops: seq<Op>, backend: string)
    ensures TotalsFit(Run(cfg, ops).totals, Made(cfg, ops))
    ensures SharesFit(Run(cfg, ops).parts, Made(cfg, ops), backend)
  {
    if ops != [] {
      var before := ops[..|ops| - 1];
      TotalsAreThoseOfTheRecords(cfg, before, backend);
      match ops[|ops| - 1]
      case Tracked(call) =>
        AddFitsTotals(Run(cfg, before).totals, Made(cfg, before), RecordOf(InForce(cfg, ops), call));
        AddFitsShares(Run(cfg, before).parts, Made(cfg, before), RecordOf(InForce(cfg, ops), call), backend);
      case Restarted(_) =>
        assert Made(cfg, ops) == Made(cfg, before);
    }
  }

  /** How many of the records are of this source, or of these two. */
  function CountFrom(records: seq<Record>, one: string, other: string): int {
    if records == [] then 0
    else
      var last := records[|records| - 1];
      CountFrom(records[..|records| - 1], one, other) + if last.call.source == one || last.call.source == other then 1 else 0
  }

  function CountDeep(records: seq<Record>, depth: int): int {
    if records == [] then 0
    else
      var last := records[|records| - 1];
      CountDeep(records[..|records| - 1], depth) + if last.call.recapDepth == Some(depth) then 1 else 0
  }

  function CallsFrom(m: map<string, int>, source: string): int {
    if source in m then m[source] else 0
  }

  function CallsDeep(m: map<int, int>, depth: int): int {
    if depth in m then m[depth] else 0
  }

  lemma CountMore(records: seq<Record>, r: Record, one: string, other: string, depth: int)
    ensures CountFrom(records + [r], one, other)
            == CountFrom(records, one, other) + if r.call.source == one || r.call.source == other then 1 else 0
    ensures CountDeep(records + [r], depth) == CountDeep(records, depth) + if r.call.recapDepth == Some(depth) then 1 else 0
  {
    assert (records + [r])[..|records|] == records;
  }

  /** A source's count, the bare agent bucket and its new name taken together, and the count of calls at a depth. */
  ghost predicate CountsFit(parts: Breakdowns, made: seq<Record>, source: string, depth: int) {
    && (source != BARE && source != LEGACY ==> CallsFrom(parts.callsBySource, source) == CountFrom(made, source, source))
    && CallsFrom(parts.callsBySource, BARE) + CallsFrom(parts.callsBySource, LEGACY) == CountFrom(made, BARE, LEGACY)
    && CallsDeep(parts.callsByDepth, depth) == CountDeep(made, depth)
  }

  lemma BumpedCalls(b: Breakdowns, r: Record, source: string, depth: int)
    ensures var after := AddToBreakdowns(b, r);
            && CallsFrom(after.callsBySource, source) == CallsFrom(b.callsBySource, source) + (if r.call.source == source then 1 else 0)
            && CallsDeep(after.callsByDepth, depth) == CallsDeep(b.callsByDepth, depth) + if r.call.recapDepth == Some(depth) then 1 else 0
  {
  }

  lemma AddFitsCounts(parts: Breakdowns, made: seq<Record>, r: Record, source: string, depth: int)
    requires CountsFit(parts, made, source, depth)
    ensures CountsFit(AddToBreakdowns(parts, r), made + [r], source, depth)
  {
    CountMore(made, r, source, source, depth);
    CountMore(made, r, BARE, LEGACY, depth);
    BumpedCalls(parts, r, source, depth);
    BumpedCalls(parts, r, BARE, depth);
    BumpedCalls(parts, r, LEGACY, depth);
  }

  lemma RenameFitsCounts(parts: Breakdowns, made: seq<Record>, source: string, depth: int)
    requires CountsFit(parts, made, source, depth)
    ensures CountsFit(parts.(callsBySource := Renamed(parts.callsBySource)), made, source, depth)
  {
    assert BARE != LEGACY;
  }

  /** What the rename makes of the counts by source: the bare bucket goes, its calls to the new name, if it held any. */
  lemma RenameIs(m: map<string, int>, source: string)
    ensures BARE !in Renamed(m)
    ensures LEGACY in Renamed(m) <==> LEGACY in m || (BARE in m && m[BARE] != 0)
    ensures CallsFrom(Renamed(m), LEGACY) == CallsFrom(m, LEGACY) + CallsFrom(m, BARE)
    ensures source != BARE && source != LEGACY ==>
              (source in Renamed(m) <==> source in m) && (source in m ==> Renamed(m)[source] == m[source])
  {
    assert BARE != LEGACY;
  }

  lemma StepFitsCounts(cfg: Config, s: State, made: seq<Record>, op: Op, source: string, depth: int)
    requires CountsFit(s.parts, made, source, depth)
    ensures CountsFit(Step(cfg, s, op).parts, made + MadeBy(cfg, op), source, depth)
  {
    match op
    case Tracked(call) => AddFitsCounts(s.parts, made, RecordOf(cfg, call), source, depth);
    case Restarted(_) =>
      RenameFitsCounts(s.parts, made, source, depth);
      assert made + [] == made;
  }

  /** In every run of calls and restarts the calls counted for a source and at a depth are the records made of it. */
  lemma {:induction false} CountsAreThoseOfTheRecords(cfg: Config, ops: seq<Op>, source: string, depth: int)
    ensures CountsFit(Run(cfg, ops).parts, Made(cfg, ops), source, depth)
  {
    if ops != [] {
      var n := |ops| - 1;
      CountsAreThoseOfTheRecords(cfg, ops[..n], source, depth);
      StepFitsCounts(InForce(cfg, ops), Run(cfg, ops[..n]), Made(cfg, ops[..n]), ops[n], source, depth);
    }
  }

  // ----- the tracker, updated in place -----

  /** The tracker's attributes, grouped as the state is. */
  class CostTracker {
    const cfg: Config
    var totals: Totals
    var parts: Breakdowns
    var history: seq<Record>

    function Abstract(): State
      reads this
    {
      State(totals, parts, history)
    }

    constructor (cfg: Config)
      ensures this.cfg == cfg && Abstract() == EMPTY
    {
      this.cfg := cfg;
      totals, parts, history := EMPTY.totals, EMPTY.parts, [];
    }

    method TrackCall(call: Call) returns (r: Record)
      modifies this
      ensures Abstract() == Track(cfg, old(Abstract()), call) && r == RecordOf(cfg, call)
    {
      r := RecordOf(cfg, call);
      Accumulate(r);
      Attribute(r);
      history := history + [r];
      if |history| > HISTORY_MAX {
        history := history[|history| - HISTORY_MAX..];
      }
    }

    method Accumulate(r: Record)
      modifies this`totals
      ensures totals == AddToTotals(old(totals), r)
    {
      var t := totals;
      t := t.(tokensIn := t.tokensIn + r.call.tokensIn, tokensOut := t.tokensOut + r.call.tokensOut);
      t := t.(rawCloud := t.rawCloud + r.rawCloud, billed := t.billed + r.billed);
      t := t.(cloud := t.billed);
      t := t.(energy := t.energy + r.energy, savings := t.savings + r.savings);
      t := t.(calls := t.calls + 1, latencyMs := t.latencyMs + r.call.latencyMs);
      totals := t.(cacheRead := t.cacheRead + r.call.cacheRead, cacheCreation := t.cacheCreation + r.call.cacheCreation);
    }

    method Attribute(r: Record)
      modifies this`parts
      ensures parts == AddToBreakdowns(old(parts), r)
    {
      var b, c := parts, r.call;
      var latencyBy, callsBy := BumpReal(b.latencyBy, c.backend, c.latencyMs), Bump(b.callsBy, c.backend, 1);
      var callsBySource := Bump(b.callsBySource, c.source, 1);
      var tokensBy := Bump(b.tokensBy, c.backend, c.tokensIn + c.tokensOut);
      var cloudBy := BumpReal(b.cloudBy, c.backend, r.billed);
      var callsByDepth := BumpDepth(b.callsByDepth, c.recapDepth);
      parts := Breakdowns(latencyBy, callsBy, callsBySource, tokensBy, cloudBy, callsByDepth);
    }

    static method BumpDepth(was: map<int, int>, depth: Option<int>) returns (now: map<int, int>)
      ensures now == AtDepth(was, depth)
    {
      now := was;
      if depth.Some? {
        var d := depth.value;
        now := now[d := (if d in now then now[d] else 0) + 1];
      }
    }

    /** The loop over the backends that rebuilds the energy estimate. */
    method FloorOf(tokensBy: map<string, int>) returns (floor: real)
      ensures floor == Floor(cfg, tokensBy)
    {
      floor := 0.0;
      var left := tokensBy.Keys;
      assert tokensBy - left == map[];
      while left != {}
        invariant left <= tokensBy.Keys && floor == Floor(cfg, tokensBy - left)
        decreases |left|
      {
        var k :| k in left;
        assert tokensBy - (left - {k}) - {k} == tokensBy - left;
        SumTakes(tokensBy - (left - {k}), k, InTokenEnergy(cfg));
        floor := floor + TokenEnergy(cfg, k, tokensBy[k]);
        left := left - {k};
      }
      assert tokensBy - left == tokensBy;
    }

    /** `_load`, from a document `_save` wrote. */
    method Load(saved: State)
      modifies this
      ensures Abstract() == Reload(cfg, saved)
    {
      totals := saved.totals.(cloud := saved.totals.billed);
      var bySource := saved.parts.callsBySource;
      if BARE in bySource {
        var n := bySource[BARE];
        bySource := bySource - {BARE};
        if n != 0 {
          bySource := Bump(bySource, LEGACY, n);
        }
      }
      parts := saved.parts.(callsBySource := bySource);
      history := LastOf(saved.history);
      var floor := FloorOf(parts.tokensBy);
      if floor > totals.energy * 5.0 {
        totals := totals.(energy := cfg.round6(floor));
      }
    }
  }
}
