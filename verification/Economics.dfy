/** The cost model and the controller that flushes or holds a batch. Dollars, rates and times are
    reals, so rounding is not modelled. */
module Economics {
  import opened Basics

  datatype ModelEconomics = ModelEconomics(baseInput: real, writeMult: real, readMult: real, minCacheFloor: nat)

  datatype CacheState = CacheState(lastRequest: real, ttl: real)

  datatype Cost = Cost(dollars: real, tokens: nat)

  datatype Candidate = Candidate(suffixTokens: nat, netRemoved: int, qualityGain: real, refId: string)

  // ---- pricing ----

  function Idle(cache: CacheState, now: real): real { now - cache.lastRequest }

  predicate IsCold(cache: CacheState, now: real) { Idle(cache, now) >= cache.ttl }

  function Clamp(x: real): real { if x < 0.0 then 0.0 else if x > 1.0 then 1.0 else x }

  /** Dividing by a zero time-to-live gives an infinity whose sign is that of the idle time; a warm
      cache of that kind has been idle for less than nothing. */
  function PAlive(cache: CacheState, now: real): (p: real)
    ensures 0.0 <= p <= 1.0
  {
    if cache.ttl == 0.0 then (if Idle(cache, now) < 0.0 then 1.0 else 0.0)
    else Clamp(1.0 - Idle(cache, now) / cache.ttl)
  }

  function MaxSuffix(batch: seq<Candidate>): nat {
    if batch == [] then 0
    else
      var rest := MaxSuffix(batch[1..]);
      if batch[0].suffixTokens > rest then batch[0].suffixTokens else rest
  }

  function TotalRemoved(batch: seq<Candidate>): int {
    if batch == [] then 0 else batch[0].netRemoved + TotalRemoved(batch[1..])
  }

  function TotalQuality(batch: seq<Candidate>): real {
    if batch == [] then 0.0 else batch[0].qualityGain + TotalQuality(batch[1..])
  }

  function BustCost(batch: seq<Candidate>, cache: CacheState, econ: ModelEconomics, now: real): Cost {
    if IsCold(cache, now) then Cost(0.0, 0)
    else
      Cost(MaxSuffix(batch) as real * econ.baseInput * (econ.writeMult - econ.readMult) * PAlive(cache, now),
           MaxSuffix(batch))
  }

  function RecurringSaving(batch: seq<Candidate>, econ: ModelEconomics, turns: real): Cost {
    var removed := TotalRemoved(batch);
    Cost(turns * removed as real * econ.baseInput * econ.readMult,
         if removed < 0 then 0 else removed % 0x1_0000_0000)
  }

  function Npv(batch: seq<Candidate>, cache: CacheState, econ: ModelEconomics, turns: real, now: real): real {
    RecurringSaving(batch, econ, turns).dollars + TotalQuality(batch) - BustCost(batch, cache, econ, now).dollars
  }

  // ---- the controller ----

  datatype Trigger = Cold | ModelSwitch | NativeCompaction

  datatype HoldReason = SubFloor | WarmDeep

  datatype Verdict =
    | Flush(batch: seq<Candidate>, bust: Cost, saving: Cost)
    | Hold(reason: HoldReason)
    | RideFreeBust(batch: seq<Candidate>, trigger: Trigger)

  datatype Prompt = Prompt(tokens: seq<nat>, freeBust: Option<Trigger>)

  /** `scale` calibrates a token estimate. */
  datatype Controller = Controller(
    econ: ModelEconomics, cache: CacheState, remainingTurns: real, npvFloor: real, scale: nat -> nat)
  {
    function Prefix(tokens: seq<nat>): nat {
      if tokens == [] then 0 else scale(tokens[0]) + Prefix(tokens[1..])
    }

    predicate BelowFloor(prompt: Prompt, pending: seq<Candidate>) {
      Prefix(prompt.tokens) - TotalRemoved(pending) < econ.minCacheFloor
    }

    function Decide(prompt: Prompt, pending: seq<Candidate>, now: real): Verdict {
      if pending == [] then Hold(WarmDeep)
      else if BelowFloor(prompt, pending) then Hold(SubFloor)
      else if IsCold(cache, now) then RideFreeBust(pending, Cold)
      else if prompt.freeBust.Some? then RideFreeBust(pending, prompt.freeBust.value)
      else if Npv(pending, cache, econ, remainingTurns, now) > npvFloor then
        Flush(pending, BustCost(pending, cache, econ, now), RecurringSaving(pending, econ, remainingTurns))
      else Hold(WarmDeep)
    }
  }

  // ---- a batch against its candidates ----

  function SumSuffix(batch: seq<Candidate>): nat {
    if batch == [] then 0 else batch[0].suffixTokens + SumSuffix(batch[1..])
  }

  /** The candidates priced one at a time, as the per-candidate gate prices them. */
  function SumNpv(batch: seq<Candidate>, cache: CacheState, econ: ModelEconomics, turns: real, now: real): real {
    if batch == [] then 0.0
    else Npv([batch[0]], cache, econ, turns, now) + SumNpv(batch[1..], cache, econ, turns, now)
  }

  /** What busting one token of suffix costs. */
  function Rate(cache: CacheState, econ: ModelEconomics, now: real): real {
    if IsCold(cache, now) then 0.0 else econ.baseInput * (econ.writeMult - econ.readMult) * PAlive(cache, now)
  }

  /** The batch busts the longest of its candidates' suffixes. */
  lemma {:induction false} MaxSuffixIsLargest(batch: seq<Candidate>)
    ensures forall c :: c in batch ==> c.suffixTokens <= MaxSuffix(batch)
    ensures batch != [] ==> exists c :: c in batch && c.suffixTokens == MaxSuffix(batch)
    ensures batch == [] ==> MaxSuffix(batch) == 0
  {
    if batch != [] {
      MaxSuffixIsLargest(batch[1..]);
      assert batch == [batch[0]] + batch[1..];
      if MaxSuffix(batch) == batch[0].suffixTokens {
        assert batch[0] in batch;
      } else {
        var c :| c in batch[1..] && c.suffixTokens == MaxSuffix(batch[1..]);
        assert c in batch;
      }
    }
  }

  lemma Quotient(a: real, b: real)
    requires b > 0.0
    ensures a >= b <==> a / b >= 1.0
    ensures a <= 0.0 <==> a / b <= 0.0
  {
    var q := a / b;
    assert q * b == a;
    if q >= 1.0 { assert (q - 1.0) * b >= 0.0; } else { assert (1.0 - q) * b > 0.0; }
    if q <= 0.0 { assert (0.0 - q) * b >= 0.0; } else { assert q * b > 0.0; }
  }

  /** Under a positive time-to-live, the survival probability is zero exactly when the cache counts
      as cold, one exactly when it has not been idle, and never rises as time goes on. */
  lemma PAliveAgreesWithCold(cache: CacheState, now: real, later: real)
    requires cache.ttl > 0.0 && now <= later
    ensures PAlive(cache, now) == 0.0 <==> IsCold(cache, now)
    ensures PAlive(cache, now) == 1.0 <==> now <= cache.lastRequest
    ensures PAlive(cache, later) <= PAlive(cache, now)
  {
    Quotient(Idle(cache, now), cache.ttl);
    var gap := later - now;
    Quotient(0.0 - gap, cache.ttl);
    assert Idle(cache, later) / cache.ttl == Idle(cache, now) / cache.ttl - (0.0 - gap) / cache.ttl;
  }

  lemma {:induction false} MaxWithinSum(batch: seq<Candidate>)
    ensures MaxSuffix(batch) <= SumSuffix(batch)
  {
    if batch != [] { MaxWithinSum(batch[1..]); }
  }

  /** What removing so many tokens, gaining so much quality and busting such a suffix is worth, at a
      price per token kept out and a price per token busted. */
  function Worth(removed: int, quality: real, suffix: nat, price: real, rate: real): real {
    removed as real * price + quality - suffix as real * rate
  }

  lemma Distribute(a: real, b: real, k: real)
    ensures (a + b) * k == a * k + b * k
  {
  }

  lemma WorthAdds(r: int, q: real, s: nat, r': int, q': real, s': nat, price: real, rate: real)
    ensures Worth(r + r', q + q', s + s', price, rate) == Worth(r, q, s, price, rate) + Worth(r', q', s', price, rate)
  {
    Distribute(r as real, r' as real, price);
    Distribute(s as real, s' as real, rate);
  }

  function Price(econ: ModelEconomics, turns: real): real { turns * econ.baseInput * econ.readMult }

  lemma Regroup(a: real, b: real, c: real, d: real)
    ensures a * b * c * d == a * (b * c * d) && a * b * c * d == b * (a * c * d)
  {
    var bcd := b * c * d;
    assert a * b * c == a * (b * c);
    assert a * (b * c) * d == a * ((b * c) * d);
    assert a * b == b * a;
    assert b * a * c == b * (a * c);
    assert b * (a * c) * d == b * ((a * c) * d);
  }

  lemma NpvForm(batch: seq<Candidate>, cache: CacheState, econ: ModelEconomics, turns: real, now: real)
    ensures Npv(batch, cache, econ, turns, now) ==
            Worth(TotalRemoved(batch), TotalQuality(batch), MaxSuffix(batch), Price(econ, turns),
                Rate(cache, econ, now))
  {
    Regroup(turns, TotalRemoved(batch) as real, econ.baseInput, econ.readMult);
    Regroup(MaxSuffix(batch) as real, econ.baseInput, econ.writeMult - econ.readMult, PAlive(cache, now));
    hide TotalRemoved, TotalQuality, MaxSuffix, PAlive;
  }

  lemma {:induction false} SumNpvForm(
    batch: seq<Candidate>, cache: CacheState, econ: ModelEconomics, turns: real, now: real)
    ensures SumNpv(batch, cache, econ, turns, now) ==
            Worth(TotalRemoved(batch), TotalQuality(batch), SumSuffix(batch), Price(econ, turns),
                Rate(cache, econ, now))
  {
    if batch != [] {
      var c, rest := batch[0], batch[1..];
      SumNpvForm(rest, cache, econ, turns, now);
      NpvForm([c], cache, econ, turns, now);
      assert TotalRemoved([c]) == c.netRemoved && TotalQuality([c]) == c.qualityGain &&
             MaxSuffix([c]) == c.suffixTokens;
      WorthAdds(c.netRemoved, c.qualityGain, c.suffixTokens, TotalRemoved(rest), TotalQuality(rest), SumSuffix(rest),
                Price(econ, turns), Rate(cache, econ, now));
      hide Npv, Rate, Worth, Price;
    }
  }

  /** What the shared bust saves. */
  function Shared(batch: seq<Candidate>, cache: CacheState, econ: ModelEconomics, now: real): real {
    (SumSuffix(batch) - MaxSuffix(batch)) as real * Rate(cache, econ, now)
  }

  /** Together the candidates are worth exactly what they are worth apart plus the busts they share. */
  lemma BatchGain(batch: seq<Candidate>, cache: CacheState, econ: ModelEconomics, turns: real, now: real)
    ensures Npv(batch, cache, econ, turns, now) == SumNpv(batch, cache, econ, turns, now) +
            Shared(batch, cache, econ, now)
  {
    NpvForm(batch, cache, econ, turns, now);
    SumNpvForm(batch, cache, econ, turns, now);
    Distribute((SumSuffix(batch) - MaxSuffix(batch)) as real, MaxSuffix(batch) as real, Rate(cache, econ, now));
    hide Npv, SumNpv, Rate, Price, SumSuffix, MaxSuffix, TotalRemoved, TotalQuality;
  }

  predicate Ordinary(econ: ModelEconomics) { econ.baseInput >= 0.0 && econ.writeMult >= econ.readMult }

  lemma SharedIsNonNegative(tokens: nat, rate: real)
    requires rate >= 0.0
    ensures tokens as real * rate >= 0.0
  {
  }

  lemma RateIsNonNegative(cache: CacheState, econ: ModelEconomics, now: real)
    requires Ordinary(econ)
    ensures Rate(cache, econ, now) >= 0.0
  {
    var spread, p := econ.writeMult - econ.readMult, PAlive(cache, now);
    assert econ.baseInput * spread >= 0.0;
    assert econ.baseInput * spread * p >= 0.0;
  }

  lemma {:induction false} SumAboveFloor(
    batch: seq<Candidate>, cache: CacheState, econ: ModelEconomics, turns: real, now: real, floor: real)
    requires floor >= 0.0 && batch != []
    requires forall k :: 0 <= k < |batch| ==> Npv([batch[k]], cache, econ, turns, now) > floor
    ensures SumNpv(batch, cache, econ, turns, now) > floor
  {
    hide Npv;
    if |batch| > 1 {
      forall k | 0 <= k < |batch[1..]| ensures Npv([batch[1..][k]], cache, econ, turns, now) > floor {
        assert batch[1..][k] == batch[k + 1];
      }
      SumAboveFloor(batch[1..], cache, econ, turns, now, floor);
    } else {
      assert SumNpv(batch[1..], cache, econ, turns, now) == 0.0;
    }
  }

  ghost predicate EachClears(c: Controller, batch: seq<Candidate>, now: real) {
    forall k :: 0 <= k < |batch| ==> Npv([batch[k]], c.cache, c.econ, c.remainingTurns, now) > c.npvFloor
  }

  /** For a floor that is not negative the two gates agree: a batch of candidates that each clear
      the floor is never parked for being warm and deep. */
  lemma GatesAgree(c: Controller, prompt: Prompt, batch: seq<Candidate>, now: real)
    requires Ordinary(c.econ) && c.npvFloor >= 0.0 && batch != [] && EachClears(c, batch, now)
    ensures c.Decide(prompt, batch, now) != Hold(WarmDeep)
    ensures c.Decide(prompt, batch, now).Hold? <==> c.BelowFloor(prompt, batch)
  {
    BatchGain(batch, c.cache, c.econ, c.remainingTurns, now);
    RateIsNonNegative(c.cache, c.econ, now);
    SumAboveFloor(batch, c.cache, c.econ, c.remainingTurns, now, c.npvFloor);
    MaxWithinSum(batch);
    SharedIsNonNegative(SumSuffix(batch) - MaxSuffix(batch), Rate(c.cache, c.econ, now));
    hide Npv, SumNpv, Rate, SumSuffix, MaxSuffix;
  }

  /** What a candidate gains, its bust aside. */
  function Gain(c: Candidate, price: real): real { c.netRemoved as real * price + c.qualityGain }

  function TotalGain(batch: seq<Candidate>, price: real): real {
    TotalRemoved(batch) as real * price + TotalQuality(batch)
  }

  lemma {:induction false} SaversAddUp(batch: seq<Candidate>, price: real)
    requires forall k :: 0 <= k < |batch| ==> Gain(batch[k], price) >= 0.0
    ensures TotalGain(batch, price) >= 0.0
    ensures forall k :: 0 <= k < |batch| ==> TotalGain(batch, price) >= Gain(batch[k], price)
  {
    if batch == [] {
      NothingGained(price);
    } else {
      var c, rest := batch[0], batch[1..];
      SaversAddUp(rest, price);
      Distribute(c.netRemoved as real, TotalRemoved(rest) as real, price);
      assert TotalGain(batch, price) == Gain(c, price) + TotalGain(rest, price);
      hide TotalGain, Gain;
      forall k | 0 <= k < |batch| ensures TotalGain(batch, price) >= Gain(batch[k], price) {
        if k > 0 { assert rest[k - 1] == batch[k]; }
      }
    }
  }

  lemma NothingGained(price: real)
    ensures TotalGain([], price) == 0.0
  {
    assert 0.0 * price == 0.0;
  }

  /** At any floor at all the gates agree on candidates that do not lose by themselves: one that gains
      nothing, bust aside, is needed for a batch that clears singly to be parked. */
  lemma GatesAgreeOnSavers(c: Controller, prompt: Prompt, batch: seq<Candidate>, now: real)
    requires Ordinary(c.econ) && batch != [] && EachClears(c, batch, now)
    requires forall k :: 0 <= k < |batch| ==> Gain(batch[k], Price(c.econ, c.remainingTurns)) >= 0.0
    ensures c.Decide(prompt, batch, now) != Hold(WarmDeep)
  {
    hide Npv, Price, Gain;
    var k := SaversBeatLongest(batch, c.cache, c.econ, c.remainingTurns, now);
  }

  /** Together they are worth at least what the one with the longest suffix is worth alone. */
  lemma SaversBeatLongest(batch: seq<Candidate>, cache: CacheState, econ: ModelEconomics, turns: real, now: real)
    returns (k: nat)
    requires batch != [] && forall i :: 0 <= i < |batch| ==> Gain(batch[i], Price(econ, turns)) >= 0.0
    ensures k < |batch| && Npv(batch, cache, econ, turns, now) >= Npv([batch[k]], cache, econ, turns, now)
  {
    hide Npv, Price, Rate, Gain, TotalGain, TotalRemoved, TotalQuality, MaxSuffix;
    MaxSuffixIsLargest(batch);
    var m :| m in batch && m.suffixTokens == MaxSuffix(batch);
    k :| 0 <= k < |batch| && batch[k] == m;
    SaversAddUp(batch, Price(econ, turns));
    NpvIsGain(batch, cache, econ, turns, now);
    NpvIsGain([m], cache, econ, turns, now);
    SinglesAre(m);
    GainOfOne(m, Price(econ, turns));
    assert [batch[k]] == [m] && MaxSuffix([m]) == MaxSuffix(batch);
    assert TotalGain(batch, Price(econ, turns)) >= TotalGain([m], Price(econ, turns));
  }

  lemma NpvIsGain(batch: seq<Candidate>, cache: CacheState, econ: ModelEconomics, turns: real, now: real)
    ensures Npv(batch, cache, econ, turns, now) ==
            TotalGain(batch, Price(econ, turns)) - MaxSuffix(batch) as real * Rate(cache, econ, now)
  {
    hide Npv, Price, Rate, TotalRemoved, TotalQuality, MaxSuffix;
    NpvForm(batch, cache, econ, turns, now);
  }

  lemma GainOfOne(c: Candidate, price: real)
    ensures TotalGain([c], price) == Gain(c, price)
  {
    SinglesAre(c);
    hide TotalRemoved, TotalQuality;
  }

  lemma SinglesAre(c: Candidate)
    ensures TotalRemoved([c]) == c.netRemoved && TotalQuality([c]) == c.qualityGain && MaxSuffix([c]) == c.suffixTokens
  {
    assert [c][1..] == [];
  }

  /** Below zero no floor will do for candidates that do lose: at any such floor two segments of a hundred
      tokens, each replaced by a placeholder twice as long ahead of five thousand tokens, clear it
      singly in a cache about to die, and together are parked. */
  lemma NegativeFloorDisagrees(floor: real) returns (c: Controller, prompt: Prompt, batch: seq<Candidate>, now: real)
    requires floor < 0.0
    ensures c.npvFloor == floor && Ordinary(c.econ) && EachClears(c, batch, now)
    ensures prompt.tokens == [100, 100, 5000] &&
            batch == [Candidate(5100, -100, 0.0, "a"), Candidate(5000, -100, 0.0, "b")]
    ensures c.Decide(prompt, batch, now) == Hold(WarmDeep)
  {
    now := 3420.0;
    var base := -floor / 1200.0;
    c := Controller(ModelEconomics(base, 2.0, 0.1, 1024), CacheState(0.0, 3600.0), 50.0, floor, t => t);
    prompt := Prompt([100, 100, 5000], None);
    var a, b := Candidate(5100, -100, 0.0, "a"), Candidate(5000, -100, 0.0, "b");
    batch := [a, b];
    LosingPair(c, a, b, now, base);
    SinglesAre(b);
    assert batch[1..] == [b];
    assert TotalRemoved(batch) == a.netRemoved + TotalRemoved([b]);
    PrefixOfThree(c, 100, 100, 5000);
    hide Npv;
  }

  lemma PrefixOfThree(c: Controller, x: nat, y: nat, z: nat)
    ensures c.Prefix([x, y, z]) == c.scale(x) + c.scale(y) + c.scale(z)
  {
    assert [x, y, z][1..] == [y, z] && [y, z][1..] == [z] && [z][1..] == [];
    assert c.Prefix([z]) == c.scale(z);
    assert c.Prefix([y, z]) == c.scale(y) + c.Prefix([z]);
  }

  lemma LosingPair(c: Controller, a: Candidate, b: Candidate, now: real, base: real)
    requires c.econ == ModelEconomics(base, 2.0, 0.1, 1024) && c.cache == CacheState(0.0, 3600.0) && now == 3420.0
    requires c.remainingTurns == 50.0 && a == Candidate(5100, -100, 0.0, "a") && b == Candidate(5000, -100, 0.0, "b")
    ensures Npv([a], c.cache, c.econ, c.remainingTurns, now) == -984.5 * base
    ensures Npv([b], c.cache, c.econ, c.remainingTurns, now) == -975.0 * base
    ensures Npv([a, b], c.cache, c.econ, c.remainingTurns, now) == -1484.5 * base
  {
    var price, rate := Price(c.econ, c.remainingTurns), Rate(c.cache, c.econ, now);
    assert price == 5.0 * base;
    assert PAlive(c.cache, now) == 0.05;
    assert rate == 0.095 * base;
    NpvForm([a], c.cache, c.econ, c.remainingTurns, now);
    NpvForm([b], c.cache, c.econ, c.remainingTurns, now);
    NpvForm([a, b], c.cache, c.econ, c.remainingTurns, now);
    SinglesAre(a);
    SinglesAre(b);
    assert [a, b][1..] == [b];
    assert TotalRemoved([a, b]) == -200 && TotalQuality([a, b]) == 0.0 && MaxSuffix([a, b]) == 5100;
    hide Npv, Rate, Price, TotalRemoved, TotalQuality, MaxSuffix;
  }

  /** Exactly when a batch is parked for being warm and deep, in terms of its candidates apart. */
  lemma WarmDeepIff(c: Controller, prompt: Prompt, batch: seq<Candidate>, now: real)
    ensures c.Decide(prompt, batch, now) == Hold(WarmDeep) <==>
            batch == [] ||
            (!c.BelowFloor(prompt, batch) && !IsCold(c.cache, now) && prompt.freeBust.None? &&
             SumNpv(batch, c.cache, c.econ, c.remainingTurns, now) + Shared(batch, c.cache, c.econ, now) <= c.npvFloor)
  {
    BatchGain(batch, c.cache, c.econ, c.remainingTurns, now);
    hide Npv, SumNpv, Shared;
  }

  // ---- breaking even ----

  /** Turns until the saving repays the bust, as the cost model reports it: the chance that the cache
      has died meanwhile is left out. */
  function BreakEvenTurns(batch: seq<Candidate>, cache: CacheState, econ: ModelEconomics, now: real): real
    requires TotalRemoved(batch) as real * econ.readMult != 0.0
  {
    if IsCold(cache, now) then 0.0
    else MaxSuffix(batch) as real * (econ.writeMult - econ.readMult) / (TotalRemoved(batch) as real * econ.readMult)
  }

  lemma ScaledCompare(x: real, y: real, k: real)
    requires k > 0.0
    ensures x * k > y * k <==> x > y
  {
    if x > y { assert (x - y) * k > 0.0; } else { assert (y - x) * k >= 0.0; }
  }

  lemma PositiveProduct(x: real, y: real)
    requires x > 0.0 && y > 0.0
    ensures x * y > 0.0
  {
  }

  predicate Repays(batch: seq<Candidate>, cache: CacheState, econ: ModelEconomics, turns: real, now: real) {
    RecurringSaving(batch, econ, turns).dollars > BustCost(batch, cache, econ, now).dollars
  }

  /** A batch that removes tokens repays its bust exactly after the reported turns times the chance
      that the cache is still alive. */
  lemma RepaysIff(batch: seq<Candidate>, cache: CacheState, econ: ModelEconomics, turns: real, now: real)
    requires econ.baseInput > 0.0 && econ.readMult > 0.0 && TotalRemoved(batch) > 0
    ensures PositiveRemoval(batch, econ) > 0.0
    ensures Repays(batch, cache, econ, turns, now) <==>
            turns > BreakEvenTurns(batch, cache, econ, now) * PAlive(cache, now)
  {
    var removed := TotalRemoved(batch) as real;
    PositiveProduct(removed, econ.readMult);
    var k := PositiveRemoval(batch, econ) * econ.baseInput;
    PositiveProduct(PositiveRemoval(batch, econ), econ.baseInput);
    SavingForm(removed, econ.baseInput, econ.readMult, turns);
    BustIsBreakEven(batch, cache, econ, now);
    ScaledCompare(turns, BreakEvenTurns(batch, cache, econ, now) * PAlive(cache, now), k);
    hide TotalRemoved, BustCost, PAlive, BreakEvenTurns;
  }

  lemma BustIsBreakEven(batch: seq<Candidate>, cache: CacheState, econ: ModelEconomics, now: real)
    requires PositiveRemoval(batch, econ) != 0.0
    ensures BustCost(batch, cache, econ, now).dollars ==
            (BreakEvenTurns(batch, cache, econ, now) * PAlive(cache, now)) *
            (PositiveRemoval(batch, econ) * econ.baseInput)
  {
    hide TotalRemoved, MaxSuffix, PAlive;
    if !IsCold(cache, now) {
      BustForm(MaxSuffix(batch) as real, econ.baseInput, econ.writeMult - econ.readMult, PAlive(cache, now),
               PositiveRemoval(batch, econ), BreakEvenTurns(batch, cache, econ, now));
    }
  }

  function PositiveRemoval(batch: seq<Candidate>, econ: ModelEconomics): real {
    TotalRemoved(batch) as real * econ.readMult
  }

  lemma SavingForm(removed: real, base: real, read: real, turns: real)
    ensures turns * removed * base * read == turns * ((removed * read) * base)
  {
    Regroup(turns, removed, base, read);
    assert removed * base * read == (removed * read) * base by {
      assert base * read == read * base;
      assert removed * (base * read) == removed * (read * base);
    }
  }

  lemma BustForm(suffix: real, base: real, spread: real, p: real, perTurn: real, even: real)
    requires perTurn != 0.0 && even == suffix * spread / perTurn
    ensures suffix * base * spread * p == (even * p) * (perTurn * base)
  {
    assert even * perTurn == suffix * spread;
    Regroup(suffix, base, spread, p);
    Regroup(even, p, perTurn, base);
    Regroup(even, perTurn, p, base);
    Regroup(suffix, spread, p, base);
    assert spread * p * base == base * spread * p by { assert spread * p * base == base * (spread * p); }
    assert p * perTurn * base == perTurn * p * base;
    assert (even * perTurn) * p * base == (suffix * spread) * p * base;
  }

  /** The reported turns are the true ones for every horizon exactly when they are none or the cache
      is certainly alive. */
  lemma BreakEvenIsExactIff(batch: seq<Candidate>, cache: CacheState, econ: ModelEconomics, now: real)
    requires econ.baseInput > 0.0 && econ.readMult > 0.0 && TotalRemoved(batch) > 0
    ensures PositiveRemoval(batch, econ) > 0.0
    ensures (forall turns :: Repays(batch, cache, econ, turns, now) <==>
            turns > BreakEvenTurns(batch, cache, econ, now)) <==>
            BreakEvenTurns(batch, cache, econ, now) == 0.0 || PAlive(cache, now) == 1.0
  {
    hide Repays, BreakEvenTurns, PAlive, PositiveRemoval;
    RepaysIff(batch, cache, econ, 0.0, now);
    var even, p := BreakEvenTurns(batch, cache, econ, now), PAlive(cache, now);
    forall turns ensures Repays(batch, cache, econ, turns, now) <==> turns > even * p {
      RepaysIff(batch, cache, econ, turns, now);
    }
    ScaledIsSameIff(even, p);
    var scaled := even * p;
    if scaled != even {
      var between := if scaled < even then even else scaled;
      assert Repays(batch, cache, econ, between, now) <==> between > scaled;
    }
  }

  lemma ScaledIsSameIff(x: real, p: real)
    ensures x * p == x <==> x == 0.0 || p == 1.0
  {
    if x > 0.0 && p != 1.0 {
      if p < 1.0 { PositiveProduct(x, 1.0 - p); } else { PositiveProduct(x, p - 1.0); }
    } else if x < 0.0 && p != 1.0 {
      if p < 1.0 { PositiveProduct(-x, 1.0 - p); } else { PositiveProduct(-x, p - 1.0); }
    }
  }

  /** A flush without quality gain, at a floor that is not negative, is one the remaining turns repay. */
  lemma FlushRepays(c: Controller, prompt: Prompt, batch: seq<Candidate>, now: real)
    requires c.econ.baseInput > 0.0 && c.econ.readMult > 0.0 && TotalRemoved(batch) > 0
    requires c.npvFloor >= 0.0 && TotalQuality(batch) == 0.0 && c.Decide(prompt, batch, now).Flush?
    ensures PositiveRemoval(batch, c.econ) > 0.0
    ensures c.remainingTurns > BreakEvenTurns(batch, c.cache, c.econ, now) * PAlive(c.cache, now)
  {
    RepaysIff(batch, c.cache, c.econ, c.remainingTurns, now);
  }
}
