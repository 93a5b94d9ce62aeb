/** The controller's verdict in terms of the sums it is taken over. */
module Verdicts {
  import opened Basics
  import opened Economics

  function Sum(n: nat, term: nat -> int): int { if n == 0 then 0 else Sum(n - 1, term) + term(n - 1) }

  function RealSum(n: nat, term: nat -> real): real { if n == 0 then 0.0 else RealSum(n - 1, term) + term(n - 1) }

  function Scaled(tokens: seq<nat>, scale: nat -> nat): nat -> int {
    (k: nat) => if k < |tokens| then scale(tokens[k]) else 0
  }

  function Removed(batch: seq<Candidate>): nat -> int {
    (k: nat) => if k < |batch| then batch[k].netRemoved else 0
  }

  function Quality(batch: seq<Candidate>): nat -> real {
    (k: nat) => if k < |batch| then batch[k].qualityGain else 0.0
  }

  // ---- the recursive totals are these sums ----

  lemma {:induction false} SumShift(n: nat, term: nat -> int, shifted: nat -> int)
    requires forall k: nat :: k < n ==> shifted(k) == term(k + 1)
    ensures Sum(n + 1, term) == term(0) + Sum(n, shifted)
  {
    if n > 0 { SumShift(n - 1, term, shifted); }
  }

  lemma {:induction false} RealSumShift(n: nat, term: nat -> real, shifted: nat -> real)
    requires forall k: nat :: k < n ==> shifted(k) == term(k + 1)
    ensures RealSum(n + 1, term) == term(0) + RealSum(n, shifted)
  {
    if n > 0 { RealSumShift(n - 1, term, shifted); }
  }

  lemma {:induction false} PrefixIsSum(c: Controller, tokens: seq<nat>)
    ensures c.Prefix(tokens) == Sum(|tokens|, Scaled(tokens, c.scale))
  {
    if tokens != [] {
      PrefixIsSum(c, tokens[1..]);
      SumShift(|tokens| - 1, Scaled(tokens, c.scale), Scaled(tokens[1..], c.scale));
    }
  }

  lemma {:induction false} TotalsAreSums(batch: seq<Candidate>)
    ensures TotalRemoved(batch) == Sum(|batch|, Removed(batch))
    ensures TotalQuality(batch) == RealSum(|batch|, Quality(batch))
  {
    if batch != [] {
      TotalsAreSums(batch[1..]);
      SumShift(|batch| - 1, Removed(batch), Removed(batch[1..]));
      RealSumShift(|batch| - 1, Quality(batch), Quality(batch[1..]));
    }
  }

  // ---- the verdict ----

  /** What the cacheable prefix comes to once the batch is applied. */
  function After(c: Controller, prompt: Prompt, batch: seq<Candidate>): int {
    Sum(|prompt.tokens|, Scaled(prompt.tokens, c.scale)) - Sum(|batch|, Removed(batch))
  }

  /** What flushing a warm batch is worth: what the turns to come no longer pay for, and the quality gained,
      less the cost of writing its longest suffix anew. */
  function FlushWorth(c: Controller, batch: seq<Candidate>, now: real): real {
    c.remainingTurns * Sum(|batch|, Removed(batch)) as real * c.econ.baseInput * c.econ.readMult +
    RealSum(|batch|, Quality(batch)) -
    MaxSuffix(batch) as real * c.econ.baseInput * (c.econ.writeMult - c.econ.readMult) * PAlive(c.cache, now)
  }

  lemma WorthIsNpv(c: Controller, batch: seq<Candidate>, now: real)
    requires !IsCold(c.cache, now)
    ensures FlushWorth(c, batch, now) == Npv(batch, c.cache, c.econ, c.remainingTurns, now)
  {
    TotalsAreSums(batch);
    hide Sum, RealSum, Removed, Quality, TotalRemoved, TotalQuality, MaxSuffix, PAlive;
  }

  /** A batch that would sink the prefix below the model's floor is held for that; else a cold cache or an
      announced bust is ridden; else the batch is flushed when that is worth more than the floor, at its
      cost and saving; else, and when there is none, it is held for being warm and deep. */
  lemma VerdictIff(c: Controller, prompt: Prompt, batch: seq<Candidate>, now: real)
    ensures var v, some := c.Decide(prompt, batch, now), batch != [];
            var high, cold := After(c, prompt, batch) >= c.econ.minCacheFloor, now - c.cache.lastRequest >= c.cache.ttl;
            (v == Hold(SubFloor) <==> some && !high) &&
            (forall b, t :: v == RideFreeBust(b, t) <==>
                            b == batch && some && high && (if cold then t == Cold else prompt.freeBust == Some(t))) &&
            (v.Flush? <==>
             some && high && !cold && prompt.freeBust.None? && FlushWorth(c, batch, now) > c.npvFloor) &&
            (v == Hold(WarmDeep) <==>
             !some || (high && !cold && prompt.freeBust.None? && FlushWorth(c, batch, now) <= c.npvFloor))
  {
    PrefixIsSum(c, prompt.tokens);
    TotalsAreSums(batch);
    if !IsCold(c.cache, now) { WorthIsNpv(c, batch, now); }
    hide Sum, Scaled, Removed, TotalRemoved, Npv, FlushWorth, BustCost, RecurringSaving, Controller.Prefix;
  }

  /** What a flush reports: the batch itself, the suffix it busts and what it keeps out. */
  lemma FlushReports(c: Controller, prompt: Prompt, batch: seq<Candidate>, now: real)
    requires c.Decide(prompt, batch, now).Flush?
    ensures var v, removed := c.Decide(prompt, batch, now), Sum(|batch|, Removed(batch));
            v.batch == batch && v.bust.tokens == MaxSuffix(batch) &&
            v.saving.dollars + RealSum(|batch|, Quality(batch)) - v.bust.dollars == FlushWorth(c, batch, now) &&
            (0 <= removed < 0x1_0000_0000 ==> v.saving.tokens == removed) && (removed < 0 ==> v.saving.tokens == 0)
  {
    PrefixIsSum(c, prompt.tokens);
    TotalsAreSums(batch);
    hide Sum, RealSum, Scaled, Removed, Quality, TotalRemoved, TotalQuality, MaxSuffix, PAlive, Controller.Prefix;
  }

  /** The chance that a cache entry still lives: sure until it idles, none once it is idle for its time to
      live, and falling in proportion in between. */
  lemma SurvivalIs(cache: CacheState, now: real)
    ensures var idle := now - cache.lastRequest;
            (cache.ttl > 0.0 && idle <= 0.0 ==> PAlive(cache, now) == 1.0) &&
            (cache.ttl > 0.0 && idle >= cache.ttl ==> PAlive(cache, now) == 0.0) &&
            (cache.ttl > 0.0 && 0.0 <= idle <= cache.ttl ==> PAlive(cache, now) * cache.ttl == cache.ttl - idle) &&
            (cache.ttl == 0.0 ==> PAlive(cache, now) == if idle < 0.0 then 1.0 else 0.0)
  {
    if cache.ttl > 0.0 {
      PAliveAgreesWithCold(cache, now, now);
      Quotient(Idle(cache, now), cache.ttl);
      var q := Idle(cache, now) / cache.ttl;
      assert q * cache.ttl == Idle(cache, now);
      Distribute(1.0, 0.0 - q, cache.ttl);
    }
  }
}
