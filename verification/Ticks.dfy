/** What one tick of the supervisor does, field by field. */
module Ticks {
  import opened Basics
  import opened Supervisor

  predicate Answers(v: Verdict) { v.reachable && !v.degraded }

  /** Neither this supervisor's version nor the one it last spawned. */
  predicate Skewed(c: Config, s: State, v: Verdict) {
    v.version != "" && v.version != c.myVersion && v.version != s.spawnedSkew
  }

  /** The child answers well, with a known version. */
  predicate Healthy(c: Config, s: State, w: World) {
    Answers(w.probe) && w.probe.version != "" && (w.probe.version == c.myVersion || w.probe.version == s.spawnedSkew)
  }

  predicate Dies(s: State, w: World) { !w.probe.reachable && !w.peerAlive && !s.sawUnhealthy }

  /** Deaths in the current chain after this tick's probe: a death past the window starts a new one. */
  function Chain(c: Config, s: State, w: World): nat {
    if !Dies(s, w) then s.hazard
    else if s.lastReviveAt.Some? &&
            w.diedAt - s.lastReviveAt.value > (if c.hazardWindow > 0 then c.hazardWindow else 1_800_000_000_000) then 1
    else s.hazard + 1
  }

  /** The old child is out of the way: gone by itself, or killed when it would not go. */
  predicate MadeWay(w: World, force: bool) {
    w.gone ||
    (!w.cancelledThen && (w.shutdownFails ==> force) &&
     (w.kill == Unavailable || (w.kill == Killed && w.goneAfterKill)))
  }

  /** A tick tries to spawn for an unreachable child, unless the breaker is open or it is too soon to
      retry; or for a skewed one it may replace and could retire. */
  predicate Spawns(c: Config, s: State, w: World) {
    if !w.probe.reachable then
      !(c.breaker > 0 && Chain(c, s, w) >= c.breaker) && !(s.retryAt.Some? && w.checkedAt < s.retryAt.value)
    else
      Skewed(c, s, w.probe) && !w.unsafe && !w.cancelledFirst && MadeWay(w, w.probe.degraded) && !w.cancelledLast
  }

  lemma AttemptEffects(c: Config, s: State, w: World)
    ensures Spawn in Attempt(c, s, w).effects
    ensures forall version :: Verified(version) in Attempt(c, s, w).effects <==>
              w.spawn == Spawned && Answers(w.reprobe) && version == w.reprobe.version
  {
    hide AfterVerify, NoteFailure;
  }

  lemma RevivalEffects(c: Config, s: State, w: World)
    requires !w.probe.reachable
    ensures Spawn in Revival(c, s, w).effects <==> Spawns(c, s, w)
    ensures forall version :: Verified(version) in Revival(c, s, w).effects <==>
              Spawns(c, s, w) && w.spawn == Spawned && Answers(w.reprobe) && version == w.reprobe.version
  {
    AttemptEffects(c, if CountsDeath(s, w) then CountDeath(c, s, w.diedAt) else s, w);
    hide Attempt;
  }

  lemma ReplacementEffects(c: Config, s: State, w: World, force: bool)
    ensures Spawn in Replacement(c, s, w, force).effects <==>
            !w.unsafe && !w.cancelledFirst && MadeWay(w, force) && !w.cancelledLast
    ensures forall version :: Verified(version) in Replacement(c, s, w, force).effects <==>
              !w.unsafe && !w.cancelledFirst && MadeWay(w, force) && !w.cancelledLast &&
              w.spawn == Spawned && Answers(w.reprobe) && version == w.reprobe.version
  {
    hide AfterVerify, NoteFailure;
  }

  lemma SpawnsIff(c: Config, s: State, w: World)
    ensures Spawn in Pass(c, s, w).effects <==> Spawns(c, s, w)
    ensures forall version :: Verified(version) in Pass(c, s, w).effects <==>
              Spawns(c, s, w) && w.spawn == Spawned && Answers(w.reprobe) && version == w.reprobe.version
  {
    hide Replacement, Revival, MadeWay;
    if w.probe.reachable {
      ReplacementEffects(c, s.(sawUnhealthy := false), w, w.probe.degraded);
    } else {
      RevivalEffects(c, s, w);
    }
  }

  /** Failures and retry time: cleared by a healthy probe or a spawn that answers well, one more failure
      and a new wait after a spawn that fails or does not answer, otherwise as they were. */
  lemma BackoffIs(c: Config, s: State, w: World)
    ensures var s' := Pass(c, s, w).state;
            (s'.failures, s'.retryAt) ==
            if Healthy(c, s, w) || (Spawns(c, s, w) && w.spawn == Spawned && Answers(w.reprobe)) then (0, None)
            else if Spawns(c, s, w) && w.spawn != Skipped then
              (s.failures + 1, Some(w.failedAt + c.backoff.Delay(s.failures + 1)))
            else (s.failures, s.retryAt)
  {
    hide RetreatIf, Backoff.Delay;
  }

  /** The death count, the last death and whether this outage was counted. */
  lemma HazardIs(c: Config, s: State, w: World)
    ensures var s' := Pass(c, s, w).state;
            s'.hazard == (if Healthy(c, s, w) && w.probe.version == c.myVersion then 0 else Chain(c, s, w)) &&
            s'.lastReviveAt == (if Dies(s, w) then Some(w.diedAt) else s.lastReviveAt) &&
            s'.sawUnhealthy == (!w.probe.reachable && (s.sawUnhealthy || Dies(s, w)) &&
                                !(Spawns(c, s, w) && w.spawn == Spawned && Answers(w.reprobe)))
  {
    hide RetreatIf, Backoff.Delay;
  }

  /** The latch remembers the version a spawn answered with, unless that is the supervisor's own. */
  lemma LatchIs(c: Config, s: State, w: World)
    ensures Pass(c, s, w).state.spawnedSkew ==
            if Spawns(c, s, w) && w.spawn == Spawned && Answers(w.reprobe) && w.reprobe.version != "" then
              (if w.reprobe.version == c.myVersion then "" else w.reprobe.version)
            else s.spawnedSkew
  {
    hide RetreatIf, Backoff.Delay;
  }

  /** A tick that verifies a spawn, or finds the child healthy, leaves no failures and no retry time. */
  lemma GoodNewsResets(c: Config, s: State, w: World)
    requires Healthy(c, s, w) || exists version :: Verified(version) in Pass(c, s, w).effects
    ensures Pass(c, s, w).state.failures == 0 && Pass(c, s, w).state.retryAt == None
  {
    hide Pass, Spawns, Healthy;
    BackoffIs(c, s, w);
    SpawnsIff(c, s, w);
  }

  predicate Opens(c: Config, count: nat) { c.breaker > 0 && count >= c.breaker }

  /** What a spawn attempt from the revival path is followed by. */
  function Sequel(c: Config, s: State, w: World): seq<Effect> {
    if w.spawn == Skipped then []
    else if w.spawn == Spawned && Answers(w.reprobe) then [Verified(w.reprobe.version), Respawned]
    else if Opens(c, s.failures + 1) then [Retreat]
    else []
  }

  /** An unreachable child: its death is noted once, then the breaker gives up, or it is too soon, or a spawn
      is tried. */
  lemma RevivalIs(c: Config, s: State, w: World)
    requires !w.probe.reachable
    ensures Pass(c, s, w).effects ==
            (if Dies(s, w) then [ChildDied] else []) +
            if Opens(c, Chain(c, s, w)) then [Retreat]
            else if s.retryAt.Some? && w.checkedAt < s.retryAt.value then []
            else [Spawn] + Sequel(c, s, w)
  {
    hide Backoff.Delay;
  }

  /** A reachable child: it is replaced only when it is skewed, by force when it is degraded. Shutting it down
      comes before killing it, killing before spawning, and the replacement ends in one verdict, except that an
      unsafe moment leaves it for later. */
  lemma ReplacementIs(c: Config, s: State, w: World)
    requires w.probe.reachable
    ensures var force := w.probe.degraded;
            var kills := !w.gone && !w.cancelledThen && (w.shutdownFails ==> force);
            Pass(c, s, w).effects ==
            if !Skewed(c, s, w.probe) then []
            else if w.unsafe then [Replacing(force)]
            else if w.cancelledFirst then [Replacing(force), ReplaceAborted]
            else
              [Replacing(force), Shutdown] + (if kills then [Kill] else []) +
              if !MadeWay(w, force) || w.cancelledLast then [ReplaceAborted]
              else if w.spawn == Spawned && Answers(w.reprobe) then
                [Spawn, Verified(w.reprobe.version), ReplaceSucceeded]
              else [Spawn, ReplaceAborted]
  {
    hide Backoff.Delay;
  }
}
