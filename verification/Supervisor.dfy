/** The supervisor of the proxy process: backoff, crash breaker and the latch that stops a skewed
    version from being replaced by itself. Each tick gets its environment's answers as an input. */
module Supervisor {
  import opened Basics

  // ---- backoff ----

  const TWO_62 := 0x4000_0000_0000_0000
  const TWO_63 := 0x8000_0000_0000_0000
  const TWO_64 := 0x1_0000_0000_0000_0000

  /** A duration is a signed 64-bit count of nanoseconds. */
  type Duration = d: int | -TWO_63 <= d < TWO_63

  function Doubled(d: Duration): Duration {
    var twice := 2 * d;
    if twice >= TWO_63 then twice - TWO_64 else if twice < -TWO_63 then twice + TWO_64 else twice
  }

  datatype Backoff = Backoff(base: Duration, cap: Duration) {
    /** The wait after so many more doublings. */
    function Grown(wait: Duration, doublings: nat): Duration
      decreases doublings
    {
      if doublings == 0 then wait
      else if Doubled(wait) >= cap then cap
      else Grown(Doubled(wait), doublings - 1)
    }

    function Delay(failures: nat): Duration { if failures < 1 then 0 else Grown(base, failures - 1) }

    method After(failures: nat) returns (wait: Duration)
      ensures wait == Delay(failures)
    {
      if failures < 1 { return 0; }
      wait := base;
      for n := 0 to failures - 1
        invariant Grown(wait, failures - 1 - n) == Delay(failures)
      {
        wait := Doubled(wait);
        if wait >= cap { return cap; }
      }
    }
  }

  function Pow2(n: nat): nat { if n == 0 then 1 else 2 * Pow2(n - 1) }

  function Min(a: int, b: int): int { if a < b then a else b }

  /** The schedule the backoff stands for. */
  function Schedule(b: Backoff, failures: nat): int
    requires failures >= 1
  {
    Min(b.base * Pow2(failures - 1), b.cap)
  }

  /** The only doubling of a positive wait whose own doubling no longer fits. */
  function LastSafe(d: Duration): (top: Duration)
    requires d > 0
    ensures TWO_62 <= top < TWO_63 && d <= top
    decreases TWO_63 - d
  {
    if d >= TWO_62 then d else LastSafe(2 * d)
  }

  lemma {:induction false} CapAbsorbs(wait: int, cap: int, n: nat)
    requires wait >= cap && wait > 0
    ensures Min(wait * Pow2(n), cap) == cap
  {
    if n > 0 {
      CapAbsorbs(wait, cap, n - 1);
      assert wait * Pow2(n) == 2 * (wait * Pow2(n - 1));
      PowGrows(wait, n - 1);
    } else {
      assert wait * Pow2(0) == wait;
    }
  }

  lemma {:induction false} PowGrows(wait: int, n: nat)
    requires wait > 0
    ensures wait * Pow2(n) >= wait
  {
    if n > 0 {
      PowGrows(wait, n - 1);
      assert wait * Pow2(n) == 2 * (wait * Pow2(n - 1));
    } else {
      assert wait * Pow2(0) == wait;
    }
  }

  lemma {:induction false} GrownIsCapped(b: Backoff, wait: Duration, n: nat)
    requires 0 < wait <= b.cap && wait < TWO_62 && LastSafe(wait) >= b.cap
    ensures b.Grown(wait, n) == Min(wait * Pow2(n), b.cap)
    decreases n
  {
    if n == 0 {
      assert wait * Pow2(0) == wait;
    } else {
      assert wait * (2 * Pow2(n - 1)) == (2 * wait) * Pow2(n - 1);
      if 2 * wait >= b.cap {
        CapAbsorbs(2 * wait, b.cap, n - 1);
      } else {
        GrownIsCapped(b, 2 * wait, n - 1);
      }
    }
  }

  lemma {:induction false} Overflows(b: Backoff, wait: Duration) returns (n: nat)
    requires 0 < wait <= b.cap && (wait >= TWO_62 || LastSafe(wait) < b.cap)
    ensures b.Grown(wait, n) < 0
    decreases TWO_63 - wait
  {
    if wait >= TWO_62 {
      n := 1;
      assert b.Grown(Doubled(wait), 0) == Doubled(wait);
    } else {
      var m := Overflows(b, 2 * wait);
      n := m + 1;
    }
  }

  /** The wait is the capped doubling of the base for every failure count exactly when the base is
      within the cap and every wait that still gets doubled fits a duration. */
  lemma BackoffIsCappedDoubling(b: Backoff)
    requires b.base > 0
    ensures (forall n: nat :: n >= 1 ==> b.Delay(n) == Schedule(b, n)) <==>
            b.base <= b.cap && b.base < TWO_62 && LastSafe(b.base) >= b.cap
  {
    if b.base <= b.cap && b.base < TWO_62 && LastSafe(b.base) >= b.cap {
      forall n: nat | n >= 1 ensures b.Delay(n) == Schedule(b, n) {
        GrownIsCapped(b, b.base, n - 1);
      }
    } else if b.base > b.cap {
      assert Pow2(0) == 1;
      assert b.Delay(1) != Schedule(b, 1);
    } else {
      var n := Overflows(b, b.base);
      PowGrows(b.base, n);
      assert b.Delay(n + 1) != Schedule(b, n + 1);
    }
  }

  // ---- the supervisor's state and its environment ----

  datatype Verdict = Verdict(reachable: bool, degraded: bool, version: string)

  datatype SpawnResult = Spawned | Skipped | Failed

  datatype KillResult = Killed | Unavailable | KillFailed

  /** The environment's answers during one tick, in the order they can be asked for. */
  datatype World = World(
    probe: Verdict, peerAlive: bool, diedAt: int, checkedAt: int, unsafe: bool,
    cancelledFirst: bool, shutdownFails: bool, gone: bool, cancelledThen: bool, kill: KillResult, goneAfterKill: bool,
    cancelledLast: bool, spawn: SpawnResult, reprobe: Verdict, failedAt: int)

  datatype Effect =
    | ChildDied | Respawned | ReplaceSucceeded | ReplaceAborted
    | Retreat | Spawn | Verified(version: string) | Replacing(force: bool) | Shutdown | Kill

  datatype Config = Config(myVersion: string, hazardWindow: int, backoff: Backoff, breaker: int)

  /** Absent times are Go's zero time. */
  datatype State = State(
    failures: nat, retryAt: Option<int>, hazard: nat, lastReviveAt: Option<int>, sawUnhealthy: bool,
        spawnedSkew: string)

  const FRESH := State(0, None, 0, None, false, "")

  const DEFAULT_HAZARD_WINDOW := 1_800_000_000_000

  function HazardWindow(c: Config): int { if c.hazardWindow > 0 then c.hazardWindow else DEFAULT_HAZARD_WINDOW }

  predicate IsSkew(c: Config, s: State, version: string) {
    version != "" && version != c.myVersion && version != s.spawnedSkew
  }

  function ResetBackoff(s: State): State { s.(failures := 0, retryAt := None) }

  function NoteFailure(c: Config, s: State, now: int): State {
    s.(failures := s.failures + 1, retryAt := Some(now + c.backoff.Delay(s.failures + 1)))
  }

  function NoteVersion(c: Config, s: State, version: string): State {
    if version == "" then s
    else if version == c.myVersion then s.(spawnedSkew := "")
    else s.(spawnedSkew := version)
  }

  predicate Ready(w: World) { w.reprobe.reachable && !w.reprobe.degraded }

  function AfterVerify(c: Config, s: State, w: World): State {
    if Ready(w) then NoteVersion(c, ResetBackoff(s), w.reprobe.version) else NoteFailure(c, s, w.failedAt)
  }

  function CountDeath(c: Config, s: State, now: int): State {
    var expired := s.lastReviveAt.Some? && now - s.lastReviveAt.value > HazardWindow(c);
    s.(sawUnhealthy := true, hazard := (if expired then 0 else s.hazard) + 1, lastReviveAt := Some(now))
  }

  predicate Broken(c: Config, count: nat) { c.breaker > 0 && count >= c.breaker }

  datatype Outcome = Outcome(state: State, effects: seq<Effect>)

  function RetreatIf(c: Config, s: State): seq<Effect> { if Broken(c, s.failures) then [Retreat] else [] }

  /** An attempt to spawn from the revival path. */
  function Attempt(c: Config, s: State, w: World): Outcome {
    match w.spawn
    case Skipped => Outcome(s, [Spawn])
    case Failed =>
      var s' := NoteFailure(c, s, w.failedAt);
      Outcome(s', [Spawn] + RetreatIf(c, s'))
    case Spawned =>
      var s' := AfterVerify(c, s, w);
      if Ready(w) then Outcome(s'.(sawUnhealthy := false), [Spawn, Verified(w.reprobe.version), Respawned])
      else Outcome(s', [Spawn] + RetreatIf(c, s'))
  }

  predicate CountsDeath(s: State, w: World) { !w.peerAlive && !s.sawUnhealthy }

  function Revival(c: Config, s: State, w: World): Outcome {
    var s1 := if CountsDeath(s, w) then CountDeath(c, s, w.diedAt) else s;
    var noted := if CountsDeath(s, w) then [ChildDied] else [];
    if Broken(c, s1.hazard) then Outcome(s1, noted + [Retreat])
    else if s1.retryAt.Some? && w.checkedAt < s1.retryAt.value then Outcome(s1, noted)
    else
      var o := Attempt(c, s1, w);
      Outcome(o.state, noted + o.effects)
  }

  /** Whether killing the wedged child leaves nothing behind. */
  predicate Reaped(w: World) { w.kill == Unavailable || (w.kill == Killed && w.goneAfterKill) }

  /** Whether the old child must be killed to get rid of it. */
  predicate MustKill(w: World, force: bool) { !w.gone && !w.cancelledThen && (w.shutdownFails ==> force) }

  /** What retiring the old child does. */
  function Retiring(w: World, force: bool): seq<Effect> {
    [Replacing(force), Shutdown] + if MustKill(w, force) then [Kill] else []
  }

  predicate Retired(w: World, force: bool) { (w.gone || (MustKill(w, force) && Reaped(w))) && !w.cancelledLast }

  function Replacement(c: Config, s: State, w: World, force: bool): Outcome {
    if w.unsafe then Outcome(s, [Replacing(force)])
    else if w.cancelledFirst then Outcome(s, [Replacing(force), ReplaceAborted])
    else
      var ended := Retiring(w, force);
      if !Retired(w, force) then Outcome(s, ended + [ReplaceAborted])
      else
        match w.spawn
        case Skipped => Outcome(s, ended + [Spawn, ReplaceAborted])
        case Failed => Outcome(NoteFailure(c, s, w.failedAt), ended + [Spawn, ReplaceAborted])
        case Spawned =>
          Outcome(AfterVerify(c, s, w),
                  if Ready(w) then ended + [Spawn, Verified(w.reprobe.version), ReplaceSucceeded]
                  else ended + [Spawn, ReplaceAborted])
  }

  function Pass(c: Config, s: State, w: World): Outcome {
    var v := w.probe;
    if !v.reachable then Revival(c, s, w)
    else
      var seen := s.(sawUnhealthy := false);
      if v.degraded then (if IsSkew(c, s, v.version) then Replacement(c, seen, w, true) else Outcome(seen, []))
      else if v.version == "" then Outcome(seen, [])
      else if IsSkew(c, s, v.version) then Replacement(c, seen, w, false)
      else
        var calm := ResetBackoff(seen);
        Outcome(if v.version == c.myVersion then calm.(hazard := 0) else calm, [])
  }

  // ---- the supervisor itself ----

  class Supervisor {
    const config: Config
    var failures: nat
    var retryAt: Option<int>
    var reviveHazard: nat
    var lastReviveAt: Option<int>
    var sawUnhealthy: bool
    var spawnedSkew: string

    constructor (config: Config)
      ensures View() == FRESH && this.config == config
    {
      this.config := config;
      failures, retryAt, reviveHazard, lastReviveAt, sawUnhealthy, spawnedSkew := 0, None, 0, None, false, "";
    }

    function View(): State reads this {
      State(failures, retryAt, reviveHazard, lastReviveAt, sawUnhealthy, spawnedSkew)
    }

    method Tick(w: World) returns (effects: seq<Effect>)
      modifies this
      ensures Outcome(View(), effects) == Pass(config, old(View()), w)
    {
      effects := [];
      var v := w.probe;
      if !v.reachable {
        effects := Revive(w);
        return;
      }
      sawUnhealthy := false;
      if v.degraded {
        if IsSkew(config, View(), v.version) { effects := Replace(w, true); }
        return;
      }
      if v.version == "" { return; }
      if !IsSkew(config, View(), v.version) {
        ResetSpawnBackoff();
        if v.version == config.myVersion { reviveHazard := 0; }
        return;
      }
      effects := Replace(w, false);
    }

    method Revive(w: World) returns (effects: seq<Effect>)
      modifies this
      ensures Outcome(View(), effects) == Revival(config, old(View()), w)
    {
      hide AfterVerify, NoteFailure, RetreatIf;
      effects := [];
      if !w.peerAlive && !sawUnhealthy {
        sawUnhealthy := true;
        if lastReviveAt.Some? && w.diedAt - lastReviveAt.value > HazardWindow(config) { reviveHazard := 0; }
        lastReviveAt := Some(w.diedAt);
        reviveHazard := reviveHazard + 1;
        effects := [ChildDied];
      }
      if config.breaker > 0 && reviveHazard >= config.breaker {
        return effects + [Retreat];
      }
      if retryAt.Some? && w.checkedAt < retryAt.value { return; }
      ghost var noted := effects;
      ghost var before := View();
      effects := effects + [Spawn];
      match w.spawn
      case Skipped =>
      case Failed =>
        NoteSpawnFailure(w.failedAt);
        effects := effects + RetreatIf(config, View());
        assert effects == noted + Attempt(config, before, w).effects;
      case Spawned =>
        var ready := VerifySpawned(w);
        if ready {
          sawUnhealthy := false;
          effects := effects + [Verified(w.reprobe.version), Respawned];
        } else {
          effects := effects + RetreatIf(config, View());
        }
        assert effects == noted + Attempt(config, before, w).effects;
    }

    /** Retires the running child and starts a fresh one. */
    method Replace(w: World, force: bool) returns (effects: seq<Effect>)
      modifies this
      ensures Outcome(View(), effects) == Replacement(config, old(View()), w, force)
    {
      hide AfterVerify, NoteFailure, Reaped;
      effects := [Replacing(force)];
      if w.unsafe { return; }
      if w.cancelledFirst { return effects + [ReplaceAborted]; }
      effects := effects + [Shutdown];
      if !w.gone {
        if w.cancelledThen || (w.shutdownFails && !force) { return effects + [ReplaceAborted]; }
        effects := effects + [Kill];
        if !Reaped(w) { return effects + [ReplaceAborted]; }
      }
      assert effects == Retiring(w, force);
      hide Retiring;
      if w.cancelledLast { return effects + [ReplaceAborted]; }
      match w.spawn
      case Skipped => return effects + [Spawn, ReplaceAborted];
      case Failed =>
        NoteSpawnFailure(w.failedAt);
        return effects + [Spawn, ReplaceAborted];
      case Spawned =>
        var ready := VerifySpawned(w);
        if !ready { return effects + [Spawn, ReplaceAborted]; }
        return effects + [Spawn, Verified(w.reprobe.version), ReplaceSucceeded];
    }

    method VerifySpawned(w: World) returns (ready: bool)
      modifies this
      ensures ready == Ready(w) && View() == AfterVerify(config, old(View()), w)
    {
      if !w.reprobe.reachable || w.reprobe.degraded {
        NoteSpawnFailure(w.failedAt);
        return false;
      }
      ResetSpawnBackoff();
      NoteSpawnedVersion(w.reprobe.version);
      return true;
    }

    method NoteSpawnedVersion(version: string)
      modifies this`spawnedSkew
      ensures View() == NoteVersion(config, old(View()), version)
    {
      if version == "" {
      } else if version == config.myVersion {
        spawnedSkew := "";
      } else {
        spawnedSkew := version;
      }
    }

    method NoteSpawnFailure(now: int)
      modifies this`failures, this`retryAt
      ensures View() == NoteFailure(config, old(View()), now)
    {
      failures := failures + 1;
      var wait := config.backoff.After(failures);
      retryAt := Some(now + wait);
    }

    method ResetSpawnBackoff()
      modifies this`failures, this`retryAt
      ensures View() == ResetBackoff(old(View()))
    {
      failures, retryAt := 0, None;
    }
  }

  // ---- runs ----

  function StateAfter(c: Config, s: State, ws: seq<World>): State {
    if ws == [] then s else Pass(c, StateAfter(c, s, ws[..|ws| - 1]), ws[|ws| - 1]).state
  }

  /** What tick `t` of a run did. */
  function EffectsAt(c: Config, s: State, ws: seq<World>, t: nat): seq<Effect>
    requires t < |ws|
  {
    Pass(c, StateAfter(c, s, ws[..t]), ws[t]).effects
  }

  lemma TickAt(c: Config, s: State, ws: seq<World>, t: nat)
    requires t < |ws|
    ensures StateAfter(c, s, ws[..t + 1]) == Pass(c, StateAfter(c, s, ws[..t]), ws[t]).state
    ensures EffectsAt(c, s, ws, t) == Pass(c, StateAfter(c, s, ws[..t]), ws[t]).effects
  {
    assert ws[..t + 1][..t] == ws[..t];
  }

  // ---- the crash breaker ----

  predicate Tripped(c: Config, s: State) { s.sawUnhealthy && Broken(c, s.hazard) }

  lemma TrippedHolds(c: Config, s: State, w: World)
    requires !w.probe.reachable
    requires Tripped(c, s) || (ChildDied in Pass(c, s, w).effects && Broken(c, Pass(c, s, w).state.hazard))
    ensures Tripped(c, Pass(c, s, w).state) && Spawn !in Pass(c, s, w).effects && Retreat in Pass(c, s, w).effects
  {
  }

  lemma AttemptCountsNone(c: Config, s: State, w: World)
    ensures ChildDied !in Attempt(c, s, w).effects
  {
    hide AfterVerify, NoteFailure, Broken;
  }

  lemma ReplacementCountsNone(c: Config, s: State, w: World, force: bool)
    ensures ChildDied !in Replacement(c, s, w, force).effects
  {
    hide AfterVerify, NoteFailure, Retired;
  }

  /** A death is counted only in a tick whose probe was unreachable. */
  lemma DeathIsUnreachable(c: Config, s: State, w: World)
    ensures ChildDied in Pass(c, s, w).effects <==> !w.probe.reachable && CountsDeath(s, w)
  {
    AttemptCountsNone(c, if CountsDeath(s, w) then CountDeath(c, s, w.diedAt) else s, w);
    ReplacementCountsNone(c, s.(sawUnhealthy := false), w, w.probe.degraded);
    hide Attempt, Replacement, Broken, CountDeath, IsSkew;
  }

  /** Once a counted death reaches the breaker's threshold, every tick retreats and none spawns until
      a probe is reachable. */
  lemma {:induction false} BreakerHolds(c: Config, s: State, ws: seq<World>, t: nat, u: nat)
    requires t <= u < |ws|
    requires ChildDied in EffectsAt(c, s, ws, t) && Broken(c, StateAfter(c, s, ws[..t + 1]).hazard)
    requires forall k :: t < k <= u ==> !ws[k].probe.reachable
    ensures Spawn !in EffectsAt(c, s, ws, u) && Retreat in EffectsAt(c, s, ws, u)
    ensures Tripped(c, StateAfter(c, s, ws[..u + 1]))
  {
    hide Revival, Broken, Pass, StateAfter, EffectsAt;
    TickAt(c, s, ws, u);
    if t == u {
      DeathIsUnreachable(c, StateAfter(c, s, ws[..t]), ws[t]);
    } else {
      BreakerHolds(c, s, ws, t, u - 1);
    }
    TrippedHolds(c, StateAfter(c, s, ws[..u]), ws[u]);
  }

  /** A healthy probe at the supervisor's own version. */
  predicate Calm(c: Config, w: World) {
    w.probe.reachable && !w.probe.degraded && w.probe.version != "" && w.probe.version == c.myVersion
  }

  lemma HazardStep(c: Config, s: State, w: World)
    ensures var s', died := Pass(c, s, w).state, CountsDeath(s, w) && !w.probe.reachable;
            s'.lastReviveAt == (if died then Some(w.diedAt) else s.lastReviveAt) &&
            s'.hazard == if died then
                           (if s.lastReviveAt.Some? && w.diedAt - s.lastReviveAt.value > HazardWindow(c) then 1
                               else s.hazard + 1)
                         else if Calm(c, w) then 0 else s.hazard
  {
    hide HazardWindow, Retired, MustKill, RetreatIf;
  }

  /** The ticks of so many counted deaths, each within the hazard window of the one before, with no
      calm probe since the first. */
  ghost predicate DeathChain(c: Config, s: State, ws: seq<World>, ticks: seq<nat>) {
    (forall j :: 0 <= j < |ticks| ==> ticks[j] < |ws| && ChildDied in EffectsAt(c, s, ws, ticks[j])) &&
    (forall j :: 0 < j < |ticks| ==>
       ticks[j - 1] < ticks[j] && ws[ticks[j]].diedAt - ws[ticks[j - 1]].diedAt <= HazardWindow(c)) &&
    (ticks != [] ==> forall k :: ticks[0] <= k < |ws| ==> !Calm(c, ws[k]))
  }

  lemma ChainGrows(c: Config, s: State, ws: seq<World>, w: World, ticks: seq<nat>)
    requires DeathChain(c, s, ws, ticks) && (ticks != [] ==> !Calm(c, w))
    ensures DeathChain(c, s, ws + [w], ticks)
  {
    var all := ws + [w];
    hide Calm, HazardWindow;
    forall j | 0 <= j < |ticks| ensures ChildDied in EffectsAt(c, s, all, ticks[j]) {
      assert all[..ticks[j]] == ws[..ticks[j]];
    }
  }

  lemma ChainGains(c: Config, s: State, ws: seq<World>, ticks: seq<nat>, t: nat)
    requires DeathChain(c, s, ws, ticks) && t + 1 == |ws| && !Calm(c, ws[t]) && ChildDied in EffectsAt(c, s, ws, t)
    requires ticks != [] ==> ticks[|ticks| - 1] < t && ws[t].diedAt - ws[ticks[|ticks| - 1]].diedAt <= HazardWindow(c)
    ensures DeathChain(c, s, ws, ticks + [t])
  {
    hide Calm, HazardWindow, EffectsAt;
  }

  /** The breaker's count is honest: in every run of a fresh supervisor it is the number of counted
      deaths in such a chain, so the breaker never opens on fewer. */
  lemma {:induction false} HazardCountsAChain(c: Config, ws: seq<World>) returns (ticks: seq<nat>)
    ensures |ticks| == StateAfter(c, FRESH, ws).hazard && DeathChain(c, FRESH, ws, ticks)
    ensures ticks != [] ==> StateAfter(c, FRESH, ws).lastReviveAt == Some(ws[ticks[|ticks| - 1]].diedAt)
    decreases |ws|
  {
    hide Pass, HazardWindow, StateAfter, EffectsAt, DeathChain, Calm;
    if ws == [] {
      ticks := [];
      EmptyChain(c, FRESH, ws);
      EmptyRun(c, FRESH);
    } else {
      var t := |ws| - 1;
      var init, w := ws[..t], ws[t];
      assert ws[..t + 1] == ws && init + [w] == ws;
      var before := StateAfter(c, FRESH, init);
      var earlier := HazardCountsAChain(c, init);
      TickAt(c, FRESH, ws, t);
      HazardStep(c, before, w);
      DeathIsUnreachable(c, before, w);
      EmptyChain(c, FRESH, ws);
      LastTick(c, FRESH, init, earlier);
      if Calm(c, w) {
        CalmIsReachable(c, w);
        ticks := [];
      } else {
        ChainGrows(c, FRESH, init, w, earlier);
        if ChildDied !in EffectsAt(c, FRESH, ws, t) {
          ticks := earlier;
        } else if before.lastReviveAt.Some? && w.diedAt - before.lastReviveAt.value > HazardWindow(c) {
          ChainGains(c, FRESH, ws, [], t);
          ticks := [] + [t];
        } else {
          ChainGains(c, FRESH, ws, earlier, t);
          ticks := earlier + [t];
        }
      }
    }
  }

  lemma CalmIsReachable(c: Config, w: World)
    requires Calm(c, w)
    ensures w.probe.reachable
  {
  }

  lemma EmptyRun(c: Config, s: State)
    ensures StateAfter(c, s, []) == s
  {
  }

  lemma EmptyChain(c: Config, s: State, ws: seq<World>)
    ensures DeathChain(c, s, ws, [])
  {
  }

  lemma LastTick(c: Config, s: State, ws: seq<World>, ticks: seq<nat>)
    requires DeathChain(c, s, ws, ticks)
    ensures ticks != [] ==> ticks[|ticks| - 1] < |ws|
  {
  }

  /** A spell without a reachable probe or a respawn counts at most one death. */
  lemma {:induction false} OneDeathPerSpell(c: Config, s: State, ws: seq<World>, t: nat, u: nat)
    requires t < u < |ws|
    requires ChildDied in EffectsAt(c, s, ws, t) && ChildDied in EffectsAt(c, s, ws, u)
    ensures exists k :: t <= k < u && (Respawned in EffectsAt(c, s, ws, k) || (t < k && ws[k].probe.reachable))
  {
    hide Pass, StateAfter, EffectsAt;
    TickAt(c, s, ws, u);
    if forall k :: t <= k < u ==> Respawned !in EffectsAt(c, s, ws, k) && (t < k ==> !ws[k].probe.reachable) {
      StaysUnhealthy(c, s, ws, t, u - 1);
      DeathIsUnreachable(c, StateAfter(c, s, ws[..u]), ws[u]);
    }
  }

  lemma {:induction false} StaysUnhealthy(c: Config, s: State, ws: seq<World>, t: nat, u: nat)
    requires t <= u < |ws| && ChildDied in EffectsAt(c, s, ws, t)
    requires forall k :: t <= k <= u ==> Respawned !in EffectsAt(c, s, ws, k) && (t < k ==> !ws[k].probe.reachable)
    ensures StateAfter(c, s, ws[..u + 1]).sawUnhealthy
  {
    hide Pass, StateAfter, EffectsAt;
    TickAt(c, s, ws, u);
    if t < u {
      StaysUnhealthy(c, s, ws, t, u - 1);
    } else {
      DeathIsUnreachable(c, StateAfter(c, s, ws[..t]), ws[t]);
    }
    UnhealthyStep(c, StateAfter(c, s, ws[..u]), ws[u]);
  }

  lemma UnhealthyStep(c: Config, s: State, w: World)
    requires !w.probe.reachable && Respawned !in Pass(c, s, w).effects
    ensures s.sawUnhealthy || ChildDied in Pass(c, s, w).effects ==> Pass(c, s, w).state.sawUnhealthy
  {
  }

  // ---- the skew latch ----

  predicate Verifies(c: Config, s: State, ws: seq<World>, t: nat, version: string)
    requires t < |ws|
  {
    Verified(version) in EffectsAt(c, s, ws, t)
  }

  /** The latch moves only by verifying a version that says what it is. */
  ghost predicate LatchFollows(c: Config, s: State, o: Outcome) {
    (forall v :: Verified(v) in o.effects ==>
       o.state.spawnedSkew == (if v == "" then s.spawnedSkew else if v == c.myVersion then "" else v)) &&
    ((forall v :: Verified(v) !in o.effects) ==> o.state.spawnedSkew == s.spawnedSkew)
  }

  lemma AttemptLatch(c: Config, s: State, w: World)
    ensures LatchFollows(c, s, Attempt(c, s, w))
  {
    if w.spawn == Spawned && Ready(w) { assert Verified(w.reprobe.version) in Attempt(c, s, w).effects; }
  }

  lemma RevivalLatch(c: Config, s: State, w: World)
    ensures LatchFollows(c, s, Revival(c, s, w))
  {
    var s1 := if CountsDeath(s, w) then CountDeath(c, s, w.diedAt) else s;
    AttemptLatch(c, s1, w);
    hide Attempt, Broken;
  }

  lemma ReplacementLatch(c: Config, s: State, w: World, force: bool)
    ensures LatchFollows(c, s, Replacement(c, s, w, force))
  {
    var e := Replacement(c, s, w, force).effects;
    if !w.unsafe && !w.cancelledFirst && Retired(w, force) && w.spawn == Spawned && Ready(w) {
      assert e[|e| - 2] == Verified(w.reprobe.version);
    }
    hide NoteFailure;
  }

  lemma LatchMoves(c: Config, s: State, w: World)
    ensures LatchFollows(c, s, Pass(c, s, w))
  {
    RevivalLatch(c, s, w);
    ReplacementLatch(c, s.(sawUnhealthy := false), w, w.probe.degraded);
    hide Revival, Replacement;
  }

  predicate Latched(c: Config, s: State, version: string) {
    version == "" || version == c.myVersion || version == s.spawnedSkew
  }

  lemma ReplaceNeedsSkew(c: Config, s: State, w: World)
    ensures (exists force :: Replacing(force) in Pass(c, s, w).effects) <==>
            w.probe.reachable && !Latched(c, s, w.probe.version)
  {
    if w.probe.reachable && !Latched(c, s, w.probe.version) {
      assert Replacing(w.probe.degraded) in Pass(c, s, w).effects;
    }
  }

  /** After a spawn is verified at a version, no tick replaces a child reachable at that version
      until another version is verified. */
  lemma {:induction false} VerifiedIsNotReplaced(
    c: Config, s: State, ws: seq<World>, t: nat, u: nat, version: string, force: bool)
    requires t < u < |ws| && Verifies(c, s, ws, t, version)
    requires forall k, v :: t < k < u && Verifies(c, s, ws, k, v) ==> v == "" || v == version
    requires ws[u].probe.version == version
    ensures Replacing(force) !in EffectsAt(c, s, ws, u)
  {
    hide Pass, StateAfter, EffectsAt;
    TickAt(c, s, ws, u);
    StaysLatched(c, s, ws, t, u - 1, version);
    ReplaceNeedsSkew(c, StateAfter(c, s, ws[..u]), ws[u]);
  }

  lemma {:induction false} StaysLatched(c: Config, s: State, ws: seq<World>, t: nat, u: nat, version: string)
    requires t <= u < |ws| && Verifies(c, s, ws, t, version)
    requires forall k, v :: t < k <= u && Verifies(c, s, ws, k, v) ==> v == "" || v == version
    ensures Latched(c, StateAfter(c, s, ws[..u + 1]), version)
  {
    hide Pass, StateAfter, EffectsAt;
    TickAt(c, s, ws, u);
    LatchMoves(c, StateAfter(c, s, ws[..u]), ws[u]);
    if t < u {
      StaysLatched(c, s, ws, t, u - 1, version);
      forall v | Verified(v) in EffectsAt(c, s, ws, u) ensures v == "" || v == version {
        assert Verifies(c, s, ws, u, v);
      }
    }
  }

  // ---- retries and replacements ----

  /** A failed spawn is not retried by a reviving tick before its delay is over, unless a probe was
      reachable in between. */
  lemma {:induction false} RetryWaits(c: Config, s: State, ws: seq<World>, t: nat, u: nat)
    requires t < u < |ws|
    requires StateAfter(c, s, ws[..t + 1]).failures == StateAfter(c, s, ws[..t]).failures + 1
    requires forall k :: t < k <= u ==> !ws[k].probe.reachable
    requires forall k :: t < k < u ==> Spawn !in EffectsAt(c, s, ws, k)
    requires Spawn in EffectsAt(c, s, ws, u)
    ensures ws[u].checkedAt >= ws[t].failedAt + c.backoff.Delay(StateAfter(c, s, ws[..t + 1]).failures)
  {
    hide Pass, StateAfter, EffectsAt;
    TickAt(c, s, ws, u);
    RetryStays(c, s, ws, t, u - 1);
    SpawnAfterRetry(c, StateAfter(c, s, ws[..u]), ws[u]);
  }

  lemma {:induction false} RetryStays(c: Config, s: State, ws: seq<World>, t: nat, u: nat)
    requires t <= u < |ws|
    requires StateAfter(c, s, ws[..t + 1]).failures == StateAfter(c, s, ws[..t]).failures + 1
    requires forall k :: t < k <= u ==> !ws[k].probe.reachable && Spawn !in EffectsAt(c, s, ws, k)
    ensures StateAfter(c, s, ws[..u + 1]).retryAt ==
            Some(ws[t].failedAt + c.backoff.Delay(StateAfter(c, s, ws[..t + 1]).failures))
  {
    hide Pass, StateAfter, EffectsAt;
    TickAt(c, s, ws, u);
    SpawnAfterRetry(c, StateAfter(c, s, ws[..u]), ws[u]);
    if t < u { RetryStays(c, s, ws, t, u - 1); }
  }

  lemma SpawnAfterRetry(c: Config, s: State, w: World)
    ensures !w.probe.reachable && Spawn in Pass(c, s, w).effects && s.retryAt.Some? ==> w.checkedAt >= s.retryAt.value
    ensures !w.probe.reachable && Spawn !in Pass(c, s, w).effects ==> Pass(c, s, w).state.retryAt == s.retryAt
    ensures Pass(c, s, w).state.failures == s.failures + 1 ==>
              Pass(c, s, w).state.retryAt == Some(w.failedAt + c.backoff.Delay(s.failures + 1))
  {
  }

  predicate Closes(e: Effect) { e == ReplaceSucceeded || e == ReplaceAborted }

  /** A replacement that was not deferred ends, and only ends, in one of success and abort: success
      exactly with a verified child. It starts a child only once the old one is out of the way, and
      kills none that an unforced shutdown failed to reach. */
  lemma ReplacementEndsOnce(c: Config, s: State, w: World, force: bool)
    ensures var e := Replacement(c, s, w, force).effects;
            (forall i :: 0 <= i < |e| ==> (Closes(e[i]) <==> i == |e| - 1 && !w.unsafe)) &&
            (ReplaceSucceeded in e <==> Verified(w.reprobe.version) in e) &&
            (Kill in e && w.shutdownFails ==> force) &&
            (Spawn in e ==> Shutdown in e && (w.gone || (Kill in e && Reaped(w))))
  {
    hide AfterVerify, NoteFailure, Ready, Reaped;
    var head := Retiring(w, force);
    assert Kill in head <==> MustKill(w, force);
    assert Shutdown in head && Spawn !in head && Verified(w.reprobe.version) !in head && ReplaceSucceeded !in head;
    assert forall i :: 0 <= i < |head| ==> !Closes(head[i]);
    assert Kill in head && w.shutdownFails ==> force;
    hide Retiring, MustKill;
  }
}
