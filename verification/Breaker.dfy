/** When a turn is intercepted and which plan it takes, over every run of turns. */
module Breaker {
  import opened Basics
  import opened Wire
  import opened Intercept
  import opened Session

  /** The session exists once a turn was inspected. */
  ghost predicate IsBorn(turns: seq<Turn>) { exists t :: 0 <= t < |turns| && turns[t].Inspected? }

  lemma LastBorn(turns: seq<Turn>, last: Turn)
    ensures IsBorn(turns + [last]) <==> IsBorn(turns) || last.Inspected?
  {
    var all, n := turns + [last], |turns|;
    assert all[n] == last;
    if t :| 0 <= t < n && turns[t].Inspected? { assert all[t].Inspected?; }
    if t :| 0 <= t < |all| && all[t].Inspected? && t < n { assert turns[t].Inspected?; }
  }

  /** The breaker was opened at `t`, and not closed since. */
  ghost predicate OpenedAt(turns: seq<Turn>, t: int) {
    0 <= t < |turns| && turns[t] == Turn.Breaker(false) && IsBorn(turns[..t]) &&
    forall u :: t < u < |turns| ==> turns[u] != Turn.Breaker(true)
  }

  /** The breaker was opened after the session was born and not closed since. */
  ghost predicate Disabled(turns: seq<Turn>) { exists t :: OpenedAt(turns, t) }

  lemma OpenedGrows(turns: seq<Turn>, last: Turn, t: int)
    ensures OpenedAt(turns + [last], t) <==>
            (OpenedAt(turns, t) && last != Turn.Breaker(true)) ||
            (t == |turns| && last == Turn.Breaker(false) && IsBorn(turns))
  {
    hide IsBorn;
    var all, n := turns + [last], |turns|;
    assert all[n] == last && all[..n] == turns;
    if 0 <= t < n {
      assert all[t] == turns[t] && all[..t] == turns[..t];
      assert forall u :: t < u < n ==> all[u] == turns[u];
    }
  }

  lemma LastTurn(turns: seq<Turn>, last: Turn)
    ensures IsBorn(turns + [last]) <==> IsBorn(turns) || last.Inspected?
    ensures Disabled(turns + [last]) <==>
            if last.Breaker? then (if last.enabled then false else IsBorn(turns) || Disabled(turns))
                else Disabled(turns)
  {
    hide IsBorn, OpenedAt;
    LastBorn(turns, last);
    forall t ensures OpenedAt(turns + [last], t) <==>
                     (OpenedAt(turns, t) && last != Turn.Breaker(true)) ||
                     (t == |turns| && last == Turn.Breaker(false) && IsBorn(turns))
    {
      OpenedGrows(turns, last, t);
    }
    assert last == Turn.Breaker(false) && IsBorn(turns) ==> OpenedAt(turns + [last], |turns|);
    if t :| OpenedAt(turns, t) && last != Turn.Breaker(true) { assert OpenedAt(turns + [last], t); }
  }

  /** Through every run: the breaker stands where the last switch left it, and what the session was
      created with does not change. */
  lemma {:induction false} SwitchIsTheLast(known: bool, window: nat, turns: seq<Turn>)
    ensures var p := Run(Unborn(known, window), turns);
            (p.Born? <==> IsBorn(turns)) && (SessionFor(p).interceptEnabled <==> !Disabled(turns)) &&
            SessionFor(p).modelKnown == known && SessionFor(p).recencyWindow == window
  {
    if turns != [] {
      var init, last := turns[..|turns| - 1], turns[|turns| - 1];
      SwitchIsTheLast(known, window, init);
      assert turns == init + [last];
      LastTurn(init, last);
      hide Intercept.Intercept, IsBorn, Disabled;
    } else {
      assert !IsBorn(turns) && !Disabled(turns);
    }
  }

  /** The turn after these is intercepted. */
  ghost predicate Intercepts(known: bool, turns: seq<Turn>) { known && !Disabled(turns) }

  /** An intercepted turn sends what the interception makes of its body under the session's commitments,
      floor, window and plan; any other sends its body as it came, commits nothing and leaves the plan. */
  lemma EgressIff(known: bool, window: nat, turns: seq<Turn>, turn: Turn)
    requires turn.Inspected? && turn.body.Some?
    ensures var s := SessionFor(Run(Unborn(known, window), turns));
            var sent := InspectedEgress(s, turn.body, turn.w, turn.choice, turn.failsOpen);
            var s' := SessionFor(Run(Unborn(known, window), turns + [turn]));
            var plan := match s.staged case Some(p) => Some(p.keys) case None => None;
            var inputs := Inputs(s.fastLane, s.lastMessageCount, s.windowClosed, plan, window);
            var o := Intercept.Intercept(turn.body.value, inputs, turn.w, turn.choice);
            s'.staged == (if Intercepts(known, turns) then None else s.staged) &&
            if Intercepts(known, turns) && !turn.failsOpen && o.Spliced? then
              sent == Some(o.body) &&
              s'.fastLane == s.fastLane + (set key | key in o.committed) - (set key | key in o.uncommitted)
            else sent == turn.body && s'.fastLane == s.fastLane
  {
    hide Intercept.Intercept, Disabled;
    SwitchIsTheLast(known, window, turns);
    assert (turns + [turn])[..|turns|] == turns;
  }

  /** After the breaker is disabled, and until it is enabled, every inspected turn goes out as it came and
      leaves the plan for later. */
  lemma BrokenIsUntouched(known: bool, window: nat, turns: seq<Turn>, off: nat, j: nat)
    requires off < j < |turns| && turns[off] == Turn.Breaker(false) && IsBorn(turns[..off])
    requires forall u :: off < u < j ==> turns[u] != Turn.Breaker(true)
    requires turns[j].Inspected? && turns[j].body.Some?
    ensures var s := SessionFor(Run(Unborn(known, window), turns[..j]));
            InspectedEgress(s, turns[j].body, turns[j].w, turns[j].choice, turns[j].failsOpen) == turns[j].body &&
            SessionFor(Run(Unborn(known, window), turns[..j + 1])).staged == s.staged &&
            SessionFor(Run(Unborn(known, window), turns[..j + 1])).fastLane == s.fastLane
  {
    assert Disabled(turns[..j]) by { assert turns[..j][..off] == turns[..off] && OpenedAt(turns[..j], off); }
    assert turns[..j + 1] == turns[..j] + [turns[j]];
    hide Run, InspectedEgress, Disabled, IsBorn;
    EgressIff(known, window, turns[..j], turns[j]);
  }

  /** The plan staged at `t` is still waiting. */
  ghost predicate Waiting(known: bool, turns: seq<Turn>, t: nat, plan: StagedPlan) {
    t < |turns| && turns[t] == Turn.Staged(plan) && IsBorn(turns[..t]) &&
    forall u :: t < u < |turns| ==> !turns[u].Staged? && !(turns[u].Inspected? && Intercepts(known, turns[..u]))
  }

  /** A staged plan waits for the first intercepted turn, which takes it, or for the next plan. */
  lemma {:induction false} PlanIff(known: bool, window: nat, turns: seq<Turn>, plan: StagedPlan)
    ensures SessionFor(Run(Unborn(known, window), turns)).staged == Some(plan) <==>
            exists t: nat :: Waiting(known, turns, t, plan)
  {
    if turns != [] {
      var n := |turns| - 1;
      var init, last := turns[..n], turns[n];
      PlanIff(known, window, init, plan);
      SwitchIsTheLast(known, window, init);
      PlanStep(known, turns, plan);
      hide Intercept.Intercept, Waiting, IsBorn, Disabled;
    }
  }

  lemma PlanStep(known: bool, turns: seq<Turn>, plan: StagedPlan)
    requires turns != []
    ensures var n := |turns| - 1;
            var init, last := turns[..n], turns[n];
            (exists t: nat :: Waiting(known, turns, t, plan)) <==>
            if last.Staged? && IsBorn(init) then last.plan == plan
            else if last.Staged? then false
            else if last.Inspected? && Intercepts(known, init) then false
            else exists t: nat :: Waiting(known, init, t, plan)
  {
    hide IsBorn, Disabled, Intercepts;
    var n := |turns| - 1;
    var init, last := turns[..n], turns[n];
    forall t | 0 <= t <= n ensures init[..t] == turns[..t] {}
    if t: nat :| Waiting(known, turns, t, plan) && t < n { assert Waiting(known, init, t, plan); }
    if t: nat :| Waiting(known, init, t, plan) {
      if last.Staged? {
        BornGrows(turns, t, n);
      } else if !(last.Inspected? && Intercepts(known, init)) {
        assert Waiting(known, turns, t, plan);
      }
    }
    if last == Turn.Staged(plan) && IsBorn(init) { assert Waiting(known, turns, n, plan); }
  }

  lemma BornGrows(turns: seq<Turn>, t: nat, n: nat)
    requires t <= n <= |turns| && IsBorn(turns[..t])
    ensures IsBorn(turns[..n])
  {
    var u :| 0 <= u < t && turns[..t][u].Inspected?;
    assert turns[..n][u].Inspected?;
  }
}
