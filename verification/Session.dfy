/** The per-session state: the commitment set, the message floor and its window, the staged plan
    and the staging claim; and the runs that turns and staging tasks make of it. */
module Session {
  import opened Basics
  import opened Wire
  import opened Segmentation
  import opened Intercept

  datatype StagedPlan = StagedPlan(id: nat, keys: set<Key>)

  datatype Session = Session(
    fastLane: set<Key>, lastMessageCount: nat, windowClosed: bool,
    staged: Option<StagedPlan>, staging: bool, interceptEnabled: bool, modelKnown: bool, recencyWindow: nat)

  /** A session is born with its window closed: earlier traffic is unknown. */
  function NewSession(modelKnown: bool, recencyWindow: nat): Session {
    Session({}, 0, true, None, false, true, modelKnown, recencyWindow)
  }

  // ---- the locked steps ----

  function InputsOf(s: Session): Inputs {
    Inputs(s.fastLane, s.lastMessageCount, s.windowClosed,
           match s.staged case Some(p) => Some(p.keys) case None => None, s.recencyWindow)
  }

  predicate Interceptable(s: Session) { s.interceptEnabled && s.modelKnown }

  function TakePlan(s: Session): Session { if Interceptable(s) then s.(staged := None) else s }

  function CommitLane(s: Session, committed: set<Key>, uncommitted: set<Key>): Session {
    s.(fastLane := s.fastLane + committed - uncommitted)
  }

  function Max(a: nat, b: nat): nat { if a < b then b else a }

  /** Only a body that parses moves the floor and reopens the window. */
  function Stash(s: Session, count: Option<nat>): Session {
    match count
    case None => s
    case Some(n) => s.(lastMessageCount := Max(s.lastMessageCount, n), windowClosed := false)
  }

  function Close(s: Session): Session { s.(windowClosed := true) }

  function CommitPlan(s: Session, plan: StagedPlan): Session { s.(staged := Some(plan)) }

  /** The claim is won when nobody holds it, and is held either way. */
  function Claiming(s: Session): (bool, Session) { (!s.staging, s.(staging := true)) }

  class SessionEcon {
    var fastLane: set<Key>
    var lastMessageCount: nat
    var windowClosed: bool
    var staged: Option<StagedPlan>
    var staging: bool
    var interceptEnabled: bool
    var modelKnown: bool
    var recencyWindow: nat

    constructor (modelKnown: bool, recencyWindow: nat)
      ensures View() == NewSession(modelKnown, recencyWindow)
    {
      fastLane, lastMessageCount, windowClosed := {}, 0, true;
      staged, staging, interceptEnabled := None, false, true;
      this.modelKnown, this.recencyWindow := modelKnown, recencyWindow;
    }

    function View(): Session reads this {
      Session(fastLane, lastMessageCount, windowClosed, staged, staging, interceptEnabled, modelKnown, recencyWindow)
    }

    /** Reads the turn's inputs and consumes the staged plan. */
    method InterceptInputs() returns (inputs: Option<Inputs>)
      modifies this`staged
      ensures View() == TakePlan(old(View()))
      ensures inputs == if Interceptable(old(View())) then Some(InputsOf(old(View()))) else None
    {
      if !interceptEnabled || !modelKnown { return None; }
      inputs := Some(InputsOf(View()));
      staged := None;
    }

    method CommitFastLane(committed: seq<Key>, uncommitted: seq<Key>)
      modifies this`fastLane
      ensures View() == CommitLane(old(View()), set key | key in committed, set key | key in uncommitted)
    {
      if committed == [] && uncommitted == [] {
        assert fastLane + {} - {} == fastLane;
        return;
      }
      fastLane := fastLane + set key | key in committed;
      ghost var extended := fastLane;
      var i := 0;
      while i < |uncommitted|
        invariant i <= |uncommitted|
        invariant fastLane == extended - set key | key in uncommitted[..i]
      {
        assert uncommitted[..i + 1] == uncommitted[..i] + [uncommitted[i]];
        fastLane := fastLane - {uncommitted[i]};
        i := i + 1;
      }
      assert uncommitted[..i] == uncommitted;
    }

    method StashEgressSnapshot(count: Option<nat>)
      modifies this`lastMessageCount, this`windowClosed
      ensures View() == Stash(old(View()), count)
    {
      if count.Some? {
        if lastMessageCount < count.value { lastMessageCount := count.value; }
        windowClosed := false;
      }
    }

    method CloseWindow()
      modifies this`windowClosed
      ensures View() == Close(old(View()))
    {
      windowClosed := true;
    }

    /** Test-and-set of the overlap guard. */
    method ClaimStaging() returns (won: bool)
      modifies this`staging
      ensures (won, View()) == Claiming(old(View()))
    {
      won := !staging;
      staging := true;
    }

    method CommitStaged(plan: StagedPlan)
      modifies this`staged
      ensures View() == CommitPlan(old(View()), plan)
    {
      staged := Some(plan);
    }

    method ReleaseStaging()
      modifies this`staging
      ensures View() == old(View()).(staging := false)
    {
      staging := false;
    }

    /** A staging task: it may commit a plan, and its guard releases the claim however it ends. */
    method StageNext(plan: Option<StagedPlan>)
      modifies this`staged, this`staging
      ensures View() == (if plan.Some? then CommitPlan(old(View()), plan.value) else old(View())).(staging := false)
    {
      if plan.Some? { CommitStaged(plan.value); }
      ReleaseStaging();
    }

    /** One inspected turn, start to finish, as the relay runs it. */
    method InspectedTurn(body: Option<Body>, w: World, choice: Choice, failsOpen: bool) returns (egress: Option<Body>)
      modifies this
      ensures View() == AfterInspected(old(View()), body, w, choice, failsOpen)
      ensures egress == InspectedEgress(old(View()), body, w, choice, failsOpen)
    {
      egress := body;
      var inputs := InterceptInputs();
      if inputs.Some? && body.Some? && !failsOpen {
        var out := Intercept.Intercept(body.value, inputs.value, w, choice);
        CommitFastLane(Committed(out), Uncommitted(out));
        egress := Some(Egress(body.value, out));
      } else {
        CommitFastLane([], []);
        assert CommitLane(View(), {}, {}) == View();
      }
      StashEgressSnapshot(if egress.Some? then Some(|egress.value.messages|) else None);
    }
  }

  // ---- one turn after another ----

  /** The interception of a turn; a time-out, panic or over-long body fails open to identity, and
      an unparsable body is never rewritten. */
  function OutcomeOf(s: Session, body: Option<Body>, w: World, choice: Choice, failsOpen: bool): Outcome {
    if Interceptable(s) && body.Some? && !failsOpen then Intercept.Intercept(body.value, InputsOf(s), w, choice)
        else Identity
  }

  function InspectedEgress(s: Session, body: Option<Body>, w: World, choice: Choice, failsOpen: bool): Option<Body> {
    match body
    case Some(b) => Some(Egress(b, OutcomeOf(s, body, w, choice, failsOpen)))
    case None => None
  }

  function Count(body: Option<Body>): Option<nat> {
    match body case Some(b) => Some(|b.messages|) case None => None
  }

  function AfterInspected(s: Session, body: Option<Body>, w: World, choice: Choice, failsOpen: bool): Session {
    var o := OutcomeOf(s, body, w, choice, failsOpen);
    var s' := CommitLane(TakePlan(s), set key | key in Committed(o), set key | key in Uncommitted(o));
    Stash(s', Count(InspectedEgress(s, body, w, choice, failsOpen)))
  }

  /** One turn reaching the proxy, or what happens to the session between turns. A body is absent
      when it does not parse. */
  datatype Turn =
    | Inspected(body: Option<Body>, w: World, choice: Choice, failsOpen: bool)
    | Killed(body: Option<Body>)
    | Shadowed(body: Option<Body>)
    | Synthesized
    | Breaker(enabled: bool)
    | Staged(plan: StagedPlan)

  /** The session is created by the first inspected forward. */
  datatype Proxy = Unborn(modelKnown: bool, recencyWindow: nat) | Born(session: Session)

  function SessionFor(p: Proxy): Session {
    match p case Unborn(known, window) => NewSession(known, window) case Born(s) => s
  }

  function Step(p: Proxy, turn: Turn): Proxy {
    match turn
    case Inspected(body, w, choice, failsOpen) => Born(AfterInspected(SessionFor(p), body, w, choice, failsOpen))
    case Killed(_) | Shadowed(_) => if p.Born? then Born(Close(p.session)) else p
    case Synthesized => p
    case Breaker(enabled) => if p.Born? then Born(p.session.(interceptEnabled := enabled)) else p
    case Staged(plan) => if p.Born? then Born(CommitPlan(p.session, plan)) else p
  }

  function Run(p: Proxy, turns: seq<Turn>): Proxy {
    if turns == [] then p else Step(Run(p, turns[..|turns| - 1]), turns[|turns| - 1])
  }

  /** How many messages the turn sent upstream, when that is known. */
  function Sent(turn: Turn): Option<nat> {
    match turn
    case Inspected(body, _, _, _) => Count(body)
    case Killed(body) => Count(body)
    case Shadowed(body) => Count(body)
    case _ => None
  }

  /** No request carries fewer messages than an earlier one: true of a transcript that only grows. */
  ghost predicate Growing(turns: seq<Turn>) {
    forall i, j :: 0 <= i < j < |turns| && Sent(turns[i]).Some? && Sent(turns[j]).Some? ==>
      Sent(turns[i]).value <= Sent(turns[j]).value
  }

  /** The egress of an inspected turn has the messages of its body. */
  lemma EgressKeepsCount(s: Session, body: Option<Body>, w: World, choice: Choice, failsOpen: bool)
    ensures Count(InspectedEgress(s, body, w, choice, failsOpen)) == Count(body)
  {
    hide Intercept.Intercept;
    if body.Some? && Interceptable(s) && !failsOpen { InterceptPassesPairGate(body.value, InputsOf(s), w, choice); }
  }

  // ---- the floor and what was sent ----

  predicate InspectedSend(turn: Turn, n: nat) { turn.Inspected? && Sent(turn) == Some(n) }

  /** The floor is the largest message count of an inspected turn so far. */
  lemma {:induction false} FloorIsLargestInspected(known: bool, window: nat, turns: seq<Turn>)
    ensures var p := Run(Unborn(known, window), turns);
            var floor := SessionFor(p).lastMessageCount;
            (floor == 0 || exists t :: 0 <= t < |turns| && InspectedSend(turns[t], floor)) &&
            forall t :: 0 <= t < |turns| && turns[t].Inspected? && Sent(turns[t]).Some? ==>
                Sent(turns[t]).value <= floor
  {
    if turns != [] {
      var init, last := turns[..|turns| - 1], turns[|turns| - 1];
      FloorIsLargestInspected(known, window, init);
      var s := SessionFor(Run(Unborn(known, window), init));
      FloorAfter(Run(Unborn(known, window), init), last);
      var floor := SessionFor(Run(Unborn(known, window), turns)).lastMessageCount;
      hide Run, Step;
      if floor == s.lastMessageCount {
        if floor != 0 {
          var t :| 0 <= t < |init| && InspectedSend(init[t], floor);
          assert turns[t] == init[t];
        }
      } else {
        assert InspectedSend(turns[|turns| - 1], floor);
      }
      forall t | 0 <= t < |turns| && turns[t].Inspected? && Sent(turns[t]).Some? ensures Sent(turns[t]).value <= floor {
        if t < |init| { assert turns[t] == init[t]; }
      }
    }
  }

  lemma FloorAfter(p: Proxy, turn: Turn)
    ensures var s, s' := SessionFor(p), SessionFor(Step(p, turn));
            s'.lastMessageCount == (if turn.Inspected? && Sent(turn).Some?
                then Max(s.lastMessageCount, Sent(turn).value) else s.lastMessageCount)
    ensures var s, s' := SessionFor(p), SessionFor(Step(p, turn));
            s'.windowClosed == (if turn.Inspected? && Sent(turn).Some? then false
                                else if turn.Killed? || turn.Shadowed? then true else s.windowClosed)
  {
    hide OutcomeOf;
    if turn.Inspected? {
      EgressKeepsCount(SessionFor(p), turn.body, turn.w, turn.choice, turn.failsOpen);
    }
  }

  /** Whatever the order of turns, the floor never decreases. */
  lemma {:induction false} FloorNeverDecreases(p: Proxy, turns: seq<Turn>)
    ensures SessionFor(p).lastMessageCount <= SessionFor(Run(p, turns)).lastMessageCount
  {
    if turns != [] {
      FloorNeverDecreases(p, turns[..|turns| - 1]);
      FloorAfter(Run(p, turns[..|turns| - 1]), turns[|turns| - 1]);
    }
  }

  /** Every count sent so far is at most the floor. */
  ghost predicate FloorCovers(s: Session, turns: seq<Turn>) {
    forall t :: 0 <= t < |turns| && Sent(turns[t]).Some? ==> Sent(turns[t]).value <= s.lastMessageCount
  }

  /** In a growing transcript, an open window means the floor covers everything sent. */
  lemma {:induction false} OpenWindowCovers(known: bool, window: nat, turns: seq<Turn>)
    requires Growing(turns)
    ensures var s := SessionFor(Run(Unborn(known, window), turns));
            !s.windowClosed ==> FloorCovers(s, turns)
  {
    if turns != [] {
      var init, last := turns[..|turns| - 1], turns[|turns| - 1];
      assert Growing(init) by {
        forall i, j | 0 <= i < j < |init| && Sent(init[i]).Some? && Sent(init[j]).Some?
          ensures Sent(init[i]).value <= Sent(init[j]).value
        {
          assert init[i] == turns[i] && init[j] == turns[j];
        }
      }
      OpenWindowCovers(known, window, init);
      FloorAfter(Run(Unborn(known, window), init), last);
      var s, s' := SessionFor(Run(Unborn(known, window), init)), SessionFor(Run(Unborn(known, window), turns));
      hide Run, Step;
      if !s'.windowClosed {
        forall t | 0 <= t < |turns| && Sent(turns[t]).Some? ensures Sent(turns[t]).value <= s'.lastMessageCount {
          if t < |init| { assert init[t] == turns[t]; }
          if Sent(last).None? { assert t < |init|; }
        }
      }
    }
  }

  /** Every uninspected request is matched by an inspected one at least as long. */
  ghost predicate UninspectedMatched(turns: seq<Turn>) {
    forall t :: 0 <= t < |turns| && !turns[t].Inspected? && Sent(turns[t]).Some? && Sent(turns[t]).value > 0 ==>
      exists u :: 0 <= u < |turns| && turns[u].Inspected? && Sent(turns[u]).Some? &&
                  Sent(turns[t]).value <= Sent(turns[u]).value
  }

  /** Without the growth assumption, the floor covers everything sent exactly when every uninspected
      request is matched. */
  lemma FloorCoversIff(known: bool, window: nat, turns: seq<Turn>)
    ensures FloorCovers(SessionFor(Run(Unborn(known, window), turns)), turns) <==> UninspectedMatched(turns)
  {
    FloorIsLargestInspected(known, window, turns);
    var s := SessionFor(Run(Unborn(known, window), turns));
    hide Run;
    if FloorCovers(s, turns) {
      forall t | 0 <= t < |turns| && !turns[t].Inspected? && Sent(turns[t]).Some? && Sent(turns[t]).value > 0
        ensures exists u :: 0 <= u < |turns| && turns[u].Inspected? && Sent(turns[u]).Some? &&
                            Sent(turns[t]).value <= Sent(turns[u]).value
      {
        var u :| 0 <= u < |turns| && InspectedSend(turns[u], s.lastMessageCount);
      }
    }
  }

  predicate Opens(turn: Turn) { turn.Inspected? && Sent(turn).Some? }

  predicate Shuts(turn: Turn) { turn.Killed? || turn.Shadowed? }

  /** Every turn that opened the window was followed by one that shut it. */
  ghost predicate ShutSince(turns: seq<Turn>) {
    forall t :: 0 <= t < |turns| && Opens(turns[t]) ==> exists u :: t < u < |turns| && Shuts(turns[u])
  }

  lemma ShutSinceNext(turns: seq<Turn>)
    requires turns != []
    ensures var init, last := turns[..|turns| - 1], turns[|turns| - 1];
            ShutSince(turns) <==> Shuts(last) || (!Opens(last) && ShutSince(init))
  {
    hide Opens, Shuts;
    var init, last := turns[..|turns| - 1], turns[|turns| - 1];
    OpensOrShuts(last);
    assert turns[|turns| - 1] == last;
    if Shuts(last) {
      forall t | 0 <= t < |turns| && Opens(turns[t]) ensures exists u :: t < u < |turns| && Shuts(turns[u]) {
        assert t < |turns| - 1 && Shuts(turns[|turns| - 1]);
      }
    } else if !Opens(last) {
      ShutSinceInit(turns);
    }
  }

  lemma ShutSinceInit(turns: seq<Turn>)
    requires turns != [] && !Shuts(turns[|turns| - 1]) && !Opens(turns[|turns| - 1])
    ensures ShutSince(turns) <==> ShutSince(turns[..|turns| - 1])
  {
    if ShutSince(turns) { ShutSinceDrop(turns); }
    if ShutSince(turns[..|turns| - 1]) { ShutSinceAdd(turns); }
    hide ShutSince;
  }

  lemma ShutSinceDrop(turns: seq<Turn>)
    requires turns != [] && !Shuts(turns[|turns| - 1]) && ShutSince(turns)
    ensures ShutSince(turns[..|turns| - 1])
  {
    hide Opens, Shuts;
    var init := turns[..|turns| - 1];
    forall t | 0 <= t < |init| && Opens(init[t]) ensures exists u :: t < u < |init| && Shuts(init[u]) {
      assert Opens(turns[t]);
      var u :| t < u < |turns| && Shuts(turns[u]);
      assert Shuts(init[u]);
    }
  }

  lemma ShutSinceAdd(turns: seq<Turn>)
    requires turns != [] && !Opens(turns[|turns| - 1]) && ShutSince(turns[..|turns| - 1])
    ensures ShutSince(turns)
  {
    hide Opens, Shuts;
    var init := turns[..|turns| - 1];
    forall t | 0 <= t < |turns| && Opens(turns[t]) ensures exists u :: t < u < |turns| && Shuts(turns[u]) {
      assert Opens(init[t]);
      var u :| t < u < |init| && Shuts(init[u]);
      assert Shuts(turns[u]);
    }
  }

  lemma OpensOrShuts(turn: Turn)
    ensures !(Opens(turn) && Shuts(turn))
  {
  }

  lemma {:induction false} ClosedIff(known: bool, window: nat, turns: seq<Turn>)
    ensures SessionFor(Run(Unborn(known, window), turns)).windowClosed <==> ShutSince(turns)
  {
    if turns != [] {
      var init, last := turns[..|turns| - 1], turns[|turns| - 1];
      ClosedIff(known, window, init);
      FloorAfter(Run(Unborn(known, window), init), last);
      ShutSinceNext(turns);
      hide Step, ShutSince;
    }
  }

  /** The promise of the window in any sequential run: while it is open the floor covers everything
      sent. It holds exactly when the window was shut after every turn that opened it, or every
      uninspected request is matched by an inspected one at least as long. */
  lemma OpenWindowPromiseIff(known: bool, window: nat, turns: seq<Turn>)
    ensures var s := SessionFor(Run(Unborn(known, window), turns));
            (!s.windowClosed ==> FloorCovers(s, turns)) <==> ShutSince(turns) || UninspectedMatched(turns)
  {
    ClosedIff(known, window, turns);
    FloorCoversIff(known, window, turns);
    hide Run, ShutSince, UninspectedMatched, FloorCovers;
  }

  /** In every sequential run of a growing transcript, a leaf is newly committed only if none of
      its messages was in any earlier request that reached upstream and parses. */
  lemma NewLeavesWereNeverSent(known: bool, window: nat, turns: seq<Turn>, t: nat, key: Key) returns (k: nat)
    requires Growing(turns) && t < |turns| && turns[t].Inspected? && turns[t].body.Some?
    requires key in Committed(OutcomeOf(SessionFor(Run(Unborn(known, window), turns[..t])),
                                        turns[t].body, turns[t].w, turns[t].choice, turns[t].failsOpen))
    ensures k < |Segments(turns[t].body.value)|
    ensures var seg := Segments(turns[t].body.value)[k];
            KeyOf(turns[t].body.value, seg, turns[t].w) == key && seg.sources != [] &&
            forall e, j :: 0 <= e < t && Sent(turns[e]).Some? && 0 <= j < |seg.sources| ==>
                seg.sources[j] >= Sent(turns[e]).value
  {
    hide Intercept.Intercept, Segments, Run, KeyOf;
    var s := SessionFor(Run(Unborn(known, window), turns[..t]));
    k := CommittedIsUncached(turns[t].body.value, InputsOf(s), turns[t].w, turns[t].choice, key);
    var init := turns[..t];
    assert Growing(init) by {
      forall i, j | 0 <= i < j < |init| && Sent(init[i]).Some? && Sent(init[j]).Some?
        ensures Sent(init[i]).value <= Sent(init[j]).value
      {
        assert init[i] == turns[i] && init[j] == turns[j];
      }
    }
    OpenWindowCovers(known, window, init);
    forall e | 0 <= e < t && Sent(turns[e]).Some? ensures Sent(turns[e]).value <= s.lastMessageCount {
      assert init[e] == turns[e];
    }
  }

  /** The commitment set moves only on a spliced turn: it gains keys it did not hold, loses keys it
      held, and every other turn leaves it alone. */
  lemma CommitmentMovesOnSpliceOnly(p: Proxy, turn: Turn)
    ensures var s, s' := SessionFor(p), SessionFor(Step(p, turn));
            if turn.Inspected? && OutcomeOf(s, turn.body, turn.w, turn.choice, turn.failsOpen).Spliced? then
              var o := OutcomeOf(s, turn.body, turn.w, turn.choice, turn.failsOpen);
              (forall key :: key in o.committed ==> key !in s.fastLane && key in s'.fastLane) &&
              (forall key :: key in o.uncommitted ==> key in s.fastLane && key !in s'.fastLane) &&
              (forall key :: key !in o.committed && key !in o.uncommitted ==>
                  (key in s'.fastLane <==> key in s.fastLane))
            else s'.fastLane == s.fastLane
  {
    hide Intercept.Intercept;
    if turn.Inspected? && turn.body.Some? {
      CommitmentDeltas(turn.body.value, InputsOf(SessionFor(p)), turn.w, turn.choice);
    }
  }

  // ---- overlapping turns and staging tasks ----

  /** The atomic steps that overlapping turns and staging tasks interleave. `Send` marks a request of
      so many messages reaching upstream. Turns, tasks and plans carry their own numbers. */
  datatype Atom =
    | Take(turn: nat)                       // an interception reads its inputs
    | Lane(turn: nat, committed: set<Key>, uncommitted: set<Key>)
    | Snapshot(turn: nat, count: Option<nat>)
    | Shut(turn: nat)                       // an uninspected forward closes the window
    | Send(turn: nat, n: nat)
    | Claim(task: nat)
    | Publish(task: nat, plan: StagedPlan)  // a running task commits its plan
    | Finish(task: nat)                     // a running task ends, however it ends
    | Abandon(task: nat)                    // a claim dropped before its task starts

  /** The session with the tasks that own the claim, the plans published and handed out, and the
      counts sent. */
  datatype Overlap = Overlap(session: Session, owners: set<nat>, published: seq<nat>, handed: seq<nat>, sent: seq<nat>)

  /** A session not born yet is as good as a new one: its window is shut. */
  function Initial(known: bool, window: nat): Overlap { Overlap(NewSession(known, window), {}, [], [], []) }

  predicate Enabled(sys: Overlap, a: Atom) {
    match a
    case Claim(task) => task !in sys.owners
    case Publish(task, plan) => task in sys.owners && plan.id !in sys.published
    case Finish(task) => task in sys.owners
    case Abandon(task) => task in sys.owners
    case _ => true
  }

  function Act(sys: Overlap, a: Atom): Overlap {
    var s := sys.session;
    match a
    case Take(_) =>
      if Interceptable(s) && s.staged.Some?
          then sys.(session := TakePlan(s), handed := sys.handed + [s.staged.value.id])
      else sys.(session := TakePlan(s))
    case Lane(_, c, u) => sys.(session := CommitLane(s, c, u))
    case Snapshot(_, n) => sys.(session := Stash(s, n))
    case Shut(_) => sys.(session := Close(s))
    case Send(_, n) => sys.(sent := sys.sent + [n])
    case Claim(task) =>
      var (won, s') := Claiming(s);
      sys.(session := s', owners := sys.owners + if won then {task} else {})
    case Publish(_, plan) => sys.(session := CommitPlan(s, plan), published := sys.published + [plan.id])
    case Finish(task) => sys.(session := s.(staging := false), owners := sys.owners - {task})
    case Abandon(task) => sys.(owners := sys.owners - {task})
  }

  function Execute(sys: Overlap, atoms: seq<Atom>): Overlap {
    if atoms == [] then sys else Act(Execute(sys, atoms[..|atoms| - 1]), atoms[|atoms| - 1])
  }

  /** Every step is one the state before it allows. */
  ghost predicate Legal(sys: Overlap, atoms: seq<Atom>) {
    forall k :: 0 <= k < |atoms| ==> Enabled(Execute(sys, atoms[..k]), atoms[k])
  }

  lemma LegalNext(sys: Overlap, atoms: seq<Atom>)
    requires atoms != [] && Legal(sys, atoms)
    ensures var init, last := atoms[..|atoms| - 1], atoms[|atoms| - 1];
            Legal(sys, init) && Enabled(Execute(sys, init), last) &&
                Execute(sys, atoms) == Act(Execute(sys, init), last)
  {
    hide Enabled, Act;
    var init := atoms[..|atoms| - 1];
    forall k | 0 <= k < |init| ensures Enabled(Execute(sys, init[..k]), init[k]) {
      assert init[..k] == atoms[..k] && init[k] == atoms[k];
    }
  }

  lemma LegalGrows(sys: Overlap, atoms: seq<Atom>, a: Atom)
    requires Legal(sys, atoms) && Enabled(Execute(sys, atoms), a)
    ensures Legal(sys, atoms + [a]) && Execute(sys, atoms + [a]) == Act(Execute(sys, atoms), a)
  {
    hide Enabled, Act;
    var all := atoms + [a];
    assert all[..|atoms|] == atoms;
    forall k | 0 <= k < |all| ensures Enabled(Execute(sys, all[..k]), all[k]) {
      if k < |atoms| { assert all[..k] == atoms[..k] && all[k] == atoms[k]; }
    }
  }

  // ---- the staging claim ----

  ghost predicate NoRepeats(s: seq<nat>) { forall i, j :: 0 <= i < j < |s| ==> s[i] != s[j] }

  /** At most one owner, always under the flag; every plan handed out or waiting was published once,
      and none is handed out twice or still waiting after it was. */
  ghost predicate Guarded(sys: Overlap) {
    (forall a, b :: a in sys.owners && b in sys.owners ==> a == b) &&
    (sys.owners != {} ==> sys.session.staging) &&
    NoRepeats(sys.handed) && (forall id :: id in sys.handed ==> id in sys.published) &&
    (sys.session.staged.Some? ==>
       sys.session.staged.value.id in sys.published && sys.session.staged.value.id !in sys.handed)
  }

  lemma ActKeepsGuard(sys: Overlap, a: Atom)
    requires Guarded(sys) && Enabled(sys, a)
    ensures Guarded(Act(sys, a))
  {
  }

  lemma GuardedOwners(sys: Overlap)
    requires Guarded(sys)
    ensures |sys.owners| <= 1
  {
    if sys.owners != {} {
      var a :| a in sys.owners;
      assert sys.owners == {a};
    }
  }

  /** In every interleaving, from every guarded state and so from a new session, no two staging tasks
      own the claim at once and no plan is handed to two interceptions. */
  lemma {:induction false} StagingIsExclusive(sys: Overlap, atoms: seq<Atom>)
    requires Guarded(sys) && Legal(sys, atoms)
    ensures Guarded(Execute(sys, atoms)) && |Execute(sys, atoms).owners| <= 1
    ensures forall known, window :: Guarded(Initial(known, window))
    decreases |atoms|
  {
    hide Legal;
    if atoms == [] {
      GuardedOwners(sys);
    } else {
      LegalNext(sys, atoms);
      StagingIsExclusive(sys, atoms[..|atoms| - 1]);
      ActKeepsGuard(Execute(sys, atoms[..|atoms| - 1]), atoms[|atoms| - 1]);
      GuardedOwners(Execute(sys, atoms));
    }
  }

  /** The claim is held and nobody is left to release it. */
  predicate Orphaned(sys: Overlap) { sys.session.staging && sys.owners == {} }

  lemma OrphanStep(sys: Overlap, a: Atom)
    requires Guarded(sys) && Enabled(sys, a)
    ensures Orphaned(sys) ==> Orphaned(Act(sys, a)) && Act(sys, a).published == sys.published
    ensures (sys.session.staging <==> sys.owners != {}) ==>
              if a.Abandon? then Orphaned(Act(sys, a))
              else Act(sys, a).session.staging <==> Act(sys, a).owners != {}
  {
    if a.Abandon? || a.Finish? { assert forall t :: t in sys.owners ==> t == a.task; }
  }

  /** From a state whose claim has its owner, the claim ends up orphaned exactly when some claim was
      abandoned on the way. */
  lemma {:induction false} OrphanedIff(sys: Overlap, atoms: seq<Atom>)
    requires Guarded(sys) && Legal(sys, atoms) && (sys.session.staging <==> sys.owners != {})
    ensures Orphaned(Execute(sys, atoms)) <==> exists k :: 0 <= k < |atoms| && atoms[k].Abandon?
    ensures Orphaned(Execute(sys, atoms)) ||
            (Execute(sys, atoms).session.staging <==> Execute(sys, atoms).owners != {})
    decreases |atoms|
  {
    hide Legal, Guarded, Act;
    if atoms != [] {
      var init, last := atoms[..|atoms| - 1], atoms[|atoms| - 1];
      LegalNext(sys, atoms);
      OrphanedIff(sys, init);
      StagingIsExclusive(sys, init);
      OrphanStep(Execute(sys, init), last);
    }
  }

  /** An orphaned claim is never released: no later claim wins and no later plan is published. */
  lemma {:induction false} AbandonedClaimIsNeverReleased(sys: Overlap, atoms: seq<Atom>)
    requires Guarded(sys) && Orphaned(sys) && Legal(sys, atoms)
    ensures Orphaned(Execute(sys, atoms)) && Execute(sys, atoms).published == sys.published
    decreases |atoms|
  {
    hide Legal, Guarded, Act;
    if atoms != [] {
      var init := atoms[..|atoms| - 1];
      LegalNext(sys, atoms);
      AbandonedClaimIsNeverReleased(sys, init);
      StagingIsExclusive(sys, init);
      OrphanStep(Execute(sys, init), atoms[|atoms| - 1]);
    }
  }

  /** A new session gets there in two steps. */
  lemma OrphanIsReachable(known: bool, window: nat) returns (atoms: seq<Atom>)
    ensures Legal(Initial(known, window), atoms) && Orphaned(Execute(Initial(known, window), atoms))
    ensures Guarded(Initial(known, window)) && atoms == [Claim(0), Abandon(0)]
  {
    var sys := Initial(known, window);
    LegalGrows(sys, [], Claim(0));
    assert [] + [Claim(0)] == [Claim(0)];
    LegalGrows(sys, [Claim(0)], Abandon(0));
    atoms := [Claim(0)] + [Abandon(0)];
  }

  // ---- the floor under overlap ----

  /** The floor only rises, in every interleaving. */
  lemma {:induction false} FloorRisesInEveryInterleaving(sys: Overlap, atoms: seq<Atom>)
    ensures sys.session.lastMessageCount <= Execute(sys, atoms).session.lastMessageCount
  {
    if atoms != [] { FloorRisesInEveryInterleaving(sys, atoms[..|atoms| - 1]); }
  }

  predicate Opening(a: Atom) { a.Snapshot? && a.count.Some? }

  /** What the session knows of an interleaving from a new session: the counts sent, the largest
      snapshot, and whether a shut came after every opening. */
  ghost predicate Knows(sys: Overlap, atoms: seq<Atom>) {
    (forall n :: n in sys.sent <==> exists k :: 0 <= k < |atoms| && atoms[k].Send? && atoms[k].n == n) &&
    (forall k :: 0 <= k < |atoms| && Opening(atoms[k]) ==> atoms[k].count.value <= sys.session.lastMessageCount) &&
    (sys.session.lastMessageCount == 0 ||
     exists k :: 0 <= k < |atoms| && Opening(atoms[k]) && atoms[k].count.value == sys.session.lastMessageCount) &&
    (sys.session.windowClosed <==>
     forall k :: 0 <= k < |atoms| && Opening(atoms[k]) ==> exists j :: k < j < |atoms| && atoms[j].Shut?)
  }

  lemma KnowsSent(sys: Overlap, atoms: seq<Atom>, a: Atom, n: nat)
    requires n in sys.sent <==> exists k :: 0 <= k < |atoms| && atoms[k].Send? && atoms[k].n == n
    ensures n in Act(sys, a).sent <==>
            exists k :: 0 <= k < |atoms + [a]| && (atoms + [a])[k].Send? && (atoms + [a])[k].n == n
  {
    var all := atoms + [a];
    if n in sys.sent {
      var k :| 0 <= k < |atoms| && atoms[k].Send? && atoms[k].n == n;
      assert all[k] == atoms[k];
    }
    if a.Send? && a.n == n { assert all[|atoms|] == a; }
    if k :| 0 <= k < |all| && all[k].Send? && all[k].n == n {
      if k < |atoms| { assert atoms[k] == all[k]; }
    }
  }

  lemma KnowsFloor(sys: Overlap, atoms: seq<Atom>, a: Atom)
    requires Knows(sys, atoms)
    ensures var all, floor := atoms + [a], Act(sys, a).session.lastMessageCount;
            (forall k :: 0 <= k < |all| && Opening(all[k]) ==> all[k].count.value <= floor) &&
            (floor == 0 || exists k :: 0 <= k < |all| && Opening(all[k]) && all[k].count.value == floor)
  {
    var all, floor := atoms + [a], Act(sys, a).session.lastMessageCount;
    if floor == sys.session.lastMessageCount && floor != 0 {
      var k :| 0 <= k < |atoms| && Opening(atoms[k]) && atoms[k].count.value == floor;
      assert all[k] == atoms[k];
    } else if floor != 0 {
      assert Opening(all[|atoms|]);
    }
    forall k | 0 <= k < |all| && Opening(all[k]) ensures all[k].count.value <= floor {
      if k < |atoms| { assert all[k] == atoms[k]; }
    }
  }

  lemma KnowsWindow(sys: Overlap, atoms: seq<Atom>, a: Atom)
    requires Knows(sys, atoms)
    ensures var all := atoms + [a];
            Act(sys, a).session.windowClosed <==>
            forall k :: 0 <= k < |all| && Opening(all[k]) ==> exists j :: k < j < |all| && all[j].Shut?
  {
    var all := atoms + [a];
    assert all[|atoms|] == a;
    if Opening(a) {
      assert !Act(sys, a).session.windowClosed;
      assert Opening(all[|atoms|]);
    } else if a.Shut? {
      forall k | 0 <= k < |all| && Opening(all[k]) ensures exists j :: k < j < |all| && all[j].Shut? {
        assert all[|atoms|].Shut? && k < |atoms|;
      }
    } else {
      assert Act(sys, a).session.windowClosed == sys.session.windowClosed;
      if sys.session.windowClosed {
        forall k | 0 <= k < |all| && Opening(all[k]) ensures exists j :: k < j < |all| && all[j].Shut? {
          assert Opening(atoms[k]);
          var j :| k < j < |atoms| && atoms[j].Shut?;
          assert all[j].Shut?;
        }
      } else {
        var k :| 0 <= k < |atoms| && Opening(atoms[k]) && forall j :: k < j < |atoms| ==> !atoms[j].Shut?;
        assert Opening(all[k]) && forall j :: k < j < |all| ==> !all[j].Shut?;
      }
    }
  }

  lemma {:induction false} SessionKnows(known: bool, window: nat, atoms: seq<Atom>)
    ensures Knows(Execute(Initial(known, window), atoms), atoms)
  {
    if atoms != [] {
      var init, last := atoms[..|atoms| - 1], atoms[|atoms| - 1];
      var sys := Execute(Initial(known, window), init);
      SessionKnows(known, window, init);
      assert atoms == init + [last];
      forall n { KnowsSent(sys, init, last, n); }
      KnowsFloor(sys, init, last);
      KnowsWindow(sys, init, last);
      hide Act;
    }
  }

  /** Every count sent so far is at most the floor. */
  ghost predicate Covered(sys: Overlap) { forall n :: n in sys.sent ==> n <= sys.session.lastMessageCount }

  /** Every request sent is matched by a snapshot at least as long. */
  ghost predicate SendsMatched(atoms: seq<Atom>) {
    forall k :: 0 <= k < |atoms| && atoms[k].Send? && atoms[k].n > 0 ==>
      exists j :: 0 <= j < |atoms| && Opening(atoms[j]) && atoms[k].n <= atoms[j].count.value
  }

  ghost predicate ShutAfterOpenings(atoms: seq<Atom>) {
    forall k :: 0 <= k < |atoms| && Opening(atoms[k]) ==> exists j :: k < j < |atoms| && atoms[j].Shut?
  }

  /** The promise of the window in any interleaving holds exactly when a shut came after every opening
      snapshot, or every request sent is matched by a snapshot at least as long. */
  lemma InterleavedPromiseIff(known: bool, window: nat, atoms: seq<Atom>)
    ensures var sys := Execute(Initial(known, window), atoms);
            (!sys.session.windowClosed ==> Covered(sys)) <==> ShutAfterOpenings(atoms) || SendsMatched(atoms)
  {
    SessionKnows(known, window, atoms);
    var sys := Execute(Initial(known, window), atoms);
    var floor := sys.session.lastMessageCount;
    hide Execute;
    assert Covered(sys) <==> SendsMatched(atoms) by {
      if Covered(sys) {
        forall k | 0 <= k < |atoms| && atoms[k].Send? && atoms[k].n > 0
          ensures exists j :: 0 <= j < |atoms| && Opening(atoms[j]) && atoms[k].n <= atoms[j].count.value
        {
          assert atoms[k].n in sys.sent;
        }
      }
      if SendsMatched(atoms) {
        forall n | n in sys.sent ensures n <= floor {
          var k :| 0 <= k < |atoms| && atoms[k].Send? && atoms[k].n == n;
        }
      }
    }
  }

  // ---- turns as programs ----

  /** The step was taken before position `k`. */
  ghost predicate Done(atoms: seq<Atom>, k: nat, a: Atom) { exists j :: 0 <= j < k && j < |atoms| && atoms[j] == a }

  /** Every step is one of a turn's program: an inspected turn takes its inputs, snapshots the body it
      forwards and sends it; an uninspected turn shuts the window and sends. */
  ghost predicate Programs(atoms: seq<Atom>) {
    (forall k :: 0 <= k < |atoms| && atoms[k].Send? ==>
       Done(atoms, k, Shut(atoms[k].turn)) || Done(atoms, k, Snapshot(atoms[k].turn, Some(atoms[k].n)))) &&
    (forall k :: 0 <= k < |atoms| && Opening(atoms[k]) ==> Done(atoms, k, Take(atoms[k].turn)))
  }

  /** An inspected turn that starts after an uninspected one has at least as many messages. */
  ghost predicate GrowsAcross(atoms: seq<Atom>) {
    forall a, s, e, c ::
      0 <= a < e < |atoms| && 0 <= s < |atoms| && 0 <= c < |atoms| &&
      atoms[a].Shut? && atoms[s].Send? && atoms[s].turn == atoms[a].turn &&
      atoms[e].Take? && Opening(atoms[c]) && atoms[c].turn == atoms[e].turn ==>
        atoms[s].n <= atoms[c].count.value
  }

  /** No window is shut between an inspected turn's read of its inputs and its snapshot. */
  ghost predicate NoStraddle(atoms: seq<Atom>) {
    forall e, a, c ::
      0 <= e < a < c < |atoms| && atoms[e].Take? && Opening(atoms[c]) && atoms[c].turn == atoms[e].turn ==>
          !atoms[a].Shut?
  }

  /** Turns that grow and do not straddle keep the promise, however else they overlap. */
  lemma UnstraddledWindowCovers(known: bool, window: nat, atoms: seq<Atom>)
    requires Programs(atoms) && GrowsAcross(atoms) && NoStraddle(atoms)
    ensures var sys := Execute(Initial(known, window), atoms); !sys.session.windowClosed ==> Covered(sys)
  {
    InterleavedPromiseIff(known, window, atoms);
    hide Execute, Programs, GrowsAcross, NoStraddle, Covered;
    if !ShutAfterOpenings(atoms) {
      var c :| 0 <= c < |atoms| && Opening(atoms[c]) && forall j :: c < j < |atoms| ==> !atoms[j].Shut?;
      forall k | 0 <= k < |atoms| && atoms[k].Send? && atoms[k].n > 0
        ensures exists j :: 0 <= j < |atoms| && Opening(atoms[j]) && atoms[k].n <= atoms[j].count.value
      {
        var j := SendIsMatched(atoms, k, c);
      }
      assert SendsMatched(atoms);
    }
  }

  lemma SendIsMatched(atoms: seq<Atom>, k: nat, c: nat) returns (j: nat)
    requires Programs(atoms) && GrowsAcross(atoms) && NoStraddle(atoms)
    requires k < |atoms| && atoms[k].Send?
    requires c < |atoms| && Opening(atoms[c]) && forall i :: c < i < |atoms| ==> !atoms[i].Shut?
    ensures j < |atoms| && Opening(atoms[j]) && atoms[k].n <= atoms[j].count.value
  {
    var e := TakenBefore(atoms, c);
    var before, sent := SentBy(atoms, k);
    j := if sent then before else c;
    if !sent {
      NotStraddled(atoms, e, before, c);
      GrowthCovers(atoms, before, k, e, c);
    }
  }

  lemma TakenBefore(atoms: seq<Atom>, c: nat) returns (e: nat)
    requires Programs(atoms) && c < |atoms| && Opening(atoms[c])
    ensures e < c && atoms[e] == Take(atoms[c].turn)
  {
    assert Done(atoms, c, Take(atoms[c].turn));
    e :| 0 <= e < c && atoms[e] == Take(atoms[c].turn);
  }

  /** The step of its own turn that a send follows: the snapshot of an inspected one, or a shut. */
  lemma SentBy(atoms: seq<Atom>, k: nat) returns (j: nat, inspected: bool)
    requires Programs(atoms) && k < |atoms| && atoms[k].Send?
    ensures j < k && atoms[j] == if inspected then Snapshot(atoms[k].turn, Some(atoms[k].n)) else Shut(atoms[k].turn)
  {
    inspected := Done(atoms, k, Snapshot(atoms[k].turn, Some(atoms[k].n)));
    if inspected {
      j :| 0 <= j < k && atoms[j] == Snapshot(atoms[k].turn, Some(atoms[k].n));
    } else {
      assert Done(atoms, k, Shut(atoms[k].turn));
      j :| 0 <= j < k && atoms[j] == Shut(atoms[k].turn);
    }
  }

  lemma NotStraddled(atoms: seq<Atom>, e: nat, a: nat, c: nat)
    requires NoStraddle(atoms) && e < c < |atoms| && a < |atoms| && atoms[a].Shut?
    requires Opening(atoms[c]) && atoms[e] == Take(atoms[c].turn)
    requires forall i :: c < i < |atoms| ==> !atoms[i].Shut?
    ensures a < e
  {
  }

  lemma GrowthCovers(atoms: seq<Atom>, a: nat, s: nat, e: nat, c: nat)
    requires GrowsAcross(atoms) && a < e < |atoms| && s < |atoms| && c < |atoms|
    requires atoms[a].Shut? && atoms[s].Send? && atoms[s].turn == atoms[a].turn
    requires Opening(atoms[c]) && atoms[e] == Take(atoms[c].turn)
    ensures atoms[s].n <= atoms[c].count.value
  {
  }

  /** In every such interleaving, a leaf an interception newly commits was in no request sent before
      it read its inputs. */
  lemma FreshLeavesAreUnsent(
    known: bool, window: nat, atoms: seq<Atom>, body: Body, w: World, choice: Choice, key: Key) returns (k: nat)
    requires Programs(atoms) && GrowsAcross(atoms) && NoStraddle(atoms)
    requires key in Committed(OutcomeOf(Execute(Initial(known, window), atoms).session, Some(body), w, choice, false))
    ensures k < |Segments(body)|
    ensures var seg := Segments(body)[k];
            KeyOf(body, seg, w) == key && seg.sources != [] &&
            forall n, j :: n in Execute(Initial(known, window), atoms).sent && 0 <= j < |seg.sources| ==>
                seg.sources[j] >= n
  {
    hide Intercept.Intercept, Segments, Execute, KeyOf, Programs, GrowsAcross, NoStraddle;
    var sys := Execute(Initial(known, window), atoms);
    k := CommittedIsUncached(body, InputsOf(sys.session), w, choice, key);
    UnstraddledWindowCovers(known, window, atoms);
  }

  lemma ExecuteNext(sys: Overlap, atoms: seq<Atom>, a: Atom)
    ensures Execute(sys, atoms + [a]) == Act(Execute(sys, atoms), a)
  {
    assert (atoms + [a])[..|atoms|] == atoms;
  }

  lemma ExecuteFive(sys: Overlap, a: Atom, b: Atom, c: Atom, d: Atom, e: Atom)
    ensures Execute(sys, [a, b, c, d, e]) == Act(Act(Act(Act(Act(sys, a), b), c), d), e)
  {
    hide Act;
    ExecuteNext(sys, [], a);
    ExecuteNext(sys, [a], b);
    ExecuteNext(sys, [a, b], c);
    ExecuteNext(sys, [a, b, c], d);
    ExecuteNext(sys, [a, b, c, d], e);
    assert [] + [a] == [a] && [a] + [b] == [a, b] && [a, b] + [c] == [a, b, c];
    assert [a, b, c] + [d] == [a, b, c, d] && [a, b, c, d] + [e] == [a, b, c, d, e];
  }

  const STRADDLING: seq<Atom> := [Take(0), Shut(1), Send(1, 12), Snapshot(0, Some(10)), Send(0, 10)]

  lemma StraddlingIsAProgram()
    ensures Programs(STRADDLING)
  {
    var atoms := STRADDLING;
    forall k | 0 <= k < |atoms| && atoms[k].Send?
      ensures Done(atoms, k, Shut(atoms[k].turn)) || Done(atoms, k, Snapshot(atoms[k].turn, Some(atoms[k].n)))
    {
      if k == 2 { DoneAt(atoms, 1, k); } else { DoneAt(atoms, 3, k); }
    }
    forall k | 0 <= k < |atoms| && Opening(atoms[k]) ensures Done(atoms, k, Take(atoms[k].turn)) {
      DoneAt(atoms, 0, k);
    }
    hide Done;
  }

  lemma DoneAt(atoms: seq<Atom>, j: nat, k: nat)
    requires j < k && j < |atoms|
    ensures Done(atoms, k, atoms[j])
  {
  }

  /** Nothing to compare when no turn takes its inputs after a shut. */
  lemma NoTakeAfterShut(atoms: seq<Atom>, last: nat)
    requires forall e :: 0 <= e < |atoms| && atoms[e].Take? ==> e <= last
    requires forall a :: 0 <= a < |atoms| && atoms[a].Shut? ==> last <= a
    ensures GrowsAcross(atoms)
  {
  }

  lemma StraddlingGrows()
    ensures GrowsAcross(STRADDLING)
  {
    hide GrowsAcross;
    NoTakeAfterShut(STRADDLING, 0);
  }

  lemma StraddlingStraddles()
    ensures !NoStraddle(STRADDLING)
  {
    var atoms := STRADDLING;
    assert atoms[0].Take? && atoms[1].Shut? && Opening(atoms[3]) && atoms[3].turn == atoms[0].turn;
  }

  /** A killed forward of twelve messages between an inspected turn's read and its snapshot of ten
      leaves an open window whose floor lies below what was sent: growth alone does not help. */
  lemma OverlapBreaksTheFloor(known: bool, window: nat) returns (atoms: seq<Atom>)
    ensures Programs(atoms) && GrowsAcross(atoms) && !NoStraddle(atoms)
    ensures var sys := Execute(Initial(known, window), atoms); !sys.session.windowClosed && !Covered(sys)
  {
    hide Programs, GrowsAcross, NoStraddle;
    atoms := STRADDLING;
    StraddlingIsAProgram();
    StraddlingGrows();
    StraddlingStraddles();
    ExecuteFive(Initial(known, window), Take(0), Shut(1), Send(1, 12), Snapshot(0, Some(10)), Send(0, 10));
    hide Execute;
    var sys := Execute(Initial(known, window), atoms);
    assert 12 in sys.sent && sys.session.lastMessageCount == 10;
  }

  /** The same gap without overlap, when a later request is shorter than an uninspected one. */
  lemma ShrinkingTranscriptBreaksTheFloor(known: bool, window: nat, w: World, choice: Choice, m: Message)
    returns (turns: seq<Turn>)
    ensures var s := SessionFor(Run(Unborn(known, window), turns));
            !s.windowClosed && !FloorCovers(s, turns)
  {
    var long, short := Body(None, None, [m, m], 1), Body(None, None, [m], 1);
    var t0, t1 := Killed(Some(long)), Inspected(Some(short), w, choice, true);
    turns := [t0, t1];
    var p0 := Unborn(known, window);
    assert turns[..1] == [t0] && [t0][..0] == [];
    assert Run(p0, [t0]) == Step(Run(p0, []), t0);
    assert Run(p0, turns) == Step(Run(p0, [t0]), t1);
    FloorAfter(p0, t0);
    FloorAfter(Run(p0, [t0]), t1);
    assert Sent(turns[0]) == Some(2) && Sent(t1) == Some(1);
  }
}
