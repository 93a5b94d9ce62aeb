/** Splicing rendered blocks into a body, and the validity gate behind it. */
module Rewrite {
  import opened Basics
  import opened Wire
  import opened Targets

  const HINT := "cache_control"
  const CACHE_HINT_CAP := 4

  datatype RewriteError = TargetOutOfRange

  datatype Result<+T> = Ok(value: T) | Err(error: RewriteError)

  // ---- cache hints ----

  const EPHEMERAL: Json := Opaque("{\"type\":\"ephemeral\"}")

  function StripHint(b: Block, printer: Printer): Block {
    if b.Object? then (var f := b.fields - {HINT}; Object(printer.block(f), f)) else b
  }

  function AddHint(b: Block, printer: Printer): Block {
    if b.Object? then (var f := b.fields[HINT := EPHEMERAL]; Object(printer.block(f), f)) else b
  }

  function SetHint(c: Content, wantsHint: bool, printer: Printer): Result<Content> {
    match c
    case Text(_, text) =>
      Ok(if wantsHint then Blocks([AddHint(Object("", TextFields(text)), printer)]) else Text(printer.text(text), text))
    case Blocks(bs) =>
      var bare := seq(|bs|, j requires 0 <= j < |bs| => StripHint(bs[j], printer));
      if !wantsHint then Ok(Blocks(bare))
      else if bare == [] then Err(TargetOutOfRange)
      else Ok(Blocks(bare[|bare| - 1 := AddHint(bare[|bare| - 1], printer)]))
  }

  // ---- the splice ----

  /** Puts the renderings that target message `i` into its content, in order. */
  function Overwrite(i: nat, c: Content, rs: seq<Rendered>): Result<Content>
    decreases |rs|
  {
    if rs == [] then Ok(c)
    else if rs[0].message != i then Overwrite(i, c, rs[1..])
    else
      match rs[0].at
      case None => Overwrite(i, Blocks([rs[0].block]), rs[1..])
      case Some(j) =>
        if c.Blocks? && j < |c.blocks| then Overwrite(i, Blocks(c.blocks[j := rs[0].block]), rs[1..])
        else Err(TargetOutOfRange)
  }

  predicate Touched(i: nat, rs: seq<Rendered>) { exists k :: 0 <= k < |rs| && rs[k].message == i }

  /** A message without targets, wanted hint or mention of a hint stays verbatim. */
  function EditSpec(
    i: nat, m: Message, rs: seq<Rendered>, wantsHint: bool, mentionsHint: Message -> bool, printer: Printer):
    Result<Message>
  {
    if !Touched(i, rs) && !wantsHint && !mentionsHint(m) then Ok(m)
    else
      match Overwrite(i, m.content, rs)
      case Err(e) => Err(e)
      case Ok(c) => (match SetHint(c, wantsHint, printer) case Err(e) => Err(e) case Ok(c') => Ok(Message(m.role, c')))
  }

  method EditMessage(
    i: nat, m: Message, rs: seq<Rendered>, wantsHint: bool, mentionsHint: Message -> bool, printer: Printer)
    returns (r: Result<Message>)
    ensures r == EditSpec(i, m, rs, wantsHint, mentionsHint, printer)
  {
    if !Touched(i, rs) && !wantsHint && !mentionsHint(m) { return Ok(m); }
    var content := m.content;
    var k := 0;
    while k < |rs|
      invariant k <= |rs|
      invariant Overwrite(i, content, rs[k..]) == Overwrite(i, m.content, rs)
    {
      assert rs[k..][1..] == rs[k + 1..];
      if rs[k].message == i {
        match rs[k].at {
          case None => content := Blocks([rs[k].block]);
          case Some(j) =>
            if !content.Blocks? || j >= |content.blocks| { return Err(TargetOutOfRange); }
            content := Blocks(content.blocks[j := rs[k].block]);
        }
      }
      k := k + 1;
    }
    match SetHint(content, wantsHint, printer) {
      case Err(e) => r := Err(e);
      case Ok(c) => r := Ok(Message(m.role, c));
    }
  }

  /** The planned hint positions that survive the cap, the latest kept. */
  function KeptHints(positions: seq<nat>, messages: nat, prefixHints: nat): (kept: seq<nat>)
    ensures |kept| <= CACHE_HINT_CAP && (prefixHints <= CACHE_HINT_CAP ==> |kept| + prefixHints <= CACHE_HINT_CAP)
  {
    var wanted := InRange(positions, messages);
    var cap := if prefixHints <= CACHE_HINT_CAP then CACHE_HINT_CAP - prefixHints else 0;
    if |wanted| <= cap then wanted else wanted[|wanted| - cap..]
  }

  function InRange(positions: seq<nat>, n: nat): seq<nat> {
    if positions == [] then [] else (if positions[0] < n then [positions[0]] else []) + InRange(positions[1..], n)
  }

  function SpliceFrom(
    i: nat, msgs: seq<Message>, rs: seq<Rendered>, kept: seq<nat>, mentionsHint: Message -> bool, printer: Printer):
    Result<seq<Message>>
    requires i <= |msgs|
    decreases |msgs| - i
  {
    if i == |msgs| then Ok([])
    else
      match EditSpec(i, msgs[i], rs, i in kept, mentionsHint, printer)
      case Err(e) => Err(e)
      case Ok(m) =>
        (match SpliceFrom(i + 1, msgs, rs, kept, mentionsHint, printer)
         case Err(e) => Err(e)
         case Ok(rest) => Ok([m] + rest))
  }

  function Splice(
    body: Body, rs: seq<Rendered>, kept: seq<nat>, mentionsHint: Message -> bool, printer: Printer): Result<Body> {
    match SpliceFrom(0, body.messages, rs, kept, mentionsHint, printer)
    case Err(e) => Err(e)
    case Ok(msgs) => Ok(body.(messages := msgs))
  }

  lemma {:induction false} SpliceIsMessagewise(
    i: nat, msgs: seq<Message>, rs: seq<Rendered>, kept: seq<nat>, mentionsHint: Message -> bool, printer: Printer)
    requires i <= |msgs| && SpliceFrom(i, msgs, rs, kept, mentionsHint, printer).Ok?
    ensures var out := SpliceFrom(i, msgs, rs, kept, mentionsHint, printer).value;
            |out| == |msgs| - i &&
            forall k :: i <= k < |msgs| ==> EditSpec(k, msgs[k], rs, k in kept, mentionsHint, printer) == Ok(out[k - i])
    decreases |msgs| - i
  {
    hide EditSpec;
    if i < |msgs| { SpliceIsMessagewise(i + 1, msgs, rs, kept, mentionsHint, printer); }
  }

  // ---- what the splice puts where ----

  /** Equal but for a cache hint and the way the block is printed. */
  predicate SameUpToHint(b: Block, b': Block) {
    if b.Object? then b'.Object? && b'.fields - {HINT} == b.fields - {HINT} else b' == b
  }

  /** The last rendering at a place, if any: the one that shows. */
  function LastAt(i: nat, at: Option<nat>, rs: seq<Rendered>): Option<Block> {
    if rs == [] then None
    else
      var last := rs[|rs| - 1];
      if last.message == i && last.at == at then Some(last.block) else LastAt(i, at, rs[..|rs| - 1])
  }

  /** What message `i`'s content must become, hints aside. */
  ghost predicate Expected(i: nat, c: Content, rs: seq<Rendered>, c': Content) {
    if c.Blocks? then
      c'.Blocks? && |c'.blocks| == |c.blocks| &&
      forall j :: 0 <= j < |c.blocks| ==>
        c'.blocks[j] == (match LastAt(i, Some(j), rs) case Some(b) => b case None => c.blocks[j])
    else
      match LastAt(i, None, rs) case Some(b) => c' == Blocks([b]) case None => c' == c
  }

  lemma {:induction false} OverwriteConcat(i: nat, c: Content, rs: seq<Rendered>, r: Rendered)
    ensures Overwrite(i, c, rs + [r]) ==
            match Overwrite(i, c, rs) case Err(e) => Err(e) case Ok(c') => Overwrite(i, c', [r])
    decreases |rs|
  {
    if rs == [] {
      assert rs + [r] == [r];
    } else {
      assert (rs + [r])[1..] == rs[1..] + [r] && (rs + [r])[0] == rs[0];
      var c' := match rs[0].at
                case None => Blocks([rs[0].block])
                case Some(j) => if c.Blocks? && j < |c.blocks| then Blocks(c.blocks[j := rs[0].block]) else c;
      if rs[0].message == i { OverwriteConcat(i, c', rs[1..], r); } else { OverwriteConcat(i, c, rs[1..], r); }
    }
  }

  lemma OverwriteOne(i: nat, c: Content, r: Rendered)
    ensures Overwrite(i, c, [r]) ==
            if r.message != i then Ok(c)
            else match r.at
                 case None => Ok(Blocks([r.block]))
                 case Some(j) => if c.Blocks? && j < |c.blocks| then Ok(Blocks(c.blocks[j := r.block]))
                     else Err(TargetOutOfRange)
  {
    assert [r][1..] == [];
  }

  /** Renderings that fit the body always go in, and the last one at each place shows. */
  lemma {:induction false} FittingOverwrite(i: nat, msgs: seq<Message>, rs: seq<Rendered>)
    requires i < |msgs| && AllFit(rs, msgs)
    ensures Overwrite(i, msgs[i].content, rs).Ok?
    ensures Expected(i, msgs[i].content, rs, Overwrite(i, msgs[i].content, rs).value)
  {
    hide SamePairing, NoPairing;
    if rs != [] {
      var init, last := rs[..|rs| - 1], rs[|rs| - 1];
      assert rs == init + [last];
      FittingOverwrite(i, msgs, init);
      OverwriteConcat(i, msgs[i].content, init, last);
      OverwriteOne(i, Overwrite(i, msgs[i].content, init).value, last);
      assert Fits(last, msgs);
    }
  }

  /** How a content may differ from `c` by hints alone. */
  ghost predicate OnlyHintsDiffer(c: Content, c': Content) {
    match c
    case Blocks(bs) => c'.Blocks? && |c'.blocks| == |bs| && forall j :: 0 <= j < |bs| ==>
        SameUpToHint(bs[j], c'.blocks[j])
    case Text(_, text) =>
      if c'.Text? then c'.text == text
      else |c'.blocks| == 1 && SameUpToHint(Object("", TextFields(text)), c'.blocks[0])
  }

  lemma StripSame(b: Block, printer: Printer)
    ensures SameUpToHint(b, StripHint(b, printer)) && SameUpToHint(b, AddHint(b, printer))
    ensures SameUpToHint(b, AddHint(StripHint(b, printer), printer))
  {
    if b.Object? {
      assert (b.fields - {HINT}) - {HINT} == b.fields - {HINT};
      assert b.fields[HINT := EPHEMERAL] - {HINT} == b.fields - {HINT};
      assert (b.fields - {HINT})[HINT := EPHEMERAL] - {HINT} == b.fields - {HINT};
    }
  }

  lemma SetHintOnlyHints(c: Content, wantsHint: bool, printer: Printer)
    requires SetHint(c, wantsHint, printer).Ok?
    ensures OnlyHintsDiffer(c, SetHint(c, wantsHint, printer).value)
  {
    hide StripHint, AddHint, SameUpToHint;
    match c {
      case Text(_, text) => StripSame(Object("", TextFields(text)), printer);
      case Blocks(bs) =>
        forall j | 0 <= j < |bs| ensures SameUpToHint(bs[j], SetHint(c, wantsHint, printer).value.blocks[j]) {
          StripSame(bs[j], printer);
        }
    }
  }

  /** Position by position, the spliced body holds the last rendering put there, or the original
      block, up to its cache hint. */
  lemma SpliceIsExact(
    body: Body, rs: seq<Rendered>, kept: seq<nat>, mentionsHint: Message -> bool, printer: Printer, i: nat)
    requires AllFit(rs, body.messages) && i < |body.messages|
    requires Splice(body, rs, kept, mentionsHint, printer).Ok?
    ensures var out := Splice(body, rs, kept, mentionsHint, printer).value;
            out.system == body.system && out.tools == body.tools && out.maxTokens == body.maxTokens &&
            |out.messages| == |body.messages| && out.messages[i].role == body.messages[i].role &&
            exists c :: Expected(i, body.messages[i].content, rs, c) && OnlyHintsDiffer(c, out.messages[i].content)
  {
    hide SetHint, SamePairing, NoPairing, SameUpToHint;
    var m := body.messages[i];
    SpliceIsMessagewise(0, body.messages, rs, kept, mentionsHint, printer);
    FittingOverwrite(i, body.messages, rs);
    var c := Overwrite(i, m.content, rs).value;
    if Touched(i, rs) || i in kept || mentionsHint(m) {
      SetHintOnlyHints(c, i in kept, printer);
    } else {
      UntouchedExpected(i, m.content, rs, c);
      ReflexiveUpToHint(m.content);
    }
  }

  lemma ReflexiveUpToHint(c: Content)
    ensures OnlyHintsDiffer(c, c)
  {
  }

  lemma {:induction false} UntouchedHasNoLast(i: nat, at: Option<nat>, rs: seq<Rendered>)
    requires !Touched(i, rs)
    ensures LastAt(i, at, rs) == None
  {
    if rs != [] {
      var init := rs[..|rs| - 1];
      assert rs[|rs| - 1].message != i;
      assert !Touched(i, init) by {
        forall k | 0 <= k < |init| ensures init[k].message != i { assert init[k] == rs[k]; }
      }
      UntouchedHasNoLast(i, at, init);
    }
  }

  lemma UntouchedExpected(i: nat, c: Content, rs: seq<Rendered>, c': Content)
    requires !Touched(i, rs) && Expected(i, c, rs, c')
    ensures c' == c
  {
    hide Touched;
    UntouchedHasNoLast(i, None, rs);
    if c.Blocks? {
      forall j | 0 <= j < |c.blocks| ensures c'.blocks[j] == c.blocks[j] { UntouchedHasNoLast(i, Some(j), rs); }
      assert c'.blocks == c.blocks;
    }
  }

  // ---- tool pairing survives ----

  /** Same part in tool pairing, block by block; a string content has no part in it. */
  ghost predicate PairingKept(c: Content, c': Content) {
    if c.Blocks? then
      c'.Blocks? && |c'.blocks| == |c.blocks| && forall j :: 0 <= j < |c.blocks| ==>
          SamePairing(c.blocks[j], c'.blocks[j])
    else forall j :: 0 <= j < |BlocksOf(c')| ==> NoPairing(BlocksOf(c')[j])
  }

  lemma HintKeepsPairing(b: Block, b': Block)
    requires SameUpToHint(b, b')
    ensures SamePairing(b, b')
  {
    if b.Object? {
      SameField(b, b', "type");
      SameField(b, b', "id");
      SameField(b, b', "tool_use_id");
      SameField(b, b', "name");
    }
  }

  /** A hint is no other field. */
  lemma SameField(b: Block, b': Block, key: string)
    requires b.Object? && b'.Object? && b'.fields - {HINT} == b.fields - {HINT} && key != HINT
    ensures key in b.fields <==> key in b'.fields
    ensures key in b.fields ==> b.fields[key] == b'.fields[key]
  {
    assert key in b.fields <==> key in b.fields - {HINT};
    assert key in b'.fields <==> key in b'.fields - {HINT};
    assert key in b.fields ==> (b.fields - {HINT})[key] == b.fields[key];
    assert key in b'.fields ==> (b'.fields - {HINT})[key] == b'.fields[key];
  }

  lemma PairingIsTransitive(a: Block, b: Block, c: Block)
    requires SamePairing(a, b) && SamePairing(b, c)
    ensures SamePairing(a, c)
  {
  }

  lemma {:induction false} LastFits(i: nat, at: Option<nat>, rs: seq<Rendered>, msgs: seq<Message>)
    requires AllFit(rs, msgs) && LastAt(i, at, rs).Some?
    ensures Fits(Rendered(i, at, LastAt(i, at, rs).value), msgs)
  {
    hide Fits;
    var last := rs[|rs| - 1];
    assert Fits(last, msgs);
    if last.message == i && last.at == at {
      assert last == Rendered(i, at, last.block);
    } else {
      LastFits(i, at, rs[..|rs| - 1], msgs);
    }
  }

  lemma ExpectedKeepsPairing(i: nat, msgs: seq<Message>, rs: seq<Rendered>, c: Content)
    requires i < |msgs| && AllFit(rs, msgs) && Expected(i, msgs[i].content, rs, c)
    ensures PairingKept(msgs[i].content, c)
  {
    hide LastAt, Kind, ToolUseId;
    var m := msgs[i].content;
    if m.Blocks? {
      forall j | 0 <= j < |m.blocks| ensures SamePairing(m.blocks[j], c.blocks[j]) {
        if LastAt(i, Some(j), rs).Some? { LastFits(i, Some(j), rs, msgs); }
      }
    } else if LastAt(i, None, rs).Some? {
      LastFits(i, None, rs, msgs);
    }
  }

  lemma HintsKeepPairing(m: Content, c: Content, c': Content)
    requires PairingKept(m, c) && OnlyHintsDiffer(c, c')
    ensures PairingKept(m, c')
  {
    hide SameUpToHint, SamePairing, NoPairing;
    match c {
      case Blocks(bs) =>
        forall j | 0 <= j < |bs| ensures SamePairing(bs[j], c'.blocks[j]) { HintKeepsPairing(bs[j], c'.blocks[j]); }
        if m.Blocks? {
          forall j | 0 <= j < |bs| ensures SamePairing(m.blocks[j], c'.blocks[j]) {
            PairingIsTransitive(m.blocks[j], bs[j], c'.blocks[j]);
          }
        } else {
          forall j | 0 <= j < |bs| ensures NoPairing(c'.blocks[j]) {
            assert NoPairing(BlocksOf(c)[j]);
            NoPairingTransfers(bs[j], c'.blocks[j]);
          }
        }
      case Text(_, text) =>
        if c'.Blocks? {
          HintKeepsPairing(Object("", TextFields(text)), c'.blocks[0]);
          TextHasNoPairing(text);
          NoPairingTransfers(Object("", TextFields(text)), c'.blocks[0]);
        }
    }
  }

  lemma NoPairingTransfers(b: Block, b': Block)
    requires NoPairing(b) && SamePairing(b, b')
    ensures NoPairing(b')
  {
  }

  lemma TextHasNoPairing(text: string)
    ensures NoPairing(Object("", TextFields(text)))
  {
  }

  // ---- the gate ----

  function Roles(body: Body): seq<Role> {
    seq(|body.messages|, i requires 0 <= i < |body.messages| => body.messages[i].role)
  }

  /** The ids of the blocks of one kind. */
  function IdsOf(msgs: seq<Message>, kind: BlockKind): set<string> {
    set i, j | 0 <= i < |msgs| && 0 <= j < |BlocksOf(msgs[i].content)| &&
      Kind(BlocksOf(msgs[i].content)[j]) == kind && ToolUseId(BlocksOf(msgs[i].content)[j]).Some? ::
      ToolUseId(BlocksOf(msgs[i].content)[j]).value
  }

  datatype Verdict = Pass | ToolPairBroken | RoleDropped

  /** The pair and role checks of the gate, in its order. */
  function CheckPairsAndRoles(original: Body, rewritten: Body): Verdict {
    if IdsOf(rewritten.messages, ToolUse) != IdsOf(rewritten.messages, ToolResult) then ToolPairBroken
    else if Roles(original) != Roles(rewritten) then RoleDropped
    else Pass
  }

  ghost predicate AllPairingKept(a: seq<Message>, b: seq<Message>) {
    |a| == |b| && forall i :: 0 <= i < |a| ==> PairingKept(a[i].content, b[i].content)
  }

  lemma PairedIdsTransfer(c: Content, c': Content, kind: BlockKind, j: nat)
    requires PairingKept(c, c') && (kind == ToolUse || kind == ToolResult)
    ensures j < |BlocksOf(c)| && Kind(BlocksOf(c)[j]) == kind ==>
              j < |BlocksOf(c')| && Kind(BlocksOf(c')[j]) == kind &&
                  ToolUseId(BlocksOf(c')[j]) == ToolUseId(BlocksOf(c)[j])
    ensures j < |BlocksOf(c')| && Kind(BlocksOf(c')[j]) == kind ==>
              j < |BlocksOf(c)| && Kind(BlocksOf(c)[j]) == kind &&
                  ToolUseId(BlocksOf(c)[j]) == ToolUseId(BlocksOf(c')[j])
  {
    hide Kind, ToolUseId;
  }

  lemma SameIds(a: seq<Message>, b: seq<Message>, kind: BlockKind)
    requires AllPairingKept(a, b) && (kind == ToolUse || kind == ToolResult)
    ensures IdsOf(a, kind) == IdsOf(b, kind)
  {
    hide PairingKept, Kind, ToolUseId, BlocksOf;
    forall id | id in IdsOf(a, kind) ensures id in IdsOf(b, kind) {
      var i, j :| 0 <= i < |a| && 0 <= j < |BlocksOf(a[i].content)| && Kind(BlocksOf(a[i].content)[j]) == kind &&
        ToolUseId(BlocksOf(a[i].content)[j]) == Some(id);
      PairedIdsTransfer(a[i].content, b[i].content, kind, j);
    }
    forall id | id in IdsOf(b, kind) ensures id in IdsOf(a, kind) {
      var i, j :| 0 <= i < |b| && 0 <= j < |BlocksOf(b[i].content)| && Kind(BlocksOf(b[i].content)[j]) == kind &&
        ToolUseId(BlocksOf(b[i].content)[j]) == Some(id);
      PairedIdsTransfer(a[i].content, b[i].content, kind, j);
    }
  }

  /** Fitting renderings keep the roles and both id sets, so the gate's pair and role checks pass
      on the rewritten body exactly when the original's tool pairs balance. */
  lemma SpliceKeepsPairsAndRoles(
    body: Body, rs: seq<Rendered>, kept: seq<nat>, mentionsHint: Message -> bool, printer: Printer)
    requires AllFit(rs, body.messages) && Splice(body, rs, kept, mentionsHint, printer).Ok?
    ensures var out := Splice(body, rs, kept, mentionsHint, printer).value;
            Roles(out) == Roles(body) &&
            IdsOf(out.messages, ToolUse) == IdsOf(body.messages, ToolUse) &&
            IdsOf(out.messages, ToolResult) == IdsOf(body.messages, ToolResult) &&
            (CheckPairsAndRoles(body, out) == Pass <==>
                IdsOf(body.messages, ToolUse) == IdsOf(body.messages, ToolResult))
  {
    hide IdsOf, PairingKept, Expected, OnlyHintsDiffer, Splice;
    var out := Splice(body, rs, kept, mentionsHint, printer).value;
    SpliceLength(body, rs, kept, mentionsHint, printer);
    forall i | 0 <= i < |body.messages|
      ensures PairingKept(body.messages[i].content, out.messages[i].content) &&
              out.messages[i].role == body.messages[i].role
    {
      SpliceIsExact(body, rs, kept, mentionsHint, printer, i);
      var c :| Expected(i, body.messages[i].content, rs, c) && OnlyHintsDiffer(c, out.messages[i].content);
      ExpectedKeepsPairing(i, body.messages, rs, c);
      HintsKeepPairing(body.messages[i].content, c, out.messages[i].content);
    }
    SameIds(body.messages, out.messages, ToolUse);
    SameIds(body.messages, out.messages, ToolResult);
    assert Roles(out) == Roles(body);
  }

  lemma SpliceLength(body: Body, rs: seq<Rendered>, kept: seq<nat>, mentionsHint: Message -> bool, printer: Printer)
    requires Splice(body, rs, kept, mentionsHint, printer).Ok?
    ensures |Splice(body, rs, kept, mentionsHint, printer).value.messages| == |body.messages|
  {
    SpliceIsMessagewise(0, body.messages, rs, kept, mentionsHint, printer);
  }

  // ---- hints in the result ----

  predicate Hinted(b: Block) { b.Object? && HINT in b.fields }

  lemma SetHintPlacesHints(c: Content, wantsHint: bool, printer: Printer, j: nat)
    requires SetHint(c, wantsHint, printer).Ok?
    requires j < |BlocksOf(SetHint(c, wantsHint, printer).value)|
    ensures Hinted(BlocksOf(SetHint(c, wantsHint, printer).value)[j]) ==>
              wantsHint && j == |BlocksOf(SetHint(c, wantsHint, printer).value)| - 1
  {
  }

  /** A block of the result carries a hint only as the last block of a kept position. */
  lemma HintsOnlyWhereKept(
    body: Body, rs: seq<Rendered>, positions: seq<nat>, prefixHints: nat, mentionsHint: Message -> bool,
        printer: Printer, i: nat, j: nat)
    requires forall m: Message, k :: 0 <= k < |BlocksOf(m.content)| && Hinted(BlocksOf(m.content)[k]) ==>
             mentionsHint(m)
    requires var kept := KeptHints(positions, |body.messages|, prefixHints);
             Splice(body, rs, kept, mentionsHint, printer).Ok? && i < |body.messages| &&
             i < |Splice(body, rs, kept, mentionsHint, printer).value.messages| &&
             j < |BlocksOf(Splice(body, rs, kept, mentionsHint, printer).value.messages[i].content)|
    ensures var kept := KeptHints(positions, |body.messages|, prefixHints);
            var c := Splice(body, rs, kept, mentionsHint, printer).value.messages[i].content;
            Hinted(BlocksOf(c)[j]) ==> i in kept && j == |BlocksOf(c)| - 1
  {
    hide SetHint, Overwrite, Hinted, Touched, KeptHints;
    var kept := KeptHints(positions, |body.messages|, prefixHints);
    SpliceIsMessagewise(0, body.messages, rs, kept, mentionsHint, printer);
    var m := body.messages[i];
    if Touched(i, rs) || i in kept || mentionsHint(m) {
      SetHintPlacesHints(Overwrite(i, m.content, rs).value, i in kept, printer, j);
    }
  }

  /** The places of a body that carry a hint. */
  function HintedPlaces(msgs: seq<Message>): set<(int, int)> {
    set i: int, j: int | 0 <= i < |msgs| && 0 <= j < |BlocksOf(msgs[i].content)| &&
        Hinted(BlocksOf(msgs[i].content)[j]) ::
      (i, j)
  }

  /** One place per kept position: the last block of its message. */
  function LastPlaces(msgs: seq<Message>, kept: seq<nat>): (places: set<(int, int)>)
    ensures |places| <= |kept|
    ensures forall k :: k in kept && k < |msgs| ==> (k, |BlocksOf(msgs[k].content)| - 1) in places
  {
    if kept == [] then {}
    else
      LastPlaces(msgs, kept[1..]) + if kept[0] < |msgs| then {(kept[0], |BlocksOf(msgs[kept[0]].content)| - 1)} else {}
  }

  lemma {:induction false} SubsetIsSmaller<T>(a: set<T>, b: set<T>)
    requires a <= b
    ensures |a| <= |b|
  {
    if a != {} {
      var x :| x in a;
      SubsetIsSmaller(a - {x}, b - {x});
    }
  }

  lemma PlacesAreLast(msgs: seq<Message>, kept: seq<nat>)
    requires forall i, j ::
               0 <= i < |msgs| && 0 <= j < |BlocksOf(msgs[i].content)| && Hinted(BlocksOf(msgs[i].content)[j]) ==>
                 i in kept && j == |BlocksOf(msgs[i].content)| - 1
    ensures |HintedPlaces(msgs)| <= |kept|
  {
    hide Hinted, BlocksOf;
    forall p | p in HintedPlaces(msgs) ensures p in LastPlaces(msgs, kept) {
      assert p.0 in kept;
    }
    SubsetIsSmaller(HintedPlaces(msgs), LastPlaces(msgs, kept));
  }

  /** What the gate's cap is about: with the prefix's own hints, the hinted blocks of the result stay
      within the cap, unless the prefix alone exceeds it, and then no block is hinted. */
  lemma HintsStayWithinCap(
    body: Body, rs: seq<Rendered>, positions: seq<nat>, prefixHints: nat, mentionsHint: Message -> bool,
    printer: Printer)
    requires forall m: Message, k :: 0 <= k < |BlocksOf(m.content)| && Hinted(BlocksOf(m.content)[k]) ==>
             mentionsHint(m)
    requires Splice(body, rs, KeptHints(positions, |body.messages|, prefixHints), mentionsHint, printer).Ok?
    ensures var out := Splice(body, rs, KeptHints(positions, |body.messages|, prefixHints), mentionsHint,
            printer).value;
            |HintedPlaces(out.messages)| <= (if prefixHints <= CACHE_HINT_CAP then CACHE_HINT_CAP - prefixHints else 0)
  {
    hide Hinted, Splice, BlocksOf, HintedPlaces;
    var kept := KeptHints(positions, |body.messages|, prefixHints);
    var out := Splice(body, rs, kept, mentionsHint, printer).value;
    SpliceLength(body, rs, kept, mentionsHint, printer);
    forall i, j | 0 <= i < |out.messages| && 0 <= j < |BlocksOf(out.messages[i].content)| &&
                  Hinted(BlocksOf(out.messages[i].content)[j])
      ensures i in kept && j == |BlocksOf(out.messages[i].content)| - 1
    {
      HintsOnlyWhereKept(body, rs, positions, prefixHints, mentionsHint, printer, i, j);
    }
    PlacesAreLast(out.messages, kept);
  }
}
