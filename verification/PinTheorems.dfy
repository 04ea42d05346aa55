/** What every PIN run, and every sequence of runs, keeps. */
module PinTheorems {
  import opened Basics
  import opened PinFlows
  import opened PinScripts

  // ----- any card: the discipline of a run

  predicate IsModify(c: Command) {
    c.ChangePin? || c.ResetRetryCounter?
  }

  /** Each command that carries a PIN or PUK comes right after a token-info read
      that returned the bound serial. */
  ghost predicate Guarded(run: seq<Exchange>, bound: Serial) {
    forall i :: 0 <= i < |run| && IsModify(run[i].command) ==>
      0 < i && run[i - 1].command == ReadTokenInfo && IsBoundToken(run[i - 1].reply, bound)
  }

  /** The PIN- and PUK-bearing exchanges of a run, in order. */
  function Modifications(run: seq<Exchange>): seq<Exchange> {
    if run == [] then []
    else
      Modifications(run[..|run| - 1])
      + if IsModify(run[|run| - 1].command) then [run[|run| - 1]] else []
  }

  lemma {:induction false} ModificationsOfReads(run: seq<Exchange>)
    requires forall i :: 0 <= i < |run| ==> !IsModify(run[i].command)
    ensures Modifications(run) == []
    decreases |run|
  {
    if run != [] {
      ModificationsOfReads(run[..|run| - 1]);
    }
  }

  lemma {:induction false} ModificationsConcat(a: seq<Exchange>, b: seq<Exchange>)
    ensures Modifications(a + b) == Modifications(a) + Modifications(b)
    decreases |b|
  {
    if b == [] {
      assert a + b == a;
    } else {
      var shorter := b[..|b| - 1];
      assert (a + b)[..|a + b| - 1] == a + shorter;
      ModificationsConcat(a, shorter);
    }
  }

  lemma GuardedConcat(a: seq<Exchange>, b: seq<Exchange>, bound: Serial)
    requires Guarded(a, bound) && Guarded(b, bound)
    ensures Guarded(a + b, bound)
  {
    forall i | 0 <= i < |a + b| && IsModify((a + b)[i].command)
      ensures 0 < i && (a + b)[i - 1].command == ReadTokenInfo && IsBoundToken((a + b)[i - 1].reply, bound)
    {
      if i >= |a| {
        assert (a + b)[i] == b[i - |a|];
        assert (a + b)[i - 1] == b[i - |a| - 1];
      }
    }
  }

  /** One modification at the end of a run of reads. */
  lemma LastModification(quiet: seq<Exchange>, last: Exchange)
    requires forall i :: 0 <= i < |quiet| ==> !IsModify(quiet[i].command)
    ensures Modifications(quiet + [last]) == if IsModify(last.command) then [last] else []
  {
    ModificationsOfReads(quiet);
    assert (quiet + [last])[..|quiet|] == quiet;
  }

  /** Reads only, or four reads, the last of them of the bound serial, and one command. */
  ghost predicate OneCommand(run: seq<Exchange>, bound: Serial) {
    && |run| <= 5
    && (forall i :: 0 <= i < |run| && i < 4 ==> !IsModify(run[i].command))
    && (|run| == 5 ==> IsModify(run[4].command) && run[3].command == ReadTokenInfo && IsBoundToken(run[3].reply, bound))
  }

  lemma OneCommandGuarded(run: seq<Exchange>, bound: Serial)
    requires OneCommand(run, bound)
    ensures Guarded(run, bound)
  {
    forall i | 0 <= i < |run| && IsModify(run[i].command)
      ensures 0 < i && run[i - 1].command == ReadTokenInfo && IsBoundToken(run[i - 1].reply, bound)
    {
      assert i == 4;
    }
  }

  lemma OneCommandSent(run: seq<Exchange>, bound: Serial)
    requires OneCommand(run, bound)
    ensures Modifications(run) == if |run| == 5 then [run[4]] else []
  {
    if |run| == 5 {
      var quiet := run[..4];
      assert forall i :: 0 <= i < |quiet| ==> quiet[i] == run[i];
      LastModification(quiet, run[4]);
      assert run == quiet + [run[4]];
    } else {
      ModificationsOfReads(run);
    }
  }

  lemma ChangeScriptShape(x: seq<Exchange>, bound: Serial, slot: PinSlot, current: Pin, replacement: Pin,
                          result: Result<ChangePinOutcome, PinError>)
    requires ChangeScript(x, bound, slot, current, replacement, result)
    ensures OneCommand(x, bound)
    ensures |x| == 5 ==> x[4].command == ChangePin(slot, current, replacement)
    ensures |x| < 5 ==> result.Err? && result.error != TransportFailed
  {
  }

  /** A change run sends at most one modification, guarded, and reports it exactly. */
  lemma ChangeRunDiscipline<S(!new)>(respond: (S, Command) -> (S, Reply), s: S, bound: Serial, slot: PinSlot, current: Pin, replacement: Pin)
    ensures var run := ChangeRun(respond, s, bound, slot, current, replacement);
            var sent := Modifications(run.exchanges);
            && Guarded(run.exchanges, bound)
            && (run.result.Ok? ==>
                  && |sent| == 1 && sent[0].command == ChangePin(slot, current, replacement)
                  && sent[0].reply.Reply? && ChangeReported(sent[0].reply.sw, run.result.value))
            && (run.result.Err? && run.result.error != TransportFailed ==> sent == [])
  {
    var run := ChangeRun(respond, s, bound, slot, current, replacement);
    ChangeFollowsScript(respond, s, bound, slot, current, replacement);
    ChangeScriptShape(run.exchanges, bound, slot, current, replacement, run.result);
    OneCommandGuarded(run.exchanges, bound);
    OneCommandSent(run.exchanges, bound);
  }

  lemma UnblockScriptShape(x: seq<Exchange>, bound: Serial, slot: PinSlot, puk: Pin, replacement: Pin,
                           result: Result<UnblockOutcome, PinError>)
    requires UnblockScript(x, bound, slot, puk, replacement, result)
    ensures OneCommand(x, bound)
    ensures |x| == 5 ==> x[4].command == ResetRetryCounter(slot, puk, replacement)
    ensures |x| < 5 ==> result.Err? && result.error != TransportFailed
  {
  }

  lemma UnblockRunDiscipline<S(!new)>(respond: (S, Command) -> (S, Reply), s: S, bound: Serial, slot: PinSlot, puk: Pin, replacement: Pin)
    ensures var run := UnblockRun(respond, s, bound, slot, puk, replacement);
            var sent := Modifications(run.exchanges);
            && Guarded(run.exchanges, bound)
            && (run.result.Ok? ==>
                  && |sent| == 1 && sent[0].command == ResetRetryCounter(slot, puk, replacement)
                  && sent[0].reply.Reply? && ResetReported(sent[0].reply.sw, run.result.value))
            && (run.result.Err? && run.result.error != TransportFailed ==> sent == [])
  {
    var run := UnblockRun(respond, s, bound, slot, puk, replacement);
    UnblockFollowsScript(respond, s, bound, slot, puk, replacement);
    UnblockScriptShape(run.exchanges, bound, slot, puk, replacement, run.result);
    OneCommandGuarded(run.exchanges, bound);
    OneCommandSent(run.exchanges, bound);
  }

  lemma PreflightReadsOnly<S>(respond: (S, Command) -> (S, Reply), s: S, bound: Serial, generation: Generation)
    ensures var run := ActivationPreflight(respond, s, bound, generation).exchanges;
            Modifications(run) == [] && Guarded(run, bound)
  {
    ModificationsOfReads(ActivationPreflight(respond, s, bound, generation).exchanges);
  }

  /** A guarded setup sends its one command or none, and says which. */
  ghost predicate Disciplined(exchanges: seq<Exchange>, result: Result<UnblockOutcome, PinError>, bound: Serial,
                              generation: Generation, slot: PinSlot, code: Pin, replacement: Pin)
  {
    var sent := Modifications(exchanges);
    && Guarded(exchanges, bound)
    && |sent| <= 1
    && (sent != [] ==> SetsUp(sent[0].command, generation, slot, code, replacement))
    && (result.Ok? ==> |sent| == 1 && sent[0].reply.Reply? && SetupReported(generation, sent[0].reply.sw, result.value))
    && (result.Err? && sent != [] ==> sent[0].reply.NoReply?)
  }

  lemma ModificationsOfOne(e: Exchange)
    ensures Modifications([e]) == if IsModify(e.command) then [e] else []
  {
    assert [e][..0] == [];
  }

  lemma ModificationsOfTwo(x: Exchange, y: Exchange)
    ensures Modifications([x, y]) == (if IsModify(x.command) then [x] else []) + (if IsModify(y.command) then [y] else [])
  {
    ModificationsOfOne(x);
    ModificationsOfOne(y);
    ModificationsConcat([x], [y]);
    assert [x, y] == [x] + [y];
  }

  lemma SlotScriptDiscipline(x: seq<Exchange>, bound: Serial, generation: Generation, slot: PinSlot, code: Pin, replacement: Pin,
                             result: Result<UnblockOutcome, PinError>)
    requires SlotScript(x, bound, generation, slot, code, replacement, result)
    ensures Disciplined(x, result, bound, generation, slot, code, replacement)
  {
    if |x| == 2 {
      ModificationsOfTwo(x[0], x[1]);
      assert x == [x[0], x[1]];
      assert Modifications(x) == [x[1]];
    } else {
      ModificationsOfOne(x[0]);
      assert x == [x[0]];
      assert Modifications(x) == [];
    }
  }

  lemma SetupDiscipline<S(!new)>(respond: (S, Command) -> (S, Reply), s: S, bound: Serial, generation: Generation, slot: PinSlot,
                                 code: Pin, replacement: Pin)
    requires generation != UnknownGeneration
    ensures var run := GuardedSetup(respond, s, bound, generation, slot, code, replacement);
            Disciplined(run.exchanges, run.result, bound, generation, slot, code, replacement)
  {
    var run := GuardedSetup(respond, s, bound, generation, slot, code, replacement);
    SlotFollowsScript(respond, s, bound, generation, slot, code, replacement);
    SlotScriptDiscipline(run.exchanges, bound, generation, slot, code, replacement, run.result);
  }

  predicate WrongPresentation(e: Exchange) {
    IsModify(e.command) && e.reply.Reply? && e.reply.sw.PinIncorrect?
  }

  /** What the modifications of an activation run may look like. */
  ghost predicate ActivationSent(sent: seq<Exchange>, generation: Generation, options: ActivateOptions) {
    && |sent| <= 2
    && (|sent| >= 1 ==> SetsUp(sent[0].command, generation, Pin1, options.code.code, options.newPin1))
    && (|sent| == 2 ==>
          && sent[0].reply.Reply? && sent[0].reply.sw == Success
          && SetsUp(sent[1].command, generation, Pin2, options.code.code, options.newPin2))
  }

  /** The report matches what was sent. */
  ghost predicate ReportMatches(sent: seq<Exchange>, generation: Generation, report: ActivateReport) {
    && (report.pin1.None? <==> |sent| == 0)
    && (report.pin2.Some? <==> |sent| == 2)
    && (report.pin2.Some? <==> report.pin1 == Some(UnblockOk))
    && (report.pin1.Some? ==>
          |sent| > 0 && sent[0].reply.Reply? && SetupReported(generation, sent[0].reply.sw, report.pin1.value))
    && (report.pin2.Some? ==>
          |sent| > 1 && sent[1].reply.Reply? && SetupReported(generation, sent[1].reply.sw, report.pin2.value))
  }

  ghost predicate ActivationFacts<S>(run: Run<S, ActivateReport>, bound: Serial, generation: Generation, options: ActivateOptions) {
    var sent := Modifications(run.exchanges);
    && Guarded(run.exchanges, bound)
    && ActivationSent(sent, generation, options)
    && (forall i, j :: 0 <= i < j < |sent| ==> !(WrongPresentation(sent[i]) && WrongPresentation(sent[j])))
    && (run.result.Ok? ==> ReportMatches(sent, generation, run.result.value))
  }

  /** Setting up PIN1 and, if it comes to that, PIN2. */
  lemma BothSlotsDiscipline<S>(preflight: Preflight, one: Run<S, UnblockOutcome>, two: Run<S, UnblockOutcome>,
                               bound: Serial, generation: Generation, options: ActivateOptions)
    requires Disciplined(one.exchanges, one.result, bound, generation, Pin1, options.code.code, options.newPin1)
    requires Disciplined(two.exchanges, two.result, bound, generation, Pin2, options.code.code, options.newPin2)
    ensures ActivationFacts(BothSlots(preflight, one, two), bound, generation, options)
  {
    if one.result == Ok(UnblockOk) {
      SuccessIsNotWrong(Modifications(one.exchanges)[0], generation);
      ModificationsConcat(one.exchanges, two.exchanges);
      GuardedConcat(one.exchanges, two.exchanges, bound);
    }
  }

  /** Reads before a run change nothing about what it sends. */
  lemma ReadsFirst<S>(quiet: seq<Exchange>, setup: Run<S, ActivateReport>, bound: Serial, generation: Generation,
                      options: ActivateOptions)
    requires Modifications(quiet) == [] && Guarded(quiet, bound)
    requires ActivationFacts(setup, bound, generation, options)
    ensures ActivationFacts(Run(setup.state, quiet + setup.exchanges, setup.result), bound, generation, options)
    ensures Modifications(quiet + setup.exchanges) == Modifications(setup.exchanges)
  {
    ModificationsConcat(quiet, setup.exchanges);
    GuardedConcat(quiet, setup.exchanges, bound);
    assert [] + Modifications(setup.exchanges) == Modifications(setup.exchanges);
  }

  lemma SuccessIsNotWrong(e: Exchange, generation: Generation)
    requires e.reply.Reply? && SetupReported(generation, e.reply.sw, UnblockOk)
    ensures e.reply.sw == Success && !WrongPresentation(e)
  {
  }

  /** The probes decide before anything is sent: a preflight that fails, or that finds
      the card activated without leave to go on, is all there is to the run. */
  ghost predicate ProbesDecide<S>(run: Run<S, ActivateReport>, pre: Run<S, Preflight>, allowReactivate: bool) {
    && pre.exchanges <= run.exchanges
    && (pre.result.Err? ==> run == Run(pre.state, pre.exchanges, Err(pre.result.error)))
    && (pre.result == Ok(LooksActivated) && !allowReactivate ==>
          && Modifications(run.exchanges) == []
          && run == Run(pre.state, pre.exchanges, Ok(ActivateReport(LooksActivated, None, None))))
  }

  /** Every activation run, under any card answers: guarded; nothing is sent to a card
      whose probes look activated unless told to; PIN2 is touched only after PIN1
      succeeded, so at most one presentation is wrong; and an Ok report states exactly
      which commands were sent and what became of them. */
  lemma ActivateRunDiscipline<S(!new)>(respond: (S, Command) -> (S, Reply), s: S, bound: Serial, generation: Generation, options: ActivateOptions)
    ensures ActivationFacts(ActivateRun(respond, s, bound, generation, options), bound, generation, options)
    ensures if CheckLengthMatch(options.code, generation).None?
            then ProbesDecide(ActivateRun(respond, s, bound, generation, options),
                              ActivationPreflight(respond, s, bound, generation), options.allowReactivate)
            else ActivateRun(respond, s, bound, generation, options).exchanges == []
  {
    if CheckLengthMatch(options.code, generation).None? {
      var pre := ActivationPreflight(respond, s, bound, generation);
      PreflightReadsOnly(respond, s, bound, generation);
      if pre.result.Ok? {
        if !options.allowReactivate && pre.result.value == LooksActivated {
          NothingSent(pre.state, bound, generation, options);
        } else {
          SetupsDiscipline(respond, pre.state, bound, generation, options, pre.result.value);
        }
        ReadsFirst(pre.exchanges, SetupsUnlessActivated(respond, pre.state, bound, generation, options, pre.result.value),
                   bound, generation, options);
        assert pre.exchanges + [] == pre.exchanges;
      }
    }
  }

  lemma NothingSent<S>(s: S, bound: Serial, generation: Generation, options: ActivateOptions)
    ensures ActivationFacts(Run(s, [], Ok(ActivateReport(LooksActivated, None, None))), bound, generation, options)
  {
  }

  lemma SetupsDiscipline<S(!new)>(respond: (S, Command) -> (S, Reply), s: S, bound: Serial, generation: Generation,
                                  options: ActivateOptions, preflight: Preflight)
    requires generation != UnknownGeneration
    ensures ActivationFacts(Setups(respond, s, bound, generation, options, preflight), bound, generation, options)
  {
    var code := options.code.code;
    var one := GuardedSetup(respond, s, bound, generation, Pin1, code, options.newPin1);
    var two := GuardedSetup(respond, one.state, bound, generation, Pin2, code, options.newPin2);
    SetupDiscipline(respond, s, bound, generation, Pin1, code, options.newPin1);
    SetupDiscipline(respond, one.state, bound, generation, Pin2, code, options.newPin2);
    BothSlotsDiscipline(preflight, one, two, bound, generation, options);
  }

  // ----- a real card: retry counters

  const MAX_TRIES: nat := 5

  datatype PinState = PinState(value: Pin, tries: nat, verified: bool, changed: bool)

  /** `reportsZero`: an exhausted counter is reported as a counter of zero rather
      than as a blocked method.  `reportsChanged`: the card tells whether a PIN is
      still the one it was issued with. */
  datatype CardState = CardState(serial: Serial, pin1: PinState, pin2: PinState, puk: Pin, pukTries: nat, pukMax: nat,
                                 reportsZero: bool, reportsChanged: bool)

  function Slot(card: CardState, slot: PinSlot): PinState {
    match slot case Pin1 => card.pin1 case Pin2 => card.pin2
  }

  function WithSlot(card: CardState, slot: PinSlot, pin: PinState): CardState {
    match slot case Pin1 => card.(pin1 := pin) case Pin2 => card.(pin2 := pin)
  }

  function Answer(sw: StatusWord): Reply {
    Reply(sw, None, None)
  }

  function CardRespond(card: CardState, command: Command): (CardState, Reply) {
    match command
    case SelectApplication => (card, Answer(Success))
    case ReadTokenInfo => (card, Reply(Success, Some(card.serial), None))
    case ProbeChanged(slot) => (card, Reply(Success, None, if card.reportsChanged then Some(Slot(card, slot).changed) else None))
    case ProbeStatus(slot) =>
      var pin := Slot(card, slot);
      (card, Answer(if pin.verified then Success
                    else if pin.tries == 0 && !card.reportsZero then AuthenticationBlocked
                    else PinIncorrect(pin.tries)))
    case ChangePin(slot, current, replacement) =>
      var pin := Slot(card, slot);
      if pin.tries == 0 then (card, Answer(AuthenticationBlocked))
      else if current == pin.value then (WithSlot(card, slot, PinState(replacement, MAX_TRIES, false, true)), Answer(Success))
      else (WithSlot(card, slot, pin.(tries := pin.tries - 1, verified := false)), Answer(PinIncorrect(pin.tries - 1)))
    case ResetRetryCounter(slot, puk, replacement) =>
      if card.pukTries == 0 then (card, Answer(AuthenticationBlocked))
      else if puk == card.puk
      then (WithSlot(card, slot, PinState(replacement, MAX_TRIES, false, true)).(pukTries := card.pukMax), Answer(Success))
      else (card.(pukTries := card.pukTries - 1), Answer(PinIncorrect(card.pukTries - 1)))
  }

  predicate SanePin(pin: PinState) {
    pin.tries <= MAX_TRIES && (pin.verified ==> pin.tries == MAX_TRIES)
  }

  /** A verified PIN was just presented correctly, so its counter is full. */
  predicate Sane(card: CardState) {
    card.pukTries <= card.pukMax && SanePin(card.pin1) && SanePin(card.pin2)
  }

  function Floor(tries: nat): nat {
    if tries < 2 then tries else 2
  }

  predicate BelowFloor(before: CardState, after: CardState, slot: PinSlot) {
    Slot(after, slot).tries < Floor(Slot(before, slot).tries)
  }

  datatype ChangeRequest = ChangeRequest(bound: Serial, slot: PinSlot, current: Pin, replacement: Pin)

  datatype UnblockRequest = UnblockRequest(bound: Serial, slot: PinSlot, puk: Pin, replacement: Pin)

  datatype ActivateRequest = ActivateRequest(bound: Serial, generation: Generation, options: ActivateOptions)

  function AfterChange(card: CardState, q: ChangeRequest): CardState {
    ChangeRun(CardRespond, card, q.bound, q.slot, q.current, q.replacement).state
  }

  function AfterUnblock(card: CardState, q: UnblockRequest): CardState {
    UnblockRun(CardRespond, card, q.bound, q.slot, q.puk, q.replacement).state
  }

  function AfterActivate(card: CardState, q: ActivateRequest): CardState {
    ActivateRun(CardRespond, card, q.bound, q.generation, q.options).state
  }

  // ----- one run

  /** A change request the host sends with a PIN the card does not hold. */
  predicate WrongButSent(card: CardState, q: ChangeRequest) {
    && card.serial == q.bound && q.current != Slot(card, q.slot).value
    && DigitsWithin(q.current, MinLength(q.slot)) && DigitsWithin(q.replacement, MinLength(q.slot))
  }

  /** One change run on any card at all, sane or not: a counter drops below the
      smaller of its value and two exactly when the card claims the PIN is verified
      although only one or two tries remain. */
  lemma ChangeRunFloorExactly(card: CardState, q: ChangeRequest, slot: PinSlot)
    ensures var after := AfterChange(card, q);
            && (BelowFloor(card, after, slot)
                <==> slot == q.slot && WrongButSent(card, q) && Slot(card, slot).verified && 1 <= Slot(card, slot).tries <= 2)
            && after.puk == card.puk && after.pukTries == card.pukTries && after.pukMax == card.pukMax
            && (slot != q.slot ==> Slot(after, slot) == Slot(card, slot))
  {
    ChangeRunSends(card, q);
    ChangeCommandFloor(card, q, slot);
  }

  /** The retry floor as this card reports its counter. */
  predicate ChangeAvailable(card: CardState, slot: PinSlot) {
    var pin := Slot(card, slot);
    pin.verified || (pin.tries == 0 && card.reportsZero) || 3 <= pin.tries <= 5
  }

  /** A change run is its one command, or nothing. */
  lemma ChangeRunSends(card: CardState, q: ChangeRequest)
    ensures var sent := && card.serial == q.bound && ChangeAvailable(card, q.slot)
                        && DigitsWithin(q.current, MinLength(q.slot)) && DigitsWithin(q.replacement, MinLength(q.slot));
            AfterChange(card, q) == if sent then CardRespond(card, ChangePin(q.slot, q.current, q.replacement)).0 else card
  {
    var probe := ProbeResult(CardRespond(card, ProbeStatus(q.slot)).1);
    assert CardRespond(card, SelectApplication).0 == card && CardRespond(card, ReadTokenInfo).0 == card;
    assert PinLooksActivated(probe);
    assert PinChangeAvailable(probe) <==> ChangeAvailable(card, q.slot);
  }

  lemma ChangeCommandFloor(card: CardState, q: ChangeRequest, slot: PinSlot)
    ensures var after := CardRespond(card, ChangePin(q.slot, q.current, q.replacement)).0;
            && (BelowFloor(card, after, slot) <==>
                  slot == q.slot && q.current != Slot(card, slot).value && 1 <= Slot(card, slot).tries <= 2)
            && after.serial == card.serial
            && after.puk == card.puk && after.pukTries == card.pukTries && after.pukMax == card.pukMax
            && (slot != q.slot ==> Slot(after, slot) == Slot(card, slot))
  {
  }

  lemma ChangeRunKeepsSane(card: CardState, q: ChangeRequest)
    requires Sane(card)
    ensures Sane(AfterChange(card, q))
    ensures !BelowFloor(card, AfterChange(card, q), Pin1) && !BelowFloor(card, AfterChange(card, q), Pin2)
  {
    ChangeRunFloorExactly(card, q, Pin1);
    ChangeRunFloorExactly(card, q, Pin2);
  }

  /** An unblock run never costs a PIN try and at most one PUK try. */
  lemma UnblockCostsOnePukTry(card: CardState, q: UnblockRequest, slot: PinSlot)
    requires Sane(card)
    ensures var after := AfterUnblock(card, q);
            && Sane(after)
            && Slot(card, slot).tries <= Slot(after, slot).tries
            && card.pukTries <= after.pukTries + 1
  {
    assert CardRespond(card, SelectApplication).0 == card && CardRespond(card, ReadTokenInfo).0 == card;
    assert CardRespond(card, ProbeStatus(q.slot)).0 == card;
    assert SanePin(Slot(card, slot));
  }

  function TotalTries(card: CardState): nat {
    card.pin1.tries + card.pin2.tries + card.pukTries
  }

  /** One command of any kind. */
  lemma CommandCostsOneTry(card: CardState, command: Command)
    requires Sane(card)
    ensures var after := CardRespond(card, command).0;
            && Sane(after)
            && TotalTries(card) <= TotalTries(after) + 1
            && (CardRespond(card, command).1.sw == Success ==> TotalTries(card) <= TotalTries(after))
  {
  }

  lemma SetupCostsOneTry(card: CardState, bound: Serial, generation: Generation, slot: PinSlot, code: Pin, replacement: Pin)
    requires Sane(card)
    ensures var run := GuardedSetup(CardRespond, card, bound, generation, slot, code, replacement);
            && Sane(run.state)
            && TotalTries(card) <= TotalTries(run.state) + 1
            && (run.result == Ok(UnblockOk) ==> TotalTries(card) <= TotalTries(run.state))
  {
    CommandCostsOneTry(card, SetupCommand(generation, slot, code, replacement));
    assert CardRespond(card, ReadTokenInfo).0 == card;
  }

  lemma PreflightLeavesCard(card: CardState, bound: Serial, generation: Generation)
    ensures var pre := ActivationPreflight(CardRespond, card, bound, generation);
            && pre.state == card
            && pre.result == if card.serial != bound then Err(CardSessionRevoked)
                             else Ok(PreflightOf(card, generation))
  {
    assert CardRespond(card, SelectApplication).0 == card && CardRespond(card, ReadTokenInfo).0 == card;
    assert CardRespond(card, ProbeStatus(Pin1)).0 == card && CardRespond(card, ProbeStatus(Pin2)).0 == card;
    assert CardRespond(card, ProbeChanged(Pin1)).0 == card && CardRespond(card, ProbeChanged(Pin2)).0 == card;
  }

  /** What the probes make of this card: a newer one is told apart by its flag, an
      older one always answers as if activated. */
  function PreflightOf(card: CardState, generation: Generation): Preflight {
    if generation == Newer && !(card.reportsChanged && card.pin1.changed) then LooksUnactivated else LooksActivated
  }

  /** A whole activation run costs the card at most one try over all its counters. */
  lemma ActivationCostsOneTry(card: CardState, q: ActivateRequest)
    requires Sane(card)
    ensures Sane(AfterActivate(card, q)) && TotalTries(card) <= TotalTries(AfterActivate(card, q)) + 1
  {
    if CheckLengthMatch(q.options.code, q.generation).None? {
      var code := q.options.code.code;
      PreflightLeavesCard(card, q.bound, q.generation);
      SetupCostsOneTry(card, q.bound, q.generation, Pin1, code, q.options.newPin1);
      var one := GuardedSetup(CardRespond, card, q.bound, q.generation, Pin1, code, q.options.newPin1);
      SetupCostsOneTry(one.state, q.bound, q.generation, Pin2, code, q.options.newPin2);
    }
  }

  // ----- when activation goes below the floor

  /** The activation code is presented to a newer card as the PIN in `slot`. */
  predicate PresentsCode(card: CardState, q: ActivateRequest, slot: PinSlot) {
    var code := q.options.code.code;
    && q.generation == Newer && q.options.code.Seven? && card.serial == q.bound
    && (q.options.allowReactivate || PreflightOf(card, Newer) == LooksUnactivated)
    && SetupAllowed(Newer, Pin1, code, q.options.newPin1)
    && (slot == Pin2 ==>
          card.pin1.tries > 0 && code == card.pin1.value && SetupAllowed(Newer, Pin2, code, q.options.newPin2))
  }

  /** A wrong code presented although one or two tries remain: activation, unlike a
      change, does not look at the counter first. */
  predicate Spends(card: CardState, q: ActivateRequest, slot: PinSlot) {
    && PresentsCode(card, q, slot)
    && q.options.code.code != Slot(card, slot).value
    && 1 <= Slot(card, slot).tries <= 2
  }

  /** Setting up a slot is its one command, or nothing. */
  lemma SetupSends(card: CardState, bound: Serial, generation: Generation, slot: PinSlot, code: Pin, replacement: Pin)
    requires generation != UnknownGeneration
    ensures var run := GuardedSetup(CardRespond, card, bound, generation, slot, code, replacement);
            if card.serial == bound && SetupAllowed(generation, slot, code, replacement)
            then
              var (after, reply) := CardRespond(card, SetupCommand(generation, slot, code, replacement));
              run.state == after && run.result == Ok(SetupOutcome(generation, reply.sw))
            else run.state == card && run.result.Err?
  {
    assert CardRespond(card, ReadTokenInfo).0 == card;
  }

  /** What setting up one slot does to its counter, and that it leaves the other alone. */
  lemma SetupFloorExactly(card: CardState, bound: Serial, generation: Generation, slot: PinSlot, code: Pin, replacement: Pin)
    requires generation != UnknownGeneration
    ensures var run := GuardedSetup(CardRespond, card, bound, generation, slot, code, replacement);
            var sent := card.serial == bound && SetupAllowed(generation, slot, code, replacement);
            && run.state.serial == card.serial
            && (forall other :: other != slot ==> Slot(run.state, other) == Slot(card, other))
            && (BelowFloor(card, run.state, slot) <==>
                  generation == Newer && sent && code != Slot(card, slot).value && 1 <= Slot(card, slot).tries <= 2)
            && (generation == Newer ==>
                  (run.result == Ok(UnblockOk) <==> sent && Slot(card, slot).tries > 0 && code == Slot(card, slot).value))
            && (run.result == Ok(UnblockOk) ==> Slot(run.state, slot).tries == MAX_TRIES)
  {
    SetupSends(card, bound, generation, slot, code, replacement);
  }

  /** Exactly when an activation run takes a counter below the floor, on any card. */
  lemma ActivationFloorExactly(card: CardState, q: ActivateRequest, slot: PinSlot)
    ensures BelowFloor(card, AfterActivate(card, q), slot) <==> Spends(card, q, slot)
  {
    if CheckLengthMatch(q.options.code, q.generation).None? {
      var code := q.options.code.code;
      PreflightLeavesCard(card, q.bound, q.generation);
      SetupFloorExactly(card, q.bound, q.generation, Pin1, code, q.options.newPin1);
      var one := GuardedSetup(CardRespond, card, q.bound, q.generation, Pin1, code, q.options.newPin1);
      SetupFloorExactly(one.state, q.bound, q.generation, Pin2, code, q.options.newPin2);
    }
  }

  // ----- what the PINs are afterwards

  /** The slot holds the new PIN, with a full counter. */
  predicate SetTo(card: CardState, slot: PinSlot, pin: Pin) {
    Slot(card, slot).value == pin && Slot(card, slot).tries == 5
  }

  /** A change that reports success has set exactly the new PIN; any other leaves the
      PIN what it was.  It succeeds exactly on the bound card, with enough tries left,
      for well-formed PINs of which the current one is right. */
  lemma ChangeSetsPin(card: CardState, q: ChangeRequest)
    ensures var run := ChangeRun(CardRespond, card, q.bound, q.slot, q.current, q.replacement);
            var pin := Slot(card, q.slot);
            && (run.result == Ok(ChangeOk) <==>
                  && card.serial == q.bound && pin.tries > 0 && (pin.verified || 3 <= pin.tries <= 5)
                  && FitsSlot(q.slot, q.current) && FitsSlot(q.slot, q.replacement) && q.current == pin.value)
            && (run.result == Ok(ChangeOk) ==> SetTo(run.state, q.slot, q.replacement))
            && (run.result != Ok(ChangeOk) ==> Slot(run.state, q.slot).value == pin.value)
            && (forall other :: other != q.slot ==> Slot(run.state, other) == Slot(card, other))
  {
    ChangeRunSends(card, q);
  }

  lemma UnblockSends(card: CardState, q: UnblockRequest)
    ensures var run := UnblockRun(CardRespond, card, q.bound, q.slot, q.puk, q.replacement);
            if card.serial == q.bound && FitsPuk(q.puk) && FitsSlot(q.slot, q.replacement)
            then
              var (after, reply) := CardRespond(card, ResetRetryCounter(q.slot, q.puk, q.replacement));
              run.state == after && run.result == Ok(ClassifyReset(reply.sw))
            else run.state == card && run.result.Err?
  {
    assert CardRespond(card, SelectApplication).0 == card && CardRespond(card, ReadTokenInfo).0 == card;
    assert CardRespond(card, ProbeStatus(q.slot)).0 == card;
  }

  /** The same for unblocking, which succeeds exactly with the right PUK. */
  lemma UnblockSetsPin(card: CardState, q: UnblockRequest)
    ensures var run := UnblockRun(CardRespond, card, q.bound, q.slot, q.puk, q.replacement);
            && (run.result == Ok(UnblockOk) <==>
                  && card.serial == q.bound && card.pukTries > 0
                  && FitsPuk(q.puk) && FitsSlot(q.slot, q.replacement) && q.puk == card.puk)
            && (run.result == Ok(UnblockOk) ==> SetTo(run.state, q.slot, q.replacement) && run.state.pukTries == card.pukMax)
            && (run.result != Ok(UnblockOk) ==> Slot(run.state, q.slot) == Slot(card, q.slot))
            && (forall other :: other != q.slot ==> Slot(run.state, other) == Slot(card, other))
  {
    UnblockSends(card, q);
  }

  lemma SetupSetsPin(card: CardState, bound: Serial, generation: Generation, slot: PinSlot, code: Pin, replacement: Pin)
    requires generation != UnknownGeneration
    ensures var run := GuardedSetup(CardRespond, card, bound, generation, slot, code, replacement);
            && (run.result == Ok(UnblockOk) ==> SetTo(run.state, slot, replacement))
            && (run.result != Ok(UnblockOk) ==> Slot(run.state, slot).value == Slot(card, slot).value)
            && (forall other :: other != slot ==> Slot(run.state, other) == Slot(card, other))
  {
    SetupSends(card, bound, generation, slot, code, replacement);
  }

  /** An activation report says of each slot whether it was set: a slot reported set
      holds exactly its new PIN, any other the PIN it held. */
  lemma ActivationSetsPins(card: CardState, q: ActivateRequest)
    ensures var run := ActivateRun(CardRespond, card, q.bound, q.generation, q.options);
            && (run.result.Ok? ==>
                  && (if run.result.value.pin1 == Some(UnblockOk) then SetTo(run.state, Pin1, q.options.newPin1)
                      else run.state.pin1.value == card.pin1.value)
                  && (if run.result.value.pin2 == Some(UnblockOk) then SetTo(run.state, Pin2, q.options.newPin2)
                      else run.state.pin2.value == card.pin2.value))
            && (run.result.Err? ==>
                  && run.state.pin2 == card.pin2
                  && (run.state.pin1.value == card.pin1.value || SetTo(run.state, Pin1, q.options.newPin1)))
  {
    if CheckLengthMatch(q.options.code, q.generation).None? {
      var code := q.options.code.code;
      PreflightLeavesCard(card, q.bound, q.generation);
      SetupSetsPin(card, q.bound, q.generation, Pin1, code, q.options.newPin1);
      var one := GuardedSetup(CardRespond, card, q.bound, q.generation, Pin1, code, q.options.newPin1);
      SetupSetsPin(one.state, q.bound, q.generation, Pin2, code, q.options.newPin2);
      SetupSends(one.state, q.bound, q.generation, Pin2, code, q.options.newPin2);
    }
  }

  /** An activation sets both PINs exactly when the card is the bound one and not
      refused, the code is right for both slots and everything is well formed. */
  lemma NewerActivationSucceedsExactly(card: CardState, q: ActivateRequest)
    requires q.generation == Newer
    ensures var run := ActivateRun(CardRespond, card, q.bound, q.generation, q.options);
            var code := q.options.code.code;
            (run.result.Ok? && run.result.value.pin2 == Some(UnblockOk)) <==>
              && q.options.code.Seven? && card.serial == q.bound
              && (q.options.allowReactivate || !(card.reportsChanged && card.pin1.changed))
              && FitsSlot(Pin1, code) && FitsSlot(Pin1, q.options.newPin1) && FitsSlot(Pin2, code) && FitsSlot(Pin2, q.options.newPin2)
              && code == card.pin1.value && card.pin1.tries > 0 && code == card.pin2.value && card.pin2.tries > 0
  {
    if CheckLengthMatch(q.options.code, q.generation).None? {
      var code := q.options.code.code;
      PreflightLeavesCard(card, q.bound, q.generation);
      SetupFloorExactly(card, q.bound, q.generation, Pin1, code, q.options.newPin1);
      var one := GuardedSetup(CardRespond, card, q.bound, q.generation, Pin1, code, q.options.newPin1);
      SetupFloorExactly(one.state, q.bound, q.generation, Pin2, code, q.options.newPin2);
    }
  }

  // ----- any sequence of runs

  datatype Management = Change(change: ChangeRequest) | Unblock(unblock: UnblockRequest) | Activate(activate: ActivateRequest)

  function AfterOne(card: CardState, run: Management): CardState {
    match run
    case Change(q) => AfterChange(card, q)
    case Unblock(q) => AfterUnblock(card, q)
    case Activate(q) => AfterActivate(card, q)
  }

  function AfterAll(card: CardState, runs: seq<Management>): CardState {
    if runs == [] then card else AfterOne(AfterAll(card, runs[..|runs| - 1]), runs[|runs| - 1])
  }

  /** Run `i` of the sequence is an activation that spends one of the last two tries. */
  ghost predicate SpendsAt(card: CardState, runs: seq<Management>, i: nat, slot: PinSlot)
    requires i < |runs|
  {
    runs[i].Activate? && Spends(AfterAll(card, runs[..i]), runs[i].activate, slot)
  }

  /** One run of any kind: sanity is kept, and the floor is broken exactly by a
      spending activation. */
  lemma OneRunExactly(card: CardState, run: Management, slot: PinSlot)
    requires Sane(card)
    ensures Sane(AfterOne(card, run))
    ensures BelowFloor(card, AfterOne(card, run), slot) <==> run.Activate? && Spends(card, run.activate, slot)
  {
    match run
    case Change(q) => ChangeRunKeepsSane(card, q);
    case Unblock(q) => UnblockCostsOnePukTry(card, q, slot);
    case Activate(q) =>
      ActivationCostsOneTry(card, q);
      ActivationFloorExactly(card, q, slot);
  }

  /** Over any sequence of change, unblock and activation runs with any typed codes:
      a PIN counter falls below the smaller of its starting value and two only if
      some activation in it spends, and without one the PIN is never blocked. */
  lemma {:induction false} RunsKeepFloor(card: CardState, runs: seq<Management>, slot: PinSlot)
    requires Sane(card)
    ensures Sane(AfterAll(card, runs))
    ensures BelowFloor(card, AfterAll(card, runs), slot) ==> exists i :: 0 <= i < |runs| && SpendsAt(card, runs, i, slot)
    ensures Slot(card, slot).tries > 0 && Slot(AfterAll(card, runs), slot).tries == 0 ==>
              exists i :: 0 <= i < |runs| && SpendsAt(card, runs, i, slot)
    decreases |runs|
  {
    if runs != [] {
      var last := |runs| - 1;
      var shorter := runs[..last];
      RunsKeepFloor(card, shorter, slot);
      OneRunExactly(AfterAll(card, shorter), runs[last], slot);
      assert forall i :: 0 <= i < last ==> shorter[..i] == runs[..i];
      if i :| 0 <= i < last && SpendsAt(card, shorter, i, slot) {
        assert SpendsAt(card, runs, i, slot);
      } else if BelowFloor(AfterAll(card, shorter), AfterAll(card, runs), slot) {
        assert SpendsAt(card, runs, last, slot);
      }
    }
  }

  /** Change and unblock runs alone never block a PIN, in any order and number. */
  lemma ChangesAndUnblocksNeverBlock(card: CardState, runs: seq<Management>, slot: PinSlot)
    requires Sane(card) && forall i :: 0 <= i < |runs| ==> !runs[i].Activate?
    ensures Floor(Slot(card, slot).tries) <= Slot(AfterAll(card, runs), slot).tries
    ensures Slot(card, slot).tries > 0 ==> Slot(AfterAll(card, runs), slot).tries > 0
  {
    RunsKeepFloor(card, runs, slot);
  }

  method RunOne(transport: Transport<CardState>, run: Management)
    requires transport.respond == CardRespond
    modifies transport
    ensures transport.state == AfterOne(old(transport.state), run)
  {
    match run
    case Change(q) =>
      var outcome := transport.ChangePinFirst(q.bound, q.slot, q.current, q.replacement);
    case Unblock(q) =>
      var outcome := transport.UnblockPinFirst(q.bound, q.slot, q.puk, q.replacement);
    case Activate(q) =>
      var outcome := transport.ActivateFirst(q.bound, q.generation, q.options);
  }

  /** The same sequence, driven through one transport. */
  method RunAll(card: CardState, runs: seq<Management>) returns (after: CardState)
    requires Sane(card)
    ensures after == AfterAll(card, runs)
    ensures forall slot :: BelowFloor(card, after, slot) ==> exists i :: 0 <= i < |runs| && SpendsAt(card, runs, i, slot)
  {
    var transport := new Transport(CardRespond, card);
    for i := 0 to |runs|
      invariant fresh(transport) && transport.respond == CardRespond
      invariant transport.state == AfterAll(card, runs[..i])
    {
      assert runs[..i + 1][..i] == runs[..i];
      RunOne(transport, runs[i]);
    }
    after := transport.state;
    assert runs[..|runs|] == runs;
    forall slot
      ensures BelowFloor(card, after, slot) ==> exists i :: 0 <= i < |runs| && SpendsAt(card, runs, i, slot)
    {
      RunsKeepFloor(card, runs, slot);
    }
  }
}
