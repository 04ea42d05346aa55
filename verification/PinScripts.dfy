/** The PIN flows as scripts over status words: for every card, which commands a run
    sends, on which replies, and what it reports. */
module PinScripts {
  import opened Basics
  import opened PinFlows

  // ----- replies

  ghost predicate Succeeded(r: Reply) {
    r.Reply? && r.sw == Success
  }

  ghost predicate IsBoundToken(r: Reply, bound: Serial) {
    r.Reply? && r.sw == Success && r.serial == Some(bound)
  }

  /** A status probe that an activated PIN answers. */
  ghost predicate AnswersActivated(r: Reply) {
    r.Reply? && (r.sw == Success || r.sw.PinIncorrect? || r.sw == AuthenticationBlocked || r.sw == ReferenceDataInvalidated)
  }

  /** One that leaves enough tries for a change: verified, or a counter that is
      neither one nor two nor above five. */
  ghost predicate AnswersAvailable(r: Reply) {
    r.Reply? && (r.sw == Success || r.sw == PinIncorrect(0) || r.sw == PinIncorrect(3) || r.sw == PinIncorrect(4) || r.sw == PinIncorrect(5))
  }

  ghost predicate AllDigits(pin: Pin) {
    forall i :: 0 <= i < |pin| ==> '0' as int <= pin[i] as int <= '9' as int
  }

  /** PIN1 has four digits or more, PIN2 six or more, both at most twelve. */
  ghost predicate FitsSlot(slot: PinSlot, pin: Pin) {
    AllDigits(pin) && |pin| <= 12 && match slot case Pin1 => |pin| >= 4 case Pin2 => |pin| >= 6
  }

  ghost predicate FitsPuk(puk: Pin) {
    AllDigits(puk) && 8 <= |puk| <= 12
  }

  ghost predicate ChangeReported(sw: StatusWord, o: ChangePinOutcome) {
    match sw
    case Success => o == ChangeOk
    case PinIncorrect(n) => o == WrongCurrentPin(n)
    case AuthenticationBlocked => o == ChangeLocked
    case ReferenceDataInvalidated => o == ChangeLocked
    case WrongLength => o == ChangeLengthError
    case AuthenticationFailed => o == ChangeOther
    case OtherWord(_) => o == ChangeOther
  }

  ghost predicate ResetReported(sw: StatusWord, o: UnblockOutcome) {
    match sw
    case Success => o == UnblockOk
    case PinIncorrect(n) => o == WrongPuk(n)
    case AuthenticationBlocked => o == PukLocked
    case ReferenceDataInvalidated => o == Invalidated
    case WrongLength => o == UnblockLengthError
    case AuthenticationFailed => o == UnblockOther
    case OtherWord(_) => o == UnblockOther
  }

  /** The outcome of a setup by change is told in the words of an unblock. */
  ghost predicate SetupReported(generation: Generation, sw: StatusWord, o: UnblockOutcome) {
    if generation == Newer then
      match sw
      case Success => o == UnblockOk
      case PinIncorrect(n) => o == WrongPuk(n)
      case AuthenticationBlocked => o == PukLocked
      case ReferenceDataInvalidated => o == PukLocked
      case WrongLength => o == UnblockLengthError
      case AuthenticationFailed => o == UnblockOther
      case OtherWord(_) => o == UnblockOther
    else ResetReported(sw, o)
  }

  // ----- conversations

  /** These exchanges take the card from `s` to `after`: each reply is the card's. */
  ghost predicate Conversed<S(!new)>(respond: (S, Command) -> (S, Reply), s: S, exchanges: seq<Exchange>, after: S)
    decreases |exchanges|
  {
    if exchanges == [] then after == s
    else
      && exchanges[0].reply == respond(s, exchanges[0].command).1
      && Conversed(respond, respond(s, exchanges[0].command).0, exchanges[1..], after)
  }

  lemma ConversedOne<S(!new)>(respond: (S, Command) -> (S, Reply), s: S, e: Exchange, rest: seq<Exchange>, after: S)
    requires e.reply == respond(s, e.command).1 && Conversed(respond, respond(s, e.command).0, rest, after)
    ensures Conversed(respond, s, [e] + rest, after)
  {
    assert ([e] + rest)[1..] == rest;
  }

  lemma {:induction false} ConversedJoin<S(!new)>(respond: (S, Command) -> (S, Reply), s: S, a: seq<Exchange>, mid: S, b: seq<Exchange>, after: S)
    requires Conversed(respond, s, a, mid) && Conversed(respond, mid, b, after)
    ensures Conversed(respond, s, a + b, after)
    decreases |a|
  {
    if a == [] {
      assert a + b == b;
    } else {
      ConversedJoin(respond, respond(s, a[0].command).0, a[1..], mid, b, after);
      assert a + b == [a[0]] + (a[1..] + b);
      ConversedOne(respond, s, a[0], a[1..] + b, after);
    }
  }

  // ----- change and unblock

  /** The exchange at `i` is there and is this command. */
  ghost predicate Sent(x: seq<Exchange>, i: nat, c: Command) {
    i < |x| && x[i].command == c
  }

  /** Select, the bound serial, a probe of the slot, the bound serial again, and then
      the change; a run stops at the first reply that will not do. */
  ghost predicate ChangeScript(x: seq<Exchange>, bound: Serial, slot: PinSlot, current: Pin, replacement: Pin,
                               result: Result<ChangePinOutcome, PinError>)
  {
    && Sent(x, 0, SelectApplication)
    && if !Succeeded(x[0].reply) then |x| == 1 && result == Err(Pkcs15Select)
       else
         && Sent(x, 1, ReadTokenInfo)
         && if !IsBoundToken(x[1].reply, bound) then |x| == 2 && result == Err(CardSessionRevoked)
            else
              && Sent(x, 2, ProbeStatus(slot))
              && if !AnswersActivated(x[2].reply) then |x| == 3 && result == Err(CardLooksUnactivated)
                 else if !AnswersAvailable(x[2].reply) then |x| == 3 && result == Err(ConsumerRetryFloor)
                 else
                   && Sent(x, 3, ReadTokenInfo)
                   && if !IsBoundToken(x[3].reply, bound) then |x| == 4 && result == Err(CardSessionRevoked)
                      else if !FitsSlot(slot, current) || !FitsSlot(slot, replacement) then |x| == 4 && result == Err(PinPolicy)
                      else
                        && Sent(x, 4, ChangePin(slot, current, replacement)) && |x| == 5
                        && match result
                           case Err(e) => e == TransportFailed && x[4].reply == NoReply
                           case Ok(o) => x[4].reply.Reply? && ChangeReported(x[4].reply.sw, o)
  }

  ghost predicate UnblockScript(x: seq<Exchange>, bound: Serial, slot: PinSlot, puk: Pin, replacement: Pin,
                                result: Result<UnblockOutcome, PinError>)
  {
    && Sent(x, 0, SelectApplication)
    && if !Succeeded(x[0].reply) then |x| == 1 && result == Err(Pkcs15Select)
       else
         && Sent(x, 1, ReadTokenInfo)
         && if !IsBoundToken(x[1].reply, bound) then |x| == 2 && result == Err(CardSessionRevoked)
            else
              && Sent(x, 2, ProbeStatus(slot))
              && if !AnswersActivated(x[2].reply) then |x| == 3 && result == Err(CardLooksUnactivated)
                 else
                   && Sent(x, 3, ReadTokenInfo)
                   && if !IsBoundToken(x[3].reply, bound) then |x| == 4 && result == Err(CardSessionRevoked)
                      else if !FitsPuk(puk) || !FitsSlot(slot, replacement) then |x| == 4 && result == Err(PinPolicy)
                      else
                        && Sent(x, 4, ResetRetryCounter(slot, puk, replacement)) && |x| == 5
                        && match result
                           case Err(e) => e == TransportFailed && x[4].reply == NoReply
                           case Ok(o) => x[4].reply.Reply? && ResetReported(x[4].reply.sw, o)
  }

  lemma ChangeFollowsScript<S(!new)>(respond: (S, Command) -> (S, Reply), s: S, bound: Serial, slot: PinSlot, current: Pin, replacement: Pin)
    ensures var run := ChangeRun(respond, s, bound, slot, current, replacement);
            ChangeScript(run.exchanges, bound, slot, current, replacement, run.result)
  {
  }

  lemma UnblockFollowsScript<S(!new)>(respond: (S, Command) -> (S, Reply), s: S, bound: Serial, slot: PinSlot, puk: Pin, replacement: Pin)
    ensures var run := UnblockRun(respond, s, bound, slot, puk, replacement);
            UnblockScript(run.exchanges, bound, slot, puk, replacement, run.result)
  {
  }

  lemma ConversedSnoc<S(!new)>(respond: (S, Command) -> (S, Reply), s: S, exchanges: seq<Exchange>, mid: S, c: Command)
    requires Conversed(respond, s, exchanges, mid)
    ensures Conversed(respond, s, exchanges + [Exchange(c, respond(mid, c).1)], respond(mid, c).0)
  {
    var last := [Exchange(c, respond(mid, c).1)];
    assert last[1..] == [];
    ConversedJoin(respond, s, exchanges, mid, last, respond(mid, c).0);
  }

  /** Four commands in a row, each answered by the card where the one before left it. */
  lemma ConversedFour<S(!new)>(respond: (S, Command) -> (S, Reply), s: S, c1: Command, c2: Command, c3: Command, c4: Command)
    ensures var (s1, r1) := respond(s, c1);
            var (s2, r2) := respond(s1, c2);
            var (s3, r3) := respond(s2, c3);
            var (s4, r4) := respond(s3, c4);
            var e1, e2, e3, e4 := Exchange(c1, r1), Exchange(c2, r2), Exchange(c3, r3), Exchange(c4, r4);
            && Conversed(respond, s, [e1], s1) && Conversed(respond, s, [e1, e2], s2)
            && Conversed(respond, s, [e1, e2, e3], s3) && Conversed(respond, s, [e1, e2, e3, e4], s4)
  {
    var (s1, r1) := respond(s, c1);
    var (s2, r2) := respond(s1, c2);
    var (s3, r3) := respond(s2, c3);
    var (s4, r4) := respond(s3, c4);
    var e1, e2, e3, e4 := Exchange(c1, r1), Exchange(c2, r2), Exchange(c3, r3), Exchange(c4, r4);
    ConversedSnoc(respond, s, [], s, c1);
    ConversedSnoc(respond, s, [e1], s1, c2);
    ConversedSnoc(respond, s, [e1, e2], s2, c3);
    ConversedSnoc(respond, s, [e1, e2, e3], s3, c4);
    assert [] + [e1] == [e1] && [e1] + [e2] == [e1, e2] && [e1, e2] + [e3] == [e1, e2, e3];
    assert [e1, e2, e3] + [e4] == [e1, e2, e3, e4];
  }

  lemma ConversedFive<S(!new)>(respond: (S, Command) -> (S, Reply), s: S, four: seq<Exchange>, mid: S, c: Command)
    requires |four| == 4 && Conversed(respond, s, four, mid)
    ensures Conversed(respond, s, [four[0], four[1], four[2], four[3], Exchange(c, respond(mid, c).1)], respond(mid, c).0)
  {
    ConversedSnoc(respond, s, four, mid, c);
    assert four + [Exchange(c, respond(mid, c).1)] == [four[0], four[1], four[2], four[3], Exchange(c, respond(mid, c).1)];
  }

  /** The replies of a change run are the card's own, and it ends where they leave it. */
  lemma ChangeConverses<S(!new)>(respond: (S, Command) -> (S, Reply), s: S, bound: Serial, slot: PinSlot, current: Pin, replacement: Pin)
    ensures var run := ChangeRun(respond, s, bound, slot, current, replacement);
            Conversed(respond, s, run.exchanges, run.state)
  {
    ConversedFour(respond, s, SelectApplication, ReadTokenInfo, ProbeStatus(slot), ReadTokenInfo);
    var run := ChangeRun(respond, s, bound, slot, current, replacement);
    if |run.exchanges| == 5 {
      var (s1, r1) := respond(s, SelectApplication);
      var (s2, r2) := respond(s1, ReadTokenInfo);
      var (s3, r3) := respond(s2, ProbeStatus(slot));
      var (s4, r4) := respond(s3, ReadTokenInfo);
      ConversedFive(respond, s, [Exchange(SelectApplication, r1), Exchange(ReadTokenInfo, r2), Exchange(ProbeStatus(slot), r3),
                                 Exchange(ReadTokenInfo, r4)], s4, ChangePin(slot, current, replacement));
    }
  }

  lemma UnblockConverses<S(!new)>(respond: (S, Command) -> (S, Reply), s: S, bound: Serial, slot: PinSlot, puk: Pin, replacement: Pin)
    ensures var run := UnblockRun(respond, s, bound, slot, puk, replacement);
            Conversed(respond, s, run.exchanges, run.state)
  {
    ConversedFour(respond, s, SelectApplication, ReadTokenInfo, ProbeStatus(slot), ReadTokenInfo);
    var run := UnblockRun(respond, s, bound, slot, puk, replacement);
    if |run.exchanges| == 5 {
      var (s1, r1) := respond(s, SelectApplication);
      var (s2, r2) := respond(s1, ReadTokenInfo);
      var (s3, r3) := respond(s2, ProbeStatus(slot));
      var (s4, r4) := respond(s3, ReadTokenInfo);
      ConversedFive(respond, s, [Exchange(SelectApplication, r1), Exchange(ReadTokenInfo, r2), Exchange(ProbeStatus(slot), r3),
                                 Exchange(ReadTokenInfo, r4)], s4, ResetRetryCounter(slot, puk, replacement));
    }
  }

  // ----- activation

  /** Six reads: a newer card looks activated if it says its PIN1 was changed, an
      older one if its PIN1 answers like an activated PIN. */
  ghost predicate ProbesScript(x: seq<Exchange>, bound: Serial, generation: Generation, found: Result<Preflight, PinError>) {
    && Sent(x, 0, SelectApplication)
    && if !Succeeded(x[0].reply) then |x| == 1 && found == Err(Pkcs15Select)
       else
         && Sent(x, 1, ReadTokenInfo)
         && if !IsBoundToken(x[1].reply, bound) then |x| == 2 && found == Err(CardSessionRevoked)
            else
              && Sent(x, 2, ProbeStatus(Pin1)) && Sent(x, 3, ProbeStatus(Pin2))
              && Sent(x, 4, ProbeChanged(Pin1)) && Sent(x, 5, ProbeChanged(Pin2)) && |x| == 6
              && found == Ok(if (if generation == Newer then Succeeded(x[4].reply) && x[4].reply.changed == Some(true) && x[2].reply.Reply?
                                 else AnswersActivated(x[2].reply))
                             then LooksActivated else LooksUnactivated)
  }

  /** The command that sets a slot up: a newer card takes the activation code as the
      PIN to be changed, an older one as its PUK. */
  ghost predicate SetsUp(c: Command, generation: Generation, slot: PinSlot, code: Pin, replacement: Pin) {
    match generation
    case Newer => c == ChangePin(slot, code, replacement)
    case Older => c == ResetRetryCounter(slot, code, replacement)
    case UnknownGeneration => false
  }

  /** The bound serial, then the setup command if code and new PIN are well formed. */
  ghost predicate SlotScript(x: seq<Exchange>, bound: Serial, generation: Generation, slot: PinSlot, code: Pin, replacement: Pin,
                             result: Result<UnblockOutcome, PinError>)
  {
    && Sent(x, 0, ReadTokenInfo)
    && if !IsBoundToken(x[0].reply, bound) then |x| == 1 && result == Err(CardSessionRevoked)
       else if !(if generation == Newer then FitsSlot(slot, code) else FitsPuk(code)) || !FitsSlot(slot, replacement)
       then |x| == 1 && result == Err(PinPolicy)
       else
         && |x| == 2 && SetsUp(x[1].command, generation, slot, code, replacement)
         && match result
            case Err(e) => e == TransportFailed && x[1].reply == NoReply
            case Ok(o) => x[1].reply.Reply? && SetupReported(generation, x[1].reply.sw, o)
  }

  /** A whole activation, from the scripts of its parts: what follows a part that
      does not lead on is not in the run. */
  ghost predicate ActivateScript(x: seq<Exchange>, bound: Serial, generation: Generation, options: ActivateOptions,
                                 result: Result<ActivateReport, PinError>,
                                 probes: seq<Exchange>, found: Result<Preflight, PinError>,
                                 one: seq<Exchange>, first: Result<UnblockOutcome, PinError>,
                                 two: seq<Exchange>, second: Result<UnblockOutcome, PinError>)
  {
    if generation == UnknownGeneration then x == [] && result == Err(UnknownCardGeneration)
    else if (generation == Newer && options.code.Eight?) || (generation == Older && options.code.Seven?)
    then x == [] && result == Err(ActivationLengthMismatch)
    else
      && ProbesScript(probes, bound, generation, found)
      && if found.Err? then x == probes && result == Err(found.error)
         else if found.value == LooksActivated && !options.allowReactivate
         then x == probes && result == Ok(ActivateReport(LooksActivated, None, None))
         else
           && SlotScript(one, bound, generation, Pin1, options.code.code, options.newPin1, first)
           && if first.Err? then x == probes + one && result == Err(first.error)
              else if first.value != UnblockOk
              then x == probes + one && result == Ok(ActivateReport(found.value, Some(first.value), None))
              else
                && SlotScript(two, bound, generation, Pin2, options.code.code, options.newPin2, second)
                && x == probes + one + two
                && result == if second.Err? then Err(second.error)
                             else Ok(ActivateReport(found.value, Some(UnblockOk), Some(second.value)))
  }

  lemma ProbesFollowScript<S(!new)>(respond: (S, Command) -> (S, Reply), s: S, bound: Serial, generation: Generation)
    ensures var run := ActivationPreflight(respond, s, bound, generation);
            ProbesScript(run.exchanges, bound, generation, run.result)
  {
  }

  lemma SlotFollowsScript<S(!new)>(respond: (S, Command) -> (S, Reply), s: S, bound: Serial, generation: Generation, slot: PinSlot,
                                   code: Pin, replacement: Pin)
    requires generation != UnknownGeneration
    ensures var run := GuardedSetup(respond, s, bound, generation, slot, code, replacement);
            SlotScript(run.exchanges, bound, generation, slot, code, replacement, run.result)
  {
  }

  lemma ActivateFollowsScript<S(!new)>(respond: (S, Command) -> (S, Reply), s: S, bound: Serial, generation: Generation, options: ActivateOptions)
      returns (probes: seq<Exchange>, found: Result<Preflight, PinError>, one: seq<Exchange>, first: Result<UnblockOutcome, PinError>,
               two: seq<Exchange>, second: Result<UnblockOutcome, PinError>)
    ensures var run := ActivateRun(respond, s, bound, generation, options);
            ActivateScript(run.exchanges, bound, generation, options, run.result, probes, found, one, first, two, second)
  {
    var code := options.code.code;
    var pre := ActivationPreflight(respond, s, bound, generation);
    var setup1 := GuardedSetup(respond, pre.state, bound, generation, Pin1, code, options.newPin1);
    var setup2 := GuardedSetup(respond, setup1.state, bound, generation, Pin2, code, options.newPin2);
    probes, found, one, first, two, second := pre.exchanges, pre.result, setup1.exchanges, setup1.result, setup2.exchanges, setup2.result;
    if generation != UnknownGeneration {
      ProbesFollowScript(respond, s, bound, generation);
      SlotFollowsScript(respond, pre.state, bound, generation, Pin1, code, options.newPin1);
      SlotFollowsScript(respond, setup1.state, bound, generation, Pin2, code, options.newPin2);
      assert probes + [] == probes && probes + (one + two) == probes + one + two;
    }
  }

  lemma ProbesConverse<S(!new)>(respond: (S, Command) -> (S, Reply), s: S, bound: Serial, generation: Generation)
    ensures var run := ActivationPreflight(respond, s, bound, generation);
            Conversed(respond, s, run.exchanges, run.state)
  {
    ConversedFour(respond, s, SelectApplication, ReadTokenInfo, ProbeStatus(Pin1), ProbeStatus(Pin2));
    var (s1, r1) := respond(s, SelectApplication);
    var (s2, r2) := respond(s1, ReadTokenInfo);
    var (s3, r3) := respond(s2, ProbeStatus(Pin1));
    var (s4, r4) := respond(s3, ProbeStatus(Pin2));
    var (s5, r5) := respond(s4, ProbeChanged(Pin1));
    var four := [Exchange(SelectApplication, r1), Exchange(ReadTokenInfo, r2), Exchange(ProbeStatus(Pin1), r3), Exchange(ProbeStatus(Pin2), r4)];
    ConversedFive(respond, s, four, s4, ProbeChanged(Pin1));
    var five := [four[0], four[1], four[2], four[3], Exchange(ProbeChanged(Pin1), r5)];
    ConversedSnoc(respond, s, five, s5, ProbeChanged(Pin2));
    var (s6, r6) := respond(s5, ProbeChanged(Pin2));
    assert five + [Exchange(ProbeChanged(Pin2), r6)] == [four[0], four[1], four[2], four[3], five[4], Exchange(ProbeChanged(Pin2), r6)];
  }

  lemma SlotConverses<S(!new)>(respond: (S, Command) -> (S, Reply), s: S, bound: Serial, generation: Generation, slot: PinSlot,
                               code: Pin, replacement: Pin)
    ensures var run := GuardedSetup(respond, s, bound, generation, slot, code, replacement);
            Conversed(respond, s, run.exchanges, run.state)
  {
    var (s1, r) := respond(s, ReadTokenInfo);
    var e := Exchange(ReadTokenInfo, r);
    ConversedSnoc(respond, s, [], s, ReadTokenInfo);
    assert [] + [e] == [e] && [e] + [] == [e];
    ConversedSnoc(respond, s, [e], s1, SetupCommand(generation, slot, code, replacement));
  }

  lemma SetupsConverse<S(!new)>(respond: (S, Command) -> (S, Reply), s: S, bound: Serial, generation: Generation, options: ActivateOptions,
                                preflight: Preflight)
    ensures var run := Setups(respond, s, bound, generation, options, preflight);
            Conversed(respond, s, run.exchanges, run.state)
  {
    var code := options.code.code;
    var one := GuardedSetup(respond, s, bound, generation, Pin1, code, options.newPin1);
    var two := GuardedSetup(respond, one.state, bound, generation, Pin2, code, options.newPin2);
    SlotConverses(respond, s, bound, generation, Pin1, code, options.newPin1);
    SlotConverses(respond, one.state, bound, generation, Pin2, code, options.newPin2);
    ConversedJoin(respond, s, one.exchanges, one.state, two.exchanges, two.state);
  }

  lemma ActivateConverses<S(!new)>(respond: (S, Command) -> (S, Reply), s: S, bound: Serial, generation: Generation, options: ActivateOptions)
    ensures var run := ActivateRun(respond, s, bound, generation, options);
            Conversed(respond, s, run.exchanges, run.state)
  {
    var pre := ActivationPreflight(respond, s, bound, generation);
    ProbesConverse(respond, s, bound, generation);
    if pre.result.Ok? {
      var setups := Setups(respond, pre.state, bound, generation, options, pre.result.value);
      SetupsConverse(respond, pre.state, bound, generation, options, pre.result.value);
      ConversedJoin(respond, s, pre.exchanges, pre.state, setups.exchanges, setups.state);
      assert pre.exchanges + [] == pre.exchanges;
    }
  }
}
