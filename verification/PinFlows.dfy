/** The PIN-management flows: ordered command sequences against a card.  A run is
    described for any card whatever (`respond` is arbitrary); the methods drive a
    mutable transport and are proved against those descriptions. */
module PinFlows {
  import opened Basics

  type Pin = seq<byte>
  type Serial = seq<byte>

  datatype PinSlot = Pin1 | Pin2

  datatype StatusWord =
    | Success | PinIncorrect(retries: nat) | AuthenticationFailed | AuthenticationBlocked
    | ReferenceDataInvalidated | WrongLength | OtherWord(sw: nat)

  datatype Command =
    | SelectApplication
    | ReadTokenInfo
    | ProbeStatus(slot: PinSlot)
    | ProbeChanged(slot: PinSlot)
    | ChangePin(slot: PinSlot, current: Pin, replacement: Pin)
    | ResetRetryCounter(slot: PinSlot, puk: Pin, replacement: Pin)

  /** A transport failure, or a status word with what the body decoded to. */
  datatype Reply = NoReply | Reply(sw: StatusWord, serial: Option<Serial>, changed: Option<bool>)

  datatype Exchange = Exchange(command: Command, reply: Reply)

  datatype PinStatus = AlreadyVerified | Remaining(retries: nat) | NoInfo | StatusLocked | OtherStatus

  datatype ChangePinOutcome = ChangeOk | WrongCurrentPin(retriesLeft: nat) | ChangeLocked | ChangeLengthError | ChangeOther

  datatype UnblockOutcome =
    | UnblockOk | WrongPuk(retriesLeft: nat) | PukLocked | Invalidated | UnblockLengthError | UnblockOther

  datatype PinError =
    | Pkcs15Select | CardSessionRevoked | CardLooksUnactivated | ConsumerRetryFloor
    | PinPolicy | TransportFailed | ActivationLengthMismatch | UnknownCardGeneration

  // ----- classification of status words

  function ClassifyStatus(sw: StatusWord): PinStatus {
    match sw
    case Success => AlreadyVerified
    case PinIncorrect(n) => Remaining(n)
    case AuthenticationFailed => NoInfo
    case AuthenticationBlocked => StatusLocked
    case ReferenceDataInvalidated => StatusLocked
    case _ => OtherStatus
  }

  function ClassifyChange(sw: StatusWord): ChangePinOutcome {
    match sw
    case Success => ChangeOk
    case PinIncorrect(n) => WrongCurrentPin(n)
    case AuthenticationBlocked => ChangeLocked
    case ReferenceDataInvalidated => ChangeLocked
    case WrongLength => ChangeLengthError
    case _ => ChangeOther
  }

  function ClassifyReset(sw: StatusWord): UnblockOutcome {
    match sw
    case Success => UnblockOk
    case PinIncorrect(n) => WrongPuk(n)
    case AuthenticationBlocked => PukLocked
    case ReferenceDataInvalidated => Invalidated
    case WrongLength => UnblockLengthError
    case _ => UnblockOther
  }

  function ChangeToUnblock(o: ChangePinOutcome): UnblockOutcome {
    match o
    case ChangeOk => UnblockOk
    case WrongCurrentPin(n) => WrongPuk(n)
    case ChangeLocked => PukLocked
    case ChangeLengthError => UnblockLengthError
    case ChangeOther => UnblockOther
  }

  function ProbeResult(reply: Reply): Option<PinStatus> {
    match reply
    case NoReply => None
    case Reply(sw, _, _) => Some(ClassifyStatus(sw))
  }

  // ----- local gates

  predicate PinLooksActivated(probe: Option<PinStatus>) {
    probe.Some? && (probe.value.Remaining? || probe.value.AlreadyVerified? || probe.value.StatusLocked?)
  }

  /** The shared retry floor: one or two remaining tries, or a counter above five, refuse. */
  predicate PinChangeAvailable(probe: Option<PinStatus>) {
    match probe
    case Some(Remaining(n)) => n <= 5 && n != 1 && n != 2
    case Some(AlreadyVerified) => true
    case _ => false
  }

  const STORED_LENGTH: nat := 12
  const PUK_MIN_LENGTH: nat := 8

  function MinLength(slot: PinSlot): nat {
    match slot case Pin1 => 4 case Pin2 => 6
  }

  predicate DigitsWithin(pin: Pin, min: nat) {
    min <= |pin| <= STORED_LENGTH && forall i :: 0 <= i < |pin| ==> 48 <= pin[i] <= 57
  }

  predicate TokenMatches(reply: Reply, bound: Serial) {
    reply.Reply? && reply.sw == Success && reply.serial == Some(bound)
  }

  /** A run: the card afterwards, what was exchanged, and the result handed back. */
  datatype Run<S, T> = Run(state: S, exchanges: seq<Exchange>, result: Result<T, PinError>)

  // ----- the flows as functions of an arbitrary card

  function ChangeRun<S>(respond: (S, Command) -> (S, Reply), s: S, bound: Serial, slot: PinSlot, current: Pin, replacement: Pin)
      : Run<S, ChangePinOutcome>
  {
    var (s1, r1) := respond(s, SelectApplication);
    var e1 := Exchange(SelectApplication, r1);
    if !(r1.Reply? && r1.sw == Success) then Run(s1, [e1], Err(Pkcs15Select))
    else
      var (s2, r2) := respond(s1, ReadTokenInfo);
      var e2 := Exchange(ReadTokenInfo, r2);
      if !TokenMatches(r2, bound) then Run(s2, [e1, e2], Err(CardSessionRevoked))
      else
        var (s3, r3) := respond(s2, ProbeStatus(slot));
        var e3 := Exchange(ProbeStatus(slot), r3);
        if !PinLooksActivated(ProbeResult(r3)) then Run(s3, [e1, e2, e3], Err(CardLooksUnactivated))
        else if !PinChangeAvailable(ProbeResult(r3)) then Run(s3, [e1, e2, e3], Err(ConsumerRetryFloor))
        else
          var (s4, r4) := respond(s3, ReadTokenInfo);
          var e4 := Exchange(ReadTokenInfo, r4);
          if !TokenMatches(r4, bound) then Run(s4, [e1, e2, e3, e4], Err(CardSessionRevoked))
          else if !DigitsWithin(current, MinLength(slot)) || !DigitsWithin(replacement, MinLength(slot))
          then Run(s4, [e1, e2, e3, e4], Err(PinPolicy))
          else
            var command := ChangePin(slot, current, replacement);
            var (s5, r5) := respond(s4, command);
            Run(s5, [e1, e2, e3, e4, Exchange(command, r5)],
                if r5.NoReply? then Err(TransportFailed) else Ok(ClassifyChange(r5.sw)))
  }

  function UnblockRun<S>(respond: (S, Command) -> (S, Reply), s: S, bound: Serial, slot: PinSlot, puk: Pin, replacement: Pin)
      : Run<S, UnblockOutcome>
  {
    var (s1, r1) := respond(s, SelectApplication);
    var e1 := Exchange(SelectApplication, r1);
    if !(r1.Reply? && r1.sw == Success) then Run(s1, [e1], Err(Pkcs15Select))
    else
      var (s2, r2) := respond(s1, ReadTokenInfo);
      var e2 := Exchange(ReadTokenInfo, r2);
      if !TokenMatches(r2, bound) then Run(s2, [e1, e2], Err(CardSessionRevoked))
      else
        var (s3, r3) := respond(s2, ProbeStatus(slot));
        var e3 := Exchange(ProbeStatus(slot), r3);
        if !PinLooksActivated(ProbeResult(r3)) then Run(s3, [e1, e2, e3], Err(CardLooksUnactivated))
        else
          var (s4, r4) := respond(s3, ReadTokenInfo);
          var e4 := Exchange(ReadTokenInfo, r4);
          if !TokenMatches(r4, bound) then Run(s4, [e1, e2, e3, e4], Err(CardSessionRevoked))
          else if !DigitsWithin(puk, PUK_MIN_LENGTH) || !DigitsWithin(replacement, MinLength(slot))
          then Run(s4, [e1, e2, e3, e4], Err(PinPolicy))
          else
            var command := ResetRetryCounter(slot, puk, replacement);
            var (s5, r5) := respond(s4, command);
            Run(s5, [e1, e2, e3, e4, Exchange(command, r5)],
                if r5.NoReply? then Err(TransportFailed) else Ok(ClassifyReset(r5.sw)))
  }

  // ----- activation

  datatype Generation = Newer | Older | UnknownGeneration

  datatype ActivationCode = Seven(code: Pin) | Eight(code: Pin)

  datatype Preflight = LooksUnactivated | LooksActivated

  datatype ActivateReport = ActivateReport(preflight: Preflight, pin1: Option<UnblockOutcome>, pin2: Option<UnblockOutcome>)

  datatype ActivateOptions = ActivateOptions(code: ActivationCode, newPin1: Pin, newPin2: Pin, allowReactivate: bool)

  function CheckLengthMatch(code: ActivationCode, generation: Generation): Option<PinError> {
    match generation
    case UnknownGeneration => Some(UnknownCardGeneration)
    case Newer => if code.Seven? then None else Some(ActivationLengthMismatch)
    case Older => if code.Eight? then None else Some(ActivationLengthMismatch)
  }

  function ClassifyPreflight(pin1: Option<PinStatus>, generation: Generation, pin1Changed: Option<bool>): Preflight {
    if generation == Newer then
      if pin1Changed == Some(true) && pin1.Some? then LooksActivated else LooksUnactivated
    else if PinLooksActivated(pin1) then LooksActivated
    else LooksUnactivated
  }

  function ChangedFlag(reply: Reply): Option<bool> {
    if reply.Reply? && reply.sw == Success then reply.changed else None
  }

  function SetupCommand(generation: Generation, slot: PinSlot, code: Pin, replacement: Pin): Command {
    if generation == Newer then ChangePin(slot, code, replacement) else ResetRetryCounter(slot, code, replacement)
  }

  predicate SetupAllowed(generation: Generation, slot: PinSlot, code: Pin, replacement: Pin) {
    && DigitsWithin(code, if generation == Newer then MinLength(slot) else PUK_MIN_LENGTH)
    && DigitsWithin(replacement, MinLength(slot))
  }

  function SetupOutcome(generation: Generation, sw: StatusWord): UnblockOutcome {
    if generation == Newer then ChangeToUnblock(ClassifyChange(sw)) else ClassifyReset(sw)
  }

  /** One slot's setup: what was sent, if anything, and its outcome. */
  function SlotSetup<S>(respond: (S, Command) -> (S, Reply), s: S, generation: Generation, slot: PinSlot, code: Pin, replacement: Pin)
      : Run<S, UnblockOutcome>
  {
    if generation == UnknownGeneration then Run(s, [], Err(UnknownCardGeneration))
    else if !SetupAllowed(generation, slot, code, replacement) then Run(s, [], Err(PinPolicy))
    else
      var command := SetupCommand(generation, slot, code, replacement);
      var (s1, r) := respond(s, command);
      Run(s1, [Exchange(command, r)], if r.NoReply? then Err(TransportFailed) else Ok(SetupOutcome(generation, r.sw)))
  }

  /** Everything up to the decision to touch the card: six side-effect-free reads. */
  function ActivationPreflight<S>(respond: (S, Command) -> (S, Reply), s: S, bound: Serial, generation: Generation)
      : Run<S, Preflight>
  {
    var (s1, r1) := respond(s, SelectApplication);
    var e1 := Exchange(SelectApplication, r1);
    if !(r1.Reply? && r1.sw == Success) then Run(s1, [e1], Err(Pkcs15Select))
    else
      var (s2, r2) := respond(s1, ReadTokenInfo);
      var e2 := Exchange(ReadTokenInfo, r2);
      if !TokenMatches(r2, bound) then Run(s2, [e1, e2], Err(CardSessionRevoked))
      else
        var (s3, r3) := respond(s2, ProbeStatus(Pin1));
        var (s4, r4) := respond(s3, ProbeStatus(Pin2));
        var (s5, r5) := respond(s4, ProbeChanged(Pin1));
        var (s6, r6) := respond(s5, ProbeChanged(Pin2));
        Run(s6, [e1, e2, Exchange(ProbeStatus(Pin1), r3), Exchange(ProbeStatus(Pin2), r4),
                 Exchange(ProbeChanged(Pin1), r5), Exchange(ProbeChanged(Pin2), r6)],
            Ok(ClassifyPreflight(ProbeResult(r3), generation, ChangedFlag(r5))))
  }

  /** Re-verify the bound serial, then set up one slot. */
  function GuardedSetup<S>(respond: (S, Command) -> (S, Reply), s: S, bound: Serial, generation: Generation, slot: PinSlot,
                           code: Pin, replacement: Pin): Run<S, UnblockOutcome>
  {
    var (s1, r) := respond(s, ReadTokenInfo);
    var e := Exchange(ReadTokenInfo, r);
    if !TokenMatches(r, bound) then Run(s1, [e], Err(CardSessionRevoked))
    else
      var setup := SlotSetup(respond, s1, generation, slot, code, replacement);
      Run(setup.state, [e] + setup.exchanges, setup.result)
  }

  /** The setup of both slots, each a run from where the one before left the card;
      the second only counts if the first succeeded. */
  function BothSlots<S>(preflight: Preflight, one: Run<S, UnblockOutcome>, two: Run<S, UnblockOutcome>): Run<S, ActivateReport> {
    if one.result.Err? then Run(one.state, one.exchanges, Err(one.result.error))
    else if one.result.value != UnblockOk
    then Run(one.state, one.exchanges, Ok(ActivateReport(preflight, Some(one.result.value), None)))
    else
      Run(two.state, one.exchanges + two.exchanges,
          if two.result.Err? then Err(two.result.error)
          else Ok(ActivateReport(preflight, Some(UnblockOk), Some(two.result.value))))
  }

  /** What follows a preflight that succeeded. */
  function SetupsUnlessActivated<S>(respond: (S, Command) -> (S, Reply), s: S, bound: Serial, generation: Generation,
                                    options: ActivateOptions, preflight: Preflight): Run<S, ActivateReport>
  {
    if !options.allowReactivate && preflight == LooksActivated
    then Run(s, [], Ok(ActivateReport(LooksActivated, None, None)))
    else Setups(respond, s, bound, generation, options, preflight)
  }

  function Setups<S>(respond: (S, Command) -> (S, Reply), s: S, bound: Serial, generation: Generation, options: ActivateOptions,
                     preflight: Preflight): Run<S, ActivateReport>
  {
    var one := GuardedSetup(respond, s, bound, generation, Pin1, options.code.code, options.newPin1);
    var two := GuardedSetup(respond, one.state, bound, generation, Pin2, options.code.code, options.newPin2);
    BothSlots(preflight, one, two)
  }

  function ActivateRun<S>(respond: (S, Command) -> (S, Reply), s: S, bound: Serial, generation: Generation, options: ActivateOptions)
      : Run<S, ActivateReport>
  {
    var mismatch := CheckLengthMatch(options.code, generation);
    if mismatch.Some? then Run(s, [], Err(mismatch.value))
    else
      var pre := ActivationPreflight(respond, s, bound, generation);
      if pre.result.Err? then Run(pre.state, pre.exchanges, Err(pre.result.error))
      else
        var rest := SetupsUnlessActivated(respond, pre.state, bound, generation, options, pre.result.value);
        Run(rest.state, pre.exchanges + rest.exchanges, rest.result)
  }

  // ----- the flows on a mutable transport

  class Transport<S> {
    const respond: (S, Command) -> (S, Reply)
    var state: S
    ghost var trace: seq<Exchange>

    constructor (respond: (S, Command) -> (S, Reply), state: S)
      ensures this.respond == respond && this.state == state && trace == []
    {
      this.respond, this.state := respond, state;
      trace := [];
    }

    method Transmit(command: Command) returns (reply: Reply)
      modifies this
      ensures (state, reply) == respond(old(state), command)
      ensures trace == old(trace) + [Exchange(command, reply)]
    {
      var next := respond(state, command);
      state, reply := next.0, next.1;
      trace := trace + [Exchange(command, reply)];
    }

    method ReVerifySession(bound: Serial) returns (ok: bool)
      modifies this
      ensures var (after, reply) := respond(old(state), ReadTokenInfo);
              state == after && ok == TokenMatches(reply, bound) && trace == old(trace) + [Exchange(ReadTokenInfo, reply)]
    {
      var reply := Transmit(ReadTokenInfo);
      ok := TokenMatches(reply, bound);
    }

    method ChangePinFirst(bound: Serial, slot: PinSlot, current: Pin, replacement: Pin)
        returns (r: Result<ChangePinOutcome, PinError>)
      modifies this
      ensures var run := ChangeRun(respond, old(state), bound, slot, current, replacement);
              state == run.state && trace == old(trace) + run.exchanges && r == run.result
    {
      var selected := Transmit(SelectApplication);
      if !(selected.Reply? && selected.sw == Success) {
        return Err(Pkcs15Select);
      }
      var ok := ReVerifySession(bound);
      if !ok {
        return Err(CardSessionRevoked);
      }
      var reply := Transmit(ProbeStatus(slot));
      var probe := ProbeResult(reply);
      if !PinLooksActivated(probe) {
        return Err(CardLooksUnactivated);
      }
      if !PinChangeAvailable(probe) {
        return Err(ConsumerRetryFloor);
      }
      ok := ReVerifySession(bound);
      if !ok {
        return Err(CardSessionRevoked);
      }
      if !DigitsWithin(current, MinLength(slot)) || !DigitsWithin(replacement, MinLength(slot)) {
        return Err(PinPolicy);
      }
      var outcome := Transmit(ChangePin(slot, current, replacement));
      r := if outcome.NoReply? then Err(TransportFailed) else Ok(ClassifyChange(outcome.sw));
    }

    method UnblockPinFirst(bound: Serial, slot: PinSlot, puk: Pin, replacement: Pin)
        returns (r: Result<UnblockOutcome, PinError>)
      modifies this
      ensures var run := UnblockRun(respond, old(state), bound, slot, puk, replacement);
              state == run.state && trace == old(trace) + run.exchanges && r == run.result
    {
      var selected := Transmit(SelectApplication);
      if !(selected.Reply? && selected.sw == Success) {
        return Err(Pkcs15Select);
      }
      var ok := ReVerifySession(bound);
      if !ok {
        return Err(CardSessionRevoked);
      }
      var reply := Transmit(ProbeStatus(slot));
      if !PinLooksActivated(ProbeResult(reply)) {
        return Err(CardLooksUnactivated);
      }
      ok := ReVerifySession(bound);
      if !ok {
        return Err(CardSessionRevoked);
      }
      if !DigitsWithin(puk, PUK_MIN_LENGTH) || !DigitsWithin(replacement, MinLength(slot)) {
        return Err(PinPolicy);
      }
      var outcome := Transmit(ResetRetryCounter(slot, puk, replacement));
      r := if outcome.NoReply? then Err(TransportFailed) else Ok(ClassifyReset(outcome.sw));
    }

    method ActivateSlotSetup(generation: Generation, slot: PinSlot, code: Pin, replacement: Pin)
        returns (r: Result<UnblockOutcome, PinError>)
      modifies this
      ensures var run := SlotSetup(respond, old(state), generation, slot, code, replacement);
              state == run.state && trace == old(trace) + run.exchanges && r == run.result
    {
      match generation
      case UnknownGeneration => r := Err(UnknownCardGeneration);
      case _ =>
        if !SetupAllowed(generation, slot, code, replacement) {
          return Err(PinPolicy);
        }
        var outcome := Transmit(SetupCommand(generation, slot, code, replacement));
        r := if outcome.NoReply? then Err(TransportFailed) else Ok(SetupOutcome(generation, outcome.sw));
    }

    method ReVerifyAndSetUp(bound: Serial, generation: Generation, slot: PinSlot, code: Pin, replacement: Pin)
        returns (r: Result<UnblockOutcome, PinError>)
      modifies this
      ensures var run := GuardedSetup(respond, old(state), bound, generation, slot, code, replacement);
              state == run.state && trace == old(trace) + run.exchanges && r == run.result
    {
      var ok := ReVerifySession(bound);
      if !ok {
        return Err(CardSessionRevoked);
      }
      r := ActivateSlotSetup(generation, slot, code, replacement);
    }

    method ProbeForActivation(bound: Serial, generation: Generation) returns (r: Result<Preflight, PinError>)
      modifies this
      ensures var run := ActivationPreflight(respond, old(state), bound, generation);
              state == run.state && trace == old(trace) + run.exchanges && r == run.result
    {
      var selected := Transmit(SelectApplication);
      if !(selected.Reply? && selected.sw == Success) {
        return Err(Pkcs15Select);
      }
      var ok := ReVerifySession(bound);
      if !ok {
        return Err(CardSessionRevoked);
      }
      var pin1Probe := Transmit(ProbeStatus(Pin1));
      var pin2Probe := Transmit(ProbeStatus(Pin2));
      var pin1Changed := Transmit(ProbeChanged(Pin1));
      var pin2Changed := Transmit(ProbeChanged(Pin2));
      r := Ok(ClassifyPreflight(ProbeResult(pin1Probe), generation, ChangedFlag(pin1Changed)));
    }

    method ActivateFirst(bound: Serial, generation: Generation, options: ActivateOptions)
        returns (r: Result<ActivateReport, PinError>)
      modifies this
      ensures var run := ActivateRun(respond, old(state), bound, generation, options);
              state == run.state && trace == old(trace) + run.exchanges && r == run.result
    {
      var mismatch := CheckLengthMatch(options.code, generation);
      if mismatch.Some? {
        return Err(mismatch.value);
      }
      var preflight := ProbeForActivation(bound, generation);
      if preflight.Err? {
        return Err(preflight.error);
      }
      r := SetUpUnlessActivated(bound, generation, options, preflight.value);
    }

    method SetUpUnlessActivated(bound: Serial, generation: Generation, options: ActivateOptions, preflight: Preflight)
        returns (r: Result<ActivateReport, PinError>)
      modifies this
      ensures var run := SetupsUnlessActivated(respond, old(state), bound, generation, options, preflight);
              state == run.state && trace == old(trace) + run.exchanges && r == run.result
    {
      if !options.allowReactivate && preflight == LooksActivated {
        return Ok(ActivateReport(LooksActivated, None, None));
      }
      r := SetUpBothSlots(bound, generation, options, preflight);
    }

    method SetUpBothSlots(bound: Serial, generation: Generation, options: ActivateOptions, preflight: Preflight)
        returns (r: Result<ActivateReport, PinError>)
      modifies this
      ensures var run := Setups(respond, old(state), bound, generation, options, preflight);
              state == run.state && trace == old(trace) + run.exchanges && r == run.result
    {
      var one := ReVerifyAndSetUp(bound, generation, Pin1, options.code.code, options.newPin1);
      if one.Err? {
        return Err(one.error);
      }
      if one.value != UnblockOk {
        return Ok(ActivateReport(preflight, Some(one.value), None));
      }
      var two := ReVerifyAndSetUp(bound, generation, Pin2, options.code.code, options.newPin2);
      if two.Err? {
        return Err(two.error);
      }
      r := Ok(ActivateReport(preflight, Some(one.value), Some(two.value)));
    }
  }
}
