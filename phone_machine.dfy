/**
 * The call-control state machine of the rotary phone (`Phone`), the FIFO event queue
 * the hardware callbacks fill, and the application loop that drains it one event at a time.
 */
module PhoneMachine {
  import opened Wrappers

  datatype State = Idle | AwaitingDialInput | DialActive | Connecting | Ringing | InCall

  /** The events declared on the machine. */
  datatype PhoneEvent =
    | PickUpReceiver | NumberDialed | HangUp | ActivateDial | DeactivateDial
    | CallConnected | DialPulse | CallReceived

  /** The members of the `Event` enum that the hardware puts on the queue. */
  datatype Event =
    | ReceiverUp | ReceiverDown | DialActivate | DialDeactivate | DialPulse | IncomingCall | CallConnected

  /** The machine event each queued `Event` stands for. */
  function MachineEvent(e: Event): PhoneEvent
  {
    match e
    case ReceiverUp => PickUpReceiver
    case ReceiverDown => HangUp
    case DialActivate => ActivateDial
    case DialDeactivate => DeactivateDial
    case DialPulse => PhoneEvent.DialPulse
    case IncomingCall => CallReceived
    case CallConnected => PhoneEvent.CallConnected
  }

  type Digit = d: int | 0 <= d <= 9

  /** The observable state of a `Phone`: its current state and the two fields its hooks update. */
  datatype Machine = Machine(state: State, currentDialDigit: Digit, dialedNumber: string)

  const INITIAL: Machine := Machine(Idle, 0, "")

  /** The number length `App` gives its `Phone`. */
  const APP_NUMBER_LENGTH: int := 6

  /** The declared transitions, one (source, event, target) triple each. */
  const TRANSITIONS: set<(State, PhoneEvent, State)> := {
    (Idle, PickUpReceiver, AwaitingDialInput), (Ringing, PickUpReceiver, InCall),
    (AwaitingDialInput, NumberDialed, InCall),
    (InCall, HangUp, Idle), (AwaitingDialInput, HangUp, Idle), (Connecting, HangUp, Idle), (DialActive, HangUp, Idle),
    (AwaitingDialInput, ActivateDial, DialActive),
    (DialActive, DeactivateDial, AwaitingDialInput), (DialActive, DeactivateDial, Connecting),
    (Connecting, PhoneEvent.CallConnected, InCall),
    (DialActive, PhoneEvent.DialPulse, DialActive),
    (Idle, CallReceived, Ringing)
  }

  predicate Declared(source: State, event: PhoneEvent, target: State)
  {
    (source, event, target) in TRANSITIONS
  }

  /** `is_last_digit`: numbers starting with 0 are reserved and never complete; others complete at `numberLength`. */
  predicate IsLastDigit(dialedNumber: string, numberLength: int)
  {
    if |dialedNumber| > 0 && dialedNumber[0] == '0' then false else |dialedNumber| == numberLength
  }

  /**
   * The target the machine picks for `event` in `source`, or None when no transition
   * applies. `lastDigit` is the value of the `is_last_digit` guard.
   */
  function Target(source: State, event: PhoneEvent, lastDigit: bool): Option<State>
  {
    match (source, event)
    case (Idle, PickUpReceiver) => Some(AwaitingDialInput)
    case (Ringing, PickUpReceiver) => Some(InCall)
    case (AwaitingDialInput, NumberDialed) => Some(InCall)
    case (InCall, HangUp) => Some(Idle)
    case (AwaitingDialInput, HangUp) => Some(Idle)
    case (Connecting, HangUp) => Some(Idle)
    case (DialActive, HangUp) => Some(Idle)
    case (AwaitingDialInput, ActivateDial) => Some(DialActive)
    case (DialActive, DeactivateDial) => Some(if lastDigit then Connecting else AwaitingDialInput)
    case (Connecting, CallConnected) => Some(InCall)
    case (DialActive, DialPulse) => Some(DialActive)
    case (Idle, CallReceived) => Some(Ringing)
    case _ => None
  }

  /** `str(d)` for a single decimal digit. */
  function DigitChar(d: Digit): char
  {
    ('0' as int + d) as char
  }

  /** `on_enter_dial_active`. */
  function OnEnterDialActive(m: Machine): Machine
  {
    m.(currentDialDigit := 0)
  }

  /** `after_dial_pulse`. */
  function AfterDialPulse(m: Machine): Machine
  {
    m.(currentDialDigit := (m.currentDialDigit + 1) % 10)
  }

  /** `on_exit_dial_active`. */
  function OnExitDialActive(m: Machine): Machine
  {
    m.(dialedNumber := m.dialedNumber + [DigitChar(m.currentDialDigit)])
  }

  /** `after_hang_up`. */
  function AfterHangUp(m: Machine): Machine
  {
    m.(dialedNumber := "")
  }

  /**
   * Sending `event` to the machine: the guard is evaluated first, on the number as it
   * stands; then the exit hook of the state left, the state change, the enter hook of the
   * state entered, and the event's after hook. `dial_pulse` is internal, so it runs no
   * exit or enter hook. None when no transition applies (TransitionNotAllowed).
   */
  function Fire(m: Machine, numberLength: int, event: PhoneEvent): Option<Machine>
  {
    match Target(m.state, event, IsLastDigit(m.dialedNumber, numberLength))
    case None => None
    case Some(target) =>
      var internal := event == PhoneEvent.DialPulse;
      var exited := if m.state == DialActive && !internal then OnExitDialActive(m) else m;
      var moved := exited.(state := target);
      var entered := if target == DialActive && !internal then OnEnterDialActive(moved) else moved;
      Some(match event
           case DialPulse => AfterDialPulse(entered)
           case HangUp => AfterHangUp(entered)
           case _ => entered)
  }

  /** Only the declared (state, event) pairs move the machine, and only to a declared target. */
  lemma FireFollowsTable(m: Machine, numberLength: int, event: PhoneEvent)
    ensures Fire(m, numberLength, event).Some? <==> exists t :: Declared(m.state, event, t)
    ensures Fire(m, numberLength, event).Some? ==> Declared(m.state, event, Fire(m, numberLength, event).value.state)
  {
    var r := Fire(m, numberLength, event);
    if r.Some? {
      assert Declared(m.state, event, r.value.state);
    } else {
      forall t ensures !Declared(m.state, event, t) {
        assert Target(m.state, event, true).None? && Target(m.state, event, false).None?;
      }
    }
  }

  /** `activate_dial` enters `dial_active` with the digit reset and the number untouched. */
  lemma ActivateDialResetsDigit(m: Machine, numberLength: int)
    requires m.state == AwaitingDialInput
    ensures Fire(m, numberLength, ActivateDial) == Some(Machine(DialActive, 0, m.dialedNumber))
  {
  }

  /** A pulse keeps the machine in `dial_active` and counts the digit up, modulo 10. */
  lemma DialPulseCounts(m: Machine, numberLength: int)
    requires m.state == DialActive
    ensures Fire(m, numberLength, PhoneEvent.DialPulse) == Some(m.(currentDialDigit := (m.currentDialDigit + 1) % 10))
  {
  }

  /**
   * `deactivate_dial` takes exactly one of its two branches: to `connecting` when the
   * number dialed so far is complete, else back to `awaiting_dial_input`; either way the
   * current digit is appended after the guard was evaluated.
   */
  lemma DeactivateDialBranches(m: Machine, numberLength: int)
    requires m.state == DialActive
    ensures Fire(m, numberLength, DeactivateDial)
         == Some(Machine(if IsLastDigit(m.dialedNumber, numberLength) then Connecting else AwaitingDialInput,
                         m.currentDialDigit, m.dialedNumber + [DigitChar(m.currentDialDigit)]))
  {
  }

  /**
   * Reaching `connecting` means one digit more than `numberLength` was dialed, since the
   * guard sees the number before the exiting digit is appended; and a number starting with
   * 0 never gets there.
   */
  lemma ConnectingNumberLength(m: Machine, numberLength: int)
    requires Fire(m, numberLength, DeactivateDial).Some?
    requires Fire(m, numberLength, DeactivateDial).value.state == Connecting
    ensures |Fire(m, numberLength, DeactivateDial).value.dialedNumber| == numberLength + 1
    ensures numberLength > 0 ==> Fire(m, numberLength, DeactivateDial).value.dialedNumber[0] != '0'
  {
  }

  /** `hang_up` is accepted exactly in the four declared states and always ends idle with the number cleared. */
  lemma HangUpClears(m: Machine, numberLength: int)
    ensures Fire(m, numberLength, HangUp).Some? <==> m.state in {InCall, AwaitingDialInput, Connecting, DialActive}
    ensures Fire(m, numberLength, HangUp).Some? ==>
              Fire(m, numberLength, HangUp).value.state == Idle && Fire(m, numberLength, HangUp).value.dialedNumber == ""
  {
  }

  predicate AllDigitChars(s: string)
  {
    forall i :: 0 <= i < |s| ==> '0' <= s[i] <= '9'
  }

  /**
   * What every reachable machine satisfies: the number holds decimal digits only, it is
   * empty whenever the phone is idle or ringing, and a connecting phone has dialed something.
   */
  predicate Inv(m: Machine)
  {
    && AllDigitChars(m.dialedNumber)
    && (m.state == Idle || m.state == Ringing ==> m.dialedNumber == "")
    && (m.state == Connecting ==> m.dialedNumber != "")
  }

  lemma FirePreservesInv(m: Machine, numberLength: int, event: PhoneEvent)
    requires Inv(m)
    requires Fire(m, numberLength, event).Some?
    ensures Inv(Fire(m, numberLength, event).value)
  {
  }

  /** Sending events in order; None as soon as one is not allowed (the loop stops there). */
  function Run(m: Machine, numberLength: int, events: seq<PhoneEvent>): Option<Machine>
    decreases |events|
  {
    if events == [] then Some(m)
    else
      match Fire(m, numberLength, events[0])
      case None => None
      case Some(next) => Run(next, numberLength, events[1..])
  }

  lemma {:induction false} RunAppend(m: Machine, numberLength: int, xs: seq<PhoneEvent>, ys: seq<PhoneEvent>)
    ensures Run(m, numberLength, xs + ys)
         == match Run(m, numberLength, xs)
            case None => None
            case Some(mid) => Run(mid, numberLength, ys)
    decreases |xs|
  {
    if xs == [] {
      assert xs + ys == ys;
    } else {
      assert (xs + ys)[0] == xs[0] && (xs + ys)[1..] == xs[1..] + ys;
      match Fire(m, numberLength, xs[0])
      case None =>
      case Some(next) => RunAppend(next, numberLength, xs[1..], ys);
    }
  }

  /** Every machine reached from one satisfying `Inv` satisfies it too. */
  lemma {:induction false} RunPreservesInv(m: Machine, numberLength: int, events: seq<PhoneEvent>)
    requires Inv(m)
    requires Run(m, numberLength, events).Some?
    ensures Inv(Run(m, numberLength, events).value)
    decreases |events|
  {
    if events != [] {
      FirePreservesInv(m, numberLength, events[0]);
      RunPreservesInv(Fire(m, numberLength, events[0]).value, numberLength, events[1..]);
    }
  }

  function Pulses(k: nat): (es: seq<PhoneEvent>)
  {
    seq(k, _ => PhoneEvent.DialPulse)
  }

  /** `k` pulses in `dial_active` advance the digit by `k`, modulo 10. */
  lemma {:induction false} RunPulses(m: Machine, numberLength: int, k: nat)
    requires m.state == DialActive
    ensures Run(m, numberLength, Pulses(k)) == Some(m.(currentDialDigit := (m.currentDialDigit + k) % 10))
    decreases k
  {
    if k > 0 {
      var next := m.(currentDialDigit := (m.currentDialDigit + 1) % 10);
      assert Fire(m, numberLength, PhoneEvent.DialPulse) == Some(next);
      assert Pulses(k)[0] == PhoneEvent.DialPulse && Pulses(k)[1..] == Pulses(k - 1);
      RunPulses(next, numberLength, k - 1);
      assert (next.currentDialDigit + (k - 1)) % 10 == (m.currentDialDigit + k) % 10;
    }
  }

  /** Ten pulses after the dial is activated decode as the digit 0. */
  lemma TenPulsesDialZero(m: Machine, numberLength: int)
    requires m.state == AwaitingDialInput
    ensures Run(m, numberLength, [ActivateDial] + Pulses(10) + [DeactivateDial]).Some?
    ensures Run(m, numberLength, [ActivateDial] + Pulses(10) + [DeactivateDial]).value.dialedNumber == m.dialedNumber + "0"
  {
    DialOneDigit(m, numberLength, 10);
  }

  /**
   * One turn of the dial from `awaiting_dial_input` with `k` pulses appends the digit
   * `k % 10` and moves on to `connecting` exactly when the number before it was complete.
   */
  lemma DialOneDigit(m: Machine, numberLength: int, k: nat)
    requires m.state == AwaitingDialInput
    ensures Run(m, numberLength, [ActivateDial] + Pulses(k) + [DeactivateDial])
         == Some(Machine(if IsLastDigit(m.dialedNumber, numberLength) then Connecting else AwaitingDialInput,
                         k % 10, m.dialedNumber + [DigitChar(k % 10)]))
  {
    var active := Machine(DialActive, 0, m.dialedNumber);
    assert Fire(m, numberLength, ActivateDial) == Some(active);
    RunAppend(m, numberLength, [ActivateDial], Pulses(k));
    assert Run(m, numberLength, [ActivateDial]) == Some(active) by {
      assert [ActivateDial][1..] == [];
    }
    RunPulses(active, numberLength, k);
    var counted := active.(currentDialDigit := k % 10);
    RunAppend(m, numberLength, [ActivateDial] + Pulses(k), [DeactivateDial]);
    DeactivateDialBranches(counted, numberLength);
    assert [DeactivateDial][1..] == [];
  }

  /** Picking up, activating the dial and one pulse leave the phone in `dial_active`. */
  lemma FirstPulseScenario()
    ensures Run(INITIAL, APP_NUMBER_LENGTH, [PickUpReceiver, ActivateDial, PhoneEvent.DialPulse])
         == Some(Machine(DialActive, 1, ""))
  {
    var es := [PickUpReceiver, ActivateDial, PhoneEvent.DialPulse];
    assert es[1..] == [ActivateDial, PhoneEvent.DialPulse];
    assert es[1..][1..] == [PhoneEvent.DialPulse];
  }

  /**
   * With number length 1 the first digit does not complete the number (the guard sees the
   * empty number); the second one does.
   */
  lemma NumberLengthOneScenario()
    ensures Run(Machine(AwaitingDialInput, 0, ""), 1, [ActivateDial] + Pulses(5) + [DeactivateDial])
         == Some(Machine(AwaitingDialInput, 5, "5"))
    ensures Run(Machine(AwaitingDialInput, 5, "5"), 1, [ActivateDial] + Pulses(10) + [DeactivateDial])
         == Some(Machine(Connecting, 0, "50"))
  {
    DialTwoDigits(Machine(AwaitingDialInput, 0, ""), Machine(AwaitingDialInput, 5, "5"), 1, 5, 10);
  }

  /** The two dialings of the scenario above, with the machines and counts kept symbolic. */
  lemma DialTwoDigits(m0: Machine, m1: Machine, numberLength: int, k0: nat, k1: nat)
    requires m0 == Machine(AwaitingDialInput, 0, "") && m1 == Machine(AwaitingDialInput, 5, "5")
    requires numberLength == 1 && k0 == 5 && k1 == 10
    ensures Run(m0, numberLength, [ActivateDial] + Pulses(k0) + [DeactivateDial]) == Some(m1)
    ensures Run(m1, numberLength, [ActivateDial] + Pulses(k1) + [DeactivateDial])
         == Some(Machine(Connecting, 0, "50"))
  {
    DialOneDigit(m0, numberLength, k0);
    assert "" + [DigitChar(5)] == "5";
    DialOneDigit(m1, numberLength, k1);
    assert IsLastDigit("5", 1);
    assert "5" + [DigitChar(0)] == "50";
  }

  /** A `Phone`: the state machine object whose hooks update its two fields. */
  class Phone {
    var state: State
    var currentDialDigit: Digit
    var dialedNumber: string
    const numberLength: int

    function Snapshot(): Machine
      reads this
    {
      Machine(state, currentDialDigit, dialedNumber)
    }

    constructor (numberLength: int)
      ensures Snapshot() == INITIAL && this.numberLength == numberLength
    {
      state := Idle;
      currentDialDigit := 0;
      dialedNumber := "";
      this.numberLength := numberLength;
    }

    method EnterDialActive()
      modifies this
      ensures Snapshot() == OnEnterDialActive(old(Snapshot()))
    {
      currentDialDigit := 0;
    }

    method CountDialPulse()
      modifies this
      ensures Snapshot() == AfterDialPulse(old(Snapshot()))
    {
      currentDialDigit := (currentDialDigit + 1) % 10;
    }

    method ExitDialActive()
      modifies this
      ensures Snapshot() == OnExitDialActive(old(Snapshot()))
    {
      dialedNumber := dialedNumber + [DigitChar(currentDialDigit)];
    }

    method ClearNumber()
      modifies this
      ensures Snapshot() == AfterHangUp(old(Snapshot()))
    {
      dialedNumber := "";
    }

    /** Sends `event`: false, with nothing changed, when no transition is allowed. */
    method Send(event: PhoneEvent) returns (accepted: bool)
      modifies this
      ensures accepted == Fire(old(Snapshot()), numberLength, event).Some?
      ensures Snapshot() == Fire(old(Snapshot()), numberLength, event).GetOr(old(Snapshot()))
    {
      var target := Target(state, event, IsLastDigit(dialedNumber, numberLength));
      if target.None? {
        return false;
      }
      var internal := event == PhoneEvent.DialPulse;
      if state == DialActive && !internal {
        ExitDialActive();
      }
      state := target.value;
      if target.value == DialActive && !internal {
        EnterDialActive();
      }
      if event == PhoneEvent.DialPulse {
        CountDialPulse();
      } else if event == HangUp {
        ClearNumber();
      }
      accepted := true;
    }
  }

  /** The queue between the hardware callbacks and the application loop. */
  class EventQueue {
    var items: seq<Event>

    constructor ()
      ensures items == []
    {
      items := [];
    }

    /** `put_nowait`: the event goes to the tail. */
    method Put(e: Event)
      modifies this
      ensures items == old(items) + [e]
    {
      items := items + [e];
    }

    /** `get`: the head event; None where the source would block on an empty queue. */
    method Get() returns (e: Option<Event>)
      modifies this
      ensures old(items) == [] ==> e == None && items == []
      ensures old(items) != [] ==> e == Some(old(items)[0]) && items == old(items)[1..]
    {
      if items == [] {
        e := None;
      } else {
        e := Some(items[0]);
        items := items[1..];
      }
    }
  }

  /** `gpio.HIGH`. */
  const HIGH: int := 1

  /** The GPIO callbacks: each puts exactly one event on the queue. `level` is the pin read back by `gpio.input`. */
  class Hardware {
    const eventQueue: EventQueue

    constructor (eventQueue: EventQueue)
      ensures this.eventQueue == eventQueue
    {
      this.eventQueue := eventQueue;
    }

    method OnDialActiveToggle(level: int)
      modifies eventQueue
      ensures eventQueue.items == old(eventQueue.items) + [if level == HIGH then DialActivate else DialDeactivate]
    {
      if level == HIGH {
        eventQueue.Put(DialActivate);
      } else {
        eventQueue.Put(DialDeactivate);
      }
    }

    method OnDialPulseRising()
      modifies eventQueue
      ensures eventQueue.items == old(eventQueue.items) + [Event.DialPulse]
    {
      eventQueue.Put(Event.DialPulse);
    }

    method OnReceiverToggle(level: int)
      modifies eventQueue
      ensures eventQueue.items == old(eventQueue.items) + [if level == HIGH then ReceiverUp else ReceiverDown]
    {
      if level == HIGH {
        eventQueue.Put(ReceiverUp);
      } else {
        eventQueue.Put(ReceiverDown);
      }
    }
  }

  /**
   * What one `handle_next_event` did. `accepted == false` stands for the `TransitionNotAllowed`
   * that python-statemachine raises and `run_forever` does not catch, so it ends the event loop.
   */
  datatype Handled = Handled(event: Event, accepted: bool) | QueueEmpty

  class App {
    const phone: Phone
    const eventQueue: EventQueue
    const hardware: Hardware

    constructor ()
      ensures fresh(phone) && fresh(eventQueue) && fresh(hardware)
      ensures phone.Snapshot() == INITIAL && phone.numberLength == APP_NUMBER_LENGTH
      ensures eventQueue.items == [] && hardware.eventQueue == eventQueue
    {
      phone := new Phone(APP_NUMBER_LENGTH);
      var q := new EventQueue();
      eventQueue := q;
      hardware := new Hardware(q);
    }

    /** Takes exactly the head of the queue and sends the machine event it stands for. */
    method HandleNextEvent() returns (handled: Handled)
      modifies phone, eventQueue
      ensures old(eventQueue.items) == [] ==>
                handled == QueueEmpty && eventQueue.items == [] && phone.Snapshot() == old(phone.Snapshot())
      ensures old(eventQueue.items) != [] ==>
                && eventQueue.items == old(eventQueue.items)[1..]
                && handled.Handled? && handled.event == old(eventQueue.items)[0]
                && var fired := Fire(old(phone.Snapshot()), phone.numberLength, MachineEvent(handled.event));
                && handled.accepted == fired.Some?
                && phone.Snapshot() == fired.GetOr(old(phone.Snapshot()))
    {
      var e := eventQueue.Get();
      if e.None? {
        return QueueEmpty;
      }
      var accepted := phone.Send(MachineEvent(e.value));
      handled := Handled(e.value, accepted);
    }
  }
}
