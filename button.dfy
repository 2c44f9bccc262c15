/** The push button: the level read each tick is debounced (a change counts
    once it has been stable for more than 50 ms) and each press is classified
    by how long it is held: a short press (< 1 s) and a medium press
    (< 5 s) on release, a medium press while held once 1 s is reached (only
    while the system is on), and a long press while held once 5 s is reached. */
module Button {
  import opened Clock

  const DebounceMs: int := 50
  const MediumPressMs: int := 1000
  const LongPressMs: int := 5000

  datatype Action = NoAction | ShortPress | MediumPress | LongPress

  /** The fields of a `Button`. `hasSystemState` says whether `setSystemState`
      gave it a pointer to the system's on/off flag. */
  datatype ButtonState = ButtonState(
    activeLow: bool,
    lastState: bool,
    isPressed: bool,
    longPressSent: bool,
    shortPressSent: bool,
    lastDebounceTime: Millis,
    pressStartTime: Millis,
    hasSystemState: bool)

  /** One call of `handle`: the pin level, the flag the system-state pointer
      points to (read only when the pointer is set), and `millis()`. */
  datatype Input = Input(level: bool, systemOff: bool, now: Millis)

  datatype Outcome = Outcome(next: ButtonState, action: Action)

  /** The state the constructor sets up: active low, last level HIGH. */
  const Fresh: ButtonState := ButtonState(true, true, false, false, false, 0, 0, false)

  /** The action a release reports when no medium press was sent while held. */
  function ReleaseAction(duration: Millis): Action {
    if duration < MediumPressMs then ShortPress
    else if duration < LongPressMs then MediumPress
    else NoAction
  }

  /** `handle()`. */
  function Step(b: ButtonState, i: Input): (o: Outcome)
    ensures o.next.activeLow == b.activeLow && o.next.hasSystemState == b.hasSystemState
    ensures o.action == ShortPress ==> b.isPressed && !o.next.isPressed
    ensures o.action == MediumPress ==>
      (b.isPressed && !o.next.isPressed) || (o.next.isPressed && o.next.shortPressSent && b.hasSystemState && !i.systemOff)
    ensures o.action == LongPress ==> o.next.isPressed && o.next.longPressSent && !b.longPressSent
    ensures o.action != NoAction ==> Elapsed(i.now, o.next.lastDebounceTime) > DebounceMs
  {
    var current := if b.activeLow then !i.level else i.level;
    var debounced := if current != b.lastState then i.now else b.lastDebounceTime;
    var b1 := b.(lastDebounceTime := debounced, lastState := current);
    if Elapsed(i.now, debounced) > DebounceMs then
      // accept a change of the debounced level
      var (b2, a2) :=
        if current != b.isPressed then
          if current then
            (b1.(isPressed := true, pressStartTime := i.now, longPressSent := false, shortPressSent := false), NoAction)
          else
            (b1.(isPressed := false),
             if !b.shortPressSent then ReleaseAction(Elapsed(i.now, b.pressStartTime)) else NoAction)
        else (b1, NoAction);
      // medium press while held, only when the system is known to be on
      var (b3, a3) :=
        if b2.isPressed && !b2.shortPressSent && b2.hasSystemState && !i.systemOff
           && Elapsed(i.now, b2.pressStartTime) >= MediumPressMs
        then (b2.(shortPressSent := true), MediumPress)
        else (b2, a2);
      // long press while held
      if b3.isPressed && !b3.longPressSent && Elapsed(i.now, b3.pressStartTime) >= LongPressMs
      then Outcome(b3.(longPressSent := true), LongPress)
      else Outcome(b3, a3)
    else Outcome(b1, NoAction)
  }

  /** The call accepts a new press. */
  predicate StartsPress(b: ButtonState, i: Input) {
    !b.isPressed && Step(b, i).next.isPressed
  }

  // ---------------------------------------------------------------------------
  // Properties

  /** The level is inverted when active low and recorded; any change of it
      restarts the debounce timer, and the pressed state changes only when the
      level has been stable for more than 50 ms. */
  lemma DebounceGate(b: ButtonState, i: Input)
    ensures var o := Step(b, i);
      var current := if b.activeLow then !i.level else i.level;
      && o.next.lastState == current
      && (current != b.lastState ==> o.next.lastDebounceTime == i.now && o.next.isPressed == b.isPressed && o.action == NoAction)
      && (o.next.isPressed != b.isPressed ==>
            current == b.lastState && Elapsed(i.now, b.lastDebounceTime) > DebounceMs
            && o.next.isPressed == current)
  {
  }

  /** Accepting a press records its start and clears both sent-flags. */
  lemma PressStartClears(b: ButtonState, i: Input)
    requires StartsPress(b, i)
    ensures var o := Step(b, i);
      && o.next.pressStartTime == i.now && !o.next.longPressSent && !o.next.shortPressSent
      && o.action == NoAction
  {
  }

  /** A release after a press with no medium press sent is classified by its
      duration: under 1 s short, under 5 s medium, otherwise nothing. */
  lemma ReleaseClassifies(b: ButtonState, i: Input)
    requires b.isPressed && !Step(b, i).next.isPressed
    ensures var d := Elapsed(i.now, b.pressStartTime);
      var a := Step(b, i).action;
      && (b.shortPressSent ==> a == NoAction)
      && (!b.shortPressSent && d < MediumPressMs ==> a == ShortPress)
      && (!b.shortPressSent && MediumPressMs <= d < LongPressMs ==> a == MediumPress)
      && (!b.shortPressSent && d >= LongPressMs ==> a == NoAction)
  {
  }

  /** A medium press reported while the button is still held needs the
      system-state pointer and the system to be on, and is reported once. */
  lemma MediumWhileHeldNeedsSystemOn(b: ButtonState, i: Input)
    requires Step(b, i).action == MediumPress && Step(b, i).next.isPressed
    ensures b.hasSystemState && !i.systemOff
    ensures !b.shortPressSent && Step(b, i).next.shortPressSent
    ensures Elapsed(i.now, b.pressStartTime) >= MediumPressMs
  {
  }

  /** Once 5 s have been held and no long press was sent in this press, the
      call reports a long press, whatever else it would have reported. */
  lemma LongPressOverrides(b: ButtonState, i: Input)
    requires b.isPressed && !b.longPressSent
    requires Elapsed(i.now, b.pressStartTime) >= LongPressMs
    requires (if b.activeLow then !i.level else i.level) == b.lastState
    requires Elapsed(i.now, b.lastDebounceTime) > DebounceMs
    requires b.lastState == b.isPressed
    ensures Step(b, i).action == LongPress && Step(b, i).next.longPressSent
  {
  }

  /** A long press is reported only when none was sent in this press. */
  lemma LongPressMarksSent(b: ButtonState, i: Input)
    ensures Step(b, i).action == LongPress ==> !b.longPressSent && Step(b, i).next.longPressSent
    ensures b.longPressSent && !Step(b, i).next.longPressSent ==> StartsPress(b, i)
  {
  }

  /** The calls of `inputs` in turn. */
  function Run(b: ButtonState, inputs: seq<Input>): (actions: seq<Action>)
    ensures |actions| == |inputs|
    decreases |inputs|
  {
    if inputs == [] then []
    else [Step(b, inputs[0]).action] + Run(Step(b, inputs[0]).next, inputs[1..])
  }

  /** None of the calls of `inputs` accepts a new press. */
  predicate NoPressStart(b: ButtonState, inputs: seq<Input>)
    decreases |inputs|
  {
    inputs == [] || (!StartsPress(b, inputs[0]) && NoPressStart(Step(b, inputs[0]).next, inputs[1..]))
  }

  function CountLong(actions: seq<Action>): nat {
    if actions == [] then 0 else (if actions[0] == LongPress then 1 else 0) + CountLong(actions[1..])
  }

  /** Within one press (no new press accepted) a long press is reported at
      most once, and not at all if it was already sent. */
  lemma {:induction false} LongPressOncePerPress(b: ButtonState, inputs: seq<Input>)
    requires NoPressStart(b, inputs)
    ensures CountLong(Run(b, inputs)) <= if b.longPressSent then 0 else 1
    decreases |inputs|
  {
    if inputs != [] {
      var o := Step(b, inputs[0]);
      LongPressMarksSent(b, inputs[0]);
      LongPressOncePerPress(o.next, inputs[1..]);
      assert Run(b, inputs)[1..] == Run(o.next, inputs[1..]);
    }
  }

  // ---------------------------------------------------------------------------

  class Button {
    const pin: nat
    var activeLow: bool
    var lastState: bool
    var isPressed: bool
    var longPressSent: bool
    var shortPressSent: bool
    var lastDebounceTime: Millis
    var pressStartTime: Millis
    var hasSystemState: bool

    function State(): ButtonState
      reads this
    {
      ButtonState(activeLow, lastState, isPressed, longPressSent, shortPressSent,
                  lastDebounceTime, pressStartTime, hasSystemState)
    }

    constructor (pin: nat)
      ensures State() == Fresh && this.pin == pin
    {
      this.pin := pin;
      activeLow := true;
      lastState := true;
      isPressed := false;
      longPressSent := false;
      shortPressSent := false;
      lastDebounceTime := 0;
      pressStartTime := 0;
      hasSystemState := false;
    }

    method SetSystemState(pointerSet: bool)
      modifies this
      ensures State() == old(State()).(hasSystemState := pointerSet)
    {
      hasSystemState := pointerSet;
    }

    method Handle(level: bool, systemOff: bool, now: Millis) returns (action: Action)
      modifies this
      ensures Step(old(State()), Input(level, systemOff, now)) == Outcome(State(), action)
    {
      action := NoAction;
      var currentState := level;
      if activeLow {
        currentState := !currentState;
      }
      if currentState != lastState {
        lastDebounceTime := now;
      }
      if Elapsed(now, lastDebounceTime) > DebounceMs {
        if currentState != isPressed {
          isPressed := currentState;
          if isPressed {
            pressStartTime := now;
            longPressSent := false;
            shortPressSent := false;
          } else if !shortPressSent {
            var duration := Elapsed(now, pressStartTime);
            if duration < MediumPressMs {
              action := ShortPress;
            } else if duration < LongPressMs {
              action := MediumPress;
            }
          }
        }
        if isPressed && !shortPressSent && hasSystemState && !systemOff {
          if Elapsed(now, pressStartTime) >= MediumPressMs {
            shortPressSent := true;
            action := MediumPress;
          }
        }
        if isPressed && !longPressSent {
          if Elapsed(now, pressStartTime) >= LongPressMs {
            longPressSent := true;
            action := LongPress;
          }
        }
      }
      lastState := currentState;
    }
  }
}
