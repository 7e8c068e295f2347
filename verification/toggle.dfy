/**
 The start/stop button of tensor-flow/package/sig.py: each press runs
 `switch`, which turns the LED off and clears the `button_press` event
 when the LED is lit, and otherwise sets the event and turns the LED on.
 The detection loop of tensor-flow/detect_picamera.py runs a cycle only
 while the event is set.

 The GPIO devices and the `threading.Event` are modelled by their two
 observable booleans.
 */
module Toggle {

  /** Whether the LED on pin 4 is lit and whether `button_press` is set. */
  datatype Switch = Switch(ledLit: bool, eventSet: bool)

  /** At start-up `LED(4)` is off and `Event()` is clear. */
  function Init(): (s: Switch)
    ensures !s.ledLit && !s.eventSet
  {
    Switch(false, false)
  }

  /** The LED shows whether the pipeline is enabled. */
  predicate Agree(s: Switch) {
    s.ledLit == s.eventSet
  }

  /** One call of `switch`: branch on the LED alone. */
  function Press(s: Switch): (r: Switch)
    ensures r.ledLit == !s.ledLit
    ensures r.eventSet == r.ledLit
  {
    if s.ledLit then Switch(false, false) else Switch(true, true)
  }

  /** The state after `n` presses from `s`. */
  function Presses(s: Switch, n: nat): (r: Switch)
    ensures n > 0 ==> Agree(r)
  {
    if n == 0 then s else Press(Presses(s, n - 1))
  }

  /** The event is set exactly while the LED is lit, from start-up on and
      after every press. */
  lemma {:induction false} AlwaysAgree(n: nat)
    ensures Agree(Presses(Init(), n))
  {
    if n > 0 {
      AlwaysAgree(n - 1);
    }
  }

  /** A press re-establishes agreement even from a state where the LED and
      the event disagree, since it sets both from the LED alone. */
  lemma PressRepairs(s: Switch)
    ensures Agree(Press(s))
    ensures !Agree(s) ==> Press(s).eventSet == s.eventSet
  {
  }

  /** Two presses undo each other in every reachable state. */
  lemma PressTwice(s: Switch)
    requires Agree(s)
    ensures Press(Press(s)) == s
  {
  }

  /** From start-up, the pipeline runs after an odd number of presses and
      is stopped after an even number. */
  lemma {:induction false} OddPressesRun(n: nat)
    ensures Presses(Init(), n).eventSet <==> n % 2 == 1
    ensures Presses(Init(), n).ledLit <==> n % 2 == 1
  {
    if n > 0 {
      OddPressesRun(n - 1);
    }
  }
}
