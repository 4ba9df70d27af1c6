/** Keyboard bookkeeping of scripts/KeyEvents.js: a "held" dictionary that keydown sets and keyup
    clears, a "pressed" dictionary that keyup sets and `getKeyPressed` consumes once, and the list
    of listener records the object registered. */
module Keyboard {

  /** The element a listener is attached to; the class itself only ever uses `document`. */
  datatype Target = Document | Element(id: nat)

  /** A registered callback: one of the class's two handlers, or a function from elsewhere. */
  datatype Handler = KeyDownHandler | KeyUpHandler | Outside(id: nat)

  /** The `{element, key, callback}` record `addEventListener` pushes. */
  datatype Listener = Listener(element: Target, key: string, callback: Handler)

  /** What `initialize` leaves in `events`. */
  const InitialListeners: seq<Listener> :=
    [Listener(Document, "keydown", KeyDownHandler), Listener(Document, "keyup", KeyUpHandler)]

  /** Reading `dict[code]` in a boolean context: a missing entry is `undefined`, hence false. */
  function Flag(m: map<string, bool>, code: string): bool
  {
    code in m && m[code]
  }

  /** The two dictionaries of the object. */
  datatype Keys = Keys(states: map<string, bool>, pressed: map<string, bool>)

  /** The three things that touch them: a keydown event, a keyup event and a `getKeyPressed` call. */
  datatype KeyInput = Down(code: string) | Up(code: string) | Poll(code: string)

  /** The effect of one input on the dictionaries (lines 31-38, 44-50). */
  function Apply(k: Keys, e: KeyInput): Keys
  {
    match e
    case Down(c) => k.(states := k.states[c := true])
    case Up(c) => k.(states := k.states[c := false], pressed := k.pressed[c := true])
    case Poll(c) => if Flag(k.pressed, c) then k.(pressed := k.pressed[c := false]) else k
  }

  /** The dictionaries after a whole sequence of inputs, oldest first. */
  function Run(k: Keys, trace: seq<KeyInput>): Keys
  {
    if trace == [] then k else Apply(Run(k, trace[..|trace| - 1]), trace[|trace| - 1])
  }

  /** No `getKeyPressed(c)` call comes after position `i` of the trace. */
  predicate NoPollAfter(trace: seq<KeyInput>, i: int, c: string)
  {
    forall j :: 0 <= j < |trace| && i < j ==> trace[j] != Poll(c)
  }

  /** No keyup of `c` comes after position `i` of the trace. */
  predicate NoUpAfter(trace: seq<KeyInput>, i: int, c: string)
  {
    forall j :: 0 <= j < |trace| && i < j ==> trace[j] != Up(c)
  }

  /** Some keyup of `c` has not been consumed by a later `getKeyPressed(c)`. */
  predicate UnconsumedUp(trace: seq<KeyInput>, c: string)
  {
    exists i :: 0 <= i < |trace| && trace[i] == Up(c) && NoPollAfter(trace, i, c)
  }

  /** Some keydown of `c` has not been followed by a keyup of `c`. */
  predicate UnreleasedDown(trace: seq<KeyInput>, c: string)
  {
    exists i :: 0 <= i < |trace| && trace[i] == Down(c) && NoUpAfter(trace, i, c)
  }

  /** Each input changes the entries of its own code and of no other. */
  lemma ApplyOtherCodes(k: Keys, e: KeyInput, c: string)
    requires e.code != c
    ensures Flag(Apply(k, e).states, c) == Flag(k.states, c)
    ensures Flag(Apply(k, e).pressed, c) == Flag(k.pressed, c)
  {
  }

  /** The pressed flag of `c` after a trace is set exactly when a keyup of `c` happened that no
      later `getKeyPressed(c)` consumed, or the flag was already set and no `getKeyPressed(c)`
      came at all: keydowns never set it, and one poll clears it. */
  lemma {:induction false} PressedAfter(k: Keys, trace: seq<KeyInput>, c: string)
    ensures Flag(Run(k, trace).pressed, c) <==>
      UnconsumedUp(trace, c) || (Flag(k.pressed, c) && NoPollAfter(trace, -1, c))
  {
    if trace != [] {
      var n := |trace| - 1;
      var front := trace[..n];
      PressedAfter(k, front, c);
      var e := trace[n];
      assert forall j :: 0 <= j < n ==> front[j] == trace[j];
      if e == Up(c) {
        assert NoPollAfter(trace, n, c);
      } else if e == Poll(c) {
        assert !NoPollAfter(trace, -1, c);
        forall i | 0 <= i < n
          ensures !NoPollAfter(trace, i, c)
        {
          assert trace[n] == Poll(c);
        }
      } else {
        if e.code != c {
          ApplyOtherCodes(Run(k, front), e, c);
        }
        if UnconsumedUp(front, c) {
          var i :| 0 <= i < n && front[i] == Up(c) && NoPollAfter(front, i, c);
          assert NoPollAfter(trace, i, c);
        }
        if UnconsumedUp(trace, c) {
          var i :| 0 <= i < |trace| && trace[i] == Up(c) && NoPollAfter(trace, i, c);
          assert i < n;
          assert NoPollAfter(front, i, c);
        }
      }
    }
  }

  /** The held state of `c` after a trace is true exactly when a keydown of `c` has not been
      followed by a keyup of `c`, or `c` was already held and no keyup of `c` came. */
  lemma {:induction false} HeldAfter(k: Keys, trace: seq<KeyInput>, c: string)
    ensures Flag(Run(k, trace).states, c) <==>
      UnreleasedDown(trace, c) || (Flag(k.states, c) && NoUpAfter(trace, -1, c))
  {
    if trace != [] {
      var n := |trace| - 1;
      var front := trace[..n];
      HeldAfter(k, front, c);
      var e := trace[n];
      assert forall j :: 0 <= j < n ==> front[j] == trace[j];
      if e == Down(c) {
        assert NoUpAfter(trace, n, c);
      } else if e == Up(c) {
        assert !NoUpAfter(trace, -1, c);
        forall i | 0 <= i < n
          ensures !NoUpAfter(trace, i, c)
        {
          assert trace[n] == Up(c);
        }
      } else {
        if e.code != c {
          ApplyOtherCodes(Run(k, front), e, c);
        }
        if UnreleasedDown(front, c) {
          var i :| 0 <= i < n && front[i] == Down(c) && NoUpAfter(front, i, c);
          assert NoUpAfter(trace, i, c);
        }
        if UnreleasedDown(trace, c) {
          var i :| 0 <= i < |trace| && trace[i] == Down(c) && NoUpAfter(trace, i, c);
          assert i < n;
          assert NoUpAfter(front, i, c);
        }
      }
    }
  }

  /** Starting from the empty dictionaries of the constructor, a code that never had a keydown is
      never held, and a code that never had a keyup is never reported pressed. */
  lemma NeverSeen(trace: seq<KeyInput>, c: string)
    ensures (forall i :: 0 <= i < |trace| ==> trace[i] != Down(c)) ==>
      !Flag(Run(Keys(map[], map[]), trace).states, c)
    ensures (forall i :: 0 <= i < |trace| ==> trace[i] != Up(c)) ==>
      !Flag(Run(Keys(map[], map[]), trace).pressed, c)
  {
    HeldAfter(Keys(map[], map[]), trace, c);
    PressedAfter(Keys(map[], map[]), trace, c);
  }

  /** A keyup of `c` followed by two `getKeyPressed(c)` calls: the first reports true, the second
      false. */
  lemma ConsumedOnce(k: Keys, c: string)
    ensures Flag(Run(k, [Up(c)]).pressed, c)
    ensures !Flag(Run(k, [Up(c), Poll(c)]).pressed, c)
  {
    assert [Up(c), Poll(c)][..1] == [Up(c)];
  }

  /** The object of lines 7-59; the module exports one instance of it (lines 61-62). */
  class KeyEvents {
    var keyStates: map<string, bool>
    var keyPressed: map<string, bool>
    var events: seq<Listener>

    function Dictionaries(): Keys
      reads this
    {
      Keys(keyStates, keyPressed)
    }

    /** Lines 8-12. */
    constructor ()
      ensures keyStates == map[] && keyPressed == map[]
      ensures events == InitialListeners
    {
      keyStates := map[];
      keyPressed := map[];
      events := [];
      new;
      Initialize();
    }

    /** `addEventListener` (lines 20-23): the DOM registration is not modelled; the record is
        appended to `events`. */
    method AddEventListener(element: Target, key: string, callback: Handler)
      modifies this
      ensures events == old(events) + [Listener(element, key, callback)]
      ensures Dictionaries() == old(Dictionaries())
    {
      events := events + [Listener(element, key, callback)];
    }

    /** `initialize` (lines 25-29). */
    method Initialize()
      modifies this
      ensures events == InitialListeners
      ensures Dictionaries() == old(Dictionaries())
    {
      events := [];
      AddEventListener(Document, "keydown", KeyDownHandler);
      AddEventListener(Document, "keyup", KeyUpHandler);
    }

    /** `onKeyDown_` (lines 31-33). */
    method OnKeyDown(code: string)
      modifies this
      ensures Dictionaries() == Apply(old(Dictionaries()), Down(code))
      ensures GetKeyDown(code)
      ensures events == old(events)
    {
      keyStates := keyStates[code := true];
    }

    /** `onKeyUp_` (lines 35-38). */
    method OnKeyUp(code: string)
      modifies this
      ensures Dictionaries() == Apply(old(Dictionaries()), Up(code))
      ensures !GetKeyDown(code)
      ensures events == old(events)
    {
      keyStates := keyStates[code := false];
      keyPressed := keyPressed[code := true];
    }

    /** `getKeyDown` (lines 40-42). */
    function GetKeyDown(code: string): bool
      reads this
    {
      if code !in keyStates then false else keyStates[code]
    }

    /** `getKeyPressed` (lines 44-50): reports the pressed flag and clears it when it was set. */
    method GetKeyPressed(code: string) returns (r: bool)
      modifies this
      ensures r == Flag(old(keyPressed), code)
      ensures Dictionaries() == Apply(old(Dictionaries()), Poll(code))
      ensures events == old(events)
    {
      if code in keyPressed && keyPressed[code] {
        keyPressed := keyPressed[code := false];
        return true;
      }
      return false;
    }

    /** `clearEventListeners` (lines 52-58): the removal from the DOM is not modelled; `events` is
        rebuilt by `initialize`, and neither dictionary is reset. */
    method ClearEventListeners()
      modifies this
      ensures events == InitialListeners
      ensures Dictionaries() == old(Dictionaries())
    {
      Initialize();
    }
  }

  /** A keyup of `code` makes the next `getKeyPressed(code)` report true and the one right after it
      report false, whatever state the object was in. */
  method ReleaseThenPollTwice(keys: KeyEvents, code: string) returns (first: bool, second: bool)
    modifies keys
    ensures first && !second
  {
    keys.OnKeyUp(code);
    first := keys.GetKeyPressed(code);
    second := keys.GetKeyPressed(code);
  }
}
