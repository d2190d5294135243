/**
  The input callbacks as one step function over an explicit application
  state: key releases (the keyboard callback is registered for key-up) can
  only request leaving the main loop, and mouse events go to the drag
  handler.
 */
module Callbacks {
  import opened MouseDrag

  /** The `unsigned char` key code GLUT passes to the keyboard callback. */
  type Byte = k: int | 0 <= k < 256

  /** The Escape key. */
  const Escape: Byte := 27

  datatype Event =
    | KeyUp(key: Byte, x: int, y: int)
    | Click(button: int, state: int, x: int, y: int)

  /** The camera, and whether leaving the main loop has been requested. */
  datatype App = App(camera: Camera, leave: bool)

  /** The keyboard callback: whether it asks GLUT to leave the main loop. */
  function Keyboard(key: Byte): bool {
    key == Escape
  }

  /** Dispatch one event to its callback. */
  function Handle(s: App, e: Event): (r: App)
    ensures e.KeyUp? ==> r.camera == s.camera
    ensures e.KeyUp? && e.key != Escape ==> r == s
    ensures e.Click? ==> r.leave == s.leave
  {
    match e
    case KeyUp(key, _, _) => s.(leave := s.leave || Keyboard(key))
    case Click(button, state, x, y) => s.(camera := Mouse(s.camera, button, state, x, y))
  }

  /** Dispatch a sequence of events in order. */
  function Run(s: App, events: seq<Event>): App
    decreases |events|
  {
    if events == [] then s else Run(Handle(s, events[0]), events[1..])
  }

  /** Whether event `e` is a release of the Escape key. */
  predicate IsEscape(e: Event) {
    e.KeyUp? && e.key == Escape
  }

  /** Leaving is requested after a run exactly when it was requested before
      or some event of the run released Escape; no other key requests it. */
  lemma {:induction false} RunLeave(s: App, events: seq<Event>)
    ensures Run(s, events).leave <==> s.leave || exists i :: 0 <= i < |events| && IsEscape(events[i])
    decreases |events|
  {
    if events != [] {
      var s1 := Handle(s, events[0]);
      assert s1.leave <==> s.leave || IsEscape(events[0]);
      RunLeave(s1, events[1..]);
      if exists i :: 0 <= i < |events| && IsEscape(events[i]) {
        var i :| 0 <= i < |events| && IsEscape(events[i]);
        if i > 0 {
          assert IsEscape(events[1..][i - 1]);
        }
      }
      if exists i :: 0 <= i < |events| - 1 && IsEscape(events[1..][i]) {
        var i :| 0 <= i < |events| - 1 && IsEscape(events[1..][i]);
        assert IsEscape(events[i + 1]);
      }
    }
  }

  /** The mouse events of a sequence, in order. */
  function Clicks(events: seq<Event>): (r: seq<Event>)
    ensures forall e :: e in r ==> e.Click?
    ensures forall e :: e in events && e.Click? ==> e in r
    decreases |events|
  {
    if events == [] then []
    else if events[0].Click? then [events[0]] + Clicks(events[1..])
    else Clicks(events[1..])
  }

  /** Taking the mouse events keeps their order: it distributes over
      concatenation. */
  lemma {:induction false} ClicksAppend(a: seq<Event>, b: seq<Event>)
    ensures Clicks(a + b) == Clicks(a) + Clicks(b)
    decreases |a|
  {
    if a == [] {
      assert a + b == b;
    } else {
      assert (a + b)[0] == a[0];
      assert (a + b)[1..] == a[1..] + b;
      ClicksAppend(a[1..], b);
    }
  }

  /** Keys never move the camera: a run ends with the same camera as a run
      of its mouse events alone. */
  lemma {:induction false} KeysLeaveCamera(s: App, events: seq<Event>)
    ensures Run(s, events).camera == Run(s, Clicks(events)).camera
    decreases |events|
  {
    if events != [] {
      var s1 := Handle(s, events[0]);
      KeysLeaveCamera(s1, events[1..]);
      if events[0].Click? {
        assert Clicks(events) == [events[0]] + Clicks(events[1..]);
        assert Run(s, Clicks(events)) == Run(s1, Clicks(events[1..]));
      } else {
        assert s1 == s.(leave := s1.leave);
        LeaveIrrelevant(s, s1.leave, Clicks(events[1..]));
      }
    }
  }

  /** The camera a run of events produces does not depend on the leave flag. */
  lemma {:induction false} LeaveIrrelevant(s: App, leave: bool, events: seq<Event>)
    ensures Run(s.(leave := leave), events).camera == Run(s, events).camera
    decreases |events|
  {
    if events != [] {
      var s1 := Handle(s, events[0]);
      var t1 := Handle(s.(leave := leave), events[0]);
      assert t1 == s1.(leave := t1.leave);
      LeaveIrrelevant(s1, t1.leave, events[1..]);
    }
  }
}
