/** What executing an action does (`handle_keyboard_event`'s action loop and the
    methods it calls in src/app.rs), as functions on a snapshot of the state an
    action can touch: the active region, the drag-button states, the end flag and
    the requests sent so far. */
module Dispatch {
  import opened Wrappers
  import opened Numeric
  import opened Actions
  import opened Protocol
  import Geometry

  /** What an action reads but never changes: the pointer position in surface pixels
      and the surface size, which is also the context's scale. */
  datatype Env = Env(pointer: (i32, i32), width: u32, height: u32)

  datatype Snapshot = Snapshot(region: Geometry.Rect, buttons: map<u32, ButtonState>, shouldEnd: bool,
                               requests: seq<Request>)

  /** The state `drag` sends: a pressed button is released, any other pressed. */
  function Toggled(buttons: map<u32, ButtonState>, code: u32): ButtonState {
    if code in buttons && buttons[code] == Pressed then Released else Pressed
  }

  function Center(s: Snapshot): FixedPoint {
    Geometry.CenterFixedPoint(s.region)
  }

  /** The stored region after a region action: its candidate, if the guard of
      `update_active_region` accepts it, with a missing fraction defaulted. */
  function Region(env: Env, r: Geometry.Rect, a: KeynavAction): Geometry.Rect {
    var sx, sy := env.width as real, env.height as real;
    match a
    case CursorZoom(w, h) =>
      (match Geometry.CursorZoom(env.pointer.0, env.pointer.1, w, h, env.width, env.height)
       case None => r
       case Some(c) => Geometry.Updated(r, c, sx, sy))
    case CutRight(f) => Geometry.Updated(r, Geometry.CutRight(r, f.GetOr(DEFAULT_CUT)), sx, sy)
    case CutLeft(f) => Geometry.Updated(r, Geometry.CutLeft(r, f.GetOr(DEFAULT_CUT)), sx, sy)
    case CutUp(f) => Geometry.Updated(r, Geometry.CutUp(r, f.GetOr(DEFAULT_CUT)), sx, sy)
    case CutDown(f) => Geometry.Updated(r, Geometry.CutDown(r, f.GetOr(DEFAULT_CUT)), sx, sy)
    case MoveRight(f) => Geometry.Updated(r, Geometry.MoveRight(r, f.GetOr(DEFAULT_MOVE)), sx, sy)
    case MoveLeft(f) => Geometry.Updated(r, Geometry.MoveLeft(r, f.GetOr(DEFAULT_MOVE)), sx, sy)
    case MoveUp(f) => Geometry.Updated(r, Geometry.MoveUp(r, f.GetOr(DEFAULT_MOVE)), sx, sy)
    case MoveDown(f) => Geometry.Updated(r, Geometry.MoveDown(r, f.GetOr(DEFAULT_MOVE)), sx, sy)
    case _ => r
  }

  /** A pointer action, with a missing button defaulted. */
  function Pointer(s: Snapshot, a: KeynavAction): Snapshot {
    match a
    case Click(b) => s.(requests := s.requests + ClickTrace(Center(s), Code(b.GetOr(DEFAULT_BUTTON))))
    case DragButton(b) =>
      var code := Code(b);
      var state := Toggled(s.buttons, code);
      s.(buttons := s.buttons[code := state], requests := s.requests + DragTrace(Center(s), code, state))
    case DoubleClick(b) =>
      var code := Code(b.GetOr(DEFAULT_BUTTON));
      s.(requests := s.requests + ClickTrace(Center(s), code) + ClickTrace(Center(s), code))
    case Warp => s.(requests := s.requests + WarpTrace(Center(s)))
    case _ => s
  }

  /** One action. */
  function Step(env: Env, s: Snapshot, a: KeynavAction): Snapshot {
    if a.End? then s.(shouldEnd := true)
    else if IsGeometric(a) then s.(region := Region(env, s.region, a))
    else Pointer(s, a)
  }

  /** The actions of a binding, in order. */
  function Run(env: Env, s: Snapshot, actions: seq<KeynavAction>): Snapshot
    decreases |actions|
  {
    if actions == [] then s
    else Step(env, Run(env, s, actions[..|actions| - 1]), actions[|actions| - 1])
  }

  /** The region actions change only the region; the pointer actions never touch it;
      `End` only sets the flag. */
  lemma StepTouches(env: Env, s: Snapshot, a: KeynavAction)
    ensures IsGeometric(a) ==> Step(env, s, a) == s.(region := Step(env, s, a).region)
    ensures IsPointer(a) ==> Step(env, s, a).region == s.region && Step(env, s, a).shouldEnd == s.shouldEnd
    ensures a.End? ==> Step(env, s, a) == s.(shouldEnd := true)
  {
  }

  /** `after` is `before` followed by framed pointer events only. */
  predicate FramedExtension(before: seq<Request>, after: seq<Request>) {
    |before| <= |after| && after[..|before|] == before
    && Framed(after[|before|..]) && NoBufferChange(after[|before|..])
  }

  lemma Extend(before: seq<Request>, tr: seq<Request>)
    requires Framed(tr) && NoBufferChange(tr)
    ensures FramedExtension(before, before + tr)
  {
    assert (before + tr)[|before|..] == tr;
  }

  lemma ExtensionTrans(a: seq<Request>, b: seq<Request>, c: seq<Request>)
    requires FramedExtension(a, b) && FramedExtension(b, c)
    ensures FramedExtension(a, c)
  {
    assert c[|a|..] == b[|a|..] + c[|b|..];
    FramedConcat(b[|a|..], c[|b|..]);
  }

  lemma NoExtension(a: seq<Request>)
    ensures FramedExtension(a, a)
  {
    assert a[|a|..] == [];
  }

  /** Each action only appends requests, all of them framed pointer events. */
  lemma StepAppendsFramed(env: Env, s: Snapshot, a: KeynavAction)
    ensures FramedExtension(s.requests, Step(env, s, a).requests)
  {
    if a.End? || IsGeometric(a) {
      NoExtension(s.requests);
    } else {
      PointerAppendsFramed(s, a);
    }
  }

  lemma PointerAppendsFramed(s: Snapshot, a: KeynavAction)
    ensures FramedExtension(s.requests, Pointer(s, a).requests)
  {
    var p := Center(s);
    match a
    case Click(b) => ClicksFramed(s.requests, p, Code(b.GetOr(DEFAULT_BUTTON)));
    case DragButton(b) =>
      var st := Toggled(s.buttons, Code(b));
      PointerTracesFramed(p, Code(b), st);
      Extend(s.requests, DragTrace(p, Code(b), st));
    case DoubleClick(b) => ClicksFramed(s.requests, p, Code(b.GetOr(DEFAULT_BUTTON)));
    case Warp =>
      PointerTracesFramed(p, 0, Pressed);
      Extend(s.requests, WarpTrace(p));
    case _ =>
      NoExtension(s.requests);
  }

  lemma ClicksFramed(t: seq<Request>, p: FixedPoint, code: u32)
    ensures FramedExtension(t, t + ClickTrace(p, code))
    ensures FramedExtension(t, t + ClickTrace(p, code) + ClickTrace(p, code))
  {
    var c := ClickTrace(p, code);
    PointerTracesFramed(p, code, Pressed);
    Extend(t, c);
    FramedConcat(c, c);
    assert t + c + c == t + (c + c);
    Extend(t, c + c);
  }

  /** Running a binding only appends framed pointer events to the requests. */
  lemma {:induction false} RunAppendsFramed(env: Env, s: Snapshot, actions: seq<KeynavAction>)
    ensures FramedExtension(s.requests, Run(env, s, actions).requests)
    decreases |actions|
  {
    if actions == [] {
      NoExtension(s.requests);
    } else {
      var mid := Run(env, s, actions[..|actions| - 1]);
      RunAppendsFramed(env, s, actions[..|actions| - 1]);
      StepAppendsFramed(env, mid, actions[|actions| - 1]);
      ExtensionTrans(s.requests, mid.requests, Run(env, s, actions).requests);
    }
  }

  lemma RegionKeepsOrigin(env: Env, r: Geometry.Rect, a: KeynavAction)
    requires Geometry.OriginInside(r)
    ensures Geometry.OriginInside(Region(env, r, a))
  {
    if a.CursorZoom? {
      var c := Geometry.CursorZoom(env.pointer.0, env.pointer.1, a.width, a.height, env.width, env.height);
      if c.Some? {
        Geometry.UpdatedKeepsOrigin(r, c.value, env.width as real, env.height as real);
      }
    }
  }

  /** The stored region keeps its origin on the surface through any binding. */
  lemma {:induction false} RunKeepsOrigin(env: Env, s: Snapshot, actions: seq<KeynavAction>)
    requires Geometry.OriginInside(s.region)
    ensures Geometry.OriginInside(Run(env, s, actions).region)
    decreases |actions|
  {
    if actions != [] {
      var mid := Run(env, s, actions[..|actions| - 1]);
      RunKeepsOrigin(env, s, actions[..|actions| - 1]);
      RegionKeepsOrigin(env, mid.region, actions[|actions| - 1]);
    }
  }

  /** The end flag is set after a binding exactly when it was set before or the
      binding contains `End`; the actions after `End` still run. */
  lemma {:induction false} RunEndsIff(env: Env, s: Snapshot, actions: seq<KeynavAction>)
    ensures Run(env, s, actions).shouldEnd <==> s.shouldEnd || exists i :: 0 <= i < |actions| && actions[i].End?
    decreases |actions|
  {
    if actions != [] {
      var p := actions[..|actions| - 1];
      RunEndsIff(env, s, p);
      assert forall i :: 0 <= i < |p| ==> p[i] == actions[i];
    }
  }

  /** `drag` toggles its own button's state, leaves the others, and the pointer
      device ends up told exactly that state. */
  lemma DragToggles(env: Env, s: Snapshot, b: MouseButton, init: ButtonState)
    ensures var t := Step(env, s, DragButton(b));
      && t.buttons[Code(b)] == (if Code(b) in s.buttons && s.buttons[Code(b)] == Pressed then Released else Pressed)
      && (forall c :: c in s.buttons && c != Code(b) ==> c in t.buttons && t.buttons[c] == s.buttons[c])
      && DeviceButton(t.requests, Code(b), init) == t.buttons[Code(b)]
  {
    var st := Toggled(s.buttons, Code(b));
    DragSets(s.requests, Center(s), Code(b), st, init);
  }

  /** A click leaves the device's button released, and a double click emits two clicks. */
  lemma ClicksRelease(env: Env, s: Snapshot, b: Option<MouseButton>, init: ButtonState)
    ensures var code := Code(b.GetOr(DEFAULT_BUTTON));
      && DeviceButton(Step(env, s, Click(b)).requests, code, init) == Released
      && DeviceButton(Step(env, s, DoubleClick(b)).requests, code, init) == Released
      && Step(env, s, DoubleClick(b)).requests == Step(env, Step(env, s, Click(b)), Click(b)).requests
  {
    var code := Code(b.GetOr(DEFAULT_BUTTON));
    ClickReleases(s.requests, Center(s), code, init);
    ClickReleases(s.requests + ClickTrace(Center(s), code), Center(s), code, init);
  }

  lemma RunSnoc(env: Env, s: Snapshot, actions: seq<KeynavAction>, a: KeynavAction)
    ensures Run(env, s, actions + [a]) == Step(env, Run(env, s, actions), a)
  {
    assert (actions + [a])[..|actions|] == actions;
  }

  lemma RunFour(env: Env, s: Snapshot, a: KeynavAction, b: KeynavAction, c: KeynavAction, d: KeynavAction)
    ensures Run(env, s, [a, b, c, d]) == Step(env, Step(env, Step(env, Step(env, s, a), b), c), d)
  {
    RunSnoc(env, s, [], a);
    assert [] + [a] == [a];
    RunSnoc(env, s, [a], b);
    assert [a] + [b] == [a, b];
    RunSnoc(env, s, [a, b], c);
    assert [a, b] + [c] == [a, b, c];
    RunSnoc(env, s, [a, b, c], d);
    assert [a, b, c] + [d] == [a, b, c, d];
  }

  lemma HalveLeftThenUp(env: Env, s: Snapshot)
    requires env.width == 100 && env.height == 100 && s.region == Geometry.FULL
    ensures Step(env, Step(env, s, CutLeft(None)), CutUp(None)) == s.(region := Geometry.Rect(0.0, 0.0, 0.5, 0.5))
  {
    assert Geometry.Accepts(Geometry.Rect(0.0, 0.0, 0.5, 1.0), 100.0, 100.0);
    assert Geometry.Accepts(Geometry.Rect(0.0, 0.0, 0.5, 0.5), 100.0, 100.0);
  }

  lemma ClickQuarter(env: Env, s: Snapshot)
    requires s.region == Geometry.Rect(0.0, 0.0, 0.5, 0.5)
    ensures Step(env, s, Click(None)) == s.(requests := s.requests + ClickTrace((2500, 2500, 10000), 0x110))
  {
    assert (0.0 + 0.5 / 2.0) * 10000.0 == 2500.0;
  }

  /** A worked binding on a 100 by 100 surface: halving the whole surface left and up,
      then clicking and ending, clicks the left button at (2500, 2500) of 10000. */
  lemma CornerClick(s: Snapshot)
    requires s.region == Geometry.FULL
    ensures var r := Run(Env((0, 0), 100, 100), s, [CutLeft(None), CutUp(None), Click(None), End]);
      && r.region == Geometry.Rect(0.0, 0.0, 0.5, 0.5)
      && r.requests == s.requests + ClickTrace((2500, 2500, 10000), 0x110)
      && r.shouldEnd && r.buttons == s.buttons
  {
    var env := Env((0, 0), 100, 100);
    RunFour(env, s, CutLeft(None), CutUp(None), Click(None), End);
    HalveLeftThenUp(env, s);
    ClickQuarter(env, s.(region := Geometry.Rect(0.0, 0.0, 0.5, 0.5)));
  }
}
