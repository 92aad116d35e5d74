/** The application (src/app.rs): its state, the pointer and region commands, the
    keyboard, pointer and layer-surface event handlers, and the event pump. The
    Wayland objects are not modelled; the requests sent through them are appended,
    in order, to one trace. */
module Application {
  import opened Wrappers
  import opened Numeric
  import opened Keys
  import opened Actions
  import opened Protocol
  import opened Dispatch
  import Geometry
  import Render
  import Resolve

  /** `Either<Config, RawConfig>`: raw until a keymap resolves it. */
  datatype ConfigState = Raw(raw: RawConfig) | Resolved(config: Config)

  /** The panics of the event handlers. */
  datatype Panic =
    | ConfigAlreadyResolved
    | Unresolvable(cause: Resolve.ResolveError)
    | NoKeysymForKey
    | BoundsFailed(error: Render.BoundsError)
    | MapFailed

  /** The events the handlers react to. A keymap event carries the compiled keymap's
      modifier lookup, or `None` when the format is not XKB v1 or compiling fails. A key
      event carries what the xkb state yields for the key, or `None` when its keymap has
      no symbol for it. Modifier, focus and other events change nothing modelled here. */
  datatype Event =
    | Keymap(keymap: Option<Resolve.ModLookup>)
    | Key(key: u32, pressed: bool, chord: Option<Chord>)
    | Modifiers
    | Configure(width: u32, height: u32, serial: u32, resizes: bool)
    | PointerEnter(x: real, y: real)
    | Other

  /** The actions a key event runs: those bound to its chord, on a press, once the
      configuration is resolved. */
  function Bound(config: ConfigState, chord: Chord, pressed: bool): (r: seq<KeynavAction>)
    ensures r != [] ==> pressed && config.Resolved? && chord in config.config.mappings
  {
    if pressed && config.Resolved? && chord in config.config.mappings then config.config.mappings[chord] else []
  }

  /** A key event's effect: the bound actions, then a commit of the current buffer. */
  function KeyOutcome(env: Env, s: Snapshot, config: ConfigState, chord: Chord, pressed: bool, buffer: BufferId)
    : Snapshot
  {
    var r := Run(env, s, Bound(config, chord, pressed));
    r.(requests := r.requests + CommitTrace(buffer, env.width, env.height))
  }

  /** Every key event ends with a commit, and only a bound press does anything else. */
  lemma KeyOnlyCommitsUnlessBound(env: Env, s: Snapshot, config: ConfigState, chord: Chord, pressed: bool,
                                  buffer: BufferId)
    requires !pressed || config.Raw? || chord !in config.config.mappings
    ensures KeyOutcome(env, s, config, chord, pressed, buffer)
            == s.(requests := s.requests + CommitTrace(buffer, env.width, env.height))
  {
  }

  lemma CommitKeepsBuffers(live: set<BufferId>, t: seq<Request>, buffer: BufferId, w: u32, h: u32)
    ensures Live(live, t + CommitTrace(buffer, w, h)) == Live(live, t)
  {
    LiveConcat(live, t, CommitTrace(buffer, w, h));
    LiveUnchanged(Live(live, t), CommitTrace(buffer, w, h));
  }

  lemma FramedKeepsBuffers(live: set<BufferId>, before: seq<Request>, after: seq<Request>)
    requires FramedExtension(before, after)
    ensures Live(live, after) == Live(live, before)
  {
    assert after == before + after[|before|..];
    LiveConcat(live, before, after[|before|..]);
    LiveUnchanged(Live(live, before), after[|before|..]);
  }

  class App {
    var config: ConfigState
    var pointerPos: (i32, i32)
    var hasKeyboardState: bool
    var buttonState: map<u32, ButtonState>
    var shouldEnd: bool
    const renderer: Render.RenderManager
    var buffer: BufferId
    /** The id the next created buffer gets; buffer 0 is created by `init`. */
    var nextBuffer: BufferId
    var requests: seq<Request>
    const syms: Resolve.SymLookup
    const strideFor: Render.StrideFor

    /** The renderer's context scales to its size, and exactly the current buffer is
        alive (the trace starts after `init` created buffer 0). */
    predicate Valid()
      reads this, renderer
    {
      renderer.Valid() && renderer.scaleX == renderer.width as real && renderer.scaleY == renderer.height as real
      && buffer < nextBuffer && Live({0}, requests) == {buffer}
    }

    function Environment(): Env
      reads this, renderer
    {
      Env(pointerPos, renderer.width, renderer.height)
    }

    function Snap(): Snapshot
      reads this, renderer
    {
      Snapshot(renderer.activeRegion, buttonState, shouldEnd, requests)
    }

    /** What an action leaves alone. */
    twostate predicate Untouched()
      reads this, renderer
    {
      config == old(config) && pointerPos == old(pointerPos) && hasKeyboardState == old(hasKeyboardState)
      && buffer == old(buffer) && nextBuffer == old(nextBuffer)
      && renderer.width == old(renderer.width) && renderer.height == old(renderer.height)
      && renderer.stride == old(renderer.stride)
      && renderer.scaleX == old(renderer.scaleX) && renderer.scaleY == old(renderer.scaleY)
    }

    /** The end flag is never cleared and requests are only appended. */
    twostate predicate Progress()
      reads this
    {
      (old(shouldEnd) ==> shouldEnd) && |old(requests)| <= |requests| && requests[..|old(requests)|] == old(requests)
    }

    /** The state `init` leaves, from the renderer it built. */
    constructor Make(raw: RawConfig, rm: Render.RenderManager, syms: Resolve.SymLookup, strideFor: Render.StrideFor)
      requires rm.Valid() && rm.scaleX == rm.width as real && rm.scaleY == rm.height as real
      ensures Valid()
      ensures config == Raw(raw) && pointerPos == (0, 0) && !hasKeyboardState && buttonState == map[]
      ensures !shouldEnd && renderer == rm && buffer == 0 && nextBuffer == 1 && requests == []
      ensures this.syms == syms && this.strideFor == strideFor
    {
      config := Raw(raw);
      pointerPos := (0, 0);
      hasKeyboardState := false;
      buttonState := map[];
      shouldEnd := false;
      renderer := rm;
      buffer, nextBuffer := 0, 1;
      requests := [];
      this.syms := syms;
      this.strideFor := strideFor;
    }

    /** `get_center_as_fixed_point`. */
    function CenterAsFixedPoint(): (p: FixedPoint)
      reads this, renderer
      ensures p == Center(Snap())
    {
      Geometry.CenterFixedPoint(renderer.activeRegion)
    }

    /** Appends pointer requests that create and destroy no buffer. */
    method Send(tr: seq<Request>)
      requires Valid() && NoBufferChange(tr)
      modifies this
      ensures Valid() && Untouched() && Snap() == old(Snap()).(requests := old(requests) + tr)
    {
      LiveConcat({0}, requests, tr);
      LiveUnchanged(Live({0}, requests), tr);
      requests := requests + tr;
    }

    /** `click(btn)`. */
    method Click(btn: u32)
      requires Valid()
      modifies this
      ensures Valid() && Untouched()
      ensures Snap() == old(Snap()).(requests := old(requests) + ClickTrace(Center(old(Snap())), btn))
    {
      var p := CenterAsFixedPoint();
      Send([MotionAbsolute(0, p.0, p.1, p.2, p.2), PointerFrame]);
      Send([PointerButton(0, btn, Pressed), PointerFrame]);
      Send([PointerButton(0, btn, Released), PointerFrame]);
    }

    /** `drag(btn)`: toggle the button's recorded state and send the new state. */
    method Drag(btn: u32)
      requires Valid()
      modifies this
      ensures Valid() && Untouched()
      ensures var s := old(Snap()); var state := Toggled(s.buttons, btn);
              Snap() == s.(buttons := s.buttons[btn := state], requests := s.requests + DragTrace(Center(s), btn, state))
    {
      var p := CenterAsFixedPoint();
      var state := if btn in buttonState && buttonState[btn] == Pressed then Released else Pressed;
      buttonState := buttonState[btn := state];
      Send([MotionAbsolute(0, p.0, p.1, p.2, p.2), PointerFrame]);
      Send([PointerButton(0, btn, state), PointerFrame]);
    }

    /** `double_click(btn)`: two clicks. */
    method DoubleClick(btn: u32)
      requires Valid()
      modifies this
      ensures Valid() && Untouched()
      ensures var s := old(Snap());
              Snap() == s.(requests := s.requests + ClickTrace(Center(s), btn) + ClickTrace(Center(s), btn))
    {
      Click(btn);
      Click(btn);
    }

    /** `warp`. */
    method Warp()
      requires Valid()
      modifies this
      ensures Valid() && Untouched()
      ensures Snap() == old(Snap()).(requests := old(requests) + WarpTrace(Center(old(Snap()))))
    {
      var p := CenterAsFixedPoint();
      Send([MotionAbsolute(0, p.0, p.1, p.2, p.2), PointerFrame]);
    }

    /** `end`. */
    method End()
      requires Valid()
      modifies this
      ensures Valid() && Untouched() && Snap() == old(Snap()).(shouldEnd := true)
    {
      shouldEnd := true;
    }

    /** Proposes a region to the renderer. */
    method Propose(rect: Geometry.Rect)
      requires Valid()
      modifies renderer
      ensures Valid() && Untouched()
      ensures Snap() == old(Snap()).(region := Geometry.Updated(old(renderer.activeRegion), rect,
                                                              renderer.width as real, renderer.height as real))
    {
      renderer.UpdateActiveRegion(rect);
    }

    /** `cursor_zoom(w, h)`: a `w` by `h` pixel region centred on the pointer. With a
        zero-sized surface the source's floating-point quotients are infinite or NaN and
        the guard rejects the candidate, so the region stays. */
    method CursorZoom(w: u32, h: u32)
      requires Valid()
      modifies renderer
      ensures Valid() && Untouched() && Snap() == Step(old(Environment()), old(Snap()), Actions.CursorZoom(w, h))
    {
      var (px, py) := pointerPos;
      if renderer.width == 0 || renderer.height == 0 {
        return;
      }
      var rx, ry := px as real / renderer.width as real, py as real / renderer.height as real;
      var width, height := w as real / renderer.scaleX, h as real / renderer.scaleY;
      Propose(Geometry.Rect(rx - width / 2.0, ry - height / 2.0, width, height));
    }

    /** `cut_left(x)` and the other cuts and moves: a candidate built from the current
        region. */
    method CutLeft(x: real)
      requires Valid()
      modifies renderer
      ensures Valid() && Untouched() && Snap() == Step(old(Environment()), old(Snap()), Actions.CutLeft(Some(x)))
    {
      var rect := renderer.activeRegion;
      Propose(Geometry.Rect(rect.x, rect.y, rect.width * x, rect.height));
    }

    method CutDown(x: real)
      requires Valid()
      modifies renderer
      ensures Valid() && Untouched() && Snap() == Step(old(Environment()), old(Snap()), Actions.CutDown(Some(x)))
    {
      var rect := renderer.activeRegion;
      Propose(Geometry.Rect(rect.x, rect.y + rect.height * (1.0 - x), rect.width, rect.height * x));
    }

    method CutUp(x: real)
      requires Valid()
      modifies renderer
      ensures Valid() && Untouched() && Snap() == Step(old(Environment()), old(Snap()), Actions.CutUp(Some(x)))
    {
      var rect := renderer.activeRegion;
      Propose(Geometry.Rect(rect.x, rect.y, rect.width, rect.height * x));
    }

    method CutRight(x: real)
      requires Valid()
      modifies renderer
      ensures Valid() && Untouched() && Snap() == Step(old(Environment()), old(Snap()), Actions.CutRight(Some(x)))
    {
      var rect := renderer.activeRegion;
      Propose(Geometry.Rect(rect.x + rect.width * (1.0 - x), rect.y, rect.width * x, rect.height));
    }

    method MoveRight(x: real)
      requires Valid()
      modifies renderer
      ensures Valid() && Untouched() && Snap() == Step(old(Environment()), old(Snap()), Actions.MoveRight(Some(x)))
    {
      var rect := renderer.activeRegion;
      Propose(Geometry.Rect(rect.x + rect.width * x, rect.y, rect.width, rect.height));
    }

    method MoveLeft(x: real)
      requires Valid()
      modifies renderer
      ensures Valid() && Untouched() && Snap() == Step(old(Environment()), old(Snap()), Actions.MoveLeft(Some(x)))
    {
      var rect := renderer.activeRegion;
      Propose(Geometry.Rect(rect.x - rect.width * x, rect.y, rect.width, rect.height));
    }

    method MoveUp(x: real)
      requires Valid()
      modifies renderer
      ensures Valid() && Untouched() && Snap() == Step(old(Environment()), old(Snap()), Actions.MoveUp(Some(x)))
    {
      var rect := renderer.activeRegion;
      Propose(Geometry.Rect(rect.x, rect.y - rect.height * x, rect.width, rect.height));
    }

    method MoveDown(x: real)
      requires Valid()
      modifies renderer
      ensures Valid() && Untouched() && Snap() == Step(old(Environment()), old(Snap()), Actions.MoveDown(Some(x)))
    {
      var rect := renderer.activeRegion;
      Propose(Geometry.Rect(rect.x, rect.y + rect.height * x, rect.width, rect.height));
    }

    /** One action of a binding, as `handle_keyboard_event` runs it: a missing cut
        fraction is 0.5, a missing move fraction 1.0, a missing button the left one. */
    method Execute(a: KeynavAction)
      requires Valid()
      modifies this, renderer
      ensures Valid() && Untouched() && Snap() == Step(old(Environment()), old(Snap()), a)
    {
      if IsGeometric(a) {
        ExecuteRegion(a);
      } else if a.End? {
        End();
      } else {
        ExecutePointer(a);
      }
    }

    method ExecuteRegion(a: KeynavAction)
      requires Valid() && IsGeometric(a)
      modifies renderer
      ensures Valid() && Untouched() && Snap() == Step(old(Environment()), old(Snap()), a)
    {
      match a
      case CursorZoom(w, h) => CursorZoom(w, h);
      case CutRight(x) => CutRight(x.GetOr(0.5));
      case CutLeft(x) => CutLeft(x.GetOr(0.5));
      case CutUp(x) => CutUp(x.GetOr(0.5));
      case CutDown(x) => CutDown(x.GetOr(0.5));
      case MoveRight(x) => MoveRight(x.GetOr(1.0));
      case MoveLeft(x) => MoveLeft(x.GetOr(1.0));
      case MoveUp(x) => MoveUp(x.GetOr(1.0));
      case MoveDown(x) => MoveDown(x.GetOr(1.0));
    }

    method ExecutePointer(a: KeynavAction)
      requires Valid() && IsPointer(a)
      modifies this
      ensures Valid() && Untouched() && Snap() == Step(old(Environment()), old(Snap()), a)
    {
      match a
      case Click(b) => Click(Code(b.GetOr(Left)));
      case DragButton(b) => Drag(Code(b));
      case DoubleClick(b) => DoubleClick(Code(b.GetOr(Left)));
      case Warp => Warp();
    }

    /** The `for_each` over a binding's actions. */
    method RunActions(actions: seq<KeynavAction>)
      requires Valid()
      modifies this, renderer
      ensures Valid() && Untouched() && Snap() == Run(old(Environment()), old(Snap()), actions)
    {
      for i := 0 to |actions|
        invariant Valid() && Untouched() && Snap() == Run(old(Environment()), old(Snap()), actions[..i])
      {
        assert actions[..i + 1][..i] == actions[..i];
        Execute(actions[i]);
      }
      assert actions[..|actions|] == actions;
    }

    /** `commit`: attach the current buffer, damage all of it, commit. */
    method Commit()
      requires Valid()
      modifies this
      ensures Valid() && Untouched()
      ensures Snap() == old(Snap()).(requests := old(requests) + CommitTrace(buffer, renderer.width, renderer.height))
    {
      CommitKeepsBuffers({0}, requests, buffer, renderer.width, renderer.height);
      requests := requests + CommitTrace(buffer, renderer.width, renderer.height);
    }

    /** The `Key` arm: the chord is what the xkb state yields once a keymap has arrived
        (a panic when the keymap has no symbol for the key), and the raw key code with no
        modifiers before; a press runs the chord's binding if the configuration is
        resolved; every key event then redraws and commits. */
    method HandleKey(key: u32, pressed: bool, chord: Option<Chord>) returns (p: Option<Panic>)
      requires Valid()
      modifies this, renderer
      ensures p.Some? <==> old(hasKeyboardState) && chord.None?
      ensures p.Some? ==> p == Some(NoKeysymForKey)
      ensures p.None? ==> Valid() && Untouched() && Progress()
      ensures p.None? ==>
                var ch := if old(hasKeyboardState) then chord.value else (0, key);
                Snap() == KeyOutcome(old(Environment()), old(Snap()), old(config), ch, pressed, buffer)
    {
      var ch: Chord;
      if hasKeyboardState {
        if chord.None? {
          return Some(NoKeysymForKey);
        }
        ch := chord.value;
      } else {
        ch := (0, key);
      }
      if pressed && config.Resolved? && ch in config.config.mappings {
        RunActions(config.config.mappings[ch]);
      }
      assert Snap() == Run(old(Environment()), old(Snap()), Bound(config, ch, pressed));
      RunAppendsFramed(old(Environment()), old(Snap()), Bound(config, ch, pressed));
      RunEndsIff(old(Environment()), old(Snap()), Bound(config, ch, pressed));
      Commit();
      p := None;
    }

    /** The `Keymap` arm. Without a usable keymap nothing happens. Otherwise the xkb state
        is kept, and the raw configuration is resolved against the keymap; a configuration
        that is already resolved, or a combo that does not resolve, panics. */
    method HandleKeymap(keymap: Option<Resolve.ModLookup>) returns (p: Option<Panic>)
      requires Valid()
      modifies this
      ensures keymap.None? ==> p.None? && unchanged(this)
      ensures keymap.Some? ==> hasKeyboardState
      ensures keymap.Some? && old(config).Resolved? ==> p == Some(ConfigAlreadyResolved)
      ensures keymap.Some? && old(config).Raw? ==>
                match Resolve.ResolveAll(old(config).raw.mappings, keymap.value, syms)
                case Ok(m) => p.None? && config == Resolved(Config(m))
                case Err(e) => p == Some(Unresolvable(e))
      ensures Valid() && Snap() == old(Snap()) && pointerPos == old(pointerPos)
      ensures buffer == old(buffer) && nextBuffer == old(nextBuffer)
    {
      if keymap.None? {
        return None;
      }
      hasKeyboardState := true;
      if config.Resolved? {
        return Some(ConfigAlreadyResolved);
      }
      var r := Resolve.ResolveMappings(config.raw, keymap.value, syms);
      if r.Err? {
        return Some(Unresolvable(r.error));
      }
      config := Resolved(r.value);
      p := None;
    }

    /** `rebind`: resize the pool to the buffer size, destroy the buffer, create the next. */
    method Rebind()
      requires renderer.Valid() && buffer < nextBuffer && Live({0}, requests) == {buffer}
      modifies this
      ensures buffer == old(nextBuffer) && nextBuffer == old(nextBuffer) + 1
      ensures requests == old(requests) + RebindTrace(old(buffer), old(nextBuffer), renderer.BufferSize(),
                                                      renderer.width, renderer.height, renderer.stride)
      ensures Live({0}, requests) == {buffer}
      ensures config == old(config) && pointerPos == old(pointerPos) && hasKeyboardState == old(hasKeyboardState)
      ensures buttonState == old(buttonState) && shouldEnd == old(shouldEnd)
    {
      var tr := RebindTrace(buffer, nextBuffer, renderer.BufferSize(), renderer.width, renderer.height, renderer.stride);
      LiveConcat({0}, requests, tr);
      RebindSwapsBuffer({buffer}, buffer, nextBuffer, renderer.BufferSize(), renderer.width, renderer.height,
                        renderer.stride);
      requests := requests + tr;
      buffer, nextBuffer := nextBuffer, nextBuffer + 1;
    }

    /** The layer surface's `Configure` event: set the renderer's bounds (an error,
        unwrapped, panics), acknowledge the serial, and rebind the buffer. */
    method Configure(w: u32, h: u32, serial: u32, resizes: bool) returns (p: Option<Panic>)
      requires Valid()
      modifies this, renderer
      ensures p.None? <==>
                strideFor(renderer.format, w).Some? && resizes && Render.BufSize(strideFor(renderer.format, w).value, h) != 0
      ensures p.None? ==>
                && Valid() && renderer.width == w && renderer.height == h
                && renderer.stride == strideFor(renderer.format, w).value
                && Snap() == old(Snap()).(requests := old(requests) + [AckConfigure(serial)]
                             + RebindTrace(old(buffer), old(nextBuffer), Render.BufSize(renderer.stride, h), w, h, renderer.stride))
                && buffer == old(nextBuffer) && nextBuffer == old(nextBuffer) + 1
                && config == old(config) && pointerPos == old(pointerPos) && hasKeyboardState == old(hasKeyboardState)
    {
      var r := renderer.SetBounds(w, h, strideFor, resizes);
      if r.Failed? {
        return Some(BoundsFailed(r.error));
      } else if r.MapPanicked? {
        return Some(MapFailed);
      }
      LiveConcat({0}, requests, [AckConfigure(serial)]);
      LiveUnchanged(Live({0}, requests), [AckConfigure(serial)]);
      requests := requests + [AckConfigure(serial)];
      Rebind();
      p := None;
    }

    /** The pointer's `Enter` event: set the input region and record the position,
        each coordinate cast to `i32`. */
    method PointerEnter(x: real, y: real)
      requires Valid()
      modifies this
      ensures Valid() && pointerPos == (SatI32(x), SatI32(y))
      ensures Snap() == old(Snap()).(requests := old(requests) + [SetInputRegion])
      ensures config == old(config) && buffer == old(buffer) && nextBuffer == old(nextBuffer)
      ensures hasKeyboardState == old(hasKeyboardState)
    {
      LiveConcat({0}, requests, [SetInputRegion]);
      LiveUnchanged(Live({0}, requests), [SetInputRegion]);
      requests := requests + [SetInputRegion];
      pointerPos := (SatI32(x), SatI32(y));
    }

    /** One event, routed to its handler: each arm has its handler's outcome, and the
        modifier and other events change nothing. */
    method HandleEvent(e: Event) returns (p: Option<Panic>)
      requires Valid()
      modifies this, renderer
      ensures p.None? ==> Valid() && Progress()
      ensures (e.Modifiers? || e.Other?) ==> p.None? && unchanged(this, renderer)
      ensures e.Keymap? ==>
                && Snap() == old(Snap()) && pointerPos == old(pointerPos) && unchanged(renderer)
                && buffer == old(buffer) && nextBuffer == old(nextBuffer)
      ensures e.Keymap? && e.keymap.None? ==> p.None? && unchanged(this)
      ensures e.Keymap? && e.keymap.Some? ==> hasKeyboardState
      ensures e.Keymap? && e.keymap.Some? && old(config).Resolved? ==> p == Some(ConfigAlreadyResolved)
      ensures e.Keymap? && e.keymap.Some? && old(config).Raw? ==>
                var res := Resolve.ResolveAll(old(config).raw.mappings, e.keymap.value, syms);
                && (res.Ok? ==> p.None? && config == Resolved(Config(res.value)))
                && (res.Err? ==> p == Some(Unresolvable(res.error)))
      ensures e.Key? ==> (p.Some? <==> old(hasKeyboardState) && e.chord.None?)
      ensures e.Key? && p.None? ==> Untouched()
      ensures e.Key? && p.None? ==>
                var ch := if old(hasKeyboardState) then e.chord.value else (0, e.key);
                Snap() == KeyOutcome(old(Environment()), old(Snap()), old(config), ch, e.pressed, buffer)
      ensures e.Configure? ==>
                (p.None? <==> strideFor(renderer.format, e.width).Some? && e.resizes
                              && Render.BufSize(strideFor(renderer.format, e.width).value, e.height) != 0)
      ensures e.Configure? && p.None? ==>
                && renderer.width == e.width && renderer.height == e.height
                && renderer.stride == strideFor(renderer.format, e.width).value
                && Snap() == old(Snap()).(requests := old(requests) + [AckConfigure(e.serial)]
                             + RebindTrace(old(buffer), old(nextBuffer), Render.BufSize(renderer.stride, e.height),
                                           e.width, e.height, renderer.stride))
                && config == old(config) && pointerPos == old(pointerPos) && hasKeyboardState == old(hasKeyboardState)
                && buffer == old(nextBuffer) && nextBuffer == old(nextBuffer) + 1
      ensures e.PointerEnter? ==>
                && p.None? && pointerPos == (SatI32(e.x), SatI32(e.y))
                && Snap() == old(Snap()).(requests := old(requests) + [SetInputRegion])
                && unchanged(renderer) && config == old(config) && hasKeyboardState == old(hasKeyboardState)
                && buffer == old(buffer) && nextBuffer == old(nextBuffer)
    {
      match e
      case Keymap(keymap) => p := HandleKeymap(keymap);
      case Key(key, pressed, chord) => p := HandleKey(key, pressed, chord);
      case Configure(w, h, serial, resizes) => p := Configure(w, h, serial, resizes);
      case PointerEnter(x, y) => PointerEnter(x, y); p := None;
      case Modifiers => p := None;
      case Other => p := None;
    }

    /** One dispatch of the event queue: the pending events in order, until one panics. */
    method Dispatch(batch: seq<Event>) returns (p: Option<Panic>)
      requires Valid()
      modifies this, renderer
      ensures p.None? ==> Valid() && Progress()
    {
      for i := 0 to |batch|
        invariant Valid() && Progress()
      {
        ghost var before := requests;
        p := HandleEvent(batch[i]);
        if p.Some? {
          return;
        }
        assert requests[..|before|] == before;
        assert requests[..|old(requests)|] == before[..|old(requests)|];
      }
      p := None;
    }
  }

  /** `App::init` from the renderer on: `RenderManager::init(ARgb32, 100, 100)`, whose
      error is unwrapped, then the initial state. */
  method Start(raw: RawConfig, syms: Resolve.SymLookup, strideFor: Render.StrideFor, resizes: bool)
    returns (app: App?, p: Option<Panic>)
    ensures p.None? <==> app != null
    ensures p.None? <==>
              strideFor(Render.ARgb32, 100).Some? && resizes && Render.BufSize(strideFor(Render.ARgb32, 100).value, 100) != 0
    ensures app != null ==>
              && fresh(app) && fresh(app.renderer) && app.Valid() && app.config == Raw(raw) && !app.shouldEnd
              && app.requests == [] && app.buttonState == map[] && app.pointerPos == (0, 0)
              && !app.hasKeyboardState && app.buffer == 0 && app.nextBuffer == 1
              && app.syms == syms && app.strideFor == strideFor
              && app.renderer.activeRegion == Geometry.FULL && app.renderer.width == 100 && app.renderer.height == 100
  {
    var rm, r := Render.Init(Render.ARgb32, 100, 100, strideFor, resizes);
    if r.Failed? {
      return null, Some(BoundsFailed(r.error));
    } else if r.MapPanicked? {
      return null, Some(MapFailed);
    }
    app := new App.Make(raw, rm, syms, strideFor);
    p := None;
  }

  /** What `pump` reports: keep pumping, stop, or a panic ended the process. */
  datatype PumpResult = Running | Stopped | Aborted(panic: Panic)

  class AppRunner {
    const app: App

    constructor (app: App)
      ensures this.app == app
    {
      this.app := app;
    }

    /** `pump`: dispatch once; once the app should end, dispatch once more (so the last
        requests are flushed) and stop. `first` and `second` are the events the two
        dispatches read. */
    method Pump(first: seq<Event>, second: seq<Event>) returns (r: PumpResult)
      requires app.Valid()
      modifies app, app.renderer
      ensures r.Running? ==> app.Valid() && !app.shouldEnd
      ensures r.Stopped? ==> app.Valid() && app.shouldEnd
      ensures old(app.shouldEnd) ==> !r.Running?
      ensures !r.Aborted? ==> |old(app.requests)| <= |app.requests| && app.requests[..|old(app.requests)|] == old(app.requests)
    {
      var p := app.Dispatch(first);
      if p.Some? {
        return Aborted(p.value);
      }
      if app.shouldEnd {
        ghost var mid := app.requests;
        p := app.Dispatch(second);
        if p.Some? {
          return Aborted(p.value);
        }
        assert app.requests[..|mid|] == mid;
        assert app.requests[..|old(app.requests)|] == mid[..|old(app.requests)|];
        return Stopped;
      }
      return Running;
    }
  }
}
