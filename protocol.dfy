/** The Wayland requests the application sends, as one ordered trace: the virtual pointer's
    motion, button and frame requests, the surface's attach, damage and commit, the shared
    memory pool's resize and buffer creation, the buffers' destruction, and the layer
    surface's configure acknowledgement. */
module Protocol {
  import opened Numeric

  /** `wl_pointer::ButtonState`. */
  datatype ButtonState = Released | Pressed

  /** The pixel format of every buffer: `wl_shm::Format::Argb8888`. */
  datatype ShmFormat = Argb8888

  /** A buffer, by the order of its creation. */
  type BufferId = nat

  datatype Request =
    | MotionAbsolute(time: u32, x: u32, y: u32, xExtent: u32, yExtent: u32)
    | PointerButton(time: u32, button: u32, state: ButtonState)
    | PointerFrame
    | PoolResize(size: i32)
    | BufferDestroy(buffer: BufferId)
    | CreateBuffer(buffer: BufferId, offset: i32, width: i32, height: i32, stride: i32, format: ShmFormat)
    | Attach(buffer: BufferId, dx: i32, dy: i32)
    | DamageBuffer(left: i32, top: i32, damageWidth: i32, damageHeight: i32)
    | SurfaceCommit
    | AckConfigure(serial: u32)
    | SetInputRegion

  predicate IsPointerEvent(r: Request) {
    r.MotionAbsolute? || r.PointerButton?
  }

  /** A position in fixed point: x, y and the denominator used for both axes. */
  type FixedPoint = (u32, u32, u32)

  /** `warp`: move the pointer, then end the frame. The request time is always 0. */
  function WarpTrace(p: FixedPoint): seq<Request> {
    [MotionAbsolute(0, p.0, p.1, p.2, p.2), PointerFrame]
  }

  /** `click`: move, press, release, each in its own frame. */
  function ClickTrace(p: FixedPoint, button: u32): seq<Request> {
    WarpTrace(p) + [PointerButton(0, button, Pressed), PointerFrame, PointerButton(0, button, Released), PointerFrame]
  }

  /** `drag`: move, then send the button's new state. */
  function DragTrace(p: FixedPoint, button: u32, state: ButtonState): seq<Request> {
    WarpTrace(p) + [PointerButton(0, button, state), PointerFrame]
  }

  /** `commit`: attach the current buffer, damage all of it, commit the surface. */
  function CommitTrace(buffer: BufferId, width: u32, height: u32): seq<Request> {
    [Attach(buffer, 0, 0), DamageBuffer(0, 0, U32AsI32(width), U32AsI32(height)), SurfaceCommit]
  }

  /** `rebind`: resize the pool, destroy the previous buffer, create the next one. */
  function RebindTrace(prev: BufferId, next: BufferId, size: u32, width: u32, height: u32, stride: i32): seq<Request> {
    [PoolResize(U32AsI32(size)), BufferDestroy(prev),
     CreateBuffer(next, 0, U32AsI32(width), U32AsI32(height), stride, Argb8888)]
  }

  /** Every pointer event is immediately followed by a frame that closes it. */
  predicate Framed(t: seq<Request>)
    decreases |t|
  {
    t == [] || (|t| >= 2 && IsPointerEvent(t[0]) && t[1] == PointerFrame && Framed(t[2..]))
  }

  lemma {:induction false} FramedConcat(a: seq<Request>, b: seq<Request>)
    requires Framed(a) && Framed(b)
    ensures Framed(a + b)
    decreases |a|
  {
    if a == [] {
      assert a + b == b;
    } else {
      assert (a + b)[2..] == a[2..] + b;
      FramedConcat(a[2..], b);
    }
  }

  /** The pointer traces are made of framed events. */
  lemma PointerTracesFramed(p: FixedPoint, button: u32, state: ButtonState)
    ensures Framed(WarpTrace(p)) && Framed(ClickTrace(p, button)) && Framed(DragTrace(p, button, state))
  {
    var w := WarpTrace(p);
    assert w[2..] == [];
    var c := ClickTrace(p, button);
    assert c[2..][2..][2..] == [];
    var d := DragTrace(p, button, state);
    assert d[2..][2..] == [];
  }

  /** The state the pointer device was last told for `button`, starting from `init`. */
  function DeviceButton(t: seq<Request>, button: u32, init: ButtonState): ButtonState
    decreases |t|
  {
    if t == [] then init
    else
      var last := t[|t| - 1];
      if last.PointerButton? && last.button == button then last.state
      else DeviceButton(t[..|t| - 1], button, init)
  }

  /** A click leaves its button released, whatever the device had before. */
  lemma ClickReleases(t: seq<Request>, p: FixedPoint, button: u32, init: ButtonState)
    ensures DeviceButton(t + ClickTrace(p, button), button, init) == Released
  {
    var u := t + ClickTrace(p, button);
    assert u[..|u| - 1][|u| - 2] == PointerButton(0, button, Released);
  }

  /** A drag leaves its button in the state it sent. */
  lemma DragSets(t: seq<Request>, p: FixedPoint, button: u32, state: ButtonState, init: ButtonState)
    ensures DeviceButton(t + DragTrace(p, button, state), button, init) == state
  {
    var u := t + DragTrace(p, button, state);
    assert u[..|u| - 1][|u| - 2] == PointerButton(0, button, state);
  }

  /** The buffers alive after `t`, given those alive before. */
  function Live(live: set<BufferId>, t: seq<Request>): set<BufferId>
    decreases |t|
  {
    if t == [] then live
    else
      var before := Live(live, t[..|t| - 1]);
      match t[|t| - 1]
      case CreateBuffer(b, _, _, _, _, _) => before + {b}
      case BufferDestroy(b) => before - {b}
      case _ => before
  }

  lemma {:induction false} LiveConcat(live: set<BufferId>, a: seq<Request>, b: seq<Request>)
    ensures Live(live, a + b) == Live(Live(live, a), b)
    decreases |b|
  {
    if b == [] {
      assert a + b == a;
    } else {
      assert (a + b)[..|a + b| - 1] == a + b[..|b| - 1];
      assert (a + b)[|a + b| - 1] == b[|b| - 1];
      LiveConcat(live, a, b[..|b| - 1]);
    }
  }

  /** Requests that neither create nor destroy a buffer leave the live set alone. */
  predicate NoBufferChange(t: seq<Request>) {
    forall i :: 0 <= i < |t| ==> !t[i].CreateBuffer? && !t[i].BufferDestroy?
  }

  lemma {:induction false} LiveUnchanged(live: set<BufferId>, t: seq<Request>)
    requires NoBufferChange(t)
    ensures Live(live, t) == live
    decreases |t|
  {
    if t != [] {
      LiveUnchanged(live, t[..|t| - 1]);
    }
  }

  /** After a rebind the previous buffer is gone and the next one is alive. */
  lemma RebindSwapsBuffer(live: set<BufferId>, prev: BufferId, next: BufferId, size: u32, width: u32, height: u32,
                          stride: i32)
    ensures Live(live, RebindTrace(prev, next, size, width, height, stride)) == live - {prev} + {next}
  {
    var t := RebindTrace(prev, next, size, width, height, stride);
    assert Live(live, t[..1]) == live by {
      assert t[..1][..0] == [];
    }
    assert Live(live, t[..2]) == live - {prev} by {
      assert t[..2][..1] == t[..1];
    }
    assert t[..3] == t;
  }
}
