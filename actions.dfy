/** The action vocabulary the application executes and the two forms of its configuration:
    raw (key combos as token strings) and resolved (keyed by modifier mask and key symbol). */
module Actions {
  import opened Wrappers
  import opened Numeric
  import opened Keys

  datatype MouseButton = Left | Right | Middle

  /** The evdev code of each button: BTN_LEFT, BTN_RIGHT and BTN_MIDDLE. */
  function Code(b: MouseButton): (c: u32)
    ensures 0x110 <= c <= 0x112
  {
    match b
    case Left => 0x110
    case Right => 0x111
    case Middle => 0x112
  }

  /** Different buttons have different codes. */
  lemma CodeInjective(a: MouseButton, b: MouseButton)
    requires Code(a) == Code(b)
    ensures a == b
  {
  }

  /** The actions a key binding can run; a missing fraction or button takes its default. */
  datatype KeynavAction =
    | CursorZoom(width: u32, height: u32)
    | CutRight(fraction: Option<real>)
    | CutLeft(fraction: Option<real>)
    | CutUp(fraction: Option<real>)
    | CutDown(fraction: Option<real>)
    | MoveRight(fraction: Option<real>)
    | MoveLeft(fraction: Option<real>)
    | MoveUp(fraction: Option<real>)
    | MoveDown(fraction: Option<real>)
    | Click(button: Option<MouseButton>)
    | DragButton(dragged: MouseButton)
    | DoubleClick(button: Option<MouseButton>)
    | Warp
    | End

  /** The defaults dispatch uses for a missing argument. */
  const DEFAULT_CUT: real := 0.5
  const DEFAULT_MOVE: real := 1.0
  const DEFAULT_BUTTON: MouseButton := Left

  /** The actions that only change the active region. */
  predicate IsGeometric(a: KeynavAction) {
    a.CursorZoom? || a.CutRight? || a.CutLeft? || a.CutUp? || a.CutDown?
    || a.MoveRight? || a.MoveLeft? || a.MoveUp? || a.MoveDown?
  }

  /** The actions that drive the virtual pointer. */
  predicate IsPointer(a: KeynavAction) {
    a.Click? || a.DragButton? || a.DoubleClick? || a.Warp?
  }

  /** A key combo: modifier names and one key name, as written. */
  type Combo = seq<string>

  /** The configuration before a keymap is known: combos with their actions, in declaration order. */
  datatype RawConfig = RawConfig(mappings: seq<(Combo, seq<KeynavAction>)>)

  /** A combo as the keyboard reports it: the effective modifier mask and a key symbol. */
  type Chord = (ModMask, Keysym)

  /** The configuration once the keymap has resolved every combo. */
  datatype Config = Config(mappings: map<Chord, seq<KeynavAction>>)
}
