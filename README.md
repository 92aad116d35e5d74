# keynav-wayland, modelled in Dafny

keynav-wayland is a keyboard-driven pointer for Wayland. A layer-surface overlay shows an
"active region" of the screen. Key chords narrow, move or re-centre that region. Other
chords make a virtual pointer warp to the region's centre, click, double click or drag
there. This project models the logic between the keyboard and the pointer and proves
properties of it:

- `text.dfy` (`Text`): the string operations the parser uses. These are `trim`, the search
  for the first whitespace character, `split`, and its inverse `Join`.
- `config.dfy` (`ConfigParser`): the line-oriented configuration parser of `src/config.rs`
  and its constant default table. It has a line parser with 1-based line numbers in its
  errors, a fold that keeps the last line for each key, and a printer that the parser
  inverts.
- `keys.dfy`, `numeric.dfy`, `wrappers.dfy`: keysyms and modifier masks. Also `u32`/`i32`
  with their wrap-around and saturating casts, and `Option`/`Result`.
- `actions.dfy` (`Actions`): the app's action vocabulary (`KeynavAction` with its
  payloads), mouse buttons and their evdev codes, and raw and resolved configurations.
- `geometry.dfy` (`Geometry`): the active region's guard, and the cut, move and
  cursor-zoom candidate rectangles. It also has the centre as a fixed-point pointer
  position.
- `protocol.dfy` (`Protocol`): the Wayland requests the app sends, as an output trace.
  This covers the virtual-pointer commands of click, drag and warp, the surface commit, and
  the pool/buffer rebind. Predicates over the trace state when pointer commands are framed,
  the last button state the device was told, and which buffers are alive.
- `render.dfy` (`Render`): `RenderManager`, a class whose fields are the active region,
  the size, the stride and the context's scale. It has `set_bounds`,
  `update_active_region` and the buffer size with its `u32` wrap-around.
- `resolve.dfy` (`Resolve`): the keymap-time folding of each textual key combo into a
  (modifier mask, keysym) chord, as a specification and as the source's nested loop.
- `dispatch.dfy` (`Dispatch`): the effect of each action on a snapshot of the app's state
  (region, drag map, end flag, request trace) and of a list of actions run in order.
- `app.dfy` (`Application`): `App`, a class with the source's fields. Its methods are the
  navigation and pointer commands, `commit`, `rebind`, and the keymap, key, configure and
  pointer-enter handlers. Each command is proved to change the state exactly as
  `Dispatch.Step` says. Around it are `AppRunner.pump` and its termination.

Foreign lookups are parameters:

- `keysym_from_name` is a function from string to keysym. `0` is `NoSymbol`.
- `mod_get_index` is a function from string to an optional modifier index.
- cairo's `stride_for_width` is a function from format and width to an optional stride.
- Whether resizing the backing file succeeds is a boolean.

Wayland, cairo and xkb objects are not modelled. The requests sent to the compositor are
appended to a `requests` trace instead.

## Model

| member | source | states |
|---|---|---|
| ConfigParser.DefaultConfig | src/config.rs:31-47 | the default table binds Return to click then exit, Escape to exit and H to move left |
| ConfigParser.DefaultConfigKeys | src/config.rs:31-47 | the default table binds exactly the eleven keys h j k l H J K L semicolon Return Escape |
| ConfigParser.ParseKey | src/config.rs:49-54 | a key name fails exactly when the lookup yields NoSymbol; otherwise the result is the looked-up keysym |
| ConfigParser.ParseAction | src/config.rs:57-65 | an action word that parses is one of the seven printable actions, and its name is that word |
| ConfigParser.ParseActionName | src/config.rs:58-64 | each of the seven action names parses back to its action |
| ConfigParser.ParseActionList | src/config.rs:55-68 | the list parses iff every trimmed piece is an action name; then the actions are the pieces' actions in order, one per piece |
| ConfigParser.ParseActionListError | src/config.rs:55-68 | the error names the first trimmed piece that is not an action |
| ConfigParser.ParseActions | src/config.rs:55-68 | every parsed action is one of the seven listed variants, never a Move variant |
| ConfigParser.EmptyPieceFails | src/config.rs:56-65 | an empty piece, such as one between two commas, makes the whole list fail |
| ConfigParser.ParseLine | src/config.rs:80-93 | a line contributes nothing iff it is blank after trimming; an error carries the line's number; a mapping's key is never NoSymbol |
| ConfigParser.OneWordLineFails | src/config.rs:82-85 | a non-blank line without inner whitespace is the "not two sections" error of its line |
| ConfigParser.LineActionsParseable | src/config.rs:88-92 | a line's mapping lists only printable actions |
| ConfigParser.ParseLines | src/config.rs:78-96 | line k of the text is parsed with number first + k |
| ConfigParser.FoldOkIff | src/config.rs:79-99 | the loop succeeds iff every line succeeds |
| ConfigParser.FoldErrorIsFirst | src/config.rs:88-91 | a failing loop returns the error of one of its lines |
| ConfigParser.FoldKeepsUnmapped | src/config.rs:92 | a key no line names keeps the value it already had |
| ConfigParser.FoldLastWins | src/config.rs:92 | a key maps to the actions of the last line naming it |
| ConfigParser.FoldKeysFromLines | src/config.rs:92 | every new key comes from some line |
| ConfigParser.FoldParseable | src/config.rs:90-92 | the loop stores only printable actions |
| ConfigParser.BlankLineIgnored | src/config.rs:80-81 | a line gives no mapping and no error exactly when it is all whitespace |
| ConfigParser.ErrorNamesFirstBadLine | src/config.rs:78-96 | a failed parse reports the error of the first bad line, every earlier line being fine, and never a partial map |
| ConfigParser.FirstBadLineIsTheError | src/config.rs:88-91 | if line k+1 is the first bad line, the parse fails with exactly its error |
| ConfigParser.OneWordLineIsError | src/config.rs:78-85 | a first bad line that is one word fails with "not two sections" and its 1-based number, blank lines counted |
| ConfigParser.LaterLineWins | src/config.rs:92 | when several lines name a key, the result maps it to the last one's actions |
| ConfigParser.KeysComeFromLines | src/config.rs:86-92 | every key of the result is named by some line |
| ConfigParser.ParsedConfigIsParseable | src/config.rs:58-64 | a parsed configuration holds only the seven printable actions |
| ConfigParser.DefaultConfigIsNotParseable | src/config.rs:31-47 | no text parses to the default table, because it uses Move variants the parser never produces |
| ConfigParser.ActionListRoundTrip | src/config.rs:55-68 | the comma-joined names of a nonempty list of printable actions parse back to that list |
| ConfigParser.FormatLineRoundTrip | src/config.rs:70-93 | a line "key actions" written from a known key name and printable actions parses back to that key and those actions |
| ConfigParser.EntryLineRoundTrip | src/config.rs:70-93 | a written entry (a mapping, or whitespace only) is one line that parses back to that entry |
| ConfigParser.EntriesRoundTrip | src/config.rs:76-100 | entries written one per line parse, line by line and numbered from 1, back to those entries |
| ConfigParser.SampleTextIsTestText | src/config.rs:116-123 | the sample entries written one per line give the unit test's seven lines, the fifth blank, joined by newlines |
| ConfigParser.BasicParse | src/config.rs:114-135 | the unit test's seven lines joined by newlines parse to exactly the six-entry map, with l bound to narrow_right and Return to click, exit |
| ConfigParser.ParseConfig | src/config.rs:76-100 | the loop over lines with its counter and in-place insert computes the specified parse |
| Text.Trim | src/config.rs:57 | the trimmed text is no longer, and starts and ends with a non-whitespace character |
| Text.TrimIsInfix | src/config.rs:57 | the trimmed text is the input with whitespace-only margins removed |
| Text.TrimEmptyIff | src/config.rs:80-81 | trimming gives the empty string iff the text is all whitespace |
| Text.TrimIdempotent | src/config.rs:88-90 | trimming twice is trimming once |
| Text.FindWhitespace | src/config.rs:82 | the index found is the first whitespace character; none is found iff there is none |
| Text.IndexOf | src/config.rs:79 | the index found is the first occurrence of the character; none is found iff it does not occur |
| Text.Split | src/config.rs:56 | splitting gives at least one piece and no piece contains the separator |
| Text.JoinSplit | src/config.rs:56 | joining the pieces of a split gives back the text |
| Text.SplitJoin | src/config.rs:79 | splitting pieces joined with a separator they lack gives back the pieces |
| Numeric.WrapU32 | src/render.rs:147 | the result is the input modulo 2^32 |
| Numeric.U32AsI32 | src/app.rs:217 | the cast keeps values below 2^31 and wraps back to the original |
| Numeric.SatU32 | src/app.rs:251-252 | the cast to u32 truncates in range and saturates at 0 and 2^32-1 |
| Numeric.SatI32 | src/app.rs:175 | the cast to i32 truncates toward zero in range and saturates at -2^31 and 2^31-1 |
| Keys.Bit | src/app.rs:459 | 1 << index is a nonzero mask |
| Actions.Code | src/app.rs:599 | a button's code is one of the evdev codes 0x110..0x112 |
| Actions.CodeInjective | src/app.rs:599 | distinct buttons have distinct codes |
| Geometry.UpdatedKeepsOrigin | src/render.rs:133-141 | the stored region's origin stays on the surface |
| Geometry.UpdatedIsCandidateIff | src/render.rs:127-141 | the candidate is stored iff x, y are in [0,1) and it covers at least one device pixel each way; otherwise the old region stays |
| Geometry.UpdatedKeepsGuard | src/render.rs:133-141 | a stored region that passes the guard keeps passing it |
| Geometry.UpdatedIdempotent | src/render.rs:140 | proposing the same rectangle twice is proposing it once |
| Geometry.CutLeft | src/app.rs:315-325 | keeps x, y and height; the width is scaled by the fraction |
| Geometry.CutRight | src/app.rs:350-361 | keeps the right edge, y and height; the width is scaled by the fraction |
| Geometry.CutUp | src/app.rs:338-349 | keeps x, y and width; the height is scaled by the fraction |
| Geometry.CutDown | src/app.rs:326-337 | keeps the bottom edge, x and width; the height is scaled by the fraction |
| Geometry.CutsStayWithin | src/app.rs:315-361 | a fraction in [0,1] cuts a part out of the region |
| Geometry.CutLeftRightMeet | src/app.rs:315-325 | cut_left(f) and cut_right(1-f) split the width at the same line |
| Geometry.CutUpDownMeet | src/app.rs:326-349 | cut_up(f) and cut_down(1-f) split the height at the same line |
| Geometry.MoveRight | src/app.rs:362-372 | shifts x right by width * f; the size is unchanged |
| Geometry.MoveLeft | src/app.rs:373-383 | shifts x left by width * f; the size is unchanged |
| Geometry.MoveUp | src/app.rs:384-394 | shifts y up by height * f; the size is unchanged |
| Geometry.MoveDown | src/app.rs:395-405 | shifts y down by height * f; the size is unchanged |
| Geometry.MovesCancel | src/app.rs:362-405 | opposite moves by the same fraction cancel |
| Geometry.CursorZoom | src/app.rs:301-314 | a w by h pixel rectangle centred on the pointer in user space; no acceptable candidate on a zero-sized surface |
| Geometry.CenterFixedPoint | src/app.rs:245-256 | the centre in 1/10000 units, truncated while it fits in u32, 0 below the origin and u32::MAX past the range; at most 10000 while the centre is on the surface; denominator 10000 |
| Geometry.CenterPastTheEdge | src/app.rs:245-256 | a region accepted after cursor_zoom(90, 90) at (46, 46) on 100 by 100, then move_right, is centred at 13600, past the edge |
| Geometry.CenterOfMiddleQuarter | src/app.rs:245-256 | (0.25, 0.25, 0.5, 0.5) is centred at (5000, 5000, 10000) |
| Geometry.CenterOfFull | src/app.rs:245-256 | the whole surface is centred at (5000, 5000, 10000) |
| Protocol.FramedConcat | src/app.rs:257-300 | traces that each end with a frame concatenate to such a trace |
| Protocol.PointerTracesFramed | src/app.rs:257-300 | warp, click and drag each end their pointer events with a frame |
| Protocol.ClickReleases | src/app.rs:257-269 | after a click the device was last told the button is released |
| Protocol.DragSets | src/app.rs:270-287 | after a drag the device was last told the drag's new state |
| Protocol.LiveConcat | src/app.rs:215-227 | the live buffers of a concatenation follow the two traces one after the other |
| Protocol.LiveUnchanged | src/app.rs:229-240 | a trace that creates and destroys no buffer leaves the live buffers as they were |
| Protocol.RebindSwapsBuffer | src/app.rs:215-227 | resize, destroy, create swaps the old buffer for the new one |
| Render.BufSize | src/render.rs:146-148 | stride * height modulo 2^32, exact when it fits |
| Render.RenderManager.BufferSize | src/render.rs:146-148 | the manager's buffer size is its stride times its height modulo 2^32 |
| Render.RenderManager.Blank | src/render.rs:22-32 | the region is (0,0,1,1), the size is 0 by 0 and the stride is -1 |
| Render.RenderManager.SetBounds | src/render.rs:41-75 | a stride failure changes nothing; otherwise stride, width and height are stored; a failed resize or a zero-length map fails; on success the scale is the size; the region never changes |
| Render.RenderManager.UpdateActiveRegion | src/render.rs:127-142 | the region becomes the candidate iff the guard at the current scale accepts it; all other fields are unchanged |
| Render.Init | src/render.rs:19-40 | a fresh manager with region (0,0,1,1); it succeeds iff there is a stride, the resize succeeds and the buffer size is nonzero; a missing stride, a failed resize and a zero-length map give their own errors |
| Resolve.KeyNames | src/app.rs:456-476 | every name kept is a token of the combo that is not a modifier, and none is kept iff every token is a modifier |
| Resolve.TokensMeaning | src/app.rs:455-476 | the token loop fails on a second key or an unknown key; otherwise it gives the OR of the modifier bits and the key's keysym |
| Resolve.ResolveComboIff | src/app.rs:455-484 | a combo resolves iff it has exactly one non-modifier token and that token is a known key; the chord is (the OR of the modifier bits, its keysym) |
| Resolve.ResolveComboErrors | src/app.rs:464-482 | which panic a combo meets: a second key, an unmapped key, or no key |
| Resolve.BitOr | src/app.rs:459 | ORing in bit j sets bit i iff it was set or i == j |
| Resolve.ModBitsHas | src/app.rs:456-463 | the mask has bit i iff some token is the modifier with index i |
| Resolve.ResolveAllOkIff | src/app.rs:432-486 | resolution succeeds iff every combo resolves |
| Resolve.ResolveAllFirstError | src/app.rs:432-485 | resolution stops at the first combo that fails, with its error |
| Resolve.ResolveAllLastWins | src/app.rs:484 | a chord is bound iff some entry resolves to it, and to the actions of the last such entry |
| Resolve.ResolveTokens | src/app.rs:439-483 | the inner loop over tokens computes the combo's resolution |
| Resolve.ResolveMappings | src/app.rs:432-486 | the outer loop with its in-place insert computes the specified resolution, error included |
| Dispatch.StepTouches | src/app.rs:557-621 | a geometric action changes only the region, a pointer action leaves region and end flag alone, and End only sets the end flag |
| Dispatch.StepAppendsFramed | src/app.rs:557-621 | an action only appends requests, ending every pointer event with a frame |
| Dispatch.PointerAppendsFramed | src/app.rs:257-300 | a pointer command appends requests whose pointer events end with a frame |
| Dispatch.RunAppendsFramed | src/app.rs:558-621 | running an action list only appends requests, framed |
| Dispatch.RegionKeepsOrigin | src/app.rs:301-405 | every navigation action keeps the region's origin on the surface |
| Dispatch.RunKeepsOrigin | src/app.rs:558-621 | a list of actions keeps the region's origin on the surface |
| Dispatch.RunEndsIff | src/app.rs:617-620 | after a list the app should end iff it should before or the list contains End |
| Dispatch.DragToggles | src/app.rs:270-287 | drag flips its button between Pressed and Released (absent counts as Released), leaves other buttons, and tells the device that state |
| Dispatch.ClicksRelease | src/app.rs:257-295 | a click and a double click leave the device button released, and a double click is two clicks |
| Dispatch.CornerClick | src/app.rs:557-621 | cut_left, cut_up, click, end on a 100 by 100 surface halve the region twice, click the left button at (2500, 2500) of 10000 and end |
| Application.Bound | src/app.rs:553-556 | actions run only on a press, with a resolved configuration, for a bound chord |
| Application.KeyOnlyCommitsUnlessBound | src/app.rs:553-630 | a release, an unresolved configuration or an unbound chord only commits |
| Application.CommitKeepsBuffers | src/app.rs:229-240 | committing creates and destroys no buffer |
| Application.FramedKeepsBuffers | src/app.rs:257-300 | pointer commands create and destroy no buffer |
| Application.App.Make | src/app.rs:104-114 | the initial state: raw configuration, pointer at (0, 0), no keyboard state, empty drag map, not ending, no requests |
| Application.App.CenterAsFixedPoint | src/app.rs:245-256 | the centre of the renderer's region as a fixed point |
| Application.App.Click | src/app.rs:257-269 | appends warp, press, frame, release, frame at the centre; nothing else changes |
| Application.App.Drag | src/app.rs:270-287 | toggles the button's entry and appends warp and the new button state at the centre |
| Application.App.DoubleClick | src/app.rs:288-295 | appends the click trace twice |
| Application.App.Warp | src/app.rs:296-300 | appends the motion to the centre and a frame |
| Application.App.End | src/app.rs:241-243 | sets should_end and nothing else |
| Application.App.CursorZoom | src/app.rs:301-314 | the state changes as the CursorZoom step specifies |
| Application.App.CutLeft | src/app.rs:315-325 | the state changes as the CutLeft step specifies |
| Application.App.CutDown | src/app.rs:326-337 | the state changes as the CutDown step specifies |
| Application.App.CutUp | src/app.rs:338-349 | the state changes as the CutUp step specifies |
| Application.App.CutRight | src/app.rs:350-361 | the state changes as the CutRight step specifies |
| Application.App.MoveRight | src/app.rs:362-372 | the state changes as the MoveRight step specifies |
| Application.App.MoveLeft | src/app.rs:373-383 | the state changes as the MoveLeft step specifies |
| Application.App.MoveUp | src/app.rs:384-394 | the state changes as the MoveUp step specifies |
| Application.App.MoveDown | src/app.rs:395-405 | the state changes as the MoveDown step specifies |
| Application.App.Execute | src/app.rs:558-621 | one action, with defaults 0.5, 1.0 and Left, changes the state as the step specifies |
| Application.App.RunActions | src/app.rs:558-621 | the actions of a binding run in list order, as Run specifies |
| Application.App.Commit | src/app.rs:229-240 | appends attach, damage of the whole buffer and commit |
| Application.App.HandleKey | src/app.rs:524-631 | panics iff the keymap gives no keysym; otherwise runs the chord's binding on a press of a resolved configuration, then commits |
| Application.App.HandleKeymap | src/app.rs:412-495 | no keymap changes nothing; otherwise the keyboard state is kept, buffers, requests and pointer are untouched, and a second keymap panics; a raw configuration becomes the resolved one, or panics with the resolution error |
| Application.App.Rebind | src/app.rs:215-227 | appends resize to the buffer size, destroy of the old buffer and create of the next, which is the only live buffer afterwards |
| Application.App.Configure | src/app.rs:121-130 | succeeds iff set_bounds does; then the new size and stride are stored, ack then rebind are appended, the next buffer becomes current, and configuration, pointer and keyboard state are kept |
| Application.App.PointerEnter | src/app.rs:167-176 | appends set_input_region and stores the position cast to i32; configuration, keyboard state and buffers are kept |
| Application.App.HandleEvent | src/app.rs:406-634 | each arm has its handler's outcome (keymap resolution or its panic, the key's binding and commit, configure's bounds, ack and rebind, pointer-enter's position and input region) and the same frame: a key leaves configuration, pointer, keyboard state, buffers and sizes alone, configure and pointer-enter keep configuration and keyboard state, pointer-enter and keymap leave the renderer alone; modifier and other events change nothing; without a panic the state stays valid, should_end stays set and requests are only appended |
| Application.App.Dispatch | src/app.rs:655-658 | a batch of events handled in order keeps those invariants |
| Application.Start | src/app.rs:86-89 | the app starts iff the 100 by 100 renderer initialises; then it holds the raw configuration, no requests, an empty drag map, the pointer at (0, 0), no keyboard state, buffer 0 and region (0,0,1,1) |
| Application.AppRunner.constructor | src/app.rs:636-654 | the runner owns the app |
| Application.AppRunner.Pump | src/app.rs:655-668 | reports running only while should_end is unset and stopped only once it is set; an app that should already end never reports running; without a panic the requests are only appended |

## Left out

- Application.AppRunner.Pump: the contract states the verdict and that requests are only appended, not that stopping is preceded by a second dispatch; the event queue is abstract, so the two dispatches' events are parameters.
- Render.BufSize: a debug build of the source panics when `stride * height` overflows `u32`; the model states the release build's wrap-around modulo 2^32.
- Wayland connection and setup: most of `App::init`, `AppRunner::init`, the seat, keyboard, pointer and layer-surface closures, `sync_roundtrip`, and the `unwrap` of each dispatch. These are protocol I/O. A dispatch is modelled as handling a given sequence of events. `Start` begins after the pool and the first buffer (number 0) exist, so the trace starts empty.
- xkb: loading a keymap from a file descriptor, `key_get_syms_by_level`, the `key + 8` offset, `update_key`, `update_mask` and `serialize_mods` are foreign. A key event carries the chord directly, or nothing when xkb has no symbol for the key. Whether the cloned `xkb::State` shares its state with the original cannot be seen from the source; the `Modifiers` arm updates only that xkb state, which the model does not keep, so `HandleEvent` proves it changes nothing here.
- Modifier indices of 32 or more: `1 << index` would overflow the 32-bit mask, and the model's `mod_get_index` only yields indices below 32.
- cairo drawing in `redraw` and its `unwrap`: pixel output with nothing to state. The model assumes the redraw succeeds, including the one that ends `set_bounds`.
- The temporary file, `mmap`, `create_for_data` and the shared-memory fd: OS resources. A failing `set_len` is a boolean parameter. Of `mmap`'s failures only the zero-length map is modelled, as a panic.
- Floating point: `f64` is modelled as `real`, i.e. with no rounding. `cursor_zoom` on a zero-sized surface divides by zero; the model has no candidate then, since NaN and infinity fail the guard.
- `device_to_user` is not defined in this revision of `src/render.rs`; it is modelled as the inverse of the context's scale, `(w / width, h / height)`.
- The source's `configure` arm is a closure in `App::init`. `Rc`/`RefCell` sharing is modelled as one object owning its renderer.
- Error strings: `format!` messages are modelled by their cause and line number only. `parse_config_file` is I/O. `src/main.rs` is only wiring. The `time` of motion and button requests is the constant 0 the source sends.
- `src/config.rs` in this revision is an older parser: its `KeynavAction` has eleven payload-less variants. The app imports a newer `RawConfig`/`MouseButton` vocabulary. The parser is modelled on that file with its own datatypes, and the app's vocabulary is taken from its use in `src/app.rs`. The button codes (0x110, 0x111, 0x112 for left, right, middle) are the evdev codes, since `to_code` is not defined in this revision.
- `RawConfig` is not defined in this revision; its mappings are taken as a sequence, so "last write wins" and "first error" refer to that order (a `HashMap` would leave the order unspecified).
- The getters of `RenderManager` are plain field reads in the model.

