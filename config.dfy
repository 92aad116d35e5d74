/** The line-oriented configuration parser of src/config.rs: a key name, then
    whitespace, then a comma-separated list of actions, one mapping per line. */
module ConfigParser {
  import opened Wrappers
  import opened Text
  import opened Keys

  /** The action vocabulary of this parser (payload-less). */
  datatype KeynavAction =
    | NarrowRight | NarrowLeft | NarrowUp | NarrowDown
    | CenterCursor
    | MoveRight | MoveLeft | MoveUp | MoveDown
    | Click | Exit

  /** The actions a configuration line can name; the `Move*` ones are not among them. */
  predicate Parseable(a: KeynavAction) {
    !(a.MoveRight? || a.MoveLeft? || a.MoveUp? || a.MoveDown?)
  }

  datatype Config = Config(mappings: map<Keysym, seq<KeynavAction>>)

  /** Why a line was rejected; the formatted message of the source carries the same facts. */
  datatype Cause =
    | NotTwoSections        // nonblank, but no whitespace separates a key from actions
    | SymbolNotRecognized   // the key name maps to no key symbol
    | UnknownAction(piece: string)

  /** An error and the 1-based number of the line it is on. */
  datatype ParseError = ParseError(line: nat, cause: Cause)

  /** The built-in table used when no configuration is read. */
  function DefaultConfig(): (c: Config)
    ensures KEY_Return in c.mappings && c.mappings[KEY_Return] == [Click, Exit]
    ensures KEY_Escape in c.mappings && c.mappings[KEY_Escape] == [Exit]
    ensures KEY_H in c.mappings && c.mappings[KEY_H] == [MoveLeft]
  {
    var m := map[
      KEY_h := [NarrowLeft], KEY_j := [NarrowDown], KEY_k := [NarrowUp], KEY_l := [NarrowRight],
      KEY_H := [MoveLeft], KEY_J := [MoveDown], KEY_K := [MoveUp], KEY_L := [MoveRight],
      KEY_semicolon := [CenterCursor],
      KEY_Return := [Click, Exit], KEY_Escape := [Exit]];
    Config(m)
  }

  /** The built-in table binds eleven keys: hjkl, HJKL, ';', Return and Escape. */
  lemma DefaultConfigKeys()
    ensures DefaultConfig().mappings.Keys
            == {KEY_h, KEY_j, KEY_k, KEY_l, KEY_H, KEY_J, KEY_K, KEY_L, KEY_semicolon, KEY_Return, KEY_Escape}
  {
  }

  /** `parse_key`: a key name is accepted exactly when it names a key symbol. */
  function ParseKey(raw: string, keysymFromName: string -> Keysym): (r: Result<Keysym, string>)
    ensures r.Err? <==> keysymFromName(raw) == NoSymbol
    ensures r.Ok? ==> r.value == keysymFromName(raw) && r.value != NoSymbol
  {
    var key := keysymFromName(raw);
    if key == NoSymbol then Err("Symbol not recognized") else Ok(key)
  }

  /** The name each parseable action is written as. */
  function ActionName(a: KeynavAction): string
    requires Parseable(a)
  {
    match a
    case NarrowRight => "narrow_right"
    case NarrowLeft => "narrow_left"
    case NarrowUp => "narrow_up"
    case NarrowDown => "narrow_down"
    case CenterCursor => "center_cursor"
    case Click => "click"
    case Exit => "exit"
  }

  /** One trimmed piece of an action list. */
  function ParseAction(piece: string): (r: Option<KeynavAction>)
    ensures r.Some? ==> Parseable(r.value) && ActionName(r.value) == piece
  {
    if piece == "narrow_right" then Some(NarrowRight)
    else if piece == "narrow_left" then Some(NarrowLeft)
    else if piece == "narrow_up" then Some(NarrowUp)
    else if piece == "narrow_down" then Some(NarrowDown)
    else if piece == "center_cursor" then Some(CenterCursor)
    else if piece == "click" then Some(Click)
    else if piece == "exit" then Some(Exit)
    else None
  }

  /** Every parseable action is read back from its name. */
  lemma ParseActionName(a: KeynavAction)
    requires Parseable(a)
    ensures ParseAction(ActionName(a)) == Some(a)
  {
  }

  /** The pieces of an action list, each trimmed, parsed in order; the first
      unrecognised piece (trimmed) is the error. */
  function ParseActionList(pieces: seq<string>): (r: Result<seq<KeynavAction>, string>)
    ensures r.Ok? <==> forall i :: 0 <= i < |pieces| ==> ParseAction(Trim(pieces[i])).Some?
    ensures r.Ok? ==> |r.value| == |pieces|
    ensures r.Ok? ==> forall i :: 0 <= i < |pieces| ==> ParseAction(Trim(pieces[i])) == Some(r.value[i])
  {
    if pieces == [] then Ok([])
    else
      var head, rest := ParseAction(Trim(pieces[0])), ParseActionList(pieces[1..]);
      assert forall i :: 1 <= i < |pieces| ==> pieces[i] == pieces[1..][i - 1];
      if head.None? then Err(Trim(pieces[0]))
      else if rest.Err? then rest
      else Ok([head.value] + rest.value)
  }

  /** The error of an action list is its first unrecognised piece, trimmed. */
  lemma {:induction false} ParseActionListError(pieces: seq<string>, k: nat)
    requires k < |pieces| && ParseAction(Trim(pieces[k])).None?
    requires forall j :: 0 <= j < k ==> ParseAction(Trim(pieces[j])).Some?
    ensures ParseActionList(pieces) == Err(Trim(pieces[k]))
  {
    if k > 0 {
      var rest := pieces[1..];
      assert ParseAction(Trim(pieces[0])).Some?;
      assert rest[k - 1] == pieces[k];
      forall j | 0 <= j < k - 1
        ensures ParseAction(Trim(rest[j])).Some?
      {
        assert rest[j] == pieces[j + 1];
      }
      ParseActionListError(rest, k - 1);
    }
  }

  /** `parse_actions`: split on ',' and parse every piece; what it accepts
      is never a `Move*` action. */
  function ParseActions(raw: string): (r: Result<seq<KeynavAction>, string>)
    ensures r.Ok? ==> forall i :: 0 <= i < |r.value| ==> Parseable(r.value[i])
  {
    var pieces := Split(raw, ',');
    var r := ParseActionList(pieces);
    assert r.Ok? ==> forall i :: 0 <= i < |r.value| ==> ParseAction(Trim(pieces[i])) == Some(r.value[i]);
    r
  }

  /** An empty piece (",," or a trailing ",") is not an action, so the whole list fails. */
  lemma EmptyPieceFails(raw: string, k: nat)
    requires k < |Split(raw, ',')| && Trim(Split(raw, ',')[k]) == []
    ensures ParseActions(raw).Err?
  {
    assert ParseAction(Trim(Split(raw, ',')[k])).None?;
  }

  /** What one line of the file contributes: nothing (a blank line), one
      mapping, or an error naming line `n`. */
  function ParseLine(line: string, n: nat, keysymFromName: string -> Keysym)
    : (r: Result<Option<(Keysym, seq<KeynavAction>)>, ParseError>)
    ensures r == Ok(None) <==> Trim(line) == []
    ensures r.Err? ==> r.error.line == n
    ensures r.Ok? && r.value.Some? ==> r.value.value.0 != NoSymbol
  {
    var t := Trim(line);
    if t == [] then Ok(None)
    else match FindWhitespace(t)
      case None => Err(ParseError(n, NotTwoSections))
      case Some(i) =>
        match ParseKey(Trim(t[..i]), keysymFromName)
        case Err(_) => Err(ParseError(n, SymbolNotRecognized))
        case Ok(key) =>
          match ParseActions(Trim(t[i..]))
          case Err(piece) => Err(ParseError(n, UnknownAction(piece)))
          case Ok(actions) => Ok(Some((key, actions)))
  }

  /** A nonblank line with no whitespace inside it lacks its second section. */
  lemma OneWordLineFails(line: string, n: nat, keysymFromName: string -> Keysym)
    requires Trim(line) != [] && FindWhitespace(Trim(line)).None?
    ensures ParseLine(line, n, keysymFromName) == Err(ParseError(n, NotTwoSections))
  {
  }

  /** The actions a line maps its key to are never `Move*` ones. */
  lemma LineActionsParseable(line: string, n: nat, keysymFromName: string -> Keysym)
    ensures var r := ParseLine(line, n, keysymFromName);
            r.Ok? && r.value.Some? ==> forall i :: 0 <= i < |r.value.value.1| ==> Parseable(r.value.value.1[i])
  {
  }

  /** What a line contributes. */
  type LineResult = Result<Option<(Keysym, seq<KeynavAction>)>, ParseError>

  /** The result of every line, the first one numbered `first`. */
  function ParseLines(lines: seq<string>, first: nat, keysymFromName: string -> Keysym): (rs: seq<LineResult>)
    ensures |rs| == |lines|
    ensures forall j :: 0 <= j < |lines| ==> rs[j] == ParseLine(lines[j], first + j, keysymFromName)
  {
    seq(|lines|, j requires 0 <= j < |lines| => ParseLine(lines[j], first + j, keysymFromName))
  }

  /** The line results folded into `acc` in order; the first error ends the fold. */
  function Fold(rs: seq<LineResult>, acc: map<Keysym, seq<KeynavAction>>)
    : Result<map<Keysym, seq<KeynavAction>>, ParseError>
    decreases |rs|
  {
    if rs == [] then Ok(acc)
    else match rs[0]
      case Err(e) => Err(e)
      case Ok(None) => Fold(rs[1..], acc)
      case Ok(Some(entry)) => Fold(rs[1..], acc[entry.0 := entry.1])
  }

  /** The accumulator after the first result. */
  function AfterFirst(rs: seq<LineResult>, acc: map<Keysym, seq<KeynavAction>>): map<Keysym, seq<KeynavAction>>
    requires rs != [] && rs[0].Ok?
  {
    match rs[0].value
    case None => acc
    case Some(entry) => acc[entry.0 := entry.1]
  }

  /** Result `r` maps `key`. */
  predicate MapsKey(r: LineResult, key: Keysym) {
    r.Ok? && r.value.Some? && r.value.value.0 == key
  }

  /** What `parse_config` returns for `contents`. */
  function ParseConfigSpec(contents: string, keysymFromName: string -> Keysym): Result<Config, ParseError> {
    match Fold(ParseLines(Split(contents, '\n'), 1, keysymFromName), map[])
    case Ok(m) => Ok(Config(m))
    case Err(e) => Err(e)
  }

  /** The fold succeeds exactly when every line does. */
  lemma {:induction false} FoldOkIff(rs: seq<LineResult>, acc: map<Keysym, seq<KeynavAction>>)
    ensures Fold(rs, acc).Ok? <==> forall j :: 0 <= j < |rs| ==> rs[j].Ok?
    decreases |rs|
  {
    if rs != [] && rs[0].Ok? {
      FoldOkIff(rs[1..], AfterFirst(rs, acc));
      assert forall j :: 1 <= j < |rs| ==> rs[j] == rs[1..][j - 1];
    }
  }

  /** A failed fold reports the error of its first failing line. */
  lemma {:induction false} FoldErrorIsFirst(rs: seq<LineResult>, acc: map<Keysym, seq<KeynavAction>>)
    requires Fold(rs, acc).Err?
    ensures exists k :: 0 <= k < |rs| && rs[k] == Err(Fold(rs, acc).error)
                        && forall j :: 0 <= j < k ==> rs[j].Ok?
    decreases |rs|
  {
    if rs[0].Ok? {
      var rest := rs[1..];
      FoldErrorIsFirst(rest, AfterFirst(rs, acc));
      var k :| 0 <= k < |rest| && rest[k] == Err(Fold(rest, AfterFirst(rs, acc)).error)
        && forall j :: 0 <= j < k ==> rest[j].Ok?;
      assert rs[k + 1] == rest[k];
      assert forall j :: 1 <= j < k + 1 ==> rs[j] == rest[j - 1];
    } else {
      assert rs[0] == Err(Fold(rs, acc).error);
    }
  }

  /** A key that no line maps keeps the value it had before the fold. */
  lemma {:induction false} FoldKeepsUnmapped(rs: seq<LineResult>, acc: map<Keysym, seq<KeynavAction>>, key: Keysym)
    requires Fold(rs, acc).Ok?
    requires forall j :: 0 <= j < |rs| ==> !MapsKey(rs[j], key)
    ensures (key in Fold(rs, acc).value <==> key in acc)
    ensures key in acc ==> Fold(rs, acc).value[key] == acc[key]
    decreases |rs|
  {
    if rs != [] {
      var rest := rs[1..];
      assert !MapsKey(rs[0], key);
      assert forall j :: 0 <= j < |rest| ==> rest[j] == rs[j + 1];
      FoldKeepsUnmapped(rest, AfterFirst(rs, acc), key);
    }
  }

  /** When several lines map the same key, the last of them decides its actions. */
  lemma {:induction false} FoldLastWins(rs: seq<LineResult>, acc: map<Keysym, seq<KeynavAction>>, k: nat,
                                        key: Keysym, actions: seq<KeynavAction>)
    requires Fold(rs, acc).Ok?
    requires k < |rs| && rs[k] == Ok(Some((key, actions)))
    requires forall j :: k < j < |rs| ==> !MapsKey(rs[j], key)
    ensures key in Fold(rs, acc).value && Fold(rs, acc).value[key] == actions
    decreases |rs|
  {
    FoldOkIff(rs, acc);
    var rest := rs[1..];
    assert forall j :: 0 <= j < |rest| ==> rest[j] == rs[j + 1];
    if k == 0 {
      FoldKeepsUnmapped(rest, AfterFirst(rs, acc), key);
    } else {
      FoldLastWins(rest, AfterFirst(rs, acc), k - 1, key, actions);
    }
  }

  /** Every key of the result was there before or is mapped by some line. */
  lemma FoldKeysFromLines(rs: seq<LineResult>, acc: map<Keysym, seq<KeynavAction>>, key: Keysym)
    requires Fold(rs, acc).Ok? && key in Fold(rs, acc).value && key !in acc
    ensures exists j :: 0 <= j < |rs| && MapsKey(rs[j], key)
  {
    if forall j :: 0 <= j < |rs| ==> !MapsKey(rs[j], key) {
      FoldKeepsUnmapped(rs, acc, key);
    }
  }

  /** Every action in the result is one that a line can name. */
  lemma {:induction false} FoldParseable(rs: seq<LineResult>, acc: map<Keysym, seq<KeynavAction>>)
    requires Fold(rs, acc).Ok?
    requires forall j, i :: 0 <= j < |rs| && rs[j].Ok? && rs[j].value.Some? && 0 <= i < |rs[j].value.value.1|
                            ==> Parseable(rs[j].value.value.1[i])
    requires forall k, i :: k in acc && 0 <= i < |acc[k]| ==> Parseable(acc[k][i])
    ensures forall k, i :: k in Fold(rs, acc).value && 0 <= i < |Fold(rs, acc).value[k]|
                           ==> Parseable(Fold(rs, acc).value[k][i])
    decreases |rs|
  {
    if rs != [] {
      var rest := rs[1..];
      assert forall j :: 0 <= j < |rest| ==> rest[j] == rs[j + 1];
      FoldParseable(rest, AfterFirst(rs, acc));
    }
  }

  /** A line that is empty after trimming yields neither a mapping nor an error. */
  lemma BlankLineIgnored(line: string, n: nat, keysymFromName: string -> Keysym)
    ensures ParseLine(line, n, keysymFromName) == Ok(None) <==> AllWhitespace(line)
  {
    TrimEmptyIff(line);
  }

  /** A failed parse names the first bad line by its 1-based number, blank lines counted:
      that line's result is the error and every line before it parses. */
  lemma ErrorNamesFirstBadLine(contents: string, keysymFromName: string -> Keysym)
    requires ParseConfigSpec(contents, keysymFromName).Err?
    ensures var rs, e := ParseLines(Split(contents, '\n'), 1, keysymFromName), ParseConfigSpec(contents, keysymFromName).error;
            && 1 <= e.line <= |rs|
            && rs[e.line - 1] == Err(e)
            && forall j :: 0 <= j < e.line - 1 ==> rs[j].Ok?
  {
    var rs := ParseLines(Split(contents, '\n'), 1, keysymFromName);
    FoldErrorIsFirst(rs, map[]);
  }

  /** Parsing stops at the first bad line: its error is the result, whatever follows. */
  lemma FirstBadLineIsTheError(contents: string, keysymFromName: string -> Keysym, k: nat)
    requires k < |Split(contents, '\n')|
    requires ParseLine(Split(contents, '\n')[k], k + 1, keysymFromName).Err?
    requires forall j :: 0 <= j < k ==> ParseLine(Split(contents, '\n')[j], j + 1, keysymFromName).Ok?
    ensures ParseConfigSpec(contents, keysymFromName) == Err(ParseLine(Split(contents, '\n')[k], k + 1, keysymFromName).error)
  {
    var lines := Split(contents, '\n');
    var rs := ParseLines(lines, 1, keysymFromName);
    FoldOkIff(rs, map[]);
    assert !rs[k].Ok?;
    FoldErrorIsFirst(rs, map[]);
  }

  /** A nonblank line without whitespace inside it, after good lines only, is the error,
      with its own line number. */
  lemma OneWordLineIsError(contents: string, keysymFromName: string -> Keysym, k: nat)
    requires k < |Split(contents, '\n')|
    requires var t := Trim(Split(contents, '\n')[k]);
             t != [] && forall i :: 0 <= i < |t| ==> !IsWhitespace(t[i])
    requires forall j :: 0 <= j < k ==> ParseLine(Split(contents, '\n')[j], j + 1, keysymFromName).Ok?
    ensures ParseConfigSpec(contents, keysymFromName) == Err(ParseError(k + 1, NotTwoSections))
  {
    OneWordLineFails(Split(contents, '\n')[k], k + 1, keysymFromName);
    FirstBadLineIsTheError(contents, keysymFromName, k);
  }

  /** When two lines name the same key, the later line's actions are in the result. */
  lemma LaterLineWins(contents: string, keysymFromName: string -> Keysym, k: nat, key: Keysym,
                      actions: seq<KeynavAction>)
    requires ParseConfigSpec(contents, keysymFromName).Ok?
    requires k < |Split(contents, '\n')|
    requires ParseLine(Split(contents, '\n')[k], k + 1, keysymFromName) == Ok(Some((key, actions)))
    requires forall j :: k < j < |Split(contents, '\n')| ==>
               !MapsKey(ParseLine(Split(contents, '\n')[j], j + 1, keysymFromName), key)
    ensures var m := ParseConfigSpec(contents, keysymFromName).value.mappings;
            key in m && m[key] == actions
  {
    var lines := Split(contents, '\n');
    var rs := ParseLines(lines, 1, keysymFromName);
    FoldLastWins(rs, map[], k, key, actions);
  }

  /** Every key of a parsed configuration is mapped by some line of it. */
  lemma KeysComeFromLines(contents: string, keysymFromName: string -> Keysym, key: Keysym)
    requires ParseConfigSpec(contents, keysymFromName).Ok?
    requires key in ParseConfigSpec(contents, keysymFromName).value.mappings
    ensures exists j :: 0 <= j < |Split(contents, '\n')|
                        && MapsKey(ParseLine(Split(contents, '\n')[j], j + 1, keysymFromName), key)
  {
    var lines := Split(contents, '\n');
    var rs := ParseLines(lines, 1, keysymFromName);
    FoldKeysFromLines(rs, map[], key);
    var j :| 0 <= j < |rs| && MapsKey(rs[j], key);
    assert rs[j] == ParseLine(lines[j], j + 1, keysymFromName);
  }

  /** A parsed configuration only holds actions a line can name: never a `Move*` one. */
  lemma ParsedConfigIsParseable(contents: string, keysymFromName: string -> Keysym)
    requires ParseConfigSpec(contents, keysymFromName).Ok?
    ensures var m := ParseConfigSpec(contents, keysymFromName).value.mappings;
            forall k, i :: k in m && 0 <= i < |m[k]| ==> Parseable(m[k][i])
  {
    var lines := Split(contents, '\n');
    var rs := ParseLines(lines, 1, keysymFromName);
    forall j | 0 <= j < |rs|
      ensures rs[j].Ok? && rs[j].value.Some? ==> forall i :: 0 <= i < |rs[j].value.value.1| ==> Parseable(rs[j].value.value.1[i])
    {
      LineActionsParseable(lines[j], j + 1, keysymFromName);
    }
    FoldParseable(rs, map[]);
  }

  /** So no configuration text parses to the built-in table, which binds `Move*` actions. */
  lemma DefaultConfigIsNotParseable(contents: string, keysymFromName: string -> Keysym)
    ensures ParseConfigSpec(contents, keysymFromName) != Ok(DefaultConfig())
  {
    var d := DefaultConfig();
    assert !Parseable(d.mappings[KEY_H][0]);
    if ParseConfigSpec(contents, keysymFromName) == Ok(d) {
      ParsedConfigIsParseable(contents, keysymFromName);
      assert false;
    }
  }

  /** A string with no whitespace in it. */
  predicate Word(s: string) {
    forall i :: 0 <= i < |s| ==> !IsWhitespace(s[i])
  }

  lemma WordTrimmed(s: string)
    requires Word(s)
    ensures Trim(s) == s
  {
  }

  /** The names of `actions`, in order. */
  function ActionNames(actions: seq<KeynavAction>): (names: seq<string>)
    requires forall i :: 0 <= i < |actions| ==> Parseable(actions[i])
    ensures |names| == |actions|
  {
    seq(|actions|, i requires 0 <= i < |actions| => ActionName(actions[i]))
  }

  /** A configuration line as it is written: key name, one space, the action names joined by ','. */
  function FormatLine(name: string, actions: seq<KeynavAction>): string
    requires |actions| >= 1 && forall i :: 0 <= i < |actions| ==> Parseable(actions[i])
  {
    name + " " + Join(ActionNames(actions), ',')
  }

  lemma ActionNameIsWord(a: KeynavAction)
    requires Parseable(a)
    ensures Word(ActionName(a)) && ActionName(a) != [] && ',' !in ActionName(a)
  {
  }

  /** A list of action names joined by ',' parses back to the actions. */
  lemma ActionListRoundTrip(actions: seq<KeynavAction>)
    requires |actions| >= 1 && forall i :: 0 <= i < |actions| ==> Parseable(actions[i])
    ensures ParseActions(Join(ActionNames(actions), ',')) == Ok(actions)
  {
    var names := ActionNames(actions);
    forall i | 0 <= i < |names|
      ensures ',' !in names[i] && ParseAction(Trim(names[i])) == Some(actions[i])
    {
      ActionNameIsWord(actions[i]);
      WordTrimmed(names[i]);
      ParseActionName(actions[i]);
    }
    SplitJoin(names, ',');
    var r := ParseActionList(names);
    assert r.Ok?;
    assert forall i :: 0 <= i < |actions| ==> Some(r.value[i]) == Some(actions[i]);
    assert r.value == actions;
  }

  /** In a word, a space and a rest, the first whitespace is that space. */
  lemma FindWhitespaceAfterWord(name: string, rest: string)
    requires Word(name)
    ensures FindWhitespace(name + " " + rest) == Some(|name|)
  {
    var line := name + " " + rest;
    assert line[|name|] == ' ';
    assert forall j :: 0 <= j < |name| ==> line[j] == name[j];
  }

  /** The two halves of a formatted line, as `parse_config` cuts them. */
  lemma FormatLineHalves(name: string, rest: string)
    requires name != [] && Word(name) && rest != [] && !IsWhitespace(rest[0]) && !IsWhitespace(rest[|rest| - 1])
    ensures var line := name + " " + rest;
            && Trim(line) == line
            && Trim(line[..|name|]) == name
            && Trim(line[|name|..]) == rest
  {
    var line := name + " " + rest;
    assert line[0] == name[0] && line[|line| - 1] == rest[|rest| - 1];
    assert line[..|name|] == name;
    WordTrimmed(name);
    assert line[|name|..] == " " + rest;
    assert (" " + rest)[1..] == rest;
  }

  /** A line written by `FormatLine` parses back to its mapping, whatever its line number. */
  lemma FormatLineRoundTrip(name: string, actions: seq<KeynavAction>, n: nat,
                            keysymFromName: string -> Keysym)
    requires name != [] && Word(name) && keysymFromName(name) != NoSymbol
    requires |actions| >= 1 && forall i :: 0 <= i < |actions| ==> Parseable(actions[i])
    ensures ParseLine(FormatLine(name, actions), n, keysymFromName) == Ok(Some((keysymFromName(name), actions)))
  {
    var names := ActionNames(actions);
    var rest := Join(names, ',');
    ActionNameIsWord(actions[0]);
    ActionNameIsWord(actions[|actions| - 1]);
    JoinFirst(names, ',');
    JoinLast(names, ',');
    FormatLineHalves(name, rest);
    FindWhitespaceAfterWord(name, rest);
    ActionListRoundTrip(actions);
  }

  /** One step of the fold at line index `i`. */
  lemma FoldAt(rs: seq<LineResult>, acc: map<Keysym, seq<KeynavAction>>, i: nat)
    requires i < |rs| && rs[i].Ok?
    ensures Fold(rs[i..], acc) == Fold(rs[i + 1..], AfterFirst(rs[i..], acc))
  {
    assert rs[i..][1..] == rs[i + 1..];
  }

  /** One line of a configuration as written: blank, or a key name with its actions. */
  type Entry = Option<(string, seq<KeynavAction>)>

  /** An entry that `FormatLine` can write. */
  predicate Formattable(e: Entry) {
    e.Some? ==> |e.value.1| >= 1 && forall i :: 0 <= i < |e.value.1| ==> Parseable(e.value.1[i])
  }

  /** A writable entry whose key name is one word naming a key symbol. */
  predicate Writable(e: Entry, keysymFromName: string -> Keysym) {
    && Formattable(e)
    && (e.Some? ==> e.value.0 != [] && Word(e.value.0) && keysymFromName(e.value.0) != NoSymbol)
  }

  function EntryLine(e: Entry): string
    requires Formattable(e)
  {
    match e
    case None => ""
    case Some((name, actions)) => FormatLine(name, actions)
  }

  function EntryResult(e: Entry, keysymFromName: string -> Keysym): LineResult {
    match e
    case None => Ok(None)
    case Some((name, actions)) => Ok(Some((keysymFromName(name), actions)))
  }

  /** The text of a configuration written entry by entry, one line each. */
  function EntriesText(es: seq<Entry>): string
    requires |es| >= 1 && forall j :: 0 <= j < |es| ==> Formattable(es[j])
  {
    Join(seq(|es|, j requires 0 <= j < |es| && Formattable(es[j]) => EntryLine(es[j])), '\n')
  }

  /** A formatted line is one line: it holds no newline. */
  lemma FormatLineOneLine(name: string, actions: seq<KeynavAction>)
    requires Word(name)
    requires |actions| >= 1 && forall i :: 0 <= i < |actions| ==> Parseable(actions[i])
    ensures '\n' !in FormatLine(name, actions)
  {
    var names := ActionNames(actions);
    forall i | 0 <= i < |names|
      ensures '\n' !in names[i]
    {
      ActionNameIsWord(actions[i]);
      assert IsWhitespace('\n');
    }
    JoinAvoids(names, ',', '\n');
    assert IsWhitespace('\n');
  }

  lemma EntryLineRoundTrip(e: Entry, n: nat, keysymFromName: string -> Keysym)
    requires Writable(e, keysymFromName)
    ensures '\n' !in EntryLine(e)
    ensures ParseLine(EntryLine(e), n, keysymFromName) == EntryResult(e, keysymFromName)
  {
    match e
    case None =>
    case Some((name, actions)) =>
      FormatLineRoundTrip(name, actions, n, keysymFromName);
      FormatLineOneLine(name, actions);
  }

  /** Writing entries out as text and parsing it back gives the fold of the entries. */
  lemma EntriesRoundTrip(es: seq<Entry>, keysymFromName: string -> Keysym)
    requires |es| >= 1 && forall j :: 0 <= j < |es| ==> Formattable(es[j])
    requires forall j :: 0 <= j < |es| ==> Writable(es[j], keysymFromName)
    ensures var rs := seq(|es|, j requires 0 <= j < |es| => EntryResult(es[j], keysymFromName));
            ParseConfigSpec(EntriesText(es), keysymFromName)
            == match Fold(rs, map[]) case Ok(m) => Ok(Config(m)) case Err(e) => Err(e)
  {
    var lines := seq(|es|, j requires 0 <= j < |es| && Formattable(es[j]) => EntryLine(es[j]));
    var rs := seq(|es|, j requires 0 <= j < |es| => EntryResult(es[j], keysymFromName));
    forall j | 0 <= j < |es|
      ensures '\n' !in lines[j] && ParseLine(lines[j], j + 1, keysymFromName) == rs[j]
    {
      EntryLineRoundTrip(es[j], j + 1, keysymFromName);
    }
    SplitJoin(lines, '\n');
    assert ParseLines(lines, 1, keysymFromName) == rs;
  }

  /** The lines of the configuration text of the source's unit test, as entries; the
      fifth line is blank. */
  function SampleEntries(): seq<Entry> {
    [Some(("h", [NarrowRight])), Some(("j", [NarrowDown])), Some(("k", [NarrowUp])), Some(("l", [NarrowRight])),
     None, Some(("Escape", [Exit])), Some(("Return", [Click, Exit]))]
  }

  /** The symbols the sample's key names stand for. */
  predicate SampleSymbols(keysymFromName: string -> Keysym) {
    && keysymFromName("h") == KEY_h && keysymFromName("j") == KEY_j
    && keysymFromName("k") == KEY_k && keysymFromName("l") == KEY_l
    && keysymFromName("Escape") == KEY_Escape && keysymFromName("Return") == KEY_Return
  }

  /** What the test expects: six mappings. */
  function SampleMappings(): map<Keysym, seq<KeynavAction>> {
    map[KEY_h := [NarrowRight], KEY_j := [NarrowDown], KEY_k := [NarrowUp],
        KEY_l := [NarrowRight], KEY_Escape := [Exit], KEY_Return := [Click, Exit]]
  }

  lemma SampleWritable(keysymFromName: string -> Keysym)
    requires SampleSymbols(keysymFromName)
    ensures forall j :: 0 <= j < |SampleEntries()| ==> Writable(SampleEntries()[j], keysymFromName)
  {
    assert Word("Escape") && Word("Return");
  }

  /** What each line of the sample contributes, given the key names' symbols. */
  function SampleResults(): seq<LineResult> {
    [Ok(Some((KEY_h, [NarrowRight]))), Ok(Some((KEY_j, [NarrowDown]))), Ok(Some((KEY_k, [NarrowUp]))),
     Ok(Some((KEY_l, [NarrowRight]))), Ok(None), Ok(Some((KEY_Escape, [Exit]))),
     Ok(Some((KEY_Return, [Click, Exit])))]
  }

  lemma SampleFold()
    ensures Fold(SampleResults(), map[]) == Ok(SampleMappings())
  {
    var rs := SampleResults();
    var m0: map<Keysym, seq<KeynavAction>> := map[];
    var m1 := m0[KEY_h := [NarrowRight]];
    var m2 := m1[KEY_j := [NarrowDown]];
    var m3 := m2[KEY_k := [NarrowUp]];
    var m4 := m3[KEY_l := [NarrowRight]];
    var m6 := m4[KEY_Escape := [Exit]];
    FoldAt(rs, m0, 0);
    FoldAt(rs, m1, 1);
    FoldAt(rs, m2, 2);
    FoldAt(rs, m3, 3);
    FoldAt(rs, m4, 4);
    FoldAt(rs, m4, 5);
    FoldAt(rs, m6, 6);
    assert rs[7..] == [];
  }

  lemma SampleResultsOf(keysymFromName: string -> Keysym)
    requires SampleSymbols(keysymFromName)
    ensures var es := SampleEntries();
            seq(|es|, j requires 0 <= j < |es| => EntryResult(es[j], keysymFromName)) == SampleResults()
  {
    var es := SampleEntries();
    var rs := seq(|es|, j requires 0 <= j < |es| => EntryResult(es[j], keysymFromName));
    assert forall j :: 0 <= j < 7 ==> rs[j] == SampleResults()[j];
  }

  /** How one sample entry is written: a single action's name, or "click,exit". */
  lemma SampleLine(e: Entry, line: string)
    requires Formattable(e)
    requires e.Some? ==> |e.value.1| == 1 || e.value.1 == [Click, Exit]
    requires e.Some? && |e.value.1| == 1 ==> line == e.value.0 + " " + ActionName(e.value.1[0])
    requires e.Some? && |e.value.1| == 2 ==> line == e.value.0 + " click,exit"
    requires e.None? ==> line == ""
    ensures EntryLine(e) == line
  {
    if e.Some? {
      var names := ActionNames(e.value.1);
      if |e.value.1| == 1 {
        assert names == [ActionName(e.value.1[0])];
      } else {
        assert names == ["click", "exit"];
        assert Join(names, ',') == "click" + [','] + "exit";
      }
    }
  }

  /** The lines of the unit test's configuration text, as written there. */
  function TestLines(): seq<string> {
    ["h narrow_right", "j narrow_down", "k narrow_up", "l narrow_right", "", "Escape exit", "Return click,exit"]
  }

  /** The first four sample entries, written out. */
  lemma SampleLinesHead()
    ensures EntryLine(SampleEntries()[0]) == "h narrow_right" && EntryLine(SampleEntries()[1]) == "j narrow_down"
    ensures EntryLine(SampleEntries()[2]) == "k narrow_up" && EntryLine(SampleEntries()[3]) == "l narrow_right"
  {
    var es := SampleEntries();
    SampleLine(es[0], "h narrow_right");
    SampleLine(es[1], "j narrow_down");
    SampleLine(es[2], "k narrow_up");
    SampleLine(es[3], "l narrow_right");
  }

  /** The last three sample entries, written out. */
  lemma SampleLinesTail()
    ensures EntryLine(SampleEntries()[4]) == "" && EntryLine(SampleEntries()[5]) == "Escape exit"
    ensures EntryLine(SampleEntries()[6]) == "Return click,exit"
  {
    var es := SampleEntries();
    SampleLine(es[4], "");
    SampleLine(es[5], "Escape exit");
    SampleLine(es[6], "Return click,exit");
  }

  /** The sample's entries are written as exactly the unit test's lines. */
  lemma SampleLinesAreTestLines()
    ensures var es := SampleEntries();
            seq(|es|, j requires 0 <= j < |es| && Formattable(es[j]) => EntryLine(es[j])) == TestLines()
  {
    SampleLinesHead();
    SampleLinesTail();
  }

  /** The sample's text is the unit test's lines joined by newlines. */
  lemma SampleTextIsTestText()
    ensures EntriesText(SampleEntries()) == Join(TestLines(), '\n')
  {
    SampleLinesAreTestLines();
  }

  /** The source's unit test: its text, the seven test lines joined by newlines, parses to
      exactly the six mappings it lists. */
  lemma BasicParse(keysymFromName: string -> Keysym)
    requires SampleSymbols(keysymFromName)
    ensures ParseConfigSpec(Join(TestLines(), '\n'), keysymFromName) == Ok(Config(SampleMappings()))
  {
    SampleTextIsTestText();
    SampleWritable(keysymFromName);
    EntriesRoundTrip(SampleEntries(), keysymFromName);
    SampleResultsOf(keysymFromName);
    SampleFold();
  }

  /** `parse_config`: a loop over the lines with a line counter and a map updated in place. */
  method ParseConfig(contents: string, keysymFromName: string -> Keysym) returns (r: Result<Config, ParseError>)
    ensures r == ParseConfigSpec(contents, keysymFromName)
  {
    var mappings: map<Keysym, seq<KeynavAction>> := map[];
    var lineNum := 1;
    var lines := Split(contents, '\n');
    ghost var rs := ParseLines(lines, 1, keysymFromName);
    for idx := 0 to |lines|
      invariant lineNum == idx + 1
      invariant Fold(rs[idx..], mappings) == Fold(rs, map[])
    {
      assert rs[idx..][1..] == rs[idx + 1..];
      var line := Trim(lines[idx]);
      if line != [] {
        match FindWhitespace(line) {
          case None =>
            return Err(ParseError(lineNum, NotTwoSections));
          case Some(i) =>
            var key := ParseKey(Trim(line[..i]), keysymFromName);
            if key.Err? {
              return Err(ParseError(lineNum, SymbolNotRecognized));
            }
            var actions := ParseActions(Trim(line[i..]));
            if actions.Err? {
              return Err(ParseError(lineNum, UnknownAction(actions.error)));
            }
            mappings := mappings[key.value := actions.value];
        }
      }
      lineNum := lineNum + 1;
    }
    return Ok(Config(mappings));
  }
}
