/** Resolving the raw configuration against a keymap (the `Keymap` arm of
    `handle_keyboard_event` in src/app.rs): every combo's tokens become a modifier mask
    and exactly one key symbol, and the combos' actions are stored under them. */
module Resolve {
  import opened Wrappers
  import opened Keys
  import opened Actions

  /** `keymap.mod_get_index(name)`: the modifier's index, or `None` for `MOD_INVALID`. */
  type ModLookup = string -> Option<ModIndex>

  /** `keysym_from_name(name, KEYSYM_NO_FLAGS)`: `NoSymbol` for an unknown name. */
  type SymLookup = string -> Keysym

  /** Why resolution panics: a second key name, a key name the keymap does not know,
      or a combo without a key name. */
  datatype ResolveError = SecondKey(token: string) | KeyNotMapped(token: string) | NoKeysym(combo: Combo)

  type Partial = (ModMask, Keysym)

  /** One pass of the token loop: a modifier adds its bit; otherwise the token must be
      the first key name and must name a key. */
  function Absorb(acc: Partial, t: string, mods: ModLookup, syms: SymLookup): Result<Partial, ResolveError> {
    match mods(t)
    case Some(i) => Ok((acc.0 | Bit(i), acc.1))
    case None =>
      if acc.1 != NoSymbol then Err(SecondKey(t))
      else if syms(t) == NoSymbol then Err(KeyNotMapped(t))
      else Ok((acc.0, syms(t)))
  }

  /** The token loop over `ts`, from mask 0 and no key. */
  function Tokens(ts: seq<string>, mods: ModLookup, syms: SymLookup): Result<Partial, ResolveError>
    decreases |ts|
  {
    if ts == [] then Ok((0, NoSymbol))
    else
      match Tokens(ts[..|ts| - 1], mods, syms)
      case Err(e) => Err(e)
      case Ok(acc) => Absorb(acc, ts[|ts| - 1], mods, syms)
  }

  /** A combo's chord, or why there is none. */
  function ResolveCombo(c: Combo, mods: ModLookup, syms: SymLookup): Result<Chord, ResolveError> {
    match Tokens(c, mods, syms)
    case Err(e) => Err(e)
    case Ok(acc) => if acc.1 == NoSymbol then Err(NoKeysym(c)) else Ok(acc)
  }

  // A reference definition: the key names of a combo and the union of its modifiers.

  /** The tokens that are not modifiers, in order. */
  function KeyNames(ts: seq<string>, mods: ModLookup): (r: seq<string>)
    ensures |r| <= |ts|
    ensures forall i :: 0 <= i < |r| ==> r[i] in ts && mods(r[i]).None?
    ensures r == [] <==> forall j :: 0 <= j < |ts| ==> mods(ts[j]).Some?
    decreases |ts|
  {
    if ts == [] then []
    else KeyNames(ts[..|ts| - 1], mods) + (if mods(ts[|ts| - 1]).None? then [ts[|ts| - 1]] else [])
  }

  /** The bits of all modifier tokens. */
  function ModBits(ts: seq<string>, mods: ModLookup): ModMask
    decreases |ts|
  {
    if ts == [] then 0
    else
      var m := ModBits(ts[..|ts| - 1], mods);
      match mods(ts[|ts| - 1])
      case Some(i) => m | Bit(i)
      case None => m
  }

  /** What the token loop has computed after any prefix, by the reference definition:
      an error at the first unknown key name, an error at the second key name, and
      otherwise all modifier bits with the one key's symbol, if any. */
  lemma {:induction false} TokensMeaning(ts: seq<string>, mods: ModLookup, syms: SymLookup)
    ensures var ks := KeyNames(ts, mods);
      && (|ks| == 0 ==> Tokens(ts, mods, syms) == Ok((ModBits(ts, mods), NoSymbol)))
      && (|ks| >= 1 && syms(ks[0]) == NoSymbol ==> Tokens(ts, mods, syms) == Err(KeyNotMapped(ks[0])))
      && (|ks| == 1 && syms(ks[0]) != NoSymbol ==> Tokens(ts, mods, syms) == Ok((ModBits(ts, mods), syms(ks[0]))))
      && (|ks| >= 2 && syms(ks[0]) != NoSymbol ==> Tokens(ts, mods, syms) == Err(SecondKey(ks[1])))
    decreases |ts|
  {
    if ts != [] {
      var p := ts[..|ts| - 1];
      TokensMeaning(p, mods, syms);
      var kp := KeyNames(p, mods);
      if |kp| >= 1 {
        assert KeyNames(ts, mods)[0] == kp[0];
      }
      if |kp| >= 2 {
        assert KeyNames(ts, mods)[1] == kp[1];
      }
    }
  }

  /** A combo resolves exactly when it names one key and the keymap knows it; the
      chord is then the union of its modifiers' bits with that key's symbol. */
  lemma ResolveComboIff(c: Combo, mods: ModLookup, syms: SymLookup)
    ensures var ks := KeyNames(c, mods);
      && (ResolveCombo(c, mods, syms).Ok? <==> |ks| == 1 && syms(ks[0]) != NoSymbol)
      && (ResolveCombo(c, mods, syms).Ok? ==> ResolveCombo(c, mods, syms).value == (ModBits(c, mods), syms(ks[0])))
  {
    TokensMeaning(c, mods, syms);
  }

  /** The panics, case by case: no key name, an unknown first key name, and a second
      key name after a known one. */
  lemma ResolveComboErrors(c: Combo, mods: ModLookup, syms: SymLookup)
    ensures var ks := KeyNames(c, mods);
      && (|ks| == 0 ==> ResolveCombo(c, mods, syms) == Err(NoKeysym(c)))
      && (|ks| >= 1 && syms(ks[0]) == NoSymbol ==> ResolveCombo(c, mods, syms) == Err(KeyNotMapped(ks[0])))
      && (|ks| >= 2 && syms(ks[0]) != NoSymbol ==> ResolveCombo(c, mods, syms) == Err(SecondKey(ks[1])))
  {
    TokensMeaning(c, mods, syms);
  }

  lemma BitOr(m: ModMask, i: ModIndex, j: ModIndex)
    ensures (m | Bit(j)) & Bit(i) != 0 <==> m & Bit(i) != 0 || i == j
  {
  }

  lemma NoBits(i: ModIndex)
    ensures (0 as ModMask) & Bit(i) == 0
  {
  }

  /** Bit `i` of the mask is set exactly when some token of the combo is modifier `i`. */
  lemma {:induction false} ModBitsHas(ts: seq<string>, mods: ModLookup, i: ModIndex)
    ensures ModBits(ts, mods) & Bit(i) != 0 <==> exists j :: 0 <= j < |ts| && mods(ts[j]) == Some(i)
    decreases |ts|
  {
    if ts == [] {
      NoBits(i);
    } else {
      var p := ts[..|ts| - 1];
      ModBitsHas(p, mods, i);
      assert forall j :: 0 <= j < |p| ==> p[j] == ts[j];
      match mods(ts[|ts| - 1])
      case Some(k) => BitOr(ModBits(p, mods), i, k);
      case None =>
    }
  }

  /** The resolved mappings of entries in order: a later combo with the same chord
      replaces an earlier one; the first combo that does not resolve is the error. */
  function ResolveAll(raw: seq<(Combo, seq<KeynavAction>)>, mods: ModLookup, syms: SymLookup)
    : Result<map<Chord, seq<KeynavAction>>, ResolveError>
    decreases |raw|
  {
    if raw == [] then Ok(map[])
    else
      match ResolveAll(raw[..|raw| - 1], mods, syms)
      case Err(e) => Err(e)
      case Ok(m) =>
        var last := raw[|raw| - 1];
        match ResolveCombo(last.0, mods, syms)
        case Err(e) => Err(e)
        case Ok(ch) => Ok(m[ch := last.1])
  }

  /** Resolution succeeds exactly when every combo resolves. */
  lemma {:induction false} ResolveAllOkIff(raw: seq<(Combo, seq<KeynavAction>)>, mods: ModLookup, syms: SymLookup)
    ensures ResolveAll(raw, mods, syms).Ok? <==> forall i :: 0 <= i < |raw| ==> ResolveCombo(raw[i].0, mods, syms).Ok?
    decreases |raw|
  {
    if raw != [] {
      var p := raw[..|raw| - 1];
      ResolveAllOkIff(p, mods, syms);
      assert forall i :: 0 <= i < |p| ==> p[i] == raw[i];
    }
  }

  /** The error is the first failing combo's. */
  lemma {:induction false} ResolveAllFirstError(raw: seq<(Combo, seq<KeynavAction>)>, mods: ModLookup, syms: SymLookup,
                                                k: nat)
    requires k < |raw| && ResolveCombo(raw[k].0, mods, syms).Err?
    requires forall i :: 0 <= i < k ==> ResolveCombo(raw[i].0, mods, syms).Ok?
    ensures ResolveAll(raw, mods, syms) == Err(ResolveCombo(raw[k].0, mods, syms).error)
    decreases |raw|
  {
    var p := raw[..|raw| - 1];
    if k < |raw| - 1 {
      assert forall i :: 0 <= i <= k ==> p[i] == raw[i];
      ResolveAllFirstError(p, mods, syms, k);
    } else {
      assert forall i :: 0 <= i < |p| ==> p[i] == raw[i];
      ResolveAllOkIff(p, mods, syms);
    }
  }

  /** Each chord of the result comes from some combo, and holds the actions of the
      last combo that resolves to it. */
  lemma {:induction false} ResolveAllLastWins(raw: seq<(Combo, seq<KeynavAction>)>, mods: ModLookup, syms: SymLookup,
                                              ch: Chord)
    requires ResolveAll(raw, mods, syms).Ok?
    ensures ch in ResolveAll(raw, mods, syms).value <==>
              exists i :: 0 <= i < |raw| && ResolveCombo(raw[i].0, mods, syms) == Ok(ch)
    ensures forall i :: 0 <= i < |raw| && ResolveCombo(raw[i].0, mods, syms) == Ok(ch)
                        && (forall j :: i < j < |raw| ==> ResolveCombo(raw[j].0, mods, syms) != Ok(ch))
                        ==> ResolveAll(raw, mods, syms).value[ch] == raw[i].1
    decreases |raw|
  {
    if raw != [] {
      var p := raw[..|raw| - 1];
      ResolveAllLastWins(p, mods, syms, ch);
      assert forall i :: 0 <= i < |p| ==> p[i] == raw[i];
    }
  }

  /** Once the token loop has failed on a prefix, the failure is its result. */
  lemma {:induction false} TokensErrorSticks(ts: seq<string>, k: nat, mods: ModLookup, syms: SymLookup)
    requires k <= |ts| && Tokens(ts[..k], mods, syms).Err?
    ensures Tokens(ts, mods, syms) == Tokens(ts[..k], mods, syms)
    decreases |ts| - k
  {
    if k < |ts| {
      assert ts[..k + 1][..k] == ts[..k];
      TokensErrorSticks(ts, k + 1, mods, syms);
    } else {
      assert ts[..k] == ts;
    }
  }

  lemma TokensStep(ts: seq<string>, j: nat, mods: ModLookup, syms: SymLookup)
    requires j < |ts| && Tokens(ts[..j], mods, syms).Ok?
    ensures Tokens(ts[..j + 1], mods, syms) == Absorb(Tokens(ts[..j], mods, syms).value, ts[j], mods, syms)
  {
    assert ts[..j + 1][..j] == ts[..j];
  }

  /** The token loop of one raw entry: the mask and the key symbol start empty, each
      token is absorbed in turn, and the first panic ends the loop with its cause. */
  method ResolveTokens(combo: Combo, mods: ModLookup, syms: SymLookup) returns (r: Result<Chord, ResolveError>)
    ensures r == ResolveCombo(combo, mods, syms)
  {
    var modmask: ModMask := 0;
    var keysym := NoSymbol;
    for j := 0 to |combo|
      invariant Tokens(combo[..j], mods, syms) == Ok((modmask, keysym))
    {
      TokensStep(combo, j, mods, syms);
      var component := combo[j];
      var index := mods(component);
      if index.Some? {
        modmask := modmask | Bit(index.value);
      } else if keysym != NoSymbol {
        TokensErrorSticks(combo, j + 1, mods, syms);
        return Err(SecondKey(component));
      } else {
        keysym := syms(component);
        if keysym == NoSymbol {
          TokensErrorSticks(combo, j + 1, mods, syms);
          return Err(KeyNotMapped(component));
        }
      }
    }
    assert combo[..|combo|] == combo;
    if keysym == NoSymbol {
      return Err(NoKeysym(combo));
    }
    return Ok((modmask, keysym));
  }

  /** The outer loop of the `Keymap` arm: each raw entry's combo is resolved and its
      actions inserted under the chord. The first panic ends resolution with its cause. */
  method ResolveMappings(raw: RawConfig, mods: ModLookup, syms: SymLookup) returns (r: Result<Config, ResolveError>)
    ensures r.Ok? <==> ResolveAll(raw.mappings, mods, syms).Ok?
    ensures r.Ok? ==> r.value.mappings == ResolveAll(raw.mappings, mods, syms).value
    ensures r.Err? ==> r.error == ResolveAll(raw.mappings, mods, syms).error
  {
    var entries := raw.mappings;
    var mappings: map<Chord, seq<KeynavAction>> := map[];
    for i := 0 to |entries|
      invariant ResolveAll(entries[..i], mods, syms) == Ok(mappings)
    {
      var chord := ResolveTokens(entries[i].0, mods, syms);
      if chord.Err? {
        PrefixError(entries, i, mods, syms, chord);
        return Err(chord.error);
      }
      assert entries[..i + 1][..i] == entries[..i];
      mappings := mappings[chord.value := entries[i].1];
    }
    assert entries[..|entries|] == entries;
    r := Ok(Config(mappings));
  }

  /** An error at entry `i`, after the entries before it resolved, is the whole result. */
  lemma PrefixError(entries: seq<(Combo, seq<KeynavAction>)>, i: nat, mods: ModLookup, syms: SymLookup,
                    e: Result<Chord, ResolveError>)
    requires i < |entries| && ResolveAll(entries[..i], mods, syms).Ok?
    requires e.Err? && ResolveCombo(entries[i].0, mods, syms) == e
    ensures ResolveAll(entries, mods, syms) == Err(e.error)
  {
    ResolveAllOkIff(entries[..i], mods, syms);
    forall j | 0 <= j < i
      ensures ResolveCombo(entries[j].0, mods, syms).Ok?
    {
      assert entries[..i][j] == entries[j];
    }
    ResolveAllFirstError(entries, mods, syms, i);
  }
}
