/** Key symbols and modifier masks as xkbcommon defines them. */
module Keys {
  import opened Numeric

  type Keysym = u32

  /** xkb's `KEY_NoSymbol`: what `keysym_from_name` returns for an unknown name. */
  const NoSymbol: Keysym := 0

  // Key symbols named by the built-in configuration and the parser's test.
  const KEY_h: Keysym := 0x68
  const KEY_j: Keysym := 0x6a
  const KEY_k: Keysym := 0x6b
  const KEY_l: Keysym := 0x6c
  const KEY_H: Keysym := 0x48
  const KEY_J: Keysym := 0x4a
  const KEY_K: Keysym := 0x4b
  const KEY_L: Keysym := 0x4c
  const KEY_semicolon: Keysym := 0x3b
  const KEY_Return: Keysym := 0xff0d
  const KEY_Escape: Keysym := 0xff1b

  /** A valid modifier index of a keymap (xkb has at most 32 modifiers). */
  type ModIndex = i: int | 0 <= i < 32

  type ModMask = bv32

  /** The mask with only the bit of modifier `i` set (`1 << i`). */
  function Bit(i: ModIndex): (m: ModMask)
    ensures m != 0
  {
    1 << i
  }
}
