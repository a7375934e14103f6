/** The US-QWERTY character map used by every text path (src/types.rs). */
module Typing {
  import opened Bytes

  const LSHIFT: byte := 2

  datatype Stroke = Stroke(scancode: byte, mods: byte)

  const SHIFTED_DIGITS := ['!', '@', '#', '$', '%', '^', '&', '*', '(', ')']

  /** The symbol keys with their plain and shifted faces. */
  const SYMBOL_KEYS: seq<(char, char, byte)> :=
    [('-', '_', 0x2D), ('=', '+', 0x2E), ('[', '{', 0x2F), (']', '}', 0x30), ('\\', '|', 0x31), (';', ':', 0x33),
     ('\'', '"', 0x34), ('`', '~', 0x35), (',', '<', 0x36), ('.', '>', 0x37), ('/', '?', 0x38)]

  function Symbol(c: char, i: nat): Option<Stroke>
    requires i <= |SYMBOL_KEYS|
    decreases |SYMBOL_KEYS| - i
  {
    if i == |SYMBOL_KEYS| then None
    else if c == SYMBOL_KEYS[i].0 then Some(Stroke(SYMBOL_KEYS[i].2, 0))
    else if c == SYMBOL_KEYS[i].1 then Some(Stroke(SYMBOL_KEYS[i].2, LSHIFT))
    else Symbol(c, i + 1)
  }

  function ShiftedDigit(c: char, i: nat): Option<Stroke>
    requires i <= 10
    decreases 10 - i
  {
    if i == 10 then None
    else if c == SHIFTED_DIGITS[i] then Some(Stroke(0x1E + i, LSHIFT))
    else ShiftedDigit(c, i + 1)
  }

  /** `Scancode::try_from_char`: the key and the modifiers for a character. */
  function StrokeOf(c: char): Option<Stroke> {
    if 'a' <= c <= 'z' then Some(Stroke(c as int - 'a' as int + 0x04, 0))
    else if 'A' <= c <= 'Z' then Some(Stroke(c as int - 'A' as int + 0x04, LSHIFT))
    else if '1' <= c <= '9' then Some(Stroke(c as int - '1' as int + 0x1E, 0))
    else if c == '0' then Some(Stroke(0x27, 0))
    else if c == ' ' then Some(Stroke(0x2C, 0))
    else if c == '\n' then Some(Stroke(0x28, 0))
    else if c == '\t' then Some(Stroke(0x2B, 0))
    else if c == '\U{0008}' then Some(Stroke(0x2A, 0))
    else if c == '\U{001b}' then Some(Stroke(0x29, 0))
    else
      match ShiftedDigit(c, 0)
      case Some(s) => Some(s)
      case None => Symbol(c, 0)
  }

  // Reading strokes back -----------------------------------------------------------------

  function SymbolFace(s: Stroke, i: nat): Option<char>
    requires i <= |SYMBOL_KEYS|
    decreases |SYMBOL_KEYS| - i
  {
    if i == |SYMBOL_KEYS| then None
    else if s.scancode == SYMBOL_KEYS[i].2 then
      if s.mods == 0 then Some(SYMBOL_KEYS[i].0) else Some(SYMBOL_KEYS[i].1)
    else SymbolFace(s, i + 1)
  }

  /** What a US-layout host types for a stroke. */
  function CharOf(s: Stroke): Option<char> {
    if s.mods != 0 && s.mods != LSHIFT then None
    else if 0x04 <= s.scancode <= 0x1D then
      var base := if s.mods == 0 then 'a' as int else 'A' as int;
      Some((base + s.scancode - 0x04) as char)
    else if 0x1E <= s.scancode <= 0x27 then
      var i := s.scancode - 0x1E;
      if s.mods == LSHIFT then Some(SHIFTED_DIGITS[i])
      else if i == 9 then Some('0')
      else Some(('1' as int + i) as char)
    else if s.mods == 0 && s.scancode == 0x2C then Some(' ')
    else if s.mods == 0 && s.scancode == 0x28 then Some('\n')
    else if s.mods == 0 && s.scancode == 0x2B then Some('\t')
    else if s.mods == 0 && s.scancode == 0x2A then Some('\U{0008}')
    else if s.mods == 0 && s.scancode == 0x29 then Some('\U{001b}')
    else SymbolFace(s, 0)
  }

  lemma {:induction false} SymbolRoundTrip(c: char, i: nat)
    requires i <= |SYMBOL_KEYS|
    ensures Symbol(c, i).Some? ==>
              && Symbol(c, i).value.mods in {0, LSHIFT}
              && 0x2D <= Symbol(c, i).value.scancode <= 0x38
              && SymbolFace(Symbol(c, i).value, i) == Some(c)
    ensures Symbol(c, i).Some? ==>
              exists j :: i <= j < |SYMBOL_KEYS| && SYMBOL_KEYS[j].2 == Symbol(c, i).value.scancode
    decreases |SYMBOL_KEYS| - i
  {
    if i < |SYMBOL_KEYS| {
      SymbolRoundTrip(c, i + 1);
    }
  }

  lemma {:induction false} ShiftedDigitRoundTrip(c: char, i: nat)
    requires i <= 10
    ensures ShiftedDigit(c, i).Some? ==>
              && ShiftedDigit(c, i).value.mods == LSHIFT
              && 0x1E <= ShiftedDigit(c, i).value.scancode <= 0x27
              && SHIFTED_DIGITS[ShiftedDigit(c, i).value.scancode - 0x1E] == c
    decreases 10 - i
  {
    if i < 10 {
      ShiftedDigitRoundTrip(c, i + 1);
    }
  }

  /** Text is recoverable: a supported character is the one its stroke types. */
  lemma StrokeRoundTrip(c: char)
    requires StrokeOf(c).Some?
    ensures CharOf(StrokeOf(c).value) == Some(c)
  {
    if Plain(c) {
      PlainRoundTrip(c);
    } else {
      hide Symbol, ShiftedDigit, SymbolFace;
      ShiftedDigitRoundTrip(c, 0);
      SymbolRoundTrip(c, 0);
    }
  }

  /** Characters with a branch of their own. */
  predicate Plain(c: char) {
    'a' <= c <= 'z' || 'A' <= c <= 'Z' || '0' <= c <= '9' || c in {' ', '\n', '\t', '\U{0008}', '\U{001b}'}
  }

  lemma PlainRoundTrip(c: char)
    requires Plain(c)
    ensures StrokeOf(c).Some? && CharOf(StrokeOf(c).value) == Some(c)
  {
    hide Symbol, ShiftedDigit, SymbolFace;
  }

  /** Exactly the printable ASCII characters can be typed, and newline, tab, backspace and escape. */
  lemma SupportedIff(c: char)
    ensures StrokeOf(c).Some? <==> ' ' <= c <= '~' || c in {'\n', '\t', '\U{0008}', '\U{001b}'}
  {
    if Plain(c) {
      PlainRoundTrip(c);
    } else {
      ShiftedDigitIff(c, 0);
      SymbolIff(c, 0);
      hide Symbol, ShiftedDigit;
      assert ' ' <= c <= '~' ==> c in SHIFTED_DIGITS || exists j :: 0 <= j < |SYMBOL_KEYS| && Face(c, j) by {
        if ' ' <= c <= '~' {
          Punctuation(c);
        }
      }
      assert forall j :: 0 <= j < |SYMBOL_KEYS| && Face(c, j) ==> ' ' <= c <= '~';
    }
  }

  predicate Face(c: char, j: nat)
    requires j < |SYMBOL_KEYS|
  {
    c == SYMBOL_KEYS[j].0 || c == SYMBOL_KEYS[j].1
  }

  lemma Punctuation(c: char)
    requires ' ' <= c <= '~' && !Plain(c)
    ensures c in SHIFTED_DIGITS || exists j :: 0 <= j < |SYMBOL_KEYS| && Face(c, j)
  {
    if c !in SHIFTED_DIGITS {
      assert SHIFTED_DIGITS[0] != c && SHIFTED_DIGITS[1] != c && SHIFTED_DIGITS[2] != c && SHIFTED_DIGITS[3] != c
          && SHIFTED_DIGITS[4] != c && SHIFTED_DIGITS[5] != c && SHIFTED_DIGITS[6] != c && SHIFTED_DIGITS[7] != c
          && SHIFTED_DIGITS[8] != c && SHIFTED_DIGITS[9] != c;
      assert Face(c, 0) || Face(c, 1) || Face(c, 2) || Face(c, 3) || Face(c, 4) || Face(c, 5) || Face(c, 6)
          || Face(c, 7) || Face(c, 8) || Face(c, 9) || Face(c, 10);
    }
  }

  lemma {:induction false} ShiftedDigitIff(c: char, i: nat)
    requires i <= 10
    ensures ShiftedDigit(c, i).Some? <==> c in SHIFTED_DIGITS[i..]
    decreases 10 - i
  {
    if i < 10 {
      ShiftedDigitIff(c, i + 1);
      assert SHIFTED_DIGITS[i..] == [SHIFTED_DIGITS[i]] + SHIFTED_DIGITS[i + 1..];
    }
  }

  lemma {:induction false} SymbolIff(c: char, i: nat)
    requires i <= |SYMBOL_KEYS|
    ensures Symbol(c, i).Some? <==> exists j :: i <= j < |SYMBOL_KEYS| && Face(c, j)
    decreases |SYMBOL_KEYS| - i
  {
    if i < |SYMBOL_KEYS| {
      SymbolIff(c, i + 1);
      assert Symbol(c, i).Some? <==> Face(c, i) || Symbol(c, i + 1).Some?;
    }
  }

  lemma DistinctCharactersDistinctStrokes(c: char, d: char)
    requires StrokeOf(c).Some? && StrokeOf(c) == StrokeOf(d)
    ensures c == d
  {
    StrokeRoundTrip(c);
    StrokeRoundTrip(d);
  }
}
