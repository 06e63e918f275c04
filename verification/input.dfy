/** The keyboard/mouse state machine of src/input.js (`makeInputHandler`),
    without its DOM wiring (`bind`): the handlers `bind` installs are the
    operations here, and the element's bounding-box offset is a parameter. */
module Input {

  /** The `keyname` table: key codes with a name. */
  const KeyNames: map<int, string> := map[
    32 := "SPACE", 13 := "ENTER", 9 := "TAB", 8 := "BACKSPACE",
    16 := "SHIFT", 17 := "CTRL", 18 := "ALT", 20 := "CAPS_LOCK",
    144 := "NUM_LOCK", 145 := "SCROLL_LOCK", 37 := "LEFT", 38 := "UP",
    39 := "RIGHT", 40 := "DOWN", 33 := "PAGE_UP", 34 := "PAGE_DOWN",
    36 := "HOME", 35 := "END", 45 := "INSERT", 46 := "DELETE",
    27 := "ESCAPE", 19 := "PAUSE"]

  /** A property name of `keys`: a table name, or the one-code-unit string
      `String.fromCharCode(code)` (identified by its UTF-16 code unit).  Every
      table name is longer than one character, so the two never coincide. */
  datatype Key = Named(name: string) | CodeUnit(unit: int)

  datatype Point = Point(x: real, y: real)

  datatype Mouse = Mouse(down: bool, x: real, y: real)

  datatype Input = Input(offset: Point, hasFocus: bool, keys: map<Key, bool>, mouse: Mouse)

  /** `String.fromCharCode` takes its argument modulo 2^16. */
  function FromCharCode(code: int): (k: Key)
    ensures k.CodeUnit? && 0 <= k.unit < 0x1_0000
    ensures 0 <= code < 0x1_0000 ==> k.unit == code
    ensures (code - k.unit) % 0x1_0000 == 0
  {
    CodeUnit(code % 0x1_0000)
  }

  /** `_getKeyName(key)`. */
  function KeyName(code: int): (k: Key)
    ensures code in KeyNames <==> k.Named?
    ensures k.Named? ==> k.name == KeyNames[code]
    ensures k.CodeUnit? ==> k == FromCharCode(code)
  {
    if code in KeyNames then Named(KeyNames[code]) else FromCharCode(code)
  }

  /** The keys `reset` defines: 'A' (65) up to char 127, and every table name. */
  function ResetKeys(): set<Key> {
    (set i | 65 <= i < 128 :: CodeUnit(i)) + (set c | c in KeyNames :: Named(KeyNames[c]))
  }

  /** `reset()`: every defined key up, mouse released at the origin. */
  function Reset(s: Input): (r: Input)
    ensures r.keys.Keys == ResetKeys()
    ensures forall k :: k in r.keys ==> !r.keys[k]
    ensures r.mouse == Mouse(false, 0.0, 0.0)
    ensures r.offset == s.offset && r.hasFocus == s.hasFocus
  {
    s.(keys := map k | k in ResetKeys() :: false, mouse := Mouse(false, 0.0, 0.0))
  }

  /** `makeInputHandler(element)`: focused, then `reset`. */
  function Make(offset: Point): (r: Input)
    ensures r.hasFocus && r.offset == offset
    ensures r.keys.Keys == ResetKeys() && forall k :: k in r.keys ==> !r.keys[k]
    ensures r.mouse == Mouse(false, 0.0, 0.0)
  {
    Reset(Input(offset, true, map[], Mouse(false, 0.0, 0.0)))
  }

  /** `keyDown(key)`: the mapped key becomes pressed, nothing else changes. */
  function KeyDown(s: Input, code: int): (r: Input)
    ensures r.keys.Keys == s.keys.Keys + {KeyName(code)}
    ensures r.keys[KeyName(code)]
    ensures forall k :: k in s.keys && k != KeyName(code) ==> r.keys[k] == s.keys[k]
    ensures r.mouse == s.mouse && r.hasFocus == s.hasFocus && r.offset == s.offset
  {
    s.(keys := s.keys[KeyName(code) := true])
  }

  /** `keyUp(key)`: the mapped key becomes released, nothing else changes. */
  function KeyUp(s: Input, code: int): (r: Input)
    ensures r.keys.Keys == s.keys.Keys + {KeyName(code)}
    ensures !r.keys[KeyName(code)]
    ensures forall k :: k in s.keys && k != KeyName(code) ==> r.keys[k] == s.keys[k]
    ensures r.mouse == s.mouse && r.hasFocus == s.hasFocus && r.offset == s.offset
  {
    s.(keys := s.keys[KeyName(code) := false])
  }

  /** `blur()`. */
  function Blur(s: Input): (r: Input)
    ensures !r.hasFocus && r == Reset(s).(hasFocus := false)
  {
    Reset(s.(hasFocus := false))
  }

  /** `focus()`: resets only when the input had lost focus. */
  function Focus(s: Input): (r: Input)
    ensures r.hasFocus
    ensures s.hasFocus ==> r == s
    ensures !s.hasFocus ==> r == Reset(s).(hasFocus := true)
  {
    if s.hasFocus then s else Reset(s.(hasFocus := true))
  }

  function MouseDown(s: Input): (r: Input)
    ensures r.mouse.down && r.mouse.x == s.mouse.x && r.mouse.y == s.mouse.y
    ensures r.keys == s.keys && r.hasFocus == s.hasFocus && r.offset == s.offset
  {
    s.(mouse := s.mouse.(down := true))
  }

  function MouseUp(s: Input): (r: Input)
    ensures !r.mouse.down && r.mouse.x == s.mouse.x && r.mouse.y == s.mouse.y
    ensures r.keys == s.keys && r.hasFocus == s.hasFocus && r.offset == s.offset
  {
    s.(mouse := s.mouse.(down := false))
  }

  /** `mouseMove(pageX, pageY)`: coordinates relative to the element. */
  function MouseMove(s: Input, pageX: real, pageY: real): (r: Input)
    ensures r.mouse.x + s.offset.x == pageX && r.mouse.y + s.offset.y == pageY
    ensures r.mouse.down == s.mouse.down
    ensures r.keys == s.keys && r.hasFocus == s.hasFocus && r.offset == s.offset
  {
    s.(mouse := s.mouse.(x := pageX - s.offset.x, y := pageY - s.offset.y))
  }

  // ---------------------------------------------------------------------

  /** No two table entries share a name. */
  lemma KeyNamesInjective()
    ensures forall a, b :: a in KeyNames && b in KeyNames && a != b ==> KeyNames[a] != KeyNames[b]
  {
  }

  /** Every key that `_getKeyName` maps a letter-range or named code to is
      defined, and released, right after `reset`. */
  lemma ResetCoversNamedCodes(s: Input, code: int)
    requires code in KeyNames || 65 <= code < 128
    ensures KeyName(code) in Reset(s).keys && !Reset(s).keys[KeyName(code)]
  {
    if code !in KeyNames {
      assert KeyName(code) == CodeUnit(code);
    }
  }

  /** Two codes map to the same key only when both are unnamed and agree modulo 2^16. */
  lemma KeyNameCollisions(a: int, b: int)
    requires a != b && KeyName(a) == KeyName(b)
    ensures a !in KeyNames && b !in KeyNames && a % 0x1_0000 == b % 0x1_0000
  {
    if a in KeyNames {
      KeyNamesInjective();
    }
  }

  /** Pressing and releasing a key that is up restores the state exactly. */
  lemma KeyDownUpRoundTrip(s: Input, code: int)
    requires KeyName(code) in s.keys && !s.keys[KeyName(code)]
    ensures KeyUp(KeyDown(s, code), code) == s
  {
    assert KeyUp(KeyDown(s, code), code).keys == s.keys;
  }

  /** `focus` is idempotent, and after `blur` it yields the reset, focused state. */
  lemma FocusAfterBlur(s: Input)
    ensures Focus(Focus(s)) == Focus(s)
    ensures Focus(Blur(s)) == Reset(s).(hasFocus := true)
    ensures Blur(Blur(s)) == Blur(s)
  {
  }

  /** Pressing then releasing the button restores a released mouse. */
  lemma MouseButtonRoundTrip(s: Input)
    requires !s.mouse.down
    ensures MouseUp(MouseDown(s)) == s
    ensures MouseDown(MouseUp(MouseDown(s))) == MouseDown(s)
  {
  }
}
