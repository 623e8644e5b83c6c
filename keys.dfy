/**
 * The key codes of internal/inputs/keys.go. Keyboard keys use GLFW's key codes; mouse buttons
 * are folded into the same code space as negative numbers by `MouseButtonToKey`.
 */
module Keys {

  /** A GLFW key code, or a folded mouse button. */
  type Key = int

  /** A GLFW mouse button number (MouseButton1 is 0, MouseButton2 is 1, and so on). */
  type MouseButton = int

  /** A GLFW action: Release is 0, Press is 1, Repeat is 2. */
  type Action = int

  const Release: Action := 0
  const Press: Action := 1
  const Repeat: Action := 2

  /** Whether a key is currently held down. */
  datatype KeyState = Inactive | Pressed

  /** GLFW's codes for the keys the game listens to. */
  const KeyW: Key := 87
  const KeyA: Key := 65
  const KeyS: Key := 83
  const KeyD: Key := 68
  const KeyEscape: Key := 256

  const MouseButton1: MouseButton := 0
  const MouseButton2: MouseButton := 1

  /** GLFW's smallest keyboard code is -1 (an unknown key); every other code is positive. */
  const SmallestKeyboardKey: Key := -1

  /** Folds a mouse button into the key code space: `(-1 * m) - 2`. */
  function MouseButtonToKey(m: MouseButton): (k: Key)
    ensures m >= 0 ==> k <= -2 && k < SmallestKeyboardKey
  {
    -m - 2
  }

  /** The inverse fold: recovers the mouse button from its key code. */
  function KeyToMouseButton(k: Key): (m: MouseButton)
  {
    -k - 2
  }

  /** Folding and unfolding are inverse to each other, in both orders. */
  lemma MouseButtonRoundTrip(m: MouseButton, k: Key)
    ensures KeyToMouseButton(MouseButtonToKey(m)) == m
    ensures MouseButtonToKey(KeyToMouseButton(k)) == k
  {
  }

  /** Distinct buttons get distinct key codes. */
  lemma MouseButtonToKeyInjective(m1: MouseButton, m2: MouseButton)
    requires MouseButtonToKey(m1) == MouseButtonToKey(m2)
    ensures m1 == m2
  {
    MouseButtonRoundTrip(m1, 0);
    MouseButtonRoundTrip(m2, 0);
  }

  /** The left and right mouse buttons, defined by the same fold. */
  const LMB: Key := MouseButton1 * -1 - 2
  const RMB: Key := MouseButton2 * -1 - 2

  /** LMB and RMB agree with `MouseButtonToKey` and clash with no keyboard key the game uses. */
  lemma MouseKeysAreFolded()
    ensures LMB == MouseButtonToKey(MouseButton1) && RMB == MouseButtonToKey(MouseButton2)
    ensures LMB != RMB
    ensures LMB !in [KeyW, KeyA, KeyS, KeyD, KeyEscape] && RMB !in [KeyW, KeyA, KeyS, KeyD, KeyEscape]
  {
  }
}
