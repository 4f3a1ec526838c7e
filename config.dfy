/** Compile-time configuration of the firmware: integer widths, timing
    constants, the pin tables and the logical button table. */
module Config {

  /** `uint8_t`: pins and logical button identifiers. */
  type Byte = x: int | 0 <= x < 256

  /** `int8_t`: the stored copies `lastX` and `lastY` of the axis values. */
  type Int8 = x: int | -128 <= x < 128

  /** `unsigned long` on the ESP32 is 32 bits wide; `millis()` wraps at 2^32. */
  const MILLIS_MODULUS: int := 0x1_0000_0000
  type Millis = x: int | 0 <= x < MILLIS_MODULUS

  type Pin = Byte

  /** Disconnected time after which the controller goes to deep sleep (one minute). */
  const SLEEP_AFTER_MS: Millis := 1000 * 60 * 1

  /** Logical ids at or above this go to the special-button bank. */
  const O_SPECIAL: Byte := 64

  /** Logical ids of the six physical buttons (BUTTON_1, _2, _3, _4, _7, _8). */
  const PHYSICAL_BUTTONS: seq<Byte> := [1, 2, 3, 4, 7, 8]

  /** Pins driven low as extra grounds while awake. */
  const EXTRA_GROUNDS: seq<Pin> := [4, 21]

  /** Button pins A, B, C, D, SEL, START; one debouncer per pin. */
  const BUTTON_PINS: seq<Pin> := [10, 9, 8, 7, 6, 5]

  /** Direction pins, indexed by the `Direction` enumeration below. */
  const DIRECTION_PINS: seq<Pin> := [3, 2, 1, 0]

  /** The `Direction` enumeration: LEFT, RIGHT, DOWN, UP. */
  const DIR_LEFT: nat := 0
  const DIR_RIGHT: nat := 1
  const DIR_DOWN: nat := 2
  const DIR_UP: nat := 3
  const DIR_COUNT: nat := 4

  /** `sizeof(buttonPins)`: the number of debouncers. */
  const BUTTON_COUNT: nat := |BUTTON_PINS|

  /** No two entries of `s` are equal. */
  predicate Distinct<T(==)>(s: seq<T>) {
    forall i, j :: 0 <= i < j < |s| ==> s[i] != s[j]
  }

  /** The configured tables fit together: one logical id per debounced pin,
      one pin per direction, and the logical ids are distinct standard ids. */
  lemma ConfigurationConsistent()
    ensures |PHYSICAL_BUTTONS| == BUTTON_COUNT
    ensures |DIRECTION_PINS| == DIR_COUNT
    ensures Distinct(PHYSICAL_BUTTONS)
    ensures forall i :: 0 <= i < |PHYSICAL_BUTTONS| ==> PHYSICAL_BUTTONS[i] < O_SPECIAL
  {
  }
}
