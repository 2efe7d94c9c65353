/**
 * The reader header (src/components/app-header.tsx): the font-size buttons,
 * whose updaters replace the one-element `fontSize` array by a size moved two
 * points down or up within [12, 32], their disabled guards, and the
 * dark-mode toggle. The caller owns the state; here the updaters are
 * functions from the old array to the new one.
 */
module AppHeader {

  /** A JavaScript number as far as the updaters need it: an integer, or NaN. */
  datatype JsNumber = Int(value: int) | NaN

  const MinFontSize: int := 12
  const MaxFontSize: int := 32

  /** `prev[0]`: reading past the end gives `undefined`, which arithmetic turns into NaN. */
  function First(prev: seq<JsNumber>): JsNumber {
    if |prev| == 0 then NaN else prev[0]
  }

  /** `Math.max(12, prev[0] - 2)`: NaN propagates, otherwise the larger of the two. */
  function DecreasedSize(n: JsNumber): (r: JsNumber)
    ensures n.NaN? <==> r.NaN?
    ensures n.Int? ==> r.value >= MinFontSize && r.value >= n.value - 2
    ensures n.Int? ==> r.value == MinFontSize || r.value == n.value - 2
  {
    match n
    case NaN => NaN
    case Int(f) => Int(if MinFontSize > f - 2 then MinFontSize else f - 2)
  }

  /** `Math.min(32, prev[0] + 2)`: NaN propagates, otherwise the smaller of the two. */
  function IncreasedSize(n: JsNumber): (r: JsNumber)
    ensures n.NaN? <==> r.NaN?
    ensures n.Int? ==> r.value <= MaxFontSize && r.value <= n.value + 2
    ensures n.Int? ==> r.value == MaxFontSize || r.value == n.value + 2
  {
    match n
    case NaN => NaN
    case Int(f) => Int(if MaxFontSize < f + 2 then MaxFontSize else f + 2)
  }

  /** The updater of the "Decrease font size" button: a one-element array built from element 0 alone. */
  function DecreaseFontSize(prev: seq<JsNumber>): seq<JsNumber> {
    [DecreasedSize(First(prev))]
  }

  /** The updater of the "Increase font size" button. */
  function IncreaseFontSize(prev: seq<JsNumber>): seq<JsNumber> {
    [IncreasedSize(First(prev))]
  }

  /** `disabled={fontSize[0] <= 12}`; a comparison with NaN or `undefined` is false. */
  predicate DecreaseDisabled(fontSize: seq<JsNumber>) {
    First(fontSize).Int? && First(fontSize).value <= MinFontSize
  }

  /** `disabled={fontSize[0] >= 32}`. */
  predicate IncreaseDisabled(fontSize: seq<JsNumber>) {
    First(fontSize).Int? && First(fontSize).value >= MaxFontSize
  }

  /** Only element 0 is read: elements after it make no difference. */
  lemma UpdatersReadOnlyFirst(prev: seq<JsNumber>, rest: seq<JsNumber>)
    requires |prev| >= 1
    ensures DecreaseFontSize(prev + rest) == DecreaseFontSize(prev)
    ensures IncreaseFontSize(prev + rest) == IncreaseFontSize(prev)
  {
    assert (prev + rest)[0] == prev[0];
  }

  datatype Button = Decrease | Increase

  /** The font-size array after the buttons in `presses` are clicked one after another. */
  function ApplyPresses(fontSize: seq<JsNumber>, presses: seq<Button>): seq<JsNumber>
    decreases |presses|
  {
    if presses == [] then fontSize
    else
      var next := if presses[0] == Decrease then DecreaseFontSize(fontSize) else IncreaseFontSize(fontSize);
      ApplyPresses(next, presses[1..])
  }

  predicate InRange(f: int) { MinFontSize <= f <= MaxFontSize }

  /**
   * Starting from a size in [12, 32], any run of presses ends on a single
   * size in [12, 32]; from an even size, the size stays even.
   */
  lemma {:induction false} PressesStayInRange(f: int, presses: seq<Button>)
    requires InRange(f)
    ensures var r := ApplyPresses([Int(f)], presses);
      |r| == 1 && r[0].Int? && InRange(r[0].value) && (f % 2 == 0 ==> r[0].value % 2 == 0)
    decreases |presses|
  {
    if presses != [] {
      var next := if presses[0] == Decrease then DecreaseFontSize([Int(f)]) else IncreaseFontSize([Int(f)]);
      assert next == [Int(next[0].value)];
      PressesStayInRange(next[0].value, presses[1..]);
    }
  }

  /** Within [12, 32], a button is disabled exactly when pressing it would change nothing. */
  lemma DisabledIffNoOp(f: int)
    requires InRange(f)
    ensures DecreaseDisabled([Int(f)]) <==> DecreaseFontSize([Int(f)]) == [Int(f)]
    ensures IncreaseDisabled([Int(f)]) <==> IncreaseFontSize([Int(f)]) == [Int(f)]
  {
  }

  /** Increase then decrease restores sizes 12..30; decrease then increase restores sizes 14..32. */
  lemma StepsUndo(f: int)
    ensures MinFontSize <= f <= MaxFontSize - 2 ==> DecreaseFontSize(IncreaseFontSize([Int(f)])) == [Int(f)]
    ensures MinFontSize + 2 <= f <= MaxFontSize ==> IncreaseFontSize(DecreaseFontSize([Int(f)])) == [Int(f)]
  {
  }

  /** `setDarkMode(!darkMode)`. */
  function ToggleDarkMode(darkMode: bool): (r: bool)
    ensures r != darkMode
  {
    !darkMode
  }

  /** Two presses of the dark-mode button restore the mode. */
  lemma ToggleTwiceRestores(darkMode: bool)
    ensures ToggleDarkMode(ToggleDarkMode(darkMode)) == darkMode
  {
  }
}
