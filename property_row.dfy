/** One row of the property panel (`PropertyRow`): the value arithmetic it
    applies before sending a value to the host (clamping, scrub sensitivity,
    step buttons, the boolean coercion), the blend-mode selector's
    index/code mapping, the colour swatch's hex string, and the row's
    mutable drag state. */
module PropertyRow {
  import opened Common
  import opened LayerStyleTypes
  import opened AeftSnapshot

  const AngleCaption: string := "角度"
  const OpacityCaption: string := "不透明度"
  const DepthCaption: string := "深さ"
  /** Captions clamped to be non-negative only. */
  const NonNegativeCaptions: seq<string> := ["サイズ", "距離", "スプレッド", "チョーク"]

  /** `y` is a whole number. */
  predicate IsWhole(y: real)
  {
    y.Floor as real == y
  }

  /** Truncation toward zero, as JavaScript's `%` uses it. */
  function Trunc(x: real): int
  {
    if x >= 0.0 then x.Floor else -((-x).Floor)
  }

  /** JavaScript's `x % 360`: the remainder takes the sign of `x`. */
  function Rem360(x: real): (r: real)
    ensures -360.0 < r < 360.0
    ensures x >= 0.0 ==> r >= 0.0
    ensures x < 0.0 ==> r <= 0.0
    ensures IsWhole((x - r) / 360.0)
  {
    x - 360.0 * (Trunc(x / 360.0) as real)
  }

  /** The angle rule: the remainder, moved up by 360 when negative. */
  function WrapAngle(x: real): (r: real)
    ensures 0.0 <= r < 360.0
    ensures IsWhole((x - r) / 360.0)
    ensures 0.0 <= x < 360.0 ==> r == x
  {
    var v := Rem360(x);
    if v < 0.0 then
      WholeLessOne((x - v) / 360.0);
      assert (x - (v + 360.0)) / 360.0 == (x - v) / 360.0 - 1.0;
      v + 360.0
    else v
  }

  lemma WholeLessOne(y: real)
    requires IsWhole(y)
    ensures IsWhole(y - 1.0)
  {
    var n := y.Floor;
    assert y - 1.0 == (n - 1) as real;
  }

  /** `clampValue`: the first rule whose caption test matches decides. */
  function ClampValue(caption: string, v: real): real
  {
    if Contains(caption, OpacityCaption) then Max(0.0, Min(100.0, v))
    else if caption == AngleCaption then WrapAngle(v)
    else if caption in NonNegativeCaptions then Max(0.0, v)
    else if Contains(caption, DepthCaption) then Max(0.0, Min(1000.0, v))
    else v
  }

  /** The captions with a rule of their own are told apart by their tests. */
  lemma CaptionTests()
    ensures !Contains(AngleCaption, OpacityCaption) && !Contains(AngleCaption, DepthCaption)
    ensures forall c :: c in NonNegativeCaptions ==> !Contains(c, OpacityCaption) && !Contains(c, DepthCaption)
    ensures AngleCaption !in NonNegativeCaptions
  {
    FirstCharAbsent(AngleCaption, OpacityCaption);
    FirstCharAbsent(AngleCaption, DepthCaption);
    forall c | c in NonNegativeCaptions
      ensures !Contains(c, OpacityCaption) && !Contains(c, DepthCaption)
    {
      FirstCharAbsent(c, OpacityCaption);
      FirstCharAbsent(c, DepthCaption);
    }
  }

  /** Each rule's range: opacity captions (any caption containing 不透明度)
      within [0, 100], 角度 within [0, 360), the size-like captions at least
      0, depth within [0, 1000]; values already in range and every other
      caption pass through unchanged. */
  lemma ClampRanges(caption: string, v: real)
    ensures var r := ClampValue(caption, v);
      (Contains(caption, OpacityCaption) ==> 0.0 <= r <= 100.0 && (0.0 <= v <= 100.0 ==> r == v)) &&
      (caption == AngleCaption ==> 0.0 <= r < 360.0 && IsWhole((v - r) / 360.0) && (0.0 <= v < 360.0 ==> r == v)) &&
      (caption in NonNegativeCaptions ==> 0.0 <= r && (0.0 <= v ==> r == v)) &&
      (Contains(caption, DepthCaption) ==> 0.0 <= r <= 1000.0) &&
      (Contains(caption, DepthCaption) && !Contains(caption, OpacityCaption) ==> (0.0 <= v <= 1000.0 ==> r == v)) &&
      ((!Contains(caption, OpacityCaption) && caption != AngleCaption && caption !in NonNegativeCaptions &&
        !Contains(caption, DepthCaption)) ==> r == v)
  {
    CaptionTests();
  }

  /** Clamping a clamped value changes nothing. */
  lemma ClampIdempotent(caption: string, v: real)
    ensures ClampValue(caption, ClampValue(caption, v)) == ClampValue(caption, v)
  {
    CaptionTests();
  }

  /** `getSensitivity`: units per pixel of drag. */
  function Sensitivity(caption: string): real
  {
    if caption == AngleCaption then 1.5
    else if Contains(caption, OpacityCaption) then 1.0
    else 0.5
  }

  /** The scrubbed number: start plus drag times sensitivity, clamped, then rounded. */
  function ScrubValue(caption: string, start: real, dx: real): int
  {
    Round(ClampValue(caption, start + dx * Sensitivity(caption)))
  }

  /** Rounding keeps a number between two whole bounds. */
  lemma RoundWithin(x: real, lo: int, hi: int)
    requires lo as real <= x <= hi as real
    ensures lo <= Round(x) <= hi
  {
  }

  /** Scrubbed numbers stay in each rule's range, except that the angle can
      reach 360: the wrap comes before the rounding. */
  lemma ScrubRanges(caption: string, start: real, dx: real)
    ensures var n := ScrubValue(caption, start, dx);
      (Contains(caption, OpacityCaption) ==> 0 <= n <= 100) &&
      (caption == AngleCaption ==> 0 <= n <= 360) &&
      (caption in NonNegativeCaptions ==> 0 <= n) &&
      (Contains(caption, DepthCaption) ==> 0 <= n <= 1000)
  {
    var x := start + dx * Sensitivity(caption);
    ClampRanges(caption, x);
    var c := ClampValue(caption, x);
    if Contains(caption, OpacityCaption) { RoundWithin(c, 0, 100); }
    if caption == AngleCaption { RoundWithin(c, 0, 360); }
    if Contains(caption, DepthCaption) { RoundWithin(c, 0, 1000); }
  }

  /** An angle row at 359.6 scrubbed by zero pixels sends 360, a value the angle clamp never yields. */
  lemma AngleScrubReaches360()
    ensures ScrubValue(AngleCaption, 359.6, 0.0) == 360
    ensures ClampValue(AngleCaption, 360.0) == 0.0
  {
    assert ClampValue(AngleCaption, 359.6) == 359.6;
  }

  /** The number a number or boolean row starts from: true is 1, false is 0. */
  function CurrentNumber(v: Value): real
    requires v.Num? || v.Bool?
  {
    match v
    case Num(x) => x
    case Bool(b) => if b then 1.0 else 0.0
  }

  /** What the row sends for a number: a boolean property receives `n !== 0`. */
  function Outgoing(kind: ValueKind, n: real): Value
  {
    if kind == BooleanKind then Bool(n != 0.0) else Num(n)
  }

  /** A boolean row sends exactly the value it shows when that value is sent back as its number. */
  lemma OutgoingRoundTrip(kind: ValueKind, v: Value)
    requires kind == BooleanKind ==> v.Bool?
    requires kind != BooleanKind ==> v.Num?
    ensures Outgoing(kind, CurrentNumber(v)) == v
  {
  }

  /** Rows with a number control carry a number or a boolean. */
  lemma ScalarRows(row: PropState)
    requires RowShaped(row) && (row.kind == NumberKind || row.kind == BooleanKind)
    ensures row.value.Num? || row.value.Bool?
    ensures row.kind == BooleanKind ==> row.value.Bool?
    ensures row.kind == NumberKind ==> row.value.Num?
  {
  }

  /** The step of the arrow buttons: 5 for a number angle row, 1 otherwise. */
  function StepSize(row: PropState): real
  {
    if row.kind == NumberKind && row.caption == AngleCaption then 5.0 else 1.0
  }

  /** `handleUp`'s value. */
  function StepUp(row: PropState): Value
    requires row.value.Num? || row.value.Bool?
  {
    Outgoing(row.kind, CurrentNumber(row.value) + StepSize(row))
  }

  /** `handleDown`'s value. */
  function StepDown(row: PropState): Value
    requires row.value.Num? || row.value.Bool?
  {
    Outgoing(row.kind, CurrentNumber(row.value) - StepSize(row))
  }

  /** On a boolean row "up" always sends true and "down" sends the opposite
      of the current value (down from false gives true, as -1 is not 0). */
  lemma BooleanSteps(row: PropState)
    requires row.kind == BooleanKind && row.value.Bool?
    ensures StepUp(row) == Bool(true)
    ensures StepDown(row) == Bool(!row.value.b)
  {
  }

  /** On a number row "down" undoes "up", by 5 for the angle and 1 otherwise. */
  lemma NumberStepsInverse(row: PropState)
    requires row.kind == NumberKind && row.value.Num?
    ensures StepUp(row) == Num(row.value.x + StepSize(row))
    ensures StepDown(row.(value := StepUp(row))) == row.value
    ensures StepSize(row) == (if row.caption == AngleCaption then 5.0 else 1.0)
  {
  }

  /** The arrows do not clamp: opacity 100 steps up to 101, which a scrub would clamp to 100. */
  lemma StepsIgnoreClamp()
    ensures var row := PropState(OpacityCaption, NumberKind, Num(100.0), true, 0, false, false, false);
      StepUp(row) == Num(101.0) && ClampValue(OpacityCaption, 101.0) == 100.0
  {
    assert Contains(OpacityCaption, OpacityCaption);
  }

  /** The code sent for selector position `i`. */
  function BlendCodeAt(i: nat): Value
    requires i < |BlendModes|
  {
    Num(BlendModes[i].val as real)
  }

  /** The selector position shown for a value: its table position, or 0 when
      the table does not hold it. */
  function BlendIndexOf(v: Value): (i: nat)
    ensures i < |BlendModes|
  {
    match FirstWhere(BlendModes, (m: BlendModeEntry) => Num(m.val as real) == v)
    case Some(k) => k
    case None => 0
  }

  /** Choosing a position and reading the selector back gives the same position. */
  lemma BlendIndexRoundTrip(i: nat)
    requires i < |BlendModes|
    ensures BlendIndexOf(BlendCodeAt(i)) == i
  {
    BlendModesIncreasing();
    FirstWhereIs(BlendModes, (m: BlendModeEntry) => Num(m.val as real) == BlendCodeAt(i), i);
  }

  /** A code in the table is shown at its own position; any other value is
      shown as the first entry. */
  lemma BlendCodeRoundTrip(v: Value)
    ensures (exists i :: 0 <= i < |BlendModes| && BlendCodeAt(i) == v) ==> BlendCodeAt(BlendIndexOf(v)) == v
    ensures (forall i :: 0 <= i < |BlendModes| ==> BlendCodeAt(i) != v) ==> BlendIndexOf(v) == 0
  {
    if exists i :: 0 <= i < |BlendModes| && BlendCodeAt(i) == v {
      var i :| 0 <= i < |BlendModes| && BlendCodeAt(i) == v;
      BlendIndexRoundTrip(i);
    } else {
      assert FirstWhere(BlendModes, (m: BlendModeEntry) => Num(m.val as real) == v).None? by {
        forall j | 0 <= j < |BlendModes| ensures Num(BlendModes[j].val as real) != v {
          assert BlendCodeAt(j) != v;
        }
      }
    }
  }

  /** A lower-case hexadecimal digit. */
  function HexDigit(d: nat): (c: char)
    requires d < 16
    ensures ('0' <= c <= '9') || ('a' <= c <= 'f')
  {
    if d < 10 then ('0' as int + d) as char else ('a' as int + d - 10) as char
  }

  /** The value of a lower-case hexadecimal digit. */
  function HexDigitValue(c: char): nat
  {
    if '0' <= c <= '9' then c as int - '0' as int
    else if 'a' <= c <= 'f' then c as int - 'a' as int + 10
    else 0
  }

  predicate IsHexDigit(c: char)
  {
    ('0' <= c <= '9') || ('a' <= c <= 'f')
  }

  /** `n.toString(16)` for a non-negative whole number. */
  function HexString(n: nat): (s: string)
    ensures |s| >= 1
    ensures n < 16 ==> |s| == 1
    ensures 16 <= n < 256 ==> |s| == 2
    decreases n
  {
    if n < 16 then [HexDigit(n)] else HexString(n / 16) + [HexDigit(n % 16)]
  }

  /** `s.padStart(2, "0")`. */
  function PadStart2(s: string): string
  {
    if |s| >= 2 then s else seq(2 - |s|, _ => '0') + s
  }

  /** One channel: `Math.round(v * 255).toString(16).padStart(2, "0")`. */
  function ToHex(v: real): string
  {
    var n := Round(v * 255.0);
    PadStart2(if n < 0 then "-" + HexString(-n) else HexString(n))
  }

  /** `rgbToHex`: `#` and the three channels. */
  function RgbToHex(r: real, g: real, b: real): string
  {
    "#" + ToHex(r) + ToHex(g) + ToHex(b)
  }

  /** The byte two hexadecimal digits spell. */
  function HexByte(s: string): int
    requires |s| == 2
  {
    16 * HexDigitValue(s[0]) + HexDigitValue(s[1])
  }

  lemma HexDigitRoundTrip(d: nat)
    requires d < 16
    ensures HexDigitValue(HexDigit(d)) == d
  {
  }

  /** A channel whose rounded byte is in 0..255 gives two lower-case hex digits that spell it. */
  lemma ToHexByte(v: real)
    requires 0 <= Round(v * 255.0) <= 255
    ensures var h := ToHex(v);
      |h| == 2 && IsHexDigit(h[0]) && IsHexDigit(h[1]) && HexByte(h) == Round(v * 255.0)
  {
    var n := Round(v * 255.0);
    if n < 16 {
      HexDigitRoundTrip(n);
      assert ToHex(v) == ['0', HexDigit(n)];
    } else {
      HexDigitRoundTrip(n / 16);
      HexDigitRoundTrip(n % 16);
      assert HexString(n / 16) == [HexDigit(n / 16)];
      assert ToHex(v) == [HexDigit(n / 16), HexDigit(n % 16)];
    }
  }

  /** A channel between 0 and 1 rounds to a byte. */
  lemma UnitChannelIsByte(v: real)
    requires 0.0 <= v <= 1.0
    ensures 0 <= Round(v * 255.0) <= 255
  {
  }

  /** For channels between 0 and 1 the swatch colour is `#` and six
      lower-case hex digits, two per channel, each pair spelling that
      channel's rounded byte. */
  lemma RgbToHexShape(r: real, g: real, b: real)
    requires 0.0 <= r <= 1.0 && 0.0 <= g <= 1.0 && 0.0 <= b <= 1.0
    ensures var h := RgbToHex(r, g, b);
      |h| == 7 && h[0] == '#' && (forall i :: 1 <= i < 7 ==> IsHexDigit(h[i])) &&
      HexByte(h[1..3]) == Round(r * 255.0) && HexByte(h[3..5]) == Round(g * 255.0) &&
      HexByte(h[5..7]) == Round(b * 255.0)
  {
    UnitChannelIsByte(r);
    UnitChannelIsByte(g);
    UnitChannelIsByte(b);
    ToHexByte(r);
    ToHexByte(g);
    ToHexByte(b);
    HashAndPairs(ToHex(r), ToHex(g), ToHex(b));
  }

  /** `#` followed by three two-character strings, read back pair by pair. */
  lemma HashAndPairs(a: string, b: string, c: string)
    requires |a| == 2 && |b| == 2 && |c| == 2
    requires forall i :: 0 <= i < 2 ==> IsHexDigit(a[i]) && IsHexDigit(b[i]) && IsHexDigit(c[i])
    ensures var h := "#" + a + b + c;
      |h| == 7 && h[0] == '#' && (forall i :: 1 <= i < 7 ==> IsHexDigit(h[i])) &&
      h[1..3] == a && h[3..5] == b && h[5..7] == c
  {
    var h := "#" + a + b + c;
    assert h == ['#', a[0], a[1], b[0], b[1], c[0], c[1]];
  }

  /** `String(n)` for a whole number. */
  function IntString(n: int): string
  {
    if n < 0 then "-" + DecimalString(-n) else DecimalString(n)
  }

  /** A call the row makes: `setPropertyValue` (followed by a refresh or
      not), `operateKeyframe`, or the bare refresh at the end of a drag. */
  datatype RowCall = SetValue(value: Value, refreshAfter: bool) | Keyframe(action: string) | Refresh

  /** The row's mutable state across events: the scrub record, the text
      shown while editing or dragging, whether the drag listeners are
      installed, and the calls made so far. */
  class RowControl {
    const row: PropState
    var scrubActive: bool
    var startX: real
    var startVal: real
    /** `localVal`: the text shown instead of the row's value, if any. */
    var localVal: Option<string>
    var dragging: bool
    var calls: seq<RowCall>

    constructor(row: PropState)
      ensures this.row == row && !scrubActive && !dragging && localVal == None && calls == []
    {
      this.row := row;
      scrubActive := false;
      startX := 0.0;
      startVal := 0.0;
      localVal := None;
      dragging := false;
      calls := [];
    }

    /** `handleScrubDown`: remember the pointer and the starting number, then listen. */
    method ScrubDown(x: real)
      requires row.value.Num? || row.value.Bool?
      modifies this
      ensures scrubActive && dragging && startX == x && startVal == CurrentNumber(row.value)
      ensures localVal == old(localVal) && calls == old(calls)
    {
      startVal := if row.value.Bool? then (if row.value.b then 1.0 else 0.0) else row.value.x;
      startX := x;
      scrubActive := true;
      dragging := true;
    }

    /** `onMove`: show and send the scrubbed number (no refresh); ignored when not scrubbing. */
    method ScrubMove(x: real)
      modifies this
      ensures var n := ScrubValue(row.caption, old(startVal), x - old(startX));
        if old(dragging) && old(scrubActive)
        then localVal == Some(IntString(n)) && calls == old(calls) + [SetValue(Outgoing(row.kind, n as real), false)]
        else localVal == old(localVal) && calls == old(calls)
      ensures scrubActive == old(scrubActive) && dragging == old(dragging)
      ensures startX == old(startX) && startVal == old(startVal)
    {
      if dragging && scrubActive {
        var dx := x - startX;
        var newVal := startVal + dx * Sensitivity(row.caption);
        var clamped := ClampValue(row.caption, newVal);
        var n := Round(clamped);
        localVal := Some(IntString(n));
        var applyVal := if row.kind == BooleanKind then Bool(n != 0) else Num(n as real);
        calls := calls + [SetValue(applyVal, false)];
      }
    }

    /** `onUp`: stop scrubbing, drop the shown text, refresh and stop listening. */
    method ScrubUp()
      modifies this
      ensures old(dragging) ==> !scrubActive && !dragging && localVal == None && calls == old(calls) + [Refresh]
      ensures !old(dragging) ==> scrubActive == old(scrubActive) && localVal == old(localVal) && calls == old(calls)
      ensures startX == old(startX) && startVal == old(startVal)
    {
      if dragging {
        scrubActive := false;
        localVal := None;
        calls := calls + [Refresh];
        dragging := false;
      }
    }

    /** `handleInputCommit` for the number `parseFloat` made of the text (`None`: NaN). */
    method Commit(parsed: Option<real>)
      modifies this
      ensures localVal == None
      ensures calls == old(calls) + (if parsed.Some? then [SetValue(Outgoing(row.kind, parsed.value), true)] else [])
      ensures scrubActive == old(scrubActive) && dragging == old(dragging)
    {
      if parsed.Some? {
        var applyVal := if row.kind == BooleanKind then Bool(parsed.value != 0.0) else Num(parsed.value);
        calls := calls + [SetValue(applyVal, true)];
      }
      localVal := None;
    }

    /** `handleUp`. */
    method StepUpPressed()
      requires row.value.Num? || row.value.Bool?
      modifies this
      ensures calls == old(calls) + [SetValue(StepUp(row), true)]
      ensures localVal == old(localVal) && scrubActive == old(scrubActive) && dragging == old(dragging)
    {
      var step := if row.kind == NumberKind && row.caption == AngleCaption then 5.0 else 1.0;
      var currentVal := if row.value.Bool? then (if row.value.b then 1.0 else 0.0) else row.value.x;
      var newVal := if row.kind == BooleanKind then Bool(currentVal + step != 0.0) else Num(currentVal + step);
      calls := calls + [SetValue(newVal, true)];
    }

    /** `handleDown`. */
    method StepDownPressed()
      requires row.value.Num? || row.value.Bool?
      modifies this
      ensures calls == old(calls) + [SetValue(StepDown(row), true)]
      ensures localVal == old(localVal) && scrubActive == old(scrubActive) && dragging == old(dragging)
    {
      var step := if row.kind == NumberKind && row.caption == AngleCaption then 5.0 else 1.0;
      var currentVal := if row.value.Bool? then (if row.value.b then 1.0 else 0.0) else row.value.x;
      var newVal := if row.kind == BooleanKind then Bool(currentVal - step != 0.0) else Num(currentVal - step);
      calls := calls + [SetValue(newVal, true)];
    }

    /** `handleBlendModeChange` for selector position `i`. */
    method BlendChosen(i: nat)
      requires i < |BlendModes|
      modifies this
      ensures calls == old(calls) + [SetValue(BlendCodeAt(i), true)]
      ensures localVal == old(localVal) && scrubActive == old(scrubActive) && dragging == old(dragging)
    {
      calls := calls + [SetValue(Num(BlendModes[i].val as real), true)];
    }

    /** A keyframe button: disabled when the property cannot vary over time. */
    method KeyframePressed(a: KeyframeAction)
      modifies this
      ensures calls == old(calls) + (if row.canVaryOverTime then [Keyframe(ActionName(a))] else [])
      ensures localVal == old(localVal) && scrubActive == old(scrubActive) && dragging == old(dragging)
    {
      if row.canVaryOverTime {
        calls := calls + [Keyframe(ActionName(a))];
      }
    }
  }
}
