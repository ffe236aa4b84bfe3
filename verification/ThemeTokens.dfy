/** Colour arithmetic of the theme, over the real numbers with an explicit rounding step. The sector
    computation of an HSL colour is proved equal to the closed form of section 7.1 of the CSS Color
    Module Level 4, and the headroom scaling is proved to keep the designed lightness gaps. */
module ThemeTokens {
  import opened Options

  datatype Rgb = Rgb(r: int, g: int, b: int)

  // ----- real helpers -----

  function Abs(x: real): real {
    if x < 0.0 then -x else x
  }

  function Min(x: real, y: real): real {
    if x <= y then x else y
  }

  function Max(x: real, y: real): real {
    if x >= y then x else y
  }

  function Clamp(low: real, high: real, x: real): real {
    Max(low, Min(high, x))
  }

  /** `Math.round`: halves go up. */
  function Round(x: real): int {
    (x + 0.5).Floor
  }

  /** The nearest integer, and the larger one of two as near. */
  lemma RoundIsNearest(x: real)
    ensures Round(x) as real - 0.5 <= x < Round(x) as real + 0.5
  {
  }

  /** The `%` operator: the remainder has the sign of the dividend. */
  function Remainder(x: real, m: real): real
    requires m > 0.0
  {
    if x >= 0.0 then x - (x / m).Floor as real * m else x + (-x / m).Floor as real * m
  }

  /** The remainder that is never negative. */
  function Modulo(x: real, m: real): real
    requires m > 0.0
  {
    x - (x / m).Floor as real * m
  }

  lemma PartOfStep(x: real, m: real, t: real, q: real)
    requires m > 0.0 && x == t * m && q <= t < q + 1.0
    ensures 0.0 <= x - q * m < m
  {
    var d := t - q;
    assert 0.0 <= d * m by { Scale(0.0, d, m); }
    assert d * m < m by { ScaleStrict(d, 1.0, m); }
    assert x == q * m + d * m;
  }

  lemma ModuloRange(x: real, m: real)
    requires m > 0.0
    ensures 0.0 <= Modulo(x, m) < m
  {
    assert x == x / m * m;
    PartOfStep(x, m, x / m, (x / m).Floor as real);
  }

  lemma Scale(x: real, y: real, m: real)
    requires x <= y && m >= 0.0
    ensures x * m <= y * m
  {
  }

  lemma ScaleStrict(x: real, y: real, m: real)
    requires x < y && m > 0.0
    ensures x * m < y * m
  {
  }

  /** The non-negative remainder is the only value in range that differs by a whole multiple. */
  lemma ModuloUnique(x: real, m: real, q: int, r: real)
    requires m > 0.0 && 0.0 <= r < m && x == q as real * m + r
    ensures Modulo(x, m) == r
  {
    var t := x / m;
    assert t * m == x;
    var gap := t - q as real;
    assert gap * m == r;
    if gap < 0.0 {
      ScaleStrict(gap, 0.0, m);
    } else if gap >= 1.0 {
      Scale(1.0, gap, m);
    }
    assert t.Floor == q;
  }

  /** `((h % 360) + 360) % 360` brings every hue, negative ones too, into 0..360. */
  lemma NormalizedHue(h: real)
    ensures Remainder(Remainder(h, 360.0) + 360.0, 360.0) == Modulo(h, 360.0)
  {
    ModuloRange(h, 360.0);
    ModuloRange(-h, 360.0);
    var first := Remainder(h, 360.0);
    var q := if h >= 0.0 then (h / 360.0).Floor else -((-h / 360.0).Floor);
    assert first == h - 360.0 * q as real;
    assert -360.0 < first < 360.0;
    ModuloRange(first + 360.0, 360.0);
    var second := Modulo(first + 360.0, 360.0);
    var p := ((first + 360.0) / 360.0).Floor;
    ModuloUnique(h, 360.0, q - 1 + p, second);
  }

  // ----- hue, saturation, lightness -----

  /** The closed form: how far a channel lies below the lightness, between -1 and 1. */
  function Weight(n: real, h: real): real {
    var k := Modulo(n + h / 30.0, 12.0);
    Max(-1.0, Min(Min(k - 3.0, 9.0 - k), 1.0))
  }

  /** A channel in 0..1; `n` is 0, 8 and 4 for red, green and blue. */
  function Channel(n: real, h: real, s: real, l: real): real {
    l - s * Min(l, 1.0 - l) * Weight(n, h)
  }

  /** Percentages outside 0..100 count as the nearer bound. */
  function Fraction(percent: real): real {
    Clamp(0.0, 100.0, percent) / 100.0
  }

  /** The colour of CSS Color 4, with saturation and lightness in percent and channels in 0..255. */
  function RgbOf(h: real, s: real, l: real): Rgb {
    var s, l := Fraction(s), Fraction(l);
    Rgb(Round(Channel(0.0, h, s, l) * 255.0),
        Round(Channel(8.0, h, s, l) * 255.0),
        Round(Channel(4.0, h, s, l) * 255.0))
  }

  lemma WeightPeriodic(n: real, h: real)
    ensures Weight(n, Modulo(h, 360.0)) == Weight(n, h)
  {
    var turns := (h / 360.0).Floor;
    var x := n + Modulo(h, 360.0) / 30.0;
    ModuloRange(x, 12.0);
    assert n + h / 30.0 == 12.0 * (turns + (x / 12.0).Floor) as real + Modulo(x, 12.0);
    ModuloUnique(n + h / 30.0, 12.0, turns + (x / 12.0).Floor, Modulo(x, 12.0));
  }

  /** The six sectors: a channel is at its top, at its bottom, or on a slope. */
  datatype Level = Top | Slope | Bottom

  function LevelWeight(level: Level, h: real): real {
    match level
    case Top => -1.0
    case Bottom => 1.0
    case Slope => 2.0 * Abs(Modulo(h / 60.0, 2.0) - 1.0) - 1.0
  }

  function Levels(h: real): (Level, Level, Level) {
    if h < 60.0 then (Top, Slope, Bottom)
    else if h < 120.0 then (Slope, Top, Bottom)
    else if h < 180.0 then (Bottom, Top, Slope)
    else if h < 240.0 then (Bottom, Slope, Top)
    else if h < 300.0 then (Slope, Bottom, Top)
    else (Top, Bottom, Slope)
  }

  lemma SlopeIs(h: real)
    requires 0.0 <= h < 360.0
    ensures Modulo(h / 60.0, 2.0) ==
            if h < 120.0 then h / 60.0 else if h < 240.0 then h / 60.0 - 2.0 else h / 60.0 - 4.0
  {
    var q := if h < 120.0 then 0 else if h < 240.0 then 1 else 2;
    ModuloUnique(h / 60.0, 2.0, q, h / 60.0 - 2.0 * q as real);
  }

  lemma PhaseIs(n: real, h: real)
    requires 0.0 <= h < 360.0 && 0.0 <= n <= 8.0
    ensures Modulo(n + h / 30.0, 12.0) == if n + h / 30.0 < 12.0 then n + h / 30.0 else n + h / 30.0 - 12.0
  {
    var q := if n + h / 30.0 < 12.0 then 0 else 1;
    ModuloUnique(n + h / 30.0, 12.0, q, n + h / 30.0 - 12.0 * q as real);
  }

  /** In every sector the level of each channel has the weight of the closed form. */
  lemma SectorWeights(h: real)
    requires 0.0 <= h < 360.0
    ensures LevelWeight(Levels(h).0, h) == Weight(0.0, h)
    ensures LevelWeight(Levels(h).1, h) == Weight(8.0, h)
    ensures LevelWeight(Levels(h).2, h) == Weight(4.0, h)
  {
    SlopeIs(h);
    PhaseIs(0.0, h);
    PhaseIs(8.0, h);
    PhaseIs(4.0, h);
    hide Modulo;
  }

  function LevelValue(level: Level, c: real, x: real): real {
    match level
    case Top => c
    case Slope => x
    case Bottom => 0.0
  }

  /** A level of the sector form, raised by `l - c / 2`, is the channel of the closed form. */
  lemma LevelIsChannel(level: Level, h: real, s: real, l: real, c: real, u: real)
    requires c == (1.0 - Abs(2.0 * l - 1.0)) * s
    requires u == 1.0 - Abs(Modulo(h / 60.0, 2.0) - 1.0)
    ensures LevelValue(level, c, c * u) + (l - c / 2.0) == l - s * Min(l, 1.0 - l) * LevelWeight(level, h)
  {
    var a := s * Min(l, 1.0 - l);
    assert 1.0 - Abs(2.0 * l - 1.0) == 2.0 * Min(l, 1.0 - l);
    assert c == 2.0 * a;
    assert c * u == 2.0 * (a * u);
    var w := LevelWeight(level, h);
    assert level.Slope? ==> w == 1.0 - 2.0 * u;
    assert level.Slope? ==> a * w == a - 2.0 * (a * u);
  }

  lemma SectorIsClosedForm(hue: real, h: real, s: real, l: real, c: real, u: real)
    requires h == Modulo(hue, 360.0)
    requires c == (1.0 - Abs(2.0 * l - 1.0)) * s
    requires u == 1.0 - Abs(Modulo(h / 60.0, 2.0) - 1.0)
    ensures var m := l - c / 2.0;
            && LevelValue(Levels(h).0, c, c * u) + m == Channel(0.0, hue, s, l)
            && LevelValue(Levels(h).1, c, c * u) + m == Channel(8.0, hue, s, l)
            && LevelValue(Levels(h).2, c, c * u) + m == Channel(4.0, hue, s, l)
  {
    hide Modulo, Abs, LevelValue, LevelWeight, Levels, Min, Weight;
    ModuloRange(hue, 360.0);
    SectorWeights(h);
    WeightPeriodic(0.0, hue);
    WeightPeriodic(8.0, hue);
    WeightPeriodic(4.0, hue);
    LevelIsChannel(Levels(h).0, h, s, l, c, u);
    LevelIsChannel(Levels(h).1, h, s, l, c, u);
    LevelIsChannel(Levels(h).2, h, s, l, c, u);
  }

  /** `hslToRgb`. */
  method HslToRgb(hue: real, saturation: real, lightness: real) returns (rgb: Rgb)
    ensures rgb == RgbOf(hue, saturation, lightness)
  {
    hide Round, Abs, Modulo, Channel;
    var h := Remainder(Remainder(hue, 360.0) + 360.0, 360.0);
    NormalizedHue(hue);
    ModuloRange(hue, 360.0);
    var s := Max(0.0, Min(100.0, saturation)) / 100.0;
    var l := Max(0.0, Min(100.0, lightness)) / 100.0;
    var c := (1.0 - Abs(2.0 * l - 1.0)) * s;
    RemainderIsModulo(h / 60.0, 2.0);
    var u := 1.0 - Abs(Remainder(h / 60.0, 2.0) - 1.0);
    var x := c * u;
    var m := l - c / 2.0;
    var r, g, b;
    if h < 60.0 {
      r, g, b := c, x, 0.0;
    } else if h < 120.0 {
      r, g, b := x, c, 0.0;
    } else if h < 180.0 {
      r, g, b := 0.0, c, x;
    } else if h < 240.0 {
      r, g, b := 0.0, x, c;
    } else if h < 300.0 {
      r, g, b := x, 0.0, c;
    } else {
      r, g, b := c, 0.0, x;
    }
    SectorIsClosedForm(hue, h, s, l, c, u);
    rgb := Rgb(Round((r + m) * 255.0), Round((g + m) * 255.0), Round((b + m) * 255.0));
  }

  lemma RemainderIsModulo(x: real, m: real)
    requires m > 0.0 && x >= 0.0
    ensures Remainder(x, m) == Modulo(x, m)
  {
  }

  lemma WeightRange(n: real, h: real)
    ensures -1.0 <= Weight(n, h) <= 1.0
  {
  }

  lemma ProductWithin(e: real, d: real, bound: real)
    requires -1.0 <= e <= 1.0 && -bound <= d <= bound
    ensures -bound <= e * d <= bound
  {
    var f := Abs(d);
    Scale(e, 1.0, f);
    Scale(-1.0, e, f);
    assert -f <= e * f <= f;
    assert e * f == if d < 0.0 then -(e * d) else e * d;
  }

  /** A channel does not fall when the lightness rises. */
  lemma ChannelMonotone(n: real, h: real, s: real, low: real, high: real)
    requires 0.0 <= s <= 1.0 && low <= high
    ensures Channel(n, h, s, low) <= Channel(n, h, s, high)
  {
    var w := Weight(n, h);
    WeightRange(n, h);
    ProductWithin(w, s, 1.0);
    var e := s * w;
    var d := Min(high, 1.0 - high) - Min(low, 1.0 - low);
    ProductWithin(e, d, high - low);
    assert s * Min(low, 1.0 - low) * w == e * Min(low, 1.0 - low);
    assert s * Min(high, 1.0 - high) * w == e * Min(high, 1.0 - high);
    assert e * Min(high, 1.0 - high) - e * Min(low, 1.0 - low) == e * d;
  }

  lemma ChannelRange(n: real, h: real, s: real, l: real)
    requires 0.0 <= s <= 1.0 && 0.0 <= l <= 1.0
    ensures 0.0 <= Channel(n, h, s, l) <= 1.0
  {
    ChannelMonotone(n, h, s, 0.0, l);
    ChannelMonotone(n, h, s, l, 1.0);
    assert s * 0.0 * Weight(n, h) == 0.0;
    hide Weight;
  }

  lemma RoundMonotone(x: real, y: real)
    requires x <= y
    ensures Round(x) <= Round(y)
  {
  }

  /** Every channel is a byte. */
  lemma ChannelsAreBytes(h: real, s: real, l: real)
    ensures var c := RgbOf(h, s, l); 0 <= c.r <= 255 && 0 <= c.g <= 255 && 0 <= c.b <= 255
  {
    forall n
      ensures 0 <= Round(Channel(n, h, Fraction(s), Fraction(l)) * 255.0) <= 255
    {
      ChannelRange(n, h, Fraction(s), Fraction(l));
      RoundMonotone(0.0, Channel(n, h, Fraction(s), Fraction(l)) * 255.0);
      RoundMonotone(Channel(n, h, Fraction(s), Fraction(l)) * 255.0, 255.0);
      hide Channel;
    }
    hide Channel, Round;
  }

  /** Raising the lightness darkens no channel. */
  lemma LighterIsNotDarker(h: real, s: real, low: real, high: real)
    requires low <= high
    ensures var a, b := RgbOf(h, s, low), RgbOf(h, s, high); a.r <= b.r && a.g <= b.g && a.b <= b.b
  {
    forall n
      ensures Round(Channel(n, h, Fraction(s), Fraction(low)) * 255.0) <=
              Round(Channel(n, h, Fraction(s), Fraction(high)) * 255.0)
    {
      ChannelMonotone(n, h, Fraction(s), Fraction(low), Fraction(high));
      RoundMonotone(Channel(n, h, Fraction(s), Fraction(low)) * 255.0,
                    Channel(n, h, Fraction(s), Fraction(high)) * 255.0);
      hide Channel, Round;
    }
    hide Channel, Round, Fraction;
  }

  // ----- brightness -----

  /** The shipped look. */
  const DEFAULT_HUE := 222.0
  const VEIL_HUE := 142.0

  /** The brightness slider runs from -15 to 15. */
  const REACH := 15.0

  /** `accentLight`: brighter by points, dimmer by fading to black. */
  function AccentLight(l: real, bright: real): real {
    if bright >= 0.0 then Max(0.0, Min(100.0, l + bright)) else Max(0.0, l * (1.0 + bright / REACH))
  }

  /** A missing or non-finite setting counts as its default. */
  function Setting(value: Option<real>, default: real): real {
    if value.Some? then value.value else default
  }

  function Highest(levels: seq<real>): (top: real)
    requires levels != []
    ensures top in levels && forall l <- levels :: l <= top
  {
    assert levels == [levels[0]] + levels[1..];
    if |levels| == 1 then levels[0] else Max(levels[0], Highest(levels[1..]))
  }

  function Lowest(levels: seq<real>): (bottom: real)
    requires levels != []
    ensures bottom in levels && forall l <- levels :: bottom <= l
  {
    assert levels == [levels[0]] + levels[1..];
    if |levels| == 1 then levels[0] else Min(levels[0], Lowest(levels[1..]))
  }

  /** How far the levels can move before one of them reaches the end of the range 2..100. */
  function Headroom(levels: seq<real>, bright: real): real
    requires levels != []
  {
    if bright > 0.0 then 100.0 - Highest(levels) else Lowest(levels) - 2.0
  }

  function Share(bright: real, scale: real): real {
    bright * scale
  }

  /** A brightness setting scaled to the headroom when that is less than the slider's reach. */
  function Scaled(room: real, bright: real): real {
    var scale := room / REACH;
    if scale < 1.0 then Share(bright, scale) else bright
  }

  /** The offset that is applied to every level. */
  function ScaledOffset(levels: seq<real>, bright: real): real
    requires levels != []
  {
    if bright == 0.0 then bright else Scaled(Headroom(levels, bright), bright)
  }

  /** A level table of a theme. */
  predicate Table(levels: seq<real>) {
    levels != [] && forall l <- levels :: 2.0 <= l <= 100.0
  }

  lemma ScaledOpposite(room: real, bright: real)
    ensures Scaled(room, -bright) == -Scaled(room, bright)
  {
  }

  lemma ScaledFits(room: real, bright: real)
    requires room >= 0.0 && bright > 0.0
    ensures 0.0 <= Scaled(room, bright) <= bright
    ensures Scaled(room, bright) <= room <==> room == 0.0 || bright <= Max(REACH, room)
  {
    if room < REACH {
      ProportionFits(room, room / REACH, bright);
    }
    hide Share;
  }

  lemma Product(x: real, y: real)
    requires x >= 0.0 && y >= 0.0
    ensures x * y >= 0.0
  {
  }

  /** A fraction of something lies between nothing and all of it. */
  lemma ShareWithin(x: real, t: real)
    requires x >= 0.0 && 0.0 <= t <= 1.0
    ensures 0.0 <= Share(x, t) <= x
  {
    Product(x, t);
    Product(x, 1.0 - t);
    assert x * (1.0 - t) == x - x * t;
  }

  lemma ProportionFits(room: real, scale: real, bright: real)
    requires room == scale * 15.0 && 0.0 <= scale < 1.0 && bright > 0.0
    ensures 0.0 <= Share(bright, scale) <= bright
    ensures Share(bright, scale) <= room <==> room == 0.0 || bright <= 15.0
  {
    ShareWithin(bright, scale);
    if bright <= 15.0 {
      Scale(bright, 15.0, scale);
    } else if scale > 0.0 {
      ScaleStrict(15.0, bright, scale);
    }
  }

  /** The scaled offset fits into the headroom exactly when the setting stays within the slider's reach, or
      within the headroom itself, or there is no headroom to scale by. */
  lemma OffsetFits(levels: seq<real>, bright: real)
    requires Table(levels)
    ensures Abs(ScaledOffset(levels, bright)) <= Headroom(levels, bright) <==>
            bright == 0.0 || Headroom(levels, bright) == 0.0 || Abs(bright) <= Max(REACH, Headroom(levels, bright))
    ensures bright >= 0.0 ==> 0.0 <= ScaledOffset(levels, bright) <= bright
    ensures bright <= 0.0 ==> bright <= ScaledOffset(levels, bright) <= 0.0
  {
    if bright > 0.0 {
      ScaledFits(Headroom(levels, bright), bright);
    } else if bright < 0.0 {
      ScaledFits(Headroom(levels, bright), -bright);
      ScaledOpposite(Headroom(levels, bright), bright);
    }
    hide Scaled;
  }

  lemma ShiftFits(levels: seq<real>, bright: real)
    requires Table(levels)
    ensures var off := ScaledOffset(levels, bright);
            (forall l <- levels :: 2.0 <= l + off <= 100.0) <==> Abs(off) <= Headroom(levels, bright)
  {
    OffsetFits(levels, bright);
    assert Highest(levels) in levels && Lowest(levels) in levels;
    hide ScaledOffset, Highest, Lowest;
  }

  /** The level a surface is painted with. */
  function Shifted(levels: seq<real>, l: real, bright: real): real
    requires levels != []
  {
    Max(2.0, Min(100.0, l + ScaledOffset(levels, bright)))
  }

  /** The clamp never binds - so every designed gap between two levels is kept - exactly when the setting is
      within the slider's reach, or within a larger headroom, or there is no headroom at all. */
  lemma GapsKeptExactly(levels: seq<real>, bright: real)
    requires Table(levels)
    ensures (forall l <- levels :: Shifted(levels, l, bright) == l + ScaledOffset(levels, bright)) <==>
            bright == 0.0 || Headroom(levels, bright) == 0.0 || Abs(bright) <= Max(REACH, Headroom(levels, bright))
  {
    ShiftFits(levels, bright);
    OffsetFits(levels, bright);
    var off := ScaledOffset(levels, bright);
    hide ScaledOffset, Headroom;
    forall l <- levels
      ensures Shifted(levels, l, bright) == l + off <==> 2.0 <= l + off <= 100.0
    {
    }
  }

  /** At either end of the slider the extreme level lands on the end of the range, if the slider reaches it. */
  lemma EndsOnBoundary(levels: seq<real>)
    requires Table(levels)
    ensures 100.0 - Highest(levels) <= REACH ==> Shifted(levels, Highest(levels), REACH) == 100.0
    ensures Lowest(levels) - 2.0 <= REACH ==> Shifted(levels, Lowest(levels), -REACH) == 2.0
  {
    var up, down := 100.0 - Highest(levels), Lowest(levels) - 2.0;
    assert Highest(levels) in levels && Lowest(levels) in levels;
    assert up < REACH ==> Scaled(up, REACH) == up;
    assert down < REACH ==> Scaled(down, -REACH) == -down;
    hide Highest, Lowest;
  }

  lemma ScaledMonotone(room: real, low: real, high: real)
    requires room >= 0.0 && low <= high
    ensures Scaled(room, low) <= Scaled(room, high)
  {
    Scale(low, high, room / REACH);
  }

  lemma OffsetMonotone(levels: seq<real>, low: real, high: real)
    requires Table(levels) && low <= high
    ensures ScaledOffset(levels, low) <= ScaledOffset(levels, high)
  {
    OffsetFits(levels, low);
    OffsetFits(levels, high);
    if low > 0.0 || high < 0.0 {
      ScaledMonotone(Headroom(levels, low), low, high);
    }
    hide Scaled, Highest, Lowest;
  }

  /** Moving the slider up darkens no channel of any surface. */
  lemma BrighterIsNotDarker(levels: seq<real>, l: real, hue: real, saturation: real, low: real, high: real)
    requires Table(levels) && low <= high
    ensures var a := RgbOf(hue, saturation, Shifted(levels, l, low));
            var b := RgbOf(hue, saturation, Shifted(levels, l, high));
            a.r <= b.r && a.g <= b.g && a.b <= b.b
  {
    OffsetMonotone(levels, low, high);
    LighterIsNotDarker(hue, saturation, Shifted(levels, l, low), Shifted(levels, l, high));
    hide RgbOf, ScaledOffset;
  }

  // ----- the panel -----

  const DARK_SATURATIONS := [8.0, 8.0, 8.0, 8.0, 8.0, 8.0]
  const DARK_LEVELS := [8.6, 13.9, 17.6, 21.4, 23.7, 33.5]
  const LIGHT_SATURATIONS := [22.0, 22.0, 21.5, 20.0, 8.0, 8.0]
  const LIGHT_LEVELS := [100.0, 96.5, 94.5, 92.2, 89.8, 83.1]

  function PanelLevels(light: bool): seq<real> {
    if light then LIGHT_LEVELS else DARK_LEVELS
  }

  function PanelSaturations(light: bool): seq<real> {
    if light then LIGHT_SATURATIONS else DARK_SATURATIONS
  }

  /** Hue shift, saturation and lightness of the brand colour. */
  function BrandSpec(light: bool): (real, real, real) {
    if light then (-1.3, 77.0, 57.8) else (0.9, 99.0, 66.7)
  }

  lemma ShippedTables(light: bool)
    ensures |PanelLevels(light)| == |PanelSaturations(light)| == 6 && Table(PanelLevels(light))
  {
  }

  function SurfaceColour(levels: seq<real>, l: real, hue: real, saturation: real, bright: real): Rgb
    requires levels != []
  {
    RgbOf(hue, saturation, Shifted(levels, l, bright))
  }

  /** The light theme is lighter than the dark one on every surface, and its brand is deeper. */
  lemma LightIsLighter(i: nat, j: nat)
    requires i < |PanelLevels(true)| && j < |PanelLevels(false)|
    ensures PanelLevels(true)[i] > PanelLevels(false)[j]
    ensures BrandSpec(true).2 < BrandSpec(false).2
  {
  }

  /** At the neutral setting every surface has the colour its table gives it. */
  lemma NeutralIsShipped(levels: seq<real>, i: nat, hue: real, saturation: real)
    requires Table(levels) && i < |levels|
    ensures SurfaceColour(levels, levels[i], hue, saturation, 0.0) == RgbOf(hue, saturation, levels[i])
  {
    assert levels[i] in levels;
    assert ScaledOffset(levels, 0.0) == 0.0;
    hide RgbOf, ScaledOffset;
  }

  /** The shipped surfaces, from the background to the hovered scroll bar. */
  lemma ShippedSurfaces(hue: real)
    ensures var levels, saturations := PanelLevels(false), PanelSaturations(false);
            SurfaceColour(levels, levels[0], hue, saturations[0], 0.0) == RgbOf(hue, 8.0, 8.6)
            && SurfaceColour(levels, levels[5], hue, saturations[5], 0.0) == RgbOf(hue, 8.0, 33.5)
    ensures var levels, saturations := PanelLevels(true), PanelSaturations(true);
            SurfaceColour(levels, levels[0], hue, saturations[0], 0.0) == RgbOf(hue, 22.0, 100.0)
            && SurfaceColour(levels, levels[5], hue, saturations[5], 0.0) == RgbOf(hue, 8.0, 83.1)
  {
    ShippedTables(true);
    ShippedTables(false);
    hide SurfaceColour, RgbOf, Table;
    NeutralIsShipped(PanelLevels(false), 0, hue, 8.0);
    NeutralIsShipped(PanelLevels(false), 5, hue, 8.0);
    NeutralIsShipped(PanelLevels(true), 0, hue, 22.0);
    NeutralIsShipped(PanelLevels(true), 5, hue, 8.0);
  }

  /** The colours of `panelTheme`: six surfaces and the brand. */
  method PanelTheme(light: bool, neutralHue: Option<real>, neutralBright: Option<real>,
                    accentHue: Option<real>, accentBright: Option<real>)
    returns (surfaces: seq<Rgb>, brand: Rgb)
    ensures |surfaces| == 6
    ensures var levels, bright := PanelLevels(light), Setting(neutralBright, 0.0);
            && |levels| == |PanelSaturations(light)| == 6
            && (forall i: nat | i < 6 :: surfaces[i] ==
                 SurfaceColour(levels, levels[i], Setting(neutralHue, DEFAULT_HUE), PanelSaturations(light)[i], bright))
            && (-REACH <= bright <= REACH ==>
                  forall l <- levels :: Shifted(levels, l, bright) == l + ScaledOffset(levels, bright))
    ensures brand == RgbOf(Setting(accentHue, DEFAULT_HUE) + BrandSpec(light).0, BrandSpec(light).1,
                           AccentLight(BrandSpec(light).2, Setting(accentBright, 0.0)))
  {
    hide Shifted, SurfaceColour, RgbOf, PanelLevels, PanelSaturations, Table, ScaledOffset, AccentLight, Headroom;
    ShippedTables(light);
    var hue := Setting(neutralHue, DEFAULT_HUE);
    var bright := Setting(neutralBright, 0.0);
    SliderKeepsGaps(PanelLevels(light), bright);
    surfaces := SurfacesFor(PanelLevels(light), PanelSaturations(light), hue, bright);
    var spec := BrandSpec(light);
    var lightness := AccentLight(spec.2, Setting(accentBright, 0.0));
    brand := HslToRgb(Setting(accentHue, DEFAULT_HUE) + spec.0, spec.1, lightness);
  }

  lemma SliderKeepsGaps(levels: seq<real>, bright: real)
    requires Table(levels)
    ensures -REACH <= bright <= REACH ==>
              forall l <- levels :: Shifted(levels, l, bright) == l + ScaledOffset(levels, bright)
  {
    GapsKeptExactly(levels, bright);
    hide Shifted, ScaledOffset, Headroom;
  }

  method SurfacesFor(levels: seq<real>, saturations: seq<real>, hue: real, bright: real) returns (surfaces: seq<Rgb>)
    requires levels != [] && |levels| == |saturations|
    ensures |surfaces| == |levels|
    ensures forall i: nat | i < |levels| :: surfaces[i] == SurfaceColour(levels, levels[i], hue, saturations[i], bright)
  {
    hide RgbOf, Highest, Lowest;
    var off := bright;
    if off != 0.0 {
      var headroom := if off > 0.0 then 100.0 - Highest(levels) else Lowest(levels) - 2.0;
      var scale := headroom / REACH;
      if scale < 1.0 {
        off := off * scale;
      }
    }
    assert off == ScaledOffset(levels, bright);
    surfaces := [];
    for i := 0 to |levels|
      invariant |surfaces| == i
      invariant forall k: nat | k < i :: surfaces[k] == SurfaceColour(levels, levels[k], hue, saturations[k], bright)
    {
      hide ScaledOffset;
      var l := Max(2.0, Min(100.0, levels[i] + off));
      var colour := HslToRgb(hue, saturations[i], l);
      surfaces := surfaces + [colour];
    }
  }

  // ----- the veil -----

  /** A palette role: hue shift, saturation, lightness. */
  datatype Role = Role(shift: real, saturation: real, lightness: real)

  function Lights(roles: seq<Role>): seq<real> {
    seq(|roles|, i requires 0 <= i < |roles| => roles[i].lightness)
  }

  /** The veil scales a positive brightness only; a negative one fades. */
  function VeilOffset(roles: seq<Role>, bright: real): real
    requires roles != []
  {
    if bright > 0.0 then Scaled(100.0 - Highest(Lights(roles)), bright) else bright
  }

  function RoleColour(role: Role, hue: real, off: real): Rgb {
    RgbOf(hue + role.shift, role.saturation, AccentLight(role.lightness, off))
  }

  /** `veilPalette` on a table of roles. */
  method VeilPalette(roles: seq<Role>, h: Option<real>, bright: Option<real>) returns (colours: seq<Rgb>)
    requires roles != []
    ensures |colours| == |roles|
    ensures forall i: nat | i < |roles| ::
              colours[i] == RoleColour(roles[i], Setting(h, VEIL_HUE), VeilOffset(roles, Setting(bright, 0.0)))
  {
    hide RgbOf, Highest, AccentLight;
    var hue := Setting(h, VEIL_HUE);
    var off := Setting(bright, 0.0);
    if off > 0.0 {
      var headroom := 100.0 - Highest(Lights(roles));
      var scale := headroom / REACH;
      if scale < 1.0 {
        off := off * scale;
      }
    }
    assert off == VeilOffset(roles, Setting(bright, 0.0));
    colours := [];
    for i := 0 to |roles|
      invariant |colours| == i
      invariant forall k: nat | k < i :: colours[k] == RoleColour(roles[k], hue, off)
    {
      var colour := HslToRgb(hue + roles[i].shift, roles[i].saturation, AccentLight(roles[i].lightness, off));
      colours := colours + [colour];
    }
  }

  /** At the neutral setting every role has the colour its table gives it. */
  lemma NeutralVeil(roles: seq<Role>, hue: real, i: nat)
    requires i < |roles| && 0.0 <= roles[i].lightness <= 100.0
    ensures RoleColour(roles[i], hue, VeilOffset(roles, 0.0)) ==
            RgbOf(hue + roles[i].shift, roles[i].saturation, roles[i].lightness)
  {
    hide RgbOf, Highest;
  }

  /** Brightening the veil moves every role by the same number of points. */
  lemma VeilKeepsGaps(roles: seq<Role>, bright: real, i: nat)
    requires i < |roles| && 0.0 <= bright <= REACH
    requires forall r <- roles :: 0.0 <= r.lightness <= 100.0
    ensures AccentLight(roles[i].lightness, VeilOffset(roles, bright)) == roles[i].lightness + VeilOffset(roles, bright)
    ensures 0.0 <= VeilOffset(roles, bright) <= bright
  {
    var lights := Lights(roles);
    assert lights[i] in lights;
    assert Highest(lights) in lights;
    if bright > 0.0 {
      ScaledFits(100.0 - Highest(lights), bright);
    }
    hide Scaled, Highest;
  }

  lemma DimmedWithin(l: real, bright: real)
    requires l >= 0.0 && -REACH <= bright < 0.0
    ensures AccentLight(l, bright) == Share(l, 1.0 + bright / REACH)
    ensures 0.0 <= AccentLight(l, bright) <= l
  {
    ShareWithin(l, 1.0 + bright / REACH);
  }

  /** Dimming keeps every ratio between two lightnesses, and reaches black at the end of the slider. */
  lemma DimmingKeepsRatios(a: real, b: real, bright: real)
    requires a >= 0.0 && b >= 0.0 && -REACH <= bright < 0.0
    ensures AccentLight(a, bright) * b == AccentLight(b, bright) * a
    ensures AccentLight(a, -REACH) == 0.0
    ensures 0.0 <= AccentLight(a, bright) <= a
  {
    DimmedWithin(a, bright);
    DimmedWithin(b, bright);
    var t := 1.0 + bright / REACH;
    hide AccentLight;
    assert a * t * b == b * t * a;
  }

  lemma ShareMonotone(low: real, high: real, t: real, u: real)
    requires 0.0 <= low <= high && 0.0 <= t <= u
    ensures Share(low, t) <= Share(high, u)
  {
    Product(high - low, t);
    Product(high, u - t);
    assert (high - low) * t == high * t - low * t;
    assert high * (u - t) == high * u - high * t;
  }

  /** A lighter accent stays lighter at every brightness, and a brighter setting darkens no accent. */
  lemma AccentMonotone(low: real, high: real, dim: real, bright: real)
    requires 0.0 <= low <= high <= 100.0 && -REACH <= dim <= bright
    ensures AccentLight(low, dim) <= AccentLight(high, bright)
  {
    if bright < 0.0 {
      DimmedWithin(low, dim);
      DimmedWithin(high, bright);
      ShareMonotone(low, high, 1.0 + dim / REACH, 1.0 + bright / REACH);
      hide AccentLight, Share;
    } else if dim < 0.0 {
      DimmedWithin(low, dim);
      assert AccentLight(high, bright) >= high;
      hide AccentLight, Share;
    }
  }
}
