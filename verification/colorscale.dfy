/** The transparent colour scale of the spinning-spheres animation:
    a named palette of `#rrggbb` colours becomes a list of
    `[position, rgba]` stops whose alpha grows linearly along the scale. */
module Colorscale {
  import opened Numerics

  datatype Option<T> = None | Some(value: T)

  /** Why building a scale can fail: `i / (n_colors - 1)` with a single colour,
      or a `#` colour whose hex pairs `int(..., 16)` rejects. */
  datatype ScaleError = DivisionByZero | InvalidHex(color: string)

  datatype Result<T> = Ok(value: T) | Err(error: ScaleError)

  datatype Rgb = Rgb(r: nat, g: nat, b: nat)

  /** The `rgba(r,g,b,alpha)` colour of one stop, kept as numbers rather than text. */
  datatype Rgba = Rgba(r: nat, g: nat, b: nat, alpha: real)

  /** One `[position, rgba]` stop of the scale. */
  datatype Entry = Entry(position: real, color: Rgba)

  const ViridisColors: seq<string> := ["#440154", "#31688e", "#35b779", "#fde724"]
  const PlasmaColors: seq<string> := ["#0d0887", "#7e03a8", "#cc4778", "#f89540", "#f0f921"]

  /** The fixed palette for a colour-scale name; names other than the two known
      ones fall back to the Plasma colours. */
  function Palette(name: string): seq<string> {
    if name == "Viridis" then ViridisColors
    else if name == "Plasma" then PlasmaColors
    else PlasmaColors
  }

  // ----- hexadecimal decoding -----

  predicate IsHexDigit(c: char) {
    '0' <= c <= '9' || 'a' <= c <= 'f' || 'A' <= c <= 'F'
  }

  predicate IsLowerHexDigit(c: char) {
    '0' <= c <= '9' || 'a' <= c <= 'f'
  }

  function DigitValue(c: char): (v: nat)
    requires IsHexDigit(c)
    ensures v < 16
  {
    if '0' <= c <= '9' then c as int - '0' as int
    else if 'a' <= c <= 'f' then c as int - 'a' as int + 10
    else c as int - 'A' as int + 10
  }

  /** The lower-case digit for a value below 16. */
  function HexChar(v: nat): (c: char)
    requires v < 16
    ensures IsLowerHexDigit(c)
  {
    if v < 10 then ('0' as int + v) as char else ('a' as int + v - 10) as char
  }

  function Pow16(n: nat): (p: nat)
    ensures p > 0
  {
    if n == 0 then 1 else 16 * Pow16(n - 1)
  }

  /** `int(s, 16)` on a string of hex digits: `None` where Python raises ValueError. */
  function ParseHex(s: string): (r: Option<nat>)
    ensures r.Some? <==> (|s| > 0 && forall k :: 0 <= k < |s| ==> IsHexDigit(s[k]))
    ensures r.Some? ==> r.value < Pow16(|s|)
    decreases |s|
  {
    if |s| == 0 || !IsHexDigit(s[|s| - 1]) then None
    else if |s| == 1 then Some(DigitValue(s[0]))
    else
      match ParseHex(s[..|s| - 1])
      case None => None
      case Some(v) =>
        assert s[..|s| - 1] + [s[|s| - 1]] == s;
        Some(16 * v + DigitValue(s[|s| - 1]))
  }

  /** Python's `s[lo:hi]` for 0 <= lo <= hi: indices past the end are clamped. */
  function Slice(s: string, lo: nat, hi: nat): (r: string)
    requires lo <= hi
    ensures |r| <= hi - lo
    ensures hi <= |s| ==> r == s[lo..hi]
  {
    if hi <= |s| then s[lo..hi] else if lo <= |s| then s[lo..] else []
  }

  predicate StartsWithHash(color: string) {
    |color| > 0 && color[0] == '#'
  }

  /** A well-formed `#rrggbb` colour. */
  predicate IsHexColor(color: string) {
    |color| == 7 && color[0] == '#' && forall k :: 1 <= k < 7 ==> IsHexDigit(color[k])
  }

  lemma ShortHexBelow256(s: string)
    requires |s| <= 2 && ParseHex(s).Some?
    ensures ParseHex(s).value < 256
  {
    assert Pow16(1) == 16;
    assert Pow16(2) == 256;
  }

  /** The three channels of `#rrggbb`, read from characters 1-2, 3-4 and 5-6. */
  function DecodeRgb(color: string): (c: Option<Rgb>)
    ensures c.Some? ==> c.value.r < 256 && c.value.g < 256 && c.value.b < 256
    ensures IsHexColor(color) ==> c.Some?
  {
    var r := ParseHex(Slice(color, 1, 3));
    var g := ParseHex(Slice(color, 3, 5));
    var b := ParseHex(Slice(color, 5, 7));
    if r.Some? && g.Some? && b.Some? then
      ShortHexBelow256(Slice(color, 1, 3));
      ShortHexBelow256(Slice(color, 3, 5));
      ShortHexBelow256(Slice(color, 5, 7));
      Some(Rgb(r.value, g.value, b.value))
    else None
  }

  /** The two lower-case hex digits of a channel value. */
  function HexPair(v: nat): (s: string)
    requires v < 256
    ensures |s| == 2 && IsLowerHexDigit(s[0]) && IsLowerHexDigit(s[1])
  {
    [HexChar(v / 16), HexChar(v % 16)]
  }

  /** The `#rrggbb` spelling of a colour. */
  function HexColor(c: Rgb): (s: string)
    requires c.r < 256 && c.g < 256 && c.b < 256
    ensures IsHexColor(s)
  {
    "#" + HexPair(c.r) + HexPair(c.g) + HexPair(c.b)
  }

  lemma DigitValueOfHexChar(v: nat)
    requires v < 16
    ensures DigitValue(HexChar(v)) == v
  {
  }

  lemma HexCharOfDigitValue(c: char)
    requires IsLowerHexDigit(c)
    ensures HexChar(DigitValue(c)) == c
  {
  }

  lemma ParsePair(s: string)
    requires |s| == 2 && IsHexDigit(s[0]) && IsHexDigit(s[1])
    ensures ParseHex(s) == Some(16 * DigitValue(s[0]) + DigitValue(s[1]))
  {
    assert s[..1] == [s[0]];
  }

  /** Reading back the two digits written for a channel gives the channel. */
  lemma HexPairRoundTrip(v: nat)
    requires v < 256
    ensures ParseHex(HexPair(v)) == Some(v)
  {
    var s := HexPair(v);
    ParsePair(s);
    DigitValueOfHexChar(v / 16);
    DigitValueOfHexChar(v % 16);
  }

  /** Writing out a decoded lower-case pair gives the pair back. */
  lemma ParseHexPairInverse(s: string)
    requires |s| == 2 && IsLowerHexDigit(s[0]) && IsLowerHexDigit(s[1])
    ensures ParseHex(s).Some? && ParseHex(s).value < 256
    ensures HexPair(ParseHex(s).value) == s
  {
    ParsePair(s);
    var v := 16 * DigitValue(s[0]) + DigitValue(s[1]);
    assert v / 16 == DigitValue(s[0]) && v % 16 == DigitValue(s[1]);
    HexCharOfDigitValue(s[0]);
    HexCharOfDigitValue(s[1]);
  }

  /** Decoding the `#rrggbb` spelling of a colour gives the colour back. */
  lemma DecodeRgbRoundTrip(c: Rgb)
    requires c.r < 256 && c.g < 256 && c.b < 256
    ensures DecodeRgb(HexColor(c)) == Some(c)
  {
    var s := HexColor(c);
    assert Slice(s, 1, 3) == HexPair(c.r);
    assert Slice(s, 3, 5) == HexPair(c.g);
    assert Slice(s, 5, 7) == HexPair(c.b);
    HexPairRoundTrip(c.r);
    HexPairRoundTrip(c.g);
    HexPairRoundTrip(c.b);
  }

  // ----- positions and alphas -----

  /** `i / (n_colors - 1)`. */
  function Position(i: nat, n: nat): real
    requires n >= 2
  {
    i as real / (n - 1) as real
  }

  /** `min_alpha + (max_alpha - min_alpha) * position`. */
  function Alpha(minAlpha: real, maxAlpha: real, position: real): real {
    minAlpha + (maxAlpha - minAlpha) * position
  }

  /** Positions run from 0 at the first colour to 1 at the last, strictly increasing. */
  lemma PositionsSpan(n: nat, i: nat, j: nat)
    requires n >= 2
    ensures Position(0, n) == 0.0
    ensures Position(n - 1, n) == 1.0
    ensures i < n ==> 0.0 <= Position(i, n) <= 1.0
    ensures i < j ==> Position(i, n) < Position(j, n)
  {
    var d := (n - 1) as real;
    assert Position(0, n) == 0.0 / d;
    assert Position(n - 1, n) == d / d;
    if i < j {
      QuotientsIncrease(i as real, j as real, d);
    }
    if i < n {
      QuotientAtMostOne(i as real, d);
    }
  }

  lemma QuotientsIncrease(a: real, b: real, d: real)
    requires a < b && 0.0 < d
    ensures a / d < b / d
  {
  }

  lemma QuotientAtMostOne(a: real, d: real)
    requires 0.0 <= a <= d && 0.0 < d
    ensures 0.0 <= a / d
    ensures a / d <= 1.0
  {
    assert 0.0 <= (d - a) / d;
    assert (d - a) / d == d / d - a / d;
    assert d / d == 1.0;
  }

  /** Alpha is `min_alpha` at position 0 and `max_alpha` at position 1. */
  lemma AlphaEndpoints(minAlpha: real, maxAlpha: real)
    ensures Alpha(minAlpha, maxAlpha, 0.0) == minAlpha
    ensures Alpha(minAlpha, maxAlpha, 1.0) == maxAlpha
  {
  }

  /** Between the ends of the scale, alpha lies between `min_alpha` and `max_alpha`. */
  lemma AlphaBetween(minAlpha: real, maxAlpha: real, position: real)
    requires minAlpha <= maxAlpha && 0.0 <= position <= 1.0
    ensures minAlpha <= Alpha(minAlpha, maxAlpha, position) <= maxAlpha
  {
    var span := maxAlpha - minAlpha;
    var step := span * position;
    FractionOf(span, position);
    assert 0.0 <= step <= span;
    assert Alpha(minAlpha, maxAlpha, position) == minAlpha + step;
  }

  // ----- the scale -----

  /** The scale built from the first `j` colours, as the loop has it after `j` iterations. */
  function ScaleUpTo(colors: seq<string>, j: nat, minAlpha: real, maxAlpha: real): Result<seq<Entry>>
    requires j <= |colors|
  {
    if j == 0 then Ok([])
    else
      match ScaleUpTo(colors, j - 1, minAlpha, maxAlpha)
      case Err(e) => Err(e)
      case Ok(prev) =>
        if |colors| == 1 then Err(DivisionByZero)
        else
          var position := Position(j - 1, |colors|);
          var alpha := Alpha(minAlpha, maxAlpha, position);
          var color := colors[j - 1];
          if !StartsWithHash(color) then Ok(prev)
          else
            match DecodeRgb(color)
            case None => Err(InvalidHex(color))
            case Some(c) => Ok(prev + [Entry(position, Rgba(c.r, c.g, c.b, alpha))])
  }

  function ScaleOf(colors: seq<string>, minAlpha: real, maxAlpha: real): Result<seq<Entry>> {
    ScaleUpTo(colors, |colors|, minAlpha, maxAlpha)
  }

  /** The number of colours that start with `#`. */
  function HashCount(colors: seq<string>): (n: nat)
    ensures n <= |colors|
  {
    if colors == [] then 0
    else HashCount(colors[..|colors| - 1]) + (if StartsWithHash(colors[|colors| - 1]) then 1 else 0)
  }

  /** Once the loop has failed, the scale stays failed with the same error. */
  lemma {:induction false} ErrorPersists(colors: seq<string>, j: nat, k: nat, minAlpha: real, maxAlpha: real)
    requires j <= k <= |colors|
    requires ScaleUpTo(colors, j, minAlpha, maxAlpha).Err?
    ensures ScaleUpTo(colors, k, minAlpha, maxAlpha) == ScaleUpTo(colors, j, minAlpha, maxAlpha)
    decreases k
  {
    if j < k {
      ErrorPersists(colors, j, k - 1, minAlpha, maxAlpha);
    }
  }

  /** One stop per colour that starts with `#`; every other colour is skipped.
      Only the count is stated here: for lists that mix in other colours, which
      stop belongs to which `#` colour is left to `ScaleUpTo` itself (the fixed
      palettes have no such colours, and `ScaleOfHexColors` pins every stop). */
  lemma {:induction false} ScaleCountsHashColors(colors: seq<string>, j: nat, minAlpha: real, maxAlpha: real)
    requires j <= |colors|
    requires ScaleUpTo(colors, j, minAlpha, maxAlpha).Ok?
    ensures |ScaleUpTo(colors, j, minAlpha, maxAlpha).value| == HashCount(colors[..j])
  {
    if j > 0 {
      ScaleCountsHashColors(colors, j - 1, minAlpha, maxAlpha);
      assert colors[..j][..j - 1] == colors[..j - 1];
    }
  }

  /** The stop the loop writes for colour `k` of a list of well-formed colours. */
  predicate IsStopFor(colors: seq<string>, k: nat, e: Entry, minAlpha: real, maxAlpha: real)
    requires 2 <= |colors| && k < |colors|
  {
    && e.position == Position(k, |colors|)
    && e.color.alpha == Alpha(minAlpha, maxAlpha, e.position)
    && DecodeRgb(colors[k]) == Some(Rgb(e.color.r, e.color.g, e.color.b))
  }

  /** For well-formed `#rrggbb` colours, stop `k` sits at `k/(n-1)`, carries the
      decoded channels of colour `k` and the alpha interpolated at its position. */
  lemma {:induction false} ScaleOfHexColors(colors: seq<string>, j: nat, minAlpha: real, maxAlpha: real)
    requires 2 <= |colors| && j <= |colors|
    requires forall k :: 0 <= k < |colors| ==> IsHexColor(colors[k])
    ensures ScaleUpTo(colors, j, minAlpha, maxAlpha).Ok?
    ensures |ScaleUpTo(colors, j, minAlpha, maxAlpha).value| == j
    ensures forall k :: 0 <= k < j ==>
              IsStopFor(colors, k, ScaleUpTo(colors, j, minAlpha, maxAlpha).value[k], minAlpha, maxAlpha)
  {
    if j > 0 {
      ScaleOfHexColors(colors, j - 1, minAlpha, maxAlpha);
      assert IsHexColor(colors[j - 1]);
    }
  }

  /** Every colour of both fixed palettes is a well-formed `#rrggbb` colour. */
  lemma PalettesAreHexColors(name: string)
    ensures name == "Viridis" ==> |Palette(name)| == 4
    ensures name != "Viridis" ==> Palette(name) == PlasmaColors && |Palette(name)| == 5
    ensures forall k :: 0 <= k < |Palette(name)| ==> IsHexColor(Palette(name)[k])
  {
    var p := Palette(name);
    forall k | 0 <= k < |p| ensures IsHexColor(p[k]) {
      var c := p[k];
      assert |c| == 7 && c[0] == '#';
      assert forall i :: 1 <= i < 7 ==> IsHexDigit(c[i]);
    }
  }

  /** The loop of `create_transparent_colorscale` over an arbitrary colour list:
      it stops with the error Python would raise, or returns the stops. */
  method ColorscaleFromColors(colors: seq<string>, minAlpha: real, maxAlpha: real)
    returns (result: Result<seq<Entry>>)
    ensures result == ScaleOf(colors, minAlpha, maxAlpha)
    ensures result.Ok? ==> |result.value| == HashCount(colors)
  {
    var nColors := |colors|;
    var colorscale: seq<Entry> := [];
    for i := 0 to nColors
      invariant ScaleUpTo(colors, i, minAlpha, maxAlpha) == Ok(colorscale)
    {
      if nColors == 1 {
        ErrorPersists(colors, i + 1, nColors, minAlpha, maxAlpha);
        return Err(DivisionByZero);
      }
      var position := Position(i, nColors);
      var alpha := Alpha(minAlpha, maxAlpha, position);
      var color := colors[i];
      if StartsWithHash(color) {
        var rgb := DecodeRgb(color);
        if rgb.None? {
          ErrorPersists(colors, i + 1, nColors, minAlpha, maxAlpha);
          return Err(InvalidHex(color));
        }
        colorscale := colorscale + [Entry(position, Rgba(rgb.value.r, rgb.value.g, rgb.value.b, alpha))];
      }
    }
    result := Ok(colorscale);
    ScaleCountsHashColors(colors, nColors, minAlpha, maxAlpha);
    assert colors[..nColors] == colors;
  }

  /** `create_transparent_colorscale`: one stop per palette colour, positions from 0
      to 1 in strictly increasing order, channels in 0..255 decoded from the palette,
      alpha from `minAlpha` at the first stop to `maxAlpha` at the last. */
  method CreateTransparentColorscale(baseColorscale: string, minAlpha: real := 0.3, maxAlpha: real := 0.9)
    returns (colorscale: seq<Entry>)
    ensures |colorscale| == |Palette(baseColorscale)|
    ensures |colorscale| == (if baseColorscale == "Viridis" then 4 else 5)
    ensures forall k :: 0 <= k < |colorscale| ==>
              IsStopFor(Palette(baseColorscale), k, colorscale[k], minAlpha, maxAlpha)
    ensures colorscale[0].position == 0.0 && colorscale[|colorscale| - 1].position == 1.0
    ensures forall i, j :: 0 <= i < j < |colorscale| ==> colorscale[i].position < colorscale[j].position
    ensures forall k :: 0 <= k < |colorscale| ==>
              colorscale[k].color.r < 256 && colorscale[k].color.g < 256 && colorscale[k].color.b < 256
    ensures colorscale[0].color.alpha == minAlpha
    ensures colorscale[|colorscale| - 1].color.alpha == maxAlpha
    ensures minAlpha <= maxAlpha ==>
              forall k :: 0 <= k < |colorscale| ==> minAlpha <= colorscale[k].color.alpha <= maxAlpha
  {
    var colors := Palette(baseColorscale);
    PalettesAreHexColors(baseColorscale);
    ScaleOfHexColors(colors, |colors|, minAlpha, maxAlpha);
    var result := ColorscaleFromColors(colors, minAlpha, maxAlpha);
    colorscale := result.value;
    var n := |colors|;
    PositionsSpan(n, 0, 0);
    AlphaEndpoints(minAlpha, maxAlpha);
    forall i, j | 0 <= i < j < n ensures colorscale[i].position < colorscale[j].position {
      PositionsSpan(n, i, j);
    }
    forall k | 0 <= k < n
      ensures minAlpha <= maxAlpha ==> minAlpha <= colorscale[k].color.alpha <= maxAlpha
    {
      PositionsSpan(n, k, k);
      if minAlpha <= maxAlpha {
        AlphaBetween(minAlpha, maxAlpha, colorscale[k].position);
      }
    }
  }
}
