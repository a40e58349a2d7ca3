/**
 * acradio's background: the constant table from hour of day to a list of
 * colour stops, and the layout `GradientRect.draw` computes from it: one
 * horizontal band per consecutive pair of stops, stacked from the top of
 * the rectangle (position 0.0) to its bottom (position 1.0).
 */
module Background {
  import opened Wrappers

  /** A colour stop: a position in [0, 1] and a 24-bit 0xRRGGBB colour. */
  datatype Stop = Stop(pos: real, colour: int)

  type Gradient = seq<Stop>

  /** The `gradients` table, keyed by hour of day. */
  const Gradients: map<int, Gradient> := map[
    0 := [Stop(0.0, 0x020111), Stop(0.85, 0x020111), Stop(1.0, 0x191621)],
    1 := [Stop(0.0, 0x020111), Stop(0.6, 0x020111), Stop(1.0, 0x20202C)],
    2 := [Stop(0.0, 0x020111), Stop(0.1, 0x020111), Stop(1.0, 0x3A3A52)],
    3 := [Stop(0.0, 0x20202C), Stop(1.0, 0x515175)],
    4 := [Stop(0.0, 0x40405C), Stop(0.8, 0x6F71AA), Stop(1.0, 0x8A76AB)],
    5 := [Stop(0.0, 0xA44969), Stop(0.5, 0x7072AB), Stop(1.0, 0xCD82A0)],
    6 := [Stop(0.0, 0x757ABF), Stop(0.6, 0x8583BE), Stop(1.0, 0xEAB0D1)],
    7 := [Stop(0.0, 0x82ADDB), Stop(1.0, 0xEBB2B1)],
    8 := [Stop(0.0, 0x94C5F8), Stop(0.7, 0xA6E6FF), Stop(1.0, 0xB1B5EA)],
    9 := [Stop(0.0, 0xB7EAFF), Stop(1.0, 0x94DFFF)],
    10 := [Stop(0.0, 0x9BE2FE), Stop(1.0, 0x67D1FB)],
    11 := [Stop(0.0, 0x90DFFE), Stop(1.0, 0x38A3D1)],
    12 := [Stop(0.0, 0x57C1EB), Stop(1.0, 0x246FA8)],
    13 := [Stop(0.0, 0x2D91C2), Stop(1.0, 0x1E528E)],
    14 := [Stop(0.0, 0x90DFFE), Stop(1.0, 0x38A3D1)],
    15 := [Stop(0.0, 0x2473AB), Stop(0.7, 0x1E528E), Stop(1.0, 0x5B7983)],
    16 := [Stop(0.0, 0x1E528E), Stop(0.5, 0x265889), Stop(1.0, 0x9DA671)],
    17 := [Stop(0.0, 0x154277), Stop(0.3, 0x576E71), Stop(0.7, 0xE1C45E), Stop(1.0, 0xB26339)],
    18 := [Stop(0.0, 0x163C52), Stop(0.3, 0x4F4F47), Stop(0.6, 0xC5752D), Stop(0.8, 0xB7490F), Stop(1.0, 0x2F1107)],
    19 := [Stop(0.0, 0x071B26), Stop(0.3, 0x071B26), Stop(0.8, 0x8A3B12), Stop(1.0, 0x240E03)],
    20 := [Stop(0.0, 0x010A10), Stop(0.3, 0x010A10), Stop(0.8, 0x59230B), Stop(1.0, 0x2F1107)],
    21 := [Stop(0.0, 0x090401), Stop(0.5, 0x090401), Stop(1.0, 0x4B1D06)],
    22 := [Stop(0.0, 0x00000C), Stop(0.8, 0x00000C), Stop(1.0, 0x150800)],
    23 := [Stop(0.0, 0x00000C), Stop(0.8, 0x00000C), Stop(1.0, 0x150800)]
  ]

  /** A value `Color.from_uint24` accepts. */
  predicate FitsUint24(c: int)
  {
    0 <= c < 0x1000000
  }

  /** Each stop position is smaller than the next one. */
  predicate Increasing(g: Gradient)
  {
    |g| < 2 || (g[0].pos < g[1].pos && Increasing(g[1..]))
  }

  /** Every colour fits in 24 bits. */
  predicate ColoursFit(g: Gradient)
  {
    |g| == 0 || (FitsUint24(g[0].colour) && ColoursFit(g[1..]))
  }

  /** A gradient that spans the whole rectangle: from 0.0 to 1.0, increasing, with 24-bit colours. */
  predicate WellFormed(g: Gradient)
  {
    |g| >= 2 && g[0].pos == 0.0 && g[|g| - 1].pos == 1.0 && Increasing(g) && ColoursFit(g)
  }

  /** Increasing neighbours give positions that increase over every pair. */
  lemma {:induction false} IncreasingEverywhere(g: Gradient)
    requires Increasing(g)
    ensures forall i, j :: 0 <= i < j < |g| ==> g[i].pos < g[j].pos
  {
    if |g| >= 2 {
      IncreasingEverywhere(g[1..]);
      forall i, j | 0 <= i < j < |g|
        ensures g[i].pos < g[j].pos
      {
        if 0 < i {
          assert g[i] == g[1..][i - 1] && g[j] == g[1..][j - 1];
        } else if 1 < j {
          assert g[1] == g[1..][0] && g[j] == g[1..][j - 1];
        }
      }
    }
  }

  /** The colours fit one by one. */
  lemma {:induction false} ColoursFitEverywhere(g: Gradient)
    requires ColoursFit(g)
    ensures forall i :: 0 <= i < |g| ==> FitsUint24(g[i].colour)
  {
    if |g| > 0 {
      ColoursFitEverywhere(g[1..]);
      forall i | 0 < i < |g|
        ensures FitsUint24(g[i].colour)
      {
        assert g[i] == g[1..][i - 1];
      }
    }
  }

  /** The hour of day `h`, as the table is keyed. */
  predicate IsHour(h: int)
  {
    0 <= h <= 23
  }

  lemma HoursWellFormed0To2()
    ensures forall h :: 0 <= h <= 2 ==> WellFormed(Gradients[h])
  {
    assert WellFormed(Gradients[0]);
    assert WellFormed(Gradients[1]);
    assert WellFormed(Gradients[2]);
  }

  lemma HoursWellFormed3To5()
    ensures forall h :: 3 <= h <= 5 ==> WellFormed(Gradients[h])
  {
    assert WellFormed(Gradients[3]);
    assert WellFormed(Gradients[4]);
    assert WellFormed(Gradients[5]);
  }

  lemma HoursWellFormed6To8()
    ensures forall h :: 6 <= h <= 8 ==> WellFormed(Gradients[h])
  {
    assert WellFormed(Gradients[6]);
    assert WellFormed(Gradients[7]);
    assert WellFormed(Gradients[8]);
  }

  lemma HoursWellFormed9To11()
    ensures forall h :: 9 <= h <= 11 ==> WellFormed(Gradients[h])
  {
    assert WellFormed(Gradients[9]);
    assert WellFormed(Gradients[10]);
    assert WellFormed(Gradients[11]);
  }

  lemma HoursWellFormed12To14()
    ensures forall h :: 12 <= h <= 14 ==> WellFormed(Gradients[h])
  {
    assert WellFormed(Gradients[12]);
    assert WellFormed(Gradients[13]);
    assert WellFormed(Gradients[14]);
  }

  lemma HoursWellFormed15To17()
    ensures forall h :: 15 <= h <= 17 ==> WellFormed(Gradients[h])
  {
    assert WellFormed(Gradients[15]);
    assert WellFormed(Gradients[16]);
    assert WellFormed(Gradients[17]);
  }

  lemma HoursWellFormed18To20()
    ensures forall h :: 18 <= h <= 20 ==> WellFormed(Gradients[h])
  {
    assert WellFormed(Gradients[18]);
    assert WellFormed(Gradients[19]);
    assert WellFormed(Gradients[20]);
  }

  lemma HoursWellFormed21To23()
    ensures forall h :: 21 <= h <= 23 ==> WellFormed(Gradients[h])
  {
    assert WellFormed(Gradients[21]);
    assert WellFormed(Gradients[22]);
    assert WellFormed(Gradients[23]);
  }

  /** The table has one entry for each hour 0..23 and nothing else, and every entry is well formed. */
  lemma GradientTableWellFormed()
    ensures forall h :: h in Gradients <==> IsHour(h)
    ensures forall h :: h in Gradients ==> WellFormed(Gradients[h])
  {
    HoursWellFormed0To2();
    HoursWellFormed3To5();
    HoursWellFormed6To8();
    HoursWellFormed9To11();
    HoursWellFormed12To14();
    HoursWellFormed15To17();
    HoursWellFormed18To20();
    HoursWellFormed21To23();
  }

  /** An RGBA colour as `arcade.types.Color` holds it. */
  datatype Color = Color(r: int, g: int, b: int, a: int)

  /** `Color.from_uint24`: splits 0xRRGGBB into bytes with an opaque alpha; values outside 24 bits are rejected. */
  function FromUint24(c: int): (r: Option<Color>)
    ensures r.Some? <==> FitsUint24(c)
    ensures r.Some? ==> 0 <= r.value.r < 256 && 0 <= r.value.g < 256 && 0 <= r.value.b < 256 && r.value.a == 255
  {
    if FitsUint24(c) then Some(Color(c / 0x10000, (c / 0x100) % 0x100, c % 0x100, 255)) else None
  }

  /** Packing the bytes back gives the value `from_uint24` was given. */
  lemma FromUint24RoundTrip(c: int)
    requires FitsUint24(c)
    ensures var col := FromUint24(c).value; col.r * 0x10000 + col.g * 0x100 + col.b == c
  {
    var q := c / 0x100;
    assert c == q * 0x100 + c % 0x100;
    assert q == (q / 0x100) * 0x100 + q % 0x100;
    assert q / 0x100 == c / 0x10000;
  }

  /** An arcade `Rect`, given by its edges; its height is top minus bottom. */
  datatype Rect = Rect(left: real, right: real, bottom: real, top: real)
  {
    function Height(): real
    {
      top - bottom
    }
  }

  /** One band drawn by `draw_rect_gradient`: its edges and the colours of its two stops. */
  datatype Strip = Strip(left: real, right: real, bottom: real, top: real, first: Color, second: Color)

  /** The y-coordinate of position `p`: position 0.0 is the top, 1.0 the bottom. */
  function Level(rect: Rect, p: real): (y: real)
    ensures p == 0.0 ==> y == rect.top
    ensures p == 1.0 ==> y == rect.bottom
  {
    rect.bottom + rect.Height() * (1.0 - p)
  }

  /** The band between stops `a` and `b`: from the level of `b` up to the level of `a`. */
  function StripOf(rect: Rect, a: Stop, b: Stop): (s: Strip)
    requires FitsUint24(a.colour) && FitsUint24(b.colour)
    ensures s.left == rect.left && s.right == rect.right
    ensures rect.Height() >= 0.0 && a.pos <= b.pos ==> s.bottom <= s.top
    ensures s.first == FromUint24(a.colour).value && s.second == FromUint24(b.colour).value
  {
    LevelAntitone(rect, a.pos, b.pos);
    Strip(rect.left, rect.right, Level(rect, b.pos), Level(rect, a.pos),
          FromUint24(a.colour).value, FromUint24(b.colour).value)
  }

  /** `s` holds, in order, the band of each consecutive pair of stops of `g`. */
  predicate IsLayoutOf(s: seq<Strip>, rect: Rect, g: Gradient)
  {
    forall i {:trigger s[i]} :: 0 <= i < |s| ==>
      (i + 1 < |g| && FitsUint24(g[i].colour) && FitsUint24(g[i + 1].colour)
       && s[i] == StripOf(rect, g[i], g[i + 1]))
  }

  /**
   * `GradientRect.draw`: one strip per consecutive pair of stops, in order.
   * A colour outside 24 bits stops the drawing with that value as the error.
   */
  function Strips(rect: Rect, g: Gradient): (r: Result<seq<Strip>, int>)
    ensures r.Ok? <==> |g| < 2 || forall i :: 0 <= i < |g| ==> FitsUint24(g[i].colour)
    ensures r.Ok? ==> |r.value| == if |g| < 2 then 0 else |g| - 1
    ensures r.Ok? ==> IsLayoutOf(r.value, rect, g)
  {
    if |g| < 2 then Ok([])
    else if !FitsUint24(g[0].colour) then Err(g[0].colour)
    else if !FitsUint24(g[1].colour) then Err(g[1].colour)
    else
      match Strips(rect, g[1..])
      case Err(c) => Err(c)
      case Ok(rest) => Ok([StripOf(rect, g[0], g[1])] + rest)
  }

  /** Every hour's gradient can be drawn. */
  lemma TableStripsDraw(rect: Rect, h: int)
    requires IsHour(h)
    ensures h in Gradients && Strips(rect, Gradients[h]).Ok?
    ensures |Strips(rect, Gradients[h]).value| == |Gradients[h]| - 1
  {
    GradientTableWellFormed();
    ColoursFitEverywhere(Gradients[h]);
  }

  lemma LevelAntitone(rect: Rect, p: real, q: real)
    ensures rect.Height() >= 0.0 && p <= q ==> Level(rect, q) <= Level(rect, p)
  {
    if rect.Height() >= 0.0 && p <= q {
      ProductNonNegative(rect.Height(), q - p);
      assert rect.Height() * (1.0 - p) - rect.Height() * (1.0 - q) == rect.Height() * (q - p);
    }
  }

  lemma ProductNonNegative(x: real, y: real)
    requires 0.0 <= x && 0.0 <= y
    ensures 0.0 <= x * y
  {
  }

  /** A position in [0, 1] lies between the rectangle's bottom and top. */
  lemma LevelInside(rect: Rect, p: real)
    ensures rect.Height() >= 0.0 && 0.0 <= p <= 1.0 ==> rect.bottom <= Level(rect, p) <= rect.top
  {
    if rect.Height() >= 0.0 && 0.0 <= p <= 1.0 {
      ProductNonNegative(rect.Height(), 1.0 - p);
      ProductNonNegative(rect.Height(), p);
      assert rect.Height() * (1.0 - p) == rect.Height() - rect.Height() * p;
    }
  }

  /**
   * For a well-formed gradient on a rectangle of non-negative height, the
   * strips run from the top of the rectangle down to its bottom, each one
   * upright, each sharing its bottom edge with the next one's top edge, and
   * a later strip lies wholly below an earlier one.
   */
  lemma {:induction false} StripsStack(rect: Rect, g: Gradient)
    requires WellFormed(g) && rect.Height() >= 0.0
    ensures Strips(rect, g).Ok?
    ensures var s := Strips(rect, g).value;
      |s| == |g| - 1 && s[0].top == rect.top && s[|s| - 1].bottom == rect.bottom
      && (forall i :: 0 <= i < |s| ==> s[i].bottom <= s[i].top)
      && (forall i :: 0 <= i < |s| - 1 ==> s[i].bottom == s[i + 1].top)
      && (forall i, j :: 0 <= i < j < |s| ==> s[j].top <= s[i].bottom)
  {
    ColoursFitEverywhere(g);
    IncreasingEverywhere(g);
    var s := Strips(rect, g).value;
    forall i | 0 <= i < |s|
      ensures s[i].bottom <= s[i].top
    {
      LevelAntitone(rect, g[i].pos, g[i + 1].pos);
    }
    forall i, j | 0 <= i < j < |s|
      ensures s[j].top <= s[i].bottom
    {
      assert s[j].top == Level(rect, g[j].pos) && s[i].bottom == Level(rect, g[i + 1].pos);
      if i + 1 < j {
        LevelAntitone(rect, g[i + 1].pos, g[j].pos);
      }
    }
  }

  /** Strips stacked edge to edge from `top` down to `bottom` leave no point of [bottom, top] uncovered. */
  lemma {:induction false} StackCovers(s: seq<Strip>, bottom: real, top: real, y: real)
    requires |s| >= 1 && s[0].top == top && s[|s| - 1].bottom == bottom
    requires forall i :: 0 <= i < |s| ==> s[i].bottom <= s[i].top
    requires forall i :: 0 <= i < |s| - 1 ==> s[i].bottom == s[i + 1].top
    requires bottom <= y <= top
    ensures exists i :: 0 <= i < |s| && s[i].bottom <= y <= s[i].top
  {
    if s[0].bottom <= y {
      assert s[0].bottom <= y <= s[0].top;
    } else {
      var rest := s[1..];
      assert rest[0].top == s[0].bottom;
      StackCovers(rest, bottom, rest[0].top, y);
      var i :| 0 <= i < |rest| && rest[i].bottom <= y <= rest[i].top;
      assert s[i + 1] == rest[i];
    }
  }

  /**
   * The strips of a well-formed gradient tile the rectangle's vertical
   * extent: every height between bottom and top lies in some strip, and two
   * different strips meet at most along an edge.
   */
  lemma StripsTile(rect: Rect, g: Gradient, y: real)
    requires WellFormed(g) && rect.Height() >= 0.0
    requires rect.bottom <= y <= rect.top
    ensures Strips(rect, g).Ok?
    ensures var s := Strips(rect, g).value;
      (exists i :: 0 <= i < |s| && s[i].bottom <= y <= s[i].top)
      && (forall i, j :: 0 <= i < j < |s| && s[i].bottom < y < s[i].top ==> !(s[j].bottom < y < s[j].top))
  {
    StripsStack(rect, g);
    var s := Strips(rect, g).value;
    StackCovers(s, rect.bottom, rect.top, y);
  }
}
