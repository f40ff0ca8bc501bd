/** The colour scale of one render pass: the largest `Overall_3` of the
    table, the linear scale from [0, max] onto [0, 1], and the two-colour
    gradient from #e0f3db to #43a2ca. */
module ColorScale {
  import opened StatsJoin

  /** An RGB colour, one real per channel on the 0..255 scale. */
  datatype Colour = Rgb(red: real, green: real, blue: real)

  const Low := Rgb(224.0, 243.0, 219.0)        // #e0f3db
  const High := Rgb(67.0, 162.0, 202.0)        // #43a2ca
  const HighlightColour := Rgb(0.0, 200.0, 200.0)  // rgba(0, 200, 200, 1)

  /** What a path's `fill` attribute holds. `DegenerateScale` stands for the
      colour d3 gives every value when the domain is [0, 0]. That colour is
      library-defined and not modelled; it may well coincide with a `Paint`
      colour that a non-degenerate table also produces. */
  datatype Fill = Paint(colour: Colour) | DegenerateScale

  const HighlightFill := Paint(HighlightColour)

  /** `Math.max(...tableData.map(entry => entry["Overall_3"]))`. */
  function MaxOverall(table: seq<Row>): (m: real)
    requires |table| > 0
    ensures forall k :: 0 <= k < |table| ==> table[k].overall <= m
    ensures exists k :: 0 <= k < |table| && table[k].overall == m
  {
    if |table| == 1 then table[0].overall
    else
      var rest := MaxOverall(table[1..]);
      assert forall k :: 1 <= k < |table| ==> table[k] == table[1..][k - 1];
      if table[0].overall >= rest then table[0].overall else rest
  }

  /** `scaleLinear().domain([0, m]).range([0, 1])` applied to `v`. */
  function Normalize(v: real, m: real): (t: real)
    requires m != 0.0
    ensures t * m == v
  {
    v / m
  }

  /** The scale sends 0 to 0 and the maximum to 1. */
  lemma NormalizeEndpoints(m: real)
    requires m != 0.0
    ensures Normalize(0.0, m) == 0.0 && Normalize(m, m) == 1.0
  {
  }

  /** On a positive domain the scale keeps order and maps [0, m] into [0, 1]. */
  lemma NormalizeMonotone(v1: real, v2: real, m: real)
    requires m > 0.0 && v1 <= v2
    ensures Normalize(v1, m) <= Normalize(v2, m)
    ensures 0.0 <= v1 ==> 0.0 <= Normalize(v1, m)
    ensures v2 <= m ==> Normalize(v2, m) <= 1.0
  {
  }

  function Lerp(a: real, b: real, t: real): real { a + (b - a) * t }

  /** `interpolateRgb('#e0f3db', '#43a2ca')(t)`, linear per channel. */
  function Interpolate(t: real): (c: Colour)
    ensures t == 0.0 ==> c == Low
    ensures t == 1.0 ==> c == High
    ensures 0.0 <= t <= 1.0 ==>
      High.red <= c.red <= Low.red && High.green <= c.green <= Low.green && High.blue <= c.blue <= Low.blue
  {
    Rgb(Lerp(Low.red, High.red, t), Lerp(Low.green, High.green, t), Lerp(Low.blue, High.blue, t))
  }

  /** Distinct scale positions give distinct colours. */
  lemma InterpolateInjective(t1: real, t2: real)
    ensures Interpolate(t1) == Interpolate(t2) <==> t1 == t2
  {
  }

  /** No point of the gradient is the highlight colour. */
  lemma HighlightOffGradient(t: real)
    ensures Interpolate(t) != HighlightColour
  {
  }

  /** The fill of the region with code `code` in a render pass over `table`. */
  function FillFor(table: seq<Row>, code: int): (f: Fill)
    requires |table| > 0
    ensures MaxOverall(table) == 0.0 ==> f == DegenerateScale
    ensures MaxOverall(table) != 0.0 && !(0 <= code < |table|) ==> f == Paint(Low)
    ensures MaxOverall(table) != 0.0 && 0 <= code < |table| && table[code].overall == MaxOverall(table) ==>
      f == Paint(High)
    ensures f.Paint? ==> f != HighlightFill
  {
    var m := MaxOverall(table);
    if m == 0.0 then DegenerateScale
    else
      HighlightOffGradient(Normalize(ValueOf(table, code), m));
      Paint(Interpolate(Normalize(ValueOf(table, code), m)))
  }

  /** With non-negative values and a positive maximum, every region's fill
      lies on the gradient between the low and the high colour. */
  lemma FillOnGradient(table: seq<Row>, code: int)
    requires |table| > 0
    requires forall k :: 0 <= k < |table| ==> table[k].overall >= 0.0
    requires MaxOverall(table) > 0.0
    ensures 0.0 <= Normalize(ValueOf(table, code), MaxOverall(table)) <= 1.0
    ensures FillFor(table, code).Paint?
    ensures var c := FillFor(table, code).colour;
      High.red <= c.red <= Low.red && High.green <= c.green <= Low.green && High.blue <= c.blue <= Low.blue
  {
    var m := MaxOverall(table);
    var v := ValueOf(table, code);
    assert 0.0 <= v <= m;
    NormalizeMonotone(v, m, m);
    NormalizeMonotone(0.0, v, m);
    NormalizeEndpoints(m);
  }

  /** Two regions whose values are ordered get colours ordered along the
      gradient (channel by channel towards the high colour). */
  lemma FillOrdered(table: seq<Row>, c1: int, c2: int)
    requires |table| > 0
    requires MaxOverall(table) > 0.0
    requires ValueOf(table, c1) <= ValueOf(table, c2)
    ensures FillFor(table, c1).Paint? && FillFor(table, c2).Paint?
    ensures FillFor(table, c2).colour.red <= FillFor(table, c1).colour.red
    ensures FillFor(table, c2).colour.green <= FillFor(table, c1).colour.green
    ensures FillFor(table, c2).colour.blue <= FillFor(table, c1).colour.blue
  {
    NormalizeMonotone(ValueOf(table, c1), ValueOf(table, c2), MaxOverall(table));
  }
}
