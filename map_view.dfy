/** The rendered map: one SVG path per boundary feature, its fill and
    tooltip, whether its click handler is bound, and the component state
    its handlers write (`districtRowNum` and the parent's `setDistrict`). */
module RegionRenderer {
  import opened StatsJoin
  import opened ColorScale

  class MapView {
    /** The `dt_code` of the feature bound to each path, in drawing order. */
    var codes: seq<int>
    var fills: seq<Fill>
    var titles: seq<string>
    /** Whether a path's click handler has been bound (by a mouse-out). */
    var clickBound: seq<bool>
    /** The `tableData` the current paths' handlers were created with. */
    var table: seq<Row>
    /** `districtRowNum`: the code of the hovered region, or null. */
    var hovered: Option<int>
    /** The last label passed to `setDistrict`, if any. */
    var selected: Option<string>

    ghost predicate Valid()
      reads this
    {
      |fills| == |codes| && |titles| == |codes| && |clickBound| == |codes| &&
      (codes != [] ==> |table| > 0)
    }

    /** Every path shows the fill computed for its region. */
    ghost predicate Painted()
      reads this
      requires Valid()
    {
      forall k :: 0 <= k < |codes| ==> fills[k] == FillFor(table, codes[k])
    }

    /** An empty SVG before the first render; `districtRowNum` starts null. */
    constructor ()
      ensures Valid()
      ensures codes == [] && fills == [] && titles == [] && clickBound == []
      ensures table == [] && hovered == None && selected == None
    {
      codes, fills, titles, clickBound := [], [], [], [];
      table := [];
      hovered, selected := None, None;
    }

    /** The render effect: with an empty table nothing happens; otherwise the
        SVG is cleared and one path per feature is drawn, in feature order. */
    method Render(features: seq<int>, data: seq<Row>)
      requires Valid()
      modifies this
      ensures Valid()
      ensures |data| == 0 ==>
        codes == old(codes) && fills == old(fills) && titles == old(titles) &&
        clickBound == old(clickBound) && table == old(table)
      ensures |data| > 0 ==>
        codes == features && table == data && Painted() &&
        (forall k :: 0 <= k < |features| ==> titles[k] == TooltipLabel(data, features[k])) &&
        (forall k :: 0 <= k < |features| ==> !clickBound[k])
      ensures hovered == old(hovered) && selected == old(selected)
    {
      if |data| == 0 {
        return;
      }
      codes, fills, titles, clickBound := [], [], [], [];
      table := data;
      var i := 0;
      while i < |features|
        invariant 0 <= i <= |features|
        invariant codes == features[..i] && table == data
        invariant |fills| == i && |titles| == i && |clickBound| == i
        invariant forall k :: 0 <= k < i ==> fills[k] == FillFor(data, features[k])
        invariant forall k :: 0 <= k < i ==> titles[k] == TooltipLabel(data, features[k])
        invariant forall k :: 0 <= k < i ==> !clickBound[k]
        invariant hovered == old(hovered) && selected == old(selected)
      {
        var code := features[i];
        codes := codes + [code];
        fills := fills + [FillFor(data, code)];
        titles := titles + [TooltipLabel(data, code)];
        clickBound := clickBound + [false];
        i := i + 1;
      }
    }

    /** Pointer enters path `i`: it takes the highlight colour and its code
        becomes the hovered one. */
    method MouseOver(i: int)
      requires Valid() && 0 <= i < |codes|
      modifies this
      ensures Valid()
      ensures fills == old(fills)[i := HighlightFill]
      ensures hovered == Some(codes[i])
      ensures codes == old(codes) && titles == old(titles) && clickBound == old(clickBound)
      ensures table == old(table) && selected == old(selected)
    {
      fills := fills[i := HighlightFill];
      hovered := Some(codes[i]);
    }

    /** Pointer leaves path `i`: its computed fill is restored, its click
        handler is (re)bound and no region is hovered any more. */
    method MouseOut(i: int)
      requires Valid() && 0 <= i < |codes|
      modifies this
      ensures Valid()
      ensures codes == old(codes) && titles == old(titles)
      ensures table == old(table) && selected == old(selected)
      ensures fills == old(fills)[i := FillFor(table, codes[i])]
      ensures clickBound == old(clickBound)[i := true]
      ensures hovered == None
    {
      fills := fills[i := FillFor(table, codes[i])];
      clickBound := clickBound[i := true];
      hovered := None;
    }

    /** A click on path `i` reports its label, but only once a mouse-out has
        bound the handler. */
    method Click(i: int)
      requires Valid() && 0 <= i < |codes|
      modifies this
      ensures Valid()
      ensures codes == old(codes) && fills == old(fills) && titles == old(titles)
      ensures clickBound == old(clickBound) && table == old(table) && hovered == old(hovered)
      ensures old(clickBound[i]) ==> selected == Some(ClickLabel(table, codes[i]))
      ensures !old(clickBound[i]) ==> selected == old(selected)
    {
      if clickBound[i] {
        selected := Some(ClickLabel(table, codes[i]));
      }
    }
  }

  /** Hovering over a region and leaving it again restores every fill of
      the render pass. */
  method HoverRoundTrip(v: MapView, i: int)
    requires v.Valid() && v.Painted() && 0 <= i < |v.codes|
    modifies v
    ensures v.Valid() && v.Painted()
    ensures v.fills == old(v.fills) && v.hovered == None
    ensures v.clickBound == old(v.clickBound)[i := true]
  {
    v.MouseOver(i);
    v.MouseOut(i);
  }

  /** Right after a render a click does nothing: no handler is bound yet. */
  method ClickIgnoredAfterRender(v: MapView, features: seq<int>, data: seq<Row>, i: int)
    requires v.Valid() && |data| > 0 && 0 <= i < |features|
    modifies v
    ensures v.selected == old(v.selected)
  {
    v.Render(features, data);
    v.Click(i);
  }

  /** After a render, one pass of the pointer over a region makes a click
      report the region's label. */
  method ClickNeedsMouseOut(v: MapView, features: seq<int>, data: seq<Row>, i: int)
    requires v.Valid() && |data| > 0 && 0 <= i < |features|
    modifies v
    ensures v.selected == Some(ClickLabel(data, features[i]))
  {
    v.Render(features, data);
    v.MouseOver(i);
    v.MouseOut(i);
    v.Click(i);
  }

  /** Rendering an unchanged table again gives the same picture. */
  method RenderIdempotent(v: MapView, features: seq<int>, data: seq<Row>) returns (first: seq<Fill>)
    requires v.Valid()
    modifies v
    ensures v.Valid() && v.fills == first
  {
    v.Render(features, data);
    first := v.fills;
    v.Render(features, data);
  }
}
