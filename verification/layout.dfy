/**
 The layout engine of `VVSDraggableLayout`: the six-slot cluster that places
 every item, the square content size, the attribute cache rebuilt by
 `prepareLayout`, the rectangle query answered from that cache, and the
 20-unit edge strips.
 */
module ClusterLayout {
  import opened Options
  import opened Geometry

  /** The `spacing` property's initial value. */
  const DefaultSpacing: real := 15.0

  /** Items per cluster: one big tile and five small ones. */
  const ClusterSize: int := 6

  /** Thickness of each edge strip. */
  const BorderThickness: real := 20.0

  datatype IndexPath = IndexPath(section: int, item: int)

  /** Layout attributes of one item: its index path and its frame. */
  datatype Attributes = Attributes(indexPath: IndexPath, frame: Rect)

  /** What `getAttributes` yields: attributes, or the fatal error raised for
      a remainder outside 0..5. */
  datatype Result<T> = Ok(value: T) | Fault(remainder: int)

  /** The parts of the collection view the layout reads: its frame, its
      bounds and the item count of each section. */
  datatype Container = Container(frame: Rect, bounds: Rect, itemCounts: seq<nat>)

  /** The per-pass geometry: the container's bounds width and the spacing. */
  datatype ClusterGeometry = ClusterGeometry(width: real, spacing: real)

  function GeometryOf(c: Container, spacing: real): (g: ClusterGeometry)
    ensures g.width >= 0.0
  {
    ClusterGeometry(Width(c.bounds), spacing)
  }

  /** The side of the five small tiles: a fixed fraction of the bounds width. */
  function SmallerCellWidth(g: ClusterGeometry): (r: real)
    ensures g.width >= 0.0 ==> 0.0 <= r <= g.width
    ensures g.width > 0.0 ==> r < BiggerCellWidth(g)
  {
    0.28 * g.width
  }

  /** The side of the big tile: a larger fixed fraction of the bounds width. */
  function BiggerCellWidth(g: ClusterGeometry): (r: real)
    ensures g.width >= 0.0 ==> 0.0 <= r <= g.width
  {
    0.6 * g.width
  }

  /** The tile sides follow the bounds width alone: two containers with
      equally wide bounds get the same sides whatever their frames, and the
      sides are 0.28 and 0.6 of that width. */
  lemma CellWidthsFollowBounds(c: Container, c': Container, spacing: real)
    requires Width(c.bounds) == Width(c'.bounds)
    ensures SmallerCellWidth(GeometryOf(c, spacing)) == SmallerCellWidth(GeometryOf(c', spacing)) == 0.28 * Width(c.bounds)
    ensures BiggerCellWidth(GeometryOf(c, spacing)) == BiggerCellWidth(GeometryOf(c', spacing)) == 0.6 * Width(c.bounds)
  {
  }

  /** The content size: a square whose side is the container frame's width. */
  function ContentSize(c: Container): (r: Size)
    ensures r.width == r.height >= 0.0
    ensures r.width == MaxX(c.frame) - MinX(c.frame)
  {
    Size(Width(c.frame), Width(c.frame))
  }

  /** The content size does not depend on anything but the frame's width. */
  lemma ContentSizeIgnoresHeight(c: Container, c': Container)
    requires Width(c.frame) == Width(c'.frame)
    ensures ContentSize(c) == ContentSize(c')
    ensures ContentSize(c).width == ContentSize(c).height
  {
  }

  /** Swift's `%` on integers: the remainder takes the sign of the dividend. */
  function SwiftRem(a: int, n: int): (r: int)
    requires n > 0
    ensures -n < r < n
    ensures a >= 0 ==> r == a % n
    ensures a < 0 ==> r <= 0
    ensures n == ClusterSize ==> (a - r) % n == 0
  {
    if a >= 0 then a % n else -((-a) % n)
  }

  /** The frame of cluster slot `slot` (0 the big tile, 1..5 the small ones). */
  function SlotFrame(g: ClusterGeometry, slot: int): (r: Rect)
    requires 0 <= slot < ClusterSize
    ensures r.size.width == r.size.height
    ensures r.size.width == (if slot == 0 then BiggerCellWidth(g) else SmallerCellWidth(g))
  {
    var s, small, big := g.spacing, SmallerCellWidth(g), BiggerCellWidth(g);
    if slot == 0 then Square(s, s, big)
    else if slot == 1 then Square(big + 2.0 * s, s, small)
    else if slot == 2 then Square(big + 2.0 * s, small + 2.0 * s, small)
    else if slot == 3 then Square(big + 2.0 * s, 2.0 * small + 3.0 * s, small)
    else if slot == 4 then Square(small + 2.0 * s, 2.0 * small + 3.0 * s, small)
    else Square(s, 2.0 * small + 3.0 * s, small)
  }

  /** `getAttributes`: the item's slot is its row modulo 6 (Swift remainder);
      a remainder outside 0..5 is the fatal error. */
  function GetAttributes(g: ClusterGeometry, ip: IndexPath): (r: Result<Attributes>)
    ensures r.Ok? <==> ip.item >= 0 || ip.item % ClusterSize == 0
    ensures r.Ok? ==> r.value.indexPath == ip
    ensures r.Fault? ==> ip.item < 0 && r.remainder == SwiftRem(ip.item, ClusterSize) < 0
    ensures ip.item >= 0 ==> r == Ok(Attributes(ip, SlotFrame(g, ip.item % ClusterSize)))
  {
    var k := SwiftRem(ip.item, ClusterSize);
    if 0 <= k < ClusterSize then Ok(Attributes(ip, SlotFrame(g, k)))
    else Fault(k)
  }

  /** The six slot frames: a big square of
      side 0.6w at (s, s), five small squares of side 0.28w, slots 1..3 in
      one column at x = 0.6w + 2s separated by exactly s, and slots 3..5 in
      one row at y = 0.56w + 3s. */
  lemma SlotShapes(g: ClusterGeometry)
    ensures SlotFrame(g, 0) == Square(g.spacing, g.spacing, 0.6 * g.width)
    ensures forall k :: 1 <= k < ClusterSize ==>
      SlotFrame(g, k).size == Size(0.28 * g.width, 0.28 * g.width)
    ensures forall k :: 1 <= k <= 3 ==>
      SlotFrame(g, k).origin.x == 0.6 * g.width + 2.0 * g.spacing
    ensures forall k :: 1 <= k < 3 ==>
      SlotFrame(g, k + 1).origin.y ==
        SlotFrame(g, k).origin.y + SlotFrame(g, k).size.height + g.spacing
    ensures forall k :: 3 <= k < ClusterSize ==>
      SlotFrame(g, k).origin.y == 0.56 * g.width + 3.0 * g.spacing
    ensures SlotFrame(g, 5).origin.x == g.spacing
    ensures SlotFrame(g, 4).origin.x ==
      SlotFrame(g, 5).origin.x + SlotFrame(g, 5).size.width + g.spacing
  {
  }

  /** Items whose rows differ by 6 get the same frame: the cluster repeats
      with no per-cluster offset. */
  lemma PeriodicFrames(g: ClusterGeometry, ip: IndexPath)
    requires ip.item >= 0
    ensures GetAttributes(g, ip).Ok?
    ensures GetAttributes(g, IndexPath(ip.section, ip.item + ClusterSize)).Ok?
    ensures GetAttributes(g, IndexPath(ip.section, ip.item + ClusterSize)).value.frame
         == GetAttributes(g, ip).value.frame
  {
  }

  /** Repeating the period: rows `i` and `i + 6n` share a frame. */
  lemma PeriodicFramesN(g: ClusterGeometry, ip: IndexPath, n: nat)
    requires ip.item >= 0
    ensures GetAttributes(g, IndexPath(ip.section, ip.item + ClusterSize * n)).Ok?
    ensures GetAttributes(g, IndexPath(ip.section, ip.item + ClusterSize * n)).value.frame
         == GetAttributes(g, ip).value.frame
  {
  }

  /** The fatal branch: a negative row not divisible by 6 (for instance -1)
      reaches it, and no non-negative row does. */
  lemma FaultExactlyOnNegativeRemainders(g: ClusterGeometry, section: int)
    ensures GetAttributes(g, IndexPath(section, -1)) == Fault(-1)
    ensures GetAttributes(g, IndexPath(section, -6)).Ok?
    ensures forall item: nat :: GetAttributes(g, IndexPath(section, item)).Ok?
  {
  }

  /** With positive width and non-negative spacing, the six slots are
      pairwise disjoint exactly when the width is at most 50 spacings; a
      wider container pushes the big tile into the bottom row. */
  lemma SlotsDisjointIffNarrow(g: ClusterGeometry)
    requires g.width > 0.0 && g.spacing >= 0.0
    ensures (forall i, j :: 0 <= i < j < ClusterSize ==> !Overlaps(SlotFrame(g, i), SlotFrame(g, j)))
        <==> g.width <= 50.0 * g.spacing
  {
    if g.width <= 50.0 * g.spacing {
      forall i, j | 0 <= i < j < ClusterSize
        ensures !Overlaps(SlotFrame(g, i), SlotFrame(g, j))
      {
      }
    } else {
      assert Overlaps(SlotFrame(g, 0), SlotFrame(g, 5));
    }
  }

  /** The gaps of the bottom row and the left column all equal the spacing
      exactly when the width is 25 spacings (375 points with the default). */
  lemma UniformGapsIff(g: ClusterGeometry)
    requires g.width >= 0.0
    ensures (&& MaxX(SlotFrame(g, 4)) + g.spacing == MinX(SlotFrame(g, 3))
             && MaxY(SlotFrame(g, 0)) + g.spacing == MinY(SlotFrame(g, 5)))
        <==> g.width == 25.0 * g.spacing
  {
  }

  // ---------------------------------------------------------------------
  // The attribute cache

  /** The attributes of the items 0..n-1 of one section, in item order. */
  function SectionAttributes(g: ClusterGeometry, section: int, n: nat): (r: seq<Attributes>)
    ensures |r| == n
    ensures forall k :: 0 <= k < n ==> GetAttributes(g, IndexPath(section, k)) == Ok(r[k])
  {
    seq(n, k requires 0 <= k < n => GetAttributes(g, IndexPath(section, k)).value)
  }

  /** `prepareLayout`: for each section, reset the cache and append the
      attributes of its items. Only the last section survives; with no
      section at all the previous cache is kept. */
  method PrepareLayout(cache: seq<Attributes>, c: Container, spacing: real)
    returns (cache': seq<Attributes>)
    ensures |c.itemCounts| == 0 ==> cache' == cache
    ensures |c.itemCounts| > 0 ==>
      && |cache'| == c.itemCounts[|c.itemCounts| - 1]
      && forall k :: 0 <= k < |cache'| ==>
           GetAttributes(GeometryOf(c, spacing), IndexPath(|c.itemCounts| - 1, k)) == Ok(cache'[k])
  {
    var g := GeometryOf(c, spacing);
    cache' := cache;
    for section := 0 to |c.itemCounts|
      invariant section == 0 ==> cache' == cache
      invariant section > 0 ==>
        && |cache'| == c.itemCounts[section - 1]
        && forall k :: 0 <= k < |cache'| ==>
             GetAttributes(g, IndexPath(section - 1, k)) == Ok(cache'[k])
    {
      cache' := [];
      for item := 0 to c.itemCounts[section]
        invariant |cache'| == item
        invariant forall k :: 0 <= k < item ==>
          GetAttributes(g, IndexPath(section, k)) == Ok(cache'[k])
      {
        var r := GetAttributes(g, IndexPath(section, item));
        cache' := cache' + [r.value];
      }
    }
  }

  /** The reference definition of the rebuilt cache agrees with the method's
      contract: the last section's attributes, item by item. */
  lemma RebuiltCacheIsLastSection(c: Container, spacing: real, cache': seq<Attributes>)
    requires |c.itemCounts| > 0
    requires |cache'| == c.itemCounts[|c.itemCounts| - 1]
    requires forall k :: 0 <= k < |cache'| ==>
      GetAttributes(GeometryOf(c, spacing), IndexPath(|c.itemCounts| - 1, k)) == Ok(cache'[k])
    ensures cache' == SectionAttributes(GeometryOf(c, spacing), |c.itemCounts| - 1, |cache'|)
  {
  }

  // ---------------------------------------------------------------------
  // The rectangle query

  /** The cache entries whose frame lies wholly inside `rect`, in cache order. */
  function ContainedIn(cache: seq<Attributes>, rect: Rect): (r: seq<Attributes>)
    ensures |r| <= |cache|
    ensures forall a :: a in r <==> a in cache && ContainsRect(rect, a.frame)
  {
    if cache == [] then []
    else
      var last := cache[|cache| - 1];
      ContainedIn(cache[..|cache| - 1], rect) + (if ContainsRect(rect, last.frame) then [last] else [])
  }

  /** The query keeps the cache's order: filtering a concatenation is the
      concatenation of the filtered parts. */
  lemma {:induction false} ContainedInAppend(a: seq<Attributes>, b: seq<Attributes>, rect: Rect)
    ensures ContainedIn(a + b, rect) == ContainedIn(a, rect) + ContainedIn(b, rect)
  {
    if b != [] {
      var b' := b[..|b| - 1];
      assert (a + b)[..|a + b| - 1] == a + b';
      ContainedInAppend(a, b', rect);
    } else {
      assert a + b == a;
    }
  }

  /** `layoutAttributesForElementsInRect`: one pass over the cache keeping the
      entries whose frame `rect` contains. */
  method LayoutAttributesForElementsInRect(cache: seq<Attributes>, rect: Rect)
    returns (attrs: seq<Attributes>)
    ensures attrs == ContainedIn(cache, rect)
    ensures forall a :: a in attrs <==> a in cache && ContainsRect(rect, a.frame)
  {
    attrs := [];
    for i := 0 to |cache|
      invariant attrs == ContainedIn(cache[..i], rect)
    {
      assert cache[..i + 1][..i] == cache[..i];
      if ContainsRect(rect, cache[i].frame) {
        attrs := attrs + [cache[i]];
      }
    }
    assert cache[..|cache|] == cache;
  }

  /** For a rebuilt cache: a rectangle equal to an item's frame returns that
      item, and the same rectangle one unit narrower does not. */
  lemma QueryByExactFrame(g: ClusterGeometry, section: int, n: nat, k: nat)
    requires g.width > 0.0
    requires k < n
    ensures var cache := SectionAttributes(g, section, n);
      && cache[k] in ContainedIn(cache, cache[k].frame)
      && cache[k] !in ContainedIn(cache, ShrinkWidth(cache[k].frame, 1.0))
  {
  }

  // ---------------------------------------------------------------------
  // Edge strips

  /** `calculateBorders`: from the container frame in draggable-area
      coordinates, record four 20-unit strips under "left", "top", "right"
      and "bottom". Without a collection view the dictionary is unchanged. */
  function CalculateBorders(regions: map<string, Rect>, frameInCanvas: Option<Rect>): (r: map<string, Rect>)
    ensures frameInCanvas.None? ==> r == regions
    ensures frameInCanvas.Some? ==> r.Keys == regions.Keys + {"left", "top", "right", "bottom"}
    ensures forall key :: key in regions && key !in {"left", "top", "right", "bottom"} ==>
      key in r && r[key] == regions[key]
  {
    match frameInCanvas
    case None => regions
    case Some(f) =>
      var left := Rect(f.origin, Size(BorderThickness, f.size.height));
      var top := Rect(f.origin, Size(f.size.width, BorderThickness));
      var right := Rect(Point(f.size.width - BorderThickness, f.origin.y), Size(BorderThickness, f.size.height));
      var bottom := Rect(Point(f.origin.x, f.origin.y + right.size.height - BorderThickness), Size(f.size.width, BorderThickness));
      regions["left" := left]["top" := top]["right" := right]["bottom" := bottom]
  }

  /** The strips are 20 thick; left and top keep the frame's origin; the
      right strip's x is the frame's width less 20 (its origin ignored); the
      bottom strip ends where the frame ends. */
  lemma BorderStrips(regions: map<string, Rect>, f: Rect)
    ensures var r := CalculateBorders(regions, Some(f));
      && r["left"] == Rect(f.origin, Size(BorderThickness, f.size.height))
      && r["top"] == Rect(f.origin, Size(f.size.width, BorderThickness))
      && r["right"].size == Size(BorderThickness, f.size.height)
      && r["right"].origin == Point(f.size.width - BorderThickness, f.origin.y)
      && r["bottom"].size == Size(f.size.width, BorderThickness)
      && r["bottom"].origin.x == f.origin.x
      && r["bottom"].origin.y + BorderThickness == f.origin.y + f.size.height
  {
  }

  /** The right strip touches the frame's right edge exactly when the frame
      starts at x = 0. */
  lemma RightStripAlignedIffAtZero(regions: map<string, Rect>, f: Rect)
    requires f.size.width >= 0.0
    ensures MaxX(CalculateBorders(regions, Some(f))["right"]) == MaxX(f) <==> f.origin.x == 0.0
  {
  }

  // ---------------------------------------------------------------------
  // A layout pass

  /** The layout's cached state: the attribute cache and the edge strips. */
  datatype LayoutState = LayoutState(cellAttributes: seq<Attributes>, hitTestRectangles: map<string, Rect>)

  /** One `prepareLayout` pass: recompute the strips, then rebuild the cache. */
  method LayoutPass(st: LayoutState, c: Container, spacing: real, frameInCanvas: Option<Rect>)
    returns (st': LayoutState)
    ensures st'.hitTestRectangles == CalculateBorders(st.hitTestRectangles, frameInCanvas)
    ensures |c.itemCounts| == 0 ==> st'.cellAttributes == st.cellAttributes
    ensures |c.itemCounts| > 0 ==>
      st'.cellAttributes == SectionAttributes(GeometryOf(c, spacing), |c.itemCounts| - 1, c.itemCounts[|c.itemCounts| - 1])
  {
    var regions := CalculateBorders(st.hitTestRectangles, frameInCanvas);
    var cache := PrepareLayout(st.cellAttributes, c, spacing);
    if |c.itemCounts| > 0 {
      RebuiltCacheIsLastSection(c, spacing, cache);
    }
    st' := LayoutState(cache, regions);
  }
}
