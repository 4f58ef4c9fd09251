/** The latency chart: ordering of the rows, coordinates, and the one pass that cuts the points into
    segments and gaps (frontend/src/features/monitors/history/chart-geometry.ts). */
module ChartSegments {
  import opened Schema
  import opened ChartAxis

  /** `timestamp` is None when the date does not parse, `latency` when the probe measured none. */
  datatype Row = Row(id: int, timestamp: Option<int>, latency: Option<real>)

  // ----- Order -----

  datatype Item = Item(row: Row, index: nat)

  /** By time, then id; rows without a valid time last.  The sort is stable, so ties keep their index order. */
  predicate Precedes(a: Item, b: Item) {
    match (a.row.timestamp, b.row.timestamp)
    case (Some(s), Some(t)) => s < t || (s == t && (a.row.id < b.row.id || (a.row.id == b.row.id && a.index < b.index)))
    case (Some(_), None) => true
    case (None, Some(_)) => false
    case (None, None) => a.index < b.index
  }

  predicate Sorted(items: seq<Item>) {
    forall i, j :: 0 <= i < j < |items| ==> Precedes(items[i], items[j])
  }

  predicate Apart(x: Item, items: seq<Item>) {
    forall y :: y in items ==> y.index != x.index
  }

  function InsertItem(x: Item, items: seq<Item>): (r: seq<Item>)
    requires Sorted(items) && Apart(x, items)
    ensures Sorted(r) && forall y :: y in r <==> y in items || y == x
  {
    if items == [] then [x]
    else if Precedes(x, items[0]) then
      assert forall y :: y in items ==> y == items[0] || Precedes(items[0], y);
      OneMoreInFront(x, items);
      [x] + items
    else
      assert forall y :: y in items <==> y == items[0] || y in items[1..];
      var rest := InsertItem(x, items[1..]);
      assert forall y :: y in items[1..] ==> Precedes(items[0], y);
      OneMoreInFront(items[0], rest);
      [items[0]] + rest
  }

  lemma OneMoreInFront(x: Item, items: seq<Item>)
    requires Sorted(items) && forall y :: y in items ==> Precedes(x, y)
    ensures Sorted([x] + items)
  {
  }

  lemma {:induction false} InsertItemPermutes(x: Item, items: seq<Item>)
    requires Sorted(items) && Apart(x, items)
    ensures multiset(InsertItem(x, items)) == multiset(items) + multiset{x}
  {
    if items != [] {
      assert items == [items[0]] + items[1..];
      if !Precedes(x, items[0]) { InsertItemPermutes(x, items[1..]); }
    }
  }

  function Items(rows: seq<Row>): (items: seq<Item>)
    ensures |items| == |rows| && forall i :: 0 <= i < |rows| ==> items[i] == Item(rows[i], i)
  {
    seq(|rows|, i requires 0 <= i < |rows| => Item(rows[i], i))
  }

  function SortItems(items: seq<Item>): (r: seq<Item>)
    requires forall i, j :: 0 <= i < j < |items| ==> items[i].index != items[j].index
    ensures Sorted(r) && multiset(r) == multiset(items)
  {
    if items == [] then []
    else
      var before, x := items[..|items| - 1], items[|items| - 1];
      assert items == before + [x];
      var r := SortItems(before);
      SameMembers(r, before);
      InsertItemPermutes(x, r);
      InsertItem(x, r)
  }

  lemma SameMembers(a: seq<Item>, b: seq<Item>)
    requires multiset(a) == multiset(b)
    ensures forall y :: y in a <==> y in b
  {
    assert forall y :: y in a <==> y in multiset(a);
    assert forall y :: y in b <==> y in multiset(b);
  }

  lemma FirstPrecedes(items: seq<Item>, x: Item)
    requires Sorted(items) && x in items
    ensures x == items[0] || Precedes(items[0], x)
  {
  }

  lemma TailItems(items: seq<Item>)
    requires items != []
    ensures multiset(items[1..]) == multiset(items) - multiset{items[0]} && items[0] in multiset(items)
  {
    assert items == [items[0]] + items[1..];
  }

  /** The order is the only one: any sorted arrangement of the same items is this one. */
  lemma {:induction false} OrderIsUnique(a: seq<Item>, b: seq<Item>)
    requires Sorted(a) && Sorted(b) && multiset(a) == multiset(b)
    ensures a == b
  {
    assert |a| == |multiset(a)| == |multiset(b)| == |b|;
    if a != [] {
      SameTails(a, b);
      OrderIsUnique(a[1..], b[1..]);
      assert a == [a[0]] + a[1..] && b == [b[0]] + b[1..];
    }
  }

  lemma SameTails(a: seq<Item>, b: seq<Item>)
    requires Sorted(a) && Sorted(b) && multiset(a) == multiset(b) && a != [] && b != []
    ensures a[0] == b[0] && multiset(a[1..]) == multiset(b[1..])
  {
    TailItems(a);
    TailItems(b);
    SameFirst(a, b);
  }

  lemma SameFirst(a: seq<Item>, b: seq<Item>)
    requires Sorted(a) && Sorted(b) && a != [] && b != [] && a[0] in multiset(b) && b[0] in multiset(a)
    ensures a[0] == b[0]
  {
    FirstPrecedes(a, b[0]);
    FirstPrecedes(b, a[0]);
  }

  // ----- Points -----

  datatype Point = Point(row: Row, x: real, y: Option<real>, timestamp: Option<int>)

  /** The measured latencies, in order. */
  function Latencies(items: seq<Item>): (values: seq<real>)
    ensures forall i :: 0 <= i < |items| && items[i].row.latency.Some? ==> items[i].row.latency.value in values
    ensures forall v :: v in values ==> exists i :: 0 <= i < |items| && items[i].row.latency == Some(v)
  {
    if items == [] then []
    else
      var rest, last := Latencies(items[..|items| - 1]), items[|items| - 1].row.latency;
      assert forall v :: v in rest ==> exists i :: 0 <= i < |items| && items[i].row.latency == Some(v) by {
        forall v | v in rest ensures exists i :: 0 <= i < |items| && items[i].row.latency == Some(v) {
          var i :| 0 <= i < |items| - 1 && items[..|items| - 1][i].row.latency == Some(v);
          assert items[i].row.latency == Some(v);
        }
      }
      if last.Some? then rest + [last.value] else rest
  }

  /** How many rows, which sort first, have a valid time. */
  function ValidCount(items: seq<Item>): (n: nat)
    requires Sorted(items)
    ensures n <= |items| && forall i :: 0 <= i < |items| ==> (items[i].row.timestamp.Some? <==> i < n)
  {
    if items == [] then 0
    else if items[|items| - 1].row.timestamp.Some? then
      assert forall i :: 0 <= i < |items| - 1 ==> Precedes(items[i], items[|items| - 1]);
      |items|
    else ValidCount(items[..|items| - 1])
  }

  /** The extent of the axes. */
  datatype Scales = Scales(first: int, last: int, right: real, yMax: real)

  function ScalesOf(items: seq<Item>, width: real): (scales: Scales)
    requires Sorted(items)
    ensures scales.yMax > 0.0 && scales.right > LEFT
  {
    var n := ValidCount(items);
    var first := if n > 0 then items[0].row.timestamp.value else 0;
    Scales(first, if n > 0 then items[n - 1].row.timestamp.value else first, Right(width),
           YMax(Max0(Latencies(items))))
  }

  function PointOf(item: Item, s: Scales): Point
    requires s.yMax > 0.0
  {
    Point(item.row,
          if item.row.timestamp.None? then LEFT else X(item.row.timestamp.value, s.first, s.last, s.right),
          if item.row.latency.Some? then Some(Y(item.row.latency.value, s.yMax)) else None,
          item.row.timestamp)
  }

  function OrderedItems(rows: seq<Row>): (items: seq<Item>)
    ensures Sorted(items) && |items| == |rows| && multiset(items) == multiset(Items(rows))
  {
    var items := SortItems(Items(rows));
    assert |items| == |multiset(items)|;
    items
  }

  function PointsOf(rows: seq<Row>, width: real): (points: seq<Point>)
    ensures |points| == |rows|
    ensures forall i :: 0 <= i < |points| ==>
      var row := OrderedItems(rows)[i].row;
      points[i].row == row && points[i].timestamp == row.timestamp && (points[i].y.Some? <==> row.latency.Some?)
  {
    var items := OrderedItems(rows);
    var scales := ScalesOf(items, width);
    seq(|items|, i requires 0 <= i < |items| => PointOf(items[i], scales))
  }

  // ----- What the drawing promises -----

  predicate ValidTime(p: Point) { p.timestamp.Some? }

  /** The order, item by item: rows with a time first, by time, then by id, then as they came; rows
      without one last, as they came. */
  lemma RowsInOrder(rows: seq<Row>, i: nat, j: nat)
    requires i < j < |rows|
    ensures var a, b := OrderedItems(rows)[i], OrderedItems(rows)[j];
      && a.index < |rows| && a.row == rows[a.index] && b.index < |rows| && b.row == rows[b.index]
      && (b.row.timestamp.Some? ==>
            && a.row.timestamp.Some? && a.row.timestamp.value <= b.row.timestamp.value
            && (a.row.timestamp.value == b.row.timestamp.value ==>
                  a.row.id <= b.row.id && (a.row.id == b.row.id ==> a.index < b.index)))
      && (a.row.timestamp.None? ==> b.row.timestamp.None? && a.index < b.index)
  {
    var items := OrderedItems(rows);
    SameMembers(items, Items(rows));
    assert items[i] in items && items[j] in items;
    assert Precedes(items[i], items[j]);
  }

  /** A point's time divides the plot from left to right as it does the time from the first to the
      last row, and its latency the plot from the bottom up as it does the axis. */
  ghost predicate ToScale(p: Point, row: Row, s: Scales, right: real) {
    && (row.timestamp.None? ==> p.x == 54.0)
    && (row.timestamp.Some? && s.first < s.last ==>
          (p.x - 54.0) * (s.last - s.first) as real == (row.timestamp.value - s.first) as real * (right - 54.0))
    && (row.timestamp.Some? && s.first >= s.last ==> p.x == (54.0 + right) / 2.0)
    && (row.latency.Some? ==> p.y.Some? && (180.0 - p.y.value) * s.yMax == row.latency.value * 166.0)
  }

  /** Every point is where its row belongs on the scales. */
  lemma PointsAreToScale(rows: seq<Row>, width: real, i: nat)
    requires i < |rows|
    ensures ToScale(PointsOf(rows, width)[i], OrderedItems(rows)[i].row, ScalesOf(OrderedItems(rows), width),
                    if width - 12.0 > 55.0 then width - 12.0 else 55.0)
  {
    PointIsToScale(OrderedItems(rows)[i], ScalesOf(OrderedItems(rows), width));
    RightIs(width);
  }

  lemma RightIs(width: real)
    ensures Right(width) == if width - 12.0 > 55.0 then width - 12.0 else 55.0
  {
  }

  lemma PointIsToScale(item: Item, s: Scales)
    requires s.yMax > 0.0
    ensures ToScale(PointOf(item, s), item.row, s, s.right)
  {
    var row := item.row;
    if row.timestamp.Some? && s.first < s.last { XIsLinear(row.timestamp.value, s.first, s.last, s.right); }
    if row.latency.Some? { YIsLinear(row.latency.value, s.yMax); }
  }

  /** Points with a valid time come first, in time order and left to right within the plot. */
  lemma PointsInOrder(rows: seq<Row>, width: real, i: nat, j: nat)
    requires i <= j < |rows|
    ensures var points := PointsOf(rows, width);
      && LEFT <= points[i].x <= Right(width)
      && (ValidTime(points[j]) ==>
            && ValidTime(points[i]) && points[i].timestamp.value <= points[j].timestamp.value
            && points[i].x <= points[j].x)
  {
    var items := OrderedItems(rows);
    PairInOrder(items, i, i, width);
    PairInOrder(items, i, j, width);
  }

  lemma PairInOrder(items: seq<Item>, i: nat, j: nat, width: real)
    requires Sorted(items) && i <= j < |items|
    ensures var p, q := PointOf(items[i], ScalesOf(items, width)), PointOf(items[j], ScalesOf(items, width));
      && LEFT <= p.x <= Right(width)
      && (ValidTime(q) ==> ValidTime(p) && p.timestamp.value <= q.timestamp.value && p.x <= q.x)
  {
    var n, s := ValidCount(items), ScalesOf(items, width);
    if i < n {
      TimesGrow(items, n, 0, i);
      TimesGrow(items, n, i, n - 1);
      XIsMonotone(items[i].row.timestamp.value, items[i].row.timestamp.value, s.first, s.last, s.right);
    }
    if j < n {
      TimesGrow(items, n, i, j);
      TimesGrow(items, n, j, n - 1);
      XIsMonotone(items[i].row.timestamp.value, items[j].row.timestamp.value, s.first, s.last, s.right);
    }
  }

  lemma TimesGrow(items: seq<Item>, n: nat, i: nat, j: nat)
    requires Sorted(items) && n == ValidCount(items) && i <= j < n
    ensures items[i].row.timestamp.Some? && items[j].row.timestamp.Some?
    ensures items[i].row.timestamp.value <= items[j].row.timestamp.value
  {
    assert i < j ==> Precedes(items[i], items[j]);
  }

  /** A latency that is not negative is drawn inside the plot, higher up the larger it is. */
  lemma PointsAreInside(rows: seq<Row>, width: real, i: nat, j: nat)
    requires i < |rows| && j < |rows|
    ensures var points := PointsOf(rows, width);
      && (points[i].y.Some? <==> points[i].row.latency.Some?)
      && (points[i].y.Some? && points[i].row.latency.value >= 0.0 ==> TOP <= points[i].y.value <= BOTTOM)
      && (points[i].y.Some? && points[j].y.Some? ==>
            (points[i].row.latency.value < points[j].row.latency.value <==> points[i].y.value > points[j].y.value))
  {
    var items := OrderedItems(rows);
    var measured := Latencies(items);
    if items[i].row.latency.Some? {
      var v := items[i].row.latency.value;
      var k :| 0 <= k < |measured| && measured[k] == v;
      if v >= 0.0 { MeasuredIsInside(measured, k); }
      if items[j].row.latency.Some? { YIsAntitone(v, items[j].row.latency.value, YMax(Max0(measured))); }
    }
  }

  // ----- Segments -----

  /** A point that is drawn. */
  predicate Drawn(p: Point) { p.y.Some? && p.timestamp.Some? }

  function Threshold(frequency: Option<real>): Option<real> {
    if frequency.Some? && frequency.value > 0.0 then Some(frequency.value * 3000.0) else None
  }

  /** Between point i - 1 and point i lies more time than the threshold. */
  predicate IsGap(points: seq<Point>, threshold: Option<real>, i: nat)
    requires 1 <= i < |points|
  {
    && threshold.Some? && points[i - 1].timestamp.Some? && points[i].timestamp.Some?
    && (points[i].timestamp.value - points[i - 1].timestamp.value) as real > threshold.value
  }

  predicate Joined(points: seq<Point>, threshold: Option<real>, i: nat)
    requires 1 <= i < |points|
  {
    Drawn(points[i - 1]) && Drawn(points[i]) && !IsGap(points, threshold, i)
  }

  /** The points lo..hi. */
  datatype Bound = Bound(lo: nat, hi: nat)

  ghost predicate Covered(bounds: seq<Bound>, i: nat) {
    exists k :: 0 <= k < |bounds| && bounds[k].lo <= i < bounds[k].hi
  }

  ghost predicate Together(bounds: seq<Bound>, i: nat) {
    exists k :: 0 <= k < |bounds| && bounds[k].lo < i < bounds[k].hi
  }

  ghost predicate InOrder(bounds: seq<Bound>, n: nat) {
    && (forall k :: 0 <= k < |bounds| ==> bounds[k].lo < bounds[k].hi <= n)
    && (forall j, k :: 0 <= j < k < |bounds| ==> bounds[j].hi <= bounds[k].lo)
  }

  /** The runs of the first n points: nonempty, in order, covering exactly the drawn points, two
      neighbours being in one run exactly when they are joined. */
  ghost predicate IsSegmentation(points: seq<Point>, threshold: Option<real>, n: nat, bounds: seq<Bound>) {
    && n <= |points| && InOrder(bounds, n)
    && (forall i: nat :: i < n ==> (Covered(bounds, i) <==> Drawn(points[i])))
    && (forall i: nat :: 1 <= i < n ==> (Together(bounds, i) <==> Joined(points, threshold, i)))
  }

  /** One more point: it extends the last run, starts one, or neither. */
  function Grow(points: seq<Point>, threshold: Option<real>, i: nat, bounds: seq<Bound>): seq<Bound>
    requires i < |points|
  {
    if !Drawn(points[i]) then bounds
    else if i > 0 && Joined(points, threshold, i) && bounds != []
    then bounds[..|bounds| - 1] + [Bound(bounds[|bounds| - 1].lo, i + 1)]
    else bounds + [Bound(i, i + 1)]
  }

  lemma EarlierRunsEnd(bounds: seq<Bound>, n: nat)
    requires InOrder(bounds, n)
    ensures forall k :: 0 <= k < |bounds| - 1 ==> bounds[k].hi < n
  {
    forall k | 0 <= k < |bounds| - 1 ensures bounds[k].hi < n {
      assert bounds[k].hi <= bounds[|bounds| - 1].lo;
    }
  }

  /** After a drawn point the last run ends there. */
  lemma LastRunEndsHere(points: seq<Point>, threshold: Option<real>, n: nat, bounds: seq<Bound>)
    requires IsSegmentation(points, threshold, n, bounds) && n > 0 && Drawn(points[n - 1])
    ensures bounds != [] && bounds[|bounds| - 1].hi == n
  {
    assert Covered(bounds, n - 1);
    var k :| 0 <= k < |bounds| && bounds[k].lo <= n - 1 < bounds[k].hi;
    EarlierRunsEnd(bounds, n);
  }

  /** The last run replaced by a longer or shorter one with the same start. */
  function Resize(bounds: seq<Bound>, hi: nat): seq<Bound>
    requires bounds != []
  {
    bounds[..|bounds| - 1] + [Bound(bounds[|bounds| - 1].lo, hi)]
  }

  /** Resizing the last run from n to m moves only what lies between. */
  lemma ResizedCovers(bounds: seq<Bound>, n: nat, m: nat, i: nat)
    requires bounds != [] && bounds[|bounds| - 1].hi == n && i < n && i < m
    ensures Covered(Resize(bounds, m), i) <==> Covered(bounds, i)
    ensures Together(Resize(bounds, m), i) <==> Together(bounds, i)
  {
    var resized := Resize(bounds, m);
    forall k | 0 <= k < |bounds|
      ensures bounds[k].lo <= i < bounds[k].hi <==> resized[k].lo <= i < resized[k].hi
      ensures bounds[k].lo < i < bounds[k].hi <==> resized[k].lo < i < resized[k].hi
    {
    }
  }

  lemma AppendedCovers(bounds: seq<Bound>, n: nat, i: nat)
    requires i < n
    ensures Covered(bounds + [Bound(n, n + 1)], i) <==> Covered(bounds, i)
    ensures Together(bounds + [Bound(n, n + 1)], i) <==> Together(bounds, i)
  {
    var longer := bounds + [Bound(n, n + 1)];
    forall k | 0 <= k < |bounds| ensures bounds[k] == longer[k] {
    }
    assert longer[|bounds|] == Bound(n, n + 1);
  }

  lemma NothingBeyond(bounds: seq<Bound>, n: nat)
    requires InOrder(bounds, n)
    ensures !Covered(bounds, n) && !Together(bounds, n)
  {
  }

  /** What the last run covers. */
  lemma LastCovers(bounds: seq<Bound>, i: nat)
    requires bounds != [] && bounds[|bounds| - 1].lo <= i < bounds[|bounds| - 1].hi
    ensures Covered(bounds, i) && (bounds[|bounds| - 1].lo < i ==> Together(bounds, i))
  {
  }

  /** The pass builds a segmentation point by point. */
  lemma GrowSegments(points: seq<Point>, threshold: Option<real>, n: nat, bounds: seq<Bound>)
    requires n < |points| && IsSegmentation(points, threshold, n, bounds)
    ensures IsSegmentation(points, threshold, n + 1, Grow(points, threshold, n, bounds))
  {
    NothingBeyond(bounds, n);
    if Drawn(points[n]) {
      if n > 0 && Drawn(points[n - 1]) { LastRunEndsHere(points, threshold, n, bounds); }
      if n > 0 && Joined(points, threshold, n) {
        GrowLast(points, threshold, n, bounds);
      } else {
        GrowNew(points, threshold, n, bounds);
      }
    }
  }

  lemma ResizedInOrder(bounds: seq<Bound>, n: nat, m: nat)
    requires InOrder(bounds, n) && bounds != [] && bounds[|bounds| - 1].lo < m
    requires n <= m || (n == m + 1 && bounds[|bounds| - 1].hi == n)
    ensures InOrder(Resize(bounds, m), m)
  {
    EarlierRunsEnd(bounds, n);
  }

  lemma GrowLast(points: seq<Point>, threshold: Option<real>, n: nat, bounds: seq<Bound>)
    requires 0 < n < |points| && IsSegmentation(points, threshold, n, bounds)
    requires bounds != [] && bounds[|bounds| - 1].hi == n && Joined(points, threshold, n)
    ensures IsSegmentation(points, threshold, n + 1, Resize(bounds, n + 1))
  {
    var grown := Resize(bounds, n + 1);
    ResizedInOrder(bounds, n, n + 1);
    forall i: nat | i <= n
      ensures Covered(grown, i) <==> Drawn(points[i])
      ensures i >= 1 ==> (Together(grown, i) <==> Joined(points, threshold, i))
    {
      GrownAt(points, threshold, n, bounds, i);
    }
  }

  lemma GrownAt(points: seq<Point>, threshold: Option<real>, n: nat, bounds: seq<Bound>, i: nat)
    requires 0 < n < |points| && IsSegmentation(points, threshold, n, bounds) && i <= n
    requires bounds != [] && bounds[|bounds| - 1].hi == n && Joined(points, threshold, n)
    ensures Covered(Resize(bounds, n + 1), i) <==> Drawn(points[i])
    ensures i >= 1 ==> (Together(Resize(bounds, n + 1), i) <==> Joined(points, threshold, i))
  {
    if i < n { ResizedCovers(bounds, n, n + 1, i); } else { LastCovers(Resize(bounds, n + 1), n); }
  }

  lemma NewRunIsApart(bounds: seq<Bound>, n: nat)
    requires InOrder(bounds, n)
    ensures InOrder(bounds + [Bound(n, n + 1)], n + 1) && !Together(bounds + [Bound(n, n + 1)], n)
  {
    forall k | 0 <= k < |bounds| ensures (bounds + [Bound(n, n + 1)])[k] == bounds[k] {
    }
  }

  lemma GrowNew(points: seq<Point>, threshold: Option<real>, n: nat, bounds: seq<Bound>)
    requires n < |points| && IsSegmentation(points, threshold, n, bounds)
    requires Drawn(points[n]) && (n > 0 ==> !Joined(points, threshold, n))
    ensures IsSegmentation(points, threshold, n + 1, bounds + [Bound(n, n + 1)])
  {
    var grown := bounds + [Bound(n, n + 1)];
    LastCovers(grown, n);
    NewRunIsApart(bounds, n);
    forall i: nat | i < n
      ensures Covered(grown, i) <==> Drawn(points[i])
      ensures i >= 1 ==> (Together(grown, i) <==> Joined(points, threshold, i))
    {
      AppendedCovers(bounds, n, i);
    }
  }

  /** And no other segmentation exists: without its last point one is a segmentation of the rest,
      from which the pass builds it. */
  lemma ShrinkSegments(points: seq<Point>, threshold: Option<real>, n: nat, bounds: seq<Bound>)
    returns (fewer: seq<Bound>)
    requires 0 < n && IsSegmentation(points, threshold, n, bounds)
    ensures IsSegmentation(points, threshold, n - 1, fewer) && bounds == Grow(points, threshold, n - 1, fewer)
  {
    fewer := ShrinkTo(points, threshold, n - 1, bounds);
  }

  lemma ShrinkTo(points: seq<Point>, threshold: Option<real>, n: nat, bounds: seq<Bound>)
    returns (fewer: seq<Bound>)
    requires n < |points| && IsSegmentation(points, threshold, n + 1, bounds)
    ensures IsSegmentation(points, threshold, n, fewer) && bounds == Grow(points, threshold, n, fewer)
  {
    if !Drawn(points[n]) {
      fewer := bounds;
      NotDrawnNotReached(points, threshold, n, bounds);
    } else {
      LastRunEndsHere(points, threshold, n + 1, bounds);
      var lo := bounds[|bounds| - 1].lo;
      if lo == n {
        fewer := bounds[..|bounds| - 1];
        ShrinkNew(points, threshold, n, bounds);
      } else {
        fewer := Resize(bounds, n);
        ShrinkLast(points, threshold, n, bounds);
      }
    }
  }

  lemma NotDrawnNotReached(points: seq<Point>, threshold: Option<real>, n: nat, bounds: seq<Bound>)
    requires n < |points| && IsSegmentation(points, threshold, n + 1, bounds) && !Drawn(points[n])
    ensures IsSegmentation(points, threshold, n, bounds) && bounds == Grow(points, threshold, n, bounds)
  {
    assert !Covered(bounds, n);
    forall k | 0 <= k < |bounds| ensures bounds[k].hi <= n {
    }
  }

  lemma ShrinkNew(points: seq<Point>, threshold: Option<real>, n: nat, bounds: seq<Bound>)
    requires n < |points| && IsSegmentation(points, threshold, n + 1, bounds)
    requires bounds != [] && bounds[|bounds| - 1] == Bound(n, n + 1)
    requires Drawn(points[n])
    ensures IsSegmentation(points, threshold, n, bounds[..|bounds| - 1])
    ensures bounds == Grow(points, threshold, n, bounds[..|bounds| - 1])
  {
    var fewer := bounds[..|bounds| - 1];
    assert bounds == fewer + [Bound(n, n + 1)];
    FewerInOrder(bounds, n);
    NewRunIsApart(fewer, n);
    forall i: nat | i < n
      ensures Covered(fewer, i) <==> Drawn(points[i])
      ensures i >= 1 ==> (Together(fewer, i) <==> Joined(points, threshold, i))
    {
      AppendedCovers(fewer, n, i);
    }
  }

  lemma FewerInOrder(bounds: seq<Bound>, n: nat)
    requires InOrder(bounds, n + 1) && bounds != [] && bounds[|bounds| - 1].lo == n
    ensures InOrder(bounds[..|bounds| - 1], n)
  {
  }

  lemma ShrinkLast(points: seq<Point>, threshold: Option<real>, n: nat, bounds: seq<Bound>)
    requires n < |points| && IsSegmentation(points, threshold, n + 1, bounds)
    requires bounds != [] && bounds[|bounds| - 1].hi == n + 1 && bounds[|bounds| - 1].lo < n
    ensures IsSegmentation(points, threshold, n, Resize(bounds, n))
    ensures bounds == Grow(points, threshold, n, Resize(bounds, n))
  {
    LastCovers(bounds, n);
    ResizedInOrder(bounds, n + 1, n);
    forall i: nat | i < n
      ensures Covered(Resize(bounds, n), i) <==> Drawn(points[i])
      ensures i >= 1 ==> (Together(Resize(bounds, n), i) <==> Joined(points, threshold, i))
    {
      ResizedCovers(bounds, n + 1, n, i);
    }
  }

  lemma NoPointsNoRuns(bounds: seq<Bound>)
    requires InOrder(bounds, 0)
    ensures bounds == []
  {
    assert |bounds| > 0 ==> bounds[0].hi <= 0;
  }

  // ----- The concatenation of the segments -----

  /** The drawn ones of the first n points. */
  function DrawnOf(points: seq<Point>, n: nat): seq<Point>
    requires n <= |points|
  {
    if n == 0 then [] else DrawnOf(points, n - 1) + DrawnAt(points, n - 1)
  }

  function DrawnAt(points: seq<Point>, i: nat): seq<Point>
    requires i < |points|
  {
    if Drawn(points[i]) then [points[i]] else []
  }

  ghost predicate CutsFit(points: seq<Point>, bounds: seq<Bound>) {
    forall k :: 0 <= k < |bounds| ==> bounds[k].lo <= bounds[k].hi <= |points|
  }

  /** The segments for these bounds. */
  function Cut(points: seq<Point>, bounds: seq<Bound>): (segments: seq<seq<Point>>)
    requires CutsFit(points, bounds)
    ensures |segments| == |bounds|
    ensures forall k :: 0 <= k < |bounds| ==> segments[k] == points[bounds[k].lo..bounds[k].hi]
  {
    seq(|bounds|, k requires 0 <= k < |bounds| => points[bounds[k].lo..bounds[k].hi])
  }

  function Concat(segments: seq<seq<Point>>): seq<Point> {
    if segments == [] then [] else Concat(segments[..|segments| - 1]) + segments[|segments| - 1]
  }

  lemma ConcatAppend(segments: seq<seq<Point>>, segment: seq<Point>)
    ensures Concat(segments + [segment]) == Concat(segments) + segment
  {
    assert (segments + [segment])[..|segments|] == segments;
  }

  lemma CutAppend(points: seq<Point>, bounds: seq<Bound>, b: Bound)
    requires CutsFit(points, bounds + [b]) && CutsFit(points, bounds) && b.lo <= b.hi <= |points|
    ensures Cut(points, bounds + [b]) == Cut(points, bounds) + [points[b.lo..b.hi]]
  {
  }

  lemma FitsMore(points: seq<Point>, bounds: seq<Bound>, b: Bound)
    requires CutsFit(points, bounds) && b.lo <= b.hi <= |points|
    ensures CutsFit(points, bounds + [b])
  {
  }

  lemma Fits(points: seq<Point>, threshold: Option<real>, n: nat, bounds: seq<Bound>)
    requires IsSegmentation(points, threshold, n, bounds)
    ensures CutsFit(points, bounds)
  {
  }

  /** Making the last run one point longer. */
  lemma CutLonger(points: seq<Point>, bounds: seq<Bound>, n: nat) returns (rest: seq<seq<Point>>, run: seq<Point>)
    requires n < |points| && CutsFit(points, bounds) && bounds != []
    requires bounds[|bounds| - 1].lo < bounds[|bounds| - 1].hi == n
    ensures CutsFit(points, Resize(bounds, n + 1)) && run != []
    ensures Cut(points, bounds) == rest + [run]
    ensures Cut(points, Resize(bounds, n + 1)) == rest + [run + [points[n]]]
  {
    var before, lo := bounds[..|bounds| - 1], bounds[|bounds| - 1].lo;
    rest, run := Cut(points, before), points[lo..n];
    assert bounds == before + [Bound(lo, n)];
    assert points[lo..n + 1] == run + [points[n]];
    FitsMore(points, before, Bound(lo, n + 1));
    CutAppend(points, before, Bound(lo, n));
    CutAppend(points, before, Bound(lo, n + 1));
  }

  /** What one more point does to the segments: `rest` and the run that takes it, if it is drawn. */
  lemma CutGrows(points: seq<Point>, threshold: Option<real>, n: nat, bounds: seq<Bound>)
    returns (rest: seq<seq<Point>>, run: seq<Point>)
    requires n < |points| && IsSegmentation(points, threshold, n, bounds) && Drawn(points[n])
    ensures CutsFit(points, Grow(points, threshold, n, bounds))
    ensures Cut(points, bounds) == if n > 0 && Joined(points, threshold, n) then rest + [run] else rest
    ensures n > 0 && Joined(points, threshold, n) ==> run != []
    ensures n == 0 || !Joined(points, threshold, n) ==> run == []
    ensures Cut(points, Grow(points, threshold, n, bounds)) == rest + [run + [points[n]]]
  {
    Fits(points, threshold, n, bounds);
    if n > 0 && Joined(points, threshold, n) {
      LastRunEndsHere(points, threshold, n, bounds);
      rest, run := CutLonger(points, bounds, n);
    } else {
      rest, run := Cut(points, bounds), [];
      assert points[n..n + 1] == run + [points[n]];
      FitsMore(points, bounds, Bound(n, n + 1));
      CutAppend(points, bounds, Bound(n, n + 1));
    }
  }

  ghost predicate Within(bounds: seq<Bound>, n: nat) {
    forall k :: 0 <= k < |bounds| ==> bounds[k].lo < bounds[k].hi <= n
  }

  /** The runs the pass has built after n points. */
  function Runs(points: seq<Point>, threshold: Option<real>, n: nat): (bounds: seq<Bound>)
    requires n <= |points|
    ensures Within(bounds, n)
  {
    if n == 0 then [] else Grow(points, threshold, n - 1, Runs(points, threshold, n - 1))
  }

  lemma RunsGrow(points: seq<Point>, threshold: Option<real>, n: nat, fewer: seq<Bound>, bounds: seq<Bound>)
    requires 0 < n <= |points| && fewer == Runs(points, threshold, n - 1)
    requires bounds == Grow(points, threshold, n - 1, fewer)
    ensures bounds == Runs(points, threshold, n)
  {
  }

  lemma {:induction false} SegmentationIsRuns(points: seq<Point>, threshold: Option<real>, n: nat, bounds: seq<Bound>)
    requires IsSegmentation(points, threshold, n, bounds)
    ensures bounds == Runs(points, threshold, n)
  {
    if n > 0 {
      var fewer := ShrinkSegments(points, threshold, n, bounds);
      SegmentationIsRuns(points, threshold, n - 1, fewer);
      RunsGrow(points, threshold, n, fewer, bounds);
    } else {
      NoPointsNoRuns(bounds);
    }
  }

  lemma SegmentationIsUnique(points: seq<Point>, threshold: Option<real>, n: nat, a: seq<Bound>, b: seq<Bound>)
    requires IsSegmentation(points, threshold, n, a) && IsSegmentation(points, threshold, n, b)
    ensures a == b
  {
    SegmentationIsRuns(points, threshold, n, a);
    SegmentationIsRuns(points, threshold, n, b);
  }

  /** The points of the runs, one run after the other. */
  function PointsIn(points: seq<Point>, bounds: seq<Bound>): seq<Point>
    requires CutsFit(points, bounds)
  {
    if bounds == [] then []
    else PointsIn(points, bounds[..|bounds| - 1]) + points[bounds[|bounds| - 1].lo..bounds[|bounds| - 1].hi]
  }

  lemma PointsInMore(points: seq<Point>, bounds: seq<Bound>, b: Bound)
    requires CutsFit(points, bounds) && b.lo <= b.hi <= |points|
    ensures CutsFit(points, bounds + [b])
    ensures PointsIn(points, bounds + [b]) == PointsIn(points, bounds) + points[b.lo..b.hi]
  {
    assert (bounds + [b])[..|bounds|] == bounds;
  }

  lemma {:induction false} ConcatOfCut(points: seq<Point>, bounds: seq<Bound>)
    requires CutsFit(points, bounds)
    ensures Concat(Cut(points, bounds)) == PointsIn(points, bounds)
  {
    if bounds != [] {
      var before, b := bounds[..|bounds| - 1], bounds[|bounds| - 1];
      ConcatOfCut(points, before);
      assert bounds == before + [b];
      CutAppend(points, before, b);
      ConcatAppend(Cut(points, before), points[b.lo..b.hi]);
    }
  }

  /** After a drawn point the last run ends there. */
  lemma RunsEnd(points: seq<Point>, threshold: Option<real>, n: nat)
    requires 0 < n <= |points| && Drawn(points[n - 1])
    ensures var bounds := Runs(points, threshold, n);
      bounds != [] && bounds[|bounds| - 1].lo < bounds[|bounds| - 1].hi == n
  {
  }

  lemma OneMorePoint(points: seq<Point>, lo: nat, n: nat)
    requires lo <= n < |points|
    ensures points[lo..n + 1] == points[lo..n] + [points[n]]
  {
  }

  lemma PointsInLonger(points: seq<Point>, bounds: seq<Bound>, n: nat)
    requires n < |points| && CutsFit(points, bounds) && bounds != []
    requires bounds[|bounds| - 1].lo < bounds[|bounds| - 1].hi == n
    ensures CutsFit(points, Resize(bounds, n + 1))
    ensures PointsIn(points, Resize(bounds, n + 1)) == PointsIn(points, bounds) + [points[n]]
  {
    var before, lo := bounds[..|bounds| - 1], bounds[|bounds| - 1].lo;
    assert bounds == before + [Bound(lo, n)];
    PointsInMore(points, before, Bound(lo, n));
    PointsInMore(points, before, Bound(lo, n + 1));
    OneMorePoint(points, lo, n);
  }

  lemma PointsInWithNew(points: seq<Point>, bounds: seq<Bound>, n: nat)
    requires n < |points| && CutsFit(points, bounds)
    ensures CutsFit(points, bounds + [Bound(n, n + 1)])
    ensures PointsIn(points, bounds + [Bound(n, n + 1)]) == PointsIn(points, bounds) + [points[n]]
  {
    PointsInMore(points, bounds, Bound(n, n + 1));
    OneMorePoint(points, n, n);
  }

  /** What one more point does to the runs it does to their points. */
  lemma GrowPoints(points: seq<Point>, threshold: Option<real>, n: nat, bounds: seq<Bound>)
    requires n < |points| && CutsFit(points, bounds)
    requires n > 0 && Drawn(points[n - 1]) ==>
      bounds != [] && bounds[|bounds| - 1].lo < bounds[|bounds| - 1].hi == n
    ensures CutsFit(points, Grow(points, threshold, n, bounds))
    ensures PointsIn(points, Grow(points, threshold, n, bounds)) == PointsIn(points, bounds) + DrawnAt(points, n)
  {
    if Drawn(points[n]) {
      if n > 0 && Joined(points, threshold, n) {
        PointsInLonger(points, bounds, n);
      } else {
        PointsInWithNew(points, bounds, n);
      }
    }
  }

  lemma {:induction false} PointsInAreDrawn(points: seq<Point>, threshold: Option<real>, n: nat)
    requires n <= |points|
    ensures PointsIn(points, Runs(points, threshold, n)) == DrawnOf(points, n)
  {
    if n > 0 {
      PointsInAreDrawn(points, threshold, n - 1);
      RunsThatGrow(points, threshold, n - 1, Runs(points, threshold, n - 1), DrawnOf(points, n - 1));
    }
  }

  /** One more point, for runs that hold these points so far. */
  lemma RunsThatGrow(points: seq<Point>, threshold: Option<real>, n: nat, bounds: seq<Bound>, drawn: seq<Point>)
    requires n < |points| && bounds == Runs(points, threshold, n) && PointsIn(points, bounds) == drawn
    ensures PointsIn(points, Runs(points, threshold, n + 1)) == drawn + DrawnAt(points, n)
  {
    if n > 0 && Drawn(points[n - 1]) { RunsEnd(points, threshold, n); }
    GrowPoints(points, threshold, n, bounds);
  }

  /** Put together, the segments are exactly the drawn points, in order. */
  lemma SegmentsAreDrawnPoints(points: seq<Point>, threshold: Option<real>, n: nat, bounds: seq<Bound>)
    requires IsSegmentation(points, threshold, n, bounds)
    ensures CutsFit(points, bounds) && Concat(Cut(points, bounds)) == DrawnOf(points, n)
  {
    SegmentationIsRuns(points, threshold, n, bounds);
    PointsInAreDrawn(points, threshold, n);
    ConcatOfCut(points, bounds);
  }

  // ----- The pass -----

  datatype Gap = Gap(x: real, duration: int, threshold: real)

  function GapAt(points: seq<Point>, threshold: Option<real>, i: nat): Gap
    requires 1 <= i < |points| && IsGap(points, threshold, i)
  {
    Gap((points[i - 1].x + points[i].x) / 2.0, points[i].timestamp.value - points[i - 1].timestamp.value,
        threshold.value)
  }

  /** One gap for each neighbouring pair that lies too far apart, in order; `at` says where. */
  ghost predicate AreGaps(points: seq<Point>, threshold: Option<real>, n: nat, gaps: seq<Gap>, at: seq<nat>) {
    && n <= |points| && |at| == |gaps|
    && (forall k :: 0 <= k < |at| ==>
          1 <= at[k] < n && IsGap(points, threshold, at[k]) && gaps[k] == GapAt(points, threshold, at[k]))
    && (forall j, k :: 0 <= j < k < |at| ==> at[j] < at[k])
    && (forall i: nat :: 1 <= i < n && IsGap(points, threshold, i) ==> i in at)
  }

  /** The segments pushed so far and the open one. */
  function WithOpen(segments: seq<seq<Point>>, segment: seq<Point>): seq<seq<Point>> {
    if segment == [] then segments else segments + [segment]
  }

  /** The loop's state before point i. */
  ghost predicate Passed(points: seq<Point>, threshold: Option<real>, i: nat, segments: seq<seq<Point>>,
                         segment: seq<Point>, gaps: seq<Gap>, bounds: seq<Bound>, at: seq<nat>) {
    && IsSegmentation(points, threshold, i, bounds)
    && WithOpen(segments, segment) == Cut(points, bounds)
    && (segment != [] <==> i > 0 && Drawn(points[i - 1]))
    && AreGaps(points, threshold, i, gaps, at)
  }

  /** The segments are those of the segmentation. */
  ghost predicate AreSegments(points: seq<Point>, threshold: Option<real>, segments: seq<seq<Point>>) {
    exists bounds :: IsSegmentation(points, threshold, |points|, bounds) && segments == Cut(points, bounds)
  }

  ghost predicate AreAllGaps(points: seq<Point>, threshold: Option<real>, gaps: seq<Gap>) {
    exists at :: AreGaps(points, threshold, |points|, gaps, at)
  }

  /** One pass gives the segments of the only segmentation there is, and every gap. */
  method CutPoints(points: seq<Point>, threshold: Option<real>)
    returns (segments: seq<seq<Point>>, gaps: seq<Gap>)
    ensures AreSegments(points, threshold, segments) && AreAllGaps(points, threshold, gaps)
  {
    segments, gaps := [], [];
    ghost var bounds: seq<Bound>, at: seq<nat> := [], [];
    var segment: seq<Point> := [];
    for i := 0 to |points|
      invariant Passed(points, threshold, i, segments, segment, gaps, bounds, at)
    {
      var point := points[i];
      var elapsed := if i > 0 && points[i - 1].timestamp.Some? && point.timestamp.Some?
                     then Some(point.timestamp.value - points[i - 1].timestamp.value) else None;
      var gap := threshold.Some? && elapsed.Some? && elapsed.value as real > threshold.value;
      TurnOfLoop(points, threshold, i, segments, segment, gaps, bounds, at, gap);
      if point.y.None? || point.timestamp.None? || gap {
        if segment != [] { segments := segments + [segment]; }
        segment := [];
      }
      if gap {
        gaps := gaps + [GapAt(points, threshold, i)];
        at := at + [i];
      }
      if point.y.Some? && point.timestamp.Some? { segment := segment + [point]; }
      bounds := Grow(points, threshold, i, bounds);
    }
    if segment != [] { segments := segments + [segment]; }
  }

  /** The segments are determined, and put together they are the drawn points in order. */
  lemma SegmentsAreDetermined(points: seq<Point>, threshold: Option<real>, a: seq<seq<Point>>, b: seq<seq<Point>>)
    requires AreSegments(points, threshold, a) && AreSegments(points, threshold, b)
    ensures a == b && Concat(a) == DrawnOf(points, |points|)
  {
    var s :| IsSegmentation(points, threshold, |points|, s) && a == Cut(points, s);
    var t :| IsSegmentation(points, threshold, |points|, t) && b == Cut(points, t);
    SegmentationIsUnique(points, threshold, |points|, s, t);
    SegmentsAreDrawnPoints(points, threshold, |points|, s);
  }

  /** And so are the gaps. */
  lemma GapsAreDetermined(points: seq<Point>, threshold: Option<real>, a: seq<Gap>, b: seq<Gap>)
    requires AreAllGaps(points, threshold, a) && AreAllGaps(points, threshold, b)
    ensures a == b
  {
    var s :| AreGaps(points, threshold, |points|, a, s);
    var t :| AreGaps(points, threshold, |points|, b, t);
    forall i ensures i in s <==> i in t {
      GapIndex(points, threshold, |points|, a, s, i);
      GapIndex(points, threshold, |points|, b, t, i);
    }
    SameIncreasing(s, t);
    SameGaps(points, threshold, |points|, a, b, s);
  }

  lemma GapIndex(points: seq<Point>, threshold: Option<real>, n: nat, gaps: seq<Gap>, at: seq<nat>, i: nat)
    requires AreGaps(points, threshold, n, gaps, at)
    ensures i in at <==> 1 <= i < n && IsGap(points, threshold, i)
  {
  }

  lemma SameGaps(points: seq<Point>, threshold: Option<real>, n: nat, a: seq<Gap>, b: seq<Gap>, at: seq<nat>)
    requires AreGaps(points, threshold, n, a, at) && AreGaps(points, threshold, n, b, at)
    ensures a == b
  {
    forall k | 0 <= k < |at| ensures a[k] == b[k] {
      assert 1 <= at[k] < n;
    }
  }

  lemma HasMember(t: seq<nat>)
    ensures t != [] ==> exists i :: i in t
  {
    if t != [] { assert t[0] in t; }
  }

  lemma {:induction false} SameIncreasing(s: seq<nat>, t: seq<nat>)
    requires forall j, k :: 0 <= j < k < |s| ==> s[j] < s[k]
    requires forall j, k :: 0 <= j < k < |t| ==> t[j] < t[k]
    requires forall i :: i in s <==> i in t
    ensures s == t
  {
    HasMember(s);
    HasMember(t);
    if s != [] && t != [] {
      assert s[0] in t;
      assert t[0] in s;
      assert s[0] == t[0];
      forall i ensures i in s[1..] <==> i in t[1..] {
        assert i in s <==> i == s[0] || i in s[1..];
        assert i in t <==> i == t[0] || i in t[1..];
      }
      SameIncreasing(s[1..], t[1..]);
      assert s == [s[0]] + s[1..] && t == [t[0]] + t[1..];
    }
  }

  lemma TurnOfLoop(points: seq<Point>, threshold: Option<real>, i: nat, segments: seq<seq<Point>>,
                   segment: seq<Point>, gaps: seq<Gap>, bounds: seq<Bound>, at: seq<nat>, gap: bool)
    requires i < |points| && Passed(points, threshold, i, segments, segment, gaps, bounds, at)
    requires gap <==> i > 0 && IsGap(points, threshold, i)
    ensures var closes := !Drawn(points[i]) || gap;
      Passed(points, threshold, i + 1, if closes then WithOpen(segments, segment) else segments,
             (if closes then [] else segment) + (if Drawn(points[i]) then [points[i]] else []),
             if gap then gaps + [GapAt(points, threshold, i)] else gaps,
             Grow(points, threshold, i, bounds), if gap then at + [i] else at)
  {
    GrowSegments(points, threshold, i, bounds);
    OpenSegment(points, threshold, i, bounds, segments, segment, gap);
    MoreGaps(points, threshold, i, gaps, at);
  }

  lemma MoreGaps(points: seq<Point>, threshold: Option<real>, i: nat, gaps: seq<Gap>, at: seq<nat>)
    requires i < |points| && AreGaps(points, threshold, i, gaps, at)
    ensures if i > 0 && IsGap(points, threshold, i)
      then AreGaps(points, threshold, i + 1, gaps + [GapAt(points, threshold, i)], at + [i])
      else AreGaps(points, threshold, i + 1, gaps, at)
  {
  }

  /** One turn of the loop, on the pushed segments and the open one. */
  lemma OpenSegment(points: seq<Point>, threshold: Option<real>, i: nat, bounds: seq<Bound>,
                    segments: seq<seq<Point>>, segment: seq<Point>, gap: bool)
    requires i < |points| && IsSegmentation(points, threshold, i, bounds)
    requires WithOpen(segments, segment) == Cut(points, bounds)
    requires segment != [] <==> i > 0 && Drawn(points[i - 1])
    requires gap <==> i > 0 && IsGap(points, threshold, i)
    requires CutsFit(points, Grow(points, threshold, i, bounds))
    ensures var closes := !Drawn(points[i]) || gap;
      var open := (if closes then [] else segment) + (if Drawn(points[i]) then [points[i]] else []);
      Cut(points, Grow(points, threshold, i, bounds)) ==
        WithOpen(if closes then WithOpen(segments, segment) else segments, open)
  {
    if Drawn(points[i]) {
      var rest, run := CutGrows(points, threshold, i, bounds);
      if i > 0 && Joined(points, threshold, i) { SameLast(rest, run, segments, segment); }
    }
  }

  lemma SameLast(rest: seq<seq<Point>>, run: seq<Point>, segments: seq<seq<Point>>, segment: seq<Point>)
    requires rest + [run] == segments + [segment]
    ensures rest == segments && run == segment
  {
    assert (rest + [run])[|rest|] == run && (segments + [segment])[|segments|] == segment;
    assert (rest + [run])[..|rest|] == rest && (segments + [segment])[..|segments|] == segments;
  }

  // ----- The chart -----

  /** Row i of the chart. */
  function RowAt(rows: seq<Row>, i: nat): Row
    requires i < |rows|
  {
    OrderedItems(rows)[i].row
  }

  predicate Measured(row: Row) { row.latency.Some? && row.timestamp.Some? }

  /** Between two rows lie more than three checks at the monitor's frequency, in seconds. */
  predicate FarApart(a: Row, b: Row, frequency: Option<real>) {
    && frequency.Some? && frequency.value > 0.0 && a.timestamp.Some? && b.timestamp.Some?
    && (b.timestamp.value - a.timestamp.value) as real / 1000.0 > 3.0 * frequency.value
  }

  /** The segments, by the rows: nonempty runs in order that cover exactly the measured rows, two
      neighbours being in one exactly when both are measured and not too far apart. */
  ghost predicate RowsInRuns(rows: seq<Row>, frequency: Option<real>, bounds: seq<Bound>) {
    && InOrder(bounds, |rows|)
    && (forall i: nat :: i < |rows| ==> (Covered(bounds, i) <==> Measured(RowAt(rows, i))))
    && (forall i: nat :: 1 <= i < |rows| ==>
          (Together(bounds, i) <==>
            && Measured(RowAt(rows, i - 1)) && Measured(RowAt(rows, i))
            && !FarApart(RowAt(rows, i - 1), RowAt(rows, i), frequency)))
  }

  /** The gaps, by the rows: one for each two neighbours too far apart, in order, half way between their points. */
  ghost predicate RowGapsAt(rows: seq<Row>, frequency: Option<real>, points: seq<Point>, gaps: seq<Gap>, at: seq<nat>) {
    && |at| == |gaps| && |points| == |rows|
    && (forall j, k :: 0 <= j < k < |at| ==> at[j] < at[k])
    && (forall i :: i in at ==> 1 <= i < |rows|)
    && (forall i: nat :: 1 <= i < |rows| ==> (i in at <==> FarApart(RowAt(rows, i - 1), RowAt(rows, i), frequency)))
    && (forall k :: 0 <= k < |at| && 1 <= at[k] < |rows| ==>
          GapBetween(rows, frequency, points, gaps[k], at[k]))
  }

  ghost predicate GapBetween(rows: seq<Row>, frequency: Option<real>, points: seq<Point>, gap: Gap, i: nat)
    requires 1 <= i < |rows| == |points|
  {
    && RowAt(rows, i - 1).timestamp.Some? && RowAt(rows, i).timestamp.Some? && frequency.Some?
    && gap.duration == RowAt(rows, i).timestamp.value - RowAt(rows, i - 1).timestamp.value
    && gap.threshold == 3000.0 * frequency.value && gap.x == (points[i - 1].x + points[i].x) / 2.0
  }

  lemma FarIsGap(rows: seq<Row>, frequency: Option<real>, width: real, i: nat)
    requires 1 <= i < |rows|
    ensures IsGap(PointsOf(rows, width), Threshold(frequency), i) <==>
      FarApart(RowAt(rows, i - 1), RowAt(rows, i), frequency)
  {
  }

  /** The segmentation of the points is that of the rows. */
  lemma SegmentsAreOfRows(rows: seq<Row>, frequency: Option<real>, width: real, bounds: seq<Bound>)
    requires IsSegmentation(PointsOf(rows, width), Threshold(frequency), |rows|, bounds)
    ensures RowsInRuns(rows, frequency, bounds)
  {
    var points := PointsOf(rows, width);
    forall i: nat | i < |rows| ensures Covered(bounds, i) <==> Measured(RowAt(rows, i)) {
      assert Drawn(points[i]) <==> Measured(RowAt(rows, i));
    }
    forall i: nat | 1 <= i < |rows|
      ensures Together(bounds, i) <==>
        Measured(RowAt(rows, i - 1)) && Measured(RowAt(rows, i))
        && !FarApart(RowAt(rows, i - 1), RowAt(rows, i), frequency)
    {
      FarIsGap(rows, frequency, width, i);
      assert Together(bounds, i) <==> Joined(points, Threshold(frequency), i);
    }
  }

  /** And so are the gaps. */
  lemma GapsAreOfRows(rows: seq<Row>, frequency: Option<real>, width: real, gaps: seq<Gap>, at: seq<nat>)
    requires AreGaps(PointsOf(rows, width), Threshold(frequency), |rows|, gaps, at)
    ensures RowGapsAt(rows, frequency, PointsOf(rows, width), gaps, at)
  {
    var points := PointsOf(rows, width);
    forall i: nat | 1 <= i < |rows| ensures i in at <==> FarApart(RowAt(rows, i - 1), RowAt(rows, i), frequency) {
      FarIsGap(rows, frequency, width, i);
      GapIndex(points, Threshold(frequency), |rows|, gaps, at, i);
    }
    forall k | 0 <= k < |at| && 1 <= at[k] < |rows| ensures GapBetween(rows, frequency, points, gaps[k], at[k]) {
      assert gaps[k] == GapAt(points, Threshold(frequency), at[k]);
    }
  }

  /** The chart, by the rows it is of. */
  method BuildLatencyChart(rows: seq<Row>, frequency: Option<real>, width: real)
    returns (points: seq<Point>, segments: seq<seq<Point>>, gaps: seq<Gap>, xTicks: seq<Tick>, yTicks: seq<Tick>)
    ensures points == PointsOf(rows, width)
    ensures AreSegments(points, Threshold(frequency), segments) && AreAllGaps(points, Threshold(frequency), gaps)
    ensures exists bounds :: RowsInRuns(rows, frequency, bounds) && IsCut(points, bounds, segments)
    ensures exists at :: RowGapsAt(rows, frequency, points, gaps, at)
    ensures AreYTicks(Latencies(OrderedItems(rows)), yTicks)
    ensures var scales := ScalesOf(OrderedItems(rows), width);
      AreXTicks(HasTimes(points), scales.first, scales.last, scales.right, xTicks)
  {
    var items := OrderedItems(rows);
    var scales := ScalesOf(items, width);
    points := PointsOf(rows, width);
    segments, gaps := CutPoints(points, Threshold(frequency));
    ChartIsOfRows(rows, frequency, width, segments, gaps);
    TimesAreOrdered(items, width);
    xTicks := XTicks(ValidCount(items) > 0, scales.first, scales.last, scales.right);
    yTicks := YTicks(Latencies(items));
    SomeTime(rows, width);
  }

  /** The segments are the points of these bounds. */
  ghost predicate IsCut(points: seq<Point>, bounds: seq<Bound>, segments: seq<seq<Point>>) {
    && |segments| == |bounds|
    && forall k :: 0 <= k < |bounds| ==>
        bounds[k].lo <= bounds[k].hi <= |points| && segments[k] == points[bounds[k].lo..bounds[k].hi]
  }

  lemma ChartIsOfRows(rows: seq<Row>, frequency: Option<real>, width: real, segments: seq<seq<Point>>, gaps: seq<Gap>)
    requires AreSegments(PointsOf(rows, width), Threshold(frequency), segments)
    requires AreAllGaps(PointsOf(rows, width), Threshold(frequency), gaps)
    ensures exists bounds :: RowsInRuns(rows, frequency, bounds) && IsCut(PointsOf(rows, width), bounds, segments)
    ensures exists at :: RowGapsAt(rows, frequency, PointsOf(rows, width), gaps, at)
  {
    var points := PointsOf(rows, width);
    var bounds :| IsSegmentation(points, Threshold(frequency), |rows|, bounds) && segments == Cut(points, bounds);
    SegmentsAreOfRows(rows, frequency, width, bounds);
    assert IsCut(points, bounds, segments);
    var at :| AreGaps(points, Threshold(frequency), |rows|, gaps, at);
    GapsAreOfRows(rows, frequency, width, gaps, at);
  }

  ghost predicate HasTimes(points: seq<Point>) { exists i :: 0 <= i < |points| && ValidTime(points[i]) }

  lemma SomeTime(rows: seq<Row>, width: real)
    ensures ValidCount(OrderedItems(rows)) > 0 <==> HasTimes(PointsOf(rows, width))
  {
    var items, points := OrderedItems(rows), PointsOf(rows, width);
    forall i | 0 <= i < |points| ensures ValidTime(points[i]) <==> i < ValidCount(items) {
    }
    if ValidCount(items) > 0 { assert ValidTime(points[0]); }
  }

  lemma TimesAreOrdered(items: seq<Item>, width: real)
    requires Sorted(items)
    ensures ScalesOf(items, width).first <= ScalesOf(items, width).last
  {
    var n := ValidCount(items);
    if n > 0 { TimesGrow(items, n, 0, n - 1); }
  }

  /** Both ends of the time axis are those of the rows, the first and last of their times, and the
      latency axis covers the largest latency. */
  lemma ScalesAreOfRows(items: seq<Item>, width: real, i: nat)
    requires Sorted(items) && i < |items|
    ensures var s := ScalesOf(items, width);
      && (items[i].row.timestamp.Some? ==>
            && s.first <= items[i].row.timestamp.value <= s.last
            && (exists j :: 0 <= j < |items| && items[j].row.timestamp == Some(s.first))
            && (exists j :: 0 <= j < |items| && items[j].row.timestamp == Some(s.last)))
      && (items[i].row.latency.Some? ==> items[i].row.latency.value <= s.yMax)
  {
    var n := ValidCount(items);
    if i < n {
      TimesGrow(items, n, 0, i);
      TimesGrow(items, n, i, n - 1);
      assert items[0].row.timestamp == Some(items[0].row.timestamp.value);
      assert items[n - 1].row.timestamp == Some(items[n - 1].row.timestamp.value);
    }
    if items[i].row.latency.Some? { AxisCovers(Max0(Latencies(items))); }
  }

  /** The latency axis is that of the largest latency measured, or of zero when none is positive. */
  lemma AxisIsOfLargest(items: seq<Item>, width: real)
    requires Sorted(items)
    ensures exists max :: ScalesOf(items, width).yMax == YMax(max) && IsLargest(items, max)
  {
    var values := Latencies(items);
    var max := Max0(values);
    if max != 0.0 {
      var i :| 0 <= i < |items| && items[i].row.latency == Some(max);
    }
    assert IsLargest(items, max);
  }

  ghost predicate IsLargest(items: seq<Item>, max: real) {
    && max >= 0.0
    && (forall i :: 0 <= i < |items| && items[i].row.latency.Some? ==> items[i].row.latency.value <= max)
    && (max > 0.0 ==> exists i :: 0 <= i < |items| && items[i].row.latency == Some(max))
  }

  ghost predicate IsRowGap(rows: seq<Row>, frequency: Option<real>, width: real, gap: Gap, i: nat) {
    && 1 <= i < |rows| && FarApart(RowAt(rows, i - 1), RowAt(rows, i), frequency)
    && GapBetween(rows, frequency, PointsOf(rows, width), gap, i)
  }

  lemma RowGapIsLong(rows: seq<Row>, frequency: Option<real>, width: real, gap: Gap, i: nat)
    requires IsRowGap(rows, frequency, width, gap, i)
    ensures frequency.Some? && frequency.value > 0.0
    ensures gap.duration as real / 1000.0 > 3.0 * frequency.value
    ensures LEFT <= gap.x <= Right(width)
  {
    PointsInOrder(rows, width, i - 1, i);
    PointsInOrder(rows, width, i, i);
  }

  lemma RowGapOf(rows: seq<Row>, frequency: Option<real>, width: real, gaps: seq<Gap>, k: nat) returns (i: nat)
    requires AreAllGaps(PointsOf(rows, width), Threshold(frequency), gaps) && k < |gaps|
    ensures IsRowGap(rows, frequency, width, gaps[k], i)
  {
    var points := PointsOf(rows, width);
    var at :| AreGaps(points, Threshold(frequency), |points|, gaps, at);
    GapsAreOfRows(rows, frequency, width, gaps, at);
    i := at[k];
    assert i in at;
  }

  /** Every gap of a chart is the time between two neighbouring rows, longer than three checks at the
      monitor's frequency, in seconds, and is drawn inside the plot; without a frequency there are none. */
  lemma GapsAreLong(rows: seq<Row>, frequency: Option<real>, width: real, gaps: seq<Gap>, k: nat)
    requires AreAllGaps(PointsOf(rows, width), Threshold(frequency), gaps) && k < |gaps|
    ensures frequency.Some? && frequency.value > 0.0
    ensures gaps[k].duration as real / 1000.0 > 3.0 * frequency.value
    ensures LEFT <= gaps[k].x <= Right(width)
    ensures exists i :: IsRowGap(rows, frequency, width, gaps[k], i)
  {
    var i := RowGapOf(rows, frequency, width, gaps, k);
    RowGapIsLong(rows, frequency, width, gaps[k], i);
  }

  /** Two neighbouring rows, both measured, are drawn in one segment exactly when their times lie no
      more than three checks apart. */
  lemma CloseNeighboursMeet(rows: seq<Row>, frequency: real, width: real, bounds: seq<Bound>, i: nat)
    requires IsSegmentation(PointsOf(rows, width), Threshold(Some(frequency)), |rows|, bounds) && 1 <= i < |rows|
    requires Measured(RowAt(rows, i - 1)) && Measured(RowAt(rows, i))
    ensures var a, b := RowAt(rows, i - 1).timestamp.value, RowAt(rows, i).timestamp.value;
      Together(bounds, i) <==> frequency <= 0.0 || (b - a) as real / 1000.0 <= 3.0 * frequency
  {
    SegmentsAreOfRows(rows, Some(frequency), width, bounds);
  }
}
