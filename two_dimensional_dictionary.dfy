/**
 A spatial associative container: it maps locations on the plane to objects
 and answers two kinds of query, "what is at this location" and "what is
 inside this rectangle".

 Locations are integer grid points. A rectangle is an origin with a
 non-negative width and height and contains the points of the half-open
 box [x, x + width) x [y, y + height), which is the containment rule of
 the host geometry library.

 The storage is two-level, as in the original design: an outer map from an
 x-coordinate to a column, and each column an inner map from a
 y-coordinate to the object stored there. A rectangle query first picks
 the columns whose x lies in the rectangle and only then looks at the rows
 of those columns.
 */
module TwoDimensionalDictionary {

  /** The result of a point lookup: `None` stands for the source's nil. */
  datatype Option<T> = None | Some(value: T)

  /** A location on the integer grid. */
  datatype Point = Point(x: int, y: int)

  /** An axis-aligned rectangle given by its origin (minimum corner) and extents. */
  datatype Rect = Rect(origin: Point, width: int, height: int)

  /** v lies in the half-open interval [lo, lo + extent). */
  predicate InSpan(lo: int, extent: int, v: int)
  {
    lo <= v < lo + extent
  }

  /** The rectangle contains the point (half-open on the maximum edges). */
  predicate Contains(r: Rect, p: Point)
  {
    InSpan(r.origin.x, r.width, p.x) && InSpan(r.origin.y, r.height, p.y)
  }

  // ---------------------------------------------------------------------
  // The abstract view: a single map from locations to objects.
  // ---------------------------------------------------------------------

  /** The object stored at p, or None when nothing is. */
  function Lookup<V>(m: map<Point, V>, p: Point): Option<V>
  {
    if p in m then Some(m[p]) else None
  }

  /** The objects stored at locations inside r, each object once. */
  ghost function Within<V>(m: map<Point, V>, r: Rect): set<V>
  {
    set p | p in m && Contains(r, p) :: m[p]
  }

  /** The objects stored at locations inside r whose column is one of xs. */
  ghost function Scanned<V>(m: map<Point, V>, r: Rect, xs: set<int>): set<V>
  {
    set p | p in m && p.x in xs && Contains(r, p) :: m[p]
  }

  /** The objects of one column whose row lies in [lo, lo + extent). */
  ghost function RowsWithin<V>(col: map<int, V>, lo: int, extent: int): set<V>
  {
    set y | y in col && InSpan(lo, extent, y) :: col[y]
  }

  // ---------------------------------------------------------------------
  // The two-level layout and its meaning.
  // ---------------------------------------------------------------------

  /** The column stored for x, or an empty column when there is none. */
  function Column<V>(cols: map<int, map<int, V>>, x: int): map<int, V>
  {
    if x in cols then cols[x] else map[]
  }

  /** The locations and objects that a two-level layout stores. */
  ghost function Flatten<V>(cols: map<int, map<int, V>>): map<Point, V>
  {
    map x, y | x in cols && y in cols[x] :: Point(x, y) := cols[x][y]
  }

  /** A location is stored exactly when its column exists and holds its row. */
  lemma FlattenAt<V>(cols: map<int, map<int, V>>, p: Point)
    ensures p in Flatten(cols) <==> p.x in cols && p.y in cols[p.x]
    ensures p in Flatten(cols) ==> Flatten(cols)[p] == cols[p.x][p.y]
  {
  }

  /** Storing o at row y of column x (creating the column if needed) stores o at (x, y) and nothing else. */
  lemma FlattenSet<V>(cols: map<int, map<int, V>>, x: int, y: int, o: V)
    ensures Flatten(cols[x := Column(cols, x)[y := o]]) == Flatten(cols)[Point(x, y) := o]
  {
  }

  /** Deleting row y of column x deletes location (x, y) and nothing else. */
  lemma FlattenRemove<V>(cols: map<int, map<int, V>>, x: int, y: int)
    requires x in cols
    ensures Flatten(cols[x := cols[x] - {y}]) == Flatten(cols) - {Point(x, y)}
  {
  }

  /** An emptied column left in place is invisible: the layout stores the same as without it. */
  lemma EmptyColumnInvisible<V>(cols: map<int, map<int, V>>, x: int)
    requires x in cols && cols[x] == map[]
    ensures Flatten(cols) == Flatten(cols - {x})
  {
  }

  // ---------------------------------------------------------------------
  // Properties of the rectangle query on the abstract view.
  // ---------------------------------------------------------------------

  /** An object is in the query result exactly when some location inside r holds it. */
  lemma WithinIff<V>(m: map<Point, V>, r: Rect, v: V)
    ensures v in Within(m, r) <==> exists p :: p in m && Contains(r, p) && m[p] == v
  {
  }

  /** A rectangle holding no stored location yields the empty set, and only such a rectangle does. */
  lemma WithinEmpty<V>(m: map<Point, V>, r: Rect)
    ensures Within(m, r) == {} <==> forall p :: p in m ==> !Contains(r, p)
  {
    if exists p :: p in m && Contains(r, p) {
      var p :| p in m && Contains(r, p);
      assert m[p] in Within(m, r);
    }
  }

  /** How a set changes the query result: an object stored inside r appears, one stored outside changes nothing. */
  lemma WithinAfterSet<V>(m: map<Point, V>, r: Rect, p: Point, o: V)
    ensures Contains(r, p) ==> Within(m[p := o], r) == Within(m - {p}, r) + {o}
    ensures !Contains(r, p) ==> Within(m[p := o], r) == Within(m, r)
  {
  }

  /** How a removal changes the query result: removing inside r drops at most that location's object, outside r changes nothing. */
  lemma WithinAfterRemove<V>(m: map<Point, V>, r: Rect, p: Point)
    ensures Within(m - {p}, r) <= Within(m, r)
    ensures p in m && Contains(r, p) ==> Within(m, r) == Within(m - {p}, r) + {m[p]}
    ensures !(p in m && Contains(r, p)) ==> Within(m - {p}, r) == Within(m, r)
  {
  }

  /** Scanning no column finds nothing; scanning every stored column finds the whole query result. */
  lemma ScannedBounds<V>(cols: map<int, map<int, V>>, r: Rect)
    ensures Scanned(Flatten(cols), r, {}) == {}
    ensures Scanned(Flatten(cols), r, cols.Keys) == Within(Flatten(cols), r)
  {
  }

  /** Scanning one more column x adds the rows of x inside r when x is inside r, and nothing otherwise. */
  lemma ScanColumn<V>(cols: map<int, map<int, V>>, r: Rect, xs: set<int>, x: int)
    requires x in cols
    ensures Scanned(Flatten(cols), r, xs + {x}) ==
      Scanned(Flatten(cols), r, xs) +
      (if InSpan(r.origin.x, r.width, x) then RowsWithin(cols[x], r.origin.y, r.height) else {})
  {
  }

  /** The worked example: a query over [0, 4) x [0, 10) sees the objects at (1,1) and (1,5) but not at (9,9). */
  lemma QueryExample<V>(a: V, b: V, c: V)
    ensures Within(map[Point(1, 1) := a, Point(1, 5) := b, Point(9, 9) := c], Rect(Point(0, 0), 4, 10)) == {a, b}
  {
    var m := map[Point(1, 1) := a, Point(1, 5) := b, Point(9, 9) := c];
    var r := Rect(Point(0, 0), 4, 10);
    assert m[Point(1, 1)] == a && Contains(r, Point(1, 1));
    assert m[Point(1, 5)] == b && Contains(r, Point(1, 5));
    forall v | v in Within(m, r) ensures v in {a, b} {
      var p :| p in m && Contains(r, p) && m[p] == v;
    }
  }

  // ---------------------------------------------------------------------
  // The container.
  // ---------------------------------------------------------------------

  /** Some element of a non-empty set (a witness for picking the next key to visit). */
  lemma Choose<T>(s: set<T>) returns (e: T)
    requires s != {}
    ensures e in s
  {
    e :| e in s;
  }

  /** The objects of column col whose row lies in [lo, lo + extent), gathered by walking the column's rows. */
  method CollectRows<V>(col: map<int, V>, lo: int, extent: int) returns (hits: set<V>)
    ensures hits == RowsWithin(col, lo, extent)
  {
    hits := {};
    var pending := col.Keys;
    while pending != {}
      invariant pending <= col.Keys
      invariant hits == set y | y in col && y !in pending && InSpan(lo, extent, y) :: col[y]
      decreases pending
    {
      ghost var some := Choose(pending);
      var y :| y in pending;
      if InSpan(lo, extent, y) {
        hits := hits + {col[y]};
      }
      pending := pending - {y};
    }
  }

  class SpatialMap<V(==)> {
    /** Outer map from x to a column; each column maps y to the object stored at (x, y). */
    var cols: map<int, map<int, V>>
    /** The abstract view: location to object. */
    ghost var contents: map<Point, V>

    ghost predicate Valid()
      reads this
    {
      contents == Flatten(cols)
    }

    /** A new container stores nothing. */
    constructor ()
      ensures Valid()
      ensures contents == map[]
    {
      cols := map[];
      contents := map[];
    }

    /** Stores o at p, replacing whatever was there; every other location keeps its object. */
    method SetObject(o: V, p: Point)
      requires Valid()
      modifies this
      ensures Valid()
      ensures contents == old(contents)[p := o]
      ensures Lookup(contents, p) == Some(o)
      ensures forall q :: q != p ==> Lookup(contents, q) == Lookup(old(contents), q)
    {
      var col := Column(cols, p.x);
      FlattenSet(cols, p.x, p.y, o);
      cols := cols[p.x := col[p.y := o]];
      contents := contents[p := o];
    }

    /** The object currently at p, or None when there is none. */
    function ObjectAt(p: Point): (r: Option<V>)
      reads this
      requires Valid()
      ensures r == Lookup(contents, p)
      ensures r.Some? <==> p in contents
    {
      FlattenAt(cols, p);
      if p.x in cols && p.y in cols[p.x] then Some(cols[p.x][p.y]) else None
    }

    /** Every object stored at a location inside r, each object once. */
    method ObjectsWithinRect(r: Rect) returns (found: set<V>)
      requires Valid()
      requires r.width >= 0 && r.height >= 0
      ensures found == Within(contents, r)
      ensures forall v :: v in found <==> exists q :: q in contents && Contains(r, q) && contents[q] == v
    {
      ScannedBounds(cols, r);
      found := {};
      var pending := cols.Keys;
      while pending != {}
        invariant pending <= cols.Keys
        invariant found == Scanned(contents, r, cols.Keys - pending)
        decreases pending
      {
        ghost var some := Choose(pending);
        var x :| x in pending;
        ScanColumn(cols, r, cols.Keys - pending, x);
        if r.origin.x <= x < r.origin.x + r.width {
          var hits := CollectRows(cols[x], r.origin.y, r.height);
          found := found + hits;
        }
        assert cols.Keys - (pending - {x}) == (cols.Keys - pending) + {x};
        pending := pending - {x};
      }
      assert cols.Keys - pending == cols.Keys;
      forall v ensures v in found <==> exists q :: q in contents && Contains(r, q) && contents[q] == v {
        WithinIff(contents, r, v);
      }
    }

    /**
     Deletes the object at p, if any; every other location keeps its object.
     The column for p.x and then the row p.y are looked up even when nothing is
     stored there; an emptied column is left in place.
     */
    method RemoveObjectAt(p: Point)
      requires Valid()
      modifies this
      ensures Valid()
      ensures contents == old(contents) - {p}
      ensures Lookup(contents, p) == None
      ensures forall q :: q != p ==> Lookup(contents, q) == Lookup(old(contents), q)
      ensures p !in old(contents) ==> contents == old(contents)
    {
      FlattenAt(cols, p);
      if p.x in cols {
        var col := cols[p.x];
        if p.y in col {
          FlattenRemove(cols, p.x, p.y);
          cols := cols[p.x := col - {p.y}];
        }
      }
      contents := contents - {p};
    }
  }

  /** Removing twice leaves the same contents as removing once. */
  lemma RemoveIdempotent<V>(m: map<Point, V>, p: Point)
    ensures (m - {p}) - {p} == m - {p}
    ensures Lookup(m - {p}, p) == None
  {
  }

  /** Three objects placed on the grid; a query sees only the two inside the rectangle. */
  method QueryScenario<V(==)>(a: V, b: V, c: V)
  {
    var d := new SpatialMap<V>();
    assert d.ObjectAt(Point(4, 4)) == None;
    d.SetObject(a, Point(1, 1));
    d.SetObject(b, Point(1, 5));
    d.SetObject(c, Point(9, 9));
    QueryExample(a, b, c);
    var s := d.ObjectsWithinRect(Rect(Point(0, 0), 4, 10));
    assert s == {a, b};
  }

  /** An object set and then removed is gone from point lookups and queries. */
  method RemoveScenario<V(==)>(a: V)
  {
    var e := new SpatialMap<V>();
    e.SetObject(a, Point(2, 2));
    e.RemoveObjectAt(Point(2, 2));
    assert e.ObjectAt(Point(2, 2)) == None;
    var t := e.ObjectsWithinRect(Rect(Point(0, 0), 10, 10));
    WithinEmpty(e.contents, Rect(Point(0, 0), 10, 10));
    assert t == {};
  }

  /** An object stored twice at one location and once more elsewhere is reported once. */
  method DeduplicationScenario<V(==)>(a: V)
  {
    var f := new SpatialMap<V>();
    f.SetObject(a, Point(3, 3));
    f.SetObject(a, Point(3, 3));
    f.SetObject(a, Point(4, 3));
    var u := f.ObjectsWithinRect(Rect(Point(0, 0), 10, 10));
    assert f.contents[Point(3, 3)] == a;
    assert u == {a};
  }
}
