# AGTTwoDimensionalDictionary in Dafny

A model of `AGTTwoDimensionalDictionary`, a spatial associative container
that maps planar locations to objects. It supports four operations: store an
object at a location, look up the object at a location (nil when there is
none), collect every object inside a rectangle (as a set), and remove the
object at a location (nothing happens when there is none).

The model is one module, `TwoDimensionalDictionary`, in
`two_dimensional_dictionary.dfy`:

- `Point` is a location with integer coordinates; `Rect` is an origin with a
  width and a height. A rectangle contains the half-open box
  `[x, x + width) x [y, y + height)`, the containment rule of the host
  geometry library.
- `SpatialMap<V>` is the container. It keeps the two-level layout of the
  design: `cols`, an outer map from an x-coordinate to a column, each column
  an inner map from a y-coordinate to the object. The ghost field `contents`
  is the abstract view, one map from `Point` to object; `Valid()` ties it to
  the layout through `Flatten`.
- `Lookup` and `Within` are the reference meaning of a point lookup and a
  rectangle query on the abstract view. The methods are proved against
  them, and the lemmas about them state what the header promises.
- A rectangle query walks the stored columns. It skips a column whose x is
  outside the rectangle without looking at its rows. For a column inside the
  rectangle, `CollectRows` walks that column's rows.
- Removal navigates to the column and probes the row even when nothing is
  stored there. An emptied column is left in place. `EmptyColumnInvisible`
  shows that such a column never yields an object.

## Model

| member | source | states |
|---|---|---|
| `TwoDimensionalDictionary.SpatialMap.constructor` | twoddict/AGTTwoDimensionalDictionary.h:28-38 | a new dictionary stores nothing, so every point lookup on it gives nil |
| `TwoDimensionalDictionary.SpatialMap.SetObject` | twoddict/AGTTwoDimensionalDictionary.h:30-33 | after storing o at p, the lookup at p gives o (replacing any earlier object); every other location keeps its object; the layout invariant is kept |
| `TwoDimensionalDictionary.SpatialMap.ObjectAt` | twoddict/AGTTwoDimensionalDictionary.h:35-38 | gives the object currently stored at p, and nil (None) exactly when nothing is stored there |
| `TwoDimensionalDictionary.SpatialMap.ObjectsWithinRect` | twoddict/AGTTwoDimensionalDictionary.h:40-43 | the result is exactly the set of objects stored at locations inside the rectangle: an object is in it iff some location inside the rectangle holds it |
| `TwoDimensionalDictionary.SpatialMap.RemoveObjectAt` | twoddict/AGTTwoDimensionalDictionary.h:45-49 | after removal the lookup at p gives nil and every other location keeps its object; removing at an empty location changes nothing |
| `TwoDimensionalDictionary.CollectRows` | twoddict/AGTTwoDimensionalDictionary.h:43 | walking one column yields exactly the objects whose row lies in the rectangle's y-range |
| `TwoDimensionalDictionary.FlattenAt` | twoddict/AGTTwoDimensionalDictionary.h:35-38 | a location is stored exactly when its column exists and holds its row, and its object is the one in that row |
| `TwoDimensionalDictionary.FlattenSet` | twoddict/AGTTwoDimensionalDictionary.h:30-33 | writing a row into a column (creating the column when missing) stores the object at that location and changes no other location |
| `TwoDimensionalDictionary.FlattenRemove` | twoddict/AGTTwoDimensionalDictionary.h:45-49 | deleting a row from a column removes that location and no other |
| `TwoDimensionalDictionary.EmptyColumnInvisible` | twoddict/AGTTwoDimensionalDictionary.h:45-49 | a column left empty by removals stores nothing: the layout means the same with or without it |
| `TwoDimensionalDictionary.WithinIff` | twoddict/AGTTwoDimensionalDictionary.h:40-43 | an object is in the query result iff some location inside the rectangle holds it |
| `TwoDimensionalDictionary.WithinEmpty` | twoddict/AGTTwoDimensionalDictionary.h:40-43 | the query result is empty iff no stored location lies inside the rectangle |
| `TwoDimensionalDictionary.WithinAfterSet` | twoddict/AGTTwoDimensionalDictionary.h:30-43 | storing inside the rectangle adds the new object and drops at most the replaced one; storing outside it leaves the query result unchanged |
| `TwoDimensionalDictionary.WithinAfterRemove` | twoddict/AGTTwoDimensionalDictionary.h:40-49 | removal never adds to a query result; removing inside the rectangle drops at most that location's object; removing outside it or at an empty location leaves the result unchanged |
| `TwoDimensionalDictionary.ScannedBounds` | twoddict/AGTTwoDimensionalDictionary.h:43 | visiting no column finds nothing, and visiting every stored column finds the whole query result |
| `TwoDimensionalDictionary.ScanColumn` | twoddict/AGTTwoDimensionalDictionary.h:43 | visiting one more column adds its in-range rows when the column is inside the rectangle's x-range, and nothing otherwise |
| `TwoDimensionalDictionary.QueryExample` | twoddict/AGTTwoDimensionalDictionary.h:40-43 | with objects at (1,1), (1,5) and (9,9), the rectangle [0,4) x [0,10) yields exactly the first two objects |
| `TwoDimensionalDictionary.RemoveIdempotent` | twoddict/AGTTwoDimensionalDictionary.h:45-47 | removing twice leaves the same contents as removing once, and the location is empty afterwards |

## Left out

- Floating-point coordinates: `CGPoint` and `CGRect` use `CGFloat`. The model uses integer coordinates and exact key equality, so rounding and near-equal keys are not modelled.
- Rectangles with negative width or height: the header does not define them. `ObjectsWithinRect` requires `width >= 0` and `height >= 0`.
- The boundary rule of the rectangle is not fixed by the header. The model uses the half-open rule `[x, x + width) x [y, y + height)`.
- Cost: the header says that removal at an empty location "still does the work of looking it up". `RemoveObjectAt` performs that lookup, but no contract can state cost. Likewise, the claim that a query touches only columns inside the rectangle's x-range is visible only in the body of `ObjectsWithinRect`.
- Foundation machinery: reference counting, object identity beyond `==` on `V`, and the internals of `NSSet`/`NSDictionary`. A stored object cannot be nil; `None` plays the part of nil only as a lookup result.
- Thread safety: the class offers none, and the model is sequential.
- The implementation file of the class is not part of this model; its behaviour is taken from the header's documentation comments.
