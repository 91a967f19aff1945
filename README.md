# Voxel grid and attributed tree, modelled in Dafny

This project models the two data structures at the centre of a voxel and
XML-fragment editor extension. The editor GUI reads and mutates them.

- **`Vox`** (module `Voxes`, with index arithmetic in `Linearization`) is a
  dense 3D grid of palette indices. It is a class with a flat cell array
  `cells`, a size `sx, sy, sz` and a colour palette `palette`. Its invariant
  `Valid()` is `cells.Length == sx * sy * sz`. Cell `(x, y, z)` is stored at
  offset `x + y*X + z*X*Y`, with X varying fastest. The model covers:
  decoding from the flat encoding `[X, Y, Z, cells...]`, which also
  synthesises a palette; resize with an overlap-preserving copy (the source's
  triple loop, proved against the function `Resized`); the bounds-checked
  single-cell write; enumeration of all cells in Z/Y/X order (a function
  built from the same three nested iterations); and palette append,
  overwrite, truncate-and-compact and read. Colours are opaque. Only
  `Clear`, `White` and `Magenta`, which the grid itself uses, are
  distinguished.
- **`XElement` / `XAttribute`** (modules `XElements`, `XAttributes`) form an
  ordered tree of nodes. Each node has ordered children, ordered name/value
  attributes and a parent flag that is set once. `Add` may alias a node or
  create a cycle. Because of this, the traversal reads the heap freely
  (`reads *`). It terminates only because it stops descending at
  `MAX_DEPTH = 10` (`decreases MAX_DEPTH - depth`).
- **`VoxesExtensions`** models the order- and length-preserving maps
  `SelectArray`, `SelectList` and the collection overload of `SelectArray`.
  It also models `ToVox`, which builds a grid from a byte payload.

Behaviour of the code that the model reproduces as written:

- **Decoded palette size.** The decoding constructor builds one palette entry
  per distinct cell value, 0 included (Vox/Vox.cs:33-34). That equals one plus
  the number of distinct non-zero values only when 0 occurs in the cells;
  `DecodedPaletteCount` states the rule in those terms. When 0 does not occur
  and every value is positive, the largest value points past the palette. For example, the editor's
  "Convert to Voxel" payload `[1, 1, 1, 1]` (XMLEditor/Editor/XElementInspector.cs:171)
  decodes to a one-entry palette, so its only cell reads as the missing-colour
  Magenta. `DecodedPaletteExamples` shows this case.
- **Null argument to decoding.** The null branch of the decoding constructor
  assigns the field rather than the argument (Vox/Vox.cs:29). A null
  argument therefore still faults at line 30.
- **Empty payload.** A payload with no cells makes the palette count
  negative and throws (line 34).
- **Decoding preconditions.** Because of the last two points, and because the
  length is never checked against `X*Y*Z`, `Vox.Decode` requires a non-null
  array with more than three entries whose tail length is `a[0]*a[1]*a[2]`.
- **`IsDefault` and `Default`.** `IsDefault` tests for the zero size. The
  `Default` grid is 1×1×1, so `Default` is not `IsDefault`.

## Model

| member | source | states |
|---|---|---|
| `Voxes.VoxelToTuple` | Vox/Vox.cs:163-166 | The tuple holds the voxel's x, y, z and col, in that order. |
| `Voxes.TupleToVoxel` | Vox/Vox.cs:168-171 | The voxel built from a tuple converts back to the same tuple. |
| `Voxes.VoxelTupleRoundTrip` | Vox/Vox.cs:163-171 | Converting a voxel to a tuple and back gives the same voxel. Converting a tuple to a voxel and back gives the same tuple. |
| `Voxes.DecodedPalette` | Vox/Vox.cs:32-35 | The decoded palette has one entry per distinct cell value (at least one). Entry 0 is Clear and every other entry is White. |
| `Voxes.DecodedPaletteCount` | Vox/Vox.cs:33-34 | The decoded palette length is the number of distinct non-zero values, plus one exactly when 0 occurs. |
| `Voxes.DecodedPaletteExamples` | Vox/Vox.cs:32-35 | Cells [0,3] give a 2-entry palette and cells [1] a 1-entry palette. In both cases the stale index reads as Magenta. |
| `Voxes.Vox.Decode` | Vox/Vox.cs:27-36 | The size is (a[0],a[1],a[2]). The cells are a fresh copy of a[3..] in order. The palette is the decoded palette. The invariant holds and the grid is not the default sentinel. |
| `Voxes.Vox.constructor` | Vox/Vox.cs:38-43 | Array, size and palette are stored as given, the array by reference. |
| `Voxes.Vox.Default` | Vox/Vox.cs:19 | The grid is 1×1×1 with the single cell 1 and palette [Clear, White]. It is not IsDefault. |
| `Voxes.Vox.IsDefault` | Vox/Vox.cs:25 | True exactly when the size is (0,0,0). |
| `Voxes.Vox.SetPallete` | Vox/Vox.cs:45 | The palette becomes the given one. Cells and size are untouched, and the invariant is kept. |
| `Voxes.Vox.SetColor` | Vox/Vox.cs:46-49 | Requires an in-range index. Only that palette slot changes, the length is kept, and the invariant is kept. |
| `Voxes.Vox.RemoveLastColor` | Vox/Vox.cs:50-60 | No-op when the palette has at most one entry. Otherwise the last entry is dropped and the prefix kept. Exactly the cells equal to the removed index become 0. All other cells, stale ones included, are unchanged. |
| `Voxes.Vox.GetColor` | Vox/Vox.cs:61-65 | Returns Magenta for an index at or past the palette end, else the palette entry. |
| `Voxes.AppendedColorReadsBack` | Vox/Vox.cs:119-122 | After an append, the new last index reads back the appended colour and earlier indices read as before. |
| `Voxes.Vox.AppendPallete` | Vox/Vox.cs:119-122 | The palette grows by one with the new colour last. The invariant is kept. |
| `Voxes.AppendThenRemove` | Vox/Vox.cs:50-60 | For a non-empty palette, append followed by RemoveLastColor restores the exact prior palette. Cells that held the appended index become 0 and all others are unchanged. From an empty palette the removal returns early, so the palette stays [c] and no cell changes. |
| `Voxes.Vox.SetSize` | Vox/Vox.cs:66-90 | A size with a component ≤ 0 is a no-op. Otherwise the size becomes the new one, the cells become a fresh array equal to `Resized` of the old cells, and the palette is unchanged. The invariant is kept. |
| `Voxes.ResizedAt` | Vox/Vox.cs:70-87 | At its new offset, each cell of the overlap box [0,min X)×[0,min Y)×[0,min Z) equals the old cell at its old offset. Every other new cell is 0. |
| `Voxes.ResizeRoundTrip` | Vox/Vox.cs:66-90 | Resizing A→B→A keeps each cell of A inside the intersection with B and zeroes the rest. |
| `Voxes.Vox.GetVoxels` | Vox/Vox.cs:94-110 | Without skipEmpty, a grid with positive dimensions yields one voxel per cell, the i-th being (i%X, (i/X)%Y, i/(X*Y), cells[i]). A non-positive dimension yields nothing. With skipEmpty, the result is the full enumeration with the col == 0 voxels removed, in order. |
| `Voxes.GetVoxelsOrder` | Vox/Vox.cs:94-110 | The full enumeration has exactly X*Y*Z voxels. The i-th is (i%X, (i/X)%Y, i/(X*Y), cells[i]). A non-positive dimension yields nothing. |
| `Voxes.GetVoxelsSkipEmpty` | Vox/Vox.cs:105 | Enumeration with skipEmpty is the full enumeration with the col == 0 voxels removed and the order of the rest kept. |
| `Voxes.Vox.SetVoxel` | Vox/Vox.cs:112-117 | The call is ignored when col ≥ palette length or a coordinate is outside [0,size); a negative col is accepted. Otherwise exactly cell x + y*X + z*X*Y becomes col. The invariant is kept. |
| `Voxes.SetVoxelVisible` | Vox/Vox.cs:112-117 | After an accepted write, the enumeration yields (x,y,z,col) at the cell's offset and is unchanged everywhere else. |
| `Voxes.Vox.ToInts` | Vox/Vox.cs:124 | Returns the cell array itself, not a copy, together with the size. For a valid grid the array length is the product of the three dimensions. |
| `Voxes.ReencodeRoundTrip` | Vox/Vox.cs:124 | Decoding [X,Y,Z] ++ cells built from ToInts reproduces the size and the cells the grid had. The palette is the synthesised one. |
| `Linearization.LinearCoord` | Vox/Vox.cs:116 | The coordinates decoded from the offset of an in-row, in-layer cell are that cell's coordinates. |
| `Linearization.CoordLinear` | Vox/Vox.cs:104 | Every non-negative offset is the offset of its decoded coordinates, and those lie in the row and layer. |
| `Linearization.LinearBound` | Vox/Vox.cs:84 | A cell inside the X×Y×Z box has an offset in [0, X*Y*Z). |
| `Linearization.CoordBound` | Vox/Vox.cs:96-102 | An offset below X*Y*Z decodes to a layer below Z. |
| `XAttributes.XAttribute.constructor` | XMLEditor/XAttribute.cs:14-18 | Name and value are stored exactly as given. |
| `XAttributes.XAttribute.SetName` | XMLEditor/XAttribute.cs:20 | The name becomes the given one and the value is unchanged. |
| `XAttributes.XAttribute.SetValue` | XMLEditor/XAttribute.cs:21 | The value becomes the given one and the name is unchanged. |
| `XElements.XElement.constructor` | XMLEditor/XElement.cs:15-21 | A new node has a null body, no children, no attributes and no parent. |
| `XElements.XElement.HasChildren` | XMLEditor/XElement.cs:25 | True exactly when the child list is non-empty. |
| `XElements.XElement.GetAttribute` | XMLEditor/XElement.cs:31 | Returns the first attribute's value whatever name is asked for. Returns "" when there are no attributes or that value is null. |
| `XElements.GetterIgnoresName` | XMLEditor/XElement.cs:31 | With attributes a=1 then b=2, the getter asked for b returns 1, while a lookup by name returns 2. |
| `XElements.XElement.GetAttributeByName` | XMLEditor/XElement.cs:31 | The corrected getter returns the value of the first attribute with the requested name. Returns "" when there is none or the value is null. |
| `XElements.FindIndex` | XMLEditor/XElement.cs:34 | Returns -1 exactly when no attribute has the name. Otherwise it returns the position of the first attribute with that name. |
| `XElements.XElement.SetAttribute` | XMLEditor/XElement.cs:32-39 | If an attribute has the name, the attribute list is unchanged and the first such attribute's value becomes v. Otherwise a fresh (name, v) is appended. No name changes. Every other attribute object keeps its value. |
| `XElements.SetTwice` | XMLEditor/XElement.cs:32-39 | Setting "x" twice on a node without attributes leaves one attribute x with the second value. |
| `XElements.XElement.EnumarateIntendated` | XMLEditor/XElement.cs:51 | The first pair is (this, 0) and every depth lies in [0, 10]. |
| `XElements.EnumerateFrom` | XMLEditor/XElement.cs:52-63 | The traversal of a node entered at depth d starts with (node, d). Every later pair is strictly deeper than d and no deeper than MAX_DEPTH. |
| `XElements.EnumerateChildren` | XMLEditor/XElement.cs:56-62 | The children's traversals are empty exactly when there are no children. They start with (first child, d+1) and lie in (d, MAX_DEPTH]. |
| `XElements.PreOrder` | XMLEditor/XElement.cs:52-63 | Pre-order shape: after (n, d) comes (n's first child, d+1) when d < 10 and n has children. Otherwise the next pair is no deeper than d. The last pair visits no children. |
| `XElements.PreOrderChildren` | XMLEditor/XElement.cs:56-62 | The same pre-order shape holds for the concatenated traversals of a child list, across child boundaries. |
| `XElements.ChainTruncated` | XMLEditor/XElement.cs:55 | A single-child chain at least 10 deep (for example 15) yields exactly 11 pairs, (nodes[k], k) for k = 0..10. The node at depth 10 has none of its children visited. |
| `XElements.ChainFrom` | XMLEditor/XElement.cs:52-63 | Entered at depth i on such a chain, the traversal yields exactly (nodes[i+k], i+k) for k = 0..10-i. |
| `XElements.XElement.GetEnumerator` | XMLEditor/XElement.cs:43-49 | Yields exactly the element components of EnumarateIntendated, in the same order. |
| `XElements.Elements` | XMLEditor/XElement.cs:45-47 | Has one node per pair in order, namely that pair's node. |
| `XElements.XElement.Add` | XMLEditor/XElement.cs:65-69 | Sets the added node's parent flag and appends it as the last child. Earlier children are unchanged. No other field of either node changes. |
| `XElements.XElement.Remove` | XMLEditor/XElement.cs:71 | The children become RemoveFirst of the old list. Only the child list changes, so the removed node's parent flag stays set. |
| `XElements.IndexOf` | XMLEditor/XElement.cs:71 | Returns the position of the first reference-equal occurrence. |
| `XElements.RemoveFirstSplits` | XMLEditor/XElement.cs:71 | Removal deletes exactly the first occurrence and keeps the order of the rest. It is a no-op when the node is absent. |
| `XElements.RemoveFirstDeletes` | XMLEditor/XElement.cs:71 | Also, the multiset of children loses exactly one copy of the removed node. |
| `XElements.XElement.RemoveAt` | XMLEditor/XElement.cs:72 | Requires 0 ≤ i < count and deletes exactly position i. Only the child list changes. |
| `VoxesExtensions.SelectArray` | Vox/VoxesExtensions.cs:9-17 | Returns a fresh array of the same length with ret[i] == f(a[i]). |
| `VoxesExtensions.SelectList` | Vox/VoxesExtensions.cs:18-26 | Returns one element per input element, in order, each mapped by f. |
| `VoxesExtensions.SelectArrayFromSeq` | Vox/VoxesExtensions.cs:27-28 | Returns a fresh array holding SelectList's result: the same length, element i mapped by f. |
| `VoxesExtensions.ToVox` | Vox/VoxesExtensions.cs:34-35 | Size and palette are passed through. Each byte is widened to an int, so every cell lies in [0, 255]. |

## Findings

| source | as written | input that shows it | evidently intended | confidence | as-written member | corrected member |
|---|---|---|---|---|---|---|
| XMLEditor/XElement.cs:31 | The indexer getter returns the first attribute's value and ignores the requested name. | attributes a="1" then b="2"; get("b") returns "1" | the value of the first attribute called "b", i.e. "2", matching the setter, which works by name | medium; not executed | `XElements.XElement.GetAttribute` (exhibited by `XElements.GetterIgnoresName`) | `XElements.XElement.GetAttributeByName` |

## Left out

- I/O, GUI and host glue are not modelled. This covers the inspectors, the editor window (input, textures, undo, float geometry), the reflection-based property binding, and the host behaviour whose `Reset` only calls the tree API.
- The colour helpers `MultiplyAlpha`, `SetAlpha` and `MultiplyColor` are float arithmetic and are not modelled. `Color` is opaque.
- The grid is a C# struct whose copies share the cell array, so the shared `Default` array is mutable through every copy. The model uses one class instead. Palettes are values (`seq`), so array sharing of the palette is not modelled either.
- Integer overflow is not modelled: `X*Y*Z` and the offsets are mathematical integers.
- The generators `GetVoxels`, `EnumarateIntendated` and `GetEnumerator` are modelled as finite sequences. Their laziness and restartability are not modelled.
- The `Voxels` property (Vox/Vox.cs:11) is `GetVoxels(false)`.
- The `Voxel` record's `Equals`, `GetHashCode` and `Deconstruct` are not modelled separately; Dafny's structural datatype equality replaces them.
- The implicit `int[]` → `Vox` conversion (Vox/Vox.cs:92) is `Vox.Decode`.
- `Size`, `PaletteLength`, `HasParent`, `Body`, `Children` and `Attributes` are direct field reads. Callers that mutate the `Children` or `Attributes` lists directly are not modelled.
- Null names: attribute names and requested names are non-null strings. Null values and a null body are modelled as `None`. Null grid state is not modelled. This covers a null array passed to the grid constructors. It also covers `SetPallete(null)` (Vox/Vox.cs:45), after which `PaletteLength`, `GetColor`, `SetVoxel`, `RemoveLastColor` and `AppendPallete` fault. It also covers `default(Vox)`, the value `IsDefault` (Vox/Vox.cs:25) detects, whose cell array and palette are both null. The palette is a `seq` and the cell array is non-null, so neither state can be represented.
- `Voxes.Vox.constructor`: requires `array.Length == x*y*z`, which the source leaves to the caller unchecked, because the class invariant needs it.
- `VoxesExtensions.ToVox`: requires the byte count to equal `XLen*YLen*ZLen` for the same reason.
- `Voxes.Vox.GetColor`: requires a non-negative index, because a negative index faults in the source's array access.
- `VoxesExtensions.SelectList`: the source enumerates an arbitrary `IEnumerable`; the model takes a finite sequence.
