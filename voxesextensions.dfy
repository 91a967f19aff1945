/** Order- and length-preserving maps over arrays and sequences, and the
    construction of a grid from a byte payload (Vox/VoxesExtensions.cs). */
module VoxesExtensions {
  import opened Voxes

  newtype byte = b: int | 0 <= b < 256

  /** Maps every element of an array, in order, into a new array. */
  method SelectArray<T(0), U>(source: array<U>, select: U -> T) returns (ret: array<T>)
    ensures fresh(ret)
    ensures ret.Length == source.Length
    ensures forall i :: 0 <= i < ret.Length ==> ret[i] == select(source[i])
  {
    ret := new T[source.Length];
    for i := 0 to source.Length
      invariant forall k :: 0 <= k < i ==> ret[k] == select(source[k])
    {
      ret[i] := select(source[i]);
    }
  }

  /** Maps every element of a collection, in order, into a list. */
  method SelectList<T, U>(collection: seq<U>, select: U -> T) returns (list: seq<T>)
    ensures |list| == |collection|
    ensures forall i :: 0 <= i < |list| ==> list[i] == select(collection[i])
  {
    list := [];
    for i := 0 to |collection|
      invariant |list| == i
      invariant forall k :: 0 <= k < i ==> list[k] == select(collection[k])
    {
      list := list + [select(collection[i])];
    }
  }

  /** The collection overload of SelectArray: SelectList, then copied into an array. */
  method SelectArrayFromSeq<T, U>(collection: seq<U>, select: U -> T) returns (ret: array<T>)
    ensures fresh(ret)
    ensures ret.Length == |collection|
    ensures forall i :: 0 <= i < ret.Length ==> ret[i] == select(collection[i])
  {
    var list := SelectList(collection, select);
    ret := new T[|list|](i requires 0 <= i < |list| => list[i]);
  }

  /** Builds a grid from a byte payload, a palette and a size: the bytes are
      widened to palette indices, the palette and size are passed through. */
  method ToVox(result: array<byte>, pallete: seq<Color>, XLen: int, YLen: int, ZLen: int) returns (v: Vox)
    requires result.Length == XLen * YLen * ZLen
    ensures v.Valid()
    ensures v.sx == XLen && v.sy == YLen && v.sz == ZLen && v.palette == pallete
    ensures v.cells.Length == result.Length
    ensures forall i :: 0 <= i < v.cells.Length ==> v.cells[i] == result[i] as int && 0 <= v.cells[i] <= 255
  {
    var cells := SelectArray(result, (b: byte) => b as int);
    v := new Vox(cells, XLen, YLen, ZLen, pallete);
  }
}
