/** The format registry: byte sizes (SIZES), element types (FORMAT_MAP) and the
    choice of index format from a vertex count. */
module Formats {
  import opened Words

  datatype Format = U8 | U16 | U32 | U8Vec4 | U16Vec2 | Vec2 | Vec3 | Vec4 | Mat3 | Mat4

  /** Element type numpy converts a format's values to. */
  datatype ElementType = SignedInt(width: nat) | Single

  /** Bytes taken by one value of the format. */
  function Size(f: Format): (n: nat)
    ensures n > 0
    ensures f == U8 || f == U16 || f == U32 ==> n == WidthOf(ElementOf(f))
    ensures f == U8Vec4 ==> n == 4 * WidthOf(ElementOf(f))
    ensures f == U16Vec2 ==> n == 2 * WidthOf(ElementOf(f))
    ensures ElementOf(f) == Single ==> n % WidthOf(Single) == 0
  {
    match f
    case U8 => 1
    case U16 => 2
    case U32 => 4
    case U8Vec4 => 4
    case U16Vec2 => 4
    case Vec2 => 8
    case Vec3 => 12
    case Vec4 => 16
    case Mat3 => 36
    case Mat4 => 64
  }

  /** The element type of each format: the integer tags map to SIGNED types. */
  function ElementOf(f: Format): ElementType
  {
    match f
    case U8 => SignedInt(1)
    case U16 => SignedInt(2)
    case U32 => SignedInt(4)
    case U8Vec4 => SignedInt(1)
    case U16Vec2 => SignedInt(2)
    case _ => Single
  }

  function WidthOf(t: ElementType): nat
  {
    match t
    case SignedInt(w) => w
    case Single => 4
  }

  predicate IsIndexFormat(f: Format)
  {
    f == U8 || f == U16 || f == U32
  }

  /** The index format for a mesh of `vertexCount` vertices: the narrowest of U8, U16
      and U32 whose unsigned range holds every vertex index below the count (U32 when
      none does). */
  function GetFormat(vertexCount: nat): (f: Format)
    ensures IsIndexFormat(f)
    ensures vertexCount < Pow256(Size(f)) || f == U32
    ensures forall g :: IsIndexFormat(g) && Size(g) < Size(f) ==> Pow256(Size(g)) <= vertexCount
  {
    assert Pow256(1) == 256;
    assert Pow256(2) == 65536;
    if vertexCount < 256 then U8
    else if vertexCount < 65536 then U16
    else U32
  }

  /** The boundary vertex counts of the index-format choice. */
  lemma GetFormatBoundaries()
    ensures GetFormat(0) == U8 && GetFormat(255) == U8
    ensures GetFormat(256) == U16 && GetFormat(65535) == U16
    ensures GetFormat(65536) == U32
  {
  }

  /** As written, index words are read as signed integers (the U8/U16/U32 tags map to
      int8/int16/int32), so for every vertex count in the upper half of the chosen
      format's range the highest vertex index, `vertexCount - 1`, is not representable,
      and its word is read back as a negative number. */
  lemma {:induction false} SignedIndexTooNarrow(vertexCount: nat)
    requires 128 < vertexCount < 256 || 32768 < vertexCount < 65536
             || 2147483648 < vertexCount <= 4294967296
    ensures var w := Size(GetFormat(vertexCount));
            !FitsSigned(vertexCount - 1, w) &&
            SignedValue(WordBytes(vertexCount - 1, w)) == vertexCount - 1 - Pow256(w) < 0
  {
    var w := Size(GetFormat(vertexCount));
    assert Pow256(1) == 256 && Pow256(2) == 65536 && Pow256(3) == 16777216;
    if vertexCount < 256 {
      assert w == 1 && HalfRange(w) == 128;
    } else if vertexCount < 65536 {
      assert w == 2 && HalfRange(w) == 32768;
    } else {
      assert w == 4 && HalfRange(w) == 2147483648 && Pow256(w) == 4294967296;
    }
    UnsignedRoundTrip(vertexCount - 1, w);
  }

  /** An example of the above: a 200-vertex mesh gets U8 indices, yet index 150 is read
      back as -106. */
  lemma SignedIndexExample()
    ensures GetFormat(200) == U8
    ensures SignedValue(WordBytes(150, Size(U8))) == -106
  {
    SignedIndexTooNarrow(151);
  }

  /** The corrected index reading: it only names `Words.UnsignedValue` as the reading of
      an index word, the unsigned one that the U8/U16/U32 tags name. */
  function UnsignedIndexValue(word: seq<Byte>): (v: nat)
    ensures v < Pow256(|word|)
  {
    UnsignedValue(word)
  }

  /** Read as unsigned, every vertex index below the vertex count survives the index
      word of the chosen format. */
  lemma UnsignedIndexRoundTrip(vertexCount: nat, v: nat)
    requires vertexCount <= Pow256(4)
    requires v < vertexCount
    ensures UnsignedIndexValue(WordBytes(v, Size(GetFormat(vertexCount)))) == v
  {
    UnsignedRoundTrip(v, Size(GetFormat(vertexCount)));
  }
}
