/** The interleaved geometry encoder: per-vertex attribute streams and an index list
    become one byte buffer holding one record per vertex followed by the index words,
    and the patch descriptor records where the indices start. */
module Encoder {
  import opened Words
  import opened Formats
  import opened Layout

  /** One attribute value in its format's byte form (`Size(format)` bytes when well
      formed); the numeric conversion itself is not modelled. */
  type Block = seq<Byte>

  /** The patch input: the vertex positions, the optional streams (empty when absent)
      and the index groups. */
  datatype GeometryPatchInput = GeometryPatchInput(
    vertices: seq<Block>,
    normals: seq<Block>,
    tangents: seq<Block>,
    textures: seq<Block>,
    colors: seq<Block>,
    indices: seq<seq<int>>)

  datatype IndexDesc = IndexDesc(count: nat, offset: nat, format: Format)

  datatype GeometryPatch = GeometryPatch(attributes: seq<Attribute>, vertexCount: nat, index: IndexDesc)

  datatype GeometryBuffer = GeometryBuffer(bytes: seq<Byte>, size: nat)

  function Min(a: nat, b: nat): nat { if a <= b then a else b }

  function PresenceOf(input: GeometryPatchInput): Presence
  {
    Presence(|input.normals| > 0, |input.tangents| > 0, |input.textures| > 0, |input.colors| > 0)
  }

  /** The stream holding a semantic's values. */
  function StreamOf(input: GeometryPatchInput, s: Semantic): seq<Block>
  {
    match s
    case Position => input.vertices
    case Normal => input.normals
    case Tangent => input.tangents
    case Texture => input.textures
    case Color => input.colors
  }

  function Keep(stream: seq<Block>): seq<seq<Block>>
  {
    if |stream| > 0 then [stream] else []
  }

  /** The non-empty streams, in the order vertices, normals, tangents, textures, colors. */
  function PresentStreams(input: GeometryPatchInput): (data: seq<seq<Block>>)
    ensures |data| <= 5
    ensures forall j :: 0 <= j < |data| ==> |data[j]| > 0
  {
    Keep(input.vertices) + Keep(input.normals) + Keep(input.tangents)
    + Keep(input.textures) + Keep(input.colors)
  }

  /** The number of points pointwise zipping yields: the shortest stream's length, or
      none at all without streams. */
  function ZipLength(data: seq<seq<Block>>): (n: nat)
    ensures forall j :: 0 <= j < |data| ==> n <= |data[j]|
  {
    if |data| == 0 then 0
    else if |data| == 1 then |data[0]|
    else Min(|data[0]|, ZipLength(data[1..]))
  }

  /** The zip length is reached: some stream is exactly that long. */
  lemma {:induction false} ZipLengthReached(data: seq<seq<Block>>)
    requires |data| > 0
    ensures exists j :: 0 <= j < |data| && ZipLength(data) == |data[j]|
  {
    if |data| == 1 || |data[0]| <= ZipLength(data[1..]) {
      assert ZipLength(data) == |data[0]|;
    } else {
      ZipLengthReached(data[1..]);
      var j :| 0 <= j < |data[1..]| && ZipLength(data[1..]) == |data[1..][j]|;
      assert ZipLength(data) == |data[j + 1]|;
    }
  }

  /** The bytes of point `k` taken from the first `j` streams. */
  function RecordBytes(data: seq<seq<Block>>, k: nat, j: nat): seq<Byte>
    requires j <= |data| && k < ZipLength(data)
  {
    if j == 0 then [] else RecordBytes(data, k, j - 1) + data[j - 1][k]
  }

  /** The vertex section for the first `n` points, each record holding the values of
      the first `width` streams. */
  function VertexSection(data: seq<seq<Block>>, width: nat, n: nat): seq<Byte>
    requires width <= |data| && n <= ZipLength(data)
  {
    if n == 0 then [] else VertexSection(data, width, n - 1) + RecordBytes(data, n - 1, width)
  }

  /** The vertex section the encoder writes for an input under an attribute list. */
  function VertexBytes(input: GeometryPatchInput, attrs: seq<Attribute>): seq<Byte>
  {
    var data := PresentStreams(input);
    VertexSection(data, Min(|data|, |attrs|), ZipLength(data))
  }

  /** The index values in row-major order. */
  function Flatten(groups: seq<seq<int>>): seq<int>
  {
    if |groups| == 0 then [] else Flatten(groups[..|groups| - 1]) + groups[|groups| - 1]
  }

  /** The little-endian w-byte words of the values, back to back. */
  function WordsBytes(values: seq<int>, w: nat): (bs: seq<Byte>)
    ensures |bs| == |values| * w
  {
    if |values| == 0 then []
    else WordsBytes(values[..|values| - 1], w) + WordBytes(values[|values| - 1], w)
  }

  function IndexBytes(indices: seq<seq<int>>, f: Format): seq<Byte>
  {
    WordsBytes(Flatten(indices), Size(f))
  }

  /** The whole buffer: the vertex section followed by the index words. */
  function EncodedBytes(input: GeometryPatchInput, indexFormat: Format, attrs: seq<Attribute>): seq<Byte>
  {
    VertexBytes(input, attrs) + IndexBytes(input.indices, indexFormat)
  }

  /** All index groups have the same length (numpy refuses ragged index lists). */
  predicate Rectangular(indices: seq<seq<int>>)
  {
    forall i :: 0 <= i < |indices| ==> |indices[i]| == |indices[0]|
  }

  /** Every index value fits an unsigned word of the index format (the element type the
      tags name; see `Formats.UnsignedIndexValue`). */
  predicate IndicesFit(indices: seq<seq<int>>, f: Format)
  {
    forall i, j :: 0 <= i < |indices| && 0 <= j < |indices[i]| ==> 0 <= indices[i][j] < Pow256(Size(f))
  }

  /** Appending a value to the section and its open record extends the open record. */
  lemma AppendValue(section: seq<Byte>, record: seq<Byte>, value: Block)
    ensures section + record + value == section + (record + value)
  {
  }

  /** Encodes the vertex records, one per zipped point with each value of the point in
      stream order, then records the section's length as the index offset and appends
      the index words. */
  method BuildGeometryBuffer(input: GeometryPatchInput, indexFormat: Format, attrs: seq<Attribute>)
    returns (bytes: seq<Byte>, indexOffset: nat)
    requires IsIndexFormat(indexFormat)
    requires Rectangular(input.indices) && IndicesFit(input.indices, indexFormat)
    ensures bytes == EncodedBytes(input, indexFormat, attrs)
    ensures indexOffset == |VertexBytes(input, attrs)|
  {
    var data := PresentStreams(input);
    bytes := PackRecords(data, Min(|data|, |attrs|));
    indexOffset := |bytes|;
    bytes := bytes + IndexBytes(input.indices, indexFormat);
  }

  /** The record loop of the encoder: for each zipped point, the values of the first
      `width` streams back to back. */
  method PackRecords(data: seq<seq<Block>>, width: nat) returns (bytes: seq<Byte>)
    requires width <= |data|
    ensures bytes == VertexSection(data, width, ZipLength(data))
  {
    var points := ZipLength(data);
    bytes := [];
    var k := 0;
    while k < points
      invariant 0 <= k <= points
      invariant bytes == VertexSection(data, width, k)
    {
      var j := 0;
      while j < width
        invariant 0 <= j <= width
        invariant bytes == VertexSection(data, width, k) + RecordBytes(data, k, j)
      {
        AppendValue(VertexSection(data, width, k), RecordBytes(data, k, j), data[j][k]);
        bytes := bytes + data[j][k];
        j := j + 1;
      }
      k := k + 1;
    }
  }

  /** Builds the patch descriptor: the vertex count, the attribute layout, and the index
      descriptor whose count is the number of index values, whose format is chosen from
      the vertex count and whose offset is where the index words start. */
  method BuildGeometryPatch(input: GeometryPatchInput) returns (patch: GeometryPatch, buffer: GeometryBuffer)
    requires |input.indices| > 0
    requires Rectangular(input.indices)
    requires IndicesFit(input.indices, GetFormat(|input.vertices|))
    ensures patch.vertexCount == |input.vertices|
    ensures patch.index.format == GetFormat(|input.vertices|)
    ensures patch.index.count == |Flatten(input.indices)|
    ensures Describes(patch.attributes, PlannedSemantics(PresenceOf(input))) && Packed(patch.attributes)
    ensures buffer.size == |buffer.bytes|
    ensures buffer.bytes == EncodedBytes(input, patch.index.format, patch.attributes)
    ensures patch.index.offset == |VertexBytes(input, patch.attributes)|
    ensures |buffer.bytes| == patch.index.offset + patch.index.count * Size(patch.index.format)
    ensures WellShaped(input) ==> patch.index.offset == |input.vertices| * RecordSize(patch.attributes)
  {
    var vertexCount := |input.vertices|;
    var indexCount := |input.indices| * |input.indices[0]|;
    var indexFormat := GetFormat(vertexCount);
    var attributes := SetUpAttributes(PresenceOf(input));
    var bytes, indexOffset := BuildGeometryBuffer(input, indexFormat, attributes);
    FlattenLength(input.indices, |input.indices[0]|);
    buffer := GeometryBuffer(bytes, |bytes|);
    patch := GeometryPatch(attributes, vertexCount, IndexDesc(indexCount, indexOffset, indexFormat));
    if WellShaped(input) {
      VertexBytesLength(input, attributes);
    }
  }

  /** A list of `g`-element groups flattens to `g` values per group. */
  lemma {:induction false} FlattenLength(groups: seq<seq<int>>, g: nat)
    requires forall i :: 0 <= i < |groups| ==> |groups[i]| == g
    ensures |Flatten(groups)| == |groups| * g
  {
    if |groups| > 0 {
      FlattenLength(groups[..|groups| - 1], g);
    }
  }

  /** Every present optional stream has one value per vertex, and every value has its
      semantic's format size. */
  predicate WellShaped(input: GeometryPatchInput)
  {
    (forall s :: IsPresent(PresenceOf(input), s) ==> |StreamOf(input, s)| == |input.vertices|) &&
    (forall s, k :: 0 <= k < |StreamOf(input, s)| ==> |StreamOf(input, s)[k]| == Size(SemanticFormat(s)))
  }

  /** With vertices present, the zipped streams are exactly the streams of the planned
      semantics, in layout order. */
  lemma StreamsFollowLayout(input: GeometryPatchInput)
    requires |input.vertices| > 0
    ensures var sems := PlannedSemantics(PresenceOf(input));
            var data := PresentStreams(input);
            |data| == |sems| && forall j :: 0 <= j < |data| ==> data[j] == StreamOf(input, sems[j])
  {
  }

  /** A record of the first `j` streams takes the formats' total size. */
  lemma {:induction false} RecordBytesLength(data: seq<seq<Block>>, attrs: seq<Attribute>, k: nat, j: nat)
    requires j <= |data| == |attrs| && k < ZipLength(data)
    requires forall i :: 0 <= i < |data| ==> |data[i][k]| == Size(attrs[i].format)
    ensures |RecordBytes(data, k, j)| == PrefixSize(attrs, j)
  {
    if j > 0 {
      RecordBytesLength(data, attrs, k, j - 1);
    }
  }

  /** A vertex section of `n` well-sized records is `n` strides long. */
  lemma {:induction false} VertexSectionLength(data: seq<seq<Block>>, attrs: seq<Attribute>, n: nat)
    requires |data| == |attrs| && n <= ZipLength(data)
    requires forall i, k :: 0 <= i < |data| && 0 <= k < n ==> |data[i][k]| == Size(attrs[i].format)
    ensures |VertexSection(data, |attrs|, n)| == n * RecordSize(attrs)
  {
    if n > 0 {
      VertexSectionLength(data, attrs, n - 1);
      RecordBytesLength(data, attrs, n - 1, |attrs|);
      var r := RecordSize(attrs);
      assert (n - 1) * r + r == n * r;
    }
  }

  /** For a well-shaped input under its planned layout, the vertex section (and so the
      index offset) is the vertex count times the stride. */
  lemma VertexBytesLength(input: GeometryPatchInput, attrs: seq<Attribute>)
    requires WellShaped(input)
    requires Describes(attrs, PlannedSemantics(PresenceOf(input)))
    ensures |VertexBytes(input, attrs)| == |input.vertices| * RecordSize(attrs)
  {
    var data := PresentStreams(input);
    if |input.vertices| == 0 {
      NoVerticesNoStreams(input);
    } else {
      StreamsWellSized(input, attrs);
      VertexSectionLength(data, attrs, ZipLength(data));
    }
  }

  lemma NoVerticesNoStreams(input: GeometryPatchInput)
    requires WellShaped(input) && |input.vertices| == 0
    ensures PresentStreams(input) == []
  {
    assert |StreamOf(input, Normal)| == 0 && |StreamOf(input, Tangent)| == 0;
    assert |StreamOf(input, Texture)| == 0 && |StreamOf(input, Color)| == 0;
  }

  /** The zipped streams of a well-shaped input all have one value per vertex, each of
      the size of its attribute's format. */
  lemma StreamsWellSized(input: GeometryPatchInput, attrs: seq<Attribute>)
    requires WellShaped(input) && |input.vertices| > 0
    requires Describes(attrs, PlannedSemantics(PresenceOf(input)))
    ensures var data := PresentStreams(input);
            |data| == |attrs| && ZipLength(data) == |input.vertices| &&
            forall i, k :: 0 <= i < |data| && 0 <= k < |data[i]| ==> |data[i][k]| == Size(attrs[i].format)
  {
    var data := PresentStreams(input);
    var sems := PlannedSemantics(PresenceOf(input));
    StreamsFollowLayout(input);
    forall i | 0 <= i < |data| ensures |data[i]| == |input.vertices| {
      assert IsPresent(PresenceOf(input), sems[i]);
    }
    ZipLengthReached(data);
  }

  /** Three positions and one triangle with U8 indices: a 39-byte buffer whose index
      words start at byte 36. */
  lemma TriangleExample(attrs: seq<Attribute>)
    requires Describes(attrs, [Position]) && Packed(attrs)
    ensures var zero := seq(12, _ => 0);
            var input := GeometryPatchInput([zero, zero, zero], [], [], [], [], [[0, 1, 2]]);
            GetFormat(3) == U8 &&
            |VertexBytes(input, attrs)| == 36 &&
            |EncodedBytes(input, U8, attrs)| == 39
  {
    var zero: Block := seq(12, _ => 0);
    var input := GeometryPatchInput([zero, zero, zero], [], [], [], [], [[0, 1, 2]]);
    assert PlannedSemantics(PresenceOf(input)) == [Position];
    assert RecordSize(attrs) == 12;
    VertexBytesLength(input, attrs);
    FlattenLength(input.indices, 3);
  }
}
