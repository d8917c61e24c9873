/** Exporting a patch the encoder built gives back the input: the positions, the other
    present streams keyed by semantic, and the triangle index list. */
module RoundTrip {
  import opened Words
  import opened Formats
  import opened Layout
  import opened Encoder
  import opened Decoder

  /** The values of point `k` from the first `j` streams, tagged with the attributes'
      semantics. */
  function PointChunks(data: seq<seq<Block>>, attrs: seq<Attribute>, k: nat, j: nat): (cs: seq<Chunk>)
    requires j <= |data| && j <= |attrs| && k < ZipLength(data)
    ensures |cs| == j
  {
    if j == 0 then []
    else PointChunks(data, attrs, k, j - 1) + [Chunk(attrs[j - 1].semantic, data[j - 1][k])]
  }

  /** The values of the first `n` points, point after point, in attribute order. */
  function Interleave(data: seq<seq<Block>>, attrs: seq<Attribute>, n: nat): seq<Chunk>
    requires |data| == |attrs| && n <= ZipLength(data)
  {
    if n == 0 then [] else Interleave(data, attrs, n - 1) + PointChunks(data, attrs, n - 1, |attrs|)
  }

  /** Stream `i` of the data holds, at every point below `n`, a value of attribute `i`'s
      format size. */
  predicate WellSized(data: seq<seq<Block>>, attrs: seq<Attribute>, n: nat)
  {
    |data| == |attrs| && n <= ZipLength(data) &&
    forall i, k :: 0 <= i < |data| && 0 <= k < n ==> |data[i][k]| == Size(attrs[i].format)
  }

  /** No two attributes share a semantic. */
  predicate DistinctSemantics(attrs: seq<Attribute>)
  {
    forall i, j :: 0 <= i < |attrs| && 0 <= j < |attrs| && i != j ==> attrs[i].semantic != attrs[j].semantic
  }

  /** A prefix that is two parts back to back holds each part in place. */
  lemma PrefixParts(rec: seq<Byte>, front: seq<Byte>, back: seq<Byte>)
    requires |front| + |back| <= |rec| && rec[..|front| + |back|] == front + back
    ensures rec[..|front|] == front
    ensures rec[|front|..|front| + |back|] == back
  {
    var whole := rec[..|front| + |back|];
    assert rec[..|front|] == whole[..|front|];
    assert rec[|front|..|front| + |back|] == whole[|front|..];
  }

  /** Cutting a record built from point `k` gives back the point's values. */
  lemma {:induction false} RecordChunksOfPoint(data: seq<seq<Block>>, attrs: seq<Attribute>, k: nat, j: nat, rec: seq<Byte>)
    requires |data| == |attrs| && j <= |attrs| && k < ZipLength(data)
    requires forall i :: 0 <= i < |data| ==> |data[i][k]| == Size(attrs[i].format)
    requires PrefixSize(attrs, j) <= |rec| && rec[..PrefixSize(attrs, j)] == RecordBytes(data, k, j)
    ensures RecordChunks(rec, attrs, j) == PointChunks(data, attrs, k, j)
  {
    if j > 0 {
      RecordBytesLength(data, attrs, k, j - 1);
      PrefixParts(rec, RecordBytes(data, k, j - 1), data[j - 1][k]);
      RecordChunksOfPoint(data, attrs, k, j - 1, rec);
    }
  }

  /** Two byte runs back to back split into the same runs. */
  lemma AppendParts(front: seq<Byte>, back: seq<Byte>)
    ensures (front + back)[..|front|] == front
    ensures (front + back)[|front|..] == back
  {
  }

  /** Cutting a vertex section the encoder wrote into records gives back the points'
      values in order. */
  lemma {:induction false} SectionOfEncoded(data: seq<seq<Block>>, attrs: seq<Attribute>, n: nat)
    requires |attrs| > 0 && WellSized(data, attrs, n)
    ensures SectionChunks(VertexSection(data, |attrs|, n), attrs) == Interleave(data, attrs, n)
  {
    RecordSizePositive(attrs);
    if n > 0 {
      var section := VertexSection(data, |attrs|, n);
      var last := RecordBytes(data, n - 1, |attrs|);
      RecordBytesLength(data, attrs, n - 1, |attrs|);
      AppendParts(VertexSection(data, |attrs|, n - 1), last);
      SectionOfEncoded(data, attrs, n - 1);
      WholePrefix(last);
      RecordChunksOfPoint(data, attrs, n - 1, |attrs|, last);
    } else {
      assert VertexSection(data, |attrs|, 0) == [];
    }
  }

  lemma {:induction false} FilterAppend(a: seq<Chunk>, b: seq<Chunk>, s: Semantic)
    ensures Filter(a + b, s) == Filter(a, s) + Filter(b, s)
  {
    if |b| > 0 {
      FilterAppend(a, b[..|b| - 1], s);
      assert (a + b)[..|a + b| - 1] == a + b[..|b| - 1];
    } else {
      assert a + b == a;
    }
  }

  /** A semantic no chunk has selects nothing. */
  lemma {:induction false} FilterNone(cs: seq<Chunk>, s: Semantic)
    requires forall i :: 0 <= i < |cs| ==> cs[i].semantic != s
    ensures Filter(cs, s) == []
  {
    if |cs| > 0 {
      FilterNone(cs[..|cs| - 1], s);
    }
  }

  /** A semantic exactly one chunk has selects exactly that chunk's bytes. */
  lemma {:induction false} FilterUnique(cs: seq<Chunk>, t: nat)
    requires t < |cs|
    requires forall i :: 0 <= i < |cs| && i != t ==> cs[i].semantic != cs[t].semantic
    ensures Filter(cs, cs[t].semantic) == [cs[t].bytes]
  {
    var m := |cs| - 1;
    if t == m {
      FilterNone(cs[..m], cs[t].semantic);
    } else {
      FilterUnique(cs[..m], t);
    }
  }

  lemma PrefixSnoc(values: seq<Block>, n: nat)
    requires 0 < n <= |values|
    ensures values[..n] == values[..n - 1] + [values[n - 1]]
  {
  }

  /** Chunk `i` of a point holds stream `i`'s value under attribute `i`'s semantic. */
  lemma {:induction false} PointChunksElements(data: seq<seq<Block>>, attrs: seq<Attribute>, k: nat, j: nat)
    requires j <= |data| && j <= |attrs| && k < ZipLength(data)
    ensures forall i :: 0 <= i < j ==> PointChunks(data, attrs, k, j)[i] == Chunk(attrs[i].semantic, data[i][k])
  {
    if j > 0 {
      PointChunksElements(data, attrs, k, j - 1);
      var cs := PointChunks(data, attrs, k, j);
      var prev := PointChunks(data, attrs, k, j - 1);
      forall i | 0 <= i < j ensures cs[i] == Chunk(attrs[i].semantic, data[i][k]) {
        if i < j - 1 {
          assert cs[i] == prev[i];
        }
      }
    }
  }

  /** With distinct semantics, attribute `t`'s semantic picks exactly stream `t`'s value
      out of one point. */
  lemma FilterPointAt(data: seq<seq<Block>>, attrs: seq<Attribute>, k: nat, t: nat)
    requires |data| == |attrs| && k < ZipLength(data)
    requires t < |attrs| && DistinctSemantics(attrs)
    ensures Filter(PointChunks(data, attrs, k, |attrs|), attrs[t].semantic) == [data[t][k]]
  {
    PointChunksElements(data, attrs, k, |attrs|);
    FilterUnique(PointChunks(data, attrs, k, |attrs|), t);
  }

  /** A point that adds one value for a semantic appends it to the selection. */
  lemma InterleaveSnocOne(data: seq<seq<Block>>, attrs: seq<Attribute>, k: nat, s: Semantic, v: Block)
    requires |data| == |attrs| && k < ZipLength(data)
    requires Filter(PointChunks(data, attrs, k, |attrs|), s) == [v]
    ensures Filter(Interleave(data, attrs, k + 1), s) == Filter(Interleave(data, attrs, k), s) + [v]
  {
    FilterAppend(Interleave(data, attrs, k), PointChunks(data, attrs, k, |attrs|), s);
  }

  /** Point `k` adds attribute `t`'s value of that point to what attribute `t`'s
      semantic picks. */
  lemma InterleaveStep(data: seq<seq<Block>>, attrs: seq<Attribute>, k: nat, t: nat)
    requires |data| == |attrs| && k < ZipLength(data)
    requires t < |attrs| && DistinctSemantics(attrs)
    ensures Filter(Interleave(data, attrs, k + 1), attrs[t].semantic)
            == Filter(Interleave(data, attrs, k), attrs[t].semantic) + [data[t][k]]
  {
    FilterPointAt(data, attrs, k, t);
    InterleaveSnocOne(data, attrs, k, attrs[t].semantic, data[t][k]);
  }

  /** Attribute `t`'s semantic picks stream `t` out of the interleaved values. */
  lemma {:induction false} FilterInterleaveAt(data: seq<seq<Block>>, attrs: seq<Attribute>, n: nat, t: nat)
    requires |data| == |attrs| && n <= ZipLength(data)
    requires t < |attrs| && DistinctSemantics(attrs)
    ensures Filter(Interleave(data, attrs, n), attrs[t].semantic) == data[t][..n]
  {
    if n > 0 {
      FilterInterleaveAt(data, attrs, n - 1, t);
      InterleaveStep(data, attrs, n - 1, t);
      PrefixSnoc(data[t], n);
    }
  }

  /** Two runs that select nothing select nothing together. */
  lemma FilterAppendNone(a: seq<Chunk>, b: seq<Chunk>, s: Semantic)
    requires Filter(a, s) == [] && Filter(b, s) == []
    ensures Filter(a + b, s) == []
  {
    FilterAppend(a, b, s);
  }

  /** Selecting from one more chunk adds its value when it has the semantic. */
  lemma FilterSnoc(cs: seq<Chunk>, c: Chunk, s: Semantic)
    ensures Filter(cs + [c], s) == Filter(cs, s) + (if c.semantic == s then [c.bytes] else [])
  {
    assert (cs + [c])[..|cs|] == cs;
  }

  /** A semantic no attribute has picks nothing from one point's values. */
  lemma {:induction false} FilterPointAbsent(data: seq<seq<Block>>, attrs: seq<Attribute>, k: nat, j: nat, s: Semantic)
    requires j <= |data| == |attrs| && k < ZipLength(data)
    requires forall i :: 0 <= i < |attrs| ==> attrs[i].semantic != s
    ensures Filter(PointChunks(data, attrs, k, j), s) == []
  {
    if j > 0 {
      FilterPointAbsent(data, attrs, k, j - 1, s);
      FilterSnoc(PointChunks(data, attrs, k, j - 1), Chunk(attrs[j - 1].semantic, data[j - 1][k]), s);
    }
  }

  /** A point that adds nothing for a semantic leaves its selection unchanged. */
  lemma InterleaveSnocNone(data: seq<seq<Block>>, attrs: seq<Attribute>, k: nat, s: Semantic)
    requires |data| == |attrs| && k < ZipLength(data)
    requires Filter(Interleave(data, attrs, k), s) == []
    requires Filter(PointChunks(data, attrs, k, |attrs|), s) == []
    ensures Filter(Interleave(data, attrs, k + 1), s) == []
  {
    FilterAppendNone(Interleave(data, attrs, k), PointChunks(data, attrs, k, |attrs|), s);
  }

  /** Point `k` adds nothing for a semantic no attribute has. */
  lemma InterleaveStepAbsent(data: seq<seq<Block>>, attrs: seq<Attribute>, k: nat, s: Semantic)
    requires |data| == |attrs| && k < ZipLength(data)
    requires forall i :: 0 <= i < |attrs| ==> attrs[i].semantic != s
    requires Filter(Interleave(data, attrs, k), s) == []
    ensures Filter(Interleave(data, attrs, k + 1), s) == []
  {
    FilterPointAbsent(data, attrs, k, |attrs|, s);
    InterleaveSnocNone(data, attrs, k, s);
  }

  /** A semantic no attribute has picks nothing from the interleaved values. */
  lemma {:induction false} FilterInterleaveAbsent(data: seq<seq<Block>>, attrs: seq<Attribute>, n: nat, s: Semantic)
    requires |data| == |attrs| && n <= ZipLength(data)
    requires forall i :: 0 <= i < |attrs| ==> attrs[i].semantic != s
    ensures Filter(Interleave(data, attrs, n), s) == []
  {
    if n > 0 {
      FilterInterleaveAbsent(data, attrs, n - 1, s);
      InterleaveStepAbsent(data, attrs, n - 1, s);
    }
  }

  /** Reading words from a longer buffer reads the same words. */
  lemma {:induction false} ReadWordsPrefix(a: seq<Byte>, b: seq<Byte>, w: nat, count: nat)
    requires w > 0 && count * w <= |a|
    ensures ReadWords(a + b, w, count) == ReadWords(a, w, count)
  {
    if count > 0 {
      assert (count - 1) * w + w == count * w;
      ReadWordsPrefix(a, b, w, count - 1);
      assert (a + b)[(count - 1) * w..count * w] == a[(count - 1) * w..count * w];
    }
  }

  /** The last value's word closes the buffer of words. */
  lemma WordsBytesLast(values: seq<int>, w: nat)
    requires |values| > 0
    ensures (|values| - 1) * w + w == |values| * w
    ensures WordsBytes(values, w) == WordsBytes(values[..|values| - 1], w) + WordBytes(values[|values| - 1], w)
    ensures WordsBytes(values, w)[(|values| - 1) * w..|values| * w] == WordBytes(values[|values| - 1], w)
  {
  }

  /** Reading back the words of values in the unsigned range gives the values. */
  lemma {:induction false} ReadWordsRoundTrip(values: seq<int>, w: nat)
    requires w > 0
    requires forall i :: 0 <= i < |values| ==> 0 <= values[i] < Pow256(w)
    ensures ReadWords(WordsBytes(values, w), w, |values|) == values
  {
    if |values| > 0 {
      var n := |values|;
      var init, last := values[..n - 1], values[n - 1];
      WordsBytesLast(values, w);
      ReadWordsPrefix(WordsBytes(init, w), WordBytes(last, w), w, n - 1);
      ReadWordsRoundTrip(init, w);
      UnsignedRoundTrip(last, w);
    }
  }

  /** Flattening triangles puts value `k` of group `i` at position 3i + k. */
  lemma {:induction false} FlattenTriangles(groups: seq<seq<int>>)
    requires forall i :: 0 <= i < |groups| ==> |groups[i]| == 3
    ensures |Flatten(groups)| == 3 * |groups|
    ensures forall i, k :: 0 <= i < |groups| && 0 <= k < 3 ==> Flatten(groups)[3 * i + k] == groups[i][k]
  {
    if |groups| > 0 {
      FlattenTriangles(groups[..|groups| - 1]);
    }
  }

  /** Grouping the flattened triangles in threes gives the triangles back. */
  lemma TriplesOfFlatten(groups: seq<seq<int>>)
    requires forall i :: 0 <= i < |groups| ==> |groups[i]| == 3
    ensures Triples(Flatten(groups)) == groups
  {
    FlattenTriangles(groups);
    var flat := Flatten(groups);
    forall i | 0 <= i < |groups|
      ensures Triples(flat)[i] == groups[i]
    {
      forall k | 0 <= k < 3
        ensures Triples(flat)[i][k] == groups[i][k]
      {
        assert Triples(flat)[i] == flat[3 * i..3 * i + 3];
      }
    }
  }

  lemma {:induction false} FlattenFits(groups: seq<seq<int>>, f: Format)
    requires IndicesFit(groups, f)
    ensures forall i :: 0 <= i < |Flatten(groups)| ==> 0 <= Flatten(groups)[i] < Pow256(Size(f))
  {
    if |groups| > 0 {
      FlattenFits(groups[..|groups| - 1], f);
    }
  }

  /** A triangle mesh input the round trip applies to: vertices present (at most 2^32),
      every present stream one well-sized value per vertex, and triangles whose corners
      are indices of existing vertices. */
  predicate TriangleInput(input: GeometryPatchInput)
  {
    0 < |input.vertices| <= Pow256(4) && WellShaped(input) &&
    (forall i :: 0 <= i < |input.indices| ==> |input.indices[i]| == 3) &&
    (forall i, j :: 0 <= i < |input.indices| && 0 <= j < |input.indices[i]| ==>
       0 <= input.indices[i][j] < |input.vertices|)
  }

  /** The index format chosen from the vertex count holds every vertex index. */
  lemma TrianglesFit(input: GeometryPatchInput)
    requires TriangleInput(input)
    ensures IndicesFit(input.indices, GetFormat(|input.vertices|))
  {
  }

  /** The per-semantic lists the exporter should produce: every present stream other
      than the positions. */
  function ExpectedPointData(input: GeometryPatchInput): map<Semantic, seq<Block>>
  {
    map s | s in PlannedSemantics(PresenceOf(input)) && s != Position :: StreamOf(input, s)
  }

  /** The patch as stored after encoding: the buffer, the index descriptor and the
      attribute list. */
  function Stored(input: GeometryPatchInput, attrs: seq<Attribute>): StoredPatch
  {
    var f := GetFormat(|input.vertices|);
    StoredPatch(EncodedBytes(input, f, attrs),
                IndexDesc(|Flatten(input.indices)|, |VertexBytes(input, attrs)|, f),
                attrs)
  }

  lemma MultipleMod(n: nat, size: nat)
    requires size > 0
    ensures (n * size) % size == 0
  {
    var q, r := (n * size) / size, (n * size) % size;
    assert (n - q) * size == r;
    NoSmallMultiple(n - q, size);
  }

  /** The only multiple of `size` in [0, size) is 0. */
  lemma NoSmallMultiple(d: int, size: nat)
    requires size > 0 && 0 <= d * size < size
    ensures d == 0
  {
  }

  /** The stored patch of a triangle input can be read. */
  lemma StoredReadable(input: GeometryPatchInput, attrs: seq<Attribute>)
    requires TriangleInput(input)
    requires Describes(attrs, PlannedSemantics(PresenceOf(input)))
    ensures Readable(Stored(input, attrs))
  {
    var p := Stored(input, attrs);
    VertexBytesLength(input, attrs);
    RecordSizePositive(attrs);
    MultipleMod(|input.vertices|, RecordSize(attrs));
    assert |p.bytes| == p.index.offset + p.index.count * Size(p.index.format);
  }

  /** A planned layout never repeats a semantic. */
  lemma PlannedDistinct(p: Presence, attrs: seq<Attribute>)
    requires Describes(attrs, PlannedSemantics(p))
    ensures DistinctSemantics(attrs)
  {
    var sems := PlannedSemantics(p);
    forall i, j | 0 <= i < |attrs| && 0 <= j < |attrs| && i != j
      ensures attrs[i].semantic != attrs[j].semantic
    {
      if i < j {
        assert Rank(sems[i]) < Rank(sems[j]);
      } else {
        assert Rank(sems[j]) < Rank(sems[i]);
      }
    }
  }

  /** A present semantic's stream sits at its attribute's position among the zipped
      streams. */
  lemma PresentPosition(input: GeometryPatchInput, attrs: seq<Attribute>, s: Semantic) returns (t: nat)
    requires |input.vertices| > 0
    requires Describes(attrs, PlannedSemantics(PresenceOf(input)))
    requires IsPresent(PresenceOf(input), s)
    ensures t < |attrs| && t < |PresentStreams(input)|
    ensures attrs[t].semantic == s && PresentStreams(input)[t] == StreamOf(input, s)
  {
    var sems := PlannedSemantics(PresenceOf(input));
    StreamsFollowLayout(input);
    t :| 0 <= t < |sems| && sems[t] == s;
  }

  /** Picking an attribute's semantic out of the values of all points gives the
      attribute's whole stream, when that stream is as long as the zip. */
  lemma FilterWholeStream(data: seq<seq<Block>>, attrs: seq<Attribute>, t: nat)
    requires |data| == |attrs| && t < |attrs| && DistinctSemantics(attrs)
    requires ZipLength(data) == |data[t]|
    ensures Filter(Interleave(data, attrs, |data[t]|), attrs[t].semantic) == data[t]
  {
    FilterInterleaveAt(data, attrs, |data[t]|, t);
    assert data[t][..|data[t]|] == data[t];
  }

  /** Picking a present semantic out of the interleaved values of a triangle input gives
      its stream. */
  lemma InterleavedPresent(input: GeometryPatchInput, attrs: seq<Attribute>, s: Semantic)
    requires WellShaped(input) && |input.vertices| > 0
    requires Describes(attrs, PlannedSemantics(PresenceOf(input)))
    requires IsPresent(PresenceOf(input), s)
    ensures |PresentStreams(input)| == |attrs| && ZipLength(PresentStreams(input)) == |input.vertices|
    ensures Filter(Interleave(PresentStreams(input), attrs, |input.vertices|), s) == StreamOf(input, s)
  {
    var data := PresentStreams(input);
    assert |data| == |attrs| && ZipLength(data) == |input.vertices| by {
      StreamsWellSized(input, attrs);
    }
    assert DistinctSemantics(attrs) by {
      PlannedDistinct(PresenceOf(input), attrs);
    }
    var t := PresentPosition(input, attrs, s);
    assert |data[t]| == |input.vertices|;
    FilterWholeStream(data, attrs, t);
  }

  /** Picking an absent semantic out of the interleaved values gives nothing. */
  lemma InterleavedAbsent(input: GeometryPatchInput, attrs: seq<Attribute>, s: Semantic)
    requires WellShaped(input) && |input.vertices| > 0
    requires Describes(attrs, PlannedSemantics(PresenceOf(input)))
    requires !IsPresent(PresenceOf(input), s)
    ensures |PresentStreams(input)| == |attrs| && ZipLength(PresentStreams(input)) == |input.vertices|
    ensures Filter(Interleave(PresentStreams(input), attrs, |input.vertices|), s) == []
  {
    StreamsWellSized(input, attrs);
    FilterInterleaveAbsent(PresentStreams(input), attrs, |input.vertices|, s);
  }

  /** Routing into an empty map yields exactly the non-position semantics whose values
      are selected, each with those values. */
  lemma RoutedPointData(m: MeshData, chunks: seq<Chunk>, expected: map<Semantic, seq<Block>>)
    requires m.pointData == map[]
    requires forall s :: s in expected ==> s != Position && expected[s] != [] && Filter(chunks, s) == expected[s]
    requires forall s :: s !in expected && s != Position ==> Filter(chunks, s) == []
    ensures RouteAll(m, chunks).pointData == expected
  {
    RouteAllSplits(m, chunks);
    var routed := RouteAll(m, chunks).pointData;
    forall s ensures (s in routed <==> s in expected) && (s in expected ==> routed[s] == expected[s]) {
      assert Values(m.pointData, s) == [];
    }
  }

  /** Routing the interleaved values of a well-shaped input into an empty map files
      every present optional stream under its semantic, and nothing else. */
  lemma InterleavedPointData(input: GeometryPatchInput, attrs: seq<Attribute>, m: MeshData)
    requires WellShaped(input) && |input.vertices| > 0
    requires Describes(attrs, PlannedSemantics(PresenceOf(input)))
    requires m.pointData == map[]
    ensures |PresentStreams(input)| == |attrs| && ZipLength(PresentStreams(input)) == |input.vertices|
    ensures RouteAll(m, Interleave(PresentStreams(input), attrs, |input.vertices|)).pointData
            == ExpectedPointData(input)
  {
    StreamsWellSized(input, attrs);
    var chunks := Interleave(PresentStreams(input), attrs, |input.vertices|);
    var expected := ExpectedPointData(input);
    forall s | s in expected
      ensures s != Position && expected[s] != [] && Filter(chunks, s) == expected[s]
    {
      InterleavedPresent(input, attrs, s);
      assert |StreamOf(input, s)| == |input.vertices|;
    }
    forall s | s !in expected && s != Position
      ensures Filter(chunks, s) == []
    {
      InterleavedAbsent(input, attrs, s);
    }
    RoutedPointData(m, chunks, expected);
  }

  /** Decoding the encoder's buffer of a triangle input gives back the index list and,
      for the vertex section, the positions as the point list and every other present
      stream under its semantic. */
  lemma ExportRecoversInput(input: GeometryPatchInput, attrs: seq<Attribute>)
    requires TriangleInput(input)
    requires Describes(attrs, PlannedSemantics(PresenceOf(input)))
    ensures Readable(Stored(input, attrs))
    ensures DecodePatch(EmptyMesh, Stored(input, attrs))
            == MeshData(input.vertices, input.indices, ExpectedPointData(input))
  {
    StoredReadable(input, attrs);
    var p := Stored(input, attrs);
    var base := EmptyMesh.(indices := EmptyMesh.indices + PatchIndices(p));
    ChunksOfStored(input, attrs);
    IndicesRecovered(input, attrs);
    InterleavedPresent(input, attrs, Position);
    InterleavedPointData(input, attrs, base);
    RouteAllSplits(base, PatchChunks(p));
  }

  /** The index groups read from the stored patch are the input's triangles. */
  lemma IndicesRecovered(input: GeometryPatchInput, attrs: seq<Attribute>)
    requires TriangleInput(input)
    requires Describes(attrs, PlannedSemantics(PresenceOf(input)))
    ensures Readable(Stored(input, attrs))
    ensures PatchIndices(Stored(input, attrs)) == input.indices
  {
    StoredReadable(input, attrs);
    var p := Stored(input, attrs);
    var f := GetFormat(|input.vertices|);
    assert p.bytes[p.index.offset..] == IndexBytes(input.indices, f);
    TrianglesFit(input);
    FlattenFits(input.indices, f);
    ReadWordsRoundTrip(Flatten(input.indices), Size(f));
    TriplesOfFlatten(input.indices);
  }

  /** The vertex values cut from the stored patch are the input's points, interleaved. */
  lemma ChunksOfStored(input: GeometryPatchInput, attrs: seq<Attribute>)
    requires TriangleInput(input)
    requires Describes(attrs, PlannedSemantics(PresenceOf(input)))
    ensures Readable(Stored(input, attrs))
    ensures |PresentStreams(input)| == |attrs| && ZipLength(PresentStreams(input)) == |input.vertices|
    ensures PatchChunks(Stored(input, attrs))
            == Interleave(PresentStreams(input), attrs, |input.vertices|)
  {
    StoredReadable(input, attrs);
    var p := Stored(input, attrs);
    var data := PresentStreams(input);
    StreamsWellSized(input, attrs);
    assert p.bytes[..p.index.offset] == VertexSection(data, |attrs|, |input.vertices|);
    SectionOfEncoded(data, attrs, |input.vertices|);
  }
}
