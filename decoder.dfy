/** The mesh exporter's decoder: reads the index words of each stored patch (unsigned,
    as corrected in `Formats`) and groups them in threes, then walks the vertex section attribute by attribute, sending
    positions to the point list and every other semantic to its own list. */
module Decoder {
  import opened Words
  import opened Formats
  import opened Layout
  import opened Encoder

  /** One attribute value cut from a vertex record, tagged with its semantic. */
  datatype Chunk = Chunk(semantic: Semantic, bytes: Block)

  /** What the exporter accumulates: positions, index groups, and the values of every
      other semantic keyed by the semantic. */
  datatype MeshData = MeshData(points: seq<Block>, indices: seq<seq<int>>,
                               pointData: map<Semantic, seq<Block>>)

  const EmptyMesh := MeshData([], [], map[])

  /** A stored patch as the exporter finds it: the bytes of the buffer its index view
      refers to, its index descriptor and its attribute list. */
  datatype StoredPatch = StoredPatch(bytes: seq<Byte>, index: IndexDesc, attributes: seq<Attribute>)

  /** The list held for a semantic, empty when it has none yet. */
  function Values(m: map<Semantic, seq<Block>>, s: Semantic): seq<Block>
  {
    if s in m then m[s] else []
  }

  /** Routes one value: a position goes to the point list, any other semantic to its
      list in the map, which is created on its first value. */
  function Route(m: MeshData, c: Chunk): MeshData
  {
    if c.semantic == Position then m.(points := m.points + [c.bytes])
    else m.(pointData := m.pointData[c.semantic := Values(m.pointData, c.semantic) + [c.bytes]])
  }

  function RouteAll(m: MeshData, chunks: seq<Chunk>): MeshData
  {
    if |chunks| == 0 then m else Route(RouteAll(m, chunks[..|chunks| - 1]), chunks[|chunks| - 1])
  }

  /** The values of one semantic among the chunks, in order. */
  function Filter(chunks: seq<Chunk>, s: Semantic): seq<Block>
  {
    if |chunks| == 0 then []
    else Filter(chunks[..|chunks| - 1], s)
         + (if chunks[|chunks| - 1].semantic == s then [chunks[|chunks| - 1].bytes] else [])
  }

  /** The values of the first `j` attributes cut from one record. */
  function RecordChunks(rec: seq<Byte>, attrs: seq<Attribute>, j: nat): seq<Chunk>
    requires j <= |attrs| && PrefixSize(attrs, j) <= |rec|
  {
    if j == 0 then []
    else RecordChunks(rec, attrs, j - 1)
         + [Chunk(attrs[j - 1].semantic, rec[PrefixSize(attrs, j - 1)..PrefixSize(attrs, j)])]
  }

  /** The values of the whole records of a vertex section, record after record. */
  function SectionChunks(section: seq<Byte>, attrs: seq<Attribute>): seq<Chunk>
    requires |attrs| > 0
    decreases |section|
  {
    var size := RecordSize(attrs);
    RecordSizePositive(attrs);
    if |section| < size then []
    else SectionChunks(section[..|section| - size], attrs)
         + RecordChunks(section[|section| - size..], attrs, |attrs|)
  }

  /** `count` little-endian w-byte index words, read as unsigned (the corrected reading
      of `Formats.UnsignedIndexValue`). */
  function ReadWords(bs: seq<Byte>, w: nat, count: nat): (vs: seq<int>)
    requires w > 0 && count * w <= |bs|
    ensures |vs| == count
    ensures forall i :: 0 <= i < count ==> 0 <= vs[i] < Pow256(w)
  {
    if count == 0 then []
    else
      assert (count - 1) * w + w == count * w;
      ReadWords(bs, w, count - 1) + [UnsignedIndexValue(bs[(count - 1) * w..count * w])]
  }

  /** Consecutive triples of the values; a trailing incomplete triple is dropped. */
  function Triples(raw: seq<int>): (groups: seq<seq<int>>)
    ensures |groups| == |raw| / 3
    ensures forall i :: 0 <= i < |groups| ==> |groups[i]| == 3
  {
    seq(|raw| / 3, i requires 0 <= i < |raw| / 3 => raw[3 * i..3 * i + 3])
  }

  /** The first `n` triples, put back end to end, are the first `3n` values. */
  lemma {:induction false} TriplesPrefix(raw: seq<int>, n: nat)
    requires n <= |raw| / 3
    ensures Flatten(Triples(raw)[..n]) == raw[..3 * n]
  {
    if n > 0 {
      var groups := Triples(raw)[..n];
      assert groups[..n - 1] == Triples(raw)[..n - 1];
      TriplesPrefix(raw, n - 1);
      assert groups[n - 1] == raw[3 * (n - 1)..3 * n];
      assert raw[..3 * (n - 1)] + raw[3 * (n - 1)..3 * n] == raw[..3 * n];
    }
  }

  /** Regrouping keeps the values in order and drops only an incomplete tail: put back
      end to end, the triples are the values up to the last whole triple. */
  lemma TriplesInOrder(raw: seq<int>)
    ensures Flatten(Triples(raw)) == raw[..3 * (|raw| / 3)]
  {
    TriplesPrefix(raw, |raw| / 3);
    assert Triples(raw)[..|raw| / 3] == Triples(raw);
  }

  /** What reading a patch needs so that no buffer read fails: the index words lie in
      the buffer, and the vertex section before them is whole records. */
  predicate Readable(p: StoredPatch)
  {
    IsIndexFormat(p.index.format) &&
    p.index.offset + p.index.count * Size(p.index.format) <= |p.bytes| &&
    |p.attributes| > 0 &&
    p.index.offset % RecordSize(p.attributes) == 0
  }

  lemma RecordSizePositive(attrs: seq<Attribute>)
    requires |attrs| > 0
    ensures RecordSize(attrs) > 0
  {
    assert PrefixSize(attrs, |attrs|) >= Size(attrs[|attrs| - 1].format);
  }

  /** The index groups of a patch. */
  function PatchIndices(p: StoredPatch): seq<seq<int>>
    requires Readable(p)
  {
    Triples(ReadWords(p.bytes[p.index.offset..], Size(p.index.format), p.index.count))
  }

  function PatchChunks(p: StoredPatch): seq<Chunk>
    requires Readable(p)
  {
    SectionChunks(p.bytes[..p.index.offset], p.attributes)
  }

  /** The export state after one more patch: its index groups appended, then its vertex
      values routed. */
  function DecodePatch(m: MeshData, p: StoredPatch): MeshData
    requires Readable(p)
  {
    RouteAll(m.(indices := m.indices + PatchIndices(p)), PatchChunks(p))
  }

  function ExportAll(patches: seq<StoredPatch>): MeshData
    requires forall i :: 0 <= i < |patches| ==> Readable(patches[i])
  {
    if |patches| == 0 then EmptyMesh
    else DecodePatch(ExportAll(patches[..|patches| - 1]), patches[|patches| - 1])
  }

  lemma OneMoreRecord(left: int, size: nat)
    requires size > 0 && left * size > 0
    ensures left >= 1 && (left - 1) * size == left * size - size
  {
  }

  /** Routing two runs of chunks one after the other routes their concatenation. */
  lemma {:induction false} RouteAllAppend(m: MeshData, a: seq<Chunk>, b: seq<Chunk>)
    ensures RouteAll(RouteAll(m, a), b) == RouteAll(m, a + b)
  {
    if |b| > 0 {
      RouteAllAppend(m, a, b[..|b| - 1]);
      assert (a + b)[..|a + b| - 1] == a + b[..|b| - 1];
    } else {
      assert a + b == a;
    }
  }

  /** Routing one more chunk routes it after the others. */
  lemma RouteAllSnoc(m: MeshData, chunks: seq<Chunk>, c: Chunk)
    ensures RouteAll(m, chunks + [c]) == Route(RouteAll(m, chunks), c)
  {
    assert (chunks + [c])[..|chunks|] == chunks;
  }

  /** A slice of the record starting at `start` is the matching slice of the section. */
  lemma RecordSlice(section: seq<Byte>, start: nat, size: nat, lo: nat, hi: nat)
    requires start + size <= |section| && lo <= hi <= size
    ensures section[start..start + size][lo..hi] == section[start + lo..start + hi]
  {
    var rec := section[start..start + size];
    var a, b := rec[lo..hi], section[start + lo..start + hi];
    forall k | 0 <= k < |a| ensures a[k] == b[k] {
      assert a[k] == rec[lo + k];
    }
  }

  /** Attribute `j` of the record starting at `start` is cut from its offset to the next
      attribute's offset in the section. */
  lemma RecordChunksNext(section: seq<Byte>, attrs: seq<Attribute>, start: nat, j: nat)
    requires j < |attrs| && start + RecordSize(attrs) <= |section|
    ensures PrefixSize(attrs, j + 1) <= RecordSize(attrs)
    ensures var rec := section[start..start + RecordSize(attrs)];
            RecordChunks(rec, attrs, j + 1)
            == RecordChunks(rec, attrs, j)
               + [Chunk(attrs[j].semantic, section[start + PrefixSize(attrs, j)..start + PrefixSize(attrs, j + 1)])]
  {
    PrefixSizeMonotone(attrs, j + 1);
    RecordSlice(section, start, RecordSize(attrs), PrefixSize(attrs, j), PrefixSize(attrs, j + 1));
  }

  /** The first `j` attributes of the record starting at `start`, each cut from the
      section at its offset. */
  function CutRecord(section: seq<Byte>, attrs: seq<Attribute>, start: nat, j: nat): seq<Chunk>
    requires j <= |attrs| && start + PrefixSize(attrs, j) <= |section|
  {
    if j == 0 then []
    else
      var lo := start + PrefixSize(attrs, j - 1);
      CutRecord(section, attrs, start, j - 1)
      + [Chunk(attrs[j - 1].semantic, section[lo..lo + Size(attrs[j - 1].format)])]
  }

  /** Cutting the attributes from the section in place is cutting them from the record. */
  lemma {:induction false} CutRecordChunks(section: seq<Byte>, attrs: seq<Attribute>, start: nat, j: nat)
    requires j <= |attrs| && start + RecordSize(attrs) <= |section|
    ensures PrefixSize(attrs, j) <= RecordSize(attrs)
    ensures CutRecord(section, attrs, start, j)
            == RecordChunks(section[start..start + RecordSize(attrs)], attrs, j)
  {
    PrefixSizeMonotone(attrs, j);
    if j > 0 {
      CutRecordChunks(section, attrs, start, j - 1);
      RecordChunksNext(section, attrs, start, j - 1);
    }
  }

  /** Routing the first `j` attributes of the record starting at `start`, each cut at
      its offset. */
  function RouteRecord(section: seq<Byte>, attrs: seq<Attribute>, start: nat, j: nat, m0: MeshData): MeshData
    requires j <= |attrs| && start + PrefixSize(attrs, j) <= |section|
  {
    if j == 0 then m0
    else
      var lo := start + PrefixSize(attrs, j - 1);
      Route(RouteRecord(section, attrs, start, j - 1, m0),
            Chunk(attrs[j - 1].semantic, section[lo..lo + Size(attrs[j - 1].format)]))
  }

  /** Routing the attributes one by one is routing the list of their chunks. */
  lemma {:induction false} RouteRecordCut(section: seq<Byte>, attrs: seq<Attribute>, start: nat, j: nat, m0: MeshData)
    requires j <= |attrs| && start + PrefixSize(attrs, j) <= |section|
    ensures RouteRecord(section, attrs, start, j, m0) == RouteAll(m0, CutRecord(section, attrs, start, j))
  {
    if j > 0 {
      var lo := start + PrefixSize(attrs, j - 1);
      var c := Chunk(attrs[j - 1].semantic, section[lo..lo + Size(attrs[j - 1].format)]);
      RouteRecordCut(section, attrs, start, j - 1, m0);
      RouteAllSnoc(m0, CutRecord(section, attrs, start, j - 1), c);
    }
  }

  /** Decodes the record starting at `start`: each attribute in list order takes the
      next `Size(format)` bytes, which are routed by the attribute's semantic. */
  method DecodeRecord(section: seq<Byte>, attrs: seq<Attribute>, start: nat, m0: MeshData)
    returns (i: nat, m: MeshData)
    requires start + RecordSize(attrs) <= |section|
    ensures i == start + RecordSize(attrs)
    ensures m == RouteAll(m0, RecordChunks(section[start..i], attrs, |attrs|))
  {
    m, i := m0, start;
    for j := 0 to |attrs|
      invariant i == start + PrefixSize(attrs, j) <= start + RecordSize(attrs)
      invariant m == RouteRecord(section, attrs, start, j, m0)
    {
      PrefixSizeMonotone(attrs, j + 1);
      var chunk := section[i..i + Size(attrs[j].format)];
      i := i + Size(attrs[j].format);
      m := Route(m, Chunk(attrs[j].semantic, chunk));
    }
    RouteRecordCut(section, attrs, start, |attrs|, m0);
    CutRecordChunks(section, attrs, start, |attrs|);
  }

  /** The chunks of a section end with the chunks of its last record. */
  lemma SectionChunksLast(prefix: seq<Byte>, attrs: seq<Attribute>)
    requires |attrs| > 0 && RecordSize(attrs) <= |prefix|
    ensures SectionChunks(prefix, attrs)
            == SectionChunks(prefix[..|prefix| - RecordSize(attrs)], attrs)
               + RecordChunks(prefix[|prefix| - RecordSize(attrs)..], attrs, |attrs|)
  {
  }

  /** Cutting a prefix of the section at `base` gives the shorter prefix and the bytes
      between. */
  lemma PrefixSplit(section: seq<Byte>, base: nat, i: nat)
    requires base <= i <= |section|
    ensures section[..i][..base] == section[..base]
    ensures section[..i][base..] == section[base..i]
  {
    forall k | 0 <= k < i - base ensures section[..i][base..][k] == section[base..i][k] {
    }
  }

  /** Routing the next record after the chunks of the section before it routes the
      chunks of the section up to its end. */
  lemma RouteNextRecord(section: seq<Byte>, attrs: seq<Attribute>, m0: MeshData, base: nat, i: nat)
    requires |attrs| > 0 && i == base + RecordSize(attrs) && i <= |section|
    ensures RouteAll(RouteAll(m0, SectionChunks(section[..base], attrs)), RecordChunks(section[base..i], attrs, |attrs|))
            == RouteAll(m0, SectionChunks(section[..i], attrs))
  {
    RouteAllAppend(m0, SectionChunks(section[..base], attrs), RecordChunks(section[base..i], attrs, |attrs|));
    SectionChunksLast(section[..i], attrs);
    PrefixSplit(section, base, i);
  }

  lemma WholePrefix(section: seq<Byte>)
    ensures section[..|section|] == section
  {
  }

  /** Walks the vertex section record by record, each attribute of a record taking the
      next bytes, until the section is used up. */
  method DecodeAttributes(section: seq<Byte>, attrs: seq<Attribute>, m0: MeshData)
    returns (m: MeshData)
    requires |attrs| > 0
    requires |section| % RecordSize(attrs) == 0
    ensures m == RouteAll(m0, SectionChunks(section, attrs))
  {
    ghost var size := RecordSize(attrs);
    RecordSizePositive(attrs);
    ghost var left := |section| / size;
    m := m0;
    var i := 0;
    while i < |section|
      invariant 0 <= i <= |section| && |section| - i == left * size
      invariant m == RouteAll(m0, SectionChunks(section[..i], attrs))
      decreases |section| - i
    {
      OneMoreRecord(left, size);
      ghost var base := i;
      i, m := DecodeRecord(section, attrs, i, m);
      RouteNextRecord(section, attrs, m0, base, i);
      left := left - 1;
    }
    WholePrefix(section);
  }

  /** Exports a sequence of patches: for each, reads its index words and appends them
      in triples, then decodes its vertex section into the
      same point list and map; indices of later patches are not rebased. */
  method ExportMesh(patches: seq<StoredPatch>) returns (mesh: MeshData)
    requires forall i :: 0 <= i < |patches| ==> Readable(patches[i])
    ensures mesh == ExportAll(patches)
  {
    mesh := EmptyMesh;
    for n := 0 to |patches|
      invariant mesh == ExportAll(patches[..n])
    {
      var p := patches[n];
      assert patches[..n + 1][..n] == patches[..n];
      var raw := ReadWords(p.bytes[p.index.offset..], Size(p.index.format), p.index.count);
      mesh := mesh.(indices := mesh.indices + Triples(raw));
      mesh := DecodeAttributes(p.bytes[..p.index.offset], p.attributes, mesh);
    }
    assert patches[..|patches|] == patches;
  }

  /** Routing sends exactly the position values to the point list and exactly the values
      of each other semantic to that semantic's list, in order; the index groups are
      untouched and a semantic gets a map entry only once it has a value. */
  lemma {:induction false} RouteAllSplits(m: MeshData, chunks: seq<Chunk>)
    ensures RouteAll(m, chunks).points == m.points + Filter(chunks, Position)
    ensures RouteAll(m, chunks).indices == m.indices
    ensures forall s :: s != Position ==>
      Values(RouteAll(m, chunks).pointData, s) == Values(m.pointData, s) + Filter(chunks, s)
    ensures forall s :: s in RouteAll(m, chunks).pointData <==>
      s in m.pointData || (s != Position && Filter(chunks, s) != [])
  {
    if |chunks| > 0 {
      RouteAllSplits(m, chunks[..|chunks| - 1]);
    }
  }

  /** Exporting one more patch appends its index groups as they are (no rebasing by the
      earlier patches' vertex counts), its positions to the point list and its other
      values to their semantics' lists. */
  lemma ExportAppendsPatch(patches: seq<StoredPatch>, p: StoredPatch)
    requires forall i :: 0 <= i < |patches| ==> Readable(patches[i])
    requires Readable(p)
    ensures forall i :: 0 <= i < |patches + [p]| ==> Readable((patches + [p])[i])
    ensures var before, after := ExportAll(patches), ExportAll(patches + [p]);
            after.indices == before.indices + PatchIndices(p) &&
            after.points == before.points + Filter(PatchChunks(p), Position) &&
            forall s :: s != Position ==>
              Values(after.pointData, s) == Values(before.pointData, s) + Filter(PatchChunks(p), s)
  {
    assert (patches + [p])[..|patches|] == patches;
    var before := ExportAll(patches);
    RouteAllSplits(before.(indices := before.indices + PatchIndices(p)), PatchChunks(p));
  }
}
