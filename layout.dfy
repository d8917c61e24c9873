/** The attribute layout planner: which attributes a geometry patch has, in which
    order and format, at which byte offset within a vertex record, and the record
    size (stride) shared by all of them. */
module Layout {
  import opened Formats

  datatype Semantic = Position | Normal | Tangent | Texture | Color

  /** One attribute descriptor (AttributeInput once offset and stride are set). */
  datatype Attribute = Attribute(semantic: Semantic, format: Format, normalized: bool,
                                 offset: nat, stride: nat)

  /** Which optional per-vertex streams a patch input has (a stream is present when its
      list is non-empty). */
  datatype Presence = Presence(normals: bool, tangents: bool, textures: bool, colors: bool)

  /** The fixed position of each semantic in a layout. */
  function Rank(s: Semantic): nat
  {
    match s
    case Position => 0
    case Normal => 1
    case Tangent => 2
    case Texture => 3
    case Color => 4
  }

  predicate IsPresent(p: Presence, s: Semantic)
  {
    match s
    case Position => true
    case Normal => p.normals
    case Tangent => p.tangents
    case Texture => p.textures
    case Color => p.colors
  }

  function Count(b: bool): nat { if b then 1 else 0 }

  /** The semantics of the planned attributes: POSITION first, then exactly the present
      optional streams, in the fixed order. */
  function PlannedSemantics(p: Presence): (s: seq<Semantic>)
    ensures |s| == 1 + Count(p.normals) + Count(p.tangents) + Count(p.textures) + Count(p.colors)
    ensures s[0] == Position
    ensures forall x :: x in s <==> IsPresent(p, x)
    ensures forall i, j :: 0 <= i < j < |s| ==> Rank(s[i]) < Rank(s[j])
  {
    [Position]
    + (if p.normals then [Normal] else [])
    + (if p.tangents then [Tangent] else [])
    + (if p.textures then [Texture] else [])
    + (if p.colors then [Color] else [])
  }

  /** The format fixed for each semantic. */
  function SemanticFormat(s: Semantic): Format
  {
    match s
    case Position => Vec3
    case Normal => Vec3
    case Tangent => Vec3
    case Texture => U16Vec2
    case Color => U8Vec4
  }

  function IsNormalized(s: Semantic): bool
  {
    s == Texture || s == Color
  }

  /** Total byte size of the formats of the first `n` attributes. */
  function PrefixSize(attrs: seq<Attribute>, n: nat): nat
    requires n <= |attrs|
  {
    if n == 0 then 0 else PrefixSize(attrs, n - 1) + Size(attrs[n - 1].format)
  }

  /** Byte size of one vertex record: the total size of all attributes' formats. */
  function RecordSize(attrs: seq<Attribute>): nat
  {
    PrefixSize(attrs, |attrs|)
  }

  /** Attributes carry the planned semantics with their fixed formats. */
  predicate Describes(attrs: seq<Attribute>, sems: seq<Semantic>)
  {
    |attrs| == |sems| &&
    forall i :: 0 <= i < |attrs| ==>
      attrs[i].semantic == sems[i] &&
      attrs[i].format == SemanticFormat(sems[i]) &&
      attrs[i].normalized == IsNormalized(sems[i])
  }

  /** Every offset is the total size of the attributes before it, every stride the
      total size of all attributes. */
  predicate Packed(attrs: seq<Attribute>)
  {
    forall i :: 0 <= i < |attrs| ==>
      attrs[i].offset == PrefixSize(attrs, i) && attrs[i].stride == RecordSize(attrs)
  }

  lemma {:induction false} PrefixSizeFormatsOnly(a: seq<Attribute>, b: seq<Attribute>, n: nat)
    requires n <= |a| && n <= |b|
    requires forall i :: 0 <= i < n ==> a[i].format == b[i].format
    ensures PrefixSize(a, n) == PrefixSize(b, n)
  {
    if n > 0 {
      PrefixSizeFormatsOnly(a, b, n - 1);
    }
  }

  /** The attribute list before offsets and strides are set: one attribute per planned
      semantic, with its fixed format and normalisation. */
  function UnplacedAttributes(p: Presence): (attrs: seq<Attribute>)
    ensures Describes(attrs, PlannedSemantics(p))
  {
    var sems := PlannedSemantics(p);
    seq(|sems|, i requires 0 <= i < |sems| =>
      Attribute(sems[i], SemanticFormat(sems[i]), IsNormalized(sems[i]), 0, 0))
  }

  /** Builds the attribute list for the present streams, sets each attribute's offset
      from a running total, then sets every stride to the final total. */
  method SetUpAttributes(p: Presence) returns (attrs: seq<Attribute>)
    ensures Describes(attrs, PlannedSemantics(p))
    ensures Packed(attrs)
  {
    var planned := UnplacedAttributes(p);
    var offsets, total := AssignOffsets(planned);
    attrs := AssignStrides(offsets, total);
    PackedByFormats(attrs, planned);
    DescribesByDescriptors(attrs, planned, PlannedSemantics(p));
  }

  /** The first loop of the attribute set-up: each attribute's offset becomes the total
      size of the formats before it, and nothing else changes; the final total is the
      record size. */
  method AssignOffsets(planned: seq<Attribute>) returns (attrs: seq<Attribute>, offset: nat)
    ensures |attrs| == |planned|
    ensures forall k :: 0 <= k < |attrs| ==>
      attrs[k] == planned[k].(offset := PrefixSize(planned, k))
    ensures offset == RecordSize(planned)
  {
    attrs := planned;
    offset := 0;
    for i := 0 to |attrs|
      invariant |attrs| == |planned|
      invariant offset == PrefixSize(planned, i)
      invariant forall k :: 0 <= k < i ==> attrs[k] == planned[k].(offset := PrefixSize(planned, k))
      invariant forall k :: i <= k < |attrs| ==> attrs[k] == planned[k]
    {
      attrs := attrs[i := attrs[i].(offset := offset)];
      offset := offset + Size(attrs[i].format);
    }
  }

  /** The second loop of the attribute set-up: every stride becomes the record size,
      and nothing else changes. */
  method AssignStrides(placed: seq<Attribute>, stride: nat) returns (attrs: seq<Attribute>)
    ensures |attrs| == |placed|
    ensures forall k :: 0 <= k < |attrs| ==>
      attrs[k] == placed[k].(stride := stride)
  {
    attrs := placed;
    for i := 0 to |attrs|
      invariant |attrs| == |placed|
      invariant forall k :: 0 <= k < i ==> attrs[k] == placed[k].(stride := stride)
      invariant forall k :: i <= k < |attrs| ==> attrs[k] == placed[k]
    {
      attrs := attrs[i := attrs[i].(stride := stride)];
    }
  }

  /** Two attributes agree on everything but offset and stride. */
  predicate SameDescriptor(a: Attribute, b: Attribute)
  {
    a.semantic == b.semantic && a.format == b.format && a.normalized == b.normalized
  }

  lemma DescribesByDescriptors(attrs: seq<Attribute>, planned: seq<Attribute>, sems: seq<Semantic>)
    requires Describes(planned, sems)
    requires |attrs| == |planned|
    requires forall k :: 0 <= k < |attrs| ==> SameDescriptor(attrs[k], planned[k])
    ensures Describes(attrs, sems)
  {
  }

  /** Offsets and strides computed from one attribute list are packed for any list with
      the same formats. */
  lemma PackedByFormats(attrs: seq<Attribute>, planned: seq<Attribute>)
    requires |attrs| == |planned|
    requires forall k :: 0 <= k < |attrs| ==> SameDescriptor(attrs[k], planned[k])
    requires forall k :: 0 <= k < |attrs| ==>
      attrs[k].offset == PrefixSize(planned, k) && attrs[k].stride == RecordSize(planned)
    ensures Packed(attrs)
  {
    forall k | 0 <= k <= |attrs|
      ensures PrefixSize(attrs, k) == PrefixSize(planned, k)
    {
      PrefixSizeFormatsOnly(attrs, planned, k);
    }
  }

  /** A prefix of the attributes takes no more bytes than the whole record. */
  lemma {:induction false} PrefixSizeMonotone(attrs: seq<Attribute>, i: nat)
    requires i <= |attrs|
    ensures PrefixSize(attrs, i) <= RecordSize(attrs)
    decreases |attrs| - i
  {
    if i < |attrs| {
      PrefixSizeMonotone(attrs, i + 1);
    }
  }

  /** The offset and stride invariants of a planned layout: offsets start at 0 and
      advance by each format's size, every attribute ends within the record, and all
      strides are equal to the total size. */
  lemma LayoutInvariants(attrs: seq<Attribute>)
    requires Packed(attrs)
    ensures |attrs| > 0 ==> attrs[0].offset == 0
    ensures forall i :: 0 < i < |attrs| ==>
      attrs[i].offset == attrs[i - 1].offset + Size(attrs[i - 1].format)
    ensures forall i :: 0 <= i < |attrs| ==>
      attrs[i].offset + Size(attrs[i].format) <= attrs[i].stride
    ensures forall i, j :: 0 <= i < |attrs| && 0 <= j < |attrs| ==> attrs[i].stride == attrs[j].stride
  {
    forall i | 0 <= i < |attrs|
      ensures attrs[i].offset + Size(attrs[i].format) <= attrs[i].stride
    {
      PrefixSizeMonotone(attrs, i + 1);
    }
  }
}
