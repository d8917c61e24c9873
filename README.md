# Geometry creation helpers, modelled in Dafny

This project models the byte-level core of the geometry helpers for a NOODLES
scene server (`geometry/geometry_creation.py`). It covers five parts:

- **Format registry.** The byte size of each numeric format (`SIZES`) and its element
  type (`FORMAT_MAP`). The choice of index format from a vertex count (`get_format`).
- **Attribute layout planner.** `set_up_attributes` builds one attribute per present
  stream, in a fixed order and format. Two loops then give each attribute its byte
  offset within a vertex record and give every attribute the record size as its stride.
- **Geometry encoder.** `build_geometry_buffer` zips the present streams point by
  point, writes each point's values back to back, then appends the index words.
  `build_geometry_patch` computes the patch descriptor: vertex count, index count,
  index format and index offset.
- **Mesh exporter's decoder.** The decode loop of `export_mesh` reads each patch's
  index words and regroups them in threes. It then walks the vertex section record by
  record, sending positions to the point list and every other semantic to its own
  list.
- **Instance helpers.** `padded` and `create_instances` build instance rows of four
  values each: position, color, rotation and scale, with defaults.
  `add_instances` appends new rows to the values already stored.

Modules:

- `Words`: the little-endian integer words numpy writes and reads.
- `Formats`, `Layout`, `Encoder` and `Decoder`: the parts above.
- `RoundTrip`: proves that exporting an encoded patch gives the input back.
- `Instances`: the instance helpers.

Attribute values are opaque byte blocks of their format's size. Index values are
integers written as little-endian words of the index format's width.

Three points of the code shape the model:

- **Unequal stream lengths.** `build_geometry_buffer` zips the streams, so it
  truncates to the shortest one. The model does the same (`Encoder.ZipLength`).
- **Damaged buffers.** `export_mesh` does not check the buffer. A damaged buffer makes
  numpy fail or misread. The model states what a readable patch is as a precondition
  of the decoder (`Decoder.Readable`).
- **Index element types.** `FORMAT_MAP` maps U8, U16 and U32 to the signed types int8,
  int16 and int32. The tag names say unsigned. So does `get_format`'s docstring,
  which says the chosen format accommodates the number of vertices. For 129 to 255 vertices,
  only an unsigned reading of U8 holds every index; the same goes for U16 and U32.
  This is a bug in the code; see "## Findings". `Formats.SignedIndexTooNarrow` models
  the signed reading as written. The encoder and decoder use the corrected, unsigned
  index words.

## Model

| member | source | states |
|---|---|---|
| Formats.Size | geometry/geometry_creation.py:10-35 | SIZES: the byte size of each format, tied to its FORMAT_MAP element: 1, 2 and 4 bytes for U8, U16 and U32; four int8 values for U8VEC4; two int16 values for U16VEC2; a whole number of single floats for the float formats |
| Formats.GetFormat | geometry/geometry_creation.py:43-51 | the result is an index format; it is U32 or its unsigned range holds every vertex index (the count is below 256^width); every narrower index format is too small for the count; together these fix U8 below 256, U16 below 65536 and U32 from there on |
| Formats.GetFormatBoundaries | geometry/geometry_creation.py:43-51 | 0 and 255 vertices select U8, 256 and 65535 select U16, 65536 selects U32 |
| Formats.SignedIndexTooNarrow | geometry/geometry_creation.py:24-27 | as written: for counts in the upper half of the chosen width's range, the highest vertex index does not fit the signed element type and reads back negative, as itself minus 256^w |
| Formats.SignedIndexExample | geometry/geometry_creation.py:43-51 | 200 vertices select U8, yet index 150 reads back as -106 |
| Formats.UnsignedIndexValue | geometry/geometry_creation.py:397 | corrected reading: an index word is read as an unsigned number below 256^width |
| Formats.UnsignedIndexRoundTrip | geometry/geometry_creation.py:43-51 | read as unsigned, every index below the vertex count survives the word of the chosen format |
| Words.WordBytes | geometry/geometry_creation.py:126 | an integer is written as exactly w little-endian bytes |
| Words.SignedValue | geometry/geometry_creation.py:24-27 | as written, a word reads as a value in the signed range of its width; the value is non-negative exactly when the unsigned reading is below half the range |
| Words.UnsignedRoundTrip | geometry/geometry_creation.py:126 | writing a value in [0, 256^w) and reading it as unsigned gives it back |
| Words.SignedRoundTrip | geometry/geometry_creation.py:126 | writing a value in the signed range of w bytes and reading it as signed gives it back |
| Words.WordBytesPeriodic | geometry/geometry_creation.py:126 | the written word depends only on the value modulo 256^w |
| Layout.PlannedSemantics | geometry/geometry_creation.py:57-96 | POSITION first, then exactly the present optional streams, in the order normals, tangents, textures, colors, without repeats; length 1 plus the number present |
| Layout.UnplacedAttributes | geometry/geometry_creation.py:57-96 | one attribute per planned semantic, with its fixed format (VEC3 for POSITION, NORMAL and TANGENT; U16VEC2 for TEXTURE; U8VEC4 for COLOR) and normalisation |
| Layout.SetUpAttributes | geometry/geometry_creation.py:54-108 | the resulting list describes the planned semantics with their formats; each offset is the total size of the attributes before it; every stride is the total size of all of them |
| Layout.AssignOffsets | geometry/geometry_creation.py:98-102 | the first loop sets each attribute's offset to the total size of the attributes before it, changes nothing else, and ends with the record size |
| Layout.AssignStrides | geometry/geometry_creation.py:104-106 | the second loop sets every attribute's stride to the given total and changes nothing else |
| Layout.LayoutInvariants | geometry/geometry_creation.py:98-106 | in a planned layout the first offset is 0, each offset is the previous offset plus the previous format's size, every attribute ends within the stride, and all strides are equal |
| Layout.PrefixSizeMonotone | geometry/geometry_creation.py:99-102 | the running offset never exceeds the final total |
| Encoder.PresentStreams | geometry/geometry_creation.py:115 | only non-empty streams are kept, at most five |
| Encoder.ZipLength | geometry/geometry_creation.py:117 | zipping never yields more points than any stream has values |
| Encoder.ZipLengthReached | geometry/geometry_creation.py:117 | with at least one stream, the number of zipped points equals some stream's length, so it is the shortest stream's length |
| Encoder.PackRecords | geometry/geometry_creation.py:117-123 | the nested loops write, point after point, each of the first `width` streams' values back to back: the vertex section |
| Encoder.WordsBytes | geometry/geometry_creation.py:126 | the index words take w bytes per index value |
| Encoder.BuildGeometryBuffer | geometry/geometry_creation.py:111-147 | the buffer is the vertex section (each zipped point's values, in stream order) followed by the index words; the index offset is the vertex section's length |
| Encoder.BuildGeometryPatch | geometry/geometry_creation.py:150-197 | vertex count; index format chosen from the vertex count; index count equal to the number of index values; a packed layout of the planned attributes; buffer size equal to the byte count; index offset at the end of the vertex section; buffer length equal to offset plus count times index size; for well-shaped input, offset equal to vertex count times stride |
| Encoder.FlattenLength | geometry/geometry_creation.py:154 | rectangular index groups hold groups times group-size values |
| Encoder.StreamsFollowLayout | geometry/geometry_creation.py:115-119 | with vertices present, the zipped streams pair one to one, in order, with the planned attributes' semantics |
| Encoder.StreamsWellSized | geometry/geometry_creation.py:115-123 | for well-shaped input, each zipped stream has one value per vertex, of its attribute's format size |
| Encoder.VertexBytesLength | geometry/geometry_creation.py:118-125 | for well-shaped input, the vertex section is vertex count times stride bytes |
| Encoder.NoVerticesNoStreams | geometry/geometry_creation.py:115 | a well-shaped input without vertices has no present streams, so no vertex bytes |
| Encoder.TriangleExample | geometry/geometry_creation.py:111-127 | three positions and one U8 triangle give a 39-byte buffer whose index words start at byte 36 |
| Decoder.ReadWords | geometry/geometry_creation.py:397 | count words are read, each read as unsigned (the corrected reading), so each is in [0, 256^width) |
| Decoder.Triples | geometry/geometry_creation.py:398 | the values regroup into count/3 groups of three, dropping an incomplete tail |
| Decoder.TriplesInOrder | geometry/geometry_creation.py:398 | the groups, put back end to end, are the values up to the last whole triple: consecutive triples, in order, only the incomplete tail lost |
| Decoder.DecodeRecord | geometry/geometry_creation.py:406-415 | one pass over the attributes consumes exactly one stride and routes each attribute's bytes by its semantic |
| Decoder.DecodeAttributes | geometry/geometry_creation.py:404-416 | the while loop routes the values of every whole record of the vertex section, in order |
| Decoder.ExportMesh | geometry/geometry_creation.py:386-416 | the loop over patches computes the export of all patches: index groups then vertex values, patch after patch |
| Decoder.RouteAllSplits | geometry/geometry_creation.py:412-415 | routing sends exactly the POSITION values to the point list and exactly each other semantic's values, in order, to that semantic's list; index groups are unchanged; a semantic gets an entry only once it has a value |
| Decoder.RouteAllAppend | geometry/geometry_creation.py:404-416 | routing two runs one after the other is routing their concatenation |
| Decoder.ExportAppendsPatch | geometry/geometry_creation.py:389-416 | exporting one more patch appends its index groups as read, not rebased by earlier vertex counts, and appends its positions and other values to the existing lists |
| RoundTrip.SectionOfEncoded | geometry/geometry_creation.py:404-416 | cutting an encoded vertex section into records gives back each point's values in attribute order |
| RoundTrip.FilterInterleaveAt | geometry/geometry_creation.py:412-415 | from the interleaved values, an attribute's semantic selects exactly its stream |
| RoundTrip.ReadWordsRoundTrip | geometry/geometry_creation.py:397 | reading back the words of values in the unsigned range gives the values |
| RoundTrip.TrianglesFit | geometry/geometry_creation.py:43-51 | the index format chosen from the vertex count holds every vertex index of a mesh with at most 2^32 vertices |
| RoundTrip.TriplesOfFlatten | geometry/geometry_creation.py:398 | regrouping flattened triangles in threes gives the triangles |
| RoundTrip.InterleavedPresent | geometry/geometry_creation.py:412-415 | a present semantic's decoded list is its input stream |
| RoundTrip.InterleavedAbsent | geometry/geometry_creation.py:412-415 | an absent semantic's decoded list is empty |
| RoundTrip.StoredReadable | geometry/geometry_creation.py:125-127 | the encoder's buffer and descriptor satisfy the decoder's reading conditions |
| RoundTrip.IndicesRecovered | geometry/geometry_creation.py:397-399 | the index groups read from an encoded triangle patch are the input's triangles |
| RoundTrip.ChunksOfStored | geometry/geometry_creation.py:402-415 | the vertex values read from an encoded patch are the input's values, point by point |
| RoundTrip.ExportRecoversInput | geometry/geometry_creation.py:386-416 | exporting an encoded triangle patch whose corners are valid vertex indices gives the vertices as points, the triangles as indices, and every other present stream under its semantic |
| Instances.Padded | geometry/geometry_creation.py:246-250 | a row is extended with zeros to four values; longer rows are kept whole; the original values stay in front |
| Instances.PaddedIdempotent | geometry/geometry_creation.py:246-250 | padding twice equals padding once |
| Instances.InstanceCount | geometry/geometry_creation.py:270 | the count is the length of the longest list |
| Instances.Rows | geometry/geometry_creation.py:273-279 | four rows per instance, in the order position, color, rotation, scale, each the padded given row or the default, all at least four values long |
| Instances.CreateInstances | geometry/geometry_creation.py:253-281 | the loop builds the instance rows for the lists, with one default position standing in when every list is empty |
| Instances.NoInputsOneDefault | geometry/geometry_creation.py:265-267 | with no inputs there is exactly one instance, made of the four defaults |
| Instances.InstanceRowsShape | geometry/geometry_creation.py:269-279 | with some input, there are four rows per instance of the longest list, every row has at least four values, and each given row appears padded in its slot |
| Instances.AddInstances | geometry/geometry_creation.py:328-342 | fails exactly when the entity has no render representation or no instance source; otherwise the stored values come first and the length grows by the new values |
| Instances.AddInstancesPlacesRows | geometry/geometry_creation.py:338-340 | value k of new row i lands at position stored length + i*width + k |
| Instances.AddInstancesTwice | geometry/geometry_creation.py:338-340 | adding two batches in turn equals adding them together |
| Instances.ConcatAt | geometry/geometry_creation.py:340 | flattening puts value k of row i at position i*width + k |
| Instances.AddDefaultInstance | geometry/geometry_creation.py:328-342 | adding the default instance to an entity storing one instance gives 32 values: the old 16, then the four default rows |

## Left out

- Server calls (creating, updating and deleting components), entity wiring (`build_entity`, `update_entity`), the buffer views and `geometry_from_mesh`: they only pass values to the server. The model takes the buffer bytes and descriptors as values.
- meshio reading and writing, and `get_mesh_attr`: file I/O. `export_mesh` is modelled up to the points, index groups and per-semantic lists it hands to meshio.
- Conversion of float values to and from single-precision bytes, and of normalized texture and color values: an attribute value is an opaque block of its format's size.
- `build_instance_buffer`: it encodes floats. Stored instance values are modelled as reals.
- The `print` calls: they have no effect on the result.
- The two branches of `build_geometry_buffer` on `size > 1000` do the same thing and are modelled as one path.
- Encoder.BuildGeometryBuffer: index values that do not fit the index word make numpy raise. This is a precondition (`IndicesFit`), not a modelled error. Ragged index lists are also excluded by a precondition (`Rectangular`).
- Decoder.Readable: a patch must have at least one attribute. With no attributes and a non-empty vertex section, the source's `while i < len(attribute_bytes)` loop (lines 405-416) never advances `i` and runs forever; the model does not describe a loop that never ends.
- Decoder.Readable: the index format must be U8, U16 or U32. Line 397 accepts any `FORMAT_MAP` key; reading indices as float or vector words is not modelled.
- Encoder.BuildGeometryPatch: the index list must be non-empty. With an empty list, `input.indices[0]` at line 154 raises IndexError; with `None`, `len(None)` raises TypeError. These exceptions are not modelled errors.
- Decoder.ExportMesh: a patch whose vertex section is not whole records, or whose index words run past the buffer, makes numpy fail or misread. This is a precondition (`Readable`), not a modelled error.
- Instances.AddInstances: numpy cannot flatten ragged rows. The model requires rows of equal width (`Uniform`).
- Instances.AddInstances: the `try`/`except` around reading the render representation is not modelled. Reading the attribute does not fail, and the model has no entity objects.
- Encoder.PresentStreams: with an empty vertex list but other streams present, the source misaligns streams and attributes. The layout lemmas require at least one vertex.
- Semantic names and format tags are datatypes, not strings. Unknown tags cannot occur.
- Values that are not Python lists are out of scope; every list is a sequence.

## Findings

| source | as written | input that shows it | evidently intended | confidence | as-written member | corrected member |
|---|---|---|---|---|---|---|
| geometry/geometry_creation.py:24-27 | U8, U16 and U32 map to int8, int16 and int32 (used to write the index words at line 126 and read them at line 397), while `get_format` (lines 43-51) allows vertex counts up to 255 and 65535 for U8 and U16 | a 200-vertex mesh gets U8 indices; index 150 cannot be written as int8, and its byte reads back as -106 | the index tags name unsigned types: a word is read as unsigned, so every index below the vertex count survives | not executed | Formats.SignedIndexTooNarrow | Formats.UnsignedIndexRoundTrip |
