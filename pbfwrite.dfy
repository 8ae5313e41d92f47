/**
  The buffered OpenStreetMap PBF writer of pbf-write.c: elements are collected
  in blocks of 8000 per type, their tag indexes in a shared sub-allocated
  buffer, and each full block is packed, compressed and appended to the
  output as one fileblock. Way refs and relation member ids arrive as lists
  whose last entry is negated, and are stored delta coded.

  The string table of `Dedup` and the decoding of coded tags and roles are
  foreign: tags and roles arrive as string-table indexes, and the table is a
  parameter. `malloc` of a way's refs array is the address `addr` it returns.
 */
module PbfWrite {
  import opened Common
  import opened Osm
  import Delta
  import PbfRead

  /** pbf-write.c:104: elements per block before it is written out. */
  const PBF_BLOCK_SIZE: nat := 8000
  /** pbf-write.c:157: slots of `kv_buff`. */
  const MAX_KEYS_VALS: nat := 1024 * 1024
  /** pbf-write.c:48-49: `blob_buffer` and `zlib_buffer`. */
  const BLOB_BUFFER_SIZE: nat := 16 * 1024 * 1024
  /** pbf-write.c:50: `blob_header_buffer`. */
  const BLOB_HEADER_BUFFER_SIZE: nat := 64 * 1024
  /** pbf-write.c:177: `payload_buffer`. */
  const PAYLOAD_BUFFER_SIZE: nat := 32 * 1024 * 1024
  const NULL: nat := 0

  /** The status `write_one_blob` exits with when compression fails. */
  const COMPRESS_FAILED: int := -1

  /** One decoded tag: the string-table indexes `Dedup_dedup` gave its key and value. */
  datatype Tag = Tag(key: int, val: int)

  /** One relation member: its role already as a string-table index, its element type, and its id. */
  datatype Member = Member(role: int, kind: int, id: int)

  // ---------------------------------------------------------------- the kv sub-allocator

  /**
    `kv_alloc(n)`: the first slot of a chunk of `n` slots of `kv_buff` and the
    new fill level, or no chunk (`NULL`) when the buffer cannot hold it.
   */
  function KvAllocStep(kvN: nat, n: nat): (r: (Option<nat>, nat))
    ensures r.0.None? <==> kvN + n > MAX_KEYS_VALS
    ensures r.0.None? ==> r.1 == kvN
    ensures r.0.Some? ==> r.0.value == kvN && r.0.value + n == r.1 <= MAX_KEYS_VALS
  {
    if kvN + n > MAX_KEYS_VALS then (None, kvN) else (Some(kvN), kvN + n)
  }

  /** Two chunks handed out one after the other lie inside the buffer and do not overlap. */
  lemma KvChunksDisjoint(kvN: nat, n: nat, m: nat)
    requires KvAllocStep(kvN, n).0.Some?
    requires KvAllocStep(KvAllocStep(kvN, n).1, m).0.Some?
    ensures var p := KvAllocStep(kvN, n).0.value;
            var q := KvAllocStep(KvAllocStep(kvN, n).1, m).0.value;
            p + n <= q && q + m <= MAX_KEYS_VALS
  {
  }

  /** The keys of a tag list, in order. */
  function Keys(tags: seq<Tag>): (r: seq<int>)
    ensures |r| == |tags| && forall i :: 0 <= i < |tags| ==> r[i] == tags[i].key
  {
    seq(|tags|, i requires 0 <= i < |tags| => tags[i].key)
  }

  /** The values of a tag list, in order. */
  function Vals(tags: seq<Tag>): (r: seq<int>)
    ensures |r| == |tags| && forall i :: 0 <= i < |tags| ==> r[i] == tags[i].val
  {
    seq(|tags|, i requires 0 <= i < |tags| => tags[i].val)
  }

  /**
    `load_tags`: two chunks of `kv_buff`, one for the keys and one for the
    values. The chunks are not checked for `NULL`, so a tag written to a
    missing chunk is a `Fault`.
   */
  function LoadTagsStep(kvN: nat, tags: seq<Tag>): (r: Status<(seq<int>, seq<int>, nat)>)
    ensures r.Fault? <==> |tags| > 0 && kvN + 2 * |tags| > MAX_KEYS_VALS
    ensures !r.Exit?
    ensures r.Ok? ==> r.value.0 == Keys(tags) && r.value.1 == Vals(tags)
    ensures r.Ok? && kvN + 2 * |tags| <= MAX_KEYS_VALS ==> r.value.2 == kvN + 2 * |tags|
    ensures r.Ok? && kvN + 2 * |tags| > MAX_KEYS_VALS ==> r.value.2 == kvN
  {
    var (k, kv1) := KvAllocStep(kvN, |tags|);
    var (v, kv2) := KvAllocStep(kv1, |tags|);
    if |tags| > 0 && (k.None? || v.None?) then Fault
    else Ok((Keys(tags), Vals(tags), kv2))
  }

  // ---------------------------------------------------------------- sentinel-ended id lists

  /**
    The length of an id list whose last entry is negated: the entries up to
    and including the first negative one, or `None` when no entry is negative
    and counting would read past the end of the list.
   */
  function SentinelLength(xs: seq<int>): (r: Option<nat>)
    ensures r.Some? ==> 1 <= r.value <= |xs| && xs[r.value - 1] < 0
    ensures r.Some? ==> forall i :: 0 <= i < r.value - 1 ==> xs[i] >= 0
    ensures r.None? <==> forall i :: 0 <= i < |xs| ==> xs[i] >= 0
  {
    if xs == [] then None
    else if xs[0] < 0 then Some(1)
    else match SentinelLength(xs[1..])
      case None => None
      case Some(n) => Some(n + 1)
  }

  function Abs(x: int): nat
  {
    if x < 0 then -x else x
  }

  /** The list with the sign of every entry dropped. */
  function Magnitudes(xs: seq<int>): (r: seq<int>)
    ensures |r| == |xs| && forall i :: 0 <= i < |xs| ==> r[i] == Abs(xs[i])
  {
    seq(|xs|, i requires 0 <= i < |xs| => Abs(xs[i]))
  }

  /** What `pbf_write_way` and `pbf_write_relation` store for a sentinel-ended id list: the ids delta coded from 0. */
  function DeltaCoded(ids: seq<int>): (r: Status<seq<int>>)
    ensures r.Fault? <==> SentinelLength(ids).None?
    ensures !r.Exit?
    ensures r.Ok? ==> |r.value| == SentinelLength(ids).value
  {
    match SentinelLength(ids)
      case None => Fault
      case Some(n) => Ok(Delta.Deltas(Magnitudes(ids[..n]), 0))
  }

  /**
    A reader that sums the stored deltas gets the ids back: the list up to
    its last entry as given, and the last entry with its sign dropped.
   */
  lemma DeltaCodedDecodes(ids: seq<int>)
    requires SentinelLength(ids).Some?
    ensures var n := SentinelLength(ids).value;
            var back := Delta.RunningSums(DeltaCoded(ids).value, 0);
            |back| == n && back[n - 1] == -ids[n - 1]
            && forall i :: 0 <= i < n - 1 ==> back[i] == ids[i]
  {
    var n := SentinelLength(ids).value;
    Delta.RunningSumsOfDeltas(Magnitudes(ids[..n]), 0);
  }

  /** The ids of a member list, in order. */
  function MemberIds(ms: seq<Member>): (r: seq<int>)
    ensures |r| == |ms| && forall i :: 0 <= i < |ms| ==> r[i] == ms[i].id
  {
    seq(|ms|, i requires 0 <= i < |ms| => ms[i].id)
  }

  function Roles(ms: seq<Member>): (r: seq<int>)
    ensures |r| == |ms| && forall i :: 0 <= i < |ms| ==> r[i] == ms[i].role
  {
    seq(|ms|, i requires 0 <= i < |ms| => ms[i].role)
  }

  function Kinds(ms: seq<Member>): (r: seq<int>)
    ensures |r| == |ms| && forall i :: 0 <= i < |ms| ==> r[i] == ms[i].kind
  {
    seq(|ms|, i requires 0 <= i < |ms| => ms[i].kind)
  }

  // ---------------------------------------------------------------- blobs

  /** The header block `write_pbf_header_blob` writes. */
  const VexHeader: HeaderBlock := HeaderBlock(["OsmSchema-V0.6", "DenseNodes"], "VEX")

  /** The blob `write_one_blob` makes: the compressed payload and its uncompressed size, no raw bytes. */
  function CompressedBlob(payload: bytes, z: bytes): Blob
  {
    Blob(None, Some(|payload|), Some(z))
  }

  /**
    `write_one_blob`: the fileblock appended to the output. A compression
    that fails or does not fit `zlib_buffer` exits with -1; a packed blob or
    header larger than its static buffer overruns it.
   */
  function OneBlob(payload: bytes, kind: string, c: Codec): (r: Status<bytes>)
    ensures r.Exit? <==> c.compress(payload).None? || |c.compress(payload).value| > BLOB_BUFFER_SIZE
    ensures r.Exit? ==> r.code == COMPRESS_FAILED
    ensures r.Ok? ==> |r.value| >= 4
  {
    match c.compress(payload)
      case None => Exit(COMPRESS_FAILED)
      case Some(z) =>
        if |z| > BLOB_BUFFER_SIZE then Exit(COMPRESS_FAILED)
        else
          var bb := c.packBlob(CompressedBlob(payload, z));
          if |bb| > BLOB_BUFFER_SIZE then Fault
          else
            var hb := c.packBlobHeader(BlobHeader(kind, |bb|));
            if |hb| > BLOB_HEADER_BUFFER_SIZE then Fault
            else Ok(Fileblock(hb, bb))
  }

  /**
    The reader takes back what `write_one_blob` appended: a fileblock of the
    given type whose blob inflates to the payload, with the next fileblock
    right after it.
   */
  lemma OneBlobReadsBack(prefix: bytes, payload: bytes, kind: string, c: Codec, rest: bytes)
    requires Inverse(c)
    requires OneBlob(payload, kind, c).Ok?
    requires |payload| <= PAYLOAD_BUFFER_SIZE
    ensures var fb := OneBlob(payload, kind, c).value;
            var f := ReadFrameChecked(prefix + fb + rest, |prefix|, c);
            && f.Ok? && f.value.header.kind == kind && f.value.next == |prefix| + |fb|
            && PbfRead.Payload(f.value.blob.value, c) == Ok(payload)
  {
    var z := c.compress(payload).value;
    var b := CompressedBlob(payload, z);
    var h := BlobHeader(kind, |c.packBlob(b)|);
    ReadFrameOfFileblock(prefix, h, b, rest, c);
  }

  /** `write_pbf_header_blob`: the fileblock holding the header block. */
  function HeaderBlob(c: Codec): (r: Status<bytes>)
    ensures r.Exit? ==> r.code == COMPRESS_FAILED
  {
    var payload := c.packHeaderBlock(VexHeader);
    if |payload| > PAYLOAD_BUFFER_SIZE then Fault else OneBlob(payload, "OSMHeader", c)
  }

  // ---------------------------------------------------------------- the writer's state

  /**
    The static state of pbf-write.c: the buffered elements of each block
    (their counts are the lengths), the `refs` pointer left in every slot of
    `way_block`, the refs arrays allocated and not yet freed, the fill level
    `kv_n` of `kv_buff`, and the bytes written to the output file.
   */
  datatype WriterState = WriterState(nodes: seq<Node>, ways: seq<Way>, rels: seq<Relation>,
                                     wayBuf: seq<nat>, live: set<nat>, kvN: nat, out: bytes)

  /** Static storage starts zeroed. */
  const Zeroed: WriterState := WriterState([], [], [], seq(PBF_BLOCK_SIZE, _ => NULL), {}, 0, [])

  /** The first `k` slots hold pairwise different pointers. */
  predicate Distinct(bufs: seq<nat>, k: nat)
    requires k <= |bufs|
  {
    forall v, w :: 0 <= v < w < k ==> bufs[v] != bufs[w]
  }

  /** The refs arrays of the first `k` slots. */
  function Held(bufs: seq<nat>, k: nat): set<nat>
    requires k <= |bufs|
  {
    set w | 0 <= w < k :: bufs[w]
  }

  /**
    Between calls: every block has room for one more element, and the slot
    of every buffered way holds its own allocated refs array.
   */
  predicate Wf(s: WriterState)
  {
    && |s.nodes| < PBF_BLOCK_SIZE && |s.ways| < PBF_BLOCK_SIZE && |s.rels| < PBF_BLOCK_SIZE
    && |s.wayBuf| == PBF_BLOCK_SIZE
    && NULL !in s.live
    && (forall w :: 0 <= w < |s.ways| ==> s.wayBuf[w] in s.live)
    && Distinct(s.wayBuf, |s.ways|)
  }

  lemma ZeroedWf()
    ensures Wf(Zeroed)
  {
  }

  /** `free(p)`: nothing for `NULL`, a release for an allocated array, and a `Fault` for anything else. */
  function FreeOne(live: set<nat>, p: nat): (r: Status<set<nat>>)
    ensures p == NULL ==> r == Ok(live)
    ensures r.Ok? && p != NULL ==> r.value == live - {p}
    ensures r.Fault? <==> p != NULL && p !in live
    ensures !r.Exit?
  {
    if p == NULL then Ok(live) else if p in live then Ok(live - {p}) else Fault
  }

  /** Freeing the refs arrays of slots `0 .. n-1`, in order. */
  function FreeRefs(live: set<nat>, bufs: seq<nat>, n: nat): (r: Status<set<nat>>)
    requires n <= |bufs|
    ensures r.Ok? ==> r.value <= live
    ensures !r.Exit?
  {
    if n == 0 then Ok(live)
    else match FreeRefs(live, bufs, n - 1)
      case Ok(l) => FreeOne(l, bufs[n - 1])
      case _ => Fault
  }

  /** Freeing the distinct allocated arrays of the first `n` slots releases exactly those arrays. */
  lemma {:induction false} FreeRefsReleasesHeld(live: set<nat>, bufs: seq<nat>, n: nat)
    requires n <= |bufs|
    requires NULL !in live
    requires forall w :: 0 <= w < n ==> bufs[w] in live
    requires Distinct(bufs, n)
    ensures FreeRefs(live, bufs, n) == Ok(live - Held(bufs, n))
  {
    if n > 0 {
      var b := bufs[n - 1];
      FreeRefsReleasesHeld(live, bufs, n - 1);
      assert Held(bufs, n) == Held(bufs, n - 1) + {b};
      assert b !in Held(bufs, n - 1) by {
        forall w | 0 <= w < n - 1
          ensures bufs[w] != b
        {
          assert w < n - 1;
        }
      }
      assert b in live - Held(bufs, n - 1) && b != NULL;
      assert FreeRefs(live, bufs, n) == FreeOne(live - Held(bufs, n - 1), b);
      assert live - Held(bufs, n - 1) - {b} == live - Held(bufs, n);
    } else {
      assert Held(bufs, n) == {};
      assert live - {} == live;
    }
  }

  /** `write_pbf_data_blob` packs one block with one group, holding the element types asked for. */
  function DataBlock(s: WriterState, nodes: bool, ways: bool, rels: bool, table: seq<bytes>): (b: PrimitiveBlock)
    ensures b.stringTable == table && b.granularity.None? && b.latOffset.None? && b.lonOffset.None?
    ensures |b.groups| == 1 && b.groups[0].dense.None?
    ensures b.groups[0].nodes == (if nodes then s.nodes else [])
    ensures b.groups[0].ways == (if ways then s.ways else [])
    ensures b.groups[0].relations == (if rels then s.rels else [])
  {
    PrimitiveBlock(table, None, None, None,
      [PrimitiveGroup(if nodes && |s.nodes| > 0 then s.nodes else [], None,
                      if ways && |s.ways| > 0 then s.ways else [],
                      if rels && |s.rels| > 0 then s.rels else [])])
  }

  /**
    A block holding one element type is accepted by the reader as that
    type; a block holding two is refused, so a writer must flush between
    element types.
   */
  lemma DataBlockElementType(s: WriterState, nodes: bool, ways: bool, rels: bool, table: seq<bytes>)
    ensures var g := DataBlock(s, nodes, ways, rels, table).groups[0];
            var n, w, r := nodes && |s.nodes| > 0, ways && |s.ways| > 0, rels && |s.rels| > 0;
            && (n && !w && !r ==> PbfRead.DetectElementType(g) == Ok(NODE))
            && (!n && w && !r ==> PbfRead.DetectElementType(g) == Ok(WAY))
            && (!n && !w && r ==> PbfRead.DetectElementType(g) == Ok(RELATION))
            && ((n && w) || (n && r) || (w && r) ==> PbfRead.DetectElementType(g) == Exit(EXIT_FAILURE))
  {
  }

  /** The state after the fileblock is written and the blocks asked for are reset. */
  function ResetBlocks(s: WriterState, fb: bytes, nodes: bool, ways: bool, rels: bool, fixed: bool)
    : (r: Status<WriterState>)
    requires |s.nodes| <= |s.wayBuf| && |s.ways| <= |s.wayBuf|
  {
    var s1 := s.(out := s.out + fb, nodes := if nodes then [] else s.nodes);
    var s2 :=
      if !ways then Ok(s1)
      else match FreeRefs(s1.live, s1.wayBuf, if fixed then |s1.ways| else |s1.nodes|)
        case Ok(l) => Ok(s1.(live := l, ways := []))
        case _ => Fault;
    match s2
      case Ok(s3) => Ok(s3.(rels := if rels then [] else s3.rels, kvN := 0))
      case _ => Fault
  }

  /**
    `write_pbf_data_blob` as written: the block is appended, the blocks asked
    for are emptied, and `kv_buff` is emptied whatever was asked for.
    `reset_way_block` frees the refs arrays of the first `node_block_count`
    slots, counted after the node block may have been reset.
   */
  function DataBlobStep(s: WriterState, nodes: bool, ways: bool, rels: bool, table: seq<bytes>, c: Codec)
    : (r: Status<WriterState>)
    requires |s.nodes| <= |s.wayBuf| && |s.ways| <= |s.wayBuf|
    ensures r.Exit? ==> r.code == COMPRESS_FAILED
    ensures r.Ok? ==> |r.value.out| >= |s.out| + 4 && r.value.out[..|s.out|] == s.out
    ensures r.Ok? ==> r.value.kvN == 0 && r.value.live <= s.live && r.value.wayBuf == s.wayBuf
    ensures r.Ok? ==> r.value.nodes == (if nodes then [] else s.nodes)
    ensures r.Ok? ==> r.value.ways == (if ways then [] else s.ways)
    ensures r.Ok? ==> r.value.rels == (if rels then [] else s.rels)
  {
    var payload := c.packPrimitiveBlock(DataBlock(s, nodes, ways, rels, table));
    if |payload| > PAYLOAD_BUFFER_SIZE then Fault
    else match OneBlob(payload, "OSMData", c)
      case Exit(code) => Exit(code)
      case Fault => Fault
      case Ok(fb) => ResetBlocks(s, fb, nodes, ways, rels, false)
  }

  /** `write_pbf_data_blob` with `reset_way_block` freeing the first `way_block_count` slots, as evidently intended. */
  function DataBlobStepFixed(s: WriterState, nodes: bool, ways: bool, rels: bool, table: seq<bytes>, c: Codec)
    : (r: Status<WriterState>)
    requires |s.nodes| <= |s.wayBuf| && |s.ways| <= |s.wayBuf|
  {
    var payload := c.packPrimitiveBlock(DataBlock(s, nodes, ways, rels, table));
    if |payload| > PAYLOAD_BUFFER_SIZE then Fault
    else match OneBlob(payload, "OSMData", c)
      case Exit(code) => Exit(code)
      case Fault => Fault
      case Ok(fb) => ResetBlocks(s, fb, nodes, ways, rels, true)
  }

  /**
    The reader takes back the block a data blob appended: the fileblock is
    of type OSMData and its payload unpacks to the packed block.
   */
  lemma DataBlobReadsBack(s: WriterState, nodes: bool, ways: bool, rels: bool, table: seq<bytes>, c: Codec, rest: bytes)
    requires |s.nodes| <= |s.wayBuf| && |s.ways| <= |s.wayBuf|
    requires Inverse(c)
    requires DataBlobStep(s, nodes, ways, rels, table, c).Ok?
    ensures var out := DataBlobStep(s, nodes, ways, rels, table, c).value.out;
            var f := ReadFrameChecked(out + rest, |s.out|, c);
            && f.Ok? && f.value.header.kind == "OSMData" && f.value.next == |out|
            && PbfRead.Payload(f.value.blob.value, c).Ok?
            && c.unpackPrimitiveBlock(PbfRead.Payload(f.value.blob.value, c).value)
               == Some(DataBlock(s, nodes, ways, rels, table))
  {
    var payload := c.packPrimitiveBlock(DataBlock(s, nodes, ways, rels, table));
    var fb := OneBlob(payload, "OSMData", c).value;
    OneBlobReadsBack(s.out, payload, "OSMData", c, rest);
    assert DataBlobStep(s, nodes, ways, rels, table, c).value.out == s.out + fb;
  }

  /**
    With the intended bound, writing a way block releases exactly the refs
    arrays of the ways it held.
   */
  lemma FixedWayBlobFreesRefs(s: WriterState, table: seq<bytes>, c: Codec)
    requires |s.nodes| <= |s.wayBuf| && |s.ways| <= |s.wayBuf|
    requires NULL !in s.live
    requires forall w :: 0 <= w < |s.ways| ==> s.wayBuf[w] in s.live
    requires Distinct(s.wayBuf, |s.ways|)
    requires DataBlobStepFixed(s, false, true, false, table, c).Ok?
    ensures DataBlobStepFixed(s, false, true, false, table, c).value.live == s.live - Held(s.wayBuf, |s.ways|)
    ensures forall w :: 0 <= w < |s.ways| ==> s.wayBuf[w] !in DataBlobStepFixed(s, false, true, false, table, c).value.live
  {
    FreeRefsReleasesHeld(s.live, s.wayBuf, |s.ways|);
    assert forall w :: 0 <= w < |s.ways| ==> s.wayBuf[w] in Held(s.wayBuf, |s.ways|);
  }

  // ---------------------------------------------------------------- public operations

  /** `pbf_write_begin`: the node and way counts restart (the relation count does not) and the header blob is the first fileblock. */
  function BeginStep(s: WriterState, c: Codec): (r: Status<WriterState>)
    ensures r.Ok? ==> HeaderBlob(c).Ok? && r.value == s.(nodes := [], ways := [], out := HeaderBlob(c).value)
    ensures !r.Ok? ==> r == match HeaderBlob(c) case Exit(code) => Exit(code) case _ => Fault
  {
    match HeaderBlob(c)
      case Ok(fb) => Ok(s.(nodes := [], ways := [], out := fb))
      case Exit(code) => Exit(code)
      case Fault => Fault
  }

  /** The file begun holds the header block as its first fileblock, typed OSMHeader as the reader demands of block 0. */
  lemma BeginWritesHeader(s: WriterState, c: Codec, rest: bytes)
    requires Inverse(c)
    requires BeginStep(s, c).Ok?
    ensures var out := BeginStep(s, c).value.out;
            var f := ReadFrameChecked(out + rest, 0, c);
            && f.Ok? && f.value.header.kind == "OSMHeader" && f.value.next == |out|
            && PbfRead.Payload(f.value.blob.value, c).Ok?
            && c.unpackHeaderBlock(PbfRead.Payload(f.value.blob.value, c).value) == Some(VexHeader)
  {
    var payload := c.packHeaderBlock(VexHeader);
    var fb := OneBlob(payload, "OSMHeader", c).value;
    assert BeginStep(s, c).value.out == fb;
    OneBlobReadsBack([], payload, "OSMHeader", c, rest);
    assert [] + fb + rest == fb + rest;
  }

  /** `pbf_write_flush`: a data blob with every type, only when some block holds an element. */
  function FlushStep(s: WriterState, table: seq<bytes>, c: Codec): (r: Status<WriterState>)
    requires Wf(s)
    ensures s.nodes == [] && s.ways == [] && s.rels == [] ==> r == Ok(s)
    ensures (s.nodes != [] || s.ways != [] || s.rels != []) && r.Ok? ==>
              r.value.nodes == [] && r.value.ways == [] && r.value.rels == [] && |r.value.out| > |s.out|
    ensures r.Ok? ==> Wf(r.value)
  {
    if |s.nodes| > 0 || |s.ways| > 0 || |s.rels| > 0 then DataBlobStep(s, true, true, true, table, c)
    else Ok(s)
  }

  /** The way `pbf_write_way` buffers, when its refs and tags can be stored. */
  function CodedWay(id: int, refs: seq<int>, tags: seq<Tag>): (r: Status<Way>)
    ensures r.Fault? <==> SentinelLength(refs).None?
    ensures r.Ok? ==> r.value == Way(id, Keys(tags), Vals(tags), DeltaCoded(refs).value)
  {
    match DeltaCoded(refs)
      case Ok(ds) => Ok(Way(id, Keys(tags), Vals(tags), ds))
      case _ => Fault
  }

  /**
    `pbf_write_way`, where `addr` is the refs array `malloc` returned: the way
    is buffered, and the 8000th way of a block writes the block out.
   */
  function WayStep(s: WriterState, id: int, refs: seq<int>, tags: seq<Tag>, addr: nat, table: seq<bytes>, c: Codec)
    : (r: Status<WriterState>)
    requires Wf(s) && addr != NULL && addr !in s.live
    ensures SentinelLength(refs).None? ==> r == Fault
    ensures r.Exit? ==> r.code == COMPRESS_FAILED
    ensures r.Ok? ==> Wf(r.value)
    ensures r.Ok? && |s.ways| + 1 < PBF_BLOCK_SIZE ==>
              r.value.ways == s.ways + [CodedWay(id, refs, tags).value] && r.value.out == s.out
              && r.value.nodes == s.nodes && r.value.rels == s.rels && addr in r.value.live
    ensures r.Ok? && |s.ways| + 1 == PBF_BLOCK_SIZE ==>
              r.value.ways == [] && |r.value.out| > |s.out| && r.value.kvN == 0
              && r.value.nodes == s.nodes && r.value.rels == s.rels
  {
    match CodedWay(id, refs, tags)
      case Ok(way) =>
        (match LoadTagsStep(s.kvN, tags)
          case Ok((_, _, kv)) =>
            var s1 := s.(ways := s.ways + [way], wayBuf := s.wayBuf[|s.ways| := addr],
                         live := s.live + {addr}, kvN := kv);
            if |s1.ways| == PBF_BLOCK_SIZE then DataBlobStep(s1, false, true, false, table, c)
            else Ok(s1)
          case _ => Fault)
      case _ => Fault
  }

  /**
    As written, a way block written while the node block is empty (as it is
    when nodes are flushed before ways) frees no refs array: every array of
    the block, and the one just allocated, stays allocated.
   */
  lemma WayBlobLeaksRefs(s: WriterState, id: int, refs: seq<int>, tags: seq<Tag>, addr: nat, table: seq<bytes>, c: Codec)
    requires Wf(s) && addr != NULL && addr !in s.live
    requires s.nodes == [] && |s.ways| == PBF_BLOCK_SIZE - 1
    requires WayStep(s, id, refs, tags, addr, table, c).Ok?
    ensures var t := WayStep(s, id, refs, tags, addr, table, c).value;
            t.ways == [] && addr in t.live && forall w :: 0 <= w < |s.ways| ==> s.wayBuf[w] in t.live
  {
  }

  /** `pbf_write_node`, with `lat` and `lon` already in units of 100 nanodegrees. */
  function NodeStep(s: WriterState, id: int, lat: int, lon: int, tags: seq<Tag>, table: seq<bytes>, c: Codec)
    : (r: Status<WriterState>)
    requires Wf(s)
    ensures |tags| > 0 && s.kvN + 2 * |tags| > MAX_KEYS_VALS ==> r == Fault
    ensures r.Exit? ==> r.code == COMPRESS_FAILED
    ensures r.Ok? ==> Wf(r.value)
    ensures r.Ok? && |s.nodes| + 1 < PBF_BLOCK_SIZE ==>
              r.value.nodes == s.nodes + [Node(id, lat, lon, Keys(tags), Vals(tags))] && r.value.out == s.out
              && r.value.ways == s.ways && r.value.rels == s.rels
    ensures r.Ok? && |s.nodes| + 1 == PBF_BLOCK_SIZE ==>
              r.value.nodes == [] && |r.value.out| > |s.out| && r.value.kvN == 0
              && r.value.ways == s.ways && r.value.rels == s.rels
  {
    match LoadTagsStep(s.kvN, tags)
      case Ok((keys, vals, kv)) =>
        var s1 := s.(nodes := s.nodes + [Node(id, lat, lon, keys, vals)], kvN := kv);
        if |s1.nodes| == PBF_BLOCK_SIZE then DataBlobStep(s1, true, false, false, table, c)
        else Ok(s1)
      case _ => Fault
  }

  /** The relation `pbf_write_relation` buffers: the members up to the negated one, ids delta coded, roles and types in order. */
  function CodedRelation(id: int, ms: seq<Member>, tags: seq<Tag>): (r: Status<Relation>)
    ensures r.Fault? <==> SentinelLength(MemberIds(ms)).None?
    ensures !r.Exit?
    ensures r.Ok? ==> var n := SentinelLength(MemberIds(ms)).value;
              && r.value.id == id && r.value.keys == Keys(tags) && r.value.vals == Vals(tags)
              && r.value.rolesSid == Roles(ms[..n]) && r.value.types == Kinds(ms[..n])
              && r.value.memids == DeltaCoded(MemberIds(ms)).value
  {
    match DeltaCoded(MemberIds(ms))
      case Ok(ds) =>
        var n := |ds|;
        Ok(Relation(id, Keys(tags), Vals(tags), Roles(ms[..n]), ds, Kinds(ms[..n])))
      case _ => Fault
  }

  /** `pbf_write_relation`: the relation is buffered, and the 8000th relation of a block writes the block out. */
  function RelationStep(s: WriterState, id: int, ms: seq<Member>, tags: seq<Tag>, table: seq<bytes>, c: Codec)
    : (r: Status<WriterState>)
    requires Wf(s)
    ensures SentinelLength(MemberIds(ms)).None? ==> r == Fault
    ensures r.Exit? ==> r.code == COMPRESS_FAILED
    ensures r.Ok? ==> Wf(r.value)
    ensures r.Ok? && |s.rels| + 1 < PBF_BLOCK_SIZE ==>
              r.value.rels == s.rels + [CodedRelation(id, ms, tags).value] && r.value.out == s.out
              && r.value.nodes == s.nodes && r.value.ways == s.ways
    ensures r.Ok? && |s.rels| + 1 == PBF_BLOCK_SIZE ==>
              r.value.rels == [] && |r.value.out| > |s.out| && r.value.kvN == 0
              && r.value.nodes == s.nodes && r.value.ways == s.ways
  {
    match CodedRelation(id, ms, tags)
      case Ok(rel) =>
        (match LoadTagsStep(s.kvN, tags)
          case Ok((_, _, kv)) =>
            var s1 := s.(rels := s.rels + [rel], kvN := kv);
            if |s1.rels| == PBF_BLOCK_SIZE then DataBlobStep(s1, false, false, true, table, c)
            else Ok(s1)
          case _ => Fault)
      case _ => Fault
  }

  /** Freeing stops at the first bad pointer: once a prefix of the slots faults, every longer one does. */
  lemma {:induction false} FreeRefsFaultStays(live: set<nat>, bufs: seq<nat>, k: nat, n: nat)
    requires k <= n <= |bufs|
    requires FreeRefs(live, bufs, k).Fault?
    ensures FreeRefs(live, bufs, n).Fault?
    decreases n
  {
    if n > k {
      FreeRefsFaultStays(live, bufs, k, n - 1);
    }
  }

  /** The first `i` ids of a list, coded. */
  function CodedPrefix(ids: seq<int>, i: nat): seq<int>
    requires i <= |ids|
  {
    Delta.Deltas(Magnitudes(ids[..i]), 0)
  }

  /** The roles and kinds of the first `i` members have been copied. */
  predicate CopiedUpTo(ms: seq<Member>, roles: seq<int>, kinds: seq<int>, i: nat)
  {
    i <= |ms| && |roles| == |kinds| == i &&
    forall j :: 0 <= j < i ==> roles[j] == ms[j].role && kinds[j] == ms[j].kind
  }

  lemma CopiedOneMore(ms: seq<Member>, roles: seq<int>, kinds: seq<int>, i: nat)
    requires CopiedUpTo(ms, roles, kinds, i) && i < |ms|
    ensures CopiedUpTo(ms, roles + [ms[i].role], kinds + [ms[i].kind], i + 1)
  {
  }

  lemma CopiedAll(ms: seq<Member>, roles: seq<int>, kinds: seq<int>, n: nat)
    requires CopiedUpTo(ms, roles, kinds, n)
    ensures roles == Roles(ms[..n]) && kinds == Kinds(ms[..n])
  {
  }

  /** Coding one more id appends its difference from the previous one. */
  lemma CodedPrefixSnoc(ids: seq<int>, i: nat)
    requires i < |ids|
    ensures CodedPrefix(ids, i + 1) == CodedPrefix(ids, i) + [Abs(ids[i]) - (if i == 0 then 0 else Abs(ids[i - 1]))]
  {
    assert Magnitudes(ids[..i + 1]) == Magnitudes(ids[..i]) + [Abs(ids[i])];
    Delta.DeltasSnoc(Magnitudes(ids[..i]), Abs(ids[i]), 0);
  }

  /** How a step ends, without the state it leaves. */
  function Outcome<T>(r: Status<T>): Status<()>
  {
    match r
      case Ok(_) => Ok(())
      case Exit(code) => Exit(code)
      case Fault => Fault
  }

  /** The static state of pbf-write.c, updated in place by its functions. */
  class Writer {
    /** protobuf-c and zlib. */
    const codec: Codec
    var nodes: seq<Node>
    var ways: seq<Way>
    var rels: seq<Relation>
    var wayBuf: seq<nat>
    /** The refs arrays the heap holds as allocated. */
    var live: set<nat>
    var kvN: nat
    var out: bytes

    ghost function State(): WriterState
      reads this
    {
      WriterState(nodes, ways, rels, wayBuf, live, kvN, out)
    }

    ghost predicate Valid()
      reads this
    {
      Wf(State())
    }

    /** Zeroed static storage. */
    constructor (codec: Codec)
      ensures State() == Zeroed && this.codec == codec && Valid()
    {
      this.codec := codec;
      nodes, ways, rels := [], [], [];
      wayBuf := seq(PBF_BLOCK_SIZE, _ => NULL);
      live, kvN, out := {}, 0, [];
    }

    /** `kv_alloc`. */
    method KvAlloc(n: nat) returns (p: Option<nat>)
      modifies this`kvN
      ensures (p, kvN) == KvAllocStep(old(kvN), n)
    {
      if kvN + n > MAX_KEYS_VALS {
        return None;
      }
      p := Some(kvN);
      kvN := kvN + n;
    }

    /** `kv_free_all`. */
    method KvFreeAll()
      modifies this`kvN
      ensures kvN == 0
    {
      kvN := 0;
    }

    /** `load_tags`: the keys and values copied into two chunks of `kv_buff`. */
    method LoadTags(tags: seq<Tag>) returns (st: Status<(seq<int>, seq<int>)>)
      modifies this`kvN
      ensures var r := LoadTagsStep(old(kvN), tags);
              if r.Ok? then st == Ok((r.value.0, r.value.1)) && kvN == r.value.2 else st == Fault
    {
      var k := KvAlloc(|tags|);
      var v := KvAlloc(|tags|);
      var keys, vals := [], [];
      var i := 0;
      while i < |tags|
        invariant 0 <= i <= |tags|
        invariant i > 0 ==> k.Some? && v.Some?
        invariant |keys| == |vals| == i
        invariant forall j :: 0 <= j < i ==> keys[j] == tags[j].key && vals[j] == tags[j].val
      {
        if k.None? || v.None? {
          return Fault;
        }
        keys, vals := keys + [tags[i].key], vals + [tags[i].val];
        i := i + 1;
      }
      assert keys == Keys(tags) && vals == Vals(tags);
      st := Ok((keys, vals));
    }

    /** The counting loop of `pbf_write_way` and `pbf_write_relation`: up to and including the first negative id. */
    static method CountToSentinel(xs: seq<int>) returns (n: Option<nat>)
      ensures n == SentinelLength(xs)
    {
      var k := 1;
      while true
        invariant 1 <= k <= |xs| + 1
        invariant forall i :: 0 <= i < k - 1 ==> xs[i] >= 0
        decreases |xs| + 1 - k
      {
        if k - 1 >= |xs| {
          return None;
        }
        if xs[k - 1] < 0 {
          return Some(k);
        }
        k := k + 1;
      }
    }

    /** The delta-coding loop of `pbf_write_way` over the first `n` refs. */
    static method DeltaCode(ids: seq<int>, n: nat) returns (ds: seq<int>)
      requires SentinelLength(ids) == Some(n)
      ensures DeltaCoded(ids) == Ok(ds)
    {
      ds := [];
      var prev := 0;
      for i := 0 to n
        invariant ds == CodedPrefix(ids, i)
        invariant prev == if i == 0 then 0 else Abs(ids[i - 1])
      {
        var x := ids[i];
        if x < 0 {
          x := -x;
        }
        CodedPrefixSnoc(ids, i);
        ds := ds + [x - prev];
        prev := x;
      }
    }

    /** The member loop of `pbf_write_relation`: ids delta coded, roles and types copied, for the first `n` members. */
    static method CopyMembers(ms: seq<Member>, n: nat) returns (memids: seq<int>, roles: seq<int>, kinds: seq<int>)
      requires SentinelLength(MemberIds(ms)) == Some(n)
      ensures DeltaCoded(MemberIds(ms)) == Ok(memids)
      ensures roles == Roles(ms[..n]) && kinds == Kinds(ms[..n])
    {
      ghost var ids := MemberIds(ms);
      memids, roles, kinds := [], [], [];
      var last := 0;
      for i := 0 to n
        invariant memids == CodedPrefix(ids, i)
        invariant last == if i == 0 then 0 else Abs(ids[i - 1])
        invariant CopiedUpTo(ms, roles, kinds, i)
      {
        var id := ms[i].id;
        assert id == ids[i];
        if id < 0 {
          id := -id;
        }
        CodedPrefixSnoc(ids, i);
        memids := memids + [id - last];
        last := id;
        CopiedOneMore(ms, roles, kinds, i);
        roles := roles + [ms[i].role];
        kinds := kinds + [ms[i].kind];
      }
      CopiedAll(ms, roles, kinds, n);
    }

    /** `write_one_blob`: compress, pack the blob and its header, and write the three parts. */
    method WriteOneBlob(payload: bytes, kind: string) returns (st: Status<()>)
      modifies this`out
      ensures var r := OneBlob(payload, kind, codec);
              st == Outcome(r) && (if r.Ok? then out == old(out) + r.value else out == old(out))
    {
      var z := codec.compress(payload);
      if z.None? || |z.value| > BLOB_BUFFER_SIZE {
        return Exit(COMPRESS_FAILED);
      }
      var bb := codec.packBlob(CompressedBlob(payload, z.value));
      if |bb| > BLOB_BUFFER_SIZE {
        return Fault;
      }
      var hb := codec.packBlobHeader(BlobHeader(kind, |bb|));
      if |hb| > BLOB_HEADER_BUFFER_SIZE {
        return Fault;
      }
      out := out + BigEndian32(|hb|);
      out := out + hb;
      out := out + bb;
      assert out == old(out) + Fileblock(hb, bb);
      st := Ok(());
    }

    /** `write_pbf_header_blob`. */
    method WriteHeaderBlob() returns (st: Status<()>)
      modifies this`out
      ensures var r := HeaderBlob(codec);
              st == Outcome(r) && (if r.Ok? then out == old(out) + r.value else out == old(out))
    {
      var payload := codec.packHeaderBlock(VexHeader);
      if |payload| > PAYLOAD_BUFFER_SIZE {
        return Fault;
      }
      st := WriteOneBlob(payload, "OSMHeader");
    }

    /** `reset_way_block` as written: frees the refs arrays of the first `node_block_count` slots. */
    method ResetWayBlock() returns (st: Status<()>)
      requires |nodes| <= |wayBuf|
      modifies this`live, this`ways
      ensures var r := FreeRefs(old(live), wayBuf, |nodes|);
              st == Outcome(r) && (r.Ok? ==> live == r.value && ways == [])
    {
      for w := 0 to |nodes|
        invariant FreeRefs(old(live), wayBuf, w) == Ok(live)
      {
        var p := wayBuf[w];
        if p != NULL {
          if p !in live {
            FreeRefsFaultStays(old(live), wayBuf, w + 1, |nodes|);
            return Fault;
          }
          live := live - {p};
        }
      }
      ways := [];
      st := Ok(());
    }

    /** `write_pbf_data_blob`. */
    method WriteDataBlob(withNodes: bool, withWays: bool, withRels: bool, table: seq<bytes>) returns (st: Status<()>)
      requires |nodes| <= |wayBuf| && |ways| <= |wayBuf|
      modifies this
      ensures var r := DataBlobStep(old(State()), withNodes, withWays, withRels, table, codec);
              st == Outcome(r) && (r.Ok? ==> State() == r.value)
    {
      ghost var s := State();
      var group := PrimitiveGroup(if withNodes && |nodes| > 0 then nodes else [], None,
                                  if withWays && |ways| > 0 then ways else [],
                                  if withRels && |rels| > 0 then rels else []);
      var block := PrimitiveBlock(table, None, None, None, [group]);
      assert block == DataBlock(s, withNodes, withWays, withRels, table);
      var payload := codec.packPrimitiveBlock(block);
      if |payload| > PAYLOAD_BUFFER_SIZE {
        return Fault;
      }
      st := WriteOneBlob(payload, "OSMData");
      if !st.Ok? {
        return;
      }
      st := ResetAfterBlob(s, OneBlob(payload, "OSMData", codec).value, withNodes, withWays, withRels);
    }

    /** The resets that end `write_pbf_data_blob`, once the fileblock `fb` is written. */
    method ResetAfterBlob(ghost s: WriterState, ghost fb: bytes, withNodes: bool, withWays: bool, withRels: bool)
      returns (st: Status<()>)
      requires |s.nodes| <= |s.wayBuf| && |s.ways| <= |s.wayBuf|
      requires State() == s.(out := s.out + fb)
      modifies this
      ensures var r := ResetBlocks(s, fb, withNodes, withWays, withRels, false);
              st == Outcome(r) && (r.Ok? ==> State() == r.value)
    {
      if withNodes {
        nodes := [];
      }
      if withWays {
        st := ResetWayBlock();
        if !st.Ok? {
          return;
        }
      }
      if withRels {
        rels := [];
      }
      KvFreeAll();
      st := Ok(());
    }

    /** `pbf_write_begin`: a new output file, whose first fileblock is the header blob. */
    method Begin() returns (st: Status<()>)
      requires Valid()
      modifies this
      ensures var r := BeginStep(old(State()), codec);
              st == Outcome(r) && (r.Ok? ==> State() == r.value)
      ensures Valid()
    {
      out := [];
      nodes, ways := [], [];
      st := WriteHeaderBlob();
      assert HeaderBlob(codec).Ok? ==> [] + HeaderBlob(codec).value == HeaderBlob(codec).value;
    }

    /** `pbf_write_flush`. */
    method Flush(table: seq<bytes>) returns (st: Status<()>)
      requires Valid()
      modifies this
      ensures var r := FlushStep(old(State()), table, codec);
              st == Outcome(r) && (r.Ok? ==> State() == r.value)
    {
      if |nodes| > 0 || |ways| > 0 || |rels| > 0 {
        st := WriteDataBlob(true, true, true, table);
      } else {
        st := Ok(());
      }
    }

    /** `pbf_write_way`; `addr` is the refs array `malloc` returned. */
    method WriteWay(id: int, refs: seq<int>, tags: seq<Tag>, addr: nat, table: seq<bytes>) returns (st: Status<()>)
      requires Valid() && addr != NULL && addr !in live
      modifies this
      ensures var r := WayStep(old(State()), id, refs, tags, addr, table, codec);
              st == Outcome(r) && (r.Ok? ==> State() == r.value && Valid())
    {
      var n := CountToSentinel(refs);
      if n.None? {
        return Fault;
      }
      var ds := DeltaCode(refs, n.value);
      var kv := LoadTags(tags);
      if !kv.Ok? {
        return Fault;
      }
      wayBuf := wayBuf[|ways| := addr];
      live := live + {addr};
      ways := ways + [Way(id, kv.value.0, kv.value.1, ds)];
      if |ways| == PBF_BLOCK_SIZE {
        st := WriteDataBlob(false, true, false, table);
      } else {
        st := Ok(());
      }
    }

    /** `pbf_write_node`, with `lat` and `lon` already in units of 100 nanodegrees. */
    method WriteNode(id: int, lat: int, lon: int, tags: seq<Tag>, table: seq<bytes>) returns (st: Status<()>)
      requires Valid()
      modifies this
      ensures var r := NodeStep(old(State()), id, lat, lon, tags, table, codec);
              st == Outcome(r) && (r.Ok? ==> State() == r.value && Valid())
    {
      var kv := LoadTags(tags);
      if !kv.Ok? {
        return Fault;
      }
      nodes := nodes + [Node(id, lat, lon, kv.value.0, kv.value.1)];
      if |nodes| == PBF_BLOCK_SIZE {
        st := WriteDataBlob(true, false, false, table);
      } else {
        st := Ok(());
      }
    }

    /** `pbf_write_relation`. */
    method WriteRelation(id: int, members: seq<Member>, tags: seq<Tag>, table: seq<bytes>) returns (st: Status<()>)
      requires Valid()
      modifies this
      ensures var r := RelationStep(old(State()), id, members, tags, table, codec);
              st == Outcome(r) && (r.Ok? ==> State() == r.value && Valid())
    {
      var n := CountToSentinel(MemberIds(members));
      if n.None? {
        return Fault;
      }
      var memids, roles, kinds := CopyMembers(members, n.value);
      var kv := LoadTags(tags);
      if !kv.Ok? {
        return Fault;
      }
      rels := rels + [Relation(id, kv.value.0, kv.value.1, roles, memids, kinds)];
      if |rels| == PBF_BLOCK_SIZE {
        st := WriteDataBlob(false, false, true, table);
      } else {
        st := Ok(());
      }
    }
  }
}
