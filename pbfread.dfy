/**
  The control logic of pbf-read.c: fileblock framing, the element-type and
  phase state machine, fast-forward seeking with its rewind mark, and the
  decoding of dense nodes. Callbacks are recorded as events instead of being
  run; the mapped input file is a byte sequence and positions are offsets into it.
 */
module PbfRead {
  import opened Common
  import opened Osm
  import Delta
  import SlabAlloc

  /** pbf-read.c:191: tags kept per dense node. */
  const MAX_TAGS: int := 256
  /** pbf-read.c:68: zbuf, the largest inflated blob. */
  const MAX_BLOB_SIZE_UNCOMPRESSED: int := 32 * 1024 * 1024
  /** pbf-read.c:359. */
  const SLAB_SIZE: int := 8 * 1024 * 1024
  /** While fast-forwarding, only every 1000th block is decoded. */
  const FFWD_STRIDE: int := 1000

  /** Which of the three callbacks of `PbfReadCallbacks` are non-`NULL`. */
  datatype Callbacks = Callbacks(node: bool, way: bool, relation: bool)

  /** A callback invocation: the element handed over and the block's string table. */
  datatype Event =
    | NodeEvent(node: Node, table: seq<bytes>)
    | WayEvent(way: Way, table: seq<bytes>)
    | RelationEvent(relation: Relation, table: seq<bytes>)

  /**
    The static reading state: `curr_block`, `curr_block_pos`, `curr_phase`,
    `curr_pos`, the `mark_*` rewind point, `fast_forward` and `slow_seek`.
   */
  datatype Cursor = Cursor(block: nat, blockPos: nat, phase: int, pos: nat,
                           markBlock: nat, markBlockPos: nat, markPhase: int,
                           fastForward: bool, slowSeek: bool)

  /** The state `pbf_read` sets up before its loop (a `NULL` block position is offset 0). */
  const Start: Cursor := Cursor(0, 0, -1, 0, 0, 0, 0, false, false)

  function HasCallback(cb: Callbacks, t: int): bool
  {
    (t == NODE && cb.node) || (t == WAY && cb.way) || (t == RELATION && cb.relation)
  }

  /** `detect_element_type`: a group must hold exactly one kind of element. */
  function DetectElementType(g: PrimitiveGroup): (r: Status<int>)
    ensures r.Ok? <==> ((g.dense.Some? || |g.nodes| > 0) ==> |g.ways| == 0 && |g.relations| == 0)
                       && (|g.ways| > 0 ==> |g.relations| == 0)
                       && (g.dense.Some? || |g.nodes| > 0 || |g.ways| > 0 || |g.relations| > 0)
    ensures r.Ok? ==> (r.value == NODE <==> g.dense.Some? || |g.nodes| > 0)
    ensures r.Ok? ==> (r.value == WAY <==> |g.ways| > 0)
    ensures r.Ok? ==> (r.value == RELATION <==> |g.relations| > 0)
    ensures r.Exit? ==> r.code == EXIT_FAILURE
    ensures !r.Fault?
  {
    var isNode := g.dense.Some? || |g.nodes| > 0;
    var isWay := |g.ways| > 0;
    var isRelation := |g.relations| > 0;
    var count := (if isNode then 1 else 0) + (if isWay then 1 else 0) + (if isRelation then 1 else 0);
    if count != 1 then Exit(EXIT_FAILURE)
    else Ok(if isRelation then RELATION else if isWay then WAY else NODE)
  }

  /** `no_callback_for_phase`. */
  function NoCallbackForPhase(phase: int, cb: Callbacks): (r: bool)
    ensures r <==> NODE <= phase <= RELATION && !HasCallback(cb, phase)
  {
    (phase == NODE && !cb.node) || (phase == WAY && !cb.way) || (phase == RELATION && !cb.relation)
  }

  /** `no_more_callbacks`: no callback is left for this phase or any later one. */
  function NoMoreCallbacks(phase: int, cb: Callbacks): (r: bool)
    ensures r <==> && NODE <= phase <= RELATION
                   && (phase <= NODE ==> !cb.node) && (phase <= WAY ==> !cb.way) && !cb.relation
    ensures r ==> NoCallbackForPhase(phase, cb)
  {
    (phase == NODE && !cb.node && !cb.way && !cb.relation)
    || (phase == WAY && !cb.way && !cb.relation)
    || (phase == RELATION && !cb.relation)
  }

  /** `enforce_ordering`: whether a new phase begins, and the cursor with `curr_phase` raised to it. */
  function Ordering(c: Cursor, g: PrimitiveGroup): (r: Status<(bool, Cursor)>)
  {
    match DetectElementType(g)
      case Ok(t) =>
        if t < c.phase then Exit(EXIT_FAILURE)
        else if t > c.phase then Ok((true, c.(phase := t)))
        else Ok((false, c))
      case Exit(code) => Exit(code)
      case Fault => Fault
  }

  /**
    The phase never goes back: a group of an earlier type ends the process, a
    later type raises the phase and reports a transition, and a group of the
    current type changes nothing.
   */
  lemma OrderingMonotone(c: Cursor, g: PrimitiveGroup)
    ensures var r := Ordering(c, g);
            var t := DetectElementType(g);
            && (r.Exit? <==> t.Exit? || t.value < c.phase)
            && !r.Fault?
            && (r.Ok? ==> r.value.1 == c.(phase := t.value) && r.value.1.phase >= c.phase)
            && (r.Ok? ==> (r.value.0 <==> t.value > c.phase))
  {
  }

  /** `pbf_rewind`: go back to the mark and seek slowly from there; only allowed while fast-forwarding. */
  function Rewound(c: Cursor): (r: Status<Cursor>)
    ensures r.Exit? <==> !c.fastForward
    ensures r.Exit? ==> r.code == EXIT_FAILURE
    ensures r.Ok? ==> !r.value.fastForward && r.value.slowSeek
    ensures r.Ok? ==> r.value.block == c.markBlock && r.value.pos == r.value.blockPos == c.markBlockPos
    ensures r.Ok? ==> r.value.phase == c.markPhase
    ensures r.Ok? ==> r.value.(block := c.block, pos := c.pos, blockPos := c.blockPos, phase := c.phase,
                                fastForward := c.fastForward, slowSeek := c.slowSeek) == c
  {
    if c.fastForward then
      Ok(c.(fastForward := false, slowSeek := true, block := c.markBlock,
            pos := c.markBlockPos, blockPos := c.markBlockPos, phase := c.markPhase))
    else Exit(EXIT_FAILURE)
  }

  /** The mark set to the current block. */
  function Mark(c: Cursor): Cursor
  {
    c.(markBlock := c.block, markBlockPos := c.blockPos, markPhase := c.phase)
  }

  /** What `handle_primitive_block` does with a group after its checks: hand its elements to the callbacks, or return. */
  datatype GroupOutcome = Process | Return(done: bool)

  /** The checks `handle_primitive_block` makes on one group before any callback runs. */
  function GroupStep(c: Cursor, cb: Callbacks, g: PrimitiveGroup): (r: Status<(GroupOutcome, Cursor)>)
    ensures !r.Fault?
  {
    match Ordering(c, g)
      case Exit(code) => Exit(code)
      case Fault => Fault
      case Ok((transition, c1)) =>
        if transition && c1.fastForward then Ok((Return(false), Rewound(c1).value))
        else if transition && NoMoreCallbacks(c1.phase, cb) then Ok((Return(true), c1))
        else if NoCallbackForPhase(c1.phase, cb) then
          Ok((Return(false), if c1.slowSeek then c1 else Mark(c1.(fastForward := true))))
        else Ok((Process, c1))
  }

  /**
    The mark moves only when the current phase has no callback and the reader
    is not seeking slowly; it then records the current block, and fast-forward is on.
   */
  lemma MarkOnlyWhenSkipping(c: Cursor, cb: Callbacks, g: PrimitiveGroup)
    requires GroupStep(c, cb, g).Ok?
    ensures var (o, c2) := GroupStep(c, cb, g).value;
            (c2.markBlock, c2.markBlockPos, c2.markPhase) != (c.markBlock, c.markBlockPos, c.markPhase) ==>
              && NoCallbackForPhase(c2.phase, cb) && !c.slowSeek && c2.fastForward && o == Return(false)
              && c2.markBlock == c.block && c2.markBlockPos == c.blockPos && c2.markPhase == c2.phase
  {
    OrderingMonotone(c, g);
  }

  /** Elements are handed to callbacks only in a phase that has one. */
  lemma ProcessOnlyWithCallback(c: Cursor, cb: Callbacks, g: PrimitiveGroup)
    requires GroupStep(c, cb, g).Ok? && GroupStep(c, cb, g).value.0 == Process
    ensures var c2 := GroupStep(c, cb, g).value.1;
            HasCallback(cb, c2.phase) && DetectElementType(g) == Ok(c2.phase)
            && c2.fastForward == c.fastForward && c2.slowSeek == c.slowSeek
  {
    OrderingMonotone(c, g);
  }

  /** A phase transition met while fast-forwarding rewinds to the mark. */
  lemma TransitionWhileFastForwardRewinds(c: Cursor, cb: Callbacks, g: PrimitiveGroup)
    requires c.fastForward
    requires DetectElementType(g).Ok? && DetectElementType(g).value > c.phase
    ensures GroupStep(c, cb, g) == Ok((Return(false), Rewound(c.(phase := DetectElementType(g).value)).value))
    ensures var c2 := GroupStep(c, cb, g).value.1;
            c2.pos == c.markBlockPos && c2.phase == c.markPhase && c2.slowSeek && !c2.fastForward
  {
  }

  // ---------------------------------------------------------------- dense nodes

  /**
    The tags of one dense node, read from `kv[kv0..]` up to the index of a
    zero-length string: the keys and values kept (at most `MAX_TAGS`, the
    rest skipped) and the position after the terminator.
   */
  function DenseTags(kv: seq<int>, table: seq<bytes>, kv0: nat, keys: seq<int>, vals: seq<int>)
    : (r: Status<(seq<int>, seq<int>, nat)>)
    requires |keys| == |vals| <= MAX_TAGS
    ensures !r.Exit?
    ensures r.Ok? ==> |r.value.0| == |r.value.1| <= MAX_TAGS && r.value.2 > kv0
    ensures r.Ok? ==> keys <= r.value.0 && vals <= r.value.1
    decreases |kv| - kv0
  {
    if kv0 >= |kv| || !(0 <= kv[kv0] < |table|) then Fault
    else if |table[kv[kv0]]| == 0 then Ok((keys, vals, kv0 + 1))
    else if |keys| < MAX_TAGS then
      if kv0 + 1 >= |kv| then Fault
      else DenseTags(kv, table, kv0 + 2, keys + [kv[kv0]], vals + [kv[kv0 + 1]])
    else DenseTags(kv, table, kv0 + 2, keys, vals)
  }

  /** Every key kept names a non-empty string: a node's tags stop at the first empty one. */
  lemma {:induction false} DenseTagsKeysNonEmpty(kv: seq<int>, table: seq<bytes>, kv0: nat, keys: seq<int>, vals: seq<int>)
    requires |keys| == |vals| <= MAX_TAGS
    requires forall j :: 0 <= j < |keys| ==> 0 <= keys[j] < |table| && |table[keys[j]]| > 0
    requires DenseTags(kv, table, kv0, keys, vals).Ok?
    ensures var ks := DenseTags(kv, table, kv0, keys, vals).value.0;
            forall j :: 0 <= j < |ks| ==> 0 <= ks[j] < |table| && |table[ks[j]]| > 0
    decreases |kv| - kv0
  {
    if kv0 < |kv| && 0 <= kv[kv0] < |table| && |table[kv[kv0]]| != 0 {
      if |keys| < MAX_TAGS {
        DenseTagsKeysNonEmpty(kv, table, kv0 + 2, keys + [kv[kv0]], vals + [kv[kv0 + 1]]);
      } else {
        DenseTagsKeysNonEmpty(kv, table, kv0 + 2, keys, vals);
      }
    }
  }

  /** The tags of a dense node, or none when the block has no `keys_vals` at all. */
  function NodeTags(kv: seq<int>, table: seq<bytes>, kv0: nat): (r: Status<(seq<int>, seq<int>, nat)>)
    ensures !r.Exit?
    ensures r.Ok? ==> |r.value.0| == |r.value.1| <= MAX_TAGS && r.value.2 > kv0
  {
    if |kv| == 0 then Ok(([], [], kv0 + 1)) else DenseTags(kv, table, kv0, [], [])
  }

  /** The nodes decoded from index `n` on, given the running sums and tag position reached. */
  function DenseFrom(d: DenseNodes, table: seq<bytes>, gran: int, n: nat, id: int, lat: int, lon: int, kv0: nat)
    : (r: Status<seq<Node>>)
    ensures !r.Exit?
    ensures r.Ok? ==> |r.value| == |d.id| - n || (n >= |d.id| && r.value == [])
    decreases |d.id| - n
  {
    if n >= |d.id| then Ok([])
    else if n >= |d.lat| || n >= |d.lon| then Fault
    else
      var id1, lat1, lon1 := id + d.id[n], lat + d.lat[n] * gran, lon + d.lon[n] * gran;
      match NodeTags(d.keysVals, table, kv0)
        case Fault => Fault
        case Ok((ks, vs, kv1)) =>
          match DenseFrom(d, table, gran, n + 1, id1, lat1, lon1, kv1)
            case Ok(rest) => Ok([Node(id1, lat1, lon1, ks, vs)] + rest)
            case Fault => Fault
  }

  /** The dense nodes of a group: ids from 0, coordinates from the block's offsets. */
  function Dense(d: DenseNodes, table: seq<bytes>, gran: int, latOffset: int, lonOffset: int): Status<seq<Node>>
  {
    DenseFrom(d, table, gran, 0, 0, latOffset, lonOffset, 0)
  }

  lemma {:induction false} DenseFromIds(d: DenseNodes, table: seq<bytes>, gran: int, n: nat, id: int, lat: int, lon: int, kv0: nat)
    requires n <= |d.id|
    requires DenseFrom(d, table, gran, n, id, lat, lon, kv0).Ok?
    ensures n < |d.id| ==> |d.lat| >= |d.id| && |d.lon| >= |d.id|
    ensures var ns := DenseFrom(d, table, gran, n, id, lat, lon, kv0).value;
            && |ns| == |d.id| - n
            && (forall i :: 0 <= i < |ns| ==> ns[i].id == Delta.RunningSums(d.id[n..], id)[i])
    decreases |d.id| - n
  {
    if n < |d.id| {
      var id1, lat1, lon1 := id + d.id[n], lat + d.lat[n] * gran, lon + d.lon[n] * gran;
      var (ks, vs, kv1) := NodeTags(d.keysVals, table, kv0).value;
      DenseFromIds(d, table, gran, n + 1, id1, lat1, lon1, kv1);
      assert d.id[n..][1..] == d.id[n + 1..];
    }
  }

  lemma {:induction false} DenseFromCoordinates(d: DenseNodes, table: seq<bytes>, gran: int, n: nat, id: int, lat: int, lon: int, kv0: nat)
    requires n <= |d.id| <= |d.lat| && |d.id| <= |d.lon|
    requires DenseFrom(d, table, gran, n, id, lat, lon, kv0).Ok?
    ensures var ns := DenseFrom(d, table, gran, n, id, lat, lon, kv0).value;
            && (forall i :: 0 <= i < |ns| ==> ns[i].lat == Delta.RunningSums(Delta.Scaled(d.lat[n..|d.id|], gran), lat)[i])
            && (forall i :: 0 <= i < |ns| ==> ns[i].lon == Delta.RunningSums(Delta.Scaled(d.lon[n..|d.id|], gran), lon)[i])
    decreases |d.id| - n
  {
    if n < |d.id| {
      var id1, lat1, lon1 := id + d.id[n], lat + d.lat[n] * gran, lon + d.lon[n] * gran;
      var (ks, vs, kv1) := NodeTags(d.keysVals, table, kv0).value;
      DenseFromCoordinates(d, table, gran, n + 1, id1, lat1, lon1, kv1);
      assert d.lat[n..|d.id|][1..] == d.lat[n + 1..|d.id|];
      assert d.lon[n..|d.id|][1..] == d.lon[n + 1..|d.id|];
      assert Delta.Scaled(d.lat[n..|d.id|], gran)[1..] == Delta.Scaled(d.lat[n + 1..|d.id|], gran);
      assert Delta.Scaled(d.lon[n..|d.id|], gran)[1..] == Delta.Scaled(d.lon[n + 1..|d.id|], gran);
    }
  }

  /**
    Dense decoding: node `i`'s id is the sum of the first `i + 1` id deltas,
    and its latitude and longitude are the block offset plus the granularity
    times the sum of the first `i + 1` coordinate deltas.
   */
  lemma DenseDecodesRunningSums(d: DenseNodes, table: seq<bytes>, gran: int, latOffset: int, lonOffset: int, i: nat)
    requires Dense(d, table, gran, latOffset, lonOffset).Ok?
    requires i < |d.id|
    ensures |d.lat| >= |d.id| && |d.lon| >= |d.id|
    ensures var ns := Dense(d, table, gran, latOffset, lonOffset).value;
            && |ns| == |d.id|
            && ns[i].id == Delta.Sum(d.id[..i + 1])
            && ns[i].lat == latOffset + gran * Delta.Sum(d.lat[..i + 1])
            && ns[i].lon == lonOffset + gran * Delta.Sum(d.lon[..i + 1])
  {
    DenseFromIds(d, table, gran, 0, 0, latOffset, lonOffset, 0);
    DenseFromCoordinates(d, table, gran, 0, 0, latOffset, lonOffset, 0);
    assert d.id[0..] == d.id;
    Delta.RunningSumsAt(d.id, 0, i);
    CoordinateSum(d.lat, |d.id|, gran, latOffset, i);
    CoordinateSum(d.lon, |d.id|, gran, lonOffset, i);
  }

  lemma CoordinateSum(xs: seq<int>, n: nat, gran: int, offset: int, i: nat)
    requires i < n <= |xs|
    ensures Delta.RunningSums(Delta.Scaled(xs[0..n], gran), offset)[i] == offset + gran * Delta.Sum(xs[..i + 1])
  {
    var s := Delta.Scaled(xs[0..n], gran);
    Delta.RunningSumsAt(s, offset, i);
    Delta.ScaledPrefix(xs[0..n], gran, i + 1);
    assert xs[0..n][..i + 1] == xs[..i + 1];
    Delta.SumScaled(xs[..i + 1], gran);
  }

  /** A node has as many values as keys, at most `MAX_TAGS` of them, and each key names a non-empty string. */
  predicate NodeTagsWellFormed(n: Node, table: seq<bytes>)
  {
    && |n.keys| == |n.vals| <= MAX_TAGS
    && forall j :: 0 <= j < |n.keys| ==> 0 <= n.keys[j] < |table| && |table[n.keys[j]]| > 0
  }

  predicate TagsWellFormed(ns: seq<Node>, table: seq<bytes>)
  {
    forall i :: 0 <= i < |ns| ==> NodeTagsWellFormed(ns[i], table)
  }

  /** The tags of every dense node decoded are well formed. */
  lemma {:induction false} DenseFromTags(d: DenseNodes, table: seq<bytes>, gran: int, n: nat, id: int, lat: int, lon: int, kv0: nat)
    requires DenseFrom(d, table, gran, n, id, lat, lon, kv0).Ok?
    ensures TagsWellFormed(DenseFrom(d, table, gran, n, id, lat, lon, kv0).value, table)
    decreases |d.id| - n
  {
    if n < |d.id| {
      var id1, lat1, lon1 := id + d.id[n], lat + d.lat[n] * gran, lon + d.lon[n] * gran;
      var (ks, vs, kv1) := NodeTags(d.keysVals, table, kv0).value;
      if |d.keysVals| != 0 {
        DenseTagsKeysNonEmpty(d.keysVals, table, kv0, [], []);
      }
      DenseFromTags(d, table, gran, n + 1, id1, lat1, lon1, kv1);
      var rest := DenseFrom(d, table, gran, n + 1, id1, lat1, lon1, kv1).value;
      var ns := DenseFrom(d, table, gran, n, id, lat, lon, kv0).value;
      assert ns == [Node(id1, lat1, lon1, ks, vs)] + rest;
      forall i | 0 <= i < |ns|
        ensures NodeTagsWellFormed(ns[i], table)
      {
        if i > 0 {
          assert ns[i] == rest[i - 1];
        }
      }
    }
  }

  // ---------------------------------------------------------------- blocks and blobs

  function Granularity(b: PrimitiveBlock): int
  {
    if b.granularity.Some? then b.granularity.value else 100
  }

  function LatOffset(b: PrimitiveBlock): int
  {
    if b.latOffset.Some? then b.latOffset.value else 0
  }

  function LonOffset(b: PrimitiveBlock): int
  {
    if b.lonOffset.Some? then b.lonOffset.value else 0
  }

  /** A plain node with its coordinates scaled by the granularity and moved by the offsets. */
  function Placed(n: Node, b: PrimitiveBlock): Node
  {
    n.(lat := LatOffset(b) + n.lat * Granularity(b), lon := LonOffset(b) + n.lon * Granularity(b))
  }

  function WayEvents(ws: seq<Way>, table: seq<bytes>): (r: seq<Event>)
    ensures |r| == |ws|
  {
    if ws == [] then [] else [WayEvent(ws[0], table)] + WayEvents(ws[1..], table)
  }

  function NodeEvents(ns: seq<Node>, table: seq<bytes>): (r: seq<Event>)
    ensures |r| == |ns|
  {
    if ns == [] then [] else [NodeEvent(ns[0], table)] + NodeEvents(ns[1..], table)
  }

  function PlacedNodeEvents(ns: seq<Node>, b: PrimitiveBlock): (r: seq<Event>)
    ensures |r| == |ns|
  {
    if ns == [] then [] else [NodeEvent(Placed(ns[0], b), b.stringTable)] + PlacedNodeEvents(ns[1..], b)
  }

  function RelationEvents(rs: seq<Relation>, table: seq<bytes>): (r: seq<Event>)
    ensures |r| == |rs|
  {
    if rs == [] then [] else [RelationEvent(rs[0], table)] + RelationEvents(rs[1..], table)
  }

  /** The node callbacks for the dense nodes of one group, if it has them and the node callback is set. */
  function DenseEvents(g: PrimitiveGroup, cb: Callbacks, b: PrimitiveBlock): (r: Status<seq<Event>>)
    ensures !r.Exit?
  {
    if cb.node && g.dense.Some? then
      match Dense(g.dense.value, b.stringTable, Granularity(b), LatOffset(b), LonOffset(b))
        case Ok(ns) => Ok(NodeEvents(ns, b.stringTable))
        case Fault => Fault
    else Ok([])
  }

  /**
    The callbacks made for one group: ways, then plain nodes, then dense
    nodes, then relations, each only if its callback is set.
   */
  function GroupEvents(g: PrimitiveGroup, cb: Callbacks, b: PrimitiveBlock): (r: Status<seq<Event>>)
    ensures !r.Exit?
  {
    var ways := if cb.way then WayEvents(g.ways, b.stringTable) else [];
    var plain := if cb.node then PlacedNodeEvents(g.nodes, b) else [];
    var rels := if cb.relation then RelationEvents(g.relations, b.stringTable) else [];
    match DenseEvents(g, cb, b)
      case Ok(dense) => Ok(ways + plain + dense + rels)
      case Fault => Fault
  }

  /** `handle_primitive_block` from group `i` on: whether reading is done, the new cursor, and the callbacks made. */
  function BlockFrom(c: Cursor, cb: Callbacks, b: PrimitiveBlock, i: nat): (r: Status<(bool, Cursor, seq<Event>)>)
    decreases |b.groups| - i
  {
    if i >= |b.groups| then Ok((false, c, []))
    else match GroupStep(c, cb, b.groups[i])
      case Exit(code) => Exit(code)
      case Fault => Fault
      case Ok((Return(done), c1)) => Ok((done, c1, []))
      case Ok((Process, c1)) =>
        match GroupEvents(b.groups[i], cb, b)
          case Exit(code) => Exit(code)
          case Fault => Fault
          case Ok(es) =>
            match BlockFrom(c1, cb, b, i + 1)
              case Ok((done, c2, es2)) => Ok((done, c2, es + es2))
              case Exit(code) => Exit(code)
              case Fault => Fault
  }

  /** `zinflate` and the blob checks of `process_pbf_blob`: the payload bytes to unpack. */
  function Payload(blob: Blob, codec: Codec): (r: Status<bytes>)
    ensures !r.Fault?
    ensures r.Exit? ==> r.code == EXIT_FAILURE
    ensures blob.zlibData.Some? && r.Ok? ==>
              codec.inflate(blob.zlibData.value) == Some(r.value)
              && |r.value| == (if blob.rawSize.Some? then blob.rawSize.value else 0)
    ensures blob.zlibData.None? ==> (r.Ok? <==> blob.raw.Some?) && (r.Ok? ==> r.value == blob.raw.value)
  {
    if blob.zlibData.Some? then
      var expected := if blob.rawSize.Some? then blob.rawSize.value else 0;
      match codec.inflate(blob.zlibData.value)
        case None => Exit(EXIT_FAILURE)
        case Some(p) =>
          if |p| > MAX_BLOB_SIZE_UNCOMPRESSED || |p| != expected then Exit(EXIT_FAILURE) else Ok(p)
    else if blob.raw.Some? then Ok(blob.raw.value)
    else Exit(EXIT_FAILURE)
  }

  /** `process_pbf_blob` for the fileblock the cursor is on. */
  function BlobStep(c: Cursor, cb: Callbacks, codec: Codec, h: BlobHeader, blob: Option<Blob>)
    : (r: Status<(bool, Cursor, seq<Event>)>)
  {
    if c.fastForward && c.block % FFWD_STRIDE != 0 then Ok((false, c, []))
    else if blob.None? then Fault
    else match Payload(blob.value, codec)
      case Exit(code) => Exit(code)
      case Fault => Fault
      case Ok(data) =>
        if c.block == 0 then
          if h.kind != "OSMHeader" || codec.unpackHeaderBlock(data).None? then Exit(EXIT_FAILURE)
          else Ok((false, c, []))
        else if h.kind != "OSMData" then Exit(EXIT_FAILURE)
        else match codec.unpackPrimitiveBlock(data)
          case None => Exit(EXIT_FAILURE)
          case Some(b) => BlockFrom(c, cb, b, 0)
  }

  /** While fast-forwarding, a block whose number is not a multiple of 1000 is neither inflated nor decoded. */
  lemma FastForwardSkips(c: Cursor, cb: Callbacks, codec: Codec, h: BlobHeader, blob: Option<Blob>)
    requires c.fastForward && c.block % FFWD_STRIDE != 0
    ensures BlobStep(c, cb, codec, h, blob) == Ok((false, c, []))
  {
  }

  /**
    Block 0 must be an "OSMHeader" blob and every later block an "OSMData"
    blob; a zlib blob must inflate to exactly its recorded raw size.
   */
  lemma BlobTypeChecked(c: Cursor, cb: Callbacks, codec: Codec, h: BlobHeader, b: Blob)
    requires !c.fastForward
    ensures c.block == 0 && h.kind != "OSMHeader" ==> BlobStep(c, cb, codec, h, Some(b)).Exit?
    ensures c.block != 0 && h.kind != "OSMData" ==> BlobStep(c, cb, codec, h, Some(b)).Exit?
    ensures b.zlibData.Some? && b.rawSize.Some? && codec.inflate(b.zlibData.value).Some?
            && |codec.inflate(b.zlibData.value).value| != b.rawSize.value ==>
              BlobStep(c, cb, codec, h, Some(b)) == Exit(EXIT_FAILURE)
  {
  }

  /**
    One turn of the loop of `pbf_read`: read the fileblock at the cursor,
    process it, count the block, and decide whether to stop. The first
    component says whether the loop ends.
   */
  function FileblockStep(c: Cursor, cb: Callbacks, codec: Codec, file: bytes): (r: Status<(bool, Cursor, seq<Event>)>)
  {
    var c0 := c.(blockPos := c.pos);
    match ReadFrame(file, c.pos, codec)
      case Exit(code) => Exit(code)
      case Fault => Fault
      case Ok(fr) =>
        match BlobStep(c0.(pos := fr.next), cb, codec, fr.header, fr.blob)
          case Exit(code) => Exit(code)
          case Fault => Fault
          case Ok((done, c2, es)) =>
            var (stop, c3) := FileblockEnd(c2, done, |file|);
            Ok((stop, c3, es))
  }

  /**
    The end of `read_fileblock` once its blob is processed: the block count
    moves on, and reading stops when the callbacks are done or the file ends,
    unless the end comes while fast-forwarding, which rewinds.
   */
  function FileblockEnd(c: Cursor, done: bool, size: nat): (bool, Cursor)
  {
    var c3 := c.(block := c.block + 1);
    if done then (true, c3)
    else if c3.pos >= size then
      if c3.fastForward then (false, Rewound(c3).value) else (true, c3)
    else (false, c3)
  }

  /** What holds of the cursor throughout a read of a file of `size` bytes. */
  predicate Inv(c: Cursor, size: nat)
  {
    c.pos <= size && c.blockPos <= size && c.markBlockPos <= size && (c.slowSeek ==> !c.fastForward)
  }

  /**
    A group step keeps the invariant, and either leaves the position and the
    seek mode alone or switches from fast-forward to slow seek.
   */
  lemma GroupStepProgress(c: Cursor, cb: Callbacks, g: PrimitiveGroup, size: nat)
    requires Inv(c, size) && GroupStep(c, cb, g).Ok?
    ensures var c2 := GroupStep(c, cb, g).value.1;
            Inv(c2, size)
            && ((c2.slowSeek == c.slowSeek && c2.pos == c.pos && c2.block == c.block)
                || (!c.slowSeek && c2.slowSeek && c2.block == c2.markBlock && c2.pos == c2.markBlockPos))
  {
    OrderingMonotone(c, g);
  }

  lemma {:induction false} BlockFromProgress(c: Cursor, cb: Callbacks, b: PrimitiveBlock, i: nat, size: nat)
    requires Inv(c, size) && BlockFrom(c, cb, b, i).Ok?
    ensures var c2 := BlockFrom(c, cb, b, i).value.1;
            Inv(c2, size)
            && ((c2.slowSeek == c.slowSeek && c2.pos == c.pos && c2.block == c.block)
                || (!c.slowSeek && c2.slowSeek && c2.block == c2.markBlock && c2.pos == c2.markBlockPos))
    decreases |b.groups| - i
  {
    if i < |b.groups| {
      var g := b.groups[i];
      GroupStepProgress(c, cb, g, size);
      var (o, c1) := GroupStep(c, cb, g).value;
      if o == Process {
        BlockFromProgress(c1, cb, b, i + 1, size);
      }
    }
  }

  /**
    Each turn of the loop either moves forward through the file, by
    `4 + header length + datasize` when no rewind happens, or switches from
    fast-forward to slow seek; so the loop ends.
   */
  lemma FileblockStepProgress(c: Cursor, cb: Callbacks, codec: Codec, file: bytes)
    requires Inv(c, |file|) && FileblockStep(c, cb, codec, file).Ok?
    ensures var (stop, c2, _) := FileblockStep(c, cb, codec, file).value;
            Inv(c2, |file|)
            && ((c2.slowSeek == c.slowSeek && c2.pos > c.pos) || (!c.slowSeek && c2.slowSeek))
    ensures var (stop, c2, _) := FileblockStep(c, cb, codec, file).value;
            var fr := ReadFrame(file, c.pos, codec).value;
            c2.slowSeek == c.slowSeek ==>
              c2.pos == fr.next == c.pos + 4 + ReadBigEndian32(file[c.pos..]) + fr.header.datasize
              && c2.block == c.block + 1
  {
    var c0 := c.(blockPos := c.pos);
    var fr := ReadFrame(file, c.pos, codec).value;
    var c1 := c0.(pos := fr.next);
    assert Inv(c1, |file|);
    var blob := fr.blob;
    if !(c1.fastForward && c1.block % FFWD_STRIDE != 0) && blob.Some? {
      var data := Payload(blob.value, codec).value;
      if c1.block != 0 {
        var b := codec.unpackPrimitiveBlock(data).value;
        BlockFromProgress(c1, cb, b, 0, |file|);
      }
    }
  }

  /**
    After a rewind made inside `handle_primitive_block`, the loop of
    `pbf_read` still counts the block, so the block now at the cursor is
    numbered one more than the mark it was rewound to.
   */
  lemma InBlockRewindMisnumbers(c: Cursor, cb: Callbacks, codec: Codec, file: bytes)
    requires Inv(c, |file|) && !c.slowSeek
    requires FileblockStep(c, cb, codec, file).Ok?
    requires ReadFrame(file, c.pos, codec).value.next < |file|
    requires FileblockStep(c, cb, codec, file).value.1.slowSeek
    ensures var c2 := FileblockStep(c, cb, codec, file).value.1;
            c2.pos == c2.markBlockPos && c2.block == c2.markBlock + 1
  {
    var c0 := c.(blockPos := c.pos);
    var fr := ReadFrame(file, c.pos, codec).value;
    var c1 := c0.(pos := fr.next);
    var blob := fr.blob;
    if !(c1.fastForward && c1.block % FFWD_STRIDE != 0) && blob.Some? {
      var data := Payload(blob.value, codec).value;
      if c1.block != 0 {
        var b := codec.unpackPrimitiveBlock(data).value;
        BlockFromProgress(c1, cb, b, 0, |file|);
      }
    }
  }

  /**
    One turn of the loop of `pbf_read` as evidently intended: a block that
    rewound the reader is not counted, so the counter keeps the number of
    the block it was rewound to.
   */
  function FileblockStepFixed(c: Cursor, cb: Callbacks, codec: Codec, file: bytes): (r: Status<(bool, Cursor, seq<Event>)>)
  {
    var c0 := c.(blockPos := c.pos);
    match ReadFrame(file, c.pos, codec)
      case Exit(code) => Exit(code)
      case Fault => Fault
      case Ok(fr) =>
        match BlobStep(c0.(pos := fr.next), cb, codec, fr.header, fr.blob)
          case Exit(code) => Exit(code)
          case Fault => Fault
          case Ok((done, c2, es)) =>
            var c3 := if c2.slowSeek != c.slowSeek then c2 else c2.(block := c2.block + 1);
            if done then Ok((true, c3, es))
            else if c3.pos >= |file| then
              if c3.fastForward then Ok((false, Rewound(c3).value, es)) else Ok((true, c3, es))
            else Ok((false, c3, es))
  }

  /** With the intended step, after either kind of rewind the counter and the position agree with the mark. */
  lemma FixedRewindKeepsNumbering(c: Cursor, cb: Callbacks, codec: Codec, file: bytes)
    requires Inv(c, |file|) && !c.slowSeek
    requires FileblockStepFixed(c, cb, codec, file).Ok?
    requires FileblockStepFixed(c, cb, codec, file).value.1.slowSeek
    ensures var c2 := FileblockStepFixed(c, cb, codec, file).value.1;
            c2.pos == c2.markBlockPos && c2.block == c2.markBlock
  {
    var c0 := c.(blockPos := c.pos);
    var fr := ReadFrame(file, c.pos, codec).value;
    var c1 := c0.(pos := fr.next);
    var blob := fr.blob;
    if !(c1.fastForward && c1.block % FFWD_STRIDE != 0) && blob.Some? {
      var data := Payload(blob.value, codec).value;
      if c1.block != 0 {
        var b := codec.unpackPrimitiveBlock(data).value;
        BlockFromProgress(c1, cb, b, 0, |file|);
      }
    }
  }

  // ---------------------------------------------------------------- the reader

  /** The static state of pbf-read.c for one input file and one set of callbacks. */
  class Reader {
    /** The mapped input file. */
    const file: bytes
    const callbacks: Callbacks
    const codec: Codec

    var block: nat
    var blockPos: nat
    var phase: int
    var pos: nat
    var markBlock: nat
    var markBlockPos: nat
    var markPhase: int
    var fastForward: bool
    var slowSeek: bool
    /** The callbacks made so far, in order. */
    var events: seq<Event>

    function Cur(): Cursor
      reads this`block, this`blockPos, this`phase, this`pos, this`markBlock, this`markBlockPos,
            this`markPhase, this`fastForward, this`slowSeek
    {
      Cursor(block, blockPos, phase, pos, markBlock, markBlockPos, markPhase, fastForward, slowSeek)
    }

    constructor (file: bytes, callbacks: Callbacks, codec: Codec)
      ensures this.file == file && this.callbacks == callbacks && this.codec == codec
      ensures Cur() == Start && events == []
    {
      this.file, this.callbacks, this.codec := file, callbacks, codec;
      block, blockPos, phase, pos := 0, 0, -1, 0;
      markBlock, markBlockPos, markPhase := 0, 0, 0;
      fastForward, slowSeek := false, false;
      events := [];
    }

    method SetCursor(c: Cursor)
      modifies this
      ensures Cur() == c && events == old(events)
    {
      block, blockPos, phase, pos := c.block, c.blockPos, c.phase, c.pos;
      markBlock, markBlockPos, markPhase := c.markBlock, c.markBlockPos, c.markPhase;
      fastForward, slowSeek := c.fastForward, c.slowSeek;
    }

    /** `enforce_ordering`. */
    method EnforceOrdering(g: PrimitiveGroup) returns (st: Status<bool>)
      modifies this
      ensures match Ordering(old(Cur()), g)
                case Ok((t, c)) => st == Ok(t) && Cur() == c
                case Exit(code) => st == Exit(code)
                case Fault => st == Fault
      ensures events == old(events)
    {
      var t := DetectElementType(g);
      if t.Exit? {
        return Exit(t.code);
      }
      if t.value < phase {
        return Exit(EXIT_FAILURE);
      }
      if t.value > phase {
        phase := t.value;
        return Ok(true);
      }
      return Ok(false);
    }

    /** `pbf_rewind`. */
    method Rewind() returns (st: Status<()>)
      modifies this
      ensures match Rewound(old(Cur()))
                case Ok(c) => st == Ok(()) && Cur() == c
                case Exit(code) => st == Exit(code)
                case Fault => st == Fault
      ensures events == old(events)
    {
      if fastForward {
        fastForward := false;
        slowSeek := true;
        block := markBlock;
        blockPos := markBlockPos;
        pos := markBlockPos;
        phase := markPhase;
        return Ok(());
      }
      return Exit(EXIT_FAILURE);
    }

    /**
      The tag loop for one dense node: copy key and value indexes until the
      index of a zero-length string, keeping at most `MAX_TAGS`; then step
      over the terminator. With no `keys_vals` at all, only the step is taken.
     */
    static method ReadTags(kv: seq<int>, table: seq<bytes>, kv0: nat) returns (st: Status<(seq<int>, seq<int>, nat)>)
      ensures st == NodeTags(kv, table, kv0)
    {
      var keys: seq<int> := [];
      var vals: seq<int> := [];
      var k := kv0;
      if |kv| != 0 {
        while true
          invariant |keys| == |vals| <= MAX_TAGS
          invariant k == kv0 || k <= |kv| + 1
          invariant DenseTags(kv, table, kv0, [], []) == DenseTags(kv, table, k, keys, vals)
          decreases |kv| + 2 - k
        {
          if k >= |kv| || !(0 <= kv[k] < |table|) {
            return Fault;
          }
          if |table[kv[k]]| == 0 {
            break;
          }
          if |keys| < MAX_TAGS {
            if k + 1 >= |kv| {
              return Fault;
            }
            keys := keys + [kv[k]];
            vals := vals + [kv[k + 1]];
          }
          k := k + 2;
        }
      }
      return Ok((keys, vals, k + 1));
    }

    /**
      The dense-node loop of `handle_primitive_block`: running sums of the id
      and coordinate deltas, and each node's tags copied up to a zero-length string.
     */
    static method DecodeDense(d: DenseNodes, table: seq<bytes>, gran: int, latOffset: int, lonOffset: int)
      returns (st: Status<seq<Node>>)
      ensures st == Dense(d, table, gran, latOffset, lonOffset)
    {
      var kv := d.keysVals;
      var kv0: nat := 0;
      var id, lat, lon := 0, latOffset, lonOffset;
      var out: seq<Node> := [];
      var n: nat := 0;
      PrefixedNil(Dense(d, table, gran, latOffset, lonOffset));
      while n < |d.id|
        invariant n <= |d.id|
        invariant Dense(d, table, gran, latOffset, lonOffset) == Prefixed(out, DenseFrom(d, table, gran, n, id, lat, lon, kv0))
        decreases |d.id| - n
      {
        if n >= |d.lat| || n >= |d.lon| {
          return Fault;
        }
        id := id + d.id[n];
        lat := lat + d.lat[n] * gran;
        lon := lon + d.lon[n] * gran;
        var tags := ReadTags(kv, table, kv0);
        if tags.Fault? {
          return Fault;
        }
        var keys, vals := tags.value.0, tags.value.1;
        kv0 := tags.value.2;
        PrefixedSnoc(out, Node(id, lat, lon, keys, vals), DenseFrom(d, table, gran, n + 1, id, lat, lon, kv0));
        out := out + [Node(id, lat, lon, keys, vals)];
        n := n + 1;
      }
      assert out + [] == out;
      return Ok(out);
    }

    /** The checks of `handle_primitive_block` on one group, before its callbacks. */
    method CheckGroup(g: PrimitiveGroup) returns (st: Status<GroupOutcome>)
      modifies this
      ensures match GroupStep(old(Cur()), callbacks, g)
                case Ok((o, c)) => st == Ok(o) && Cur() == c
                case Exit(code) => st == Exit(code)
                case Fault => st == Fault
      ensures events == old(events)
    {
      var ordered := EnforceOrdering(g);
      if ordered.Exit? {
        return Exit(ordered.code);
      }
      if ordered.value {
        if fastForward {
          var _ := Rewind();
          return Ok(Return(false));
        }
        if NoMoreCallbacks(phase, callbacks) {
          return Ok(Return(true));
        }
      }
      if NoCallbackForPhase(phase, callbacks) {
        if !slowSeek {
          fastForward := true;
          markBlock := block;
          markBlockPos := blockPos;
          markPhase := phase;
        }
        return Ok(Return(false));
      }
      return Ok(Process);
    }

    /** The way callbacks of one group. */
    method EmitWays(ws: seq<Way>, table: seq<bytes>)
      modifies this`events
      ensures events == old(events) + (if callbacks.way then WayEvents(ws, table) else [])
    {
      if !callbacks.way {
        assert events + [] == events;
        return;
      }
      for w := 0 to |ws|
        invariant events == old(events) + WayEvents(ws[..w], table)
      {
        events := events + [WayEvent(ws[w], table)];
        assert ws[..w + 1] == ws[..w] + [ws[w]];
        WayEventsSnoc(ws[..w], ws[w], table);
      }
      assert ws[..|ws|] == ws;
    }

    /** The node callbacks for the plain nodes of one group, with their coordinates placed. */
    method EmitNodes(ns: seq<Node>, b: PrimitiveBlock)
      modifies this`events
      ensures events == old(events) + (if callbacks.node then PlacedNodeEvents(ns, b) else [])
    {
      if !callbacks.node {
        assert events + [] == events;
        return;
      }
      for k := 0 to |ns|
        invariant events == old(events) + PlacedNodeEvents(ns[..k], b)
      {
        events := events + [NodeEvent(Placed(ns[k], b), b.stringTable)];
        assert ns[..k + 1] == ns[..k] + [ns[k]];
        PlacedNodeEventsSnoc(ns[..k], ns[k], b);
      }
      assert ns[..|ns|] == ns;
    }

    /** The relation callbacks of one group. */
    method EmitRelations(rs: seq<Relation>, table: seq<bytes>)
      modifies this`events
      ensures events == old(events) + (if callbacks.relation then RelationEvents(rs, table) else [])
    {
      if !callbacks.relation {
        assert events + [] == events;
        return;
      }
      for r := 0 to |rs|
        invariant events == old(events) + RelationEvents(rs[..r], table)
      {
        events := events + [RelationEvent(rs[r], table)];
        assert rs[..r + 1] == rs[..r] + [rs[r]];
        RelationEventsSnoc(rs[..r], rs[r], table);
      }
      assert rs[..|rs|] == rs;
    }

    /** The callbacks `handle_primitive_block` makes for the elements of one group. */
    method Dispatch(g: PrimitiveGroup, b: PrimitiveBlock) returns (st: Status<()>)
      modifies this`events
      ensures match GroupEvents(g, callbacks, b)
                case Ok(es) => st == Ok(()) && events == old(events) + es
                case Exit(code) => st == Exit(code)
                case Fault => st == Fault
      ensures old(events) <= events
    {
      var table := b.stringTable;
      EmitWays(g.ways, table);
      EmitNodes(g.nodes, b);
      var dense: seq<Event> := [];
      if callbacks.node && g.dense.Some? {
        var ns := DecodeDense(g.dense.value, table, Granularity(b), LatOffset(b), LonOffset(b));
        if ns.Fault? {
          return Fault;
        }
        dense := NodeEvents(ns.value, table);
      }
      events := events + dense;
      EmitRelations(g.relations, table);
      ghost var w := if callbacks.way then WayEvents(g.ways, table) else [];
      ghost var p := if callbacks.node then PlacedNodeEvents(g.nodes, b) else [];
      AppendAssoc(old(events), w, p);
      AppendAssoc(old(events), w + p, dense);
      AppendAssoc(old(events), w + p + dense,
                  if callbacks.relation then RelationEvents(g.relations, table) else []);
      return Ok(());
    }

    /**
      One group of `handle_primitive_block`: its checks, then its elements
      handed to the callbacks. `Some(done)` when the checks end the block.
     */
    method HandleGroup(b: PrimitiveBlock, i: nat) returns (st: Status<Option<bool>>)
      requires i < |b.groups|
      modifies this
      ensures old(events) <= events
      ensures match st
                case Ok(None) =>
                  BlockFrom(old(Cur()), callbacks, b, i)
                  == Extended(events[|old(events)|..], BlockFrom(Cur(), callbacks, b, i + 1))
                case Ok(Some(done)) =>
                  BlockFrom(old(Cur()), callbacks, b, i) == Ok((done, Cur(), [])) && events == old(events)
                case Exit(code) => BlockFrom(old(Cur()), callbacks, b, i) == Exit(code)
                case Fault => BlockFrom(old(Cur()), callbacks, b, i) == Fault
    {
      var g := b.groups[i];
      var o := CheckGroup(g);
      if o.Exit? {
        return Exit(o.code);
      }
      if o.value.Return? {
        return Ok(Some(o.value.done));
      }
      ghost var e0 := events;
      var handed := Dispatch(g, b);
      if handed.Fault? {
        return Fault;
      }
      assert events[|e0|..] == GroupEvents(g, callbacks, b).value;
      return Ok(None);
    }

    /**
      `handle_primitive_block`: the checks on each group, then its elements
      handed to the callbacks. Returns whether reading is done.
     */
    method HandlePrimitiveBlock(b: PrimitiveBlock) returns (st: Status<bool>)
      modifies this
      ensures match BlockFrom(old(Cur()), callbacks, b, 0)
                case Ok((done, c, es)) => st == Ok(done) && Cur() == c && events == old(events) + es
                case Exit(code) => st == Exit(code)
                case Fault => st == Fault
      ensures old(events) <= events
    {
      var i := 0;
      ghost var acc: seq<Event> := [];
      ExtendedNil(BlockFrom(Cur(), callbacks, b, 0));
      while i < |b.groups|
        invariant i <= |b.groups|
        invariant events == old(events) + acc
        invariant BlockFrom(old(Cur()), callbacks, b, 0) == Extended(acc, BlockFrom(Cur(), callbacks, b, i))
        decreases |b.groups| - i
      {
        ghost var e0 := events;
        var handled := HandleGroup(b, i);
        if handled.Exit? {
          return Exit(handled.code);
        }
        if handled.Fault? {
          return Fault;
        }
        if handled.value.Some? {
          assert acc + [] == acc;
          return Ok(handled.value.value);
        }
        ghost var es := events[|e0|..];
        assert events == e0 + es;
        AppendAssoc(old(events), acc, es);
        ExtendedAssoc(acc, es, BlockFrom(Cur(), callbacks, b, i + 1));
        acc := acc + es;
        i := i + 1;
      }
      assert acc + [] == acc;
      return Ok(false);
    }

    /** `process_pbf_blob`. */
    method ProcessPbfBlob(h: BlobHeader, blob: Option<Blob>) returns (st: Status<bool>)
      modifies this
      ensures match BlobStep(old(Cur()), callbacks, codec, h, blob)
                case Ok((done, c, es)) => st == Ok(done) && Cur() == c && events == old(events) + es
                case Exit(code) => st == Exit(code)
                case Fault => st == Fault
      ensures old(events) <= events
    {
      if fastForward && block % FFWD_STRIDE != 0 {
        return Ok(false);
      }
      if blob.None? {
        return Fault;
      }
      var data := Payload(blob.value, codec);
      if data.Exit? {
        return Exit(data.code);
      }
      if block == 0 {
        if h.kind != "OSMHeader" || codec.unpackHeaderBlock(data.value).None? {
          return Exit(EXIT_FAILURE);
        }
        return Ok(false);
      }
      if h.kind != "OSMData" {
        return Exit(EXIT_FAILURE);
      }
      var pb := codec.unpackPrimitiveBlock(data.value);
      if pb.None? {
        return Exit(EXIT_FAILURE);
      }
      st := HandlePrimitiveBlock(pb.value);
    }

    /** One turn of the loop of `pbf_read`; `slab` is reset after every fileblock. */
    method ReadFileblock(slab: SlabAlloc.Slab) returns (st: Status<bool>)
      modifies this, slab
      ensures match FileblockStep(old(Cur()), callbacks, codec, file)
                case Ok((stop, c, es)) => st == Ok(stop) && Cur() == c && events == old(events) + es
                case Exit(code) => st == Exit(code)
                case Fault => st == Fault
      ensures st.Ok? ==> slab.State() == SlabAlloc.ResetStep(old(slab.State()))
      ensures old(events) <= events
    {
      blockPos := pos;
      var fr := ReadFrame(file, pos, codec);
      if !fr.Ok? {
        return if fr.Fault? then Fault else Exit(fr.code);
      }
      pos := fr.value.next;
      var done := ProcessPbfBlob(fr.value.header, fr.value.blob);
      if !done.Ok? {
        return if done.Fault? then Fault else Exit(done.code);
      }
      slab.Reset();
      var stop := EndFileblock(done.value);
      return Ok(stop);
    }

    /** The end of `read_fileblock`, after the blob. */
    method EndFileblock(done: bool) returns (stop: bool)
      modifies this
      ensures (stop, Cur()) == FileblockEnd(old(Cur()), done, |file|)
      ensures events == old(events)
    {
      block := block + 1;
      if done {
        return true;
      }
      if pos >= |file| {
        if fastForward {
          var _ := Rewind();
          return false;
        }
        return true;
      }
      return false;
    }

    /**
      `pbf_read`: set up the slab allocator (given what `malloc` returned), then
      read fileblocks until the callbacks are done or the file ends, rewinding
      once if the end comes while fast-forwarding; finally free the slab.
     */
    method Read(slab: SlabAlloc.Slab, base: nat) returns (st: Status<()>)
      modifies this, slab
      ensures old(slab.slab) != SlabAlloc.NULL ==> st == Exit(EXIT_FAILURE) && events == old(events)
      ensures st.Ok? ==> old(slab.slab) == SlabAlloc.NULL && !slab.held && slab.slab == base
      ensures st.Ok? ==> Inv(Cur(), |file|)
      ensures old(events) <= events
    {
      var init := slab.Init(SLAB_SIZE, base);
      if init.Exit? {
        return Exit(init.code);
      }
      SetCursor(Start);
      ghost var before := events;
      var stop := false;
      while !stop
        invariant Inv(Cur(), |file|)
        invariant before <= events
        invariant slab.slab == base && slab.held
        decreases !stop, if slowSeek then 0 else 1, |file| - pos
      {
        ghost var c := Cur();
        var r := ReadFileblock(slab);
        if !r.Ok? {
          return if r.Fault? then Fault else Exit(r.code);
        }
        FileblockStepProgress(c, callbacks, codec, file);
        stop := r.value;
      }
      slab.Done();
      return Ok(());
    }
  }

  /** Events already made in front of the events of the rest of a computation. */
  function Extended(acc: seq<Event>, rest: Status<(bool, Cursor, seq<Event>)>): Status<(bool, Cursor, seq<Event>)>
  {
    match rest
      case Ok((done, c, es)) => Ok((done, c, acc + es))
      case Exit(code) => Exit(code)
      case Fault => Fault
  }

  lemma ExtendedNil(r: Status<(bool, Cursor, seq<Event>)>)
    ensures Extended([], r) == r
  {
    if r.Ok? {
      assert [] + r.value.2 == r.value.2;
    }
  }

  lemma ExtendedAssoc(acc: seq<Event>, es: seq<Event>, r: Status<(bool, Cursor, seq<Event>)>)
    ensures Extended(acc, Extended(es, r)) == Extended(acc + es, r)
  {
    if r.Ok? {
      assert acc + (es + r.value.2) == (acc + es) + r.value.2;
    }
  }

  /** Nodes already decoded in front of the rest of a decoding. */
  function Prefixed(out: seq<Node>, rest: Status<seq<Node>>): Status<seq<Node>>
  {
    match rest
      case Ok(ns) => Ok(out + ns)
      case Exit(code) => Exit(code)
      case Fault => Fault
  }

  lemma PrefixedNil(r: Status<seq<Node>>)
    ensures Prefixed([], r) == r
  {
    if r.Ok? {
      assert [] + r.value == r.value;
    }
  }

  lemma PrefixedSnoc(out: seq<Node>, x: Node, r: Status<seq<Node>>)
    ensures Prefixed(out, Prefixed([x], r)) == Prefixed(out + [x], r)
  {
    if r.Ok? {
      assert out + ([x] + r.value) == (out + [x]) + r.value;
    }
  }

  lemma WayEventsSnoc(ws: seq<Way>, w: Way, table: seq<bytes>)
    ensures WayEvents(ws + [w], table) == WayEvents(ws, table) + [WayEvent(w, table)]
  {
    if ws != [] {
      assert (ws + [w])[1..] == ws[1..] + [w];
      WayEventsSnoc(ws[1..], w, table);
    }
  }

  lemma PlacedNodeEventsSnoc(ns: seq<Node>, n: Node, b: PrimitiveBlock)
    ensures PlacedNodeEvents(ns + [n], b) == PlacedNodeEvents(ns, b) + [NodeEvent(Placed(n, b), b.stringTable)]
  {
    if ns != [] {
      assert (ns + [n])[1..] == ns[1..] + [n];
      PlacedNodeEventsSnoc(ns[1..], n, b);
    }
  }

  lemma RelationEventsSnoc(rs: seq<Relation>, r: Relation, table: seq<bytes>)
    ensures RelationEvents(rs + [r], table) == RelationEvents(rs, table) + [RelationEvent(r, table)]
  {
    if rs != [] {
      assert (rs + [r])[1..] == rs[1..] + [r];
      RelationEventsSnoc(rs[1..], r, table);
    }
  }
}
