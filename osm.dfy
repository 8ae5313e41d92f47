/**
  The OpenStreetMap PBF messages that pbf-read.c and pbf-write.c exchange with
  protobuf-c, the fileblock framing of the format ("File format" in the
  OpenStreetMap PBF format description), and the element types of vex.h.
  protobuf-c and zlib are foreign: their functions travel in a `Codec` value.
 */
module Osm {
  import opened Common

  /** vex.h:9-11: the order in which element types appear in a file. */
  const NODE: int := 0
  const WAY: int := 1
  const RELATION: int := 2

  /** `OSMPBF__BlobHeader`: the blob's type string and its packed size (an int32 field). */
  datatype BlobHeader = BlobHeader(kind: string, datasize: int)

  /** `OSMPBF__Blob`: raw bytes, or zlib data with the uncompressed size. */
  datatype Blob = Blob(raw: Option<bytes>, rawSize: Option<int>, zlibData: Option<bytes>)

  datatype HeaderBlock = HeaderBlock(requiredFeatures: seq<string>, writingProgram: string)

  /** String-table indexes of tag keys and values, in parallel sequences. */
  datatype Node = Node(id: int, lat: int, lon: int, keys: seq<int>, vals: seq<int>)

  datatype Way = Way(id: int, keys: seq<int>, vals: seq<int>, refs: seq<int>)

  datatype Relation = Relation(id: int, keys: seq<int>, vals: seq<int>,
                               rolesSid: seq<int>, memids: seq<int>, types: seq<int>)

  /**
    `OSMPBF__DenseNodes`: delta-coded ids and coordinates, and the tags of all
    nodes in one sequence, each node's run ended by index 0 (a zero-length string).
   */
  datatype DenseNodes = DenseNodes(id: seq<int>, lat: seq<int>, lon: seq<int>, keysVals: seq<int>)

  datatype PrimitiveGroup = PrimitiveGroup(nodes: seq<Node>, dense: Option<DenseNodes>,
                                           ways: seq<Way>, relations: seq<Relation>)

  datatype PrimitiveBlock = PrimitiveBlock(stringTable: seq<bytes>, granularity: Option<int>,
                                           latOffset: Option<int>, lonOffset: Option<int>,
                                           groups: seq<PrimitiveGroup>)

  /**
    The foreign functions: protobuf-c's pack and unpack (unpack gives `None`
    where protobuf-c returns `NULL`), zlib's `compress`, and the inflate of
    `zinflate` (`None` where zlib fails and the reader dies).
   */
  datatype Codec = Codec(
    unpackBlobHeader: bytes -> Option<BlobHeader>,
    unpackBlob: bytes -> Option<Blob>,
    unpackHeaderBlock: bytes -> Option<HeaderBlock>,
    unpackPrimitiveBlock: bytes -> Option<PrimitiveBlock>,
    packBlobHeader: BlobHeader -> bytes,
    packBlob: Blob -> bytes,
    packHeaderBlock: HeaderBlock -> bytes,
    packPrimitiveBlock: PrimitiveBlock -> bytes,
    compress: bytes -> Option<bytes>,
    inflate: bytes -> Option<bytes>)

  /** What a sound protobuf and zlib library provide: unpacking and inflating undo packing and compressing. */
  ghost predicate Inverse(c: Codec)
  {
    && (forall h :: c.unpackBlobHeader(c.packBlobHeader(h)) == Some(h))
    && (forall b :: c.unpackBlob(c.packBlob(b)) == Some(b))
    && (forall hb :: c.unpackHeaderBlock(c.packHeaderBlock(hb)) == Some(hb))
    && (forall pb :: c.unpackPrimitiveBlock(c.packPrimitiveBlock(pb)) == Some(pb))
    && (forall p, z :: c.compress(p) == Some(z) ==> c.inflate(z) == Some(p))
  }

  /** One fileblock: the header's length in four big-endian bytes, the header, the blob. */
  function Fileblock(header: bytes, blob: bytes): (r: bytes)
    requires |header| < TWO_32
    ensures |r| == 4 + |header| + |blob|
  {
    BigEndian32(|header|) + header + blob
  }

  /** One fileblock as the reader takes it apart: the header, the unpacked blob, and where the next fileblock starts. */
  datatype FrameRead = FrameRead(header: BlobHeader, blob: Option<Blob>, next: nat)

  /**
    The framing step of `pbf_read` at `pos` of the mapped file, as written: a
    header that does not unpack ends the process, but a blob that does not
    unpack is passed on as `None` because the check after it tests the header
    again. Reading past the end of the mapping is a `Fault`.
   */
  function ReadFrame(file: bytes, pos: nat, c: Codec): (r: Status<FrameRead>)
    ensures r.Ok? ==> pos + 4 <= r.value.next <= |file|
    ensures r.Exit? ==> r.code == EXIT_FAILURE
  {
    if pos + 4 > |file| then Fault
    else
      var len := ReadBigEndian32(file[pos..]);
      var q := pos + 4 + len;
      if q > |file| then Fault
      else match c.unpackBlobHeader(file[pos + 4..q])
        case None => Exit(EXIT_FAILURE)
        case Some(h) =>
          if h.datasize < 0 || q + h.datasize > |file| then Fault
          else Ok(FrameRead(h, c.unpackBlob(file[q..q + h.datasize]), q + h.datasize))
  }

  /** The framing step with the evidently intended check: a blob that does not unpack ends the process. */
  function ReadFrameChecked(file: bytes, pos: nat, c: Codec): (r: Status<FrameRead>)
    ensures r.Ok? ==> r.value.blob.Some?
    ensures r.Ok? ==> ReadFrame(file, pos, c) == r
    ensures ReadFrame(file, pos, c).Ok? && ReadFrame(file, pos, c).value.blob.None? ==> r == Exit(EXIT_FAILURE)
    ensures !ReadFrame(file, pos, c).Ok? ==> r == ReadFrame(file, pos, c)
  {
    match ReadFrame(file, pos, c)
      case Ok(f) => if f.blob.None? then Exit(EXIT_FAILURE) else Ok(f)
      case Exit(code) => Exit(code)
      case Fault => Fault
  }

  /**
    The as-written check lets an unreadable blob through: with a header whose
    datasize covers bytes that do not unpack as a blob, the step succeeds and
    hands on no blob, where the intended check exits.
   */
  lemma ReadFrameAdmitsMissingBlob(file: bytes, c: Codec)
    requires |file| >= 4
    requires var len := ReadBigEndian32(file);
             var q := 4 + len;
             q <= |file| && c.unpackBlobHeader(file[4..q]).Some? &&
             var h := c.unpackBlobHeader(file[4..q]).value;
             0 <= h.datasize && q + h.datasize <= |file| && c.unpackBlob(file[q..q + h.datasize]).None?
    ensures ReadFrame(file, 0, c).Ok? && ReadFrame(file, 0, c).value.blob.None?
    ensures ReadFrameChecked(file, 0, c) == Exit(EXIT_FAILURE)
  {
  }

  /**
    A fileblock written as `write_one_blob` lays it out, after any bytes
    already in the file, is read back by the reader's framing step: the same
    header, the same blob, and the next fileblock right after it.
   */
  lemma ReadFrameOfFileblock(prefix: bytes, h: BlobHeader, b: Blob, rest: bytes, c: Codec)
    requires Inverse(c)
    requires |c.packBlobHeader(h)| < TWO_32
    requires h.datasize == |c.packBlob(b)|
    ensures var fb := Fileblock(c.packBlobHeader(h), c.packBlob(b));
            ReadFrameChecked(prefix + fb + rest, |prefix|, c) == Ok(FrameRead(h, Some(b), |prefix| + |fb|))
  {
    var hb, bb := c.packBlobHeader(h), c.packBlob(b);
    var p := |prefix|;
    var m := prefix + Fileblock(hb, bb) + rest;
    assert m[p..] == BigEndian32(|hb|) + (hb + bb + rest);
    BigEndian32RoundTrip(|hb|, hb + bb + rest);
    assert m[p + 4..p + 4 + |hb|] == hb;
    assert m[p + 4 + |hb|..p + 4 + |hb| + |bb|] == bb;
  }
}
