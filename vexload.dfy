/**
  The loading side of vex.c: the way filter (`accept_way`), the way and node
  handlers that fill the database, and the two reading passes of `main`'s
  load action. A handler's stored record is the value it returns; the
  database (LMDB) and the progress counters are outside the model.
 */
module VexLoad {
  import opened Common
  import opened Osm
  import Varint
  import Delta
  import IdTracker
  import SlabAlloc
  import PbfRead
  import opened Vex

  // ---------------------------------------------------------------------
  // The way filter (`accept_way`)
  // ---------------------------------------------------------------------

  /** Every tag in `[lo, hi)` has its key and value indexes in range. */
  predicate Indexed(way: Way, table: seq<bytes>, lo: nat, hi: nat)
  {
    forall i :: lo <= i < hi ==> TagAt(way.keys, way.vals, table, i).Some?
  }

  /**
    Tag `t` makes `accept_way` take the way: `memcmp` over the stored length
    finds its key to be a prefix of "highway" or its value a prefix of "platform".
   */
  predicate MatchAt(way: Way, table: seq<bytes>, t: nat)
  {
    TagAt(way.keys, way.vals, table, t).Some? &&
    (MemPrefix("highway", TagAt(way.keys, way.vals, table, t).value.0) ||
     MemPrefix("platform", TagAt(way.keys, way.vals, table, t).value.1))
  }

  /**
    `accept_way` from tag `t` on: the first tag that matches takes the way,
    an index outside the string table or the value array faults first.
   */
  function AcceptFrom(way: Way, table: seq<bytes>, t: nat): (r: Status<bool>)
    requires t <= |way.keys|
    ensures !r.Exit?
    ensures r == Ok(true) <==> exists i :: t <= i < |way.keys| && Indexed(way, table, t, i) && MatchAt(way, table, i)
    ensures r == Ok(false) <==> Indexed(way, table, t, |way.keys|) && forall i :: t <= i < |way.keys| ==> !MatchAt(way, table, i)
    decreases |way.keys| - t
  {
    if t == |way.keys| then Ok(false)
    else if TagAt(way.keys, way.vals, table, t).None? then Fault
    else if MatchAt(way, table, t) then
      assert Indexed(way, table, t, t);
      Ok(true)
    else
      var r := AcceptFrom(way, table, t + 1);
      assert r == Ok(true) ==> exists i :: t <= i < |way.keys| && Indexed(way, table, t, i) && MatchAt(way, table, i) by {
        if r == Ok(true) {
          var i :| t + 1 <= i < |way.keys| && Indexed(way, table, t + 1, i) && MatchAt(way, table, i);
          assert Indexed(way, table, t, i);
        }
      }
      r
  }

  /** `accept_way`: the loop over the way's tags. */
  method AcceptWay(way: Way, table: seq<bytes>) returns (st: Status<bool>)
    ensures st == AcceptFrom(way, table, 0)
  {
    for t := 0 to |way.keys|
      invariant AcceptFrom(way, table, 0) == AcceptFrom(way, table, t)
    {
      if !(t < |way.vals| && 0 <= way.keys[t] < |table| && 0 <= way.vals[t] < |table|) {
        return Fault;
      }
      var key := table[way.keys[t]];
      var val := table[way.vals[t]];
      if MemPrefix("highway", key) || MemPrefix("platform", val) {
        return Ok(true);
      }
    }
    st := Ok(false);
  }

  /** "highway" and "platform" as bytes. */
  const HIGHWAY: bytes := [0x68, 0x69, 0x67, 0x68, 0x77, 0x61, 0x79]
  const PLATFORM: bytes := [0x70, 0x6c, 0x61, 0x74, 0x66, 0x6f, 0x72, 0x6d]

  /** The filter as its literals suggest: the key is "highway" or the value is "platform". */
  predicate MatchExactAt(way: Way, table: seq<bytes>, t: nat)
  {
    TagAt(way.keys, way.vals, table, t).Some? &&
    (TagAt(way.keys, way.vals, table, t).value.0 == HIGHWAY ||
     TagAt(way.keys, way.vals, table, t).value.1 == PLATFORM)
  }

  /** `accept_way` with whole-string comparison. */
  function AcceptExactFrom(way: Way, table: seq<bytes>, t: nat): (r: Status<bool>)
    requires t <= |way.keys|
    ensures !r.Exit?
    ensures r == Ok(true) <==> exists i :: t <= i < |way.keys| && Indexed(way, table, t, i) && MatchExactAt(way, table, i)
    ensures r == Ok(false) <==> Indexed(way, table, t, |way.keys|) && forall i :: t <= i < |way.keys| ==> !MatchExactAt(way, table, i)
    decreases |way.keys| - t
  {
    if t == |way.keys| then Ok(false)
    else if TagAt(way.keys, way.vals, table, t).None? then Fault
    else if MatchExactAt(way, table, t) then
      assert Indexed(way, table, t, t);
      Ok(true)
    else
      var r := AcceptExactFrom(way, table, t + 1);
      assert r == Ok(true) ==> exists i :: t <= i < |way.keys| && Indexed(way, table, t, i) && MatchExactAt(way, table, i) by {
        if r == Ok(true) {
          var i :| t + 1 <= i < |way.keys| && Indexed(way, table, t + 1, i) && MatchExactAt(way, table, i);
          assert Indexed(way, table, t, i);
        }
      }
      r
  }

  /** A whole-string match is a prefix match. */
  lemma ExactMatchIsMatch(way: Way, table: seq<bytes>, t: nat)
    requires MatchExactAt(way, table, t)
    ensures MatchAt(way, table, t)
  {
    var (k, v) := TagAt(way.keys, way.vals, table, t).value;
    if k == HIGHWAY {
      assert MemPrefix("highway", k);
    } else {
      assert MemPrefix("platform", v);
    }
  }

  /** Every way the whole-string filter takes, the filter as written takes too. */
  lemma {:induction false} AcceptExactImpliesAccept(way: Way, table: seq<bytes>, t: nat)
    requires t <= |way.keys|
    requires AcceptExactFrom(way, table, t) == Ok(true)
    ensures AcceptFrom(way, table, t) == Ok(true)
    decreases |way.keys| - t
  {
    if MatchExactAt(way, table, t) {
      ExactMatchIsMatch(way, table, t);
    } else if !MatchAt(way, table, t) {
      AcceptExactImpliesAccept(way, table, t + 1);
    }
  }

  /**
    The prefix test takes a way whose only tag has an empty value, or a key
    that is a proper prefix of "highway", such as "high".
   */
  lemma AcceptTakesPrefixes()
    ensures var way := Way(1, [0], [1], [1, 1]);
            AcceptFrom(way, [[0x6e, 0x61, 0x6d, 0x65], []], 0) == Ok(true) &&
            AcceptExactFrom(way, [[0x6e, 0x61, 0x6d, 0x65], []], 0) == Ok(false)
    ensures var way := Way(1, [0], [1], [1, 1]);
            AcceptFrom(way, [[0x68, 0x69, 0x67, 0x68], [0x78]], 0) == Ok(true) &&
            AcceptExactFrom(way, [[0x68, 0x69, 0x67, 0x68], [0x78]], 0) == Ok(false)
  {
    var way := Way(1, [0], [1], [1, 1]);
    assert MatchAt(way, [[0x6e, 0x61, 0x6d, 0x65], []], 0);
    assert !MatchExactAt(way, [[0x6e, 0x61, 0x6d, 0x65], []], 0);
    var high: bytes := [0x68, 0x69, 0x67, 0x68];
    assert MemPrefix("highway", high);
    assert MatchAt(way, [high, [0x78]], 0);
    assert |high| != |HIGHWAY| && |[0x78]| != |PLATFORM|;
    assert !MatchExactAt(way, [high, [0x78]], 0);
  }

  // ---------------------------------------------------------------------
  // Way records (`handle_way`)
  // ---------------------------------------------------------------------

  /** The delta-coded node refs as `handle_way` copies them: one `sint64_pack` each, in order. */
  function RefsBytes(refs: seq<int>): (r: bytes)
    ensures |r| >= |refs|
  {
    if refs == [] then [] else RefsBytes(refs[..|refs| - 1]) + Varint.EncodeSigned(refs[|refs| - 1])
  }

  lemma {:induction false} RefsBytesCons(x: int, refs: seq<int>)
    ensures RefsBytes([x] + refs) == Varint.EncodeSigned(x) + RefsBytes(refs)
    decreases |refs|
  {
    if refs == [] {
      assert ([x] + refs)[..0] == [];
    } else {
      var init := refs[..|refs| - 1];
      assert ([x] + refs)[..|refs|] == [x] + init;
      RefsBytesCons(x, init);
      AppendAssoc(Varint.EncodeSigned(x), RefsBytes(init), Varint.EncodeSigned(refs[|refs| - 1]));
    }
  }

  /** Reads `n` signed varints: the values and the number of bytes they took. */
  function RefsRead(b: bytes, n: nat): (r: Option<(seq<int>, nat)>)
    ensures r.Some? ==> |r.value.0| == n && r.value.1 <= |b|
  {
    if n == 0 then Some(([], 0))
    else match Varint.Decode(b)
      case None => None
      case Some((z, k)) =>
        match RefsRead(b[k..], n - 1)
          case None => None
          case Some((rs, m)) => Some(([Varint.UnZigZag(z)] + rs, k + m))
  }

  /** What follows a known first piece of a concatenation. */
  lemma DropOne(a: bytes, c: bytes)
    ensures (a + c)[|a|..] == c
  {
  }

  /** The stored refs read back as the refs, and take exactly their own bytes. */
  lemma {:induction false} RefsRoundTrip(refs: seq<int>, rest: bytes)
    ensures RefsRead(RefsBytes(refs) + rest, |refs|) == Some((refs, |RefsBytes(refs)|))
    decreases |refs|
  {
    if refs != [] {
      var x, tail := refs[0], refs[1..];
      assert refs == [x] + tail;
      RefsBytesCons(x, tail);
      var e, tb := Varint.EncodeSigned(x), RefsBytes(tail) + rest;
      AppendAssoc(e, RefsBytes(tail), rest);
      Varint.DecodeEncodeSigned(x, tb);
      DropOne(e, tb);
      RefsRoundTrip(tail, rest);
      var d := Varint.Decode(e + tb).value;
      RefsReadCons(RefsBytes(refs) + rest, |refs|, d.0, d.1, tail, |RefsBytes(tail)|, refs, |RefsBytes(refs)|);
    }
  }

  /** Reading `n > 0` refs: the first varint, then `n - 1` refs from where it ends. */
  lemma RefsReadCons(b: bytes, n: nat, z: int, k: nat, rs: seq<int>, m: nat, all: seq<int>, len: nat)
    requires n > 0 && Varint.Decode(b) == Some((z, k)) && k <= |b|
    requires RefsRead(b[k..], n - 1) == Some((rs, m))
    requires all == [Varint.UnZigZag(z)] + rs && len == k + m
    ensures RefsRead(b, n) == Some((all, len))
  {
  }

  /** The head of a way record: the number of refs, then the refs. */
  function WayHead(refs: seq<int>): bytes
  {
    Varint.Encode(|refs|) + RefsBytes(refs)
  }

  /**
    The record `handle_way` stores for an accepted way with at least two
    refs, as written: the tags go through `write_tags` with the whole
    `NODE_BUF_LEN` as their limit although the head already fills part of
    `tempWay`, so a record longer than the buffer is written past its end
    (`Fault`); the refs are copied with no check at all. A tag overflow that
    makes `write_tags` die has already written past `tempWay`.
   */
  function WayRecord(way: Way, table: seq<bytes>, encode: TagEncoder): (r: Status<bytes>)
    ensures !r.Exit?
    ensures r.Ok? ==> |r.value| <= NODE_BUF_LEN
    ensures r.Ok? ==> TagRecord(way.keys, way.vals, table, encode, NODE_BUF_LEN).Ok? &&
                      r.value == WayHead(way.refs) + TagRecord(way.keys, way.vals, table, encode, NODE_BUF_LEN).value
  {
    var head := WayHead(way.refs);
    if |head| > NODE_BUF_LEN then Fault
    else match TagRecord(way.keys, way.vals, table, encode, NODE_BUF_LEN)
      case Ok(tags) => if |head| + |tags| > NODE_BUF_LEN then Fault else Ok(head + tags)
      case Exit(_) => Fault
      case Fault => Fault
  }

  /** `handle_way` with the tag limit reduced by what the head already uses, and a check on the head. */
  function WayRecordFixed(way: Way, table: seq<bytes>, encode: TagEncoder): (r: Status<bytes>)
  {
    var head := WayHead(way.refs);
    if |head| >= NODE_BUF_LEN then Exit(EXIT_FAILURE)
    else match TagRecord(way.keys, way.vals, table, encode, NODE_BUF_LEN - |head|)
      case Ok(tags) => Ok(head + tags)
      case Exit(c) => Exit(c)
      case Fault => Fault
  }

  /** With the reduced limit a stored way always fits in `tempWay`, and only a bad index faults. */
  lemma WayRecordFixedFits(way: Way, table: seq<bytes>, encode: TagEncoder)
    ensures var r := WayRecordFixed(way, table, encode);
            (r.Ok? ==> |r.value| <= NODE_BUF_LEN) &&
            (r.Exit? ==> r.code == EXIT_FAILURE) &&
            ((forall i :: 0 <= i < |way.keys| ==> TagAt(way.keys, way.vals, table, i).Some?) ==> !r.Fault?)
  {
    var head := WayHead(way.refs);
    if |head| < NODE_BUF_LEN && forall i :: 0 <= i < |way.keys| ==> TagAt(way.keys, way.vals, table, i).Some? {
      TagsUpToNoFault(way.keys, way.vals, table, encode, NODE_BUF_LEN - |head|, |way.keys|);
    }
  }

  /**
    A stored way reads back: the ref count, the refs themselves, and then
    the tag record, which reads back by `TagRecordCount` and `TagRecordItem`.
   */
  lemma WayRecordReadsBack(way: Way, table: seq<bytes>, encode: TagEncoder)
    requires WayRecord(way, table, encode).Ok?
    ensures var rec := WayRecord(way, table, encode).value;
            var k := |Varint.Encode(|way.refs|)|;
            var m := |RefsBytes(way.refs)|;
            Varint.Decode(rec) == Some((|way.refs|, k)) &&
            RefsRead(rec[k..], |way.refs|) == Some((way.refs, m)) &&
            rec[k + m..] == TagRecord(way.keys, way.vals, table, encode, NODE_BUF_LEN).value
  {
    var e, rb := Varint.Encode(|way.refs|), RefsBytes(way.refs);
    var tags := TagRecord(way.keys, way.vals, table, encode, NODE_BUF_LEN).value;
    AppendAssoc(e, rb, tags);
    Varint.DecodeEncode(|way.refs|, rb + tags);
    DropOne(e, rb + tags);
    RefsRoundTrip(way.refs, tags);
    DropTwo(e, rb, tags);
  }

  /** "source" as bytes. */
  const SOURCE: bytes := [0x73, 0x6f, 0x75, 0x72, 0x63, 0x65]

  /** A string table and way whose stored form just passes `tempWay` (see `WayRecordOverflows`). */
  const LONG_VALUE: bytes := seq(NODE_BUF_LEN - 21, _ => 0x61)
  const OVERFLOW_TABLE: seq<bytes> := [SOURCE, LONG_VALUE, []]
  const OVERFLOW_WAY: Way := Way(1, [0, 0], [1, 2], [1, 1])

  /** The two tags of `OVERFLOW_WAY` take `NODE_BUF_LEN - 10` and 9 bytes. */
  lemma OverflowItemSizes()
    ensures |ItemsBytes([Freetext(SOURCE, LONG_VALUE)])| == NODE_BUF_LEN - 10
    ensures |ItemsBytes([Freetext(SOURCE, LONG_VALUE), Freetext(SOURCE, [])])| == NODE_BUF_LEN - 1
  {
    var n := NODE_BUF_LEN - 21;
    assert Varint.Encode(n / 0x4000) == [n / 0x4000];
    assert |Varint.Encode(n / 0x80)| == 2;
    assert |Varint.Encode(n)| == 3;
    var i0, i1 := Freetext(SOURCE, LONG_VALUE), Freetext(SOURCE, []);
    assert |ItemBytes(i0)| == NODE_BUF_LEN - 10;
    assert |ItemBytes(i1)| == 9;
    ItemsBytesSnoc([], i0);
    ItemsBytesSnoc([i0], i1);
    assert [] + [i0] == [i0];
    assert [i0] + [i1] == [i0, i1];
  }

  /** `write_tags` on `OVERFLOW_WAY` fits a limit of `NODE_BUF_LEN` and dies on anything smaller. */
  lemma OverflowTags(encode: TagEncoder, buflen: nat)
    requires NODE_BUF_LEN - 3 <= buflen
    ensures TagRecord(OVERFLOW_WAY.keys, OVERFLOW_WAY.vals, OVERFLOW_TABLE, encode, buflen)
            == if buflen >= NODE_BUF_LEN
               then Ok(Varint.Encode(2) + ItemsBytes([Freetext(SOURCE, LONG_VALUE), Freetext(SOURCE, [])]))
               else Exit(EXIT_FAILURE)
  {
    OverflowSecondTag(encode, buflen);
  }

  /** Tags keyed "source" are always stored as free text. */
  lemma SourceIsFreetext()
    ensures ForcedFreetext(SOURCE)
  {
    assert Head6("source", SOURCE) by {
      assert forall i :: 0 <= i < 6 ==> SOURCE[i] == "source"[i] as int;
    }
  }

  /** The first tag of `OVERFLOW_WAY` fits any limit from `NODE_BUF_LEN - 3`. */
  lemma OverflowFirstTag(encode: TagEncoder, buflen: nat)
    requires NODE_BUF_LEN - 3 <= buflen
    ensures TagsUpTo(OVERFLOW_WAY.keys, OVERFLOW_WAY.vals, OVERFLOW_TABLE, encode, buflen, 1)
            == Ok([Freetext(SOURCE, LONG_VALUE)])
  {
    var keys, vals := OVERFLOW_WAY.keys, OVERFLOW_WAY.vals;
    var i0 := Freetext(SOURCE, LONG_VALUE);
    SourceIsFreetext();
    assert ItemAt(keys, vals, OVERFLOW_TABLE, encode, 0) == i0;
    OverflowItemSizes();
    assert |Varint.Encode(2)| == 1;
    TagsUpToStep(keys, vals, OVERFLOW_TABLE, encode, buflen, 0, []);
    assert [] + [i0] == [i0];
  }

  /** The second tag of `OVERFLOW_WAY` brings the record to exactly `NODE_BUF_LEN` bytes. */
  lemma OverflowSecondTag(encode: TagEncoder, buflen: nat)
    requires NODE_BUF_LEN - 3 <= buflen
    ensures TagsUpTo(OVERFLOW_WAY.keys, OVERFLOW_WAY.vals, OVERFLOW_TABLE, encode, buflen, 2)
            == if buflen >= NODE_BUF_LEN
               then Ok([Freetext(SOURCE, LONG_VALUE), Freetext(SOURCE, [])])
               else Exit(EXIT_FAILURE)
  {
    var keys, vals := OVERFLOW_WAY.keys, OVERFLOW_WAY.vals;
    var i0, i1 := Freetext(SOURCE, LONG_VALUE), Freetext(SOURCE, []);
    OverflowFirstTag(encode, buflen);
    SourceIsFreetext();
    assert ItemAt(keys, vals, OVERFLOW_TABLE, encode, 1) == i1;
    OverflowItemSizes();
    assert |Varint.Encode(2)| == 1;
    TagsUpToStep(keys, vals, OVERFLOW_TABLE, encode, buflen, 1, [i0]);
    assert [i0] + [i1] == [i0, i1];
  }

  /**
    A way whose head takes 3 bytes and whose tags fill exactly
    `NODE_BUF_LEN` bytes: `write_tags` accepts the tags, so the record runs
    3 bytes past `tempWay`, where the reduced limit dies instead. The empty
    value of its second tag is what makes `accept_way` take it.
   */
  lemma WayRecordOverflows(encode: TagEncoder)
    ensures AcceptFrom(OVERFLOW_WAY, OVERFLOW_TABLE, 0) == Ok(true)
    ensures WayRecord(OVERFLOW_WAY, OVERFLOW_TABLE, encode) == Fault
    ensures WayRecordFixed(OVERFLOW_WAY, OVERFLOW_TABLE, encode) == Exit(EXIT_FAILURE)
  {
    var way, table := OVERFLOW_WAY, OVERFLOW_TABLE;
    assert MatchAt(way, table, 1);
    assert SOURCE[0] != 'h' as int && |LONG_VALUE| > |"platform"|;
    assert !MatchAt(way, table, 0);
    assert Indexed(way, table, 0, 1);
    assert [1, 1][..1] == [1] && [1][..0] == [];
    assert |Varint.EncodeSigned(1)| == 1;
    assert |RefsBytes([1, 1])| == 2;
    assert |WayHead(way.refs)| == 3;
    OverflowTags(encode, NODE_BUF_LEN);
    OverflowItemSizes();
    OverflowTags(encode, NODE_BUF_LEN - 3);
  }

  // ---------------------------------------------------------------------
  // Node marking and the handlers
  // ---------------------------------------------------------------------

  /** An `int64_t` id handed to a `uint64_t` parameter. */
  function U64(x: int): (r: u64)
    ensures 0 <= x < TWO_64 ==> r == x
  {
    x % TWO_64
  }

  /** The id `handle_way` marks after ref `r`: the running sum of the deltas so far. */
  function Mark(refs: seq<int>, r: nat): u64
    requires r < |refs|
  {
    U64(Delta.Sum(refs[..r + 1]))
  }

  /** The ids marked for the first `j` refs. */
  function MarkSet(refs: seq<int>, j: nat): (m: set<nat>)
    requires j <= |refs|
    ensures forall r :: 0 <= r < j ==> Mark(refs, r) in m
  {
    set r | 0 <= r < j :: Mark(refs, r) as nat
  }

  /** The first `j` marks are ids the tracker can hold. */
  predicate MarksFit(refs: seq<int>, j: nat)
    requires j <= |refs|
  {
    forall r :: 0 <= r < j ==> Mark(refs, r) < IdTracker.MAX_ID
  }

  /** For refs delta-coded from a list of ids, the marked ids are those ids. */
  lemma MarksAreIds(ids: seq<int>)
    ensures MarkSet(Delta.Deltas(ids, 0), |ids|) == set i | 0 <= i < |ids| :: U64(ids[i]) as nat
  {
    var ds := Delta.Deltas(ids, 0);
    var marked := MarkSet(ds, |ids|);
    var wanted := set i | 0 <= i < |ids| :: U64(ids[i]) as nat;
    forall r | 0 <= r < |ids|
      ensures Mark(ds, r) == U64(ids[r])
    {
      MarkIsId(ids, ds, r);
    }
    assert marked <= wanted by {
      forall x | x in marked ensures x in wanted {
        var r :| 0 <= r < |ids| && x == Mark(ds, r) as nat;
        assert x == U64(ids[r]) as nat;
      }
    }
    assert wanted <= marked by {
      forall x | x in wanted ensures x in marked {
        var r :| 0 <= r < |ids| && x == U64(ids[r]) as nat;
        assert x == Mark(ds, r) as nat;
      }
    }
  }

  /** Mark `r` of the refs delta-coded from `ids` is id `r`. */
  lemma MarkIsId(ids: seq<int>, ds: seq<int>, r: nat)
    requires ds == Delta.Deltas(ids, 0) && r < |ids|
    ensures Mark(ds, r) == U64(ids[r])
  {
    var sum := Delta.Sum(ds[..r + 1]);
    Delta.RunningSumsOfDeltas(ids, 0);
    Delta.RunningSumsAt(ds, 0, r);
    assert ids[r] == sum;
  }

  /** What a handler reports: the record it stores, or nothing stored. */
  function Stored(r: Status<bytes>): (s: Status<Option<bytes>>)
    ensures r.Ok? <==> s.Ok?
    ensures s.Ok? ==> s.value == Some(r.value)
    ensures r.Exit? ==> s == Exit(r.code)
    ensures r.Fault? ==> s.Fault?
  {
    match r
      case Ok(b) => Ok(Some(b))
      case Exit(c) => Exit(c)
      case Fault => Fault
  }

  /**
    The ref loop of `handle_way`: write the ref count and each delta, and
    mark each running sum in the tracker; an id past 2^32 exits with -12
    with the ids before it marked.
   */
  method WriteRefs(tracker: IdTracker.Tracker, refs: seq<int>) returns (st: Status<bytes>)
    requires tracker.Valid()
    modifies tracker.bins
    ensures tracker.Valid()
    ensures !MarksFit(refs, |refs|) ==>
              st == Exit(-12) &&
              exists j :: 0 <= j < |refs| && MarksFit(refs, j) && Mark(refs, j) >= IdTracker.MAX_ID &&
                          tracker.Members() == old(tracker.Members()) + MarkSet(refs, j)
    ensures MarksFit(refs, |refs|) ==>
              st == Ok(WayHead(refs)) && tracker.Members() == old(tracker.Members()) + MarkSet(refs, |refs|)
  {
    var count := Varint.Encode(|refs|);
    var b := count;
    var nodeRef := 0;
    for r := 0 to |refs|
      invariant tracker.Valid()
      invariant nodeRef == Delta.Sum(refs[..r])
      invariant b == count + RefsBytes(refs[..r])
      invariant MarksFit(refs, r)
      invariant tracker.Members() == old(tracker.Members()) + MarkSet(refs, r)
    {
      RefStep(refs, r, count, b, nodeRef);
      b := b + Varint.EncodeSigned(refs[r]);
      nodeRef := nodeRef + refs[r];
      var marked := tracker.Set(U64(nodeRef));
      if marked.Exit? {
        assert MarksFit(refs, r) && Mark(refs, r) >= IdTracker.MAX_ID &&
               tracker.Members() == old(tracker.Members()) + MarkSet(refs, r);
        return Exit(marked.code);
      }
    }
    assert refs[..|refs|] == refs;
    st := Ok(b);
  }

  /** One pass of the ref loop: the bytes, the running sum and the marks grow by ref `r`. */
  lemma RefStep(refs: seq<int>, r: nat, count: bytes, b: bytes, nodeRef: int)
    requires r < |refs| && nodeRef == Delta.Sum(refs[..r]) && b == count + RefsBytes(refs[..r])
    ensures b + Varint.EncodeSigned(refs[r]) == count + RefsBytes(refs[..r + 1])
    ensures nodeRef + refs[r] == Delta.Sum(refs[..r + 1])
    ensures U64(nodeRef + refs[r]) == Mark(refs, r)
    ensures MarkSet(refs, r + 1) == MarkSet(refs, r) + {Mark(refs, r) as nat}
    ensures MarksFit(refs, r) && Mark(refs, r) < IdTracker.MAX_ID ==> MarksFit(refs, r + 1)
  {
    RefBytesStep(refs, r, count, b);
    RefSumStep(refs, r, nodeRef);
    MarkSetStep(refs, r);
  }

  lemma RefBytesStep(refs: seq<int>, r: nat, count: bytes, b: bytes)
    requires r < |refs| && b == count + RefsBytes(refs[..r])
    ensures b + Varint.EncodeSigned(refs[r]) == count + RefsBytes(refs[..r + 1])
  {
    assert refs[..r + 1][..r] == refs[..r];
    AppendAssoc(count, RefsBytes(refs[..r]), Varint.EncodeSigned(refs[r]));
  }

  lemma RefSumStep(refs: seq<int>, r: nat, nodeRef: int)
    requires r < |refs| && nodeRef == Delta.Sum(refs[..r])
    ensures nodeRef + refs[r] == Delta.Sum(refs[..r + 1])
    ensures U64(nodeRef + refs[r]) == Mark(refs, r)
  {
    assert refs[..r + 1] == refs[..r] + [refs[r]];
    Delta.SumSnoc(refs[..r], refs[r]);
  }

  lemma MarkSetStep(refs: seq<int>, r: nat)
    requires r < |refs|
    ensures MarkSet(refs, r + 1) == MarkSet(refs, r) + {Mark(refs, r) as nat}
    ensures MarksFit(refs, r) && Mark(refs, r) < IdTracker.MAX_ID ==> MarksFit(refs, r + 1)
  {
  }

  /**
    `handle_way`: skip a way `accept_way` rejects or with fewer than two
    refs; otherwise write and mark the refs, then the tags.
   */
  method HandleWay(tracker: IdTracker.Tracker, way: Way, table: seq<bytes>, encode: TagEncoder)
    returns (st: Status<Option<bytes>>)
    requires tracker.Valid()
    modifies tracker.bins
    ensures tracker.Valid()
    ensures var acc := AcceptFrom(way, table, 0);
            !acc.Ok? || !acc.value || |way.refs| < 2 ==>
              tracker.Members() == old(tracker.Members()) &&
              st == (if acc.Fault? then Fault else Ok(None))
    ensures var acc := AcceptFrom(way, table, 0);
            acc == Ok(true) && |way.refs| >= 2 && !MarksFit(way.refs, |way.refs|) ==>
              st == Exit(-12) &&
              exists j :: 0 <= j < |way.refs| && MarksFit(way.refs, j) && Mark(way.refs, j) >= IdTracker.MAX_ID &&
                          tracker.Members() == old(tracker.Members()) + MarkSet(way.refs, j)
    ensures var acc := AcceptFrom(way, table, 0);
            acc == Ok(true) && |way.refs| >= 2 && MarksFit(way.refs, |way.refs|) ==>
              tracker.Members() == old(tracker.Members()) + MarkSet(way.refs, |way.refs|) &&
              st == Stored(WayRecord(way, table, encode))
  {
    var acc := AcceptWay(way, table);
    if acc.Fault? {
      return Fault;
    }
    if !acc.value || |way.refs| < 2 {
      return Ok(None);
    }
    var head := WriteRefs(tracker, way.refs);
    if head.Exit? {
      return Exit(head.code);
    }
    var b := head.value;
    if |b| > NODE_BUF_LEN {
      return Fault;
    }
    var tags := WriteTags(way.keys, way.vals, table, encode, NODE_BUF_LEN);
    if tags.Ok? && |b| + |tags.value| <= NODE_BUF_LEN {
      st := Ok(Some(b + tags.value));
    } else {
      st := Fault;
    }
  }

  /**
    The filter in `handle_node`: a node is stored only when the tracker
    holds its id, and then with its tag record (its coordinates are left out).
   */
  method HandleNode(tracker: IdTracker.Tracker, node: Node, table: seq<bytes>, encode: TagEncoder)
    returns (st: Status<Option<bytes>>)
    requires tracker.Valid()
    ensures U64(node.id) >= IdTracker.MAX_ID ==> st == Exit(-12)
    ensures U64(node.id) < IdTracker.MAX_ID && U64(node.id) !in tracker.Members() ==> st == Ok(None)
    ensures U64(node.id) in tracker.Members() ==> st == Stored(TagRecord(node.keys, node.vals, table, encode, NODE_BUF_LEN))
  {
    var marked := tracker.Get(U64(node.id));
    if marked.Exit? {
      return Exit(marked.code);
    }
    if !marked.value {
      return Ok(None);
    }
    var tags := WriteTags(node.keys, node.vals, table, encode, NODE_BUF_LEN);
    st := Stored(tags);
  }

  // ---------------------------------------------------------------------
  // The load action of `main`
  // ---------------------------------------------------------------------

  /**
    The load action: one pass over the file with only the way callback,
    then a second pass with only the node callback. `base1` and `base2` are
    what `malloc` returns for each pass's slab. The first pass leaves the
    slab pointer set (`slab_done` does not clear it), so the second pass
    always ends in `slab_init`'s "already initialized" exit, before the
    transaction is committed: the action never completes. `ways` holds the
    way records put into the uncommitted transaction. Way callbacks are
    handled after the pass has read the file.
   */
  method Load(file: bytes, codec: Codec, encode: TagEncoder, tracker: IdTracker.Tracker,
              slab: SlabAlloc.Slab, base1: nat, base2: nat)
    returns (st: Status<()>, ways: seq<bytes>)
    requires tracker.Valid() && slab.slab == SlabAlloc.NULL
    modifies tracker.bins, slab
    ensures base1 != SlabAlloc.NULL ==> !st.Ok?
  {
    ways := [];
    var wayPass := new PbfRead.Reader(file, PbfRead.Callbacks(false, true, false), codec);
    var read := wayPass.Read(slab, base1);
    if !read.Ok? {
      return (if read.Exit? then Exit(read.code) else Fault), ways;
    }
    var events := wayPass.events;
    for i := 0 to |events|
      invariant tracker.Valid() && slab.slab == base1
    {
      if events[i].WayEvent? {
        var handled := HandleWay(tracker, events[i].way, events[i].table, encode);
        if !handled.Ok? {
          return (if handled.Exit? then Exit(handled.code) else Fault), ways;
        }
        if handled.value.Some? {
          ways := ways + [handled.value.value];
        }
      }
    }
    var nodePass := new PbfRead.Reader(file, PbfRead.Callbacks(true, false, false), codec);
    read := nodePass.Read(slab, base2);
    st := if read.Exit? then Exit(read.code) else if read.Fault? then Fault else Ok(());
  }
}
