/**
  The storage side of vex.c: database file names, grid bins, byte-array
  access and the compact tag records stored in the key-value database.
  `encode_tag` is foreign and arrives as a parameter; the database itself
  (LMDB) is outside the model, so a stored record is the value a handler
  returns.
 */
module Vex {
  import opened Common
  import opened Osm
  import Varint
  import IdTracker

  const GRID_BITS: nat := 14
  /** `GRID_DIM`: 2^GRID_BITS bins along each axis. */
  const GRID_DIM: nat := 0x4000
  /** `sizeof(path_buf)`. */
  const PATH_BUF_SIZE: nat := 512
  /** Size of the `tempNode.tags` and `tempWay` record buffers. */
  const NODE_BUF_LEN: nat := 0x10_0000

  type i8 = x: int | -0x80 <= x < 0x80

  /** `encode_tag` of tags.h: the code of a key/value pair. */
  type TagEncoder = (bytes, bytes) -> i8

  // ---------------------------------------------------------------------
  // Database paths (`make_db_path`)
  // ---------------------------------------------------------------------

  function DigitChar(d: nat): (c: char)
    requires d < 10
    ensures '0' <= c <= '9'
  {
    (0x30 + d) as char
  }

  function Pow10(k: nat): (p: nat)
    ensures p >= 1
  {
    if k == 0 then 1 else 10 * Pow10(k - 1)
  }

  /** The decimal digits of `n`, most significant first, as `%d` prints them. */
  function Decimal(n: nat): (s: string)
    ensures 1 <= |s|
    ensures forall i :: 0 <= i < |s| ==> '0' <= s[i] <= '9'
  {
    if n < 10 then [DigitChar(n)] else Decimal(n / 10) + [DigitChar(n % 10)]
  }

  /** A number below 10^k has at most `k` digits. */
  lemma {:induction false} DecimalLength(n: nat, k: nat)
    requires 1 <= k && n < Pow10(k)
    ensures |Decimal(n)| <= k
    decreases k
  {
    if n >= 10 {
      DecimalLength(n / 10, k - 1);
    }
  }

  /** `digits` padded on the left with '0' to `width` characters. */
  function ZeroPadded(digits: string, width: nat): (s: string)
    ensures |s| == if |digits| >= width then |digits| else width
    ensures s[|s| - |digits|..] == digits
  {
    if |digits| >= width then digits else seq(width - |digits|, _ => '0') + digits
  }

  /** `%03d`: at least three characters, zero-padded after any minus sign. */
  function Padded3(v: int): (s: string)
    ensures 3 <= |s|
  {
    if v < 0 then "-" + ZeroPadded(Decimal(-v), 2) else ZeroPadded(Decimal(v), 3)
  }

  /** `%03d` of a value of the `int` range takes at most 11 characters, and at most 10 when it is not negative. */
  lemma Padded3Length(v: int)
    requires -0x8000_0000 <= v < 0x8000_0000
    ensures |Padded3(v)| <= (if v < 0 then 11 else 10)
  {
    assert Pow10(10) == 10_000_000_000;
    if v < 0 {
      DecimalLength(-v, 10);
    } else {
      DecimalLength(v, 10);
    }
  }

  /** The database directory without one trailing '/'. */
  function Directory(db: string): (dir: string)
    requires |db| > 0
    ensures dir == db || (dir + "/" == db)
  {
    if db[|db| - 1] == '/' then db[..|db| - 1] else db
  }

  /**
    The text `sprintf` composes: directory, '/', name, and for a non-zero
    subfile '.' and the subfile number through `%03d`, which reads the
    unsigned argument as an `int`.
   */
  function PathText(db: string, name: string, subfile: u32): string
    requires |db| > 0
  {
    Directory(db) + "/" + name + (if subfile == 0 then "" else "." + Padded3(IdTracker.Int32Wrap(subfile)))
  }

  /** The bound on the name length as written: `sizeof(path_buf) - strlen(database_path) - 12` in `size_t`. */
  function NameLimitAsWritten(db: string): nat
  {
    (PATH_BUF_SIZE - |db| - 12) % TWO_64
  }

  /**
    `make_db_path` once the name length has passed: `die` for an empty
    database path, `Fault` when the text and its terminating NUL do not fit
    in `path_buf`, and otherwise the path.
   */
  function DbPathAfterCheck(db: string, name: string, subfile: u32): (r: Status<string>)
  {
    if |db| == 0 then Exit(EXIT_FAILURE)
    else
      var p := PathText(db, name, subfile);
      if |p| + 1 > PATH_BUF_SIZE then Fault else Ok(p)
  }

  /** `make_db_path` as written: `die` for a name that is too long by the unsigned bound, then the rest. */
  function DbPath(db: string, name: string, subfile: u32): (r: Status<string>)
    ensures r.Exit? <==> |name| >= NameLimitAsWritten(db) || |db| == 0
    ensures r.Exit? ==> r.code == EXIT_FAILURE
    ensures r.Ok? ==> |r.value| < PATH_BUF_SIZE
    ensures r.Ok? ==> Directory(db) + "/" + name <= r.value
    ensures r.Ok? && subfile == 0 ==> r.value == Directory(db) + "/" + name
  {
    if |name| >= NameLimitAsWritten(db) then Exit(EXIT_FAILURE)
    else DbPathAfterCheck(db, name, subfile)
  }

  /** `make_db_path` with the length check done in signed arithmetic. */
  function DbPathFixed(db: string, name: string, subfile: u32): (r: Status<string>)
  {
    if |name| + |db| + 12 >= PATH_BUF_SIZE then Exit(EXIT_FAILURE)
    else DbPathAfterCheck(db, name, subfile)
  }

  /** The path text takes at most the directory, the name and 12 more characters when the subfile is an `int`. */
  lemma PathTextLength(db: string, name: string, subfile: u32)
    requires |db| > 0 && subfile < 0x8000_0000
    ensures |PathText(db, name, subfile)| <= |db| + |name| + 12
  {
    var tail := if subfile == 0 then "" else "." + Padded3(IdTracker.Int32Wrap(subfile));
    if subfile != 0 {
      assert IdTracker.Int32Wrap(subfile) == subfile as int;
      Padded3Length(subfile as int);
    }
    assert |tail| <= 11;
    assert |PathText(db, name, subfile)| == |Directory(db)| + 1 + |name| + |tail|;
  }

  /** With the check in signed arithmetic every path the check lets through fits in `path_buf`. */
  lemma DbPathFixedFits(db: string, name: string, subfile: u32)
    requires subfile < 0x8000_0000
    ensures !DbPathFixed(db, name, subfile).Fault?
    ensures DbPathFixed(db, name, subfile).Exit? <==> |name| + |db| + 12 >= PATH_BUF_SIZE || |db| == 0
  {
    if |name| + |db| + 12 < PATH_BUF_SIZE && |db| > 0 {
      PathTextLength(db, name, subfile);
    }
  }

  /** For directories of at most 500 characters the unsigned check is the signed one. */
  lemma DbPathAgreesOnShortDirectories(db: string, name: string, subfile: u32)
    requires |db| <= 500
    ensures DbPath(db, name, subfile) == DbPathFixed(db, name, subfile)
  {
    assert NameLimitAsWritten(db) == PATH_BUF_SIZE - |db| - 12;
  }

  /**
    A directory of 510 characters makes the unsigned bound wrap to nearly
    2^64, so a name that cannot fit passes the check and `sprintf` writes
    past `path_buf` instead of the process dying.
   */
  lemma DbPathLongDirectoryOverflows(db: string)
    requires |db| == 510 && db[509] != '/'
    ensures DbPath(db, "nodes", 0).Fault?
    ensures DbPathFixed(db, "nodes", 0) == Exit(EXIT_FAILURE)
  {
    assert NameLimitAsWritten(db) == TWO_64 - 10;
    assert |PathText(db, "nodes", 0)| == 516;
  }

  /** The static `database_path` and `path_buf` that `make_db_path` reads and writes. */
  class PathBuffer {
    var databasePath: string
    const buf: array<char>

    constructor (databasePath: string)
      ensures this.databasePath == databasePath && buf.Length == PATH_BUF_SIZE && fresh(buf)
    {
      this.databasePath := databasePath;
      buf := new char[PATH_BUF_SIZE](_ => '\0');
    }

    /** `make_db_path`: on success `path_buf` holds the path and its terminating NUL. */
    method MakeDbPath(name: string, subfile: u32) returns (st: Status<()>)
      requires buf.Length == PATH_BUF_SIZE
      modifies buf
      ensures DbPath(databasePath, name, subfile).Exit? ==> st == Exit(DbPath(databasePath, name, subfile).code)
      ensures DbPath(databasePath, name, subfile).Fault? ==> st == Fault
      ensures DbPath(databasePath, name, subfile).Ok? ==>
                var p := DbPath(databasePath, name, subfile).value;
                st == Ok(()) && buf[..|p|] == p && buf[|p|] == '\0'
    {
      if |name| >= (PATH_BUF_SIZE - |databasePath| - 12) % TWO_64 {
        return Exit(EXIT_FAILURE);
      }
      if |databasePath| == 0 {
        return Exit(EXIT_FAILURE);
      }
      var text := PathText(databasePath, name, subfile);
      if |text| + 1 > buf.Length {
        return Fault;
      }
      forall i | 0 <= i < |text| {
        buf[i] := text[i];
      }
      buf[|text|] := '\0';
      assert buf[..|text|] == text;
      st := Ok(());
    }
  }

  // ---------------------------------------------------------------------
  // Grid bins (`bin`)
  // ---------------------------------------------------------------------

  /** `bin`: the top `GRID_BITS` bits of `xy` read as an unsigned 32-bit value. */
  function Bin(xy: int): (r: nat)
    requires -0x8000_0000 <= xy < 0x8000_0000
    ensures r < GRID_DIM
  {
    (xy % TWO_32) / 0x4_0000
  }

  /** Coordinates of the same sign keep their order in bins. */
  lemma BinMonotone(a: int, b: int)
    requires -0x8000_0000 <= a <= b < 0x8000_0000
    requires (a < 0) == (b < 0)
    ensures Bin(a) <= Bin(b)
  {
    if a < 0 {
      assert a % TWO_32 == a + TWO_32;
      assert b % TWO_32 == b + TWO_32;
    }
  }

  /** Negative coordinates land in the upper half of the bins, non-negative ones in the lower half. */
  lemma BinHalves(xy: int)
    requires -0x8000_0000 <= xy < 0x8000_0000
    ensures (xy < 0) <==> Bin(xy) >= GRID_DIM / 2
  {
    if xy < 0 {
      assert xy % TWO_32 == xy + TWO_32;
    }
  }

  /** Each bin covers 2^18 consecutive values of the unsigned reading. */
  lemma BinCell(xy: int)
    requires -0x8000_0000 <= xy < 0x8000_0000
    ensures Bin(xy) * 0x4_0000 <= xy % TWO_32 < (Bin(xy) + 1) * 0x4_0000
  {
  }

  // ---------------------------------------------------------------------
  // Length-prefixed byte strings (`bd_write`)
  // ---------------------------------------------------------------------

  /** What `bd_write` writes: the length as a varint, then the bytes. */
  function BdBytes(data: bytes): (r: bytes)
    ensures |r| == |Varint.Encode(|data|)| + |data|
  {
    Varint.Encode(|data|) + data
  }

  /** Reads one length-prefixed byte string: its bytes and the number of bytes it took. */
  function BdRead(b: bytes): (r: Option<(bytes, nat)>)
    ensures r.Some? ==> |r.value.0| < r.value.1 <= |b|
  {
    match Varint.Decode(b)
      case None => None
      case Some((len, k)) => if k + len <= |b| then Some((b[k..k + len], k + len)) else None
  }

  lemma BdRoundTrip(data: bytes, rest: bytes)
    ensures BdRead(BdBytes(data) + rest) == Some((data, |BdBytes(data)|))
  {
    var e := Varint.Encode(|data|);
    assert BdBytes(data) + rest == e + (data + rest);
    Varint.DecodeEncode(|data|, data + rest);
    assert (BdBytes(data) + rest)[|e|..|e| + |data|] == data;
  }

  /** `bd_write`: the length varint, then the bytes copied one at a time. */
  method BdWrite(data: bytes) returns (out: bytes)
    ensures out == BdBytes(data)
  {
    out := Varint.Encode(|data|);
    for i := 0 to |data|
      invariant out == Varint.Encode(|data|) + data[..i]
    {
      out := out + [data[i]];
      assert data[..i + 1] == data[..i] + [data[i]];
    }
    assert data[..|data|] == data;
  }

  // ---------------------------------------------------------------------
  // Tag records (`write_tags`)
  // ---------------------------------------------------------------------

  /**
    `memcmp(lit, data, |data|) == 0`: `data` is the first `|data|` bytes of
    the literal (an empty `data` always matches).
   */
  predicate MemPrefix(lit: string, data: bytes)
  {
    |data| <= |lit| && forall i :: 0 <= i < |data| ==> data[i] == lit[i] as int
  }

  /** `memcmp(lit, data, 6) == 0` for a six-character literal. */
  predicate Head6(lit: string, data: bytes)
    requires |lit| == 6
  {
    |data| >= 6 && forall i :: 0 <= i < 6 ==> data[i] == lit[i] as int
  }

  /** Keys whose tags are always stored as free text (code 0). */
  predicate ForcedFreetext(key: bytes)
  {
    MemPrefix("created_by", key) || MemPrefix("import_uuid", key) || MemPrefix("attribution", key)
    || Head6("source", key) || Head6("tiger:", key)
  }

  /** The code `write_tags` gives a tag. */
  function TagCode(key: bytes, val: bytes, encode: TagEncoder): (c: i8)
    ensures ForcedFreetext(key) ==> c == 0
  {
    if ForcedFreetext(key) then 0 else encode(key, val)
  }

  /** One stored tag, by the meaning of its code. */
  datatype TagItem =
    | Freetext(key: bytes, val: bytes)    // code 0: key and value spelled out
    | KnownKey(code: i8, val: bytes)      // negative code: the key by code, the value spelled out
    | KnownTag(code: i8)                  // positive code: the whole pair by code

  predicate ItemWf(item: TagItem)
  {
    match item
      case Freetext(_, _) => true
      case KnownKey(c, _) => c < 0
      case KnownTag(c) => c > 0
  }

  function ItemOf(key: bytes, val: bytes, code: i8): (item: TagItem)
    ensures ItemWf(item)
  {
    if code == 0 then Freetext(key, val) else if code < 0 then KnownKey(code, val) else KnownTag(code)
  }

  /** The `int8_t` code stored in a `uint8_t` byte. */
  function CodeByte(c: i8): byte
  {
    if c < 0 then c + 0x100 else c
  }

  function CodeOfByte(b: byte): i8
  {
    if b >= 0x80 then b - 0x100 else b
  }

  lemma CodeByteRoundTrip(c: i8)
    ensures CodeOfByte(CodeByte(c)) == c
  {
  }

  /** The bytes of one stored tag: the code byte, then what the code leaves spelled out. */
  function ItemBytes(item: TagItem): (r: bytes)
    ensures |r| >= 1
  {
    match item
      case Freetext(k, v) => [0] + BdBytes(k) + BdBytes(v)
      case KnownKey(c, v) => [CodeByte(c)] + BdBytes(v)
      case KnownTag(c) => [CodeByte(c)]
  }

  function ItemsBytes(items: seq<TagItem>): bytes
  {
    if items == [] then [] else ItemBytes(items[0]) + ItemsBytes(items[1..])
  }

  lemma {:induction false} ItemsBytesSnoc(items: seq<TagItem>, item: TagItem)
    ensures ItemsBytes(items + [item]) == ItemsBytes(items) + ItemBytes(item)
    decreases |items|
  {
    if items == [] {
      assert [] + [item] == [item];
      assert ItemsBytes([item]) == ItemBytes(item) + ItemsBytes([]);
    } else {
      assert (items + [item])[1..] == items[1..] + [item];
      ItemsBytesSnoc(items[1..], item);
    }
  }

  /** Reads one stored tag from the front of `b`. */
  function ItemRead(b: bytes): (r: Option<(TagItem, nat)>)
    ensures r.Some? ==> 0 < r.value.1 <= |b|
  {
    if b == [] then None
    else
      var c := CodeOfByte(b[0]);
      if c > 0 then Some((KnownTag(c), 1))
      else
        var first := BdRead(b[1..]);
        if first.None? then None
        else if c < 0 then Some((KnownKey(c, first.value.0), 1 + first.value.1))
        else
          var second := BdRead(b[1 + first.value.1..]);
          if second.None? then None
          else Some((Freetext(first.value.0, second.value.0), 1 + first.value.1 + second.value.1))
  }

  lemma ItemRoundTrip(item: TagItem, rest: bytes)
    requires ItemWf(item)
    ensures ItemRead(ItemBytes(item) + rest) == Some((item, |ItemBytes(item)|))
  {
    match item
      case Freetext(k, v) => FreetextRoundTrip(k, v, rest, ItemBytes(item) + rest);
      case KnownKey(c, v) => KnownKeyRoundTrip(c, v, rest);
      case KnownTag(c) => CodeByteRoundTrip(c);
  }

  lemma FreetextRoundTrip(k: bytes, v: bytes, rest: bytes, b: bytes)
    requires b == ItemBytes(Freetext(k, v)) + rest
    ensures ItemRead(b) == Some((Freetext(k, v), |ItemBytes(Freetext(k, v))|))
  {
    var kb, vb := BdBytes(k), BdBytes(v);
    AppendAssoc([0] + kb, vb, rest);
    AppendAssoc([0], kb, vb + rest);
    BdRoundTrip(k, vb + rest);
    BdRoundTrip(v, rest);
    ItemReadFreetext(b, k, v, kb, vb + rest, vb, rest, |ItemBytes(Freetext(k, v))|);
  }

  /** A free-text tag is read as the two byte strings that follow its zero code byte. */
  lemma ItemReadFreetext(b: bytes, k: bytes, v: bytes, kb: bytes, tail: bytes, vb: bytes, rest: bytes, n: nat)
    requires tail == vb + rest && b == [0] + (kb + tail)
    requires BdRead(kb + tail) == Some((k, |kb|))
    requires BdRead(tail) == Some((v, |vb|))
    requires n == 1 + |kb| + |vb|
    ensures ItemRead(b) == Some((Freetext(k, v), n))
  {
    assert b[1..] == kb + tail;
    assert b[1 + |kb|..] == tail by {
      assert b[1 + |kb|..] == (kb + tail)[|kb|..];
    }
  }

  lemma KnownKeyRoundTrip(c: i8, v: bytes, rest: bytes)
    requires c < 0
    ensures ItemRead(ItemBytes(KnownKey(c, v)) + rest) == Some((KnownKey(c, v), |ItemBytes(KnownKey(c, v))|))
  {
    var b := ItemBytes(KnownKey(c, v)) + rest;
    CodeByteRoundTrip(c);
    assert b == [CodeByte(c)] + (BdBytes(v) + rest);
    assert b[1..] == BdBytes(v) + rest;
    BdRoundTrip(v, rest);
  }

  /** Where tag `t` of a list starts in the list's bytes. */
  function ItemOffset(items: seq<TagItem>, t: nat): nat
    requires t <= |items|
  {
    |ItemsBytes(items[..t])|
  }

  lemma {:induction false} ItemsBytesAppend(a: seq<TagItem>, b: seq<TagItem>)
    ensures ItemsBytes(a + b) == ItemsBytes(a) + ItemsBytes(b)
    decreases |a|
  {
    if a == [] {
      assert a + b == b;
    } else {
      assert (a + b)[0] == a[0] && (a + b)[1..] == a[1..] + b;
      ItemsBytesAppend(a[1..], b);
      AppendAssoc(ItemBytes(a[0]), ItemsBytes(a[1..]), ItemsBytes(b));
    }
  }

  lemma ItemsBytesSplit(items: seq<TagItem>, t: nat)
    requires t < |items|
    ensures ItemsBytes(items) == ItemsBytes(items[..t]) + (ItemBytes(items[t]) + ItemsBytes(items[t + 1..]))
  {
    var before, item, after := items[..t], items[t], items[t + 1..];
    SplitAround(items, t);
    ItemsBytesAppend(before, [item] + after);
    ItemsBytesCons(item, after);
  }

  lemma SplitAround(items: seq<TagItem>, t: nat)
    requires t < |items|
    ensures items == items[..t] + ([items[t]] + items[t + 1..])
  {
  }

  lemma ItemsBytesCons(item: TagItem, after: seq<TagItem>)
    ensures ItemsBytes([item] + after) == ItemBytes(item) + ItemsBytes(after)
  {
    assert ([item] + after)[0] == item && ([item] + after)[1..] == after;
  }

  /** What follows two known pieces of a concatenation. */
  lemma DropTwo(a: bytes, b: bytes, c: bytes)
    ensures (a + (b + c))[|a| + |b|..] == c
  {
    assert a + (b + c) == (a + b) + c;
  }

  /** A tag reads back from wherever its bytes start. */
  lemma ItemReadsBackFrom(rec: bytes, off: nat, item: TagItem, tail: bytes)
    requires ItemWf(item) && off <= |rec| && rec[off..] == ItemBytes(item) + tail
    ensures ItemRead(rec[off..]) == Some((item, |ItemBytes(item)|))
  {
    ItemRoundTrip(item, tail);
  }

  /** Each tag's bytes sit in the list's bytes at its offset, followed by the bytes of the tags after it. */
  lemma ItemBytesAt(items: seq<TagItem>, t: nat, pre: bytes)
    requires t < |items|
    ensures ItemOffset(items, t + 1) == ItemOffset(items, t) + |ItemBytes(items[t])|
    ensures ItemOffset(items, t + 1) <= |ItemsBytes(items)|
    ensures (pre + ItemsBytes(items))[|pre| + ItemOffset(items, t)..] == ItemBytes(items[t]) + ItemsBytes(items[t + 1..])
  {
    OffsetStep(items, t);
    OffsetTail(items, t, pre);
  }

  /** Tag `t`'s bytes end where tag `t + 1`'s begin. */
  lemma OffsetStep(items: seq<TagItem>, t: nat)
    requires t < |items|
    ensures ItemOffset(items, t + 1) == ItemOffset(items, t) + |ItemBytes(items[t])|
  {
    PrefixSnoc(items, t);
    ItemsBytesSnoc(items[..t], items[t]);
  }

  /** From where tag `t` starts, the record holds tag `t` and the tags after it. */
  lemma OffsetTail(items: seq<TagItem>, t: nat, pre: bytes)
    requires t < |items|
    ensures ItemOffset(items, t) + |ItemBytes(items[t])| <= |ItemsBytes(items)|
    ensures (pre + ItemsBytes(items))[|pre| + ItemOffset(items, t)..] == ItemBytes(items[t]) + ItemsBytes(items[t + 1..])
  {
    ItemsBytesSplit(items, t);
    var head, tail := ItemsBytes(items[..t]), ItemBytes(items[t]) + ItemsBytes(items[t + 1..]);
    DropTwo(pre, head, tail);
  }

  lemma PrefixSnoc(items: seq<TagItem>, t: nat)
    requires t < |items|
    ensures items[..t + 1] == items[..t] + [items[t]]
  {
  }

  /** The key and value of tag `t`, or `None` when an index lies outside the array it reads. */
  function TagAt(keys: seq<int>, vals: seq<int>, table: seq<bytes>, t: nat): Option<(bytes, bytes)>
  {
    if t < |keys| && t < |vals| && 0 <= keys[t] < |table| && 0 <= vals[t] < |table|
    then Some((table[keys[t]], table[vals[t]]))
    else None
  }

  /** The stored form of tag `t`, whose indexes are in range. */
  function ItemAt(keys: seq<int>, vals: seq<int>, table: seq<bytes>, encode: TagEncoder, t: nat): (item: TagItem)
    requires TagAt(keys, vals, table, t).Some?
    ensures ItemWf(item)
  {
    var (k, v) := TagAt(keys, vals, table, t).value;
    ItemOf(k, v, TagCode(k, v, encode))
  }

  /**
    The first `t` tags as `write_tags` stores them, or how it stops: `Fault`
    for an index outside the string table or the value array, `die` when
    the bytes written so far pass `buflen`.
   */
  function TagsUpTo(keys: seq<int>, vals: seq<int>, table: seq<bytes>, encode: TagEncoder,
                    buflen: nat, t: nat): (r: Status<seq<TagItem>>)
    requires t <= |keys|
    ensures r.Ok? ==> |r.value| == t
    ensures r.Exit? ==> r.code == EXIT_FAILURE
    decreases t
  {
    if t == 0 then Ok([])
    else
      match TagsUpTo(keys, vals, table, encode, buflen, t - 1)
        case Ok(items) =>
          if TagAt(keys, vals, table, t - 1).None? then Fault
          else
            var items' := items + [ItemAt(keys, vals, table, encode, t - 1)];
            if |Varint.Encode(|keys|)| + |ItemsBytes(items')| > buflen then Exit(EXIT_FAILURE) else Ok(items')
        case Exit(c) => Exit(c)
        case Fault => Fault
  }

  /** Tag `i` is stored as the key and value its indexes name, coded as `encode_tag` or the forced freetext rule says. */
  lemma {:induction false} TagsUpToItem(keys: seq<int>, vals: seq<int>, table: seq<bytes>, encode: TagEncoder,
                                        buflen: nat, t: nat, i: nat)
    requires i < t <= |keys|
    requires TagsUpTo(keys, vals, table, encode, buflen, t).Ok?
    ensures TagAt(keys, vals, table, i).Some?
    ensures TagsUpTo(keys, vals, table, encode, buflen, t).value[i] == ItemAt(keys, vals, table, encode, i)
  {
    if i < t - 1 {
      TagsUpToItem(keys, vals, table, encode, buflen, t - 1, i);
    }
  }

  /** Only an index outside the string table or the value array makes `write_tags` fault. */
  lemma {:induction false} TagsUpToNoFault(keys: seq<int>, vals: seq<int>, table: seq<bytes>, encode: TagEncoder,
                                           buflen: nat, t: nat)
    requires t <= |keys|
    requires forall i :: 0 <= i < t ==> TagAt(keys, vals, table, i).Some?
    ensures !TagsUpTo(keys, vals, table, encode, buflen, t).Fault?
  {
    if t > 0 {
      TagsUpToNoFault(keys, vals, table, encode, buflen, t - 1);
    }
  }

  lemma TagsUpToStep(keys: seq<int>, vals: seq<int>, table: seq<bytes>, encode: TagEncoder,
                     buflen: nat, t: nat, items: seq<TagItem>)
    requires t < |keys| && TagAt(keys, vals, table, t).Some?
    requires TagsUpTo(keys, vals, table, encode, buflen, t) == Ok(items)
    ensures var items' := items + [ItemAt(keys, vals, table, encode, t)];
            TagsUpTo(keys, vals, table, encode, buflen, t + 1)
            == if |Varint.Encode(|keys|)| + |ItemsBytes(items')| > buflen then Exit(EXIT_FAILURE) else Ok(items')
  {
  }

  /** Once `write_tags` has stopped it stays stopped: later tags do not change how. */
  lemma {:induction false} TagsUpToStops(keys: seq<int>, vals: seq<int>, table: seq<bytes>, encode: TagEncoder,
                                         buflen: nat, t: nat, t': nat)
    requires t <= t' <= |keys|
    requires !TagsUpTo(keys, vals, table, encode, buflen, t).Ok?
    ensures TagsUpTo(keys, vals, table, encode, buflen, t') == TagsUpTo(keys, vals, table, encode, buflen, t)
    decreases t' - t
  {
    if t < t' {
      TagsUpToStops(keys, vals, table, encode, buflen, t, t' - 1);
    }
  }

  /** The record `write_tags` leaves in its buffer, or how it stops. */
  function TagRecord(keys: seq<int>, vals: seq<int>, table: seq<bytes>, encode: TagEncoder, buflen: nat): (r: Status<bytes>)
    ensures |keys| == 0 ==> r == Ok([0])
    ensures r.Ok? && |keys| > 0 ==> |r.value| <= buflen
  {
    assert Varint.Encode(0) == [0] && ItemsBytes([]) == [];
    assert Varint.Encode(0) + ItemsBytes([]) == [0];
    assert |keys| == 0 ==> TagsUpTo(keys, vals, table, encode, buflen, |keys|) == Ok([]);
    assert |keys| > 0 && TagsUpTo(keys, vals, table, encode, buflen, |keys|).Ok? ==>
      var items := TagsUpTo(keys, vals, table, encode, buflen, |keys|).value;
      |Varint.Encode(|keys|)| + |ItemsBytes(items)| <= buflen;
    match TagsUpTo(keys, vals, table, encode, buflen, |keys|)
      case Ok(items) => Ok(Varint.Encode(|keys|) + ItemsBytes(items))
      case Exit(c) => Exit(c)
      case Fault => Fault
  }

  /** A stored tag record starts with the number of tags, and its tags fill the rest of it exactly. */
  lemma TagRecordCount(keys: seq<int>, vals: seq<int>, table: seq<bytes>, encode: TagEncoder, buflen: nat)
    requires TagRecord(keys, vals, table, encode, buflen).Ok?
    ensures var rec := TagRecord(keys, vals, table, encode, buflen).value;
            var items := TagsUpTo(keys, vals, table, encode, buflen, |keys|).value;
            var start := |Varint.Encode(|keys|)|;
            Varint.Decode(rec) == Some((|keys|, start)) &&
            start + ItemOffset(items, |keys|) == |rec|
  {
    var items := TagsUpTo(keys, vals, table, encode, buflen, |keys|).value;
    Varint.DecodeEncode(|keys|, ItemsBytes(items));
    assert items[..|keys|] == items;
  }

  /** A stored tag record is the count followed by the bytes of the tags. */
  lemma TagRecordBytes(keys: seq<int>, vals: seq<int>, table: seq<bytes>, encode: TagEncoder, buflen: nat,
                       rec: bytes, items: seq<TagItem>)
    requires TagRecord(keys, vals, table, encode, buflen) == Ok(rec)
    requires TagsUpTo(keys, vals, table, encode, buflen, |keys|) == Ok(items)
    ensures rec == Varint.Encode(|keys|) + ItemsBytes(items)
  {
  }

  /**
    Tag `t` of a stored tag record `rec`, whose count is written as `count`
    and whose tags are `items`, reads back at the offset where the tags
    before it end, as the key and value it was written from.
   */
  lemma TagRecordItem(keys: seq<int>, vals: seq<int>, table: seq<bytes>, encode: TagEncoder, buflen: nat, t: nat,
                      rec: bytes, count: bytes, items: seq<TagItem>)
    requires t < |keys|
    requires TagRecord(keys, vals, table, encode, buflen) == Ok(rec)
    requires TagsUpTo(keys, vals, table, encode, buflen, |keys|) == Ok(items)
    requires count == Varint.Encode(|keys|)
    ensures TagAt(keys, vals, table, t).Some?
    ensures items[t] == ItemAt(keys, vals, table, encode, t)
    ensures var off := |count| + ItemOffset(items, t);
            off < |rec| &&
            ItemRead(rec[off..]) == Some((items[t], |ItemBytes(items[t])|)) &&
            ItemOffset(items, t + 1) == ItemOffset(items, t) + |ItemBytes(items[t])|
  {
    TagsUpToItem(keys, vals, table, encode, buflen, |keys|, t);
    TagRecordBytes(keys, vals, table, encode, buflen, rec, items);
    ItemInRecord(rec, count, items, t);
  }

  /** Item `t` of a list written after `pre` reads back at its offset. */
  lemma ItemInRecord(rec: bytes, pre: bytes, items: seq<TagItem>, t: nat)
    requires t < |items| && ItemWf(items[t])
    requires rec == pre + ItemsBytes(items)
    ensures |pre| + ItemOffset(items, t) < |rec|
    ensures ItemOffset(items, t + 1) == ItemOffset(items, t) + |ItemBytes(items[t])|
    ensures ItemRead(rec[|pre| + ItemOffset(items, t)..]) == Some((items[t], |ItemBytes(items[t])|))
  {
    ItemBytesAt(items, t, pre);
    ItemReadsBackFrom(rec, |pre| + ItemOffset(items, t), items[t], ItemsBytes(items[t + 1..]));
  }

  /** One tag as the body of `write_tags`' loop writes it. */
  method WriteTag(key: bytes, val: bytes, code: i8) returns (out: bytes)
    ensures out == ItemBytes(ItemOf(key, val, code))
  {
    out := [CodeByte(code)];
    if code == 0 {
      var kb := BdWrite(key);
      out := out + kb;
      var vb := BdWrite(val);
      out := out + vb;
    } else if code < 0 {
      var vb := BdWrite(val);
      out := out + vb;
    }
  }

  /** `write_tags`: the count, then for each tag its code byte and what the code leaves spelled out. */
  method WriteTags(keys: seq<int>, vals: seq<int>, table: seq<bytes>, encode: TagEncoder, buflen: nat)
    returns (st: Status<bytes>)
    ensures st == TagRecord(keys, vals, table, encode, buflen)
  {
    var count := Varint.Encode(|keys|);
    var b := count;
    ghost var items: seq<TagItem> := [];
    for t := 0 to |keys|
      invariant TagsUpTo(keys, vals, table, encode, buflen, t) == Ok(items)
      invariant b == count + ItemsBytes(items)
    {
      if !(t < |vals| && 0 <= keys[t] < |table| && 0 <= vals[t] < |table|) {
        TagsUpToFault(keys, vals, table, encode, buflen, t, items);
        return Fault;
      }
      var key := table[keys[t]];
      var val := table[vals[t]];
      var code := TagCode(key, val, encode);
      var tb := WriteTag(key, val, code);
      WriteTagsStep(keys, vals, table, encode, buflen, t, items, count);
      b := b + tb;
      items := items + [ItemAt(keys, vals, table, encode, t)];
      if |b| > buflen {
        TagsUpToExit(keys, vals, table, encode, buflen, t + 1);
        return Exit(EXIT_FAILURE);
      }
    }
    TagsUpToAll(keys, vals, table, encode, buflen, items, b);
    st := Ok(b);
  }

  /** Once the record outgrows the limit, `write_tags` dies with `EXIT_FAILURE`. */
  lemma TagsUpToExit(keys: seq<int>, vals: seq<int>, table: seq<bytes>, encode: TagEncoder, buflen: nat, t: nat)
    requires t <= |keys| && TagsUpTo(keys, vals, table, encode, buflen, t) == Exit(EXIT_FAILURE)
    ensures TagRecord(keys, vals, table, encode, buflen) == Exit(EXIT_FAILURE)
  {
    TagsUpToStops(keys, vals, table, encode, buflen, t, |keys|);
  }

  /** With every tag written, the record is the count and the tags. */
  lemma TagsUpToAll(keys: seq<int>, vals: seq<int>, table: seq<bytes>, encode: TagEncoder, buflen: nat,
                    items: seq<TagItem>, b: bytes)
    requires TagsUpTo(keys, vals, table, encode, buflen, |keys|) == Ok(items)
    requires b == Varint.Encode(|keys|) + ItemsBytes(items)
    ensures TagRecord(keys, vals, table, encode, buflen) == Ok(b)
  {
  }

  /** A tag whose key or value index lies outside its array ends `write_tags` with a fault. */
  lemma TagsUpToFault(keys: seq<int>, vals: seq<int>, table: seq<bytes>, encode: TagEncoder, buflen: nat,
                      t: nat, items: seq<TagItem>)
    requires t < |keys| && TagAt(keys, vals, table, t).None?
    requires TagsUpTo(keys, vals, table, encode, buflen, t) == Ok(items)
    ensures TagRecord(keys, vals, table, encode, buflen) == Fault
  {
    assert TagsUpTo(keys, vals, table, encode, buflen, t + 1) == Fault;
    TagsUpToStops(keys, vals, table, encode, buflen, t + 1, |keys|);
  }

  /** One turn of `write_tags`' loop: the tag's bytes extend the record, and the size check decides. */
  lemma WriteTagsStep(keys: seq<int>, vals: seq<int>, table: seq<bytes>, encode: TagEncoder, buflen: nat,
                      t: nat, items: seq<TagItem>, count: bytes)
    requires t < |keys| && TagAt(keys, vals, table, t).Some?
    requires TagsUpTo(keys, vals, table, encode, buflen, t) == Ok(items)
    requires count == Varint.Encode(|keys|)
    ensures var item := ItemAt(keys, vals, table, encode, t);
            var b' := (count + ItemsBytes(items)) + ItemBytes(item);
            b' == count + ItemsBytes(items + [item]) &&
            TagsUpTo(keys, vals, table, encode, buflen, t + 1)
            == if |b'| > buflen then Exit(EXIT_FAILURE) else Ok(items + [item])
  {
    var item := ItemAt(keys, vals, table, encode, t);
    TagsUpToStep(keys, vals, table, encode, buflen, t, items);
    ItemsBytesSnoc(items, item);
    AppendAssoc(count, ItemsBytes(items), ItemBytes(item));
  }
}
