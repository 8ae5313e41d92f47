/**
  The hashtable of map.c: 64-bit keys to 32-bit values, separate chaining.
  Every bucket has a head element that always exists; further elements with
  the same bucket are appended to a singly linked chain behind it.
  The bucket of a key is the 32-bit FNV-1a hash of its low 32 bits modulo the
  table size.
 */
module HashMap {
  import opened Common

  /** `KEY_NONE` marks an unused head element; `VAL_NONE` is returned for a missing key. */
  const KEY_NONE: u64 := TWO_64 - 1
  const VAL_NONE: u32 := TWO_32 - 1

  const FNV32_OFFSET_BASIS: u32 := 0x811C9DC5
  const FNV32_PRIME: u32 := 0x01000193

  /** Bitwise exclusive or of two naturals, one binary digit at a time. */
  function Xor(x: nat, y: nat): nat
    decreases x + y
  {
    if x == 0 then y
    else if y == 0 then x
    else 2 * Xor(x / 2, y / 2) + (x + y) % 2
  }

  /** Exclusive or of two `k`-bit numbers is a `k`-bit number. */
  lemma {:induction false} XorBits(x: nat, y: nat, k: nat)
    requires x < Pow2(k) && y < Pow2(k)
    ensures Xor(x, y) < Pow2(k)
    decreases k
  {
    if x != 0 && y != 0 {
      XorBits(x / 2, y / 2, k - 1);
    }
  }

  function Pow2(k: nat): (p: nat)
    ensures p > 0
  {
    if k == 0 then 1 else 2 * Pow2(k - 1)
  }

  /**
    One step of FNV-1a on a 32-bit hash: the octet is xor-ed into the low
    byte, then the hash is multiplied by the prime modulo 2^32.
   */
  function FnvStep(hash: u32, octet: byte): u32
  {
    ((hash - hash % 0x100 + Xor(hash % 0x100, octet)) * FNV32_PRIME) % TWO_32
  }

  /**
    `hash_code`: FNV-1a over the four bytes of `a` in memory order, lowest byte
    first (the byte order of the little-endian machines the program targets).
   */
  function HashCode(a: u32): u32
  {
    var h0 := FnvStep(FNV32_OFFSET_BASIS, a % 0x100);
    var h1 := FnvStep(h0, (a / 0x100) % 0x100);
    var h2 := FnvStep(h1, (a / 0x1_0000) % 0x100);
    FnvStep(h2, a / 0x100_0000)
  }

  /** The published 32-bit FNV-1a value of four zero bytes. */
  lemma HashCodeOfZero()
    ensures HashCode(0) == 0x4b95f515
  {
    assert FnvStep(0x811C9DC5, 0) == 0x050c5d1f;
    assert FnvStep(0x050c5d1f, 0) == 0x117697cd;
    assert FnvStep(0x117697cd, 0) == 0x4ab0f7b7;
    assert FnvStep(0x4ab0f7b7, 0) == 0x4b95f515;
  }

  /** The lowest byte of the key is hashed first. */
  lemma HashCodeByteOrder()
    ensures HashCode(0x01020304) == 0x9b35d555
  {
    assert Xor(0xC5, 4) == 0xC1 by { assert Xor(0x31, 1) == 0x30; }
    assert Xor(0xd3, 3) == 0xd0 by { assert Xor(0x34, 0) == 0x34; }
    assert Xor(0x70, 2) == 0x72 by { assert Xor(0x1c, 0) == 0x1c; }
    assert Xor(0x76, 1) == 0x77;
    assert 0x01020304 % 0x100 == 4 && (0x01020304 / 0x100) % 0x100 == 3;
    assert (0x01020304 / 0x1_0000) % 0x100 == 2 && 0x01020304 / 0x100_0000 == 1;
    assert FnvStep(0x811C9DC5, 4) == 0x010c56d3;
    assert FnvStep(0x010c56d3, 3) == 0x766ca970;
    assert FnvStep(0x766ca970, 2) == 0xdf0ebe76;
    assert FnvStep(0xdf0ebe76, 1) == 0x9b35d555;
  }

  /**
    The bucket of `key` in a table of `size` buckets: the key is narrowed to
    the 32-bit parameter of `hash_code`, and the hash is reduced modulo `size`.
   */
  function BucketOf(key: u64, size: int): (i: nat)
    requires size > 0
    ensures i < size
  {
    HashCode(Narrow(key)) % size
  }

  /** The conversion of a 64-bit key to the `uint32_t` parameter of `hash_code`: its low 32 bits. */
  function Narrow(key: u64): u32
  {
    key % TWO_32
  }

  /** Keys that differ only in their high 32 bits share a bucket. */
  lemma HighBitsShareBucket(key: u64, size: int)
    requires size > 0 && key + TWO_32 < TWO_64
    ensures BucketOf(key + TWO_32, size) == BucketOf(key, size)
  {
    assert (key + TWO_32) % TWO_32 == key % TWO_32;
    assert Narrow(key + TWO_32) == Narrow(key);
  }

  /** A key-value pair held by one element of a bucket. */
  datatype Entry = Entry(key: u64, val: u32)

  /** Position of the first entry with key `k`, scanning the bucket from its head. */
  function Find(b: seq<Entry>, k: u64): (r: Option<nat>)
    ensures r.Some? ==> r.value < |b| && b[r.value].key == k
    ensures r.Some? ==> forall t :: 0 <= t < r.value ==> b[t].key != k
    ensures r.None? ==> forall t :: 0 <= t < |b| ==> b[t].key != k
  {
    if b == [] then None
    else if b[0].key == k then Some(0)
    else match Find(b[1..], k)
      case None => None
      case Some(i) => Some(i + 1)
  }

  /** `Map_get` on one bucket: the value of the first matching element, else `VAL_NONE`. */
  function BucketGet(b: seq<Entry>, k: u64): u32
  {
    match Find(b, k)
    case Some(i) => b[i].val
    case None => VAL_NONE
  }

  /** `Map_contains_key` on one bucket. */
  predicate BucketHas(b: seq<Entry>, k: u64)
  {
    Find(b, k).Some?
  }

  /**
    `Map_put` on one bucket: an unused head takes the pair (and ends the
    chain); otherwise the first element with the key is overwritten, or a new
    element is appended at the tail.
   */
  function BucketPut(b: seq<Entry>, k: u64, v: u32): seq<Entry>
    requires |b| > 0
  {
    if b[0].key == KEY_NONE then [Entry(k, v)]
    else match Find(b, k)
      case Some(i) => b[i := Entry(k, v)]
      case None => b + [Entry(k, v)]
  }

  /** The bucket `Map_init` leaves behind: an unused head element. */
  const EmptyBucket: seq<Entry> := [Entry(KEY_NONE, VAL_NONE)]

  /**
    Shape of every bucket the operations produce: a head element, no chain
    behind an unused head, and no key held twice.
   */
  ghost predicate WellFormed(b: seq<Entry>)
  {
    && |b| > 0
    && (b[0].key == KEY_NONE ==> |b| == 1)
    && (forall s, t :: 0 <= s < t < |b| ==> b[s].key != b[t].key)
  }

  lemma EmptyBucketWellFormed()
    ensures WellFormed(EmptyBucket)
  {
  }

  /** A fresh bucket knows no key but the sentinel, and yields `VAL_NONE` for every key. */
  lemma EmptyBucketLookups(k: u64)
    ensures BucketGet(EmptyBucket, k) == VAL_NONE
    ensures BucketHas(EmptyBucket, k) <==> k == KEY_NONE
  {
  }

  /**
    The sentinel is reserved: while a bucket's head is unused,
    `Map_contains_key(KEY_NONE)` holds for that bucket.
   */
  lemma SentinelReported(b: seq<Entry>)
    requires WellFormed(b) && b[0].key == KEY_NONE
    ensures BucketHas(b, KEY_NONE)
  {
  }

  lemma PutWellFormed(b: seq<Entry>, k: u64, v: u32)
    requires WellFormed(b)
    ensures WellFormed(BucketPut(b, k, v))
  {
  }

  /** Get-after-put: the stored value is found again, under every key. */
  lemma GetAfterPut(b: seq<Entry>, k: u64, v: u32)
    requires WellFormed(b)
    ensures BucketGet(BucketPut(b, k, v), k) == v
    ensures BucketHas(BucketPut(b, k, v), k)
  {
    var b' := BucketPut(b, k, v);
    if b[0].key != KEY_NONE {
      match Find(b, k)
      case Some(i) =>
        assert b'[i].key == k;
        assert forall t :: 0 <= t < i ==> b'[t] == b[t];
      case None =>
        assert b'[|b|].key == k;
        assert forall t :: 0 <= t < |b| ==> b'[t] == b[t];
    }
  }

  /** Putting one key leaves every other key, except the sentinel, as it was. */
  lemma PutKeepsOtherKeys(b: seq<Entry>, k: u64, v: u32, other: u64)
    requires WellFormed(b) && other != k && other != KEY_NONE
    ensures BucketGet(BucketPut(b, k, v), other) == BucketGet(b, other)
    ensures BucketHas(BucketPut(b, k, v), other) == BucketHas(b, other)
  {
    var b' := BucketPut(b, k, v);
    if b[0].key != KEY_NONE {
      match Find(b, k)
      case Some(i) =>
        assert forall t :: 0 <= t < |b| ==> (b'[t].key == other <==> b[t].key == other);
        FindSameKeys(b, b', other);
      case None =>
        assert forall t :: 0 <= t < |b| ==> b'[t] == b[t];
        FindSameKeys(b, b'[..|b|], other);
        assert b' == b'[..|b|] + [Entry(k, v)];
        FindInPrefix(b'[..|b|], [Entry(k, v)], other);
    }
  }

  /**
    Putting a key that is already present overwrites its value in place: the
    bucket keeps its length, so no element is allocated.
   */
  lemma PutOverwritesInPlace(b: seq<Entry>, k: u64, v: u32)
    requires WellFormed(b) && BucketHas(b, k)
    ensures |BucketPut(b, k, v)| == |b|
    ensures BucketPut(b, k, v) == b[Find(b, k).value := Entry(k, v)]
  {
  }

  /** A new key behind a used head is appended at the tail of the chain. */
  lemma PutAppendsNewKey(b: seq<Entry>, k: u64, v: u32)
    requires WellFormed(b) && b[0].key != KEY_NONE && !BucketHas(b, k)
    ensures BucketPut(b, k, v) == b + [Entry(k, v)]
  {
  }

  /** The first element holding `k` is where `Find` stops. */
  lemma FindAt(b: seq<Entry>, k: u64, j: nat)
    requires j < |b| && b[j].key == k
    requires forall t :: 0 <= t < j ==> b[t].key != k
    ensures Find(b, k) == Some(j)
  {
  }

  /** Scanning two buckets whose keys agree at every position for `k` finds the same position. */
  lemma FindSameKeys(b: seq<Entry>, c: seq<Entry>, k: u64)
    requires |b| == |c|
    requires forall t :: 0 <= t < |b| ==> (b[t].key == k <==> c[t].key == k)
    ensures Find(b, k) == Find(c, k)
  {
    match Find(b, k)
    case Some(i) => assert c[i].key == k;
    case None =>
  }

  /** A key absent from `tail` is found in `head + tail` where it is found in `head`. */
  lemma FindInPrefix(head: seq<Entry>, tail: seq<Entry>, k: u64)
    requires forall t :: 0 <= t < |tail| ==> tail[t].key != k
    ensures Find(head + tail, k) == Find(head, k)
  {
    match Find(head, k)
    case Some(i) => assert (head + tail)[i].key == k;
    case None =>
  }

  /** An element of a chain: a head stored in the table, or an allocated overflow element. */
  class Element {
    var key: u64
    var val: u32
    var next: Element?
    /** Bucket number and position in the chain (ghost bookkeeping: no two elements share both). */
    ghost var bucket: int
    ghost var index: int

    /** A head element, or a new element of the chain of bucket `bucket` at position `index`. */
    constructor (key: u64, val: u32, ghost bucket: int, ghost index: int)
      ensures this.key == key && this.val == val && next == null
      ensures this.bucket == bucket && this.index == index
    {
      this.key, this.val, next := key, val, null;
      this.bucket, this.index := bucket, index;
    }
  }

  /** Every used key of bucket `b` hashes to bucket number `i`. */
  ghost predicate Hashed(b: seq<Entry>, i: int, size: int)
    requires size > 0
  {
    forall j :: 0 <= j < |b| && b[j].key != KEY_NONE ==> BucketOf(b[j].key, size) == i
  }

  /** Putting a key into its own bucket keeps every key of the bucket in place. */
  lemma HashedAfterPut(b: seq<Entry>, k: u64, v: u32, i: int, size: int)
    requires size > 0 && WellFormed(b) && Hashed(b, i, size) && BucketOf(k, size) == i
    ensures Hashed(BucketPut(b, k, v), i, size)
  {
    var b' := BucketPut(b, k, v);
    forall j | 0 <= j < |b'| && b'[j].key != KEY_NONE
      ensures BucketOf(b'[j].key, size) == i
    {
      if j < |b| && b'[j].key != k {
        assert b'[j] == b[j];
      }
    }
  }

  /** The tail of a non-empty chain. */
  function Last(c: seq<Element>): Element
    requires |c| > 0
  {
    c[|c| - 1]
  }

  class Map {
    const size: int
    /** The head element of each bucket, allocated with the table. */
    const elements: array<Element?>

    /** Elements of each bucket from its head to the tail of its chain. */
    ghost var chains: seq<seq<Element>>
    /** Key-value pairs held by those elements. */
    ghost var buckets: seq<seq<Entry>>
    ghost var Repr: set<Element>

    /**
      `Map_new`: a table of `size` buckets whose heads, as `Map_init` leaves
      them, are all unused and end their chains.
     */
    constructor (size: int)
      requires 0 < size < 0x8000_0000
      ensures Valid() && fresh(Repr) && this.size == size
      ensures buckets == seq(size, _ => EmptyBucket)
    {
      var heads, cs, owned := Init(size);
      this.size := size;
      elements := heads;
      chains := cs;
      buckets := seq(size, _ => EmptyBucket);
      Repr := owned;
      new;
      EmptyBucketWellFormed();
      forall i, j | 0 <= i < size && 0 <= j < |chains[i]|
        ensures chains[i][j] in Repr && chains[i][j].bucket == i && chains[i][j].index == j
        ensures chains[i][j].key == buckets[i][j].key && chains[i][j].val == buckets[i][j].val
      {
        assert j == 0;
      }
    }

    /**
      The loop of `Map_init` over a new table: every head element is unused
      (`KEY_NONE`, `VAL_NONE`) and ends its chain.
     */
    static method Init(size: int) returns (heads: array<Element?>, ghost cs: seq<seq<Element>>, ghost owned: set<Element>)
      requires size > 0
      ensures fresh(heads) && fresh(owned) && heads.Length == size == |cs|
      ensures forall t :: 0 <= t < size ==> |cs[t]| == 1 && heads[t] == cs[t][0] && cs[t][0] in owned
      ensures forall t :: 0 <= t < size ==> cs[t][0].bucket == t && cs[t][0].index == 0
      ensures forall t :: 0 <= t < size ==> cs[t][0].key == KEY_NONE && cs[t][0].val == VAL_NONE && cs[t][0].next == null
      ensures forall o :: o in owned ==> 0 <= o.bucket < size && o.index == 0 && cs[o.bucket][0] == o
    {
      heads := new Element?[size];
      cs, owned := [], {};
      for i := 0 to size
        invariant |cs| == i && fresh(owned)
        invariant forall t :: 0 <= t < i ==> |cs[t]| == 1 && heads[t] == cs[t][0] && cs[t][0] in owned
        invariant forall t :: 0 <= t < i ==> cs[t][0].bucket == t && cs[t][0].index == 0
        invariant forall t :: 0 <= t < i ==> cs[t][0].key == KEY_NONE && cs[t][0].val == VAL_NONE && cs[t][0].next == null
        invariant forall o :: o in owned ==> 0 <= o.bucket < i && o.index == 0 && cs[o.bucket][0] == o
      {
        var e := new Element(KEY_NONE, VAL_NONE, i, 0);
        heads[i] := e;
        cs, owned := cs + [[e]], owned + {e};
      }
    }

    /**
      The linked structure: one chain per bucket starting at its head; each
      element is owned, labelled with its position, and holds the pair of the
      bucket at that position; `next` leads to the following element, and is
      NULL at the tail.
     */
    ghost predicate Shape()
      reads this, elements, Repr
    {
      && 0 < size < 0x8000_0000
      && size == elements.Length == |chains| == |buckets|
      && (forall i :: 0 <= i < size ==>
            && |chains[i]| == |buckets[i]| > 0
            && elements[i] == chains[i][0])
      && (forall i, j :: 0 <= i < size && 0 <= j < |chains[i]| ==>
            && chains[i][j] in Repr
            && chains[i][j].bucket == i && chains[i][j].index == j
            && chains[i][j].key == buckets[i][j].key && chains[i][j].val == buckets[i][j].val)
      && (forall i :: 0 <= i < size ==> Last(chains[i]).next == null)
      && (forall i, j, k {:trigger chains[i][j], chains[i][k]} ::
            0 <= i < size && 0 <= j && k == j + 1 && k < |chains[i]| ==> chains[i][j].next == chains[i][k])
      && (forall o :: o in Repr ==> Placed(o))
    }

    /** An owned element sits in its chain at the position its labels name. */
    ghost predicate Placed(o: Element)
      reads this, o
    {
      0 <= o.bucket < |chains| && 0 <= o.index < |chains[o.bucket]| && chains[o.bucket][o.index] == o
    }

    /** The shape, every bucket well formed, and every key in the bucket its hash selects. */
    ghost predicate Valid()
      reads this, elements, Repr
    {
      && Shape()
      && forall i :: 0 <= i < size ==> WellFormed(buckets[i]) && Hashed(buckets[i], i, size)
    }

    /** The value `Map_get` reports for `key`. */
    ghost function Lookup(key: u64): u32
      reads this, elements, Repr
      requires Valid()
    {
      BucketGet(buckets[BucketOf(key, size)], key)
    }

    /** Whether `Map_contains_key` reports `key`. */
    ghost predicate Has(key: u64)
      reads this, elements, Repr
      requires Valid()
    {
      BucketHas(buckets[BucketOf(key, size)], key)
    }

    /** `Map_contains_key`: walk the bucket of `key` looking for it. */
    method ContainsKey(key: u64) returns (found: bool)
      requires Valid()
      ensures found == Has(key)
    {
      var h := BucketOf(key, size);
      var e := elements[h];
      ghost var j := 0;
      while e != null
        invariant 0 <= j <= |chains[h]|
        invariant e == if j < |chains[h]| then chains[h][j] else null
        invariant forall t :: 0 <= t < j ==> buckets[h][t].key != key
        decreases |chains[h]| - j
      {
        if e.key == key {
          return true;
        }
        e := e.next;
        j := j + 1;
      }
      return false;
    }

    /** `Map_get`: the value of `key`, or `VAL_NONE` when it is absent. */
    method Get(key: u64) returns (val: u32)
      requires Valid()
      ensures val == Lookup(key)
    {
      var h := BucketOf(key, size);
      var e := elements[h];
      ghost var j := 0;
      while e != null
        invariant 0 <= j <= |chains[h]|
        invariant e == if j < |chains[h]| then chains[h][j] else null
        invariant forall t :: 0 <= t < j ==> buckets[h][t].key != key
        decreases |chains[h]| - j
      {
        if e.key == key {
          return e.val;
        }
        e := e.next;
        j := j + 1;
      }
      return VAL_NONE;
    }

    /**
      `Map_put`: the key is hashed to its bucket, and only that bucket changes,
      as `BucketPut` says.
     */
    method Put(key: u64, val: u32)
      requires Valid()
      modifies this, Repr
      ensures Valid() && fresh(Repr - old(Repr))
      ensures buckets == old(buckets)[BucketOf(key, size) := BucketPut(old(buckets)[BucketOf(key, size)], key, val)]
      ensures Lookup(key) == val && Has(key)
      ensures forall k :: k != key && k != KEY_NONE ==> Lookup(k) == old(Lookup(k)) && Has(k) == old(Has(k))
    {
      var h := BucketOf(key, size);
      ghost var b := buckets[h];
      PutInBucket(h, key, val);
      PutWellFormed(b, key, val);
      HashedAfterPut(b, key, val, h, size);
      GetAfterPut(b, key, val);
      forall k | k != key && k != KEY_NONE
        ensures Lookup(k) == old(Lookup(k)) && Has(k) == old(Has(k))
      {
        if BucketOf(k, size) == h {
          PutKeepsOtherKeys(b, key, val, k);
        }
      }
    }

    /**
      The loop of `Map_put` on a bucket whose head is in use: follow `next`
      until the element holding `key`, or else the tail of the chain.
     */
    method Walk(h: nat, key: u64) returns (e: Element, ghost j: nat)
      requires Shape() && h < size && buckets[h][0].key != KEY_NONE
      ensures j < |chains[h]| && e == chains[h][j]
      ensures buckets[h][j].key == key ==> Find(buckets[h], key) == Some(j)
      ensures buckets[h][j].key != key ==> j == |chains[h]| - 1 && Find(buckets[h], key).None?
    {
      ghost var b := buckets[h];
      e := elements[h];
      j := 0;
      while true
        invariant 0 <= j < |chains[h]| && e == chains[h][j]
        invariant e.next == if j + 1 < |chains[h]| then chains[h][j + 1] else null
        invariant forall t :: 0 <= t < j ==> b[t].key != key
        decreases |chains[h]| - j
      {
        if e.key == key {
          FindAt(b, key, j);
          return;
        }
        if e.next == null {
          break;
        }
        e := e.next;
        j := j + 1;
      }
    }

    /**
      `Map_put` once the bucket `h` is known: an unused head takes the pair;
      otherwise the value of the element holding the key is overwritten, or a
      new element is linked after the tail.
     */
    method PutInBucket(h: nat, key: u64, val: u32)
      requires Shape() && h < size && WellFormed(buckets[h])
      modifies this, Repr
      ensures Shape() && fresh(Repr - old(Repr))
      ensures buckets == old(buckets)[h := BucketPut(old(buckets)[h], key, val)]
    {
      var e: Element := elements[h];
      if e.key != KEY_NONE {
        assert e == chains[h][0] && buckets[h][0].key != KEY_NONE;
        ghost var j;
        e, j := Walk(h, key);
        if e.key == key {
          Overwrite(e, h, j, key, val);
        } else {
          Append(e, h, key, val);
        }
      } else {
        FillHead(h, key, val);
      }
    }

    /** `e->val = val` on the element at position `j` of bucket `h`, which holds the key. */
    method Overwrite(e: Element, h: nat, ghost j: nat, key: u64, val: u32)
      requires Shape() && h < size && j < |chains[h]| && e == chains[h][j] && e.key == key
      modifies this, e
      ensures Shape() && Repr == old(Repr)
      ensures buckets == old(buckets)[h := old(buckets)[h][j := Entry(key, val)]]
    {
      e.val := val;
      buckets := buckets[h := buckets[h][j := Entry(key, val)]];
      OverwrittenShape(e);
    }

    /** `Overwrite` keeps the shape: only the value of one element changed. */
    twostate lemma OverwrittenShape(e: Element)
      requires old(Shape()) && unchanged(elements)
      requires e.bucket == old(e.bucket) && e.index == old(e.index) && e.key == old(e.key) && e.next == old(e.next)
      requires 0 <= e.bucket < size && 0 <= e.index < old(|chains[e.bucket]|) && e == old(chains[e.bucket][e.index])
      requires chains == old(chains) && Repr == old(Repr)
      requires buckets == old(buckets)[e.bucket := old(buckets[e.bucket])[e.index := Entry(e.key, e.val)]]
      requires forall o: Element :: o in old(Repr) && o != e ==> unchanged(o)
      ensures Shape()
    {
      var h, j := e.bucket, e.index;
      forall i, t | 0 <= i < size && 0 <= t < |chains[i]|
        ensures chains[i][t] in Repr && chains[i][t].bucket == i && chains[i][t].index == t
        ensures chains[i][t].key == buckets[i][t].key && chains[i][t].val == buckets[i][t].val
      {
        if chains[i][t] != e {
          assert unchanged(chains[i][t]);
        } else {
          assert i == h && t == j;
        }
      }
      forall i | 0 <= i < size
        ensures Last(chains[i]).next == null
      {
        assert chains[i][|chains[i]| - 1] == e || unchanged(chains[i][|chains[i]| - 1]);
      }
      forall i, t, k | 0 <= i < size && 0 <= t && k == t + 1 && k < |chains[i]|
        ensures chains[i][t].next == chains[i][k]
      {
        assert chains[i][t] == e || unchanged(chains[i][t]);
      }
    }

    /**
      A new element holding the pair is linked after `e`, the tail of bucket
      `h`, and ends the chain.
     */
    method Append(e: Element, h: nat, key: u64, val: u32)
      requires Shape() && h < size && e == Last(chains[h]) && WellFormed(buckets[h])
      requires buckets[h][0].key != KEY_NONE && !BucketHas(buckets[h], key)
      modifies this, e
      ensures Shape() && fresh(Repr - old(Repr))
      ensures buckets == old(buckets)[h := old(buckets)[h] + [Entry(key, val)]]
    {
      PutAppendsNewKey(buckets[h], key, val);
      var n := new Element(key, val, h, |chains[h]|);
      e.next := n;
      chains := chains[h := chains[h] + [n]];
      buckets := buckets[h := buckets[h] + [Entry(key, val)]];
      Repr := Repr + {n};
      AppendedShape(h);
    }

    /** `Append` keeps the shape: the old tail now leads to the new element, which ends the chain. */
    twostate lemma AppendedShape(h: nat)
      requires old(Shape()) && h < size && unchanged(elements)
      requires |chains| == old(|chains|) && |chains[h]| == old(|chains[h]|) + 1
      requires chains == old(chains)[h := old(chains[h]) + [Last(chains[h])]]
      requires Last(chains[h]) !in old(Repr) && Repr == old(Repr) + {Last(chains[h])}
      requires buckets == old(buckets)[h := old(buckets[h]) + [Entry(Last(chains[h]).key, Last(chains[h]).val)]]
      requires Last(chains[h]).next == null && Last(chains[h]).bucket == h && Last(chains[h]).index == old(|chains[h]|)
      requires old(Last(chains[h])).next == Last(chains[h])
      requires old(Last(chains[h])).key == old(Last(chains[h]).key) && old(Last(chains[h])).val == old(Last(chains[h]).val)
      requires old(Last(chains[h])).bucket == old(Last(chains[h]).bucket) && old(Last(chains[h])).index == old(Last(chains[h]).index)
      requires forall o: Element :: o in old(Repr) && o != old(Last(chains[h])) ==> unchanged(o)
      ensures Shape()
    {
      var C := old(chains);
      var e := old(Last(chains[h]));
      forall i, t | 0 <= i < size && 0 <= t < |chains[i]|
        ensures chains[i][t] in Repr && chains[i][t].bucket == i && chains[i][t].index == t
        ensures chains[i][t].key == buckets[i][t].key && chains[i][t].val == buckets[i][t].val
      {
        if i != h || t < |C[h]| {
          assert chains[i][t] == C[i][t];
          assert chains[i][t] == e || unchanged(chains[i][t]);
        }
      }
      forall i, t, k | 0 <= i < size && 0 <= t && k == t + 1 && k < |chains[i]|
        ensures chains[i][t].next == chains[i][k]
      {
        if i != h || k < |C[h]| {
          assert chains[i][t] == C[i][t] && chains[i][k] == C[i][k];
          assert chains[i][t] != e && unchanged(chains[i][t]);
        }
      }
      forall i | 0 <= i < size
        ensures Last(chains[i]).next == null
      {
        if i != h {
          assert chains[i] == C[i] && C[i][|C[i]| - 1].bucket == i;
          assert unchanged(C[i][|C[i]| - 1]);
        }
      }
    }

    /** The unused head of bucket `h` takes the pair and ends the chain. */
    method FillHead(h: nat, key: u64, val: u32)
      requires Shape() && h < size && WellFormed(buckets[h]) && buckets[h][0].key == KEY_NONE
      modifies this, elements[h]
      ensures Shape() && Repr == old(Repr)
      ensures buckets == old(buckets)[h := [Entry(key, val)]]
    {
      var e := elements[h];
      e.key, e.val, e.next := key, val, null;
      buckets := buckets[h := [Entry(key, val)]];
      FilledHeadShape(h);
    }

    /** `FillHead` keeps the shape: only the head of bucket `h`, alone in its chain, changed. */
    twostate lemma FilledHeadShape(h: nat)
      requires old(Shape()) && h < size && old(|chains[h]|) == 1 && unchanged(elements) && elements[h] != null
      requires chains == old(chains) && Repr == old(Repr)
      requires buckets == old(buckets)[h := [Entry(elements[h].key, elements[h].val)]]
      requires elements[h].next == null && elements[h].bucket == old(elements[h].bucket) && elements[h].index == old(elements[h].index)
      requires forall o: Element :: o in old(Repr) && o != elements[h] ==> unchanged(o)
      ensures Shape()
    {
      var e := elements[h];
      forall i, j | 0 <= i < size && 0 <= j < |chains[i]|
        ensures chains[i][j] in Repr && chains[i][j].bucket == i && chains[i][j].index == j
        ensures chains[i][j].key == buckets[i][j].key && chains[i][j].val == buckets[i][j].val
      {
        if i != h || j != 0 {
          assert chains[i][j] != e;
          assert unchanged(chains[i][j]);
        }
      }
      forall i | 0 <= i < size
        ensures Last(chains[i]).next == null
      {
        if i != h {
          assert unchanged(chains[i][|chains[i]| - 1]);
        }
      }
      forall i, j, k | 0 <= i < size && 0 <= j && k == j + 1 && k < |chains[i]|
        ensures chains[i][j].next == chains[i][k]
      {
        assert i != h;
        assert unchanged(chains[i][j]);
      }
    }

    /** The `next` links of bucket `i` run along its chain, as `Shape` says. */
    lemma ChainLinked(i: nat)
      requires Shape() && i < size
      ensures Linked(chains[i])
    {
    }

    /**
      `Map_free_lists`: every overflow element is released; the heads stay,
      still pointing at the released elements, so the table must be
      initialized again before use.
     */
    method FreeLists()
      requires Valid()
      modifies this
      ensures chains == old(chains) && buckets == old(buckets)
      ensures Repr == old(Repr) - Overflow(chains, size)
    {
      forall i | 0 <= i < size
        ensures Linked(chains[i])
      {
        ChainLinked(i);
      }
      ReleaseOverflow();
    }

    /** The loop of `Map_free_lists`, over chains whose links are as `Shape` describes. */
    method ReleaseOverflow()
      requires size == |chains| == elements.Length
      requires forall t :: 0 <= t < size ==> Linked(chains[t]) && |chains[t]| > 0 && elements[t] == chains[t][0]
      modifies this
      ensures chains == old(chains) && buckets == old(buckets)
      ensures Repr == old(Repr) - Overflow(chains, size)
    {
      for i := 0 to size
        invariant chains == old(chains) && buckets == old(buckets)
        invariant Repr == old(Repr) - Overflow(chains, i)
      {
        ghost var freed := FreeChain(i);
        ReleaseMore(old(Repr), Overflow(chains, i), freed);
        Repr := Repr - freed;
      }
    }

    /**
      Releasing the overflow elements keeps exactly the heads: what
      `Map_free_lists` leaves owned is the table itself.
     */
    lemma FreeingKeepsHeads()
      requires Shape()
      ensures forall i, j :: 0 <= i < size && 0 <= j < |chains[i]| ==> (chains[i][j] in Repr - Overflow(chains, size) <==> j == 0)
    {
      assert Labelled(chains);
      OverflowExactly(chains);
    }

    /** What the map owns is exactly its heads and the elements behind them. */
    lemma OwnedSplits()
      requires Shape()
      ensures Repr == Overflow(chains, size) + Heads(chains)
    {
      assert Labelled(chains);
      OverflowExactly(chains);
      OverflowWithin(chains, size, Repr);
      forall o | o in Repr
        ensures o in Overflow(chains, size) + Heads(chains)
      {
        assert Placed(o);
      }
    }

    /** The pass of `Map_free_lists` over bucket `i`: the elements behind its head are released. */
    method FreeChain(i: nat) returns (ghost freed: set<Element>)
      requires i < size == |chains| == elements.Length && Linked(chains[i]) && |chains[i]| > 0 && elements[i] == chains[i][0]
      ensures freed == Elements(Behind(chains[i]))
    {
      assert |chains[i]| > 1 ==> elements[i].next == chains[i][1];
      freed := {};
      if elements[i].next != null {
        freed := FreeList(elements[i].next, chains[i][1..]);
      }
    }

    /**
      `Map_destroy`: `Map_free_lists` releases the overflow elements, freeing
      the table releases the heads, and the caller's handle is cleared. What
      is released is everything the map owned.
     */
    method Destroy() returns (ghost released: set<Element>, handle: Map?)
      requires Valid()
      modifies this
      ensures released == Overflow(old(chains), size) + Heads(old(chains))
      ensures released == old(Repr) && Repr == {}
      ensures handle == null
    {
      OwnedSplits();
      ghost var heads := Heads(chains);
      released := Overflow(chains, size) + heads;
      FreeLists();
      Repr := Repr - heads;
      handle := null;
    }
  }

  /** `next` links the elements of `c` in order, and its last element ends the chain. */
  ghost predicate Linked(c: seq<Element>)
    reads c
  {
    && (forall j, k {:trigger c[j], c[k]} :: 0 <= j && k == j + 1 && k < |c| ==> c[j].next == c[k])
    && (|c| > 0 ==> Last(c).next == null)
  }

  /** The elements of a chain behind its head. */
  function Behind(c: seq<Element>): seq<Element>
  {
    if c == [] then [] else c[1..]
  }

  /** The elements behind the heads of the first `n` chains of `cs`: what `Map_free_lists` releases. */
  ghost function Overflow(cs: seq<seq<Element>>, n: nat): set<Element>
    requires n <= |cs|
  {
    if n == 0 then {} else Overflow(cs, n - 1) + Elements(Behind(cs[n - 1]))
  }

  /** The head of each chain of `cs`: the elements of the table `Map_new` allocates. */
  ghost function Heads(cs: seq<seq<Element>>): set<Element>
  {
    set i | 0 <= i < |cs| && |cs[i]| > 0 :: cs[i][0]
  }

  /** Every element of `cs` is labelled with its bucket and position. */
  ghost predicate Labelled(cs: seq<seq<Element>>)
    reads set t, j | 0 <= t < |cs| && 0 <= j < |cs[t]| :: cs[t][j]
  {
    forall t, j :: 0 <= t < |cs| && 0 <= j < |cs[t]| ==> cs[t][j].bucket == t && cs[t][j].index == j
  }

  /** The overflow elements of the first `n` buckets lie behind the heads of those buckets. */
  lemma {:induction false} OverflowBehindHeads(cs: seq<seq<Element>>, n: nat)
    requires Labelled(cs) && n <= |cs|
    ensures forall x :: x in Overflow(cs, n) ==> 0 <= x.bucket < n && x.index > 0
  {
    if n > 0 {
      OverflowBehindHeads(cs, n - 1);
      var c := cs[n - 1];
      forall x | x in Elements(Behind(c))
        ensures 0 <= x.bucket < n && x.index > 0
      {
        var j :| 0 <= j < |Behind(c)| && Behind(c)[j] == x;
        assert x == c[j + 1];
      }
    }
  }

  /** Every element behind the head of one of the first `n` buckets is an overflow element. */
  lemma OverflowCovers(cs: seq<seq<Element>>, n: nat)
    requires n <= |cs|
    ensures forall t, j :: 0 <= t < n && 0 < j < |cs[t]| ==> cs[t][j] in Overflow(cs, n)
  {
    forall t, j | 0 <= t < n && 0 < j < |cs[t]|
      ensures cs[t][j] in Overflow(cs, n)
    {
      OverflowHas(cs, n, t, j);
    }
  }

  lemma {:induction false} OverflowHas(cs: seq<seq<Element>>, n: nat, t: nat, j: nat)
    requires n <= |cs| && t < n && 0 < j < |cs[t]|
    ensures cs[t][j] in Overflow(cs, n)
    decreases n
  {
    if t < n - 1 {
      OverflowHas(cs, n - 1, t, j);
    } else {
      assert cs[t][j] == Behind(cs[t])[j - 1];
    }
  }

  /** The overflow elements of labelled chains are exactly the elements behind their heads. */
  lemma OverflowExactly(cs: seq<seq<Element>>)
    requires Labelled(cs)
    ensures forall t, j :: 0 <= t < |cs| && 0 <= j < |cs[t]| ==> (cs[t][j] in Overflow(cs, |cs|) <==> j > 0)
  {
    OverflowBehindHeads(cs, |cs|);
    OverflowCovers(cs, |cs|);
  }

  /** The overflow elements of the first `n` buckets lie in any set holding every element of those chains. */
  lemma {:induction false} OverflowWithin(cs: seq<seq<Element>>, n: nat, s: set<Element>)
    requires n <= |cs|
    requires forall t, j :: 0 <= t < n && 0 <= j < |cs[t]| ==> cs[t][j] in s
    ensures Overflow(cs, n) <= s
  {
    if n > 0 {
      OverflowWithin(cs, n - 1, s);
      forall x | x in Elements(Behind(cs[n - 1]))
        ensures x in s
      {
        var j :| 0 <= j < |Behind(cs[n - 1])| && Behind(cs[n - 1])[j] == x;
        assert x == cs[n - 1][j + 1];
      }
    }
  }

  /** Releasing `o` and then `e` from `owned` releases their union. */
  lemma ReleaseMore(owned: set<Element>, o: set<Element>, e: set<Element>)
    ensures owned - o - e == owned - (o + e)
  {
  }

  /** The elements of a chain, as a set. */
  ghost function Elements(c: seq<Element>): set<Element>
  {
    set y | y in c
  }

  lemma ElementsSnoc(c: seq<Element>, x: Element)
    ensures Elements(c + [x]) == Elements(c) + {x}
  {
  }

  /**
    `free_list`: release `e` and every element after it, following `next` to
    NULL; `freed` collects the released elements.
   */
  method FreeList(e: Element?, ghost c: seq<Element>) returns (ghost freed: set<Element>)
    requires Linked(c) && e == if |c| > 0 then c[0] else null
    ensures freed == Elements(c)
  {
    var x := e;
    ghost var j := 0;
    freed := {};
    while x != null
      invariant 0 <= j <= |c| && x == if j < |c| then c[j] else null
      invariant freed == Elements(c[..j])
      decreases |c| - j
    {
      assert j + 1 < |c| ==> c[j].next == c[j + 1];
      var next := x.next;
      freed := freed + {x};
      ElementsSnoc(c[..j], x);
      assert c[..j + 1] == c[..j] + [x];
      x := next;
      j := j + 1;
    }
    assert c[..j] == c;
  }
}
