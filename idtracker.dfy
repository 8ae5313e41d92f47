/**
  The OSM id bitset of idtracker.c: one bit per id below 2^32, kept in a
  flat array of 2^26 64-bit words. Bit `id & 63` of word `id >> 6` records `id`.
 */
module IdTracker {
  import opened Common

  const MAX_ID: int := TWO_32
  const BIN_BITS: int := 6
  const BIN_MASK: int := 63
  const N_BINS: int := 0x400_0000   // MAX_ID >> BIN_BITS

  /** The single bit `1L << k` of a word. */
  function Flag(k: bv6): bv64
  {
    (1 as bv64) << k
  }

  /** Whether bit `k` of `w` is set. */
  predicate BitOf(w: bv64, k: bv6)
  {
    w & Flag(k) != 0
  }

  /** `w | flag`: word `w` with bit `k` set. */
  function WithBit(w: bv64, k: bv6): bv64
  {
    w | Flag(k)
  }

  /** `id & BIN_MASK`, the position of `id` inside its word. */
  function BitIndex(id: nat): bv6
  {
    (id % 64) as bv6
  }

  /** `id >> BIN_BITS`, the word that holds `id`; it lies in the array exactly when `id < 2^32`. */
  function BinIndex(id: u64): (w: nat)
    ensures w < N_BINS <==> id < MAX_ID
    ensures w * 64 <= id < w * 64 + 64
  {
    id / 64
  }

  lemma NoBitOfZero(k: bv6)
    ensures !BitOf(0, k)
  {
  }

  /** A word with exactly one bit set, as every `Flag(k)` is. */
  predicate SingleBit(f: bv64)
  {
    f != 0 && f & (f - 1) == 0
  }

  lemma FlagSingle(k: bv6)
    ensures SingleBit(Flag(k))
  {
  }

  lemma FlagInjective(k: bv6, j: bv6)
    ensures (Flag(k) == Flag(j)) == (k == j)
  {
  }

  /** Or-ing in a single bit `f` and testing a single bit `g`. */
  lemma OrSingle(w: bv64, f: bv64, g: bv64)
    requires SingleBit(f) && SingleBit(g)
    ensures ((w | f) & g != 0) == (f == g || w & g != 0)
  {
  }

  /** Or-ing in bits that are all already set changes nothing. */
  lemma OrCovered(w: bv64, f: bv64)
    requires w & f == f
    ensures w | f == w
  {
  }

  /** Or-ing in one flag sets that bit ... */
  lemma BitOfOrSame(w: bv64, k: bv6)
    ensures BitOf(WithBit(w, k), k)
  {
    FlagSingle(k);
    OrSingle(w, Flag(k), Flag(k));
  }

  /** ... and leaves every other bit as it was. */
  lemma BitOfOrOther(w: bv64, k: bv6, j: bv6)
    requires j != k
    ensures BitOf(WithBit(w, k), j) == BitOf(w, j)
  {
    FlagSingle(k);
    FlagSingle(j);
    FlagInjective(k, j);
    OrSingle(w, Flag(k), Flag(j));
  }

  lemma BitOfOr(w: bv64, k: bv6, j: bv6)
    ensures BitOf(WithBit(w, k), j) == (j == k || BitOf(w, j))
  {
    if j == k {
      BitOfOrSame(w, k);
    } else {
      BitOfOrOther(w, k, j);
    }
  }

  /** Setting a bit that is already set leaves the word unchanged. */
  lemma WithBitIdempotent(w: bv64, k: bv6)
    requires BitOf(w, k)
    ensures WithBit(w, k) == w
  {
    FlagSingle(k);
    assert w & Flag(k) == Flag(k);
    OrCovered(w, Flag(k));
  }

  /** Two ids in the same word are told apart by their bit index. */
  lemma SameWordBitIndex(a: nat, b: nat)
    requires a / 64 == b / 64
    ensures (BitIndex(a) == BitIndex(b)) == (a == b)
  {
    SmallToBv(a % 64);
    SmallToBv(b % 64);
    BvToIntInjective(BitIndex(a), BitIndex(b));
  }

  lemma SmallToBv(a: nat)
    requires a < 64
    ensures (a as bv6) as int == a
  {
  }

  lemma BvToIntInjective(x: bv6, y: bv6)
    ensures (x as int == y as int) == (x == y)
  {
  }

  class Tracker {
    /** The static `bins` array. */
    const bins: array<bv64>

    ghost predicate Valid()
      reads this
    {
      bins.Length == N_BINS
    }

    /** Whether `id` is recorded. */
    ghost predicate Has(id: nat)
      reads this, bins
      requires Valid() && id < MAX_ID
    {
      BitOf(bins[id / 64], BitIndex(id))
    }

    /** The set of recorded ids. */
    ghost function Members(): (s: set<nat>)
      reads this, bins
      requires Valid()
      ensures forall id: nat :: id in s <==> id < MAX_ID && Has(id)
    {
      set id: nat | id < MAX_ID && Has(id)
    }

    /** The zero-initialised static array. */
    constructor ()
      ensures Valid() && fresh(bins) && Members() == {}
    {
      bins := new bv64[N_BINS](_ => 0);
      new;
      forall id: nat | id < MAX_ID ensures !Has(id) {
        NoBitOfZero(BitIndex(id));
      }
    }

    /** `IDTracker_reset`: clear every word. */
    method Reset()
      requires Valid()
      modifies bins
      ensures Valid() && Members() == {}
    {
      forall w | 0 <= w < bins.Length {
        bins[w] := 0;
      }
      forall id: nat | id < MAX_ID ensures !Has(id) {
        NoBitOfZero(BitIndex(id));
      }
    }

    /**
      `IDTracker_set`: test-and-set. Returns whether `id` was already recorded;
      ids at or beyond 2^32 end the process with status -12.
     */
    method Set(id: u64) returns (st: Status<bool>)
      requires Valid()
      modifies bins
      ensures Valid()
      ensures id >= MAX_ID ==> st == Exit(-12) && bins[..] == old(bins[..]) && Members() == old(Members())
      ensures id < MAX_ID ==> st == Ok(id in old(Members())) && Members() == old(Members()) + {id}
      ensures id < MAX_ID ==> bins[id / 64] == WithBit(old(bins[id / 64]), BitIndex(id))
      ensures forall w :: 0 <= w < N_BINS && w != id / 64 ==> bins[w] == old(bins[w])
      ensures id in old(Members()) ==> bins[..] == old(bins[..])
    {
      var binIndex := BinIndex(id);
      var bitIndex := BitIndex(id);
      if binIndex >= N_BINS {
        return Exit(-12);
      }
      var alreadySet := BitOf(bins[binIndex], bitIndex);
      if alreadySet {
        WithBitIdempotent(bins[binIndex], bitIndex);
      }
      bins[binIndex] := WithBit(bins[binIndex], bitIndex);
      forall other: nat | other < MAX_ID
        ensures Has(other) == (other == id || BitOf(old(bins[other / 64]), BitIndex(other)))
      {
        if other / 64 == binIndex {
          BitOfOr(old(bins[binIndex]), bitIndex, BitIndex(other));
          SameWordBitIndex(id, other);
        }
      }
      st := Ok(alreadySet);
    }

    /** `IDTracker_get`: whether `id` is recorded; ids at or beyond 2^32 exit with -12. */
    method Get(id: u64) returns (st: Status<bool>)
      requires Valid()
      ensures id >= MAX_ID ==> st == Exit(-12)
      ensures id < MAX_ID ==> st == Ok(id in Members())
    {
      var binIndex := BinIndex(id);
      if binIndex >= N_BINS {
        return Exit(-12);
      }
      st := Ok(BitOf(bins[binIndex], BitIndex(id)));
    }
  }

  /** What the range check in `IDTracker_set`/`IDTracker_get` decides. */
  datatype BinCheck = Rejected | Word(index: int)

  /** A value converted to a 32-bit `int`, wrapping modulo 2^32 as GCC does. */
  function Int32Wrap(v: int): (r: int)
    ensures -0x8000_0000 <= r < 0x8000_0000
    ensures (r - v) % TWO_32 == 0
  {
    var m := v % TWO_32;
    if m >= 0x8000_0000 then m - TWO_32 else m
  }

  /**
    The check as written: `id >> BIN_BITS` is stored in an `int` before it is
    compared with `N_BINS`, so the comparison sees the truncated value.
   */
  function CheckAsWritten(id: u64): BinCheck
  {
    var binIndex := Int32Wrap(id / 64);
    if binIndex >= N_BINS then Rejected else Word(binIndex)
  }

  /** The check as intended, on the untruncated word number (what `BinIndex` computes). */
  function CheckIntended(id: u64): (c: BinCheck)
    ensures c == Rejected <==> id >= MAX_ID
    ensures c.Word? ==> 0 <= c.index < N_BINS && c.index * 64 <= id < c.index * 64 + 64
  {
    var binIndex := BinIndex(id);
    if binIndex >= N_BINS then Rejected else Word(binIndex)
  }

  /**
    Ids at or beyond 2^32 slip through the truncated check: 2^38 lands on
    word 0, bit 0 (the slot of id 0), and 2^37 yields a negative word index.
   */
  lemma CheckAsWrittenAdmitsLargeIds()
    ensures CheckAsWritten(0x40_0000_0000) == Word(0)
    ensures BitIndex(0x40_0000_0000) == BitIndex(0)
    ensures CheckAsWritten(0x20_0000_0000) == Word(-0x8000_0000)
    ensures CheckIntended(0x40_0000_0000) == Rejected && CheckIntended(0x20_0000_0000) == Rejected
  {
  }
}
