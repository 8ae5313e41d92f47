/**
  Fixed-width integer types, byte strings and the outcome type shared by
  every module of the model.
 */
module Common {

  const TWO_8: int := 0x100
  const TWO_32: int := 0x1_0000_0000
  const TWO_63: int := 0x8000_0000_0000_0000
  const TWO_64: int := 0x1_0000_0000_0000_0000

  type byte = b: int | 0 <= b < TWO_8
  type u32 = x: int | 0 <= x < TWO_32
  type u64 = x: int | 0 <= x < TWO_64
  type i64 = x: int | -TWO_63 <= x < TWO_63
  type bytes = seq<byte>

  /** `EXIT_SUCCESS` and `EXIT_FAILURE` of the C library. */
  const EXIT_SUCCESS: int := 0
  const EXIT_FAILURE: int := 1

  datatype Option<+T> = None | Some(value: T)

  /**
    How a step of the C program ends: it returns a value, it terminates the
    process through `exit`/`die` with a status code, or it would touch memory
    outside the object it reads (undefined behaviour in C, a crash in practice).
   */
  datatype Status<+T> = Ok(value: T) | Exit(code: int) | Fault

  /** The four bytes of `x` in network (big-endian) order, as `htonl` stores them. */
  function BigEndian32(x: u32): (r: bytes)
    ensures |r| == 4
  {
    var q1 := x / 0x100;
    var q2 := q1 / 0x100;
    [q2 / 0x100, q2 % 0x100, q1 % 0x100, x % 0x100]
  }

  /** `ntohl` applied to the first four bytes of `b`. */
  function ReadBigEndian32(b: bytes): (x: u32)
    requires |b| >= 4
  {
    b[0] as int * 0x100_0000 + b[1] as int * 0x1_0000 + b[2] as int * 0x100 + b[3] as int
  }

  lemma BigEndian32RoundTrip(x: u32, rest: bytes)
    ensures ReadBigEndian32(BigEndian32(x) + rest) == x
  {
    var b := BigEndian32(x) + rest;
    var q1 := x / 0x100;
    var q2 := q1 / 0x100;
    assert x == q1 * 0x100 + b[3] as int;
    assert q1 == q2 * 0x100 + b[2] as int;
    assert q2 == b[0] as int * 0x100 + b[1] as int;
  }

  /** The bytes of an ASCII string literal. */
  function Ascii(s: string): (r: bytes)
    requires forall i :: 0 <= i < |s| ==> s[i] as int < 0x100
    ensures |r| == |s|
    ensures forall i :: 0 <= i < |s| ==> r[i] == s[i] as int
  {
    if s == [] then [] else [s[0] as int] + Ascii(s[1..])
  }

  /**
    An IEEE double as far as comparisons see it: a finite value, an
    infinity, or NaN, which compares false with everything.
   */
  datatype Double = Finite(v: real) | PosInf | NegInf | NaN

  /** `a < b` on doubles. */
  predicate Less(a: Double, b: Double)
  {
    match (a, b)
      case (NaN, _) => false
      case (_, NaN) => false
      case (NegInf, NegInf) => false
      case (NegInf, _) => true
      case (_, NegInf) => false
      case (PosInf, _) => false
      case (_, PosInf) => true
      case (Finite(x), Finite(y)) => x < y
  }

  /** `a <= b` on doubles: false as soon as either side is NaN. */
  predicate LessEq(a: Double, b: Double)
  {
    !a.NaN? && !b.NaN? && !Less(b, a)
  }

  /** Every comparison with NaN is false. */
  lemma NaNComparesFalse(a: Double)
    ensures !Less(a, NaN) && !Less(NaN, a) && !LessEq(a, NaN) && !LessEq(NaN, a)
  {
  }

  /** On non-NaN doubles the order is total: exactly one of `a < b` and `b <= a` holds. */
  lemma LessTotal(a: Double, b: Double)
    requires !a.NaN? && !b.NaN?
    ensures Less(a, b) != LessEq(b, a)
  {
  }

  /** Appending is associative; stated over plain sequences so that callers need not unfold what they hold. */
  lemma AppendAssoc<T>(a: seq<T>, b: seq<T>, c: seq<T>)
    ensures (a + b) + c == a + (b + c)
  {
  }
}
