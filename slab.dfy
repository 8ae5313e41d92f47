/**
  The bump ("arena") allocator of slab.c that protobuf decoding allocates from.
  Addresses are natural numbers and 0 is `NULL`; the block `malloc` hands to
  `slab_init` is a parameter, as `malloc` is outside the model.
 */
module SlabAlloc {
  import opened Common

  const NULL: nat := 0

  /**
    The three static pointers `slab`, `next` and `limit`, and whether the
    slab's memory is currently held (allocated by `malloc`, not yet freed).
   */
  datatype Pointers = Pointers(slab: nat, next: nat, limit: nat, held: bool)

  /** Static storage starts zeroed: all three pointers are `NULL`. */
  const Initial: Pointers := Pointers(NULL, NULL, NULL, false)

  /** `slab_init(size)` given the block `base` that `malloc` returned. */
  function InitStep(s: Pointers, size: nat, base: nat): (r: Status<Pointers>)
    ensures r.Exit? <==> s.slab != NULL
    ensures r.Exit? ==> r.code == EXIT_FAILURE
    ensures r.Ok? ==> r.value.next == r.value.slab == base && r.value.limit == base + size && r.value.held
  {
    if s.slab != NULL then Exit(EXIT_FAILURE)
    else Ok(Pointers(base, base, base + size, true))
  }

  /** `slab_reset`: every block handed out is released at once. */
  function ResetStep(s: Pointers): (r: Pointers)
    ensures r.next == r.slab == s.slab && r.limit == s.limit && r.held == s.held
  {
    s.(next := s.slab)
  }

  /** `slab_done` as written: the memory is freed but `slab` keeps its value. */
  function DoneStep(s: Pointers): (r: Pointers)
    ensures !r.held && r.slab == s.slab && r.next == s.next && r.limit == s.limit
  {
    s.(held := false)
  }

  /** `slab_done` as evidently intended: freeing also forgets the slab, so it can be set up again. */
  function DoneStepFixed(s: Pointers): (r: Pointers)
    ensures !r.held && r.slab == NULL && r.next == s.next && r.limit == s.limit
  {
    s.(slab := NULL, held := false)
  }

  /**
    `slab_alloc(size)`: the returned address and the new pointers. Only
    `next >= limit` is refused; the block is not checked to fit.
   */
  function AllocStep(s: Pointers, size: nat): (r: (nat, Pointers))
    ensures r.1.slab == s.slab && r.1.limit == s.limit && r.1.held == s.held
    ensures s.next >= s.limit ==> r.0 == NULL && r.1 == s
    ensures s.next < s.limit ==> r.0 == s.next && r.1.next == s.next + size
  {
    if s.next >= s.limit then (NULL, s) else (s.next, s.(next := s.next + size))
  }

  /** The pointers between `slab_init` and `slab_done`: `next` never falls below `slab`. */
  predicate Sane(s: Pointers)
  {
    s.slab != NULL && s.slab <= s.next
  }

  /** On a set-up slab, allocation answers `NULL` exactly when `next` has reached `limit`. */
  lemma AllocNullIff(s: Pointers, size: nat)
    requires Sane(s)
    ensures (AllocStep(s, size).0 == NULL) == (s.next >= s.limit)
    ensures Sane(AllocStep(s, size).1)
  {
  }

  /** The last block handed out can reach past `limit`: 8 bytes asked for at 2 bytes from the end. */
  lemma AllocOverrunsLimit()
    ensures var s := Pointers(100, 108, 110, true);
            var (p, t) := AllocStep(s, 8);
            p == 108 && p + 8 > s.limit && t.next > t.limit
  {
  }

  /** After `slab_reset`, the next allocation returns the start of the slab. */
  lemma AllocAfterReset(s: Pointers, size: nat)
    requires s.slab < s.limit
    ensures AllocStep(ResetStep(s), size).0 == s.slab
  {
  }

  /** A second `slab_init` after `slab_done` exits, because `slab` is still non-`NULL`. */
  lemma InitAfterDoneExits(size: nat, base: nat, size2: nat, base2: nat)
    requires base != NULL
    ensures InitStep(Initial, size, base).Ok?
    ensures InitStep(DoneStep(InitStep(Initial, size, base).value), size2, base2) == Exit(EXIT_FAILURE)
  {
  }

  /** With the intended `slab_done`, the allocator can be set up again. */
  lemma InitAfterFixedDoneSucceeds(s: Pointers, size: nat, base: nat)
    ensures InitStep(DoneStepFixed(s), size, base) == Ok(Pointers(base, base, base + size, true))
  {
  }

  /** A run of `slab_alloc` calls: the addresses returned and the final pointers. */
  function AllocRun(s: Pointers, sizes: seq<nat>): (r: (seq<nat>, Pointers))
    ensures |r.0| == |sizes|
    ensures r.1.slab == s.slab && r.1.limit == s.limit && r.1.next >= s.next
    decreases |sizes|
  {
    if sizes == [] then ([], s)
    else
      var (p, t) := AllocStep(s, sizes[0]);
      var (ps, u) := AllocRun(t, sizes[1..]);
      ([p] + ps, u)
  }

  /**
    Between resets, the non-`NULL` blocks of positive size come back in
    strictly increasing order, each at or after `next` and none overlapping
    a later one.
   */
  lemma {:induction false} AllocRunDisjoint(s: Pointers, sizes: seq<nat>)
    requires Sane(s)
    requires forall k :: 0 <= k < |sizes| ==> sizes[k] > 0
    decreases |sizes|
    ensures var ps := AllocRun(s, sizes).0;
            forall i :: 0 <= i < |sizes| && ps[i] != NULL ==>
              s.next <= ps[i] && ps[i] + sizes[i] <= AllocRun(s, sizes).1.next
    ensures var ps := AllocRun(s, sizes).0;
            forall i, j :: 0 <= i < j < |sizes| && ps[i] != NULL && ps[j] != NULL ==>
              ps[i] + sizes[i] <= ps[j]
  {
    if sizes != [] {
      var (p, t) := AllocStep(s, sizes[0]);
      AllocNullIff(s, sizes[0]);
      AllocRunDisjoint(t, sizes[1..]);
      var (ps, u) := AllocRun(t, sizes[1..]);
      assert AllocRun(s, sizes) == ([p] + ps, u);
      forall i, j | 0 <= i < j < |sizes| && ([p] + ps)[i] != NULL && ([p] + ps)[j] != NULL
        ensures ([p] + ps)[i] + sizes[i] <= ([p] + ps)[j]
      {
        if i == 0 {
          assert ([p] + ps)[j] == ps[j - 1] && sizes[j] == sizes[1..][j - 1];
        } else {
          assert ([p] + ps)[i] == ps[i - 1] && sizes[i] == sizes[1..][i - 1];
          assert ([p] + ps)[j] == ps[j - 1];
        }
      }
      forall i | 0 <= i < |sizes| && ([p] + ps)[i] != NULL
        ensures s.next <= ([p] + ps)[i] && ([p] + ps)[i] + sizes[i] <= u.next
      {
        if i > 0 {
          assert ([p] + ps)[i] == ps[i - 1] && sizes[i] == sizes[1..][i - 1];
        }
      }
    }
  }

  /** The allocator's static state, updated in place by the functions of slab.c. */
  class Slab {
    var slab: nat
    var next: nat
    var limit: nat
    ghost var held: bool

    ghost function State(): (s: Pointers)
      reads this
    {
      Pointers(slab, next, limit, held)
    }

    /** Zeroed static storage. */
    constructor ()
      ensures State() == Initial
    {
      slab, next, limit, held := NULL, NULL, NULL, false;
    }

    /** `slab_init`; `base` is what `malloc(size)` returned. */
    method Init(size: nat, base: nat) returns (st: Status<()>)
      modifies this
      ensures var r := InitStep(old(State()), size, base);
              if r.Ok? then st == Ok(()) && State() == r.value
              else st == Exit(r.code) && State() == old(State())
    {
      if slab != NULL {
        return Exit(EXIT_FAILURE);
      }
      slab := base;
      limit := slab + size;
      next := slab;
      held := true;
      st := Ok(());
    }

    /** `slab_reset`. */
    method Reset()
      modifies this
      ensures State() == ResetStep(old(State()))
    {
      next := slab;
    }

    /** `slab_done`. */
    method Done()
      modifies this
      ensures State() == DoneStep(old(State()))
    {
      held := false;
    }

    /** `slab_alloc`: bump `next` by `size` and return its old value, or `NULL` once `next >= limit`. */
    method Alloc(size: nat) returns (p: nat)
      modifies this
      ensures (p, State()) == AllocStep(old(State()), size)
    {
      if next >= limit {
        return NULL;
      }
      p := next;
      next := next + size;
    }

    /** `slab_free`: individual blocks are never given back. */
    method Free(pointer: nat)
      ensures State() == old(State())
    {
    }
  }
}
