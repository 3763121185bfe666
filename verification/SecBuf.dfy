/** Transfer buffers between two inaccessible pages, so placed that the first byte past the end
    is in the second of them. */
module SecBuf {
  import opened Bytes

  const UINT := 0x1_0000_0000   // unsigned int wraps here

  /** Up to the next page. */
  function Rounded(size: nat, page: nat): (r: nat)
    requires page > 0
  {
    if size % page != 0 then (size / page + 1) * page else size
  }

  /** The size with its two guard pages, without wrap-around. */
  function TrueSize(size: nat, page: nat): nat
    requires page > 0
  {
    Rounded(size, page) + page * 2
  }

  /** The size of the mapping, in an unsigned int. */
  function MapSize(size: nat, page: nat): nat
    requires page > 0
  {
    TrueSize(size, page) % UINT
  }

  /** Where the buffer starts in its mapping. */
  function Offset(size: nat, page: nat): nat
    requires page > 0
  {
    page + if size % page != 0 then page - size % page else 0
  }

  lemma OffsetIs(size: nat, page: nat)
    requires page > 0
    ensures Offset(size, page) + size + page == TrueSize(size, page)
    ensures page <= Offset(size, page) < 2 * page && TrueSize(size, page) % page == 0
  {
    if size % page != 0 {
      Remainder(TrueSize(size, page), size / page + 3, 0, page);
    } else {
      Remainder(TrueSize(size, page), size / page + 2, 0, page);
    }
  }

  method PlusGuards(roundUp: nat, page: nat, ghost rounded: nat) returns (sum: nat)
    requires roundUp == rounded % UINT
    ensures sum == (rounded + page * 2) % UINT
    ensures sum == rounded + page * 2 <==> rounded + page * 2 < UINT
  {
    SumWraps(rounded, page * 2);
    sum := (roundUp + page * 2 % UINT) % UINT;
  }

  /** The rounding of `vsf_secbuf_alloc`, each step of it in an unsigned int: the sum comes out true
      exactly when it fits one. */
  method RoundUp(size: nat, page: nat) returns (roundUp: nat)
    requires page > 0 && size < UINT
    ensures roundUp == MapSize(size, page)
    ensures roundUp == TrueSize(size, page) <==> TrueSize(size, page) < UINT
  {
    var pageOffset := size % page;
    if pageOffset != 0 {
      var numPages := size / page + 1;
      roundUp := numPages * page % UINT;
    } else {
      roundUp := size;
    }
    ghost var rounded := Rounded(size, page);
    assert roundUp == rounded % UINT;
    roundUp := PlusGuards(roundUp, page, rounded);
  }

  lemma SumWraps(a: nat, b: nat)
    ensures (a % UINT + b % UINT) % UINT == (a + b) % UINT
    ensures (a + b) % UINT == a + b <==> a + b < UINT
  {
  }

  /** Where `vsf_secbuf_free` looks for the mapping of a buffer. */
  function Base(page: nat, ptr: int): int
    requires page > 0
  {
    ptr - ptr % page - page
  }

  /** The mappings once the buffer at `ptr` is freed. */
  function Freed(mapped: map<int, nat>, page: nat, ptr: int): map<int, nat>
    requires page > 0
  {
    if ptr == 0 then mapped else mapped - {Base(page, ptr)}
  }

  /** `vsf_secbuf_free` reads the size in the mapping, which must be there. */
  predicate CanFree(mapped: map<int, nat>, page: nat, ptr: int)
    requires page > 0
  {
    ptr != 0 ==> Base(page, ptr) in mapped
  }

  /** The mapped pages; `first` is the word stored at the start of each mapping. */
  class AddressSpace {
    const page: nat
    var mapped: map<int, nat>
    var first: map<int, nat>
    var guards: set<int>   // inaccessible pages

    ghost predicate Valid()
      reads this
    {
      && page > 0
      && forall b {:trigger b in mapped} | b in mapped ::
           b > 0 && b % page == 0 && b in first && first[b] == mapped[b]
    }

    constructor (page: nat)
      requires page > 0
      ensures Valid() && mapped == map[] && this.page == page
    {
      this.page, mapped, first, guards := page, map[], map[], {};
    }

    /** `vsf_secbuf_alloc`; `was` is the pointer on entry, `base` the page the system maps at, None when
        it refuses, as it does for no bytes.  None: it dies. */
    method Alloc(was: int, size: nat, base: Option<int>) returns (ptr: Option<int>)
      requires Valid() && size < UINT && CanFree(mapped, page, was)
      requires base.Some? ==> base.value > 0 && base.value % page == 0 && MapSize(size, page) > 0
                              && base.value !in Freed(mapped, page, was)
      modifies this
      ensures Valid() && ptr.Some? == base.Some?
      ensures base.None? ==> mapped == Freed(old(mapped), page, was) && guards == old(GuardsWithout(was))
      ensures base.Some? ==>
                && mapped == Freed(old(mapped), page, was)[base.value := MapSize(size, page)]
                && ptr == Some(base.value + Offset(size, page))
                && guards == old(GuardsWithout(was)) + {base.value, base.value + MapSize(size, page) - page}
                && (ptr.value + size == base.value + MapSize(size, page) - page <==> TrueSize(size, page) < UINT)
    {
      Free(was);
      var pageOffset := size % page;
      var roundUp := RoundUp(size, page);
      if base == None {
        return None;   // die("mmap")
      }
      mapped := mapped[base.value := roundUp];
      guards := guards + {base.value + roundUp - page};
      first := first[base.value := roundUp];
      guards := guards + {base.value};
      var start := base.value + page;
      if pageOffset != 0 {
        start := start + (page - pageOffset);
      }
      EndsAtGuard(size, page);
      ptr := Some(start);
    }

    /** `vsf_secbuf_free`; the caller's pointer keeps its value. */
    method Free(ptr: int)
      requires Valid() && CanFree(mapped, page, ptr)
      modifies this
      ensures Valid() && mapped == Freed(old(mapped), page, ptr) && guards == old(GuardsWithout(ptr))
      ensures ptr != 0 ==> Base(page, ptr) !in mapped
    {
      if ptr == 0 {
        return;
      }
      var base := ptr;
      var pageOffset := base % page;
      if pageOffset != 0 {
        base := base - pageOffset;
      }
      base := base - page;
      guards := guards - {base};
      var mapSize := first[base];
      mapped, guards := mapped - {base}, guards - {base + mapSize - page};
    }

    ghost function GuardsWithout(ptr: int): set<int>
      requires page > 0 && CanFree(mapped, page, ptr)
      reads this
    {
      if ptr == 0 then guards
      else guards - {Base(page, ptr), Base(page, ptr) + mapped[Base(page, ptr)] - page}
    }
  }

  /** The buffer ends where the last page of its mapping starts exactly when the size did not wrap. */
  lemma EndsAtGuard(size: nat, page: nat)
    requires page > 0 && size < UINT
    ensures Offset(size, page) + size + page == MapSize(size, page) <==> TrueSize(size, page) < UINT
  {
    OffsetIs(size, page);
    SumWraps(Rounded(size, page), page * 2);
  }

  /** Free finds the mapping that alloc made, for every size. */
  lemma FreeFindsBase(base: int, size: nat, page: nat)
    requires page > 0 && base % page == 0
    ensures Base(page, base + Offset(size, page)) == base
  {
    OffsetIs(size, page);
    Remainder(base + Offset(size, page), base / page + 1, Offset(size, page) - page, page);
  }

  lemma Remainder(x: int, q: int, r: nat, d: nat)
    requires x == q * d + r && r < d
    ensures x % d == r
  {
    var m := q - x / d;
    assert m * d == x % d - r;
    AtLeast(m, d);
    AtLeast(-m, d);
  }

  lemma AtLeast(m: int, d: nat)
    ensures m >= 1 ==> m * d >= d
    ensures -m * d == -(m * d)
  {
  }

  // ----- a pointer that was freed

  /** A call of either function, with the pointer it is given and the page it maps at. */
  datatype Op = Alloc(was: int, size: nat, base: int) | Free(ptr: int)

  /** The op takes the mapping at `b` away, and does not make it anew. */
  predicate Drops(page: nat, op: Op, b: int)
    requires page > 0
  {
    match op
    case Free(ptr) => ptr != 0 && Base(page, ptr) == b
    case Alloc(was, _, base) => was != 0 && Base(page, was) == b && base != b
  }

  function Apply(mapped: map<int, nat>, page: nat, op: Op): map<int, nat>
    requires page > 0
  {
    match op
    case Free(ptr) => Freed(mapped, page, ptr)
    case Alloc(was, size, base) => Freed(mapped, page, was)[base := MapSize(size, page)]
  }

  function ApplyAll(mapped: map<int, nat>, page: nat, ops: seq<Op>): map<int, nat>
    requires page > 0
  {
    if ops == [] then mapped
    else Apply(ApplyAll(mapped, page, ops[..|ops| - 1]), page, ops[|ops| - 1])
  }

  predicate MapsAt(ops: seq<Op>, b: int, i: nat)
    requires i < |ops|
  {
    ops[i].Alloc? && ops[i].base == b
  }

  predicate KeptSince(page: nat, ops: seq<Op>, b: int, i: nat)
    requires page > 0
  {
    forall j | i < j < |ops| :: !Drops(page, ops[j], b)
  }

  predicate MappedAgain(page: nat, ops: seq<Op>, b: int)
    requires page > 0
  {
    exists i {:trigger MapsAt(ops, b, i)} | 0 <= i < |ops| :: MapsAt(ops, b, i) && KeptSince(page, ops, b, i)
  }

  /** Freeing leaves a stale pointer: after any calls, it may be freed again if and only if one of them
      has mapped its base anew and none has taken that away. */
  lemma {:induction false} StalePointer(mapped: map<int, nat>, page: nat, ptr: int, ops: seq<Op>)
    requires page > 0 && ptr != 0
    ensures CanFree(ApplyAll(Freed(mapped, page, ptr), page, ops), page, ptr)
            <==> MappedAgain(page, ops, Base(page, ptr))
  {
    if ops != [] {
      var n := |ops| - 1;
      StalePointer(mapped, page, ptr, ops[..n]);
      LastOp(page, ops, Base(page, ptr));
    }
  }

  lemma LastOp(page: nat, ops: seq<Op>, b: int)
    requires page > 0 && ops != []
    ensures var n := |ops| - 1;
            MappedAgain(page, ops, b) <==>
            MapsAt(ops, b, n) || (MappedAgain(page, ops[..n], b) && !Drops(page, ops[n], b))
  {
    var n := |ops| - 1;
    var front := ops[..n];
    if MappedAgain(page, ops, b) && !MapsAt(ops, b, n) {
      var i :| 0 <= i < |ops| && MapsAt(ops, b, i) && KeptSince(page, ops, b, i);
      assert MapsAt(front, b, i) && KeptSince(page, front, b, i);
    }
    if MapsAt(ops, b, n) {
      assert KeptSince(page, ops, b, n);
    } else if MappedAgain(page, front, b) && !Drops(page, ops[n], b) {
      var i :| 0 <= i < |front| && MapsAt(front, b, i) && KeptSince(page, front, b, i);
      assert MapsAt(ops, b, i) && KeptSince(page, ops, b, i);
    }
  }
}
