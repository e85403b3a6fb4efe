/** The descriptors that __kmpc_alloc puts in front of the blocks it hands out, and
    that __kmpc_free reads back: where they lie, and that nothing overwrites them. */
module Descriptors {

  const DESCRIPTOR := 32   // sizeof(kmp_mem_desc_t)

  datatype Desc = Desc(ptrAlloc: int, sizeA: int, ptrAlign: int, allocator: int)

  // A byte of memory: the k-th of a descriptor, or data of the program.
  datatype Byte = Part(desc: Desc, k: int) | Data(x: int)

  predicate PowerOfTwo(n: int) {
    n == 1 || (n > 1 && n % 2 == 0 && PowerOfTwo(n / 2))
  }

  // (addr + sizeof(desc) + align - 1) & ~(align - 1), for a power of two.
  function AlignedAfter(addr: int, align: int): int
    requires align > 0
  {
    var x := addr + DESCRIPTOR + align - 1;
    x - x % align
  }

  /** The aligned address leaves room for the descriptor before it, and for the
      caller's bytes behind it. */
  lemma RoomForBoth(addr: int, size: nat, align: int)
    requires align > 0
    ensures var p := AlignedAfter(addr, align);
            p % align == 0 && addr <= p - DESCRIPTOR && p + size < addr + size + DESCRIPTOR + align
  {
    var x := addr + DESCRIPTOR + align - 1;
    Remainder(x, align);
  }

  lemma Remainder(x: int, d: int)
    requires d > 0
    ensures (x - x % d) % d == 0 && 0 <= x % d < d
  {
    var q := x / d;
    assert x - x % d == q * d + 0;
    NoRest(q, d, (q * d) / d, (q * d) % d);
  }

  // d times something less than d in size, and a multiple of d, is nothing.
  lemma NoRest(q: int, d: int, k: int, r: int)
    requires d > 0 && q * d == k * d + r && 0 <= r < d
    ensures r == 0
  {
    var j := q - k;
    assert j * d == r;
    assert j >= 1 ==> j * d >= d;
    assert j <= -1 ==> j * d <= -d;
  }

  // A block in use: the region it was cut from, and the bytes that are the caller's.
  datatype Block = Block(addr: int, sizeA: int, size: nat, allocator: int)

  ghost predicate Inside(b: Block, ptr: int) {
    b.addr <= ptr - DESCRIPTOR && ptr + b.size <= b.addr + b.sizeA
  }

  ghost predicate Apart(b: Block, c: Block) {
    b.addr + b.sizeA <= c.addr || c.addr + c.sizeA <= b.addr
  }

  function PartAt(desc: Desc, descr: int, a: int): Byte {
    Part(desc, a - descr)
  }

  // The descriptor stands in front of ptr.
  ghost predicate Intact(bytes: map<int, Byte>, ptr: int, b: Block) {
    forall a :: ptr - DESCRIPTOR <= a < ptr ==>
      a in bytes && bytes[a] == PartAt(Desc(b.addr, b.sizeA, ptr, b.allocator), ptr - DESCRIPTOR, a)
  }

  ghost predicate BlockOk(bytes: map<int, Byte>, live: map<int, Block>, p: int)
    requires p in live
  {
    Inside(live[p], p) && Intact(bytes, p, live[p])
  }

  class Memory {
    var bytes: map<int, Byte>
    ghost var live: map<int, Block>   // by the address given to the caller

    ghost predicate Valid()
      reads this
    {
      && (forall p :: p in live ==> BlockOk(bytes, live, p))
      && (forall p, q :: p in live && q in live && p != q ==> Apart(live[p], live[q]))
    }

    constructor ()
      ensures Valid() && live == map[]
    {
      bytes := map[];
      live := map[];
    }

    /** The end of __kmpc_alloc: `addr` is what the internal allocation gave, a
        region that no block in use overlaps. */
    method Hand(addr: int, size: nat, align: int, allocator: int) returns (ptr: int)
      requires Valid() && PowerOfTwo(align)
      requires forall q :: q in live ==> Apart(Block(addr, size + DESCRIPTOR + align, size, allocator), live[q])
      modifies this
      ensures Valid() && ptr !in old(live) && ptr % align == 0
      ensures live == old(live)[ptr := Block(addr, size + DESCRIPTOR + align, size, allocator)]
    {
      RoomForBoth(addr, size, align);
      ptr := AlignedAfter(addr, align);
      var sizeA := size + DESCRIPTOR + align;
      var desc := Desc(addr, sizeA, ptr, allocator);
      var descr := ptr - DESCRIPTOR;
      ghost var b := Block(addr, sizeA, size, allocator);
      bytes := bytes + map a | descr <= a < ptr :: PartAt(desc, descr, a);
      live := live[ptr := b];
      forall p | p in live ensures BlockOk(bytes, live, p) {
        assert p in old(live) ==> BlockOk(old(bytes), old(live), p) && Apart(b, live[p]);
      }
    }

    // The caller writes one of its bytes.
    method Write(ghost ptr: int, a: int, x: int)
      requires Valid() && ptr in live && ptr <= a < ptr + live[ptr].size
      modifies this
      ensures Valid() && live == old(live) && a in bytes && bytes[a] == Data(x)
      ensures forall c :: c in old(bytes) && c != a ==> c in bytes && bytes[c] == old(bytes)[c]
    {
      bytes := bytes[a := Data(x)];
      assert BlockOk(old(bytes), live, ptr);
      forall p | p in live ensures BlockOk(bytes, live, p) {
        assert BlockOk(old(bytes), live, p);
        assert p != ptr ==> Apart(live[ptr], live[p]);
      }
    }

    /** The beginning of __kmpc_free: the descriptor in front of the pointer is the
        one of this very block, whatever has been written in the meantime. */
    method TakeBack(ptr: int) returns (desc: Desc)
      requires Valid() && ptr in live
      modifies `live
      ensures Valid() && live == old(live) - {ptr}
      ensures desc == Desc(old(live)[ptr].addr, old(live)[ptr].sizeA, ptr, old(live)[ptr].allocator)
    {
      assert BlockOk(bytes, live, ptr);
      desc := bytes[ptr - DESCRIPTOR].desc;
      live := live - {ptr};
      forall p | p in live ensures BlockOk(bytes, live, p) { assert BlockOk(bytes, old(live), p); }
    }
  }
}
