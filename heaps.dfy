/** The heap: blocks made by NEW and arrays made by NEWARRAY, never freed.
    Memory is byte-addressed as in the C code: an int occupies four bytes
    (little-endian, as on the hosts the interpreter runs on), a pointer eight
    cells and a char one byte. A pointer is kept as eight opaque cells rather
    than as the bytes of an address; reading cells of the wrong kind is
    reported as `Malformed`. Unlike the C code, every access is checked
    against the size of its object. */
module Heaps {
  import opened Int32
  import opened Values

  const INT_SIZE: nat := 4
  const PTR_SIZE: nat := 8

  datatype Cell = Byte(b: u8) | PtrPart(a: Addr, k: int)

  /** A heap object. `mem` is a block's bytes, or an array's element storage
      of `count * eltSize` bytes. */
  datatype Obj =
    | Block(mem: seq<Cell>)
    | Array(count: nat, eltSize: nat, mem: seq<Cell>)

  /** Objects by handle; a handle is the position of its object. */
  type Heap = seq<Obj>

  /** `n` bytes as `xcalloc` returns them. */
  function Cleared(n: nat): (cs: seq<Cell>)
    ensures |cs| == n
    ensures forall i :: 0 <= i < n ==> cs[i] == Byte(0)
  {
    seq(n, _ => Byte(0))
  }

  // ---------------------------------------------------------------------------
  // Encoding values as cells

  /** The four bytes of an int, least significant first. */
  function EncodeInt(x: i32): (cs: seq<Cell>)
    ensures |cs| == INT_SIZE
    ensures forall i :: 0 <= i < INT_SIZE ==> cs[i].Byte?
  {
    var u := ToUnsigned(x);
    var q1 := u / 256;
    var q2 := q1 / 256;
    [Byte(u % 256), Byte(q1 % 256), Byte(q2 % 256), Byte(q2 / 256)]
  }

  /** The int stored in four bytes; cells of a pointer are not an int. */
  function DecodeInt(cs: seq<Cell>): (r: Result<i32>)
    requires |cs| == INT_SIZE
    ensures r.Ok? <==> forall i :: 0 <= i < INT_SIZE ==> cs[i].Byte?
    ensures r.Fail? ==> r.error == Malformed
  {
    if cs[0].Byte? && cs[1].Byte? && cs[2].Byte? && cs[3].Byte? then
      Ok(ToSigned(cs[0].b + 256 * (cs[1].b + 256 * (cs[2].b + 256 * cs[3].b))))
    else
      Fail(Malformed)
  }

  /** An int read back from the bytes it was written as is the same int. */
  lemma IntRoundTrip(x: i32)
    ensures DecodeInt(EncodeInt(x)) == Ok(x)
  {
    var u := ToUnsigned(x);
    var q1 := u / 256;
    var q2 := q1 / 256;
    assert u == u % 256 + 256 * q1;
    assert q1 == q1 % 256 + 256 * q2;
    assert q2 == q2 % 256 + 256 * (q2 / 256);
  }

  /** Zero-filled memory reads as the int 0. */
  lemma ClearedIsZeroInt()
    ensures DecodeInt(Cleared(INT_SIZE)) == Ok(0)
  {
  }

  /** The cells of a stored pointer; NULL is all zero bytes. */
  function EncodePtr(a: Addr): (cs: seq<Cell>)
    ensures |cs| == PTR_SIZE
  {
    if a == Null then Cleared(PTR_SIZE) else seq(PTR_SIZE, k => PtrPart(a, k))
  }

  /** The pointer stored in eight cells: zero bytes are NULL, the eight parts of
      one pointer in order are that pointer, anything else is not a pointer. */
  function DecodePtr(cs: seq<Cell>): (r: Result<Addr>)
    requires |cs| == PTR_SIZE
    ensures r.Fail? ==> r.error == Malformed
    ensures r.Ok? ==> EncodePtr(r.value) == cs
  {
    if cs == Cleared(PTR_SIZE) then Ok(Null)
    else if cs[0].PtrPart? && cs[0].a != Null && cs == seq(PTR_SIZE, k => PtrPart(cs[0].a, k)) then Ok(cs[0].a)
    else Fail(Malformed)
  }

  /** Eight cells decode exactly when some pointer is stored as them. */
  lemma DecodePtrExactly(cs: seq<Cell>)
    requires |cs| == PTR_SIZE
    ensures DecodePtr(cs).Ok? <==> exists a :: EncodePtr(a) == cs
  {
    if exists a :: EncodePtr(a) == cs {
      var a :| EncodePtr(a) == cs;
      PtrRoundTrip(a);
    } else {
      assert DecodePtr(cs).Ok? ==> EncodePtr(DecodePtr(cs).value) == cs;
    }
  }

  /** A pointer read back from the cells it was written as is the same pointer. */
  lemma PtrRoundTrip(a: Addr)
    ensures DecodePtr(EncodePtr(a)) == Ok(a)
  {
    if a != Null {
      assert EncodePtr(a)[0] == PtrPart(a, 0);
    }
  }

  /** Zero-filled memory reads as NULL. */
  lemma ClearedIsNull()
    ensures DecodePtr(Cleared(PTR_SIZE)) == Ok(Null)
  {
  }

  /** The byte `*((char*)a) = x` stores: the low byte of `x`. */
  function EncodeChar(x: i32): (c: Cell)
    ensures c.Byte? && (c.b - x) % 256 == 0
  {
    Byte(x % 256)
  }

  /** The `char` read by CMLOAD, sign-extended (plain `char` taken as signed). */
  function DecodeChar(c: Cell): (r: Result<i32>)
    ensures r.Ok? <==> c.Byte?
    ensures r.Ok? ==> -128 <= r.value < 128 && (r.value - c.b) % 256 == 0
  {
    if c.Byte? then Ok(SignExtend8(c.b)) else Fail(Malformed)
  }

  /** A char read back from the byte it was written as is the written int
      truncated to a signed char, so it is unchanged exactly when it lies in
      -128..127. */
  lemma CharRoundTrip(x: i32)
    ensures DecodeChar(EncodeChar(x)) == Ok(ToChar(x))
    ensures DecodeChar(EncodeChar(x)) == Ok(x) <==> -128 <= x < 128
  {
  }

  // ---------------------------------------------------------------------------
  // Checked access

  /** `n` bytes at `a` lie inside an allocated object. */
  predicate InBounds(heap: Heap, a: Addr, n: nat)
  {
    a.Mem? && a.h < |heap| && 0 <= a.off && a.off + n <= |heap[a.h].mem|
  }

  /** The error for an access that is not in bounds: NULL and offsets outside
      the object are memory errors; a reference that does not address memory
      (an array header, the string pool, an unknown handle) is malformed. */
  function AccessError(heap: Heap, a: Addr): ErrorKind
  {
    if a == Null || (a.Mem? && a.h < |heap|) then MemoryError else Malformed
  }

  /** The `n` cells at `a`. */
  function Load(heap: Heap, a: Addr, n: nat): (r: Result<seq<Cell>>)
    ensures r.Ok? <==> InBounds(heap, a, n)
    ensures r.Ok? ==> |r.value| == n
    ensures r.Ok? ==> forall i :: 0 <= i < n ==> r.value[i] == heap[a.h].mem[a.off + i]
    ensures a == Null ==> r == Fail(MemoryError)
  {
    if InBounds(heap, a, n) then Ok(heap[a.h].mem[a.off .. a.off + n])
    else Fail(AccessError(heap, a))
  }

  /** Overwrites the cells at `a` with `cs`. */
  function Store(heap: Heap, a: Addr, cs: seq<Cell>): (r: Result<Heap>)
    ensures r.Ok? <==> InBounds(heap, a, |cs|)
    ensures r.Ok? ==> Extends(heap, r.value) && |r.value| == |heap|
    ensures a == Null ==> r == Fail(MemoryError)
  {
    if InBounds(heap, a, |cs|) then
      var o := heap[a.h];
      Ok(heap[a.h := o.(mem := o.mem[..a.off] + cs + o.mem[a.off + |cs|..])])
    else
      Fail(AccessError(heap, a))
  }

  /** Loading what was just stored gives it back. */
  lemma {:induction false} LoadStoreSame(heap: Heap, a: Addr, cs: seq<Cell>)
    requires Store(heap, a, cs).Ok?
    ensures Load(Store(heap, a, cs).value, a, |cs|) == Ok(cs)
  {
    var heap' := Store(heap, a, cs).value;
    var mem' := heap'[a.h].mem;
    assert mem'[a.off .. a.off + |cs|] == cs;
  }

  /** A store leaves every cell outside the stored range as it was. */
  lemma {:induction false} LoadStoreOther(heap: Heap, a: Addr, cs: seq<Cell>, b: Addr, n: nat)
    requires Store(heap, a, cs).Ok?
    requires b.Mem? ==> b.h != a.h || b.off + n <= a.off || a.off + |cs| <= b.off
    ensures Load(Store(heap, a, cs).value, b, n) == Load(heap, b, n)
  {
    var heap' := Store(heap, a, cs).value;
    if InBounds(heap, b, n) && b.h == a.h {
      var mem, mem' := heap[a.h].mem, heap'[a.h].mem;
      assert forall i :: 0 <= i < |mem| && (i < a.off || a.off + |cs| <= i) ==> mem'[i] == mem[i];
      assert mem'[b.off .. b.off + n] == mem[b.off .. b.off + n];
    }
  }

  // ---------------------------------------------------------------------------
  // Growth

  /** The kind and size of an object, and an array's count and element size,
      are fixed at creation. */
  predicate SameShape(o: Obj, o': Obj)
  {
    o.Block? == o'.Block? && |o.mem| == |o'.mem| &&
    (o.Array? ==> o.count == o'.count && o.eltSize == o'.eltSize)
  }

  /** `heap'` keeps every object of `heap`, with its shape, and may add more:
      nothing is freed. */
  predicate Extends(heap: Heap, heap': Heap)
  {
    |heap| <= |heap'| && forall h :: 0 <= h < |heap| ==> SameShape(heap[h], heap'[h])
  }

  lemma ExtendsTransitive(h1: Heap, h2: Heap, h3: Heap)
    requires Extends(h1, h2) && Extends(h2, h3)
    ensures Extends(h1, h3)
  {
  }

  /** Allocation appends a fresh object and changes no existing one. */
  lemma AllocExtends(heap: Heap, o: Obj)
    ensures Extends(heap, heap + [o])
    ensures (heap + [o])[|heap|] == o
  {
  }
}
