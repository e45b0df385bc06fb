/** The wrapping pointer arithmetic of the descriptor and completion rings.

    The driver keeps 32-bit pointers, the NIC exposes 16-bit pointer registers, and both stand for
    event counters that never wrap.  A ring has a power-of-two size that divides 2^16, so masking a
    pointer with `size - 1` is taking it modulo the size. */
module PtrArith {
  import opened Arith

  const TWO16: int := 0x1_0000
  const TWO32: int := 0x1_0000_0000

  type u32 = x: int | 0 <= x < TWO32
  type u16 = x: int | 0 <= x < TWO16

  /** The low 32 and the low 16 bits of a counter. */
  function Low32(n: int): u32 { n % TWO32 }

  function Low16(n: int): u16 { n % TWO16 }

  /** Unsigned 32-bit subtraction, as C computes it. */
  function Sub32(a: u32, b: u32): u32 { (a - b) % TWO32 }

  function Inc32(a: u32): u32 { (a + 1) % TWO32 }

  /** `ptr += (ioread32(reg) - ptr) & hw_ptr_mask` */
  function ReadPtr(ptr: u32, reg: u16): u32 {
    (ptr + Sub32(reg, ptr) % TWO16) % TWO32
  }

  /** How a counter of the NIC follows a 16-bit register the driver has written. */
  function Follow(count: nat, reg: u16): nat {
    count + (reg - count) % TWO16
  }

  /** Rings are rounded up to a power of two and stay below the range of the 16-bit registers. */
  predicate ValidSize(size: nat) {
    2 <= size < TWO16 && PowerOfTwo(size)
  }

  /** `ptr & size_mask`, the slot of a pointer. */
  function Slot(ptr: nat, size: nat): (s: nat)
    requires size > 0
    ensures s < size
  {
    Mod(ptr, size)
  }

  /** Counters less than a ring apart meet in a slot only when they are equal. */
  lemma {:induction false} SlotsDistinct(a: nat, b: nat, size: nat)
    requires size > 0 && a < b + size && b < a + size && Slot(a, size) == Slot(b, size)
    ensures a == b
  {
    ModDistinct(a, b, size);
  }

  /** Masking the wrapped pointer selects the slot of the counter it stands for. */
  lemma {:induction false} PtrSlot(count: nat, size: nat)
    requires ValidSize(size)
    ensures Slot(Low32(count), size) == Slot(count, size)
    ensures Slot(Low16(count), size) == Slot(count, size)
  {
    assert PowerOfTwo(0x1_0000);
    PowersDivide(size, TWO16);
    ModIs(TWO16, size);
    ModIs(TWO32, size);
    DivMod(TWO16, size);
    ModUnique(TWO32, size, TWO16 / size * TWO16, 0);
    ModMod(count, TWO32, size);
    ModMod(count, TWO16, size);
    ModIs(count, TWO32);
    ModIs(count, TWO16);
  }

  lemma {:induction false} IncExact(count: nat)
    ensures Inc32(Low32(count)) == Low32(count + 1)
  {
  }

  /** A masked register read restores the counter of the NIC exactly, whatever wrapped meanwhile. */
  lemma {:induction false} ReadPtrExact(seen: nat, actual: nat)
    requires seen <= actual < seen + TWO16
    ensures ReadPtr(Low32(seen), Low16(actual)) == Low32(actual)
  {
    var p, step, wraps := Low32(seen), actual - seen, seen / TWO32;
    var gap := Low16(actual) - p;
    RestOfRest(gap, TWO32, TWO16);
    ModUnique(gap, TWO16, wraps * TWO16 - actual / TWO16, step);
    assert Sub32(Low16(actual), p) % TWO16 == step;
    ModUnique(p + step, TWO32, actual / TWO32 - wraps, Low32(actual));
  }

  /** The NIC recovers the counter of the driver from the 16 bits written to its register. */
  lemma {:induction false} FollowExact(known: nat, written: nat)
    requires known <= written < known + TWO16
    ensures Follow(known, Low16(Low32(written))) == written
  {
    RestOfRest(written, TWO32, TWO16);
  }

  /** The wrapped distance is the true distance, so the wrapped empty and full tests decide the
      same as the tests on the counters. */
  lemma {:induction false} DistanceExact(front: nat, back: nat)
    requires back <= front < back + TWO32
    ensures Sub32(Low32(front), Low32(back)) == front - back
    ensures Low32(front) == Low32(back) <==> front == back
  {
  }
}
