/** An SPI NOR flash chip, and the driver commands that program, erase and read it.

    The chip ANDs a page buffer into a 256-byte page and erases to 0xff.  A three-byte address counts
    within 16 MiB, a four-byte address over the whole chip. */
module NorFlash {

  type byte = bv8

  const PAGE_SIZE := 0x100
  const SUBSECTOR_SIZE := 0x1000
  const SECTOR_SIZE := 0x10000
  const THREE_BYTES := 0x100_0000
  const FOUR_BYTES := 0x1_0000_0000

  /** What position `i` holds after a program of `n` bytes from `addr` on. */
  function ProgrammedByte(before: byte, i: nat, addr: nat, data: seq<byte>, n: nat): byte
    requires n <= |data|
  {
    if addr <= i < addr + n then before & data[i - addr] else before
  }

  /** `n` bytes of `data` programmed from `addr` on: bits only ever go from 1 to 0. */
  ghost predicate Programmed(before: seq<byte>, after: seq<byte>, addr: nat, data: seq<byte>, n: nat)
    requires n <= |data|
  {
    && |after| == |before|
    && forall i | 0 <= i < |before| ::
         after[i] == ProgrammedByte(before[i], i, addr, data, n)
  }

  ghost predicate Erased(before: seq<byte>, after: seq<byte>, addr: nat, n: nat) {
    && |after| == |before|
    && forall i | 0 <= i < |before| ::
         after[i] == if addr <= i < addr + n then 0xff else before[i]
  }

  ghost predicate Replaced(before: seq<byte>, after: seq<byte>, addr: nat, data: seq<byte>) {
    && |after| == |before|
    && forall i | 0 <= i < |before| ::
         after[i] == if addr <= i < addr + |data| then data[i - addr] else before[i]
  }

  /** Programming an erased range replaces it and nothing else. */
  lemma {:induction false} EraseThenProgram(m0: seq<byte>, m1: seq<byte>, m2: seq<byte>, addr: nat,
                                            data: seq<byte>)
    requires Erased(m0, m1, addr, |data|) && Programmed(m1, m2, addr, data, |data|)
    ensures Replaced(m0, m2, addr, data)
  {
    forall i | 0 <= i < |m0| && addr <= i < addr + |data|
      ensures m2[i] == data[i - addr]
    {
      assert m1[i] == 0xff;
    }
  }

  /** Programming without erasing keeps the data only if no bit has to be set again. */
  lemma {:induction false} ProgramNeedsErase(before: seq<byte>, after: seq<byte>, addr: nat,
                                             data: seq<byte>)
    requires Programmed(before, after, addr, data, |data|) && addr + |data| <= |before|
    ensures Replaced(before, after, addr, data)
        <==> forall i | 0 <= i < |data| :: before[addr + i] & data[i] == data[i]
  {
    if forall i | 0 <= i < |data| :: before[addr + i] & data[i] == data[i] {
      forall i | addr <= i < addr + |data|
        ensures after[i] == data[i - addr]
      {
        assert before[addr + (i - addr)] & data[i - addr] == data[i - addr];
      }
    } else {
      var i :| 0 <= i < |data| && before[addr + i] & data[i] != data[i];
      assert after[addr + i] != data[i];
    }
  }

  /** The address the chip takes from the address bytes of a command. */
  function ChipAddr(addr: nat, four: bool, size: nat): (a: nat)
    requires size > 0
    ensures a < size
    ensures addr < size && (four ==> addr < FOUR_BYTES) && (!four ==> addr < THREE_BYTES) ==> a == addr
  {
    var sent := if four then addr % FOUR_BYTES else addr % THREE_BYTES;
    if sent < size then sent else sent % size
  }

  lemma {:induction false} PageInside(a: nat, size: nat)
    requires a < size && size % PAGE_SIZE == 0
    ensures a - a % PAGE_SIZE + PAGE_SIZE <= size
  {
  }

  /** A page program under way. */
  datatype Load = Idle | Loading(base: nat, pos: nat, buffer: seq<byte>)

  /** Write enables number `from` to `to`, of which the last one fails unless `ok`, and no other. */
  ghost predicate Tried(sets: nat -> bool, from: nat, to: nat, ok: bool) {
    && from <= to && (!ok ==> from < to && !sets(to - 1))
    && forall i | from <= i < (if ok then to else to - 1) :: sets(i)
  }

  class Chip {
    const mem: array<byte>
    /** Whether the write enable of that number sets the latch. */
    const sets: nat -> bool
    /** How many have been sent. */
    var tries: nat
    var latch: bool
    var load: Load
    var readAddr: nat
    var readFour: bool

    predicate Ready()
      reads this
    {
      && 0 < mem.Length <= FOUR_BYTES && mem.Length % PAGE_SIZE == 0
      && (load.Loading? ==> |load.buffer| == PAGE_SIZE && load.pos < PAGE_SIZE
                            && load.base + PAGE_SIZE <= mem.Length)
    }

    ghost predicate Works() { forall i: nat :: sets(i) }

    /** The write enable command sets the latch, or fails to. */
    method WriteEnable() returns (ok: bool)
      requires Ready()
      modifies this`latch, this`tries
      ensures latch == ok == sets(old(tries)) && tries == old(tries) + 1
    {
      latch := sets(tries);
      tries := tries + 1;
      ok := latch;
    }

    /** The command and address of a page program. */
    method BeginProgram(addr: nat, four: bool)
      requires Ready() && latch && load.Idle?
      modifies this`load
      ensures Ready()
      ensures var a := ChipAddr(addr, four, mem.Length);
              load == Loading(a - a % PAGE_SIZE, a % PAGE_SIZE, seq(PAGE_SIZE, _ => 0xff))
    {
      var a := ChipAddr(addr, four, mem.Length);
      PageInside(a, mem.Length);
      load := Loading(a - a % PAGE_SIZE, a % PAGE_SIZE, seq(PAGE_SIZE, _ => 0xff));
    }

    /** One more byte of a page program; the position wraps within the page. */
    method ShiftIn(b: byte)
      requires Ready() && load.Loading?
      modifies this`load
      ensures Ready()
      ensures load == Loading(old(load.base), (old(load.pos) + 1) % PAGE_SIZE,
                              old(load.buffer)[old(load.pos) := b])
    {
      load := Loading(load.base, (load.pos + 1) % PAGE_SIZE, load.buffer[load.pos := b]);
    }

    /** Deselecting the chip starts the program, which ANDs the buffer into the page. */
    method EndProgram()
      requires Ready() && latch && load.Loading?
      modifies this`load, this`latch, mem
      ensures Ready() && load.Idle? && !latch
      ensures Programmed(old(mem[..]), mem[..], old(load.base), old(load.buffer), PAGE_SIZE)
    {
      var base, buffer := load.base, load.buffer;
      for j := 0 to PAGE_SIZE
        invariant Programmed(old(mem[..]), mem[..], base, buffer, j)
      {
        mem[base + j] := mem[base + j] & buffer[j];
      }
      load, latch := Idle, false;
    }

    /** Erase the block of `n` bytes that holds the address. */
    method EraseBlock(addr: nat, four: bool, n: nat)
      requires Ready() && latch && load.Idle?
      requires n == SUBSECTOR_SIZE || n == SECTOR_SIZE
      requires var a := ChipAddr(addr, four, mem.Length); a - a % n + n <= mem.Length
      modifies this`latch, mem
      ensures Ready() && !latch
      ensures var a := ChipAddr(addr, four, mem.Length);
              Erased(old(mem[..]), mem[..], a - a % n, n)
    {
      var a := ChipAddr(addr, four, mem.Length);
      var base := a - a % n;
      for j := 0 to n
        invariant Erased(old(mem[..]), mem[..], base, j)
      {
        mem[base + j] := 0xff;
      }
      latch := false;
    }

    method BeginRead(addr: nat, four: bool)
      requires Ready()
      modifies this`readAddr, this`readFour
      ensures readAddr == ChipAddr(addr, four, mem.Length) && readFour == four
    {
      readAddr, readFour := ChipAddr(addr, four, mem.Length), four;
    }

    method ShiftOut() returns (b: byte)
      requires Ready() && readAddr < mem.Length
      modifies this`readAddr
      ensures b == mem[old(readAddr)]
      ensures readAddr == ChipAddr(old(readAddr) + 1, readFour, mem.Length)
    {
      b := mem[readAddr];
      readAddr := ChipAddr(readAddr + 1, readFour, mem.Length);
    }
  }

  // ----- spi_flash_write -----

  /** The buffer holds bytes data[o..o + k] from position `pos` on and is otherwise erased. */
  ghost predicate Loaded(load: Load, base: nat, pos: nat, data: seq<byte>, o: nat, k: nat)
    requires o + k <= |data|
  {
    && load.Loading? && load.base == base && |load.buffer| == PAGE_SIZE && pos + k <= PAGE_SIZE
    && load.pos == (if pos + k == PAGE_SIZE then 0 else pos + k)
    && forall j | 0 <= j < PAGE_SIZE ::
         load.buffer[j] == if pos <= j < pos + k then data[o + (j - pos)] else 0xff
  }

  lemma {:induction false} AndOnes(x: byte)
    ensures x & 0xff == x
  {
  }

  lemma {:induction false} PageStep(b0: byte, b1: byte, b2: byte, i: nat, addr: nat, data: seq<byte>,
                                    o: nat, k: nat, load: Load, base: nat, pos: nat)
    requires o + k <= |data| && Loaded(load, base, pos, data, o, k) && addr + o == base + pos
    requires b1 == ProgrammedByte(b0, i, addr, data, o)
    requires b2 == ProgrammedByte(b1, i, base, load.buffer, PAGE_SIZE)
    ensures b2 == ProgrammedByte(b0, i, addr, data, o + k)
  {
    if base <= i < base + PAGE_SIZE {
      var j := i - base;
      assert load.buffer[j] == if pos <= j < pos + k then data[o + (j - pos)] else 0xff;
      AndOnes(b1);
    }
  }

  /** One page of a write: `k` bytes from offset `o` of the data. */
  lemma {:induction false} PageProgrammed(m0: seq<byte>, m1: seq<byte>, m2: seq<byte>, addr: nat,
                                          data: seq<byte>, o: nat, k: nat, load: Load, base: nat,
                                          pos: nat)
    requires o + k <= |data| && Programmed(m0, m1, addr, data, o)
    requires Loaded(load, base, pos, data, o, k) && addr + o == base + pos
    requires Programmed(m1, m2, base, load.buffer, PAGE_SIZE)
    ensures Programmed(m0, m2, addr, data, o + k)
  {
    forall i | 0 <= i < |m0|
      ensures m2[i] == ProgrammedByte(m0[i], i, addr, data, o + k)
    {
      PageStep(m0[i], m1[i], m2[i], i, addr, data, o, k, load, base, pos);
    }
  }

  /** Shift in the bytes of one page: up to the end of the page or of the data. */
  method ShiftPage(chip: Chip, addr: nat, src: seq<byte>, s: nat, ghost base: nat, ghost pos: nat)
    returns (k: nat)
    requires chip.Ready() && s < |src| && pos == addr % PAGE_SIZE && Loaded(chip.load, base, pos, src, s, 0)
    modifies chip`load
    ensures chip.Ready() && 0 < k <= |src| - s && Loaded(chip.load, base, pos, src, s, k)
    ensures s + k == |src| || (addr + k) % PAGE_SIZE == 0
  {
    k := 0;
    while s + k < |src|
      invariant chip.Ready() && s + k <= |src| && Loaded(chip.load, base, pos, src, s, k)
      invariant k > 0 ==> (addr + k) % PAGE_SIZE != 0
      decreases |src| - s - k
    {
      chip.ShiftIn(src[s + k]);
      k := k + 1;
      if (addr + k) % PAGE_SIZE == 0 {
        break;
      }
    }
  }

  /** Write enable, one page program, deselect; `ok` is false if enabling failed. */
  method WritePage(chip: Chip, addr: nat, src: seq<byte>, s: nat, ghost first: nat,
                   ghost before: seq<byte>)
    returns (ok: bool, k: nat)
    requires chip.Ready() && chip.load.Idle? && s < |src| && first + s == addr < chip.mem.Length
    requires Programmed(before, chip.mem[..], first, src, s)
    modifies chip`load, chip`latch, chip`tries, chip.mem
    ensures ok == chip.sets(old(chip.tries)) && chip.tries == old(chip.tries) + 1
    ensures chip.Ready() && chip.load.Idle? && k <= |src| - s && (ok <==> k > 0)
    ensures Programmed(before, chip.mem[..], first, src, s + k)
    ensures ok ==> s + k == |src| || (addr + k) % PAGE_SIZE == 0
  {
    k := 0;
    ok := chip.WriteEnable();
    if ok {
      var four := addr > 0xffffff;
      chip.BeginProgram(addr, four);
      ghost var base, pos := addr - addr % PAGE_SIZE, addr % PAGE_SIZE;
      k := ShiftPage(chip, addr, src, s, base, pos);
      ghost var m1, load := chip.mem[..], chip.load;
      chip.EndProgram();
      PageProgrammed(before, m1, chip.mem[..], first, src, s, k, load, base, pos);
    }
  }

  /** spi_flash_write: programs the data page by page.  It fails iff a write enable does; then the `sent`
      bytes before a page boundary are programmed and nothing else. */
  method Write(chip: Chip, addr: nat, src: seq<byte>) returns (ok: bool, ghost sent: nat)
    requires chip.Ready() && chip.load.Idle? && addr + |src| <= chip.mem.Length
    modifies chip`load, chip`latch, chip`tries, chip.mem
    ensures chip.Ready() && chip.load.Idle? && sent <= |src| && (ok <==> sent == |src|)
    ensures Tried(chip.sets, old(chip.tries), chip.tries, ok) && (chip.Works() ==> ok)
    ensures Programmed(old(chip.mem[..]), chip.mem[..], addr, src, sent)
    ensures sent == 0 || ok || (addr + sent) % PAGE_SIZE == 0
  {
    var s, at := 0, addr;
    sent := 0;
    while s < |src|
      invariant chip.Ready() && chip.load.Idle? && s <= |src| && at == addr + s
      invariant Programmed(old(chip.mem[..]), chip.mem[..], addr, src, s)
      invariant s == 0 || s == |src| || at % PAGE_SIZE == 0
      invariant Tried(chip.sets, old(chip.tries), chip.tries, true)
      decreases |src| - s
    {
      var k;
      ok, k := WritePage(chip, at, src, s, addr, old(chip.mem[..]));
      if !ok {
        sent := s;
        return;
      }
      s, at := s + k, at + k;
    }
    ok, sent := true, s;
  }

  // ----- spi_flash_erase -----

  /** How much is erased when every write enable works. */
  function ErasablePart(addr: nat, len: nat): nat {
    if addr % SUBSECTOR_SIZE == 0 then len - len % SUBSECTOR_SIZE else 0
  }

  /** The block erased next, or 0. */
  function BlockSize(addr: nat, len: nat): (n: nat)
    ensures n == 0 || n == SUBSECTOR_SIZE || n == SECTOR_SIZE
    ensures n <= len && (n > 0 ==> addr % n == 0)
    ensures len > 0 ==> (n == 0 <==> ErasablePart(addr, len) == 0)
  {
    if addr % SECTOR_SIZE == 0 && len >= SECTOR_SIZE then
      SectorAligned(addr);
      SECTOR_SIZE
    else if addr % SUBSECTOR_SIZE == 0 && len >= SUBSECTOR_SIZE then SUBSECTOR_SIZE
    else 0
  }

  lemma {:induction false} SectorAligned(addr: nat)
    requires addr % SECTOR_SIZE == 0
    ensures addr % SUBSECTOR_SIZE == 0
  {
  }

  lemma {:induction false} PartStep(addr: nat, len: nat, n: nat)
    requires n == BlockSize(addr, len) > 0
    ensures ErasablePart(addr, len) == n + ErasablePart(addr + n, len - n)
    ensures (addr + n) % SUBSECTOR_SIZE == 0
    ensures len < SUBSECTOR_SIZE + n ==> ErasablePart(addr + n, len - n) == 0
  {
    if n == SECTOR_SIZE {
      SectorAligned(addr);
    }
  }

  lemma {:induction false} ErasedMore(m0: seq<byte>, m1: seq<byte>, m2: seq<byte>, addr: nat, done: nat,
                                      at: nat, n: nat)
    requires Erased(m0, m1, addr, done) && at == addr + done && Erased(m1, m2, at, n)
    ensures Erased(m0, m2, addr, done + n)
  {
    forall i | 0 <= i < |m0|
      ensures m2[i] == if addr <= i < addr + (done + n) then 0xff else m0[i]
    {
      assert m1[i] == if addr <= i < addr + done then 0xff else m0[i];
    }
  }

  lemma {:induction false} WholeBlocks(done: nat, n: nat)
    requires done % SUBSECTOR_SIZE == 0 && (n == SUBSECTOR_SIZE || n == SECTOR_SIZE)
    ensures (done + n) % SUBSECTOR_SIZE == 0
  {
  }

  /** Write enable and one block erase; `ok` is false if enabling failed. */
  method EraseNext(chip: Chip, addr: nat, n: nat) returns (ok: bool)
    requires chip.Ready() && chip.load.Idle?
    requires n == SUBSECTOR_SIZE || n == SECTOR_SIZE
    requires addr % n == 0 && addr + n <= chip.mem.Length
    modifies chip`latch, chip`tries, chip.mem
    ensures chip.Ready() && ok == chip.sets(old(chip.tries)) && chip.tries == old(chip.tries) + 1
    ensures Erased(old(chip.mem[..]), chip.mem[..], addr, if ok then n else 0)
  {
    ok := chip.WriteEnable();
    if ok {
      var four := addr > 0xffffff;
      chip.EraseBlock(addr, four, n);
    }
  }

  /** spi_flash_erase: erases exactly the range if it is aligned and no write enable fails; else a prefix
      of whole blocks: all of them unless a write enable fails. */
  method Erase(chip: Chip, addr: nat, len: nat) returns (ok: bool, ghost done: nat)
    requires chip.Ready() && chip.load.Idle? && addr + len <= chip.mem.Length
    modifies chip`latch, chip`tries, chip.mem
    ensures chip.Ready() && done <= len && Erased(old(chip.mem[..]), chip.mem[..], addr, done)
    ensures ok <==> done == len
    ensures done <= ErasablePart(addr, len) && (done < ErasablePart(addr, len) ==> done % SUBSECTOR_SIZE == 0)
    ensures Tried(chip.sets, old(chip.tries), chip.tries, done == ErasablePart(addr, len))
    ensures chip.Works() ==> done == ErasablePart(addr, len)
  {
    var at, left := addr, len;
    done := 0;
    while left > 0
      invariant chip.Ready() && at == addr + done && left == len - done
      invariant Erased(old(chip.mem[..]), chip.mem[..], addr, done)
      invariant ErasablePart(addr, len) == done + ErasablePart(at, left)
      invariant done % SUBSECTOR_SIZE == 0 && Tried(chip.sets, old(chip.tries), chip.tries, true)
      decreases left
    {
      var n := BlockSize(at, left);
      if n == 0 {
        return false, done;
      }
      PartStep(at, left, n);
      ghost var m1 := chip.mem[..];
      var enabled := EraseNext(chip, at, n);
      if !enabled {
        return false, done;
      }
      ErasedMore(old(chip.mem[..]), m1, chip.mem[..], addr, done, at, n);
      WholeBlocks(done, n);
      done := done + n;
      if left <= n {
        break;
      }
      at, left := at + n, left - n;
    }
    ok := true;
  }

  // ----- spi_flash_read -----

  /** Where the chip fetches byte `k` of a read. */
  function FetchAddr(addr: nat, k: nat, size: nat): nat
    requires size > 0
  {
    ChipAddr(addr + k, addr > 0xffffff, size)
  }

  /** A three-byte read counts within 16 MiB. */
  predicate Reaches(addr: nat, len: nat) {
    addr > 0xffffff || addr + len <= THREE_BYTES
  }

  lemma {:induction false} FetchesInPlace(addr: nat, len: nat, size: nat)
    requires addr + len <= size <= FOUR_BYTES
    ensures Reaches(addr, len) <==> forall k | 0 <= k < len :: FetchAddr(addr, k, size) == addr + k
  {
    if !Reaches(addr, len) {
      var k := THREE_BYTES - addr;
      assert FetchAddr(addr, k, size) == 0;
    }
  }

  lemma {:induction false} NextThreeBytes(at: nat, low: nat)
    requires low == at % THREE_BYTES
    ensures low <= at && (low + 1) % THREE_BYTES == (at + 1) % THREE_BYTES
  {
  }

  /** The counter of the chip walks along FetchAddr. */
  lemma {:induction false} FetchStep(addr: nat, k: nat, size: nat)
    requires addr + k < size <= FOUR_BYTES
    ensures ChipAddr(FetchAddr(addr, k, size) + 1, addr > 0xffffff, size) == FetchAddr(addr, k + 1, size)
  {
    var at := addr + k;
    if addr <= 0xffffff {
      NextThreeBytes(at, at % THREE_BYTES);
      assert FetchAddr(addr, k, size) == at % THREE_BYTES;
    } else {
      assert FetchAddr(addr, k, size) == at;
    }
  }

  /** What a read has fetched so far. */
  ghost predicate Fetched(mem: seq<byte>, addr: nat, data: seq<byte>) {
    0 < |mem| && forall k | 0 <= k < |data| :: data[k] == mem[FetchAddr(addr, k, |mem|)]
  }

  lemma {:induction false} FetchedMore(mem: seq<byte>, addr: nat, data: seq<byte>, b: byte)
    requires Fetched(mem, addr, data) && b == mem[FetchAddr(addr, |data|, |mem|)]
    ensures Fetched(mem, addr, data + [b])
  {
  }

  /** Bytes fetched in place are those of the range. */
  lemma {:induction false} FetchedRange(mem: seq<byte>, addr: nat, data: seq<byte>)
    requires |mem| <= FOUR_BYTES && addr + |data| <= |mem| && Fetched(mem, addr, data)
    ensures Reaches(addr, |data|) ==> data == mem[addr..addr + |data|]
  {
    FetchesInPlace(addr, |data|, |mem|);
  }

  /** spi_flash_read */
  method Read(chip: Chip, addr: nat, len: nat) returns (data: seq<byte>)
    requires chip.Ready() && addr + len <= chip.mem.Length
    modifies chip`readAddr, chip`readFour
    ensures chip.Ready() && |data| == len && Fetched(chip.mem[..], addr, data)
    ensures Reaches(addr, len) ==> data == chip.mem[addr..addr + len]
  {
    data := [];
    chip.BeginRead(addr, addr > 0xffffff);
    while |data| < len
      invariant chip.Ready() && |data| <= len
      invariant chip.readFour == (addr > 0xffffff)
      invariant chip.readAddr == FetchAddr(addr, |data|, chip.mem.Length)
      invariant Fetched(chip.mem[..], addr, data)
      decreases len - |data|
    {
      FetchStep(addr, |data|, chip.mem.Length);
      var b := chip.ShiftOut();
      FetchedMore(chip.mem[..], addr, data, b);
      data := data + [b];
    }
    FetchedRange(chip.mem[..], addr, data);
  }
}
