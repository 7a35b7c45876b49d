/** The RAM/flash device: one flat byte array, little-endian word and double
    word access, and a bounds check on every access (Memory.cpp). */
module MemoryDevice {
  import opened Types

  /** Number of bytes in the memory array (MSP430F2618_MAX_MEMORY_ADDRESS). */
  const MemSize: nat := 0x1FFFFF

  /** The range the memory device registers on the bus.  Its end is inclusive,
      so the last address of the range is one past the array. */
  const MemoryRange: AddressRange := AddressRange(0, 0x1FFFFF)

  type Cells = s: seq<bv8> | |s| == MemSize witness seq(MemSize, _ => 0)

  /** The bounds check for an access of `n` bytes at `a`: every byte lies in
      the array, in unbounded arithmetic. */
  predicate AccessFits(a: Addr, n: nat)
  {
    a + n <= MemSize
  }

  /** The bounds check as the source writes it: `a + (n - 1) < size` computed
      in 32-bit unsigned arithmetic, which wraps for addresses near 2^32. */
  predicate AccessFitsAsWritten(a: Addr, n: nat)
    requires 1 <= n <= 4
  {
    (a + (n - 1)) % 0x1_0000_0000 < MemSize
  }

  /** Byte `i` (0 = least significant) of a double word. */
  function ByteOf(v: bv32, i: nat): bv8
    requires i < 4
  {
    match i
    case 0 => (v & 0xFF) as bv8
    case 1 => ((v >> 8) & 0xFF) as bv8
    case 2 => ((v >> 16) & 0xFF) as bv8
    case 3 => (v >> 24) as bv8
  }

  /** A byte moved to byte position `i` of a double word. */
  function Placed(b: bv8, i: nat): bv32
    requires i < 4
  {
    match i
    case 0 => b as bv32
    case 1 => (b as bv32) << 8
    case 2 => (b as bv32) << 16
    case 3 => (b as bv32) << 24
  }

  /** Little-endian value of the `n` bytes of `c` starting at `base`, built
      the way the double word read loop builds it: byte i is or-ed in at
      position i. */
  function LittleEndian(c: seq<bv8>, base: int, n: nat): bv32
    requires 0 <= base && base + n <= |c| && n <= 4
  {
    if n == 0 then 0
    else OrIn(LittleEndian(c, base, n - 1), c[base + n - 1], n - 1)
  }

  /** One step of the double word read loop: byte `b` or-ed in at position `i`. */
  function OrIn(acc: bv32, b: bv8, i: nat): bv32
    requires i < 4
  {
    acc | Placed(b, i)
  }

  /** A word from its low and high byte. */
  function LeWord(low: bv8, high: bv8): bv16
  {
    ((high as bv16) << 8) | (low as bv16)
  }

  /** The four steps of the read loop put each byte where ByteOf finds it. */
  lemma ByteOfOrIn(b0: bv8, b1: bv8, b2: bv8, b3: bv8)
    ensures var v := OrIn(OrIn(OrIn(OrIn(0, b0, 0), b1, 1), b2, 2), b3, 3);
      ByteOf(v, 0) == b0 && ByteOf(v, 1) == b1 && ByteOf(v, 2) == b2 && ByteOf(v, 3) == b3
  {
  }

  /** Reading a byte of a little-endian double word gives back the byte
      stored there. */
  lemma ByteOfLittleEndian(c: seq<bv8>, base: int)
    requires 0 <= base && base + 4 <= |c|
    ensures forall k :: 0 <= k < 4 ==> ByteOf(LittleEndian(c, base, 4), k) == c[base + k]
  {
    var b0, b1, b2, b3 := c[base], c[base + 1], c[base + 2], c[base + 3];
    assert LittleEndian(c, base, 1) == OrIn(0, b0, 0);
    assert LittleEndian(c, base, 2) == OrIn(OrIn(0, b0, 0), b1, 1);
    assert LittleEndian(c, base, 3) == OrIn(OrIn(OrIn(0, b0, 0), b1, 1), b2, 2);
    assert LittleEndian(c, base, 4) == OrIn(OrIn(OrIn(OrIn(0, b0, 0), b1, 1), b2, 2), b3, 3);
    ByteOfOrIn(b0, b1, b2, b3);
  }

  /** readByte: the byte at `a`, or a fault outside the array. */
  function LoadByte(c: Cells, a: Addr): (r: Result<bv8>)
    ensures r.Ok? <==> AccessFits(a, 1)
    ensures r.Err? ==> r.error == AddressOutOfRange
    ensures r.Ok? ==> r.value == c[a]
  {
    if a < MemSize then Ok(c[a]) else Err(AddressOutOfRange)
  }

  /** readWord: the little-endian word at `a` and `a + 1`. */
  function LoadWord(c: Cells, a: Addr): (r: Result<bv16>)
    ensures r.Ok? <==> AccessFits(a, 2)
    ensures r.Err? ==> r.error == AddressOutOfRange
    ensures r.Ok? ==> (r.value & 0xFF) as bv8 == c[a] && (r.value >> 8) as bv8 == c[a + 1]
  {
    if a + 1 < MemSize then Ok(LeWord(c[a], c[a + 1])) else Err(AddressOutOfRange)
  }

  /** readDWord: the little-endian double word at `a` .. `a + 3`. */
  function LoadDWord(c: Cells, a: Addr): (r: Result<bv32>)
    ensures r.Ok? <==> AccessFits(a, 4)
    ensures r.Err? ==> r.error == AddressOutOfRange
    ensures r.Ok? ==> r.value == LittleEndian(c, a, 4)
  {
    if a + 3 < MemSize then Ok(LittleEndian(c, a, 4))
    else Err(AddressOutOfRange)
  }

  /** Byte k of a double word read is the byte at `a + k`. */
  lemma LoadDWordBytes(c: Cells, a: Addr)
    requires LoadDWord(c, a).Ok?
    ensures forall k :: 0 <= k < 4 ==> ByteOf(LoadDWord(c, a).value, k) == c[a + k]
  {
    ByteOfLittleEndian(c, a);
  }

  /** writeByte: `a` now holds `v`, every other byte is unchanged. */
  function StoreByte(c: Cells, a: Addr, v: bv8): (r: Result<Cells>)
    ensures r.Ok? <==> AccessFits(a, 1)
    ensures r.Err? ==> r.error == AddressOutOfRange
    ensures r.Ok? ==> forall j :: 0 <= j < MemSize ==> r.value[j] == (if j == a then v else c[j])
  {
    if a < MemSize then Ok(c[a := v]) else Err(AddressOutOfRange)
  }

  /** writeWord: the low byte of `v` at `a`, the high byte at `a + 1`, every
      other byte unchanged. */
  function StoreWord(c: Cells, a: Addr, v: bv16): (r: Result<Cells>)
    ensures r.Ok? <==> AccessFits(a, 2)
    ensures r.Err? ==> r.error == AddressOutOfRange
    ensures r.Ok? ==> forall j :: 0 <= j < MemSize ==>
      r.value[j] == (if j == a then ByteOf(v as bv32, 0)
                     else if j == a + 1 then ByteOf(v as bv32, 1)
                     else c[j])
  {
    if a + 1 < MemSize then
      Ok(c[a := (v & 0xFF) as bv8][a + 1 := ((v >> 8) & 0xFF) as bv8])
    else Err(AddressOutOfRange)
  }

  /** writeDWord: byte k of `v` at `a + k` for k < 4, every other byte
      unchanged. */
  function StoreDWord(c: Cells, a: Addr, v: bv32): (r: Result<Cells>)
    ensures r.Ok? <==> AccessFits(a, 4)
    ensures r.Err? ==> r.error == AddressOutOfRange
    ensures r.Ok? ==> forall j :: 0 <= j < MemSize ==>
      r.value[j] == (if a <= j < a + 4 then ByteOf(v, j - a) else c[j])
  {
    if a + 3 < MemSize then
      Ok(c[a := ByteOf(v, 0)][a + 1 := ByteOf(v, 1)][a + 2 := ByteOf(v, 2)][a + 3 := ByteOf(v, 3)])
    else Err(AddressOutOfRange)
  }

  /** A word written can be read back, and so can a double word. */
  lemma StoreThenLoad(c: Cells, a: Addr, w: bv16, d: bv32)
    ensures StoreWord(c, a, w).Ok? ==> LoadWord(StoreWord(c, a, w).value, a) == Ok(w)
    ensures StoreDWord(c, a, d).Ok? ==> LoadDWord(StoreDWord(c, a, d).value, a) == Ok(d)
  {
    if StoreDWord(c, a, d).Ok? {
      var c' := StoreDWord(c, a, d).value;
      var r := LoadDWord(c', a);
      ByteOfLittleEndian(c', a);
      assert forall i :: 0 <= i < 4 ==> ByteOf(r.value, i) == ByteOf(d, i);
      BytesDetermineDWord(r.value, d);
    }
  }

  /** Two double words with the same four bytes are equal. */
  lemma BytesDetermineDWord(x: bv32, y: bv32)
    requires forall i :: 0 <= i < 4 ==> ByteOf(x, i) == ByteOf(y, i)
    ensures x == y
  {
    assert ByteOf(x, 0) == ByteOf(y, 0);
    assert ByteOf(x, 1) == ByteOf(y, 1);
    assert ByteOf(x, 2) == ByteOf(y, 2);
    assert ByteOf(x, 3) == ByteOf(y, 3);
  }

  /** Writing a double word changes no byte outside its four, so a byte read
      elsewhere gives the same result before and after. */
  lemma StoreDWordFrame(c: Cells, a: Addr, v: bv32, b: Addr)
    requires StoreDWord(c, a, v).Ok?
    requires b < a || b >= a + 4
    ensures LoadByte(StoreDWord(c, a, v).value, b) == LoadByte(c, b)
  {
  }

  /** As written, the word and double word checks let addresses near 2^32
      through: the sum wraps to a small number. */
  lemma AsWrittenCheckAdmitsWrappedAddresses()
    ensures AccessFitsAsWritten(0xFFFF_FFFF, 2) && !AccessFits(0xFFFF_FFFF, 2)
    ensures AccessFitsAsWritten(0xFFFF_FFFD, 4) && !AccessFits(0xFFFF_FFFD, 4)
  {
  }

  /** The two checks agree on every address where the sum does not wrap. */
  lemma AsWrittenCheckAgreesWithoutWrap(a: Addr, n: nat)
    requires 1 <= n <= 4
    requires a + n - 1 < 0x1_0000_0000
    ensures AccessFitsAsWritten(a, n) <==> AccessFits(a, n)
  {
  }

  /** The memory device: a fixed array of bytes. */
  class Memory {
    const cells: array<bv8>

    ghost predicate Valid()
      reads this
    {
      cells.Length == MemSize
    }

    ghost function Contents(): Cells
      reads this, cells
      requires Valid()
    {
      cells[..]
    }

    /** The source leaves the initial contents unspecified. */
    constructor ()
      ensures Valid() && fresh(cells)
    {
      cells := new bv8[MemSize];
    }

    method ReadByte(a: Addr) returns (r: Result<bv8>)
      requires Valid()
      ensures r == LoadByte(Contents(), a)
    {
      if a < MemSize {
        r := Ok(cells[a]);
      } else {
        r := Err(AddressOutOfRange);
      }
    }

    method ReadWord(a: Addr) returns (r: Result<bv16>)
      requires Valid()
      ensures r == LoadWord(Contents(), a)
    {
      if a + 1 < MemSize {
        var low := cells[a];
        var high := cells[a + 1];
        assert low == Contents()[a] && high == Contents()[a + 1];
        r := Ok(LeWord(low, high));
      } else {
        r := Err(AddressOutOfRange);
      }
    }

    method ReadDWord(a: Addr) returns (r: Result<bv32>)
      requires Valid()
      ensures r == LoadDWord(Contents(), a)
    {
      if a + 3 >= MemSize {
        return Err(AddressOutOfRange);
      }
      var result: bv32 := 0;
      var i := 0;
      while i < 4
        invariant 0 <= i <= 4
        invariant result == LittleEndian(cells[..], a, i)
      {
        var b := cells[a + i];
        result := OrIn(result, b, i);
        i := i + 1;
      }
      r := Ok(result);
    }

    method WriteByte(a: Addr, v: bv8) returns (r: Result<()>)
      requires Valid()
      modifies cells
      ensures r == StoreByte(old(Contents()), a, v).Drop()
      ensures r.Ok? ==> Contents() == StoreByte(old(Contents()), a, v).value
      ensures r.Err? ==> Contents() == old(Contents())
    {
      if a < MemSize {
        cells[a] := v;
        r := Ok(());
      } else {
        r := Err(AddressOutOfRange);
      }
    }

    method WriteWord(a: Addr, v: bv16) returns (r: Result<()>)
      requires Valid()
      modifies cells
      ensures r == StoreWord(old(Contents()), a, v).Drop()
      ensures r.Ok? ==> Contents() == StoreWord(old(Contents()), a, v).value
      ensures r.Err? ==> Contents() == old(Contents())
    {
      if a + 1 < MemSize {
        cells[a] := (v & 0xFF) as bv8;
        cells[a + 1] := ((v >> 8) & 0xFF) as bv8;
        r := Ok(());
      } else {
        r := Err(AddressOutOfRange);
      }
    }

    method WriteDWord(a: Addr, v: bv32) returns (r: Result<()>)
      requires Valid()
      modifies cells
      ensures r == StoreDWord(old(Contents()), a, v).Drop()
      ensures r.Ok? ==> Contents() == StoreDWord(old(Contents()), a, v).value
      ensures r.Err? ==> Contents() == old(Contents())
    {
      if a + 3 >= MemSize {
        return Err(AddressOutOfRange);
      }
      var i := 0;
      while i < 4
        invariant 0 <= i <= 4
        invariant forall j :: 0 <= j < MemSize ==>
          cells[j] == (if a <= j < a + i then ByteOf(v, j - a) else old(cells[j]))
      {
        cells[a + i] := ByteOf(v, i);
        i := i + 1;
      }
      r := Ok(());
    }
  }
}
