/** A flat 32-bit memory as the boot loader uses it: addresses and pointers wrap. */
module BootMemory {
  import opened MachineWords
  import opened ImageFormat

  const SRAM_TEST_BYTE: Byte := 0xA5
  const SRAM_TEST_BIT_PATTERN: Word32 := 0xA5A5_A5A5

  function At(m: Bytes, a: int): Byte
    requires |m| == TWO_32
  {
    m[a % TWO_32]
  }

  /** The big-endian word at an address. */
  function WordAt(m: Bytes, a: int): Word32
    requires |m| == TWO_32
  {
    FromBytes(At(m, a), At(m, a + 1), At(m, a + 2), At(m, a + 3))
  }

  /** The bytes from an address on. */
  function Window(m: Bytes, start: int, size: nat): (w: Bytes)
    requires |m| == TWO_32
    ensures |w| == size
  {
    seq(size, (i: int) requires 0 <= i < size => m[(start + i) % TWO_32])
  }

  lemma WindowByte(m: Bytes, start: Word32, size: nat, i: Word32)
    requires |m| == TWO_32 && i < size
    ensures Window(m, start, size)[i] == m[Add32(start, i)]
  {
  }

  /** The memory after `n` bytes are copied one by one, both pointers moving up. */
  function Copied(m: Bytes, dest: Word32, src: Word32, n: nat): (m': Bytes)
    requires |m| == TWO_32
    ensures |m'| == TWO_32
    decreases n
  {
    if n == 0 then m else Copied(m[dest := m[src]], Add32(dest, 1), Add32(src, 1), n - 1)
  }

  /** The memory with the test pattern from `start` to `end`, both included. */
  function Filled(m: Bytes, start: Word32, end: Word32): (m': Bytes)
    requires |m| == TWO_32
    ensures |m'| == TWO_32
  {
    seq(TWO_32, (i: int) requires 0 <= i < TWO_32 => if start <= i <= end then SRAM_TEST_BYTE else m[i])
  }

  lemma PatternBytes()
    ensures FromBytes(SRAM_TEST_BYTE, SRAM_TEST_BYTE, SRAM_TEST_BYTE, SRAM_TEST_BYTE) == SRAM_TEST_BIT_PATTERN
  {
  }

  /** Ranges that do not wrap and do not overlap: a copy changes the destination only. */
  predicate Apart(dest: Word32, src: Word32, n: nat) {
    dest + n <= TWO_32 && src + n <= TWO_32 && (src + n <= dest || dest + n <= src)
  }

  /** Such a copy moves the section intact and leaves every other byte alone. */
  lemma {:induction false} CopiedApart(m: Bytes, dest: Word32, src: Word32, n: nat, i: Word32)
    requires |m| == TWO_32 && Apart(dest, src, n)
    ensures Copied(m, dest, src, n)[i] == if dest <= i < dest + n then m[src + (i - dest)] else m[i]
    decreases n
  {
    hide Copied, Add32;
    CopiedStep(m, dest, src, n);
    if n > 1 {
      CopiedApart(m[dest := m[src]], dest + 1, src + 1, n - 1, i);
    }
  }

  lemma CopiedStep(m: Bytes, dest: Word32, src: Word32, n: nat)
    requires |m| == TWO_32
    ensures n == 0 ==> Copied(m, dest, src, n) == m
    ensures n == 1 ==> Copied(m, dest, src, n) == m[dest := m[src]]
    ensures n > 1 && dest + 1 < TWO_32 && src + 1 < TWO_32 ==>
              Copied(m, dest, src, n) == Copied(m[dest := m[src]], dest + 1, src + 1, n - 1)
  {
    hide Add32;
    NextPointer(dest);
    NextPointer(src);
    if n == 1 {
      assert Copied(m[dest := m[src]], Add32(dest, 1), Add32(src, 1), 0) == m[dest := m[src]];
    }
  }

  lemma NextPointer(a: Word32)
    ensures a + 1 < TWO_32 ==> Add32(a, 1) == a + 1
  {
  }

  /** The same, by sections. */
  lemma CopiedSections(m: Bytes, dest: Word32, src: Word32, n: nat)
    requires |m| == TWO_32 && Apart(dest, src, n)
    ensures var m' := Copied(m, dest, src, n);
            && m'[..dest] == m[..dest] && m'[dest..dest + n] == m[src..src + n] && m'[dest + n..] == m[dest + n..]
  {
    hide Copied;
    var m' := Copied(m, dest, src, n);
    var below, above := m'[..dest], m'[dest + n..];
    forall j | 0 <= j < dest ensures below[j] == m[..dest][j] {
      CopiedApart(m, dest, src, n, j);
    }
    forall j | 0 <= j < |above| ensures above[j] == m[dest + n..][j] {
      CopiedApart(m, dest, src, n, dest + n + j);
    }
    var here := m'[dest..dest + n];
    forall j | 0 <= j < n ensures here[j] == m[src..src + n][j] {
      CopiedApart(m, dest, src, n, dest + j);
    }
  }

  /** A copy downwards is intact even if the ranges overlap: a byte is read before its place is
      written. */
  lemma {:induction false} CopiedDown(m: Bytes, dest: Word32, src: Word32, n: nat, i: Word32)
    requires |m| == TWO_32 && dest <= src && src + n <= TWO_32
    ensures Copied(m, dest, src, n)[i] == if dest <= i < dest + n then m[src + (i - dest)] else m[i]
    decreases n
  {
    hide Copied, Add32;
    CopiedStep(m, dest, src, n);
    if n > 1 {
      CopiedDown(m[dest := m[src]], dest + 1, src + 1, n - 1, i);
    }
  }

  /** A copy in two parts. */
  lemma {:induction false} CopiedInParts(m: Bytes, dest: Word32, src: Word32, k: nat, n: nat)
    requires |m| == TWO_32 && k <= n && dest + k <= TWO_32 && src + k < TWO_32
    ensures Copied(m, dest, src, n)
         == Copied(Copied(m, dest, src, k), if dest + k == TWO_32 then 0 else dest + k, src + k, n - k)
    decreases k
  {
    if k > 0 {
      NextPointer(dest);
      NextPointer(src);
      var m1 := m[dest := m[src]];
      if k == 1 {
        assert Copied(m1, Add32(dest, 1), Add32(src, 1), 0) == m1;
      } else {
        CopiedInParts(m1, dest + 1, src + 1, k - 1, n - 1);
      }
    }
  }

  /** A copy from below that runs past the end of memory goes on at address zero: every byte
      above the destination is the section's, and so are the lowest ones. */
  lemma CopiedPastEnd(m: Bytes, dest: Word32, src: Word32, n: nat, i: Word32)
    requires |m| == TWO_32 && src + n <= dest && TWO_32 <= dest + n
    ensures var k := TWO_32 - dest;
            Copied(m, dest, src, n)[i]
            == if dest <= i then m[src + (i - dest)] else if i < n - k then m[src + k + i] else m[i]
  {
    hide Copied;
    var k := TWO_32 - dest;
    var m1 := Copied(m, dest, src, k);
    CopiedInParts(m, dest, src, k, n);
    CopiedDown(m1, 0, src + k, n - k, i);
    CopiedApart(m, dest, src, k, i);
    if i < n - k {
      CopiedApart(m, dest, src, k, src + k + i);
    }
  }

  // ---------- Sections ----------

  /** The bytes of a section are at an address. */
  predicate Holds(m: Bytes, address: int, section: Bytes) {
    0 <= address && address + |section| <= |m| && m[address..address + |section|] == section
  }

  lemma StillHolds(m: Bytes, m': Bytes, lo: int, hi: int, address: int, section: Bytes)
    requires |m| == |m'| && 0 <= lo <= hi <= |m| && m[lo..hi] == m'[lo..hi]
    requires Holds(m, address, section) && lo <= address && address + |section| <= hi
    ensures Holds(m', address, section)
  {
    forall i | address <= i < address + |section| ensures m'[i] == m[i] {
      assert m[lo..hi][i - lo] == m[i] && m'[lo..hi][i - lo] == m'[i];
    }
  }

  lemma ByteInSection(m: Bytes, address: int, section: Bytes, off: nat)
    requires |m| == TWO_32 && Holds(m, address, section) && off < |section|
    ensures At(m, address + off) == section[off] == m[(address + off) % TWO_32]
  {
    assert m[address..address + |section|][off] == m[address + off];
  }

  lemma WordInSection(m: Bytes, address: int, section: Bytes, off: nat)
    requires |m| == TWO_32 && Holds(m, address, section) && off + FIELD_LEN <= |section|
    ensures WordAt(m, address + off) == Be32(section, off)
  {
    hide At, Holds, FromBytes;
    ByteInSection(m, address, section, off);
    ByteInSection(m, address, section, off + 1);
    ByteInSection(m, address, section, off + 2);
    ByteInSection(m, address, section, off + 3);
  }

  lemma WindowOfSection(m: Bytes, address: int, section: Bytes)
    requires |m| == TWO_32 && Holds(m, address, section)
    ensures Window(m, address, |section|) == section
  {
    hide Holds;
    forall i | 0 <= i < |section| ensures Window(m, address, |section|)[i] == section[i] {
      ByteInSection(m, address, section, i);
    }
  }

  lemma SplitHolds(m: Bytes, address: int, a: Bytes, b: Bytes)
    requires Holds(m, address, a + b)
    ensures Holds(m, address, a) && Holds(m, address + |a|, b)
  {
    var all := m[address..address + |a + b|];
    assert all[..|a|] == m[address..address + |a|] && (a + b)[..|a|] == a;
    assert all[|a|..] == m[address + |a|..address + |a| + |b|] && (a + b)[|a|..] == b;
  }
}
