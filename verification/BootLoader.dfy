/** The boot loader (bootMain.c), running on a flat 32-bit memory. */
module BootLoader {
  import opened MachineWords
  import opened ImageFormat
  import opened BootMemory

  const SRAM_START_405: int := 0xFFF4_0000
  const SRAM_END_405: int := 0xFFFB_FFFF
  const SRAM_START_GPE0: int := 0xFFF0_1000
  const SRAM_END_GPE0: int := 0xFFF0_FFFF
  const SRAM_START_GPE1: int := 0xFFF1_0000
  const SRAM_END_GPE1: int := 0xFFF1_FFFF
  const SRAM_BASE: int := 0xFFF0_0000
  const EYE_CATCHER_ADDRESS: int := 0x1234_ABCD

  const BOOT_TEST_SRAM_CHKPOINT: nat := 1
  const BOOT_LOAD_IMAGE_CHKPOINT: nat := 2
  const BOOT_LOAD_GPE0_CHKPOINT: nat := 3
  const BOOT_LOAD_GPE1_CHKPOINT: nat := 4
  const BOOT_CHKSUM_CHKPOINT_405: nat := 5
  const BOOT_CHKSUM_CHKPOINT_GPE0: nat := 6
  const BOOT_CHKSUM_CHKPOINT_GPE1: nat := 7

  /** Halted with a checkpoint and a code in the special registers, or jumped. */
  datatype Outcome = Halted(checkpoint: nat, code: Word32) | Jumped(entry: Word32)

  // ---------- What the loader decides, from the sections alone ----------

  /** The code reported for an address out of range; zero would look like success. */
  function RangeCode(address: Word32): (rc: Word32)
    ensures rc != 0
  {
    if address != 0 then address else EYE_CATCHER_ADDRESS
  }

  function LastAddress(start: Word32, size: Word32): Word32 {
    (start + size - 1) % TWO_32
  }

  /** The return code of the 405 range checks; zero when both pass. */
  function Check405(start: Word32, size: Word32): Word32 {
    var last := LastAddress(start, size);
    if last < SRAM_START_405 || last > SRAM_END_405 then RangeCode(last)
    else if start < SRAM_START_405 || start > SRAM_END_405 then RangeCode(start)
    else 0
  }

  /** The GPE loads only compare the last address with the end of the window. */
  function CheckGpe(start: Word32, end: Word32, size: Word32): Word32 {
    var last := LastAddress(start, size);
    if last > end then RangeCode(last) else 0
  }

  /** The 405 checks accept exactly the images that fit the window, and those so large that
      the last address wraps around into it again. An image of no bytes needs one byte of the
      window before its start. */
  lemma Check405Exactly(start: Word32, size: Word32)
    ensures Check405(start, size) == 0 <==>
              0xFFF4_0000 <= start <= 0xFFFB_FFFF
              && (0xFFF4_0000 <= start + size - 1 <= 0xFFFB_FFFF || 0x1_FFF4_0000 <= start + size - 1)
  {
    if start + size - 1 >= TWO_32 {
      assert LastAddress(start, size) == start + size - 1 - TWO_32;
    }
  }

  /** For example an image of 0xFFF90080 bytes, a multiple of 128, linked at 0xFFFB0000. */
  lemma Oversized405Passes()
    ensures 0xFFF9_0080 % 128 == 0 && 0xFFFB_0000 + 0xFFF9_0080 - 1 > SRAM_END_405
    ensures Check405(0xFFFB_0000, 0xFFF9_0080) == 0
  {
  }

  /** For images not longer than the memory below the SRAM, that is what fits the window. */
  lemma Check405IsExact(start: Word32, size: Word32)
    requires 0 < size <= SRAM_BASE
    ensures Check405(start, size) == 0 <==> SRAM_START_405 <= start && start + size - 1 <= SRAM_END_405
  {
    Check405Exactly(start, size);
  }

  /** The GPE checks accept what fits the window, and also what is so large that the last
      address wraps around. */
  lemma CheckGpeIsExactUntilWrap(start: Word32, end: Word32, size: Word32)
    requires 0 < start <= end
    ensures CheckGpe(start, end, size) == 0 <==>
              start + size - 1 <= end || TWO_32 <= start + size - 1 <= TWO_32 + end
  {
  }

  /** For example a GPE0 image of 0xFF080 bytes, a multiple of 128, passes although its window
      has 0xF000. */
  lemma OversizedGpe0Passes()
    ensures 0xF_F080 % 128 == 0 && 0xF_F080 > SRAM_END_GPE0 + 1 - SRAM_START_GPE0
    ensures CheckGpe(SRAM_START_GPE0, SRAM_END_GPE0, 0xF_F080) == 0
  {
  }

  /** What is reported for a 405 image out of range: its last address, or its start if only that is
      outside the window; 0x1234ABCD stands for address zero. */
  function Reported(start: int, size: nat): int {
    var last := (start + size - 1) % 0x1_0000_0000;
    var address := if 0xFFF4_0000 <= last <= 0xFFFB_FFFF then start else last;
    if address == 0 then 0x1234_ABCD else address
  }

  lemma Reported405(start: Word32, size: Word32)
    ensures Check405(start, size) in {0, Reported(start, size)} && Reported(start, size) != 0
  {
  }

  /** For a GPE image it is the last address, which is never zero. */
  lemma ReportedGpe(size: Word32)
    ensures CheckGpe(SRAM_START_GPE0, SRAM_END_GPE0, size) in {0, (0xFFF0_1000 + size - 1) % 0x1_0000_0000}
    ensures CheckGpe(SRAM_START_GPE1, SRAM_END_GPE1, size) in {0, (0xFFF1_0000 + size - 1) % 0x1_0000_0000}
    ensures CheckGpe(SRAM_START_GPE0, SRAM_END_GPE0, size) == 0 <==> size <= 0xF000 || size >= 0xF_F001
    ensures CheckGpe(SRAM_START_GPE1, SRAM_END_GPE1, size) == 0 <==> size <= 0x1_0000 || size >= 0xF_0001
  {
  }

  datatype Stage = Passed | Stopped(checkpoint: nat, code: Word32)

  // ---------- What the loader does, for any memory ----------

  /** Loads the 405 image whose header is at `hdr`: the return code and the memory after. */
  function Load405(m: Bytes, hdr: Word32): (r: (Word32, Bytes))
    requires |m| == TWO_32
    ensures |r.1| == TWO_32
  {
    var start, size := WordAt(m, hdr + START_ADDR), WordAt(m, hdr + IMAGE_SIZE);
    var rc := Check405(start, size);
    (rc, if rc == 0 then Copied(m, start, hdr, size) else m)
  }

  /** Loads a GPE image to the start of its window. */
  function LoadGpe(m: Bytes, start: Word32, end: Word32, size: Word32, src: Word32): (r: (Word32, Bytes))
    requires |m| == TWO_32
    ensures |r.1| == TWO_32
  {
    var rc := CheckGpe(start, end, size);
    (rc, if rc == 0 then Copied(m, start, src, size) else m)
  }

  /** The two GPE loads; sizes and places are read from the header as the memory then is. */
  function LoadGpes(m: Bytes, hdr: Word32): (r: (Stage, Bytes))
    requires |m| == TWO_32
    ensures |r.1| == TWO_32
  {
    var gpe0Src := Add32(hdr, WordAt(m, hdr + IMAGE_SIZE));
    var first := LoadGpe(m, SRAM_START_GPE0, SRAM_END_GPE0, WordAt(m, hdr + GPE0_SIZE), gpe0Src);
    if first.0 != 0 then (Stopped(BOOT_LOAD_GPE0_CHKPOINT, first.0), first.1)
    else
      var m1 := first.1;
      var gpe1Src := Add32(gpe0Src, WordAt(m1, hdr + GPE0_SIZE));
      var second := LoadGpe(m1, SRAM_START_GPE1, SRAM_END_GPE1, WordAt(m1, hdr + GPE1_SIZE), gpe1Src);
      (if second.0 != 0 then Stopped(BOOT_LOAD_GPE1_CHKPOINT, second.0) else Passed, second.1)
  }

  /** The three loads. */
  function Loads(m: Bytes, hdr: Word32): (r: (Stage, Bytes))
    requires |m| == TWO_32
    ensures |r.1| == TWO_32
  {
    var first := Load405(m, hdr);
    if first.0 != 0 then (Stopped(BOOT_LOAD_IMAGE_CHKPOINT, first.0), first.1) else LoadGpes(first.1, hdr)
  }

  /** The checksum comparisons over what is in SRAM. */
  function Compares(m: Bytes, hdr: Word32): Stage
    requires |m| == TWO_32
  {
    var app := Checksum(Window(m, WordAt(m, hdr + START_ADDR), WordAt(m, hdr + IMAGE_SIZE)), false);
    var gpe0 := Checksum(Window(m, SRAM_START_GPE0, WordAt(m, hdr + GPE0_SIZE)), true);
    var gpe1 := Checksum(Window(m, SRAM_START_GPE1, WordAt(m, hdr + GPE1_SIZE)), true);
    if app != WordAt(m, hdr + CHECKSUM) then Stopped(BOOT_CHKSUM_CHKPOINT_405, app)
    else if gpe0 != WordAt(m, hdr + GPE0_CHECKSUM) then Stopped(BOOT_CHKSUM_CHKPOINT_GPE0, gpe0)
    else if gpe1 != WordAt(m, hdr + GPE1_CHECKSUM) then Stopped(BOOT_CHKSUM_CHKPOINT_GPE1, gpe1)
    else Passed
  }

  /** The header of the 405 image follows the boot loader's image. */
  function AppHeader(m: Bytes, base: Word32): Word32
    requires |m| == TWO_32
  {
    Add32(WordAt(m, base + START_ADDR), WordAt(m, base + IMAGE_SIZE))
  }

  /** Everything after the SRAM test, with the boot loader's header at `base`. */
  function BootFrom(m: Bytes, base: Word32): (r: (Outcome, Bytes))
    requires |m| == TWO_32
    ensures |r.1| == TWO_32
  {
    var hdr := AppHeader(m, base);
    var loaded := Loads(m, hdr);
    (match loaded.0
     case Stopped(checkpoint, code) => Halted(checkpoint, code)
     case Passed =>
       match Compares(loaded.1, hdr)
       case Stopped(checkpoint, code) => Halted(checkpoint, code)
       case Passed => Jumped(WordAt(loaded.1, hdr + EP_ADDR)),
     loaded.1)
  }

  // ---------- The SRAM test ----------

  /** What a word of SRAM reads back as when a value is stored in it. */
  type Readback = (Word32, Word32) -> Word32

  predicate KeepsPattern(readback: Readback, address: Word32) {
    readback(address, SRAM_TEST_BIT_PATTERN) == SRAM_TEST_BIT_PATTERN
  }

  /** Every word of the two tested ranges keeps the pattern. */
  ghost predicate SramGood(readback: Readback) {
    && RangeGood(readback, SRAM_START_GPE0, SRAM_END_GPE1)
    && RangeGood(readback, SRAM_START_405, SRAM_END_405)
  }

  predicate RangeGood(readback: Readback, start: Word32, end: Word32) {
    forall a :: start <= a <= end && a % 4 == 0 ==> KeepsPattern(readback, a)
  }

  /** The first word of a range that does not keep the pattern. */
  predicate FirstBad(readback: Readback, start: Word32, end: Word32, bad: Word32) {
    && start <= bad <= end && bad % 4 == 0 && !KeepsPattern(readback, bad)
    && forall a :: start <= a < bad && a % 4 == 0 ==> KeepsPattern(readback, a)
  }

  /** The first bad word of the first range that has one. */
  ghost predicate FirstBadOfBoth(readback: Readback, bad: Word32) {
    if RangeGood(readback, SRAM_START_GPE0, SRAM_END_GPE1) then FirstBad(readback, SRAM_START_405, SRAM_END_405, bad)
    else FirstBad(readback, SRAM_START_GPE0, SRAM_END_GPE1, bad)
  }

  /** The memory after both ranges are tested. */
  function Tested(m: Bytes): (m': Bytes)
    requires |m| == TWO_32
    ensures |m'| == TWO_32
  {
    Filled(Filled(m, SRAM_START_GPE0, SRAM_END_GPE1), SRAM_START_405, SRAM_END_405)
  }

  // ---------- The loader ----------

  class Machine {
    const mem: array<Byte>
    var checkpoint: nat

    ghost predicate Valid()
      reads this
    {
      mem.Length == TWO_32
    }

    constructor ()
      ensures Valid() && fresh(mem)
    {
      mem := new Byte[TWO_32](_ => 0);
      checkpoint := 0;
    }

    /** Copies byte by byte; both pointers wrap. */
    method Copy(dest: Word32, src: Word32, size: Word32)
      requires Valid()
      modifies mem
      ensures mem[..] == Copied(old(mem[..]), dest, src, size)
    {
      hide Add32;
      var destPtr, srcPtr, left := dest, src, size;
      ghost var before := mem[..];
      while left != 0
        invariant Copied(mem[..], destPtr, srcPtr, left) == Copied(before, dest, src, size)
      {
        ghost var m := mem[..];
        mem[destPtr] := mem[srcPtr];
        assert mem[..] == m[destPtr := m[srcPtr]];
        destPtr := Add32(destPtr, 1);
        srcPtr := Add32(srcPtr, 1);
        left := left - 1;
      }
    }

    /** Reads a word of a header. */
    function Field(hdr: Word32, off: nat): (w: Word32)
      requires Valid()
      reads this, mem
      ensures w == WordAt(mem[..], hdr + off)
    {
      FromBytes(mem[(hdr + off) % TWO_32], mem[(hdr + off + 1) % TWO_32],
                mem[(hdr + off + 2) % TWO_32], mem[(hdr + off + 3) % TWO_32])
    }

    /** Sums an image in memory by jumping over the checksum fields. */
    method CalChecksum(start: Word32, size: Word32, gpeFile: bool) returns (checksum: Word32)
      requires Valid()
      ensures checksum == Checksum(Window(mem[..], start, size), gpeFile)
    {
      hide Add32, Low32, Window;
      LowIs(0, 0, 0);
      checksum := 0;
      var counter := 0;
      ghost var image := Window(mem[..], start, size);
      while counter < size
        invariant !gpeFile && InChecksumField(counter) ==> counter in {CHECKSUM, GPE0_CHECKSUM, GPE1_CHECKSUM}
        invariant checksum == Low32(SumTo(image, counter, gpeFile))
        decreases size - counter
      {
        if counter == CHECKSUM && !gpeFile {
          SumOverField(image, counter);
          counter := CHECKSUM + FIELD_LEN;
        } else if counter == GPE0_CHECKSUM && !gpeFile {
          SumOverField(image, counter);
          counter := GPE0_CHECKSUM + FIELD_LEN;
        } else if counter == GPE1_CHECKSUM && !gpeFile {
          SumOverField(image, counter);
          counter := GPE1_CHECKSUM + FIELD_LEN;
        } else {
          WindowByte(mem[..], start, size, counter);
          var byte := mem[Add32(start, counter)];
          AddLow(SumTo(image, counter, gpeFile), byte);
          checksum := Add32(checksum, byte);
          counter := counter + 1;
        }
      }
      SumPastEnd(image, counter, gpeFile);
    }

    /** Copies the 405 image to its own start address if it stays in the 405 window. */
    method BootLoad405(hdr: Word32) returns (rc: Word32)
      requires Valid()
      modifies mem
      ensures (rc, mem[..]) == Load405(old(mem[..]), hdr)
    {
      hide WordAt, Copied, FromBytes, Machine.Field;
      rc := 0;
      var start, size := Field(hdr, START_ADDR), Field(hdr, IMAGE_SIZE);
      var destRange := LastAddress(start, size);
      if destRange < SRAM_START_405 || destRange > SRAM_END_405 {
        rc := RangeCode(destRange);
      } else if start < SRAM_START_405 || start > SRAM_END_405 {
        rc := RangeCode(start);
      } else {
        Copy(start, hdr, size);
      }
    }

    /** Copies a GPE image to the start of its window if its last address is not beyond the
        window's end. */
    method BootLoadGpe(start: Word32, end: Word32, size: Word32, src: Word32) returns (rc: Word32)
      requires Valid()
      modifies mem
      ensures (rc, mem[..]) == LoadGpe(old(mem[..]), start, end, size, src)
    {
      hide Copied;
      rc := 0;
      var destRange := LastAddress(start, size);
      if destRange > end {
        rc := RangeCode(destRange);
      } else {
        Copy(start, src, size);
      }
    }

    /** Writes the test pattern over a range of whole words and reads it back, up to the first
        word that does not keep it. */
    method BootTestSram(start: Word32, end: Word32, readback: Readback) returns (rc: Word32)
      requires Valid() && start % 4 == 0 && end % 4 == 3 && 0 < start <= end
      modifies mem
      ensures mem[..] == Filled(old(mem[..]), start, end)
      ensures rc == 0 <==> RangeGood(readback, start, end)
      ensures rc != 0 ==> FirstBad(readback, start, end, rc)
    {
      WritePattern(start, end);
      rc := ReadPattern(start, end, readback);
    }

    /** The second loop of the SRAM test: reads what the first one has stored. */
    method ReadPattern(start: Word32, end: Word32, readback: Readback) returns (rc: Word32)
      requires Valid() && start % 4 == 0 && end % 4 == 3 && 0 < start <= end
      requires forall i :: start <= i <= end ==> mem[i] == SRAM_TEST_BYTE
      ensures rc == 0 <==> RangeGood(readback, start, end)
      ensures rc != 0 ==> FirstBad(readback, start, end, rc)
    {
      hide KeepsPattern, FromBytes;
      rc := 0;
      var ptr: int := start;
      while ptr < end
        invariant start <= ptr <= end + 1 && ptr % 4 == 0
        invariant forall a :: start <= a < ptr && a % 4 == 0 ==> KeepsPattern(readback, a)
      {
        var stored := FromBytes(mem[ptr], mem[ptr + 1], mem[ptr + 2], mem[ptr + 3]);
        PatternBytes();
        KeepsWhenRead(readback, ptr, stored);
        if readback(ptr, stored) != SRAM_TEST_BIT_PATTERN {
          rc := ptr;
          break;
        }
        ptr := ptr + 4;
      }
    }

    lemma KeepsWhenRead(readback: Readback, address: Word32, stored: Word32)
      requires stored == SRAM_TEST_BIT_PATTERN
      ensures KeepsPattern(readback, address) <==> readback(address, stored) == SRAM_TEST_BIT_PATTERN
    {
    }

    /** One store of a word. */
    method StorePattern(ptr: Word32)
      requires Valid() && ptr + 3 < TWO_32
      modifies mem
      ensures forall i :: 0 <= i < TWO_32 ==> mem[i] == if ptr <= i <= ptr + 3 then SRAM_TEST_BYTE else old(mem[i])
    {
      mem[ptr], mem[ptr + 1], mem[ptr + 2], mem[ptr + 3] :=
        SRAM_TEST_BYTE, SRAM_TEST_BYTE, SRAM_TEST_BYTE, SRAM_TEST_BYTE;
    }

    /** The first loop of the SRAM test. */
    method WritePattern(start: Word32, end: Word32)
      requires Valid() && start % 4 == 0 && end % 4 == 3 && start <= end
      modifies mem
      ensures mem[..] == Filled(old(mem[..]), start, end)
    {
      ghost var was := mem[..];
      var ptr: int := start;
      while ptr < end
        invariant start <= ptr <= end + 1 && ptr % 4 == 0
        invariant forall i :: 0 <= i < TWO_32 ==> mem[i] == if start <= i < ptr then SRAM_TEST_BYTE else was[i]
      {
        StorePattern(ptr);
        ptr := ptr + 4;
      }
      assert mem[..] == Filled(was, start, end);
    }

    /** Tests the SRAM of the GPEs, then that of the 405. */
    method TestSram(readback: Readback) returns (rc: Word32)
      requires Valid()
      modifies this`checkpoint, mem
      ensures checkpoint == BOOT_TEST_SRAM_CHKPOINT
      ensures rc == 0 <==> SramGood(readback)
      ensures rc == 0 ==> mem[..] == Tested(old(mem[..]))
      ensures rc != 0 ==> FirstBadOfBoth(readback, rc)
    {
      hide RangeGood, FirstBad, Filled;
      checkpoint := BOOT_TEST_SRAM_CHKPOINT;
      rc := BootTestSram(SRAM_START_GPE0, SRAM_END_GPE1, readback);
      if rc == 0 {
        rc := BootTestSram(SRAM_START_405, SRAM_END_405, readback);
      }
    }

    /** The whole boot sequence, up to the jump into the main application. */
    method BootMain(base: Word32, readback: Readback) returns (o: Outcome)
      requires Valid()
      modifies this`checkpoint, mem
      ensures SramGood(readback) ==> (o, mem[..]) == BootFrom(Tested(old(mem[..])), base)
      ensures !SramGood(readback) ==>
                o.Halted? && o.checkpoint == BOOT_TEST_SRAM_CHKPOINT && FirstBadOfBoth(readback, o.code)
    {
      hide BootFrom, SramGood, FirstBadOfBoth, Tested;
      var rc := TestSram(readback);
      if rc != 0 {
        return Halted(checkpoint, rc);
      }
      o := LoadAndCheck(base);
    }

    /** The boot sequence after the SRAM test. */
    method LoadAndCheck(base: Word32) returns (o: Outcome)
      requires Valid()
      modifies this`checkpoint, mem
      ensures (o, mem[..]) == BootFrom(old(mem[..]), base)
    {
      hide WordAt, Loads, Compares, Add32, Machine.Field, FromBytes;
      ghost var m := mem[..];
      var hdr := Add32(Field(base, START_ADDR), Field(base, IMAGE_SIZE));
      assert hdr == AppHeader(m, base);
      hide AppHeader;
      var stage := LoadAll(hdr);
      ghost var loaded := mem[..];
      assert Loads(m, hdr) == (stage, loaded);
      if stage.Stopped? {
        return Halted(stage.checkpoint, stage.code);
      }
      stage := CompareChecksums(hdr);
      assert mem[..] == loaded;
      if stage.Stopped? {
        return Halted(stage.checkpoint, stage.code);
      }
      return Jumped(Field(hdr, EP_ADDR));
    }

    /** The three loads. */
    method LoadAll(hdr: Word32) returns (stage: Stage)
      requires Valid()
      modifies this`checkpoint, mem
      ensures (stage, mem[..]) == Loads(old(mem[..]), hdr)
    {
      hide WordAt, Load405, LoadGpes;
      checkpoint := BOOT_LOAD_IMAGE_CHKPOINT;
      var rc := BootLoad405(hdr);
      if rc != 0 {
        return Stopped(checkpoint, rc);
      }
      stage := LoadBothGpes(hdr);
    }

    method LoadBothGpes(hdr: Word32) returns (stage: Stage)
      requires Valid()
      modifies this`checkpoint, mem
      ensures (stage, mem[..]) == LoadGpes(old(mem[..]), hdr)
    {
      hide WordAt, LoadGpe, Add32, Machine.Field;
      ghost var m := mem[..];
      checkpoint := BOOT_LOAD_GPE0_CHKPOINT;
      var gpe0Src := Add32(hdr, Field(hdr, IMAGE_SIZE));
      var rc := BootLoadGpe(SRAM_START_GPE0, SRAM_END_GPE0, Field(hdr, GPE0_SIZE), gpe0Src);
      ghost var first := LoadGpe(m, SRAM_START_GPE0, SRAM_END_GPE0, WordAt(m, hdr + GPE0_SIZE), gpe0Src);
      assert (rc, mem[..]) == first;
      if rc != 0 {
        return Stopped(checkpoint, rc);
      }
      checkpoint := BOOT_LOAD_GPE1_CHKPOINT;
      var gpe1Src := Add32(gpe0Src, Field(hdr, GPE0_SIZE));
      rc := BootLoadGpe(SRAM_START_GPE1, SRAM_END_GPE1, Field(hdr, GPE1_SIZE), gpe1Src);
      if rc != 0 {
        return Stopped(checkpoint, rc);
      }
      return Passed;
    }

    /** The three checksum comparisons over what is in SRAM now. */
    method CompareChecksums(hdr: Word32) returns (stage: Stage)
      requires Valid()
      modifies this`checkpoint
      ensures stage == Compares(mem[..], hdr)
    {
      hide WordAt, Checksum, Window, Machine.Field;
      checkpoint := BOOT_CHKSUM_CHKPOINT_405;
      var checksum := CalChecksum(Field(hdr, START_ADDR), Field(hdr, IMAGE_SIZE), false);
      if checksum != Field(hdr, CHECKSUM) {
        return Stopped(checkpoint, checksum);
      }
      checkpoint := BOOT_CHKSUM_CHKPOINT_GPE0;
      checksum := CalChecksum(SRAM_START_GPE0, Field(hdr, GPE0_SIZE), true);
      if checksum != Field(hdr, GPE0_CHECKSUM) {
        return Stopped(checkpoint, checksum);
      }
      checkpoint := BOOT_CHKSUM_CHKPOINT_GPE1;
      checksum := CalChecksum(SRAM_START_GPE1, Field(hdr, GPE1_SIZE), true);
      if checksum != Field(hdr, GPE1_CHECKSUM) {
        return Stopped(checkpoint, checksum);
      }
      return Passed;
    }
  }
}
