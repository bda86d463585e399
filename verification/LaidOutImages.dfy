/** The boot loader on images that lie one after the other in main memory: its verdict on
    them, and what is in SRAM when it jumps. */
module LaidOutImages {
  import opened MachineWords
  import opened ImageFormat
  import opened BootMemory
  import opened BootLoader

  // ---------- The verdict, from the images alone ----------

  /** The range checks, in the order of the loads. */
  function LoadStage(app: Bytes, gpe0: Bytes, gpe1: Bytes): Stage
    requires |app| >= VERSION && |app| < TWO_32 && |gpe0| < TWO_32 && |gpe1| < TWO_32
  {
    var rc405 := Check405(Be32(app, START_ADDR), |app|);
    var rc0 := CheckGpe(SRAM_START_GPE0, SRAM_END_GPE0, |gpe0|);
    var rc1 := CheckGpe(SRAM_START_GPE1, SRAM_END_GPE1, |gpe1|);
    if rc405 != 0 then Stopped(BOOT_LOAD_IMAGE_CHKPOINT, rc405)
    else if rc0 != 0 then Stopped(BOOT_LOAD_GPE0_CHKPOINT, rc0)
    else if rc1 != 0 then Stopped(BOOT_LOAD_GPE1_CHKPOINT, rc1)
    else Passed
  }

  /** The comparisons of the three images' checksums with the 405 header. */
  function ChecksumStage(app: Bytes, gpe0: Bytes, gpe1: Bytes): Stage
    requires |app| >= VERSION
  {
    var sum, sum0, sum1 := Checksum(app, false), Checksum(gpe0, true), Checksum(gpe1, true);
    if sum != Be32(app, CHECKSUM) then Stopped(BOOT_CHKSUM_CHKPOINT_405, sum)
    else if sum0 != Be32(app, GPE0_CHECKSUM) then Stopped(BOOT_CHKSUM_CHKPOINT_GPE0, sum0)
    else if sum1 != Be32(app, GPE1_CHECKSUM) then Stopped(BOOT_CHKSUM_CHKPOINT_GPE1, sum1)
    else Passed
  }

  /** The loader's verdict on a 405 image and two GPE images. */
  function Verdict(app: Bytes, gpe0: Bytes, gpe1: Bytes): Outcome
    requires |app| >= VERSION && |app| < TWO_32 && |gpe0| < TWO_32 && |gpe1| < TWO_32
  {
    match LoadStage(app, gpe0, gpe1)
    case Stopped(checkpoint, code) => Halted(checkpoint, code)
    case Passed =>
      match ChecksumStage(app, gpe0, gpe1)
      case Stopped(checkpoint, code) => Halted(checkpoint, code)
      case Passed => Jumped(Be32(app, EP_ADDR))
  }

  // ---------- Where the images are ----------

  /** Four images in a row below the SRAM. */
  datatype Images = Images(base: Word32, boot: Bytes, app: Bytes, gpe0: Bytes, gpe1: Bytes) {
    /** The boot loader's header says where it is, and the headers give the images' sizes. */
    predicate Consistent() {
      && base + |boot| + |app| + |gpe0| + |gpe1| <= SRAM_BASE
      && VERSION <= |boot| && VERSION <= |app|
      && Be32(boot, START_ADDR) == base && Be32(boot, IMAGE_SIZE) == |boot|
      && Be32(app, IMAGE_SIZE) == |app| && Be32(app, GPE0_SIZE) == |gpe0| && Be32(app, GPE1_SIZE) == |gpe1|
    }

    predicate GpesBelowTop() {
      SRAM_START_GPE0 + |gpe0| <= TWO_32 && SRAM_START_GPE1 + |gpe1| <= TWO_32
    }

    /** The header of the 405 image and the GPE images. */
    function Header(): int { base + |boot| }
    function Gpe0At(): int { Header() + |app| }
    function Gpe1At(): int { Gpe0At() + |gpe0| }
  }

  /** The images are in memory. */
  predicate LaidOut(m: Bytes, i: Images) {
    && |m| == TWO_32
    && Holds(m, i.base, i.boot) && Holds(m, i.Header(), i.app)
    && Holds(m, i.Gpe0At(), i.gpe0) && Holds(m, i.Gpe1At(), i.gpe1)
  }

  /** What is written to SRAM leaves the images in main memory alone. */
  lemma StaysLaidOut(m: Bytes, m': Bytes, from: int, i: Images)
    requires i.Consistent() && LaidOut(m, i) && SRAM_BASE <= from <= |m| == |m'| && m[..from] == m'[..from]
    ensures LaidOut(m', i)
  {
    hide Holds, Be32;
    assert m[0..from] == m'[0..from];
    StillHolds(m, m', 0, from, i.base, i.boot);
    StillHolds(m, m', 0, from, i.Header(), i.app);
    StillHolds(m, m', 0, from, i.Gpe0At(), i.gpe0);
    StillHolds(m, m', 0, from, i.Gpe1At(), i.gpe1);
  }

  /** The SRAM test leaves them alone. */
  lemma TestKeepsImages(m: Bytes, i: Images)
    requires i.Consistent() && LaidOut(m, i)
    ensures LaidOut(Tested(m), i)
  {
    assert m[..SRAM_BASE] == Tested(m)[..SRAM_BASE];
    hide Tested, Holds;
    StaysLaidOut(m, Tested(m), SRAM_BASE, i);
  }

  /** The loaded images are in their windows. */
  predicate InWindows(m: Bytes, app: Bytes, gpe0: Bytes, gpe1: Bytes)
    requires |app| >= VERSION
  {
    Holds(m, Be32(app, START_ADDR), app) && Holds(m, SRAM_START_GPE0, gpe0) && Holds(m, SRAM_START_GPE1, gpe1)
  }

  // ---------- The loads ----------

  lemma HeaderField(m: Bytes, i: Images, off: nat)
    requires i.Consistent() && LaidOut(m, i) && off + FIELD_LEN <= VERSION
    ensures WordAt(m, i.Header() + off) == Be32(i.app, off)
  {
    hide Holds, WordAt, Be32;
    WordInSection(m, i.Header(), i.app, off);
  }

  lemma FindsHeader(m: Bytes, i: Images)
    requires i.Consistent() && LaidOut(m, i)
    ensures AppHeader(m, i.base) == i.Header()
  {
    hide Holds, WordAt, Be32;
    WordInSection(m, i.base, i.boot, START_ADDR);
    WordInSection(m, i.base, i.boot, IMAGE_SIZE);
  }

  lemma Load405Places(m: Bytes, i: Images)
    requires i.Consistent() && LaidOut(m, i)
    ensures var r := Load405(m, i.Header());
            && r.0 == Check405(Be32(i.app, START_ADDR), |i.app|) && LaidOut(r.1, i)
            && (r.0 == 0 ==> SRAM_START_405 <= Be32(i.app, START_ADDR) && Holds(r.1, Be32(i.app, START_ADDR), i.app))
  {
    hide Holds, WordAt, Be32, Check405, Copied;
    var start := Be32(i.app, START_ADDR);
    HeaderField(m, i, START_ADDR);
    HeaderField(m, i, IMAGE_SIZE);
    Check405IsExact(start, |i.app|);
    if Check405(start, |i.app|) == 0 {
      SectionCopied(m, start, i.Header(), i.app);
      StaysLaidOut(m, Copied(m, start, i.Header(), |i.app|), start, i);
    }
  }

  /** A section is copied to a place above it. */
  lemma SectionCopied(m: Bytes, dest: Word32, src: Word32, section: Bytes)
    requires |m| == TWO_32 && Holds(m, src, section) && src + |section| <= dest && dest + |section| <= TWO_32
    ensures var m' := Copied(m, dest, src, |section|);
            m'[..dest] == m[..dest] && Holds(m', dest, section) && m'[dest + |section|..] == m[dest + |section|..]
  {
    hide Copied;
    CopiedSections(m, dest, src, |section|);
  }

  /** A GPE image that lies in main memory is copied to its window; what is above stays. */
  lemma LoadGpePlaces(m: Bytes, i: Images, start: Word32, end: Word32, src: Word32, image: Bytes)
    requires i.Consistent() && LaidOut(m, i) && SRAM_BASE <= start <= end && start + |image| <= TWO_32
    requires Holds(m, src, image) && src + |image| <= SRAM_BASE
    ensures var r := LoadGpe(m, start, end, |image|, src);
            && r.0 == CheckGpe(start, end, |image|) && LaidOut(r.1, i) && r.1[..start] == m[..start]
            && (r.0 == 0 ==>
                  && start + |image| <= end + 1 && Holds(r.1, start, image)
                  && r.1[start + |image|..] == m[start + |image|..])
  {
    hide Holds, CheckGpe, Copied, LaidOut, Images.Consistent;
    CheckGpeIsExactUntilWrap(start, end, |image|);
    assert |m| == TWO_32 by { LaidOutIsMemory(m, i); }
    if CheckGpe(start, end, |image|) == 0 {
      SectionCopied(m, start, src, image);
      StaysLaidOut(m, Copied(m, start, src, |image|), start, i);
    }
  }

  lemma LaidOutIsMemory(m: Bytes, i: Images)
    requires LaidOut(m, i)
    ensures |m| == TWO_32
  {
  }

  lemma KeptAbove(m: Bytes, m': Bytes, from: int, address: int, section: Bytes)
    requires |m| == |m'| && 0 <= from <= |m| && m[from..] == m'[from..]
    requires Holds(m, address, section) && from <= address
    ensures Holds(m', address, section)
  {
    assert m[from..|m|] == m'[from..|m|];
    StillHolds(m, m', from, |m|, address, section);
  }

  lemma KeptBelow(m: Bytes, m': Bytes, to: int, address: int, section: Bytes)
    requires |m| == |m'| && 0 <= to <= |m| && m[..to] == m'[..to]
    requires Holds(m, address, section) && address + |section| <= to
    ensures Holds(m', address, section)
  {
    assert m[0..to] == m'[0..to];
    StillHolds(m, m', 0, to, address, section);
  }

  /** The GPE loads leave the loaded 405 image and each other's window alone. */
  lemma LoadGpesPlace(m: Bytes, i: Images)
    requires i.Consistent() && i.GpesBelowTop() && LaidOut(m, i)
    requires SRAM_START_405 <= Be32(i.app, START_ADDR) && Holds(m, Be32(i.app, START_ADDR), i.app)
    ensures var r := LoadGpes(m, i.Header());
            var rc0 := CheckGpe(SRAM_START_GPE0, SRAM_END_GPE0, |i.gpe0|);
            var rc1 := CheckGpe(SRAM_START_GPE1, SRAM_END_GPE1, |i.gpe1|);
            && LaidOut(r.1, i)
            && r.0 == (if rc0 != 0 then Stopped(BOOT_LOAD_GPE0_CHKPOINT, rc0)
                       else if rc1 != 0 then Stopped(BOOT_LOAD_GPE1_CHKPOINT, rc1) else Passed)
            && (r.0 == Passed ==> InWindows(r.1, i.app, i.gpe0, i.gpe1))
  {
    hide Holds, WordAt, Be32, CheckGpe, LoadGpe, Add32;
    HeaderField(m, i, IMAGE_SIZE);
    HeaderField(m, i, GPE0_SIZE);
    SmallSum(i.Header(), |i.app|);
    LoadGpePlaces(m, i, SRAM_START_GPE0, SRAM_END_GPE0, i.Gpe0At(), i.gpe0);
    var first := LoadGpe(m, SRAM_START_GPE0, SRAM_END_GPE0, |i.gpe0|, i.Gpe0At());
    if first.0 == 0 {
      var m1 := first.1;
      KeptAbove(m, m1, SRAM_START_GPE0 + |i.gpe0|, Be32(i.app, START_ADDR), i.app);
      HeaderField(m1, i, GPE0_SIZE);
      HeaderField(m1, i, GPE1_SIZE);
      SmallSum(i.Gpe0At(), |i.gpe0|);
      LoadGpePlaces(m1, i, SRAM_START_GPE1, SRAM_END_GPE1, i.Gpe1At(), i.gpe1);
      var second := LoadGpe(m1, SRAM_START_GPE1, SRAM_END_GPE1, |i.gpe1|, i.Gpe1At());
      if second.0 == 0 {
        KeptAbove(m1, second.1, SRAM_START_GPE1 + |i.gpe1|, Be32(i.app, START_ADDR), i.app);
        KeptBelow(m1, second.1, SRAM_START_GPE1, SRAM_START_GPE0, i.gpe0);
      }
    }
  }

  lemma SmallSum(a: Word32, b: Word32)
    ensures a + b < TWO_32 ==> Add32(a, b) == a + b
  {
  }

  /** The loader finds every section, and if all range checks pass they are in their windows. */
  lemma LoadsPlace(m: Bytes, i: Images)
    requires i.Consistent() && i.GpesBelowTop() && LaidOut(m, i)
    ensures var r := Loads(m, i.Header());
            && LaidOut(r.1, i) && r.0 == LoadStage(i.app, i.gpe0, i.gpe1)
            && (r.0 == Passed ==> InWindows(r.1, i.app, i.gpe0, i.gpe1))
  {
    hide Holds, Be32, LoadGpes, Load405, LaidOut, InWindows, CheckGpe, Check405;
    LaidOutIsMemory(m, i);
    Load405Places(m, i);
    var first := Load405(m, i.Header());
    if first.0 == 0 {
      LoadGpesPlace(first.1, i);
    }
  }

  /** The checksums are those of the images in the windows. */
  lemma ComparesImages(m: Bytes, i: Images)
    requires i.Consistent() && LaidOut(m, i) && InWindows(m, i.app, i.gpe0, i.gpe1)
    ensures Compares(m, i.Header()) == ChecksumStage(i.app, i.gpe0, i.gpe1)
  {
    hide Holds, WordAt, Be32, Checksum, Window;
    HeaderField(m, i, START_ADDR);
    HeaderField(m, i, IMAGE_SIZE);
    HeaderField(m, i, GPE0_SIZE);
    HeaderField(m, i, GPE1_SIZE);
    HeaderField(m, i, CHECKSUM);
    HeaderField(m, i, GPE0_CHECKSUM);
    HeaderField(m, i, GPE1_CHECKSUM);
    WindowOfSection(m, Be32(i.app, START_ADDR), i.app);
    WindowOfSection(m, SRAM_START_GPE0, i.gpe0);
    WindowOfSection(m, SRAM_START_GPE1, i.gpe1);
  }

  /** What the loader does with images in a row in main memory is its verdict on them, and it
      jumps only with all three in their windows. */
  lemma BootsByVerdict(m: Bytes, i: Images)
    requires i.Consistent() && i.GpesBelowTop() && LaidOut(m, i)
    ensures var r := BootFrom(m, i.base);
            && r.0 == Verdict(i.app, i.gpe0, i.gpe1)
            && (r.0.Jumped? ==> InWindows(r.1, i.app, i.gpe0, i.gpe1))
  {
    hide Holds, WordAt, Be32, Loads, Compares, LoadStage, ChecksumStage, InWindows, AppHeader;
    FindsHeader(m, i);
    LoadsPlace(m, i);
    var r := Loads(m, i.Header());
    HeaderField(r.1, i, EP_ADDR);
    if r.0 == Passed {
      ComparesImages(r.1, i);
    }
  }

  /** A GPE0 image too long for the memory above its start is loaded all the same: it replaces
      everything from there to the end of memory, the loaded 405 image with it, and goes on over
      the bottom of main memory. */
  lemma OversizedGpe0Overwrites(m: Bytes, i: Images, a: Word32)
    requires i.Consistent() && LaidOut(m, i) && SRAM_START_GPE0 + |i.gpe0| > TWO_32
    ensures var r, above := LoadGpe(m, SRAM_START_GPE0, SRAM_END_GPE0, |i.gpe0|, i.Gpe0At()), TWO_32 - SRAM_START_GPE0;
            && r.0 == 0
            && (a >= SRAM_START_GPE0 ==> r.1[a] == i.gpe0[a - SRAM_START_GPE0])
            && (a < |i.gpe0| - above ==> r.1[a] == i.gpe0[above + a])
            && (|i.gpe0| - above <= a < SRAM_START_GPE0 ==> r.1[a] == m[a])
  {
    hide Holds, Copied, CheckGpe, Be32;
    CheckGpeIsExactUntilWrap(SRAM_START_GPE0, SRAM_END_GPE0, |i.gpe0|);
    CopiedPastEnd(m, SRAM_START_GPE0, i.Gpe0At(), |i.gpe0|, a);
    var above := TWO_32 - SRAM_START_GPE0;
    if a >= SRAM_START_GPE0 {
      ByteInSection(m, i.Gpe0At(), i.gpe0, a - SRAM_START_GPE0);
    } else if a < |i.gpe0| - above {
      ByteInSection(m, i.Gpe0At(), i.gpe0, above + a);
    }
  }
}
