/** The end-to-end claim: what the image tool writes, the boot loader accepts. */
module BuildThenBoot {
  import opened MachineWords
  import opened ImageFormat
  import opened ImageTool
  import opened BootMemory
  import opened BootLoader
  import opened LaidOutImages
  import opened Wrappers

  /** The four bytes from an offset on, most significant first. */
  function Big(f: Bytes, off: nat): int
    requires off + 4 <= |f|
  {
    f[off] as int * 0x100_0000 + f[off + 1] as int * 0x1_0000 + f[off + 2] as int * 0x100 + f[off + 3]
  }

  lemma BigIs(f: Bytes, off: nat)
    requires off + 4 <= |f|
    ensures Be32(f, off) == Big(f, off)
  {
  }

  /** The sum of all bytes. */
  function Sum(f: Bytes): nat {
    if f == [] then 0 else Sum(f[..|f| - 1]) + f[|f| - 1]
  }

  /** Each image fits the SRAM window it is loaded into; the 405 image from the address in its
      bytes 76 to 79 on. */
  predicate FitsWindows(app: Bytes, gpe0: Bytes, gpe1: Bytes)
    requires |app| >= 128
  {
    && 0xFFF4_0000 <= Big(app, 76) && Big(app, 76) + |app| <= 0xFFFC_0000
    && |gpe0| <= 0xF000 && |gpe1| <= 0x1_0000
  }

  /** The four images and the versions and ids the tool is given for them. */
  datatype Build = Build(boot: Bytes, app: Bytes, gpe0: Bytes, gpe1: Bytes,
                         bootVersion: Version, appVersion: Version, bootId: Option<IdString>, appId: Option<IdString>)
  {
    /** The files have room for their headers, the combined file ends below the SRAM, and no GPE
        image reaches beyond the end of memory. */
    predicate Fits() {
      && HasHeader(boot, bootId) && HasHeader(app, appId) && BelowSram() && Patched().GpesBelowTop()
    }

    predicate BelowSram() {
      Base() + |PatchedBoot()| + |PatchedApp()| + |gpe0| + |gpe1| <= SRAM_BASE
    }

    /** Where the boot loader's header says the combined file starts. */
    function Base(): Word32 {
      Be32(PatchedBoot(), START_ADDR)
    }

    function PatchedBoot(): (p: Bytes)
      ensures |p| >= VERSION
    {
      BootDone(boot, bootVersion, bootId)
    }

    function PatchedApp(): (p: Bytes)
      ensures |p| >= VERSION
    {
      AppDone(app, gpe0, gpe1, appVersion, appId)
    }

    /** The patched images in a row from the base on. */
    function Patched(): Images {
      Images(Base(), PatchedBoot(), PatchedApp(), gpe0, gpe1)
    }

    function Combined(): Bytes {
      PatchedBoot() + PatchedApp() + gpe0 + gpe1
    }
  }

  /** Below the SRAM, the headers agree with the images that the tool writes exactly when both
      files had room for their headers: a shorter file grows past the size recorded for it, and
      the loader looks for what follows too early. */
  lemma HeadersAgreeExactly(b: Build)
    requires b.BelowSram()
    ensures b.Patched().Consistent() <==> HasHeader(b.boot, b.bootId) && HasHeader(b.app, b.appId)
  {
    hide Be32, Low32;
    RecordedSizes(b.boot, b.app, b.gpe0, b.gpe1, b.bootVersion, b.appVersion, b.bootId, b.appId);
    Lengths(b);
    LowIs(|b.boot|, 0, |b.boot|);
    LowIs(|b.app|, 0, |b.app|);
    LowIs(|b.gpe0|, 0, |b.gpe0|);
    LowIs(|b.gpe1|, 0, |b.gpe1|);
  }

  lemma Lengths(b: Build)
    ensures |b.PatchedBoot()| >= |b.boot| && (|b.PatchedBoot()| == |b.boot| <==> HasHeader(b.boot, b.bootId))
    ensures |b.PatchedApp()| >= |b.app| && (|b.PatchedApp()| == |b.app| <==> HasHeader(b.app, b.appId))
  {
    hide Be32, Low32, Checksum;
  }

  /** For example a 405 file of one aligned block, given an id, is built sixteen bytes longer than
      its header says. */
  lemma OneBlockWithId(b: Build)
    requires |b.app| == ALIGNMENT && b.appId.Some?
    ensures |b.PatchedApp()| == 144 && Be32(b.PatchedApp(), IMAGE_SIZE) == 128
  {
    hide Be32, Checksum;
    RecordedSizes(b.boot, b.app, b.gpe0, b.gpe1, b.bootVersion, b.appVersion, b.bootId, b.appId);
  }

  /** The combined file, placed where the boot loader's header says it starts, is laid out
      the way the loader walks it. */
  lemma CombinedFileIsLaidOut(m: Bytes, b: Build)
    requires |m| == TWO_32 && b.Fits() && Holds(m, b.Base(), b.Combined())
    ensures b.Patched().Consistent() && LaidOut(m, b.Patched())
  {
    hide Holds, Be32, BootDone, AppDone, Images.Consistent;
    HeadersAgreeExactly(b);
    SplitHolds(m, b.Base(), b.PatchedBoot() + b.PatchedApp() + b.gpe0, b.gpe1);
    SplitHolds(m, b.Base(), b.PatchedBoot() + b.PatchedApp(), b.gpe0);
    SplitHolds(m, b.Base(), b.PatchedBoot(), b.PatchedApp());
  }

  lemma FieldKept(before: Bytes, after: Bytes, off: nat)
    requires off + FIELD_LEN <= |before| == |after|
    requires forall i :: off <= i < off + FIELD_LEN ==> after[i] == before[i]
    ensures Be32(after, off) == Be32(before, off)
  {
  }

  /** For all four images: the loader's verdict on what the tool writes is the jump to the
      entry point exactly when the images fit their windows. */
  lemma BuiltImageBoots(b: Build)
    requires b.Fits()
    ensures Verdict(b.PatchedApp(), b.gpe0, b.gpe1).Jumped? <==> FitsWindows(b.app, b.gpe0, b.gpe1)
    ensures Verdict(b.PatchedApp(), b.gpe0, b.gpe1).Jumped? ==>
              Verdict(b.PatchedApp(), b.gpe0, b.gpe1) == Jumped(Big(b.app, 108))
  {
    hide Checksum, RelBranch, AbsBranch, Check405, CheckGpe, Be32, Big, AppDone, BootDone;
    BigIs(b.app, 76);
    BigIs(b.app, 108);
    var app, app' := b.app, b.PatchedApp();
    AppIsPatched(app, b.gpe0, b.gpe1, b.appVersion, b.appId);
    assert Be32(app', START_ADDR) == Be32(app, START_ADDR) by { FieldKept(app, app', START_ADDR); }
    assert Be32(app', EP_ADDR) == Be32(app, EP_ADDR) by { FieldKept(app, app', EP_ADDR); }
    Check405IsExact(Be32(app, START_ADDR), |app|);
    CheckGpeIsExactUntilWrap(SRAM_START_GPE0, SRAM_END_GPE0, |b.gpe0|);
    CheckGpeIsExactUntilWrap(SRAM_START_GPE1, SRAM_END_GPE1, |b.gpe1|);
    assert ChecksumStage(app', b.gpe0, b.gpe1) == Passed;
  }

  /** The words of the two tested stretches of SRAM. */
  predicate IsTested(a: Word32) {
    (0xFFF0_1000 <= a <= 0xFFF1_FFFF || 0xFFF4_0000 <= a <= 0xFFFB_FFFF) && a % 4 == 0
  }

  ghost predicate SramKeepsPattern(readback: Readback) {
    forall a: Word32 :: IsTested(a) ==> readback(a, 0xA5A5_A5A5) == 0xA5A5_A5A5
  }

  /** The lowest of them that does not keep the pattern. */
  ghost predicate LowestBad(readback: Readback, bad: Word32) {
    && IsTested(bad) && readback(bad, 0xA5A5_A5A5) != 0xA5A5_A5A5
    && forall a: Word32 :: IsTested(a) && a < bad ==> readback(a, 0xA5A5_A5A5) == 0xA5A5_A5A5
  }

  lemma GoodSram(readback: Readback)
    ensures SramGood(readback) <==> SramKeepsPattern(readback)
    ensures forall bad: Word32 :: FirstBadOfBoth(readback, bad) ==> LowestBad(readback, bad)
  {
    assert forall a: Word32 :: KeepsPattern(readback, a) <==> readback(a, 0xA5A5_A5A5) == 0xA5A5_A5A5;
  }

  /** The images in SRAM: the 405 image where its header says, the GPE images in their windows. */
  predicate Loaded(m: Bytes, app: Bytes, gpe0: Bytes, gpe1: Bytes)
    requires |app| >= 128
  {
    Holds(m, Big(app, 76), app) && Holds(m, 0xFFF0_1000, gpe0) && Holds(m, 0xFFF1_0000, gpe1)
  }

  lemma LoadedInWindows(m: Bytes, app: Bytes, gpe0: Bytes, gpe1: Bytes)
    requires |app| >= 128
    ensures InWindows(m, app, gpe0, gpe1) <==> Loaded(m, app, gpe0, gpe1)
  {
    hide Holds, Be32, Big;
    BigIs(app, 76);
  }

  /** The outcome for a build: a jump to the address in bytes 108 to 111 of the 405 file, exactly when
      SRAM is good and the images fit their windows, and then with all three images in place; bad SRAM
      halts at the first checkpoint with the address of the lowest bad word. */
  ghost predicate BootsExactly(b: Build, readback: Readback, o: Outcome, m: Bytes)
    requires b.Fits()
  {
    && (o.Jumped? <==> SramKeepsPattern(readback) && FitsWindows(b.app, b.gpe0, b.gpe1))
    && (o.Jumped? ==> o.entry == Big(b.app, 108) && |b.PatchedApp()| == |b.app|
                      && Loaded(m, b.PatchedApp(), b.gpe0, b.gpe1))
    && (!SramKeepsPattern(readback) ==> o.Halted? && o.checkpoint == 1 && LowestBad(readback, o.code))
  }

  /** The boot loader running on what the tool wrote. */
  method BootBuiltImage(machine: Machine, readback: Readback, b: Build) returns (o: Outcome)
    requires machine.Valid() && b.Fits() && Holds(machine.mem[..], b.Base(), b.Combined())
    modifies machine, machine.mem
    ensures BootsExactly(b, readback, o, machine.mem[..])
  {
    hide BootDone, AppDone, Verdict, LaidOut, InWindows, Loaded, SramGood, SramKeepsPattern, LowestBad, Holds,
         FitsWindows, Be32, Big, BootFrom, Tested, FirstBadOfBoth, Build.Combined;
    ghost var m := machine.mem[..];
    CombinedFileIsLaidOut(m, b);
    TestKeepsImages(m, b.Patched());
    BootsByVerdict(Tested(m), b.Patched());
    BuiltImageBoots(b);
    GoodSram(readback);
    o := machine.BootMain(b.Base(), readback);
    LoadedInWindows(machine.mem[..], b.PatchedApp(), b.gpe0, b.gpe1);
  }

  /** Puts a file into main memory, as is done before the boot loader starts. */
  method PlaceInMemory(machine: Machine, address: Word32, data: Bytes)
    requires machine.Valid() && address + |data| <= TWO_32
    modifies machine.mem
    ensures Holds(machine.mem[..], address, data)
  {
    var i := 0;
    while i < |data|
      invariant 0 <= i <= |data|
      invariant forall j :: 0 <= j < i ==> machine.mem[address + j] == data[j]
    {
      machine.mem[address + i] := data[i];
      i := i + 1;
    }
    assert machine.mem[..][address..address + |data|] == data;
  }

  /** From the four files to the jump: the tool builds into an empty target, the target is put
      into memory, and the boot loader runs. The tool refuses exactly the unaligned inputs, and
      then nothing is changed. */
  method BuildAndBoot(boot: ImageFile, app: ImageFile, gpe0: ImageFile, gpe1: ImageFile, target: ImageFile,
                      bootVersion: Version, appVersion: Version, bootId: Option<IdString>, appId: Option<IdString>,
                      machine: Machine, readback: Readback)
      returns (o: Option<Outcome>)
    requires {boot} !! {app} !! {gpe0} !! {gpe1} !! {target} && target.data == [] && machine.Valid()
    requires Build(boot.data, app.data, gpe0.data, gpe1.data, bootVersion, appVersion, bootId, appId).Fits()
    modifies boot, app, gpe0`pos, gpe1`pos, target, machine, machine.mem
    ensures o.Some? <==> |old(boot.data)| % 128 == 0 && |old(app.data)| % 128 == 0
                         && |gpe0.data| % 128 == 0 && |gpe1.data| % 128 == 0
    ensures o.None? ==> boot.data == old(boot.data) && app.data == old(app.data) && target.data == []
                        && machine.mem[..] == old(machine.mem[..])
    ensures var b := Build(old(boot.data), old(app.data), gpe0.data, gpe1.data, bootVersion, appVersion, bootId, appId);
            o.Some? ==> target.data == b.Combined() && BootsExactly(b, readback, o.value, machine.mem[..])
  {
    hide BootDone, AppDone, BootPatched, AppPatched, SramKeepsPattern, FitsWindows, Be32, Big, Holds, Loaded,
         BootsExactly;
    var b := Build(boot.data, app.data, gpe0.data, gpe1.data, bootVersion, appVersion, bootId, appId);
    var ok := BuildImage(boot, app, gpe0, gpe1, target, bootVersion, appVersion, bootId, appId);
    if !ok {
      return None;
    }
    assert target.data == b.Combined();
    PlaceInMemory(machine, b.Base(), target.data);
    var outcome := BootBuiltImage(machine, readback, b);
    return Some(outcome);
  }

  // ---------- What the built files hold ----------

  lemma {:induction false} SumOfAll(f: Bytes, n: nat)
    requires n <= |f|
    ensures SumTo(f, n, true) == Sum(f[..n])
  {
    if n > 0 {
      SumOfAll(f, n - 1);
      assert f[..n][..n - 1] == f[..n - 1];
    }
  }

  lemma {:induction false} SumUpTo(f: Bytes, n: nat)
    requires n <= |f| && n <= 112
    ensures SumTo(f, n, false) == Sum(f[..n])
  {
    if n > 0 {
      SumUpTo(f, n - 1);
      assert f[..n][..n - 1] == f[..n - 1];
    }
  }

  lemma {:induction false} SumBeyond(f: Bytes, n: nat)
    requires 124 <= n <= |f|
    ensures SumTo(f, n, false) == Sum(f[..112]) + Sum(f[124..n])
  {
    if n == 124 {
      SumUpTo(f, 112);
      SumOverField(f, 112);
      SumOverField(f, 116);
      SumOverField(f, 120);
    } else {
      SumBeyond(f, n - 1);
      assert f[124..n][..n - 1 - 124] == f[124..n - 1];
    }
  }

  /** What an image's checksum is: the sum of all bytes of a GPE image, and of all bytes of another
      but the twelve from 112 on, in 32 bits. */
  lemma ChecksumIs(f: Bytes)
    ensures Checksum(f, true) == Sum(f) % 0x1_0000_0000
    ensures |f| >= 124 ==> Checksum(f, false) == (Sum(f[..112]) + Sum(f[124..])) % 0x1_0000_0000
  {
    SumOfAll(f, |f|);
    assert f[..|f|] == f;
    if |f| >= 124 {
      SumBeyond(f, |f|);
      assert f[124..|f|] == f[124..];
    }
  }

  function SumOutside(f: Bytes): int
    requires |f| >= 124
  {
    (Sum(f[..112]) + Sum(f[124..])) % 0x1_0000_0000
  }

  /** The whole boot sequence on images in a row in main memory, in numbers: the first check that
      fails halts it with its checkpoint, 2 to 7, and the address or sum found. */
  lemma OutcomeExactly(m: Bytes, i: Images)
    requires i.Consistent() && i.GpesBelowTop() && LaidOut(m, i)
    ensures var start, sum0, sum1 := Big(i.app, 76), Sum(i.gpe0) % 0x1_0000_0000, Sum(i.gpe1) % 0x1_0000_0000;
            BootFrom(m, i.base).0
            == if start < 0xFFF4_0000 || start + |i.app| > 0xFFFC_0000 then Halted(2, Reported(start, |i.app|))
               else if |i.gpe0| > 0xF000 then Halted(3, 0xFFF0_0FFF + |i.gpe0|)
               else if |i.gpe1| > 0x1_0000 then Halted(4, 0xFFF0_FFFF + |i.gpe1|)
               else if SumOutside(i.app) != Big(i.app, 112) then Halted(5, SumOutside(i.app))
               else if sum0 != Big(i.app, 116) then Halted(6, sum0)
               else if sum1 != Big(i.app, 120) then Halted(7, sum1)
               else Jumped(Big(i.app, 108))
  {
    hide BootFrom, LaidOut, InWindows, Checksum, Sum, Be32, Big;
    BootsByVerdict(m, i);
    BigIs(i.app, 76);
    BigIs(i.app, 108);
    BigIs(i.app, 112);
    BigIs(i.app, 116);
    BigIs(i.app, 120);
    ChecksumIs(i.app);
    ChecksumIs(i.gpe0);
    ChecksumIs(i.gpe1);
    Check405IsExact(Big(i.app, 76), |i.app|);
  }

  /** A built boot loader, byte by byte: at 72 its length, at 64 a relative branch from there
      to the entry point in bytes 108 to 111, at 124 the version, at 128 the id, at 112 the checksum. */
  lemma BuiltBootHeader(b: Build)
    requires HasHeader(b.boot, b.bootId)
    ensures var f, distance := b.PatchedBoot(), (Big(b.boot, 108) - 0x40) % 0x1_0000_0000;
            && |f| == |b.boot| && Big(f, 72) == |f| % 0x1_0000_0000 && f[124..128] == b.bootVersion
            && Big(f, 64) == 0x4800_0000 + distance % 0x400_0000 - distance % 4
            && Big(f, 112) == (Sum(f[..112]) + Sum(f[124..])) % 0x1_0000_0000
            && (b.bootId.Some? ==> f[128..144] == b.bootId.value)
  {
    hide Checksum, Be32, Big, BootDone, Sum;
    var f := b.PatchedBoot();
    BootIsPatched(b.boot, b.bootVersion, b.bootId);
    BigIs(f, 64);
    BigIs(f, 72);
    BigIs(f, 112);
    BigIs(b.boot, 108);
    ChecksumIs(f);
  }

  /** A built 405 image likewise, with an absolute branch, and at 100 and 104 the lengths and at 116 and
      120 the checksums of the GPE images. */
  lemma BuiltAppHeader(b: Build)
    requires HasHeader(b.app, b.appId)
    ensures var f, entry := b.PatchedApp(), Big(b.app, 108);
            && |f| == |b.app| && Big(f, 72) == |f| % 0x1_0000_0000 && f[124..128] == b.appVersion
            && Big(f, 64) == 0x4800_0002 + entry % 0x400_0000 - entry % 4
            && Big(f, 100) == |b.gpe0| % 0x1_0000_0000 && Big(f, 104) == |b.gpe1| % 0x1_0000_0000
            && Big(f, 112) == (Sum(f[..112]) + Sum(f[124..])) % 0x1_0000_0000
            && Big(f, 116) == Sum(b.gpe0) % 0x1_0000_0000 && Big(f, 120) == Sum(b.gpe1) % 0x1_0000_0000
            && (b.appId.Some? ==> f[128..144] == b.appId.value)
  {
    hide Checksum, Be32, Big, AppDone, Sum;
    var f := b.PatchedApp();
    AppIsPatched(b.app, b.gpe0, b.gpe1, b.appVersion, b.appId);
    BigIs(f, 64);
    BigIs(f, 72);
    BigIs(f, 100);
    BigIs(f, 104);
    BigIs(f, 112);
    BigIs(f, 116);
    BigIs(f, 120);
    BigIs(b.app, 108);
    ChecksumIs(f);
    ChecksumIs(b.gpe0);
    ChecksumIs(b.gpe1);
  }
}
