/** The image header tool (imageHdrScript.c): it patches the boot loader and 405 images
    in place and appends the four images to the target file. */
module ImageTool {
  import opened MachineWords
  import opened ImageFormat
  import opened Wrappers

  const EOF: int := -1
  const ALIGNMENT: nat := 128

  // ---------- Branch instructions ----------

  const BRANCH_FIELD: int := 0x0400_0000
  const ABS_BRANCH_MASK: int := 0x4800_0002
  const REL_BRANCH_MASK: int := 0x4800_0000
  const BRANCH_INSTR_OFFSET: int := 0x40

  /** A word masked with 0x03FFFFFC. */
  function AddressBits(x: Word32): Word32 {
    x % BRANCH_FIELD - x % 4
  }

  /** The opcode bits lie outside the address bits, so or-ing them in is adding them. */
  function AbsBranch(entry: Word32): Word32 {
    AddressBits(entry) + ABS_BRANCH_MASK
  }

  function RelBranch(entry: Word32): Word32 {
    AddressBits((entry - BRANCH_INSTR_OFFSET) % TWO_32) + REL_BRANCH_MASK
  }

  /** The 26-bit field sign-extended to a word. */
  function Displacement(field: Word32): Word32
    requires field < BRANCH_FIELD
  {
    if field >= BRANCH_FIELD / 2 then field + (TWO_32 - BRANCH_FIELD) else field
  }

  /** Where the processor goes: the displacement as an address, or relative to the
      instruction, as the absolute-address bit says. */
  function BranchTarget(inst: Word32, at: Word32): Word32 {
    var displacement := Displacement(AddressBits(inst));
    if inst % 4 >= 2 then displacement else Add32(at, displacement)
  }

  /** Word-aligned, and in the lowest or highest 32 MB of the (signed) number range. */
  predicate InBranchRange(distance: Word32) {
    distance % 4 == 0 && (distance < BRANCH_FIELD / 2 || distance >= TWO_32 - BRANCH_FIELD / 2)
  }

  lemma DisplacementIsExact(d: Word32)
    ensures Displacement(AddressBits(d)) == d <==> InBranchRange(d)
  {
    var q := d / BRANCH_FIELD;
    assert d == q * BRANCH_FIELD + d % BRANCH_FIELD;
  }

  lemma FieldSurvives(field: Word32)
    requires field % 4 == 0 && field < BRANCH_FIELD
    ensures AddressBits(field + ABS_BRANCH_MASK) == field && (field + ABS_BRANCH_MASK) % 4 == 2
    ensures AddressBits(field + REL_BRANCH_MASK) == field && (field + REL_BRANCH_MASK) % 4 == 0
  {
  }

  lemma AddressBitsAreAligned(x: Word32)
    ensures AddressBits(x) % 4 == 0 && AddressBits(x) < BRANCH_FIELD
  {
  }

  /** The 405 branch reaches its entry point exactly when that is in branch range. */
  lemma AbsBranchReachesEntry(entry: Word32, at: Word32)
    ensures BranchTarget(AbsBranch(entry), at) == entry <==> InBranchRange(entry)
  {
    AddressBitsAreAligned(entry);
    FieldSurvives(AddressBits(entry));
    DisplacementIsExact(entry);
  }

  /** The boot loader branch, executed in its place, reaches its entry point exactly when the
      distance is in branch range and the loader starts as far into its 64 MB as the entry
      point is into its word; for word addresses, when it starts at a multiple of 64 MB. */
  lemma RelBranchReachesEntry(entry: Word32, start: Word32)
    ensures BranchTarget(RelBranch(entry), Add32(start, BRANCH_INSTR_OFFSET)) == entry <==>
              start % BRANCH_FIELD == entry % 4 && InBranchRange((entry - start - BRANCH_INSTR_OFFSET) % TWO_32)
  {
    hide AddressBits, Displacement, InBranchRange, Add32;
    var full, distance := (entry - BRANCH_INSTR_OFFSET) % TWO_32, (entry - start - BRANCH_INSTR_OFFSET) % TWO_32;
    AddressBitsAreAligned(full);
    FieldSurvives(AddressBits(full));
    AddBack(entry, Add32(start, BRANCH_INSTR_OFFSET), Displacement(AddressBits(full)));
    WrappedDifference(entry - BRANCH_INSTR_OFFSET, start);
    WrappedPlace(entry, start);
    SameLastBits(entry);
    DisplacementExactly(full, start, distance);
  }

  lemma WrappedPlace(entry: Word32, start: Word32)
    ensures (entry - Add32(start, BRANCH_INSTR_OFFSET)) % TWO_32 == (entry - start - BRANCH_INSTR_OFFSET) % TWO_32
  {
    var x := entry - start - BRANCH_INSTR_OFFSET;
    if start + BRANCH_INSTR_OFFSET >= TWO_32 {
      Quotient(start + BRANCH_INSTR_OFFSET, TWO_32, 1, start + BRANCH_INSTR_OFFSET - TWO_32);
      Quotient(x + TWO_32, TWO_32, x / TWO_32 + 1, x % TWO_32);
    }
  }

  lemma SameLastBits(entry: Word32)
    ensures (entry - BRANCH_INSTR_OFFSET) % TWO_32 % 4 == entry % 4
  {
    if entry < BRANCH_INSTR_OFFSET {
      Quotient(entry - BRANCH_INSTR_OFFSET, TWO_32, -1, entry - BRANCH_INSTR_OFFSET + TWO_32);
    }
  }

  /** The field keeps the low 26 bits of the full address without the last two, so it stands
      for the distance only if the start accounts for the rest. */
  lemma DisplacementExactly(full: Word32, start: Word32, distance: Word32)
    requires full - distance in {start, start - TWO_32}
    ensures Displacement(AddressBits(full)) == distance <==> start % BRANCH_FIELD == full % 4 && InBranchRange(distance)
  {
    var q := (start - (full - distance)) / TWO_32 * 64;
    assert distance == full - start + q * BRANCH_FIELD;
    if start % BRANCH_FIELD == full % 4 {
      FieldOfDistance(full, start, distance, q);
      DisplacementIsExact(distance);
    } else if Displacement(AddressBits(full)) == distance {
      StartFromField(full, start, distance, q);
    }
  }

  lemma FieldOfDistance(full: Word32, start: Word32, distance: Word32, q: int)
    requires distance == full - start + q * BRANCH_FIELD && start % BRANCH_FIELD == full % 4
    ensures AddressBits(distance) == AddressBits(full)
  {
    var k := full / BRANCH_FIELD - start / BRANCH_FIELD + q;
    assert full == full / BRANCH_FIELD * BRANCH_FIELD + full % BRANCH_FIELD;
    assert start == start / BRANCH_FIELD * BRANCH_FIELD + start % BRANCH_FIELD;
    Quotient(distance, BRANCH_FIELD, k, full % BRANCH_FIELD - full % 4);
  }

  lemma StartFromField(full: Word32, start: Word32, distance: Word32, q: int)
    requires distance == full - start + q * BRANCH_FIELD && Displacement(AddressBits(full)) == distance
    ensures start % BRANCH_FIELD == full % 4
  {
    var k := full / BRANCH_FIELD - (if AddressBits(full) >= BRANCH_FIELD / 2 then 63 else 0) + q;
    assert full == full / BRANCH_FIELD * BRANCH_FIELD + full % BRANCH_FIELD;
    Quotient(start, BRANCH_FIELD, k, full % 4);
  }

  lemma WrappedDifference(x: int, start: Word32)
    requires -TWO_32 <= x < TWO_32
    ensures x % TWO_32 - (x - start) % TWO_32 in {start, start - TWO_32}
  {
  }

  lemma AddBack(entry: Word32, at: Word32, d: Word32)
    ensures Add32(at, d) == entry <==> d == (entry - at) % TWO_32
  {
  }

  // ---------- Files ----------

  class ImageFile {
    var data: Bytes
    var pos: nat

    constructor (contents: Bytes)
      ensures data == contents && pos == 0
    {
      data, pos := contents, 0;
    }

    method Seek(offset: nat)
      modifies this`pos
      ensures pos == offset
    {
      pos := offset;
    }

    /** Reads one byte, or EOF at the end of the file. */
    method Getc() returns (v: int)
      modifies this`pos
      ensures old(pos) < |data| ==> v == data[old(pos)] && pos == old(pos) + 1
      ensures old(pos) >= |data| ==> v == EOF && pos == old(pos)
    {
      if pos < |data| {
        v := data[pos];
        pos := pos + 1;
      } else {
        v := EOF;
      }
    }

    /** Writes at an offset, extending the file when the write goes past its end. */
    method Write(bytes: Bytes, offset: nat)
      modifies this
      ensures data == Put(old(data), offset, bytes)
    {
      pos := offset;
      data := Put(data, offset, bytes);
      pos := pos + |bytes|;
    }

    method Append(bytes: Bytes)
      modifies this
      ensures data == old(data) + bytes
    {
      data := data + bytes;
    }
  }

  // ---------- Checksum ----------

  predicate AtChecksumField(counter: nat) {
    counter in {CHECKSUM, GPE0_CHECKSUM, GPE1_CHECKSUM}
  }

  /** Streams a file from its start and returns the wide sum of what counts. */
  method CalImageChecksum(file: ImageFile, gpeFile: bool) returns (checksum: Word64)
    requires file.pos == 0
    modifies file`pos
    ensures checksum == SumTo(file.data, |file.data|, gpeFile) % TWO_64
  {
    checksum := 0;
    var counter := 0;
    while true
      invariant !gpeFile && InChecksumField(counter) ==> AtChecksumField(counter)
      invariant checksum == SumTo(file.data, counter, gpeFile) % TWO_64
      invariant if counter < |file.data| then file.pos == counter else file.pos >= |file.data|
      decreases (if |file.data| < GPE1_CHECKSUM + FIELD_LEN then GPE1_CHECKSUM + FIELD_LEN else |file.data|) - counter
    {
      if AtChecksumField(counter) && !gpeFile {
        SumOverField(file.data, counter);
        var end := counter + FIELD_LEN;
        while counter != end
          invariant end - FIELD_LEN <= counter <= end
          invariant if counter < |file.data| then file.pos == counter else file.pos >= |file.data|
          decreases end - counter
        {
          counter := counter + 1;
          var _ := file.Getc();
        }
        assert SumTo(file.data, counter, gpeFile) == SumTo(file.data, end - FIELD_LEN, gpeFile);
      } else {
        var val := file.Getc();
        if val == EOF {
          break;
        }
        AddModulo64(SumTo(file.data, counter, gpeFile), val);
        checksum := Add64(checksum, val);
        counter := counter + 1;
      }
    }
    SumPastEnd(file.data, counter, gpeFile);
  }

  /** Truncating the wide sum to 32 bits gives the image's checksum. */
  lemma NarrowSum(sum: nat)
    ensures (sum % TWO_64) % TWO_32 == Low32(sum)
  {
    var wide := sum % TWO_64;
    LowIs(sum, sum / TWO_64 * TWO_32 + wide / TWO_32, wide % TWO_32);
  }

  // ---------- Building ----------

  type Version = v: Bytes | |v| == FIELD_LEN witness [0, 0, 0, 0]
  type IdString = v: Bytes | |v| == IMAGE_ID_STR_SZ witness seq(16, _ => 0)

  /** An image file with room for every header field that will be written. */
  predicate HasHeader(image: Bytes, id: Option<IdString>) {
    |image| >= if id.Some? then IMAGE_ID_STR + IMAGE_ID_STR_SZ else VERSION + FIELD_LEN
  }

  predicate In(i: int, off: nat, len: nat) {
    off <= i < off + len
  }

  predicate BootField(i: int, id: Option<IdString>) {
    In(i, IMAGE_SIZE, 4) || In(i, EP_BRANCH_INST, 4) || In(i, VERSION, 4) || (id.Some? && In(i, IMAGE_ID_STR, 16))
  }

  predicate AppField(i: int, id: Option<IdString>) {
    BootField(i, id) || In(i, GPE0_SIZE, 8)
  }

  /** A patched boot loader image: the length, the branch to its entry point, the version,
      the id and the checksum are in place and every other byte is as it was. */
  predicate BootPatched(before: Bytes, after: Bytes, version: Version, id: Option<IdString>)
    requires HasHeader(before, id)
  {
    && |after| == |before|
    && Be32(after, IMAGE_SIZE) == Low32(|before|)
    && Be32(after, EP_BRANCH_INST) == RelBranch(Be32(before, EP_ADDR))
    && after[VERSION..VERSION + FIELD_LEN] == version
    && (id.Some? ==> after[IMAGE_ID_STR..IMAGE_ID_STR + IMAGE_ID_STR_SZ] == id.value)
    && Be32(after, CHECKSUM) == Checksum(after, false)
    && (forall i :: 0 <= i < |before| && !BootField(i, id) && !In(i, CHECKSUM, 4) ==> after[i] == before[i])
  }

  /** A patched 405 image, which also records the sizes and checksums of the GPE images. */
  predicate AppPatched(before: Bytes, after: Bytes, gpe0: Bytes, gpe1: Bytes, version: Version, id: Option<IdString>)
    requires HasHeader(before, id)
  {
    && |after| == |before|
    && Be32(after, IMAGE_SIZE) == Low32(|before|)
    && Be32(after, GPE0_SIZE) == Low32(|gpe0|)
    && Be32(after, GPE1_SIZE) == Low32(|gpe1|)
    && Be32(after, EP_BRANCH_INST) == AbsBranch(Be32(before, EP_ADDR))
    && after[VERSION..VERSION + FIELD_LEN] == version
    && (id.Some? ==> after[IMAGE_ID_STR..IMAGE_ID_STR + IMAGE_ID_STR_SZ] == id.value)
    && Be32(after, CHECKSUM) == Checksum(after, false)
    && Be32(after, GPE0_CHECKSUM) == Checksum(gpe0, true)
    && Be32(after, GPE1_CHECKSUM) == Checksum(gpe1, true)
    && (forall i :: 0 <= i < |before| && !AppField(i, id) && !InChecksumField(i) ==> after[i] == before[i])
  }

  /** The 405 file after the fields that its checksum covers are written. */
  function AppFields(app: Bytes, gpe0: Bytes, gpe1: Bytes, version: Version, id: Option<IdString>): (p: Bytes)
    ensures |p| >= VERSION + FIELD_LEN
    ensures |p| == |app| <==> HasHeader(app, id)
  {
    var sizes := Put(Put(Put(app, IMAGE_SIZE, ToBytes(Low32(|app|))), GPE0_SIZE, ToBytes(Low32(|gpe0|))),
                     GPE1_SIZE, ToBytes(Low32(|gpe1|)));
    WithBranch(WithNames(sizes, version, id), false)
  }

  function BootFields(boot: Bytes, version: Version, id: Option<IdString>): (p: Bytes)
    ensures |p| >= VERSION + FIELD_LEN
    ensures |p| == |boot| <==> HasHeader(boot, id)
  {
    WithBranch(WithNames(Put(boot, IMAGE_SIZE, ToBytes(Low32(|boot|))), version, id), true)
  }

  function WithNames(image: Bytes, version: Version, id: Option<IdString>): (p: Bytes)
    ensures |p| >= VERSION + FIELD_LEN
  {
    var versioned := Put(image, VERSION, version);
    if id.Some? then Put(versioned, IMAGE_ID_STR, id.value) else versioned
  }

  function WithBranch(image: Bytes, relative: bool): (p: Bytes)
    requires |image| >= VERSION + FIELD_LEN
    ensures |p| == |image|
  {
    var entry := Be32(image, EP_ADDR);
    Put(image, EP_BRANCH_INST, ToBytes(if relative then RelBranch(entry) else AbsBranch(entry)))
  }

  /** Patches the two headers and appends the four images to the target. An image whose
      length is not a multiple of 128 is refused before anything is written. */
  method BuildImage(boot: ImageFile, app: ImageFile, gpe0: ImageFile, gpe1: ImageFile, target: ImageFile,
                    bootVersion: Version, appVersion: Version, bootId: Option<IdString>, appId: Option<IdString>)
      returns (ok: bool)
    requires {boot} !! {app} !! {gpe0} !! {gpe1} !! {target}
    modifies boot, app, gpe0`pos, gpe1`pos, target
    ensures ok <==> |old(boot.data)| % ALIGNMENT == 0 && |old(app.data)| % ALIGNMENT == 0
                    && |gpe0.data| % ALIGNMENT == 0 && |gpe1.data| % ALIGNMENT == 0
    ensures !ok ==> boot.data == old(boot.data) && app.data == old(app.data) && target.data == old(target.data)
    ensures ok && HasHeader(old(boot.data), bootId) ==> BootPatched(old(boot.data), boot.data, bootVersion, bootId)
    ensures ok && HasHeader(old(app.data), appId) ==>
              AppPatched(old(app.data), app.data, gpe0.data, gpe1.data, appVersion, appId)
    ensures ok ==> (|boot.data| == |old(boot.data)| <==> HasHeader(old(boot.data), bootId))
    ensures ok ==> (|app.data| == |old(app.data)| <==> HasHeader(old(app.data), appId))
    ensures ok ==> boot.data == BootDone(old(boot.data), bootVersion, bootId)
    ensures ok ==> app.data == AppDone(old(app.data), gpe0.data, gpe1.data, appVersion, appId)
    ensures ok ==> target.data == old(target.data) + boot.data + app.data + gpe0.data + gpe1.data
  {
    hide BootPatched, AppPatched, BootDone, AppDone, Low32;
    var bootSize, appSize := Low32(|boot.data|), Low32(|app.data|);
    var gpe0Size, gpe1Size := Low32(|gpe0.data|), Low32(|gpe1.data|);
    LowKeepsAlignment(|boot.data|);
    LowKeepsAlignment(|app.data|);
    LowKeepsAlignment(|gpe0.data|);
    LowKeepsAlignment(|gpe1.data|);
    if appSize % ALIGNMENT != 0 || gpe0Size % ALIGNMENT != 0 || gpe1Size % ALIGNMENT != 0 || bootSize % ALIGNMENT != 0 {
      return false;
    }
    PatchBoot(boot, bootVersion, bootId);
    PatchApp(app, gpe0, gpe1, appVersion, appId);
    if HasHeader(old(boot.data), bootId) {
      BootIsPatched(old(boot.data), bootVersion, bootId);
    }
    if HasHeader(old(app.data), appId) {
      AppIsPatched(old(app.data), gpe0.data, gpe1.data, appVersion, appId);
    }
    target.Append(boot.data);
    target.Append(app.data);
    target.Append(gpe0.data);
    target.Append(gpe1.data);
    return true;
  }

  /** The writes to the boot loader file. */
  method PatchBoot(boot: ImageFile, version: Version, id: Option<IdString>)
    modifies boot
    ensures boot.data == BootDone(old(boot.data), version, id)
  {
    boot.Write(ToBytes(Low32(|boot.data|)), IMAGE_SIZE);
    boot.Write(version, VERSION);
    if id.Some? {
      boot.Write(id.value, IMAGE_ID_STR);
    }
    boot.Write(ToBytes(RelBranch(Be32(boot.data, EP_ADDR))), EP_BRANCH_INST);
    boot.Seek(0);
    var checksum := CalImageChecksum(boot, false);
    NarrowSum(SumTo(boot.data, |boot.data|, false));
    boot.Write(ToBytes(checksum % TWO_32), CHECKSUM);
  }

  function BootDone(boot: Bytes, version: Version, id: Option<IdString>): (p: Bytes)
    ensures |p| == |boot| <==> HasHeader(boot, id)
  {
    var f := BootFields(boot, version, id);
    Put(f, CHECKSUM, ToBytes(Checksum(f, false)))
  }

  /** The writes to the 405 file. */
  method PatchApp(app: ImageFile, gpe0: ImageFile, gpe1: ImageFile, version: Version, id: Option<IdString>)
    requires app != gpe0 && app != gpe1
    modifies app, gpe0`pos, gpe1`pos
    ensures app.data == AppDone(old(app.data), gpe0.data, gpe1.data, version, id)
  {
    app.Write(ToBytes(Low32(|app.data|)), IMAGE_SIZE);
    app.Write(ToBytes(Low32(|gpe0.data|)), GPE0_SIZE);
    app.Write(ToBytes(Low32(|gpe1.data|)), GPE1_SIZE);
    app.Write(version, VERSION);
    if id.Some? {
      app.Write(id.value, IMAGE_ID_STR);
    }
    app.Write(ToBytes(AbsBranch(Be32(app.data, EP_ADDR))), EP_BRANCH_INST);
    app.Seek(0);
    var checksum := CalImageChecksum(app, false);
    NarrowSum(SumTo(app.data, |app.data|, false));
    app.Write(ToBytes(checksum % TWO_32), CHECKSUM);
    gpe0.Seek(0);
    checksum := CalImageChecksum(gpe0, true);
    NarrowSum(SumTo(gpe0.data, |gpe0.data|, true));
    app.Write(ToBytes(checksum % TWO_32), GPE0_CHECKSUM);
    gpe1.Seek(0);
    checksum := CalImageChecksum(gpe1, true);
    NarrowSum(SumTo(gpe1.data, |gpe1.data|, true));
    app.Write(ToBytes(checksum % TWO_32), GPE1_CHECKSUM);
  }

  function AppDone(app: Bytes, gpe0: Bytes, gpe1: Bytes, version: Version, id: Option<IdString>): (p: Bytes)
    ensures |p| == |app| <==> HasHeader(app, id)
  {
    var f := AppFields(app, gpe0, gpe1, version, id);
    Put(Put(Put(f, CHECKSUM, ToBytes(Checksum(f, false))), GPE0_CHECKSUM, ToBytes(Checksum(gpe0, true))),
        GPE1_CHECKSUM, ToBytes(Checksum(gpe1, true)))
  }

  lemma BootIsPatched(boot: Bytes, version: Version, id: Option<IdString>)
    requires HasHeader(boot, id)
    ensures BootPatched(boot, BootDone(boot, version, id), version, id)
  {
    hide Put, SumTo;
    var sized := Put(boot, IMAGE_SIZE, ToBytes(Low32(|boot|)));
    Put32Inside(boot, IMAGE_SIZE, Low32(|boot|));
    NamesAndBranch(sized, version, id, true);
    var f := BootFields(boot, version, id);
    Put32Inside(f, CHECKSUM, Checksum(f, false));
    ChecksumFieldsDoNotCount(f, BootDone(boot, version, id), |f|);
  }

  lemma AppIsPatched(app: Bytes, gpe0: Bytes, gpe1: Bytes, version: Version, id: Option<IdString>)
    requires HasHeader(app, id)
    ensures AppPatched(app, AppDone(app, gpe0, gpe1, version, id), gpe0, gpe1, version, id)
  {
    hide Put, SumTo;
    var a1 := Put(app, IMAGE_SIZE, ToBytes(Low32(|app|)));
    Put32Inside(app, IMAGE_SIZE, Low32(|app|));
    var a2 := Put(a1, GPE0_SIZE, ToBytes(Low32(|gpe0|)));
    Put32Inside(a1, GPE0_SIZE, Low32(|gpe0|));
    var a3 := Put(a2, GPE1_SIZE, ToBytes(Low32(|gpe1|)));
    Put32Inside(a2, GPE1_SIZE, Low32(|gpe1|));
    NamesAndBranch(a3, version, id, false);
    var f := AppFields(app, gpe0, gpe1, version, id);
    ThreeChecksums(f, Checksum(f, false), Checksum(gpe0, true), Checksum(gpe1, true));
    ChecksumFieldsDoNotCount(f, AppDone(app, gpe0, gpe1, version, id), |f|);
  }

  /** What WithNames and WithBranch write, and that they write nothing else. */
  lemma NamesAndBranch(image: Bytes, version: Version, id: Option<IdString>, relative: bool)
    requires HasHeader(image, id)
    ensures var p := WithBranch(WithNames(image, version, id), relative);
            var entry := Be32(image, EP_ADDR);
            && |p| == |image|
            && Be32(p, EP_BRANCH_INST) == (if relative then RelBranch(entry) else AbsBranch(entry))
            && p[VERSION..VERSION + FIELD_LEN] == version
            && (id.Some? ==> p[IMAGE_ID_STR..IMAGE_ID_STR + IMAGE_ID_STR_SZ] == id.value)
            && (forall i :: 0 <= i < |image| && !BootField(i, id) ==> p[i] == image[i])
            && Be32(p, IMAGE_SIZE) == Be32(image, IMAGE_SIZE)
  {
    PutInside(image, VERSION, version);
    hide Put;
    if id.Some? {
      PutInside(Put(image, VERSION, version), IMAGE_ID_STR, id.value);
    }
    var named := WithNames(image, version, id);
    var entry := Be32(named, EP_ADDR);
    Put32Inside(named, EP_BRANCH_INST, if relative then RelBranch(entry) else AbsBranch(entry));
  }

  lemma ThreeChecksums(f: Bytes, c: Word32, c0: Word32, c1: Word32)
    requires |f| >= VERSION
    ensures var p := Put(Put(Put(f, CHECKSUM, ToBytes(c)), GPE0_CHECKSUM, ToBytes(c0)), GPE1_CHECKSUM, ToBytes(c1));
            && SameOutsideChecksums(f, p)
            && Be32(p, CHECKSUM) == c && Be32(p, GPE0_CHECKSUM) == c0 && Be32(p, GPE1_CHECKSUM) == c1
  {
    var f1 := Put(f, CHECKSUM, ToBytes(c));
    Put32Inside(f, CHECKSUM, c);
    Put32Inside(f1, GPE0_CHECKSUM, c0);
    Put32Inside(Put(f1, GPE0_CHECKSUM, ToBytes(c0)), GPE1_CHECKSUM, c1);
  }

  /** The sizes recorded in the headers are those of the files before patching, for files of
      every length. */
  lemma RecordedSizes(boot: Bytes, app: Bytes, gpe0: Bytes, gpe1: Bytes, bootVersion: Version, appVersion: Version,
                      bootId: Option<IdString>, appId: Option<IdString>)
    ensures Be32(BootDone(boot, bootVersion, bootId), IMAGE_SIZE) == Low32(|boot|)
    ensures var app' := AppDone(app, gpe0, gpe1, appVersion, appId);
            && Be32(app', IMAGE_SIZE) == Low32(|app|)
            && Be32(app', GPE0_SIZE) == Low32(|gpe0|) && Be32(app', GPE1_SIZE) == Low32(|gpe1|)
  {
    hide Put, Be32, Low32, Checksum, BootDone, AppDone;
    PutThere(boot, IMAGE_SIZE, Low32(|boot|));
    BootKeepsSize(boot, bootVersion, bootId);
    var a1 := Put(app, IMAGE_SIZE, ToBytes(Low32(|app|)));
    PutThere(app, IMAGE_SIZE, Low32(|app|));
    var a2 := Put(a1, GPE0_SIZE, ToBytes(Low32(|gpe0|)));
    PutThere(a1, GPE0_SIZE, Low32(|gpe0|));
    PutKeeps(a1, GPE0_SIZE, ToBytes(Low32(|gpe0|)), IMAGE_SIZE);
    PutThere(a2, GPE1_SIZE, Low32(|gpe1|));
    PutKeeps(a2, GPE1_SIZE, ToBytes(Low32(|gpe1|)), IMAGE_SIZE);
    PutKeeps(a2, GPE1_SIZE, ToBytes(Low32(|gpe1|)), GPE0_SIZE);
    var a3 := Put(a2, GPE1_SIZE, ToBytes(Low32(|gpe1|)));
    AppKeepsField(app, gpe0, gpe1, a3, appVersion, appId, IMAGE_SIZE);
    AppKeepsField(app, gpe0, gpe1, a3, appVersion, appId, GPE0_SIZE);
    AppKeepsField(app, gpe0, gpe1, a3, appVersion, appId, GPE1_SIZE);
  }

  lemma BootKeepsSize(boot: Bytes, version: Version, id: Option<IdString>)
    ensures var sized := Put(boot, IMAGE_SIZE, ToBytes(Low32(|boot|)));
            && |sized| >= IMAGE_SIZE + FIELD_LEN
            && Be32(BootDone(boot, version, id), IMAGE_SIZE) == Be32(sized, IMAGE_SIZE)
  {
    var sized := Put(boot, IMAGE_SIZE, ToBytes(Low32(|boot|)));
    PutThere(boot, IMAGE_SIZE, Low32(|boot|));
    hide Put, Be32, Low32, Checksum, RelBranch;
    NamesKeepField(sized, version, id, true, IMAGE_SIZE);
    var f := BootFields(boot, version, id);
    PutKeeps(f, CHECKSUM, ToBytes(Checksum(f, false)), IMAGE_SIZE);
  }

  lemma AppKeepsField(app: Bytes, gpe0: Bytes, gpe1: Bytes, sizes: Bytes, version: Version, id: Option<IdString>,
                      field: nat)
    requires sizes == Put(Put(Put(app, IMAGE_SIZE, ToBytes(Low32(|app|))), GPE0_SIZE, ToBytes(Low32(|gpe0|))),
                          GPE1_SIZE, ToBytes(Low32(|gpe1|)))
    requires field in {IMAGE_SIZE, GPE0_SIZE, GPE1_SIZE} && field + FIELD_LEN <= |sizes|
    ensures Be32(AppDone(app, gpe0, gpe1, version, id), field) == Be32(sizes, field)
  {
    hide Put, Be32, Low32, Checksum, AbsBranch;
    NamesKeepField(sizes, version, id, false, field);
    var f := AppFields(app, gpe0, gpe1, version, id);
    var f1 := Put(f, CHECKSUM, ToBytes(Checksum(f, false)));
    PutKeeps(f, CHECKSUM, ToBytes(Checksum(f, false)), field);
    var f2 := Put(f1, GPE0_CHECKSUM, ToBytes(Checksum(gpe0, true)));
    PutKeeps(f1, GPE0_CHECKSUM, ToBytes(Checksum(gpe0, true)), field);
    PutKeeps(f2, GPE1_CHECKSUM, ToBytes(Checksum(gpe1, true)), field);
  }

  lemma NamesKeepField(image: Bytes, version: Version, id: Option<IdString>, relative: bool, field: nat)
    requires field in {IMAGE_SIZE, GPE0_SIZE, GPE1_SIZE} && field + FIELD_LEN <= |image|
    ensures Be32(WithBranch(WithNames(image, version, id), relative), field) == Be32(image, field)
  {
    hide Put, Be32, AbsBranch, RelBranch;
    var versioned := Put(image, VERSION, version);
    PutKeeps(image, VERSION, version, field);
    if id.Some? {
      PutKeeps(versioned, IMAGE_ID_STR, id.value, field);
    }
    var named := WithNames(image, version, id);
    var entry := Be32(named, EP_ADDR);
    PutKeeps(named, EP_BRANCH_INST, ToBytes(if relative then RelBranch(entry) else AbsBranch(entry)), field);
  }

  lemma LowKeepsAlignment(n: nat)
    ensures Low32(n) % ALIGNMENT == 0 <==> n % ALIGNMENT == 0
  {
    assert n == n / TWO_32 * TWO_32 + Low32(n);
  }
}
