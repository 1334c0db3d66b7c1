/** Applying an import plan: the whole file is rewritten around the new section. */
module Rebuild {
  import opened Bytes
  import opened Parse
  import opened Import
  import Checksum

  const SCN_CHARACTERISTICS := 0xC000_0040
  const DEBUG_ENTRY_SIZE := 28

  // ---- the steps, as functions of the buffer ----

  /** The old file with `delta` zero bytes inserted behind its headers. */
  function Inserted(image: Image, delta: nat): (r: seq<byte>)
    requires image.sizeOfHeaders <= |image.data|
    ensures |r| == |image.data| + delta
  {
    image.data[..image.sizeOfHeaders] + Zeros(delta) + image.data[image.sizeOfHeaders..]
  }

  ghost predicate HeadersInside(sections: seq<Section>, n: nat)
  {
    forall k :: 0 <= k < |sections| ==> sections[k].headerOffset + 40 <= n
  }

  function ShiftSections(out: seq<byte>, sections: seq<Section>, delta: u32): (r: seq<byte>)
    requires HeadersInside(sections, |out|)
    ensures |r| == |out|
  {
    if sections == [] then out
    else
      var prior := ShiftSections(out, sections[..|sections| - 1], delta);
      var s := sections[|sections| - 1];
      var at := s.headerOffset + 20;
      PutU32(prior, at, if s.sizeOfRawData == 0 then 0 else SatAdd(U32At(prior, at), delta))
  }

  function ShiftCoffSymbolTable(out: seq<byte>, at: nat, delta: u32): (r: seq<byte>)
    ensures |r| == |out|
  {
    if at + 4 > |out| || U32At(out, at) == 0 then out
    else PutU32(out, at, SatAdd(U32At(out, at), delta))
  }

  /** The first `count` debug entries from `base` on. */
  function ShiftDebugEntries(out: seq<byte>, base: nat, count: nat, delta: u32): (r: seq<byte>)
    ensures |r| == |out|
    decreases count
  {
    if count == 0 then out
    else
      var prior := ShiftDebugEntries(out, base, count - 1, delta);
      var at := base + (count - 1) * DEBUG_ENTRY_SIZE + 24;
      if at + 4 > |prior| || U32At(prior, at) == 0 then prior
      else PutU32(prior, at, SatAdd(U32At(prior, at), delta))
  }

  /** Where the debug directory lies in the old file, and how many entries it has. */
  function DebugDirectory(image: Image): Option<(nat, nat)>
  {
    match image.DataDir(DIR_DEBUG)
    case None => None
    case Some((rva, size)) =>
      if rva == 0 || size == 0 then None
      else match RvaToOffset(image, rva)
        case None => None
        case Some(base) => Some((base, size as int / DEBUG_ENTRY_SIZE))
  }

  function ShiftDebug(out: seq<byte>, image: Image, delta: u32): (r: seq<byte>)
    ensures |r| == |out|
  {
    match DebugDirectory(image)
    case None => out
    case Some((base, count)) =>
      if base + delta >= |out| then out
      else ShiftDebugEntries(out, base + delta, count, delta)
  }

  function ShiftCertificateTable(out: seq<byte>, at: nat, delta: u32): (r: seq<byte>)
    ensures |r| == |out|
  {
    if at + 8 > |out| || U32At(out, at) == 0 || U32At(out, at + 4) == 0 then out
    else PutU32(out, at, SatAdd(U32At(out, at), delta))
  }

  function RelocateOverlay(out: seq<byte>, at: nat, oldRawEnd: u32, overlayAt: u32): (r: seq<byte>)
    ensures |r| == |out|
  {
    if at + 8 > |out| || U32At(out, at) == 0 || U32At(out, at + 4) == 0 || U32At(out, at) < oldRawEnd then out
    else PutU32(out, at, Wrap32(overlayAt + (U32At(out, at) - oldRawEnd)))
  }

  function Delta(image: Image, plan: ImportPlan): u32 { SatSub(plan.newHeaders, image.sizeOfHeaders) }

  function OldRawEnd(image: Image, delta: u32): u32 { SatAdd(RawEnd(image), delta) }

  function NewRaw(image: Image, delta: u32): u32
  {
    AlignUp32(OldRawEnd(image, delta), image.fileAlignment)
  }

  /** All file offsets shifted, before anything is appended. */
  function Shifted(image: Image, delta: u32): (r: seq<byte>)
    requires image.sizeOfHeaders <= |image.data| && HeadersInside(image.sections, |image.data|)
    ensures |r| == |image.data| + delta
  {
    var o1 := ShiftSections(Inserted(image, delta), image.sections, delta);
    var o2 := ShiftCoffSymbolTable(o1, image.Coff() + 8, delta);
    var o3 := ShiftDebug(o2, image, delta);
    ShiftCertificateTable(o3, image.DataDirs() + 8 * DIR_SECURITY, delta)
  }

  /** Where the new section ends: a 32-bit sum. */
  function SectionEnd(image: Image, plan: ImportPlan, delta: u32): u32
  {
    Wrap32(NewRaw(image, delta) as int + plan.newSectionRawSize as int)
  }

  /** The buffer cut at the new section, and the section. */
  function WithSection(out: seq<byte>, image: Image, plan: ImportPlan, delta: u32): (r: seq<byte>)
    ensures |r| == SectionEnd(image, plan, delta)
  {
    Resized(Resized(out, NewRaw(image, delta)) + plan.blob, SectionEnd(image, plan, delta))
  }

  /** How much the code takes for the overlay. */
  function OverlayLength(image: Image, delta: u32): nat
  {
    SatSub(|image.data|, OldRawEnd(image, delta))
  }

  function WithOverlay(out: seq<byte>, image: Image, delta: u32): (r: seq<byte>)
    ensures |r| == |out| + OverlayLength(image, delta)
  {
    var end := OldRawEnd(image, delta);
    if end < |image.data| then
      RelocateOverlay(out + image.data[end..], image.DataDirs() + 8 * DIR_SECURITY, end, Wrap32(|out|))
    else out
  }

  /** The section header written for the new section. The two pointers are read from
      the slot and shifted, even when they are 0. */
  function SlotBytes(plan: ImportPlan, newRaw: u32, relocations: u32, lineNumbers: u32): (r: seq<byte>)
    ensures |r| == 40
  {
    HOOK_SECTION_NAME + LE32(plan.newSectionVsize) + LE32(plan.newSectionRva)
    + LE32(plan.newSectionRawSize) + LE32(newRaw) + LE32(relocations) + LE32(lineNumbers)
    + LE16(0) + LE16(0) + LE32(SCN_CHARACTERISTICS)
  }

  function WithSlot(out: seq<byte>, at: nat, plan: ImportPlan, newRaw: u32, delta: u32): (r: seq<byte>)
    requires at + 40 <= |out|
    ensures |r| == |out|
  {
    Put(out, at, SlotBytes(plan, newRaw, SatAdd(U32At(out, at + 24), delta), SatAdd(U32At(out, at + 28), delta)))
  }

  function HasBoundImport(image: Image): bool
  {
    image.DataDir(DIR_BOUND_IMPORT).Some? && image.DataDir(DIR_BOUND_IMPORT).value.1 != 0
  }

  /** The buffer is long enough for every header field that is written. */
  predicate FieldsInside(image: Image, n: nat)
  {
    && image.DataDirs() + 16 <= n
    && (HasBoundImport(image) ==> image.DataDirs() + 8 * DIR_BOUND_IMPORT + 8 <= n)
  }

  function NewCount(image: Image): u16 { (image.numberOfSections as int + 1) % 0x1_0000 }

  function TableSize(plan: ImportPlan): u32 { Wrap32(plan.descriptorCount as int * 20) }

  function WithSizes(out: seq<byte>, image: Image, plan: ImportPlan): (r: seq<byte>)
    requires FieldsInside(image, |out|)
    ensures |r| == |out|
  {
    var o1 := PutU16(out, image.Coff() + 2, NewCount(image));
    var o2 := PutU32(o1, image.Opt() + 60, plan.newHeaders);
    var o3 := PutU32(o2, image.Opt() + 56, plan.newImageSize);
    PutU32(o3, image.Opt() + 8, SatAdd(U32At(o3, image.Opt() + 8), plan.newSectionRawSize))
  }

  function WithDirectories(out: seq<byte>, image: Image, plan: ImportPlan): (r: seq<byte>)
    requires FieldsInside(image, |out|)
    ensures |r| == |out|
  {
    var at := image.DataDirs() + 8 * DIR_IMPORT;
    var o1 := PutU32(PutU32(out, at, plan.newSectionRva), at + 4, TableSize(plan));
    if HasBoundImport(image) then
      var bound := image.DataDirs() + 8 * DIR_BOUND_IMPORT;
      PutU32(PutU32(o1, bound, 0), bound + 4, 0)
    else o1
  }

  function WithChecksum(out: seq<byte>, at: nat): (r: seq<byte>)
    requires at + 4 <= |out|
    ensures |r| == |out|
  {
    var cleared := PutU32(out, at, 0);
    PutU32(cleared, at, if |out| < 0x40 then 0 else Checksum.Value(cleared, U32At(cleared, 0x3c) as int + 88))
  }

  function RebuiltSize(image: Image, plan: ImportPlan): nat
  {
    SectionEnd(image, plan, Delta(image, plan)) as int + OverlayLength(image, Delta(image, plan))
  }

  /** What the slices and fixed-width writes of `apply` demand up to its last check; it aborts
      otherwise. */
  ghost predicate SlotWritable(image: Image, plan: ImportPlan)
  {
    && image.sizeOfHeaders <= |image.data|
    && HeadersInside(image.sections, |image.data|)
    && SlotEnd(image) <= RebuiltSize(image, plan)
  }

  predicate LowAlignmentConflict(image: Image, plan: ImportPlan)
  {
    image.sectionAlignment < 0x1000 && NewRaw(image, Delta(image, plan)) != plan.newSectionRva
  }

  /** And behind it. */
  ghost predicate Rebuildable(image: Image, plan: ImportPlan)
  {
    SlotWritable(image, plan) && FieldsInside(image, RebuiltSize(image, plan))
  }

  /** Shifted offsets, new section, overlay. */
  function Body(image: Image, plan: ImportPlan): (r: seq<byte>)
    requires Rebuildable(image, plan)
    ensures |r| == RebuiltSize(image, plan)
  {
    var delta := Delta(image, plan);
    WithOverlay(WithSection(Shifted(image, delta), image, plan, delta), image, delta)
  }

  /** The body with its new section header. */
  function Slotted(image: Image, plan: ImportPlan): (r: seq<byte>)
    requires Rebuildable(image, plan)
    ensures |r| == |Body(image, plan)|
  {
    var delta := Delta(image, plan);
    WithSlot(Body(image, plan), image.SectionTableEnd(), plan, NewRaw(image, delta), delta)
  }

  /** The rewritten file. */
  function Rebuilt(image: Image, plan: ImportPlan): (r: seq<byte>)
    requires Rebuildable(image, plan)
    ensures |r| == |Body(image, plan)|
  {
    WithChecksum(WithDirectories(WithSizes(Slotted(image, plan), image, plan), image, plan), image.ChecksumOffset())
  }

  function ApplySpec(image: Image, plan: ImportPlan): Result<seq<byte>>
    requires image.machine == MACHINE_AMD64 && !image.HasHookSection() ==>
               SlotWritable(image, plan) && (LowAlignmentConflict(image, plan) || Rebuildable(image, plan))
  {
    if image.machine != MACHINE_AMD64 then Err(NotPe32Plus)
    else if image.HasHookSection() then Err(AlreadyImported(plan.dll))
    else if LowAlignmentConflict(image, plan) then Err(Malformed(LowAlignmentRebuild))
    else Ok(Rebuilt(image, plan))
  }

  // ---- the imperative rewriter ----

  method ShiftSectionsInPlace(out: ByteBuffer, sections: seq<Section>, delta: u32)
    requires HeadersInside(sections, |out.bytes|)
    modifies out
    ensures out.bytes == ShiftSections(old(out.bytes), sections, delta)
  {
    ghost var before := out.bytes;
    for k := 0 to |sections|
      invariant |out.bytes| == |before|
      invariant out.bytes == ShiftSections(before, sections[..k], delta)
    {
      var s := sections[k];
      var at := s.headerOffset + 20;
      assert sections[..k + 1][..k] == sections[..k];
      if s.sizeOfRawData == 0 {
        out.WriteU32(at, 0);
      } else {
        out.WriteU32(at, SatAdd(U32At(out.bytes, at), delta));
      }
    }
    assert sections[..|sections|] == sections;
  }

  method ShiftDebugEntriesInPlace(out: ByteBuffer, base: nat, count: nat, delta: u32)
    modifies out
    ensures out.bytes == ShiftDebugEntries(old(out.bytes), base, count, delta)
  {
    ghost var before := out.bytes;
    for index := 0 to count
      invariant |out.bytes| == |before|
      invariant out.bytes == ShiftDebugEntries(before, base, index, delta)
    {
      var at := base + index * DEBUG_ENTRY_SIZE + 24;
      if at + 4 > |out.bytes| { continue; }
      var pointer := U32At(out.bytes, at);
      if pointer == 0 { continue; }
      out.WriteU32(at, SatAdd(pointer, delta));
    }
  }

  method ShiftDebugInPlace(out: ByteBuffer, image: Image, delta: u32)
    modifies out
    ensures out.bytes == ShiftDebug(old(out.bytes), image, delta)
  {
    var dir := image.DataDir(DIR_DEBUG);
    if dir.None? || dir.value.0 == 0 || dir.value.1 == 0 { return; }
    var mapped := RvaToOffset(image, dir.value.0);
    if mapped.None? { return; }
    var base: nat := mapped.value + delta;
    if base >= |out.bytes| { return; }
    ShiftDebugEntriesInPlace(out, base, dir.value.1 as int / DEBUG_ENTRY_SIZE, delta);
  }

  method ShiftPointerInPlace(out: ByteBuffer, at: nat, delta: u32)
    modifies out
    ensures out.bytes == ShiftCoffSymbolTable(old(out.bytes), at, delta)
  {
    if at + 4 > |out.bytes| { return; }
    var pointer := U32At(out.bytes, at);
    if pointer == 0 { return; }
    out.WriteU32(at, SatAdd(pointer, delta));
  }

  method ShiftCertificateInPlace(out: ByteBuffer, at: nat, delta: u32)
    modifies out
    ensures out.bytes == ShiftCertificateTable(old(out.bytes), at, delta)
  {
    if at + 8 > |out.bytes| { return; }
    var offset, size := U32At(out.bytes, at), U32At(out.bytes, at + 4);
    if offset == 0 || size == 0 { return; }
    out.WriteU32(at, SatAdd(offset, delta));
  }

  method RelocateOverlayInPlace(out: ByteBuffer, at: nat, oldRawEnd: u32, overlayAt: u32)
    modifies out
    ensures out.bytes == RelocateOverlay(old(out.bytes), at, oldRawEnd, overlayAt)
  {
    if at + 8 > |out.bytes| { return; }
    var offset, size := U32At(out.bytes, at), U32At(out.bytes, at + 4);
    if offset == 0 || size == 0 || offset < oldRawEnd { return; }
    out.WriteU32(at, Wrap32(overlayAt + (offset - oldRawEnd)));
  }

  lemma PutAdjacent(d: seq<byte>, at: nat, s: seq<byte>, t: seq<byte>)
    requires at + |s| + |t| <= |d|
    ensures Put(Put(d, at, s), at + |s|, t) == Put(d, at, s + t)
  {
  }

  /** One more field of the header being written at `at`. */
  method WriteField(out: ByteBuffer, ghost before: seq<byte>, ghost at: nat, ghost done: seq<byte>, next: nat, s: seq<byte>)
    requires next == at + |done| && next + |s| <= |before|
    requires out.bytes == Put(before, at, done)
    modifies out
    ensures out.bytes == Put(before, at, done + s)
  {
    PutAdjacent(before, at, done, s);
    out.Write(next, s);
  }

  method WriteSlot(out: ByteBuffer, at: nat, plan: ImportPlan, newRaw: u32, delta: u32)
    requires at + 40 <= |out.bytes|
    modifies out
    ensures out.bytes == WithSlot(old(out.bytes), at, plan, newRaw, delta)
  {
    ghost var before := out.bytes;
    var s1 := HOOK_SECTION_NAME + LE32(plan.newSectionVsize) + LE32(plan.newSectionRva)
              + LE32(plan.newSectionRawSize) + LE32(newRaw);
    out.Write(at, s1);
    SameField32(out.bytes, at + 24, before, at + 24);
    SameField32(out.bytes, at + 28, before, at + 28);
    var relocations := SatAdd(U32At(out.bytes, at + 24), delta);
    var lineNumbers := SatAdd(U32At(out.bytes, at + 28), delta);
    WriteField(out, before, at, s1, at + 24, LE32(relocations));
    WriteField(out, before, at, s1 + LE32(relocations), at + 28, LE32(lineNumbers));
    ghost var s2 := s1 + LE32(relocations) + LE32(lineNumbers);
    WriteField(out, before, at, s2, at + 32, LE16(0));
    WriteField(out, before, at, s2 + LE16(0), at + 34, LE16(0));
    WriteField(out, before, at, s2 + LE16(0) + LE16(0), at + 36, LE32(SCN_CHARACTERISTICS));
  }

  method WriteChecksum(out: ByteBuffer, at: nat)
    requires at + 4 <= |out.bytes|
    modifies out
    ensures out.bytes == WithChecksum(old(out.bytes), at)
  {
    out.WriteU32(at, 0);
    var sum := Checksum.PeChecksum(out.bytes);
    out.WriteU32(at, sum);
  }

  method WriteSizes(out: ByteBuffer, image: Image, plan: ImportPlan)
    requires FieldsInside(image, |out.bytes|)
    modifies out
    ensures out.bytes == WithSizes(old(out.bytes), image, plan)
  {
    hide PutU32, PutU16, U32At;
    out.WriteU16(image.Coff() + 2, NewCount(image));
    out.WriteU32(image.Opt() + 60, plan.newHeaders);
    out.WriteU32(image.Opt() + 56, plan.newImageSize);
    var initialized := U32At(out.bytes, image.Opt() + 8);
    out.WriteU32(image.Opt() + 8, SatAdd(initialized, plan.newSectionRawSize));
  }

  method WriteDirectories(out: ByteBuffer, image: Image, plan: ImportPlan)
    requires FieldsInside(image, |out.bytes|)
    modifies out
    ensures out.bytes == WithDirectories(old(out.bytes), image, plan)
  {
    hide PutU32, HasBoundImport, Wrap32;
    var at := image.DataDirs() + 8 * DIR_IMPORT;
    out.WriteU32(at, plan.newSectionRva);
    out.WriteU32(at + 4, TableSize(plan));
    if HasBoundImport(image) {
      var bound := image.DataDirs() + 8 * DIR_BOUND_IMPORT;
      out.WriteU32(bound, 0);
      out.WriteU32(bound + 4, 0);
    }
  }

  method ShiftOffsets(image: Image, delta: u32) returns (out: ByteBuffer)
    requires image.sizeOfHeaders <= |image.data| && HeadersInside(image.sections, |image.data|)
    ensures fresh(out) && out.bytes == Shifted(image, delta)
  {
    out := new ByteBuffer(image.data[..image.sizeOfHeaders]);
    out.Resize(|out.bytes| + delta);
    out.Extend(image.data[image.sizeOfHeaders..]);
    assert out.bytes == Inserted(image, delta);
    ShiftSectionsInPlace(out, image.sections, delta);
    ShiftPointerInPlace(out, image.Coff() + 8, delta);
    ShiftDebugInPlace(out, image, delta);
    ShiftCertificateInPlace(out, image.DataDirs() + 8 * DIR_SECURITY, delta);
  }

  method AppendSection(out: ByteBuffer, image: Image, plan: ImportPlan, delta: u32)
    modifies out
    ensures out.bytes == WithOverlay(WithSection(old(out.bytes), image, plan, delta), image, delta)
  {
    hide RelocateOverlay, AlignUp32, AlignUp, Wrap32;
    var oldRawEnd := OldRawEnd(image, delta);
    var newRaw := ComputeAlignUp(oldRawEnd, image.fileAlignment);
    out.Resize(newRaw);
    out.Extend(plan.blob);
    out.Resize(Wrap32(newRaw as int + plan.newSectionRawSize as int));
    if oldRawEnd < |image.data| {
      var overlayAt := Wrap32(|out.bytes|);
      out.Extend(image.data[oldRawEnd..]);
      RelocateOverlayInPlace(out, image.DataDirs() + 8 * DIR_SECURITY, oldRawEnd, overlayAt);
    }
  }

  method Apply(image: Image, plan: ImportPlan) returns (r: Result<seq<byte>>)
    requires image.machine == MACHINE_AMD64 && !image.HasHookSection() ==>
               SlotWritable(image, plan) && (LowAlignmentConflict(image, plan) || Rebuildable(image, plan))
    ensures r == ApplySpec(image, plan)
  {
    if image.machine != MACHINE_AMD64 { return Err(NotPe32Plus); }
    if image.HasHookSection() { return Err(AlreadyImported(plan.dll)); }
    var delta := Delta(image, plan);
    var newRaw := NewRaw(image, delta);
    var out := ShiftOffsets(image, delta);
    AppendSection(out, image, plan, delta);
    WriteSlot(out, image.SectionTableEnd(), plan, newRaw, delta);
    if image.sectionAlignment < 0x1000 && newRaw != plan.newSectionRva {
      return Err(Malformed(LowAlignmentRebuild));
    }
    WriteSizes(out, image, plan);
    WriteDirectories(out, image, plan);
    WriteChecksum(out, image.ChecksumOffset());
    return Ok(out.bytes);
  }

  /** The other writer: after an in-place edit of the headers, only the checksum changes. */
  method IntoData(image: Image) returns (r: seq<byte>)
    requires image.ChecksumOffset() + 4 <= |image.data|
    ensures r == Checksum.Stamped(image.data, image.ChecksumOffset())
    ensures |r| == |image.data|
    ensures forall i :: 0 <= i < |r| && !(image.peOffset + 88 <= i < image.peOffset + 92) ==> r[i] == image.data[i]
  {
    hide PutU32, Checksum.Value;
    Checksum.StampedKeeps(image.data, image.ChecksumOffset());
    var out := new ByteBuffer(image.data);
    out.WriteU32(image.ChecksumOffset(), 0);
    var sum := Checksum.PeChecksumWith(out.bytes, image.ChecksumOffset());
    out.WriteU32(image.ChecksumOffset(), sum);
    r := out.bytes;
  }

  method ChecksumMatches(image: Image) returns (b: bool)
    requires image.ChecksumOffset() + 4 <= |image.data|
    ensures b <==> U32At(image.data, image.ChecksumOffset()) == Checksum.Value(image.data, image.ChecksumOffset())
  {
    var sum := Checksum.PeChecksumWith(image.data, image.ChecksumOffset());
    b := U32At(image.data, image.ChecksumOffset()) == sum;
  }
}
