/** The rewritten file, field by field and byte by byte, in front of its section data and behind it. */
module RewrittenFields {
  import opened Bytes
  import opened Parse
  import opened ParseRules
  import opened Import
  import opened Rebuild
  import opened PatchedBytes
  import opened PatchedImage
  import opened PatchedContents
  import opened PatchedOffsets
  import opened PatchedImports
  import L = PatchedLayout
  import opened PlanRules
  import Checksum

  /** A sum that stops at 2^32 - 1. */
  function Capped(n: nat): nat
  {
    if n < 0x1_0000_0000 then n else 0xFFFF_FFFF
  }

  // ---- header fields ----

  /** The header fields that describe the new layout. The bound imports, entry 11 of the data
      directories, are switched off. */
  ghost predicate NewFields(out: seq<byte>, image: Image, plan: ImportPlan)
  {
    var d, pe := image.data, image.peOffset;
    && pe + 152 <= |d| && pe + 152 <= |out|
    && U16At(out, pe + 6) as int == U16At(d, pe + 6) as int + 1
    && U32At(out, pe + 32) as int == Capped(U32At(d, pe + 32) as int + plan.newSectionRawSize as int)
    && U32At(out, pe + 80) == plan.newImageSize && U32At(out, pe + 84) == plan.newHeaders
    && U32At(out, pe + 144) == plan.newSectionRva && U32At(out, pe + 148) as int == 20 * plan.descriptorCount as int
    && (HasBoundImports(image) ==> pe + 232 <= |out| && U32At(out, pe + 224) == 0 && U32At(out, pe + 228) == 0)
  }

  /** The directory of bound imports is there and not empty. */
  ghost predicate HasBoundImports(image: Image)
  {
    image.numRvaAndSizes > 11 && image.peOffset + 232 <= |image.data| && U32At(image.data, image.peOffset + 228) != 0
  }

  lemma BoundIs(image: Image)
    ensures HasBoundImport(image) <==> HasBoundImports(image)
  {
    hide U32At;
  }

  lemma InitializedByte(image: Image, plan: ImportPlan, i: nat)
    requires Layout(image, plan) && Rebuildable(image, plan) && image.Opt() + 8 <= i < image.Opt() + 12
    ensures i < |Slotted(image, plan)| && i < |image.data| && Slotted(image, plan)[i] == image.data[i]
  {
    var delta := Delta(image, plan);
    SlottedFront(image, plan, i);
    hide Slotted, Body, Shifted, ShiftSections, Inserted, AfterSections;
    FrontByte(image, plan, i);
    ShiftedHeaderByte(image, delta, i);
    HeaderByteShifted(image, delta, i);
  }

  lemma SlottedFront(image: Image, plan: ImportPlan, i: nat)
    requires Layout(image, plan) && Rebuildable(image, plan) && i < image.SectionTableEnd()
    ensures i < |Slotted(image, plan)| && Slotted(image, plan)[i] == Body(image, plan)[i]
  {
    hide Body, RawInside;
  }

  /** SizeOfInitializedData, which no reader looks at, in front of the last steps. */
  lemma InitializedKept(image: Image, plan: ImportPlan)
    requires Layout(image, plan) && Rebuildable(image, plan)
    ensures image.Opt() + 12 <= |image.data| && image.Opt() + 12 <= |Slotted(image, plan)|
    ensures U32At(Slotted(image, plan), image.Opt() + 8) == U32At(image.data, image.Opt() + 8)
  {
    hide *;
    var at := image.Opt() + 8;
    InitializedByte(image, plan, at);
    InitializedByte(image, plan, at + 1);
    InitializedByte(image, plan, at + 2);
    InitializedByte(image, plan, at + 3);
    SameField32(Slotted(image, plan), at, image.data, at);
  }

  lemma InitializedGrows(image: Image, plan: ImportPlan)
    requires Layout(image, plan) && Rebuildable(image, plan)
    ensures image.peOffset + 36 <= |image.data| && image.peOffset + 36 <= |Rebuilt(image, plan)|
    ensures U32At(Rebuilt(image, plan), image.peOffset + 32) == SatAdd(U32At(image.data, image.peOffset + 32), plan.newSectionRawSize)
  {
    hide *;
    InitializedKept(image, plan);
    SlottedFields(image, plan);
    SizeFieldIs(image);
    HeaderValues(Slotted(image, plan), image, plan);
    InitializedPlace(image, plan);
  }

  lemma SizeFieldIs(image: Image)
    ensures image.Opt() + 8 == image.peOffset + 32
  {
  }

  lemma InitializedPlace(image: Image, plan: ImportPlan)
    requires Layout(image, plan) && Rebuildable(image, plan)
    ensures image.peOffset + 36 <= |image.data| && image.peOffset + 36 <= |Rebuilt(image, plan)|
  {
    RebuiltLength(image, plan);
    hide Rebuilt, Body, RawInside;
  }

  lemma SlottedFields(image: Image, plan: ImportPlan)
    requires Rebuildable(image, plan)
    ensures FieldsInside(image, |Slotted(image, plan)|)
    ensures Rebuilt(image, plan)
            == WithChecksum(WithDirectories(WithSizes(Slotted(image, plan), image, plan), image, plan), image.ChecksumOffset())
  {
    hide Slotted, WithChecksum, WithDirectories, WithSizes, FieldsInside;
  }

  lemma PlainNumbers(image: Image, dll: seq<byte>, entry: seq<byte>, plan: ImportPlan)
    requires Ready(image, dll, entry, plan)
    ensures image.peOffset + 152 <= |image.data|
    ensures U16At(image.data, image.peOffset + 6) == image.numberOfSections < 96
    ensures plan.descriptorCount as int * 20 < LIMIT32
  {
    ReadyLayout(image, dll, entry, plan);
    assert ParseSpec(image.data) == Ok(image) && HeaderLayout(image) && DataLayout(image, plan);
    hide *;
    ParsedFields(image.data, image);
    LayoutNumbers(image, plan);
    CountIs(image.data, image);
  }

  lemma LayoutNumbers(image: Image, plan: ImportPlan)
    requires HeaderLayout(image) && DataLayout(image, plan)
    ensures image.peOffset + 152 <= |image.data| && image.numberOfSections < 96 && plan.descriptorCount as int * 20 < LIMIT32
  {
    hide RawInside;
  }

  lemma CountIs(d: seq<byte>, image: Image)
    requires ImageFields(d, image)
    ensures U32At(d, 60) as int + 136 <= |d| && image.peOffset == U32At(d, 60)
    ensures image.numberOfSections == U16At(d, image.peOffset + 6)
  {
    hide SectionFields, U16At, U32At;
  }

  /** Main result, header fields. */
  lemma FieldsSay(image: Image, dll: seq<byte>, entry: seq<byte>, plan: ImportPlan, out: seq<byte>)
    requires Patches(image, dll, entry, plan, out)
    ensures NewFields(out, image, plan)
  {
    assert Ready(image, dll, entry, plan) && Rebuildable(image, plan) && out == Rebuilt(image, plan);
    hide *;
    ReadyLayout(image, dll, entry, plan);
    PlainNumbers(image, dll, entry, plan);
    FieldsWritten(image, plan);
    InitializedGrows(image, plan);
    BoundIs(image);
    FieldsAre(out, image, plan);
  }

  lemma FieldsAre(out: seq<byte>, image: Image, plan: ImportPlan)
    requires HasNewFields(out, image, plan) && image.peOffset + 152 <= |image.data|
    requires U16At(image.data, image.peOffset + 6) == image.numberOfSections < 96 && plan.descriptorCount as int * 20 < LIMIT32
    requires U32At(out, image.peOffset + 32) == SatAdd(U32At(image.data, image.peOffset + 32), plan.newSectionRawSize)
    requires HasBoundImport(image) <==> HasBoundImports(image)
    ensures NewFields(out, image, plan)
  {
    hide U16At, U32At, HasBoundImport, HasBoundImports;
  }

  /** Main result, the two file offsets in the headers, wherever they point: the symbol pointer and the
      certificate entry grow with the headers unless they are empty; an entry that then lies behind the
      moved data is taken for one into the overlay, if there is any left. */
  lemma OffsetsSay(image: Image, dll: seq<byte>, entry: seq<byte>, plan: ImportPlan, out: seq<byte>)
    requires Patches(image, dll, entry, plan, out)
    ensures image.peOffset + 176 <= |image.data| && image.peOffset + 176 <= |out|
    ensures var p := U32At(image.data, image.peOffset + 12);
            U32At(out, image.peOffset + 12) as int == if p == 0 then 0 else Capped(p as int + Delta(image, plan) as int)
    ensures var p, n := U32At(image.data, image.peOffset + 168), U32At(image.data, image.peOffset + 172);
            var c, end := Capped(p as int + Delta(image, plan) as int), RawEnd(image) as int + Delta(image, plan) as int;
            && U32At(out, image.peOffset + 172) == n
            && U32At(out, image.peOffset + 168) as int
               == (if p == 0 || n == 0 then p
                   else if end < |image.data| && c >= end
                   then (NewRaw(image, Delta(image, plan)) as int + plan.newSectionRawSize as int + (c - end)) % 0x1_0000_0000
                   else c)
  {
    hide *;
    PatchedLayout(image, dll, entry, plan, out);
    ReadyDataLayoutOf(image, dll, entry, plan, out);
    CoffPointer(image, plan);
    CertificateEntry(image, plan);
    OffsetPlaces(image);
    CertificateIs(image, plan, U32At(image.data, SecurityEntry(image)), U32At(image.data, SecurityEntry(image) + 4));
    CappedIs(U32At(image.data, image.Coff() + 8), Delta(image, plan));
  }

  lemma OffsetPlaces(image: Image)
    ensures image.Coff() + 8 == image.peOffset + 12 && SecurityEntry(image) == image.peOffset + 168
  {
  }

  lemma CappedIs(p: u32, delta: u32)
    ensures SatAdd(p, delta) as int == Capped(p as int + delta as int)
  {
  }

  lemma CertificateIs(image: Image, plan: ImportPlan, p: u32, n: u32)
    requires DataLayout(image, plan)
    ensures var c, end := Capped(p as int + Delta(image, plan) as int), RawEnd(image) as int + Delta(image, plan) as int;
            NewCertificate(image, plan, p, n) as int
            == (if p == 0 || n == 0 then p
                else if end < |image.data| && c >= end
                then (NewRaw(image, Delta(image, plan)) as int + plan.newSectionRawSize as int + (c - end)) % 0x1_0000_0000
                else c)
  {
    hide RawInside, RawEnd, NewRaw;
    CappedIs(p, Delta(image, plan));
  }

  /** `z` is `out` with zeros in the four bytes at `at`. */
  ghost predicate Cleared(out: seq<byte>, at: nat, z: seq<byte>)
  {
    && |z| == |out| && at + 4 <= |out| && z[at] == z[at + 1] == z[at + 2] == z[at + 3] == 0
    && forall i :: 0 <= i < |out| && !(at <= i < at + 4) ==> z[i] == out[i]
  }

  lemma ClearedIs(pre: seq<byte>, at: nat)
    requires at + 4 <= |pre|
    ensures Cleared(WithChecksum(pre, at), at, PutU32(pre, at, 0))
  {
    var z, out := PutU32(pre, at, 0), WithChecksum(pre, at);
    assert LE32(0) == [0, 0, 0, 0];
    PutEffect(pre, at, LE32(0));
    assert z[at..at + 4] == [0, 0, 0, 0];
    assert z[at] == z[at..at + 4][0] && z[at + 1] == z[at..at + 4][1] && z[at + 2] == z[at..at + 4][2] && z[at + 3] == z[at..at + 4][3];
    hide Checksum.Value, PutU32, U32At, WithChecksum;
    forall i | 0 <= i < |out| && !(at <= i < at + 4) ensures z[i] == out[i] {
      ChecksumKeeps(pre, at, i);
    }
  }

  /** Where the header says that the checksum is does not change with the checksum. */
  lemma PlaceKept(pre: seq<byte>, at: nat)
    requires 0x40 <= at && at + 4 <= |pre|
    ensures U32At(WithChecksum(pre, at), 0x3c) == U32At(PutU32(pre, at, 0), 0x3c)
  {
    hide WithChecksum, PutU32, U32At, Checksum.Value;
    WithChecksumLength(pre, at);
    ChecksumKeeps(pre, at, 0x3c);
    ChecksumKeeps(pre, at, 0x3d);
    ChecksumKeeps(pre, at, 0x3e);
    ChecksumKeeps(pre, at, 0x3f);
    SameField32(WithChecksum(pre, at), 0x3c, pre, 0x3c);
    FieldKept(pre, at, 0, 0x3c);
  }

  lemma WithChecksumLength(pre: seq<byte>, at: nat)
    requires at + 4 <= |pre|
    ensures |WithChecksum(pre, at)| == |pre| == |PutU32(pre, at, 0)|
  {
    hide Checksum.Value, PutU32, U32At;
  }

  lemma StampedOver(pre: seq<byte>, at: nat)
    requires 0x40 <= at && at + 4 <= |pre| && U32At(WithChecksum(pre, at), 0x3c) as int + 88 == at
    ensures Cleared(WithChecksum(pre, at), at, PutU32(pre, at, 0))
    ensures U32At(WithChecksum(pre, at), at) == Checksum.Value(PutU32(pre, at, 0), at)
  {
    ClearedIs(pre, at);
    PlaceKept(pre, at);
    hide Checksum.Value, PutU32, U32At, Cleared;
    PutU32Effect(PutU32(pre, at, 0), at, Checksum.Value(PutU32(pre, at, 0), at));
  }

  lemma ChecksumPlace(image: Image, out: seq<byte>, plan: ImportPlan)
    requires HeaderLayout(image) && IsPatched(out, image, plan)
    ensures 0x40 <= image.ChecksumOffset() == image.peOffset + 88
    ensures 0x40 <= |out| && U32At(out, 0x3c) as int + 88 == image.ChecksumOffset()
  {
    hide HasNewFields, IsSectionTable, HasSlot, HeaderError, U32At, U16At, MovedAll, NewSection;
  }

  /** Main result: the checksum field holds the checksum of the file with that field 0. */
  lemma ChecksumSays(image: Image, dll: seq<byte>, entry: seq<byte>, plan: ImportPlan, out: seq<byte>) returns (z: seq<byte>)
    requires Patches(image, dll, entry, plan, out)
    ensures Cleared(out, image.peOffset + 88, z)
    ensures image.peOffset + 92 <= |out| && U32At(out, image.peOffset + 88) == Checksum.Value(z, image.peOffset + 88)
  {
    var at := image.peOffset + 88;
    var pre := BeforeChecksum(image, dll, entry, plan, out);
    hide *;
    SameLength(pre, at);
    StampedOver(pre, at);
    z := PutU32(pre, at, 0);
  }

  lemma BeforeChecksum(image: Image, dll: seq<byte>, entry: seq<byte>, plan: ImportPlan, out: seq<byte>) returns (pre: seq<byte>)
    requires Patches(image, dll, entry, plan, out)
    ensures image.peOffset + 92 <= |pre| && 0x40 <= image.peOffset + 88 && out == WithChecksum(pre, image.peOffset + 88)
    ensures 0x40 <= |out| && U32At(out, 0x3c) as int + 88 == image.peOffset + 88
  {
    hide *;
    PatchedLayout(image, dll, entry, plan, out);
    L.PatchedRanges(image, dll, entry, plan, out);
    PatchFacts(image, dll, entry, plan, out);
    ChecksumPlace(image, out, plan);
    pre := L.RebuiltStamped(image, plan);
  }

  lemma SameLength(pre: seq<byte>, at: nat)
    requires at + 4 <= |pre|
    ensures |WithChecksum(pre, at)| == |pre|
  {
    hide WithChecksum;
  }

  /** Main result: which images the rewriter refuses, whatever the plan. */
  lemma ApplyExactly(image: Image, plan: ImportPlan)
    requires image.machine == MACHINE_AMD64 && !image.HasHookSection() ==>
               SlotWritable(image, plan) && (LowAlignmentConflict(image, plan) || Rebuildable(image, plan))
    ensures var r := ApplySpec(image, plan);
            if image.machine != 0x8664 then r == Err(NotPe32Plus)
            else if exists s :: s in image.sections && s.name == [46, 99, 111, 112, 112, 101, 114, 104] then r == Err(AlreadyImported(plan.dll))
            else if image.sectionAlignment < 4096 && NewRaw(image, Delta(image, plan)) != plan.newSectionRva then
              r == Err(Malformed(LowAlignmentRebuild))
            else r.Ok?
  {
    hide Rebuilt, NewRaw, Delta, Rebuildable, SlotWritable;
  }

  // ---- the other header bytes ----

  /** Byte `i` belongs to one of those fields, or to the symbol pointer, the checksum, or the certificate
      entry, entry 4 of the data directories. */
  ghost predicate InField(image: Image, i: nat)
  {
    var pe := image.peOffset;
    || pe + 6 <= i < pe + 8 || pe + 12 <= i < pe + 16 || pe + 32 <= i < pe + 36 || pe + 80 <= i < pe + 92
    || pe + 144 <= i < pe + 152 || pe + 168 <= i < pe + 172
    || (HasBoundImports(image) && pe + 224 <= i < pe + 232)
  }

  lemma InFieldIs(image: Image, i: nat)
    ensures InHeaderField(image, i) <==> InField(image, i)
  {
    BoundIs(image);
    hide HasBoundImport, HasBoundImports;
  }

  /** Main result: in front of the section table, every other byte stays. */
  lemma HeadersStay(image: Image, dll: seq<byte>, entry: seq<byte>, plan: ImportPlan, out: seq<byte>, i: nat)
    requires Patches(image, dll, entry, plan, out)
    requires i < image.peOffset + 24 + image.sizeOfOptionalHeader && !InField(image, i)
    ensures i < |out| && i < |image.data| && out[i] == image.data[i]
  {
    hide *;
    PatchedLayout(image, dll, entry, plan, out);
    HeadersKept(image, plan);
    InFieldIs(image, i);
    KeptByte(out, image, i);
  }

  lemma KeptByte(out: seq<byte>, image: Image, i: nat)
    requires HeaderKept(out, image) && i < image.peOffset + 24 + image.sizeOfOptionalHeader && !InHeaderField(image, i)
    ensures i < |out| && i < |image.data| && out[i] == image.data[i]
  {
  }

  // ---- the section table ----

  /** Section header `k`: its data pointer grows with the headers, or is 0 without data; the rest stays. */
  ghost predicate RowMoved(out: seq<byte>, d: seq<byte>, at: nat, delta: nat)
  {
    && at + 40 <= |d| && at + 40 <= |out|
    && U32At(out, at + 20) as int == (if U32At(d, at + 16) == 0 then 0 else Capped(U32At(d, at + 20) as int + delta))
    && forall i :: at <= i < at + 20 || at + 24 <= i < at + 40 ==> out[i] == d[i]
  }

  /** Main result, section table. */
  lemma RowsMove(image: Image, dll: seq<byte>, entry: seq<byte>, plan: ImportPlan, out: seq<byte>, k: nat)
    requires Patches(image, dll, entry, plan, out) && k < |image.sections|
    ensures RowMoved(out, image.data, image.peOffset + 24 + image.sizeOfOptionalHeader + 40 * k, Delta(image, plan))
  {
    assert Ready(image, dll, entry, plan) && out == Rebuilt(image, plan);
    hide *;
    PatchedLayout(image, dll, entry, plan, out);
    RowInFile(image, dll, entry, plan, k);
    TableShifted(image, plan);
    RowOf(out, image, Delta(image, plan), k);
  }

  lemma RowOf(out: seq<byte>, image: Image, delta: u32, k: nat)
    requires HeaderLayout(image) && HeadersInside(image.sections, |image.data|) && k < |image.sections|
    requires HasShiftedTable(out, image, delta) && image.SectionTable() + 40 * k + 40 <= image.SectionTableEnd() <= |image.data|
    requires image.sections[k] == SectionAt(image.data, image.SectionTable() + 40 * k)
    requires SectionFields(image.data, image.SectionTable() + 40 * k, image.sections[k])
    ensures RowMoved(out, image.data, image.peOffset + 24 + image.sizeOfOptionalHeader + 40 * k, delta)
  {
    hide *;
    var at := image.SectionTable() + 40 * k;
    TableReaches(out, image, delta, k);
    forall i | at <= i < at + 20 || at + 24 <= i < at + 40 ensures out[i] == image.data[i] {
      TableByteOutsidePointer(out, image, delta, k, i);
    }
    TablePointer(out, image, delta, k);
    RowIs(out, image, at, k, delta);
  }

  lemma RowInFile(image: Image, dll: seq<byte>, entry: seq<byte>, plan: ImportPlan, k: nat)
    requires Ready(image, dll, entry, plan) && k < |image.sections|
    ensures HeaderLayout(image) && HeadersInside(image.sections, |image.data|)
    ensures var at := image.SectionTable() + 40 * k;
            at + 40 <= image.SectionTableEnd() <= |image.data| && image.sections[k] == SectionAt(image.data, at)
    ensures SectionFields(image.data, image.SectionTable() + 40 * k, image.sections[k])
  {
    ReadyLayout(image, dll, entry, plan);
    ParsedShape(image);
    SectionHasFields(image.data, image.SectionTable() + 40 * k);
    hide PlanSpec, ParseSpec, SectionAt, SectionFields, RawInside, FitsIn32, DataLayout, SlotReadable;
  }

  lemma TableReaches(out: seq<byte>, image: Image, delta: u32, k: nat)
    requires HeaderLayout(image) && HeadersInside(image.sections, |image.data|)
    requires HasShiftedTable(out, image, delta) && image.SectionTable() + 40 * k + 40 <= image.SectionTableEnd()
    ensures image.SectionTable() + 40 * k + 40 <= |out|
  {
    hide AfterSections;
  }

  lemma RowIs(out: seq<byte>, image: Image, at: nat, k: nat, delta: u32)
    requires k < |image.sections| && at == image.SectionTable() + 40 * k && at + 40 <= |out|
    requires SectionFields(image.data, at, image.sections[k])
    requires U32At(out, PointerField(image.SectionTable(), k)) == Moved(image.sections[k], delta).pointerToRawData
    requires forall i :: at <= i < at + 20 || at + 24 <= i < at + 40 ==> out[i] == image.data[i]
    ensures RowMoved(out, image.data, image.peOffset + 24 + image.sizeOfOptionalHeader + 40 * k, delta)
  {
    hide U32At;
  }

  // ---- the new section header and the grown headers ----

  /** The header of the new section: its name, its sizes and addresses, `delta` where the pointers to
      relocations and line numbers go, readable, writable, initialized. */
  ghost predicate NewRow(out: seq<byte>, at: nat, plan: ImportPlan, newRaw: nat, delta: nat)
  {
    && at + 40 <= |out| && out[at..at + 8] == [46, 99, 111, 112, 112, 101, 114, 104]
    && U32At(out, at + 8) == |plan.blob| && U32At(out, at + 12) == plan.newSectionRva
    && U32At(out, at + 16) == plan.newSectionRawSize && U32At(out, at + 20) == newRaw
    && U32At(out, at + 24) == U32At(out, at + 28) == delta
    && ZerosOn(out, at + 32, at + 36) && U32At(out, at + 36) == 0xC000_0040
  }

  lemma SlotBytesAre(plan: ImportPlan, newRaw: u32, delta: u32)
    ensures var s := SlotBytes(plan, newRaw, delta, delta); s[0..8] == HOOK_SECTION_NAME && ZerosOn(s, 32, 36)
  {
    var s := SlotBytes(plan, newRaw, delta, delta);
    var front := HOOK_SECTION_NAME + LE32(plan.newSectionVsize) + LE32(plan.newSectionRva)
                 + LE32(plan.newSectionRawSize) + LE32(newRaw) + LE32(delta) + LE32(delta);
    hide LE32;
    assert s == front + (LE16(0) + LE16(0)) + LE32(SCN_CHARACTERISTICS) && |front| == 32;
    assert s[32..36] == LE16(0) + LE16(0);
    assert LE16(0) == [0, 0];
    forall i | 32 <= i < 36 ensures s[i] == 0 {
      assert s[i] == s[32..36][i - 32];
    }
  }

  lemma SlotSays(out: seq<byte>, image: Image, plan: ImportPlan)
    requires HasSlotBytes(out, image, plan) && plan.newSectionVsize == |plan.blob|
    ensures NewRow(out, image.SectionTableEnd(), plan, NewRaw(image, Delta(image, plan)), Delta(image, plan))
  {
    var at, delta, newRaw := image.SectionTableEnd(), Delta(image, plan), NewRaw(image, Delta(image, plan));
    var s := SlotBytes(plan, newRaw, delta, delta);
    assert at + 40 <= |out| && out[at..at + 40] == s by { hide Delta, NewRaw, SlotBytes; }
    hide *;
    RowFrom(out, at, plan, newRaw, delta);
  }

  lemma RowFrom(out: seq<byte>, at: nat, plan: ImportPlan, newRaw: u32, delta: u32)
    requires at + 40 <= |out| && out[at..at + 40] == SlotBytes(plan, newRaw, delta, delta) && plan.newSectionVsize == |plan.blob|
    ensures NewRow(out, at, plan, newRaw, delta)
  {
    var s := SlotBytes(plan, newRaw, delta, delta);
    hide SlotBytes, U32At, ZerosOn;
    SlotDecodes(plan, newRaw, delta, delta);
    SlotBytesAre(plan, newRaw, delta);
    SlotFields(s, plan, newRaw);
    SlotHeld(out, at, s);
  }

  lemma SlotHeld(out: seq<byte>, at: nat, s: seq<byte>)
    requires |s| == 40 && at + 40 <= |out| && out[at..at + 40] == s && ZerosOn(s, 32, 36)
    ensures out[at..at + 8] == s[0..8] && ZerosOn(out, at + 32, at + 36)
    ensures U32At(out, at + 8) == U32At(s, 8) && U32At(out, at + 12) == U32At(s, 12) && U32At(out, at + 16) == U32At(s, 16)
    ensures U32At(out, at + 20) == U32At(s, 20) && U32At(out, at + 24) == U32At(s, 24) && U32At(out, at + 28) == U32At(s, 28)
    ensures U32At(out, at + 36) == U32At(s, 36)
  {
    hide *;
    FieldInSlice(out, at, s, 8);
    FieldInSlice(out, at, s, 12);
    FieldInSlice(out, at, s, 16);
    FieldInSlice(out, at, s, 20);
    FieldInSlice(out, at, s, 24);
    FieldInSlice(out, at, s, 28);
    FieldInSlice(out, at, s, 36);
    PieceAt(out, at, s, 32, 36);
  }

  lemma SlotFields(s: seq<byte>, plan: ImportPlan, newRaw: u32)
    requires |s| == 40
    requires SectionAt(s, 0) == Section(HOOK_SECTION_NAME, 0, plan.newSectionRva, plan.newSectionVsize,
                                        newRaw, plan.newSectionRawSize, SCN_CHARACTERISTICS)
    ensures U32At(s, 8) == plan.newSectionVsize && U32At(s, 12) == plan.newSectionRva && U32At(s, 16) == plan.newSectionRawSize
    ensures U32At(s, 20) == newRaw && U32At(s, 36) == 0xC000_0040
  {
    hide U32At;
  }

  /** Main result, the new section's header. */
  lemma NewRowSays(image: Image, dll: seq<byte>, entry: seq<byte>, plan: ImportPlan, out: seq<byte>)
    requires Patches(image, dll, entry, plan, out)
    ensures NewRow(out, TableEnd(image), plan, NewRaw(image, Delta(image, plan)), Delta(image, plan))
  {
    assert Ready(image, dll, entry, plan) && out == Rebuilt(image, plan);
    hide *;
    PatchedLayout(image, dll, entry, plan, out);
    ReadyLayout(image, dll, entry, plan);
    PlanNumbers(image, dll, entry, plan);
    SlotBytesWritten(image, plan);
    SlotSays(out, image, plan);
    TableEndIs(image);
  }

  lemma TableEndIs(image: Image)
    ensures TableEnd(image) == image.SectionTableEnd()
  {
  }

  lemma SlotEndIs(image: Image)
    ensures TableEnd(image) + 40 == SlotEnd(image)
  {
  }

  /** Main result: behind that header the old headers go on, and what they have grown by is 0. */
  lemma GrownHeadersSay(image: Image, dll: seq<byte>, entry: seq<byte>, plan: ImportPlan, out: seq<byte>, i: nat)
    requires Patches(image, dll, entry, plan, out) && TableEnd(image) + 40 <= i < plan.newHeaders
    ensures i < |out| && (i < image.sizeOfHeaders ==> i < |image.data|)
    ensures out[i] == if i < image.sizeOfHeaders then image.data[i] else 0
  {
    hide *;
    SlotEndIs(image);
    PatchedLayout(image, dll, entry, plan, out);
    GrownByte(image, plan, i);
  }

  lemma GrownByte(image: Image, plan: ImportPlan, i: nat)
    requires Layout(image, plan) && Rebuildable(image, plan) && SlotEnd(image) <= i < plan.newHeaders
    ensures i < |Rebuilt(image, plan)| && (i < image.sizeOfHeaders ==> i < |image.data|)
    ensures Rebuilt(image, plan)[i] == if i < image.sizeOfHeaders then image.data[i] else 0
  {
    GrownPlace(image, plan, i);
    assert forall k :: 0 <= k < |image.sections| ==> RawInside(image, image.sections[k]);
    assert HeaderLayout(image);
    hide *;
    var delta := Delta(image, plan);
    FrontFinal(image, plan, i);
    ShiftedHeaderByte(image, delta, i);
    ShiftSectionsFrame(Inserted(image, delta), image.sections, image.SectionTable(), delta, i);
    if i < image.sizeOfHeaders {
      InsertedByte(image, delta, i);
    } else {
      InsertedZeros(image, delta, i);
    }
  }

  lemma GrownPlace(image: Image, plan: ImportPlan, i: nat)
    requires Layout(image, plan) && Rebuildable(image, plan) && SlotEnd(image) <= i < plan.newHeaders
    ensures i < |Rebuilt(image, plan)| && i < OldRawEnd(image, Delta(image, plan))
    ensures i < image.sizeOfHeaders + Delta(image, plan) && image.sizeOfHeaders <= |image.data|
    ensures HeadersInside(image.sections, |image.data|) && Consecutive(image.sections, image.SectionTable())
    ensures AfterSections(image, Delta(image, plan)) == ShiftSections(Inserted(image, Delta(image, plan)), image.sections, Delta(image, plan))
    ensures !InHeaderField(image, i) && !InRange(i, image.SectionTableEnd(), 40)
    ensures !InRange(i, image.Coff() + 8, 4) && !InRange(i, image.DataDirs() + 8 * DIR_SECURITY, 4)
    ensures !InPointerField(image.SectionTable(), |image.sections|, i)
  {
    RebuiltLength(image, plan);
    if InHeaderField(image, i) {
      HeaderFieldsInFront(image, i);
    }
    hide Rebuilt, Body, ShiftSections, Inserted, InHeaderField;
  }

  // ---- the new section ----

  /** Main result: the data of the new section starts at a multiple of the file alignment, the least that
      reaches the end of the moved data, and holds the planned bytes, then zeros; the overlay follows. */
  lemma NewSectionSays(image: Image, dll: seq<byte>, entry: seq<byte>, plan: ImportPlan, out: seq<byte>)
    requires Patches(image, dll, entry, plan, out)
    ensures var delta, at, end := Delta(image, plan), NewRaw(image, Delta(image, plan)), RawEnd(image) as int + Delta(image, plan) as int;
            && plan.newHeaders == image.sizeOfHeaders as int + delta as int
            && LastByte(image, RawEnd(image))
            && image.fileAlignment > 0 && at % image.fileAlignment == 0 && end <= at as int < end + image.fileAlignment as int
            && |out| == at as int + plan.newSectionRawSize as int + (if end < |image.data| then |image.data| - end else 0)
            && |plan.blob| <= plan.newSectionRawSize
            && forall j :: 0 <= j < plan.newSectionRawSize as int ==> out[at + j] == if j < |plan.blob| then plan.blob[j] else 0
  {
    hide *;
    PatchedLayout(image, dll, entry, plan, out);
    ReadyDataLayoutOf(image, dll, entry, plan, out);
    RebuiltLength(image, plan);
    AlignmentPositive(image, dll, entry, plan, out);
    NewRawPlace(image, plan);
    L.NewRawAligned(image, plan);
    RawEndIsLast(image);
    forall j | 0 <= j < plan.newSectionRawSize
      ensures NewRaw(image, Delta(image, plan)) + j < |out|
      ensures out[NewRaw(image, Delta(image, plan)) + j] == if j < |plan.blob| then plan.blob[j] else 0
    {
      SectionByte(image, plan, j);
    }
  }

  lemma AlignmentPositive(image: Image, dll: seq<byte>, entry: seq<byte>, plan: ImportPlan, out: seq<byte>)
    requires Patches(image, dll, entry, plan, out)
    ensures image.fileAlignment > 0
  {
    assert Ready(image, dll, entry, plan);
    hide *;
    ReadyAlignments(image, dll, entry, plan);
  }

  lemma NewRawPlace(image: Image, plan: ImportPlan)
    requires DataLayout(image, plan) && image.fileAlignment > 0
    ensures var delta, at := Delta(image, plan), NewRaw(image, Delta(image, plan));
            && plan.newHeaders == image.sizeOfHeaders as int + delta
            && OldRawEnd(image, delta) == RawEnd(image) as int + delta
            && RawEnd(image) as int + delta <= at as int < RawEnd(image) as int + delta + image.fileAlignment
            && OverlayAt(image, plan) == at as int + plan.newSectionRawSize as int
            && |plan.blob| <= plan.newSectionRawSize
  {
    hide RawInside, RawEnd;
  }

  /** Main result: between the moved data and the new section stands what followed the old data, as far
      as there was anything, and then zeros. */
  lemma GapSays(image: Image, dll: seq<byte>, entry: seq<byte>, plan: ImportPlan, out: seq<byte>, i: nat)
    requires Patches(image, dll, entry, plan, out)
    requires RawEnd(image) as int + Delta(image, plan) as int <= i < NewRaw(image, Delta(image, plan))
    requires forall f: nat :: DebugPointerAt(image, f) ==> !(f + Delta(image, plan) <= i < f + Delta(image, plan) + 4)
    ensures i < |out| && out[i] == if i - Delta(image, plan) < |image.data| then image.data[i - Delta(image, plan)] else 0
  {
    hide *;
    PatchedLayout(image, dll, entry, plan, out);
    if i >= Delta(image, plan) {
      DebugBytes(image, i - Delta(image, plan));
    }
    GapByte(image, plan, i);
  }

  lemma GapByte(image: Image, plan: ImportPlan, i: nat)
    requires Layout(image, plan) && Rebuildable(image, plan)
    requires RawEnd(image) as int + Delta(image, plan) as int <= i < NewRaw(image, Delta(image, plan))
    requires i >= Delta(image, plan) ==> !InDebug(image, i - Delta(image, plan))
    ensures i < |Rebuilt(image, plan)|
    ensures Rebuilt(image, plan)[i] == if i - Delta(image, plan) < |image.data| then image.data[i - Delta(image, plan)] else 0
  {
    hide *;
    GapPlace(image, plan, i);
    BodySteps(image, plan);
    var delta := Delta(image, plan);
    var o := i - delta;
    NotRewritten(image, delta, o);
    BehindHeaders(image, plan, i);
    OverlayKeeps(WithSection(Shifted(image, delta), image, plan, delta), image, delta, i);
    if o < |image.data| {
      CutKeeps(Shifted(image, delta), image, plan, delta, i);
      ShiftedDataByte(image, delta, o);
    } else {
      CutZero(Shifted(image, delta), image, plan, delta, i);
    }
  }

  lemma NotRewritten(image: Image, delta: u32, o: nat)
    requires !InDebug(image, o)
    ensures !Rewritten(image, delta, o)
  {
  }

  lemma GapPlace(image: Image, plan: ImportPlan, i: nat)
    requires Layout(image, plan) && Rebuildable(image, plan)
    requires RawEnd(image) as int + Delta(image, plan) as int <= i < NewRaw(image, Delta(image, plan))
    ensures plan.newHeaders <= i < |Body(image, plan)| && |Body(image, plan)| == |Rebuilt(image, plan)|
    ensures HeaderLayout(image) && HeadersInside(image.sections, |image.data|) && image.sizeOfHeaders <= |image.data|
    ensures i - Delta(image, plan) >= image.sizeOfHeaders
    ensures |Shifted(image, Delta(image, plan))| == |image.data| + Delta(image, plan)
    ensures |WithSection(Shifted(image, Delta(image, plan)), image, plan, Delta(image, plan))| > i
    ensures !InRange(i, image.DataDirs() + 8 * DIR_SECURITY, 4)
    ensures NewRaw(image, Delta(image, plan)) as int + plan.newSectionRawSize as int < LIMIT32
  {
    BodySteps(image, plan);
    RebuiltLength(image, plan);
    SectionBehindHeaders(image, plan);
    hide Rebuilt, Body, Shifted, WithSection, RawInside;
  }

  lemma CutZero(out: seq<byte>, image: Image, plan: ImportPlan, delta: u32, i: nat)
    requires NewRaw(image, delta) as int + plan.newSectionRawSize as int < LIMIT32
    requires |out| <= i < NewRaw(image, delta)
    ensures WithSection(out, image, plan, delta)[i] == 0
  {
  }
}
