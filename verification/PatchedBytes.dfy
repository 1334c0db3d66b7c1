/** Which byte of the old file ends up where in the rewritten one. */
module PatchedBytes {
  import opened Bytes
  import opened Parse
  import opened Import
  import opened Rebuild
  import Checksum

  // ---- what the rewriter relies on ----

  /** Facts about the image that the code uses without checking all of them. */
  ghost predicate WellFormed(image: Image)
  {
    && ParseSpec(image.data) == Ok(image)
    && image.peOffset >= 0x40
    && image.numRvaAndSizes >= 5
    && 112 + 8 * image.numRvaAndSizes as int <= image.sizeOfOptionalHeader
    && image.SectionTableEnd() <= image.sizeOfHeaders <= |image.data|
  }

  /** With a section of `length` bytes added, no 32-bit sum or rounding overflows. */
  ghost predicate FitsIn32(image: Image, length: nat)
  {
    var headers := AlignUp(Max(SlotEnd(image), image.sizeOfHeaders), image.fileAlignment);
    var rva := AlignUp(MaxRvaEnd(image.sections, image.sizeOfImage), image.sectionAlignment);
    && headers < LIMIT32
    && AlignUp(rva + length, image.sectionAlignment) < LIMIT32
    && AlignUp(RawEnd(image) as int + headers - image.sizeOfHeaders as int, image.fileAlignment)
       + AlignUp(length, image.fileAlignment) + (|image.data| - RawEnd(image) as int) < LIMIT32
  }

  /** A well-formed x64 image, not patched yet, and a plan made for it. */
  ghost predicate Ready(image: Image, dll: seq<byte>, entry: seq<byte>, plan: ImportPlan)
  {
    && WellFormed(image)
    && image.machine == MACHINE_AMD64 && !image.HasHookSection()
    && SlotReadable(image) && PlanSpec(image, dll, entry) == Ok(plan)
    && FitsIn32(image, plan.newSectionVsize)
  }

  lemma ParsedShape(image: Image)
    requires ParseSpec(image.data) == Ok(image)
    ensures |image.sections| == image.numberOfSections
    ensures 1 <= image.numberOfSections <= MAX_SECTIONS
    ensures image.sizeOfOptionalHeader >= 112
    ensures image.SectionTableEnd() <= |image.data|
    ensures IsSectionTable(image.data, image.SectionTable(), image.sections)
    ensures HeadersInside(image.sections, |image.data|)
    ensures image.fileAlignment > 0 && image.sectionAlignment >= 0x1000
  {
    ParseMeaning(image.data, image);
  }

  /** The raw data of a section that has any. */
  ghost predicate RawInside(image: Image, s: Section)
  {
    s.sizeOfRawData != 0 ==>
      image.sizeOfHeaders <= s.pointerToRawData && s.pointerToRawData as int + s.sizeOfRawData as int <= RawEnd(image)
  }

  /** The numbers of a plan, free of wrap-around. */
  lemma PlanNumbers(image: Image, dll: seq<byte>, entry: seq<byte>, plan: ImportPlan)
    requires Ready(image, dll, entry, plan)
    ensures Descriptors(image).Ok?
    ensures plan.newSectionVsize == |plan.blob|
    ensures |plan.blob| == BlobLength(|Descriptors(image).value|, |entry|, |dll|)
    ensures 40 <= |plan.blob| < 0x2_0000
    ensures plan.descriptorCount == |Descriptors(image).value| + 2
  {
    PlanMeaning(image, dll, entry, plan);
    PlanForSizes(image, Descriptors(image).value, dll, entry);
  }

  lemma FittingSizes(image: Image, length: nat)
    requires FitsIn32(image, length)
    ensures AlignUp(length, image.fileAlignment) + |image.data| < LIMIT32
    ensures AlignUp(MaxRvaEnd(image.sections, image.sizeOfImage), image.sectionAlignment) + length < LIMIT32
  {
  }

  /** Without wrap-around, the addresses of the plan are exact roundings. */
  ghost predicate ExactAddresses(image: Image, plan: ImportPlan)
  {
    && plan.newSectionRva == AlignUp(MaxRvaEnd(image.sections, image.sizeOfImage), image.sectionAlignment)
    && plan.newHeaders == AlignUp(Max(SlotEnd(image), image.sizeOfHeaders), image.fileAlignment)
    && plan.newSectionRawSize == AlignUp(plan.newSectionVsize, image.fileAlignment)
    && plan.newImageSize == AlignUp(plan.newSectionRva + plan.newSectionVsize, image.sectionAlignment)
  }

  lemma PlanForAddresses(image: Image, ds: seq<Descriptor>, dll: seq<byte>, entry: seq<byte>)
    requires OffsetsInside(image, ds) && |ds| <= MAX_DESCRIPTORS
    requires |dll| <= MAX_IMPORT_NAME && |entry| <= MAX_IMPORT_NAME
    requires FitsIn32(image, PlanFor(image, ds, dll, entry).newSectionVsize)
    ensures ExactAddresses(image, PlanFor(image, ds, dll, entry))
  {
    PlanForSizes(image, ds, dll, entry);
    FittingSizes(image, PlanFor(image, ds, dll, entry).newSectionVsize);
  }

  lemma PlanAddresses(image: Image, dll: seq<byte>, entry: seq<byte>, plan: ImportPlan)
    requires Ready(image, dll, entry, plan)
    ensures ExactAddresses(image, plan)
  {
    PlanMeaning(image, dll, entry, plan);
    PlanForAddresses(image, Descriptors(image).value, dll, entry);
  }

  lemma SumsExact(image: Image)
    requires RawRangesSound(image) && |image.data| < LIMIT32 - 1
    ensures forall k :: 0 <= k < |image.sections| && image.sections[k].sizeOfRawData != 0 ==>
              && image.sizeOfHeaders <= image.sections[k].pointerToRawData
              && image.sections[k].RawEnd() as int
                 == image.sections[k].pointerToRawData as int + image.sections[k].sizeOfRawData as int <= |image.data|
  {
    hide RawDisjoint;
  }

  /** Without wrap-around, `raw_end` bounds every section's raw data and the file bounds it. */
  lemma RawEndBounds(image: Image)
    requires RawRangesSound(image) && |image.data| < LIMIT32 - 1
    requires image.sizeOfHeaders <= |image.data|
    ensures forall k :: 0 <= k < |image.sections| ==> RawInside(image, image.sections[k])
    ensures image.sizeOfHeaders <= RawEnd(image) <= |image.data|
  {
    SumsExact(image);
    hide MaxRawEnd, Section.RawEnd, Wrap32, RawRangesSound;
    var top := MaxRawEnd(image.sections);
    if top.Some? {
      var s :| s in image.sections && s.sizeOfRawData != 0 && s.RawEnd() == top.value;
      var k :| 0 <= k < |image.sections| && image.sections[k] == s;
    }
  }

  /** Where the headers of the image are. */
  ghost predicate HeaderLayout(image: Image)
  {
    && |image.sections| == image.numberOfSections && 1 <= image.numberOfSections < MAX_SECTIONS
    && (forall k :: 0 <= k < |image.sections| ==> image.sections[k].headerOffset == image.SectionTable() + 40 * k)
    && image.peOffset >= 0x40
    && image.numRvaAndSizes >= 5 && 112 + 8 * image.numRvaAndSizes as int <= image.sizeOfOptionalHeader
    && image.SectionTableEnd() <= image.sizeOfHeaders <= |image.data| < LIMIT32 - 1
  }

  /** Where the section data, the new section and the overlay go, with all sums exact. */
  ghost predicate DataLayout(image: Image, plan: ImportPlan)
  {
    var delta := Delta(image, plan);
    && plan.newHeaders == image.sizeOfHeaders as int + delta && SlotEnd(image) <= plan.newHeaders
    && (forall k :: 0 <= k < |image.sections| ==> RawInside(image, image.sections[k]))
    && image.sizeOfHeaders <= RawEnd(image) <= |image.data|
    && OldRawEnd(image, delta) == RawEnd(image) as int + delta
    && OldRawEnd(image, delta) <= NewRaw(image, delta)
    && |plan.blob| <= plan.newSectionRawSize
    && NewRaw(image, delta) as int + plan.newSectionRawSize as int + (|image.data| - RawEnd(image) as int) < LIMIT32
    && plan.descriptorCount as int * 20 < LIMIT32
  }

  ghost predicate Layout(image: Image, plan: ImportPlan)
  {
    HeaderLayout(image) && DataLayout(image, plan)
  }

  lemma ReadyHeaderLayout(image: Image, dll: seq<byte>, entry: seq<byte>, plan: ImportPlan)
    requires Ready(image, dll, entry, plan)
    ensures HeaderLayout(image) && SlotIsEmpty(image) && RawRangesSound(image)
  {
    ParsedShape(image);
    PlanNumbers(image, dll, entry, plan);
    PlanChecks(image, dll, entry, plan);
  }

  lemma AddressesGiveLayout(image: Image, plan: ImportPlan)
    requires HeaderLayout(image) && RawRangesSound(image)
    requires ExactAddresses(image, plan) && FitsIn32(image, plan.newSectionVsize)
    requires plan.newSectionVsize == |plan.blob| && plan.descriptorCount < 0x2000
    ensures DataLayout(image, plan)
  {
    RawEndBounds(image);
  }

  lemma ReadyDataLayout(image: Image, dll: seq<byte>, entry: seq<byte>, plan: ImportPlan)
    requires Ready(image, dll, entry, plan)
    ensures DataLayout(image, plan)
  {
    ReadyHeaderLayout(image, dll, entry, plan);
    PlanMeaning(image, dll, entry, plan);
    PlanNumbers(image, dll, entry, plan);
    PlanAddresses(image, dll, entry, plan);
    AddressesGiveLayout(image, plan);
  }

  lemma ReadyLayout(image: Image, dll: seq<byte>, entry: seq<byte>, plan: ImportPlan)
    requires Ready(image, dll, entry, plan)
    ensures Layout(image, plan) && SlotIsEmpty(image)
  {
    ReadyHeaderLayout(image, dll, entry, plan);
    ReadyDataLayout(image, dll, entry, plan);
  }

  lemma LayoutRebuildable(image: Image, plan: ImportPlan)
    requires Layout(image, plan)
    ensures Rebuildable(image, plan)
  {
  }

  lemma ReadyIsRebuildable(image: Image, dll: seq<byte>, entry: seq<byte>, plan: ImportPlan)
    requires Ready(image, dll, entry, plan)
    ensures Rebuildable(image, plan)
    ensures ApplySpec(image, plan) == Ok(Rebuilt(image, plan))
  {
    ReadyLayout(image, dll, entry, plan);
    LayoutRebuildable(image, plan);
    ParsedShape(image);
  }

  // ---- one step at a time: what each leaves alone ----

  ghost predicate Consecutive(sections: seq<Section>, table: nat)
  {
    forall k :: 0 <= k < |sections| ==> sections[k].headerOffset == table + 40 * k
  }

  /** A section with its data moved by `delta`; one without data points nowhere. */
  function Moved(s: Section, delta: u32): Section
  {
    s.(pointerToRawData := if s.sizeOfRawData == 0 then 0 else SatAdd(s.pointerToRawData, delta))
  }

  function PointerField(table: nat, k: nat): nat { table + 40 * k + 20 }

  /** Byte `i` belongs to the PointerToRawData field of one of `n` section headers. */
  ghost predicate InPointerField(table: nat, n: nat, i: nat)
  {
    exists k :: 0 <= k < n && PointerField(table, k) <= i < PointerField(table, k) + 4
  }

  lemma FewerPointerFields(table: nat, n: nat, i: nat)
    requires n > 0 && !InPointerField(table, n, i)
    ensures !InPointerField(table, n - 1, i)
    ensures !(PointerField(table, n - 1) <= i < PointerField(table, n - 1) + 4)
  {
  }

  lemma {:induction false} ShiftSectionsFrame(out: seq<byte>, sections: seq<Section>, table: nat, delta: u32, i: nat)
    requires HeadersInside(sections, |out|) && Consecutive(sections, table)
    requires i < |out| && !InPointerField(table, |sections|, i)
    ensures ShiftSections(out, sections, delta)[i] == out[i]
    decreases |sections|
  {
    hide PutU32, U32At, InPointerField;
    if sections != [] {
      var init := sections[..|sections| - 1];
      var s := sections[|sections| - 1];
      FewerPointerFields(table, |sections|, i);
      ShiftSectionsFrame(out, init, table, delta, i);
      var prior := ShiftSections(out, init, delta);
      var at := s.headerOffset + 20;
      PutU32Keeps(prior, at, if s.sizeOfRawData == 0 then 0 else SatAdd(U32At(prior, at), delta), i);
    }
  }

  lemma PointerFieldKept(out: seq<byte>, sections: seq<Section>, table: nat, delta: u32, k: nat)
    requires HeadersInside(sections, |out|) && Consecutive(sections, table)
    requires k >= |sections| && PointerField(table, k) + 4 <= |out|
    ensures U32At(ShiftSections(out, sections, delta), PointerField(table, k)) == U32At(out, PointerField(table, k))
  {
    hide ShiftSections, U32At;
    var at := PointerField(table, k);
    forall i | at <= i < at + 4 ensures ShiftSections(out, sections, delta)[i] == out[i] {
      ShiftSectionsFrame(out, sections, table, delta, i);
    }
    SameField32(ShiftSections(out, sections, delta), at, out, at);
  }

  lemma {:induction false} ShiftSectionsAt(out: seq<byte>, sections: seq<Section>, table: nat, delta: u32, k: nat)
    requires HeadersInside(sections, |out|) && Consecutive(sections, table) && k < |sections|
    ensures PointerField(table, k) + 4 <= |out|
    ensures U32At(ShiftSections(out, sections, delta), PointerField(table, k))
            == if sections[k].sizeOfRawData == 0 then 0 else SatAdd(U32At(out, PointerField(table, k)), delta)
    decreases |sections|
  {
    hide PutU32, U32At;
    var n := |sections| - 1;
    var init, s := sections[..n], sections[n];
    var prior := ShiftSections(out, init, delta);
    var at := s.headerOffset + 20;
    var v := if s.sizeOfRawData == 0 then 0 else SatAdd(U32At(prior, at), delta);
    if k == n {
      PointerFieldKept(out, init, table, delta, k);
      PutU32Effect(prior, at, v);
    } else {
      ShiftSectionsAt(out, init, table, delta, k);
      FieldKept(prior, at, v, PointerField(table, k));
    }
  }

  /** Byte `i` belongs to the PointerToRawData field of one of `count` debug entries. */
  ghost predicate InDebugField(base: nat, count: nat, i: nat)
  {
    exists j :: 0 <= j < count && DebugField(base, j) <= i < DebugField(base, j) + 4
  }

  function DebugField(base: nat, j: nat): nat { base + j * DEBUG_ENTRY_SIZE + 24 }

  lemma {:induction false} ShiftDebugFrame(out: seq<byte>, base: nat, count: nat, delta: u32, i: nat)
    requires i < |out| && !InDebugField(base, count, i)
    ensures ShiftDebugEntries(out, base, count, delta)[i] == out[i]
    decreases count
  {
    hide PutU32, U32At, InDebugField;
    if count > 0 {
      FewerDebugFields(base, count, i);
      ShiftDebugFrame(out, base, count - 1, delta, i);
      var prior := ShiftDebugEntries(out, base, count - 1, delta);
      var at := base + (count - 1) * DEBUG_ENTRY_SIZE + 24;
      if at + 4 <= |prior| && U32At(prior, at) != 0 {
        PutU32Keeps(prior, at, SatAdd(U32At(prior, at), delta), i);
      }
    }
  }

  lemma FewerDebugFields(base: nat, count: nat, i: nat)
    requires count > 0 && !InDebugField(base, count, i)
    ensures !InDebugField(base, count - 1, i)
    ensures var at := base + (count - 1) * DEBUG_ENTRY_SIZE + 24; !(at <= i < at + 4)
  {
    assert DebugField(base, count - 1) == base + (count - 1) * DEBUG_ENTRY_SIZE + 24;
  }

  /** Every debug pointer inside the buffer is shifted, unless it is 0. */
  lemma {:induction false} ShiftDebugAt(out: seq<byte>, base: nat, count: nat, delta: u32, j: nat)
    requires j < count && DebugField(base, j) + 4 <= |out|
    ensures var old_, new_ := U32At(out, DebugField(base, j)),
                              U32At(ShiftDebugEntries(out, base, count, delta), DebugField(base, j));
            new_ == if old_ == 0 then 0 else SatAdd(old_, delta)
    decreases count
  {
    hide PutU32, U32At;
    var prior := ShiftDebugEntries(out, base, count - 1, delta);
    var at, mine := DebugField(base, count - 1), DebugField(base, j);
    if at + 4 <= |prior| && U32At(prior, at) != 0 {
      PutU32Effect(prior, at, SatAdd(U32At(prior, at), delta));
    }
    if j == count - 1 {
      forall i | mine <= i < mine + 4 ensures prior[i] == out[i] {
        ShiftDebugFrame(out, base, count - 1, delta, i);
      }
      SameField32(prior, mine, out, mine);
    } else {
      ShiftDebugAt(out, base, count - 1, delta, j);
      SameField32(ShiftDebugEntries(out, base, count, delta), mine, prior, mine);
    }
  }

  // ---- the shifted file ----

  /** A mapped address lies in some section's raw data. */
  lemma {:induction false} MappedInside(image: Image, sections: seq<Section>, rva: u32)
    requires forall k :: 0 <= k < |sections| ==> RawInside(image, sections[k])
    requires MapRva(sections, rva).Some?
    ensures image.sizeOfHeaders <= MapRva(sections, rva).value < RawEnd(image)
  {
    if MapIn(sections[0], rva).None? {
      MappedInside(image, sections[1..], rva);
    } else {
      assert RawInside(image, sections[0]);
    }
  }

  ghost predicate InRange(i: nat, at: nat, n: nat) { at <= i < at + n }

  /** Byte `i` of the old file belongs to a debug pointer that is rewritten. */
  ghost predicate InDebug(image: Image, i: nat)
  {
    match DebugDirectory(image)
    case None => false
    case Some((base, count)) => InDebugField(base, count, i)
  }

  lemma InsertedByte(image: Image, delta: nat, i: nat)
    requires image.sizeOfHeaders <= |image.data| && i < |image.data|
    ensures i < image.sizeOfHeaders ==> Inserted(image, delta)[i] == image.data[i]
    ensures i >= image.sizeOfHeaders ==> Inserted(image, delta)[i + delta] == image.data[i]
  {
  }

  lemma InsertedZeros(image: Image, delta: nat, i: nat)
    requires image.sizeOfHeaders <= |image.data|
    requires image.sizeOfHeaders <= i < image.sizeOfHeaders + delta
    ensures Inserted(image, delta)[i] == 0
  {
  }

  /** The debug entries lie behind the grown headers. */
  lemma DebugBehindHeaders(image: Image, delta: nat, i: nat)
    requires forall k :: 0 <= k < |image.sections| ==> RawInside(image, image.sections[k])
    requires DebugDirectory(image).Some? && i < image.sizeOfHeaders + delta
    ensures !InDebugField(DebugDirectory(image).value.0 + delta, DebugDirectory(image).value.1, i)
  {
    MappedInside(image, image.sections, image.DataDir(DIR_DEBUG).value.0);
    var base, count := DebugDirectory(image).value.0 + delta, DebugDirectory(image).value.1;
  }

  /** The steps before the new section is appended. */
  function AfterSections(image: Image, delta: u32): (r: seq<byte>)
    requires image.sizeOfHeaders <= |image.data| && HeadersInside(image.sections, |image.data|)
    ensures |r| == |image.data| + delta
  {
    ShiftSections(Inserted(image, delta), image.sections, delta)
  }

  function AfterCoff(image: Image, delta: u32): (r: seq<byte>)
    requires image.sizeOfHeaders <= |image.data| && HeadersInside(image.sections, |image.data|)
    ensures |r| == |image.data| + delta
  {
    ShiftCoffSymbolTable(AfterSections(image, delta), image.Coff() + 8, delta)
  }

  function AfterDebug(image: Image, delta: u32): (r: seq<byte>)
    requires image.sizeOfHeaders <= |image.data| && HeadersInside(image.sections, |image.data|)
    ensures |r| == |image.data| + delta
  {
    ShiftDebug(AfterCoff(image, delta), image, delta)
  }

  lemma CoffKeeps(out: seq<byte>, at: nat, delta: u32, i: nat)
    requires i < |out| && !InRange(i, at, 4)
    ensures ShiftCoffSymbolTable(out, at, delta)[i] == out[i]
  {
    hide PutU32, U32At;
    if at + 4 <= |out| && U32At(out, at) != 0 {
      PutU32Keeps(out, at, SatAdd(U32At(out, at), delta), i);
    }
  }

  lemma CertificateKeeps(out: seq<byte>, at: nat, delta: u32, i: nat)
    requires i < |out| && !InRange(i, at, 4)
    ensures ShiftCertificateTable(out, at, delta)[i] == out[i]
  {
    hide PutU32, U32At;
    if at + 8 <= |out| && U32At(out, at) != 0 && U32At(out, at + 4) != 0 {
      PutU32Keeps(out, at, SatAdd(U32At(out, at), delta), i);
    }
  }

  lemma RelocateKeeps(out: seq<byte>, at: nat, end: u32, overlayAt: u32, i: nat)
    requires i < |out| && !InRange(i, at, 4)
    ensures RelocateOverlay(out, at, end, overlayAt)[i] == out[i]
  {
    hide PutU32, U32At;
    if at + 8 <= |out| && U32At(out, at) != 0 && U32At(out, at + 4) != 0 && U32At(out, at) >= end {
      PutU32Keeps(out, at, Wrap32(overlayAt + (U32At(out, at) - end)), i);
    }
  }

  lemma DebugKeeps(out: seq<byte>, image: Image, delta: u32, i: nat)
    requires i < |out|
    requires DebugDirectory(image).Some? ==>
               !InDebugField(DebugDirectory(image).value.0 + delta, DebugDirectory(image).value.1, i)
    ensures ShiftDebug(out, image, delta)[i] == out[i]
  {
    hide ShiftDebugEntries, DebugDirectory, InDebugField;
    var dir := DebugDirectory(image);
    if dir.Some? && dir.value.0 + delta < |out| {
      ShiftDebugFrame(out, dir.value.0 + delta, dir.value.1, delta, i);
    }
  }

  /** Before anything is appended: every byte that is not part of a rewritten field. */
  lemma ShiftedByte(image: Image, delta: u32, i: nat)
    requires image.sizeOfHeaders <= |image.data| && HeadersInside(image.sections, |image.data|)
    requires Consecutive(image.sections, image.SectionTable())
    requires i < |image.data| + delta
    requires !InPointerField(image.SectionTable(), |image.sections|, i)
    requires !InRange(i, image.Coff() + 8, 4) && !InRange(i, image.DataDirs() + 8 * DIR_SECURITY, 4)
    requires DebugDirectory(image).Some? ==>
               !InDebugField(DebugDirectory(image).value.0 + delta, DebugDirectory(image).value.1, i)
    ensures Shifted(image, delta)[i] == Inserted(image, delta)[i]
  {
    hide ShiftSections, ShiftCoffSymbolTable, ShiftDebug, ShiftCertificateTable, Inserted, InPointerField, InDebugField, DebugDirectory;
    ShiftSectionsFrame(Inserted(image, delta), image.sections, image.SectionTable(), delta, i);
    CoffKeeps(AfterSections(image, delta), image.Coff() + 8, delta, i);
    DebugKeeps(AfterCoff(image, delta), image, delta, i);
    CertificateKeeps(AfterDebug(image, delta), image.DataDirs() + 8 * DIR_SECURITY, delta, i);
  }

  // ---- the later steps ----

  lemma SizesKeep(out: seq<byte>, image: Image, plan: ImportPlan, i: nat)
    requires FieldsInside(image, |out|) && i < |out|
    requires !InRange(i, image.Coff() + 2, 2) && !InRange(i, image.Opt() + 8, 4) && !InRange(i, image.Opt() + 56, 8)
    ensures WithSizes(out, image, plan)[i] == out[i]
  {
    hide PutU32, PutU16, U32At, HasBoundImport;
    var o1 := PutU16(out, image.Coff() + 2, NewCount(image));
    var o2 := PutU32(o1, image.Opt() + 60, plan.newHeaders);
    var o3 := PutU32(o2, image.Opt() + 56, plan.newImageSize);
    PutU16Keeps(out, image.Coff() + 2, NewCount(image), i);
    PutU32Keeps(o1, image.Opt() + 60, plan.newHeaders, i);
    PutU32Keeps(o2, image.Opt() + 56, plan.newImageSize, i);
    PutU32Keeps(o3, image.Opt() + 8, SatAdd(U32At(o3, image.Opt() + 8), plan.newSectionRawSize), i);
  }

  lemma DirectoriesKeep(out: seq<byte>, image: Image, plan: ImportPlan, i: nat)
    requires FieldsInside(image, |out|) && i < |out|
    requires !InRange(i, image.DataDirs() + 8 * DIR_IMPORT, 8)
    requires HasBoundImport(image) ==> !InRange(i, image.DataDirs() + 8 * DIR_BOUND_IMPORT, 8)
    ensures WithDirectories(out, image, plan)[i] == out[i]
  {
    hide PutU32, HasBoundImport;
    var at := image.DataDirs() + 8 * DIR_IMPORT;
    var o0 := PutU32(out, at, plan.newSectionRva);
    var o1 := PutU32(o0, at + 4, TableSize(plan));
    PutU32Keeps(out, at, plan.newSectionRva, i);
    PutU32Keeps(o0, at + 4, TableSize(plan), i);
    if HasBoundImport(image) {
      var bound := image.DataDirs() + 8 * DIR_BOUND_IMPORT;
      PutU32Keeps(o1, bound, 0, i);
      PutU32Keeps(PutU32(o1, bound, 0), bound + 4, 0, i);
    }
  }

  lemma ChecksumKeeps(out: seq<byte>, at: nat, i: nat)
    requires at + 4 <= |out| && i < |out| && !InRange(i, at, 4)
    ensures WithChecksum(out, at)[i] == out[i]
  {
    hide PutU32, U32At, Checksum.Value;
    var cleared := PutU32(out, at, 0);
    PutU32Keeps(out, at, 0, i);
    PutU32Keeps(cleared, at, if |out| < 0x40 then 0 else Checksum.Value(cleared, U32At(cleared, 0x3c) as int + 88), i);
  }

  /** Byte `i` belongs to a header field that is written at the end. */
  ghost predicate InLateField(image: Image, i: nat)
  {
    || InRange(i, image.Coff() + 2, 2) || InRange(i, image.Opt() + 8, 4) || InRange(i, image.Opt() + 56, 12)
    || InRange(i, image.DataDirs() + 8 * DIR_IMPORT, 8)
    || (HasBoundImport(image) && InRange(i, image.DataDirs() + 8 * DIR_BOUND_IMPORT, 8))
  }

  /** Byte `i` belongs to a header field that the rewrite changes. */
  ghost predicate InHeaderField(image: Image, i: nat)
  {
    || InLateField(image, i)
    || InRange(i, image.Coff() + 8, 4) || InRange(i, image.DataDirs() + 8 * DIR_SECURITY, 4)
  }

  /** All those fields lie in front of the section table. */
  lemma HeaderFieldsInFront(image: Image, i: nat)
    requires HeaderLayout(image) && InHeaderField(image, i)
    ensures image.peOffset + 6 <= i < image.SectionTable()
  {
  }

  /** Apart from the header fields and the new section header, the body is final. */
  lemma FinalByte(image: Image, plan: ImportPlan, i: nat)
    requires Rebuildable(image, plan) && i < |Body(image, plan)|
    requires !InLateField(image, i) && !InRange(i, image.SectionTableEnd(), 40)
    ensures Rebuilt(image, plan)[i] == Body(image, plan)[i]
  {
    var slotted := Slotted(image, plan);
    assert slotted[i] == Body(image, plan)[i];
    assert FieldsInside(image, |slotted|);
    hide Rebuildable, Slotted, Body, WithSizes, WithDirectories, WithChecksum, HasBoundImport, FieldsInside;
    var sized := WithSizes(slotted, image, plan);
    SizesKeep(slotted, image, plan, i);
    SameFieldsInside(image, |slotted|);
    DirectoriesKeep(sized, image, plan, i);
    ChecksumKeeps(WithDirectories(sized, image, plan), image.ChecksumOffset(), i);
  }

  lemma SameFieldsInside(image: Image, n: nat)
    requires FieldsInside(image, n)
    ensures image.ChecksumOffset() + 4 <= n
  {
  }

  /** The overlay step keeps every byte that is not in the certificate entry. */
  lemma OverlayKeeps(out: seq<byte>, image: Image, delta: u32, i: nat)
    requires !InRange(i, image.DataDirs() + 8 * DIR_SECURITY, 4)
    ensures i < |out| ==> WithOverlay(out, image, delta)[i] == out[i]
    ensures var end := OldRawEnd(image, delta);
            |out| <= i < |WithOverlay(out, image, delta)| ==>
              end < |image.data| && i - |out| < |image.data| - end
              && WithOverlay(out, image, delta)[i] == image.data[end + (i - |out|)]
  {
    var end := OldRawEnd(image, delta);
    if end < |image.data| && i < |out| + (|image.data| - end) {
      RelocateKeeps(out + image.data[end..], image.DataDirs() + 8 * DIR_SECURITY, end, Wrap32(|out|), i);
    }
  }

  /** In front of the end of the old section data, the body is the shifted file. */
  lemma FrontByte(image: Image, plan: ImportPlan, i: nat)
    requires Layout(image, plan) && Rebuildable(image, plan)
    requires i < OldRawEnd(image, Delta(image, plan)) && !InRange(i, image.DataDirs() + 8 * DIR_SECURITY, 4)
    ensures Body(image, plan)[i] == Shifted(image, Delta(image, plan))[i]
  {
    var delta := Delta(image, plan);
    CutKeeps(Shifted(image, delta), image, plan, delta, i);
    hide Rebuildable, Layout, WithSection, WithOverlay, Shifted, OldRawEnd, NewRaw, Delta;
    OverlayKeeps(WithSection(Shifted(image, delta), image, plan, delta), image, delta, i);
  }

  lemma CutKeeps(out: seq<byte>, image: Image, plan: ImportPlan, delta: u32, i: nat)
    requires NewRaw(image, delta) as int + plan.newSectionRawSize as int < LIMIT32
    requires i < NewRaw(image, delta) && i < |out|
    ensures WithSection(out, image, plan, delta)[i] == out[i]
  {
  }

  /** Behind the headers, the body is final. */
  lemma BehindHeaders(image: Image, plan: ImportPlan, i: nat)
    requires Layout(image, plan) && Rebuildable(image, plan)
    requires plan.newHeaders <= i < |Body(image, plan)|
    ensures Rebuilt(image, plan)[i] == Body(image, plan)[i]
  {
    if InHeaderField(image, i) {
      HeaderFieldsInFront(image, i);
    }
    FinalByte(image, plan, i);
  }

  lemma AppendedByte(out: seq<byte>, image: Image, plan: ImportPlan, delta: u32, j: nat)
    requires NewRaw(image, delta) as int + plan.newSectionRawSize as int < LIMIT32
    requires |plan.blob| <= plan.newSectionRawSize && j < plan.newSectionRawSize
    ensures WithSection(out, image, plan, delta)[NewRaw(image, delta) + j] == if j < |plan.blob| then plan.blob[j] else 0
  {
  }

  lemma SectionBehindHeaders(image: Image, plan: ImportPlan)
    requires Layout(image, plan) && Rebuildable(image, plan)
    ensures plan.newHeaders <= NewRaw(image, Delta(image, plan)) && |plan.blob| <= plan.newSectionRawSize
    ensures image.DataDirs() + 8 * DIR_SECURITY + 4 <= plan.newHeaders
    ensures NewRaw(image, Delta(image, plan)) as int + plan.newSectionRawSize as int == OverlayAt(image, plan)
    ensures |Body(image, plan)| == |Rebuilt(image, plan)|
  {
    hide Rebuilt, Body, RawInside, AlignUp32, Wrap32;
  }

  /** The new section: its contents, then zeros. */
  lemma SectionByte(image: Image, plan: ImportPlan, j: nat)
    requires Layout(image, plan) && Rebuildable(image, plan) && j < plan.newSectionRawSize
    ensures NewRaw(image, Delta(image, plan)) + j < |Rebuilt(image, plan)|
    ensures Rebuilt(image, plan)[NewRaw(image, Delta(image, plan)) + j] == if j < |plan.blob| then plan.blob[j] else 0
  {
    BodySteps(image, plan);
    SectionBehindHeaders(image, plan);
    var delta := Delta(image, plan);
    var i := NewRaw(image, delta) + j;
    hide *;
    AppendedByte(Shifted(image, delta), image, plan, delta, j);
    OverlayKeeps(WithSection(Shifted(image, delta), image, plan, delta), image, delta, i);
    BehindHeaders(image, plan, i);
  }

  /** Where the copied overlay starts in the rewritten file. */
  function OverlayAt(image: Image, plan: ImportPlan): nat
  {
    NewRaw(image, Delta(image, plan)) as int + plan.newSectionRawSize as int
  }

  lemma RebuiltLength(image: Image, plan: ImportPlan)
    requires Layout(image, plan) && Rebuildable(image, plan)
    ensures var end := OldRawEnd(image, Delta(image, plan));
            |Rebuilt(image, plan)| == OverlayAt(image, plan) + if end < |image.data| then |image.data| - end else 0
  {
  }

  lemma TailPlace(image: Image, plan: ImportPlan, i: nat)
    requires Layout(image, plan) && Rebuildable(image, plan)
    requires OverlayAt(image, plan) <= i < |Rebuilt(image, plan)|
    ensures plan.newHeaders <= i < |Body(image, plan)|
    ensures !InRange(i, image.DataDirs() + 8 * DIR_SECURITY, 4)
  {
    hide Body, Rebuilt;
  }

  lemma BodySteps(image: Image, plan: ImportPlan)
    requires Layout(image, plan) && Rebuildable(image, plan)
    ensures image.sizeOfHeaders <= |image.data| && HeadersInside(image.sections, |image.data|)
    ensures NewRaw(image, Delta(image, plan)) as int + plan.newSectionRawSize as int < LIMIT32
    ensures var delta := Delta(image, plan);
            var with := WithSection(Shifted(image, delta), image, plan, delta);
            Body(image, plan) == WithOverlay(with, image, delta) && |with| == OverlayAt(image, plan)
  {
    hide WithOverlay, Shifted, NewRaw, Delta;
  }

  lemma TailByte(image: Image, plan: ImportPlan, i: nat)
    requires Layout(image, plan) && Rebuildable(image, plan)
    requires OverlayAt(image, plan) <= i < |Rebuilt(image, plan)|
    ensures var k := OldRawEnd(image, Delta(image, plan)) + (i - OverlayAt(image, plan));
            k < |image.data| && Rebuilt(image, plan)[i] == image.data[k]
  {
    hide *;
    var delta := Delta(image, plan);
    TailPlace(image, plan, i);
    BodySteps(image, plan);
    OverlayKeeps(WithSection(Shifted(image, delta), image, plan, delta), image, delta, i);
    BehindHeaders(image, plan, i);
  }

  /** What follows the new section: the old file from `raw_end + delta` on. */
  lemma TailBytes(image: Image, plan: ImportPlan)
    requires Layout(image, plan) && Rebuildable(image, plan)
    ensures OverlayAt(image, plan) <= |Rebuilt(image, plan)|
    ensures var end := OldRawEnd(image, Delta(image, plan));
            Rebuilt(image, plan)[OverlayAt(image, plan)..] == image.data[Min(end, |image.data|)..]
  {
    var out := Rebuilt(image, plan);
    var at, end := OverlayAt(image, plan), Min(OldRawEnd(image, Delta(image, plan)), |image.data|);
    RebuiltLength(image, plan);
    forall i | at <= i < |out| ensures out[i] == image.data[end + (i - at)] {
      TailByte(image, plan, i);
    }
    SameTails(out, at, image.data, end);
  }
}
