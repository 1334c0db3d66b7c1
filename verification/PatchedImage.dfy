/** The rewritten file parses, to the old image with its section data moved and one more
    section. */
module PatchedImage {
  import opened Bytes
  import opened Parse
  import opened Import
  import opened Rebuild
  import opened PatchedBytes
  import Checksum

  // ---- header fields ----

  /** Up to the end of the old section data, only header fields and the slot change after
      the offsets have been shifted. */
  lemma FrontFinal(image: Image, plan: ImportPlan, i: nat)
    requires Layout(image, plan) && Rebuildable(image, plan)
    requires i < OldRawEnd(image, Delta(image, plan))
    requires !InHeaderField(image, i) && !InRange(i, image.SectionTableEnd(), 40)
    ensures Rebuilt(image, plan)[i] == Shifted(image, Delta(image, plan))[i]
  {
    FinalByte(image, plan, i);
    FrontByte(image, plan, i);
  }

  /** The debug entries do not reach into the headers. */
  lemma DebugKeepsHeaders(out: seq<byte>, image: Image, delta: u32, i: nat)
    requires forall k :: 0 <= k < |image.sections| ==> RawInside(image, image.sections[k])
    requires i < |out| && i < image.sizeOfHeaders + delta
    ensures ShiftDebug(out, image, delta)[i] == out[i]
  {
    if DebugDirectory(image).Some? {
      DebugBehindHeaders(image, delta, i);
    }
    DebugKeeps(out, image, delta, i);
  }

  /** In front of the grown headers' end, shifting touches the COFF and certificate
      pointers and the section table only. */
  lemma ShiftedHeaderByte(image: Image, delta: u32, i: nat)
    requires image.sizeOfHeaders <= |image.data| && HeadersInside(image.sections, |image.data|)
    requires forall k :: 0 <= k < |image.sections| ==> RawInside(image, image.sections[k])
    requires i < image.sizeOfHeaders + delta
    requires !InRange(i, image.Coff() + 8, 4) && !InRange(i, image.DataDirs() + 8 * DIR_SECURITY, 4)
    ensures Shifted(image, delta)[i] == AfterSections(image, delta)[i]
  {
    CoffKeeps(AfterSections(image, delta), image.Coff() + 8, delta, i);
    DebugKeepsHeaders(AfterCoff(image, delta), image, delta, i);
    CertificateKeeps(AfterDebug(image, delta), image.DataDirs() + 8 * DIR_SECURITY, delta, i);
  }

  lemma HeaderByte(image: Image, plan: ImportPlan, i: nat)
    requires Layout(image, plan) && Rebuildable(image, plan)
    requires i < image.SectionTable() && !InHeaderField(image, i)
    ensures Rebuilt(image, plan)[i] == image.data[i]
  {
    var delta := Delta(image, plan);
    FrontFinal(image, plan, i);
    ShiftedHeaderByte(image, delta, i);
    ShiftSectionsFrame(Inserted(image, delta), image.sections, image.SectionTable(), delta, i);
    InsertedByte(image, delta, i);
  }

  /** Every header byte outside the rewritten fields is the old one. */
  ghost predicate HeaderKept(out: seq<byte>, image: Image)
  {
    image.SectionTable() <= |out| && image.SectionTable() <= |image.data|
    && forall i {:trigger InHeaderField(image, i)} ::
         0 <= i < image.SectionTable() && !InHeaderField(image, i) ==> out[i] == image.data[i]
  }

  lemma HeadersKept(image: Image, plan: ImportPlan)
    requires Layout(image, plan) && Rebuildable(image, plan)
    ensures HeaderKept(Rebuilt(image, plan), image)
  {
    forall i | 0 <= i < image.SectionTable() && !InHeaderField(image, i)
      ensures Rebuilt(image, plan)[i] == image.data[i]
    {
      HeaderByte(image, plan, i);
    }
  }

  lemma HeaderField16(out: seq<byte>, image: Image, at: nat)
    requires HeaderKept(out, image)
    requires at + 2 <= image.SectionTable() && !InHeaderField(image, at) && !InHeaderField(image, at + 1)
    ensures U16At(out, at) == U16At(image.data, at)
  {
    SameField16(out, at, image.data, at);
  }

  lemma HeaderField32(out: seq<byte>, image: Image, at: nat)
    requires HeaderKept(out, image)
    requires at + 4 <= image.SectionTable()
    requires !InHeaderField(image, at) && !InHeaderField(image, at + 1)
    requires !InHeaderField(image, at + 2) && !InHeaderField(image, at + 3)
    ensures U32At(out, at) == U32At(image.data, at)
  {
    SameField32(out, at, image.data, at);
  }

  lemma SizesValues(out: seq<byte>, image: Image, plan: ImportPlan)
    requires FieldsInside(image, |out|)
    ensures var r := WithSizes(out, image, plan);
            && U16At(r, image.Coff() + 2) == NewCount(image)
            && U32At(r, image.Opt() + 60) == plan.newHeaders
            && U32At(r, image.Opt() + 56) == plan.newImageSize
            && U32At(r, image.Opt() + 8) == SatAdd(U32At(out, image.Opt() + 8), plan.newSectionRawSize)
  {
    hide PutU32, U32At, U16At, SatAdd;
    var at := image.Opt();
    var o1 := PutU16(out, image.Coff() + 2, NewCount(image));
    var o2 := PutU32(o1, at + 60, plan.newHeaders);
    var o3 := PutU32(o2, at + 56, plan.newImageSize);
    var v := SatAdd(U32At(o3, at + 8), plan.newSectionRawSize);
    SizesCount(out, o1, o2, o3, image, plan, v);
    PutU32Effect(o3, at + 8, v);
    FieldKept(o3, at + 8, v, at + 56);
    PutU32Effect(o2, at + 56, plan.newImageSize);
    FieldKept(o3, at + 8, v, at + 60);
    FieldKept(o2, at + 56, plan.newImageSize, at + 60);
    PutU32Effect(o1, at + 60, plan.newHeaders);
    FieldKept(o2, at + 56, plan.newImageSize, at + 8);
    FieldKept(o1, at + 60, plan.newHeaders, at + 8);
    SameField32(o1, at + 8, out, at + 8);
  }

  lemma SizesCount(out: seq<byte>, o1: seq<byte>, o2: seq<byte>, o3: seq<byte>, image: Image, plan: ImportPlan, v: u32)
    requires FieldsInside(image, |out|)
    requires o1 == PutU16(out, image.Coff() + 2, NewCount(image))
    requires o2 == PutU32(o1, image.Opt() + 60, plan.newHeaders)
    requires o3 == PutU32(o2, image.Opt() + 56, plan.newImageSize)
    ensures U16At(PutU32(o3, image.Opt() + 8, v), image.Coff() + 2) == NewCount(image)
  {
    PutU16Effect(out, image.Coff() + 2, NewCount(image));
    SameField16(PutU32(o3, image.Opt() + 8, v), image.Coff() + 2, o1, image.Coff() + 2);
  }

  lemma DirectoriesValues(out: seq<byte>, image: Image, plan: ImportPlan)
    requires FieldsInside(image, |out|)
    ensures var r := WithDirectories(out, image, plan);
            && U32At(r, image.DataDirs() + 8) == plan.newSectionRva
            && U32At(r, image.DataDirs() + 12) == TableSize(plan)
            && (HasBoundImport(image) ==> U32At(r, image.DataDirs() + 88) == 0 && U32At(r, image.DataDirs() + 92) == 0)
  {
    var at, bound := image.DataDirs() + 8, image.DataDirs() + 88;
    var size: u32 := TableSize(plan);
    var o0 := PutU32(out, at, plan.newSectionRva);
    var o1 := PutU32(o0, at + 4, size);
    PutU32Effect(o0, at + 4, size);
    FieldKept(o0, at + 4, size, at);
    PutU32Effect(out, at, plan.newSectionRva);
    if HasBoundImport(image) {
      var o2 := PutU32(o1, bound, 0);
      FieldKept(o1, bound, 0, at);
      FieldKept(o1, bound, 0, at + 4);
      FieldKept(o2, bound + 4, 0, at);
      FieldKept(o2, bound + 4, 0, at + 4);
      FieldKept(o2, bound + 4, 0, bound);
      PutU32Effect(o1, bound, 0);
      PutU32Effect(o2, bound + 4, 0);
    }
  }

  /** A field that the directory and checksum steps do not touch. */
  lemma AfterSizes32(out: seq<byte>, image: Image, plan: ImportPlan, at: nat)
    requires FieldsInside(image, |out|)
    requires at + 4 <= image.ChecksumOffset()
    ensures U32At(WithChecksum(WithDirectories(out, image, plan), image.ChecksumOffset()), at) == U32At(out, at)
  {
    var r := WithDirectories(out, image, plan);
    forall i | at <= i < at + 4 ensures WithChecksum(r, image.ChecksumOffset())[i] == out[i] {
      DirectoriesKeep(out, image, plan, i);
      ChecksumKeeps(r, image.ChecksumOffset(), i);
    }
    SameField32(WithChecksum(r, image.ChecksumOffset()), at, out, at);
  }

  lemma AfterSizes16(out: seq<byte>, image: Image, plan: ImportPlan, at: nat)
    requires FieldsInside(image, |out|)
    requires at + 2 <= image.ChecksumOffset()
    ensures U16At(WithChecksum(WithDirectories(out, image, plan), image.ChecksumOffset()), at) == U16At(out, at)
  {
    var r := WithDirectories(out, image, plan);
    forall i | at <= i < at + 2 ensures WithChecksum(r, image.ChecksumOffset())[i] == out[i] {
      DirectoriesKeep(out, image, plan, i);
      ChecksumKeeps(r, image.ChecksumOffset(), i);
    }
    SameField16(WithChecksum(r, image.ChecksumOffset()), at, out, at);
  }

  lemma AfterDirectories32(out: seq<byte>, off: nat, at: nat)
    requires off + 4 <= at && at + 4 <= |out|
    ensures U32At(WithChecksum(out, off), at) == U32At(out, at)
  {
    forall i | at <= i < at + 4 ensures WithChecksum(out, off)[i] == out[i] {
      ChecksumKeeps(out, off, i);
    }
    SameField32(WithChecksum(out, off), at, out, at);
  }

  /** The header fields that describe the new layout. */
  lemma HeaderValues(slotted: seq<byte>, image: Image, plan: ImportPlan)
    requires FieldsInside(image, |slotted|)
    ensures var out := WithChecksum(WithDirectories(WithSizes(slotted, image, plan), image, plan), image.ChecksumOffset());
            && U16At(out, image.Coff() + 2) == NewCount(image)
            && U32At(out, image.Opt() + 60) == plan.newHeaders
            && U32At(out, image.Opt() + 56) == plan.newImageSize
            && U32At(out, image.Opt() + 8) == SatAdd(U32At(slotted, image.Opt() + 8), plan.newSectionRawSize)
  {
    var sized := WithSizes(slotted, image, plan);
    SizesValues(slotted, image, plan);
    AfterSizes16(sized, image, plan, image.Coff() + 2);
    AfterSizes32(sized, image, plan, image.Opt() + 60);
    AfterSizes32(sized, image, plan, image.Opt() + 56);
    AfterSizes32(sized, image, plan, image.Opt() + 8);
  }

  lemma DirectoryValues(slotted: seq<byte>, image: Image, plan: ImportPlan)
    requires FieldsInside(image, |slotted|)
    ensures var out := WithChecksum(WithDirectories(WithSizes(slotted, image, plan), image, plan), image.ChecksumOffset());
            && U32At(out, image.DataDirs() + 8) == plan.newSectionRva
            && U32At(out, image.DataDirs() + 12) == TableSize(plan)
            && (HasBoundImport(image) ==> U32At(out, image.DataDirs() + 88) == 0 && U32At(out, image.DataDirs() + 92) == 0)
  {
    var sized := WithSizes(slotted, image, plan);
    var directed := WithDirectories(sized, image, plan);
    DirectoriesValues(sized, image, plan);
    AfterDirectories32(directed, image.ChecksumOffset(), image.DataDirs() + 8);
    AfterDirectories32(directed, image.ChecksumOffset(), image.DataDirs() + 12);
    if HasBoundImport(image) {
      AfterDirectories32(directed, image.ChecksumOffset(), image.DataDirs() + 88);
      AfterDirectories32(directed, image.ChecksumOffset(), image.DataDirs() + 92);
    }
  }

  // ---- the section table ----

  function NewSection(image: Image, plan: ImportPlan): Section
  {
    Section(HOOK_SECTION_NAME, image.SectionTableEnd(), plan.newSectionRva, plan.newSectionVsize,
            NewRaw(image, Delta(image, plan)), plan.newSectionRawSize, SCN_CHARACTERISTICS)
  }

  lemma SlotField(s: seq<byte>, before: seq<byte>, v: u32, after: seq<byte>)
    requires s == before + LE32(v) + after
    ensures U32At(s, |before|) == v
  {
    assert s[|before|..|before| + 4] == LE32(v) == LE32(v)[0..4];
    FieldValues(0, v);
    SameValue(s, |before|, LE32(v), 0, 4);
  }

  /** The written header decodes to the new section. */
  lemma SlotDecodes(plan: ImportPlan, newRaw: u32, relocations: u32, lineNumbers: u32)
    ensures var s := SlotBytes(plan, newRaw, relocations, lineNumbers);
            && SectionAt(s, 0) == Section(HOOK_SECTION_NAME, 0, plan.newSectionRva, plan.newSectionVsize,
                                          newRaw, plan.newSectionRawSize, SCN_CHARACTERISTICS)
            && U32At(s, 24) == relocations && U32At(s, 28) == lineNumbers
  {
    var s := SlotBytes(plan, newRaw, relocations, lineNumbers);
    var p1 := HOOK_SECTION_NAME;
    var p2 := p1 + LE32(plan.newSectionVsize);
    var p3 := p2 + LE32(plan.newSectionRva);
    var p4 := p3 + LE32(plan.newSectionRawSize);
    var p5 := p4 + LE32(newRaw);
    var p6 := p5 + LE32(relocations);
    var p7 := p6 + LE32(lineNumbers);
    var p8 := p7 + LE16(0) + LE16(0);
    assert s == p8 + LE32(SCN_CHARACTERISTICS) + [];
    SlotField(s, p8, SCN_CHARACTERISTICS, []);
    SlotField(s, p6, lineNumbers, LE16(0) + LE16(0) + LE32(SCN_CHARACTERISTICS));
    SlotField(s, p5, relocations, s[28..]);
    SlotField(s, p4, newRaw, s[24..]);
    SlotField(s, p3, plan.newSectionRawSize, s[20..]);
    SlotField(s, p2, plan.newSectionRva, s[16..]);
    SlotField(s, p1, plan.newSectionVsize, s[12..]);
    assert s[0..8] == HOOK_SECTION_NAME;
    TrimNulAt(s[0..8], 8);
  }

  /** In the old section table the rewrite only touches the data pointers. */
  lemma TableByte(image: Image, plan: ImportPlan, i: nat)
    requires Layout(image, plan) && Rebuildable(image, plan)
    requires image.SectionTable() <= i < image.SectionTableEnd()
    ensures Rebuilt(image, plan)[i] == AfterSections(image, Delta(image, plan))[i]
  {
    if InHeaderField(image, i) {
      HeaderFieldsInFront(image, i);
    }
    FrontFinal(image, plan, i);
    ShiftedHeaderByte(image, Delta(image, plan), i);
  }

  /** The rewritten section table, as a property of the file alone. */
  ghost predicate HasShiftedTable(out: seq<byte>, image: Image, delta: u32)
    requires image.sizeOfHeaders <= |image.data| && HeadersInside(image.sections, |image.data|)
    requires image.SectionTableEnd() <= |image.data|
  {
    SameOn(out, AfterSections(image, delta), image.SectionTable(), image.SectionTableEnd())
  }

  lemma TableShifted(image: Image, plan: ImportPlan)
    requires Layout(image, plan) && Rebuildable(image, plan)
    ensures HasShiftedTable(Rebuilt(image, plan), image, Delta(image, plan))
  {
    forall i | image.SectionTable() <= i < image.SectionTableEnd()
      ensures Rebuilt(image, plan)[i] == AfterSections(image, Delta(image, plan))[i]
    {
      TableByte(image, plan, i);
    }
  }

  lemma OutsidePointerFields(table: nat, n: nat, k: nat, i: nat)
    requires table + 40 * k <= i < table + 40 * k + 40
    requires !(PointerField(table, k) <= i < PointerField(table, k) + 4)
    ensures !InPointerField(table, n, i)
  {
    forall j | 0 <= j < n ensures !(PointerField(table, j) <= i < PointerField(table, j) + 4) {
      if j < k {
        assert PointerField(table, j) + 40 <= PointerField(table, k);
      } else if j > k {
        assert PointerField(table, k) + 40 <= PointerField(table, j);
      }
    }
  }

  lemma TableByteOutsidePointer(out: seq<byte>, image: Image, delta: u32, k: nat, i: nat)
    requires HeaderLayout(image) && HasShiftedTable(out, image, delta) && k < |image.sections|
    requires var at := image.SectionTable() + 40 * k; at <= i < at + 20 || at + 24 <= i < at + 40
    ensures out[i] == image.data[i]
  {
    OutsidePointerFields(image.SectionTable(), |image.sections|, k, i);
    ShiftSectionsFrame(Inserted(image, delta), image.sections, image.SectionTable(), delta, i);
    InsertedByte(image, delta, i);
  }

  lemma TablePointer(out: seq<byte>, image: Image, delta: u32, k: nat)
    requires HeaderLayout(image) && HasShiftedTable(out, image, delta) && k < |image.sections|
    requires image.sections[k] == SectionAt(image.data, image.SectionTable() + 40 * k)
    ensures U32At(out, PointerField(image.SectionTable(), k)) == Moved(image.sections[k], delta).pointerToRawData
  {
    var at := PointerField(image.SectionTable(), k);
    ShiftSectionsAt(Inserted(image, delta), image.sections, image.SectionTable(), delta, k);
    SameField32(out, at, AfterSections(image, delta), at);
    SameField32(Inserted(image, delta), at, image.data, at);
  }

  lemma OldSection(out: seq<byte>, image: Image, delta: u32, k: nat)
    requires HeaderLayout(image) && HasShiftedTable(out, image, delta) && k < |image.sections|
    requires image.sections[k] == SectionAt(image.data, image.SectionTable() + 40 * k)
    ensures SectionAt(out, image.SectionTable() + 40 * k) == Moved(image.sections[k], delta)
  {
    var at := image.SectionTable() + 40 * k;
    forall i | at <= i < at + 20 || at + 24 <= i < at + 40 ensures out[i] == image.data[i] {
      TableByteOutsidePointer(out, image, delta, k, i);
    }
    TablePointer(out, image, delta, k);
    SectionUpToPointer(out, image.data, at);
  }

  function MovedAll(sections: seq<Section>, delta: u32): (r: seq<Section>)
    ensures |r| == |sections|
    ensures forall k :: 0 <= k < |sections| ==> r[k] == Moved(sections[k], delta)
  {
    seq(|sections|, k requires 0 <= k < |sections| => Moved(sections[k], delta))
  }

  lemma OldTable(out: seq<byte>, image: Image, delta: u32)
    requires HeaderLayout(image) && HasShiftedTable(out, image, delta)
    requires IsSectionTable(image.data, image.SectionTable(), image.sections)
    ensures IsSectionTable(out, image.SectionTable(), MovedAll(image.sections, delta))
  {
    forall k | 0 <= k < |image.sections|
      ensures SectionAt(out, image.SectionTable() + 40 * k) == Moved(image.sections[k], delta)
    {
      OldSection(out, image, delta, k);
    }
  }

  lemma TableMoved(image: Image, plan: ImportPlan)
    requires Layout(image, plan) && Rebuildable(image, plan)
    requires IsSectionTable(image.data, image.SectionTable(), image.sections)
    ensures IsSectionTable(Rebuilt(image, plan), image.SectionTable(), MovedAll(image.sections, Delta(image, plan)))
  {
    TableShifted(image, plan);
    OldTable(Rebuilt(image, plan), image, Delta(image, plan));
  }

  /** The slot holds zeros until the new header is written. */
  lemma SlotZero(image: Image, plan: ImportPlan, i: nat)
    requires Layout(image, plan) && Rebuildable(image, plan) && SlotIsEmpty(image)
    requires image.SectionTableEnd() <= i < SlotEnd(image)
    ensures Body(image, plan)[i] == 0
  {
    var delta := Delta(image, plan);
    FrontByte(image, plan, i);
    if DebugDirectory(image).Some? {
      DebugBehindHeaders(image, delta, i);
    }
    assert !InPointerField(image.SectionTable(), |image.sections|, i);
    ShiftedByte(image, delta, i);
    if i < image.sizeOfHeaders {
      InsertedByte(image, delta, i);
    } else {
      InsertedZeros(image, delta, i);
    }
  }

  lemma SlotByteKept(image: Image, plan: ImportPlan, i: nat)
    requires Layout(image, plan) && Rebuildable(image, plan)
    requires image.SectionTableEnd() <= i < SlotEnd(image)
    ensures Rebuilt(image, plan)[i] == Slotted(image, plan)[i]
  {
    if InHeaderField(image, i) {
      HeaderFieldsInFront(image, i);
    }
    var slotted := Slotted(image, plan);
    var sized := WithSizes(slotted, image, plan);
    SizesKeep(slotted, image, plan, i);
    DirectoriesKeep(sized, image, plan, i);
    ChecksumKeeps(WithDirectories(sized, image, plan), image.ChecksumOffset(), i);
  }

  /** Writing the header over an empty slot. */
  lemma SlotOverZeros(body: seq<byte>, at: nat, plan: ImportPlan, newRaw: u32, delta: u32)
    requires at + 40 <= |body| && forall i :: at <= i < at + 40 ==> body[i] == 0
    ensures WithSlot(body, at, plan, newRaw, delta)[at..at + 40] == SlotBytes(plan, newRaw, delta, delta)
  {
    ZeroField32(body, at + 24);
    ZeroField32(body, at + 28);
    PutEffect(body, at, SlotBytes(plan, newRaw, delta, delta));
  }

  lemma SlotCopied(image: Image, plan: ImportPlan)
    requires Layout(image, plan) && Rebuildable(image, plan)
    ensures SameOn(Rebuilt(image, plan), Slotted(image, plan), image.SectionTableEnd(), SlotEnd(image))
  {
    forall i | image.SectionTableEnd() <= i < SlotEnd(image)
      ensures Rebuilt(image, plan)[i] == Slotted(image, plan)[i]
    {
      SlotByteKept(image, plan, i);
    }
  }

  lemma SlottedSlot(image: Image, plan: ImportPlan)
    requires Layout(image, plan) && Rebuildable(image, plan) && SlotIsEmpty(image)
    ensures var delta, at := Delta(image, plan), image.SectionTableEnd();
            at + 40 <= |Slotted(image, plan)|
            && Slotted(image, plan)[at..at + 40] == SlotBytes(plan, NewRaw(image, delta), delta, delta)
  {
    var delta, at := Delta(image, plan), image.SectionTableEnd();
    forall i | at <= i < at + 40 ensures Body(image, plan)[i] == 0 {
      SlotZero(image, plan, i);
    }
    SlotOverZeros(Body(image, plan), at, plan, NewRaw(image, delta), delta);
  }

  ghost predicate HasSlotBytes(out: seq<byte>, image: Image, plan: ImportPlan)
  {
    SlotEnd(image) <= |out|
    && out[image.SectionTableEnd()..SlotEnd(image)]
       == SlotBytes(plan, NewRaw(image, Delta(image, plan)), Delta(image, plan), Delta(image, plan))
  }

  lemma SlotBytesWritten(image: Image, plan: ImportPlan)
    requires Layout(image, plan) && Rebuildable(image, plan) && SlotIsEmpty(image)
    ensures HasSlotBytes(Rebuilt(image, plan), image, plan)
  {
    SlottedSlot(image, plan);
    SlotCopied(image, plan);
    SameSlices(Rebuilt(image, plan), Slotted(image, plan), image.SectionTableEnd(), SlotEnd(image));
  }

  /** The new section header stands in the slot. Its relocation and line number pointers,
      which the comment promises to stay 0, hold `delta`. */
  ghost predicate HasSlot(out: seq<byte>, image: Image, plan: ImportPlan)
  {
    && SlotEnd(image) <= |out|
    && SectionAt(out, image.SectionTableEnd()) == NewSection(image, plan)
    && U32At(out, image.SectionTableEnd() + 24) == Delta(image, plan)
    && U32At(out, image.SectionTableEnd() + 28) == Delta(image, plan)
  }

  lemma SlotSection(out: seq<byte>, image: Image, plan: ImportPlan)
    requires HasSlotBytes(out, image, plan)
    ensures HasSlot(out, image, plan)
  {
    var delta, newRaw := Delta(image, plan), NewRaw(image, Delta(image, plan));
    SlotDecodes(plan, newRaw, delta, delta);
    SectionFromSlot(out, image.SectionTableEnd(), SlotBytes(plan, newRaw, delta, delta));
  }

  lemma SlotWritten(image: Image, plan: ImportPlan)
    requires Layout(image, plan) && Rebuildable(image, plan) && SlotIsEmpty(image)
    ensures HasSlot(Rebuilt(image, plan), image, plan)
  {
    SlotBytesWritten(image, plan);
    SlotSection(Rebuilt(image, plan), image, plan);
  }

  lemma SectionFromSlot(d: seq<byte>, at: nat, s: seq<byte>)
    requires at + 40 <= |d| && |s| == 40 && d[at..at + 40] == s
    ensures SectionAt(d, at) == SectionAt(s, 0).(headerOffset := at)
    ensures U32At(d, at + 24) == U32At(s, 24) && U32At(d, at + 28) == U32At(s, 28)
  {
    assert d[at..at + 8] == d[at..at + 40][0..8] == s[0..8];
    FieldInSlice(d, at, s, 8);
    FieldInSlice(d, at, s, 12);
    FieldInSlice(d, at, s, 16);
    FieldInSlice(d, at, s, 20);
    FieldInSlice(d, at, s, 24);
    FieldInSlice(d, at, s, 28);
    FieldInSlice(d, at, s, 36);
  }

  /** The size fields and directories describe the new layout. */
  ghost predicate HasNewFields(out: seq<byte>, image: Image, plan: ImportPlan)
  {
    && FieldsInside(image, |out|)
    && U16At(out, image.Coff() + 2) == NewCount(image)
    && U32At(out, image.Opt() + 60) == plan.newHeaders
    && U32At(out, image.Opt() + 56) == plan.newImageSize
    && U32At(out, image.DataDirs() + 8) == plan.newSectionRva
    && U32At(out, image.DataDirs() + 12) == TableSize(plan)
    && (HasBoundImport(image) ==> U32At(out, image.DataDirs() + 88) == 0 && U32At(out, image.DataDirs() + 92) == 0)
  }

  lemma FieldsWritten(image: Image, plan: ImportPlan)
    requires Layout(image, plan) && Rebuildable(image, plan)
    ensures HasNewFields(Rebuilt(image, plan), image, plan)
  {
    HeaderValues(Slotted(image, plan), image, plan);
    DirectoryValues(Slotted(image, plan), image, plan);
  }

  // ---- the whole image ----

  /** The image that the rewritten file is meant to hold. */
  function PatchedAs(out: seq<byte>, image: Image, plan: ImportPlan): Image
  {
    image.(data := out,
           numberOfSections := (image.numberOfSections as int + 1) % 0x1_0000,
           sizeOfImage := plan.newImageSize,
           sizeOfHeaders := plan.newHeaders,
           sections := MovedAll(image.sections, Delta(image, plan)) + [NewSection(image, plan)])
  }

  /** The header fields that a parser reads and the rewrite leaves alone. */
  ghost predicate SameIdentity(out: seq<byte>, image: Image)
  {
    && image.peOffset + 136 <= |out|
    && U32At(out, 0x3c) == image.peOffset
    && U16At(out, image.peOffset + 4) == image.machine
    && U16At(out, image.peOffset + 20) == image.sizeOfOptionalHeader
    && U16At(out, image.peOffset + 24) == MAGIC_PE32_PLUS
    && U32At(out, image.peOffset + 56) == image.sectionAlignment
    && U32At(out, image.peOffset + 60) == image.fileAlignment
    && U32At(out, image.peOffset + 132) == image.numRvaAndSizes
  }

  /** Offsets in front of the section table that no rewritten field covers. */
  lemma UntouchedField(image: Image, at: nat)
    requires HeaderLayout(image)
    requires at <= image.peOffset + 5 || image.peOffset + 20 <= at <= image.peOffset + 31
             || image.peOffset + 56 <= at <= image.peOffset + 79 || image.peOffset + 132 <= at <= image.peOffset + 143
    ensures at < image.SectionTable() && !InHeaderField(image, at)
  {
  }

  lemma Untouched32(out: seq<byte>, image: Image, at: nat)
    requires HeaderLayout(image) && HeaderKept(out, image)
    requires at + 3 <= image.peOffset + 5 || image.peOffset + 20 <= at <= image.peOffset + 28
             || image.peOffset + 56 <= at <= image.peOffset + 76 || image.peOffset + 132 <= at <= image.peOffset + 140
    ensures at + 4 <= |out| && at + 4 <= |image.data| && U32At(out, at) == U32At(image.data, at)
  {
    UntouchedField(image, at);
    UntouchedField(image, at + 1);
    UntouchedField(image, at + 2);
    UntouchedField(image, at + 3);
    HeaderField32(out, image, at);
  }

  lemma Untouched16(out: seq<byte>, image: Image, at: nat)
    requires HeaderLayout(image) && HeaderKept(out, image)
    requires at == image.peOffset + 4 || image.peOffset + 20 <= at <= image.peOffset + 28
    ensures at + 2 <= |out| && at + 2 <= |image.data| && U16At(out, at) == U16At(image.data, at)
  {
    UntouchedField(image, at);
    UntouchedField(image, at + 1);
    HeaderField16(out, image, at);
  }

  lemma IdentityKept(out: seq<byte>, image: Image)
    requires HeaderError(image.data).None? && image == ImageOf(image.data, image.sections)
    requires HeaderLayout(image) && HeaderKept(out, image)
    ensures SameIdentity(out, image)
  {
    var pe := image.peOffset;
    Untouched32(out, image, 0x3c);
    Untouched16(out, image, pe + 4);
    Untouched16(out, image, pe + 20);
    Untouched16(out, image, pe + 24);
    Untouched32(out, image, pe + 56);
    Untouched32(out, image, pe + 60);
    Untouched32(out, image, pe + 132);
  }

  lemma SignaturesKept(out: seq<byte>, image: Image)
    requires HeaderError(image.data).None? && image == ImageOf(image.data, image.sections)
    requires HeaderLayout(image) && HeaderKept(out, image)
    ensures image.peOffset + 4 <= |out| && out[0] == 0x4d && out[1] == 0x5a
    ensures out[image.peOffset..image.peOffset + 4] == [0x50, 0x45, 0, 0]
  {
    forall i | 0 <= i < image.peOffset + 4 ensures out[i] == image.data[i] {
      UntouchedField(image, i);
    }
    SameSlices(out, image.data, image.peOffset, image.peOffset + 4);
  }

  lemma PatchedHeaderPasses(out: seq<byte>, image: Image)
    requires HeaderError(image.data).None? && image == ImageOf(image.data, image.sections)
    requires image.numberOfSections < MAX_SECTIONS && SameIdentity(out, image)
    requires out[0] == 0x4d && out[1] == 0x5a
    requires out[image.peOffset..image.peOffset + 4] == [0x50, 0x45, 0, 0]
    requires U16At(out, image.peOffset + 6) == NewCount(image)
    ensures HeaderError(out).None?
  {
  }

  /** Every field that a parser reads before the section table. */
  lemma PatchedFields(out: seq<byte>, image: Image, plan: ImportPlan)
    requires HeaderError(out).None? && SameIdentity(out, image) && HasNewFields(out, image, plan)
    ensures ImageOf(out, PatchedAs(out, image, plan).sections) == PatchedAs(out, image, plan)
  {
    hide HeaderError, U16At, U32At, MovedAll, NewSection, Delta, HasBoundImport;
  }

  lemma PatchedTable(out: seq<byte>, image: Image, plan: ImportPlan)
    requires |image.sections| == image.numberOfSections < MAX_SECTIONS
    requires IsSectionTable(out, image.SectionTable(), MovedAll(image.sections, Delta(image, plan)))
    requires HasSlot(out, image, plan)
    ensures IsSectionTable(out, image.SectionTable(), PatchedAs(out, image, plan).sections)
  {
    TableAppend(out, image.SectionTable(), MovedAll(image.sections, Delta(image, plan)), NewSection(image, plan));
  }

  lemma PatchedHeaders(out: seq<byte>, image: Image)
    requires Decodes(image.data, image) && HeaderLayout(image) && HeaderKept(out, image)
    requires U16At(out, image.Coff() + 2) == NewCount(image)
    ensures HeaderError(out).None? && SameIdentity(out, image)
  {
    IdentityKept(out, image);
    SignaturesKept(out, image);
    PatchedHeaderPasses(out, image);
  }

  /** All that a parser sees of the rewritten file. */
  ghost predicate IsPatched(out: seq<byte>, image: Image, plan: ImportPlan)
  {
    && HeaderError(out).None?
    && SameIdentity(out, image)
    && HasNewFields(out, image, plan)
    && IsSectionTable(out, image.SectionTable(), MovedAll(image.sections, Delta(image, plan)))
    && HasSlot(out, image, plan)
  }

  lemma RebuiltHeaders(image: Image, plan: ImportPlan)
    requires Layout(image, plan) && Rebuildable(image, plan) && Decodes(image.data, image)
    ensures HeaderError(Rebuilt(image, plan)).None? && SameIdentity(Rebuilt(image, plan), image)
  {
    HeadersKept(image, plan);
    FieldsWritten(image, plan);
    PatchedHeaders(Rebuilt(image, plan), image);
  }

  lemma RebuiltIsPatched(image: Image, plan: ImportPlan)
    requires Layout(image, plan) && Rebuildable(image, plan) && Decodes(image.data, image)
    requires SlotIsEmpty(image)
    ensures IsPatched(Rebuilt(image, plan), image, plan)
  {
    RebuiltHeaders(image, plan);
    FieldsWritten(image, plan);
    TableMoved(image, plan);
    SlotWritten(image, plan);
  }

  lemma PatchedDecodes(out: seq<byte>, image: Image, plan: ImportPlan)
    requires |image.sections| == image.numberOfSections < MAX_SECTIONS
    requires IsPatched(out, image, plan)
    ensures Decodes(out, PatchedAs(out, image, plan))
  {
    PatchedShape(out, image, plan);
    hide HeaderError, SameIdentity, HasNewFields, HasSlot, ImageOf, IsSectionTable, MovedAll, NewSection, PatchedAs, Delta;
    PatchedFields(out, image, plan);
    PatchedTable(out, image, plan);
  }

  lemma PatchedShape(out: seq<byte>, image: Image, plan: ImportPlan)
    requires |image.sections| == image.numberOfSections < MAX_SECTIONS && IsPatched(out, image, plan)
    ensures var patched := PatchedAs(out, image, plan);
            && patched.SectionTable() == image.SectionTable()
            && patched.SectionTableEnd() <= |out|
            && |patched.sections| == patched.numberOfSections
  {
    hide HeaderError, SameIdentity, HasNewFields, IsSectionTable, SectionAt, U32At, U16At, NewSection, Delta;
  }

  /** Main result: whatever well-formed image is planned for and rewritten, the result
      parses, as the old image with its data moved and the new section added. */
  lemma PatchedParses(image: Image, dll: seq<byte>, entry: seq<byte>, plan: ImportPlan)
    requires Ready(image, dll, entry, plan)
    ensures Rebuildable(image, plan) && image.numberOfSections < MAX_SECTIONS
    ensures IsPatched(Rebuilt(image, plan), image, plan)
    ensures ParseSpec(Rebuilt(image, plan)) == Ok(PatchedAs(Rebuilt(image, plan), image, plan))
  {
    ReadyLayout(image, dll, entry, plan);
    LayoutRebuildable(image, plan);
    ParsedDecodes(image.data, image);
    RebuiltIsPatched(image, plan);
    PatchedDecodes(Rebuilt(image, plan), image, plan);
    DecodedParses(Rebuilt(image, plan), PatchedAs(Rebuilt(image, plan), image, plan));
  }
}
