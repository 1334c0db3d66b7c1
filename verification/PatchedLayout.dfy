/** The layout of the rewritten image is sound again, and its checksum is right. */
module PatchedLayout {
  import opened Bytes
  import opened Parse
  import opened Import
  import opened Rebuild
  import opened PatchedBytes
  import opened PatchedImage
  import opened PatchedContents
  import opened PatchedImports
  import Checksum

  /** Headers come before all data and addresses, no raw data overlaps in the file, and the image
      size covers every section. */
  ghost predicate SoundLayout(image: Image)
  {
    && WellFormed(image)
    && RawRangesSound(image)
    && forall k :: 0 <= k < |image.sections| ==> SectionInside(image, image.sections[k])
  }

  ghost predicate SectionInside(image: Image, s: Section)
  {
    image.sizeOfHeaders <= s.virtualAddress && s.virtualAddress as int + s.Span() as int <= image.sizeOfImage
  }

  /** No two sections overlap in memory. Neither the planner nor the rewriter looks at this. */
  ghost predicate MemoryDisjoint(sections: seq<Section>)
  {
    forall i, j :: 0 <= i < j < |sections| ==> Apart(sections[i], sections[j])
  }

  ghost predicate Apart(s: Section, t: Section)
  {
    || s.virtualAddress as int + s.Span() as int <= t.virtualAddress
    || t.virtualAddress as int + t.Span() as int <= s.virtualAddress
  }

  /** The new addresses lie behind all old ones, so that sections overlap in memory only where they
      did before. */
  lemma MemoryDisjointKept(image: Image, plan: ImportPlan, out: seq<byte>)
    requires forall s :: s in image.sections ==> s.virtualAddress as int + s.Span() as int <= plan.newSectionRva
    ensures MemoryDisjoint(PatchedAs(out, image, plan).sections) <==> MemoryDisjoint(image.sections)
  {
    var after, n := PatchedAs(out, image, plan).sections, |image.sections|;
    hide Delta, PatchedAs;
    assert after == MovedAll(image.sections, Delta(image, plan)) + [NewSection(image, plan)] by { PatchedSections(image, plan, out); }
    forall i, j | 0 <= i < j < n ensures Apart(after[i], after[j]) <==> Apart(image.sections[i], image.sections[j]) {
      MovedApart(image.sections[i], image.sections[j], Delta(image, plan));
    }
    forall i | 0 <= i < n ensures Apart(after[i], after[n]) {
      assert image.sections[i] in image.sections;
    }
    if MemoryDisjoint(after) {
      forall i, j | 0 <= i < j < n ensures Apart(image.sections[i], image.sections[j]) {
        assert Apart(after[i], after[j]);
      }
    }
  }

  lemma PatchedSections(image: Image, plan: ImportPlan, out: seq<byte>)
    ensures PatchedAs(out, image, plan).sections == MovedAll(image.sections, Delta(image, plan)) + [NewSection(image, plan)]
  {
  }

  lemma MovedApart(s: Section, t: Section, delta: u32)
    ensures Apart(Moved(s, delta), Moved(t, delta)) <==> Apart(s, t)
  {
  }

  // ---- well-formedness is kept ----

  lemma PatchedWellFormed(image: Image, plan: ImportPlan, out: seq<byte>)
    requires HeaderLayout(image) && SlotEnd(image) <= plan.newHeaders <= |out|
    requires ParseSpec(out) == Ok(PatchedAs(out, image, plan))
    ensures WellFormed(PatchedAs(out, image, plan))
  {
    hide ParseSpec, MovedAll, NewSection, Delta;
  }

  // ---- raw ranges ----

  /** The raw data of a moved section, without wrap-around. */
  lemma MovedRange(image: Image, s: Section, delta: u32)
    requires RawInside(image, s) && RawEnd(image) as int + delta as int < LIMIT32
    ensures var m := Moved(s, delta);
            m.sizeOfRawData == s.sizeOfRawData
            && (s.sizeOfRawData != 0 ==>
                  && m.pointerToRawData as int == s.pointerToRawData as int + delta as int
                  && SatAdd(m.pointerToRawData, m.sizeOfRawData) as int
                     == s.pointerToRawData as int + delta as int + s.sizeOfRawData as int
                  && SatAdd(s.pointerToRawData, s.sizeOfRawData) as int == s.pointerToRawData as int + s.sizeOfRawData as int
                  && SatAdd(m.pointerToRawData, m.sizeOfRawData) as int <= RawEnd(image) as int + delta as int)
  {
  }

  lemma MovedDisjoint(image: Image, s: Section, t: Section, delta: u32)
    requires RawInside(image, s) && RawInside(image, t) && RawEnd(image) as int + delta as int < LIMIT32
    requires RawDisjoint(s, t)
    ensures RawDisjoint(Moved(s, delta), Moved(t, delta))
  {
    hide RawInside, RawEnd, Moved;
    MovedRange(image, s, delta);
    MovedRange(image, t, delta);
  }

  /** Where the new section's data lies. */
  ghost predicate NewRange(image: Image, plan: ImportPlan, length: nat)
  {
    var delta, newRaw := Delta(image, plan), NewRaw(image, Delta(image, plan));
    && plan.newHeaders == image.sizeOfHeaders as int + delta
    && plan.newHeaders <= newRaw
    && RawEnd(image) as int + delta as int <= newRaw
    && newRaw as int + plan.newSectionRawSize as int < LIMIT32
    && newRaw as int + plan.newSectionRawSize as int <= length
  }

  lemma LayoutNewRange(image: Image, plan: ImportPlan)
    requires Layout(image, plan) && Rebuildable(image, plan)
    ensures NewRange(image, plan, |Rebuilt(image, plan)|)
  {
    hide Rebuilt, RawInside, RawEnd, NewRaw;
  }

  /** One section of the rewritten image against the file. */
  ghost predicate RangeInside(s: Section, headers: nat, length: nat)
  {
    s.sizeOfRawData != 0 ==>
      headers <= s.pointerToRawData && SatAdd(s.pointerToRawData, s.sizeOfRawData) <= length
  }

  lemma MovedInside(image: Image, plan: ImportPlan, s: Section, length: nat)
    requires RawInside(image, s) && NewRange(image, plan, length)
    ensures RangeInside(Moved(s, Delta(image, plan)), plan.newHeaders, length)
    ensures RawDisjoint(Moved(s, Delta(image, plan)), NewSection(image, plan))
  {
    MovedRange(image, s, Delta(image, plan));
    hide Moved, RawEnd, NewRaw, Delta;
  }

  lemma NewInside(image: Image, plan: ImportPlan, length: nat)
    requires NewRange(image, plan, length)
    ensures RangeInside(NewSection(image, plan), plan.newHeaders, length)
  {
    hide RawEnd, NewRaw, Delta;
  }

  lemma RangesStaySound(image: Image, plan: ImportPlan, out: seq<byte>)
    requires RawRangesSound(image) && DataFits(image, Delta(image, plan)) && NewRange(image, plan, |out|)
    ensures RawRangesSound(PatchedAs(out, image, plan))
  {
    var after, n, delta := PatchedAs(out, image, plan), |image.sections|, Delta(image, plan);
    assert forall k :: 0 <= k < n ==> RawInside(image, image.sections[k]);
    assert RawEnd(image) as int + delta as int < LIMIT32;
    hide NewRange, DataFits, RawInside, RawEnd, Delta, Moved, NewSection, SatAdd, RawDisjoint;
    forall i | 0 <= i <= n ensures RangeInside(after.sections[i], plan.newHeaders, |out|) {
      if i < n {
        MovedInside(image, plan, image.sections[i], |out|);
      } else {
        NewInside(image, plan, |out|);
      }
    }
    forall i, j | 0 <= i < j <= n ensures RawDisjoint(after.sections[i], after.sections[j]) {
      if j < n {
        MovedDisjoint(image, image.sections[i], image.sections[j], delta);
      } else {
        MovedInside(image, plan, image.sections[i], |out|);
      }
    }
  }

  // ---- addresses ----

  lemma ReadyImageSize(image: Image, dll: seq<byte>, entry: seq<byte>, plan: ImportPlan)
    requires Ready(image, dll, entry, plan)
    ensures plan.newSectionRva as int + plan.newSectionRawSize as int <= plan.newImageSize
    ensures image.sectionAlignment > 0 && plan.newImageSize % image.sectionAlignment == 0
    ensures image.fileAlignment > 0 && plan.newSectionRawSize % image.fileAlignment == 0
    ensures plan.newHeaders % image.fileAlignment == 0
  {
    hide Ready, MaxRvaEnd, IsPowerOfTwo, SlotEnd;
    PlanAddresses(image, dll, entry, plan);
    ReadyNewSection(image, dll, entry, plan);
    ReadyAlignments(image, dll, entry, plan);
    RawSizeFits(plan.newSectionRva, plan.newSectionVsize, image.fileAlignment, image.sectionAlignment);
    AlignUpMultiple(plan.newSectionRva + plan.newSectionVsize, image.sectionAlignment);
    AlignUpMultiple(plan.newSectionVsize, image.fileAlignment);
    AlignUpMultiple(Max(SlotEnd(image), image.sizeOfHeaders), image.fileAlignment);
  }

  /** Every old address range ends where the new section begins, or before. */
  lemma OldRangesEnd(image: Image, plan: ImportPlan, s: Section)
    requires NewSectionMapped(image, plan) && s in image.sections
    ensures s.virtualAddress as int + s.Span() as int <= plan.newSectionRva
  {
    assert s.RvaEnd() <= plan.newSectionRva < LIMIT32 - 1;
  }

  lemma SectionsInside(image: Image, plan: ImportPlan, out: seq<byte>)
    requires NewSectionMapped(image, plan)
    requires plan.newSectionRva as int + plan.newSectionRawSize as int <= plan.newImageSize
    requires plan.newHeaders <= plan.newSectionRva
    requires forall s :: s in image.sections ==> plan.newHeaders <= s.virtualAddress
    ensures var after := PatchedAs(out, image, plan);
            forall k :: 0 <= k < |after.sections| ==> SectionInside(after, after.sections[k])
  {
    hide MaxRvaEnd, NewRaw, Delta;
    var after := PatchedAs(out, image, plan);
    forall k | 0 <= k < |after.sections| ensures SectionInside(after, after.sections[k]) {
      if k < |image.sections| {
        OldRangesEnd(image, plan, image.sections[k]);
        assert image.sections[k] in image.sections;
      }
    }
  }

  // ---- main results ----

  lemma PatchedRanges(image: Image, dll: seq<byte>, entry: seq<byte>, plan: ImportPlan, out: seq<byte>)
    requires Patches(image, dll, entry, plan, out)
    ensures Ready(image, dll, entry, plan)
    ensures HeaderLayout(image) && SlotEnd(image) <= plan.newHeaders <= |out|
    ensures RawRangesSound(image) && NewRange(image, plan, |out|)
  {
    assert Ready(image, dll, entry, plan) && Rebuildable(image, plan) && out == Rebuilt(image, plan);
    hide *;
    ReadyLayout(image, dll, entry, plan);
    ReadyHeaderLayout(image, dll, entry, plan);
    HeadersInFile(image, plan);
    LayoutNewRange(image, plan);
  }

  lemma SoundFromParts(image: Image)
    requires WellFormed(image) && RawRangesSound(image)
    requires forall k :: 0 <= k < |image.sections| ==> SectionInside(image, image.sections[k])
    ensures SoundLayout(image)
  {
    hide WellFormed, RawRangesSound, SectionInside;
  }

  /** Main result: the rewritten image is well-formed again; its headers end before every
      section's data and address, all raw ranges are inside the file and pairwise disjoint,
      the new addresses lie behind the old ones, and SizeOfImage covers every section. */
  lemma PatchedLayoutSound(image: Image, dll: seq<byte>, entry: seq<byte>, plan: ImportPlan, out: seq<byte>)
    requires Patches(image, dll, entry, plan, out)
    ensures SoundLayout(PatchedAs(out, image, plan))
    ensures forall s :: s in image.sections ==> s.virtualAddress as int + s.Span() as int <= plan.newSectionRva
    ensures MemoryDisjoint(PatchedAs(out, image, plan).sections) <==> MemoryDisjoint(image.sections)
    ensures image.sectionAlignment > 0
    ensures plan.newSectionRva % image.sectionAlignment == 0 && plan.newImageSize % image.sectionAlignment == 0
  {
    hide Patches, SoundLayout, WellFormed, RawRangesSound, SectionInside, Ready, ParseSpec, HeaderLayout, NewRange, SlotEnd,
         NewSectionMapped, DataFits, DataMoved, IsPatched, PatchedAs, Delta, MemoryDisjoint;
    PatchedRanges(image, dll, entry, plan, out);
    PatchFacts(image, dll, entry, plan, out);
    ReadyPositive(image, dll, entry, plan);
    ReadyImageSize(image, dll, entry, plan);
    ReadyNewSection(image, dll, entry, plan);
    PatchedWellFormed(image, plan, out);
    RangesStaySound(image, plan, out);
    SectionsInside(image, plan, out);
    SoundFromParts(PatchedAs(out, image, plan));
    forall s | s in image.sections ensures s.virtualAddress as int + s.Span() as int <= plan.newSectionRva {
      OldRangesEnd(image, plan, s);
    }
    MemoryDisjointKept(image, plan, out);
  }

  /** A section that has no data, or whose data starts at a multiple of the file alignment. */
  predicate FileAligned(s: Section, a: nat)
    requires a > 0
  {
    s.sizeOfRawData != 0 ==> s.pointerToRawData as int % a as int == 0
  }

  lemma MovedAligned(image: Image, s: Section, delta: u32, a: nat)
    requires a > 0 && RawInside(image, s) && RawEnd(image) as int + delta as int < LIMIT32
    requires FileAligned(s, a) && delta % a == 0
    ensures FileAligned(Moved(s, delta), a)
  {
    if s.sizeOfRawData != 0 {
      MultiplesAdd(s.pointerToRawData, delta, a);
    }
  }

  lemma NewRawAligned(image: Image, plan: ImportPlan)
    requires image.fileAlignment > 0
    requires DataLayout(image, plan)
    ensures NewRaw(image, Delta(image, plan)) % image.fileAlignment == 0
  {
    AlignUpMultiple(OldRawEnd(image, Delta(image, plan)), image.fileAlignment);
    hide RawInside, MaxRawEnd;
  }

  lemma DeltaAligned(image: Image, plan: ImportPlan, a: nat)
    requires a > 0 && plan.newHeaders == image.sizeOfHeaders as int + Delta(image, plan)
    requires plan.newHeaders % a == 0 && image.sizeOfHeaders % a == 0
    ensures Delta(image, plan) % a == 0
  {
    MultiplesAdd(plan.newHeaders, image.sizeOfHeaders, a);
  }

  /** Main result: data pointers that were file-aligned, with file-aligned headers, still
      are, and so is the new section's. */
  lemma AlignmentKept(image: Image, dll: seq<byte>, entry: seq<byte>, plan: ImportPlan, out: seq<byte>)
    requires Patches(image, dll, entry, plan, out)
    ensures image.fileAlignment > 0 && plan.newHeaders % image.fileAlignment == 0
    ensures FileAligned(NewSection(image, plan), image.fileAlignment)
    ensures image.sizeOfHeaders % image.fileAlignment == 0 ==>
              forall s :: s in image.sections && FileAligned(s, image.fileAlignment) ==>
                FileAligned(Moved(s, Delta(image, plan)), image.fileAlignment)
  {
    PatchedRanges(image, dll, entry, plan, out);
    ReadyImageSize(image, dll, entry, plan);
    ReadyDataLayout(image, dll, entry, plan);
    PatchFacts(image, dll, entry, plan, out);
    NewRawAligned(image, plan);
    assert forall k :: 0 <= k < |image.sections| ==> RawInside(image, image.sections[k]);
    assert RawEnd(image) as int + Delta(image, plan) as int < LIMIT32;
    assert plan.newHeaders == image.sizeOfHeaders as int + Delta(image, plan);
    hide Patches, Ready, DataLayout, DataFits, NewRange, HeaderLayout, RawRangesSound, RawInside, RawEnd, Moved, Delta, NewRaw, IsPatched,
         ParseSpec, FileAligned;
    if image.sizeOfHeaders % image.fileAlignment == 0 {
      DeltaAligned(image, plan, image.fileAlignment);
      forall s | s in image.sections && FileAligned(s, image.fileAlignment)
        ensures FileAligned(Moved(s, Delta(image, plan)), image.fileAlignment)
      {
        MovedAligned(image, s, Delta(image, plan), image.fileAlignment);
      }
    }
    NewIsAligned(image, plan);
  }

  lemma NewIsAligned(image: Image, plan: ImportPlan)
    requires image.fileAlignment > 0 && NewRaw(image, Delta(image, plan)) % image.fileAlignment == 0
    ensures FileAligned(NewSection(image, plan), image.fileAlignment)
  {
  }

  // ---- checksum ----

  /** The final step stores the checksum of its own result. */
  lemma ChecksumStored(out: seq<byte>, at: nat)
    requires 0x40 <= at && at % 2 == 0 && at + 4 <= |out| && U32At(WithChecksum(out, at), 0x3c) as int + 88 == at
    ensures U32At(WithChecksum(out, at), at) == Checksum.Value(WithChecksum(out, at), at)
  {
    hide Checksum.Value, PutU32, U32At;
    ChecksumKeeps(out, at, 0x3c);
    ChecksumKeeps(out, at, 0x3d);
    ChecksumKeeps(out, at, 0x3e);
    ChecksumKeeps(out, at, 0x3f);
    SameField32(WithChecksum(out, at), 0x3c, out, 0x3c);
    FieldKept(out, at, 0, 0x3c);
    assert WithChecksum(out, at) == Checksum.Stamped(out, at);
    Checksum.StampedMatches(out, at);
  }

  lemma RebuiltStamped(image: Image, plan: ImportPlan) returns (out: seq<byte>)
    requires Rebuildable(image, plan)
    ensures image.ChecksumOffset() + 4 <= |out|
    ensures Rebuilt(image, plan) == WithChecksum(out, image.ChecksumOffset())
  {
    hide Body, WithSlot, WithSizes, WithDirectories, WithChecksum;
    out := WithDirectories(WithSizes(Slotted(image, plan), image, plan), image, plan);
  }

  lemma PatchedPlace(image: Image, out: seq<byte>, plan: ImportPlan)
    requires HeaderLayout(image) && IsPatched(out, image, plan) && image.peOffset % 2 == 0
    ensures 0x40 <= image.ChecksumOffset() && image.ChecksumOffset() % 2 == 0
    ensures 0x40 <= |out| && U32At(out, 0x3c) as int + 88 == image.ChecksumOffset()
    ensures PatchedAs(out, image, plan).ChecksumOffset() == image.ChecksumOffset()
  {
    hide HasNewFields, IsSectionTable, HasSlot, HeaderError, U32At, U16At, MovedAll, NewSection;
  }

  /** Main result: with an even e_lfanew, the rewritten file passes the checksum test. */
  lemma PatchedChecksum(image: Image, dll: seq<byte>, entry: seq<byte>, plan: ImportPlan, out: seq<byte>)
    requires Patches(image, dll, entry, plan, out) && image.peOffset % 2 == 0
    ensures var after := PatchedAs(out, image, plan);
            && after.ChecksumOffset() + 4 <= |out|
            && U32At(out, after.ChecksumOffset()) == Checksum.Value(out, after.ChecksumOffset())
  {
    assert Rebuildable(image, plan) && out == Rebuilt(image, plan);
    hide *;
    PatchedRanges(image, dll, entry, plan, out);
    PatchFacts(image, dll, entry, plan, out);
    PatchedPlace(image, out, plan);
    var pre := RebuiltStamped(image, plan);
    ChecksumStored(pre, image.ChecksumOffset());
  }
}
