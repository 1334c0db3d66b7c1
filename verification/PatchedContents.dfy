/** What addresses and file offsets of the old image denote in the rewritten file. */
module PatchedContents {
  import opened Bytes
  import opened Parse
  import opened Import
  import opened Rebuild
  import opened PatchedBytes
  import opened PatchedImage

  // ---- section data ----

  /** The debug pointers do change, unless nothing moves. */
  ghost predicate Rewritten(image: Image, delta: u32, o: nat)
  {
    delta > 0 && InDebug(image, o)
  }

  /** Writing back the value that a field already has changes nothing. */
  lemma PutSame(d: seq<byte>, at: nat)
    requires at + 4 <= |d|
    ensures PutU32(d, at, U32At(d, at)) == d
  {
    FieldBytes(d, at);
    assert d == d[..at] + d[at..at + 4] + d[at + 4..];
  }

  lemma {:induction false} NoDebugShift(out: seq<byte>, base: nat, count: nat)
    ensures ShiftDebugEntries(out, base, count, 0) == out
    decreases count
  {
    if count > 0 {
      NoDebugShift(out, base, count - 1);
      var at := base + (count - 1) * DEBUG_ENTRY_SIZE + 24;
      if at + 4 <= |out| {
        PutSame(out, at);
      }
    }
  }

  lemma DebugFieldMoves(base: nat, count: nat, delta: nat, o: nat)
    requires !InDebugField(base, count, o)
    ensures !InDebugField(base + delta, count, o + delta)
  {
    forall j {:trigger DebugField(base + delta, j)} | 0 <= j < count
      ensures !(DebugField(base + delta, j) <= o + delta < DebugField(base + delta, j) + 4)
    {
      assert DebugField(base + delta, j) == DebugField(base, j) + delta;
    }
  }

  lemma DebugLeaves(out: seq<byte>, image: Image, delta: u32, o: nat)
    requires o + delta < |out| && !Rewritten(image, delta, o)
    ensures ShiftDebug(out, image, delta)[o + delta] == out[o + delta]
  {
    var dir := DebugDirectory(image);
    if dir.Some? {
      if delta == 0 {
        NoDebugShift(out, dir.value.0, dir.value.1);
      } else {
        DebugFieldMoves(dir.value.0, dir.value.1, delta, o);
        DebugKeeps(out, image, delta, o + delta);
      }
    }
  }

  /** Byte `o` of the section data after all offsets are shifted. */
  lemma ShiftedDataByte(image: Image, delta: u32, o: nat)
    requires HeaderLayout(image) && HeadersInside(image.sections, |image.data|)
    requires image.sizeOfHeaders <= o < |image.data| && !Rewritten(image, delta, o)
    ensures Shifted(image, delta)[o + delta] == image.data[o]
  {
    hide *;
    OutsideHeaderFields(image, delta, o);
    ShiftedSteps(image, delta, o + delta);
    DebugLeavesData(image, delta, o);
    InsertedByte(image, delta, o);
  }

  lemma OutsideHeaderFields(image: Image, delta: u32, o: nat)
    requires HeaderLayout(image) && image.sizeOfHeaders <= o < |image.data|
    ensures image.sizeOfHeaders <= |image.data|
    ensures Consecutive(image.sections, image.SectionTable())
    ensures !InPointerField(image.SectionTable(), |image.sections|, o + delta)
    ensures !InRange(o + delta, image.Coff() + 8, 4) && !InRange(o + delta, image.DataDirs() + 8 * DIR_SECURITY, 4)
  {
  }

  lemma DebugLeavesData(image: Image, delta: u32, o: nat)
    requires image.sizeOfHeaders <= |image.data| && HeadersInside(image.sections, |image.data|)
    requires o < |image.data| && !Rewritten(image, delta, o)
    ensures AfterDebug(image, delta)[o + delta] == AfterCoff(image, delta)[o + delta]
  {
    DebugLeaves(AfterCoff(image, delta), image, delta, o);
  }

  lemma ShiftedSteps(image: Image, delta: u32, i: nat)
    requires image.sizeOfHeaders <= |image.data| && HeadersInside(image.sections, |image.data|)
    requires Consecutive(image.sections, image.SectionTable())
    requires i < |image.data| + delta
    requires !InPointerField(image.SectionTable(), |image.sections|, i)
    requires !InRange(i, image.Coff() + 8, 4) && !InRange(i, image.DataDirs() + 8 * DIR_SECURITY, 4)
    ensures AfterCoff(image, delta)[i] == Inserted(image, delta)[i]
    ensures Shifted(image, delta)[i] == AfterDebug(image, delta)[i]
  {
    ShiftSectionsFrame(Inserted(image, delta), image.sections, image.SectionTable(), delta, i);
    CoffKeeps(AfterSections(image, delta), image.Coff() + 8, delta, i);
    CertificateKeeps(AfterDebug(image, delta), image.DataDirs() + 8 * DIR_SECURITY, delta, i);
  }

  /** The section data moves as one block of bytes. */
  lemma DataByte(image: Image, plan: ImportPlan, o: nat)
    requires Layout(image, plan) && Rebuildable(image, plan)
    requires image.sizeOfHeaders <= o < RawEnd(image) && !Rewritten(image, Delta(image, plan), o)
    ensures o + Delta(image, plan) < |Rebuilt(image, plan)| && o < |image.data|
    ensures Rebuilt(image, plan)[o + Delta(image, plan)] == image.data[o]
  {
    hide *;
    var delta := Delta(image, plan);
    DataBounds(image, plan, o);
    ShiftedDataByte(image, delta, o);
    FrontByte(image, plan, o + delta);
    BehindHeaders(image, plan, o + delta);
  }

  lemma DataBounds(image: Image, plan: ImportPlan, o: nat)
    requires Layout(image, plan) && Rebuildable(image, plan)
    requires image.sizeOfHeaders <= o < RawEnd(image)
    ensures HeaderLayout(image) && HeadersInside(image.sections, |image.data|) && o < |image.data|
    ensures o + Delta(image, plan) < OldRawEnd(image, Delta(image, plan))
    ensures plan.newHeaders <= o + Delta(image, plan) < |Body(image, plan)|
    ensures !InRange(o + Delta(image, plan), image.DataDirs() + 8 * DIR_SECURITY, 4)
  {
  }

  /** The section data of `image` stands `delta` bytes further on in `out`. */
  ghost predicate DataMoved(out: seq<byte>, image: Image, delta: u32)
  {
    && RawEnd(image) as int + delta as int <= |out| && RawEnd(image) <= |image.data|
    && forall o {:trigger Rewritten(image, delta, o)} ::
         image.sizeOfHeaders <= o < RawEnd(image) && !Rewritten(image, delta, o)
         ==> out[o + delta] == image.data[o]
  }

  lemma DataIsMoved(image: Image, plan: ImportPlan)
    requires Layout(image, plan) && Rebuildable(image, plan)
    ensures DataMoved(Rebuilt(image, plan), image, Delta(image, plan))
  {
    hide Layout, Rebuildable, Rebuilt, Delta, RawEnd, Rewritten, Body;
    var delta, out := Delta(image, plan), Rebuilt(image, plan);
    DataEnds(image, plan);
    forall o {:trigger Rewritten(image, delta, o)}
      | image.sizeOfHeaders <= o < RawEnd(image) && !Rewritten(image, delta, o)
      ensures out[o + delta] == image.data[o]
    {
      hide *;
      DataByte(image, plan, o);
    }
  }

  lemma DataEnds(image: Image, plan: ImportPlan)
    requires Layout(image, plan) && Rebuildable(image, plan)
    ensures RawEnd(image) as int + Delta(image, plan) as int <= |Rebuilt(image, plan)|
    ensures RawEnd(image) <= |image.data|
  {
    RebuiltLength(image, plan);
  }

  // ---- addresses ----

  lemma MapInMoved(image: Image, s: Section, delta: u32, rva: u32)
    requires RawInside(image, s) && RawEnd(image) as int + delta as int < LIMIT32
    ensures MapIn(Moved(s, delta), rva)
            == match MapIn(s, rva) case None => None case Some(o) => Some(o + delta)
  {
  }

  lemma {:induction false} MapRvaMoved(image: Image, sections: seq<Section>, delta: u32, rva: u32)
    requires forall k :: 0 <= k < |sections| ==> RawInside(image, sections[k])
    requires RawEnd(image) as int + delta as int < LIMIT32
    ensures MapRva(MovedAll(sections, delta), rva)
            == match MapRva(sections, rva) case None => None case Some(o) => Some(o + delta)
  {
    if sections != [] {
      assert RawInside(image, sections[0]);
      MapInMoved(image, sections[0], delta, rva);
      assert MovedAll(sections, delta)[1..] == MovedAll(sections[1..], delta);
      MapRvaMoved(image, sections[1..], delta, rva);
    }
  }

  lemma {:induction false} MapRvaAppend(sections: seq<Section>, last: Section, rva: u32)
    ensures MapRva(sections + [last], rva)
            == if MapRva(sections, rva).Some? then MapRva(sections, rva) else MapIn(last, rva)
  {
    if sections == [] {
      assert MapRva([], rva).None?;
    } else {
      assert (sections + [last])[1..] == sections[1..] + [last];
      MapRvaAppend(sections[1..], last, rva);
    }
  }

  lemma AlignUpLeast(value: nat, a: nat, m: nat)
    requires a > 0 && value <= m && m % a == 0
    ensures AlignUp(value, a) <= m
  {
    AlignUpMultiple(value, a);
    if m < AlignUp(value, a) {
      MultiplesAdd(AlignUp(value, a), m, a);
      SmallMultiple(AlignUp(value, a) - m, a);
    }
  }

  lemma {:induction false} PowersDivide(x: nat, y: nat)
    requires IsPowerOfTwo(x) && IsPowerOfTwo(y) && x <= y
    ensures y % x == 0
  {
    if x > 1 {
      PowersDivide(x / 2, y / 2);
      var q := y / 2 / (x / 2);
      assert y / 2 == q * (x / 2);
      assert y == q * x;
      MulModZero(q, x);
    }
  }

  lemma MultipleOfMultiple(m: nat, a: nat, b: nat)
    requires a > 0 && b > 0 && b % a == 0 && m % b == 0
    ensures m % a == 0
  {
    var p, q := m / b, b / a;
    assert m == p * b == p * (q * a) == (p * q) * a;
    MulModZero(p * q, a);
  }

  /** The raw size of the new section fits behind its address. */
  lemma RawSizeFits(rva: nat, length: nat, file: nat, section: nat)
    requires IsPowerOfTwo(file) && IsPowerOfTwo(section) && file <= section
    requires rva % section == 0
    ensures rva + AlignUp(length, file) <= AlignUp(rva + length, section)
  {
    AlignUpMultiple(rva + length, section);
    MultiplesAdd(AlignUp(rva + length, section), rva, section);
    PowersDivide(file, section);
    MultipleOfMultiple(AlignUp(rva + length, section) - rva, file, section);
    AlignUpLeast(length, file, AlignUp(rva + length, section) - rva);
  }

  /** The new section in the address space: behind every old one, mapped as a whole. */
  ghost predicate NewSectionMapped(image: Image, plan: ImportPlan)
  {
    && plan.newSectionRva as int + plan.newSectionRawSize as int < LIMIT32
    && plan.newSectionVsize <= plan.newSectionRawSize && 0 < plan.newSectionRawSize
    && NewRaw(image, Delta(image, plan)) as int + plan.newSectionRawSize as int < LIMIT32
    && MaxRvaEnd(image.sections, image.sizeOfImage) <= plan.newSectionRva
  }

  lemma ReadyNewSection(image: Image, dll: seq<byte>, entry: seq<byte>, plan: ImportPlan)
    requires Ready(image, dll, entry, plan)
    ensures NewSectionMapped(image, plan)
    ensures image.sectionAlignment > 0 && plan.newSectionRva % image.sectionAlignment == 0
  {
    PlanAddresses(image, dll, entry, plan);
    PlanNumbers(image, dll, entry, plan);
    ReadyDataLayout(image, dll, entry, plan);
    ReadyAlignments(image, dll, entry, plan);
    AlignUpMultiple(MaxRvaEnd(image.sections, image.sizeOfImage), image.sectionAlignment);
    RawSizeFits(plan.newSectionRva, plan.newSectionVsize, image.fileAlignment, image.sectionAlignment);
  }

  lemma ReadyAlignments(image: Image, dll: seq<byte>, entry: seq<byte>, plan: ImportPlan)
    requires Ready(image, dll, entry, plan)
    ensures AlignmentsOk(image) && image.fileAlignment > 0
  {
    PlanChecks(image, dll, entry, plan);
    AcceptedChecks(image, Descriptors(image).value, dll);
  }

  lemma MapInNew(image: Image, plan: ImportPlan, rva: u32)
    requires NewSectionMapped(image, plan)
    ensures MapIn(NewSection(image, plan), rva)
            == if plan.newSectionRva <= rva < plan.newSectionRva + plan.newSectionRawSize
               then Some(NewRaw(image, Delta(image, plan)) as int + (rva - plan.newSectionRva)) else None
  {
  }

  /** No old section maps an address from the new section on. */
  lemma {:induction false} OldSectionsEnd(sections: seq<Section>, floor: u32, rva: u32)
    requires MaxRvaEnd(sections, floor) <= rva
    ensures MapRva(sections, rva).None?
  {
    if sections != [] {
      OldSectionsEnd(sections[1..], floor, rva);
    }
  }

  /** What an address of the rewritten image maps to. */
  function NewMapping(image: Image, plan: ImportPlan, rva: u32): Option<nat>
  {
    match RvaToOffset(image, rva)
    case Some(o) => Some(o + Delta(image, plan))
    case None =>
      if plan.newSectionRva <= rva < plan.newSectionRva + plan.newSectionRawSize
      then Some(NewRaw(image, Delta(image, plan)) as int + (rva - plan.newSectionRva)) else None
  }

  /** The section data moves within 32 bits. */
  ghost predicate DataFits(image: Image, delta: u32)
  {
    && (forall k :: 0 <= k < |image.sections| ==> RawInside(image, image.sections[k]))
    && RawEnd(image) as int + delta as int < LIMIT32
  }

  lemma LayoutFits(image: Image, plan: ImportPlan)
    requires DataLayout(image, plan)
    ensures DataFits(image, Delta(image, plan))
  {
  }

  lemma Mapping(image: Image, plan: ImportPlan, rva: u32)
    requires NewSectionMapped(image, plan) && DataFits(image, Delta(image, plan))
    ensures MapRva(MovedAll(image.sections, Delta(image, plan)) + [NewSection(image, plan)], rva)
            == NewMapping(image, plan, rva)
  {
    hide MapRva, MapIn, MovedAll, NewSection, NewRaw, Delta, RawEnd, RawInside, NewSectionMapped;
    MapRvaMoved(image, image.sections, Delta(image, plan), rva);
    MapRvaAppend(MovedAll(image.sections, Delta(image, plan)), NewSection(image, plan), rva);
    MapInNew(image, plan, rva);
  }

  /** Offset `o` of the old file is offset `o + delta` of `out`. */
  ghost predicate ByteMoved(out: seq<byte>, image: Image, delta: u32, o: nat)
  {
    && o < |image.data| && o + delta < |out|
    && (!Rewritten(image, delta, o) ==> out[o + delta] == image.data[o])
  }

  lemma MappedByteMoved(out: seq<byte>, image: Image, delta: u32, rva: u32)
    requires DataFits(image, delta) && DataMoved(out, image, delta)
    requires RvaToOffset(image, rva).Some?
    ensures ByteMoved(out, image, delta, RvaToOffset(image, rva).value)
  {
    MappedInside(image, image.sections, rva);
  }

  /** What the rewriter has made of `image`. */
  ghost predicate Patches(image: Image, dll: seq<byte>, entry: seq<byte>, plan: ImportPlan, out: seq<byte>)
  {
    Ready(image, dll, entry, plan) && Rebuildable(image, plan) && out == Rebuilt(image, plan)
  }

  /** `Apply` on a ready image returns such a file. */
  lemma ApplyPatches(image: Image, dll: seq<byte>, entry: seq<byte>, plan: ImportPlan)
    requires Ready(image, dll, entry, plan)
    ensures Rebuildable(image, plan) && ApplySpec(image, plan) == Ok(Rebuilt(image, plan))
    ensures Patches(image, dll, entry, plan, Rebuilt(image, plan))
  {
    ReadyIsRebuildable(image, dll, entry, plan);
  }

  lemma PatchFacts(image: Image, dll: seq<byte>, entry: seq<byte>, plan: ImportPlan, out: seq<byte>)
    requires Patches(image, dll, entry, plan, out)
    ensures NewSectionMapped(image, plan) && DataFits(image, Delta(image, plan))
    ensures DataMoved(out, image, Delta(image, plan))
    ensures IsPatched(out, image, plan)
    ensures ParseSpec(out) == Ok(PatchedAs(out, image, plan))
  {
    assert Ready(image, dll, entry, plan) && Rebuildable(image, plan) && out == Rebuilt(image, plan);
    hide *;
    ReadyLayout(image, dll, entry, plan);
    ReadyDataLayout(image, dll, entry, plan);
    LayoutFits(image, plan);
    DataIsMoved(image, plan);
    ReadyNewSection(image, dll, entry, plan);
    PatchedParses(image, dll, entry, plan);
  }

  /** Main result: an address that the old image maps to offset `o` is mapped by the
      rewritten image to `o + delta`, where the same byte stands unless it belongs to a
      rewritten debug pointer; beyond those, exactly the addresses of the new section map. */
  lemma AddressSpace(image: Image, dll: seq<byte>, entry: seq<byte>, plan: ImportPlan, out: seq<byte>, rva: u32)
    requires Patches(image, dll, entry, plan, out)
    ensures RvaToOffset(PatchedAs(out, image, plan), rva) == NewMapping(image, plan, rva)
    ensures RvaToOffset(image, rva).Some? ==>
              ByteMoved(out, image, Delta(image, plan), RvaToOffset(image, rva).value)
  {
    PatchFacts(image, dll, entry, plan, out);
    Mapping(image, plan, rva);
    if RvaToOffset(image, rva).Some? {
      MappedByteMoved(out, image, Delta(image, plan), rva);
    }
  }
}
