/** The file offsets kept in headers and debug entries, and the overlay. */
module PatchedOffsets {
  import opened Bytes
  import opened Parse
  import opened ParseRules
  import opened Import
  import opened Rebuild
  import opened PatchedBytes
  import opened PatchedImage
  import opened PatchedContents

  // ---- file offsets ----

  /** What stood at file offset `p` up to the end of the section data stands at `q` now. */
  ghost predicate Denotes(out: seq<byte>, q: nat, image: Image, p: nat, delta: u32)
  {
    && p <= RawEnd(image) && q + (RawEnd(image) - p) <= |out| && RawEnd(image) <= |image.data|
    && forall i {:trigger Rewritten(image, delta, p + i)} ::
         0 <= i < RawEnd(image) - p && !Rewritten(image, delta, p + i) ==> out[q + i] == image.data[p + i]
  }

  lemma MovedDenotes(out: seq<byte>, image: Image, delta: u32, p: nat)
    requires DataMoved(out, image, delta) && image.sizeOfHeaders <= p <= RawEnd(image)
    ensures Denotes(out, p + delta, image, p, delta)
  {
    forall i {:trigger Rewritten(image, delta, p + i)}
      | 0 <= i < RawEnd(image) - p && !Rewritten(image, delta, p + i)
      ensures out[p + delta + i] == image.data[p + i]
    {
      assert p + delta + i == (p + i) + delta;
    }
  }

  // ---- the offsets in the headers ----

  /** The COFF symbol and certificate fields, which are final once the body is. */
  ghost predicate InOffsetField(image: Image, i: nat)
  {
    InRange(i, image.Coff() + 8, 4) || InRange(i, image.DataDirs() + 8 * DIR_SECURITY, 8)
  }

  lemma OffsetFieldPlace(image: Image, plan: ImportPlan, i: nat)
    requires Layout(image, plan) && Rebuildable(image, plan) && InOffsetField(image, i)
    ensures HeaderLayout(image) && HeadersInside(image.sections, |image.data|)
    ensures i < image.SectionTable() <= |image.data| && i < image.sizeOfHeaders
    ensures !InLateField(image, i) && !InRange(i, image.SectionTableEnd(), 40)
    ensures i < OldRawEnd(image, Delta(image, plan)) && i < |Body(image, plan)|
    ensures forall k :: 0 <= k < |image.sections| ==> RawInside(image, image.sections[k])
  {
  }

  lemma OffsetFieldFinal(image: Image, plan: ImportPlan, i: nat)
    requires Layout(image, plan) && Rebuildable(image, plan) && InOffsetField(image, i)
    ensures i < |Rebuilt(image, plan)| && Rebuilt(image, plan)[i] == Body(image, plan)[i]
  {
    hide *;
    OffsetFieldPlace(image, plan, i);
    FinalByte(image, plan, i);
  }

  /** A header byte after the section table has been rewritten. */
  lemma HeaderByteShifted(image: Image, delta: u32, i: nat)
    requires HeaderLayout(image) && HeadersInside(image.sections, |image.data|)
    requires i < image.SectionTable()
    ensures AfterSections(image, delta)[i] == image.data[i]
  {
    ShiftSectionsFrame(Inserted(image, delta), image.sections, image.SectionTable(), delta, i);
    InsertedByte(image, delta, i);
  }

  lemma HeaderFieldShifted(image: Image, delta: u32, at: nat)
    requires HeaderLayout(image) && HeadersInside(image.sections, |image.data|)
    requires at + 4 <= image.SectionTable()
    ensures U32At(AfterSections(image, delta), at) == U32At(image.data, at)
  {
    forall i | at <= i < at + 4 ensures AfterSections(image, delta)[i] == image.data[i] {
      HeaderByteShifted(image, delta, i);
    }
    SameField32(AfterSections(image, delta), at, image.data, at);
  }

  /** The COFF symbol pointer once all offsets are shifted. */
  lemma CoffShifted(image: Image, delta: u32)
    requires HeaderLayout(image) && HeadersInside(image.sections, |image.data|)
    requires forall k :: 0 <= k < |image.sections| ==> RawInside(image, image.sections[k])
    ensures var at, p := image.Coff() + 8, U32At(image.data, image.Coff() + 8);
            U32At(Shifted(image, delta), at) == if p == 0 then 0 else SatAdd(p, delta)
  {
    var at := image.Coff() + 8;
    HeaderFieldShifted(image, delta, at);
    if U32At(image.data, at) != 0 {
      PutU32Effect(AfterSections(image, delta), at, SatAdd(U32At(image.data, at), delta));
    }
    forall i | at <= i < at + 4 ensures Shifted(image, delta)[i] == AfterCoff(image, delta)[i] {
      DebugKeepsHeaders(AfterCoff(image, delta), image, delta, i);
      CertificateKeeps(AfterDebug(image, delta), image.DataDirs() + 8 * DIR_SECURITY, delta, i);
    }
    SameField32(Shifted(image, delta), at, AfterCoff(image, delta), at);
  }

  lemma CoffFinal(image: Image, plan: ImportPlan, i: nat)
    requires Layout(image, plan) && Rebuildable(image, plan) && InRange(i, image.Coff() + 8, 4)
    ensures i < |Rebuilt(image, plan)| && i < |Shifted(image, Delta(image, plan))|
    ensures Rebuilt(image, plan)[i] == Shifted(image, Delta(image, plan))[i]
  {
    assert InOffsetField(image, i) && !InRange(i, image.DataDirs() + 8 * DIR_SECURITY, 4);
    hide *;
    OffsetFieldPlace(image, plan, i);
    OffsetFieldFinal(image, plan, i);
    FrontByte(image, plan, i);
  }

  /** The COFF symbol pointer, wherever it points: 0 stays 0, else `delta` is added. */
  lemma CoffPointer(image: Image, plan: ImportPlan)
    requires Layout(image, plan) && Rebuildable(image, plan)
    ensures image.Coff() + 12 <= |image.data| && image.Coff() + 12 <= |Rebuilt(image, plan)|
    ensures U32At(Rebuilt(image, plan), image.Coff() + 8)
            == if U32At(image.data, image.Coff() + 8) == 0 then 0
               else SatAdd(U32At(image.data, image.Coff() + 8), Delta(image, plan))
  {
    var at, delta := image.Coff() + 8, Delta(image, plan);
    CoffShifted(image, delta);
    forall i | at <= i < at + 4
      ensures i < |Rebuilt(image, plan)| && i < |Shifted(image, delta)|
      ensures Rebuilt(image, plan)[i] == Shifted(image, delta)[i]
    {
      CoffFinal(image, plan, i);
    }
    assert at + 4 <= |Rebuilt(image, plan)| by { CoffFinal(image, plan, at + 3); }
    SameField32(Rebuilt(image, plan), at, Shifted(image, delta), at);
  }

  // ---- debug entries ----

  /** Of `n` bytes of debug entries at `b`, 28 bytes each, entry `j` has its file offset at `f`. */
  predicate EntryOffset(b: nat, n: nat, j: nat, f: nat)
  {
    28 * (j + 1) <= n && f == b + 28 * j + 24
  }

  /** A debug entry has its file offset at `f`: the debug directory, entry 6 of the data directories,
      names an address `r` and `n` bytes, and the address is mapped to where the entries are. */
  ghost predicate DebugPointerAt(image: Image, f: nat)
  {
    && image.numRvaAndSizes > 6 && image.peOffset + 192 <= |image.data|
    && var r, n := U32At(image.data, image.peOffset + 184), U32At(image.data, image.peOffset + 188);
    && r != 0
    && exists b: nat, k: nat, j: nat :: MapsFirst(image.sections, r, b, k) && EntryOffset(b, n, j, f)
  }

  lemma DebugDirectoryIs(image: Image, base: nat, count: nat)
    requires DebugDirectory(image) == Some((base, count))
    ensures image.numRvaAndSizes > 6 && image.peOffset + 192 <= |image.data|
    ensures var r, n := U32At(image.data, image.peOffset + 184), U32At(image.data, image.peOffset + 188);
            r != 0 && RvaToOffset(image, r) == Some(base) && count == n as int / 28
  {
    hide U32At, RvaToOffset;
  }

  lemma DebugEntryFits(n: nat, j: nat)
    ensures 28 * (j + 1) <= n <==> j < n / 28
  {
  }

  lemma DebugPointerIs(image: Image, f: nat) returns (j: nat)
    requires DebugPointerAt(image, f)
    ensures DebugDirectory(image).Some? && j < DebugDirectory(image).value.1 && f == DebugField(DebugDirectory(image).value.0, j)
  {
    hide U32At, MapsFirst, RvaToOffset;
    var r, n := U32At(image.data, image.peOffset + 184), U32At(image.data, image.peOffset + 188);
    var b: nat, k: nat, i: nat :| MapsFirst(image.sections, r, b, k) && EntryOffset(b, n, i, f);
    MappedExactly(image, r, b);
    DebugEntryFits(n, i);
    j := i;
  }

  lemma IsDebugPointer(image: Image, j: nat)
    requires DebugDirectory(image).Some? && j < DebugDirectory(image).value.1
    ensures DebugPointerAt(image, DebugField(DebugDirectory(image).value.0, j))
  {
    hide U32At, MapsFirst, RvaToOffset, DebugDirectory;
    var base, count := DebugDirectory(image).value.0, DebugDirectory(image).value.1;
    DebugDirectoryIs(image, base, count);
    var r, n := U32At(image.data, image.peOffset + 184), U32At(image.data, image.peOffset + 188);
    MappedExactly(image, r, base);
    DebugEntryFits(n, j);
    var k: nat :| MapsFirst(image.sections, r, base, k);
    assert EntryOffset(base, n, j, DebugField(base, j));
  }

  /** The bytes of those offsets are the ones that may change. */
  lemma DebugBytes(image: Image, o: nat)
    ensures InDebug(image, o) <==> exists f: nat :: DebugPointerAt(image, f) && f <= o < f + 4
  {
    hide DebugPointerAt, DebugDirectory, DebugField;
    if InDebug(image, o) {
      var base, count := DebugDirectory(image).value.0, DebugDirectory(image).value.1;
      var j: nat :| j < count && DebugField(base, j) <= o < DebugField(base, j) + 4;
      IsDebugPointer(image, j);
    }
    forall f: nat | DebugPointerAt(image, f) && f <= o < f + 4 ensures InDebug(image, o) {
      var j := DebugPointerIs(image, f);
    }
  }

  lemma DebugPlace(image: Image, plan: ImportPlan, j: nat)
    requires Layout(image, plan) && Rebuildable(image, plan)
    requires DebugDirectory(image).Some? && j < DebugDirectory(image).value.1
    requires DebugField(DebugDirectory(image).value.0, j) + 4 <= RawEnd(image)
    ensures var delta, base, f := Delta(image, plan), DebugDirectory(image).value.0, DebugField(DebugDirectory(image).value.0, j);
            && HeaderLayout(image) && HeadersInside(image.sections, |image.data|)
            && image.sizeOfHeaders <= |image.data|
            && base + delta < |image.data| + delta
            && image.sizeOfHeaders <= f && f + 4 <= |image.data| && f + 4 + delta <= |Rebuilt(image, plan)|
            && DebugField(base + delta, j) == f + delta
  {
    MappedInside(image, image.sections, image.DataDir(DIR_DEBUG).value.0);
    DataEnds(image, plan);
  }

  /** Section data behind the headers is final once the offsets are shifted. */
  lemma DataFinal(image: Image, plan: ImportPlan, o: nat)
    requires Layout(image, plan) && Rebuildable(image, plan)
    requires image.sizeOfHeaders <= o < RawEnd(image)
    ensures o < |image.data| && o + Delta(image, plan) < |Rebuilt(image, plan)|
    ensures HeaderLayout(image) && HeadersInside(image.sections, |image.data|) && image.sizeOfHeaders <= |image.data|
    ensures Rebuilt(image, plan)[o + Delta(image, plan)] == AfterDebug(image, Delta(image, plan))[o + Delta(image, plan)]
    ensures AfterCoff(image, Delta(image, plan))[o + Delta(image, plan)] == image.data[o]
  {
    hide *;
    var delta := Delta(image, plan);
    DataBounds(image, plan, o);
    OutsideHeaderFields(image, delta, o);
    ShiftedSteps(image, delta, o + delta);
    FrontByte(image, plan, o + delta);
    BehindHeaders(image, plan, o + delta);
    InsertedByte(image, delta, o);
  }

  lemma DebugEntryShifted(image: Image, delta: u32, j: nat)
    requires image.sizeOfHeaders <= |image.data| && HeadersInside(image.sections, |image.data|)
    requires DebugDirectory(image).Some? && j < DebugDirectory(image).value.1
    requires DebugDirectory(image).value.0 + delta < |image.data| + delta
    requires DebugField(DebugDirectory(image).value.0 + delta, j) + 4 <= |image.data| + delta
    ensures var f := DebugField(DebugDirectory(image).value.0 + delta, j);
            var p := U32At(AfterCoff(image, delta), f);
            U32At(AfterDebug(image, delta), f) == if p == 0 then 0 else SatAdd(p, delta)
  {
    hide ShiftDebugEntries, AfterCoff, DebugDirectory, DebugField, U32At, SatAdd, HeadersInside;
    ShiftDebugAt(AfterCoff(image, delta), DebugDirectory(image).value.0 + delta, DebugDirectory(image).value.1, delta, j);
  }

  /** A field of the section data, in the old file and in the rewritten one. */
  lemma DebugFieldFinal(image: Image, plan: ImportPlan, f: nat)
    requires Layout(image, plan) && Rebuildable(image, plan)
    requires image.sizeOfHeaders <= f && f + 4 <= RawEnd(image)
    ensures var delta := Delta(image, plan);
            && HeaderLayout(image) && HeadersInside(image.sections, |image.data|)
            && image.sizeOfHeaders <= |image.data|
            && f + 4 <= |image.data| && f + delta + 4 <= |Rebuilt(image, plan)|
            && U32At(Rebuilt(image, plan), f + delta) == U32At(AfterDebug(image, delta), f + delta)
            && U32At(AfterCoff(image, delta), f + delta) == U32At(image.data, f)
  {
    hide *;
    var delta := Delta(image, plan);
    DataFinal(image, plan, f);
    DataFinal(image, plan, f + 1);
    DataFinal(image, plan, f + 2);
    DataFinal(image, plan, f + 3);
    assert f + 1 + delta == f + delta + 1 && f + 2 + delta == f + delta + 2 && f + 3 + delta == f + delta + 3;
    SameField32(Rebuilt(image, plan), f + delta, AfterDebug(image, delta), f + delta);
    SameField32(AfterCoff(image, delta), f + delta, image.data, f);
  }

  /** Every debug pointer in the section data: 0 stays 0, else `delta` is added. */
  lemma DebugPointer(image: Image, plan: ImportPlan, j: nat)
    requires Layout(image, plan) && Rebuildable(image, plan)
    requires DebugDirectory(image).Some? && j < DebugDirectory(image).value.1
    requires DebugField(DebugDirectory(image).value.0, j) + 4 <= RawEnd(image)
    ensures var f := DebugField(DebugDirectory(image).value.0, j);
            && f + 4 <= |image.data| && f + Delta(image, plan) + 4 <= |Rebuilt(image, plan)|
            && U32At(Rebuilt(image, plan), f + Delta(image, plan))
               == if U32At(image.data, f) == 0 then 0 else SatAdd(U32At(image.data, f), Delta(image, plan))
  {
    hide *;
    var delta, f := Delta(image, plan), DebugField(DebugDirectory(image).value.0, j);
    DebugPlace(image, plan, j);
    DebugFieldFinal(image, plan, f);
    DebugEntryShifted(image, delta, j);
  }

  // ---- certificate table ----

  function SecurityEntry(image: Image): nat { image.DataDirs() + 8 * DIR_SECURITY }

  /** The certificate offset that the rewrite writes, for an entry `(p, n)`. */
  function NewCertificate(image: Image, plan: ImportPlan, p: u32, n: u32): u32
  {
    var delta := Delta(image, plan);
    var c := SatAdd(p, delta);
    if p == 0 || n == 0 then p
    else if OldRawEnd(image, delta) < |image.data| && c != 0 && c >= OldRawEnd(image, delta)
    then Wrap32(Wrap32(OverlayAt(image, plan)) + (c - OldRawEnd(image, delta)))
    else c
  }

  lemma CertificateShifted(image: Image, delta: u32)
    requires HeaderLayout(image) && HeadersInside(image.sections, |image.data|)
    requires forall k :: 0 <= k < |image.sections| ==> RawInside(image, image.sections[k])
    ensures SecurityEntry(image) + 8 <= |image.data|
    ensures var at, p, n := SecurityEntry(image), U32At(image.data, SecurityEntry(image)), U32At(image.data, SecurityEntry(image) + 4);
            && U32At(Shifted(image, delta), at) == (if p == 0 || n == 0 then p else SatAdd(p, delta))
            && U32At(Shifted(image, delta), at + 4) == n
  {
    SecurityInFile(image);
    hide *;
    SecurityFieldBefore(image, delta, SecurityEntry(image));
    SecurityFieldBefore(image, delta, SecurityEntry(image) + 4);
    LastStep(image, delta);
  }

  lemma LastStep(image: Image, delta: u32)
    requires image.sizeOfHeaders <= |image.data| && HeadersInside(image.sections, |image.data|)
    requires SecurityEntry(image) + 8 <= |image.data|
    ensures var at, before := SecurityEntry(image), AfterDebug(image, delta);
            var p, n := U32At(before, at), U32At(before, at + 4);
            && U32At(Shifted(image, delta), at) == (if p == 0 || n == 0 then p else SatAdd(p, delta))
            && U32At(Shifted(image, delta), at + 4) == n
  {
    hide *;
    ShiftedLast(image, delta);
    CertificateStep(AfterDebug(image, delta), SecurityEntry(image), delta);
  }

  lemma SecurityInFile(image: Image)
    requires HeaderLayout(image)
    ensures SecurityEntry(image) + 8 <= image.sizeOfHeaders <= |image.data|
  {
  }

  lemma ShiftedLast(image: Image, delta: u32)
    requires image.sizeOfHeaders <= |image.data| && HeadersInside(image.sections, |image.data|)
    ensures Shifted(image, delta) == ShiftCertificateTable(AfterDebug(image, delta), SecurityEntry(image), delta)
  {
    hide ShiftSections, ShiftCoffSymbolTable, ShiftDebug, ShiftCertificateTable, Inserted, HeadersInside;
  }

  lemma SecurityFieldBefore(image: Image, delta: u32, at: nat)
    requires HeaderLayout(image) && HeadersInside(image.sections, |image.data|)
    requires forall k :: 0 <= k < |image.sections| ==> RawInside(image, image.sections[k])
    requires SecurityEntry(image) <= at <= SecurityEntry(image) + 4
    ensures at + 4 <= image.SectionTable() && at + 4 <= |image.data|
    ensures U32At(AfterDebug(image, delta), at) == U32At(image.data, at)
  {
    var before := AfterDebug(image, delta);
    forall i | at <= i < at + 4 ensures before[i] == AfterSections(image, delta)[i] {
      CoffKeeps(AfterSections(image, delta), image.Coff() + 8, delta, i);
      DebugKeepsHeaders(AfterCoff(image, delta), image, delta, i);
    }
    SameField32(before, at, AfterSections(image, delta), at);
    HeaderFieldShifted(image, delta, at);
  }

  lemma CertificateStep(out: seq<byte>, at: nat, delta: u32)
    requires at + 8 <= |out|
    ensures var p, n := U32At(out, at), U32At(out, at + 4);
            && U32At(ShiftCertificateTable(out, at, delta), at) == (if p == 0 || n == 0 then p else SatAdd(p, delta))
            && U32At(ShiftCertificateTable(out, at, delta), at + 4) == n
  {
    if U32At(out, at) != 0 && U32At(out, at + 4) != 0 {
      PutU32Effect(out, at, SatAdd(U32At(out, at), delta));
      FieldKept(out, at, SatAdd(U32At(out, at), delta), at + 4);
    }
  }

  lemma RelocateStep(out: seq<byte>, at: nat, end: u32, overlayAt: u32)
    requires at + 8 <= |out|
    ensures var p, n := U32At(out, at), U32At(out, at + 4);
            && U32At(RelocateOverlay(out, at, end, overlayAt), at)
               == (if p == 0 || n == 0 || p < end then p else Wrap32(overlayAt + (p - end)))
            && U32At(RelocateOverlay(out, at, end, overlayAt), at + 4) == n
  {
    var p, n := U32At(out, at), U32At(out, at + 4);
    if p != 0 && n != 0 && p >= end {
      PutU32Effect(out, at, Wrap32(overlayAt + (p - end)));
      FieldKept(out, at, Wrap32(overlayAt + (p - end)), at + 4);
    }
  }

  /** Cutting the buffer and appending to it leaves the fields in front alone. */
  lemma SectionStepKeeps(out: seq<byte>, image: Image, plan: ImportPlan, delta: u32, at: nat)
    requires NewRaw(image, delta) as int + plan.newSectionRawSize as int < LIMIT32
    requires at + 4 <= NewRaw(image, delta) && at + 4 <= |out|
    ensures U32At(WithSection(out, image, plan, delta), at) == U32At(out, at)
  {
    SameField32(WithSection(out, image, plan, delta), at, out, at);
  }

  lemma OverlayStep(out: seq<byte>, image: Image, delta: u32)
    requires SecurityEntry(image) + 8 <= |out|
    ensures var at, p, n, end := SecurityEntry(image), U32At(out, SecurityEntry(image)), U32At(out, SecurityEntry(image) + 4), OldRawEnd(image, delta);
            && U32At(WithOverlay(out, image, delta), at)
               == (if end >= |image.data| || p == 0 || n == 0 || p < end then p else Wrap32(Wrap32(|out|) + (p - end)))
            && U32At(WithOverlay(out, image, delta), at + 4) == n
  {
    hide RelocateOverlay, U32At, OldRawEnd, OverlayLength, Wrap32;
    var at, end := SecurityEntry(image), OldRawEnd(image, delta);
    if end < |image.data| {
      var longer := out + image.data[end..];
      SameField32(longer, at, out, at);
      SameField32(longer, at + 4, out, at + 4);
      RelocateStep(longer, at, end, Wrap32(|out|));
    }
  }

  lemma SecurityPlace(image: Image, plan: ImportPlan)
    requires Layout(image, plan) && Rebuildable(image, plan)
    ensures HeaderLayout(image) && HeadersInside(image.sections, |image.data|)
    ensures forall k :: 0 <= k < |image.sections| ==> RawInside(image, image.sections[k])
    ensures image.sizeOfHeaders <= |image.data|
    ensures SecurityEntry(image) + 8 <= |image.data| && SecurityEntry(image) + 8 <= NewRaw(image, Delta(image, plan))
    ensures NewRaw(image, Delta(image, plan)) as int + plan.newSectionRawSize as int < LIMIT32
  {
  }

  /** The certificate entry of the body, from that of the old file. */
  lemma CertificateBody(image: Image, plan: ImportPlan)
    requires Layout(image, plan) && Rebuildable(image, plan)
    ensures var at := SecurityEntry(image);
            && at + 8 <= |image.data| && at + 8 <= |Body(image, plan)|
            && U32At(Body(image, plan), at) == NewCertificate(image, plan, U32At(image.data, at), U32At(image.data, at + 4))
            && U32At(Body(image, plan), at + 4) == U32At(image.data, at + 4)
  {
    var at, delta := SecurityEntry(image), Delta(image, plan);
    hide Layout, Rebuildable, Shifted, WithSection, WithOverlay, NewRaw, OldRawEnd, Delta, RawInside, HeaderLayout, HeadersInside;
    SecurityPlace(image, plan);
    CertificateShifted(image, delta);
    var shifted := Shifted(image, delta);
    SectionStepKeeps(shifted, image, plan, delta, at);
    SectionStepKeeps(shifted, image, plan, delta, at + 4);
    OverlayStep(WithSection(shifted, image, plan, delta), image, delta);
  }

  lemma CertificateEntry(image: Image, plan: ImportPlan)
    requires Layout(image, plan) && Rebuildable(image, plan)
    ensures var at := SecurityEntry(image);
            && at + 8 <= |image.data| && at + 8 <= |Rebuilt(image, plan)|
            && U32At(Rebuilt(image, plan), at) == NewCertificate(image, plan, U32At(image.data, at), U32At(image.data, at + 4))
            && U32At(Rebuilt(image, plan), at + 4) == U32At(image.data, at + 4)
  {
    hide *;
    var at := SecurityEntry(image);
    CertificateBody(image, plan);
    SecurityInOffsetFields(image);
    OffsetFieldKept(image, plan, at);
    OffsetFieldKept(image, plan, at + 4);
  }

  lemma SecurityInOffsetFields(image: Image)
    ensures forall i {:trigger InOffsetField(image, i)} ::
              SecurityEntry(image) <= i < SecurityEntry(image) + 8 ==> InOffsetField(image, i)
  {
  }

  lemma OffsetFieldKept(image: Image, plan: ImportPlan, at: nat)
    requires Layout(image, plan) && Rebuildable(image, plan)
    requires InOffsetField(image, at) && InOffsetField(image, at + 1)
    requires InOffsetField(image, at + 2) && InOffsetField(image, at + 3)
    ensures at + 4 <= |Rebuilt(image, plan)| && at + 4 <= |Body(image, plan)|
    ensures U32At(Rebuilt(image, plan), at) == U32At(Body(image, plan), at)
  {
    hide *;
    OffsetFieldFinal(image, plan, at);
    OffsetFieldFinal(image, plan, at + 1);
    OffsetFieldFinal(image, plan, at + 2);
    OffsetFieldFinal(image, plan, at + 3);
    SameField32(Rebuilt(image, plan), at, Body(image, plan), at);
  }

  // ---- what the offsets denote ----

  /** Old offset `p` has become `q`, and what it denotes has moved with it. */
  ghost predicate Follows(out: seq<byte>, q: nat, image: Image, p: nat, delta: u32)
  {
    q == p + delta && Denotes(out, q, image, p, delta)
  }

  /** An offset that points into the section data. */
  predicate InSectionData(image: Image, p: nat)
  {
    image.sizeOfHeaders <= p < RawEnd(image)
  }

  lemma ShiftedFollows(out: seq<byte>, image: Image, delta: u32, p: u32)
    requires DataMoved(out, image, delta) && DataFits(image, delta) && InSectionData(image, p)
    requires image.sizeOfHeaders > 0
    ensures p != 0 && Follows(out, SatAdd(p, delta), image, p, delta)
  {
    MovedDenotes(out, image, delta, p);
  }

  lemma PatchedLayout(image: Image, dll: seq<byte>, entry: seq<byte>, plan: ImportPlan, out: seq<byte>)
    requires Patches(image, dll, entry, plan, out)
    ensures Layout(image, plan) && Rebuildable(image, plan) && out == Rebuilt(image, plan)
    ensures image.sizeOfHeaders > 0
  {
    ReadyLayout(image, dll, entry, plan);
  }

  /** Main result, COFF symbol table: a pointer into the section data follows it, and
      NumberOfSymbols, behind the pointer, is untouched. */
  lemma SymbolsFollow(image: Image, dll: seq<byte>, entry: seq<byte>, plan: ImportPlan, out: seq<byte>)
    requires Patches(image, dll, entry, plan, out)
    ensures image.Coff() + 16 <= |image.data| && image.Coff() + 16 <= |out|
    ensures InSectionData(image, U32At(image.data, image.Coff() + 8)) ==>
              Follows(out, U32At(out, image.Coff() + 8), image, U32At(image.data, image.Coff() + 8), Delta(image, plan))
    ensures U32At(image.data, image.Coff() + 8) == 0 ==> U32At(out, image.Coff() + 8) == 0
    ensures U32At(out, image.Coff() + 12) == U32At(image.data, image.Coff() + 12)
  {
    hide *;
    PatchedLayout(image, dll, entry, plan, out);
    PatchFacts(image, dll, entry, plan, out);
    CoffPointer(image, plan);
    SymbolCount(image, plan);
    if InSectionData(image, U32At(image.data, image.Coff() + 8)) {
      ShiftedFollows(out, image, Delta(image, plan), U32At(image.data, image.Coff() + 8));
    }
  }

  lemma SymbolCount(image: Image, plan: ImportPlan)
    requires Layout(image, plan) && Rebuildable(image, plan)
    ensures image.Coff() + 16 <= |image.data| && image.Coff() + 16 <= |Rebuilt(image, plan)|
    ensures U32At(Rebuilt(image, plan), image.Coff() + 12) == U32At(image.data, image.Coff() + 12)
  {
    assert HeaderLayout(image);
    hide *;
    HeadersKept(image, plan);
    SymbolCountKept(Rebuilt(image, plan), image);
  }

  lemma SymbolCountKept(out: seq<byte>, image: Image)
    requires HeaderLayout(image) && HeaderKept(out, image)
    ensures image.Coff() + 16 <= |image.data| && image.Coff() + 16 <= |out|
    ensures U32At(out, image.Coff() + 12) == U32At(image.data, image.Coff() + 12)
  {
    HeaderField32(out, image, image.Coff() + 12);
  }

  /** Main result, debug directory: every offset of a debug entry in the section data, with as many
      entries as the directory's size holds, is rewritten: 0 stays 0, any other grows by what the
      headers grow by, so that one into the section data follows it. */
  lemma DebugFollows(image: Image, dll: seq<byte>, entry: seq<byte>, plan: ImportPlan, out: seq<byte>, f: nat)
    requires Patches(image, dll, entry, plan, out)
    requires DebugPointerAt(image, f) && f + 4 <= RawEnd(image)
    ensures var delta := Delta(image, plan);
            && f + 4 <= |image.data| && f + delta + 4 <= |out|
            && var p, q := U32At(image.data, f), U32At(out, f + delta);
            && (p == 0 ==> q == 0)
            && (p != 0 ==> q as int == if p as int + delta as int < 0x1_0000_0000 then p as int + delta as int else 0xFFFF_FFFF)
            && (InSectionData(image, p) ==> Follows(out, q, image, p, delta))
  {
    hide *;
    var j := DebugPointerIs(image, f);
    PatchedLayout(image, dll, entry, plan, out);
    PatchFacts(image, dll, entry, plan, out);
    DebugPointer(image, plan, j);
    Saturates(U32At(image.data, f), Delta(image, plan));
    if InSectionData(image, U32At(image.data, f)) {
      ShiftedFollows(out, image, Delta(image, plan), U32At(image.data, f));
    }
  }

  lemma Saturates(p: u32, delta: u32)
    ensures SatAdd(p, delta) as int == if p as int + delta as int < 0x1_0000_0000 then p as int + delta as int else 0xFFFF_FFFF
  {
  }

  /** Main result, section data: every other byte of it moves as it is. */
  lemma DataFollows(image: Image, dll: seq<byte>, entry: seq<byte>, plan: ImportPlan, out: seq<byte>, o: nat)
    requires Patches(image, dll, entry, plan, out)
    requires image.sizeOfHeaders <= o < RawEnd(image) && forall f: nat :: DebugPointerAt(image, f) ==> !(f <= o < f + 4)
    ensures o < |image.data| && o + Delta(image, plan) < |out| && out[o + Delta(image, plan)] == image.data[o]
  {
    hide *;
    PatchFacts(image, dll, entry, plan, out);
    DebugBytes(image, o);
    DataByteMoved(out, image, Delta(image, plan), o);
  }

  lemma DataByteMoved(out: seq<byte>, image: Image, delta: u32, o: nat)
    requires DataMoved(out, image, delta) && image.sizeOfHeaders <= o < RawEnd(image) && !InDebug(image, o)
    ensures o < |image.data| && o + delta < |out| && out[o + delta] == image.data[o]
  {
    assert !Rewritten(image, delta, o);
  }

  /** Main result, section headers: PointerToRelocations and PointerToLinenumbers of the old sections
      are file offsets too, and are not shifted. One that points into the section data still
      denotes what it did exactly when the headers do not grow. */
  lemma SectionPointersStay(image: Image, dll: seq<byte>, entry: seq<byte>, plan: ImportPlan, out: seq<byte>, k: nat, field: nat)
    requires Patches(image, dll, entry, plan, out) && k < |image.sections| && (field == 24 || field == 28)
    ensures var at := image.SectionTable() + 40 * k + field;
            && at + 4 <= |image.data| && at + 4 <= |out|
            && U32At(out, at) == U32At(image.data, at)
            && (InSectionData(image, U32At(image.data, at)) ==>
                  (Follows(out, U32At(out, at), image, U32At(image.data, at), Delta(image, plan)) <==> Delta(image, plan) == 0))
  {
    hide *;
    var at := image.SectionTable() + 40 * k + field;
    PatchedLayout(image, dll, entry, plan, out);
    PatchFacts(image, dll, entry, plan, out);
    SectionFieldKept(image, plan, k, field);
    if InSectionData(image, U32At(image.data, at)) {
      StaysOnlyWithoutDelta(out, image, Delta(image, plan), U32At(image.data, at));
    }
  }

  lemma StaysOnlyWithoutDelta(out: seq<byte>, image: Image, delta: u32, p: u32)
    requires DataMoved(out, image, delta) && InSectionData(image, p)
    ensures Follows(out, p, image, p, delta) <==> delta == 0
  {
    hide DataMoved, Denotes;
    MovedDenotes(out, image, delta, p);
  }

  lemma SectionFieldKept(image: Image, plan: ImportPlan, k: nat, field: nat)
    requires Layout(image, plan) && Rebuildable(image, plan) && k < |image.sections| && 24 <= field && field + 4 <= 40
    ensures var at := image.SectionTable() + 40 * k + field;
            && at + 4 <= |image.data| && at + 4 <= |Rebuilt(image, plan)|
            && U32At(Rebuilt(image, plan), at) == U32At(image.data, at)
  {
    assert HeaderLayout(image);
    hide *;
    var at := image.SectionTable() + 40 * k + field;
    SectionFieldPlace(image, plan, k, field);
    TableShifted(image, plan);
    forall i | at <= i < at + 4 ensures Rebuilt(image, plan)[i] == image.data[i] {
      TableByteOutsidePointer(Rebuilt(image, plan), image, Delta(image, plan), k, i);
    }
    SameField32(Rebuilt(image, plan), at, image.data, at);
  }

  lemma SectionFieldPlace(image: Image, plan: ImportPlan, k: nat, field: nat)
    requires Layout(image, plan) && Rebuildable(image, plan) && k < |image.sections| && field + 4 <= 40
    ensures var at := image.SectionTable() + 40 * k + field; at + 4 <= |image.data| && at + 4 <= |Rebuilt(image, plan)|
  {
    hide Rebuilt, RawInside;
  }

  lemma CertificateShiftsOnly(image: Image, plan: ImportPlan, p: u32, n: u32)
    requires DataLayout(image, plan) && InSectionData(image, p) && n != 0
    ensures NewCertificate(image, plan, p, n) == SatAdd(p, Delta(image, plan)) || p == 0
  {
  }

  /** Main result, certificate table inside the section data. */
  lemma CertificateFollows(image: Image, dll: seq<byte>, entry: seq<byte>, plan: ImportPlan, out: seq<byte>)
    requires Patches(image, dll, entry, plan, out)
    ensures var at := SecurityEntry(image);
            && at + 8 <= |image.data| && at + 8 <= |out|
            && U32At(out, at + 4) == U32At(image.data, at + 4)
            && (InSectionData(image, U32At(image.data, at)) && U32At(image.data, at + 4) != 0 ==>
                  Follows(out, U32At(out, at), image, U32At(image.data, at), Delta(image, plan)))
  {
    hide *;
    var at := SecurityEntry(image);
    PatchedLayout(image, dll, entry, plan, out);
    ReadyDataLayoutOf(image, dll, entry, plan, out);
    PatchFacts(image, dll, entry, plan, out);
    CertificateEntry(image, plan);
    if InSectionData(image, U32At(image.data, at)) && U32At(image.data, at + 4) != 0 {
      ShiftedFollows(out, image, Delta(image, plan), U32At(image.data, at));
      CertificateShiftsOnly(image, plan, U32At(image.data, at), U32At(image.data, at + 4));
    }
  }

  lemma ReadyDataLayoutOf(image: Image, dll: seq<byte>, entry: seq<byte>, plan: ImportPlan, out: seq<byte>)
    requires Patches(image, dll, entry, plan, out)
    ensures DataLayout(image, plan)
  {
    assert Ready(image, dll, entry, plan);
    hide *;
    ReadyDataLayout(image, dll, entry, plan);
  }

  // ---- the overlay ----

  ghost predicate HasTail(out: seq<byte>, image: Image, plan: ImportPlan)
  {
    && OverlayAt(image, plan) <= |out|
    && out[OverlayAt(image, plan)..] == image.data[Min(OldRawEnd(image, Delta(image, plan)), |image.data|)..]
  }

  /** What follows the new section. */
  lemma Tail(image: Image, dll: seq<byte>, entry: seq<byte>, plan: ImportPlan, out: seq<byte>)
    requires Patches(image, dll, entry, plan, out)
    ensures DataLayout(image, plan) && HasTail(out, image, plan)
  {
    PatchedLayout(image, dll, entry, plan, out);
    hide Patches, Layout, DataLayout, Rebuildable, Rebuilt, OverlayAt, OldRawEnd, Delta, Min;
    ReadyDataLayoutOf(image, dll, entry, plan, out);
    TailBytes(image, plan);
  }

  /** Main result, overlay: it is moved byte for byte behind the new section exactly when the
      headers do not grow or there is no overlay. The code takes it from `raw_end + delta` on. */
  lemma OverlayKept(image: Image, dll: seq<byte>, entry: seq<byte>, plan: ImportPlan, out: seq<byte>)
    requires Patches(image, dll, entry, plan, out)
    ensures RawEnd(image) <= |image.data| && OverlayAt(image, plan) <= |out|
    ensures out[OverlayAt(image, plan)..] == image.data[RawEnd(image)..]
            <==> Delta(image, plan) == 0 || RawEnd(image) == |image.data|
  {
    Tail(image, dll, entry, plan, out);
    assert HasTail(out, image, plan);
    hide *;
    TailStart(image, plan);
    TailEqual(out[OverlayAt(image, plan)..], image.data, Min(OldRawEnd(image, Delta(image, plan)), |image.data|), RawEnd(image));
  }

  lemma TailStart(image: Image, plan: ImportPlan)
    requires DataLayout(image, plan)
    ensures RawEnd(image) <= Min(OldRawEnd(image, Delta(image, plan)), |image.data|) <= |image.data|
    ensures Min(OldRawEnd(image, Delta(image, plan)), |image.data|) == RawEnd(image)
            <==> Delta(image, plan) == 0 || RawEnd(image) == |image.data|
  {
  }

  lemma TailEqual(tail: seq<byte>, d: seq<byte>, end: nat, start: nat)
    requires start <= end <= |d| && tail == d[end..]
    ensures tail == d[start..] <==> end == start
  {
    assert |tail| == |d| - end;
  }

  /** Bytes of the overlay that the certificate entry `(p, n)` names. */
  predicate InOverlay(image: Image, p: nat, n: nat)
  {
    RawEnd(image) <= p && n > 0 && p + n <= |image.data|
  }

  /** A certificate in the overlay. If the overlay is longer than `delta`, the entry names the place
      where it would be, but what stands there are the bytes `delta` further on, and its end is in
      the file only while those are. Otherwise nothing of the overlay is left, and the entry is
      `delta` further on, wherever that is. */
  lemma CertificateInOverlay(image: Image, dll: seq<byte>, entry: seq<byte>, plan: ImportPlan, out: seq<byte>)
    requires Patches(image, dll, entry, plan, out)
    ensures SecurityEntry(image) + 8 <= |image.data| && SecurityEntry(image) + 8 <= |out|
    ensures var e, delta, at := SecurityEntry(image), Delta(image, plan), OverlayAt(image, plan);
            var p, q, n := U32At(image.data, e), U32At(out, e), U32At(image.data, e + 4);
            && U32At(out, e + 4) == n
            && (InOverlay(image, p, n) ==>
                  if RawEnd(image) as int + delta as int < |image.data| then
                    && q as int == at + (p as int - RawEnd(image) as int)
                    && (q as int + n as int <= |out| <==> p as int + n as int + delta as int <= |image.data|)
                    && (q as int + n as int <= |out| ==> out[q..q + n] == image.data[p + delta..p + delta + n])
                  else q as int == p as int + delta as int && delta > 0 && |out| == at)
  {
    hide *;
    var e := SecurityEntry(image);
    PatchedLayout(image, dll, entry, plan, out);
    CertificateEntry(image, plan);
    var p, n := U32At(image.data, e), U32At(image.data, e + 4);
    if InOverlay(image, p, n) {
      OverlayEntry(image, dll, entry, plan, out, p, n);
    }
  }

  /** For an entry `(p, n)` that points into the overlay. */
  lemma OverlayEntry(image: Image, dll: seq<byte>, entry: seq<byte>, plan: ImportPlan, out: seq<byte>, p: u32, n: u32)
    requires Patches(image, dll, entry, plan, out) && InOverlay(image, p, n)
    ensures var q, delta, at := NewCertificate(image, plan, p, n), Delta(image, plan), OverlayAt(image, plan);
            if RawEnd(image) as int + delta as int < |image.data| then
              && q == at + (p - RawEnd(image))
              && (q as int + n as int <= |out| <==> p as int + n as int + delta as int <= |image.data|)
              && (q as int + n as int <= |out| ==> out[q..q + n] == image.data[p + delta..p + delta + n])
            else q == p + delta && delta > 0 && |out| == at
  {
    hide *;
    PatchedLayout(image, dll, entry, plan, out);
    Tail(image, dll, entry, plan, out);
    OverlayOffset(image, plan, p, n);
    InTail(out, image, plan, p - RawEnd(image), n);
    OverlayNumbers(image, plan);
    TailLength(out, image, plan);
  }

  lemma OverlayOffset(image: Image, plan: ImportPlan, p: u32, n: u32)
    requires DataLayout(image, plan) && image.sizeOfHeaders > 0 && InOverlay(image, p, n)
    ensures p >= RawEnd(image)
    ensures var delta, end := Delta(image, plan), RawEnd(image) as int + Delta(image, plan) as int;
            && OldRawEnd(image, delta) == end
            && NewCertificate(image, plan, p, n)
               == (if end < |image.data| then OverlayAt(image, plan) + (p - RawEnd(image)) else p + delta)
            && (end < |image.data| ==> Min(OldRawEnd(image, delta), |image.data|) == end)
            && (end >= |image.data| ==> delta > 0 && Min(OldRawEnd(image, delta), |image.data|) == |image.data|)
  {
  }

  lemma TailLength(out: seq<byte>, image: Image, plan: ImportPlan)
    requires HasTail(out, image, plan) && RawEnd(image) <= |image.data|
    ensures |out| == OverlayAt(image, plan) + |image.data| - Min(OldRawEnd(image, Delta(image, plan)), |image.data|)
  {
    hide OverlayAt, OldRawEnd, Delta, RawEnd;
    assert |out[OverlayAt(image, plan)..]| == |out| - OverlayAt(image, plan);
  }

  lemma InTail(out: seq<byte>, image: Image, plan: ImportPlan, k: nat, n: nat)
    requires HasTail(out, image, plan)
    ensures var at, end := OverlayAt(image, plan), Min(OldRawEnd(image, Delta(image, plan)), |image.data|);
            && (at + k + n <= |out| <==> end + k + n <= |image.data|)
            && (at + k + n <= |out| ==> out[at + k..at + k + n] == image.data[end + k..end + k + n])
  {
    hide OverlayAt, OldRawEnd, Delta;
    SliceOfTail(out, OverlayAt(image, plan), image.data, Min(OldRawEnd(image, Delta(image, plan)), |image.data|), k, n);
  }

  lemma SliceOfTail(out: seq<byte>, at: nat, d: seq<byte>, end: nat, k: nat, n: nat)
    requires at <= |out| && end <= |d| && out[at..] == d[end..]
    ensures at + k + n <= |out| <==> end + k + n <= |d|
    ensures at + k + n <= |out| ==> out[at + k..at + k + n] == d[end + k..end + k + n]
  {
    assert |out[at..]| == |out| - at && |d[end..]| == |d| - end;
    if at + k + n <= |out| {
      var x, y := out[at + k..at + k + n], d[end + k..end + k + n];
      forall i | 0 <= i < n ensures x[i] == y[i] {
        assert out[at..][k + i] == d[end..][k + i];
      }
      assert x == y;
    }
  }

  /** The entry `(q, n)` lies in what follows the new section and denotes the bytes that `(p, n)`
      denoted in the old file. */
  ghost predicate CopiedBehind(out: seq<byte>, q: nat, n: nat, image: Image, plan: ImportPlan, p: nat)
  {
    && OverlayAt(image, plan) <= q && q + n <= |out|
    && p + n <= |image.data| && out[q..q + n] == image.data[p..p + n]
  }

  /** Main result, certificate table at the end of the file, where signing tools put it: it is copied
      behind the new section, and its entry still denotes it, exactly when the headers do not
      grow. If they do, its entry still ends in the file only when the whole overlay has been
      dropped and the gap or the new section happens to reach that far. */
  lemma CertificateKept(image: Image, dll: seq<byte>, entry: seq<byte>, plan: ImportPlan, out: seq<byte>)
    requires Patches(image, dll, entry, plan, out)
    ensures SecurityEntry(image) + 8 <= |image.data| && SecurityEntry(image) + 8 <= |out|
    ensures var at, delta := SecurityEntry(image), Delta(image, plan);
            var p, q, n := U32At(image.data, at), U32At(out, at), U32At(image.data, at + 4);
            InOverlay(image, p, n) && p as int + n as int == |image.data| ==>
              && (CopiedBehind(out, q, n, image, plan, p) <==> delta == 0)
              && (q as int + n as int <= |out| <==>
                    delta == 0 || (RawEnd(image) as int + delta as int >= |image.data|
                                   && |image.data| + delta as int <= OverlayAt(image, plan)))
  {
    hide *;
    var at := SecurityEntry(image);
    PatchedLayout(image, dll, entry, plan, out);
    CertificateEntry(image, plan);
    var p, n := U32At(image.data, at), U32At(image.data, at + 4);
    if InOverlay(image, p, n) && p as int + n as int == |image.data| {
      OverlayEntry(image, dll, entry, plan, out, p, n);
      CopiedExactly(out, NewCertificate(image, plan, p, n), n, image, plan, p);
    }
  }

  lemma CopiedExactly(out: seq<byte>, q: u32, n: u32, image: Image, plan: ImportPlan, p: u32)
    requires InOverlay(image, p, n) && p as int + n as int == |image.data|
    requires var delta, at := Delta(image, plan), OverlayAt(image, plan);
             if RawEnd(image) as int + delta as int < |image.data| then
               && q == at + (p - RawEnd(image))
               && (q as int + n as int <= |out| <==> p as int + n as int + delta as int <= |image.data|)
               && (q as int + n as int <= |out| ==> out[q..q + n] == image.data[p + delta..p + delta + n])
             else q == p + delta && delta > 0 && |out| == at
    ensures CopiedBehind(out, q, n, image, plan, p) <==> Delta(image, plan) == 0
    ensures q as int + n as int <= |out| <==>
              Delta(image, plan) == 0 || (RawEnd(image) as int + Delta(image, plan) as int >= |image.data|
                                          && |image.data| + Delta(image, plan) as int <= OverlayAt(image, plan))
  {
    hide OverlayAt, Delta, RawEnd;
  }

  /** The rewrite with the overlay taken from `raw_end` on, whenever there is one. */
  function WithWholeOverlay(out: seq<byte>, image: Image, delta: u32): (r: seq<byte>)
  {
    var end := RawEnd(image);
    if end < |image.data| then
      RelocateOverlay(out + image.data[end..], SecurityEntry(image), OldRawEnd(image, delta), Wrap32(|out|))
    else out
  }

  /** With that the certificate entry would denote the same bytes as before, for every `delta`. */
  lemma UnshiftedOverlay(image: Image, plan: ImportPlan)
    requires Layout(image, plan) && Rebuildable(image, plan)
    ensures var at, delta := SecurityEntry(image), Delta(image, plan);
            var repaired := WithWholeOverlay(WithSection(Shifted(image, delta), image, plan, delta), image, delta);
            && at + 8 <= |image.data| && at + 8 <= |repaired|
            && var p, q, n := U32At(image.data, at), U32At(repaired, at), U32At(image.data, at + 4);
            InOverlay(image, p, n) ==> q as int + n as int <= |repaired| && repaired[q..q + n] == image.data[p..p + n]
  {
    var at, delta := SecurityEntry(image), Delta(image, plan);
    hide Layout, Rebuildable, Shifted, WithSection, WithWholeOverlay, NewRaw, OldRawEnd, Delta, RawInside, HeaderLayout, HeadersInside,
         RelocateOverlay, RawEnd;
    SecurityPlace(image, plan);
    OverlayNumbers(image, plan);
    CertificateShifted(image, delta);
    var shifted := Shifted(image, delta);
    SectionStepKeeps(shifted, image, plan, delta, at);
    SectionStepKeeps(shifted, image, plan, delta, at + 4);
    var out := WithSection(shifted, image, plan, delta);
    WholeLength(out, image, delta);
    var p, n := U32At(image.data, at), U32At(image.data, at + 4);
    if InOverlay(image, p, n) {
      WholeOverlayStep(out, image, delta, p);
    }
  }

  lemma WholeLength(out: seq<byte>, image: Image, delta: u32)
    ensures |WithWholeOverlay(out, image, delta)| >= |out|
  {
  }

  lemma OverlayNumbers(image: Image, plan: ImportPlan)
    requires Layout(image, plan)
    ensures 0 < image.sizeOfHeaders <= RawEnd(image) <= |image.data| < LIMIT32
    ensures OldRawEnd(image, Delta(image, plan)) == RawEnd(image) as int + Delta(image, plan) as int
    ensures RawEnd(image) as int + Delta(image, plan) as int <= NewRaw(image, Delta(image, plan))
    ensures OverlayAt(image, plan) + |image.data| - RawEnd(image) as int < LIMIT32
  {
  }

  lemma WholeOverlayStep(out: seq<byte>, image: Image, delta: u32, p: u32)
    requires SecurityEntry(image) + 8 <= |out| && 0 < RawEnd(image) <= |image.data|
    requires OldRawEnd(image, delta) == RawEnd(image) as int + delta as int <= |out|
    requires |out| + |image.data| - RawEnd(image) as int < LIMIT32
    requires InOverlay(image, p, U32At(out, SecurityEntry(image) + 4)) && U32At(out, SecurityEntry(image)) == SatAdd(p, delta)
    ensures var at, r := SecurityEntry(image), WithWholeOverlay(out, image, delta);
            && at + 4 <= |r|
            && var q, n := U32At(r, at), U32At(out, at + 4);
            q as int + n as int <= |r| && r[q..q + n] == image.data[p..p + n]
  {
    hide RelocateOverlay, U32At, RawEnd, OldRawEnd;
    var at, n, end := SecurityEntry(image), U32At(out, SecurityEntry(image) + 4), RawEnd(image);
    var longer := out + image.data[end..];
    SameField32(longer, at, out, at);
    SameField32(longer, at + 4, out, at + 4);
    RelocateStep(longer, at, OldRawEnd(image, delta), Wrap32(|out|));
    var r := WithWholeOverlay(out, image, delta);
    var q := |out| + (p - end);
    assert U32At(r, at) == q;
    var x, y := r[q..q + n], image.data[p..p + n];
    forall i | 0 <= i < n ensures x[i] == y[i] {
      RelocateKeeps(longer, at, OldRawEnd(image, delta), Wrap32(|out|), q + i);
      assert longer[q + i] == image.data[end..][p - end + i];
    }
    assert x == y;
  }

  /** File offset `p` into the overlay has become `q`: it is shifted by `delta` like all others, while
      the byte it denotes, if it is kept, moves behind the new section. The offset finds it there
      exactly when that move happens to be by `delta` too, and never when `delta` is 0. */
  ghost predicate LeftBehind(out: seq<byte>, q: nat, image: Image, plan: ImportPlan, p: nat)
  {
    var delta, end := Delta(image, plan), RawEnd(image) as int + Delta(image, plan) as int;
    && q == p + delta
    && (end <= p < |image.data| ==>
          var moved := OverlayAt(image, plan) + (p - end);
          && moved < |out| && out[moved] == image.data[p]
          && (q == moved <==> OverlayAt(image, plan) == end + delta)
          && (delta == 0 ==> q < moved))
  }

  lemma OverlayPointer(image: Image, dll: seq<byte>, entry: seq<byte>, plan: ImportPlan, out: seq<byte>, p: u32)
    requires Patches(image, dll, entry, plan, out) && RawEnd(image) <= p < |image.data|
    ensures p > 0 && LeftBehind(out, SatAdd(p, Delta(image, plan)), image, plan, p)
  {
    hide *;
    var end := RawEnd(image) as int + Delta(image, plan) as int;
    PatchedLayout(image, dll, entry, plan, out);
    Tail(image, dll, entry, plan, out);
    ReadyBlob(image, dll, entry, plan, out);
    OverlayNumbers(image, plan);
    OverlayBehind(image, plan);
    ShiftedPointer(image, plan, p);
    if end <= p {
      InTail(out, image, plan, p - end, 1);
      TailFrom(image, plan, end);
      SingleByte(out, OverlayAt(image, plan) + (p - end), image.data, p);
    }
    LeftBehindIs(out, SatAdd(p, Delta(image, plan)), image, plan, p);
  }

  lemma LeftBehindIs(out: seq<byte>, q: nat, image: Image, plan: ImportPlan, p: nat)
    requires var delta, end := Delta(image, plan), RawEnd(image) as int + Delta(image, plan) as int;
             && q == p + delta && end < OverlayAt(image, plan)
             && (end <= p < |image.data| ==>
                   var moved := OverlayAt(image, plan) + (p - end); moved < |out| && out[moved] == image.data[p])
    ensures LeftBehind(out, q, image, plan, p)
  {
    hide Delta, OverlayAt, RawEnd;
  }

  /** The COFF pointer does not follow the overlay. */
  lemma SymbolsInOverlay(image: Image, dll: seq<byte>, entry: seq<byte>, plan: ImportPlan, out: seq<byte>)
    requires Patches(image, dll, entry, plan, out)
    ensures image.Coff() + 12 <= |image.data| && image.Coff() + 12 <= |out|
    ensures var p := U32At(image.data, image.Coff() + 8);
            RawEnd(image) <= p < |image.data| ==> LeftBehind(out, U32At(out, image.Coff() + 8), image, plan, p)
  {
    hide *;
    PatchedLayout(image, dll, entry, plan, out);
    CoffPointer(image, plan);
    var p := U32At(image.data, image.Coff() + 8);
    if RawEnd(image) <= p < |image.data| {
      OverlayPointer(image, dll, entry, plan, out, p);
    }
  }

  /** Nor do debug pointers into the overlay. A debug entry that itself lies in the overlay is copied
      as it was, as far as the overlay is: its shifted value is cut off. */
  lemma DebugInOverlay(image: Image, dll: seq<byte>, entry: seq<byte>, plan: ImportPlan, out: seq<byte>, f: nat)
    requires Patches(image, dll, entry, plan, out) && DebugPointerAt(image, f)
    ensures f + 4 <= RawEnd(image) ==>
              && f + 4 <= |image.data| && f + Delta(image, plan) + 4 <= |out|
              && (RawEnd(image) <= U32At(image.data, f) < |image.data| ==>
                    LeftBehind(out, U32At(out, f + Delta(image, plan)), image, plan, U32At(image.data, f)))
    ensures var end := RawEnd(image) as int + Delta(image, plan) as int;
            && HasTail(out, image, plan)
            && (end <= f && f + 4 <= |image.data| ==>
                  var at := OverlayAt(image, plan) + (f - end);
                  at + 4 <= |out| && U32At(out, at) == U32At(image.data, f))
  {
    hide *;
    var end := RawEnd(image) as int + Delta(image, plan) as int;
    PatchedLayout(image, dll, entry, plan, out);
    Tail(image, dll, entry, plan, out);
    OverlayNumbers(image, plan);
    if f + 4 <= RawEnd(image) {
      var j := DebugPointerIs(image, f);
      DebugPointer(image, plan, j);
      if RawEnd(image) <= U32At(image.data, f) < |image.data| {
        OverlayPointer(image, dll, entry, plan, out, U32At(image.data, f));
      }
    }
    if end <= f && f + 4 <= |image.data| {
      InTail(out, image, plan, f - end, 4);
      TailFrom(image, plan, end);
      SlicedField(out, OverlayAt(image, plan) + (f - end), image.data, f);
    }
  }

  lemma SlicedField(a: seq<byte>, i: nat, b: seq<byte>, j: nat)
    requires i + 4 <= |a| && j + 4 <= |b| && a[i..i + 4] == b[j..j + 4]
    ensures U32At(a, i) == U32At(b, j)
  {
    forall m | i <= m < i + 4 ensures a[m] == b[j + (m - i)] {
      assert a[i..i + 4][m - i] == b[j..j + 4][m - i];
    }
    SameField32(a, i, b, j);
  }

  lemma ShiftedPointer(image: Image, plan: ImportPlan, p: u32)
    requires Layout(image, plan) && p < |image.data|
    ensures p > 0 ==> SatAdd(p, Delta(image, plan)) == p + Delta(image, plan)
    ensures RawEnd(image) <= p ==> p > 0
  {
  }

  lemma TailFrom(image: Image, plan: ImportPlan, end: nat)
    requires OldRawEnd(image, Delta(image, plan)) == end < |image.data|
    ensures Min(OldRawEnd(image, Delta(image, plan)), |image.data|) == end
  {
  }

  lemma ReadyBlob(image: Image, dll: seq<byte>, entry: seq<byte>, plan: ImportPlan, out: seq<byte>)
    requires Patches(image, dll, entry, plan, out)
    ensures |plan.blob| > 0
  {
    assert Ready(image, dll, entry, plan);
    hide *;
    PlanNumbers(image, dll, entry, plan);
  }

  lemma OverlayBehind(image: Image, plan: ImportPlan)
    requires DataLayout(image, plan) && |plan.blob| > 0
    ensures OldRawEnd(image, Delta(image, plan)) < OverlayAt(image, plan)
  {
  }

  lemma SingleByte(a: seq<byte>, i: nat, b: seq<byte>, j: nat)
    requires i + 1 <= |a| && j + 1 <= |b| && a[i..i + 1] == b[j..j + 1]
    ensures a[i] == b[j]
  {
    assert a[i..i + 1][0] == b[j..j + 1][0];
  }
}
