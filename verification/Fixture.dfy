/** A concrete image that the theorems apply to: one section, headers that have to grow by 128
    bytes, and 204 bytes of overlay behind the section data. */
module Fixture {
  import opened Bytes
  import opened Parse
  import opened Import
  import opened Rebuild
  import opened PatchedBytes
  import opened PatchedImage
  import opened PatchedContents
  import opened PatchedOffsets

  const LENGTH := 1100

  /** The bytes that are not 0. */
  function At(i: nat): byte
  {
    if i < 0x40 then (if i == 0 then 0x4d else if i == 1 then 0x5a else if i == 0x3c then 0x40 else 0)
    else if i < 144 then
      (if i == 64 then 0x50 else if i == 65 then 0x45
       else if i == 68 then 0x64 else if i == 69 then 0x86
       else if i == 70 then 1
       else if i == 84 then 0xF0
       else if i == 88 then 0x0b else if i == 89 then 0x02
       else if i == 121 then 0x10
       else if i == 125 then 0x02
       else 0)
    else if i < 200 then
      (if i == 145 then 0x20
       else if i == 148 then 0x80 else if i == 149 then 0x01
       else if i == 196 then 16
       else 0)
    else if i < 328 then 0
    else if i < 368 then
      (if i == 328 then 99
       else if i == 337 then 2
       else if i == 341 then 0x10
       else if i == 345 then 2
       else if i == 348 then 0x80 else if i == 349 then 1
       else if i == 364 then 0x20 else if i == 367 then 0x60
       else 0)
    else if i >= 896 then 7
    else 0
  }

  function File(): (d: seq<byte>)
    ensures |d| == LENGTH
    ensures forall i :: 0 <= i < LENGTH ==> d[i] == At(i)
  {
    seq(LENGTH, i requires 0 <= i => At(i))
  }

  const SECTION := Section([99], 328, 0x1000, 512, 384, 512, 0x6000_0020)

  function TheImage(): Image
  {
    Image(File(), 64, MACHINE_AMD64, 1, 240, 0x1000, 512, 0x2000, 384, 16, [SECTION])
  }

  lemma Word16(at: nat, v: nat)
    requires at + 2 <= LENGTH && v == At(at) as int + 0x100 * At(at + 1) as int
    ensures U16At(File(), at) == v
  {
    hide U16At, At;
    WordValue(File(), at);
  }

  lemma Word32(at: nat, v: nat)
    requires at + 4 <= LENGTH
    requires v == At(at) as int + 0x100 * At(at + 1) as int + 0x1_0000 * At(at + 2) as int + 0x100_0000 * At(at + 3) as int
    ensures U32At(File(), at) == v
  {
    hide U32At, At;
    DoubleWordValue(File(), at);
  }

  lemma HeaderFields()
    ensures U32At(File(), 0x3c) == 64 && U16At(File(), 68) == MACHINE_AMD64 && U16At(File(), 70) == 1
    ensures U16At(File(), 84) == 240 && U16At(File(), 88) == MAGIC_PE32_PLUS
    ensures U32At(File(), 120) == 0x1000 && U32At(File(), 124) == 512
    ensures U32At(File(), 144) == 0x2000 && U32At(File(), 148) == 384 && U32At(File(), 196) == 16
  {
    hide U16At, U32At, File;
    Word32(0x3c, 64);
    Word16(68, 0x8664);
    Word16(70, 1);
    Word16(84, 240);
    Word16(88, 0x20b);
    Word32(120, 0x1000);
    Word32(124, 512);
    Word32(144, 0x2000);
    Word32(148, 384);
    Word32(196, 16);
  }

  lemma Powers512()
    ensures IsPowerOfTwo(512) && IsPowerOfTwo(0x1000)
  {
    assert IsPowerOfTwo(4);
    assert IsPowerOfTwo(16);
    assert IsPowerOfTwo(64);
    assert IsPowerOfTwo(128);
    assert IsPowerOfTwo(512);
    assert IsPowerOfTwo(0x800);
  }

  lemma TheSection()
    ensures SectionAt(File(), 328) == SECTION
  {
    hide U32At;
    Word32(336, 512);
    Word32(340, 0x1000);
    Word32(344, 512);
    Word32(348, 384);
    Word32(364, 0x6000_0020);
    assert File()[328..336][..1] == [99];
    TrimNulAt(File()[328..336], 1);
  }

  lemma Parses()
    ensures ParseSpec(File()) == Ok(TheImage())
  {
    HeaderFields();
    Powers512();
    TheSection();
    var d := File();
    assert d[0] == 0x4d && d[1] == 0x5a;
    assert d[64..68] == [0x50, 0x45, 0, 0];
    hide U16At, U32At, SectionAt, IsPowerOfTwo, File, At;
    assert HeaderError(d).None?;
    assert SectionsFrom(d, 328, 1, [SECTION]) == Ok([SECTION]);
    assert [] + [SECTION] == [SECTION];
    assert SectionsFrom(d, 328, 1, []) == Ok([SECTION]);
  }

  // "a.d" and "f"
  const DLL: seq<byte> := [97, 46, 100]
  const ENTRY: seq<byte> := [102]

  lemma Directory(index: nat)
    requires index < 16
    ensures TheImage().DataDir(index) == Some((0, 0))
  {
    hide U32At, File;
    Word32(200 + 8 * index, 0);
    Word32(204 + 8 * index, 0);
  }

  lemma RawEndIs()
    ensures RawEnd(TheImage()) == 896 && MaxRvaEnd([SECTION], 0x2000) == 0x2000 && MinVirtualAddress([SECTION]) == 0x1000
  {
    hide File;
    assert MaxRawEnd([]) == None;
    assert [SECTION][1..] == [];
  }

  lemma Addresses()
    ensures NewHeaders(TheImage()) == 512 && NewSectionRva(TheImage()) == 0x2000
  {
    hide File;
    RawEndIs();
    assert NextMultiple(512, 408, 512) == 512;
    assert NextMultiple(0x2000, 0x2000, 0x1000) == 0x2000;
    assert NextMultiple(0x1000, 0x2000, 0x1000) == 0x2000;
  }

  lemma Accepted()
    ensures SlotReadable(TheImage()) && Refusal(TheImage(), [], DLL).None?
  {
    var image := TheImage();
    Powers512();
    Addresses();
    RawEndIs();
    assert SlotIsEmpty(image);
    forall index | 0 <= index < 16 ensures !DirectoryOverSlot(image, index) {
      Directory(index);
    }
    hide File, IsPowerOfTwo, NewHeaders, MinVirtualAddress, RawEnd, DirectoryOverSlot;
    assert RawCheckFrom(image, 1, [(384, 896)]).None?;
    assert [] + [(384 as u32, 896 as u32)] == [(384, 896)];
    assert RawCheckFrom(image, 0, []).None?;
    assert !LooksPatchedByOther(image);
  }

  /** The plan for the fixture. */
  function ThePlan(): ImportPlan
  {
    PlanFor(TheImage(), [], DLL, ENTRY)
  }

  lemma Planned()
    ensures SlotReadable(TheImage()) && PlanSpec(TheImage(), DLL, ENTRY) == Ok(ThePlan())
    ensures ThePlan().newHeaders == 512 && ThePlan().newSectionVsize < 200
  {
    hide File, Refusal, NewHeaders, NewSectionRva, Blob, AlignUp32, IltOffset, PadEven, PlanFor;
    Accepted();
    Directory(1);
    PlanFields();
    assert NameAccepted(DLL) && NameAccepted(ENTRY);
  }

  lemma PlanFields()
    ensures ThePlan().newHeaders == 512 && ThePlan().newSectionVsize < 200
  {
    hide File, Refusal, NewHeaders, NewSectionRva, Blob, AlignUp32, IltOffset, PadEven, NameAccepted;
    Addresses();
    OffsetBounds(0, 1, 3);
  }

  lemma NoHook()
    ensures !TheImage().HasHookSection()
  {
    hide File;
    assert forall s :: s in TheImage().sections ==> s == SECTION;
    assert SECTION.name[0] != HOOK_SECTION_NAME[0];
  }

  lemma Fits(length: nat)
    requires length < 200
    ensures FitsIn32(TheImage(), length)
  {
    hide File, NextMultiple;
    RawEndIs();
  }

  /** The conditions of the theorems can be met with headers that grow and an overlay. */
  lemma IsReady()
    ensures Ready(TheImage(), DLL, ENTRY, ThePlan())
    ensures Delta(TheImage(), ThePlan()) == 128 && RawEnd(TheImage()) == 896 < |TheImage().data|
  {
    Parses();
    Planned();
    NoHook();
    RawEndIs();
    Fits(ThePlan().newSectionVsize);
    hide File, ParseSpec, PlanSpec, FitsIn32, ThePlan, RawEnd, SlotReadable;
  }

  /** On this file the rewriter drops bytes of the overlay: what it puts behind the new section is
      not what stood behind the old data. */
  lemma OverlayIsLost()
    ensures Rebuildable(TheImage(), ThePlan())
    ensures var out := Rebuilt(TheImage(), ThePlan());
            && ApplySpec(TheImage(), ThePlan()) == Ok(out)
            && OverlayAt(TheImage(), ThePlan()) <= |out| && 896 <= |TheImage().data|
            && out[OverlayAt(TheImage(), ThePlan())..] != TheImage().data[896..]
  {
    hide *;
    IsReady();
    ApplyPatches(TheImage(), DLL, ENTRY, ThePlan());
    OverlayKept(TheImage(), DLL, ENTRY, ThePlan(), Rebuilt(TheImage(), ThePlan()));
  }
}
