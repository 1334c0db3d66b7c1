/** Planning one more import: layout checks and the contents of the new section. */
module Import {
  import opened Bytes
  import opened Parse

  datatype ImportPlan = ImportPlan(
    dll: seq<byte>,
    entry: seq<byte>,
    newSectionRva: u32,
    newSectionVsize: u32,
    newSectionRawSize: u32,
    blob: seq<byte>,
    descriptorCount: u32,
    newHeaders: u32,
    newImageSize: u32)

  const SCN_MEM_WRITE := 0x8000_0000
  const MAX_IMPORT_NAME := 255

  // ---- names ----

  /** Names are given as UTF-8 bytes. */
  predicate NameAccepted(name: seq<byte>)
  {
    0 < |name| <= MAX_IMPORT_NAME && forall c :: c in name ==> 0 < c < 0x80
  }

  function Lower(c: byte): byte
  {
    if 65 <= c <= 90 then c + 32 else c
  }

  predicate EqIgnoreAsciiCase(a: seq<byte>, b: seq<byte>)
  {
    |a| == |b| && forall i :: 0 <= i < |a| ==> Lower(a[i]) == Lower(b[i])
  }

  /** At each place the two names have the same byte, or the same ASCII letter in two cases. */
  ghost predicate SameLetters(a: seq<byte>, b: seq<byte>)
  {
    |a| == |b| && forall i :: 0 <= i < |a| ==> SameLetter(a[i], b[i])
  }

  predicate SameLetter(c: byte, e: byte)
  {
    c == e || (65 <= c <= 90 && e == c + 32) || (65 <= e <= 90 && c == e + 32)
  }

  lemma SameLettersExactly(a: seq<byte>, b: seq<byte>)
    ensures EqIgnoreAsciiCase(a, b) <==> SameLetters(a, b)
  {
    if |a| == |b| {
      forall i | 0 <= i < |a| ensures Lower(a[i]) == Lower(b[i]) <==> SameLetter(a[i], b[i]) {
      }
    }
  }

  /** A name that can be written: 1 to 255 bytes of ASCII, none of them 0. */
  ghost predicate GoodName(name: seq<byte>)
  {
    1 <= |name| <= 255 && forall i :: 0 <= i < |name| ==> 1 <= name[i] <= 127
  }

  lemma GoodNameExactly(name: seq<byte>)
    ensures NameAccepted(name) <==> GoodName(name)
  {
    forall i | 0 <= i < |name| ensures name[i] in name {
    }
  }

  predicate Imports(ds: seq<Descriptor>, dll: seq<byte>)
  {
    exists k :: 0 <= k < |ds| && EqIgnoreAsciiCase(ds[k].dll, dll)
  }

  // ---- layout of the existing image ----

  predicate LooksPatchedByOther(image: Image)
  {
    exists s :: s in image.sections && s.sizeOfRawData != 0 && s.RawEnd() >= RawEnd(image)
                && s.characteristics >= SCN_MEM_WRITE
  }

  function MaxRvaEnd(sections: seq<Section>, floor: u32): (r: u32)
    ensures floor <= r
    ensures forall s :: s in sections ==> s.RvaEnd() <= r
  {
    if sections == [] then floor
    else Max(sections[0].RvaEnd(), MaxRvaEnd(sections[1..], floor))
  }

  function MinVirtualAddress(sections: seq<Section>): (r: u32)
    requires sections != []
    ensures forall s :: s in sections ==> r <= s.virtualAddress
  {
    if |sections| == 1 then sections[0].virtualAddress
    else Min(sections[0].virtualAddress, MinVirtualAddress(sections[1..]))
  }

  function SlotEnd(image: Image): nat { image.SectionTableEnd() + 40 }

  predicate SlotIsEmpty(image: Image)
    requires image.SectionTableEnd() <= image.sizeOfHeaders
    requires Min(SlotEnd(image), image.sizeOfHeaders) <= |image.data|
  {
    forall i :: image.SectionTableEnd() <= i < Min(SlotEnd(image), image.sizeOfHeaders) ==> image.data[i] == 0
  }

  predicate DirectoryOverSlot(image: Image, index: nat)
  {
    index != DIR_SECURITY
    && match image.DataDir(index)
       case None => false
       case Some((rva, size)) =>
         size != 0 && rva < Wrap32(SlotEnd(image)) && rva as int + size as int > image.SectionTableEnd()
  }

  predicate SomeDirectoryOverSlot(image: Image)
  {
    exists index :: 0 <= index < image.numRvaAndSizes && DirectoryOverSlot(image, index)
  }

  /** Sections `k..` checked against the ranges already seen. */
  function RawCheckFrom(image: Image, k: nat, occupied: seq<(u32, u32)>): Option<PeError>
    requires k <= |image.sections|
    decreases |image.sections| - k
  {
    if k == |image.sections| then None
    else
      var s := image.sections[k];
      var start, end := s.pointerToRawData, SatAdd(s.pointerToRawData, s.sizeOfRawData);
      if s.sizeOfRawData == 0 then RawCheckFrom(image, k + 1, occupied)
      else if start < image.sizeOfHeaders || end > |image.data| then Some(Malformed(RawOutsideFile))
      else if Overlaps(occupied, start, end) then Some(Malformed(RawRangesOverlap))
      else RawCheckFrom(image, k + 1, occupied + [(start, end)])
  }

  predicate Overlaps(occupied: seq<(u32, u32)>, start: u32, end: u32)
  {
    exists j :: 0 <= j < |occupied| && start < occupied[j].1 && end > occupied[j].0
  }

  // ---- layout of the new section ----

  function PadEven(n: nat): nat { n + n % 2 }

  function IltOffset(n: nat): nat { AlignUp(20 * n + 40, 8) }
  function IatOffset(n: nat): nat { IltOffset(n) + 16 }
  function HintOffset(n: nat): nat { IltOffset(n) + 32 }
  function NameOffset(n: nat, entryLen: nat): nat { HintOffset(n) + PadEven(entryLen + 3) }
  function BlobLength(n: nat, entryLen: nat, dllLen: nat): nat
  {
    NameOffset(n, entryLen) + PadEven(dllLen + 1)
  }

  lemma OffsetBounds(n: nat, entryLen: nat, dllLen: nat)
    ensures 20 * n + 40 <= IltOffset(n) < 20 * n + 48 && IltOffset(n) % 8 == 0
    ensures NameOffset(n, entryLen) >= HintOffset(n) + entryLen + 3
    ensures BlobLength(n, entryLen, dllLen) >= NameOffset(n, entryLen) + dllLen + 1
    ensures BlobLength(n, entryLen, dllLen) <= 20 * n + 92 + entryLen + dllLen
  {
    AlignUpMultiple(20 * n + 40, 8);
  }

  /** The bytes of the given descriptors, copied one by one. */
  function DescriptorBytes(d: seq<byte>, ds: seq<Descriptor>): (r: seq<byte>)
    requires forall k :: 0 <= k < |ds| ==> ds[k].offset + 20 <= |d|
    ensures |r| == 20 * |ds|
  {
    if ds == [] then []
    else
      var last := ds[|ds| - 1].offset;
      DescriptorBytes(d, ds[..|ds| - 1]) + d[last..last + 20]
  }

  function NewDescriptor(base: u32, n: nat, entryLen: nat): (r: seq<byte>)
    ensures |r| == 20
  {
    LE32(Wrap32(base + IltOffset(n))) + Zeros(8)
    + LE32(Wrap32(base + NameOffset(n, entryLen))) + LE32(Wrap32(base + IatOffset(n)))
  }

  /** A thunk array of one entry: the RVA of the hint and name, then the terminator. */
  function Thunks(base: u32, n: nat): (r: seq<byte>)
    ensures |r| == 16
  {
    LE32(Wrap32(base + HintOffset(n))) + Zeros(12)
  }

  function Padded(s: seq<byte>, n: nat): (r: seq<byte>)
    requires |s| <= n
    ensures |r| == n
  {
    s + Zeros(n - |s|)
  }

  /** Descriptors, new descriptor, null descriptor, gap | ILT, IAT | hint and entry name | dll name. */
  function Blob(base: u32, table: seq<byte>, n: nat, entry: seq<byte>, dll: seq<byte>): (r: seq<byte>)
    requires |table| == 20 * n
    ensures |r| == BlobLength(n, |entry|, |dll|)
  {
    OffsetBounds(n, |entry|, |dll|);
    Padded(table + NewDescriptor(base, n, |entry|), IltOffset(n))
    + Thunks(base, n) + Thunks(base, n)
    + Padded([0, 0] + entry, PadEven(|entry| + 3))
    + Padded(dll, PadEven(|dll| + 1))
  }

  // ---- the plan ----

  /** What slicing the slot area demands of the image (the program aborts otherwise). */
  predicate SlotReadable(image: Image)
  {
    && image.SectionTableEnd() <= image.sizeOfHeaders
    && Min(SlotEnd(image), image.sizeOfHeaders) <= |image.data|
    && |image.sections| == image.numberOfSections > 0
  }

  function NewHeaders(image: Image): u32
  {
    AlignUp32(Wrap32(Max(SlotEnd(image), image.sizeOfHeaders)), image.fileAlignment)
  }

  function NewSectionRva(image: Image): u32
  {
    AlignUp32(MaxRvaEnd(image.sections, image.sizeOfImage), image.sectionAlignment)
  }

  function AlignmentsOk(image: Image): bool
  {
    IsPowerOfTwo(image.fileAlignment) && IsPowerOfTwo(image.sectionAlignment)
    && image.fileAlignment <= image.sectionAlignment
  }

  /** Every refusal after the import list is known, in the order of the checks. */
  function Refusal(image: Image, ds: seq<Descriptor>, dll: seq<byte>): Option<PeError>
    requires SlotReadable(image)
  {
    if Imports(ds, dll) then Some(AlreadyImported(dll))
    else if !image.HasHookSection() && LooksPatchedByOther(image) then Some(ForeignPatch)
    else if image.numberOfSections >= MAX_SECTIONS then Some(NoSectionRoom)
    else if !AlignmentsOk(image) then Some(Malformed(BadAlignments))
    else if !SlotIsEmpty(image) then Some(Malformed(SlotNotEmpty))
    else if SomeDirectoryOverSlot(image) then Some(Malformed(SlotOverlapsDirectory))
    else if NewHeaders(image) > MinVirtualAddress(image.sections) then Some(Malformed(HeadersOverSectionRva))
    else RawCheckFrom(image, 0, [])
  }

  ghost predicate OffsetsInside(image: Image, ds: seq<Descriptor>)
  {
    forall k :: 0 <= k < |ds| ==> ds[k].offset + 20 <= |image.data|
  }

  lemma DescriptorsInside(image: Image)
    requires Descriptors(image).Ok?
    ensures OffsetsInside(image, Descriptors(image).value) && |Descriptors(image).value| <= MAX_DESCRIPTORS
  {
    var dir := image.DataDir(DIR_IMPORT);
    if dir.Some? && dir.value.0 != 0 {
      ReadIsTable(image, RvaToOffset(image, dir.value.0).value, [], Descriptors(image).value);
    }
  }

  function PlanFor(image: Image, ds: seq<Descriptor>, dll: seq<byte>, entry: seq<byte>): ImportPlan
    requires OffsetsInside(image, ds) && |ds| <= MAX_DESCRIPTORS
    requires |dll| <= MAX_IMPORT_NAME && |entry| <= MAX_IMPORT_NAME
  {
    var base := NewSectionRva(image);
    var length := BlobLength(|ds|, |entry|, |dll|);
    OffsetBounds(|ds|, |entry|, |dll|);
    ImportPlan(
      dll, entry, base, length, AlignUp32(length, image.fileAlignment),
      Blob(base, DescriptorBytes(image.data, ds), |ds|, entry, dll),
      |ds| + 2, NewHeaders(image), AlignUp32(SatAdd(base, length), image.sectionAlignment))
  }

  function PlanSpec(image: Image, dll: seq<byte>, entry: seq<byte>): Result<ImportPlan>
    requires SlotReadable(image)
  {
    if !NameAccepted(dll) || !NameAccepted(entry) then Err(BadImportName)
    else
      var ds := Descriptors(image);
      if ds.Err? then Err(ds.error)
      else
        var refusal := Refusal(image, ds.value, dll);
        DescriptorsInside(image);
        if refusal.Some? then Err(refusal.value) else Ok(PlanFor(image, ds.value, dll, entry))
  }

  /** What a successful plan says about the image. */
  lemma PlanMeaning(image: Image, dll: seq<byte>, entry: seq<byte>, plan: ImportPlan)
    requires SlotReadable(image) && PlanSpec(image, dll, entry) == Ok(plan)
    ensures NameAccepted(dll) && NameAccepted(entry)
    ensures Descriptors(image).Ok?
    ensures OffsetsInside(image, Descriptors(image).value) && |Descriptors(image).value| <= MAX_DESCRIPTORS
    ensures plan == PlanFor(image, Descriptors(image).value, dll, entry)
  {
    DescriptorsInside(image);
  }

  lemma PlanForSizes(image: Image, ds: seq<Descriptor>, dll: seq<byte>, entry: seq<byte>)
    requires OffsetsInside(image, ds) && |ds| <= MAX_DESCRIPTORS
    requires |dll| <= MAX_IMPORT_NAME && |entry| <= MAX_IMPORT_NAME
    ensures var plan := PlanFor(image, ds, dll, entry);
            var length := BlobLength(|ds|, |entry|, |dll|);
            plan.newSectionVsize == length && |plan.blob| == length && 40 <= length < 0x2_0000
  {
    OffsetBounds(|ds|, |entry|, |dll|);
  }

  // ---- the imperative planner ----

  /** Writing over the zeros behind a prefix, `gap` bytes further on. */
  lemma PutIntoZeros(prefix: seq<byte>, n: nat, gap: nat, s: seq<byte>)
    requires gap + |s| <= n
    ensures Put(prefix + Zeros(n), |prefix| + gap, s)
            == prefix + Zeros(gap) + s + Zeros(n - gap - |s|)
  {
  }

  method CopyDescriptors(image: Image, ds: seq<Descriptor>, blob: ByteBuffer)
    requires OffsetsInside(image, ds) && 20 * |ds| <= |blob.bytes|
    requires blob.bytes == Zeros(|blob.bytes|)
    modifies blob
    ensures blob.bytes == DescriptorBytes(image.data, ds) + Zeros(|old(blob.bytes)| - 20 * |ds|)
  {
    var total := |blob.bytes|;
    assert DescriptorBytes(image.data, ds[..0]) + Zeros(total) == Zeros(total);
    for index := 0 to |ds|
      invariant blob.bytes == DescriptorBytes(image.data, ds[..index]) + Zeros(total - 20 * index)
    {
      var source := ds[index].offset;
      PutIntoZeros(DescriptorBytes(image.data, ds[..index]), total - 20 * index, 0, image.data[source..source + 20]);
      assert ds[..index + 1][..index] == ds[..index];
      blob.Write(index * 20, image.data[source..source + 20]);
    }
    assert ds[..|ds|] == ds;
  }

  method WriteU32(blob: ByteBuffer, ghost prefix: seq<byte>, ghost n: nat, ghost gap: nat, at: nat, v: u32)
    requires blob.bytes == prefix + Zeros(n) && at == |prefix| + gap && gap + 4 <= n
    modifies blob
    ensures blob.bytes == (prefix + Zeros(gap) + LE32(v)) + Zeros(n - gap - 4)
  {
    PutIntoZeros(prefix, n, gap, LE32(v));
    blob.WriteU32(at, v);
  }

  method WriteBytes(blob: ByteBuffer, ghost prefix: seq<byte>, ghost n: nat, ghost gap: nat, at: nat, s: seq<byte>)
    requires blob.bytes == prefix + Zeros(n) && at == |prefix| + gap && gap + |s| <= n
    modifies blob
    ensures blob.bytes == (prefix + Zeros(gap) + s) + Zeros(n - gap - |s|)
  {
    PutIntoZeros(prefix, n, gap, s);
    blob.Write(at, s);
  }

  method WriteNewDescriptor(blob: ByteBuffer, ghost table: seq<byte>, n: nat, base: u32, entryLen: nat)
    requires |table| == 20 * n && |blob.bytes| >= 20 * n + 20
    requires blob.bytes == table + Zeros(|blob.bytes| - 20 * n)
    modifies blob
    ensures blob.bytes == (table + NewDescriptor(base, n, entryLen)) + Zeros(|old(blob.bytes)| - 20 * n - 20)
  {
    ghost var total := |blob.bytes|;
    var ilt, name, iat := Wrap32(base + IltOffset(n)), Wrap32(base + NameOffset(n, entryLen)), Wrap32(base + IatOffset(n));
    WriteU32(blob, table, total - 20 * n, 0, 20 * n, ilt);
    ghost var p1 := table + Zeros(0) + LE32(ilt);
    WriteU32(blob, p1, total - |p1|, 8, 20 * n + 12, name);
    ghost var p2 := p1 + Zeros(8) + LE32(name);
    WriteU32(blob, p2, total - |p2|, 0, 20 * n + 16, iat);
    assert p2 + Zeros(0) + LE32(iat) == table + NewDescriptor(base, n, entryLen);
  }

  /** The blob as it is filled in: the pieces written behind the descriptors, with the
      zeros left between them. */
  function Assembled(head: seq<byte>, n: nat, base: u32, entry: seq<byte>, dll: seq<byte>): seq<byte>
    requires |head| == 20 * n + 20
  {
    OffsetBounds(n, |entry|, |dll|);
    var thunk := LE32(Wrap32(base + HintOffset(n)));
    head + Zeros(IltOffset(n) - |head|) + thunk + Zeros(12) + thunk + Zeros(14) + entry
    + Zeros(NameOffset(n, |entry|) - HintOffset(n) - 2 - |entry|) + dll
    + Zeros(BlobLength(n, |entry|, |dll|) - NameOffset(n, |entry|) - |dll|)
  }

  lemma BlobAssembly(base: u32, table: seq<byte>, n: nat, entry: seq<byte>, dll: seq<byte>)
    requires |table| == 20 * n
    ensures Blob(base, table, n, entry, dll) == Assembled(table + NewDescriptor(base, n, |entry|), n, base, entry, dll)
  {
    hide NewDescriptor;
    OffsetBounds(n, |entry|, |dll|);
    assert Zeros(14) == Zeros(12) + [0, 0];
  }

  /** The thunks and the two strings, behind the finished descriptors. */
  method WriteThunksAndNames(blob: ByteBuffer, ghost head: seq<byte>, n: nat, base: u32, entry: seq<byte>, dll: seq<byte>)
    requires |head| == 20 * n + 20 && |blob.bytes| == BlobLength(n, |entry|, |dll|) >= |head|
    requires blob.bytes == head + Zeros(|blob.bytes| - |head|)
    modifies blob
    ensures blob.bytes == Assembled(head, n, base, entry, dll)
  {
    OffsetBounds(n, |entry|, |dll|);
    ghost var total := |blob.bytes|;
    var thunk := Wrap32(base + HintOffset(n));
    WriteU32(blob, head, total - |head|, IltOffset(n) - |head|, IltOffset(n), thunk);
    ghost var p4 := head + Zeros(IltOffset(n) - |head|) + LE32(thunk);
    WriteU32(blob, p4, total - |p4|, 12, IatOffset(n), thunk);
    ghost var p5 := p4 + Zeros(12) + LE32(thunk);
    WriteBytes(blob, p5, total - |p5|, 14, HintOffset(n) + 2, entry);
    ghost var p6 := p5 + Zeros(14) + entry;
    var name := NameOffset(n, |entry|);
    WriteBytes(blob, p6, total - |p6|, name - |p6|, name, dll);
  }

  method BuildBlob(image: Image, ds: seq<Descriptor>, base: u32, entry: seq<byte>, dll: seq<byte>)
    returns (r: seq<byte>)
    requires OffsetsInside(image, ds)
    ensures r == Blob(base, DescriptorBytes(image.data, ds), |ds|, entry, dll)
  {
    hide Blob, Assembled, NewDescriptor, DescriptorBytes, BlobLength;
    var n := |ds|;
    ghost var table := DescriptorBytes(image.data, ds);
    var length := BlobLength(n, |entry|, |dll|);
    assert length >= 20 * n + 20 by { OffsetBounds(n, |entry|, |dll|); }
    var blob := new ByteBuffer(Zeros(length));
    CopyDescriptors(image, ds, blob);
    WriteNewDescriptor(blob, table, n, base, |entry|);
    WriteThunksAndNames(blob, table + NewDescriptor(base, n, |entry|), n, base, entry, dll);
    r := blob.bytes;
    assert r == Blob(base, table, n, entry, dll) by { BlobAssembly(base, table, n, entry, dll); }
  }

  method CheckDirectories(image: Image) returns (bad: bool)
    ensures bad == SomeDirectoryOverSlot(image)
  {
    for index := 0 to image.numRvaAndSizes as int
      invariant forall j :: 0 <= j < index ==> !DirectoryOverSlot(image, j)
    {
      if DirectoryOverSlot(image, index) {
        return true;
      }
    }
    return false;
  }

  method CheckRawRanges(image: Image) returns (r: Option<PeError>)
    ensures r == RawCheckFrom(image, 0, [])
  {
    var occupied: seq<(u32, u32)> := [];
    for k := 0 to |image.sections|
      invariant RawCheckFrom(image, 0, []) == RawCheckFrom(image, k, occupied)
    {
      var s := image.sections[k];
      if s.sizeOfRawData == 0 { continue; }
      var start, end := s.pointerToRawData, SatAdd(s.pointerToRawData, s.sizeOfRawData);
      if start < image.sizeOfHeaders || end > |image.data| {
        return Some(Malformed(RawOutsideFile));
      }
      if Overlaps(occupied, start, end) {
        return Some(Malformed(RawRangesOverlap));
      }
      occupied := occupied + [(start, end)];
    }
    return None;
  }

  method CheckLayout(image: Image, ds: seq<Descriptor>, dll: seq<byte>) returns (r: Option<PeError>)
    requires SlotReadable(image)
    ensures r == Refusal(image, ds, dll)
  {
    if Imports(ds, dll) { return Some(AlreadyImported(dll)); }
    if !image.HasHookSection() && LooksPatchedByOther(image) { return Some(ForeignPatch); }
    if image.numberOfSections >= MAX_SECTIONS { return Some(NoSectionRoom); }
    if !AlignmentsOk(image) { return Some(Malformed(BadAlignments)); }
    if !SlotIsEmpty(image) { return Some(Malformed(SlotNotEmpty)); }
    var clash := CheckDirectories(image);
    if clash { return Some(Malformed(SlotOverlapsDirectory)); }
    if NewHeaders(image) > MinVirtualAddress(image.sections) { return Some(Malformed(HeadersOverSectionRva)); }
    r := CheckRawRanges(image);
  }

  method BuildPlan(image: Image, ds: seq<Descriptor>, dll: seq<byte>, entry: seq<byte>) returns (plan: ImportPlan)
    requires OffsetsInside(image, ds) && |ds| <= MAX_DESCRIPTORS
    requires |dll| <= MAX_IMPORT_NAME && |entry| <= MAX_IMPORT_NAME
    ensures plan == PlanFor(image, ds, dll, entry)
  {
    hide NewSectionRva, NewHeaders, Blob, DescriptorBytes, AlignUp32, SatAdd;
    var base := NewSectionRva(image);
    OffsetBounds(|ds|, |entry|, |dll|);
    var blob := BuildBlob(image, ds, base, entry, dll);
    var length: u32 := |blob|;
    var rawSize := ComputeAlignUp(length, image.fileAlignment);
    var imageSize := ComputeAlignUp(SatAdd(base, length), image.sectionAlignment);
    plan := ImportPlan(dll, entry, base, length, rawSize, blob, |ds| + 2, NewHeaders(image), imageSize);
  }

  method PlanAddImport(image: Image, dll: seq<byte>, entry: seq<byte>) returns (r: Result<ImportPlan>)
    requires SlotReadable(image)
    ensures r == PlanSpec(image, dll, entry)
  {
    if !NameAccepted(dll) || !NameAccepted(entry) { return Err(BadImportName); }
    var found := ImportDescriptors(image);
    if found.Err? { return Err(found.error); }
    var refusal := CheckLayout(image, found.value, dll);
    if refusal.Some? { return Err(refusal.value); }
    DescriptorsInside(image);
    var plan := BuildPlan(image, found.value, dll, entry);
    r := Ok(plan);
  }

  // ---- what the raw-data check means ----

  ghost predicate RawRangesSound(image: Image)
  {
    && (forall i :: 0 <= i < |image.sections| && image.sections[i].sizeOfRawData != 0 ==>
          image.sizeOfHeaders <= image.sections[i].pointerToRawData
          && SatAdd(image.sections[i].pointerToRawData, image.sections[i].sizeOfRawData) <= |image.data|)
    && forall i, j :: 0 <= i < j < |image.sections| ==> RawDisjoint(image.sections[i], image.sections[j])
  }

  ghost predicate RawDisjoint(s: Section, t: Section)
  {
    s.sizeOfRawData == 0 || t.sizeOfRawData == 0
    || s.pointerToRawData >= SatAdd(t.pointerToRawData, t.sizeOfRawData)
    || t.pointerToRawData >= SatAdd(s.pointerToRawData, s.sizeOfRawData)
  }

  /** The ranges the loop has collected after `k` sections. */
  ghost function RangesOf(sections: seq<Section>, k: nat): seq<(u32, u32)>
    requires k <= |sections|
  {
    if k == 0 then []
    else
      var s := sections[k - 1];
      if s.sizeOfRawData == 0 then RangesOf(sections, k - 1)
      else RangesOf(sections, k - 1) + [(s.pointerToRawData, SatAdd(s.pointerToRawData, s.sizeOfRawData))]
  }

  lemma {:induction false} OverlapsMeaning(sections: seq<Section>, k: nat, t: Section)
    requires k <= |sections| && t.sizeOfRawData != 0
    ensures Overlaps(RangesOf(sections, k), t.pointerToRawData, SatAdd(t.pointerToRawData, t.sizeOfRawData))
            <==> exists i :: 0 <= i < k && !RawDisjoint(sections[i], t)
  {
    if k > 0 {
      OverlapsMeaning(sections, k - 1, t);
      var before, now := RangesOf(sections, k - 1), RangesOf(sections, k);
      var start, end := t.pointerToRawData, SatAdd(t.pointerToRawData, t.sizeOfRawData);
      if now != before {
        assert now[..|before|] == before;
        assert now[|before|] == (sections[k - 1].pointerToRawData,
                                 SatAdd(sections[k - 1].pointerToRawData, sections[k - 1].sizeOfRawData));
        if Overlaps(before, start, end) {
          var j :| 0 <= j < |before| && start < before[j].1 && end > before[j].0;
          assert now[j] == before[j];
        }
        if Overlaps(now, start, end) {
          var j :| 0 <= j < |now| && start < now[j].1 && end > now[j].0;
          if j < |before| {
            assert now[j] == before[j];
          }
        }
      }
    }
  }

  ghost predicate RawSoundUpTo(image: Image, k: nat)
    requires k <= |image.sections|
  {
    && (forall i :: 0 <= i < k && image.sections[i].sizeOfRawData != 0 ==>
          image.sizeOfHeaders <= image.sections[i].pointerToRawData
          && SatAdd(image.sections[i].pointerToRawData, image.sections[i].sizeOfRawData) <= |image.data|)
    && forall i, j :: 0 <= i < j < k ==> RawDisjoint(image.sections[i], image.sections[j])
  }

  /** The scan accepts exactly the images whose raw ranges are inside the file body and
      pairwise disjoint. */
  lemma {:induction false} RawCheckMeaning(image: Image, k: nat)
    requires k <= |image.sections| && RawSoundUpTo(image, k)
    ensures RawCheckFrom(image, k, RangesOf(image.sections, k)).None? <==> RawRangesSound(image)
    decreases |image.sections| - k
  {
    hide Overlaps, SatAdd;
    if k < |image.sections| {
      var s := image.sections[k];
      if s.sizeOfRawData != 0 {
        OverlapsMeaning(image.sections, k, s);
        if s.pointerToRawData >= image.sizeOfHeaders
           && SatAdd(s.pointerToRawData, s.sizeOfRawData) <= |image.data|
           && !exists i :: 0 <= i < k && !RawDisjoint(image.sections[i], s) {
          RawCheckMeaning(image, k + 1);
        }
      } else {
        RawCheckMeaning(image, k + 1);
      }
    }
  }

  /** What every check that lets an image pass has established. */
  lemma AcceptedChecks(image: Image, ds: seq<Descriptor>, dll: seq<byte>)
    requires SlotReadable(image) && Refusal(image, ds, dll).None?
    ensures !Imports(ds, dll)
    ensures image.numberOfSections < MAX_SECTIONS && AlignmentsOk(image)
    ensures SlotIsEmpty(image)
    ensures NewHeaders(image) <= MinVirtualAddress(image.sections)
    ensures RawRangesSound(image)
  {
    RawCheckMeaning(image, 0);
  }

  lemma PlanChecks(image: Image, dll: seq<byte>, entry: seq<byte>, plan: ImportPlan)
    requires SlotReadable(image) && PlanSpec(image, dll, entry) == Ok(plan)
    ensures Descriptors(image).Ok? && !Imports(Descriptors(image).value, dll)
    ensures image.numberOfSections < MAX_SECTIONS
    ensures SlotIsEmpty(image)
    ensures NewHeaders(image) <= MinVirtualAddress(image.sections)
    ensures RawRangesSound(image)
  {
    AcceptedChecks(image, Descriptors(image).value, dll);
  }
}
