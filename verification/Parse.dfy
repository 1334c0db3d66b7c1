/** Reading a PE32+ image: headers, section table, RVA mapping and import descriptors.
    Names are the raw bytes before the NUL. */
module Parse {
  import opened Bytes

  datatype Reason =
    | MissingMz | MissingPeSignature | Truncated | SectionTableTruncated
    | OptionalHeaderTooShort | BadSectionCount | LowSectionAlignment | BadFileAlignment
    | ImportDirectoryUnmapped | TooManyDescriptors
    | BadAlignments | SlotNotEmpty | SlotOverlapsDirectory | HeadersOverSectionRva
    | RawOutsideFile | RawRangesOverlap | LowAlignmentRebuild

  datatype PeError =
    | NotPe(reason: Reason)
    | NotPe32Plus
    | Malformed(reason: Reason)
    | NoSectionRoom
    | AlreadyImported(dll: seq<byte>)
    | ForeignPatch
    | BadImportName

  datatype Result<+T> = Ok(value: T) | Err(error: PeError)

  const MAGIC_PE32_PLUS := 0x20b
  const MACHINE_AMD64 := 0x8664
  const MAX_SECTIONS := 96
  const DIR_IMPORT := 1
  const DIR_SECURITY := 4
  const DIR_DEBUG := 6
  const DIR_BOUND_IMPORT := 11
  const MAX_NAME_BYTES := 4097
  const MAX_DESCRIPTORS := 4096
  // ".copperh"
  const HOOK_SECTION_NAME: seq<byte> := [46, 99, 111, 112, 112, 101, 114, 104]

  datatype Section = Section(
    name: seq<byte>,
    headerOffset: nat,
    virtualAddress: u32,
    virtualSize: u32,
    pointerToRawData: u32,
    sizeOfRawData: u32,
    characteristics: u32)
  {
    /** Length of the RVA range the section claims. */
    function Span(): u32 { Max(virtualSize, sizeOfRawData) }

    function RvaEnd(): u32 { SatAdd(virtualAddress, Span()) }

    function RawEnd(): u32 { Wrap32(pointerToRawData + sizeOfRawData) }
  }

  datatype Image = Image(
    data: seq<byte>,
    peOffset: nat,
    machine: u16,
    numberOfSections: u16,
    sizeOfOptionalHeader: u16,
    sectionAlignment: u32,
    fileAlignment: u32,
    sizeOfImage: u32,
    sizeOfHeaders: u32,
    numRvaAndSizes: u32,
    sections: seq<Section>)
  {
    function Coff(): nat { peOffset + 4 }
    function Opt(): nat { peOffset + 24 }
    function DataDirs(): nat { peOffset + 136 }
    function ChecksumOffset(): nat { peOffset + 88 }
    function SectionTable(): nat { peOffset + 24 + sizeOfOptionalHeader }
    function SectionTableEnd(): nat { SectionTable() + 40 * numberOfSections as int }

    predicate HasHookSection()
    {
      exists s :: s in sections && s.name == HOOK_SECTION_NAME
    }

    function DataDir(index: nat): (r: Option<(u32, u32)>)
    {
      var at := DataDirs() + 8 * index;
      if index >= numRvaAndSizes || at + 8 > |data| then None
      else Some((U32At(data, at), U32At(data, at + 4)))
    }
  }

  // ---- parsing ----

  function SectionAt(d: seq<byte>, at: nat): Section
    requires at + 40 <= |d|
  {
    Section(TrimNul(d[at..at + 8]), at, U32At(d, at + 12), U32At(d, at + 8),
            U32At(d, at + 20), U32At(d, at + 16), U32At(d, at + 36))
  }

  /** Two headers that differ at most in their PointerToRawData field. */
  lemma SectionUpToPointer(a: seq<byte>, b: seq<byte>, at: nat)
    requires at + 40 <= |a| && at + 40 <= |b|
    requires SameOn(a, b, at, at + 20) && SameOn(a, b, at + 24, at + 40)
    ensures SectionAt(a, at) == SectionAt(b, at).(pointerToRawData := U32At(a, at + 20))
  {
    assert a[at..at + 8] == b[at..at + 8];
    SameField32(a, at + 8, b, at + 8);
    SameField32(a, at + 12, b, at + 12);
    SameField32(a, at + 16, b, at + 16);
    SameField32(a, at + 36, b, at + 36);
  }

  /** The section headers that follow those already in `done`. */
  function SectionsFrom(d: seq<byte>, table: nat, n: nat, done: seq<Section>): Result<seq<Section>>
    requires |done| <= n
    decreases n - |done|
  {
    var at := table + 40 * |done|;
    if |done| == n then Ok(done)
    else if at + 8 > |d| then Err(NotPe(SectionTableTruncated))
    else if at + 40 > |d| then Err(NotPe(Truncated))
    else SectionsFrom(d, table, n, done + [SectionAt(d, at)])
  }

  ghost predicate IsSectionTable(d: seq<byte>, table: nat, ss: seq<Section>)
  {
    forall k :: 0 <= k < |ss| ==> table + 40 * k + 40 <= |d| && ss[k] == SectionAt(d, table + 40 * k)
  }

  lemma TableAppend(d: seq<byte>, table: nat, ss: seq<Section>, s: Section)
    requires IsSectionTable(d, table, ss)
    requires table + 40 * |ss| + 40 <= |d| && s == SectionAt(d, table + 40 * |ss|)
    ensures IsSectionTable(d, table, ss + [s])
  {
  }

  /** The loop succeeds exactly when the table is inside the file, and then it returns
      the decoded headers in order. */
  lemma {:induction false} SectionsFromMeaning(d: seq<byte>, table: nat, n: nat, done: seq<Section>)
    requires |done| <= n && IsSectionTable(d, table, done)
    ensures var r := SectionsFrom(d, table, n, done);
            && (r.Ok? <==> |done| == n || table + 40 * n <= |d|)
            && (r.Ok? ==> |r.value| == n && IsSectionTable(d, table, r.value))
            && (r.Err? ==> r.error == NotPe(SectionTableTruncated) || r.error == NotPe(Truncated))
    decreases n - |done|
  {
    var at := table + 40 * |done|;
    if |done| < n && at + 40 <= |d| {
      SectionsFromMeaning(d, table, n, done + [SectionAt(d, at)]);
    }
  }

  predicate IsPowerOfTwo(x: nat)
  {
    x != 0 && (x == 1 || (x % 2 == 0 && IsPowerOfTwo(x / 2)))
  }

  /** The header checks, in the order in which they are made. */
  function HeaderError(d: seq<byte>): Option<PeError>
  {
    if |d| < 0x40 || d[0] != 0x4d || d[1] != 0x5a then Some(NotPe(MissingMz))
    else
      var pe: nat := U32At(d, 0x3c);
      if pe + 4 > |d| || d[pe..pe + 4] != [0x50, 0x45, 0, 0] then Some(NotPe(MissingPeSignature))
      else if pe + 26 > |d| then Some(NotPe(Truncated))
      else if U16At(d, pe + 24) != MAGIC_PE32_PLUS then Some(NotPe32Plus)
      else if U16At(d, pe + 20) < 112 then Some(Malformed(OptionalHeaderTooShort))
      else if pe + 136 > |d| then Some(NotPe(Truncated))
      else if !(0 < U16At(d, pe + 6) <= MAX_SECTIONS) then Some(Malformed(BadSectionCount))
      else if U32At(d, pe + 56) < 0x1000 then Some(Malformed(LowSectionAlignment))
      else if !IsPowerOfTwo(U32At(d, pe + 60)) then Some(Malformed(BadFileAlignment))
      else None
  }

  function ImageOf(d: seq<byte>, sections: seq<Section>): Image
    requires HeaderError(d).None?
  {
    var pe: nat := U32At(d, 0x3c);
    Image(d, pe, U16At(d, pe + 4), U16At(d, pe + 6), U16At(d, pe + 20),
          U32At(d, pe + 56), U32At(d, pe + 60), U32At(d, pe + 80), U32At(d, pe + 84),
          U32At(d, pe + 132), sections)
  }

  function ParseSpec(d: seq<byte>): Result<Image>
  {
    if HeaderError(d).Some? then Err(HeaderError(d).value)
    else
      var pe: nat := U32At(d, 0x3c);
      var sections := SectionsFrom(d, pe + 24 + U16At(d, pe + 20) as int, U16At(d, pe + 6), []);
      if sections.Err? then Err(sections.error) else Ok(ImageOf(d, sections.value))
  }

  /** `image` is what the headers and the section table of `d` decode to. */
  ghost predicate Decodes(d: seq<byte>, image: Image)
  {
    && HeaderError(d).None?
    && image == ImageOf(d, image.sections)
    && image.SectionTableEnd() <= |d|
    && |image.sections| == image.numberOfSections
    && IsSectionTable(d, image.SectionTable(), image.sections)
  }

  lemma SectionCount(d: seq<byte>)
    requires HeaderError(d).None?
    ensures 0 < U16At(d, U32At(d, 0x3c) as int + 6) <= MAX_SECTIONS
  {
  }

  lemma ParsedDecodes(d: seq<byte>, image: Image)
    requires ParseSpec(d) == Ok(image)
    ensures Decodes(d, image)
  {
    SectionCount(d);
    hide HeaderError, IsSectionTable, SectionsFrom, U16At, U32At;
    SectionsFromMeaning(d, image.SectionTable(), image.numberOfSections, []);
  }

  lemma DecodedParses(d: seq<byte>, image: Image)
    requires Decodes(d, image)
    ensures ParseSpec(d) == Ok(image)
  {
    hide HeaderError, SectionsFrom, SectionAt, U16At, U32At;
    SectionsFromMeaning(d, image.SectionTable(), image.numberOfSections, []);
    var r := SectionsFrom(d, image.SectionTable(), image.numberOfSections, []);
    assert image.sections == r.value;
  }

  /** Parsing succeeds exactly when the headers pass and the whole section table is in
      the file; the image then decodes both. */
  lemma ParseMeaning(d: seq<byte>, image: Image)
    ensures ParseSpec(d) == Ok(image) <==> Decodes(d, image)
  {
    if ParseSpec(d) == Ok(image) {
      ParsedDecodes(d, image);
    }
    if Decodes(d, image) {
      DecodedParses(d, image);
    }
  }

  method CheckHeaders(d: seq<byte>) returns (r: Option<PeError>)
    ensures r == HeaderError(d)
  {
    if |d| < 0x40 || d[0] != 0x4d || d[1] != 0x5a {
      return Some(NotPe(MissingMz));
    }
    var pe: nat := U32At(d, 0x3c);
    if pe + 4 > |d| || d[pe..pe + 4] != [0x50, 0x45, 0, 0] {
      return Some(NotPe(MissingPeSignature));
    }
    var opt := pe + 24;
    if opt + 2 > |d| { return Some(NotPe(Truncated)); }
    if U16At(d, opt) != MAGIC_PE32_PLUS { return Some(NotPe32Plus); }
    if U16At(d, pe + 20) < 112 { return Some(Malformed(OptionalHeaderTooShort)); }
    if opt + 112 > |d| { return Some(NotPe(Truncated)); }
    var count := U16At(d, pe + 6);
    if count == 0 || count > MAX_SECTIONS { return Some(Malformed(BadSectionCount)); }
    if U32At(d, opt + 32) < 0x1000 { return Some(Malformed(LowSectionAlignment)); }
    if !IsPowerOfTwo(U32At(d, opt + 36)) { return Some(Malformed(BadFileAlignment)); }
    return None;
  }

  method Parse(d: seq<byte>) returns (r: Result<Image>)
    ensures r == ParseSpec(d)
  {
    var bad := CheckHeaders(d);
    if bad.Some? { return Err(bad.value); }
    var pe: nat := U32At(d, 0x3c);
    var sections := ParseSections(d, pe + 24 + U16At(d, pe + 20) as int, U16At(d, pe + 6));
    if sections.Err? { return Err(sections.error); }
    return Ok(ImageOf(d, sections.value));
  }

  method ParseSections(d: seq<byte>, table: nat, n: nat) returns (r: Result<seq<Section>>)
    ensures r == SectionsFrom(d, table, n, [])
  {
    var sections: seq<Section> := [];
    for index := 0 to n
      invariant |sections| == index
      invariant SectionsFrom(d, table, n, []) == SectionsFrom(d, table, n, sections)
    {
      var at := table + index * 40;
      if at + 8 > |d| { return Err(NotPe(SectionTableTruncated)); }
      if at + 40 > |d| { return Err(NotPe(Truncated)); }
      sections := sections + [SectionAt(d, at)];
    }
    return Ok(sections);
  }

  // ---- RVA to file offset ----

  function MapIn(s: Section, rva: u32): Option<nat>
  {
    if s.sizeOfRawData == 0 then None
    else if s.virtualAddress as int + s.Span() as int >= LIMIT32 then None
    else if rva < s.virtualAddress || rva as int >= s.virtualAddress as int + s.Span() as int then None
    else
      var offset: nat := s.pointerToRawData as int + (rva as int - s.virtualAddress as int);
      if offset >= LIMIT32 || offset >= s.RawEnd() then None else Some(offset)
  }

  /** `find_map` over the sections: the first one that maps the address. */
  function MapRva(sections: seq<Section>, rva: u32): Option<nat>
  {
    if sections == [] then None
    else
      var first := MapIn(sections[0], rva);
      if first.Some? then first else MapRva(sections[1..], rva)
  }

  function RvaToOffset(image: Image, rva: u32): Option<nat>
  {
    MapRva(image.sections, rva)
  }

  /** `raw_end`: the largest end of raw data, `SizeOfHeaders` when no section has any. */
  function MaxRawEnd(sections: seq<Section>): (r: Option<u32>)
    ensures r.None? <==> forall s :: s in sections ==> s.sizeOfRawData == 0
    ensures r.Some? ==> (exists s :: s in sections && s.sizeOfRawData != 0 && s.RawEnd() == r.value)
    ensures r.Some? ==> forall s :: s in sections && s.sizeOfRawData != 0 ==> s.RawEnd() <= r.value
  {
    if sections == [] then None
    else
      var rest := MaxRawEnd(sections[1..]);
      if sections[0].sizeOfRawData == 0 then rest
      else if rest.None? || rest.value < sections[0].RawEnd() then Some(sections[0].RawEnd())
      else rest
  }

  function RawEnd(image: Image): u32
  {
    match MaxRawEnd(image.sections)
    case None => image.sizeOfHeaders
    case Some(end) => end
  }

  // ---- names ----

  /** Bytes after those already in `done`, up to a NUL, the end of the file or the cap. */
  function StringFrom(d: seq<byte>, start: nat, done: seq<byte>): seq<byte>
    decreases MAX_NAME_BYTES - |done|
  {
    var cursor := start + |done|;
    if |done| >= MAX_NAME_BYTES || cursor >= |d| || d[cursor] == 0 then done
    else StringFrom(d, start, done + [d[cursor]])
  }

  /** `s` stands at `start` and is ended there by a NUL. */
  ghost predicate IsZString(d: seq<byte>, start: nat, s: seq<byte>)
  {
    start + |s| < |d| && d[start + |s|] == 0
    && forall i :: 0 <= i < |s| ==> s[i] == d[start + i] && s[i] != 0
  }

  lemma {:induction false} StringFromMeaning(d: seq<byte>, start: nat, done: seq<byte>, s: seq<byte>)
    requires IsZString(d, start, s) && |s| < MAX_NAME_BYTES
    requires done <= s
    ensures StringFrom(d, start, done) == s
    decreases |s| - |done|
  {
    if |done| < |s| {
      assert s[|done|] == d[start + |done|];
      StringFromMeaning(d, start, done + [d[start + |done|]], s);
    } else {
      assert done == s;
    }
  }

  method ReadAnsiString(image: Image, rva: u32) returns (r: Option<seq<byte>>)
    ensures r == AnsiString(image, rva)
  {
    var start := RvaToOffset(image, rva);
    if start.None? { return None; }
    var bytes: seq<byte> := [];
    var cursor: nat := start.value;
    while cursor < |image.data|
      invariant cursor == start.value + |bytes| && |bytes| < MAX_NAME_BYTES
      invariant StringFrom(image.data, start.value, []) == StringFrom(image.data, start.value, bytes)
    {
      var b := image.data[cursor];
      if b == 0 { break; }
      bytes := bytes + [b];
      cursor := cursor + 1;
      if |bytes| > 4096 { break; }
    }
    return Some(bytes);
  }

  function AnsiString(image: Image, rva: u32): Option<seq<byte>>
  {
    var start := RvaToOffset(image, rva);
    if start.None? then None else Some(StringFrom(image.data, start.value, []))
  }

  // ---- import descriptors ----

  datatype Descriptor = Descriptor(
    dll: seq<byte>,
    originalFirstThunk: u32,
    firstThunk: u32,
    offset: nat)

  /** The 12 bytes of a descriptor that the reader looks at. */
  predicate IsNullDescriptor(d: seq<byte>, at: nat)
    requires at + 20 <= |d|
  {
    U32At(d, at) == 0 && U32At(d, at + 12) == 0 && U32At(d, at + 16) == 0
  }

  function DescriptorAt(image: Image, at: nat): Descriptor
    requires at + 20 <= |image.data|
  {
    var name := AnsiString(image, U32At(image.data, at + 12));
    Descriptor(if name.None? then [] else name.value,
               U32At(image.data, at), U32At(image.data, at + 16), at)
  }

  /** The descriptors that follow those already in `done`. */
  function DescriptorsFrom(image: Image, start: nat, done: seq<Descriptor>): Result<seq<Descriptor>>
    requires |done| <= MAX_DESCRIPTORS
    decreases MAX_DESCRIPTORS - |done|
  {
    var at := start + 20 * |done|;
    if at + 20 > |image.data| then Err(NotPe(Truncated))
    else if IsNullDescriptor(image.data, at) then Ok(done)
    else if |done| + 1 > MAX_DESCRIPTORS then Err(Malformed(TooManyDescriptors))
    else DescriptorsFrom(image, start, done + [DescriptorAt(image, at)])
  }

  /** `ds` are consecutive descriptors from `start` on, none of them null. */
  ghost predicate AreDescriptors(image: Image, start: nat, ds: seq<Descriptor>)
  {
    forall k :: 0 <= k < |ds| ==>
      && start + 20 * k + 20 <= |image.data|
      && !IsNullDescriptor(image.data, start + 20 * k)
      && ds[k] == DescriptorAt(image, start + 20 * k)
  }

  /** `ds` is the whole table at `start`: it ends with a null descriptor. */
  ghost predicate IsImportTable(image: Image, start: nat, ds: seq<Descriptor>)
  {
    && AreDescriptors(image, start, ds)
    && start + 20 * |ds| + 20 <= |image.data|
    && IsNullDescriptor(image.data, start + 20 * |ds|)
  }

  lemma {:induction false} TableIsRead(image: Image, start: nat, done: seq<Descriptor>, ds: seq<Descriptor>)
    requires done <= ds && |ds| <= MAX_DESCRIPTORS && IsImportTable(image, start, ds)
    ensures DescriptorsFrom(image, start, done) == Ok(ds)
    decreases MAX_DESCRIPTORS - |done|
  {
    if |done| < |ds| {
      var at := start + 20 * |done|;
      assert ds[|done|] == DescriptorAt(image, at) && !IsNullDescriptor(image.data, at);
      TableIsRead(image, start, done + [DescriptorAt(image, at)], ds);
    } else {
      assert done == ds;
    }
  }

  /** One turn of the reading loop. */
  lemma DescriptorsStep(image: Image, start: nat, done: seq<Descriptor>, item: Descriptor)
    requires |done| < MAX_DESCRIPTORS && start + 20 * |done| + 20 <= |image.data|
    requires !IsNullDescriptor(image.data, start + 20 * |done|)
    requires item == DescriptorAt(image, start + 20 * |done|)
    ensures DescriptorsFrom(image, start, done) == DescriptorsFrom(image, start, done + [item])
  {
  }

  lemma AppendDescriptor(image: Image, start: nat, done: seq<Descriptor>, item: Descriptor)
    requires AreDescriptors(image, start, done)
    requires start + 20 * |done| + 20 <= |image.data|
    requires !IsNullDescriptor(image.data, start + 20 * |done|)
    requires item == DescriptorAt(image, start + 20 * |done|)
    ensures AreDescriptors(image, start, done + [item])
  {
    hide IsNullDescriptor, DescriptorAt;
  }

  lemma {:induction false} ReadIsTable(image: Image, start: nat, done: seq<Descriptor>, ds: seq<Descriptor>)
    requires |done| <= MAX_DESCRIPTORS && AreDescriptors(image, start, done)
    requires DescriptorsFrom(image, start, done) == Ok(ds)
    ensures |ds| <= MAX_DESCRIPTORS && IsImportTable(image, start, ds)
    decreases MAX_DESCRIPTORS - |done|
  {
    hide IsNullDescriptor, DescriptorAt, AreDescriptors;
    var at := start + 20 * |done|;
    if !IsNullDescriptor(image.data, at) {
      var item := DescriptorAt(image, at);
      AppendDescriptor(image, start, done, item);
      DescriptorsStep(image, start, done, item);
      ReadIsTable(image, start, done + [item], ds);
    }
  }

  /** Reading succeeds with `ds` exactly when `ds` is the table at `start` and has at
      most 4096 entries. */
  lemma DescriptorsFromMeaning(image: Image, start: nat, ds: seq<Descriptor>)
    ensures DescriptorsFrom(image, start, []) == Ok(ds)
            <==> |ds| <= MAX_DESCRIPTORS && IsImportTable(image, start, ds)
  {
    if DescriptorsFrom(image, start, []) == Ok(ds) {
      ReadIsTable(image, start, [], ds);
    } else if |ds| <= MAX_DESCRIPTORS && IsImportTable(image, start, ds) {
      TableIsRead(image, start, [], ds);
    }
  }

  function Descriptors(image: Image): Result<seq<Descriptor>>
  {
    match image.DataDir(DIR_IMPORT)
    case None => Ok([])
    case Some((rva, size)) =>
      if rva == 0 then Ok([])
      else match RvaToOffset(image, rva)
        case None => Err(Malformed(ImportDirectoryUnmapped))
        case Some(at) => DescriptorsFrom(image, at, [])
  }

  method ReadDescriptor(image: Image, at: nat) returns (r: Descriptor)
    requires at + 20 <= |image.data|
    ensures r == DescriptorAt(image, at)
  {
    var name := ReadAnsiString(image, U32At(image.data, at + 12));
    var dll := if name.None? then [] else name.value;
    r := Descriptor(dll, U32At(image.data, at), U32At(image.data, at + 16), at);
  }

  method CollectDescriptors(image: Image, start: nat) returns (r: Result<seq<Descriptor>>)
    ensures r == DescriptorsFrom(image, start, [])
  {
    var at: nat := start;
    var out: seq<Descriptor> := [];
    while true
      invariant |out| <= MAX_DESCRIPTORS && at == start + 20 * |out|
      invariant DescriptorsFrom(image, start, []) == DescriptorsFrom(image, start, out)
      decreases MAX_DESCRIPTORS - |out|
    {
      if at + 20 > |image.data| { return Err(NotPe(Truncated)); }
      if IsNullDescriptor(image.data, at) { return Ok(out); }
      var item := ReadDescriptor(image, at);
      if |out| + 1 > MAX_DESCRIPTORS { return Err(Malformed(TooManyDescriptors)); }
      DescriptorsStep(image, start, out, item);
      out := out + [item];
      at := at + 20;
    }
  }

  method ImportDescriptors(image: Image) returns (r: Result<seq<Descriptor>>)
    ensures r == Descriptors(image)
  {
    var dir := image.DataDir(DIR_IMPORT);
    if dir.None? || dir.value.0 == 0 { return Ok([]); }
    var mapped := RvaToOffset(image, dir.value.0);
    if mapped.None? { return Err(Malformed(ImportDirectoryUnmapped)); }
    r := CollectDescriptors(image, mapped.value);
  }
}
