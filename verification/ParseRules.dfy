/** Reading an image, said of the numbers in the file alone: which files are refused and why, what an
    address maps to, and where the import table ends. */
module ParseRules {
  import opened Bytes
  import opened Parse

  // ---- the headers ----

  function PowerOf2(e: nat): nat
  {
    if e == 0 then 1 else 2 * PowerOf2(e - 1)
  }

  ghost predicate IsPower(x: nat)
  {
    exists e: nat :: x == PowerOf2(e)
  }

  lemma {:induction false} PowerPositive(e: nat)
    ensures PowerOf2(e) > 0
    decreases e
  {
    if e > 0 {
      PowerPositive(e - 1);
    }
  }

  lemma {:induction false} PowersAreThat(e: nat)
    ensures IsPowerOfTwo(PowerOf2(e))
    decreases e
  {
    if e > 0 {
      PowersAreThat(e - 1);
      PowerPositive(e - 1);
      assert PowerOf2(e) / 2 == PowerOf2(e - 1);
    }
  }

  lemma {:induction false} ThatArePowers(x: nat) returns (e: nat)
    requires IsPowerOfTwo(x)
    ensures x == PowerOf2(e)
    decreases x
  {
    if x == 1 {
      e := 0;
    } else {
      var half := ThatArePowers(x / 2);
      e := half + 1;
    }
  }

  lemma PowerOfTwoExactly(x: nat)
    ensures IsPowerOfTwo(x) <==> IsPower(x)
  {
    hide IsPowerOfTwo, PowerOf2;
    if IsPowerOfTwo(x) {
      var e := ThatArePowers(x);
    }
    forall e: nat | x == PowerOf2(e) ensures IsPowerOfTwo(x) {
      PowersAreThat(e);
    }
  }

  /** Check number `n` of the parser finds something wrong; `pe` is the u32 at 60. */
  ghost predicate Problem(d: seq<byte>, n: nat)
  {
    if n == 0 then |d| < 64 || d[0] != 'M' as int || d[1] != 'Z' as int
    else
      && |d| >= 64
      && var pe: nat := U32At(d, 60);
      match n
      case 1 => pe + 4 > |d| || d[pe] != 'P' as int || d[pe + 1] != 'E' as int || d[pe + 2] != 0 || d[pe + 3] != 0
      case 2 => pe + 26 > |d|
      case 3 => pe + 26 <= |d| && U16At(d, pe + 24) != 0x20b
      case 4 => pe + 26 <= |d| && U16At(d, pe + 20) < 112
      case 5 => pe + 136 > |d|
      case 6 => pe + 136 <= |d| && (U16At(d, pe + 6) == 0 || U16At(d, pe + 6) > 96)
      case 7 => pe + 136 <= |d| && U32At(d, pe + 56) < 4096
      case 8 => pe + 136 <= |d| && !IsPower(U32At(d, pe + 60))
      case 9 => pe + 26 <= |d| && TableCut(d, pe + 24 + U16At(d, pe + 20) as int, U16At(d, pe + 6)) && CutInName(d, pe + 24 + U16At(d, pe + 20) as int)
      case 10 => pe + 26 <= |d| && TableCut(d, pe + 24 + U16At(d, pe + 20) as int, U16At(d, pe + 6))
      case _ => false
  }

  /** The file ends before the `n` section headers do. */
  ghost predicate TableCut(d: seq<byte>, table: nat, n: nat)
  {
    n > 0 && table + 40 * n > |d|
  }

  /** It ends within the name field of one, or in front of all. */
  ghost predicate CutInName(d: seq<byte>, table: nat)
  {
    table > |d| || (|d| - table) % 40 < 8
  }

  /** And what the parser answers. */
  function Answer(n: nat): PeError
  {
    match n
    case 0 => NotPe(MissingMz)
    case 1 => NotPe(MissingPeSignature)
    case 2 => NotPe(Truncated)
    case 3 => NotPe32Plus
    case 4 => Malformed(OptionalHeaderTooShort)
    case 5 => NotPe(Truncated)
    case 6 => Malformed(BadSectionCount)
    case 7 => Malformed(LowSectionAlignment)
    case 8 => Malformed(BadFileAlignment)
    case 9 => NotPe(SectionTableTruncated)
    case _ => NotPe(Truncated)
  }

  ghost predicate FirstProblem(d: seq<byte>, n: nat)
  {
    n <= 10 && Problem(d, n) && forall m: nat :: m < n ==> !Problem(d, m)
  }

  lemma SignatureIs(d: seq<byte>, pe: nat)
    requires pe + 4 <= |d|
    ensures d[pe..pe + 4] == [0x50, 0x45, 0, 0] <==> d[pe] == 0x50 && d[pe + 1] == 0x45 && d[pe + 2] == 0 && d[pe + 3] == 0
  {
    var s := d[pe..pe + 4];
    assert s[0] == d[pe] && s[1] == d[pe + 1] && s[2] == d[pe + 2] && s[3] == d[pe + 3];
  }

  lemma {:induction false} TableError(d: seq<byte>, table: nat, n: nat, done: seq<Section>)
    requires |done| <= n && (|done| > 0 ==> table + 40 * |done| <= |d|)
    ensures var r := SectionsFrom(d, table, n, done);
            if |done| < n && table + 40 * n > |d| then r == Err(NotPe(if CutInName(d, table) then SectionTableTruncated else Truncated))
            else r.Ok?
    decreases n - |done|
  {
    hide SectionAt;
    var at := table + 40 * |done|;
    if |done| < n {
      if at + 40 <= |d| {
        TableError(d, table, n, done + [SectionAt(d, at)]);
      } else if table <= |d| {
        DivModUnique(|d| - table, 40, |done|, |d| - at);
      }
    }
  }

  lemma HeaderProblem(d: seq<byte>, n: nat)
    requires FirstProblem(d, n) && n <= 8
    ensures HeaderError(d) == Some(Answer(n))
  {
    hide IsPowerOfTwo, IsPower, U16At, U32At, TableCut, CutInName;
    assert forall m: nat :: m < n ==> !Problem(d, m);
    assert n > 0 ==> !Problem(d, 0);
    assert n > 1 ==> !Problem(d, 1);
    assert n > 2 ==> !Problem(d, 2);
    assert n > 3 ==> !Problem(d, 3);
    assert n > 4 ==> !Problem(d, 4);
    assert n > 5 ==> !Problem(d, 5);
    assert n > 6 ==> !Problem(d, 6);
    assert n > 7 ==> !Problem(d, 7);
    if |d| >= 64 {
      var pe: nat := U32At(d, 60);
      if pe + 4 <= |d| {
        SignatureIs(d, pe);
      }
      if pe + 136 <= |d| {
        PowerOfTwoExactly(U32At(d, pe + 60));
      }
    }
  }

  lemma NoHeaderProblem(d: seq<byte>)
    requires forall m: nat :: m <= 8 ==> !Problem(d, m)
    ensures HeaderError(d).None?
  {
    hide IsPowerOfTwo, IsPower, U16At, U32At, TableCut, CutInName;
    assert !Problem(d, 0) && !Problem(d, 1) && !Problem(d, 2) && !Problem(d, 3) && !Problem(d, 4);
    assert !Problem(d, 5) && !Problem(d, 6) && !Problem(d, 7) && !Problem(d, 8);
    var pe: nat := U32At(d, 60);
    SignatureIs(d, pe);
    PowerOfTwoExactly(U32At(d, pe + 60));
  }

  /** The first header that is in the file has its fields where the format puts them. */
  ghost predicate SectionFields(d: seq<byte>, at: nat, s: Section)
  {
    && at + 40 <= |d| && s.headerOffset == at
    && s.virtualSize == U32At(d, at + 8) && s.virtualAddress == U32At(d, at + 12)
    && s.sizeOfRawData == U32At(d, at + 16) && s.pointerToRawData == U32At(d, at + 20)
    && s.characteristics == U32At(d, at + 36)
    && |s.name| <= 8 && (|s.name| < 8 ==> d[at + |s.name|] == 0)
    && forall i :: 0 <= i < |s.name| ==> s.name[i] == d[at + i] != 0
  }

  lemma SectionHasFields(d: seq<byte>, at: nat)
    requires at + 40 <= |d|
    ensures SectionFields(d, at, SectionAt(d, at))
  {
    var s := d[at..at + 8];
    var name := TrimNul(s);
    assert name == s[..|name|];
    forall i | 0 <= i < |name| ensures name[i] == d[at + i] != 0 {
      assert name[i] == s[i] && name[i] in name;
    }
  }

  /** The fields of an image are those of its file. */
  ghost predicate ImageFields(d: seq<byte>, image: Image)
  {
    && |d| >= 64 && U32At(d, 60) as int + 136 <= |d|
    && var pe: nat := U32At(d, 60);
    && image.data == d && image.peOffset == pe
    && image.machine == U16At(d, pe + 4) && image.numberOfSections == U16At(d, pe + 6)
    && image.sizeOfOptionalHeader == U16At(d, pe + 20)
    && image.sectionAlignment == U32At(d, pe + 56) && image.fileAlignment == U32At(d, pe + 60)
    && image.sizeOfImage == U32At(d, pe + 80) && image.sizeOfHeaders == U32At(d, pe + 84)
    && image.numRvaAndSizes == U32At(d, pe + 132)
    && |image.sections| == U16At(d, pe + 6)
    && forall k :: 0 <= k < |image.sections| ==> SectionFields(d, pe + 24 + U16At(d, pe + 20) as int + 40 * k, image.sections[k])
  }

  lemma ParsedFields(d: seq<byte>, image: Image)
    requires ParseSpec(d) == Ok(image)
    ensures ImageFields(d, image)
  {
    ParsedDecodes(d, image);
    HeaderReaches(d);
    hide HeaderError, ParseSpec, U16At, U32At, SectionAt, SectionFields;
    forall k | 0 <= k < |image.sections|
      ensures SectionFields(d, image.SectionTable() + 40 * k, image.sections[k])
    {
      SectionHasFields(d, image.SectionTable() + 40 * k);
    }
  }

  lemma HeaderReaches(d: seq<byte>)
    requires HeaderError(d).None?
    ensures |d| >= 64 && U32At(d, 60) as int + 136 <= |d|
  {
    hide U16At, U32At, IsPowerOfTwo;
  }

  /** Main result: a file is refused with the answer of the first check that finds something wrong, and
      otherwise parsed to the image whose fields stand where the format puts them. */
  lemma ParseExactly(d: seq<byte>)
    ensures forall n: nat :: FirstProblem(d, n) ==> ParseSpec(d) == Err(Answer(n))
    ensures (forall n: nat :: !FirstProblem(d, n)) ==> ParseSpec(d).Ok? && ImageFields(d, ParseSpec(d).value)
  {
    hide HeaderError, U16At, U32At, ImageFields, SectionsFrom, CutInName, IsPower, ImageOf;
    forall n: nat | FirstProblem(d, n) ensures ParseSpec(d) == Err(Answer(n)) {
      if n <= 8 {
        HeaderProblem(d, n);
      } else {
        NoHeaderProblem(d);
        TableProblem(d, n);
      }
    }
    if forall n: nat :: !FirstProblem(d, n) {
      NoneFirst(d, 10);
      NoHeaderProblem(d);
      NoTableProblem(d);
      ParsedFields(d, ParseSpec(d).value);
    }
  }

  lemma {:induction false} NoneFirst(d: seq<byte>, n: nat)
    requires n <= 10 && forall m: nat :: !FirstProblem(d, m)
    ensures forall m: nat :: m <= n ==> !Problem(d, m)
    decreases n
  {
    hide Problem;
    if n > 0 {
      NoneFirst(d, n - 1);
    }
    assert !FirstProblem(d, n);
  }

  lemma TableProblem(d: seq<byte>, n: nat)
    requires FirstProblem(d, n) && 9 <= n && HeaderError(d).None?
    ensures ParseSpec(d) == Err(Answer(n))
  {
    hide HeaderError, U16At, U32At, SectionsFrom, ImageOf, IsPower;
    var pe: nat := U32At(d, 60);
    assert n == 10 ==> !Problem(d, 9);
    TableError(d, pe + 24 + U16At(d, pe + 20) as int, U16At(d, pe + 6), []);
  }

  lemma NoTableProblem(d: seq<byte>)
    requires !Problem(d, 10) && HeaderError(d).None?
    ensures ParseSpec(d).Ok?
  {
    HeaderReaches(d);
    hide HeaderError, U16At, U32At, SectionsFrom, ImageOf, IsPower;
    var pe: nat := U32At(d, 60);
    TableError(d, pe + 24 + U16At(d, pe + 20) as int, U16At(d, pe + 6), []);
  }

  // ---- addresses ----

  /** Section `s` maps address `rva` to offset `o`. */
  ghost predicate Maps(s: Section, rva: u32, o: nat)
  {
    var span := if s.virtualSize < s.sizeOfRawData then s.sizeOfRawData else s.virtualSize;
    && s.sizeOfRawData != 0 && s.virtualAddress as int + span as int < 0x1_0000_0000
    && s.virtualAddress <= rva && rva as int < s.virtualAddress as int + span as int
    && o == s.pointerToRawData as int + (rva as int - s.virtualAddress as int)
    && o < (s.pointerToRawData as int + s.sizeOfRawData as int) % 0x1_0000_0000
  }

  ghost predicate MapsFirst(sections: seq<Section>, rva: u32, o: nat, k: nat)
  {
    k < |sections| && Maps(sections[k], rva, o) && forall j: nat, p: nat :: j < k ==> !Maps(sections[j], rva, p)
  }

  lemma MapInExactly(s: Section, rva: u32, o: nat)
    ensures MapIn(s, rva) == Some(o) <==> Maps(s, rva, o)
  {
  }

  lemma {:induction false} MapsFirstTail(sections: seq<Section>, rva: u32, o: nat, k: nat)
    requires sections != [] && k > 0 && forall p: nat :: !Maps(sections[0], rva, p)
    ensures MapsFirst(sections, rva, o, k) <==> MapsFirst(sections[1..], rva, o, k - 1)
  {
    hide Maps;
    assert forall j :: 0 < j < |sections| ==> sections[1..][j - 1] == sections[j];
    if MapsFirst(sections[1..], rva, o, k - 1) {
      forall j: nat, p: nat | j < k ensures !Maps(sections[j], rva, p) {
        if j > 0 {
          assert sections[1..][j - 1] == sections[j];
        }
      }
    }
  }

  lemma {:induction false} MapIsFirst(sections: seq<Section>, rva: u32) returns (k: nat)
    requires MapRva(sections, rva).Some?
    ensures MapsFirst(sections, rva, MapRva(sections, rva).value, k)
    decreases |sections|
  {
    hide MapIn, Maps;
    forall p: nat ensures MapIn(sections[0], rva) == Some(p) <==> Maps(sections[0], rva, p) {
      MapInExactly(sections[0], rva, p);
    }
    if MapIn(sections[0], rva).Some? {
      k := 0;
    } else {
      var tail := MapIsFirst(sections[1..], rva);
      k := tail + 1;
      MapsFirstTail(sections, rva, MapRva(sections, rva).value, k);
    }
  }

  lemma {:induction false} FirstMaps(sections: seq<Section>, rva: u32, o: nat, k: nat)
    requires MapsFirst(sections, rva, o, k)
    ensures MapRva(sections, rva) == Some(o)
    decreases k
  {
    hide MapIn, Maps;
    forall p: nat ensures MapIn(sections[0], rva) == Some(p) <==> Maps(sections[0], rva, p) {
      MapInExactly(sections[0], rva, p);
    }
    if k > 0 {
      MapsFirstTail(sections, rva, o, k);
      FirstMaps(sections[1..], rva, o, k - 1);
    }
  }

  /** Main result: an address maps to offset `o` exactly when the first section that maps it does. */
  lemma MappedExactly(image: Image, rva: u32, o: nat)
    ensures RvaToOffset(image, rva) == Some(o) <==> exists k: nat :: MapsFirst(image.sections, rva, o, k)
  {
    hide MapRva, MapsFirst;
    if RvaToOffset(image, rva) == Some(o) {
      var k := MapIsFirst(image.sections, rva);
    }
    forall k: nat | MapsFirst(image.sections, rva, o, k) ensures RvaToOffset(image, rva) == Some(o) {
      FirstMaps(image.sections, rva, o, k);
    }
  }

  // ---- the import table ----

  /** `s` is the text at offset `o`: up to a NUL, the end of the file, or 4097 bytes. */
  ghost predicate TextAt(d: seq<byte>, o: nat, s: seq<byte>)
  {
    && |s| <= 4097 && (s != [] ==> o + |s| <= |d| && s == d[o..o + |s|] && 0 !in s)
    && (|s| == 4097 || o + |s| >= |d| || d[o + |s|] == 0)
  }

  lemma {:induction false} TextRead(d: seq<byte>, o: nat, done: seq<byte>)
    requires |done| <= 4097 && (done != [] ==> o + |done| <= |d| && done == d[o..o + |done|] && 0 !in done)
    ensures TextAt(d, o, StringFrom(d, o, done))
    decreases 4097 - |done|
  {
    if |done| < 4097 && o + |done| < |d| && d[o + |done|] != 0 {
      var more := done + [d[o + |done|]];
      assert more == d[o..o + |more|];
      TextRead(d, o, more);
    }
  }

  /** A name is what stands where its address is mapped, and empty when it is not. */
  ghost predicate NameIs(image: Image, rva: u32, s: seq<byte>)
  {
    if exists o: nat, k: nat :: MapsFirst(image.sections, rva, o, k) then
      exists o: nat, k: nat :: MapsFirst(image.sections, rva, o, k) && TextAt(image.data, o, s)
    else s == []
  }

  /** Bytes `at..at + 20` end the table: the three fields that are looked at are 0. */
  ghost predicate EndsTable(d: seq<byte>, at: nat)
  {
    at + 20 <= |d| && U32At(d, at) == 0 && U32At(d, at + 12) == 0 && U32At(d, at + 16) == 0
  }

  ghost predicate DescriptorFields(image: Image, at: nat, r: Descriptor)
  {
    && at + 20 <= |image.data| && r.offset == at
    && r.originalFirstThunk == U32At(image.data, at) && r.firstThunk == U32At(image.data, at + 16)
    && NameIs(image, U32At(image.data, at + 12), r.dll)
  }

  lemma NameRead(image: Image, rva: u32)
    ensures NameIs(image, rva, if AnsiString(image, rva).None? then [] else AnsiString(image, rva).value)
  {
    hide MapsFirst, TextAt, StringFrom, RvaToOffset;
    var start := RvaToOffset(image, rva);
    if start.Some? {
      MappedExactly(image, rva, start.value);
      TextRead(image.data, start.value, []);
    } else {
      forall o: nat, k: nat ensures !MapsFirst(image.sections, rva, o, k) {
        if MapsFirst(image.sections, rva, o, k) {
          MappedExactly(image, rva, o);
        }
      }
    }
  }

  lemma DescriptorHasFields(image: Image, at: nat)
    requires at + 20 <= |image.data|
    ensures DescriptorFields(image, at, DescriptorAt(image, at))
  {
    hide NameIs, AnsiString, U32At;
    NameRead(image, U32At(image.data, at + 12));
  }

  /** `ds` is the table at `start`: its entries stand there one behind the other, none ends it, and
      what follows them does. */
  ghost predicate IsTable(image: Image, start: nat, ds: seq<Descriptor>)
  {
    && EndsTable(image.data, start + 20 * |ds|)
    && forall k :: 0 <= k < |ds| ==> DescriptorFields(image, start + 20 * k, ds[k]) && !EndsTable(image.data, start + 20 * k)
  }

  /** The first `n` descriptors at `start` are in the file, and none ends the table. */
  ghost predicate GoesOn(d: seq<byte>, start: nat, n: nat)
  {
    forall k: nat :: k < n ==> start + 20 * k + 20 <= |d| && !EndsTable(d, start + 20 * k)
  }

  /** The table at `start` ends with the file. */
  ghost predicate CutOff(d: seq<byte>, start: nat)
  {
    exists n: nat :: n <= 4096 && GoesOn(d, start, n) && start + 20 * n + 20 > |d|
  }

  /** What reading the table at `start` gives. */
  ghost predicate TableIs(image: Image, start: nat, r: Result<seq<Descriptor>>)
  {
    match r
    case Ok(ds) => |ds| <= 4096 && IsTable(image, start, ds)
    case Err(e) =>
      || (e == NotPe(Truncated) && CutOff(image.data, start))
      || (e == Malformed(TooManyDescriptors) && GoesOn(image.data, start, 4097))
  }

  lemma GoesOnMore(d: seq<byte>, start: nat, n: nat)
    requires GoesOn(d, start, n) && start + 20 * n + 20 <= |d| && !EndsTable(d, start + 20 * n)
    ensures GoesOn(d, start, n + 1)
  {
    hide EndsTable;
  }

  lemma {:induction false} TableOutcome(image: Image, start: nat, done: seq<Descriptor>)
    requires |done| <= 4096 && GoesOn(image.data, start, |done|)
    requires forall k :: 0 <= k < |done| ==> DescriptorFields(image, start + 20 * k, done[k])
    ensures TableIs(image, start, DescriptorsFrom(image, start, done))
    decreases 4096 - |done|
  {
    hide DescriptorFields, DescriptorAt, U32At;
    var at := start + 20 * |done|;
    if at + 20 <= |image.data| {
      assert EndsTable(image.data, at) <==> IsNullDescriptor(image.data, at);
      hide EndsTable, IsNullDescriptor;
      if !EndsTable(image.data, at) {
        GoesOnMore(image.data, start, |done|);
        DescriptorHasFields(image, at);
        if |done| < 4096 {
          TableOutcome(image, start, done + [DescriptorAt(image, at)]);
        }
      }
    }
  }

  /** The import directory names an address: it has more than one entry, is in the file, and not 0. */
  ghost predicate HasImports(image: Image)
  {
    image.numRvaAndSizes >= 2 && image.peOffset + 152 <= |image.data| && U32At(image.data, image.peOffset + 144) != 0
  }

  ghost predicate Unmapped(image: Image, rva: u32)
  {
    forall o: nat, k: nat :: !MapsFirst(image.sections, rva, o, k)
  }

  /** Main result: the list of imports is empty without a directory; otherwise it is the table where the
      directory's address is mapped, up to the first entry that ends it, with at most 4096 entries.
      It is refused when that address is not mapped, when the file ends before the table does,
      and when 4097 entries do not end it. */
  lemma ImportsExactly(image: Image)
    ensures !HasImports(image) ==> Descriptors(image) == Ok([])
    ensures HasImports(image) ==>
              var rva := U32At(image.data, image.peOffset + 144);
              if Unmapped(image, rva) then Descriptors(image) == Err(Malformed(ImportDirectoryUnmapped))
              else exists start: nat, k: nat :: MapsFirst(image.sections, rva, start, k) && TableIs(image, start, Descriptors(image))
  {
    hide MapsFirst, TableIs, GoesOn, DescriptorsFrom, RvaToOffset;
    if HasImports(image) {
      var rva := U32At(image.data, image.peOffset + 144);
      assert image.DataDir(DIR_IMPORT).Some? && image.DataDir(DIR_IMPORT).value.0 == rva;
      var start := RvaToOffset(image, rva);
      if start.Some? {
        MappedExactly(image, rva, start.value);
        NothingYet(image, start.value);
        TableOutcome(image, start.value, []);
      } else {
        forall o: nat, k: nat ensures !MapsFirst(image.sections, rva, o, k) {
          if MapsFirst(image.sections, rva, o, k) {
            MappedExactly(image, rva, o);
          }
        }
      }
    }
  }

  lemma NothingYet(image: Image, start: nat)
    ensures GoesOn(image.data, start, 0)
  {
  }
}
