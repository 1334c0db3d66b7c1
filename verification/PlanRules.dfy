/** Planning an import, said of the image's own numbers: which images are refused and why, and where the
    plan puts what it adds. */
module PlanRules {
  import opened Bytes
  import opened Parse
  import opened ParseRules
  import opened Import
  import opened PatchedImports
  import PatchedImage

  // ---- where things end ----

  /** The least multiple of `a` that reaches `v`, cut to 32 bits. An alignment of 0 leaves `v`. */
  ghost predicate RoundedUp(r: u32, v: nat, a: nat)
  {
    if a == 0 then r == v % 0x1_0000_0000
    else exists m: nat :: m % a == 0 && v <= m < v + a && r == m % 0x1_0000_0000
  }

  lemma AlignUpRounds(v: u32, a: u32)
    ensures RoundedUp(AlignUp32(v, a), v, a)
  {
    if a != 0 {
      AlignUpMultiple(v, a);
      var m := AlignUp(v, a);
      assert m % a == 0 && v <= m < v + a && AlignUp32(v, a) == m % 0x1_0000_0000;
    }
  }

  /** Where a section ends in memory; a sum of 2^32 or more counts as 2^32 - 1. */
  function EndInMemory(s: Section): nat
  {
    var span := if s.virtualSize < s.sizeOfRawData then s.sizeOfRawData else s.virtualSize;
    if s.virtualAddress as int + span as int < 0x1_0000_0000 then s.virtualAddress as int + span as int else 0xFFFF_FFFF
  }

  /** The largest of the image size and the ends of its sections. */
  ghost predicate LastAddress(image: Image, m: nat)
  {
    && image.sizeOfImage <= m && (forall s :: s in image.sections ==> EndInMemory(s) <= m)
    && (m == image.sizeOfImage || exists s :: s in image.sections && EndInMemory(s) == m)
  }

  lemma {:induction false} LastOf(sections: seq<Section>, floor: u32)
    ensures var m := MaxRvaEnd(sections, floor);
            && floor <= m && (forall s :: s in sections ==> EndInMemory(s) <= m)
            && (m == floor || exists s :: s in sections && EndInMemory(s) == m)
    decreases |sections|
  {
    if sections != [] {
      LastOf(sections[1..], floor);
      assert EndInMemory(sections[0]) == sections[0].RvaEnd();
      var m := MaxRvaEnd(sections, floor);
      assert forall s :: s in sections ==> s == sections[0] || s in sections[1..];
      if m != sections[0].RvaEnd() && m != floor {
        var s :| s in sections[1..] && EndInMemory(s) == m;
        assert s in sections;
      }
    }
  }

  /** Where the raw data of a section ends, and where all of it ends. */
  function EndInFile(s: Section): nat
  {
    (s.pointerToRawData as int + s.sizeOfRawData as int) % 0x1_0000_0000
  }

  ghost predicate LastByte(image: Image, m: nat)
  {
    if forall s :: s in image.sections ==> s.sizeOfRawData == 0 then m == image.sizeOfHeaders
    else
      && (forall s :: s in image.sections && s.sizeOfRawData != 0 ==> EndInFile(s) <= m)
      && exists s :: s in image.sections && s.sizeOfRawData != 0 && EndInFile(s) == m
  }

  lemma RawEndIsLast(image: Image)
    ensures LastByte(image, RawEnd(image))
  {
    hide MaxRawEnd;
    assert forall s: Section :: s.RawEnd() == EndInFile(s);
  }

  // ---- refusals ----

  function TableEnd(image: Image): nat
  {
    image.peOffset + 24 + image.sizeOfOptionalHeader + 40 * image.numberOfSections as int
  }

  /** The size of the headers with one more entry in the section table. */
  ghost predicate GrownHeaders(image: Image, h: u32)
  {
    var n := if TableEnd(image) + 40 < image.sizeOfHeaders then image.sizeOfHeaders as int else TableEnd(image) + 40;
    RoundedUp(h, n % 0x1_0000_0000, image.fileAlignment)
  }

  /** Two sections whose data overlaps in the file; an end of 2^32 or more counts as 2^32 - 1. */
  function DataEnd(s: Section): nat
  {
    if s.pointerToRawData as int + s.sizeOfRawData as int < 0x1_0000_0000 then s.pointerToRawData as int + s.sizeOfRawData as int
    else 0xFFFF_FFFF
  }

  ghost predicate DataOutside(image: Image, s: Section)
  {
    s.sizeOfRawData != 0 && (s.pointerToRawData < image.sizeOfHeaders || DataEnd(s) > |image.data|)
  }

  ghost predicate DataOverlaps(s: Section, t: Section)
  {
    && s.sizeOfRawData != 0 && t.sizeOfRawData != 0
    && s.pointerToRawData < DataEnd(t) && t.pointerToRawData < DataEnd(s)
  }

  /** The first section whose data is outside the file, or overlaps that of one before it, is `k`. */
  ghost predicate FirstBadData(image: Image, k: nat)
  {
    && k < |image.sections|
    && (DataOutside(image, image.sections[k]) || exists j :: 0 <= j < k && DataOverlaps(image.sections[j], image.sections[k]))
    && forall i :: 0 <= i < k ==>
         !DataOutside(image, image.sections[i]) && forall j :: 0 <= j < i ==> !DataOverlaps(image.sections[j], image.sections[i])
  }

  /** Check number `n` of the planner finds something against the image, whose imports are `ds`. */
  ghost predicate Objection(image: Image, ds: seq<Descriptor>, dll: seq<byte>, n: nat)
  {
    match n
    case 0 => exists k :: 0 <= k < |ds| && SameLetters(ds[k].dll, dll)
    case 1 =>
      && (forall s :: s in image.sections ==> s.name != [46, 99, 111, 112, 112, 101, 114, 104])
      && exists s, m: nat :: s in image.sections && LastByte(image, m)
                             && s.sizeOfRawData != 0 && EndInFile(s) >= m && s.characteristics >= 0x8000_0000
    case 2 => image.numberOfSections >= 96
    case 3 => !IsPower(image.fileAlignment) || !IsPower(image.sectionAlignment) || image.fileAlignment > image.sectionAlignment
    case 4 => exists i :: TableEnd(image) <= i < TableEnd(image) + 40 && i < image.sizeOfHeaders && i < |image.data| && image.data[i] != 0
    case 5 => exists i: nat :: i < image.numRvaAndSizes && i != 4 && DirectoryThere(image, i)
    case 6 => exists s, h: u32 :: s in image.sections && GrownHeaders(image, h) && s.virtualAddress < h
    case 7 => exists k: nat :: FirstBadData(image, k)
    case _ => false
  }

  /** Data directory `i` claims addresses where the new section header goes. */
  ghost predicate DirectoryThere(image: Image, i: nat)
  {
    var at := image.peOffset + 136 + 8 * i;
    && at + 8 <= |image.data|
    && var rva, size := U32At(image.data, at), U32At(image.data, at + 4);
    size != 0 && rva < (TableEnd(image) + 40) % 0x1_0000_0000 && rva as int + size as int > TableEnd(image)
  }

  ghost predicate FirstObjection(image: Image, ds: seq<Descriptor>, dll: seq<byte>, n: nat)
  {
    n <= 7 && Objection(image, ds, dll, n) && forall m: nat :: m < n ==> !Objection(image, ds, dll, m)
  }

  /** What the planner answers to each. */
  ghost predicate Refuses(image: Image, dll: seq<byte>, n: nat, e: PeError)
  {
    match n
    case 0 => e == AlreadyImported(dll)
    case 1 => e == ForeignPatch
    case 2 => e == NoSectionRoom
    case 3 => e == Malformed(BadAlignments)
    case 4 => e == Malformed(SlotNotEmpty)
    case 5 => e == Malformed(SlotOverlapsDirectory)
    case 6 => e == Malformed(HeadersOverSectionRva)
    case _ => exists k: nat :: FirstBadData(image, k)
                && e == Malformed(if DataOutside(image, image.sections[k]) then RawOutsideFile else RawRangesOverlap)
  }

  lemma Objection0(image: Image, ds: seq<Descriptor>, dll: seq<byte>)
    ensures Imports(ds, dll) <==> Objection(image, ds, dll, 0)
  {
    hide EqIgnoreAsciiCase, SameLetters;
    forall k | 0 <= k < |ds| ensures EqIgnoreAsciiCase(ds[k].dll, dll) <==> SameLetters(ds[k].dll, dll) {
      SameLettersExactly(ds[k].dll, dll);
    }
  }

  lemma LastByteUnique(image: Image, m: nat, n: nat)
    requires LastByte(image, m) && LastByte(image, n)
    ensures m == n
  {
  }

  lemma Objection1(image: Image, ds: seq<Descriptor>, dll: seq<byte>)
    ensures (!image.HasHookSection() && LooksPatchedByOther(image)) <==> Objection(image, ds, dll, 1)
  {
    hide LastByte, RawEnd;
    RawEndIsLast(image);
    assert forall s: Section :: s.RawEnd() == EndInFile(s);
    forall m: nat | LastByte(image, m) ensures m == RawEnd(image) {
      LastByteUnique(image, m, RawEnd(image));
    }
  }

  lemma Objection3(image: Image, ds: seq<Descriptor>, dll: seq<byte>)
    ensures !AlignmentsOk(image) <==> Objection(image, ds, dll, 3)
  {
    hide IsPowerOfTwo, IsPower;
    PowerOfTwoExactly(image.fileAlignment);
    PowerOfTwoExactly(image.sectionAlignment);
  }

  lemma Objection4(image: Image, ds: seq<Descriptor>, dll: seq<byte>)
    requires SlotReadable(image)
    ensures !SlotIsEmpty(image) <==> Objection(image, ds, dll, 4)
  {
  }

  lemma Objection5(image: Image, ds: seq<Descriptor>, dll: seq<byte>)
    ensures SomeDirectoryOverSlot(image) <==> Objection(image, ds, dll, 5)
  {
    forall i: nat | i < image.numRvaAndSizes ensures DirectoryOverSlot(image, i) <==> i != 4 && DirectoryThere(image, i) {
      hide U32At;
    }
    hide DirectoryOverSlot, DirectoryThere;
  }

  lemma HeadersGrow(image: Image)
    ensures GrownHeaders(image, NewHeaders(image))
  {
    hide RoundedUp, AlignUp32, Wrap32, AlignUp;
    var n := Max(SlotEnd(image), image.sizeOfHeaders);
    WrapIs(n);
    AlignUpRounds(Wrap32(n), image.fileAlignment);
  }

  lemma WrapIs(n: nat)
    ensures Wrap32(n) == n % 0x1_0000_0000
  {
  }

  lemma MultipleUnique(m: nat, n: nat, v: nat, a: nat)
    requires a > 0 && m % a == 0 && n % a == 0 && v <= m < v + a && v <= n < v + a
    ensures m == n
  {
    if m <= n {
      MultiplesAdd(n, m, a);
      SmallMultiple(n - m, a);
    } else {
      MultiplesAdd(m, n, a);
      SmallMultiple(m - n, a);
    }
  }

  lemma RoundedUnique(r: u32, q: u32, v: nat, a: nat)
    requires RoundedUp(r, v, a) && RoundedUp(q, v, a)
    ensures r == q
  {
    if a != 0 {
      var m: nat :| m % a == 0 && v <= m < v + a && r == m % 0x1_0000_0000;
      var n: nat :| n % a == 0 && v <= n < v + a && q == n % 0x1_0000_0000;
      MultipleUnique(m, n, v, a);
    }
  }

  lemma {:induction false} SmallestAddress(sections: seq<Section>)
    requires sections != []
    ensures exists s :: s in sections && s.virtualAddress == MinVirtualAddress(sections)
    decreases |sections|
  {
    if |sections| > 1 {
      SmallestAddress(sections[1..]);
      var s :| s in sections[1..] && s.virtualAddress == MinVirtualAddress(sections[1..]);
      assert s in sections && sections[0] in sections;
    } else {
      assert sections[0] in sections;
    }
  }

  lemma Objection6(image: Image, ds: seq<Descriptor>, dll: seq<byte>)
    requires image.sections != []
    ensures NewHeaders(image) > MinVirtualAddress(image.sections) <==> Objection(image, ds, dll, 6)
  {
    hide GrownHeaders, NewHeaders, MinVirtualAddress;
    HeadersGrow(image);
    SmallestAddress(image.sections);
    forall h: u32 | GrownHeaders(image, h) ensures h == NewHeaders(image) {
      GrownUnique(image, h, NewHeaders(image));
    }
  }

  lemma GrownUnique(image: Image, h: u32, g: u32)
    requires GrownHeaders(image, h) && GrownHeaders(image, g)
    ensures h == g
  {
    hide RoundedUp;
    var n := if TableEnd(image) + 40 < image.sizeOfHeaders then image.sizeOfHeaders as int else TableEnd(image) + 40;
    RoundedUnique(h, g, n % 0x1_0000_0000, image.fileAlignment);
  }

  // ---- raw data ----

  ghost predicate GoodDataUpTo(image: Image, k: nat)
    requires k <= |image.sections|
  {
    forall i :: 0 <= i < k ==>
      !DataOutside(image, image.sections[i]) && forall j :: 0 <= j < i ==> !DataOverlaps(image.sections[j], image.sections[i])
  }

  lemma OverlapIs(s: Section, t: Section)
    requires t.sizeOfRawData != 0
    ensures DataOverlaps(s, t) <==> !RawDisjoint(s, t)
  {
  }

  lemma {:induction false} RawCheckExactly(image: Image, k: nat)
    requires k <= |image.sections| && GoodDataUpTo(image, k)
    ensures match RawCheckFrom(image, k, RangesOf(image.sections, k))
            case None => forall i: nat :: !FirstBadData(image, i)
            case Some(e) => exists i: nat :: FirstBadData(image, i)
                              && e == Malformed(if DataOutside(image, image.sections[i]) then RawOutsideFile else RawRangesOverlap)
    decreases |image.sections| - k
  {
    hide Overlaps, DataOverlaps, RawDisjoint, SatAdd;
    if k < |image.sections| {
      var s := image.sections[k];
      if s.sizeOfRawData != 0 {
        DataEndIs(s);
        OverlapsMeaning(image.sections, k, s);
        forall i | 0 <= i < k ensures DataOverlaps(image.sections[i], s) <==> !RawDisjoint(image.sections[i], s) {
          OverlapIs(image.sections[i], s);
        }
      } else {
        NoData(image.sections, k);
      }
      if DataOutside(image, s) || exists j :: 0 <= j < k && DataOverlaps(image.sections[j], s) {
        assert FirstBadData(image, k);
      } else {
        RawCheckExactly(image, k + 1);
      }
    } else {
      AllGood(image);
    }
  }

  lemma AllGood(image: Image)
    requires GoodDataUpTo(image, |image.sections|)
    ensures forall i: nat :: !FirstBadData(image, i)
  {
  }

  lemma DataEndIs(s: Section)
    ensures SatAdd(s.pointerToRawData, s.sizeOfRawData) == DataEnd(s)
  {
  }

  lemma NoData(sections: seq<Section>, k: nat)
    requires k < |sections| && sections[k].sizeOfRawData == 0
    ensures forall j :: 0 <= j < k ==> !DataOverlaps(sections[j], sections[k])
  {
  }

  lemma RefusalExactly(image: Image, ds: seq<Descriptor>, dll: seq<byte>)
    requires SlotReadable(image)
    ensures match Refusal(image, ds, dll)
            case None => forall n: nat :: !FirstObjection(image, ds, dll, n)
            case Some(e) => exists n: nat :: FirstObjection(image, ds, dll, n) && Refuses(image, dll, n, e)
  {
    Objection0(image, ds, dll);
    Objection1(image, ds, dll);
    Objection3(image, ds, dll);
    Objection4(image, ds, dll);
    Objection5(image, ds, dll);
    Objection6(image, ds, dll);
    RawCheckExactly(image, 0);
    RefusalIsFirst(image, ds, dll);
  }

  lemma RefusalIsFirst(image: Image, ds: seq<Descriptor>, dll: seq<byte>)
    requires SlotReadable(image)
    requires Imports(ds, dll) <==> Objection(image, ds, dll, 0)
    requires (!image.HasHookSection() && LooksPatchedByOther(image)) <==> Objection(image, ds, dll, 1)
    requires !AlignmentsOk(image) <==> Objection(image, ds, dll, 3)
    requires !SlotIsEmpty(image) <==> Objection(image, ds, dll, 4)
    requires SomeDirectoryOverSlot(image) <==> Objection(image, ds, dll, 5)
    requires NewHeaders(image) > MinVirtualAddress(image.sections) <==> Objection(image, ds, dll, 6)
    requires match RawCheckFrom(image, 0, [])
             case None => forall i: nat :: !FirstBadData(image, i)
             case Some(e) => exists i: nat :: FirstBadData(image, i)
                               && e == Malformed(if DataOutside(image, image.sections[i]) then RawOutsideFile else RawRangesOverlap)
    ensures match Refusal(image, ds, dll)
            case None => forall n: nat :: !FirstObjection(image, ds, dll, n)
            case Some(e) => exists n: nat :: FirstObjection(image, ds, dll, n) && Refuses(image, dll, n, e)
  {
    Late(image, ds, dll);
    hide Imports, LooksPatchedByOther, AlignmentsOk, SlotIsEmpty, SomeDirectoryOverSlot, NewHeaders, MinVirtualAddress, RawCheckFrom,
         FirstBadData, DataOutside, Objection;
    var r := Refusal(image, ds, dll);
    if Objection(image, ds, dll, 0) {
      assert FirstObjection(image, ds, dll, 0);
    } else if Objection(image, ds, dll, 1) {
      assert FirstObjection(image, ds, dll, 1);
    } else if Objection(image, ds, dll, 2) {
      assert FirstObjection(image, ds, dll, 2);
    } else if Objection(image, ds, dll, 3) {
      assert FirstObjection(image, ds, dll, 3);
    } else if Objection(image, ds, dll, 4) {
      assert FirstObjection(image, ds, dll, 4);
    } else if Objection(image, ds, dll, 5) {
      assert FirstObjection(image, ds, dll, 5);
    } else if Objection(image, ds, dll, 6) {
      assert FirstObjection(image, ds, dll, 6);
    } else if Objection(image, ds, dll, 7) {
      assert FirstObjection(image, ds, dll, 7);
    }
  }

  lemma Late(image: Image, ds: seq<Descriptor>, dll: seq<byte>)
    ensures image.numberOfSections >= MAX_SECTIONS <==> Objection(image, ds, dll, 2)
    ensures (exists k: nat :: FirstBadData(image, k)) <==> Objection(image, ds, dll, 7)
  {
    hide FirstBadData;
  }

  /** Main result: an import is planned exactly when both names can be written, the list of imports can be
      read, and none of the eight checks has an objection; otherwise the answer is that of the first
      one that has. */
  lemma PlanExactly(image: Image, dll: seq<byte>, entry: seq<byte>)
    requires SlotReadable(image)
    ensures var r, list := PlanSpec(image, dll, entry), Descriptors(image);
            if !(GoodName(dll) && GoodName(entry)) then r == Err(BadImportName)
            else if list.Err? then r == Err(list.error)
            else match r
              case Ok(_) => forall n: nat :: !FirstObjection(image, list.value, dll, n)
              case Err(e) => exists n: nat :: FirstObjection(image, list.value, dll, n) && Refuses(image, dll, n, e)
  {
    GoodNameExactly(dll);
    GoodNameExactly(entry);
    hide Descriptors, Refusal, FirstObjection, Refuses, NameAccepted, GoodName;
    if Descriptors(image).Ok? {
      RefusalExactly(image, Descriptors(image).value, dll);
    }
  }

  // ---- what the plan contains ----

  ghost predicate ZerosOn(d: seq<byte>, lo: nat, hi: nat)
  {
    hi <= |d| && forall i :: lo <= i < hi ==> d[i] == 0
  }

  /** The places of the parts of the new section, for `n` old descriptors: the name table, the address
      table, the hint, the dll name, the end. */
  ghost predicate Places(n: nat, entryLen: nat, dllLen: nat, ilt: nat, iat: nat, hint: nat, name: nat, end: nat)
  {
    && ilt % 8 == 0 && 20 * n + 40 <= ilt < 20 * n + 48
    && iat == ilt + 16 && hint == iat + 16
    && name % 2 == 0 && hint + 2 + entryLen + 1 <= name <= hint + 2 + entryLen + 2
    && end % 2 == 0 && name + dllLen + 1 <= end <= name + dllLen + 2
  }

  /** One entry of the new table, at `at` in the section: a name table and an address table of one
      entry each, the name of the entry, and the name of the dll. */
  ghost predicate NewEntry(blob: seq<byte>, base: nat, at: nat, ilt: nat, iat: nat, hint: nat, name: nat, entry: seq<byte>, dll: seq<byte>)
  {
    && at + 20 <= ilt <= iat && iat + 4 <= hint && hint + 2 + |entry| <= name && name + |dll| <= |blob|
    && U32At(blob, at) == (base + ilt) % 0x1_0000_0000
    && U32At(blob, at + 12) == (base + name) % 0x1_0000_0000
    && U32At(blob, at + 16) == (base + iat) % 0x1_0000_0000
    && U32At(blob, ilt) == U32At(blob, iat) == (base + hint) % 0x1_0000_0000
    && blob[hint + 2..hint + 2 + |entry|] == entry && blob[name..name + |dll|] == dll
  }

  /** Everything in between is 0. */
  ghost predicate NewGaps(blob: seq<byte>, at: nat, ilt: nat, iat: nat, hint: nat, name: nat, entryLen: nat, dllLen: nat)
  {
    && ZerosOn(blob, at + 4, at + 12) && ZerosOn(blob, at + 20, ilt)
    && ZerosOn(blob, ilt + 4, iat) && ZerosOn(blob, iat + 4, hint + 2)
    && ZerosOn(blob, hint + 2 + entryLen, name) && ZerosOn(blob, name + dllLen, |blob|)
  }

  /** What the section holds: the old descriptors, the new one, and what it names. */
  ghost predicate SectionSays(d: seq<byte>, ds: seq<Descriptor>, base: nat, entry: seq<byte>, dll: seq<byte>, blob: seq<byte>)
  {
    exists ilt: nat, iat: nat, hint: nat, name: nat ::
      && Places(|ds|, |entry|, |dll|, ilt, iat, hint, name, |blob|)
      && NewEntry(blob, base, 20 * |ds|, ilt, iat, hint, name, entry, dll)
      && NewGaps(blob, 20 * |ds|, ilt, iat, hint, name, |entry|, |dll|)
      && forall k :: 0 <= k < |ds| ==> CopiedFrom(d, ds[k].offset, blob, 20 * k)
  }

  /** Descriptor bytes are copied as they are. */
  ghost predicate CopiedFrom(d: seq<byte>, from: nat, blob: seq<byte>, at: nat)
  {
    from + 20 <= |d| && at + 20 <= |blob| && blob[at..at + 20] == d[from..from + 20]
  }

  lemma PlacesAre(n: nat, entryLen: nat, dllLen: nat)
    ensures Places(n, entryLen, dllLen, IltOffset(n), IatOffset(n), HintOffset(n), NameOffset(n, entryLen), BlobLength(n, entryLen, dllLen))
  {
    OffsetBounds(n, entryLen, dllLen);
    hide IltOffset;
    var hint := IltOffset(n) + 32;
    EvenAbove(entryLen + 3);
    EvenAbove(dllLen + 1);
    hide PadEven;
    var name := hint + PadEven(entryLen + 3);
    assert hint % 2 == 0 by { EightIsEven(IltOffset(n)); }
    EvenSum(hint, PadEven(entryLen + 3));
    EvenSum(name, PadEven(dllLen + 1));
  }

  lemma EvenAbove(n: nat)
    ensures PadEven(n) % 2 == 0 && n <= PadEven(n) <= n + 1
  {
  }

  lemma EightIsEven(n: nat)
    requires n % 8 == 0
    ensures (n + 32) % 2 == 0
  {
    var q := n / 8;
    assert n + 32 == 2 * (4 * q + 16);
  }

  lemma EvenSum(a: nat, b: nat)
    requires a % 2 == 0 && b % 2 == 0
    ensures (a + b) % 2 == 0
  {
  }

  lemma PaddedZeros(s: seq<byte>, n: nat)
    requires |s| <= n
    ensures Padded(s, n)[..|s|] == s && ZerosOn(Padded(s, n), |s|, n)
  {
  }

  /** The five pieces of the blob, seen from their places. */
  lemma PieceAt(s: seq<byte>, from: nat, piece: seq<byte>, lo: nat, hi: nat)
    requires from + |piece| <= |s| && s[from..from + |piece|] == piece && ZerosOn(piece, lo, hi)
    ensures ZerosOn(s, from + lo, from + hi)
  {
    forall i | from + lo <= i < from + hi ensures s[i] == 0 {
      assert s[from..from + |piece|][i - from] == piece[i - from];
    }
  }

  lemma ThunkParts(base: u32, n: nat)
    ensures var t := Thunks(base, n);
            U32At(t, 0) == Wrap32(base + HintOffset(n)) && ZerosOn(t, 4, 16)
  {
    var v := Wrap32(base + HintOffset(n));
    hide HintOffset, LE32;
    PatchedImage.SlotField(Thunks(base, n), [], v, Zeros(12));
  }

  lemma DescriptorParts(base: u32, n: nat, entryLen: nat)
    ensures var s := NewDescriptor(base, n, entryLen);
            && U32At(s, 0) == Wrap32(base + IltOffset(n))
            && U32At(s, 12) == Wrap32(base + NameOffset(n, entryLen))
            && U32At(s, 16) == Wrap32(base + IatOffset(n))
            && ZerosOn(s, 4, 12)
  {
    NewDescriptorFields(base, n, entryLen);
    hide IltOffset, NameOffset, IatOffset, LE32, U32At;
  }

  /** The fields of the new descriptor, behind the old ones. */
  lemma DescriptorInBlob(blob: seq<byte>, table: seq<byte>, new_: seq<byte>)
    requires |new_| == 20 && |table| + 20 <= |blob| && blob[..|table| + 20] == table + new_
    ensures var at := |table|;
            U32At(blob, at) == U32At(new_, 0) && U32At(blob, at + 12) == U32At(new_, 12) && U32At(blob, at + 16) == U32At(new_, 16)
  {
    var at := |table|;
    assert blob[at..at + 20] == blob[..at + 20][at..at + 20] == new_;
    hide U32At;
    FieldInSlice(blob, at, new_, 0);
    FieldInSlice(blob, at, new_, 12);
    FieldInSlice(blob, at, new_, 16);
  }

  lemma BlobEntry(base: u32, table: seq<byte>, n: nat, entry: seq<byte>, dll: seq<byte>)
    requires |table| == 20 * n
    ensures NewEntry(Blob(base, table, n, entry, dll), base, 20 * n, IltOffset(n), IatOffset(n), HintOffset(n), NameOffset(n, |entry|), entry, dll)
  {
    hide *;
    BlobParts(base, table, n, entry, dll);
    PlacesAre(n, |entry|, |dll|);
    ThunkParts(base, n);
    DescriptorParts(base, n, |entry|);
    var blob := Blob(base, table, n, entry, dll);
    PlacesInOrder(n, |entry|, |dll|, IltOffset(n), IatOffset(n), HintOffset(n), NameOffset(n, |entry|), |blob|);
    DescriptorInBlob(blob, table, NewDescriptor(base, n, |entry|));
    FieldInSlice(blob, IltOffset(n), Thunks(base, n), 0);
    FieldInSlice(blob, IatOffset(n), Thunks(base, n), 0);
    assert IltOffset(n) + 0 == IltOffset(n) && IatOffset(n) + 0 == IatOffset(n);
    Front(blob, HintOffset(n) + 2, entry);
    Front(blob, NameOffset(n, |entry|), dll);
    EntryIs(blob, base, 20 * n, IltOffset(n), IatOffset(n), HintOffset(n), NameOffset(n, |entry|), entry, dll);
  }

  lemma PlacesInOrder(n: nat, entryLen: nat, dllLen: nat, ilt: nat, iat: nat, hint: nat, name: nat, end: nat)
    requires Places(n, entryLen, dllLen, ilt, iat, hint, name, end)
    ensures 20 * n + 40 <= ilt && iat == ilt + 16 && hint == iat + 16 && hint + 2 + entryLen < name && name + dllLen < end
  {
  }

  lemma EntryIs(blob: seq<byte>, base: u32, at: nat, ilt: nat, iat: nat, hint: nat, name: nat, entry: seq<byte>, dll: seq<byte>)
    requires at + 20 <= ilt <= iat && iat + 4 <= hint && name + |dll| <= |blob| && hint + 2 + |entry| <= name
    requires U32At(blob, at) == Wrap32(base + ilt) && U32At(blob, at + 12) == Wrap32(base + name) && U32At(blob, at + 16) == Wrap32(base + iat)
    requires U32At(blob, ilt) == U32At(blob, iat) == Wrap32(base + hint)
    requires blob[hint + 2..hint + 2 + |entry|] == entry && blob[name..name + |dll|] == dll
    ensures NewEntry(blob, base, at, ilt, iat, hint, name, entry, dll)
  {
    hide U32At;
  }

  lemma Front(blob: seq<byte>, at: nat, s: seq<byte>)
    requires at + |s| + 1 <= |blob| && blob[at..at + |s| + 1] == s + [0]
    ensures blob[at..at + |s|] == s
  {
    assert blob[at..at + |s|] == blob[at..at + |s| + 1][..|s|];
  }

  lemma BlobGaps(base: u32, table: seq<byte>, n: nat, entry: seq<byte>, dll: seq<byte>)
    requires |table| == 20 * n
    ensures NewGaps(Blob(base, table, n, entry, dll), 20 * n, IltOffset(n), IatOffset(n), HintOffset(n), NameOffset(n, |entry|), |entry|, |dll|)
  {
    BlobPieces(base, table, n, entry, dll);
    PlacesAre(n, |entry|, |dll|);
    ThunkParts(base, n);
    DescriptorParts(base, n, |entry|);
    var new_ := NewDescriptor(base, n, |entry|);
    var head := table + new_;
    var a, b := Padded(head, IltOffset(n)), Thunks(base, n);
    var c, e := Padded([0, 0] + entry, PadEven(|entry| + 3)), Padded(dll, PadEven(|dll| + 1));
    var blob := Blob(base, table, n, entry, dll);
    PaddedZeros(head, IltOffset(n));
    PaddedZeros([0, 0] + entry, PadEven(|entry| + 3));
    PaddedZeros(dll, PadEven(|dll| + 1));
    FivePieces(a, b, b, c, e);
    assert blob == a + b + b + c + e && |blob| == NameOffset(n, |entry|) + |e|;
    assert |c| == NameOffset(n, |entry|) - HintOffset(n);
    hide Blob, BlobLength, NewDescriptor, Thunks, IltOffset, NameOffset, U32At, Padded, PadEven, Places;
    PieceAt(head, 20 * n, new_, 4, 12);
    PieceAt(a, 0, head, 20 * n + 4, 20 * n + 12);
    PieceAt(blob, 0, a, 20 * n + 4, 20 * n + 12);
    PieceAt(blob, 0, a, |head|, IltOffset(n));
    PieceAt(blob, IltOffset(n), b, 4, 16);
    PieceAt(blob, IatOffset(n), b, 4, 16);
    TwoZeros(c, entry);
    PieceAt(blob, HintOffset(n), c, 0, 2);
    PieceAt(blob, HintOffset(n), c, |entry| + 2, |c|);
    PieceAt(blob, NameOffset(n, |entry|), e, |dll|, |e|);
  }

  lemma TwoZeros(c: seq<byte>, entry: seq<byte>)
    requires |c| >= 2 + |entry| && c[..|[0, 0] + entry|] == [0, 0] + entry
    ensures ZerosOn(c, 0, 2)
  {
    assert c[0] == c[..2 + |entry|][0] && c[1] == c[..2 + |entry|][1];
  }

  lemma BlobSays(d: seq<byte>, ds: seq<Descriptor>, base: u32, entry: seq<byte>, dll: seq<byte>)
    requires forall k :: 0 <= k < |ds| ==> ds[k].offset + 20 <= |d|
    ensures SectionSays(d, ds, base, entry, dll, Blob(base, DescriptorBytes(d, ds), |ds|, entry, dll))
  {
    var n, table := |ds|, DescriptorBytes(d, ds);
    var blob := Blob(base, table, n, entry, dll);
    PlacesAre(n, |entry|, |dll|);
    BlobEntry(base, table, n, entry, dll);
    BlobGaps(base, table, n, entry, dll);
    BlobParts(base, table, n, entry, dll);
    hide Blob, BlobLength, Places, NewEntry, NewGaps, IltOffset, IatOffset, HintOffset, NameOffset, DescriptorBytes;
    forall k | 0 <= k < n ensures CopiedFrom(d, ds[k].offset, blob, 20 * k) {
      DescriptorSlice(d, ds, k);
      InFront(blob, table, NewDescriptor(base, n, |entry|), 20 * k);
    }
  }

  lemma InFront(blob: seq<byte>, table: seq<byte>, new_: seq<byte>, at: nat)
    requires at + 20 <= |table| <= |table| + |new_| <= |blob| && blob[..|table| + |new_|] == table + new_
    ensures blob[at..at + 20] == table[at..at + 20]
  {
    assert blob[at..at + 20] == blob[..|table| + |new_|][at..at + 20];
  }

  /** Main result: what a plan says, number by number and byte by byte. */
  lemma PlanSays(image: Image, dll: seq<byte>, entry: seq<byte>, plan: ImportPlan)
    requires SlotReadable(image) && PlanSpec(image, dll, entry) == Ok(plan)
    ensures plan.dll == dll && plan.entry == entry && Descriptors(image).Ok?
    ensures plan.descriptorCount == |Descriptors(image).value| + 2 && plan.newSectionVsize == |plan.blob|
    ensures SectionSays(image.data, Descriptors(image).value, plan.newSectionRva, entry, dll, plan.blob)
    ensures exists m: nat :: LastAddress(image, m) && RoundedUp(plan.newSectionRva, m, image.sectionAlignment)
    ensures GrownHeaders(image, plan.newHeaders)
    ensures RoundedUp(plan.newSectionRawSize, |plan.blob|, image.fileAlignment)
    ensures var end := plan.newSectionRva as int + |plan.blob|;
            RoundedUp(plan.newImageSize, if end < 0x1_0000_0000 then end else 0xFFFF_FFFF, image.sectionAlignment)
  {
    hide *;
    PlanMeaning(image, dll, entry, plan);
    var ds := Descriptors(image).value;
    OffsetsIn(image, ds);
    GoodSizes(dll, entry);
    PlanHas(image, ds, dll, entry);
    BlobSays(image.data, ds, plan.newSectionRva, entry, dll);
    HeadersGrow(image);
    LastIs(image);
    AlignUpRounds(MaxRvaEnd(image.sections, image.sizeOfImage), image.sectionAlignment);
    AlignUpRounds(plan.newSectionVsize, image.fileAlignment);
    AlignUpRounds(SatAdd(plan.newSectionRva, plan.newSectionVsize), image.sectionAlignment);
    Saturates(plan.newSectionRva, plan.newSectionVsize);
  }

  lemma LastIs(image: Image)
    ensures LastAddress(image, MaxRvaEnd(image.sections, image.sizeOfImage))
  {
    LastOf(image.sections, image.sizeOfImage);
    hide MaxRvaEnd, EndInMemory;
  }

  lemma OffsetsIn(image: Image, ds: seq<Descriptor>)
    requires OffsetsInside(image, ds)
    ensures forall k :: 0 <= k < |ds| ==> ds[k].offset + 20 <= |image.data|
  {
  }

  lemma GoodSizes(dll: seq<byte>, entry: seq<byte>)
    requires NameAccepted(dll) && NameAccepted(entry)
    ensures |dll| <= MAX_IMPORT_NAME && |entry| <= MAX_IMPORT_NAME
  {
  }

  lemma PlanHas(image: Image, ds: seq<Descriptor>, dll: seq<byte>, entry: seq<byte>)
    requires OffsetsInside(image, ds) && |ds| <= MAX_DESCRIPTORS
    requires |dll| <= MAX_IMPORT_NAME && |entry| <= MAX_IMPORT_NAME
    ensures var plan := PlanFor(image, ds, dll, entry);
            && plan.dll == dll && plan.entry == entry && plan.descriptorCount == |ds| + 2
            && plan.newSectionVsize == |plan.blob| && plan.newHeaders == NewHeaders(image)
            && plan.blob == Blob(plan.newSectionRva, DescriptorBytes(image.data, ds), |ds|, entry, dll)
            && plan.newSectionRva == AlignUp32(MaxRvaEnd(image.sections, image.sizeOfImage), image.sectionAlignment)
            && plan.newSectionRawSize == AlignUp32(plan.newSectionVsize, image.fileAlignment)
            && plan.newImageSize == AlignUp32(SatAdd(plan.newSectionRva, plan.newSectionVsize), image.sectionAlignment)
  {
    OffsetBounds(|ds|, |entry|, |dll|);
    hide AlignUp32, SatAdd, MaxRvaEnd, Blob, DescriptorBytes, NewHeaders, IltOffset, PadEven;
  }

  lemma Saturates(a: u32, b: u32)
    ensures SatAdd(a, b) as int == if a as int + b as int < 0x1_0000_0000 then a as int + b as int else 0xFFFF_FFFF
  {
  }
}
