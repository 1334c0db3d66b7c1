/** Writer and reader agree: on the memory that the loader makes of a rewritten file, the
    hook's scanner finds the slot that the rewriter has laid out. */
module HookAgreement {
  import opened Bytes
  import opened Parse
  import opened Import
  import opened Rebuild
  import opened PatchedBytes
  import opened PatchedImage
  import opened PatchedContents
  import opened PatchedImports
  import opened PatchedLayout
  import opened Iat
  import opened IatHits

  predicate AllPrintable(s: seq<byte>)
  {
    forall i :: 0 <= i < |s| ==> Printable(s[i])
  }

  /** The slot of the added import, in memory. */
  function AddedSlot(plan: ImportPlan, n: nat): nat { plan.newSectionRva + IatOffset(n) }

  /** `mem` holds the headers of `out` and its new section, where the loader has filled the
      slot of the added import, and only that. */
  ghost predicate Loaded(mem: seq<byte>, out: seq<byte>, plan: ImportPlan, n: nat)
  {
    && plan.newImageSize <= |mem| && FIRST_PAGE <= |mem|
    && SameOn(mem, out, 0, plan.newHeaders)
    && plan.newSectionRva + |plan.blob| <= |mem|
    && (forall j {:trigger plan.blob[j]} :: 0 <= j < |plan.blob| && !(IatOffset(n) <= j < IatOffset(n) + 8) ==>
          mem[plan.newSectionRva + j] == plan.blob[j])
    && AddedSlot(plan, n) + 8 <= |mem| && U64At(mem, AddedSlot(plan, n)) != 0
  }

  // ---- the section in memory ----

  lemma LoadedPart(mem: seq<byte>, out: seq<byte>, plan: ImportPlan, n: nat, i: nat, part: seq<byte>)
    requires Loaded(mem, out, plan, n)
    requires i + |part| <= |plan.blob| && plan.blob[i..i + |part|] == part
    requires i + |part| <= IatOffset(n) || IatOffset(n) + 8 <= i
    ensures Holds(mem, plan.newSectionRva + i, part)
  {
    hide U64At, IatOffset;
    forall j | 0 <= j < |part|
      ensures plan.newSectionRva + i + j < |mem| && mem[plan.newSectionRva + i + j] == part[j]
    {
      assert part[j] == plan.blob[i..i + |part|][j] == plan.blob[i + j];
    }
    HoldsFromBytes(mem, plan.newSectionRva + i, part);
  }

  /** The parts of the section that a scan looks at. */
  ghost predicate SectionInMemory(mem: seq<byte>, plan: ImportPlan, table: seq<byte>, n: nat, dll: seq<byte>, entry: seq<byte>)
  {
    var base := plan.newSectionRva;
    && Holds(mem, base, table)
    && Holds(mem, base + 20 * n, NewDescriptor(base, n, |entry|))
    && Holds(mem, base + 20 * n + 20, Zeros(20))
    && Holds(mem, base + IltOffset(n), Thunks(base, n))
    && Holds(mem, base + HintOffset(n) + 2, entry + [0])
    && Holds(mem, base + NameOffset(n, |entry|), dll + [0])
  }

  lemma LoadedSection(mem: seq<byte>, out: seq<byte>, plan: ImportPlan, table: seq<byte>, n: nat, dll: seq<byte>, entry: seq<byte>)
    requires Loaded(mem, out, plan, n) && BlobFor(plan.blob, plan.newSectionRva, table, n, dll, entry)
    ensures SectionInMemory(mem, plan, table, n, dll, entry)
  {
    hide Loaded, BlobFor, BlobLength, Blob, NewDescriptor, Thunks, NameOffset, IltOffset, Holds, NameAccepted;
    BlobForFacts(plan.blob, plan.newSectionRva, table, n, dll, entry);
    BlobParts(plan.newSectionRva, table, n, entry, dll);
    var base := plan.newSectionRva;
    var new_ := NewDescriptor(base, n, |entry|);
    var head := table + new_;
    assert plan.blob[0..0 + |head|] == head;
    LoadedPart(mem, out, plan, n, 0, head);
    assert head[0..0 + |table|] == table && head[|table|..|table| + 20] == new_;
    HeldPart(mem, base, head, 0, table);
    HeldPart(mem, base, head, |table|, new_);
    LoadedPart(mem, out, plan, n, 20 * n + 20, Zeros(20));
    LoadedPart(mem, out, plan, n, IltOffset(n), Thunks(base, n));
    LoadedPart(mem, out, plan, n, HintOffset(n) + 2, entry + [0]);
    LoadedPart(mem, out, plan, n, NameOffset(n, |entry|), dll + [0]);
  }

  // ---- the new descriptor is visited and gives the slot ----

  lemma {:induction false} ValueSplit(d: seq<byte>, at: nat, m: nat, n: nat)
    requires at + m + n <= |d|
    ensures Value(d, at, m + n) == Value(d, at, m) + Pow256(m) * Value(d, at + m, n)
    decreases m
  {
    if m > 0 {
      ValueSplit(d, at + 1, m - 1, n);
      Distribute(d[at], Value(d, at + 1, m - 1), Pow256(m - 1), Value(d, at + m, n));
    }
  }

  lemma Distribute(low: nat, high: nat, p: nat, v: nat)
    ensures low + 0x100 * (high + p * v) == (low + 0x100 * high) + (0x100 * p) * v
  {
  }

  lemma ThunkValues(base: u32, n: nat)
    ensures var t := Thunks(base, n);
            U64At(t, 0) == Wrap32(base + HintOffset(n)) && U64At(t, 8) == 0
  {
    var t := Thunks(base, n);
    var v := Wrap32(base + HintOffset(n));
    assert t == LE32(v) + Zeros(12);
    hide Thunks, HintOffset, LE32;
    ValueSplit(t, 0, 4, 4);
    ValueSplit(t, 8, 4, 4);
    assert t[0..4] == LE32(v)[0..4];
    FieldValues(0, v);
    SameValue(t, 0, LE32(v), 0, 4);
    ZeroField32(t, 4);
    ZeroField32(t, 8);
    ZeroField32(t, 12);
  }

  lemma HeldField64(mem: seq<byte>, at: nat, part: seq<byte>, i: nat)
    requires Holds(mem, at, part) && i + 8 <= |part|
    ensures at + i + 8 <= |mem| && U64At(mem, at + i) == U64At(part, i)
  {
    var x, y := mem[at + i..at + i + 8], part[i..i + 8];
    forall k | 0 <= k < 8 ensures x[k] == y[k] {
      HeldByte(mem, at, part, i + k);
    }
    assert x == y;
    SameValue(mem, at + i, part, i, 8);
  }

  lemma HeldName(mem: seq<byte>, size: nat, rva: nat, s: seq<byte>)
    requires Holds(mem, rva, s + [0]) && 0 < rva && rva + |s| <= size <= |mem|
    requires NameAccepted(s)
    ensures ReadAscii(mem, size, rva) == if AllPrintable(s) then Some(s) else None
  {
    assert 0 !in s;
    ReadAsciiOf(mem, size, rva, s);
  }

  /** The name table has one entry; it names `entry`, if the scanner can read it. */
  lemma SlotFound(mem: seq<byte>, size: nat, names: nat, slots: nat, entry: seq<byte>, hint: u32)
    requires size <= |mem| && names + 16 <= size && slots + 8 <= size && hint + 2 < LIMIT32
    requires U64At(mem, names) == hint != 0 && U64At(mem, names + 8) == 0 && U64At(mem, slots) != 0
    requires ReadAscii(mem, size, hint + 2) == if AllPrintable(entry) then Some(entry) else None
    ensures SlotByName(mem, size, names, slots, entry, 0) == if AllPrintable(entry) then Some(slots) else None
  {
    hide ReadAscii, U64At, AllPrintable;
    assert hint % LIMIT32 == hint && (hint + 2) % LIMIT32 == hint + 2;
    if !AllPrintable(entry) {
      assert SlotByName(mem, size, names, slots, entry, 1) == None;
    }
  }

  lemma DescriptorFields(mem: seq<byte>, at: nat, base: u32, n: nat, entryLen: nat)
    requires Holds(mem, at, NewDescriptor(base, n, entryLen))
    ensures at + 20 <= |mem|
    ensures U32At(mem, at) == Wrap32(base + IltOffset(n))
    ensures U32At(mem, at + 12) == Wrap32(base + NameOffset(n, entryLen))
    ensures U32At(mem, at + 16) == Wrap32(base + IatOffset(n))
  {
    hide *;
    NewDescriptorFields(base, n, entryLen);
    FieldsHeld(mem, at, NewDescriptor(base, n, entryLen));
  }

  /** Where the last name of the new section ends, in memory, without its NUL. */
  function NamesEnd(plan: ImportPlan, n: nat, dll: seq<byte>, entry: seq<byte>): nat
  {
    plan.newSectionRva + NameOffset(n, |entry|) + |dll|
  }

  /** The offsets of the blob lie below the limit of the scan. */
  ghost predicate BelowLimit(plan: ImportPlan, n: nat, dll: seq<byte>, entry: seq<byte>, limit: nat)
  {
    && 0 < plan.newSectionRva && limit < LIMIT32
    && 20 * n + 40 <= IltOffset(n)
    && HintOffset(n) + |entry| + 3 <= NameOffset(n, |entry|)
    && NamesEnd(plan, n, dll, entry) <= limit
  }

  /** The new descriptor contributes the new slot to a request for it, exactly when both names
      are printable. */
  lemma NewDescriptorVisit(mem: seq<byte>, plan: ImportPlan, table: seq<byte>, n: nat, dll: seq<byte>, entry: seq<byte>,
                           limit: nat, requests: seq<Request>, resolve: Resolver, i: nat)
    requires limit <= |mem| && SectionInMemory(mem, plan, table, n, dll, entry) && BelowLimit(plan, n, dll, entry, limit)
    requires NameAccepted(dll) && NameAccepted(entry)
    requires U64At(mem, AddedSlot(plan, n)) != 0
    requires i < |requests| && requests[i] == Request(Lowered(dll), entry)
    ensures plan.newSectionRva + 20 * n + 20 <= |mem|
    ensures Hit(i, AddedSlot(plan, n)) in Visit(mem, limit, plan.newSectionRva + 20 * n, requests, resolve).hits
            <==> AllPrintable(dll) && AllPrintable(entry)
  {
    hide *;
    var base := plan.newSectionRva;
    var ilt, iat, name, hint := base + IltOffset(n), base + IatOffset(n), base + NameOffset(n, |entry|), base + HintOffset(n);
    AddressesFit(plan, n, dll, entry, limit);
    SectionParts(mem, plan, table, n, dll, entry);
    DescriptorFields(mem, base + 20 * n, base, n, |entry|);
    HeldName(mem, limit, name, dll);
    HeldName(mem, limit, hint + 2, entry);
    ThunkValues(base, n);
    HeldField64(mem, ilt, Thunks(base, n), 0);
    HeldField64(mem, ilt, Thunks(base, n), 8);
    SlotFound(mem, limit, ilt, iat, entry, hint);
    VisitOf(mem, limit, base + 20 * n, ilt, name, iat, dll, requests, resolve, i, AddedSlot(plan, n));
  }

  /** A scan whose limit cuts the dll name sees another name, or none. */
  lemma CutDescriptorVisit(mem: seq<byte>, plan: ImportPlan, table: seq<byte>, n: nat, dll: seq<byte>, entry: seq<byte>,
                           limit: nat, requests: seq<Request>, resolve: Resolver, i: nat, slot: nat)
    requires limit <= |mem| && SectionInMemory(mem, plan, table, n, dll, entry)
    requires BelowLimit(plan, n, dll, entry, plan.newImageSize) && limit < NamesEnd(plan, n, dll, entry)
    requires i < |requests| && requests[i] == Request(Lowered(dll), entry)
    ensures plan.newSectionRva + 20 * n + 20 <= |mem|
    ensures Hit(i, slot) !in Visit(mem, limit, plan.newSectionRva + 20 * n, requests, resolve).hits
  {
    hide *;
    var base := plan.newSectionRva;
    AddressesFit(plan, n, dll, entry, plan.newImageSize);
    SectionParts(mem, plan, table, n, dll, entry);
    DescriptorFields(mem, base + 20 * n, base, n, |entry|);
    NamesEndIs(plan, n, dll, entry);
    ReadAsciiCut(mem, limit, base + NameOffset(n, |entry|), |dll|);
    CutVisit(mem, limit, base + 20 * n, dll, requests, resolve, i, slot);
  }

  lemma NamesEndIs(plan: ImportPlan, n: nat, dll: seq<byte>, entry: seq<byte>)
    ensures NamesEnd(plan, n, dll, entry) == plan.newSectionRva + NameOffset(n, |entry|) + |dll|
  {
  }

  lemma CutVisit(mem: seq<byte>, limit: nat, at: nat, dll: seq<byte>, requests: seq<Request>, resolve: Resolver, i: nat, slot: nat)
    requires limit <= |mem| && at + 20 <= |mem| && i < |requests| && requests[i].dll == Lowered(dll)
    requires var name := ReadAscii(mem, limit, U32At(mem, at + 12)); name.Some? ==> |name.value| < |dll|
    ensures Hit(i, slot) !in Visit(mem, limit, at, requests, resolve).hits
  {
    hide ReadAscii, U32At, SlotByName, SlotByAddress, RequestHits;
    var name := ReadAscii(mem, limit, U32At(mem, at + 12));
    if name.Some? {
      assert |Lowered(name.value)| < |Lowered(dll)|;
      OtherModule(mem, limit, U32At(mem, at), U32At(mem, at + 16), Lowered(name.value), requests, |requests|, resolve, i);
    }
  }

  /** Where the parts of the section are in memory: no sum wraps. */
  lemma AddressesFit(plan: ImportPlan, n: nat, dll: seq<byte>, entry: seq<byte>, limit: nat)
    requires BelowLimit(plan, n, dll, entry, limit)
    ensures var base := plan.newSectionRva;
            && 0 < base + IltOffset(n) && base + IltOffset(n) + 16 <= limit
            && base + IatOffset(n) + 8 <= limit && base + HintOffset(n) + 2 + |entry| + 1 <= limit
            && 0 < base + HintOffset(n) && base + HintOffset(n) + 2 < LIMIT32
            && 0 < base + NameOffset(n, |entry|) && base + NameOffset(n, |entry|) + |dll| <= limit
            && limit < LIMIT32
            && AddedSlot(plan, n) == base + IatOffset(n)
  {
    hide IltOffset, PadEven;
  }

  lemma SectionParts(mem: seq<byte>, plan: ImportPlan, table: seq<byte>, n: nat, dll: seq<byte>, entry: seq<byte>)
    requires SectionInMemory(mem, plan, table, n, dll, entry)
    ensures var base := plan.newSectionRva;
            && Holds(mem, base + 20 * n, NewDescriptor(base, n, |entry|))
            && Holds(mem, base + IltOffset(n), Thunks(base, n))
            && Holds(mem, base + HintOffset(n) + 2, entry + [0])
            && Holds(mem, base + NameOffset(n, |entry|), dll + [0])
  {
  }

  /** A descriptor whose names are looked up in its name table. */
  lemma VisitOf(mem: seq<byte>, limit: nat, at: nat, names: nat, name: nat, slots: nat, dll: seq<byte>,
                requests: seq<Request>, resolve: Resolver, i: nat, slot: nat)
    requires limit <= |mem| && at + 20 <= |mem| && i < |requests| && requests[i].dll == Lowered(dll)
    requires U32At(mem, at) == names != 0 && U32At(mem, at + 12) == name && U32At(mem, at + 16) == slots
    requires ReadAscii(mem, limit, name) == if AllPrintable(dll) then Some(dll) else None
    ensures Hit(i, slot) in Visit(mem, limit, at, requests, resolve).hits
            <==> AllPrintable(dll) && SlotByName(mem, limit, names, slots, requests[i].entry, 0) == Some(slot)
  {
    hide ReadAscii, U32At, AllPrintable, SlotByName, SlotByAddress, RequestHits, Lowered;
    HitsOfRequest(mem, limit, names, slots, Lowered(dll), requests, |requests|, resolve, i);
  }

  // ---- the headers in memory ----

  /** The scanner's own demands on the headers, which the rewriter does not make. */
  predicate HookReadable(image: Image)
  {
    image.peOffset <= MAX_LFANEW && image.sizeOfOptionalHeader >= 0xF0
  }

  /** The header fields that the scanner reads. */
  ghost predicate HeadersInMemory(mem: seq<byte>, image: Image, plan: ImportPlan)
  {
    && FIRST_PAGE <= |mem|
    && U16At(mem, 0) == 0x5A4D && U32At(mem, 0x3c) == image.peOffset
    && (image.peOffset <= MAX_LFANEW ==>
          && U32At(mem, image.peOffset) == 0x4550
          && U16At(mem, image.peOffset + 4) == image.machine
          && U16At(mem, image.peOffset + 20) == image.sizeOfOptionalHeader
          && U32At(mem, image.peOffset + 80) == plan.newImageSize
          && U32At(mem, image.peOffset + 132) == image.numRvaAndSizes
          && U32At(mem, image.peOffset + 144) == plan.newSectionRva
          && U32At(mem, image.peOffset + 148) == TableSize(plan))
  }

  lemma MzValue(d: seq<byte>, at: nat)
    requires at + 2 <= |d| && d[at] == 0x4d && d[at + 1] == 0x5a
    ensures U16At(d, at) == 0x5A4D
  {
    WordValue(d, at);
  }

  lemma PeValue(d: seq<byte>, at: nat)
    requires at + 4 <= |d| && d[at..at + 4] == [0x50, 0x45, 0, 0]
    ensures U32At(d, at) == 0x4550
  {
    assert d[at] == d[at..at + 4][0] && d[at + 1] == d[at..at + 4][1];
    assert d[at + 2] == d[at..at + 4][2] && d[at + 3] == d[at..at + 4][3];
    DoubleWordValue(d, at);
  }

  lemma HeaderErrorNone(d: seq<byte>)
    requires HeaderError(d).None?
    ensures |d| >= 0x40 && d[0] == 0x4d && d[1] == 0x5a
    ensures var pe: nat := U32At(d, 0x3c); pe + 136 <= |d| && d[pe..pe + 4] == [0x50, 0x45, 0, 0]
  {
    hide U16At, U32At, IsPowerOfTwo;
  }

  lemma LoadedHeaders(mem: seq<byte>, out: seq<byte>, image: Image, plan: ImportPlan)
    requires FIRST_PAGE <= |mem| && SameOn(mem, out, 0, plan.newHeaders)
    requires image.peOffset + 152 <= plan.newHeaders
    requires HeaderError(out).None? && SameIdentity(out, image) && HasNewFields(out, image, plan)
    ensures HeadersInMemory(mem, image, plan)
  {
    HeaderErrorNone(out);
    var pe := image.peOffset;
    MzValue(out, 0);
    PeValue(out, pe);
    hide U16At, U32At, HeaderError, HasBoundImport;
    SameField16(mem, 0, out, 0);
    SameField32(mem, 0x3c, out, 0x3c);
    SameField32(mem, pe, out, pe);
    SameField16(mem, pe + 4, out, pe + 4);
    SameField16(mem, pe + 20, out, pe + 20);
    SameField32(mem, pe + 80, out, pe + 80);
    SameField32(mem, pe + 132, out, pe + 132);
    SameField32(mem, pe + 144, out, pe + 144);
    SameField32(mem, pe + 148, out, pe + 148);
  }

  /** The sizes that the scanner compares. */
  ghost predicate TableFits(image: Image, plan: ImportPlan, n: nat)
  {
    && image.machine == MACHINE_AMD64 && image.numRvaAndSizes >= 2
    && plan.descriptorCount == n + 2 && plan.descriptorCount as int * 20 < LIMIT32
    && 0 < plan.newSectionRva && plan.newSectionRva as int + 20 * n + 40 <= plan.newImageSize
    && image.sizeOfOptionalHeader as int + 24 <= plan.newSectionRva
  }

  /** How far a scan with size hint `hint` reads. */
  function ScanLimit(plan: ImportPlan, hint: nat): nat
  {
    if hint == 0 then plan.newImageSize else Min(plan.newImageSize, hint)
  }

  /** The scanner sees the table: it accepts the headers, and the hint reaches the table's end. */
  predicate TableSeen(image: Image, plan: ImportPlan, n: nat, hint: nat)
  {
    HookReadable(image) && plan.newSectionRva + 20 * n + 40 <= ScanLimit(plan, hint)
  }

  lemma TableFound(mem: seq<byte>, image: Image, plan: ImportPlan, n: nat, hint: nat)
    requires HeadersInMemory(mem, image, plan) && TableFits(image, plan, n)
    ensures FindTable(mem, hint)
            == if TableSeen(image, plan, n, hint) then Some(Table(ScanLimit(plan, hint), plan.newSectionRva, n + 2)) else None
  {
    hide U16At, U32At;
  }

  lemma ReadyTableFits(image: Image, dll: seq<byte>, entry: seq<byte>, plan: ImportPlan, n: nat)
    requires Ready(image, dll, entry, plan) && Descriptors(image).Ok? && n == |Descriptors(image).value|
    ensures TableFits(image, plan, n)
    ensures BelowLimit(plan, n, dll, entry, plan.newImageSize)
    ensures NameAccepted(dll) && NameAccepted(entry)
    ensures image.peOffset + 152 <= plan.newHeaders
  {
    PlanMeaning(image, dll, entry, plan);
    PlanNumbers(image, dll, entry, plan);
    ReadyPositive(image, dll, entry, plan);
    ReadyNewSection(image, dll, entry, plan);
    ReadyImageSize(image, dll, entry, plan);
    ReadyLayout(image, dll, entry, plan);
    OffsetBounds(n, |entry|, |dll|);
    assert image.machine == MACHINE_AMD64 && HeaderLayout(image) && SlotEnd(image) <= plan.newHeaders;
    hide Ready, Descriptors, PlanFor, IltOffset, PadEven, Layout, NameAccepted, OffsetsInside;
  }

  // ---- the walk over the old descriptors ----

  /** An old descriptor in memory is not the end of the table. */
  lemma OldDescriptorStands(mem: seq<byte>, image: Image, ds: seq<Descriptor>, bytes: seq<byte>, t: Table, j: nat)
    requires OffsetsInside(image, ds) && bytes == DescriptorBytes(image.data, ds)
    requires Holds(mem, t.rva, bytes) && j < |ds| && Known(image, ds[j])
    requires t.rva + 20 * |ds| + 40 <= t.limit <= |mem|
    ensures DescriptorStands(mem, t, j)
  {
    hide *;
    KnownNotNull(image, ds[j]);
    TableOfCopied(mem, t.rva, image, ds, bytes, j);
    CopyStands(image.data, ds[j].offset, mem, t, j);
  }

  lemma KnownNotNull(image: Image, d: Descriptor)
    requires Known(image, d)
    ensures d.offset + 20 <= |image.data| && !IsNullDescriptor(image.data, d.offset)
  {
    hide DescriptorAt, IsNullDescriptor;
  }

  lemma CopyStands(d: seq<byte>, from: nat, mem: seq<byte>, t: Table, j: nat)
    requires Copied(d, from, mem, t.rva + 20 * j) && !IsNullDescriptor(d, from)
    requires t.rva + 20 * j + 20 <= t.limit <= |mem|
    ensures DescriptorStands(mem, t, j)
  {
    hide U32At;
  }

  lemma AddedStands(mem: seq<byte>, t: Table, n: nat, entryLen: nat)
    requires t.rva < LIMIT32 && Holds(mem, t.rva + 20 * n, NewDescriptor(t.rva, n, entryLen))
    requires t.rva + 20 * n + 40 <= t.limit <= |mem|
    requires 0 < t.rva + IltOffset(n) < LIMIT32
    ensures DescriptorStands(mem, t, n)
  {
    hide NewDescriptor, Holds, U32At, IltOffset;
    DescriptorFields(mem, t.rva + 20 * n, t.rva, n, entryLen);
  }

  lemma TableInMemory(mem: seq<byte>, plan: ImportPlan, bytes: seq<byte>, n: nat, dll: seq<byte>, entry: seq<byte>)
    requires SectionInMemory(mem, plan, bytes, n, dll, entry)
    ensures Holds(mem, plan.newSectionRva, bytes)
    ensures Holds(mem, plan.newSectionRva + 20 * n + 20, Zeros(20))
  {
  }

  lemma EndMark(mem: seq<byte>, at: nat)
    requires Holds(mem, at, Zeros(20))
    ensures at + 20 <= |mem| && NullAt(mem, at)
  {
    NullHeld(mem, at);
  }

  lemma AllStand(mem: seq<byte>, image: Image, plan: ImportPlan, ds: seq<Descriptor>, bytes: seq<byte>, t: Table, dll: seq<byte>, entry: seq<byte>)
    requires OffsetsInside(image, ds) && bytes == DescriptorBytes(image.data, ds)
    requires forall k :: 0 <= k < |ds| ==> Known(image, ds[k])
    requires SectionInMemory(mem, plan, bytes, |ds|, dll, entry)
    requires BelowLimit(plan, |ds|, dll, entry, plan.newImageSize) && t.limit <= |mem|
    requires t.rva == plan.newSectionRva && t.count == |ds| + 2 && t.rva + 20 * |ds| + 40 <= t.limit
    ensures Walkable(mem, t, 0, |ds|)
    ensures t.rva + 20 * |ds| + 40 <= |mem| && NullAt(mem, t.rva + 20 * |ds| + 20)
  {
    hide *;
    TableInMemory(mem, plan, bytes, |ds|, dll, entry);
    EndMark(mem, t.rva + 20 * |ds| + 20);
    AddressesFit(plan, |ds|, dll, entry, plan.newImageSize);
    SectionParts(mem, plan, bytes, |ds|, dll, entry);
    AddedStands(mem, t, |ds|, |entry|);
    forall j | 0 <= j <= |ds| ensures DescriptorStands(mem, t, j) {
      if j < |ds| {
        OldDescriptorStands(mem, image, ds, bytes, t, j);
      }
    }
    WalkableIs(mem, t, |ds|);
  }

  lemma WalkableIs(mem: seq<byte>, t: Table, last: nat)
    requires last < t.count && forall j :: 0 <= j <= last ==> DescriptorStands(mem, t, j)
    ensures Walkable(mem, t, 0, last)
  {
    hide DescriptorStands;
  }

  // ---- main result ----

  /** Main result: on the memory-mapped view of any rewritten file, for every size hint, a request
      for the lower-case dll name and the entry hits the slot at new section address + IAT offset.
      The scan sees the table exactly when the headers meet the scanner's own demands and the hint
      reaches the end of the table; it then finds what the old descriptors contribute, and behind
      it what the added one contributes, which is that slot exactly when both names are printable
      and the hint reaches their end. */
  lemma ScannerFindsAddedSlot(image: Image, dll: seq<byte>, entry: seq<byte>, plan: ImportPlan, out: seq<byte>,
                              mem: seq<byte>, hint: nat, requests: seq<Request>, resolve: Resolver, i: nat)
    requires Patches(image, dll, entry, plan, out)
    requires Descriptors(image).Ok? && Loaded(mem, out, plan, |Descriptors(image).value|)
    requires i < |requests| && IsLower(dll, requests[i].dll) && requests[i].entry == entry
    ensures Mapped(mem, hint)
    ensures var n := |Descriptors(image).value|;
            !TableSeen(image, plan, n, hint) ==> Scan(mem, hint, requests, resolve) == ScanResult([], [])
    ensures var n := |Descriptors(image).value|;
            && plan.newSectionRva + 20 * n + 20 <= |mem| && ScanLimit(plan, hint) <= |mem|
            && var t := Table(ScanLimit(plan, hint), plan.newSectionRva, n + 2);
            var old_, added := VisitsBefore(mem, t, n, requests, resolve).hits, Visit(mem, t.limit, t.rva + 20 * n, requests, resolve).hits;
            && (Hit(i, AddedSlot(plan, n)) in added
                <==> AllPrintable(dll) && AllPrintable(entry) && NamesEnd(plan, n, dll, entry) <= t.limit)
            && (TableSeen(image, plan, n, hint) ==> Scan(mem, hint, requests, resolve).hits == old_ + added)
  {
    hide *;
    LoweredExactly(dll, requests[i].dll);
    var ds := Descriptors(image).value;
    var n := |ds|;
    LoadedFacts(mem, out, plan, n);
    PatchExtends(image, dll, entry, plan, out);
    var table := ReadyBlobFor(image, dll, entry, plan);
    ReadyTableFits(image, dll, entry, plan, n);
    FindsTable(image, dll, entry, plan, out, mem, n, hint);
    LoadedSection(mem, out, plan, table, n, dll, entry);
    LimitBelow(plan, hint);
    var limit := ScanLimit(plan, hint);
    if NamesEnd(plan, n, dll, entry) <= limit {
      SmallerLimit(plan, n, dll, entry, limit);
      NewDescriptorVisit(mem, plan, table, n, dll, entry, limit, requests, resolve, i);
    } else {
      CutDescriptorVisit(mem, plan, table, n, dll, entry, limit, requests, resolve, i, AddedSlot(plan, n));
    }
    ScanOfTable(mem, image, plan, ds, table, dll, entry, hint, requests, resolve);
  }

  lemma LimitBelow(plan: ImportPlan, hint: nat)
    ensures ScanLimit(plan, hint) <= plan.newImageSize
  {
  }

  lemma SmallerLimit(plan: ImportPlan, n: nat, dll: seq<byte>, entry: seq<byte>, limit: nat)
    requires BelowLimit(plan, n, dll, entry, plan.newImageSize)
    requires NamesEnd(plan, n, dll, entry) <= limit <= plan.newImageSize
    ensures BelowLimit(plan, n, dll, entry, limit)
  {
    hide NamesEnd, IltOffset, HintOffset, NameOffset;
  }

  lemma LoadedFacts(mem: seq<byte>, out: seq<byte>, plan: ImportPlan, n: nat)
    requires Loaded(mem, out, plan, n)
    ensures plan.newImageSize <= |mem| && FIRST_PAGE <= |mem| && SameOn(mem, out, 0, plan.newHeaders)
    ensures AddedSlot(plan, n) + 8 <= |mem| && U64At(mem, AddedSlot(plan, n)) != 0
  {
  }

  lemma FindsTable(image: Image, dll: seq<byte>, entry: seq<byte>, plan: ImportPlan, out: seq<byte>, mem: seq<byte>, n: nat, hint: nat)
    requires Patches(image, dll, entry, plan, out) && FIRST_PAGE <= |mem| && SameOn(mem, out, 0, plan.newHeaders)
    requires TableFits(image, plan, n) && image.peOffset + 152 <= plan.newHeaders
    ensures FindTable(mem, hint)
            == if TableSeen(image, plan, n, hint) then Some(Table(ScanLimit(plan, hint), plan.newSectionRva, n + 2)) else None
  {
    hide Patches, TableFits, FindTable, SameOn, HeadersInMemory, HeaderError, SameIdentity, HasNewFields, HasSlot, IsSectionTable,
         TableSeen, ScanLimit;
    PatchFacts(image, dll, entry, plan, out);
    LoadedHeaders(mem, out, image, plan);
    TableFound(mem, image, plan, n, hint);
  }

  lemma ScanOfTable(mem: seq<byte>, image: Image, plan: ImportPlan, ds: seq<Descriptor>, table: seq<byte>, dll: seq<byte>, entry: seq<byte>,
                    hint: nat, requests: seq<Request>, resolve: Resolver)
    requires FIRST_PAGE <= |mem| && ScanLimit(plan, hint) <= |mem|
    requires FindTable(mem, hint)
             == if TableSeen(image, plan, |ds|, hint) then Some(Table(ScanLimit(plan, hint), plan.newSectionRva, |ds| + 2)) else None
    requires OffsetsInside(image, ds) && table == DescriptorBytes(image.data, ds)
    requires forall k :: 0 <= k < |ds| ==> Known(image, ds[k])
    requires SectionInMemory(mem, plan, table, |ds|, dll, entry)
    requires BelowLimit(plan, |ds|, dll, entry, plan.newImageSize)
    ensures Mapped(mem, hint)
    ensures !TableSeen(image, plan, |ds|, hint) ==> Scan(mem, hint, requests, resolve) == ScanResult([], [])
    ensures plan.newSectionRva + 20 * |ds| + 20 <= |mem|
    ensures TableSeen(image, plan, |ds|, hint) ==>
              var t := Table(ScanLimit(plan, hint), plan.newSectionRva, |ds| + 2);
              Scan(mem, hint, requests, resolve).hits
              == VisitsBefore(mem, t, |ds|, requests, resolve).hits + Visit(mem, t.limit, t.rva + 20 * |ds|, requests, resolve).hits
  {
    hide *;
    TableInMemory(mem, plan, table, |ds|, dll, entry);
    EndMark(mem, plan.newSectionRva + 20 * |ds| + 20);
    var t := Table(ScanLimit(plan, hint), plan.newSectionRva, |ds| + 2);
    if TableSeen(image, plan, |ds|, hint) {
      SeenBounds(image, plan, |ds|, hint);
      AllStand(mem, image, plan, ds, table, t, dll, entry);
      ScanVisits(mem, t, 0, |ds|, requests, resolve);
      VisitsSplit(mem, t, |ds|, requests, resolve);
      ScanIs(mem, hint, t, requests, resolve);
    } else {
      NoTable(mem, hint, requests, resolve);
    }
  }

  lemma SeenBounds(image: Image, plan: ImportPlan, n: nat, hint: nat)
    requires TableSeen(image, plan, n, hint)
    ensures plan.newSectionRva + 20 * n + 40 <= ScanLimit(plan, hint)
  {
  }

  lemma VisitsSplit(mem: seq<byte>, t: Table, n: nat, requests: seq<Request>, resolve: Resolver)
    requires t.limit <= |mem| && t.rva + 20 * n + 20 <= |mem|
    ensures VisitsBefore(mem, t, 0, requests, resolve) == ScanResult([], [])
    ensures VisitsBefore(mem, t, n + 1, requests, resolve).hits
            == VisitsBefore(mem, t, n, requests, resolve).hits + Visit(mem, t.limit, t.rva + 20 * n, requests, resolve).hits
  {
    hide Visit;
  }

  lemma ScanIs(mem: seq<byte>, hint: nat, t: Table, requests: seq<Request>, resolve: Resolver)
    requires FIRST_PAGE <= |mem| && FindTable(mem, hint) == Some(t) && t.limit <= |mem|
    ensures Mapped(mem, hint) && Scan(mem, hint, requests, resolve) == ScanFrom(mem, t, 0, requests, resolve, ScanResult([], []))
  {
    hide FindTable, ScanFrom;
  }

  lemma NoTable(mem: seq<byte>, hint: nat, requests: seq<Request>, resolve: Resolver)
    requires FIRST_PAGE <= |mem| && FindTable(mem, hint).None?
    ensures Mapped(mem, hint) && Scan(mem, hint, requests, resolve) == ScanResult([], [])
  {
    hide FindTable, ScanFrom;
  }
}
