/** Reading the import list of the rewritten file back: the old one, and the new DLL. */
module PatchedImports {
  import opened Bytes
  import opened Parse
  import opened Import
  import opened Rebuild
  import opened PatchedBytes
  import opened PatchedImage
  import opened PatchedContents

  // ---- the contents of the new section ----

  lemma {:induction false} DescriptorSlice(d: seq<byte>, ds: seq<Descriptor>, k: nat)
    requires forall j :: 0 <= j < |ds| ==> ds[j].offset + 20 <= |d|
    requires k < |ds|
    ensures DescriptorBytes(d, ds)[20 * k..20 * k + 20] == d[ds[k].offset..ds[k].offset + 20]
    decreases |ds|
  {
    if k < |ds| - 1 {
      var init := ds[..|ds| - 1];
      DescriptorSlice(d, init, k);
      assert DescriptorBytes(d, ds)[20 * k..20 * k + 20] == DescriptorBytes(d, init)[20 * k..20 * k + 20];
    }
  }

  /** The parts of the blob that a reader of the import table looks at. */
  lemma BlobParts(base: u32, table: seq<byte>, n: nat, entry: seq<byte>, dll: seq<byte>)
    requires |table| == 20 * n
    ensures var blob := Blob(base, table, n, entry, dll);
            && BlobLength(n, |entry|, |dll|) == |blob|
            && 20 * n + 40 <= IltOffset(n) && 20 * n + 40 <= |blob| && IatOffset(n) + 16 <= |blob|
            && blob[..20 * n + 20] == table + NewDescriptor(base, n, |entry|)
            && blob[20 * n + 20..20 * n + 40] == Zeros(20)
            && blob[IltOffset(n)..IltOffset(n) + 16] == Thunks(base, n)
            && blob[IatOffset(n)..IatOffset(n) + 16] == Thunks(base, n)
            && HintOffset(n) + |entry| + 3 <= NameOffset(n, |entry|)
            && NameOffset(n, |entry|) + |dll| < |blob|
            && blob[HintOffset(n) + 2..HintOffset(n) + 3 + |entry|] == entry + [0]
            && blob[NameOffset(n, |entry|)..NameOffset(n, |entry|) + |dll| + 1] == dll + [0]
  {
    BlobPieces(base, table, n, entry, dll);
    hide Blob, NewDescriptor, Thunks, IltOffset, PadEven;
    var head := table + NewDescriptor(base, n, |entry|);
    var p1 := Padded(head, IltOffset(n));
    var p2 := Thunks(base, n);
    var p3 := Padded([0, 0] + entry, PadEven(|entry| + 3));
    var p4 := Padded(dll, PadEven(|dll| + 1));
    PaddedParts(head, IltOffset(n), 20);
    PaddedParts([0, 0] + entry, PadEven(|entry| + 3), 1);
    PaddedParts(dll, PadEven(|dll| + 1), 1);
    FivePieces(p1, p2, p2, p3, p4);
  }

  lemma BlobPieces(base: u32, table: seq<byte>, n: nat, entry: seq<byte>, dll: seq<byte>)
    requires |table| == 20 * n
    ensures 20 * n + 40 <= IltOffset(n) && |entry| + 3 <= PadEven(|entry| + 3) && |dll| + 1 <= PadEven(|dll| + 1)
    ensures Blob(base, table, n, entry, dll)
            == Padded(table + NewDescriptor(base, n, |entry|), IltOffset(n)) + Thunks(base, n) + Thunks(base, n)
               + Padded([0, 0] + entry, PadEven(|entry| + 3)) + Padded(dll, PadEven(|dll| + 1))
    ensures BlobLength(n, |entry|, |dll|) == |Blob(base, table, n, entry, dll)|
  {
    OffsetBounds(n, |entry|, |dll|);
    hide NewDescriptor, Thunks, IltOffset, PadEven, Padded;
  }

  lemma PaddedParts(s: seq<byte>, n: nat, k: nat)
    requires |s| + k <= n
    ensures Padded(s, n)[..|s|] == s
    ensures Padded(s, n)[|s|..|s| + k] == Zeros(k)
    ensures Padded(s, n)[..|s| + k] == s + Zeros(k)
  {
  }

  lemma FivePieces(a: seq<byte>, b: seq<byte>, c: seq<byte>, d: seq<byte>, e: seq<byte>)
    ensures var s := a + b + c + d + e;
            && s[..|a|] == a
            && s[|a|..|a| + |b|] == b
            && s[|a| + |b|..|a| + |b| + |c|] == c
            && s[|a| + |b| + |c|..|a| + |b| + |c| + |d|] == d
            && s[|a| + |b| + |c| + |d|..] == e
  {
  }

  /** `out` holds `blob` at offset `at`. */
  ghost predicate Holds(out: seq<byte>, at: nat, blob: seq<byte>)
  {
    at + |blob| <= |out| && out[at..at + |blob|] == blob
  }

  lemma SectionHolds(image: Image, plan: ImportPlan)
    requires Layout(image, plan) && Rebuildable(image, plan)
    ensures Holds(Rebuilt(image, plan), NewRaw(image, Delta(image, plan)), plan.blob)
  {
    var at, out := NewRaw(image, Delta(image, plan)), Rebuilt(image, plan);
    hide *;
    SectionBehindHeaders(image, plan);
    forall j | 0 <= j < |plan.blob|
      ensures at + j < |out| && out[at + j] == plan.blob[j]
    {
      SectionByte(image, plan, j);
    }
    HoldsFromBytes(out, at, plan.blob);
  }

  lemma HoldsFromBytes(out: seq<byte>, at: nat, blob: seq<byte>)
    requires at <= |out| || blob != []
    requires forall j {:trigger blob[j]} :: 0 <= j < |blob| ==> at + j < |out| && out[at + j] == blob[j]
    ensures Holds(out, at, blob)
  {
    if blob != [] {
      var last := |blob| - 1;
      var b := blob[last];
      assert at + last < |out| && out[at + last] == b;
    }
  }

  lemma HeldByte(out: seq<byte>, at: nat, blob: seq<byte>, i: nat)
    requires Holds(out, at, blob) && i < |blob|
    ensures out[at + i] == blob[i]
  {
    assert out[at..at + |blob|][i] == blob[i];
  }

  lemma HeldField(out: seq<byte>, at: nat, blob: seq<byte>, i: nat)
    requires Holds(out, at, blob) && i + 4 <= |blob|
    ensures U32At(out, at + i) == U32At(blob, i)
  {
    FieldInSlice(out, at, blob, i);
  }

  /** A part of a held string is held. */
  lemma HeldPart(out: seq<byte>, at: nat, blob: seq<byte>, i: nat, part: seq<byte>)
    requires Holds(out, at, blob) && i + |part| <= |blob| && blob[i..i + |part|] == part
    ensures Holds(out, at + i, part)
  {
    forall j | 0 <= j < |part| ensures at + i + j < |out| && out[at + i + j] == part[j] {
      HeldByte(out, at, blob, i + j);
      assert part[j] == blob[i..i + |part|][j];
    }
    HoldsFromBytes(out, at + i, part);
  }

  // ---- names ----

  lemma {:induction false} StringGrows(d: seq<byte>, start: nat, done: seq<byte>)
    ensures |done| <= |StringFrom(d, start, done)|
    ensures |StringFrom(d, start, done)| <= Max(|done|, MAX_NAME_BYTES)
    decreases MAX_NAME_BYTES - |done|
  {
    if |done| < MAX_NAME_BYTES && start + |done| < |d| && d[start + |done|] != 0 {
      StringGrows(d, start, done + [d[start + |done|]]);
    }
  }

  /** How many bytes are looked at to read a name of `n` bytes. */
  function Scanned(n: nat): nat
  {
    if n < MAX_NAME_BYTES then n + 1 else n
  }

  /** Equal bytes give equal names. */
  lemma {:induction false} SameString(d: seq<byte>, a: nat, e: seq<byte>, shift: nat, n: nat, done: seq<byte>)
    requires SameShifted(d, e, a, a + n, shift) && Scanned(|StringFrom(d, a, done)|) <= n
    ensures StringFrom(e, a + shift, done) == StringFrom(d, a, done)
    decreases MAX_NAME_BYTES - |done|
  {
    StringGrows(d, a, done);
    if |done| < MAX_NAME_BYTES {
      var i := a + |done|;
      assert d[i] == e[i + shift];
      if d[i] != 0 {
        SameString(d, a, e, shift, n, done + [d[i]]);
      }
    }
  }

  /** The name read at offset `a` lies in the section data, with its NUL, clear of the
      debug pointers that are rewritten. */
  ghost predicate NameMoves(image: Image, delta: u32, a: nat)
  {
    var n := Scanned(|StringFrom(image.data, a, [])|);
    && image.sizeOfHeaders <= a && a + n <= RawEnd(image)
    && forall o {:trigger Rewritten(image, delta, o)} :: a <= o < a + n ==> !Rewritten(image, delta, o)
  }

  lemma MovedString(out: seq<byte>, image: Image, delta: u32, a: nat)
    requires DataMoved(out, image, delta) && NameMoves(image, delta, a)
    ensures StringFrom(out, a + delta, []) == StringFrom(image.data, a, [])
  {
    hide StringFrom, Rewritten, RawEnd;
    var n := Scanned(|StringFrom(image.data, a, [])|);
    forall o | a <= o < a + n ensures image.data[o] == out[o + delta] {
      assert !Rewritten(image, delta, o);
    }
    SameString(image.data, a, out, delta, n, []);
  }

  /** What keeps the name of an old descriptor: it can be read, and moves with the section data; or it
      cannot be read, and the new section does not change that. */
  ghost predicate NameKept(image: Image, plan: ImportPlan, d: Descriptor)
  {
    && d.offset + 20 <= |image.data|
    && var rva := U32At(image.data, d.offset + 12);
    match RvaToOffset(image, rva)
    case Some(o) => NameMoves(image, Delta(image, plan), o)
    case None => NewMapping(image, plan, rva).None?
  }

  // ---- descriptors ----

  /** A descriptor of the old image is what stands at its offset. */
  ghost predicate Known(image: Image, d: Descriptor)
  {
    d.offset + 20 <= |image.data| && !IsNullDescriptor(image.data, d.offset) && d == DescriptorAt(image, d.offset)
  }

  lemma DescriptorsKnown(image: Image)
    requires Descriptors(image).Ok?
    ensures forall k :: 0 <= k < |Descriptors(image).value| ==> Known(image, Descriptors(image).value[k])
  {
    var ds := Descriptors(image).value;
    var dir := image.DataDir(DIR_IMPORT);
    if dir.Some? && dir.value.0 != 0 {
      var at := RvaToOffset(image, dir.value.0).value;
      hide DescriptorAt, IsNullDescriptor, RvaToOffset;
      ReadIsTable(image, at, [], ds);
      forall k | 0 <= k < |ds| ensures Known(image, ds[k]) {
        assert ds[k] == DescriptorAt(image, at + 20 * k);
        DescriptorOffset(image, at + 20 * k);
      }
    }
  }

  lemma DescriptorOffset(image: Image, at: nat)
    requires at + 20 <= |image.data|
    ensures DescriptorAt(image, at).offset == at
  {
  }

  /** The 20 bytes of a descriptor have been copied from `from` to `at`. */
  ghost predicate Copied(d: seq<byte>, from: nat, out: seq<byte>, at: nat)
  {
    && from + 20 <= |d| && at + 20 <= |out|
    && U32At(out, at) == U32At(d, from)
    && U32At(out, at + 12) == U32At(d, from + 12)
    && U32At(out, at + 16) == U32At(d, from + 16)
  }

  lemma TableCopied(out: seq<byte>, at: nat, d: seq<byte>, ds: seq<Descriptor>, k: nat)
    requires forall j :: 0 <= j < |ds| ==> ds[j].offset + 20 <= |d|
    requires Holds(out, at, DescriptorBytes(d, ds)) && k < |ds|
    ensures Copied(d, ds[k].offset, out, at + 20 * k)
  {
    var from := ds[k].offset;
    var part := d[from..from + 20];
    var table := DescriptorBytes(d, ds);
    assert |table| == 20 * |ds| && 20 * k + 20 <= |table| by { hide DescriptorBytes; }
    assert table[20 * k..20 * k + 20] == part by { DescriptorSlice(d, ds, k); }
    hide *;
    HeldPart(out, at, table, 20 * k, part);
    SliceHeld(d, from, part);
    SameHeldFields(d, from, out, at + 20 * k, part);
  }

  lemma SliceHeld(d: seq<byte>, from: nat, part: seq<byte>)
    requires from + |part| <= |d| && part == d[from..from + |part|]
    ensures Holds(d, from, part)
  {
  }

  lemma SameHeldFields(d: seq<byte>, from: nat, out: seq<byte>, at: nat, part: seq<byte>)
    requires |part| == 20 && Holds(d, from, part) && Holds(out, at, part)
    ensures Copied(d, from, out, at)
  {
    assert from + 20 <= |d| && at + 20 <= |out|;
    hide U32At, Holds;
    HeldField(d, from, part, 0);
    HeldField(d, from, part, 12);
    HeldField(d, from, part, 16);
    HeldField(out, at, part, 0);
    HeldField(out, at, part, 12);
    HeldField(out, at, part, 16);
  }

  /** What the name of an old descriptor is read as in the rewritten file. */
  function NewName(out: seq<byte>, image: Image, plan: ImportPlan, d: Descriptor): seq<byte>
    requires d.offset + 20 <= |image.data|
  {
    match NewMapping(image, plan, U32At(image.data, d.offset + 12))
    case None => []
    case Some(o) => StringFrom(out, o, [])
  }

  lemma CopiedNewName(image: Image, after: Image, plan: ImportPlan, d: Descriptor, at: nat)
    requires Copied(image.data, d.offset, after.data, at)
    requires var rva := U32At(image.data, d.offset + 12); RvaToOffset(after, rva) == NewMapping(image, plan, rva)
    ensures DescriptorAt(after, at).dll == NewName(after.data, image, plan, d)
  {
    hide U32At, RvaToOffset, NewMapping, StringFrom;
  }

  /** Entry `r` has the fields of `d` that are no name. */
  predicate SameThunks(r: Descriptor, d: Descriptor, at: nat)
  {
    r == d.(dll := r.dll, offset := at)
  }

  lemma CopiedThunks(image: Image, after: Image, d: Descriptor, at: nat)
    requires Known(image, d) && Copied(image.data, d.offset, after.data, at)
    ensures SameThunks(DescriptorAt(after, at), d, at) && !IsNullDescriptor(after.data, at)
  {
    hide U32At, AnsiString;
  }

  /** The name of a copied descriptor reads as before. */
  lemma CopiedName(image: Image, after: Image, plan: ImportPlan, d: Descriptor, at: nat)
    requires Known(image, d) && Copied(image.data, d.offset, after.data, at)
    requires NameKept(image, plan, d) && DataMoved(after.data, image, Delta(image, plan))
    requires var rva := U32At(image.data, d.offset + 12); RvaToOffset(after, rva) == NewMapping(image, plan, rva)
    ensures DescriptorAt(after, at).dll == d.dll
  {
    hide U32At, RvaToOffset, NameMoves, DataMoved, StringFrom, Delta, NewRaw;
    var o := RvaToOffset(image, U32At(image.data, d.offset + 12));
    if o.Some? {
      MovedString(after.data, image, Delta(image, plan), o.value);
    }
  }

  // ---- the new descriptor ----

  lemma NewDescriptorFields(base: u32, n: nat, entryLen: nat)
    ensures var s := NewDescriptor(base, n, entryLen);
            && U32At(s, 0) == Wrap32(base + IltOffset(n))
            && U32At(s, 12) == Wrap32(base + NameOffset(n, entryLen))
            && U32At(s, 16) == Wrap32(base + IatOffset(n))
  {
    var ilt, name, iat := Wrap32(base + IltOffset(n)), Wrap32(base + NameOffset(n, entryLen)), Wrap32(base + IatOffset(n));
    var s := NewDescriptor(base, n, entryLen);
    hide IltOffset, IatOffset, NameOffset, LE32, U32At;
    var p1 := LE32(ilt) + Zeros(8);
    var p2 := p1 + LE32(name);
    assert s == p2 + LE32(iat) + [];
    SlotField(s, [], ilt, Zeros(8) + LE32(name) + LE32(iat));
    SlotField(s, p1, name, LE32(iat));
    SlotField(s, p2, iat, []);
  }

  lemma NewAddress(image: Image, plan: ImportPlan, x: nat)
    requires NewSectionMapped(image, plan) && x < plan.newSectionRawSize
    ensures plan.newSectionRva + x < LIMIT32
    ensures NewMapping(image, plan, plan.newSectionRva + x) == Some(NewRaw(image, Delta(image, plan)) + x)
  {
    OldSectionsEnd(image.sections, image.sizeOfImage, plan.newSectionRva + x);
  }

  /** The rewritten image: its mapping and the contents of its new section. */
  ghost predicate Extended(after: Image, image: Image, plan: ImportPlan)
  {
    && NewSectionMapped(image, plan)
    && |plan.blob| <= plan.newSectionRawSize
    && Holds(after.data, NewRaw(image, Delta(image, plan)), plan.blob)
    && forall rva: u32 :: RvaToOffset(after, rva) == NewMapping(image, plan, rva)
  }

  /** The blob that the plan carries, for `n` old descriptors. */
  ghost predicate BlobFor(blob: seq<byte>, base: u32, table: seq<byte>, n: nat, dll: seq<byte>, entry: seq<byte>)
  {
    && |table| == 20 * n && NameAccepted(dll) && NameAccepted(entry)
    && blob == Blob(base, table, n, entry, dll)
  }

  lemma NoNul(name: seq<byte>)
    requires NameAccepted(name)
    ensures |name| < MAX_NAME_BYTES && forall i :: 0 <= i < |name| ==> name[i] != 0
  {
    forall i | 0 <= i < |name| ensures name[i] != 0 {
      assert name[i] in name;
    }
  }

  lemma ExtendedFacts(after: Image, image: Image, plan: ImportPlan, rva: u32)
    requires Extended(after, image, plan)
    ensures NewSectionMapped(image, plan) && |plan.blob| <= plan.newSectionRawSize
    ensures Holds(after.data, NewRaw(image, Delta(image, plan)), plan.blob)
    ensures RvaToOffset(after, rva) == NewMapping(image, plan, rva)
  {
  }

  lemma BlobForFacts(blob: seq<byte>, base: u32, table: seq<byte>, n: nat, dll: seq<byte>, entry: seq<byte>)
    requires BlobFor(blob, base, table, n, dll, entry)
    ensures |table| == 20 * n && NameAccepted(dll) && NameAccepted(entry)
    ensures blob == Blob(base, table, n, entry, dll)
  {
    hide Blob, NameAccepted;
  }

  lemma AnsiFromMapping(after: Image, rva: u32, at: nat)
    requires RvaToOffset(after, rva) == Some(at)
    ensures AnsiString(after, rva) == Some(StringFrom(after.data, at, []))
  {
  }

  lemma DllNameRead(after: Image, image: Image, plan: ImportPlan, table: seq<byte>, n: nat, dll: seq<byte>, entry: seq<byte>)
    requires Extended(after, image, plan) && BlobFor(plan.blob, plan.newSectionRva, table, n, dll, entry)
    ensures var name := NameOffset(n, |entry|);
            plan.newSectionRva + name < LIMIT32 && AnsiString(after, plan.newSectionRva + name) == Some(dll)
  {
    hide *;
    var name := NameOffset(n, |entry|);
    var at := NewRaw(image, Delta(image, plan));
    ExtendedFacts(after, image, plan, 0);
    BlobForFacts(plan.blob, plan.newSectionRva, table, n, dll, entry);
    BlobParts(plan.newSectionRva, table, n, entry, dll);
    NoNul(dll);
    NewAddress(image, plan, name);
    ExtendedFacts(after, image, plan, plan.newSectionRva + name);
    HeldPart(after.data, at, plan.blob, name, dll + [0]);
    HeldString(after.data, at + name, dll);
    AnsiFromMapping(after, plan.newSectionRva + name, at + name);
  }

  lemma HeldString(d: seq<byte>, at: nat, s: seq<byte>)
    requires Holds(d, at, s + [0]) && |s| < MAX_NAME_BYTES && forall i :: 0 <= i < |s| ==> s[i] != 0
    ensures StringFrom(d, at, []) == s
  {
    forall i | 0 <= i < |s| ensures d[at + i] == s[i] {
      HeldByte(d, at, s + [0], i);
    }
    HeldByte(d, at, s + [0], |s|);
    assert (s + [0])[|s|] == 0;
    StringFromMeaning(d, at, [], s);
  }

  /** The new descriptor and the null descriptor behind it, as bytes. */
  lemma NewDescriptorHeld(after: Image, image: Image, plan: ImportPlan, table: seq<byte>, n: nat, dll: seq<byte>, entry: seq<byte>)
    requires Extended(after, image, plan) && BlobFor(plan.blob, plan.newSectionRva, table, n, dll, entry)
    ensures var at := NewRaw(image, Delta(image, plan));
            && Holds(after.data, at, table)
            && Holds(after.data, at + |table|, NewDescriptor(plan.newSectionRva, n, |entry|))
            && Holds(after.data, at + |table| + 20, Zeros(20))
  {
    hide *;
    var at := NewRaw(image, Delta(image, plan));
    ExtendedFacts(after, image, plan, 0);
    BlobForFacts(plan.blob, plan.newSectionRva, table, n, dll, entry);
    BlobParts(plan.newSectionRva, table, n, entry, dll);
    var new_ := NewDescriptor(plan.newSectionRva, n, |entry|);
    HeldPart(after.data, at, plan.blob, 20 * n + 20, Zeros(20));
    var head := table + new_;
    assert plan.blob[0..0 + |head|] == head;
    HeldPart(after.data, at, plan.blob, 0, head);
    assert head[0..0 + |table|] == table && head[|table|..|table| + 20] == new_;
    HeldPart(after.data, at, head, 0, table);
    HeldPart(after.data, at, head, |table|, new_);
  }

  lemma NullHeld(d: seq<byte>, at: nat)
    requires Holds(d, at, Zeros(20))
    ensures at + 20 <= |d| && IsNullDescriptor(d, at)
  {
    HeldField(d, at, Zeros(20), 0);
    HeldField(d, at, Zeros(20), 12);
    HeldField(d, at, Zeros(20), 16);
    ZeroField32(Zeros(20), 0);
    ZeroField32(Zeros(20), 12);
    ZeroField32(Zeros(20), 16);
  }

  /** The descriptor that the plan adds, behind `n` others from `at` on. */
  function AddedDescriptor(plan: ImportPlan, n: nat, at: nat): Descriptor
  {
    Descriptor(plan.dll, Wrap32(plan.newSectionRva + IltOffset(n)), Wrap32(plan.newSectionRva + IatOffset(n)), at + 20 * n)
  }

  lemma OffsetsInBlob(image: Image, plan: ImportPlan, table: seq<byte>, n: nat, dll: seq<byte>, entry: seq<byte>)
    requires NewSectionMapped(image, plan) && |plan.blob| <= plan.newSectionRawSize
    requires BlobFor(plan.blob, plan.newSectionRva, table, n, dll, entry)
    ensures && 0 < plan.newSectionRva + IltOffset(n) < LIMIT32
            && plan.newSectionRva + IatOffset(n) + 16 < LIMIT32
            && plan.newSectionRva + NameOffset(n, |entry|) < LIMIT32
  {
    BlobParts(plan.newSectionRva, table, n, entry, dll);
  }

  lemma AddedDescriptorRead(after: Image, image: Image, plan: ImportPlan, table: seq<byte>, n: nat, dll: seq<byte>, entry: seq<byte>)
    requires Extended(after, image, plan) && BlobFor(plan.blob, plan.newSectionRva, table, n, dll, entry)
    requires plan.dll == dll
    ensures var at := NewRaw(image, Delta(image, plan));
            && at + 20 * n + 40 <= |after.data|
            && DescriptorAt(after, at + 20 * n) == AddedDescriptor(plan, n, at)
            && !IsNullDescriptor(after.data, at + 20 * n)
            && IsNullDescriptor(after.data, at + 20 * n + 20)
  {
    var at := NewRaw(image, Delta(image, plan));
    hide *;
    ExtendedFacts(after, image, plan, 0);
    BlobForFacts(plan.blob, plan.newSectionRva, table, n, dll, entry);
    OffsetsInBlob(image, plan, table, n, dll, entry);
    var name := plan.newSectionRva + NameOffset(n, |entry|);
    NewDescriptorHeld(after, image, plan, table, n, dll, entry);
    DllNameRead(after, image, plan, table, n, dll, entry);
    NewDescriptorFields(plan.newSectionRva, n, |entry|);
    FieldsHeld(after.data, at + 20 * n, NewDescriptor(plan.newSectionRva, n, |entry|));
    NullHeld(after.data, at + 20 * n + 20);
    DescriptorFromFields(after, at + 20 * n, dll, Wrap32(plan.newSectionRva + IltOffset(n)), name,
                         Wrap32(plan.newSectionRva + IatOffset(n)));
    AddedIs(plan, n, at);
  }

  lemma AddedIs(plan: ImportPlan, n: nat, at: nat)
    ensures AddedDescriptor(plan, n, at)
            == Descriptor(plan.dll, Wrap32(plan.newSectionRva + IltOffset(n)), Wrap32(plan.newSectionRva + IatOffset(n)), at + 20 * n)
  {
  }

  lemma FieldsHeld(d: seq<byte>, at: nat, s: seq<byte>)
    requires |s| == 20 && Holds(d, at, s)
    ensures at + 20 <= |d|
    ensures U32At(d, at) == U32At(s, 0) && U32At(d, at + 12) == U32At(s, 12) && U32At(d, at + 16) == U32At(s, 16)
  {
    HeldField(d, at, s, 0);
    HeldField(d, at, s, 12);
    HeldField(d, at, s, 16);
  }

  lemma DescriptorFromFields(after: Image, at: nat, dll: seq<byte>, thunks: u32, name: u32, addresses: u32)
    requires at + 20 <= |after.data| && thunks != 0
    requires U32At(after.data, at) == thunks && U32At(after.data, at + 12) == name && U32At(after.data, at + 16) == addresses
    requires AnsiString(after, name) == Some(dll)
    ensures DescriptorAt(after, at) == Descriptor(dll, thunks, addresses, at)
    ensures !IsNullDescriptor(after.data, at)
  {
    hide U32At, AnsiString;
  }

  // ---- the whole list ----

  /** Old descriptor `d` is entry `k` of the table at `at`. */
  ghost predicate Stands(after: Image, at: nat, k: nat, image: Image, plan: ImportPlan, d: Descriptor)
  {
    && at + 20 * k + 20 <= |after.data| && !IsNullDescriptor(after.data, at + 20 * k)
    && SameThunks(DescriptorAt(after, at + 20 * k), d, at + 20 * k)
    && d.offset + 20 <= |image.data| && DescriptorAt(after, at + 20 * k).dll == NewName(after.data, image, plan, d)
    && (NameKept(image, plan, d) ==> DescriptorAt(after, at + 20 * k).dll == d.dll)
  }

  /** The old descriptors at their new place, then the added one. */
  ghost predicate Appended(list: seq<Descriptor>, ds: seq<Descriptor>, image: Image, plan: ImportPlan, out: seq<byte>, at: nat)
  {
    && |list| == |ds| + 1 && list[|ds|] == AddedDescriptor(plan, |ds|, at)
    && forall k :: 0 <= k < |ds| ==>
         && SameThunks(list[k], ds[k], at + 20 * k)
         && ds[k].offset + 20 <= |image.data| && list[k].dll == NewName(out, image, plan, ds[k])
         && (NameKept(image, plan, ds[k]) ==> list[k].dll == ds[k].dll)
  }

  lemma CopiedInside(d: seq<byte>, from: nat, out: seq<byte>, at: nat)
    requires Copied(d, from, out, at)
    ensures at + 20 <= |out|
  {
  }

  lemma StandsIs(after: Image, at: nat, k: nat, image: Image, plan: ImportPlan, d: Descriptor)
    requires at + 20 * k + 20 <= |after.data| && !IsNullDescriptor(after.data, at + 20 * k)
    requires SameThunks(DescriptorAt(after, at + 20 * k), d, at + 20 * k)
    requires d.offset + 20 <= |image.data| && DescriptorAt(after, at + 20 * k).dll == NewName(after.data, image, plan, d)
    requires NameKept(image, plan, d) ==> DescriptorAt(after, at + 20 * k).dll == d.dll
    ensures Stands(after, at, k, image, plan, d)
  {
  }

  lemma KnownInside(image: Image, d: Descriptor)
    requires Known(image, d)
    ensures d.offset + 20 <= |image.data|
  {
    hide DescriptorAt, IsNullDescriptor;
  }

  lemma OldDescriptorRead(after: Image, image: Image, plan: ImportPlan, ds: seq<Descriptor>, table: seq<byte>, k: nat)
    requires Extended(after, image, plan) && DataMoved(after.data, image, Delta(image, plan))
    requires OffsetsInside(image, ds) && table == DescriptorBytes(image.data, ds) && k < |ds|
    requires Holds(after.data, NewRaw(image, Delta(image, plan)), table) && Known(image, ds[k])
    ensures Stands(after, NewRaw(image, Delta(image, plan)), k, image, plan, ds[k])
  {
    hide *;
    var base, d := NewRaw(image, Delta(image, plan)), ds[k];
    KnownInside(image, d);
    TableOfCopied(after.data, base, image, ds, table, k);
    CopiedInside(image.data, d.offset, after.data, base + 20 * k);
    ExtendedFacts(after, image, plan, U32At(image.data, d.offset + 12));
    CopiedThunks(image, after, d, base + 20 * k);
    CopiedNewName(image, after, plan, d, base + 20 * k);
    if NameKept(image, plan, d) {
      CopiedName(image, after, plan, d, base + 20 * k);
    }
    StandsIs(after, base, k, image, plan, d);
  }

  lemma TableOfCopied(out: seq<byte>, at: nat, image: Image, ds: seq<Descriptor>, table: seq<byte>, k: nat)
    requires OffsetsInside(image, ds) && table == DescriptorBytes(image.data, ds)
    requires Holds(out, at, table) && k < |ds|
    ensures Copied(image.data, ds[k].offset, out, at + 20 * k)
  {
    hide DescriptorBytes, Holds, Copied;
    TableCopied(out, at, image.data, ds, k);
  }

  lemma TableFromParts(after: Image, at: nat, image: Image, plan: ImportPlan, ds: seq<Descriptor>) returns (list: seq<Descriptor>)
    requires forall k :: 0 <= k < |ds| ==> Stands(after, at, k, image, plan, ds[k])
    requires at + 20 * |ds| + 40 <= |after.data|
    requires DescriptorAt(after, at + 20 * |ds|) == AddedDescriptor(plan, |ds|, at) && !IsNullDescriptor(after.data, at + 20 * |ds|)
    requires IsNullDescriptor(after.data, at + 20 * |ds| + 20)
    ensures IsImportTable(after, at, list) && Appended(list, ds, image, plan, after.data, at)
  {
    hide IsNullDescriptor, DescriptorAt, SameThunks, NameKept, AddedDescriptor, NewName;
    list := seq(|ds| + 1, k requires 0 <= k <= |ds| => DescriptorAt(after, at + 20 * k));
    forall k | 0 <= k < |ds|
      ensures !IsNullDescriptor(after.data, at + 20 * k) && SameThunks(list[k], ds[k], at + 20 * k)
      ensures ds[k].offset + 20 <= |image.data| && list[k].dll == NewName(after.data, image, plan, ds[k])
      ensures NameKept(image, plan, ds[k]) ==> list[k].dll == ds[k].dll
    {
      assert Stands(after, at, k, image, plan, ds[k]);
    }
  }

  /** The table in the new section: the old descriptors, the added one, and the end mark. */
  lemma NewTable(after: Image, image: Image, plan: ImportPlan, ds: seq<Descriptor>, table: seq<byte>, dll: seq<byte>, entry: seq<byte>)
    returns (list: seq<Descriptor>)
    requires Extended(after, image, plan) && DataMoved(after.data, image, Delta(image, plan))
    requires OffsetsInside(image, ds) && plan.dll == dll && table == DescriptorBytes(image.data, ds)
    requires BlobFor(plan.blob, plan.newSectionRva, table, |ds|, dll, entry)
    requires forall k :: 0 <= k < |ds| ==> Known(image, ds[k])
    ensures var at := NewRaw(image, Delta(image, plan)); IsImportTable(after, at, list) && Appended(list, ds, image, plan, after.data, at)
  {
    hide *;
    var at := NewRaw(image, Delta(image, plan));
    NewDescriptorHeld(after, image, plan, table, |ds|, dll, entry);
    AddedDescriptorRead(after, image, plan, table, |ds|, dll, entry);
    forall k | 0 <= k < |ds| ensures Stands(after, at, k, image, plan, ds[k]) {
      OldDescriptorRead(after, image, plan, ds, table, k);
    }
    list := TableFromParts(after, at, image, plan, ds);
  }

  /** A table with more than 4096 entries is refused. */
  lemma {:induction false} TableTooLong(image: Image, start: nat, done: seq<Descriptor>, ds: seq<Descriptor>)
    requires done <= ds && |done| <= MAX_DESCRIPTORS < |ds| && AreDescriptors(image, start, ds)
    ensures DescriptorsFrom(image, start, done) == Err(Malformed(TooManyDescriptors))
    decreases MAX_DESCRIPTORS - |done|
  {
    hide IsNullDescriptor, DescriptorAt;
    var at := start + 20 * |done|;
    assert ds[|done|] == DescriptorAt(image, at) && !IsNullDescriptor(image.data, at);
    if |done| < MAX_DESCRIPTORS {
      TableTooLong(image, start, done + [DescriptorAt(image, at)], ds);
    }
  }

  lemma NewDirectory(out: seq<byte>, image: Image, plan: ImportPlan)
    requires HasNewFields(out, image, plan) && image.numRvaAndSizes >= 2
    ensures PatchedAs(out, image, plan).DataDir(DIR_IMPORT).Some?
    ensures PatchedAs(out, image, plan).DataDir(DIR_IMPORT).value.0 == plan.newSectionRva
  {
    hide U32At, U16At, MovedAll, NewSection;
  }

  lemma TableDecides(after: Image, rva: u32, at: nat, ds: seq<Descriptor>)
    requires after.DataDir(DIR_IMPORT).Some? && after.DataDir(DIR_IMPORT).value.0 == rva != 0
    requires RvaToOffset(after, rva) == Some(at) && IsImportTable(after, at, ds)
    ensures Descriptors(after) == if |ds| <= MAX_DESCRIPTORS then Ok(ds) else Err(Malformed(TooManyDescriptors))
  {
    hide RvaToOffset, DescriptorAt, IsNullDescriptor;
    if |ds| <= MAX_DESCRIPTORS {
      TableIsRead(after, at, [], ds);
    } else {
      TableTooLong(after, at, [], ds);
    }
  }

  // ---- main results ----

  lemma ReadyPositive(image: Image, dll: seq<byte>, entry: seq<byte>, plan: ImportPlan)
    requires Ready(image, dll, entry, plan)
    ensures 0 < plan.newHeaders <= plan.newSectionRva
    ensures forall s :: s in image.sections ==> plan.newHeaders <= s.virtualAddress
  {
    hide Descriptors, Refusal, FitsIn32, ParseSpec, AlignUp32;
    PlanChecks(image, dll, entry, plan);
    PlanMeaning(image, dll, entry, plan);
    ReadyLayout(image, dll, entry, plan);
    ReadyNewSection(image, dll, entry, plan);
    var s := image.sections[0];
    assert s in image.sections && s.virtualAddress <= s.RvaEnd() <= plan.newSectionRva;
  }

  /** What the list theorem needs to know of the plan. */
  lemma ReadyBlobFor(image: Image, dll: seq<byte>, entry: seq<byte>, plan: ImportPlan) returns (table: seq<byte>)
    requires Ready(image, dll, entry, plan)
    ensures Descriptors(image).Ok? && plan.dll == dll
    ensures var ds := Descriptors(image).value;
            && OffsetsInside(image, ds) && |ds| <= MAX_DESCRIPTORS
            && table == DescriptorBytes(image.data, ds)
            && BlobFor(plan.blob, plan.newSectionRva, table, |ds|, dll, entry)
    ensures |plan.blob| <= plan.newSectionRawSize
    ensures forall k :: 0 <= k < |Descriptors(image).value| ==> Known(image, Descriptors(image).value[k])
  {
    hide Descriptors, Refusal, FitsIn32, ParseSpec, AlignUp32, Known, Blob, NameAccepted, NewHeaders, NewSectionRva;
    PlanMeaning(image, dll, entry, plan);
    ReadyDataLayout(image, dll, entry, plan);
    DescriptorsKnown(image);
    table := DescriptorBytes(image.data, Descriptors(image).value);
  }

  lemma PatchExtends(image: Image, dll: seq<byte>, entry: seq<byte>, plan: ImportPlan, out: seq<byte>)
    requires Patches(image, dll, entry, plan, out)
    ensures Ready(image, dll, entry, plan)
    ensures Extended(PatchedAs(out, image, plan), image, plan)
    ensures DataMoved(PatchedAs(out, image, plan).data, image, Delta(image, plan))
    ensures HasNewFields(out, image, plan) && image.numRvaAndSizes >= 2
  {
    assert Ready(image, dll, entry, plan) && Rebuildable(image, plan) && out == Rebuilt(image, plan);
    hide Ready, Patches, Rebuildable, Rebuilt, DataMoved, NewSectionMapped, Holds, NewMapping, RvaToOffset, IsPatched, NewRaw, Delta,
         HasNewFields, MovedAll, NewSection, ParseSpec, DataFits;
    PatchFacts(image, dll, entry, plan, out);
    ReadyLayout(image, dll, entry, plan);
    PatchedFieldsOf(out, image, plan);
    SectionHolds(image, plan);
    ReadyDataLayout(image, dll, entry, plan);
    forall rva: u32 ensures RvaToOffset(PatchedAs(out, image, plan), rva) == NewMapping(image, plan, rva) {
      AddressSpace(image, dll, entry, plan, out, rva);
    }
  }

  lemma PatchedFieldsOf(out: seq<byte>, image: Image, plan: ImportPlan)
    requires IsPatched(out, image, plan)
    ensures HasNewFields(out, image, plan)
  {
  }

  lemma PatchedData(out: seq<byte>, image: Image, plan: ImportPlan)
    ensures PatchedAs(out, image, plan).data == out
  {
  }

  /** The list as read, or the refusal at the cap. */
  lemma ImportsRead(image: Image, dll: seq<byte>, entry: seq<byte>, plan: ImportPlan, out: seq<byte>) returns (list: seq<Descriptor>)
    requires Patches(image, dll, entry, plan, out)
    ensures Descriptors(image).Ok? && plan.dll == dll
    ensures Appended(list, Descriptors(image).value, image, plan, out, NewRaw(image, Delta(image, plan)))
    ensures Descriptors(PatchedAs(out, image, plan))
            == if |list| <= MAX_DESCRIPTORS then Ok(list) else Err(Malformed(TooManyDescriptors))
  {
    hide *;
    var after := PatchedAs(out, image, plan);
    PatchExtends(image, dll, entry, plan, out);
    var table := ReadyBlobFor(image, dll, entry, plan);
    ReadyPositive(image, dll, entry, plan);
    list := NewTable(after, image, plan, Descriptors(image).value, table, dll, entry);
    NewDirectory(out, image, plan);
    ExtendedFacts(after, image, plan, plan.newSectionRva);
    NewAddress(image, plan, 0);
    PatchedData(out, image, plan);
    TableDecides(after, plan.newSectionRva, NewRaw(image, Delta(image, plan)), list);
  }

  /** Main result: reading the imports of the rewritten file gives the old list, with the same thunk
      addresses, followed by the new DLL. The name of an entry is what the new file holds where its
      address is mapped now; it is the same as before wherever it moves with the section data or
      could not be read. With 4096 descriptors already there, and only
      then, the reader's cap is exceeded and it refuses the file. */
  lemma ImportsAppended(image: Image, dll: seq<byte>, entry: seq<byte>, plan: ImportPlan, out: seq<byte>)
    requires Patches(image, dll, entry, plan, out)
    ensures Descriptors(image).Ok?
    ensures var ds, read := Descriptors(image).value, Descriptors(PatchedAs(out, image, plan));
            if |ds| < MAX_DESCRIPTORS then read.Ok? && Appended(read.value, ds, image, plan, out, NewRaw(image, Delta(image, plan)))
            else read == Err(Malformed(TooManyDescriptors))
  {
    hide *;
    var list := ImportsRead(image, dll, entry, plan, out);
    AppendedLength(list, image, plan, out);
  }

  lemma AppendedLength(list: seq<Descriptor>, image: Image, plan: ImportPlan, out: seq<byte>)
    requires Descriptors(image).Ok? && Appended(list, Descriptors(image).value, image, plan, out, NewRaw(image, Delta(image, plan)))
    ensures |list| == |Descriptors(image).value| + 1
  {
    hide SameThunks, NameKept, Descriptors, NewName;
  }

  /** When every name is kept, the old entries are what they were but for their place. */
  lemma NamesAppended(list: seq<Descriptor>, ds: seq<Descriptor>, image: Image, plan: ImportPlan, out: seq<byte>, at: nat)
    requires Appended(list, ds, image, plan, out, at) && forall k :: 0 <= k < |ds| ==> NameKept(image, plan, ds[k])
    ensures list == seq(|ds|, k requires 0 <= k < |ds| => ds[k].(offset := at + 20 * k)) + [AddedDescriptor(plan, |ds|, at)]
  {
    hide NameKept, AddedDescriptor, NewName;
  }

  lemma AddedIsImported(list: seq<Descriptor>, ds: seq<Descriptor>, image: Image, plan: ImportPlan, out: seq<byte>, at: nat, again: seq<byte>)
    requires Appended(list, ds, image, plan, out, at) && EqIgnoreAsciiCase(plan.dll, again)
    ensures Imports(list, again)
  {
    hide NameKept, SameThunks, EqIgnoreAsciiCase, NewName;
    assert list[|ds|].dll == plan.dll;
  }

  lemma HeadersInFile(image: Image, plan: ImportPlan)
    requires Layout(image, plan) && Rebuildable(image, plan)
    ensures HeaderLayout(image)
    ensures SlotEnd(image) <= plan.newHeaders <= |Rebuilt(image, plan)|
  {
    hide Rebuilt, RawInside;
  }

  lemma SlotReadableFrom(image: Image, plan: ImportPlan, out: seq<byte>)
    requires HeaderLayout(image) && SlotEnd(image) <= plan.newHeaders <= |out|
    ensures SlotReadable(PatchedAs(out, image, plan))
  {
    hide MovedAll, NewSection, Delta;
  }

  lemma PatchedSlotReadable(image: Image, plan: ImportPlan, out: seq<byte>)
    requires Layout(image, plan) && Rebuildable(image, plan) && out == Rebuilt(image, plan)
    ensures SlotReadable(PatchedAs(out, image, plan))
  {
    hide *;
    HeadersInFile(image, plan);
    SlotReadableFrom(image, plan, out);
  }

  lemma AlreadyThere(after: Image, again: seq<byte>, entry: seq<byte>)
    requires SlotReadable(after) && NameAccepted(again) && NameAccepted(entry)
    ensures Descriptors(after).Err? ==> PlanSpec(after, again, entry) == Err(Descriptors(after).error)
    ensures Descriptors(after).Ok? && Imports(Descriptors(after).value, again) ==>
              PlanSpec(after, again, entry) == Err(AlreadyImported(again))
  {
    hide Descriptors, Imports, NameAccepted, LooksPatchedByOther, NewHeaders, MinVirtualAddress, RawCheckFrom;
  }

  lemma HookSectionThere(image: Image, plan: ImportPlan, out: seq<byte>)
    ensures PatchedAs(out, image, plan).HasHookSection()
  {
    var sections := PatchedAs(out, image, plan).sections;
    assert sections[|image.sections|] == NewSection(image, plan);
    assert NewSection(image, plan) in sections;
  }

  /** Main result: injection is idempotent on every rewritten image. Applying any plan to it is
      refused; and planning the same DLL again, in any letter case and for any entry, is refused as
      already imported exactly when the old list was below the reader's cap, and as too long a
      list otherwise. */
  lemma InjectionIdempotent(image: Image, dll: seq<byte>, entry: seq<byte>, plan: ImportPlan, out: seq<byte>,
                            again: seq<byte>, entryAgain: seq<byte>, plan': ImportPlan)
    requires Patches(image, dll, entry, plan, out)
    requires SameLetters(dll, again) && GoodName(again) && GoodName(entryAgain)
    ensures Descriptors(image).Ok?
    ensures var after := PatchedAs(out, image, plan);
            && ParseSpec(out) == Ok(after)
            && SlotReadable(after)
            && PlanSpec(after, again, entryAgain)
               == Err(if |Descriptors(image).value| < MAX_DESCRIPTORS then AlreadyImported(again) else Malformed(TooManyDescriptors))
            && after.machine == MACHINE_AMD64 && after.HasHookSection()
            && ApplySpec(after, plan') == Err(AlreadyImported(plan'.dll))
  {
    SameLettersExactly(dll, again);
    GoodNameExactly(again);
    GoodNameExactly(entryAgain);
    var after := PatchedAs(out, image, plan);
    assert after.machine == image.machine;
    PatchedIsReadable(image, dll, entry, plan, out);
    HookSectionThere(image, plan, out);
    hide Patches, SlotReadable, PlanSpec, ParseSpec, PatchedAs, Appended, EqIgnoreAsciiCase, NameAccepted, Imports, SameLetters, GoodName,
         Descriptors, NewRaw, Delta;
    var list := ImportsRead(image, dll, entry, plan, out);
    AppendedLength(list, image, plan, out);
    PatchFacts(image, dll, entry, plan, out);
    AddedIsImported(list, Descriptors(image).value, image, plan, out, NewRaw(image, Delta(image, plan)), again);
    AlreadyThere(after, again, entryAgain);
  }

  lemma PatchedIsReadable(image: Image, dll: seq<byte>, entry: seq<byte>, plan: ImportPlan, out: seq<byte>)
    requires Patches(image, dll, entry, plan, out)
    ensures SlotReadable(PatchedAs(out, image, plan)) && image.machine == MACHINE_AMD64
  {
    assert Ready(image, dll, entry, plan) && Rebuildable(image, plan) && out == Rebuilt(image, plan);
    assert image.machine == MACHINE_AMD64;
    hide *;
    ReadyLayout(image, dll, entry, plan);
    PatchedSlotReadable(image, plan, out);
  }
}
