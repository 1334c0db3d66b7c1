/** The hook's own reader: it scans the import table of a module that is mapped in memory.
    `mem` is the memory from the module's base on; an address is an offset into it. */
module Iat {
  import opened Bytes
  import opened Import

  const FIRST_PAGE := 0x1000
  const MAX_LFANEW := 0xE00
  const MAX_NAME := 512
  const ORDINAL_FLAG := 0x8000_0000_0000_0000

  datatype Request = Request(dll: seq<byte>, entry: seq<byte>)

  datatype Hit = Hit(request: nat, slot: nat)

  datatype ScanResult = ScanResult(hits: seq<Hit>, modules: seq<seq<byte>>)

  /** What is known after the header checks: how far reads may go, and the table. */
  datatype Table = Table(limit: nat, rva: nat, count: nat)

  /** Address of an export in the module of that (lower-case) name, 0 when there is none. */
  type Resolver = (seq<byte>, seq<byte>) -> u64

  predicate InImage(size: nat, rva: nat, need: nat)
  {
    need != 0 && rva < size && rva + need <= size
  }

  predicate Printable(b: byte) { 0x20 <= b < 0x7F }

  // ---- names ----

  /** Printable bytes counted from `length` on, up to a NUL or `cap`. */
  function AsciiLength(mem: seq<byte>, start: nat, cap: nat, length: nat): Option<nat>
    requires length <= cap && start + cap <= |mem|
    decreases cap - length
  {
    if length == cap || mem[start + length] == 0 then Some(length)
    else if !Printable(mem[start + length]) then None
    else AsciiLength(mem, start, cap, length + 1)
  }

  lemma {:induction false} AsciiLengthBound(mem: seq<byte>, start: nat, cap: nat, length: nat)
    requires length <= cap && start + cap <= |mem|
    ensures AsciiLength(mem, start, cap, length).Some? ==> length <= AsciiLength(mem, start, cap, length).value <= cap
    decreases cap - length
  {
    if length < cap && mem[start + length] != 0 && Printable(mem[start + length]) {
      AsciiLengthBound(mem, start, cap, length + 1);
    }
  }

  function ReadAscii(mem: seq<byte>, size: nat, rva: nat): Option<seq<byte>>
    requires size <= |mem|
  {
    if rva == 0 || rva >= size then None
    else
      var cap := Min(size - rva, MAX_NAME);
      AsciiLengthBound(mem, rva, cap, 0);
      var length := AsciiLength(mem, rva, cap, 0);
      if length.None? || length.value == 0 || length.value >= MAX_NAME then None
      else Some(mem[rva..rva + length.value])
  }

  /** A printable NUL-terminated string is read, and no other. The NUL may lie behind the limit. */
  lemma {:induction false} AsciiLengthOf(mem: seq<byte>, start: nat, cap: nat, length: nat, s: seq<byte>)
    requires length <= |s| <= cap && start + cap <= |mem| && start + |s| + 1 <= |mem|
    requires mem[start..start + |s| + 1] == s + [0] && 0 !in s
    ensures AsciiLength(mem, start, cap, length)
            == if forall i :: length <= i < |s| ==> Printable(s[i]) then Some(|s|) else None
    decreases |s| - length
  {
    assert mem[start + length] == mem[start..start + |s| + 1][length] == (s + [0])[length];
    if length < |s| {
      assert s[length] in s;
      AsciiLengthOf(mem, start, cap, length + 1, s);
    }
  }

  lemma ReadAsciiOf(mem: seq<byte>, size: nat, rva: nat, s: seq<byte>)
    requires 0 < rva && rva + |s| <= size <= |mem| && rva + |s| + 1 <= |mem|
    requires mem[rva..rva + |s| + 1] == s + [0] && 0 !in s && 0 < |s| < MAX_NAME - 1
    ensures ReadAscii(mem, size, rva) == if forall i :: 0 <= i < |s| ==> Printable(s[i]) then Some(s) else None
  {
    AsciiLengthOf(mem, rva, Min(size - rva, MAX_NAME), 0, s);
    assert mem[rva..rva + |s|] == mem[rva..rva + |s| + 1][..|s|] == s;
  }

  /** A string that the limit cuts is not read whole. */
  lemma ReadAsciiCut(mem: seq<byte>, size: nat, rva: nat, n: nat)
    requires size <= |mem| && size < rva + n
    ensures ReadAscii(mem, size, rva).Some? ==> |ReadAscii(mem, size, rva).value| < n
  {
    if rva < size {
      AsciiLengthBound(mem, rva, Min(size - rva, MAX_NAME), 0);
    }
  }

  method ReadAsciiString(mem: seq<byte>, size: nat, rva: nat) returns (r: Option<seq<byte>>)
    requires size <= |mem|
    ensures r == ReadAscii(mem, size, rva)
  {
    if rva == 0 || rva >= size { return None; }
    var cap := Min(size - rva, MAX_NAME);
    var length: nat := 0;
    while length < cap
      invariant length <= cap
      invariant AsciiLength(mem, rva, cap, 0) == AsciiLength(mem, rva, cap, length)
    {
      var b := mem[rva + length];
      if b == 0 { break; }
      if !Printable(b) { return None; }
      length := length + 1;
    }
    if length == 0 || length >= MAX_NAME { return None; }
    return Some(mem[rva..rva + length]);
  }

  // ---- one descriptor ----

  /** Search by name, from thunk `index` on: the slot next to the first thunk whose name
      is `entry`, if the loader has filled it. */
  function SlotByName(mem: seq<byte>, size: nat, names: nat, slots: nat, entry: seq<byte>, index: nat): Option<nat>
    requires size <= |mem| && index <= MAX_NAME
    decreases MAX_NAME - index
  {
    if !InImage(size, names, (index + 1) * 8) then None
    else
      var thunk := U64At(mem, names + index * 8);
      if thunk == 0 then None
      else if thunk < ORDINAL_FLAG && ReadAscii(mem, size, (thunk % LIMIT32 + 2) % LIMIT32) == Some(entry) then
        if !InImage(size, slots, (index + 1) * 8) || U64At(mem, slots + index * 8) == 0 then None
        else Some(slots + index * 8)
      else if index + 1 > MAX_NAME then None
      else SlotByName(mem, size, names, slots, entry, index + 1)
  }

  /** Search by address, for tables without names. */
  function SlotByAddress(mem: seq<byte>, size: nat, slots: nat, target: u64, index: nat): Option<nat>
    requires size <= |mem| && index <= MAX_NAME
    decreases MAX_NAME - index
  {
    if !InImage(size, slots, (index + 1) * 8) then None
    else
      var value := U64At(mem, slots + index * 8);
      if value == 0 then None
      else if value == target then Some(slots + index * 8)
      else if index + 1 > MAX_NAME then None
      else SlotByAddress(mem, size, slots, target, index + 1)
  }

  function ThunkSlot(mem: seq<byte>, size: nat, names: nat, slots: nat, dll: seq<byte>, entry: seq<byte>, resolve: Resolver): Option<nat>
    requires size <= |mem|
  {
    if names != 0 then SlotByName(mem, size, names, slots, entry, 0)
    else if resolve(dll, entry) == 0 then None
    else SlotByAddress(mem, size, slots, resolve(dll, entry), 0)
  }

  method FindByName(mem: seq<byte>, size: nat, names: nat, slots: nat, entry: seq<byte>) returns (r: Option<nat>)
    requires size <= |mem|
    ensures r == SlotByName(mem, size, names, slots, entry, 0)
  {
    hide ReadAscii, U64At;
    var index: nat := 0;
    while InImage(size, names, (index + 1) * 8)
      invariant index <= MAX_NAME
      invariant SlotByName(mem, size, names, slots, entry, 0) == SlotByName(mem, size, names, slots, entry, index)
      decreases MAX_NAME - index
    {
      var thunk := U64At(mem, names + index * 8);
      if thunk == 0 { return None; }
      if thunk < ORDINAL_FLAG {
        var name := ReadAsciiString(mem, size, (thunk % LIMIT32 + 2) % LIMIT32);
        if name == Some(entry) {
          if !InImage(size, slots, (index + 1) * 8) { return None; }
          if U64At(mem, slots + index * 8) == 0 { return None; }
          return Some(slots + index * 8);
        }
      }
      if index + 1 > MAX_NAME { return None; }
      index := index + 1;
    }
    return None;
  }

  method FindByAddress(mem: seq<byte>, size: nat, slots: nat, target: u64) returns (r: Option<nat>)
    requires size <= |mem|
    ensures r == SlotByAddress(mem, size, slots, target, 0)
  {
    var index: nat := 0;
    while InImage(size, slots, (index + 1) * 8)
      invariant index <= MAX_NAME
      invariant SlotByAddress(mem, size, slots, target, 0) == SlotByAddress(mem, size, slots, target, index)
      decreases MAX_NAME - index
    {
      var value := U64At(mem, slots + index * 8);
      if value == 0 { return None; }
      if value == target { return Some(slots + index * 8); }
      if index + 1 > MAX_NAME { return None; }
      index := index + 1;
    }
    return None;
  }

  method FindThunkSlot(mem: seq<byte>, size: nat, names: nat, slots: nat, dll: seq<byte>, entry: seq<byte>, resolve: Resolver)
    returns (r: Option<nat>)
    requires size <= |mem|
    ensures r == ThunkSlot(mem, size, names, slots, dll, entry, resolve)
  {
    if names != 0 {
      r := FindByName(mem, size, names, slots, entry);
      return;
    }
    var target := resolve(dll, entry);
    if target == 0 { return None; }
    r := FindByAddress(mem, size, slots, target);
  }

  function Lowered(s: seq<byte>): (r: seq<byte>)
    ensures |r| == |s|
  {
    seq(|s|, i requires 0 <= i < |s| => Lower(s[i]))
  }

  /** The hits of one request, for a module named `dll` (lower case). */
  function RequestHit(mem: seq<byte>, size: nat, names: nat, slots: nat, dll: seq<byte>, requests: seq<Request>, i: nat, resolve: Resolver): seq<Hit>
    requires size <= |mem| && i < |requests|
  {
    if requests[i].dll != dll then []
    else match ThunkSlot(mem, size, names, slots, dll, requests[i].entry, resolve)
      case None => []
      case Some(slot) => [Hit(i, slot)]
  }

  /** The hits of the first `n` requests. */
  function RequestHits(mem: seq<byte>, size: nat, names: nat, slots: nat, dll: seq<byte>, requests: seq<Request>, n: nat, resolve: Resolver): seq<Hit>
    requires size <= |mem| && n <= |requests|
  {
    if n == 0 then []
    else RequestHits(mem, size, names, slots, dll, requests, n - 1, resolve)
         + RequestHit(mem, size, names, slots, dll, requests, n - 1, resolve)
  }

  /** What one descriptor contributes. */
  function Visit(mem: seq<byte>, size: nat, at: nat, requests: seq<Request>, resolve: Resolver): ScanResult
    requires size <= |mem| && at + 20 <= |mem|
  {
    var name := ReadAscii(mem, size, U32At(mem, at + 12));
    if name.None? then ScanResult([], [])
    else
      var dll := Lowered(name.value);
      ScanResult(RequestHits(mem, size, U32At(mem, at), U32At(mem, at + 16), dll, requests, |requests|, resolve), [dll])
  }

  // ---- the whole table ----

  function NtOffset(mem: seq<byte>): (r: Option<nat>)
    requires |mem| >= FIRST_PAGE
    ensures r.Some? ==> r.value <= MAX_LFANEW
  {
    if U16At(mem, 0) != 0x5A4D || U32At(mem, 0x3c) > MAX_LFANEW then None
    else if U32At(mem, U32At(mem, 0x3c)) != 0x4550 then None
    else Some(U32At(mem, 0x3c))
  }

  /** The header checks. `hint` 0 means that the image is trusted about its size. */
  function FindTable(mem: seq<byte>, hint: nat): Option<Table>
    requires |mem| >= FIRST_PAGE
  {
    if NtOffset(mem).None? then None
    else
      var nt := NtOffset(mem).value;
      var optional := U16At(mem, nt + 20);
      if U16At(mem, nt + 4) != 0x8664 || optional < 0xF0 then None
      else
        var image := U32At(mem, nt + 80);
        var limit := if hint == 0 then image else Min(image, hint);
        var rva, size := U32At(mem, nt + 144), U32At(mem, nt + 148);
        if limit == 0 || optional as int + 24 > limit then None
        else if U32At(mem, nt + 132) <= 1 || rva == 0 || size < 20 then None
        else if !InImage(limit, rva, Min(size, limit)) then None
        else Some(Table(limit, rva, size as int / 20))
  }

  /** All that the caller has to promise: the first page, and the image up to its limit. */
  predicate Mapped(mem: seq<byte>, hint: nat)
  {
    |mem| >= FIRST_PAGE && (FindTable(mem, hint).Some? ==> FindTable(mem, hint).value.limit <= |mem|)
  }

  predicate NullAt(mem: seq<byte>, at: nat)
    requires at + 20 <= |mem|
  {
    U32At(mem, at) == 0 && U32At(mem, at + 12) == 0 && U32At(mem, at + 16) == 0
  }

  /** The descriptors from number `k` on, added to what has been collected. */
  function ScanFrom(mem: seq<byte>, table: Table, k: nat, requests: seq<Request>, resolve: Resolver, done: ScanResult): ScanResult
    requires table.limit <= |mem| && k <= Max(table.count, 1)
    decreases Max(table.count, 1) - k
  {
    var at := table.rva + 20 * k;
    if k == Max(table.count, 1) || !InImage(table.limit, at, 20) || NullAt(mem, at) then done
    else
      var more := Visit(mem, table.limit, at, requests, resolve);
      ScanFrom(mem, table, k + 1, requests, resolve, ScanResult(done.hits + more.hits, done.modules + more.modules))
  }

  function Scan(mem: seq<byte>, hint: nat, requests: seq<Request>, resolve: Resolver): ScanResult
    requires Mapped(mem, hint)
  {
    var table := FindTable(mem, hint);
    if table.None? then ScanResult([], [])
    else ScanFrom(mem, table.value, 0, requests, resolve, ScanResult([], []))
  }

  method VisitDescriptor(mem: seq<byte>, size: nat, at: nat, requests: seq<Request>, resolve: Resolver) returns (r: ScanResult)
    requires size <= |mem| && at + 20 <= |mem|
    ensures r == Visit(mem, size, at, requests, resolve)
  {
    hide ReadAscii, ThunkSlot, U32At;
    var names, nameRva, slots := U32At(mem, at), U32At(mem, at + 12), U32At(mem, at + 16);
    var name := ReadAsciiString(mem, size, nameRva);
    if name.None? { return ScanResult([], []); }
    var dll := Lowered(name.value);
    var hits: seq<Hit> := [];
    for i := 0 to |requests|
      invariant hits == RequestHits(mem, size, names, slots, dll, requests, i, resolve)
    {
      if requests[i].dll != dll { continue; }
      var slot := FindThunkSlot(mem, size, names, slots, dll, requests[i].entry, resolve);
      if slot.Some? {
        hits := hits + [Hit(i, slot.value)];
      }
    }
    return ScanResult(hits, [dll]);
  }

  /** No byte outside the first page and `[0, limit)` is read: `Mapped` asks for no more. */
  method ScanModuleImports(mem: seq<byte>, hint: nat, requests: seq<Request>, resolve: Resolver) returns (r: ScanResult)
    requires Mapped(mem, hint)
    ensures r == Scan(mem, hint, requests, resolve)
  {
    r := ScanResult([], []);
    var found := FindTable(mem, hint);
    if found.None? { return; }
    var table := found.value;
    for k := 0 to Max(table.count, 1)
      invariant Scan(mem, hint, requests, resolve) == ScanFrom(mem, table, k, requests, resolve, r)
    {
      var at := table.rva + 20 * k;
      if !InImage(table.limit, at, 20) { return; }
      if NullAt(mem, at) { return; }
      var more := VisitDescriptor(mem, table.limit, at, requests, resolve);
      r := ScanResult(r.hits + more.hits, r.modules + more.modules);
    }
  }

  // ---- only mapped memory counts ----

  lemma SameField64(a: seq<byte>, b: seq<byte>, at: nat)
    requires at + 8 <= |a| && at + 8 <= |b| && SameOn(a, b, at, at + 8)
    ensures U64At(a, at) == U64At(b, at)
  {
    assert a[at..at + 8] == b[at..at + 8];
    SameValue(a, at, b, at, 8);
  }

  lemma {:induction false} SameAsciiLength(a: seq<byte>, b: seq<byte>, start: nat, cap: nat, length: nat)
    requires length <= cap && SameOn(a, b, 0, start + cap)
    ensures AsciiLength(a, start, cap, length) == AsciiLength(b, start, cap, length)
    decreases cap - length
  {
    if length < cap {
      assert a[start + length] == b[start + length];
      SameAsciiLength(a, b, start, cap, length + 1);
    }
  }

  lemma SameReadAscii(a: seq<byte>, b: seq<byte>, size: nat, rva: nat)
    requires SameOn(a, b, 0, size)
    ensures ReadAscii(a, size, rva) == ReadAscii(b, size, rva)
  {
    if rva < size {
      var cap := Min(size - rva, MAX_NAME);
      SameAsciiLength(a, b, rva, cap, 0);
      AsciiLengthBound(a, rva, cap, 0);
      var length := AsciiLength(a, rva, cap, 0);
      if length.Some? {
        SameSlices(a, b, rva, rva + length.value);
      }
    }
  }

  lemma {:induction false} SameSlotByName(a: seq<byte>, b: seq<byte>, size: nat, names: nat, slots: nat, entry: seq<byte>, index: nat)
    requires SameOn(a, b, 0, size) && index <= MAX_NAME
    ensures SlotByName(a, size, names, slots, entry, index) == SlotByName(b, size, names, slots, entry, index)
    decreases MAX_NAME - index
  {
    hide ReadAscii, U64At;
    if InImage(size, names, (index + 1) * 8) {
      SameField64(a, b, names + index * 8);
      var thunk := U64At(a, names + index * 8);
      SameReadAscii(a, b, size, (thunk % LIMIT32 + 2) % LIMIT32);
      if InImage(size, slots, (index + 1) * 8) {
        SameField64(a, b, slots + index * 8);
      }
      if index < MAX_NAME {
        SameSlotByName(a, b, size, names, slots, entry, index + 1);
      }
    }
  }

  lemma {:induction false} SameSlotByAddress(a: seq<byte>, b: seq<byte>, size: nat, slots: nat, target: u64, index: nat)
    requires SameOn(a, b, 0, size) && index <= MAX_NAME
    ensures SlotByAddress(a, size, slots, target, index) == SlotByAddress(b, size, slots, target, index)
    decreases MAX_NAME - index
  {
    hide U64At;
    if InImage(size, slots, (index + 1) * 8) {
      SameField64(a, b, slots + index * 8);
      if index < MAX_NAME {
        SameSlotByAddress(a, b, size, slots, target, index + 1);
      }
    }
  }

  lemma SameRequestHit(a: seq<byte>, b: seq<byte>, size: nat, names: nat, slots: nat, dll: seq<byte>, requests: seq<Request>, i: nat, resolve: Resolver)
    requires SameOn(a, b, 0, size) && i < |requests|
    ensures RequestHit(a, size, names, slots, dll, requests, i, resolve) == RequestHit(b, size, names, slots, dll, requests, i, resolve)
  {
    hide SlotByName, SlotByAddress;
    SameSlotByName(a, b, size, names, slots, requests[i].entry, 0);
    SameSlotByAddress(a, b, size, slots, resolve(dll, requests[i].entry), 0);
  }

  lemma {:induction false} SameRequestHits(a: seq<byte>, b: seq<byte>, size: nat, names: nat, slots: nat, dll: seq<byte>, requests: seq<Request>, n: nat, resolve: Resolver)
    requires SameOn(a, b, 0, size) && n <= |requests|
    ensures RequestHits(a, size, names, slots, dll, requests, n, resolve) == RequestHits(b, size, names, slots, dll, requests, n, resolve)
    decreases n
  {
    hide RequestHit;
    if n > 0 {
      SameRequestHits(a, b, size, names, slots, dll, requests, n - 1, resolve);
      SameRequestHit(a, b, size, names, slots, dll, requests, n - 1, resolve);
    }
  }

  lemma SameDescriptor(a: seq<byte>, b: seq<byte>, at: nat)
    requires SameOn(a, b, at, at + 20)
    ensures U32At(a, at) == U32At(b, at) && U32At(a, at + 12) == U32At(b, at + 12) && U32At(a, at + 16) == U32At(b, at + 16)
  {
    SameField32(a, at, b, at);
    SameField32(a, at + 12, b, at + 12);
    SameField32(a, at + 16, b, at + 16);
  }

  lemma SameVisit(a: seq<byte>, b: seq<byte>, size: nat, at: nat, requests: seq<Request>, resolve: Resolver)
    requires SameOn(a, b, 0, size) && at + 20 <= size
    ensures Visit(a, size, at, requests, resolve) == Visit(b, size, at, requests, resolve)
  {
    hide ReadAscii, RequestHits, U32At;
    SameDescriptor(a, b, at);
    SameReadAscii(a, b, size, U32At(a, at + 12));
    var name := ReadAscii(a, size, U32At(a, at + 12));
    if name.Some? {
      SameRequestHits(a, b, size, U32At(a, at), U32At(a, at + 16), Lowered(name.value), requests, |requests|, resolve);
    }
  }

  lemma {:induction false} SameScanFrom(a: seq<byte>, b: seq<byte>, table: Table, k: nat, requests: seq<Request>, resolve: Resolver, done: ScanResult)
    requires SameOn(a, b, 0, table.limit) && k <= Max(table.count, 1)
    ensures ScanFrom(a, table, k, requests, resolve, done) == ScanFrom(b, table, k, requests, resolve, done)
    decreases Max(table.count, 1) - k
  {
    hide Visit, U32At;
    var at := table.rva + 20 * k;
    if k < Max(table.count, 1) && InImage(table.limit, at, 20) {
      SameDescriptor(a, b, at);
      SameVisit(a, b, table.limit, at, requests, resolve);
      var more := Visit(a, table.limit, at, requests, resolve);
      SameScanFrom(a, b, table, k + 1, requests, resolve, ScanResult(done.hits + more.hits, done.modules + more.modules));
    }
  }

  lemma SameTable(a: seq<byte>, b: seq<byte>, hint: nat)
    requires SameOn(a, b, 0, FIRST_PAGE)
    ensures FindTable(a, hint) == FindTable(b, hint)
  {
    hide U32At, U16At;
    SameField16(a, 0, b, 0);
    SameField32(a, 0x3c, b, 0x3c);
    if U32At(a, 0x3c) <= MAX_LFANEW {
      var nt: nat := U32At(a, 0x3c);
      SameField32(a, nt, b, nt);
      SameField16(a, nt + 4, b, nt + 4);
      SameField16(a, nt + 20, b, nt + 20);
      SameField32(a, nt + 80, b, nt + 80);
      SameField32(a, nt + 132, b, nt + 132);
      SameField32(a, nt + 144, b, nt + 144);
      SameField32(a, nt + 148, b, nt + 148);
    }
  }

  /** Main result, for any bytes whatever: memory behind the first page and behind the limit
      has no influence on the scan. */
  lemma OnlyMappedMemoryCounts(a: seq<byte>, b: seq<byte>, hint: nat, requests: seq<Request>, resolve: Resolver)
    requires Mapped(a, hint) && SameOn(a, b, 0, FIRST_PAGE)
    requires FindTable(a, hint).Some? ==> SameOn(a, b, 0, FindTable(a, hint).value.limit)
    ensures Mapped(b, hint) && Scan(a, hint, requests, resolve) == Scan(b, hint, requests, resolve)
  {
    hide FindTable, ScanFrom;
    SameTable(a, b, hint);
    if FindTable(a, hint).Some? {
      SameScanFrom(a, b, FindTable(a, hint).value, 0, requests, resolve, ScanResult([], []));
    }
  }

  // ---- what a scan finds ----

  lemma {:induction false} HitsOfRequest(mem: seq<byte>, size: nat, names: nat, slots: nat, dll: seq<byte>, requests: seq<Request>, n: nat, resolve: Resolver, i: nat)
    requires size <= |mem| && i < n <= |requests|
    ensures forall slot: nat ::
              Hit(i, slot) in RequestHits(mem, size, names, slots, dll, requests, n, resolve)
              <==> requests[i].dll == dll && ThunkSlot(mem, size, names, slots, dll, requests[i].entry, resolve) == Some(slot)
    decreases n
  {
    hide ThunkSlot;
    if i < n - 1 {
      HitsOfRequest(mem, size, names, slots, dll, requests, n - 1, resolve, i);
    } else {
      NoLaterHits(mem, size, names, slots, dll, requests, n - 1, resolve);
    }
  }

  /** A request for another module has no hit. */
  lemma {:induction false} OtherModule(mem: seq<byte>, size: nat, names: nat, slots: nat, dll: seq<byte>, requests: seq<Request>, n: nat,
                                       resolve: Resolver, i: nat)
    requires size <= |mem| && n <= |requests| && i < |requests| && requests[i].dll != dll
    ensures forall h :: h in RequestHits(mem, size, names, slots, dll, requests, n, resolve) ==> h.request != i
    decreases n
  {
    hide ThunkSlot;
    if n > 0 {
      OtherModule(mem, size, names, slots, dll, requests, n - 1, resolve, i);
    }
  }

  lemma {:induction false} NoLaterHits(mem: seq<byte>, size: nat, names: nat, slots: nat, dll: seq<byte>, requests: seq<Request>, n: nat, resolve: Resolver)
    requires size <= |mem| && n <= |requests|
    ensures forall h :: h in RequestHits(mem, size, names, slots, dll, requests, n, resolve) ==> h.request < n
    decreases n
  {
    hide ThunkSlot;
    if n > 0 {
      NoLaterHits(mem, size, names, slots, dll, requests, n - 1, resolve);
    }
  }

  /** Descriptors `k..last` are in the image and none of them ends the table. */
  ghost predicate Walkable(mem: seq<byte>, table: Table, k: nat, last: nat)
  {
    && last < table.count
    && forall j :: k <= j <= last ==> DescriptorStands(mem, table, j)
  }

  ghost predicate DescriptorStands(mem: seq<byte>, table: Table, j: nat)
  {
    var at := table.rva + 20 * j;
    InImage(table.limit, at, 20) && at + 20 <= |mem| && !NullAt(mem, at)
  }

  /** What the first `m` descriptors contribute. */
  function VisitsBefore(mem: seq<byte>, table: Table, m: nat, requests: seq<Request>, resolve: Resolver): ScanResult
    requires table.limit <= |mem| && table.rva + 20 * m <= |mem|
  {
    if m == 0 then ScanResult([], [])
    else
      var done := VisitsBefore(mem, table, m - 1, requests, resolve);
      var more := Visit(mem, table.limit, table.rva + 20 * (m - 1), requests, resolve);
      ScanResult(done.hits + more.hits, done.modules + more.modules)
  }

  /** Descriptors up to number `last`, then the end mark: the scan collects exactly what they
      contribute, in order. */
  lemma {:induction false} ScanVisits(mem: seq<byte>, table: Table, k: nat, last: nat, requests: seq<Request>, resolve: Resolver)
    requires table.limit <= |mem| && k <= last + 1 && Walkable(mem, table, k, last)
    requires table.rva + 20 * last + 40 <= |mem| && NullAt(mem, table.rva + 20 * last + 20)
    ensures ScanFrom(mem, table, k, requests, resolve, VisitsBefore(mem, table, k, requests, resolve))
            == VisitsBefore(mem, table, last + 1, requests, resolve)
    decreases last + 1 - k
  {
    hide Visit, NullAt;
    if k <= last {
      assert DescriptorStands(mem, table, k);
      ScanVisits(mem, table, k + 1, last, requests, resolve);
    }
  }
}
