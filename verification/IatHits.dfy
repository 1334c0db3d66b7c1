/** What a scan finds, said of the bytes in memory alone: which names can be read, which entry of a
    table a search ends at, and which slots and module names a whole scan reports. */
module IatHits {
  import opened Bytes
  import opened Import
  import opened Iat

  // ---- names ----

  /** The string `s` can be read at `rva`: printable, shorter than 512 bytes, and ended by a NUL or by
      the end of the image. */
  ghost predicate NameAt(mem: seq<byte>, size: nat, rva: nat, s: seq<byte>)
  {
    && rva != 0 && 0 < |s| < 512 && rva + |s| <= size <= |mem|
    && (forall i :: 0 <= i < |s| ==> 0x20 <= s[i] < 0x7F && mem[rva + i] == s[i])
    && (rva + |s| == size || mem[rva + |s|] == 0)
  }

  lemma {:induction false} AsciiLengthIs(mem: seq<byte>, start: nat, cap: nat, length: nat, n: nat)
    requires length <= n <= cap && start + cap <= |mem|
    requires (forall i :: start + length <= i < start + n ==> Printable(mem[i])) && (n == cap || mem[start + n] == 0)
    ensures AsciiLength(mem, start, cap, length) == Some(n)
    decreases n - length
  {
    if length < n {
      assert Printable(mem[start + length]);
      AsciiLengthIs(mem, start, cap, length + 1, n);
    }
  }

  lemma {:induction false} AsciiLengthStands(mem: seq<byte>, start: nat, cap: nat, length: nat, n: nat)
    requires length <= cap && start + cap <= |mem| && AsciiLength(mem, start, cap, length) == Some(n)
    ensures length <= n <= cap && (n == cap || mem[start + n] == 0)
    ensures forall i :: start + length <= i < start + n ==> Printable(mem[i])
    decreases cap - length
  {
    if length < cap && mem[start + length] != 0 {
      AsciiLengthStands(mem, start, cap, length + 1, n);
    }
  }

  lemma NameIsRead(mem: seq<byte>, size: nat, rva: nat, s: seq<byte>)
    requires NameAt(mem, size, rva, s)
    ensures ReadAscii(mem, size, rva) == Some(s)
  {
    var cap := Min(size - rva, MAX_NAME);
    forall i | rva <= i < rva + |s| ensures Printable(mem[i]) {
      assert mem[rva + (i - rva)] == s[i - rva];
    }
    AsciiLengthIs(mem, rva, cap, 0, |s|);
    assert mem[rva..rva + |s|] == s;
  }

  lemma ReadStands(mem: seq<byte>, size: nat, rva: nat)
    requires size <= |mem| && ReadAscii(mem, size, rva).Some?
    ensures NameAt(mem, size, rva, ReadAscii(mem, size, rva).value)
  {
    var cap := Min(size - rva, MAX_NAME);
    var n := AsciiLength(mem, rva, cap, 0).value;
    AsciiLengthStands(mem, rva, cap, 0, n);
  }

  /** A name is read exactly when it stands there. */
  lemma NameReadExactly(mem: seq<byte>, size: nat, rva: nat, s: seq<byte>)
    requires size <= |mem|
    ensures ReadAscii(mem, size, rva) == Some(s) <==> NameAt(mem, size, rva, s)
  {
    hide ReadAscii, NameAt;
    if ReadAscii(mem, size, rva).Some? {
      ReadStands(mem, size, rva);
    }
    if NameAt(mem, size, rva, s) {
      NameIsRead(mem, size, rva, s);
    }
  }

  // ---- searches of any length ----

  /** Thunk `k` of the name table imports by name, and the name is `entry`. */
  ghost predicate NamesEntry(mem: seq<byte>, size: nat, names: nat, entry: seq<byte>, k: nat)
  {
    && names + 8 * k + 8 <= |mem|
    && var thunk := U64At(mem, names + 8 * k);
    thunk < 0x8000_0000_0000_0000 && NameAt(mem, size, (thunk % 0x1_0000_0000 + 2) % 0x1_0000_0000, entry)
  }

  /** `k` is the first thunk that names `entry`, in a table that does not end before it. */
  ghost predicate FirstNamed(mem: seq<byte>, size: nat, names: nat, entry: seq<byte>, from: nat, k: nat)
  {
    && from <= k <= 512 && names + 8 * k + 8 <= size <= |mem|
    && (forall j :: from <= j <= k ==> U64At(mem, names + 8 * j) != 0)
    && (forall j :: from <= j < k ==> !NamesEntry(mem, size, names, entry, j))
    && NamesEntry(mem, size, names, entry, k)
  }

  /** Slot `x` stands next to thunk `k`, and the loader has filled it. */
  ghost predicate SlotNamed(mem: seq<byte>, size: nat, names: nat, slots: nat, entry: seq<byte>, from: nat, k: nat, x: nat)
  {
    && FirstNamed(mem, size, names, entry, from, k)
    && slots + 8 * k + 8 <= size <= |mem| && U64At(mem, slots + 8 * k) != 0
    && x == slots + 8 * k
  }

  lemma {:induction false} NamedIsFound(mem: seq<byte>, size: nat, names: nat, slots: nat, entry: seq<byte>, index: nat, k: nat, x: nat)
    requires SlotNamed(mem, size, names, slots, entry, index, k, x)
    ensures SlotByName(mem, size, names, slots, entry, index) == Some(x)
    decreases k - index
  {
    hide ReadAscii, NameAt, U64At;
    var thunk := U64At(mem, names + 8 * index);
    NameReadExactly(mem, size, (thunk % LIMIT32 + 2) % LIMIT32, entry);
    if index < k {
      LaterNamed(mem, size, names, entry, index, k);
      NamedIsFound(mem, size, names, slots, entry, index + 1, k, x);
    }
  }

  lemma {:induction false} FoundIsNamed(mem: seq<byte>, size: nat, names: nat, slots: nat, entry: seq<byte>, index: nat) returns (k: nat)
    requires size <= |mem| && index <= 512 && SlotByName(mem, size, names, slots, entry, index).Some?
    ensures SlotNamed(mem, size, names, slots, entry, index, k, SlotByName(mem, size, names, slots, entry, index).value)
    decreases 512 - index
  {
    hide ReadAscii, NameAt, U64At;
    var thunk := U64At(mem, names + 8 * index);
    NameReadExactly(mem, size, (thunk % LIMIT32 + 2) % LIMIT32, entry);
    if NamesEntry(mem, size, names, entry, index) {
      k := index;
    } else {
      k := FoundIsNamed(mem, size, names, slots, entry, index + 1);
      LaterNamed(mem, size, names, entry, index, k);
    }
  }

  lemma LaterNamed(mem: seq<byte>, size: nat, names: nat, entry: seq<byte>, index: nat, k: nat)
    requires names + 8 * index + 8 <= size <= |mem|
    requires U64At(mem, names + 8 * index) != 0 && !NamesEntry(mem, size, names, entry, index)
    ensures FirstNamed(mem, size, names, entry, index, k) <==> FirstNamed(mem, size, names, entry, index + 1, k)
  {
    hide NamesEntry, U64At;
  }

  /** Slot `x`, number `k`, is the first one that holds `target`, in a table that does not end before it. */
  ghost predicate SlotHolding(mem: seq<byte>, size: nat, slots: nat, target: nat, from: nat, k: nat, x: nat)
  {
    && x == slots + 8 * k
    && from <= k <= 512 && slots + 8 * k + 8 <= size <= |mem|
    && (forall j :: from <= j < k ==> U64At(mem, slots + 8 * j) != 0 && U64At(mem, slots + 8 * j) != target)
    && U64At(mem, slots + 8 * k) == target != 0
  }

  lemma {:induction false} HoldingIsFound(mem: seq<byte>, size: nat, slots: nat, target: u64, index: nat, k: nat, x: nat)
    requires SlotHolding(mem, size, slots, target, index, k, x)
    ensures SlotByAddress(mem, size, slots, target, index) == Some(x)
    decreases k - index
  {
    hide U64At;
    if index < k {
      LaterHolding(mem, size, slots, target, index, k, x);
      HoldingIsFound(mem, size, slots, target, index + 1, k, x);
    }
  }

  lemma {:induction false} FoundIsHolding(mem: seq<byte>, size: nat, slots: nat, target: u64, index: nat) returns (k: nat)
    requires size <= |mem| && index <= 512 && SlotByAddress(mem, size, slots, target, index).Some?
    ensures SlotHolding(mem, size, slots, target, index, k, SlotByAddress(mem, size, slots, target, index).value)
    decreases 512 - index
  {
    hide U64At;
    if U64At(mem, slots + 8 * index) == target {
      k := index;
    } else {
      k := FoundIsHolding(mem, size, slots, target, index + 1);
      LaterHolding(mem, size, slots, target, index, k, SlotByAddress(mem, size, slots, target, index).value);
    }
  }

  lemma LaterHolding(mem: seq<byte>, size: nat, slots: nat, target: nat, index: nat, k: nat, x: nat)
    requires slots + 8 * index + 8 <= size <= |mem|
    requires U64At(mem, slots + 8 * index) != 0 && U64At(mem, slots + 8 * index) != target
    ensures SlotHolding(mem, size, slots, target, index, k, x) <==> SlotHolding(mem, size, slots, target, index + 1, k, x)
  {
    hide U64At;
  }

  /** Slot `x` is the one of `entry`: with a name table, the slot next to the first thunk that names it,
      if the loader has filled it; without one, the first slot that holds the entry's address. */
  ghost predicate SlotOf(mem: seq<byte>, size: nat, names: nat, slots: nat, dll: seq<byte>, entry: seq<byte>, resolve: Resolver, x: nat)
  {
    if names != 0 then exists k: nat :: SlotNamed(mem, size, names, slots, entry, 0, k, x)
    else exists k: nat :: SlotHolding(mem, size, slots, resolve(dll, entry), 0, k, x)
  }

  /** Main result for one descriptor, for tables of any length. */
  lemma SlotFoundExactly(mem: seq<byte>, size: nat, names: nat, slots: nat, dll: seq<byte>, entry: seq<byte>, resolve: Resolver, x: nat)
    requires size <= |mem|
    ensures ThunkSlot(mem, size, names, slots, dll, entry, resolve) == Some(x) <==> SlotOf(mem, size, names, slots, dll, entry, resolve, x)
  {
    hide SlotByName, SlotByAddress, SlotNamed, SlotHolding;
    var found := ThunkSlot(mem, size, names, slots, dll, entry, resolve);
    if names != 0 {
      if found.Some? {
        var k := FoundIsNamed(mem, size, names, slots, entry, 0);
      }
      forall k: nat | SlotNamed(mem, size, names, slots, entry, 0, k, x) ensures found == Some(x) {
        NamedIsFound(mem, size, names, slots, entry, 0, k, x);
      }
    } else {
      var target := resolve(dll, entry);
      if found.Some? {
        var k := FoundIsHolding(mem, size, slots, target, 0);
      }
      forall k: nat | SlotHolding(mem, size, slots, target, 0, k, x) ensures found == Some(x) {
        TargetKnown(mem, size, slots, target, k, x);
        HoldingIsFound(mem, size, slots, target, 0, k, x);
      }
    }
  }

  lemma TargetKnown(mem: seq<byte>, size: nat, slots: nat, target: u64, k: nat, x: nat)
    requires SlotHolding(mem, size, slots, target, 0, k, x)
    ensures target != 0
  {
  }

  // ---- whole scans ----

  /** `low` is `s` in lower case: no byte in 65..90, and different only there, by 32. */
  ghost predicate IsLower(s: seq<byte>, low: seq<byte>)
  {
    |low| == |s| && forall i :: 0 <= i < |s| ==> if 65 <= s[i] <= 90 then low[i] == s[i] + 32 else low[i] == s[i]
  }

  lemma LoweredExactly(s: seq<byte>, low: seq<byte>)
    ensures Lowered(s) == low <==> IsLower(s, low)
    ensures IsLower(s, low) ==> forall i :: 0 <= i < |low| ==> !(65 <= low[i] <= 90)
  {
  }

  /** Descriptor `j` ends the table at `rva`. */
  ghost predicate EndsAt(mem: seq<byte>, rva: nat, j: nat)
  {
    && rva + 20 * j + 20 <= |mem|
    && U32At(mem, rva + 20 * j) == 0 && U32At(mem, rva + 20 * j + 12) == 0 && U32At(mem, rva + 20 * j + 16) == 0
  }

  /** The walk from descriptor `from` on comes to descriptor `k`: all up to it are inside the limit, and
      none is the end mark. */
  ghost predicate Reached(mem: seq<byte>, limit: nat, rva: nat, count: nat, from: nat, k: nat)
  {
    && from <= k && (k < count || k == 0) && rva + 20 * k + 20 <= limit <= |mem|
    && forall j :: from <= j <= k ==> !EndsAt(mem, rva, j)
  }

  lemma ReachedStep(mem: seq<byte>, t: Table, from: nat, k: nat)
    requires from < k && t.rva + 20 * from + 20 <= |mem|
    ensures Reached(mem, t.limit, t.rva, t.count, from, k) <==> Reached(mem, t.limit, t.rva, t.count, from + 1, k) && !NullAt(mem, t.rva + 20 * from)
  {
    hide U32At;
    assert EndsAt(mem, t.rva, from) <==> NullAt(mem, t.rva + 20 * from);
  }

  lemma ReachedFirst(mem: seq<byte>, t: Table, from: nat, k: nat)
    requires t.limit <= |mem| && Reached(mem, t.limit, t.rva, t.count, from, k)
    ensures from < Max(t.count, 1) && InImage(t.limit, t.rva + 20 * from, 20) && !NullAt(mem, t.rva + 20 * from)
  {
    hide U32At;
    assert EndsAt(mem, t.rva, from) <==> NullAt(mem, t.rva + 20 * from);
  }

  /** The result holds what has been collected, and what a descriptor that is reached contributes. */
  ghost predicate Covers(r: ScanResult, part: ScanResult)
  {
    (forall h :: h in part.hits ==> h in r.hits) && (forall m :: m in part.modules ==> m in r.modules)
  }

  lemma CoversBoth(r: ScanResult, done: ScanResult, more: ScanResult)
    requires Covers(r, ScanResult(done.hits + more.hits, done.modules + more.modules))
    ensures Covers(r, done) && Covers(r, more)
  {
    var next := ScanResult(done.hits + more.hits, done.modules + more.modules);
    forall h | h in done.hits || h in more.hits ensures h in r.hits {
      assert h in next.hits;
    }
    forall m | m in done.modules || m in more.modules ensures m in r.modules {
      assert m in next.modules;
    }
  }

  lemma {:induction false} ReachedCounts(mem: seq<byte>, t: Table, from: nat, k: nat, requests: seq<Request>, resolve: Resolver, done: ScanResult)
    requires t.limit <= |mem| && Reached(mem, t.limit, t.rva, t.count, from, k)
    ensures from <= Max(t.count, 1)
    ensures Covers(ScanFrom(mem, t, from, requests, resolve, done), Visit(mem, t.limit, t.rva + 20 * k, requests, resolve))
    decreases k - from
  {
    hide Visit, NullAt, InImage, Covers;
    ReachedFirst(mem, t, from, k);
    var more := Visit(mem, t.limit, t.rva + 20 * from, requests, resolve);
    var next := ScanResult(done.hits + more.hits, done.modules + more.modules);
    if from < k {
      ReachedStep(mem, t, from, k);
      ReachedCounts(mem, t, from + 1, k, requests, resolve, next);
    } else {
      DoneStays(mem, t, from + 1, requests, resolve, next);
      CoversBoth(ScanFrom(mem, t, from, requests, resolve, done), done, more);
    }
  }

  lemma {:induction false} DoneStays(mem: seq<byte>, t: Table, from: nat, requests: seq<Request>, resolve: Resolver, done: ScanResult)
    requires t.limit <= |mem| && from <= Max(t.count, 1)
    ensures Covers(ScanFrom(mem, t, from, requests, resolve, done), done)
    decreases Max(t.count, 1) - from
  {
    hide Visit, NullAt;
    var at := t.rva + 20 * from;
    if from < Max(t.count, 1) && InImage(t.limit, at, 20) && !NullAt(mem, at) {
      var more := Visit(mem, t.limit, at, requests, resolve);
      var next := ScanResult(done.hits + more.hits, done.modules + more.modules);
      DoneStays(mem, t, from + 1, requests, resolve, next);
      CoversBoth(ScanFrom(mem, t, from + 1, requests, resolve, next), done, more);
    }
  }

  lemma ReachedHere(mem: seq<byte>, t: Table, from: nat)
    requires t.limit <= |mem| && from < Max(t.count, 1)
    requires InImage(t.limit, t.rva + 20 * from, 20) && !NullAt(mem, t.rva + 20 * from)
    ensures Reached(mem, t.limit, t.rva, t.count, from, from)
  {
    hide U32At;
  }

  /** A hit that is reported comes from a descriptor that is reached. */
  lemma {:induction false} HitComesFrom(mem: seq<byte>, t: Table, from: nat, requests: seq<Request>, resolve: Resolver, done: ScanResult, h: Hit)
    returns (k: nat)
    requires t.limit <= |mem| && from <= Max(t.count, 1)
    requires h in ScanFrom(mem, t, from, requests, resolve, done).hits && h !in done.hits
    ensures Reached(mem, t.limit, t.rva, t.count, from, k) && h in Visit(mem, t.limit, t.rva + 20 * k, requests, resolve).hits
    decreases Max(t.count, 1) - from
  {
    hide Visit, NullAt, InImage;
    ReachedHere(mem, t, from);
    var more := Visit(mem, t.limit, t.rva + 20 * from, requests, resolve);
    if h in more.hits {
      k := from;
    } else {
      k := HitComesFrom(mem, t, from + 1, requests, resolve, ScanResult(done.hits + more.hits, done.modules + more.modules), h);
      ReachedStep(mem, t, from, k);
    }
  }

  lemma {:induction false} ModuleComesFrom(mem: seq<byte>, t: Table, from: nat, requests: seq<Request>, resolve: Resolver, done: ScanResult, m: seq<byte>)
    returns (k: nat)
    requires t.limit <= |mem| && from <= Max(t.count, 1)
    requires m in ScanFrom(mem, t, from, requests, resolve, done).modules && m !in done.modules
    ensures Reached(mem, t.limit, t.rva, t.count, from, k) && m in Visit(mem, t.limit, t.rva + 20 * k, requests, resolve).modules
    decreases Max(t.count, 1) - from
  {
    hide Visit, NullAt, InImage;
    ReachedHere(mem, t, from);
    var more := Visit(mem, t.limit, t.rva + 20 * from, requests, resolve);
    if m in more.modules {
      k := from;
    } else {
      k := ModuleComesFrom(mem, t, from + 1, requests, resolve, ScanResult(done.hits + more.hits, done.modules + more.modules), m);
      ReachedStep(mem, t, from, k);
    }
  }

  /** The module that the descriptor at `at` names is `dll`, in lower case. */
  ghost predicate ModuleAt(mem: seq<byte>, limit: nat, at: nat, dll: seq<byte>)
  {
    at + 20 <= |mem| && exists s :: NameAt(mem, limit, U32At(mem, at + 12), s) && IsLower(s, dll)
  }

  lemma ModuleIs(mem: seq<byte>, limit: nat, at: nat, dll: seq<byte>)
    requires limit <= |mem| && at + 20 <= |mem|
    ensures ModuleAt(mem, limit, at, dll)
            <==> ReadAscii(mem, limit, U32At(mem, at + 12)).Some? && Lowered(ReadAscii(mem, limit, U32At(mem, at + 12)).value) == dll
  {
    hide ReadAscii, NameAt, IsLower, U32At, Lowered;
    var rva := U32At(mem, at + 12);
    var name := ReadAscii(mem, limit, rva);
    if name.Some? {
      NameReadExactly(mem, limit, rva, name.value);
      LoweredExactly(name.value, dll);
    }
    forall s | NameAt(mem, limit, rva, s) && IsLower(s, dll) ensures name == Some(s) && Lowered(s) == dll {
      NameReadExactly(mem, limit, rva, s);
      LoweredExactly(s, dll);
    }
  }

  /** What one descriptor contributes to request `i`, and to the module names. */
  lemma VisitExactly(mem: seq<byte>, limit: nat, at: nat, requests: seq<Request>, resolve: Resolver, i: nat, x: nat, m: seq<byte>)
    requires limit <= |mem| && at + 20 <= |mem|
    ensures m in Visit(mem, limit, at, requests, resolve).modules <==> ModuleAt(mem, limit, at, m)
    ensures i < |requests| ==>
              (Hit(i, x) in Visit(mem, limit, at, requests, resolve).hits
               <==> ModuleAt(mem, limit, at, requests[i].dll)
                    && SlotOf(mem, limit, U32At(mem, at), U32At(mem, at + 16), requests[i].dll, requests[i].entry, resolve, x))
  {
    hide ReadAscii, U32At, Lowered, ModuleAt, SlotOf, RequestHits, ThunkSlot;
    ModuleIs(mem, limit, at, m);
    var name := ReadAscii(mem, limit, U32At(mem, at + 12));
    if i < |requests| {
      ModuleIs(mem, limit, at, requests[i].dll);
      if name.Some? {
        var names, slots, dll := U32At(mem, at), U32At(mem, at + 16), Lowered(name.value);
        HitsOfRequest(mem, limit, names, slots, dll, requests, |requests|, resolve, i);
        SlotFoundExactly(mem, limit, names, slots, dll, requests[i].entry, resolve, x);
      }
    }
  }

  /** How far a scan reads: the size that the image states, and not beyond the hint, if there is one. */
  function LimitOf(mem: seq<byte>, hint: nat): nat
    requires |mem| >= 0x1000 && U32At(mem, 0x3c) <= 0xE00
  {
    var stated := U32At(mem, U32At(mem, 0x3c) as int + 80);
    if hint == 0 || stated <= hint then stated else hint
  }

  /** The headers that a scan accepts. */
  ghost predicate Scannable(mem: seq<byte>, hint: nat)
    requires |mem| >= 0x1000
  {
    && U16At(mem, 0) == 0x5A4D && U32At(mem, 0x3c) <= 0xE00
    && var nt: nat, limit := U32At(mem, 0x3c), LimitOf(mem, hint);
    && U32At(mem, nt) == 0x4550 && U16At(mem, nt + 4) == 0x8664
    && 240 <= U16At(mem, nt + 20) && U16At(mem, nt + 20) as int + 24 <= limit
    && U32At(mem, nt + 132) >= 2
    && var rva, size := U32At(mem, nt + 144), U32At(mem, nt + 148);
    rva != 0 && size >= 20 && rva as int + size as int <= limit
  }

  lemma TableFoundExactly(mem: seq<byte>, hint: nat)
    requires |mem| >= 0x1000
    ensures FindTable(mem, hint).Some? <==> Scannable(mem, hint)
    ensures Scannable(mem, hint) ==>
              var nt: nat := U32At(mem, 0x3c);
              FindTable(mem, hint) == Some(Table(LimitOf(mem, hint), U32At(mem, nt + 144), U32At(mem, nt + 148) as int / 20))
  {
    hide U16At, U32At;
  }

  /** Descriptor `k` of the import table of the image at `mem` is reached by a scan. */
  ghost predicate Walks(mem: seq<byte>, hint: nat, k: nat)
    requires |mem| >= 0x1000
  {
    && Scannable(mem, hint)
    && var nt: nat := U32At(mem, 0x3c);
    Reached(mem, LimitOf(mem, hint), U32At(mem, nt + 144), U32At(mem, nt + 148) as int / 20, 0, k)
  }

  /** Where descriptor `k` stands. */
  function DescriptorAddress(mem: seq<byte>, k: nat): nat
    requires |mem| >= 0x1000 && U32At(mem, 0x3c) <= 0xE00
  {
    U32At(mem, U32At(mem, 0x3c) as int + 144) as int + 20 * k
  }

  /** Descriptor `k` is reached, names the module of the request, and `x` is the slot of its entry. */
  ghost predicate HitAt(mem: seq<byte>, hint: nat, request: Request, resolve: Resolver, k: nat, x: nat)
    requires |mem| >= 0x1000
  {
    && Walks(mem, hint, k)
    && var at, limit := DescriptorAddress(mem, k), LimitOf(mem, hint);
    && ModuleAt(mem, limit, at, request.dll)
    && SlotOf(mem, limit, U32At(mem, at), U32At(mem, at + 16), request.dll, request.entry, resolve, x)
  }

  /** Main result, for any memory: a request has slot `x` among its hits exactly when a descriptor in
      front of the end mark names its module and `x` is the slot of its entry there. */
  lemma HitsExactly(mem: seq<byte>, hint: nat, requests: seq<Request>, resolve: Resolver, i: nat, x: nat)
    requires Mapped(mem, hint) && i < |requests|
    ensures |mem| >= 0x1000
    ensures Hit(i, x) in Scan(mem, hint, requests, resolve).hits <==> exists k: nat :: HitAt(mem, hint, requests[i], resolve, k, x)
  {
    hide FindTable, ScanFrom, Scannable, Reached, ModuleAt, SlotOf, Visit, LimitOf, U32At;
    TableFoundExactly(mem, hint);
    if Scannable(mem, hint) {
      var t := FindTable(mem, hint).value;
      AddressIs(mem, hint);
      var none := ScanResult([], []);
      if Hit(i, x) in Scan(mem, hint, requests, resolve).hits {
        var k := HitComesFrom(mem, t, 0, requests, resolve, none, Hit(i, x));
        ReachedInside(mem, t, k);
        VisitExactly(mem, t.limit, t.rva + 20 * k, requests, resolve, i, x, []);
        assert HitAt(mem, hint, requests[i], resolve, k, x);
      }
      forall k: nat | HitAt(mem, hint, requests[i], resolve, k, x) ensures Hit(i, x) in Scan(mem, hint, requests, resolve).hits {
        ReachedInside(mem, t, k);
        VisitExactly(mem, t.limit, t.rva + 20 * k, requests, resolve, i, x, []);
        ReachedCounts(mem, t, 0, k, requests, resolve, none);
      }
    }
  }

  lemma AddressIs(mem: seq<byte>, hint: nat)
    requires |mem| >= 0x1000 && Scannable(mem, hint)
    ensures U32At(mem, 0x3c) <= 0xE00
    ensures forall k: nat :: DescriptorAddress(mem, k) == U32At(mem, U32At(mem, 0x3c) as int + 144) as int + 20 * k
  {
  }

  lemma ReachedInside(mem: seq<byte>, t: Table, k: nat)
    requires Reached(mem, t.limit, t.rva, t.count, 0, k)
    ensures t.rva + 20 * k + 20 <= t.limit <= |mem|
  {
  }

  /** Main result: the module names that a scan reports are those of the descriptors that it reaches, in
      lower case. */
  lemma ModulesExactly(mem: seq<byte>, hint: nat, requests: seq<Request>, resolve: Resolver, m: seq<byte>)
    requires Mapped(mem, hint)
    ensures |mem| >= 0x1000
    ensures m in Scan(mem, hint, requests, resolve).modules
            <==> exists k: nat :: Walks(mem, hint, k) && ModuleAt(mem, LimitOf(mem, hint), DescriptorAddress(mem, k), m)
  {
    hide FindTable, ScanFrom, Scannable, Reached, ModuleAt, Visit, LimitOf, U32At;
    TableFoundExactly(mem, hint);
    if Scannable(mem, hint) {
      var t := FindTable(mem, hint).value;
      AddressIs(mem, hint);
      var none := ScanResult([], []);
      if m in Scan(mem, hint, requests, resolve).modules {
        var k := ModuleComesFrom(mem, t, 0, requests, resolve, none, m);
        ReachedInside(mem, t, k);
        VisitExactly(mem, t.limit, t.rva + 20 * k, requests, resolve, 0, 0, m);
        assert Walks(mem, hint, k);
      }
      forall k: nat | Walks(mem, hint, k) && ModuleAt(mem, LimitOf(mem, hint), DescriptorAddress(mem, k), m)
        ensures m in Scan(mem, hint, requests, resolve).modules
      {
        ReachedInside(mem, t, k);
        VisitExactly(mem, t.limit, t.rva + 20 * k, requests, resolve, 0, 0, m);
        ReachedCounts(mem, t, 0, k, requests, resolve, none);
      }
    }
  }
}
