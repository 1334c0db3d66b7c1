/** Byte strings with little-endian fields, and the growable buffer that the image
    rewriter patches in place.

    Machine integers are `int` subset types. The program is built without overflow
    checks, so 32-bit sums wrap; `Wrap32` writes that out, and `SatAdd` is
    `saturating_add`. Offsets (`usize`, 64 bits) are `nat`. */
module Bytes {
  type byte = x: int | 0 <= x < 0x100
  type u16 = x: int | 0 <= x < 0x1_0000
  type u32 = x: int | 0 <= x < LIMIT32
  type u64 = x: int | 0 <= x < 0x1_0000_0000_0000_0000

  const LIMIT32 := 0x1_0000_0000

  datatype Option<+T> = None | Some(value: T)

  /** The low 32 bits of a sum. */
  function Wrap32(x: nat): (r: u32)
    ensures x < LIMIT32 ==> r == x
  {
    if x < LIMIT32 then x else x % LIMIT32
  }

  function SatAdd(a: u32, b: u32): (r: u32)
    ensures a + b < LIMIT32 ==> r == a + b
  {
    if a + b < LIMIT32 then a + b else LIMIT32 - 1
  }

  function SatSub(a: nat, b: nat): nat
  {
    if a < b then 0 else a - b
  }

  function Min(a: int, b: int): int { if a < b then a else b }

  function Max(a: int, b: int): int { if a < b then b else a }

  // ---- rounding up ----

  /** The least multiple of `a` from `from` on that reaches `value`. */
  function NextMultiple(from: nat, value: nat, a: nat): (r: nat)
    requires a > 0
    ensures value <= r && from <= r
    ensures from < value + a ==> r < value + a
    decreases value - from
  {
    if from >= value then from else NextMultiple(from + a, value, a)
  }

  /** `value` rounded up to a multiple of `alignment`; alignment 0 leaves it alone. */
  function AlignUp(value: nat, alignment: nat): (r: nat)
    ensures value <= r
    ensures alignment != 0 ==> r < value + alignment
    ensures alignment == 0 ==> r == value
  {
    if alignment == 0 then value else NextMultiple(0, value, alignment)
  }

  lemma {:induction false} NextMultipleKeeps(from: nat, value: nat, a: nat)
    requires a > 0 && from % a == 0
    ensures NextMultiple(from, value, a) % a == 0
    decreases value - from
  {
    if from < value {
      AddMod(from, a);
      NextMultipleKeeps(from + a, value, a);
    }
  }

  lemma AlignUpMultiple(value: nat, a: nat)
    requires a > 0
    ensures AlignUp(value, a) % a == 0
  {
    NextMultipleKeeps(0, value, a);
  }

  /** The computation by `div_ceil` gives the same number. */
  lemma CeilDiv(value: nat, a: nat)
    requires a > 0
    ensures (value + a - 1) / a * a == AlignUp(value, a)
  {
    var q := (value + a - 1) / a;
    assert value <= q * a < value + a;
    AlignUpMultiple(value, a);
    MulModZero(q, a);
    if AlignUp(value, a) < q * a {
      MultiplesAdd(q * a, AlignUp(value, a), a);
      SmallMultiple(q * a - AlignUp(value, a), a);
    } else {
      MultiplesAdd(AlignUp(value, a), q * a, a);
      SmallMultiple(AlignUp(value, a) - q * a, a);
    }
  }

  lemma SmallMultiple(x: nat, a: nat)
    requires x < a && x % a == 0
    ensures x == 0
  {
    DivModUnique(x, a, 0, x);
  }

  lemma {:induction false} MulModZero(q: nat, a: nat)
    requires a > 0
    ensures (q * a) % a == 0
  {
    if q > 0 {
      MulModZero(q - 1, a);
      assert q * a == (q - 1) * a + a;
      AddMod((q - 1) * a, a);
    }
  }

  lemma AddMod(x: nat, a: nat)
    requires a > 0
    ensures (x + a) % a == x % a
  {
    var q, m := x / a, x % a;
    assert x + a == (q + 1) * a + m;
    DivModUnique(x + a, a, q + 1, m);
  }

  lemma MulAtLeast(k: nat, a: nat)
    requires k >= 1
    ensures k * a >= a
  {
    assert k * a == (k - 1) * a + a;
  }

  lemma DivModUnique(x: nat, a: nat, q: nat, m: nat)
    requires a > 0 && m < a && x == q * a + m
    ensures x / a == q && x % a == m
  {
    var q' := x / a;
    if q' < q {
      assert (q - q') * a == q * a - q' * a;
      MulAtLeast(q - q', a);
    } else if q' > q {
      assert (q' - q) * a == q' * a - q * a;
      MulAtLeast(q' - q, a);
    }
  }

  /** Sums and differences of multiples of `a` are multiples of `a`. */
  lemma MultiplesAdd(x: nat, y: nat, a: nat)
    requires a > 0 && x % a == 0 && y % a == 0
    ensures (x + y) % a == 0
    ensures y <= x ==> (x - y) % a == 0
  {
    var p, q := x / a, y / a;
    assert (p + q) * a == p * a + q * a;
    DivModUnique(x + y, a, p + q, 0);
    if y <= x {
      if p < q {
        assert (q - p) * a == q * a - p * a;
        MulAtLeast(q - p, a);
      } else {
        assert (p - q) * a == p * a - q * a;
        DivModUnique(x - y, a, p - q, 0);
      }
    }
  }

  /** The 32-bit `align_up`: `div_ceil` is exact, the product may wrap. */
  function AlignUp32(value: u32, alignment: u32): (r: u32)
    ensures AlignUp(value, alignment) < LIMIT32 ==> r == AlignUp(value, alignment)
  {
    Wrap32(AlignUp(value, alignment))
  }

  method ComputeAlignUp(value: u32, alignment: u32) returns (r: u32)
    ensures r == AlignUp32(value, alignment)
  {
    if alignment == 0 {
      return value;
    }
    var quotient: nat := (value as int + alignment as int - 1) / alignment as int;
    CeilDiv(value, alignment);
    r := Wrap32(quotient * alignment as int);
  }

  // ---- little-endian fields ----

  /** Little-endian value of the `n` bytes of `d` from `at` on. */
  function Value(d: seq<byte>, at: nat, n: nat): nat
    requires at + n <= |d|
    decreases |d| - at
  {
    if n == 0 then 0 else d[at] as int + 0x100 * Value(d, at + 1, n - 1)
  }

  function Pow256(n: nat): (p: nat)
    ensures p >= 1
  {
    if n == 0 then 1 else 0x100 * Pow256(n - 1)
  }

  lemma {:induction false} ValueBound(d: seq<byte>, at: nat, n: nat)
    requires at + n <= |d|
    ensures Value(d, at, n) < Pow256(n)
    decreases n
  {
    if n > 0 {
      ValueBound(d, at + 1, n - 1);
    }
  }

  lemma Powers()
    ensures Pow256(2) == 0x1_0000 && Pow256(4) == LIMIT32 && Pow256(8) == 0x1_0000_0000_0000_0000
  {
    assert Pow256(1) == 0x100;
    assert Pow256(3) == 0x100_0000;
    assert Pow256(5) == 0x100_0000_0000;
    assert Pow256(6) == 0x1_0000_0000_0000;
    assert Pow256(7) == 0x100_0000_0000_0000;
  }

  /** Equal bytes have equal values, wherever they stand. */
  lemma {:induction false} SameValue(a: seq<byte>, i: nat, b: seq<byte>, j: nat, n: nat)
    requires i + n <= |a| && j + n <= |b|
    requires a[i..i + n] == b[j..j + n]
    ensures Value(a, i, n) == Value(b, j, n)
    decreases n
  {
    if n > 0 {
      assert a[i..i + n][0] == b[j..j + n][0];
      assert a[i + 1..i + n] == a[i..i + n][1..] == b[j..j + n][1..] == b[j + 1..j + n];
      SameValue(a, i + 1, b, j + 1, n - 1);
    }
  }

  function U16At(d: seq<byte>, at: nat): u16
    requires at + 2 <= |d|
  {
    ValueBound(d, at, 2);
    Powers();
    Value(d, at, 2)
  }

  function U32At(d: seq<byte>, at: nat): u32
    requires at + 4 <= |d|
  {
    ValueBound(d, at, 4);
    Powers();
    Value(d, at, 4)
  }

  function U64At(d: seq<byte>, at: nat): u64
    requires at + 8 <= |d|
  {
    ValueBound(d, at, 8);
    Powers();
    Value(d, at, 8)
  }

  /** A field whose bytes are the same in `a` at `i` and in `b` at `j` has the same value. */
  lemma SameField16(a: seq<byte>, i: nat, b: seq<byte>, j: nat)
    requires i + 2 <= |a| && j + 2 <= |b|
    requires a[i] == b[j] && a[i + 1] == b[j + 1]
    ensures U16At(a, i) == U16At(b, j)
  {
    assert a[i..i + 2] == b[j..j + 2];
    SameValue(a, i, b, j, 2);
  }

  lemma SameField32(a: seq<byte>, i: nat, b: seq<byte>, j: nat)
    requires i + 4 <= |a| && j + 4 <= |b|
    requires a[i] == b[j] && a[i + 1] == b[j + 1] && a[i + 2] == b[j + 2] && a[i + 3] == b[j + 3]
    ensures U32At(a, i) == U32At(b, j)
  {
    assert a[i..i + 4] == b[j..j + 4];
    SameValue(a, i, b, j, 4);
  }

  lemma ZeroField32(d: seq<byte>, at: nat)
    requires at + 4 <= |d| && d[at] == d[at + 1] == d[at + 2] == d[at + 3] == 0
    ensures U32At(d, at) == 0
  {
    assert Value(d, at + 4, 0) == 0;
    assert Value(d, at + 3, 1) == 0;
    assert Value(d, at + 2, 2) == 0;
    assert Value(d, at + 1, 3) == 0;
  }

  /** A field of a slice is a field of the whole. */
  lemma FieldInSlice(d: seq<byte>, at: nat, s: seq<byte>, i: nat)
    requires at + |s| <= |d| && d[at..at + |s|] == s && i + 4 <= |s|
    ensures U32At(d, at + i) == U32At(s, i)
  {
    assert d[at..at + |s|][i] == s[i] && d[at..at + |s|][i + 1] == s[i + 1];
    assert d[at..at + |s|][i + 2] == s[i + 2] && d[at..at + |s|][i + 3] == s[i + 3];
    SameField32(d, at + i, s, i);
  }

  /** Byte `i` of a number, the lowest first. */
  function ByteOf(v: u32, i: nat): byte
  {
    if i == 0 then v % 0x100
    else if i == 1 then v / 0x100 % 0x100
    else if i == 2 then v / 0x1_0000 % 0x100
    else v / 0x100_0000 % 0x100
  }

  function LE16(v: u16): (s: seq<byte>)
    ensures |s| == 2
  {
    seq(2, i requires 0 <= i < 2 => ByteOf(v, i))
  }

  function LE32(v: u32): (s: seq<byte>)
    ensures |s| == 4
  {
    seq(4, i requires 0 <= i < 4 => ByteOf(v, i))
  }

  lemma WordValue(d: seq<byte>, at: nat)
    requires at + 2 <= |d|
    ensures U16At(d, at) == d[at] as int + 0x100 * d[at + 1] as int
  {
    assert Value(d, at + 2, 0) == 0;
    assert Value(d, at + 1, 1) == d[at + 1] as int;
  }

  lemma DoubleWordValue(d: seq<byte>, at: nat)
    requires at + 4 <= |d|
    ensures U32At(d, at) == d[at] as int + 0x100 * d[at + 1] as int + 0x1_0000 * d[at + 2] as int + 0x100_0000 * d[at + 3] as int
  {
    assert Value(d, at + 4, 0) == 0;
    assert Value(d, at + 3, 1) == d[at + 3] as int;
    assert Value(d, at + 2, 2) == d[at + 2] as int + 0x100 * Value(d, at + 3, 1);
    assert Value(d, at + 1, 3) == d[at + 1] as int + 0x100 * Value(d, at + 2, 2);
  }

  /** Encoded fields decode to what was encoded. */
  lemma FieldValues(v: u16, w: u32)
    ensures U16At(LE16(v), 0) == v && U32At(LE32(w), 0) == w
  {
    hide U16At, U32At;
    WordValue(LE16(v), 0);
    DoubleWordValue(LE32(w), 0);
    SumOfBytes(w);
  }

  lemma SumOfBytes(v: u32)
    ensures v == ByteOf(v, 0) as int + 0x100 * ByteOf(v, 1) as int + 0x1_0000 * ByteOf(v, 2) as int + 0x100_0000 * ByteOf(v, 3) as int
  {
    var r1, r2, r3 := v / 0x100, v / 0x1_0000, v / 0x100_0000;
    assert r2 == r1 / 0x100 && r3 == r2 / 0x100;
  }

  lemma BytesOfSum(a: byte, b: byte, c: byte, e: byte)
    ensures var v: u32 := a as int + 0x100 * b as int + 0x1_0000 * c as int + 0x100_0000 * e as int;
            ByteOf(v, 0) == a && ByteOf(v, 1) == b && ByteOf(v, 2) == c && ByteOf(v, 3) == e
  {
    var v := a as int + 0x100 * b as int + 0x1_0000 * c as int + 0x100_0000 * e as int;
    var r2 := c as int + 0x100 * e as int;
    var r1 := b as int + 0x100 * r2;
    assert v == a as int + 0x100 * r1 && v / 0x100 == r1;
    assert v == (a as int + 0x100 * b as int) + 0x1_0000 * r2 && v / 0x1_0000 == r2;
    assert v == (a as int + 0x100 * b as int + 0x1_0000 * c as int) + 0x100_0000 * e as int && v / 0x100_0000 == e as int;
  }

  /** A field that is decoded and encoded again has its old bytes. */
  lemma FieldBytes(d: seq<byte>, at: nat)
    requires at + 4 <= |d|
    ensures LE32(U32At(d, at)) == d[at..at + 4]
  {
    hide U32At, ByteOf;
    DoubleWordValue(d, at);
    BytesOfSum(d[at], d[at + 1], d[at + 2], d[at + 3]);
  }

  function Zeros(n: nat): (s: seq<byte>)
    ensures |s| == n
    ensures forall i :: 0 <= i < n ==> s[i] == 0
  {
    seq(n, i => 0)
  }

  /** `d` with `s` written over it at offset `at`. */
  function Put(d: seq<byte>, at: nat, s: seq<byte>): (r: seq<byte>)
    requires at + |s| <= |d|
    ensures |r| == |d|
  {
    d[..at] + s + d[at + |s|..]
  }

  lemma PutEffect(d: seq<byte>, at: nat, s: seq<byte>)
    requires at + |s| <= |d|
    ensures Put(d, at, s)[at..at + |s|] == s
    ensures forall i :: 0 <= i < |d| ==> Put(d, at, s)[i] == if at <= i < at + |s| then s[i - at] else d[i]
  {
  }

  function PutU16(d: seq<byte>, at: nat, v: u16): (r: seq<byte>)
    requires at + 2 <= |d|
    ensures |r| == |d|
  {
    Put(d, at, LE16(v))
  }

  function PutU32(d: seq<byte>, at: nat, v: u32): (r: seq<byte>)
    requires at + 4 <= |d|
    ensures |r| == |d|
  {
    Put(d, at, LE32(v))
  }

  /** A written field reads back, and every other byte stays. */
  lemma PutU16Effect(d: seq<byte>, at: nat, v: u16)
    requires at + 2 <= |d|
    ensures U16At(PutU16(d, at, v), at) == v
    ensures forall i :: 0 <= i < |d| && !(at <= i < at + 2) ==> PutU16(d, at, v)[i] == d[i]
  {
    PutEffect(d, at, LE16(v));
    FieldValues(v, 0);
    SameValue(PutU16(d, at, v), at, LE16(v), 0, 2);
  }

  lemma PutU32Effect(d: seq<byte>, at: nat, v: u32)
    requires at + 4 <= |d|
    ensures U32At(PutU32(d, at, v), at) == v
    ensures forall i :: 0 <= i < |d| && !(at <= i < at + 4) ==> PutU32(d, at, v)[i] == d[i]
  {
    PutEffect(d, at, LE32(v));
    FieldValues(0, v);
    SameValue(PutU32(d, at, v), at, LE32(v), 0, 4);
  }

  lemma PutU16Keeps(d: seq<byte>, at: nat, v: u16, i: nat)
    requires at + 2 <= |d| && i < |d| && !(at <= i < at + 2)
    ensures PutU16(d, at, v)[i] == d[i]
  {
  }

  lemma PutU32Keeps(d: seq<byte>, at: nat, v: u32, i: nat)
    requires at + 4 <= |d| && i < |d| && !(at <= i < at + 4)
    ensures PutU32(d, at, v)[i] == d[i]
  {
  }

  lemma FieldKept(d: seq<byte>, at: nat, v: u32, field: nat)
    requires at + 4 <= |d| && field + 4 <= |d|
    requires field + 4 <= at || at + 4 <= field
    ensures U32At(PutU32(d, at, v), field) == U32At(d, field)
  {
    SameField32(PutU32(d, at, v), field, d, field);
  }

  /** Two byte strings that hold the same bytes on `[lo, hi)`. */
  ghost predicate SameOn(a: seq<byte>, b: seq<byte>, lo: nat, hi: nat)
  {
    hi <= |a| && hi <= |b| && forall i :: lo <= i < hi ==> a[i] == b[i]
  }

  /** `a[i] == b[i + shift]` for every `i` in `[lo, hi)`. */
  ghost predicate SameShifted(a: seq<byte>, b: seq<byte>, lo: nat, hi: nat, shift: nat)
  {
    hi <= |a| && hi + shift <= |b| && forall i :: lo <= i < hi ==> a[i] == b[i + shift]
  }

  lemma SameSlices(a: seq<byte>, b: seq<byte>, lo: nat, hi: nat)
    requires lo <= hi && SameOn(a, b, lo, hi)
    ensures a[lo..hi] == b[lo..hi]
  {
  }

  lemma SameTails(a: seq<byte>, i: nat, b: seq<byte>, j: nat)
    requires i <= |a| && j <= |b| && |a| - i == |b| - j
    requires forall k :: i <= k < |a| ==> a[k] == b[j + (k - i)]
    ensures a[i..] == b[j..]
  {
  }

  /** Bytes up to the first NUL. */
  function TrimNul(s: seq<byte>): (r: seq<byte>)
    ensures |r| <= |s| && r == s[..|r|]
    ensures 0 !in r
    ensures |r| < |s| ==> s[|r|] == 0
  {
    if s == [] || s[0] == 0 then [] else [s[0]] + TrimNul(s[1..])
  }

  /** A string without NUL is what trimming recovers from its NUL-terminated copy. */
  lemma {:induction false} TrimNulAt(s: seq<byte>, n: nat)
    requires n <= |s| && 0 !in s[..n]
    requires n == |s| || s[n] == 0
    ensures TrimNul(s) == s[..n]
  {
    if n > 0 {
      assert s[0] == s[..n][0];
      assert s[1..][..n - 1] == s[..n][1..];
      TrimNulAt(s[1..], n - 1);
    }
  }

  /** The `out` vector: fixed-width writes need their bytes to be inside it. */
  class ByteBuffer {
    var bytes: seq<byte>

    constructor (initial: seq<byte>)
      ensures bytes == initial
    {
      bytes := initial;
    }

    method Extend(more: seq<byte>)
      modifies this
      ensures bytes == old(bytes) + more
    {
      bytes := bytes + more;
    }

    /** `Vec::resize(n, 0)`: truncates or appends zeros. */
    method Resize(n: nat)
      modifies this
      ensures bytes == Resized(old(bytes), n)
    {
      if n <= |bytes| {
        bytes := bytes[..n];
      } else {
        bytes := bytes + Zeros(n - |bytes|);
      }
    }

    method Write(at: nat, s: seq<byte>)
      requires at + |s| <= |bytes|
      modifies this
      ensures bytes == Put(old(bytes), at, s)
    {
      bytes := bytes[..at] + s + bytes[at + |s|..];
    }

    method WriteU16(at: nat, v: u16)
      requires at + 2 <= |bytes|
      modifies this
      ensures bytes == PutU16(old(bytes), at, v)
    {
      Write(at, LE16(v));
    }

    method WriteU32(at: nat, v: u32)
      requires at + 4 <= |bytes|
      modifies this
      ensures bytes == PutU32(old(bytes), at, v)
    {
      Write(at, LE32(v));
    }
  }

  function Resized(d: seq<byte>, n: nat): (r: seq<byte>)
    ensures |r| == n
    ensures forall i :: 0 <= i < n ==> r[i] == if i < |d| then d[i] else 0
  {
    if n <= |d| then d[..n] else d + Zeros(n - |d|)
  }
}
