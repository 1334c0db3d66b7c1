/** The PE image checksum: a 16-bit one's-complement sum of the file, skipping the
    checksum field, with the file length added at the end. */
module Checksum {
  import opened Bytes

  /** The summands: little-endian words except the two at `off` and `off + 2`; a lone
      last byte counts as a word. */
  function WordsFrom(d: seq<byte>, off: nat, index: nat): (ws: seq<u16>)
    requires index <= |d| + 1
    decreases |d| + 1 - index
  {
    if index + 1 < |d| then
      if index == off || index == off + 2 then WordsFrom(d, off, index + 2)
      else [U16At(d, index)] + WordsFrom(d, off, index + 2)
    else if index < |d| then [d[index]]
    else []
  }

  function Words(d: seq<byte>, off: nat): seq<u16>
  {
    WordsFrom(d, off, 0)
  }

  function Sum(ws: seq<u16>): nat
  {
    if ws == [] then 0 else ws[0] as int + Sum(ws[1..])
  }

  /** The representative of `s` modulo 65535 that the folding keeps: 0 only for 0. */
  function Canon(s: nat): (c: nat)
    ensures c < 0x1_0000
  {
    if s == 0 then 0 else (s - 1) % 0xffff + 1
  }

  function Fold(x: nat): nat
  {
    x % 0x1_0000 + x / 0x1_0000
  }

  /** Adding the length, folding once more when the total needs more than 16 bits. */
  function Finish(sum: nat, length: nat): u32
    requires sum < 0x1_0000
  {
    var result := Wrap32(sum + length);
    if result > 0xffff then Fold(result) else result
  }

  /** Closed form of the checksum. */
  function Value(d: seq<byte>, off: nat): u32
  {
    Finish(Canon(Sum(Words(d, off))), |d|)
  }

  /** Folding after every word computes the canonical residue of the whole sum. */
  lemma FoldStep(s: nat, w: nat)
    requires w < 0x1_0000
    ensures Fold(Canon(s) + w) == Canon(s + w)
  {
    if s > 0 {
      var q := (s - 1) / 0xffff;
      assert s == 0xffff * q + Canon(s);
      assert s + w - 1 == 0xffff * q + (Canon(s) + w - 1);
    }
  }

  lemma NextWord(d: seq<byte>, off: nat, index: nat)
    requires index + 1 < |d| && index != off && index != off + 2
    ensures Sum(WordsFrom(d, off, index)) == U16At(d, index) as int + Sum(WordsFrom(d, off, index + 2))
  {
    assert WordsFrom(d, off, index)[1..] == WordsFrom(d, off, index + 2);
  }

  lemma LastByte(d: seq<byte>, off: nat, index: nat)
    requires index + 1 == |d|
    ensures Sum(WordsFrom(d, off, index)) == d[index] as int
  {
    assert WordsFrom(d, off, index) == [d[index] as u16];
    assert Sum([]) == 0;
  }

  method PeChecksumWith(d: seq<byte>, checksumOffset: nat) returns (result: u32)
    ensures result == Value(d, checksumOffset)
  {
    var sum: nat := 0;
    var index: nat := 0;
    ghost var done: nat := 0;
    ghost var all := Sum(Words(d, checksumOffset));
    while index + 1 < |d|
      invariant index <= |d| + 1
      invariant sum == Canon(done)
      invariant done + Sum(WordsFrom(d, checksumOffset, index)) == all
    {
      if index == checksumOffset || index == checksumOffset + 2 {
        index := index + 2;
        continue;
      }
      NextWord(d, checksumOffset, index);
      FoldStep(done, U16At(d, index));
      done := done + U16At(d, index);
      sum := Fold(sum + U16At(d, index));
      index := index + 2;
    }
    sum := AddLastByte(d, checksumOffset, index, sum, done);
    sum := Fold(sum);
    result := Finish(sum, |d|);
  }

  /** Odd length: the last byte counts as a low byte. */
  method AddLastByte(d: seq<byte>, checksumOffset: nat, index: nat, sum: nat, ghost done: nat)
    returns (r: nat)
    requires |d| <= index + 1 <= |d| + 2 && sum == Canon(done)
    ensures r == Canon(done + Sum(WordsFrom(d, checksumOffset, index)))
  {
    r := sum;
    if index < |d| {
      LastByte(d, checksumOffset, index);
      FoldStep(done, d[index]);
      r := Fold(sum + d[index] as int);
    }
  }

  /** Where the image says its checksum field is. */
  method PeChecksum(d: seq<byte>) returns (result: u32)
    ensures |d| >= 0x40 ==> result == Value(d, U32At(d, 0x3c) as int + 88)
    ensures |d| < 0x40 ==> result == 0
  {
    if |d| < 0x40 {
      return 0;
    }
    result := PeChecksumWith(d, U32At(d, 0x3c) as int + 4 + 20 + 64);
  }

  // ---- the value, from the bytes ----

  /** Byte `i` belongs to the field, if that starts on a word boundary. A last byte on its own always counts. */
  predicate InOwnField(length: nat, off: nat, i: nat)
  {
    off % 2 == 0 && off <= i < off + 4 && (i % 2 == 0 ==> i + 1 < length)
  }

  /** The first `n` bytes, those at odd places 256 times, without the field. */
  function Weighted(d: seq<byte>, off: nat, n: nat): nat
    requires n <= |d|
  {
    if n == 0 then 0
    else
      Weighted(d, off, n - 1)
      + (if InOwnField(|d|, off, n - 1) then 0 else if n % 2 == 1 then d[n - 1] as int else 256 * d[n - 1] as int)
  }

  lemma {:induction false} WordsWeigh(d: seq<byte>, off: nat, index: nat)
    requires index % 2 == 0 && index <= |d| + 1
    ensures Weighted(d, off, |d|) == Sum(WordsFrom(d, off, index)) + Weighted(d, off, Min(index, |d|))
    decreases |d| + 1 - index
  {
    if index + 1 < |d| {
      WordsWeigh(d, off, index + 2);
      assert Weighted(d, off, index + 2)
             == Weighted(d, off, index + 1) + (if InOwnField(|d|, off, index + 1) then 0 else 256 * d[index + 1] as int);
      WordValue(d, index);
      if index != off && index != off + 2 {
        NextWord(d, off, index);
      }
    } else if index < |d| {
      LastByte(d, off, index);
    }
  }

  /** `c` is `s` cut to 16 bits with end-around carry: the same modulo 65535, and 0 only for 0. */
  ghost predicate Carried(s: nat, c: nat)
  {
    if s == 0 then c == 0 else 1 <= c <= 65535 && exists q: nat :: s == 65535 * q + c
  }

  lemma CanonCarries(s: nat)
    ensures Carried(s, Canon(s))
  {
    if s > 0 {
      assert s == 65535 * ((s - 1) / 65535) + Canon(s);
    }
  }

  /** Main result: the checksum is the weighted sum of the bytes cut to 16 bits with end-around carry,
      plus the length, with what goes beyond 16 bits then added once more. */
  lemma ValueExactly(d: seq<byte>, off: nat)
    ensures exists c: nat ::
              && Carried(Weighted(d, off, |d|), c)
              && var total := (c + |d|) % 0x1_0000_0000;
              Value(d, off) as int == total % 65536 + total / 65536
  {
    WordsWeigh(d, off, 0);
    var sum := Sum(Words(d, off));
    CanonCarries(sum);
    assert Weighted(d, off, |d|) == sum;
    hide Weighted, Sum, Words, Canon, Carried;
    FinishFolds16(Canon(sum), |d|);
  }

  lemma FinishFolds16(c: nat, length: nat)
    requires c < 0x1_0000
    ensures var total := (c + length) % 0x1_0000_0000; Finish(c, length) as int == total % 65536 + total / 65536
  {
    assert Wrap32(c + length) == (c + length) % 0x1_0000_0000;
  }

  // ---- order of the words does not matter ----

  lemma {:induction false} SumOfSplit(xs: seq<u16>, k: nat)
    requires k < |xs|
    ensures Sum(xs) == xs[k] as int + Sum(xs[..k] + xs[k + 1..])
  {
    if k == 0 {
      assert xs[..0] + xs[1..] == xs[1..];
    } else {
      SumOfSplit(xs[1..], k - 1);
      var rest := xs[..k] + xs[k + 1..];
      assert rest[1..] == xs[1..][..k - 1] + xs[1..][k..];
    }
  }

  lemma {:induction false} SumOfPermutation(xs: seq<u16>, ys: seq<u16>)
    requires multiset(xs) == multiset(ys)
    ensures Sum(xs) == Sum(ys)
  {
    assert |multiset(xs)| == |xs| && |multiset(ys)| == |ys|;
    if xs != [] {
      assert xs[0] in multiset(ys);
      var k :| 0 <= k < |ys| && ys[k] == xs[0];
      SumOfSplit(ys, k);
      SameRest(xs, ys, k);
      SumOfPermutation(xs[1..], ys[..k] + ys[k + 1..]);
    }
  }

  lemma SameRest(xs: seq<u16>, ys: seq<u16>, k: nat)
    requires multiset(xs) == multiset(ys) && xs != [] && k < |ys| && ys[k] == xs[0]
    ensures multiset(xs[1..]) == multiset(ys[..k] + ys[k + 1..])
  {
    Without(ys, k);
    Without(xs, 0);
    assert xs[..0] + xs[1..] == xs[1..];
  }

  lemma Without(xs: seq<u16>, k: nat)
    requires k < |xs|
    ensures multiset(xs[..k] + xs[k + 1..]) == multiset(xs) - multiset{xs[k]}
  {
    assert xs == xs[..k] + [xs[k]] + xs[k + 1..];
  }

  /** The value depends on the counted words only as a multiset, and on the length. */
  lemma PermutationInvariant(a: seq<byte>, offA: nat, b: seq<byte>, offB: nat)
    requires |a| == |b| && multiset(Words(a, offA)) == multiset(Words(b, offB))
    ensures Value(a, offA) == Value(b, offB)
  {
    SumOfPermutation(Words(a, offA), Words(b, offB));
  }

  // ---- the field does not count itself, when it starts on a word boundary ----

  lemma {:induction false} WordsIgnoreField(a: seq<byte>, b: seq<byte>, off: nat, index: nat)
    requires |a| == |b| && index <= |a| + 1
    requires off % 2 == 0 && index % 2 == 0 && off + 4 <= |a|
    requires SameOn(a, b, 0, off) && SameOn(a, b, off + 4, |a|)
    ensures WordsFrom(a, off, index) == WordsFrom(b, off, index)
    decreases |a| + 1 - index
  {
    if index + 1 < |a| {
      WordsIgnoreField(a, b, off, index + 2);
      if index != off && index != off + 2 {
        SameField16(a, index, b, index);
      }
    }
  }

  lemma IgnoresOwnField(a: seq<byte>, b: seq<byte>, off: nat)
    requires |a| == |b| && off % 2 == 0 && off + 4 <= |a|
    requires SameOn(a, b, 0, off) && SameOn(a, b, off + 4, |a|)
    ensures Value(a, off) == Value(b, off)
  {
    WordsIgnoreField(a, b, off, 0);
  }

  lemma ZeroWord(d: seq<byte>, index: nat)
    requires index + 1 < |d| && d[index] == 0
    ensures U16At(d, index) == 0x100 * d[index + 1] as int
  {
    WordValue(d, index);
  }

  /** A file of zeros but for the byte at an odd `off`, which is the high byte of a word. */
  lemma {:induction false} SumOfOneByte(d: seq<byte>, off: nat, index: nat)
    requires off % 2 == 1 && index % 2 == 0 && index <= |d| + 1 && off < |d|
    requires forall i :: 0 <= i < |d| && i != off ==> d[i] == 0
    ensures Sum(WordsFrom(d, off, index)) == if index < off then 0x100 * d[off] as int else 0
    decreases |d| + 1 - index
  {
    if index + 1 < |d| {
      SumOfOneByte(d, off, index + 2);
      ZeroWord(d, index);
      NextWord(d, off, index);
    } else if index < |d| {
      LastByte(d, off, index);
    }
  }

  /** Adding 0x100 to the sum changes the result, whatever the file length. */
  lemma FinishSeparates(length: nat)
    ensures Finish(0, length) != Finish(0x100, length)
  {
    var m, n := length % LIMIT32, (0x100 + length) % LIMIT32;
    assert n == m + 0x100 || n == m + 0x100 - LIMIT32;
    FoldDrops(m);
    FoldDrops(n);
  }

  lemma FoldDrops(x: nat)
    ensures Fold(x) == x - 0xffff * (x / 0x1_0000)
  {
  }

  /** Two files of `n` bytes that differ in the checksum field only have the same checksum,
      whatever they contain, exactly when the field starts on a word boundary. */
  lemma OwnFieldIgnoredExactlyWhenEven(n: nat, off: nat)
    requires off + 4 <= n
    ensures (forall a: seq<byte>, b: seq<byte> {:trigger Value(a, off), Value(b, off)} ::
               |a| == |b| == n && SameOn(a, b, 0, off) && SameOn(a, b, off + 4, n) ==> Value(a, off) == Value(b, off))
            <==> off % 2 == 0
  {
    if off % 2 == 0 {
      forall a: seq<byte>, b: seq<byte> {:trigger Value(a, off), Value(b, off)}
        | |a| == |b| == n && SameOn(a, b, 0, off) && SameOn(a, b, off + 4, n)
        ensures Value(a, off) == Value(b, off)
      {
        IgnoresOwnField(a, b, off);
      }
    } else {
      var a := Zeros(n);
      var b := Zeros(n)[off := 1];
      SumOfOneByte(a, off, 0);
      SumOfOneByte(b, off, 0);
      FinishSeparates(n);
      assert Value(a, off) != Value(b, off);
    }
  }

  /** The header comment promises "folded sum plus file length". The code folds the
      total again, so it meets that exactly when the total fits in 16 bits. */
  lemma PlainSumExactlyWhenShort(d: seq<byte>, off: nat)
    ensures var plain := Canon(Sum(Words(d, off))) + |d|;
            Value(d, off) == plain <==> plain < 0x1_0000
  {
    hide Sum, Words, Canon;
    var sum := Canon(Sum(Words(d, off)));
    FinishIsPlain(sum, |d|);
  }

  lemma FinishIsPlain(sum: nat, length: nat)
    requires sum < 0x1_0000
    ensures Finish(sum, length) <= 0x1_fffe
    ensures Finish(sum, length) as int == sum + length <==> sum + length < 0x1_0000
  {
    FoldDrops(Wrap32(sum + length));
  }

  // ---- storing the checksum ----

  /** What both writers do: clear the field, sum, store. */
  function Stamped(d: seq<byte>, off: nat): seq<byte>
    requires off + 4 <= |d|
  {
    var cleared := PutU32(d, off, 0);
    PutU32(cleared, off, Value(cleared, off))
  }

  lemma StampedKeeps(d: seq<byte>, off: nat)
    requires off + 4 <= |d|
    ensures |Stamped(d, off)| == |d| && forall i :: 0 <= i < |d| && !(off <= i < off + 4) ==> Stamped(d, off)[i] == d[i]
  {
    hide Value, LE32;
  }

  lemma StampedMatches(d: seq<byte>, off: nat)
    requires off % 2 == 0 && off + 4 <= |d|
    ensures U32At(Stamped(d, off), off) == Value(Stamped(d, off), off)
  {
    var cleared := PutU32(d, off, 0);
    PutU32Effect(cleared, off, Value(cleared, off));
    IgnoresOwnField(cleared, Stamped(d, off), off);
  }

  /** What a 32-bit value adds to the sum when it is stored at an odd offset. */
  function Misplaced(v: u32): nat
  {
    0x100 * ByteOf(v, 0) as int + ByteOf(v, 1) as int + 0x100 * ByteOf(v, 2) as int + ByteOf(v, 3) as int
  }

  /** The sum of a file that is zero but for the field at an odd `off` and the byte in front of it. */
  lemma {:induction false} SumAroundField(d: seq<byte>, off: nat, index: nat)
    requires off % 2 == 1 && off + 4 <= |d| && index % 2 == 0 && index <= |d| + 1
    requires forall i :: 0 <= i < |d| && !(off - 1 <= i < off + 4) ==> d[i] == 0
    ensures Sum(WordsFrom(d, off, index))
            == (if index <= off - 1 then d[off - 1] as int + 0x100 * d[off] as int else 0)
               + (if index <= off + 1 then d[off + 1] as int + 0x100 * d[off + 2] as int else 0)
               + (if index <= off + 3 then d[off + 3] as int else 0)
    decreases |d| + 1 - index
  {
    hide WordsFrom, U16At;
    if index + 1 < |d| {
      SumAroundField(d, off, index + 2);
      NextWord(d, off, index);
      WordValue(d, index);
    } else if index < |d| {
      LastByte(d, off, index);
    } else {
      NoWords(d, off, index);
    }
  }

  lemma NoWords(d: seq<byte>, off: nat, index: nat)
    requires |d| <= index <= |d| + 1
    ensures Sum(WordsFrom(d, off, index)) == 0
  {
  }

  lemma FinishFolds(a: nat, length: nat)
    requires a < 0x1_0000
    ensures Finish(a, length) as int == Fold(Wrap32(a + length))
  {
    FoldDrops(Wrap32(a + length));
  }

  lemma FoldSeparates(x: nat, y: nat)
    requires x < y < x + 0xffff
    ensures Fold(x) != Fold(y)
  {
    FoldDrops(x);
    FoldDrops(y);
    var p, q := x / 0x1_0000, y / 0x1_0000;
    assert q == p || q >= p + 1;
    hide Fold;
  }

  lemma FoldAtTheTop(x: nat)
    requires LIMIT32 - 0x1_0000 < x < LIMIT32
    ensures Fold(x) >= 0x1_0000
  {
  }

  /** Different sums of counted words, not 0, give different results. */
  lemma FinishInjective(a: nat, b: nat, length: nat)
    requires 0 < a < b < 0x1_0000
    ensures Finish(a, length) != Finish(b, length)
  {
    FinishFolds(a, length);
    FinishFolds(b, length);
    WrappedPair(a, b, length);
    var x, y := Wrap32(a + length), Wrap32(b + length);
    hide Finish, Fold, Wrap32;
    if x < y {
      FoldSeparates(x, y);
    } else {
      FoldAtTheTop(x);
      FoldOfSmall(y);
    }
  }

  lemma FoldOfSmall(y: nat)
    requires y < 0x1_0000
    ensures Fold(y) == y
  {
  }

  lemma WrappedPair(a: nat, b: nat, length: nat)
    requires 0 < a < b < 0x1_0000
    ensures var x, y := Wrap32(a + length), Wrap32(b + length);
            (x < y && y < x as int + 0xffff) || (x > LIMIT32 - 0x1_0000 && y < 0x1_0000)
  {
    var k, r := length / LIMIT32, length % LIMIT32;
    assert length == k * LIMIT32 + r;
    RemainderIs(a + length, k, r + a);
    RemainderIs(b + length, k, r + b);
  }

  lemma RemainderIs(x: nat, k: nat, r: nat)
    requires x == k * LIMIT32 + r && r < 2 * LIMIT32
    ensures Wrap32(x) == if r < LIMIT32 then r else r - LIMIT32
  {
    if r < LIMIT32 {
      DivModUnique(x, LIMIT32, k, r);
    } else {
      DivModUnique(x, LIMIT32, k + 1, r - LIMIT32);
    }
  }

  /** A file that is 0 but for the byte `b` in front of the field. */
  function AlmostZeros(n: nat, off: nat, b: byte): seq<byte>
    requires 0 < off && off + 4 <= n
  {
    Zeros(n)[off - 1 := b]
  }

  lemma AlmostZerosSum(n: nat, off: nat, b: byte, v: u32)
    requires off % 2 == 1 && off + 4 <= n && b > 0
    ensures var s := PutU32(AlmostZeros(n, off, b), off, v);
            && U32At(s, off) == v && Sum(Words(s, off)) == b as int + Misplaced(v)
  {
    var d := AlmostZeros(n, off, b);
    PutEffect(d, off, LE32(v));
    PutU32Effect(d, off, v);
    hide Put;
    SumAroundField(PutU32(d, off, v), off, 0);
  }

  lemma AlmostZerosCleared(n: nat, off: nat, b: byte)
    requires off % 2 == 1 && off + 4 <= n && b > 0
    ensures PutU32(AlmostZeros(n, off, b), off, 0) == AlmostZeros(n, off, b)
  {
    PutEffect(AlmostZeros(n, off, b), off, LE32(0));
  }

  /** Stored at an odd offset, the checksum changes the sum, unless its bytes add up to nothing
      modulo 65535. */
  lemma StampedMisplaced(n: nat, off: nat, b: byte)
    requires off % 2 == 1 && off + 4 <= n && b > 0
    requires Misplaced(Finish(b as int, n)) % 0xffff != 0
    ensures var s := Stamped(AlmostZeros(n, off, b), off); U32At(s, off) != Value(s, off)
  {
    hide AlmostZeros, Sum, Words, PutU32, U32At, Finish, Misplaced;
    var d := AlmostZeros(n, off, b);
    AlmostZerosLength(n, off, b);
    AlmostZerosCleared(n, off, b);
    AlmostZerosSum(n, off, b, 0);
    assert Misplaced(0) == 0 by { MisplacedZero(); }
    var v := Finish(b as int, n);
    AlmostZerosSum(n, off, b, v);
    var c := Canon(b as int + Misplaced(v));
    CanonMoves(b as int, Misplaced(v));
    if c < b as int {
      FinishInjective(c, b as int, n);
    } else {
      FinishInjective(b as int, c, n);
    }
  }

  lemma AlmostZerosLength(n: nat, off: nat, b: byte)
    requires 0 < off && off + 4 <= n
    ensures |AlmostZeros(n, off, b)| == n
  {
  }

  lemma MisplacedZero()
    ensures Misplaced(0) == 0
  {
  }

  lemma CanonMoves(b: nat, w: nat)
    requires 0 < b < 0x100 && w % 0xffff != 0
    ensures Canon(b) == b && Canon(b + w) != b && Canon(b + w) > 0
  {
    if Canon(b + w) == b {
      var q := (b + w - 1) / 0xffff;
      assert b + w - 1 == 0xffff * q + (b - 1);
      DivModUnique(w, 0xffff, q, 0);
      assert false;
    }
  }

  lemma MisplacedVanishes(v: u32)
    requires v <= 0x1_fffe && Misplaced(v) % 0xffff == 0
    ensures v == 0 || v == 0xffff || v == 0x1_fffe
  {
  }

  /** Of four files at least one gets a checksum whose bytes do add up to something. */
  lemma SomeMisplaced(n: nat) returns (b: byte)
    ensures b > 0 && Misplaced(Finish(b as int, n)) % 0xffff != 0
  {
    b := 1;
    while Misplaced(Finish(b as int, n)) % 0xffff == 0
      invariant 0 < b <= 4
      invariant forall c: nat :: 0 < c < b as int ==> Finish(c, n) in {0, 0xffff, 0x1_fffe}
      decreases 4 - b
    {
      FinishIsPlain(b as int, n);
      MisplacedVanishes(Finish(b as int, n));
      FinishInjective(1, 2, n);
      FinishInjective(1, 3, n);
      FinishInjective(1, 4, n);
      FinishInjective(2, 3, n);
      FinishInjective(2, 4, n);
      FinishInjective(3, 4, n);
      b := b + 1;
    }
  }

  /** Main result: storing the checksum makes every file of `n` bytes pass the test exactly when
      the field starts on a word boundary. */
  lemma StampedMatchesExactlyWhenEven(n: nat, off: nat)
    requires off + 4 <= n
    ensures (forall d: seq<byte> :: |d| == n ==> U32At(Stamped(d, off), off) == Value(Stamped(d, off), off)) <==> off % 2 == 0
  {
    if off % 2 == 0 {
      forall d: seq<byte> | |d| == n ensures U32At(Stamped(d, off), off) == Value(Stamped(d, off), off) {
        StampedMatches(d, off);
      }
    } else {
      var b := SomeMisplaced(n);
      StampedMisplaced(n, off, b);
      assert |AlmostZeros(n, off, b)| == n;
    }
  }
}
