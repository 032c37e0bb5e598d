/** The serialization format of the recorded changes: big-endian integers, length-prefixed
    byte arrays and UTF-16 strings with a null marker, and sets as counted lists in any order
    (QDataStream, Qt 4.6 format, as used in akonadi/changerecorder_p.cpp). Reading is total: a
    read past the end yields zero or null and leaves nothing to read. */
module DataStream {
  import opened Collections

  type Byte = x: int | 0 <= x < 0x100
  type Unit = x: int | 0 <= x < 0x1_0000
  type Int32 = x: int | -0x8000_0000 <= x < 0x8000_0000
  type Int64 = x: int | -0x8000_0000_0000_0000 <= x < 0x8000_0000_0000_0000

  /** Null and empty are different values. */
  type ByteArray = Option<seq<Byte>>
  type Text = Option<seq<Unit>>

  const NULL_MARK := 0xFFFF_FFFF

  const TWO32 := 0x1_0000_0000
  const TWO64 := 0x1_0000_0000_0000_0000

  /** What was read, and what is still to be read. */
  datatype Read<+T> = Read(value: T, rest: seq<Byte>)

  // ------------------------------------------------------------------ integers

  function U32(n: int): (b: seq<Byte>)
    requires 0 <= n < TWO32
    ensures |b| == 4
  {
    [n / 0x100_0000, n / 0x1_0000 % 0x100, n / 0x100 % 0x100, n % 0x100]
  }

  function ReadU32(s: seq<Byte>): (r: Read<nat>)
    ensures r.value < TWO32
  {
    if |s| < 4 then Read(0, [])
    else Read(s[0] as int * 0x100_0000 + s[1] as int * 0x1_0000 + s[2] as int * 0x100 + s[3] as int, s[4..])
  }

  function U64(n: int): (b: seq<Byte>)
    requires 0 <= n < TWO64
    ensures |b| == 8
  {
    U32(n / TWO32) + U32(n % TWO32)
  }

  function ReadU64(s: seq<Byte>): (r: Read<nat>)
    ensures r.value < TWO64
  {
    if |s| < 8 then Read(0, [])
    else
      var hi := ReadU32(s);
      var lo := ReadU32(hi.rest);
      Read(hi.value * TWO32 + lo.value, lo.rest)
  }

  lemma U32Inverse(n: int, rest: seq<Byte>)
    requires 0 <= n < TWO32
    ensures ReadU32(U32(n) + rest) == Read(n, rest)
  {
    var b := U32(n) + rest;
    assert b[0] == n / 0x100_0000 && b[1] == n / 0x1_0000 % 0x100 && b[2] == n / 0x100 % 0x100 && b[3] == n % 0x100;
    assert b[4..] == rest;
  }

  lemma U64Inverse(n: int, rest: seq<Byte>)
    requires 0 <= n < TWO64
    ensures ReadU64(U64(n) + rest) == Read(n, rest)
  {
    assert U64(n) + rest == U32(n / TWO32) + (U32(n % TWO32) + rest);
    U32Inverse(n / TWO32, U32(n % TWO32) + rest);
    U32Inverse(n % TWO32, rest);
  }

  /** The number some bytes stand for, the most significant one first. */
  function BigEndian(b: seq<Byte>): nat {
    if b == [] then 0 else BigEndian(b[..|b| - 1]) * 0x100 + b[|b| - 1]
  }

  lemma BigEndianFour(a: Byte, b: Byte, c: Byte, d: Byte)
    ensures BigEndian([a, b, c, d]) == a as int * 0x100_0000 + b as int * 0x1_0000 + c as int * 0x100 + d as int
  {
    assert [a, b, c, d][..3] == [a, b, c] && [a, b, c][..2] == [a, b] && [a, b][..1] == [a] && [a][..0] == [];
    assert BigEndian([a]) == a;
    assert BigEndian([a, b]) == a as int * 0x100 + b as int;
    assert BigEndian([a, b, c]) == (a as int * 0x100 + b as int) * 0x100 + c as int;
  }

  lemma Digits(n: int)
    requires 0 <= n
    ensures n == n / 0x100_0000 * 0x100_0000 + n / 0x1_0000 % 0x100 * 0x1_0000 + n / 0x100 % 0x100 * 0x100 + n % 0x100
  {
    assert n / 0x1_0000 == n / 0x100 / 0x100 && n / 0x100_0000 == n / 0x100 / 0x100 / 0x100;
  }

  /** Integers are written with the most significant byte first. */
  lemma U32IsBigEndian(n: int)
    requires 0 <= n < TWO32
    ensures BigEndian(U32(n)) == n
  {
    BigEndianFour(n / 0x100_0000, n / 0x1_0000 % 0x100, n / 0x100 % 0x100, n % 0x100);
    Digits(n);
  }

  lemma {:induction false} BigEndianConcat(a: seq<Byte>, b: seq<Byte>)
    requires |b| == 4
    ensures BigEndian(a + b) == BigEndian(a) * TWO32 + BigEndian(b)
  {
    assert b == [b[0], b[1], b[2], b[3]];
    BigEndianFour(b[0], b[1], b[2], b[3]);
    var s := a + b;
    assert s[..|s| - 1] == a + b[..3] && (a + b[..3])[..|a| + 2] == a + b[..2];
    assert (a + b[..2])[..|a| + 1] == a + b[..1] && (a + b[..1])[..|a|] == a;
    calc {
      BigEndian(s);
      BigEndian(a + b[..3]) * 0x100 + b[3];
      (BigEndian(a + b[..2]) * 0x100 + b[2]) * 0x100 + b[3];
      ((BigEndian(a + b[..1]) * 0x100 + b[1]) * 0x100 + b[2]) * 0x100 + b[3];
      (((BigEndian(a) * 0x100 + b[0]) * 0x100 + b[1]) * 0x100 + b[2]) * 0x100 + b[3];
    }
  }

  lemma U64IsBigEndian(n: int)
    requires 0 <= n < TWO64
    ensures BigEndian(U64(n)) == n
  {
    U32IsBigEndian(n / TWO32);
    U32IsBigEndian(n % TWO32);
    BigEndianConcat(U32(n / TWO32), U32(n % TWO32));
  }

  /** Casts between signed and unsigned integers of the same width wrap around. */
  function Unsigned(n: int, modulus: int): (u: int)
    requires -modulus / 2 <= n < modulus / 2
    ensures 0 <= u < modulus
  {
    if n < 0 then n + modulus else n
  }

  function Signed32(u: int): Int32
    requires 0 <= u < TWO32
  {
    if u < 0x8000_0000 then u else u - TWO32
  }

  function Signed64(u: int): Int64
    requires 0 <= u < TWO64
  {
    if u < 0x8000_0000_0000_0000 then u else u - TWO64
  }

  function I32(n: Int32): seq<Byte> { U32(Unsigned(n, TWO32)) }

  function I64(n: Int64): seq<Byte> { U64(Unsigned(n, TWO64)) }

  function ReadI32(s: seq<Byte>): Read<Int32> {
    var r := ReadU32(s);
    Read(Signed32(r.value), r.rest)
  }

  function ReadI64(s: seq<Byte>): Read<Int64> {
    var r := ReadU64(s);
    Read(Signed64(r.value), r.rest)
  }

  lemma I32Inverse(n: Int32, rest: seq<Byte>)
    ensures ReadI32(I32(n) + rest) == Read(n, rest)
  {
    U32Inverse(Unsigned(n, TWO32), rest);
  }

  lemma I64Inverse(n: Int64, rest: seq<Byte>)
    ensures ReadI64(I64(n) + rest) == Read(n, rest)
  {
    U64Inverse(Unsigned(n, TWO64), rest);
  }

  // ------------------------------------------------------------------ byte arrays and strings

  predicate ArrayFits(a: ByteArray) {
    a.Some? ==> |a.value| < NULL_MARK
  }

  function ArrayBytes(a: ByteArray): (b: seq<Byte>)
    requires ArrayFits(a)
    ensures |b| >= 4
  {
    if a.None? then U32(NULL_MARK) else U32(|a.value|) + a.value
  }

  function ReadArray(s: seq<Byte>): (r: Read<ByteArray>)
    ensures ArrayFits(r.value)
  {
    var len := ReadU32(s);
    if len.value == NULL_MARK then Read(None, len.rest)
    else if |len.rest| < len.value then Read(None, [])
    else Read(Some(len.rest[..len.value]), len.rest[len.value..])
  }

  lemma ArrayInverse(a: ByteArray, rest: seq<Byte>)
    requires ArrayFits(a)
    ensures ReadArray(ArrayBytes(a) + rest) == Read(a, rest)
  {
    if a.None? {
      U32Inverse(NULL_MARK, rest);
    } else {
      assert ArrayBytes(a) + rest == U32(|a.value|) + (a.value + rest);
      U32Inverse(|a.value|, a.value + rest);
    }
  }

  function UnitsBytes(us: seq<Unit>): (b: seq<Byte>)
    ensures |b| == 2 * |us|
  {
    if us == [] then [] else [us[0] / 0x100, us[0] % 0x100] + UnitsBytes(us[1..])
  }

  function Units(b: seq<Byte>): (us: seq<Unit>)
    requires |b| % 2 == 0
    ensures 2 * |us| == |b|
  {
    if b == [] then [] else [b[0] as int * 0x100 + b[1] as int] + Units(b[2..])
  }

  lemma {:induction false} UnitsInverse(us: seq<Unit>)
    ensures Units(UnitsBytes(us)) == us
  {
    if us != [] {
      UnitsInverse(us[1..]);
      assert UnitsBytes(us)[2..] == UnitsBytes(us[1..]);
    }
  }

  predicate TextFits(t: Text) {
    t.Some? ==> 2 * |t.value| < NULL_MARK
  }

  function TextBytes(t: Text): (b: seq<Byte>)
    requires TextFits(t)
    ensures |b| >= 4
  {
    if t.None? then U32(NULL_MARK) else U32(2 * |t.value|) + UnitsBytes(t.value)
  }

  /** An odd byte count is corrupt; nothing but the count is consumed then. */
  function ReadText(s: seq<Byte>): (r: Read<Text>)
    ensures TextFits(r.value)
  {
    var len := ReadU32(s);
    if len.value == NULL_MARK || len.value % 2 == 1 then Read(None, len.rest)
    else if |len.rest| < len.value then Read(None, [])
    else Read(Some(Units(len.rest[..len.value])), len.rest[len.value..])
  }

  lemma TextInverse(t: Text, rest: seq<Byte>)
    requires TextFits(t)
    ensures ReadText(TextBytes(t) + rest) == Read(t, rest)
  {
    if t.None? {
      U32Inverse(NULL_MARK, rest);
    } else {
      var b := UnitsBytes(t.value);
      assert TextBytes(t) + rest == U32(|b|) + (b + rest);
      U32Inverse(|b|, b + rest);
      UnitsInverse(t.value);
      assert (b + rest)[..|b|] == b && (b + rest)[|b|..] == rest;
    }
  }

  /** A length that is cut off counts as zero. One that exceeds what is left yields null and leaves
      nothing to read; an odd length of a string yields null, and only the length itself is used up. */
  lemma DamagedLengths(s: seq<Byte>)
    ensures |s| < 4 ==> ReadArray(s) == Read(Some([]), []) && ReadText(s) == Read(Some([]), [])
    ensures |s| >= 4 && BigEndian(s[..4]) != NULL_MARK && 4 + BigEndian(s[..4]) > |s| ==>
      && ReadArray(s) == Read(None, [])
      && ReadText(s) == Read(None, if BigEndian(s[..4]) % 2 == 1 then s[4..] else [])
    ensures |s| >= 4 && BigEndian(s[..4]) % 2 == 1 ==> ReadText(s) == Read(None, s[4..])
  {
    if |s| >= 4 {
      assert s[..4] == [s[0], s[1], s[2], s[3]];
      BigEndianFour(s[0], s[1], s[2], s[3]);
    }
  }

  // ------------------------------------------------------------------ sets of byte arrays

  predicate ArraysFit(parts: seq<ByteArray>) {
    forall i :: 0 <= i < |parts| ==> ArrayFits(parts[i])
  }

  function ArraysBytes(parts: seq<ByteArray>): seq<Byte>
    requires ArraysFit(parts)
  {
    if parts == [] then [] else ArrayBytes(parts[0]) + ArraysBytes(parts[1..])
  }

  /** Reads n elements, or fewer if the data ends before. */
  function ReadArrays(s: seq<Byte>, n: nat): (r: Read<set<ByteArray>>)
    ensures |r.value| <= n && forall a :: a in r.value ==> ArrayFits(a)
    decreases n
  {
    if n == 0 then Read({}, s)
    else
      var a := ReadArray(s);
      if a.rest == [] then Read({a.value}, []) else
        var more := ReadArrays(a.rest, n - 1);
        Read({a.value} + more.value, more.rest)
  }

  lemma {:induction false} ArraysInverse(parts: seq<ByteArray>, rest: seq<Byte>)
    requires ArraysFit(parts)
    ensures ReadArrays(ArraysBytes(parts) + rest, |parts|) == Read(Elements(parts), rest)
  {
    if parts != [] {
      var tail := ArraysBytes(parts[1..]) + rest;
      assert ArraysBytes(parts) + rest == ArrayBytes(parts[0]) + tail;
      ArrayInverse(parts[0], tail);
      ArraysInverse(parts[1..], rest);
      assert Elements(parts) == {parts[0]} + Elements(parts[1..]);
      assert parts[1..] != [] ==> |ArraysBytes(parts[1..])| >= 4;
      assert |parts[1..]| == |parts| - 1;
    } else {
      assert ArraysBytes(parts) + rest == rest;
      assert Elements(parts) == {};
    }
  }

  lemma {:induction false} ArraysAppend(parts: seq<ByteArray>, a: ByteArray)
    requires ArraysFit(parts) && ArrayFits(a)
    ensures ArraysFit(parts + [a]) && ArraysBytes(parts + [a]) == ArraysBytes(parts) + ArrayBytes(a)
  {
    assert ArraysFit(parts + [a]);
    if parts == [] {
      assert (parts + [a])[1..] == [];
    } else {
      assert (parts + [a])[1..] == parts[1..] + [a];
      ArraysAppend(parts[1..], a);
    }
  }

  function SetBytes(parts: seq<ByteArray>): (b: seq<Byte>)
    requires ArraysFit(parts) && |parts| < TWO32
    ensures |b| >= 4
  {
    U32(|parts|) + ArraysBytes(parts)
  }

  function ReadSet(s: seq<Byte>): (r: Read<set<ByteArray>>)
    ensures |r.value| < TWO32 && forall a :: a in r.value ==> ArrayFits(a)
  {
    var n := ReadU32(s);
    ReadArrays(n.rest, n.value)
  }

  lemma SetInverse(parts: seq<ByteArray>, rest: seq<Byte>)
    requires ArraysFit(parts) && |parts| < TWO32
    ensures ReadSet(SetBytes(parts) + rest) == Read(Elements(parts), rest)
  {
    assert SetBytes(parts) + rest == U32(|parts|) + (ArraysBytes(parts) + rest);
    U32Inverse(|parts|, ArraysBytes(parts) + rest);
    ArraysInverse(parts, rest);
  }

  // ------------------------------------------------------------------ sequences of records

  /** Reads n values one after the other, or fewer if the data ends before. */
  function ReadMany<T>(read: seq<Byte> -> Read<T>, s: seq<Byte>, n: nat): (xs: seq<T>)
    ensures |xs| <= n
    decreases n
  {
    if n == 0 || s == [] then []
    else
      var x := read(s);
      [x.value] + ReadMany(read, x.rest, n - 1)
  }

  function Concat(chunks: seq<seq<Byte>>): seq<Byte> {
    if chunks == [] then [] else chunks[0] + Concat(chunks[1..])
  }

  lemma {:induction false} ConcatAppend(chunks: seq<seq<Byte>>, c: seq<Byte>)
    ensures Concat(chunks + [c]) == Concat(chunks) + c
  {
    if chunks == [] {
      assert (chunks + [c])[1..] == [];
    } else {
      assert (chunks + [c])[1..] == chunks[1..] + [c];
      ConcatAppend(chunks[1..], c);
    }
  }

  /** A chunk from which the value can be read, whatever follows. */
  ghost predicate Yields<T(!new)>(read: seq<Byte> -> Read<T>, chunk: seq<Byte>, x: T) {
    chunk != [] && forall rest :: read(chunk + rest) == Read(x, rest)
  }

  lemma {:induction false} ManyInverse<T(!new)>(read: seq<Byte> -> Read<T>, xs: seq<T>, chunks: seq<seq<Byte>>)
    requires |chunks| == |xs| && forall i :: 0 <= i < |xs| ==> Yields(read, chunks[i], xs[i])
    ensures ReadMany(read, Concat(chunks), |xs|) == xs
  {
    if xs != [] {
      assert Yields(read, chunks[0], xs[0]);
      ManyInverse(read, xs[1..], chunks[1..]);
      assert read(chunks[0] + Concat(chunks[1..])) == Read(xs[0], Concat(chunks[1..]));
    }
  }

  lemma {:induction false} ManyAll<T>(read: seq<Byte> -> Read<T>, p: T -> bool, s: seq<Byte>, n: nat)
    requires forall t :: p(read(t).value)
    ensures forall i :: 0 <= i < |ReadMany(read, s, n)| ==> p(ReadMany(read, s, n)[i])
    decreases n
  {
    if n != 0 && s != [] {
      ManyAll(read, p, read(s).rest, n - 1);
    }
  }
}
