/**
  The runtime byte-conversion helpers that every generated TypeScript class
  imports: little-endian unsigned encoders and decoders of one, two and four
  bytes, the 64-bit split into two 32-bit words, concatenation, signed
  reinterpretation of a byte and prefix extraction. JavaScript numbers that
  these helpers see are integers here; an exception is a Failure.
 */
module GeneratorUtils {
  import opened Wrappers

  type byte = x: int | 0 <= x < 256

  datatype Error =
    | UnexpectedByteArraySize(length: int)  // bufferToUint64 on a buffer that is not 8 bytes long
    | UnexpectedBufferSize                   // uintToBuffer or bufferToUint with a width other than 1, 2, 4
    | InvalidArrayLength                     // `new ArrayBuffer(n)` with n < 0
    | OutOfRange(input: int)                 // uint8ToInt8 above 0xFF
    | RangeError                             // getBytes past the end

  const TwoTo32: int := 0x1_0000_0000

  function Pow256(n: nat): (p: nat)
    ensures p >= 1
  {
    if n == 0 then 1 else 256 * Pow256(n - 1)
  }

  /** The unsigned number whose little-endian bytes are `s`. */
  function LittleEndian(s: seq<byte>): (v: nat)
    ensures v < Pow256(|s|)
  {
    if s == [] then 0 else s[0] + 256 * LittleEndian(s[1..])
  }

  /** The `n` little-endian bytes of `v` modulo 256^n, lowest first. */
  function EncodeLE(v: nat, n: nat): (r: seq<byte>)
    ensures |r| == n
  {
    if n == 0 then [] else [v % 256] + EncodeLE(v / 256, n - 1)
  }

  lemma {:induction false} DecodeEncode(v: nat, n: nat)
    requires v < Pow256(n)
    ensures LittleEndian(EncodeLE(v, n)) == v
  {
    if n > 0 {
      DecodeEncode(v / 256, n - 1);
      assert EncodeLE(v, n)[1..] == EncodeLE(v / 256, n - 1);
    }
  }

  lemma {:induction false} EncodeDecode(s: seq<byte>)
    ensures EncodeLE(LittleEndian(s), |s|) == s
  {
    if s != [] {
      var v := LittleEndian(s);
      assert v % 256 == s[0] && v / 256 == LittleEndian(s[1..]);
      EncodeDecode(s[1..]);
    }
  }

  lemma {:induction false} LittleEndianAppend(s: seq<byte>, t: seq<byte>)
    ensures LittleEndian(s + t) == LittleEndian(s) + Pow256(|s|) * LittleEndian(t)
  {
    if s == [] {
      assert s + t == t;
    } else {
      assert (s + t)[1..] == s[1..] + t;
      LittleEndianAppend(s[1..], t);
      var st, a, p, l := LittleEndian(s[1..] + t), LittleEndian(s[1..]), Pow256(|s| - 1), LittleEndian(t);
      assert LittleEndian(s + t) == s[0] + 256 * st;
      AppendStep(s[0], st, a, p, l, LittleEndian(s), Pow256(|s|));
    }
  }

  /** The arithmetic of one step of `LittleEndianAppend`. */
  lemma AppendStep(x0: int, st: int, a: int, p: int, l: int, whole: int, q: int)
    requires st == a + p * l && whole == x0 + 256 * a && q == 256 * p
    ensures x0 + 256 * st == whole + q * l
  {
  }

  lemma LittleEndianOfFour(s: seq<byte>)
    requires |s| == 4
    ensures LittleEndian(s) == s[0] as int + 0x100 * s[1] as int + 0x1_0000 * s[2] as int + 0x100_0000 * s[3] as int
  {
    assert LittleEndian(s[3..]) == s[3] by { assert s[3..][1..] == []; }
    assert LittleEndian(s[2..]) == s[2] + 256 * LittleEndian(s[3..]) by { assert s[2..][1..] == s[3..]; }
    assert LittleEndian(s[1..]) == s[1] + 256 * LittleEndian(s[2..]) by { assert s[1..][1..] == s[2..]; }
  }

  /**
    Models `uintToBuffer(uintValue, bufferSize)`: a fresh buffer of
    `bufferSize` bytes, written with `DataView.setUint8/16/32(0, v, true)`,
    which store `v` modulo 2^(8 * bufferSize), lowest byte first.
   */
  method UintToBuffer(uintValue: int, bufferSize: int) returns (r: Result<array<byte>, Error>)
    ensures r.Success? <==> bufferSize == 1 || bufferSize == 2 || bufferSize == 4
    ensures r.Failure? ==> r.error == if bufferSize < 0 then InvalidArrayLength else UnexpectedBufferSize
    ensures r.Success? ==>
              fresh(r.value) && r.value[..] == EncodeLE(uintValue % Pow256(bufferSize), bufferSize)
  {
    if bufferSize < 0 {
      return Failure(InvalidArrayLength);
    }
    var buffer := new byte[bufferSize];
    if bufferSize != 1 && bufferSize != 2 && bufferSize != 4 {
      return Failure(UnexpectedBufferSize);
    }
    var q := uintValue % Pow256(bufferSize);
    var k := 0;
    while k < bufferSize
      invariant 0 <= k <= bufferSize && 0 <= q
      invariant buffer[..k] + EncodeLE(q, bufferSize - k) == EncodeLE(uintValue % Pow256(bufferSize), bufferSize)
    {
      assert EncodeLE(q, bufferSize - k) == [q % 256] + EncodeLE(q / 256, bufferSize - k - 1);
      buffer[k] := q % 256;
      assert buffer[..k + 1] == buffer[..k] + [q % 256];
      q := q / 256;
      k := k + 1;
    }
    return Success(buffer);
  }

  /** Models `bufferToUint(buffer)`: the little-endian value of a 1-, 2- or 4-byte buffer. */
  function BufferToUint(buffer: seq<byte>): (r: Result<nat, Error>)
    ensures r.Success? <==> |buffer| == 1 || |buffer| == 2 || |buffer| == 4
    ensures r.Failure? ==> r.error == UnexpectedBufferSize
    ensures r.Success? ==> r.value < Pow256(|buffer|) && EncodeLE(r.value, |buffer|) == buffer
  {
    if |buffer| == 1 || |buffer| == 2 || |buffer| == 4 then
      EncodeDecode(buffer);
      Success(LittleEndian(buffer))
    else
      Failure(UnexpectedBufferSize)
  }

  /** Decoding what `uintToBuffer` wrote gives the value back, whenever it fits the width. */
  lemma UintBufferRoundTrip(v: int, n: nat)
    requires n == 1 || n == 2 || n == 4
    requires 0 <= v < Pow256(n)
    ensures BufferToUint(EncodeLE(v % Pow256(n), n)) == Success(v)
  {
    assert Pow256(1) == 256 && Pow256(2) == 0x1_0000 && Pow256(4) == 0x1_0000_0000;
    assert v % Pow256(n) == v;
    DecodeEncode(v, n);
  }

  /** JavaScript's ToUint32. */
  function ToUint32(x: int): (r: nat)
    ensures r < TwoTo32
  {
    x % TwoTo32
  }

  /** JavaScript's ToInt32. */
  function ToInt32(x: int): (r: int)
    ensures -0x8000_0000 <= r < 0x8000_0000
    ensures (r - x) % TwoTo32 == 0
  {
    var m := x % TwoTo32;
    if m >= 0x8000_0000 then m - TwoTo32 else m
  }

  /** `x << bits` for the shift widths the helpers use. */
  function ShiftLeft(x: int, bits: nat): int
    requires bits == 8 || bits == 16 || bits == 24
  {
    ToInt32(ToInt32(x) * (if bits == 8 then 0x100 else if bits == 16 then 0x1_0000 else 0x100_0000))
  }

  /** `bytes[i]` as a shift operand: an index outside the array reads `undefined`, which shifts as 0. */
  function ByteOrZero(bytes: seq<byte>, i: int): byte {
    if 0 <= i < |bytes| then bytes[i] else 0
  }

  /**
    Models `readUint32At(bytes, index)`: the four bytes from `index` as a
    little-endian unsigned 32-bit number. When `bytes[index]` itself is
    missing the sum is NaN, and `NaN >>> 0` is 0.
   */
  function ReadUint32At(bytes: seq<byte>, index: int): (r: nat)
    ensures r < TwoTo32
    ensures 0 <= index && index + 4 <= |bytes| ==>
              r == bytes[index] as int + 0x100 * bytes[index + 1] as int +
                   0x1_0000 * bytes[index + 2] as int + 0x100_0000 * bytes[index + 3] as int
    ensures !(0 <= index < |bytes|) ==> r == 0
  {
    if !(0 <= index < |bytes|) then 0
    else
      var b1, b2, b3 := ByteOrZero(bytes, index + 1), ByteOrZero(bytes, index + 2), ByteOrZero(bytes, index + 3);
      ShiftedBytes(b1, b2, b3);
      ToUint32(bytes[index] + ShiftLeft(b1, 8) + ShiftLeft(b2, 16) + ShiftLeft(b3, 24))
  }

  /** Shifting a byte by 8 or 16 cannot overflow; by 24 it turns negative from 128 on. */
  lemma ShiftedBytes(b1: byte, b2: byte, b3: byte)
    ensures ShiftLeft(b1, 8) == b1 * 0x100
    ensures ShiftLeft(b2, 16) == b2 * 0x1_0000
    ensures ShiftLeft(b3, 24) == if b3 < 128 then b3 * 0x100_0000 else b3 * 0x100_0000 - TwoTo32
  {
  }

  function Reversed(s: seq<byte>): seq<byte> {
    seq(|s|, i requires 0 <= i < |s| => s[|s| - 1 - i])
  }

  /** The two words `bufferToUint64` returns for the eight bytes `b`. */
  function Uint64Words(b: seq<byte>): (w: seq<nat>)
    requires |b| == 8
    ensures |w| == 2 && w[0] < TwoTo32 && w[1] < TwoTo32
    ensures w[0] + TwoTo32 * w[1] == LittleEndian(Reversed(b))
  {
    var rev := Reversed(b);
    LittleEndianAppend(rev[..4], rev[4..]);
    assert rev[..4] + rev[4..] == rev;
    LittleEndianOfFour(rev[..4]);
    LittleEndianOfFour(rev[4..]);
    [ReadUint32At(rev, 0), ReadUint32At(rev, 4)]
  }

  /** `TypedArray.prototype.reverse`: swaps the two halves in place. */
  method Reverse(a: array<byte>)
    modifies a
    ensures a[..] == Reversed(old(a[..]))
  {
    var n := a.Length;
    var lower := 0;
    while lower < n / 2
      invariant 0 <= lower <= n / 2
      invariant forall k :: 0 <= k < n ==>
                  a[k] == if k < lower || n - lower <= k then old(a[n - 1 - k]) else old(a[k])
    {
      var upper := n - 1 - lower;
      a[lower], a[upper] := a[upper], a[lower];
      lower := lower + 1;
    }
  }

  /**
    Models `bufferToUint64(input)`: an 8-byte buffer is reversed IN PLACE
    (the caller's array changes) and read as two little-endian words. Read
    together, the words are the big-endian value of the original bytes, low
    word first.
   */
  method BufferToUint64(input: array<byte>) returns (r: Result<seq<nat>, Error>)
    modifies input
    ensures r.Failure? <==> input.Length != 8
    ensures r.Failure? ==> r.error == UnexpectedByteArraySize(input.Length) && unchanged(input)
    ensures r.Success? ==> input[..] == Reversed(old(input[..])) && r.value == Uint64Words(old(input[..]))
  {
    if 8 != input.Length {
      return Failure(UnexpectedByteArraySize(input.Length));
    }
    Reverse(input);
    r := Success([ReadUint32At(input[..], 0), ReadUint32At(input[..], 4)]);
  }

  /** Models `uint64ToBuffer(uintValue)` on a little-endian host: each word as four bytes, lowest first. */
  function Uint64ToBuffer(uintValue: seq<int>): (r: seq<byte>)
    ensures |r| == 4 * |uintValue|
    ensures forall i :: 0 <= i < |uintValue| ==> r[4 * i..4 * i + 4] == EncodeLE(ToUint32(uintValue[i]), 4)
  {
    if uintValue == [] then []
    else
      var rest := Uint64ToBuffer(uintValue[1..]);
      assert forall i :: 1 <= i < |uintValue| ==>
        (EncodeLE(ToUint32(uintValue[0]), 4) + rest)[4 * i..4 * i + 4] == rest[4 * (i - 1)..4 * (i - 1) + 4];
      EncodeLE(ToUint32(uintValue[0]), 4) + rest
  }

  lemma ReversedTwice(s: seq<byte>)
    ensures Reversed(Reversed(s)) == s
  {
  }

  /**
    `bufferToUint64` undoes `uint64ToBuffer` once the bytes are reversed: the
    words come back as they were written.
   */
  lemma Uint64RoundTrip(low: int, high: int)
    requires 0 <= low < TwoTo32 && 0 <= high < TwoTo32
    ensures Uint64Words(Reversed(Uint64ToBuffer([low, high]))) == [low, high]
  {
    var b := Uint64ToBuffer([low, high]);
    assert Pow256(4) == TwoTo32;
    assert b == EncodeLE(low, 4) + EncodeLE(high, 4) by {
      assert [low, high][1..] == [high];
      assert Uint64ToBuffer([high]) == EncodeLE(high, 4) + [];
    }
    ReversedTwice(b);
    assert b[0..4] == EncodeLE(low, 4) && b[4..8] == EncodeLE(high, 4);
    DecodeEncode(low, 4);
    DecodeEncode(high, 4);
    ReadWord(b, 0);
    ReadWord(b, 4);
  }

  /** A full four-byte read is the little-endian value of those four bytes. */
  lemma ReadWord(b: seq<byte>, i: nat)
    requires i + 4 <= |b|
    ensures ReadUint32At(b, i) == LittleEndian(b[i..i + 4])
  {
    LittleEndianOfFour(b[i..i + 4]);
  }

  /** `TypedArray.prototype.set(source, offset)`: copies `source` into `target` from `offset`. */
  method SetFrom(target: array<byte>, source: array<byte>, offset: nat)
    requires target != source && offset + source.Length <= target.Length
    modifies target
    ensures target[..] == old(target[..offset]) + source[..] + old(target[offset + source.Length..])
  {
    var i := 0;
    while i < source.Length
      invariant 0 <= i <= source.Length
      invariant target[..offset] == old(target[..offset])
      invariant target[offset..offset + i] == source[..i]
      invariant target[offset + i..] == old(target[offset + i..])
    {
      target[offset + i] := source[i];
      assert target[offset..offset + i + 1] == target[offset..offset + i] + [source[i]];
      i := i + 1;
    }
    assert target[..] == target[..offset] + target[offset..offset + source.Length] + target[offset + source.Length..];
  }

  /** Models `concatTypedArrays(first, second)`: a fresh array holding `array1` then `array2`. */
  method ConcatTypedArrays(first: array<byte>, second: array<byte>) returns (newArray: array<byte>)
    ensures fresh(newArray)
    ensures newArray[..] == first[..] + second[..]
  {
    newArray := new byte[first.Length + second.Length];
    SetFrom(newArray, first, 0);
    SetFrom(newArray, second, first.Length);
  }

  /** `x >> 24` (arithmetic shift). */
  function ShiftRight24(x: int): int {
    ToInt32(x) / 0x100_0000
  }

  /**
    Models `uint8ToInt8(input)`: `input << 24 >> 24`, the signed byte with
    the same low eight bits; inputs above 0xFF are refused.
   */
  function Uint8ToInt8(input: int): (r: Result<int, Error>)
    ensures r.Failure? <==> 0xFF < input
    ensures r.Failure? ==> r.error == OutOfRange(input)
    ensures r.Success? ==> -128 <= r.value < 128 && (r.value - input) % 256 == 0
    ensures 0 <= input < 128 ==> r == Success(input)
    ensures 128 <= input <= 0xFF ==> r == Success(input - 256)
  {
    if 0xFF < input then Failure(OutOfRange(input))
    else
      var shifted := ToInt32(ToInt32(input) * 0x100_0000);
      LowByteShift(input);
      Success(ShiftRight24(shifted))
  }

  /** `x << 24` keeps exactly the low byte of `x`, in the top byte of a signed 32-bit word. */
  lemma LowByteShift(x: int)
    ensures var b := x % 256;
            ToInt32(ToInt32(x) * 0x100_0000) == if b < 128 then b * 0x100_0000 else (b - 256) * 0x100_0000
  {
    var t := ToInt32(x);
    var j := (t - x) / TwoTo32;
    assert t - x == j * TwoTo32;
    var h, b := x / 256, x % 256;
    assert x == 256 * h + b;
    var k := h + 0x100_0000 * j;
    assert t * 0x100_0000 == k * TwoTo32 + b * 0x100_0000;
    MultiplePlusMod(k, b * 0x100_0000);
  }

  lemma MultiplePlusMod(k: int, c: int)
    requires 0 <= c < TwoTo32
    ensures (k * TwoTo32 + c) % TwoTo32 == c
  {
  }

  /** `slice(0, end)` stops at `end`, counted back from the length when negative, within [0, length]. */
  function SliceEnd(length: nat, end: int): (e: nat)
    ensures e <= length
  {
    if end < 0 then (if length + end < 0 then 0 else length + end)
    else if end > length then length
    else end
  }

  /**
    Models `getBytes(binary, size)`: the first `size` bytes as a new array;
    a size past the end raises a RangeError, and a negative size counts back
    from the end as `slice` does.
   */
  function GetBytes(binary: seq<byte>, size: int): (r: Result<seq<byte>, Error>)
    ensures r.Failure? <==> size > |binary|
    ensures r.Failure? ==> r.error == RangeError
    ensures 0 <= size <= |binary| ==> r == Success(binary[..size])
    ensures size < 0 ==> r.Success? && r.value == binary[..if |binary| + size < 0 then 0 else |binary| + size]
  {
    if size > |binary| then Failure(RangeError)
    else Success(binary[..SliceEnd(|binary|, size)])
  }
}
