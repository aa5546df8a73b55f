/** Big-endian integers, variable-length integers (varint.rs) and UTF-8 text on byte sequences.
  *
  * A signed or floating-point field is its bit pattern, read as an unsigned number. */
module Bytes {
  import opened Wrappers

  type Byte = n: nat | n < 256

  type U16 = n: nat | n < 0x1_0000

  type U32 = n: nat | n < 0x1_0000_0000

  type U64 = n: nat | n < 0x1_0000_0000_0000_0000

  datatype ReadError = UnexpectedEof | VarIntTooLong | Utf8

  /** Writes one part after another; the first error stops. */
  function Then<E>(a: Result<seq<Byte>, E>, b: Result<seq<Byte>, E>): (r: Result<seq<Byte>, E>)
    ensures r.Ok? <==> a.Ok? && b.Ok?
    ensures r.Ok? ==> r.value == a.value + b.value
  {
    match a
    case Err(e) => Err(e)
    case Ok(x) => match b case Err(e) => Err(e) case Ok(y) => Ok(x + y)
  }

  // ---- big-endian ----

  function Power256(k: nat): nat {
    if k == 0 then 1 else 256 * Power256(k - 1)
  }

  function BigEndian(v: nat, k: nat): (r: seq<Byte>)
    ensures |r| == k
  {
    if k == 0 then [] else BigEndian(v / 256, k - 1) + [v % 256]
  }

  function FromBigEndian(s: seq<Byte>): nat {
    if s == [] then 0 else 256 * FromBigEndian(s[..|s| - 1]) + s[|s| - 1]
  }

  lemma {:induction false} BigEndianRoundTrip(v: nat, k: nat)
    requires v < Power256(k)
    ensures FromBigEndian(BigEndian(v, k)) == v
  {
    if k > 0 {
      BigEndianRoundTrip(v / 256, k - 1);
      assert BigEndian(v, k)[..k - 1] == BigEndian(v / 256, k - 1);
    }
  }

  lemma {:induction false} FromBigEndianBound(s: seq<Byte>)
    ensures FromBigEndian(s) < Power256(|s|)
  {
    if s != [] {
      FromBigEndianBound(s[..|s| - 1]);
    }
  }

  lemma Powers()
    ensures Power256(1) == 256 && Power256(2) == 0x1_0000 && Power256(4) == 0x1_0000_0000
    ensures Power256(8) == 0x1_0000_0000_0000_0000
  {
    assert Power256(3) == 0x100_0000;
    assert Power256(6) == 0x1_0000_0000_0000;
  }

  /** Reads k bytes as one number. */
  function TakeNumber(data: seq<Byte>, k: nat): Result<(nat, seq<Byte>), ReadError> {
    if |data| < k then Err(UnexpectedEof) else Ok((FromBigEndian(data[..k]), data[k..]))
  }

  lemma TakeNumberRoundTrip(v: nat, k: nat, rest: seq<Byte>)
    requires v < Power256(k)
    ensures TakeNumber(BigEndian(v, k) + rest, k) == Ok((v, rest))
  {
    BigEndianRoundTrip(v, k);
    assert (BigEndian(v, k) + rest)[..k] == BigEndian(v, k);
    assert (BigEndian(v, k) + rest)[k..] == rest;
  }

  // ---- varints ----

  /** Seven bits a byte, lowest first, the top bit saying that more follow. */
  function VarInt(v: U32): (r: seq<Byte>)
    ensures 1 <= |r| <= 5
    ensures v < 128 ==> |r| == 1
    ensures v < 0x20_0000 ==> |r| <= 3
  {
    VarIntLength(v);
    VarIntBytes(v)
  }

  function VarIntBytes(v: nat): (r: seq<Byte>) {
    if v < 128 then [v] else [v % 128 + 128] + VarIntBytes(v / 128)
  }

  lemma VarIntLength(v: nat)
    ensures v < 128 ==> |VarIntBytes(v)| == 1
    ensures v < 0x20_0000 ==> |VarIntBytes(v)| <= 3
    ensures v < 0x1_0000_0000 ==> |VarIntBytes(v)| <= 5
  {
    assert v >= 128 ==> |VarIntBytes(v)| == 1 + |VarIntBytes(v / 128)|;
    assert v / 128 >= 128 ==> |VarIntBytes(v / 128)| == 1 + |VarIntBytes(v / 128 / 128)|;
    var w := v / 128 / 128;
    assert w >= 128 ==> |VarIntBytes(w)| == 1 + |VarIntBytes(w / 128)|;
    assert w / 128 >= 128 ==> |VarIntBytes(w / 128)| == 1 + |VarIntBytes(w / 128 / 128)|;
  }

  /** 128 to the i. */
  function Shift7(i: nat): nat {
    if i == 0 then 1 else 128 * Shift7(i - 1)
  }

  /** At most five bytes; the bits that a fifth byte has beyond 32 fall off. */
  function ReadVarIntFrom(data: seq<Byte>, i: nat, acc: nat): Result<(U32, seq<Byte>), ReadError>
    requires i <= 5
    decreases 5 - i
  {
    if i == 5 then Err(VarIntTooLong)
    else if data == [] then Err(UnexpectedEof)
    else
      var acc' := (acc + data[0] % 128 * Shift7(i)) % 0x1_0000_0000;
      if data[0] < 128 then Ok((acc', data[1..])) else ReadVarIntFrom(data[1..], i + 1, acc')
  }

  function ReadVarInt(data: seq<Byte>): Result<(U32, seq<Byte>), ReadError> {
    ReadVarIntFrom(data, 0, 0)
  }

  lemma Shifts()
    ensures Shift7(0) == 1 && Shift7(1) == 128 && Shift7(2) == 0x4000 && Shift7(3) == 0x20_0000
    ensures Shift7(4) == 0x1000_0000
  {
  }

  lemma {:induction false} VarIntRoundTripFrom(v: nat, i: nat, acc: nat, rest: seq<Byte>)
    requires i < 5 && acc < Shift7(i) && acc + v * Shift7(i) < 0x1_0000_0000
    ensures ReadVarIntFrom(VarIntBytes(v) + rest, i, acc) == Ok((acc + v * Shift7(i), rest))
    decreases v
  {
    hide Shift7;
    var data := VarIntBytes(v) + rest;
    if v < 128 {
      assert data == [v] + rest;
      ReadLast(v, i, acc, rest);
    } else {
      var low, high := v % 128, v / 128;
      assert data == [low + 128] + (VarIntBytes(high) + rest);
      assert v == 128 * high + low;
      SplitSum(acc, low, high, i);
      ReadMore(low, i, acc, VarIntBytes(high) + rest);
      VarIntRoundTripFrom(high, i + 1, acc + low * Shift7(i), rest);
    }
  }

  lemma ReadLast(v: nat, i: nat, acc: nat, rest: seq<Byte>)
    requires i < 5 && v < 128 && acc + v * Shift7(i) < 0x1_0000_0000
    ensures ReadVarIntFrom([v] + rest, i, acc) == Ok((acc + v * Shift7(i), rest))
  {
    assert ([v] + rest)[1..] == rest;
    assert v % 128 == v;
  }

  lemma ReadMore(low: nat, i: nat, acc: nat, more: seq<Byte>)
    requires i < 4 && low < 128 && acc + low * Shift7(i) < 0x1_0000_0000
    ensures ReadVarIntFrom([low + 128] + more, i, acc) == ReadVarIntFrom(more, i + 1, acc + low * Shift7(i))
  {
    assert ([low + 128] + more)[1..] == more;
    assert (low + 128) % 128 == low;
  }

  lemma SplitSum(acc: nat, low: nat, high: nat, i: nat)
    requires i < 5 && acc < Shift7(i) && low < 128 && high >= 1
    requires acc + (128 * high + low) * Shift7(i) < 0x1_0000_0000
    ensures i < 4 && acc + low * Shift7(i) < Shift7(i + 1)
    ensures acc + low * Shift7(i) + high * Shift7(i + 1) == acc + (128 * high + low) * Shift7(i)
    ensures acc + low * Shift7(i) < 0x1_0000_0000
  {
    Shifts();
  }

  lemma VarIntRoundTrip(v: U32, rest: seq<Byte>)
    ensures ReadVarInt(VarInt(v) + rest) == Ok((v, rest))
  {
    VarIntRoundTripFrom(v, 0, 0, rest);
  }

  lemma {:induction false} ReadVarIntConsumes(data: seq<Byte>, i: nat, acc: nat)
    requires i <= 5
    ensures ReadVarIntFrom(data, i, acc).Ok? ==> |ReadVarIntFrom(data, i, acc).value.1| < |data|
    decreases 5 - i
  {
    if i < 5 && data != [] {
      ReadVarIntConsumes(data[1..], i + 1, (acc + data[0] % 128 * Shift7(i)) % 0x1_0000_0000);
    }
  }

  // ---- UTF-8 ----

  /** RFC 3629, section 3: one to four bytes for a Unicode scalar value. */
  function EncodeChar(c: char): (r: seq<Byte>)
    ensures 1 <= |r| <= 4
  {
    var n := c as int;
    if n < 0x80 then [n]
    else if n < 0x800 then [0xC0 + n / 64, 0x80 + n % 64]
    else if n < 0x1_0000 then [0xE0 + n / 4096, 0x80 + n / 64 % 64, 0x80 + n % 64]
    else [0xF0 + n / 0x4_0000, 0x80 + n / 4096 % 64, 0x80 + n / 64 % 64, 0x80 + n % 64]
  }

  function Utf8Bytes(s: string): (r: seq<Byte>) {
    if s == "" then [] else EncodeChar(s[0]) + Utf8Bytes(s[1..])
  }

  predicate Continuation(b: Byte) {
    0x80 <= b < 0xC0
  }

  /** The payload bits of a byte above its marker. */
  function Low(b: Byte, marker: nat): nat
    requires marker <= b
  {
    b - marker
  }

  function ScalarValue(n: nat): Option<char> {
    if n < 0xD800 || 0xE000 <= n < 0x11_0000 then Some(n as char) else None
  }

  /** The first character, if it is a shortest encoding of a scalar value. */
  function DecodeChar(s: seq<Byte>): (r: Option<(char, nat)>)
    ensures r.Some? ==> 1 <= r.value.1 <= |s|
  {
    if s == [] then None
    else if s[0] < 0x80 then Some((s[0] as char, 1))
    else if 0xC2 <= s[0] < 0xE0 then
      if |s| >= 2 && Continuation(s[1]) then Some(((Low(s[0], 0xC0) * 64 + Low(s[1], 0x80)) as char, 2)) else None
    else if 0xE0 <= s[0] < 0xF0 then
      if |s| >= 3 && Continuation(s[1]) && Continuation(s[2]) then
        var n := Low(s[0], 0xE0) * 4096 + Low(s[1], 0x80) * 64 + Low(s[2], 0x80);
        if n < 0x800 then None
        else (match ScalarValue(n) case Some(c) => Some((c, 3)) case None => None)
      else None
    else if 0xF0 <= s[0] < 0xF8 then
      if |s| >= 4 && Continuation(s[1]) && Continuation(s[2]) && Continuation(s[3]) then
        var n := Low(s[0], 0xF0) * 0x4_0000 + Low(s[1], 0x80) * 4096 + Low(s[2], 0x80) * 64 + Low(s[3], 0x80);
        if n < 0x1_0000 then None
        else (match ScalarValue(n) case Some(c) => Some((c, 4)) case None => None)
      else None
    else None
  }

  function FromUtf8(s: seq<Byte>): Result<string, ReadError> {
    if s == [] then Ok("")
    else
      match DecodeChar(s)
      case None => Err(Utf8)
      case Some((c, k)) =>
        match FromUtf8(s[k..])
        case Ok(rest) => Ok([c] + rest)
        case Err(e) => Err(e)
  }

  lemma DecodeThree(n: nat, s: seq<Byte>)
    requires 0x800 <= n < 0x1_0000 && (n < 0xD800 || 0xE000 <= n) && |s| >= 3
    requires s[0] == 0xE0 + n / 4096 && s[1] == 0x80 + n / 64 % 64 && s[2] == 0x80 + n % 64
    ensures DecodeChar(s) == Some((n as char, 3))
  {
    assert n / 64 / 64 == n / 4096;
  }

  lemma DecodeFour(n: nat, s: seq<Byte>)
    requires 0x1_0000 <= n < 0x11_0000 && |s| >= 4
    requires s[0] == 0xF0 + n / 0x4_0000 && s[1] == 0x80 + n / 4096 % 64
    requires s[2] == 0x80 + n / 64 % 64 && s[3] == 0x80 + n % 64
    ensures DecodeChar(s) == Some((n as char, 4))
  {
    assert n / 64 / 64 == n / 4096 && n / 4096 / 64 == n / 0x4_0000;
  }

  lemma DecodeCharRoundTrip(c: char, rest: seq<Byte>)
    ensures DecodeChar(EncodeChar(c) + rest) == Some((c, |EncodeChar(c)|))
  {
    var n := c as int;
    var s := EncodeChar(c) + rest;
    if n >= 0x1_0000 {
      DecodeFour(n, s);
    } else if n >= 0x800 {
      DecodeThree(n, s);
    }
  }

  lemma {:induction false} Utf8RoundTrip(s: string)
    ensures FromUtf8(Utf8Bytes(s)) == Ok(s)
  {
    hide DecodeChar, EncodeChar;
    if s != "" {
      DecodeCharRoundTrip(s[0], Utf8Bytes(s[1..]));
      assert Utf8Bytes(s)[|EncodeChar(s[0])|..] == Utf8Bytes(s[1..]);
      Utf8RoundTrip(s[1..]);
      assert s == [s[0]] + s[1..];
    }
  }

  lemma TwoDigits(a: nat, x: nat)
    requires x < 64
    ensures (a * 64 + x) / 64 == a && (a * 64 + x) % 64 == x
  {
  }

  lemma ExactThree(a: nat, x: nat, y: nat)
    requires x < 64 && y < 64
    ensures var n := a * 4096 + x * 64 + y; n / 4096 == a && n / 64 % 64 == x && n % 64 == y
  {
    var n := a * 4096 + x * 64 + y;
    TwoDigits(a * 64 + x, y);
    assert n == (a * 64 + x) * 64 + y;
    TwoDigits(a, x);
    assert n / 4096 == n / 64 / 64;
  }

  lemma ExactFour(a: nat, x: nat, y: nat, z: nat)
    requires x < 64 && y < 64 && z < 64
    ensures var n := a * 0x4_0000 + x * 4096 + y * 64 + z;
            n / 0x4_0000 == a && n / 4096 % 64 == x && n / 64 % 64 == y && n % 64 == z
  {
    var n := a * 0x4_0000 + x * 4096 + y * 64 + z;
    ExactThree(a * 64 + x, y, z);
    assert n == (a * 64 + x) * 4096 + y * 64 + z;
    TwoDigits(a, x);
    assert n / 0x4_0000 == n / 4096 / 64;
  }

  /** The decoder accepts nothing but what the encoder writes. */
  lemma DecodeCharExact(s: seq<Byte>)
    requires DecodeChar(s).Some?
    ensures var (c, k) := DecodeChar(s).value; s[..k] == EncodeChar(c)
  {
    var (c, k) := DecodeChar(s).value;
    if k == 1 {
      assert s[..1] == [s[0]];
    } else if k == 2 {
      TwoDigits(Low(s[0], 0xC0), Low(s[1], 0x80));
      assert s[..2] == [s[0], s[1]];
    } else if k == 3 {
      ExactThree(Low(s[0], 0xE0), Low(s[1], 0x80), Low(s[2], 0x80));
      assert s[..3] == [s[0], s[1], s[2]];
    } else {
      ExactFour(Low(s[0], 0xF0), Low(s[1], 0x80), Low(s[2], 0x80), Low(s[3], 0x80));
      assert s[..4] == [s[0], s[1], s[2], s[3]];
    }
  }

  lemma {:induction false} FromUtf8Exact(s: seq<Byte>)
    requires FromUtf8(s).Ok?
    ensures Utf8Bytes(FromUtf8(s).value) == s
  {
    hide DecodeChar, EncodeChar;
    if s != [] {
      DecodeCharExact(s);
      var (c, k) := DecodeChar(s).value;
      FromUtf8Exact(s[k..]);
      assert ([c] + FromUtf8(s[k..]).value)[1..] == FromUtf8(s[k..]).value;
      assert s == s[..k] + s[k..];
    }
  }
}
