/** Strings in NDR: conformant and varying, aligned to four bytes, as C706 section 14.3.4.2 lays them out. */
module Ndr {
  import opened Wrappers
  import opened Storage
  import opened Utf16

  const ALIGN4: nat := 4
  const TWO_TO_32: nat := 0x1_0000_0000

  /** The next multiple of the alignment; an alignment of zero changes nothing. */
  function AlignOffset(offset: nat, alignment: nat): (r: nat)
    ensures alignment == 0 ==> r == offset
    ensures alignment > 0 ==> r % alignment == 0 && offset <= r < offset + alignment
  {
    if alignment == 0 then offset
    else
      var remainder := offset % alignment;
      if remainder == 0 then offset
      else
        NextMultiple(offset, alignment);
        offset + (alignment - remainder)
  }

  lemma NextMultiple(offset: nat, alignment: nat)
    requires alignment > 0
    ensures (offset + (alignment - offset % alignment)) % alignment == 0
  {
    var q := offset / alignment;
    assert offset == q * alignment + offset % alignment;
    assert offset + (alignment - offset % alignment) == (q + 1) * alignment;
    MultipleOf(q + 1, alignment);
  }

  lemma MultipleOf(k: nat, alignment: nat)
    requires alignment > 0
    ensures (k * alignment) % alignment == 0
  {
    var q, r := k * alignment / alignment, k * alignment % alignment;
    assert k * alignment == q * alignment + r;
    assert (k - q) * alignment == r;
    if k > q {
      AtLeast(k - q, alignment);
    } else if k < q {
      AtLeast(q - k, alignment);
    }
  }

  lemma AtLeast(d: nat, alignment: nat)
    requires d > 0
    ensures d * alignment >= alignment
  {
    assert d * alignment == (d - 1) * alignment + alignment;
  }

  function Padded(buf: seq<Byte>, alignment: nat): seq<Byte> {
    buf + Zeros(AlignOffset(|buf|, alignment) - |buf|)
  }

  /** The buffer is kept, only zeros follow it, and the whole is the shortest that ends on the boundary. */
  method Pad(buf: seq<Byte>, alignment: nat) returns (r: seq<Byte>)
    ensures buf <= r && forall k :: |buf| <= k < |r| ==> r[k] == 0
    ensures alignment == 0 ==> r == buf
    ensures alignment > 0 ==> |r| % alignment == 0 && |r| < |buf| + alignment
  {
    r := buf;
    var padding := AlignOffset(|buf|, alignment) - |buf|;
    if padding > 0 {
      r := r + Zeros(padding);
    }
  }

  lemma OneMultipleInReach(a: nat, b: nat, offset: nat, alignment: nat)
    requires alignment > 0 && a % alignment == b % alignment == 0
    requires offset <= a < offset + alignment && offset <= b < offset + alignment
    ensures a == b
  {
    var p, q := a / alignment, b / alignment;
    assert a == p * alignment && b == q * alignment;
    if p > q {
      AtLeast(p - q, alignment);
    } else if p < q {
      AtLeast(q - p, alignment);
    }
  }

  /** What Pad promises leaves it no choice. */
  lemma OnlyPaddedFits(buf: seq<Byte>, alignment: nat, r: seq<Byte>)
    requires buf <= r && (forall k :: |buf| <= k < |r| ==> r[k] == 0)
    requires if alignment == 0 then r == buf else |r| % alignment == 0 && |r| < |buf| + alignment
    ensures r == Padded(buf, alignment)
  {
    if alignment > 0 {
      OneMultipleInReach(|r|, |Padded(buf, alignment)|, |buf|, alignment);
    }
  }

  // ----- 32-bit numbers -----

  function U32Bytes(v: nat): (bs: seq<Byte>)
    ensures |bs| == 4
  {
    [v % 256, v / 256 % 256, v / 256 / 256 % 256, v / 256 / 256 / 256 % 256]
  }

  function U32At(b: seq<Byte>, k: nat): nat
    requires k + 4 <= |b|
  {
    (b[k] as int) + 256 * (b[k + 1] as int) + 0x1_0000 * (b[k + 2] as int) + 0x100_0000 * (b[k + 3] as int)
  }

  lemma FourBytes(v: nat, v0: nat, b: nat, b0: nat, c: nat, c0: nat, d: nat, d0: nat, e: nat)
    requires v == 256 * b + v0 && b == 256 * c + b0 && c == 256 * d + c0 && d == 256 * e + d0
    requires v0 < 256 && b0 < 256 && c0 < 256 && d0 < 256
    ensures v0 + 256 * b0 + 0x1_0000 * c0 + 0x100_0000 * d0 == v % TWO_TO_32
  {
    RemainderIs(v, e, v0 + 256 * b0 + 0x1_0000 * c0 + 0x100_0000 * d0);
  }

  lemma RemainderIs(v: nat, e: nat, low: nat)
    requires v == 0x1_0000_0000 * e + low && low < 0x1_0000_0000
    ensures v % TWO_TO_32 == low
  {
    var q, r := v / 0x1_0000_0000, v % 0x1_0000_0000;
    assert v == 0x1_0000_0000 * q + r && 0 <= r < 0x1_0000_0000;
    assert q == e;
  }

  lemma U32RoundTrip(v: nat)
    ensures U32At(U32Bytes(v), 0) == v % TWO_TO_32
  {
    var b, c, d := v / 256, v / 256 / 256, v / 256 / 256 / 256;
    FourBytes(v, v % 256, b, b % 256, c, c % 256, d, d % 256, d / 256);
  }

  lemma ByteOff(v: nat, b: Byte, rest: nat)
    requires v == 256 * rest + b
    ensures v % 256 == b && v / 256 == rest
  {
  }

  /** The least significant byte comes first. */
  lemma U32IsLittleEndian(v: nat, b0: Byte, b1: Byte, b2: Byte, b3: Byte)
    requires v == b0 + 0x100 * b1 + 0x1_0000 * b2 + 0x100_0000 * b3
    ensures U32Bytes(v) == [b0, b1, b2, b3]
  {
    var c: nat, d: nat, e: nat := b1 + 0x100 * b2 + 0x1_0000 * b3, b2 + 0x100 * b3, b3;
    ByteOff(v, b0, c);
    ByteOff(c, b1, d);
    ByteOff(d, b2, e);
    ByteOff(e, b3, 0);
  }

  // ----- One string -----

  /** The units sent for a string: its own and a NUL. */
  function Terminated(s: Text): seq<Unit> {
    Encode(s) + [0]
  }

  /** The maximum count, the offset, the actual count, and the characters. Counts are sent as 32 bits. */
  function Marshalled(s: Text): seq<Byte> {
    U32Bytes(|Terminated(s)|) + U32Bytes(0) + U32Bytes(|Terminated(s)|) + ToBytes(Terminated(s))
  }

  lemma HeaderReads(a: nat, b: nat, c: nat, tail: seq<Byte>)
    ensures var bs := U32Bytes(a) + U32Bytes(b) + U32Bytes(c) + tail;
      && U32At(bs, 0) == a % 0x1_0000_0000 && U32At(bs, 4) == b % 0x1_0000_0000 && U32At(bs, 8) == c % 0x1_0000_0000
      && bs[12..] == tail
  {
    U32RoundTrip(a);
    U32RoundTrip(b);
    U32RoundTrip(c);
    hide U32Bytes;
  }

  /** Two counts, with a zero between them, and the units of the string with a NUL after them. */
  lemma MarshalledLayout(s: Text)
    ensures |Marshalled(s)| == 12 + 2 * (|Encode(s)| + 1)
    ensures U32At(Marshalled(s), 0) == U32At(Marshalled(s), 8) == (|Encode(s)| + 1) % 0x1_0000_0000
    ensures U32At(Marshalled(s), 4) == 0
    ensures ToUnits(Marshalled(s)[12..]) == Encode(s) + [0]
  {
    hide U32At, U32Bytes, ToBytes, ToUnits, Encode;
    HeaderReads(|Terminated(s)|, 0, |Terminated(s)|, ToBytes(Terminated(s)));
    UnitsOfBytes(Terminated(s));
  }

  datatype StringError = HeaderTooShort | InvalidCounts | DataTooShort

  /** What is read at `offset`, and where reading goes on; an error leaves off where it was found. */
  function Unmarshalled(b: seq<Byte>, offset: nat): (Result<Text, StringError>, nat) {
    var at := AlignOffset(offset, ALIGN4);
    if |b| < at + 12 then (Err(HeaderTooShort), at)
    else
      var maxCount, actualCount := U32At(b, at), U32At(b, at + 8);
      if actualCount > maxCount then (Err(InvalidCounts), at + 12)
      else if |b| < at + 12 + 2 * actualCount then (Err(DataTooShort), at + 12)
      else
        (Ok(WithoutNul(Decode(ToUnits(b[at + 12..at + 12 + 2 * actualCount])), 0)), at + 12 + 2 * actualCount)
  }

  lemma DecodeTerminated(s: Text)
    ensures WithoutNul(Decode(Terminated(s)), 0) == s
  {
    EncodeConcat(s, [0]);
    assert Encode([0]) == [0] by {
      assert [0][1..] == [];
    }
    DecodeInvertsEncode(s + [0]);
    assert (s + [0])[..|s|] == s;
  }

  method PutU32(buf: array<Byte>, at: nat, v: nat)
    requires at + 4 <= buf.Length
    modifies buf
    ensures buf[..] == old(buf[..])[..at] + U32Bytes(v) + old(buf[..])[at + 4..]
  {
    buf[at], buf[at + 1], buf[at + 2], buf[at + 3] := v % 256, v / 256 % 256, v / 256 / 256 % 256, v / 256 / 256 / 256 % 256;
  }

  method MarshalConformantVaryingString(s: Text) returns (bytes: seq<Byte>)
    ensures bytes == Marshalled(s)
    ensures |bytes| == 12 + 2 * (|Encode(s)| + 1)
    ensures U32At(bytes, 0) == U32At(bytes, 8) == (|Encode(s)| + 1) % 0x1_0000_0000 && U32At(bytes, 4) == 0
    ensures ToUnits(bytes[12..]) == Encode(s) + [0]
  {
    hide U32Bytes, U32At, ToBytes, ToUnits;
    MarshalledLayout(s);
    var utf16Chars := Encode(s) + [0];
    var charCount := |utf16Chars|;
    var buf := new Byte[12 + 2 * charCount];
    PutU32(buf, 0, charCount);
    PutU32(buf, 4, 0);
    PutU32(buf, 8, charCount);
    assert buf[..12] == U32Bytes(charCount) + U32Bytes(0) + U32Bytes(charCount);
    ghost var header := buf[..12];
    PutUnits(buf, 12, utf16Chars);
    return buf[..];
  }

  method UnmarshalConformantVaryingString(b: seq<Byte>, offset: nat) returns (r: Result<Text, StringError>, offset': nat)
    ensures (r, offset') == Unmarshalled(b, offset)
  {
    hide U32At, Decode;
    offset' := AlignOffset(offset, ALIGN4);
    if |b| < offset' + 12 {
      return Err(HeaderTooShort), offset';
    }
    var maxCount := U32At(b, offset');
    var actualCount := U32At(b, offset' + 8);
    offset' := offset' + 12;
    if actualCount > maxCount {
      return Err(InvalidCounts), offset';
    }
    var byteCount := actualCount * 2;
    if |b| < offset' + byteCount {
      return Err(DataTooShort), offset';
    }
    var utf16Chars := GetUnits(b, offset', actualCount);
    offset' := offset' + byteCount;
    var runes := Decode(utf16Chars);
    if |runes| > 0 && runes[|runes| - 1] == 0 {
      runes := runes[..|runes| - 1];
    }
    return Ok(runes), offset';
  }

  // ----- Lists of strings -----

  /** The strings one after the other, each from the next multiple of four on. */
  function MarshalledAll(buf: seq<Byte>, strings: seq<Text>): seq<Byte>
    decreases |strings|
  {
    if strings == [] then buf
    else MarshalledAll(Padded(buf, ALIGN4) + Marshalled(strings[0]), strings[1..])
  }

  function UnmarshalledAll(b: seq<Byte>, offset: nat, count: nat): (Result<seq<Text>, StringError>, nat)
    decreases count
  {
    if count == 0 then (Ok([]), offset)
    else
      var (first, at) := Unmarshalled(b, offset);
      match first
      case Err(e) => (Err(e), at)
      case Ok(s) =>
        var (rest, end) := UnmarshalledAll(b, at, count - 1);
        match rest
        case Err(e) => (Err(e), end)
        case Ok(ss) => (Ok([s] + ss), end)
  }

  /** The counts of the string fit the 32 bits they are sent in. */
  predicate Countable(s: Text) {
    |Encode(s)| + 1 < TWO_TO_32
  }

  lemma U32Within(before: seq<Byte>, v: nat, after: seq<Byte>)
    requires v < TWO_TO_32
    ensures U32At(before + U32Bytes(v) + after, |before|) == v
  {
    U32RoundTrip(v);
    var b, k := before + U32Bytes(v) + after, |before|;
    assert b[k] == U32Bytes(v)[0] && b[k + 1] == U32Bytes(v)[1] && b[k + 2] == U32Bytes(v)[2] && b[k + 3] == U32Bytes(v)[3];
  }

  /** A string marshalled at an aligned place is read back from any place that aligns to it, whatever follows. */
  lemma UnmarshalInvertsMarshal(before: seq<Byte>, s: Text, after: seq<Byte>, offset: nat)
    requires Countable(s) && AlignOffset(offset, ALIGN4) == |before|
    ensures Unmarshalled(before + Marshalled(s) + after, offset) == (Ok(s), |before| + |Marshalled(s)|)
  {
    hide U32At, U32Bytes, Decode, Encode, ToUnits, ToBytes, AlignOffset;
    var count, units := |Terminated(s)|, Terminated(s);
    var b, k := before + Marshalled(s) + after, |before|;
    var tail := ToBytes(units) + after;
    assert b == before + U32Bytes(count) + (U32Bytes(0) + U32Bytes(count) + tail);
    U32Within(before, count, U32Bytes(0) + U32Bytes(count) + tail);
    assert b == (before + U32Bytes(count) + U32Bytes(0)) + U32Bytes(count) + tail;
    U32Within(before + U32Bytes(count) + U32Bytes(0), count, tail);
    assert b[k + 12..k + 12 + 2 * count] == ToBytes(units);
    UnitsOfBytes(units);
    DecodeTerminated(s);
  }

  lemma CountIsSmall(s: Text)
    requires Countable(s)
    ensures (|Encode(s)| + 1) % 0x1_0000_0000 == |Encode(s)| + 1
  {
  }

  lemma ShiftedReads(before: seq<Byte>, bs: seq<Byte>, k: nat)
    requires k + 4 <= |bs|
    ensures U32At(before + bs, |before| + k) == U32At(bs, k)
  {
  }

  lemma MarshalledReads(before: seq<Byte>, s: Text)
    requires Countable(s)
    ensures var b := before + Marshalled(s);
      U32At(b, |before|) == U32At(b, |before| + 8) == |Encode(s)| + 1
  {
    hide U32At, U32Bytes, Encode;
    MarshalledLayout(s);
    CountIsSmall(s);
    ShiftedReads(before, Marshalled(s), 0);
    ShiftedReads(before, Marshalled(s), 8);
  }

  lemma PrefixReads(b: seq<Byte>, n: nat, k: nat)
    requires k + 4 <= n <= |b|
    ensures U32At(b[..n], k) == U32At(b, k)
  {
  }

  /** A marshalled string that is cut off is not read: its header is too short, or else its characters are. */
  lemma CutOffIsNotRead(before: seq<Byte>, s: Text, n: nat, offset: nat)
    requires Countable(s) && AlignOffset(offset, ALIGN4) == |before| <= n < |before + Marshalled(s)|
    ensures Unmarshalled((before + Marshalled(s))[..n], offset) ==
      if n < |before| + 12 then (Err(HeaderTooShort), |before|) else (Err(DataTooShort), |before| + 12)
  {
    hide U32At, Decode, ToUnits, Encode, AlignOffset;
    MarshalledLayout(s);
    if n >= |before| + 12 {
      MarshalledReads(before, s);
      PrefixReads(before + Marshalled(s), n, |before|);
      PrefixReads(before + Marshalled(s), n, |before| + 8);
    }
    hide Marshalled;
  }

  lemma PaddedIsAligned(buf: seq<Byte>)
    ensures |Padded(buf, ALIGN4)| == AlignOffset(|buf|, ALIGN4)
  {
  }

  /** Marshalling only appends. */
  lemma {:induction false} MarshalledAppends(buf: seq<Byte>, strings: seq<Text>)
    ensures buf <= MarshalledAll(buf, strings)
    decreases |strings|
  {
    hide Marshalled;
    if strings != [] {
      MarshalledAppends(Padded(buf, ALIGN4) + Marshalled(strings[0]), strings[1..]);
    }
  }

  /** Each string begins at the next multiple of four, with zeros up to there. */
  lemma StringBeginsAligned(buf: seq<Byte>, s: Text, more: seq<Text>) returns (padding: nat)
    ensures padding < 4 && (|buf| + padding) % 4 == 0
    ensures MarshalledAll(buf, [s] + more) == MarshalledAll(buf + Zeros(padding) + Marshalled(s), more)
  {
    hide Marshalled;
    padding := AlignOffset(|buf|, ALIGN4) - |buf|;
    assert ([s] + more)[1..] == more;
  }

  /** Any list of strings, placed after any prefix and before any suffix, is read back as the same list, with the
      offset at its end. */
  lemma {:induction false} ListRoundTrip(prefix: seq<Byte>, strings: seq<Text>, suffix: seq<Byte>)
    requires forall i :: 0 <= i < |strings| ==> Countable(strings[i])
    ensures UnmarshalledAll(MarshalledAll(prefix, strings) + suffix, |prefix|, |strings|)
         == (Ok(strings), |MarshalledAll(prefix, strings)|)
    decreases |strings|
  {
    hide Marshalled, Unmarshalled, Countable, Padded;
    if strings != [] {
      var before, first := Padded(prefix, ALIGN4), Marshalled(strings[0]);
      var b := MarshalledAll(prefix, strings) + suffix;
      MarshalledAppends(before + first, strings[1..]);
      PaddedIsAligned(prefix);
      var after := b[|before + first|..];
      assert b == before + first + after;
      UnmarshalInvertsMarshal(before, strings[0], after, |prefix|);
      ListRoundTrip(before + first, strings[1..], suffix);
      assert [strings[0]] + strings[1..] == strings;
    }
  }
}
