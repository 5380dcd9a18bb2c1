/** Unicode strings as little-endian UTF-16, as RFC 2781 sections 2.1 and 2.2 define it.

    A string is the sequence of the Unicode scalar values it holds. */
module Utf16 {
  import opened Storage

  const REPLACEMENT: Rune := 0xFFFD
  const HIGH_SURROGATES: nat := 0xD800
  const LOW_SURROGATES: nat := 0xDC00
  const AFTER_SURROGATES: nat := 0xE000
  const SUPPLEMENTARY: nat := 0x10000

  type Rune = n: nat | n < 0xD800 || 0xE000 <= n <= 0x10FFFF
  type Text = seq<Rune>
  type Unit = n: nat | n < 0x1_0000

  predicate IsHigh(u: Unit) {
    HIGH_SURROGATES <= u < LOW_SURROGATES
  }

  predicate IsLow(u: Unit) {
    LOW_SURROGATES <= u < AFTER_SURROGATES
  }

  // ----- Code units -----

  function EncodeRune(r: Rune): seq<Unit> {
    if r < SUPPLEMENTARY then [r]
    else [HIGH_SURROGATES + (r - SUPPLEMENTARY) / 0x400, LOW_SURROGATES + (r - SUPPLEMENTARY) % 0x400]
  }

  function Encode(s: Text): seq<Unit> {
    if s == [] then [] else EncodeRune(s[0]) + Encode(s[1..])
  }

  function Pair(high: Unit, low: Unit): Rune
    requires IsHigh(high) && IsLow(low)
  {
    (high - HIGH_SURROGATES) * 0x400 + (low - LOW_SURROGATES) + SUPPLEMENTARY
  }

  /** The first rune of the code units and how many of them it takes. */
  function DecodeRune(us: seq<Unit>): (r: (Rune, nat))
    requires us != []
    ensures 1 <= r.1 <= |us|
  {
    if !IsHigh(us[0]) && !IsLow(us[0]) then (us[0], 1)
    else if IsHigh(us[0]) && |us| > 1 && IsLow(us[1]) then (Pair(us[0], us[1]), 2)
    else (REPLACEMENT, 1)
  }

  function Decode(us: seq<Unit>): Text {
    if us == [] then []
    else
      var (r, n) := DecodeRune(us);
      [r] + Decode(us[n..])
  }

  lemma DecodeEncodedRune(r: Rune, more: seq<Unit>)
    ensures |EncodeRune(r)| == (if r < SUPPLEMENTARY then 1 else 2)
    ensures DecodeRune(EncodeRune(r) + more) == (r, |EncodeRune(r)|)
    ensures (EncodeRune(r) + more)[|EncodeRune(r)|..] == more
  {
  }

  /** A rune is sent as itself, or above 0xFFFF as the high and the low ten bits of the rest, the high ones first. */
  lemma EncodedAsPair(r: Rune)
    ensures r < 0x10000 ==> EncodeRune(r) == [r]
    ensures r >= 0x10000 ==> var us := EncodeRune(r);
      && |us| == 2 && 0xD800 <= us[0] < 0xDC00 && 0xDC00 <= us[1] < 0xE000
      && r == 0x10000 + 0x400 * (us[0] as int - 0xD800) + (us[1] as int - 0xDC00)
  {
    if r >= 0x10000 {
      assert r - 0x10000 == 0x400 * ((r - 0x10000) / 0x400) + (r - 0x10000) % 0x400;
    }
  }

  /** A surrogate that is not one half of a pair reads as U+FFFD, and what follows it is read as if it were not there. */
  lemma LoneSurrogateIsReplaced(us: seq<Unit>)
    requires us != [] && 0xD800 <= us[0] < 0xE000
    requires us[0] < 0xDC00 && |us| > 1 ==> !(0xDC00 <= us[1] < 0xE000)
    ensures Decode(us) == [0xFFFD] + Decode(us[1..])
  {
  }

  /** Surrogate pairs included, decoding gives back what was encoded. */
  lemma {:induction false} DecodeInvertsEncode(s: Text)
    ensures Decode(Encode(s)) == s
  {
    if s != [] {
      DecodeEncodedRune(s[0], Encode(s[1..]));
      DecodeInvertsEncode(s[1..]);
    }
  }

  /** Every surrogate is one half of a pair. */
  predicate Paired(us: seq<Unit>) {
    us == []
    || (!IsHigh(us[0]) && !IsLow(us[0]) && Paired(us[1..]))
    || (IsHigh(us[0]) && |us| > 1 && IsLow(us[1]) && Paired(us[2..]))
  }

  lemma EncodeDecodedRune(us: seq<Unit>)
    requires us != []
    ensures var (r, n) := DecodeRune(us);
      EncodeRune(r) == us[..n] <==> (!IsHigh(us[0]) && !IsLow(us[0])) || n == 2
  {
  }

  /** Exactly the units without a lone surrogate are given back when what they decode to is encoded. */
  lemma {:induction false} EncodeInvertsDecode(us: seq<Unit>)
    ensures Encode(Decode(us)) == us <==> Paired(us)
    ensures Paired(us) || |Encode(Decode(us))| == |us|
    decreases |us|
  {
    if us != [] {
      var (r, n) := DecodeRune(us);
      EncodeDecodedRune(us);
      EncodeInvertsDecode(us[n..]);
      assert us == us[..n] + us[n..];
      assert Decode(us)[1..] == Decode(us[n..]);
      assert |EncodeRune(r)| == n;
      assert Encode(Decode(us))[..n] == EncodeRune(r) && Encode(Decode(us))[n..] == Encode(Decode(us[n..]));
    }
  }

  lemma {:induction false} EncodeConcat(a: Text, b: Text)
    ensures Encode(a + b) == Encode(a) + Encode(b)
  {
    hide EncodeRune;
    if a == [] {
      assert a + b == b;
    } else {
      EncodeConcat(a[1..], b);
      assert (a + b)[1..] == a[1..] + b;
      assert EncodeRune(a[0]) + (Encode(a[1..]) + Encode(b)) == EncodeRune(a[0]) + Encode(a[1..]) + Encode(b);
    }
  }

  // ----- Bytes -----

  function UnitBytes(u: Unit): seq<Byte> {
    [u % 256, u / 256]
  }

  function ToBytes(us: seq<Unit>): (bs: seq<Byte>)
    ensures |bs| == 2 * |us|
    ensures forall i :: 0 <= i < |us| ==> bs[2 * i] == us[i] % 256 && bs[2 * i + 1] == us[i] / 256
  {
    if us == [] then [] else ToBytes(us[..|us| - 1]) + UnitBytes(us[|us| - 1])
  }

  function UnitAt(bs: seq<Byte>, k: nat): Unit
    requires k + 1 < |bs|
  {
    (bs[k] as int) + 256 * (bs[k + 1] as int)
  }

  /** Pairs of bytes as code units; an odd last byte is not looked at. */
  function ToUnits(bs: seq<Byte>): (us: seq<Unit>)
    ensures |us| == |bs| / 2
  {
    seq(|bs| / 2, i requires 0 <= i < |bs| / 2 => UnitAt(bs, 2 * i))
  }

  lemma UnitsOfBytes(us: seq<Unit>)
    ensures ToUnits(ToBytes(us)) == us
  {
    forall i | 0 <= i < |us| ensures ToUnits(ToBytes(us))[i] == us[i] {
      assert us[i] == us[i] % 256 + 256 * (us[i] / 256);
    }
  }

  // ----- Whole strings -----

  function EncodedBytes(s: Text): seq<Byte> {
    ToBytes(Encode(s))
  }

  /** A decoded string loses one trailing NUL. */
  function DecodedText(bs: seq<Byte>): Text {
    Decode(WithoutNul(ToUnits(bs), 0))
  }

  function WithoutNul<T(==)>(s: seq<T>, nul: T): seq<T> {
    if s != [] && s[|s| - 1] == nul then s[..|s| - 1] else s
  }

  lemma EncodeLast(s: Text)
    requires s != []
    ensures var most, last := s[..|s| - 1], s[|s| - 1];
      Encode(s) == Encode(most) + EncodeRune(last) && Encode(s) != [] && (Encode(s)[|Encode(s)| - 1] == 0 <==> last == 0)
  {
    var most, last := s[..|s| - 1], s[|s| - 1];
    EncodeConcat(most, [last]);
    assert most + [last] == s;
    assert Encode([last]) == EncodeRune(last) by {
      assert [last][1..] == [];
    }
  }

  lemma NothingEncoded()
    ensures Encode([]) == [] && Decode([]) == []
  {
  }

  /** Encoding and decoding again drops one trailing NUL and nothing else. */
  lemma DecodeEncodedText(s: Text)
    ensures DecodedText(EncodedBytes(s)) == WithoutNul(s, 0)
    ensures DecodedText(EncodedBytes(s)) == s <==> s == [] || s[|s| - 1] != 0
  {
    hide Encode, Decode, ToUnits, ToBytes;
    NothingEncoded();
    UnitsOfBytes(Encode(s));
    DecodeInvertsEncode(s);
    if s != [] {
      EncodeLast(s);
      if s[|s| - 1] == 0 {
        var most := s[..|s| - 1];
        DecodeInvertsEncode(most);
        assert (Encode(most) + [0])[..|Encode(most)|] == Encode(most);
      }
    }
  }

  // ----- The code -----

  /** How many bytes a string takes, without encoding it. */
  method EncodedStringLen(s: Text) returns (l: nat)
    ensures l == |EncodedBytes(s)|
  {
    l := 0;
    assert s[..0] == [];
    for i := 0 to |s|
      invariant l == 2 * |Encode(s[..i])|
    {
      EncodeLast(s[..i + 1]);
      assert s[..i + 1][..i] == s[..i];
      l := l + if SUPPLEMENTARY <= s[i] then 4 else 2;
    }
    assert s[..|s|] == s;
  }

  lemma OneUnitMore(before: seq<Byte>, now: seq<Byte>, at: nat, ws: seq<Unit>, i: nat)
    requires i < |ws| && at + 2 * |ws| <= |before|
    requires now == before[..at] + ToBytes(ws[..i]) + before[at + 2 * i..]
    ensures now[at + 2 * i := ws[i] % 256][at + 2 * i + 1 := ws[i] / 256]
         == before[..at] + ToBytes(ws[..i + 1]) + before[at + 2 * (i + 1)..]
  {
    OneUnitMoreBytes(ws, i);
    hide ToBytes;
    var head, tail := before[..at] + ToBytes(ws[..i]), before[at + 2 * i..];
    assert tail[2..] == before[at + 2 * (i + 1)..];
    assert now[at + 2 * i := ws[i] % 256][at + 2 * i + 1 := ws[i] / 256] == head + (UnitBytes(ws[i]) + tail[2..]);
  }

  lemma OneUnitMoreBytes(ws: seq<Unit>, i: nat)
    requires i < |ws|
    ensures ToBytes(ws[..i + 1]) == ToBytes(ws[..i]) + UnitBytes(ws[i])
  {
    assert ws[..i + 1][..i] == ws[..i];
  }

  /** Writes code units into a buffer that has room for them. */
  method PutUnits(dst: array<Byte>, at: nat, ws: seq<Unit>)
    requires at + 2 * |ws| <= dst.Length
    modifies dst
    ensures dst[..] == old(dst[..])[..at] + ToBytes(ws) + old(dst[..])[at + 2 * |ws|..]
  {
    hide ToBytes;
    ghost var before := dst[..];
    assert ws[..0] == [] && ToBytes([]) == [];
    for i := 0 to |ws|
      invariant dst[..] == before[..at] + ToBytes(ws[..i]) + before[at + 2 * i..]
    {
      OneUnitMore(before, dst[..], at, ws, i);
      dst[at + 2 * i] := ws[i] % 256;
      dst[at + 2 * i + 1] := ws[i] / 256;
    }
    assert ws[..|ws|] == ws;
  }

  method EncodeString(dst: array<Byte>, src: Text) returns (n: nat)
    requires |EncodedBytes(src)| <= dst.Length
    modifies dst
    ensures n == |EncodedBytes(src)| && dst[..n] == EncodedBytes(src) && dst[n..] == old(dst[n..])
  {
    hide Encode, ToBytes;
    var ws := Encode(src);
    PutUnits(dst, 0, ws);
    n := 2 * |ws|;
    assert dst[..] == EncodedBytes(src) + old(dst[..])[n..];
  }

  method EncodeStringToBytes(s: Text) returns (bs: seq<Byte>)
    ensures bs == EncodedBytes(s)
  {
    hide Encode, ToBytes;
    NothingEncoded();
    if |s| == 0 {
      return [];
    }
    var ws := Encode(s);
    var buf := new Byte[2 * |ws|];
    PutUnits(buf, 0, ws);
    return buf[..];
  }

  method GetUnits(bs: seq<Byte>, at: nat, count: nat) returns (ws: seq<Unit>)
    requires at + 2 * count <= |bs|
    ensures ws == ToUnits(bs[at..at + 2 * count])
  {
    var units := new Unit[count];
    for i := 0 to count
      invariant forall j :: 0 <= j < i ==> units[j] == ToUnits(bs[at..at + 2 * count])[j]
    {
      units[i] := UnitAt(bs, at + 2 * i);
    }
    return units[..];
  }

  method DecodeToString(bs: seq<Byte>) returns (s: Text)
    ensures s == DecodedText(bs)
  {
    if |bs| == 0 {
      return [];
    }
    var ws := GetUnits(bs, 0, |bs| / 2);
    assert ToUnits(bs[0..2 * (|bs| / 2)]) == ToUnits(bs);
    if |ws| > 0 && ws[|ws| - 1] == 0 {
      ws := ws[..|ws| - 1];
    }
    return Decode(ws);
  }
}
