/** The bytes of a remote file, and what reading a range into a buffer and writing a range over it mean. */
module Storage {
  type Byte = b: int | 0 <= b < 256

  function Min(a: nat, b: nat): nat {
    if a < b then a else b
  }

  /** How many bytes the file holds from `offset` on. */
  function Available(content: seq<Byte>, offset: nat): nat {
    if offset <= |content| then |content| - offset else 0
  }

  // ----- Reading -----

  /** Exactly the bytes [start, start+n) of the buffer changed, to the file's bytes from `offset` on. */
  ghost predicate ReadInto(before: seq<Byte>, after: seq<Byte>, start: nat, n: nat, content: seq<Byte>, offset: nat) {
    && |after| == |before|
    && start + n <= |before|
    && n <= Available(content, offset)
    && (forall p :: 0 <= p < |before| ==>
          after[p] == if start <= p < start + n then content[offset + p - start] else before[p])
  }

  lemma ReadNothing(buf: seq<Byte>, start: nat, content: seq<Byte>, offset: nat)
    requires start <= |buf|
    ensures ReadInto(buf, buf, start, 0, content, offset)
  {
  }

  lemma ReadIntoGoesOn(b0: seq<Byte>, b1: seq<Byte>, b2: seq<Byte>, start: nat, n: nat, m: nat, content: seq<Byte>, offset: nat)
    requires ReadInto(b0, b1, start, n, content, offset)
    requires ReadInto(b1, b2, start + n, m, content, offset + n)
    ensures ReadInto(b0, b2, start, n + m, content, offset) && n + m <= Available(content, offset)
  {
  }

  lemma ReadIntoIsPrefix(before: seq<Byte>, after: seq<Byte>, n: nat, content: seq<Byte>, offset: nat)
    requires ReadInto(before, after, 0, n, content, offset) && offset <= |content|
    ensures after[..n] == content[offset..offset + n] && after[n..] == before[n..]
  {
  }

  lemma AdjacentSlices(content: seq<Byte>, a: nat, b: nat, c: nat)
    requires a <= b <= c <= |content|
    ensures content[a..b] + content[b..c] == content[a..c]
  {
  }

  // ----- Writing -----

  function Zeros(n: nat): seq<Byte> {
    seq(n, _ => 0)
  }

  /** The file after `data` was written at `offset`; a gap beyond the old end reads as zeros. */
  function Overwrite(content: seq<Byte>, offset: nat, data: seq<Byte>): seq<Byte> {
    if data == [] then content
    else
      var padded := if |content| < offset then content + Zeros(offset - |content|) else content;
      padded[..offset] + data + (if offset + |data| < |content| then content[offset + |data|..] else [])
  }

  function ByteAt(content: seq<Byte>, p: nat): Byte {
    if p < |content| then content[p] else 0
  }

  lemma OverwriteBytes(content: seq<Byte>, offset: nat, data: seq<Byte>)
    ensures var c := Overwrite(content, offset, data);
      && |c| == (if data != [] && offset + |data| > |content| then offset + |data| else |content|)
      && (forall p: nat :: ByteAt(c, p) == if offset <= p < offset + |data| then data[p - offset] else ByteAt(content, p))
  {
  }

  lemma SameBytesSameFile(c: seq<Byte>, d: seq<Byte>)
    requires |c| == |d| && forall p: nat :: ByteAt(c, p) == ByteAt(d, p)
    ensures c == d
  {
    forall p: nat | p < |c| ensures c[p] == d[p] {
      assert ByteAt(c, p) == ByteAt(d, p);
    }
  }

  /** Writing two adjacent pieces is writing them as one. */
  lemma OverwriteAdjacent(content: seq<Byte>, offset: nat, a: seq<Byte>, b: seq<Byte>)
    ensures Overwrite(Overwrite(content, offset, a), offset + |a|, b) == Overwrite(content, offset, a + b)
  {
    hide Overwrite;
    OverwriteBytes(content, offset, a);
    OverwriteBytes(Overwrite(content, offset, a), offset + |a|, b);
    OverwriteBytes(content, offset, a + b);
    SameBytesSameFile(Overwrite(Overwrite(content, offset, a), offset + |a|, b), Overwrite(content, offset, a + b));
  }
}
