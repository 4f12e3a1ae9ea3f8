/**
 * The frame length prefix: Go's `encoding/binary` unsigned varint, the
 * unsigned LEB128 of section 7.6 of DWARF 4. A number is cut into groups
 * of seven bits, least significant group first; every byte but the last
 * has its high (continuation) bit set.
 */
module Uvarint {
  import opened Base
  import opened BufIO

  /** binary.MaxVarintLen64: the longest encoding of a 64-bit value. */
  const MaxVarintLen64: nat := 10

  function Pow128(i: nat): (p: nat)
    ensures p >= 1
  {
    if i == 0 then 1 else 0x80 * Pow128(i - 1)
  }

  /** The seven value bits of a byte (`b & 0x7f`). */
  function Group(c: byte): (g: nat)
    ensures g < 0x80 && (c < 0x80 ==> g == c)
  {
    if c >= 0x80 then c - 0x80 else c
  }

  /** The number a group sequence stands for, continuation bits ignored. */
  function Value(b: seq<byte>): nat
  {
    if |b| == 0 then 0 else Group(b[0]) + 0x80 * Value(b[1..])
  }

  /** Every byte but the last carries the continuation bit, and the last does not. */
  predicate Terminated(b: seq<byte>)
  {
    && |b| >= 1
    && b[|b| - 1] < 0x80
    && forall i :: 0 <= i < |b| - 1 ==> b[i] >= 0x80
  }

  /** binary.PutUvarint: the bytes written for `x`. The encoding is minimal:
      its last group is zero only when it is the only one. */
  function PutUvarint(x: uint64): (b: seq<byte>)
    ensures Terminated(b) && Value(b) == x
    ensures |b| > 1 ==> b[|b| - 1] != 0
    decreases x
  {
    var b := if x < 0x80 then [x] else [x % 0x80 + 0x80] + PutUvarint(x / 0x80);
    assert b[1..] == if x < 0x80 then [] else PutUvarint(x / 0x80);
    b
  }

  lemma {:induction false} ValueBound(b: seq<byte>)
    ensures Value(b) < Pow128(|b|)
  {
    if |b| > 0 {
      ValueBound(b[1..]);
    }
  }

  /** A group moved to position `i` (`g << (7 * i)`). */
  function Shift(g: nat, i: nat): nat
  {
    if i == 0 then g else 0x80 * Shift(g, i - 1)
  }

  /** Bounds on a shifted group: a seven-bit group stays below the next
      power, a group of 0 or 1 within the power, a larger one beyond it. */
  lemma {:induction false} ShiftBounds(g: nat, i: nat)
    requires g < 0x80
    ensures Shift(g, i) <= 0x7f * Pow128(i)
    ensures g <= 1 ==> Shift(g, i) <= Pow128(i)
    ensures g >= 2 ==> Shift(g, i) >= 2 * Pow128(i)
  {
    if i > 0 {
      ShiftBounds(g, i - 1);
    }
  }

  /** Appending a group adds it at the next position. */
  lemma {:induction false} ValueSnoc(b: seq<byte>, c: byte)
    ensures Value(b + [c]) == Value(b) + Shift(Group(c), |b|)
  {
    if |b| > 0 {
      assert (b + [c])[1..] == b[1..] + [c];
      ValueSnoc(b[1..], c);
    } else {
      assert (b + [c])[1..] == [];
    }
  }

  lemma {:induction false} PowMonotonic(i: nat, j: nat)
    requires i <= j
    ensures Pow128(i) <= Pow128(j)
    decreases j
  {
    if i < j {
      PowMonotonic(i, j - 1);
    }
  }

  /** The powers the 64-bit bound is checked against. */
  lemma Pow128Values()
    ensures Pow128(9) == 0x8000_0000_0000_0000
    ensures Pow128(10) == 0x40_0000_0000_0000_0000
  {
    assert Pow128(1) == 0x80;
    assert Pow128(2) == 0x4000;
    assert Pow128(3) == 0x20_0000;
    assert Pow128(4) == 0x1000_0000;
    assert Pow128(5) == 0x8_0000_0000;
    assert Pow128(6) == 0x400_0000_0000;
    assert Pow128(7) == 0x2_0000_0000_0000;
    assert Pow128(8) == 0x100_0000_0000_0000;
  }

  /** A prefix of at most ten groups whose tenth group is 0 or 1 fits 64 bits. */
  lemma ValueFits(b: seq<byte>)
    requires 1 <= |b| <= MaxVarintLen64 && b[|b| - 1] < 0x80
    requires |b| == MaxVarintLen64 ==> b[|b| - 1] <= 1
    ensures Value(b) < 0x1_0000_0000_0000_0000
  {
    var n := |b|;
    var p := b[..n - 1];
    assert p + [b[n - 1]] == b;
    ValueSnoc(p, b[n - 1]);
    ValueBound(p);
    ShiftBounds(Group(b[n - 1]), n - 1);
    Pow128Values();
    if n < MaxVarintLen64 {
      PowMonotonic(n, 9);
      assert Value(b) < Pow128(n);
    }
  }

  lemma {:induction false} PutShort(x: uint64, k: nat)
    requires k >= 1 && x < Pow128(k)
    ensures |PutUvarint(x)| <= k
    decreases k
  {
    if x >= 0x80 {
      PutShort(x / 0x80, k - 1);
    }
  }

  /** The length prefix fits the ten-byte frame buffer. */
  lemma PutUvarintLength(x: uint64)
    ensures 1 <= |PutUvarint(x)| <= MaxVarintLen64
  {
    Pow128Values();
    PutShort(x, 10);
  }

  /** Reference decoding of the length prefix at the head of `s`, scanning
      from group `i`: the value and the number of bytes it takes, or None
      when no complete prefix that fits 64 bits is there. */
  function DecodeFrom(s: seq<byte>, i: nat): (d: Option<(uint64, nat)>)
    requires i <= MaxVarintLen64 && i <= |s|
    ensures d.Some? ==> var (v, n) := d.value;
              i < n <= MaxVarintLen64 && n <= |s| && s[n - 1] < 0x80 && Value(s[..n]) == v
    decreases MaxVarintLen64 - i
  {
    if i == MaxVarintLen64 || i == |s| then None
    else if s[i] < 0x80 then
      if i == MaxVarintLen64 - 1 && s[i] > 1 then None
      else
        ValueFits(s[..i + 1]);
        Some((Value(s[..i + 1]), i + 1))
    else DecodeFrom(s, i + 1)
  }

  function Decode(s: seq<byte>): (d: Option<(uint64, nat)>)
    ensures d.Some? ==> var (v, n) := d.value;
              1 <= n <= MaxVarintLen64 && n <= |s| && s[n - 1] < 0x80 && Value(s[..n]) == v
  {
    DecodeFrom(s, 0)
  }

  /** A terminated prefix is decoded wherever the scan starts inside it. */
  lemma {:induction false} DecodeTerminated(s: seq<byte>, n: nat, i: nat)
    requires i < n <= |s| && n <= MaxVarintLen64 && Terminated(s[..n])
    requires n == MaxVarintLen64 ==> s[n - 1] <= 1
    ensures DecodeFrom(s, i) == Some((Value(s[..n]), n))
    decreases n - i
  {
    assert s[i] == s[..n][i];
    if i < n - 1 {
      DecodeTerminated(s, n, i + 1);
    }
  }

  /** Decoding what PutUvarint wrote gives back the number and its exact
      byte count, whatever follows it. */
  lemma DecodePut(x: uint64, rest: seq<byte>)
    ensures Decode(PutUvarint(x) + rest) == Some((x, |PutUvarint(x)|))
  {
    var b := PutUvarint(x);
    var s := b + rest;
    var n := |b|;
    PutUvarintLength(x);
    assert s[..n] == b;
    if n == MaxVarintLen64 {
      LastGroupOfLongest(b);
    }
    DecodeTerminated(s, n, 0);
  }

  /** A ten-byte encoding of a 64-bit number ends in group 0 or 1. */
  lemma LastGroupOfLongest(b: seq<byte>)
    requires |b| == MaxVarintLen64 && Terminated(b) && Value(b) < 0x1_0000_0000_0000_0000
    ensures b[|b| - 1] <= 1
  {
    var p := b[..9];
    assert p + [b[9]] == b;
    ValueSnoc(p, b[9]);
    ShiftBounds(Group(b[9]), 9);
    Pow128Values();
  }

  /** The errors ReadUvarint can end with on a stream that has ended. */
  predicate ReadFailure(e: Error) {
    e == EOF || e == UnexpectedEOF || e == VarintOverflow
  }

  /** binary.ReadUvarint on the buffered reader: one ReadByte per group.
      It succeeds exactly when the reference decoding finds a prefix, and
      then it consumes exactly that prefix. */
  function ReadUvarint(r: Reader): (out: Read<uint64>)
    ensures out.r.stream == r.stream && out.r.end == r.end && r.pos <= out.r.pos
    ensures out.res.Ok? <==> Decode(Remaining(r)).Some?
    ensures out.res.Ok? ==> Decode(Remaining(r)) == Some((out.res.value, out.r.pos - r.pos))
    ensures Remaining(r) == [] ==> out.res == Err(EndError(r.end))
    ensures Remaining(r) != [] ==> r.pos < out.r.pos
    ensures out.res.Err? && r.end == AtEOF ==>
              ReadFailure(out.res.error)
  {
    ReadLoopDecodes(r, r.pos, 0);
    ReadLoop(r, r.pos, 0)
  }

  /** One turn of the reference scan, told by the byte at group `i`. */
  lemma DecodeStep(s: seq<byte>, i: nat)
    requires i < MaxVarintLen64 && i <= |s|
    ensures i == |s| ==> DecodeFrom(s, i).None?
    ensures i < |s| && s[i] < 0x80 && (i < MaxVarintLen64 - 1 || s[i] <= 1) ==>
              Value(s[..i + 1]) < 0x1_0000_0000_0000_0000
              && DecodeFrom(s, i) == Some((Value(s[..i + 1]), i + 1))
    ensures i < |s| && s[i] < 0x80 && i == MaxVarintLen64 - 1 && s[i] > 1 ==> DecodeFrom(s, i).None?
    ensures i < |s| && s[i] >= 0x80 && i == MaxVarintLen64 - 1 ==> DecodeFrom(s, i).None?
    ensures i < |s| && s[i] >= 0x80 && i < MaxVarintLen64 - 1 ==>
              DecodeFrom(s, i) == DecodeFrom(s, i + 1)
  {
    if i < |s| && s[i] < 0x80 && (i < MaxVarintLen64 - 1 || s[i] <= 1) {
      ValueFits(s[..i + 1]);
    }
  }

  /** The loop of binary.ReadUvarint after `i` continuation bytes read from
      `start` on. The number it returns is the value of the groups read
      (ReadLoopDecodes). */
  function ReadLoop(r: Reader, start: nat, i: nat): (out: Read<uint64>)
    requires i < MaxVarintLen64 && start + i == r.pos
    ensures out.r.stream == r.stream && out.r.end == r.end && r.pos <= out.r.pos
    ensures r.pos == |r.stream| ==> out.res == Err(if i > 0 && r.end == AtEOF then UnexpectedEOF else EndError(r.end))
    ensures r.pos < |r.stream| ==> r.pos < out.r.pos
    ensures out.res.Err? && r.end == AtEOF ==> ReadFailure(out.res.error)
    decreases MaxVarintLen64 - i
  {
    var b := ReadByte(r);
    if b.res.Err? then
      Read(Err(if i > 0 && b.res.error == EOF then UnexpectedEOF else b.res.error), b.r)
    else
      var c := b.res.value;
      if c < 0x80 then
        if i == MaxVarintLen64 - 1 && c > 1 then Read(Err(VarintOverflow), b.r)
        else
          ValueFits(r.stream[start..r.pos + 1]);
          Read(Ok(Value(r.stream[start..r.pos + 1])), b.r)
      else if i == MaxVarintLen64 - 1 then
        Read(Err(VarintOverflow), b.r)
      else
        ReadLoop(b.r, start, i + 1)
  }

  /** The loop succeeds exactly when the reference scan from group `i` on
      finds a prefix, and then it returns that prefix's value and stops
      right after it. */
  lemma {:induction false} ReadLoopDecodes(r: Reader, start: nat, i: nat)
    requires i < MaxVarintLen64 && start + i == r.pos
    ensures ReadLoop(r, start, i).res.Ok? <==> DecodeFrom(r.stream[start..], i).Some?
    ensures ReadLoop(r, start, i).res.Ok? ==>
              && DecodeFrom(r.stream[start..], i).value.0 == ReadLoop(r, start, i).res.value
              && DecodeFrom(r.stream[start..], i).value.1 == ReadLoop(r, start, i).r.pos - start
    decreases MaxVarintLen64 - i
  {
    var s := r.stream[start..];
    DecodeStep(s, i);
    if r.pos < |r.stream| {
      var c := r.stream[r.pos];
      assert c == s[i];
      if i == MaxVarintLen64 - 1 && (c >= 0x80 || c > 1) {
        LoopOverflow(r, start, i);
      } else if c < 0x80 {
        LoopLastGroup(r, start, i);
      } else {
        var r1 := ReadByte(r).r;
        LoopNextGroup(r, start, i);
        assert r1.stream[start..] == s;
        ReadLoopDecodes(r1, start, i + 1);
      }
    }
  }

  /** The first `n` bytes after `start` are the slice from `start` of length `n`. */
  lemma SuffixPrefix(t: seq<byte>, start: nat, n: nat)
    requires start + n <= |t|
    ensures t[start..][..n] == t[start..start + n]
  {
  }

  /** A last group the loop accepts ends it with the value read so far. */
  lemma LoopLastGroup(r: Reader, start: nat, i: nat)
    requires i < MaxVarintLen64 && start + i == r.pos && r.pos < |r.stream| && r.stream[r.pos] < 0x80
    requires i < MaxVarintLen64 - 1 || r.stream[r.pos] <= 1
    ensures ReadLoop(r, start, i).res == Ok(Value(r.stream[start..][..i + 1]))
    ensures ReadLoop(r, start, i).r.pos == r.pos + 1
  {
    SuffixPrefix(r.stream, start, i + 1);
  }

  /** A tenth group that carries the continuation bit or more than one bit
      of value overflows. */
  lemma LoopOverflow(r: Reader, start: nat, i: nat)
    requires i == MaxVarintLen64 - 1 && start + i == r.pos && r.pos < |r.stream| && r.stream[r.pos] > 1
    ensures ReadLoop(r, start, i).res == Err(VarintOverflow)
  {
  }

  /** A continuation byte before the tenth group hands over to the next turn. */
  lemma LoopNextGroup(r: Reader, start: nat, i: nat)
    requires i < MaxVarintLen64 - 1 && start + i == r.pos && r.pos < |r.stream| && r.stream[r.pos] >= 0x80
    ensures ReadByte(r).r.pos == r.pos + 1
    ensures ReadLoop(r, start, i) == ReadLoop(ReadByte(r).r, start, i + 1)
  {
  }

  /** Reading back a prefix written by PutUvarint yields the number and
      leaves the reader right after the prefix. */
  lemma ReadPut(r: Reader, x: uint64, rest: seq<byte>)
    requires Remaining(r) == PutUvarint(x) + rest
    ensures ReadUvarint(r).res == Ok(x)
    ensures ReadUvarint(r).r.pos == r.pos + |PutUvarint(x)|
  {
    DecodePut(x, rest);
  }

  /** How much of the stream the buffer holds does not change what
      ReadUvarint returns or how far it reads. */
  lemma {:induction false} ReadLoopIgnoresBuffer(r1: Reader, r2: Reader, start: nat, i: nat)
    requires r1.stream == r2.stream && r1.pos == r2.pos && r1.end == r2.end
    requires i < MaxVarintLen64 && start + i == r1.pos
    ensures ReadLoop(r1, start, i).res == ReadLoop(r2, start, i).res
    ensures ReadLoop(r1, start, i).r.pos == ReadLoop(r2, start, i).r.pos
    decreases MaxVarintLen64 - i
  {
    if r1.pos < |r1.stream| && r1.stream[r1.pos] >= 0x80 && i < MaxVarintLen64 - 1 {
      ReadLoopIgnoresBuffer(ReadByte(r1).r, ReadByte(r2).r, start, i + 1);
    }
  }

  lemma ReadUvarintIgnoresBuffer(r1: Reader, r2: Reader)
    requires r1.stream == r2.stream && r1.pos == r2.pos && r1.end == r2.end
    ensures ReadUvarint(r1).res == ReadUvarint(r2).res
    ensures ReadUvarint(r1).r.pos == ReadUvarint(r2).r.pos
  {
    ReadLoopIgnoresBuffer(r1, r2, r1.pos, 0);
  }
}
