/** Byte strings, big-endian integers and ASCII text. */
module Bytes {
  type Byte = b: int | 0 <= b < 256

  type Bytes = seq<Byte>

  // ----- big-endian integers: an append truncates to its width, as Go's conversions do -----

  function PutU16(v: nat): (b: Bytes)
    ensures |b| == 2
  {
    [v / 0x100 % 0x100, v % 0x100]
  }

  function PutU32(v: nat): (b: Bytes)
    ensures |b| == 4
  {
    PutU16(v / 0x1_0000) + PutU16(v)
  }

  function PutU48(v: nat): (b: Bytes)
    ensures |b| == 6
  {
    PutU16(v / 0x1_0000_0000) + PutU32(v)
  }

  function U16(b: Bytes): (v: nat)
    requires |b| == 2
    ensures v < 0x1_0000
  {
    var high: nat := b[0];
    high * 0x100 + b[1]
  }

  /** Two bytes of a message as a number, the more significant first. */
  function Number(high: nat, low: nat): nat {
    high * 256 + low
  }

  function U32(b: Bytes): (v: nat)
    requires |b| == 4
    ensures v < 0x1_0000_0000
  {
    U16(b[..2]) * 0x1_0000 + U16(b[2..])
  }

  function U48(b: Bytes): (v: nat)
    requires |b| == 6
  {
    U16(b[..2]) * 0x1_0000_0000 + U32(b[2..])
  }

  lemma ReadBackU16(v: nat)
    ensures U16(PutU16(v)) == v % 0x1_0000
  {
  }

  lemma ReadBackU32(v: nat)
    ensures U32(PutU32(v)) == v % 0x1_0000_0000
  {
    var high, low := PutU16(v / 0x1_0000), PutU16(v);
    assert (high + low)[..2] == high && (high + low)[2..] == low;
    ReadBackU16(v / 0x1_0000);
    ReadBackU16(v);
    TwoDigits(v);
  }

  lemma ReadBackU48(v: nat)
    ensures U48(PutU48(v)) == v % 0x1_0000_0000_0000
  {
    var high, low := PutU16(v / 0x1_0000_0000), PutU32(v);
    assert (high + low)[..2] == high && (high + low)[2..] == low;
    ReadBackU16(v / 0x1_0000_0000);
    ReadBackU32(v);
    ThreeDigits(v);
  }

  lemma TwoDigits(v: nat)
    ensures v / 0x1_0000 % 0x1_0000 * 0x1_0000 + v % 0x1_0000 == v % 0x1_0000_0000
  {
  }

  lemma ThreeDigits(v: nat)
    ensures v / 0x1_0000_0000 % 0x1_0000 * 0x1_0000_0000 + v % 0x1_0000_0000 == v % 0x1_0000_0000_0000
  {
  }

  // ----- text -----

  const DOT: Byte := 46

  function TrimDot(s: Bytes): Bytes {
    if s != [] && s[|s| - 1] == DOT then s[..|s| - 1] else s
  }

  function LowerByte(b: Byte): Byte {
    if 'A' as int <= b <= 'Z' as int then b + 32 else b
  }

  function Lower(s: Bytes): (l: Bytes)
    ensures |l| == |s|
  {
    seq(|s|, i requires 0 <= i < |s| => LowerByte(s[i]))
  }

  /** Splits at every separator, as strings.Split does: n separators give n + 1 pieces. */
  function Split(s: Bytes, sep: Byte): (parts: seq<Bytes>)
    ensures |parts| > 0
    ensures forall p | p in parts :: sep !in p
  {
    if s == [] then [[]]
    else
      var rest := Split(s[1..], sep);
      if s[0] == sep then [[]] + rest else [[s[0]] + rest[0]] + rest[1..]
  }

  function Join(parts: seq<Bytes>, sep: Byte): Bytes {
    if |parts| == 0 then []
    else if |parts| == 1 then parts[0]
    else parts[0] + [sep] + Join(parts[1..], sep)
  }

  lemma {:induction false} JoinSplit(s: Bytes, sep: Byte)
    ensures Join(Split(s, sep), sep) == s
  {
    if s != [] {
      JoinSplit(s[1..], sep);
      var rest := Split(s[1..], sep);
      if s[0] == sep {
        assert Split(s, sep)[1..] == rest;
      } else {
        assert Split(s, sep)[1..] == rest[1..];
      }
    }
  }

  lemma {:induction false} SplitJoin(parts: seq<Bytes>, sep: Byte)
    requires |parts| > 0 && forall p | p in parts :: sep !in p
    ensures Split(Join(parts, sep), sep) == parts
  {
    if |parts| == 1 {
      SplitWhole(parts[0], sep);
    } else {
      SplitJoin(parts[1..], sep);
      SplitFirst(parts[0], Join(parts[1..], sep), sep);
      assert parts[0] + [sep] + Join(parts[1..], sep) == parts[0] + ([sep] + Join(parts[1..], sep));
    }
  }

  lemma {:induction false} SplitWhole(s: Bytes, sep: Byte)
    requires sep !in s
    ensures Split(s, sep) == [s]
  {
    if s != [] {
      SplitWhole(s[1..], sep);
      assert [s[0]] + s[1..] == s;
    }
  }

  lemma {:induction false} SplitFirst(s: Bytes, rest: Bytes, sep: Byte)
    requires sep !in s
    ensures Split(s + ([sep] + rest), sep) == [s] + Split(rest, sep)
  {
    if s == [] {
      assert s + ([sep] + rest) == [sep] + rest;
    } else {
      assert (s + ([sep] + rest))[1..] == s[1..] + ([sep] + rest);
      SplitFirst(s[1..], rest, sep);
      assert [s[0]] + s[1..] == s;
      assert ([s[1..]] + Split(rest, sep))[1..] == Split(rest, sep);
    }
  }

  // ----- pieces of a longer message -----

  lemma Regroup<T>(a: seq<T>, b: seq<T>, c: seq<T>)
    ensures a + (b + c) == (a + b) + c
  {
  }

  predicate At(msg: Bytes, off: nat, piece: Bytes) {
    off + |piece| <= |msg| && msg[off..off + |piece|] == piece
  }

  lemma Appended(msg: Bytes, piece: Bytes)
    ensures At(msg + piece, |msg|, piece)
  {
  }

  lemma StillAt(msg: Bytes, more: Bytes, off: nat, piece: Bytes)
    requires At(msg, off, piece)
    ensures At(msg + more, off, piece)
  {
  }

  /** Eight pieces appended one after the other are each where the lengths say. */
  lemma Pieces(a: Bytes, b: Bytes, c: Bytes, d: Bytes, e: Bytes, f: Bytes, g: Bytes, h: Bytes)
    ensures var w := a + b + c + d + e + f + g + h;
      var n2 := |a| + |b|; var n3 := n2 + |c|; var n4 := n3 + |d|; var n5 := n4 + |e|; var n6 := n5 + |f|;
      var n7 := n6 + |g|;
      && At(w, 0, a) && At(w, |a|, b) && At(w, n2, c) && At(w, n3, d) && At(w, n4, e)
      && At(w, n5, f) && At(w, n6, g) && At(w, n7, h) && |w| == n7 + |h|
  {
    var m := a + b + c + d;
    FourPieces(a, b, c, d);
    StillAtPastFour(m, e, f, g, h, 0, a);
    StillAtPastFour(m, e, f, g, h, |a|, b);
    StillAtPastFour(m, e, f, g, h, |a| + |b|, c);
    StillAtPastFour(m, e, f, g, h, |a| + |b| + |c|, d);
    FourPieces(m, e, f, g);
    StillAt(m + e + f + g, h, |m|, e);
    StillAt(m + e + f + g, h, |m| + |e|, f);
    StillAt(m + e + f + g, h, |m| + |e| + |f|, g);
    Appended(m + e + f + g, h);
  }

  lemma FourPieces(a: Bytes, b: Bytes, c: Bytes, d: Bytes)
    ensures var w := a + b + c + d;
      At(w, 0, a) && At(w, |a|, b) && At(w, |a| + |b|, c) && At(w, |a| + |b| + |c|, d)
  {
  }

  lemma StillAtPastFour(m: Bytes, e: Bytes, f: Bytes, g: Bytes, h: Bytes, off: nat, piece: Bytes)
    requires At(m, off, piece)
    ensures At(m + e + f + g + h, off, piece)
  {
    StillAt(m, e, off, piece);
    StillAt(m + e, f, off, piece);
    StillAt(m + e + f, g, off, piece);
    StillAt(m + e + f + g, h, off, piece);
  }

  /** A part of a piece is where it should be. */
  lemma PartAt(msg: Bytes, off: nat, piece: Bytes, from: nat, to: nat)
    requires At(msg, off, piece) && from <= to <= |piece|
    ensures At(msg, off + from, piece[from..to])
  {
    var whole := msg[off..off + |piece|];
    forall i | 0 <= i < to - from ensures piece[from..to][i] == msg[off + from..off + to][i] {
      assert whole[from + i] == msg[off + (from + i)];
    }
  }
}
