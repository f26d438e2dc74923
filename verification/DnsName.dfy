/** Domain names on the wire (RFC 1035 section 4.1.4): the packer, and the reader that follows
    compression pointers. */
module DnsName {
  import opened Bytes
  import opened Wrappers

  const MAX_JUMPS := 16

  // ----- packing -----

  predicate IsSpace(b: Byte) { b == 32 || 9 <= b <= 13 }

  function TrimLeft(s: Bytes): Bytes {
    if s != [] && IsSpace(s[0]) then TrimLeft(s[1..]) else s
  }

  function TrimRight(s: Bytes): Bytes {
    if s != [] && IsSpace(s[|s| - 1]) then TrimRight(s[..|s| - 1]) else s
  }

  /** The form a name is packed in: trimmed, lowercased, one trailing dot removed. */
  function Canonical(name: Bytes): Bytes {
    TrimDot(Lower(TrimRight(TrimLeft(name))))
  }

  datatype PackError = EmptyLabel | LabelTooLong | NameTooLong

  /** The packed labels and the terminator, or the first complaint; `total` counts the bytes so
      far, terminator included. */
  function PackLabels(labels: seq<Bytes>, total: nat): Result<Bytes, PackError> {
    if labels == [] then Ok([0])
    else if labels[0] == [] then Err(EmptyLabel)
    else if |labels[0]| > 63 then Err(LabelTooLong)
    else if total + |labels[0]| + 1 > 255 then Err(NameTooLong)
    else
      match PackLabels(labels[1..], total + |labels[0]| + 1)
      case Err(e) => Err(e)
      case Ok(rest) => Ok([|labels[0]|] + labels[0] + rest)
  }

  function Labels(name: Bytes): seq<Bytes> {
    if Canonical(name) == [] then [] else Split(Canonical(name), DOT)
  }

  function Packed(name: Bytes): Result<Bytes, PackError> {
    PackLabels(Labels(name), 1)
  }

  method PackName(dst: Bytes, name: Bytes) returns (res: Result<Bytes, PackError>)
    ensures res == match Packed(name) case Err(e) => Err(e) case Ok(b) => Ok(dst + b)
  {
    var canon := Canonical(name);
    if canon == [] { return Ok(dst + [0]); }
    var labels := Split(canon, DOT);
    var out := dst;
    var total: nat := 1;
    for i := 0 to |labels|
      invariant match PackLabels(labels[i..], total)
        case Err(e) => Packed(name) == Err(e)
        case Ok(rest) => Packed(name).Ok? && dst + Packed(name).value == out + rest
    {
      var lab := labels[i];
      assert labels[i..][1..] == labels[i + 1..];
      if lab == [] { return Err(EmptyLabel); }
      if |lab| > 63 { return Err(LabelTooLong); }
      total := total + |lab| + 1;
      if total > 255 { return Err(NameTooLong); }
      ghost var before := out;
      out := out + [|lab|];
      out := out + lab;
      assert forall rest :: before + ([|lab|] + lab + rest) == out + rest;
    }
    return Ok(out + [0]);
  }

  // ----- reading -----

  datatype ReadError = UnexpectedEOF | BadPointer | ReservedLabel

  /** The 14-bit target of the pointer at off. */
  function PointerAt(msg: Bytes, off: nat): nat
    requires off + 2 <= |msg|
  {
    U16(msg[off..off + 2]) % 0x4000
  }

  /** What a read at off yields after `jumps` pointers: the lowercased labels and the offset just
      past the name AT off, which for a pointer is just past the pointer. */
  function ReadFrom(msg: Bytes, off: nat, jumps: nat): Result<(seq<Bytes>, nat), ReadError>
    requires jumps <= MAX_JUMPS
    decreases MAX_JUMPS - jumps, |msg| - off
  {
    if off >= |msg| then Err(UnexpectedEOF)
    else
      var n := msg[off];
      if n == 0 then Ok(([], off + 1))
      else if n >= 0xC0 then
        if off + 1 >= |msg| then Err(UnexpectedEOF)
        else
          var ptr := PointerAt(msg, off);
          if jumps + 1 > MAX_JUMPS || ptr >= |msg| then Err(BadPointer)
          else
            match ReadFrom(msg, ptr, jumps + 1)
            case Err(e) => Err(e)
            case Ok((labels, _)) => Ok((labels, off + 2))
      else if n >= 0x40 then Err(ReservedLabel)
      else if off + 1 + n > |msg| then Err(UnexpectedEOF)
      else
        match ReadFrom(msg, off + 1 + n, jumps)
        case Err(e) => Err(e)
        case Ok((labels, end)) => Ok(([Lower(msg[off + 1..off + 1 + n])] + labels, end))
  }

  /** Declaratively: the labels spelled at off by following exactly `jumps` pointers, ending at
      `end`. */
  ghost predicate Spells(msg: Bytes, off: nat, jumps: nat, labels: seq<Bytes>, end: nat)
    decreases jumps, |labels|, 0
  {
    off < |msg| &&
    var n := msg[off];
    if n == 0 then labels == [] && jumps == 0 && end == off + 1
    else if n >= 0xC0 then
      && off + 2 <= |msg| && jumps > 0 && end == off + 2
      && SpellsSomewhere(msg, Number(n - 0xC0, msg[off + 1]), jumps - 1, labels)
    else
      && n < 0x40 && off + 1 + n <= |msg| && labels != []
      && labels[0] == Lower(msg[off + 1..off + 1 + n])
      && Spells(msg, off + 1 + n, jumps, labels[1..], end)
  }

  ghost predicate SpellsSomewhere(msg: Bytes, off: nat, jumps: nat, labels: seq<Bytes>)
    decreases jumps, |labels|, 1
  {
    exists end :: Spells(msg, off, jumps, labels, end)
  }

  /** Walks a DNS message. */
  class Reader {
    const msg: Bytes
    var off: nat

    constructor (msg: Bytes, off: nat)
      ensures this.msg == msg && this.off == off
    {
      this.msg := msg;
      this.off := off;
    }

    method Take(n: nat) returns (res: Result<Bytes, ReadError>)
      modifies this
      ensures old(off) + n > |msg| ==> res == Err(UnexpectedEOF) && off == old(off)
      ensures old(off) + n <= |msg| ==> res == Ok(msg[old(off)..old(off) + n]) && off == old(off) + n
    {
      if off + n > |msg| { return Err(UnexpectedEOF); }
      var b := msg[off..off + n];
      off := off + n;
      return Ok(b);
    }

    method TakeU16() returns (res: Result<nat, ReadError>)
      modifies this
      ensures old(off) + 2 > |msg| ==> res == Err(UnexpectedEOF) && off == old(off)
      ensures old(off) + 2 <= |msg| ==> res == Ok(U16(msg[old(off)..old(off) + 2])) && off == old(off) + 2
    {
      var b := Take(2);
      match b {
        case Err(e) => return Err(e);
        case Ok(v) => return Ok(U16(v));
      }
    }

    method TakeU32() returns (res: Result<nat, ReadError>)
      modifies this
      ensures old(off) + 4 > |msg| ==> res == Err(UnexpectedEOF) && off == old(off)
      ensures old(off) + 4 <= |msg| ==> res == Ok(U32(msg[old(off)..old(off) + 4])) && off == old(off) + 4
    {
      var b := Take(4);
      match b {
        case Err(e) => return Err(e);
        case Ok(v) => return Ok(U32(v));
      }
    }

    /** Reads a possibly compressed name: lowercased, no trailing dot, the root as "". A failed
        read leaves the offset alone. */
    method Name() returns (res: Result<Bytes, ReadError>)
      modifies this
      ensures match ReadFrom(msg, old(off), 0)
        case Err(e) => res == Err(e) && off == old(off)
        case Ok((labels, end)) => res == Ok(Join(labels, DOT)) && off == end
    {
      var labels: seq<Bytes> := [];
      var at: nat, ret: int, jumps: nat := off, -1, 0;
      ghost var whole := ReadFrom(msg, off, 0);
      if whole.Ok? { assert labels + whole.value.0 == whole.value.0; }
      while true
        invariant jumps <= MAX_JUMPS && ret >= -1
        invariant off == old(off)
        invariant match ReadFrom(msg, at, jumps)
          case Err(e) => whole == Err(e)
          case Ok((rest, end)) => whole.Ok? && whole.value == (labels + rest, if ret < 0 then end else ret)
        decreases MAX_JUMPS - jumps, |msg| - at
      {
        if at >= |msg| { return Err(UnexpectedEOF); }
        var n := msg[at];
        if n == 0 {
          at := at + 1;
          if ret < 0 { ret := at; }
          off := ret;
          assert labels + [] == labels;
          return Ok(Join(labels, DOT));
        } else if n >= 0xC0 {
          if at + 1 >= |msg| { return Err(UnexpectedEOF); }
          var ptr := PointerAt(msg, at);
          at := at + 2;
          if ret < 0 { ret := at; }
          if jumps + 1 > MAX_JUMPS || ptr >= |msg| { return Err(BadPointer); }
          jumps := jumps + 1;
          at := ptr;
        } else if n >= 0x40 {
          return Err(ReservedLabel);
        } else {
          if at + 1 + n > |msg| { return Err(UnexpectedEOF); }
          var lab := Lower(msg[at + 1..at + 1 + n]);
          ghost var next := ReadFrom(msg, at + 1 + n, jumps);
          if next.Ok? { assert labels + ([lab] + next.value.0) == labels + [lab] + next.value.0; }
          labels := labels + [lab];
          at := at + 1 + n;
        }
      }
    }
  }

  // ----- main results -----

  ghost predicate SpelledWithin(msg: Bytes, off: nat, limit: nat, labels: seq<Bytes>, end: nat) {
    exists jumps: nat | jumps <= limit :: Spells(msg, off, jumps, labels, end)
  }

  /** A read succeeds exactly when the message spells the name with at most 16 pointers, and
      returns that name and its end. */
  lemma ReadIffSpelled(msg: Bytes, off: nat, labels: seq<Bytes>, end: nat)
    ensures ReadFrom(msg, off, 0) == Ok((labels, end)) <==> SpelledWithin(msg, off, 16, labels, end)
  {
    if ReadFrom(msg, off, 0) == Ok((labels, end)) {
      var jumps := ReadIsSpelled(msg, off, 0);
      assert Spells(msg, off, jumps, labels, end);
    }
    if SpelledWithin(msg, off, 16, labels, end) {
      var jumps: nat :| jumps <= 16 && Spells(msg, off, jumps, labels, end);
      SpelledIsRead(msg, off, 0, jumps, labels, end);
    }
  }

  lemma PointerNumber(msg: Bytes, off: nat)
    requires off + 2 <= |msg| && msg[off] >= 0xC0
    ensures PointerAt(msg, off) == Number(msg[off] - 0xC0, msg[off + 1])
  {
    assert U16(msg[off..off + 2]) == 0xC000 + Number(msg[off] - 0xC0, msg[off + 1]);
  }

  lemma {:induction false} ReadIsSpelled(msg: Bytes, off: nat, used: nat) returns (jumps: nat)
    requires used <= MAX_JUMPS && ReadFrom(msg, off, used).Ok?
    ensures used + jumps <= MAX_JUMPS
    ensures var (labels, end) := ReadFrom(msg, off, used).value; Spells(msg, off, jumps, labels, end)
    decreases MAX_JUMPS - used, |msg| - off
  {
    var n := msg[off];
    if n == 0 {
      jumps := 0;
    } else if n >= 0xC0 {
      PointerNumber(msg, off);
      jumps := ReadIsSpelled(msg, PointerAt(msg, off), used + 1);
      jumps := jumps + 1;
    } else {
      jumps := ReadIsSpelled(msg, off + 1 + n, used);
    }
  }

  lemma {:induction false} SpelledIsRead(msg: Bytes, off: nat, used: nat, jumps: nat, labels: seq<Bytes>, end: nat)
    requires used + jumps <= MAX_JUMPS && Spells(msg, off, jumps, labels, end)
    ensures ReadFrom(msg, off, used) == Ok((labels, end))
    decreases jumps, |labels|
  {
    var n := msg[off];
    if n == 0 {
    } else if n >= 0xC0 {
      var ptr := PointerAt(msg, off);
      PointerNumber(msg, off);
      var target :| Spells(msg, ptr, jumps - 1, labels, target);
      SpelledIsRead(msg, ptr, used + 1, jumps - 1, labels, target);
    } else {
      SpelledIsRead(msg, off + 1 + n, used, jumps, labels[1..], end);
      assert [labels[0]] + labels[1..] == labels;
    }
  }

  predicate IsLower(s: Bytes) {
    forall b | b in s :: LowerByte(b) == b
  }

  lemma LowerOfLower(s: Bytes)
    requires IsLower(s)
    ensures Lower(s) == s
  {
    assert forall i | 0 <= i < |s| :: LowerByte(s[i]) == s[i];
  }

  lemma LabelThen(msg: Bytes, off: nat, used: nat, l: Bytes, rest: seq<Bytes>, end: nat)
    requires used <= MAX_JUMPS && 0 < |l| < 64 && off < |msg| && msg[off] == |l| && At(msg, off + 1, l)
    requires ReadFrom(msg, off + 1 + |l|, used) == Ok((rest, end))
    ensures ReadFrom(msg, off, used) == Ok(([Lower(l)] + rest, end))
  {
  }

  /** Packed labels, wherever they stand in a message, read back with the offset just past them. */
  lemma {:induction false} PackedLabelsRead(msg: Bytes, off: nat, labels: seq<Bytes>, total: nat, used: nat)
    requires used <= MAX_JUMPS && PackLabels(labels, total).Ok?
    requires forall l | l in labels :: IsLower(l)
    requires At(msg, off, PackLabels(labels, total).value)
    ensures ReadFrom(msg, off, used) == Ok((labels, off + |PackLabels(labels, total).value|))
    decreases |labels|
  {
    PackedFirst(msg, off, labels, total);
    if labels != [] {
      var l := labels[0];
      PackedHead(msg, off, labels, total);
      PackedLabelsRead(msg, off + 1 + |l|, labels[1..], total + |l| + 1, used);
      LowerOfLower(l);
      LabelThen(msg, off, used, l, labels[1..], off + |PackLabels(labels, total).value|);
      assert [labels[0]] + labels[1..] == labels;
    }
  }

  lemma PackedFirst(msg: Bytes, off: nat, labels: seq<Bytes>, total: nat)
    requires PackLabels(labels, total).Ok? && At(msg, off, PackLabels(labels, total).value)
    ensures off < |msg| && msg[off] == if labels == [] then 0 else |labels[0]|
    ensures labels == [] ==> |PackLabels(labels, total).value| == 1
    ensures labels != [] ==> 0 < |labels[0]| < 64
  {
    var packed := PackLabels(labels, total).value;
    assert msg[off..off + |packed|][0] == packed[0];
  }

  lemma PackedHead(msg: Bytes, off: nat, labels: seq<Bytes>, total: nat)
    requires PackLabels(labels, total).Ok? && labels != [] && At(msg, off, PackLabels(labels, total).value)
    ensures var l := labels[0]; var tail := PackLabels(labels[1..], total + |l| + 1);
      && |PackLabels(labels, total).value| == 1 + |l| + |tail.value|
      && At(msg, off + 1, l) && At(msg, off + 1 + |l|, tail.value)
  {
    var l := labels[0];
    var packed, tail := PackLabels(labels, total).value, PackLabels(labels[1..], total + |l| + 1).value;
    PartAt(msg, off, packed, 1, 1 + |l|);
    PartAt(msg, off, packed, 1 + |l|, |packed|);
    assert packed[1..1 + |l|] == l && packed[1 + |l|..|packed|] == tail;
  }

  lemma LabelsLower(name: Bytes)
    ensures forall l | l in Labels(name) :: IsLower(l)
    ensures Join(Labels(name), DOT) == Canonical(name)
  {
    var canon := Canonical(name);
    JoinSplit(canon, DOT);
    assert IsLower(canon);
    SplitParts(canon, DOT);
  }

  lemma {:induction false} SplitParts(s: Bytes, sep: Byte)
    ensures forall p, b | p in Split(s, sep) && b in p :: b in s
  {
    if s != [] {
      SplitParts(s[1..], sep);
      var rest := Split(s[1..], sep);
      forall p, b | p in Split(s, sep) && b in p ensures b in s {
        if p != [] && s[0] != sep && p == [s[0]] + rest[0] {
          assert b == s[0] || b in rest[0];
        }
      }
    }
  }

  /** Packing, at any position of any message, then reading: the canonical name and the offset
      just past it. */
  lemma PackThenRead(msg: Bytes, off: nat, name: Bytes)
    requires Packed(name).Ok? && At(msg, off, Packed(name).value)
    ensures ReadFrom(msg, off, 0).Ok?
    ensures var (labels, end) := ReadFrom(msg, off, 0).value;
      Join(labels, DOT) == Canonical(name) && end == off + |Packed(name).value|
  {
    LabelsLower(name);
    PackedLabelsRead(msg, off, Labels(name), 1, 0);
  }

  /** A packed name takes at most 255 bytes. */
  lemma {:induction false} PackedLength(labels: seq<Bytes>, total: nat)
    requires PackLabels(labels, total).Ok? && 1 <= total <= 255
    ensures total - 1 + |PackLabels(labels, total).value| <= 255
  {
    if labels != [] { PackedLength(labels[1..], total + |labels[0]| + 1); }
  }
}
