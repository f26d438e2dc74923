/** A TSIG-signed dynamic UPDATE (RFC 2136 section 2, RFC 8945 sections 4.2 and 4.3): building
    it, signing it and reading it back. The MAC is an arbitrary function of the bytes signed. */
module DnsUpdate {
  import opened Bytes
  import opened DnsName
  import opened Wrappers

  const TYPE_SOA := 6
  const TYPE_TXT := 16
  const TYPE_TSIG := 250
  const CLASS_IN := 1
  const CLASS_NONE := 254
  const CLASS_ANY := 255
  const OPCODE_UPDATE := 5
  const TSIG_FUDGE := 300

  /** The solver's fixed configuration; a MAC of the supported algorithms is at most 64 bytes. */
  datatype Solver = Solver(keyName: Bytes, algorithm: Bytes, ttl: nat, mac: Bytes -> Bytes) {
    ghost predicate Valid() {
      ttl < 0x1_0000_0000 && forall m :: |mac(m)| <= 64
    }
  }

  datatype BuildError = ValueTooLong | BadName(why: PackError) | TooShortToSign

  // ----- building; every spec below appends in the order the code does -----

  function Header(id: nat): Bytes {
    PutU16(id) + PutU16(OPCODE_UPDATE * 0x800) + PutU16(1) + PutU16(0) + PutU16(1) + PutU16(0)
  }

  function ZoneSection(dst: Bytes, zone: Bytes): Bytes {
    dst + zone + PutU16(TYPE_SOA) + PutU16(CLASS_IN)
  }

  /** One resource record: owner, type, class, TTL, RDLENGTH, RDATA. */
  function RecordBytes(dst: Bytes, owner: Bytes, typ: nat, class_: nat, ttl: nat, rdata: Bytes): Bytes {
    dst + owner + PutU16(typ) + PutU16(class_) + PutU32(ttl) + PutU16(|rdata|) + rdata
  }

  /** The TSIG variables the MAC covers after the message (section 4.3.3 of RFC 8945). */
  function TsigVariables(key: Bytes, alg: Bytes, now: nat): Bytes {
    key + PutU16(CLASS_ANY) + PutU32(0) + alg + PutU48(now) + PutU16(TSIG_FUDGE) + PutU16(0) + PutU16(0)
  }

  function TsigRdata(alg: Bytes, now: nat, mac: Bytes, id: nat): Bytes {
    alg + PutU48(now) + PutU16(TSIG_FUDGE) + PutU16(|mac|) + mac + PutU16(id) + PutU16(0) + PutU16(0)
  }

  /** msg with its ADCOUNT field set to n. */
  function WithAdditional(msg: Bytes, n: nat): (out: Bytes)
    requires |msg| >= 12
    ensures |out| == |msg|
  {
    msg[..10] + PutU16(n) + msg[12..]
  }

  /** msg with a TSIG record appended and counted. */
  function Sealed(msg: Bytes, key: Bytes, rdata: Bytes): Bytes
    requires |msg| >= 12
  {
    WithAdditional(RecordBytes(msg, key, TYPE_TSIG, CLASS_ANY, 0, rdata), 1)
  }

  function SignedMessage(s: Solver, msg: Bytes, now: nat): Bytes
    requires |msg| >= 12 && Packed(s.keyName).Ok? && Packed(s.algorithm).Ok?
  {
    var key, alg := Packed(s.keyName).value, Packed(s.algorithm).value;
    var mac := s.mac(msg + TsigVariables(key, alg, now));
    Sealed(msg, key, TsigRdata(alg, now, mac, U16(msg[..2])))
  }

  /** signTSIG: the MAC is over msg as it stands; the count is raised only afterwards. */
  method SignTSIG(s: Solver, msg: Bytes, now: nat) returns (res: Result<Bytes, BuildError>)
    ensures |msg| < 12 ==> res == Err(TooShortToSign)
    ensures |msg| >= 12 && !(Packed(s.keyName).Ok? && Packed(s.algorithm).Ok?) ==> res.Err? && res.error.BadName?
    ensures |msg| >= 12 && Packed(s.keyName).Ok? && Packed(s.algorithm).Ok? ==> res == Ok(SignedMessage(s, msg, now))
  {
    if |msg| < 12 { return Err(TooShortToSign); }
    var packed := PackName([], s.keyName);
    if packed.Err? { return Err(BadName(packed.error)); }
    var vars := packed.value;
    assert vars == Packed(s.keyName).value;
    vars := vars + PutU16(CLASS_ANY);
    vars := vars + PutU32(0);
    packed := PackName(vars, s.algorithm);
    if packed.Err? { return Err(BadName(packed.error)); }
    vars := packed.value;
    vars := vars + PutU48(now);
    vars := vars + PutU16(TSIG_FUDGE);
    vars := vars + PutU16(0);
    vars := vars + PutU16(0);
    var sum := s.mac(msg + vars);

    packed := PackName([], s.algorithm);
    var rdata := packed.value;
    assert rdata == Packed(s.algorithm).value;
    rdata := rdata + PutU48(now);
    rdata := rdata + PutU16(TSIG_FUDGE);
    rdata := rdata + PutU16(|sum|);
    rdata := rdata + sum;
    rdata := rdata + PutU16(U16(msg[..2]));
    rdata := rdata + PutU16(0);
    rdata := rdata + PutU16(0);

    packed := PackName(msg, s.keyName);
    var out := packed.value;
    out := out + PutU16(TYPE_TSIG);
    out := out + PutU16(CLASS_ANY);
    out := out + PutU32(0);
    out := out + PutU16(|rdata|);
    out := out + rdata;
    out := out[..10] + PutU16(1) + out[12..];
    return Ok(out);
  }

  predicate Packs(s: Solver, zone: Bytes, name: Bytes) {
    Packed(zone).Ok? && Packed(name).Ok? && Packed(s.keyName).Ok? && Packed(s.algorithm).Ok?
  }

  /** The message before it is signed. */
  function Unsigned(s: Solver, zone: Bytes, name: Bytes, value: Bytes, add: bool, id: nat): (msg: Bytes)
    requires Packed(zone).Ok? && Packed(name).Ok? && |value| <= 255
    ensures |msg| >= 12
  {
    RecordBytes(ZoneSection(Header(id), Packed(zone).value), Packed(name).value,
                TYPE_TXT, if add then CLASS_IN else CLASS_NONE, if add then s.ttl else 0, [|value|] + value)
  }

  method BuildUpdate(s: Solver, zone: Bytes, name: Bytes, value: Bytes, add: bool, id: nat, now: nat)
    returns (res: Result<Bytes, BuildError>)
    ensures res.Ok? <==> |value| <= 255 && Packs(s, zone, name)
    ensures res.Ok? ==> res.value == SignedMessage(s, Unsigned(s, zone, name, value, add, id), now)
  {
    if |value| > 255 { return Err(ValueTooLong); }
    var buf := PutU16(id);
    buf := buf + PutU16(OPCODE_UPDATE * 0x800);
    buf := buf + PutU16(1);
    buf := buf + PutU16(0);
    buf := buf + PutU16(1);
    buf := buf + PutU16(0);
    var packed := PackName(buf, zone);
    if packed.Err? { return Err(BadName(packed.error)); }
    buf := packed.value;
    buf := buf + PutU16(TYPE_SOA);
    buf := buf + PutU16(CLASS_IN);
    packed := PackName(buf, name);
    if packed.Err? { return Err(BadName(packed.error)); }
    buf := packed.value;
    var class_, ttl := CLASS_IN, s.ttl;
    if !add {
      class_, ttl := CLASS_NONE, 0;
    }
    buf := buf + PutU16(TYPE_TXT);
    buf := buf + PutU16(class_);
    buf := buf + PutU32(ttl);
    buf := buf + PutU16(|value| + 1);
    ghost var framed := buf;
    buf := buf + [|value|];
    buf := buf + value;
    assert buf == framed + ([|value|] + value);
    assert buf == Unsigned(s, zone, name, value, add, id);
    res := SignTSIG(s, buf, now);
  }

  // ----- reading -----

  datatype Record = Record(owner: Bytes, typ: nat, class_: nat, ttl: nat, rdata: Bytes)

  /** The record at off and the offset just past it. */
  function RecordAt(msg: Bytes, off: nat): Result<(Record, nat), ReadError> {
    match ReadFrom(msg, off, 0)
    case Err(e) => Err(e)
    case Ok((labels, a)) => AfterOwner(msg, a, Join(labels, DOT))
  }

  function AfterOwner(msg: Bytes, a: nat, owner: Bytes): Result<(Record, nat), ReadError> {
    if a + 10 > |msg| then Err(UnexpectedEOF)
    else
      var n := U16(msg[a + 8..a + 10]);
      if a + 10 + n > |msg| then Err(UnexpectedEOF)
      else Ok((Record(owner, U16(msg[a..a + 2]), U16(msg[a + 2..a + 4]), U32(msg[a + 4..a + 8]),
                      msg[a + 10..a + 10 + n]),
               a + 10 + n))
  }

  method ReadRecord(r: Reader) returns (res: Result<Record, ReadError>)
    modifies r
    ensures match RecordAt(r.msg, old(r.off))
      case Err(e) => res == Err(e)
      case Ok((rec, end)) => res == Ok(rec) && r.off == end
  {
    var owner := r.Name();
    if owner.Err? { return Err(owner.error); }
    var typ := r.TakeU16();
    if typ.Err? { return Err(typ.error); }
    var class_ := r.TakeU16();
    if class_.Err? { return Err(class_.error); }
    var ttl := r.TakeU32();
    if ttl.Err? { return Err(ttl.error); }
    var n := r.TakeU16();
    if n.Err? { return Err(n.error); }
    var rdata := r.Take(n.value);
    if rdata.Err? { return Err(rdata.error); }
    return Ok(Record(owner.value, typ.value, class_.value, ttl.value, rdata.value));
  }

  // ----- the round trip -----

  /** The pieces of a record, one after the other at off. */
  predicate RecordLies(msg: Bytes, off: nat, owner: Bytes, typ: nat, class_: nat, ttl: nat, rdata: Bytes) {
    var a := off + |owner|;
    At(msg, off, owner) && At(msg, a, PutU16(typ)) && At(msg, a + 2, PutU16(class_))
    && At(msg, a + 4, PutU32(ttl)) && At(msg, a + 8, PutU16(|rdata|)) && At(msg, a + 10, rdata)
  }

  lemma RecordLiesAppended(dst: Bytes, owner: Bytes, typ: nat, class_: nat, ttl: nat, rdata: Bytes)
    ensures RecordLies(RecordBytes(dst, owner, typ, class_, ttl, rdata), |dst|, owner, typ, class_, ttl, rdata)
    ensures |RecordBytes(dst, owner, typ, class_, ttl, rdata)| == |dst| + |owner| + 10 + |rdata|
  {
    Pieces(dst, owner, PutU16(typ), PutU16(class_), PutU32(ttl), PutU16(|rdata|), rdata, []);
    assert RecordBytes(dst, owner, typ, class_, ttl, rdata) + [] == RecordBytes(dst, owner, typ, class_, ttl, rdata);
  }

  lemma RecordReads(msg: Bytes, off: nat, owner: Bytes, typ: nat, class_: nat, ttl: nat, rdata: Bytes)
    requires Packed(owner).Ok? && RecordLies(msg, off, Packed(owner).value, typ, class_, ttl, rdata)
    requires typ < 0x1_0000 && class_ < 0x1_0000 && ttl < 0x1_0000_0000 && |rdata| < 0x1_0000
    ensures RecordAt(msg, off) ==
      Ok((Record(Canonical(owner), typ, class_, ttl, rdata), off + |Packed(owner).value| + 10 + |rdata|))
  {
    ReadBackU16(typ);
    ReadBackU16(class_);
    ReadBackU32(ttl);
    ReadBackU16(|rdata|);
    RecordInPlace(msg, off, owner, typ, class_, ttl, rdata, PutU16(typ), PutU16(class_), PutU32(ttl), PutU16(|rdata|));
  }

  lemma RecordInPlace(msg: Bytes, off: nat, owner: Bytes, typ: nat, class_: nat, ttl: nat, rdata: Bytes,
                      typeBytes: Bytes, classBytes: Bytes, ttlBytes: Bytes, sizeBytes: Bytes)
    requires Packed(owner).Ok? && At(msg, off, Packed(owner).value)
    requires |typeBytes| == |classBytes| == |sizeBytes| == 2 && |ttlBytes| == 4
    requires U16(typeBytes) == typ && U16(classBytes) == class_ && U32(ttlBytes) == ttl && U16(sizeBytes) == |rdata|
    requires var a := off + |Packed(owner).value|;
      At(msg, a, typeBytes) && At(msg, a + 2, classBytes) && At(msg, a + 4, ttlBytes)
      && At(msg, a + 8, sizeBytes) && At(msg, a + 10, rdata)
    ensures RecordAt(msg, off) ==
      Ok((Record(Canonical(owner), typ, class_, ttl, rdata), off + |Packed(owner).value| + 10 + |rdata|))
  {
    AfterOwnerReads(msg, off + |Packed(owner).value|, Canonical(owner), typ, class_, ttl, rdata,
                    typeBytes, classBytes, ttlBytes, sizeBytes);
    OwnerThen(msg, off, owner, AfterOwner(msg, off + |Packed(owner).value|, Canonical(owner)));
  }

  lemma OwnerThen(msg: Bytes, off: nat, owner: Bytes, rest: Result<(Record, nat), ReadError>)
    requires Packed(owner).Ok? && At(msg, off, Packed(owner).value)
    requires AfterOwner(msg, off + |Packed(owner).value|, Canonical(owner)) == rest
    ensures RecordAt(msg, off) == rest
  {
    PackThenRead(msg, off, owner);
    var (labels, a) := ReadFrom(msg, off, 0).value;
    assert RecordAt(msg, off) == AfterOwner(msg, a, Join(labels, DOT));
  }

  /** The fields after the owner, whatever bytes spell them. */
  lemma AfterOwnerReads(msg: Bytes, a: nat, owner: Bytes, typ: nat, class_: nat, ttl: nat, rdata: Bytes,
                        typeBytes: Bytes, classBytes: Bytes, ttlBytes: Bytes, sizeBytes: Bytes)
    requires |typeBytes| == |classBytes| == |sizeBytes| == 2 && |ttlBytes| == 4
    requires U16(typeBytes) == typ && U16(classBytes) == class_ && U32(ttlBytes) == ttl && U16(sizeBytes) == |rdata|
    requires At(msg, a, typeBytes) && At(msg, a + 2, classBytes) && At(msg, a + 4, ttlBytes)
    requires At(msg, a + 8, sizeBytes) && At(msg, a + 10, rdata)
    ensures AfterOwner(msg, a, owner) == Ok((Record(owner, typ, class_, ttl, rdata), a + 10 + |rdata|))
  {
  }

  /** Raising the count touches nothing from byte 12 on. */
  lemma AtPastHeader(msg: Bytes, n: nat, off: nat, piece: Bytes)
    requires |msg| >= 12 && off >= 12 && At(msg, off, piece)
    ensures At(WithAdditional(msg, n), off, piece)
  {
    var out := WithAdditional(msg, n);
    forall i | 0 <= i < |piece| ensures out[off + i] == piece[i] {
      assert msg[off..off + |piece|][i] == msg[off + i];
    }
  }

  lemma RecordPastHeader(msg: Bytes, n: nat, off: nat, owner: Bytes, typ: nat, class_: nat, ttl: nat, rdata: Bytes)
    requires |msg| >= 12 && off >= 12 && RecordLies(msg, off, owner, typ, class_, ttl, rdata)
    ensures RecordLies(WithAdditional(msg, n), off, owner, typ, class_, ttl, rdata)
  {
    var a := off + |owner|;
    AtPastHeader(msg, n, off, owner);
    AtPastHeader(msg, n, a, PutU16(typ));
    AtPastHeader(msg, n, a + 2, PutU16(class_));
    AtPastHeader(msg, n, a + 4, PutU32(ttl));
    AtPastHeader(msg, n, a + 8, PutU16(|rdata|));
    AtPastHeader(msg, n, a + 10, rdata);
  }

  /** The TSIG RDATA, field by field. */
  datatype Tsig = Tsig(algorithm: Bytes, time: nat, fudge: nat, mac: Bytes, originalId: nat, error: nat, otherLen: nat)

  function TsigAt(rdata: Bytes): Result<Tsig, ReadError> {
    match ReadFrom(rdata, 0, 0)
    case Err(e) => Err(e)
    case Ok((labels, a)) => AfterAlgorithm(rdata, a, Join(labels, DOT))
  }

  function AfterAlgorithm(rdata: Bytes, a: nat, alg: Bytes): Result<Tsig, ReadError> {
    if a + 10 > |rdata| then Err(UnexpectedEOF)
    else
      var b := a + 10 + U16(rdata[a + 8..a + 10]);
      if b + 6 > |rdata| then Err(UnexpectedEOF)
      else Ok(Tsig(alg, U48(rdata[a..a + 6]), U16(rdata[a + 6..a + 8]), rdata[a + 10..b],
                   U16(rdata[b..b + 2]), U16(rdata[b + 2..b + 4]), U16(rdata[b + 4..b + 6])))
  }

  lemma TsigReads(alg: Bytes, now: nat, mac: Bytes, id: nat)
    requires Packed(alg).Ok? && |mac| < 0x1_0000 && id < 0x1_0000 && now < 0x1_0000_0000_0000
    ensures var rdata := TsigRdata(Packed(alg).value, now, mac, id);
      && |rdata| == |Packed(alg).value| + 16 + |mac|
      && TsigAt(rdata) == Ok(Tsig(Canonical(alg), now, TSIG_FUDGE, mac, id, 0, 0))
  {
    ReadBackU48(now);
    ReadBackU16(TSIG_FUDGE);
    ReadBackU16(|mac|);
    ReadBackU16(id);
    ReadBackU16(0);
    TsigOfPieces(alg, now, mac, id, PutU48(now), PutU16(TSIG_FUDGE), PutU16(|mac|), PutU16(id), PutU16(0));
  }

  predicate TsigFields(now: nat, mac: Bytes, id: nat, time: Bytes, fudge: Bytes, size: Bytes, origin: Bytes,
                       zero: Bytes)
  {
    && |time| == 6 && |fudge| == 2 && |size| == 2 && |origin| == 2 && |zero| == 2
    && U48(time) == now && U16(fudge) == TSIG_FUDGE && U16(size) == |mac| && U16(origin) == id && U16(zero) == 0
  }

  lemma TsigOfPieces(alg: Bytes, now: nat, mac: Bytes, id: nat, time: Bytes, fudge: Bytes, size: Bytes, origin: Bytes,
                     zero: Bytes)
    requires Packed(alg).Ok? && TsigFields(now, mac, id, time, fudge, size, origin, zero)
    ensures var rdata := Packed(alg).value + time + fudge + size + mac + origin + zero + zero;
      TsigAt(rdata) == Ok(Tsig(Canonical(alg), now, TSIG_FUDGE, mac, id, 0, 0))
  {
    var p := Packed(alg).value;
    var rdata := p + time + fudge + size + mac + origin + zero + zero;
    Pieces(p, time, fudge, size, mac, origin, zero, zero);
    AfterAlgorithmReads(rdata, |p|, Canonical(alg), now, mac, id, time, fudge, size, origin, zero);
    AlgorithmThen(rdata, alg, AfterAlgorithm(rdata, |p|, Canonical(alg)));
  }

  lemma AlgorithmThen(rdata: Bytes, alg: Bytes, rest: Result<Tsig, ReadError>)
    requires Packed(alg).Ok? && At(rdata, 0, Packed(alg).value)
    requires AfterAlgorithm(rdata, |Packed(alg).value|, Canonical(alg)) == rest
    ensures TsigAt(rdata) == rest
  {
    PackThenRead(rdata, 0, alg);
  }

  /** The fields after the algorithm, whatever bytes spell them. */
  lemma AfterAlgorithmReads(rdata: Bytes, a: nat, alg: Bytes, now: nat, mac: Bytes, id: nat,
                            time: Bytes, fudge: Bytes, size: Bytes, origin: Bytes, zero: Bytes)
    requires TsigFields(now, mac, id, time, fudge, size, origin, zero)
    requires At(rdata, a, time) && At(rdata, a + 6, fudge) && At(rdata, a + 8, size) && At(rdata, a + 10, mac)
    requires var b := a + 10 + |mac|; At(rdata, b, origin) && At(rdata, b + 2, zero) && At(rdata, b + 4, zero)
    ensures AfterAlgorithm(rdata, a, alg) == Ok(Tsig(alg, now, TSIG_FUDGE, mac, id, 0, 0))
  {
  }

  /** What the MAC covers behind the message: the key's name, class ANY, no TTL, the algorithm, the time, a
      fudge of 300, no error and no other data, and nothing more. */
  predicate VariablesLie(vars: Bytes, key: Bytes, alg: Bytes, now: nat) {
    var k, a := |key|, |key| + 6 + |alg|;
    && |vars| == a + 12
    && At(vars, 0, key) && At(vars, k, [0, 255]) && At(vars, k + 2, [0, 0, 0, 0]) && At(vars, k + 6, alg)
    && At(vars, a, PutU48(now)) && At(vars, a + 6, [1, 44]) && At(vars, a + 8, [0, 0]) && At(vars, a + 10, [0, 0])
  }

  lemma VariablesInPlace(key: Bytes, alg: Bytes, now: nat)
    ensures VariablesLie(TsigVariables(key, alg, now), key, alg, now)
  {
    Pieces(key, PutU16(CLASS_ANY), PutU32(0), alg, PutU48(now), PutU16(TSIG_FUDGE), PutU16(0), PutU16(0));
    assert PutU16(CLASS_ANY) == [0, 255] && PutU16(TSIG_FUDGE) == [1, 44] && PutU16(0) == [0, 0];
    assert PutU32(0) == [0, 0, 0, 0];
  }

  /** The signature of any message reads back as its last record: owner the key, every field as
      configured, and the MAC of exactly that message followed by the TSIG variables. */
  lemma SignatureReads(s: Solver, plain: Bytes, now: nat)
    requires s.Valid() && 12 <= |plain| && Packed(s.keyName).Ok? && Packed(s.algorithm).Ok? && now < 0x1_0000_0000_0000
    ensures var msg := SignedMessage(s, plain, now);
      var vars := TsigVariables(Packed(s.keyName).value, Packed(s.algorithm).value, now);
      && |plain| <= |msg| <= |plain| + 600
      && RecordAt(msg, |plain|).Ok?
      && var (tsig, end) := RecordAt(msg, |plain|).value;
         && end == |msg|
         && tsig == Record(Canonical(s.keyName), 250, 255, 0, tsig.rdata)
         && TsigAt(tsig.rdata)
            == Ok(Tsig(Canonical(s.algorithm), now, 300, s.mac(plain + vars), U16(plain[..2]), 0, 0))
  {
    var key, alg, id := Packed(s.keyName).value, Packed(s.algorithm).value, U16(plain[..2]);
    var mac := s.mac(plain + TsigVariables(key, alg, now));
    var rdata := TsigRdata(alg, now, mac, id);
    PackedLength(Labels(s.keyName), 1);
    PackedLength(Labels(s.algorithm), 1);
    SealAppends(plain, key, rdata);
    TsigReads(s.algorithm, now, mac, id);
    RecordReads(Sealed(plain, key, rdata), |plain|, s.keyName, TYPE_TSIG, CLASS_ANY, 0, rdata);
  }

  /** The zone section and the TXT record of a built update read back from the signed message,
      and the signature is the record that follows. */
  lemma UpdateReads(s: Solver, zone: Bytes, name: Bytes, value: Bytes, add: bool, id: nat, now: nat)
    requires s.Valid() && Packs(s, zone, name) && |value| <= 255
    ensures var plain := Unsigned(s, zone, name, value, add, id);
      ZoneThenRecord(SignedMessage(s, plain, now), Canonical(zone),
        Record(Canonical(name), 16, if add then 1 else 254, if add then s.ttl else 0, [|value|] + value),
        |plain|)
  {
    var class_, ttl, txt := if add then CLASS_IN else CLASS_NONE, if add then s.ttl else 0, [|value|] + value;
    var plain := Unsigned(s, zone, name, value, add, id);
    PlainPieces(s, zone, name, value, add, id);
    SignedLayoutReads(s, plain, now, zone, name, class_, ttl, txt);
  }

  /** Read in order from byte 12: the zone's name, type SOA, class IN, and the record, which ends
      at `end`. */
  predicate ZoneThenRecord(msg: Bytes, zone: Bytes, rec: Record, end: nat) {
    match ReadFrom(msg, 12, 0)
    case Err(_) => false
    case Ok((labels, z)) =>
      && Join(labels, DOT) == zone
      && At(msg, z, PutU16(6)) && At(msg, z + 2, PutU16(1))
      && RecordAt(msg, z + 4) == Ok((rec, end))
  }

  lemma LayoutReads(msg: Bytes, zone: Bytes, name: Bytes, class_: nat, ttl: nat, txt: Bytes)
    requires Packed(zone).Ok? && Packed(name).Ok?
    requires Layout(msg, Packed(zone).value, Packed(name).value, class_, ttl, txt)
    requires class_ < 0x1_0000 && ttl < 0x1_0000_0000 && |txt| < 0x1_0000
    ensures ZoneThenRecord(msg, Canonical(zone), Record(Canonical(name), TYPE_TXT, class_, ttl, txt),
                           26 + |Packed(zone).value| + |Packed(name).value| + |txt|)
  {
    RecordReads(msg, 16 + |Packed(zone).value|, name, TYPE_TXT, class_, ttl, txt);
    PackThenRead(msg, 12, zone);
  }

  lemma HeaderSpelled(id: Bytes)
    ensures id + PutU16(OPCODE_UPDATE * 0x800) + PutU16(1) + PutU16(0) + PutU16(1) + PutU16(1)
         == id + [0x28, 0, 0, 1, 0, 0, 0, 1, 0, 1]
  {
    assert PutU16(OPCODE_UPDATE * 0x800) == [0x28, 0] && PutU16(0) == [0, 0] && PutU16(1) == [0, 1];
  }

  /** The header carries the id and the section counts of the sections present: one zone, no
      prerequisite, one update, one additional. The whole message fits a 16-bit length. */
  lemma HeaderReads(s: Solver, zone: Bytes, name: Bytes, value: Bytes, add: bool, id: nat, now: nat)
    requires s.Valid() && Packs(s, zone, name) && |value| <= 255 && now < 0x1_0000_0000_0000
    ensures var plain := Unsigned(s, zone, name, value, add, id); var msg := SignedMessage(s, plain, now);
      && U16(plain[..2]) == id % 0x1_0000 && |msg| < 0x1_0000
      && msg[..12] == PutU16(id) + [0x28, 0, 0, 1, 0, 0, 0, 1, 0, 1]
  {
    var plain := Unsigned(s, zone, name, value, add, id);
    var key, alg := Packed(s.keyName).value, Packed(s.algorithm).value;
    PackedLength(Labels(zone), 1);
    PackedLength(Labels(name), 1);
    PlainPieces(s, zone, name, value, add, id);
    HeaderPieces(id);
    HeaderSpelled(PutU16(id));
    ReadBackU16(id);
    assert plain[..10] == plain[..12][..10] && plain[..2] == plain[..12][..2];
    SignatureReads(s, plain, now);
    SealAppends(plain, key, TsigRdata(alg, now, s.mac(plain + TsigVariables(key, alg, now)), U16(plain[..2])));
  }

  /** A message's zone section and update record, in their places. */
  predicate Layout(msg: Bytes, z: Bytes, n: Bytes, class_: nat, ttl: nat, txt: Bytes) {
    && At(msg, 12, z) && At(msg, 12 + |z|, PutU16(TYPE_SOA)) && At(msg, 14 + |z|, PutU16(CLASS_IN))
    && RecordLies(msg, 16 + |z|, n, TYPE_TXT, class_, ttl, txt)
  }

  lemma SignedLayoutReads(s: Solver, plain: Bytes, now: nat, zone: Bytes, name: Bytes, class_: nat, ttl: nat,
                          txt: Bytes)
    requires |plain| >= 12 && Packs(s, zone, name)
    requires Layout(plain, Packed(zone).value, Packed(name).value, class_, ttl, txt)
    requires class_ < 0x1_0000 && ttl < 0x1_0000_0000 && |txt| < 0x1_0000
    requires |plain| == 26 + |Packed(zone).value| + |Packed(name).value| + |txt|
    ensures ZoneThenRecord(SignedMessage(s, plain, now), Canonical(zone),
                           Record(Canonical(name), TYPE_TXT, class_, ttl, txt), |plain|)
  {
    SigningKeepsLayout(s, plain, now, Packed(zone).value, Packed(name).value, class_, ttl, txt);
    LayoutReads(SignedMessage(s, plain, now), zone, name, class_, ttl, txt);
  }

  lemma SigningKeepsLayout(s: Solver, plain: Bytes, now: nat, z: Bytes, n: Bytes, class_: nat, ttl: nat, txt: Bytes)
    requires |plain| >= 12 && Packed(s.keyName).Ok? && Packed(s.algorithm).Ok? && Layout(plain, z, n, class_, ttl, txt)
    ensures Layout(SignedMessage(s, plain, now), z, n, class_, ttl, txt)
  {
    var key, alg := Packed(s.keyName).value, Packed(s.algorithm).value;
    SealKeepsLayout(plain, key, TsigRdata(alg, now, s.mac(plain + TsigVariables(key, alg, now)), U16(plain[..2])),
                    z, n, class_, ttl, txt);
  }

  lemma SealKeepsLayout(plain: Bytes, key: Bytes, rdata: Bytes, z: Bytes, n: Bytes, class_: nat, ttl: nat, txt: Bytes)
    requires |plain| >= 12 && Layout(plain, z, n, class_, ttl, txt)
    ensures Layout(Sealed(plain, key, rdata), z, n, class_, ttl, txt)
  {
    SealKeeps(plain, key, rdata, 12, z);
    SealKeeps(plain, key, rdata, 12 + |z|, PutU16(TYPE_SOA));
    SealKeeps(plain, key, rdata, 14 + |z|, PutU16(CLASS_IN));
    SealKeepsRecord(plain, key, rdata, 16 + |z|, n, TYPE_TXT, class_, ttl, txt);
  }

  lemma SealAppends(plain: Bytes, key: Bytes, rdata: Bytes)
    requires |plain| >= 12
    ensures RecordLies(Sealed(plain, key, rdata), |plain|, key, TYPE_TSIG, CLASS_ANY, 0, rdata)
    ensures |Sealed(plain, key, rdata)| == |plain| + |key| + 10 + |rdata|
    ensures Sealed(plain, key, rdata)[..12] == plain[..10] + PutU16(1)
  {
    var whole := RecordBytes(plain, key, TYPE_TSIG, CLASS_ANY, 0, rdata);
    RecordLiesAppended(plain, key, TYPE_TSIG, CLASS_ANY, 0, rdata);
    RecordPrefix(plain, key, TYPE_TSIG, CLASS_ANY, 0, rdata);
    RecordPastHeader(whole, 1, |plain|, key, TYPE_TSIG, CLASS_ANY, 0, rdata);
    assert whole[..10] == plain[..10];
  }

  lemma SealKeeps(plain: Bytes, key: Bytes, rdata: Bytes, off: nat, piece: Bytes)
    requires |plain| >= 12 && off >= 12 && At(plain, off, piece)
    ensures At(Sealed(plain, key, rdata), off, piece)
  {
    var whole := RecordBytes(plain, key, TYPE_TSIG, CLASS_ANY, 0, rdata);
    RecordPrefix(plain, key, TYPE_TSIG, CLASS_ANY, 0, rdata);
    assert whole == plain + whole[|plain|..];
    StillAt(plain, whole[|plain|..], off, piece);
    AtPastHeader(whole, 1, off, piece);
  }

  lemma SealKeepsRecord(plain: Bytes, key: Bytes, sealed: Bytes, off: nat, owner: Bytes, typ: nat, class_: nat,
                        ttl: nat, rdata: Bytes)
    requires |plain| >= 12 && off >= 12 && RecordLies(plain, off, owner, typ, class_, ttl, rdata)
    ensures RecordLies(Sealed(plain, key, sealed), off, owner, typ, class_, ttl, rdata)
  {
    var a := off + |owner|;
    SealKeeps(plain, key, sealed, off, owner);
    SealKeeps(plain, key, sealed, a, PutU16(typ));
    SealKeeps(plain, key, sealed, a + 2, PutU16(class_));
    SealKeeps(plain, key, sealed, a + 4, PutU32(ttl));
    SealKeeps(plain, key, sealed, a + 8, PutU16(|rdata|));
    SealKeeps(plain, key, sealed, a + 10, rdata);
  }

  /** A record only appends. */
  lemma RecordPrefix(dst: Bytes, owner: Bytes, typ: nat, class_: nat, ttl: nat, rdata: Bytes)
    ensures |dst| <= |RecordBytes(dst, owner, typ, class_, ttl, rdata)|
    ensures RecordBytes(dst, owner, typ, class_, ttl, rdata)[..|dst|] == dst
  {
  }

  /** Where the unsigned message keeps its header, its zone section and its record. */
  lemma PlainPieces(s: Solver, zone: Bytes, name: Bytes, value: Bytes, add: bool, id: nat)
    requires Packed(zone).Ok? && Packed(name).Ok? && |value| <= 255
    ensures var z, n, plain := Packed(zone).value, Packed(name).value, Unsigned(s, zone, name, value, add, id);
      && plain[..12] == Header(id)
      && |plain| == 16 + |z| + |n| + 11 + |value|
      && Layout(plain, z, n, if add then CLASS_IN else CLASS_NONE, if add then s.ttl else 0, [|value|] + value)
  {
    var z, n := Packed(zone).value, Packed(name).value;
    var class_, ttl, txt := if add then CLASS_IN else CLASS_NONE, if add then s.ttl else 0, [|value|] + value;
    var sec := ZoneSection(Header(id), z);
    RecordLiesAppended(sec, n, TYPE_TXT, class_, ttl, txt);
    RecordPrefix(sec, n, TYPE_TXT, class_, ttl, txt);
    var plain := Unsigned(s, zone, name, value, add, id);
    assert plain == sec + plain[|sec|..];
    ZonePieces(Header(id), z, PutU16(TYPE_SOA), PutU16(CLASS_IN), plain[|sec|..]);
  }

  lemma ZonePieces(header: Bytes, z: Bytes, typ: Bytes, class_: Bytes, more: Bytes)
    requires |header| == 12 && |typ| == |class_| == 2
    ensures var msg := header + z + typ + class_ + more;
      msg[..12] == header && At(msg, 12, z) && At(msg, 12 + |z|, typ) && At(msg, 14 + |z|, class_)
  {
    var sec := header + z + typ + class_;
    FourPieces(header, z, typ, class_);
    StillAt(sec, more, 0, header);
    StillAt(sec, more, 12, z);
    StillAt(sec, more, 12 + |z|, typ);
    StillAt(sec, more, 14 + |z|, class_);
  }

  lemma HeaderPieces(id: nat)
    ensures Header(id)[..10] == PutU16(id) + PutU16(OPCODE_UPDATE * 0x800) + PutU16(1) + PutU16(0) + PutU16(1)
    ensures Header(id)[..2] == PutU16(id) && Header(id)[10..] == PutU16(0)
  {
  }

  /** Dropping the TSIG record and resetting ADCOUNT gives back exactly the bytes that were MACed
      before the TSIG variables. */
  lemma StripSignature(s: Solver, zone: Bytes, name: Bytes, value: Bytes, add: bool, id: nat, now: nat)
    requires Packs(s, zone, name) && |value| <= 255
    ensures var plain := Unsigned(s, zone, name, value, add, id); var msg := SignedMessage(s, plain, now);
      |plain| <= |msg| && WithAdditional(msg[..|plain|], 0) == plain
  {
    var plain := Unsigned(s, zone, name, value, add, id);
    var key, alg := Packed(s.keyName).value, Packed(s.algorithm).value;
    PlainPieces(s, zone, name, value, add, id);
    HeaderPieces(id);
    assert plain[10..12] == plain[..12][10..];
    SealStrips(plain, key, TsigRdata(alg, now, s.mac(plain + TsigVariables(key, alg, now)), U16(plain[..2])));
  }

  lemma SealStrips(plain: Bytes, key: Bytes, rdata: Bytes)
    requires |plain| >= 12 && plain[10..12] == PutU16(0)
    ensures |plain| <= |Sealed(plain, key, rdata)|
    ensures WithAdditional(Sealed(plain, key, rdata)[..|plain|], 0) == plain
  {
    var whole := RecordBytes(plain, key, TYPE_TSIG, CLASS_ANY, 0, rdata);
    RecordPrefix(plain, key, TYPE_TSIG, CLASS_ANY, 0, rdata);
    assert whole == plain + whole[|plain|..];
    HeaderSwap(plain, whole[|plain|..], PutU16(1), PutU16(0));
  }

  lemma HeaderSwap(plain: Bytes, more: Bytes, one: Bytes, zero: Bytes)
    requires |plain| >= 12 && |one| == |zero| == 2 && plain[10..12] == zero
    ensures var whole := plain + more; var msg := (whole[..10] + one + whole[12..])[..|plain|];
      |msg| == |plain| && msg[..10] + zero + msg[12..] == plain
  {
    var whole := plain + more;
    var msg := (whole[..10] + one + whole[12..])[..|plain|];
    assert msg == plain[..10] + one + plain[12..];
    assert msg[..10] == plain[..10] && msg[12..] == plain[12..];
    assert plain == plain[..10] + plain[10..12] + plain[12..];
  }
}
