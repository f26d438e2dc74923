/** Finding the zone to update: the owner of the first SOA in a response, and whether that zone
    covers the name being solved. */
module DnsZone {
  import opened Bytes
  import opened DnsName
  import opened DnsUpdate
  import opened Wrappers

  datatype AnswerError = ShortResponse | WrongId | NotResponse | Refused(rcode: nat) | Garbled(why: ReadError)

  // ----- the first SOA -----

  function SkipQuestions(msg: Bytes, off: nat, n: nat): Result<nat, ReadError>
    decreases n
  {
    if n == 0 then Ok(off)
    else
      match ReadFrom(msg, off, 0)
      case Err(e) => Err(e)
      case Ok((_, end)) => if end + 4 > |msg| then Err(UnexpectedEOF) else SkipQuestions(msg, end + 4, n - 1)
  }

  /** The first SOA owner among the next n records; "" when there is none. */
  function FirstSoa(msg: Bytes, off: nat, n: nat): Result<Bytes, ReadError>
    decreases n
  {
    if n == 0 then Ok([])
    else
      match RecordAt(msg, off)
      case Err(e) => Err(e)
      case Ok((rec, end)) => if rec.typ == TYPE_SOA then Ok(rec.owner) else FirstSoa(msg, end, n - 1)
  }

  method PassQuestions(r: Reader, n: nat) returns (res: Result<(), ReadError>)
    modifies r
    ensures match SkipQuestions(r.msg, old(r.off), n)
      case Err(e) => res == Err(e)
      case Ok(end) => res == Ok(()) && r.off == end
  {
    for i := 0 to n
      invariant SkipQuestions(r.msg, r.off, n - i) == SkipQuestions(r.msg, old(r.off), n)
    {
      var owner := r.Name();
      if owner.Err? { return Err(owner.error); }
      var rest := r.Take(4);
      if rest.Err? { return Err(rest.error); }
    }
    return Ok(());
  }

  method SoaAmong(r: Reader, n: nat) returns (res: Result<Bytes, ReadError>)
    modifies r
    ensures res == FirstSoa(r.msg, old(r.off), n)
  {
    ghost var whole := FirstSoa(r.msg, r.off, n);
    for i := 0 to n
      invariant FirstSoa(r.msg, r.off, n - i) == whole
    {
      var rec := ReadRecord(r);
      if rec.Err? { return Err(rec.error); }
      if rec.value.typ == TYPE_SOA { return Ok(rec.value.owner); }
    }
    return Ok([]);
  }

  // ----- the message, laid out -----

  datatype Question = Question(name: Bytes, typ: nat, class_: nat)

  /** A name, a type and a class, and nothing else, from off to end. */
  ghost predicate QuestionLies(msg: Bytes, off: nat, q: Question, end: nat) {
    exists labels, a: nat ::
      && SpelledWithin(msg, off, 16, labels, a) && Join(labels, DOT) == q.name
      && At(msg, a, PutU16(q.typ)) && At(msg, a + 2, PutU16(q.class_)) && end == a + 4
  }

  /** A record's fields behind its owner: type, class, TTL, length and that many bytes. */
  predicate FieldsLie(msg: Bytes, a: nat, rec: Record, end: nat) {
    && rec.typ < 0x1_0000 && rec.class_ < 0x1_0000 && rec.ttl < 0x1_0000_0000 && |rec.rdata| < 0x1_0000
    && At(msg, a, PutU16(rec.typ)) && At(msg, a + 2, PutU16(rec.class_)) && At(msg, a + 4, PutU32(rec.ttl))
    && At(msg, a + 8, PutU16(|rec.rdata|)) && At(msg, a + 10, rec.rdata) && end == a + 10 + |rec.rdata|
  }

  ghost predicate RecordStands(msg: Bytes, off: nat, rec: Record, end: nat) {
    exists labels, a: nat ::
      SpelledWithin(msg, off, 16, labels, a) && Join(labels, DOT) == rec.owner && FieldsLie(msg, a, rec, end)
  }

  /** The questions one after the other, from off to end. */
  ghost predicate Questions(msg: Bytes, off: nat, qs: seq<Question>, end: nat)
    decreases |qs|
  {
    if qs == [] then end == off
    else exists next: nat :: QuestionLies(msg, off, qs[0], next) && Questions(msg, next, qs[1..], end)
  }

  /** The records one after the other, from off. */
  ghost predicate Records(msg: Bytes, off: nat, recs: seq<Record>)
    decreases |recs|
  {
    recs == [] || exists next: nat :: RecordStands(msg, off, recs[0], next) && Records(msg, next, recs[1..])
  }

  ghost predicate EndsAtSoa(recs: seq<Record>, owner: Bytes) {
    && |recs| > 0 && recs[|recs| - 1].typ == 6 && recs[|recs| - 1].owner == owner
    && forall i | 0 <= i < |recs| - 1 :: recs[i].typ != 6
  }

  ghost predicate NoSoa(recs: seq<Record>) {
    forall r | r in recs :: r.typ != 6
  }

  /** Some n questions take the message from off to end. */
  ghost predicate SomeQuestions(msg: Bytes, off: nat, n: nat, end: nat) {
    exists qs :: |qs| == n && Questions(msg, off, qs, end)
  }

  /** A response to the query: its id, QR, no error but NXDOMAIN. */
  predicate Responds(resp: Bytes, id: nat) {
    |resp| >= 12 && Number(resp[0], resp[1]) == id && resp[2] >= 128 && resp[3] % 16 in {0, 3}
  }

  /** The owner the search gives: the first SOA's, or "" past all n without one. */
  ghost predicate Gives(n: nat, recs: seq<Record>, owner: Bytes) {
    (|recs| <= n && EndsAtSoa(recs, owner)) || (owner == [] && |recs| == n && NoSoa(recs))
  }

  /** Past some n questions stand records that give the owner. */
  ghost predicate Found(resp: Bytes, n: nat, m: nat, owner: Bytes) {
    exists off: nat, recs :: SomeQuestions(resp, 12, n, off) && Records(resp, off, recs) && Gives(m, recs, owner)
  }

  /** Behind the announced questions, among the announced answers: the records up to the first SOA, which
      is owner's; or all of them, and none is an SOA. */
  ghost predicate Names(resp: Bytes, id: nat, owner: Bytes) {
    Responds(resp, id) && Found(resp, Number(resp[4], resp[5]), Number(resp[6], resp[7]), owner)
  }

  lemma TwoBytesBack(b: Bytes)
    requires |b| == 2
    ensures PutU16(U16(b)) == b
  {
  }

  lemma FourBytesBack(b: Bytes)
    requires |b| == 4
    ensures PutU32(U32(b)) == b
  {
    TwoBytesBack(b[..2]);
    TwoBytesBack(b[2..]);
    SameLow(U16(b[..2]), U16(b[2..]));
    assert b == b[..2] + b[2..];
  }

  lemma SameLow(high: nat, low: nat)
    requires low < 0x1_0000
    ensures PutU16(high * 0x1_0000 + low) == PutU16(low) && (high * 0x1_0000 + low) / 0x1_0000 == high
  {
    var v := high * 0x1_0000 + low;
    assert v == 0x100 * (high * 0x100 + low / 0x100) + low % 0x100;
    assert v / 0x100 == high * 0x100 + low / 0x100;
  }

  lemma At16(msg: Bytes, a: nat, v: nat)
    requires v < 0x1_0000
    ensures At(msg, a, PutU16(v)) <==> a + 2 <= |msg| && U16(msg[a..a + 2]) == v
  {
    ReadBackU16(v);
    if a + 2 <= |msg| { TwoBytesBack(msg[a..a + 2]); }
  }

  lemma At32(msg: Bytes, a: nat, v: nat)
    requires v < 0x1_0000_0000
    ensures At(msg, a, PutU32(v)) <==> a + 4 <= |msg| && U32(msg[a..a + 4]) == v
  {
    ReadBackU32(v);
    if a + 4 <= |msg| { FourBytesBack(msg[a..a + 4]); }
  }

  lemma FieldsReadIff(msg: Bytes, a: nat, rec: Record, end: nat)
    ensures AfterOwner(msg, a, rec.owner) == Ok((rec, end)) <==> FieldsLie(msg, a, rec, end)
  {
    if rec.typ < 0x1_0000 && rec.class_ < 0x1_0000 && rec.ttl < 0x1_0000_0000 && |rec.rdata| < 0x1_0000 {
      At16(msg, a, rec.typ);
      At16(msg, a + 2, rec.class_);
      At32(msg, a + 4, rec.ttl);
      At16(msg, a + 8, |rec.rdata|);
    }
  }

  lemma RecordReadIff(msg: Bytes, off: nat, rec: Record, end: nat)
    ensures RecordAt(msg, off) == Ok((rec, end)) <==> RecordStands(msg, off, rec, end)
  {
    if RecordAt(msg, off) == Ok((rec, end)) {
      var (labels, a) := ReadFrom(msg, off, 0).value;
      ReadIffSpelled(msg, off, labels, a);
      FieldsReadIff(msg, a, rec, end);
    }
    if RecordStands(msg, off, rec, end) {
      var labels, a: nat :|
        SpelledWithin(msg, off, 16, labels, a) && Join(labels, DOT) == rec.owner && FieldsLie(msg, a, rec, end);
      ReadIffSpelled(msg, off, labels, a);
      FieldsReadIff(msg, a, rec, end);
    }
  }

  /** What stepping over one question comes to. */
  lemma QuestionReadIff(msg: Bytes, off: nat, end: nat)
    ensures (exists q :: QuestionLies(msg, off, q, end)) <==>
      ReadFrom(msg, off, 0).Ok? && end == ReadFrom(msg, off, 0).value.1 + 4 && end <= |msg|
  {
    if q :| QuestionLies(msg, off, q, end) {
      var labels, a: nat :| SpelledWithin(msg, off, 16, labels, a) && At(msg, a + 2, PutU16(q.class_)) && end == a + 4;
      ReadIffSpelled(msg, off, labels, a);
    }
    if ReadFrom(msg, off, 0).Ok? && end == ReadFrom(msg, off, 0).value.1 + 4 && end <= |msg| {
      var (labels, a) := ReadFrom(msg, off, 0).value;
      ReadIffSpelled(msg, off, labels, a);
      At16(msg, a, U16(msg[a..a + 2]));
      At16(msg, a + 2, U16(msg[a + 2..a + 4]));
      assert QuestionLies(msg, off, Question(Join(labels, DOT), U16(msg[a..a + 2]), U16(msg[a + 2..a + 4])), end);
    }
  }

  lemma QuestionsSkipped(msg: Bytes, off: nat, n: nat, end: nat)
    ensures SkipQuestions(msg, off, n) == Ok(end) <==> SomeQuestions(msg, off, n, end)
  {
    if SkipQuestions(msg, off, n) == Ok(end) { SkippedAreQuestions(msg, off, n, end); }
    if SomeQuestions(msg, off, n, end) {
      var qs :| |qs| == n && Questions(msg, off, qs, end);
      QuestionsAreSkipped(msg, off, n, qs, end);
    }
  }

  lemma {:induction false} QuestionsAreSkipped(msg: Bytes, off: nat, n: nat, qs: seq<Question>, end: nat)
    requires |qs| == n && Questions(msg, off, qs, end)
    ensures SkipQuestions(msg, off, n) == Ok(end)
    decreases n
  {
    if n > 0 {
      var next: nat :| QuestionLies(msg, off, qs[0], next) && Questions(msg, next, qs[1..], end);
      QuestionReadIff(msg, off, next);
      QuestionsAreSkipped(msg, next, n - 1, qs[1..], end);
    }
  }

  lemma {:induction false} SkippedAreQuestions(msg: Bytes, off: nat, n: nat, end: nat)
    requires SkipQuestions(msg, off, n) == Ok(end)
    ensures SomeQuestions(msg, off, n, end)
    decreases n
  {
    if n == 0 {
      assert Questions(msg, off, [], end);
    } else {
      var next := ReadFrom(msg, off, 0).value.1 + 4;
      QuestionReadIff(msg, off, next);
      var q :| QuestionLies(msg, off, q, next);
      SkippedAreQuestions(msg, next, n - 1, end);
      var qs :| |qs| == n - 1 && Questions(msg, next, qs, end);
      assert ([q] + qs)[1..] == qs;
      assert Questions(msg, off, [q] + qs, end);
    }
  }

  // ----- the first SOA, and none -----

  /** The records the reader makes out, one after the other from off. */
  ghost predicate Chain(msg: Bytes, off: nat, recs: seq<Record>)
    decreases |recs|
  {
    recs == [] ||
    match RecordAt(msg, off)
    case Err(_) => false
    case Ok((rec, end)) => rec == recs[0] && Chain(msg, end, recs[1..])
  }

  /** They are the ones that stand there. */
  lemma {:induction false} ChainIff(msg: Bytes, off: nat, recs: seq<Record>)
    ensures Chain(msg, off, recs) <==> Records(msg, off, recs)
    decreases |recs|
  {
    if recs != [] {
      if Chain(msg, off, recs) {
        var next := RecordAt(msg, off).value.1;
        RecordReadIff(msg, off, recs[0], next);
        ChainIff(msg, next, recs[1..]);
      }
      if Records(msg, off, recs) {
        var next: nat :| RecordStands(msg, off, recs[0], next) && Records(msg, next, recs[1..]);
        RecordReadIff(msg, off, recs[0], next);
        ChainIff(msg, next, recs[1..]);
      }
    }
  }

  /** An owner is found exactly when records reach an SOA of that owner past no other; whatever follows the
      SOA is never read. None is, when all are there without an SOA or the first is the root's. */
  lemma SoaFoundIff(msg: Bytes, off: nat, n: nat, owner: Bytes)
    ensures FirstSoa(msg, off, n) == Ok(owner) <==> exists recs :: Records(msg, off, recs) && Gives(n, recs, owner)
  {
    if FirstSoa(msg, off, n) == Ok(owner) {
      var recs := ChainToSoa(msg, off, n, owner);
      ChainIff(msg, off, recs);
    }
    if recs :| Records(msg, off, recs) && Gives(n, recs, owner) {
      ChainIff(msg, off, recs);
      SoaAtEnd(msg, off, n, owner, recs);
    }
  }

  lemma {:induction false} ChainToSoa(msg: Bytes, off: nat, n: nat, owner: Bytes) returns (recs: seq<Record>)
    requires FirstSoa(msg, off, n) == Ok(owner)
    ensures Chain(msg, off, recs) && Gives(n, recs, owner)
    decreases n
  {
    if n == 0 { return []; }
    var (rec, end) := RecordAt(msg, off).value;
    if rec.typ == TYPE_SOA {
      recs := [rec];
    } else {
      var rest := ChainToSoa(msg, end, n - 1, owner);
      recs := [rec] + rest;
      assert recs[1..] == rest;
      GivesLonger(n - 1, rec, rest, owner);
    }
  }

  lemma GivesLonger(n: nat, rec: Record, rest: seq<Record>, owner: Bytes)
    requires rec.typ != 6
    ensures Gives(n + 1, [rec] + rest, owner) <== Gives(n, rest, owner)
  {
  }

  lemma GivesShorter(n: nat, recs: seq<Record>, owner: Bytes)
    requires n > 0 && Gives(n, recs, owner)
    ensures |recs| > 0
    ensures recs[0].typ == 6 ==> recs[0].owner == owner
    ensures recs[0].typ != 6 ==> Gives(n - 1, recs[1..], owner)
  {
    if |recs| > 1 && EndsAtSoa(recs, owner) {
      assert recs[0].typ != 6;
      assert EndsAtSoa(recs[1..], owner);
    }
    if NoSoa(recs) { assert recs[0] in recs && NoSoa(recs[1..]); }
  }

  lemma {:induction false} SoaAtEnd(msg: Bytes, off: nat, n: nat, owner: Bytes, recs: seq<Record>)
    requires Chain(msg, off, recs) && Gives(n, recs, owner)
    ensures FirstSoa(msg, off, n) == Ok(owner)
    decreases n
  {
    if n > 0 {
      GivesShorter(n, recs, owner);
      if recs[0].typ != 6 { SoaAtEnd(msg, RecordAt(msg, off).value.1, n - 1, owner, recs[1..]); }
    }
  }

  // ----- the answer -----

  /** What soaOwnerFromAnswer comes to once the header is in order. */
  function OwnerIn(resp: Bytes, n: nat, m: nat): Result<Bytes, ReadError> {
    match SkipQuestions(resp, 12, n)
    case Err(e) => Err(e)
    case Ok(off) => FirstSoa(resp, off, m)
  }

  lemma OwnerInIff(resp: Bytes, n: nat, m: nat, owner: Bytes)
    ensures OwnerIn(resp, n, m) == Ok(owner) <==> Found(resp, n, m, owner)
  {
    if OwnerIn(resp, n, m) == Ok(owner) {
      var off := SkipQuestions(resp, 12, n).value;
      QuestionsSkipped(resp, 12, n, off);
      SoaFoundIff(resp, off, m, owner);
    }
    if Found(resp, n, m, owner) {
      var off: nat, recs :|
        SomeQuestions(resp, 12, n, off) && Records(resp, off, recs) && Gives(m, recs, owner);
      QuestionsSkipped(resp, 12, n, off);
      SoaFoundIff(resp, off, m, owner);
    }
  }

  /** Past qd questions, the first SOA of the next an records. */
  method SoaIn(resp: Bytes, qd: nat, an: nat) returns (res: Result<Bytes, ReadError>)
    ensures forall owner :: res == Ok(owner) <==> Found(resp, qd, an, owner)
  {
    forall owner ensures OwnerIn(resp, qd, an) == Ok(owner) <==> Found(resp, qd, an, owner) {
      OwnerInIff(resp, qd, an, owner);
    }
    var r := new Reader(resp, 12);
    var passed := PassQuestions(r, qd);
    if passed.Err? { return Err(passed.error); }
    res := SoaAmong(r, an);
  }

  /** soaOwnerFromAnswer: the header's complaints in order; then the owner of the first SOA among the
      answers, for any layout of questions and records, "" exactly when there is none or it is the root's,
      and an error otherwise. */
  method SoaOwner(resp: Bytes, id: nat) returns (res: Result<Bytes, AnswerError>)
    ensures |resp| < 12 <==> res == Err(ShortResponse)
    ensures |resp| >= 12 ==>
      && (res == Err(WrongId) <==> Number(resp[0], resp[1]) != id)
      && (res == Err(NotResponse) <==> Number(resp[0], resp[1]) == id && resp[2] < 128)
      && (forall c: nat :: res == Err(Refused(c)) <==>
            Number(resp[0], resp[1]) == id && resp[2] >= 128 && c == resp[3] % 16 && c != 0 && c != 3)
    ensures forall owner :: res == Ok(owner) <==> Names(resp, id, owner)
  {
    if |resp| < 12 { return Err(ShortResponse); }
    if U16(resp[..2]) != id { return Err(WrongId); }
    if resp[2] < 0x80 { return Err(NotResponse); }
    var rcode: nat := resp[3] % 16;
    if rcode != 0 && rcode != 3 { return Err(Refused(rcode)); }
    var owner := SoaIn(resp, U16(resp[4..6]), U16(resp[6..8]));
    return if owner.Ok? then Ok(owner.value) else Err(Garbled(owner.error));
  }

  /** A packed name is spelled where it stands, and so is it by a pointer to there. */
  lemma PackedSpells(msg: Bytes, off: nat, name: Bytes)
    requires Packed(name).Ok? && At(msg, off, Packed(name).value)
    ensures Spells(msg, off, 0, Labels(name), off + |Packed(name).value|)
    ensures Join(Labels(name), DOT) == Canonical(name)
  {
    LabelsLower(name);
    PackedLabelsSpell(msg, off, Labels(name), 1);
  }

  lemma {:induction false} PackedLabelsSpell(msg: Bytes, off: nat, labels: seq<Bytes>, total: nat)
    requires PackLabels(labels, total).Ok? && forall l | l in labels :: IsLower(l)
    requires At(msg, off, PackLabels(labels, total).value)
    ensures Spells(msg, off, 0, labels, off + |PackLabels(labels, total).value|)
    decreases |labels|
  {
    PackedFirst(msg, off, labels, total);
    if labels != [] {
      var l := labels[0];
      PackedHead(msg, off, labels, total);
      PackedLabelsSpell(msg, off + 1 + |l|, labels[1..], total + |l| + 1);
      LowerOfLower(l);
    }
  }

  lemma PointerSpells(msg: Bytes, off: nat, target: nat, labels: seq<Bytes>, end: nat)
    requires target < 0x4000 && Spells(msg, target, 0, labels, end)
    requires off + 2 <= |msg| && msg[off] == 0xC0 + target / 0x100 && msg[off + 1] == target % 0x100
    ensures SpelledWithin(msg, off, 16, labels, off + 2)
  {
    assert SpellsSomewhere(msg, target, 0, labels);
    assert Spells(msg, off, 1, labels, off + 2);
  }

  /** The body of the ordinary answer to a query for a zone: the question repeated, its name packed, then
      an SOA whose owner points back to it. */
  ghost predicate UsualBody(resp: Bytes, zone: Bytes, ttl: nat, rdata: Bytes) {
    && Packed(zone).Ok? && At(resp, 12, Packed(zone).value)
    && var a := 12 + |Packed(zone).value|;
       && At(resp, a, PutU16(6)) && At(resp, a + 2, PutU16(1)) && At(resp, a + 4, [0xC0, 12])
       && FieldsLie(resp, a + 6, Record(Canonical(zone), 6, 1, ttl, rdata), a + 16 + |rdata|)
  }

  /** It names that zone, whatever follows and whatever else it announces. */
  lemma UsualAnswer(resp: Bytes, id: nat, zone: Bytes, ttl: nat, rdata: Bytes)
    requires |resp| >= 12 && Number(resp[0], resp[1]) == id && resp[2] >= 128 && resp[3] % 16 == 0
    requires Number(resp[4], resp[5]) == 1 && Number(resp[6], resp[7]) >= 1
    requires UsualBody(resp, zone, ttl, rdata)
    ensures Names(resp, id, Canonical(zone))
  {
    var a := 12 + |Packed(zone).value|;
    var rec := Record(Canonical(zone), 6, 1, ttl, rdata);
    UsualQuestion(resp, zone, ttl, rdata);
    UsualRecord(resp, zone, ttl, rdata);
    assert SomeQuestions(resp, 12, 1, a + 4) && EndsAtSoa([rec], Canonical(zone));
  }

  lemma UsualQuestion(resp: Bytes, zone: Bytes, ttl: nat, rdata: Bytes)
    requires UsualBody(resp, zone, ttl, rdata)
    ensures Questions(resp, 12, [Question(Canonical(zone), 6, 1)], 16 + |Packed(zone).value|)
  {
    var a := 12 + |Packed(zone).value|;
    PackedSpells(resp, 12, zone);
    assert SpelledWithin(resp, 12, 16, Labels(zone), a);
    OneQuestion(resp, 12, Question(Canonical(zone), 6, 1), a + 4);
  }

  lemma UsualRecord(resp: Bytes, zone: Bytes, ttl: nat, rdata: Bytes)
    requires UsualBody(resp, zone, ttl, rdata)
    ensures Records(resp, 16 + |Packed(zone).value|, [Record(Canonical(zone), 6, 1, ttl, rdata)])
  {
    var a := 12 + |Packed(zone).value|;
    var rec := Record(Canonical(zone), 6, 1, ttl, rdata);
    PackedSpells(resp, 12, zone);
    assert resp[a + 4..a + 6][0] == 0xC0 && resp[a + 4..a + 6][1] == 12;
    PointerSpells(resp, a + 4, 12, Labels(zone), a);
    assert RecordStands(resp, a + 4, rec, a + 16 + |rdata|);
    OneRecord(resp, a + 4, rec, a + 16 + |rdata|);
  }

  lemma OneRecord(msg: Bytes, off: nat, rec: Record, end: nat)
    requires RecordStands(msg, off, rec, end)
    ensures Records(msg, off, [rec])
  {
    assert Records(msg, end, [rec][1..]);
  }

  lemma OneQuestion(msg: Bytes, off: nat, q: Question, end: nat)
    requires QuestionLies(msg, off, q, end)
    ensures Questions(msg, off, [q], end)
  {
    assert Questions(msg, end, [q][1..], end);
  }

  // ----- coverage -----

  predicate HasSuffix(s: Bytes, t: Bytes) {
    |t| <= |s| && s[|s| - |t|..] == t
  }

  predicate ZoneCovers(zone: Bytes, name: Bytes) {
    var z, n := Lower(TrimDot(TrimRight(TrimLeft(zone)))), Lower(TrimDot(TrimRight(TrimLeft(name))));
    z != [] && n != [] && (n == z || HasSuffix(n, [DOT] + z))
  }

  predicate LabelSuffix(part: seq<Bytes>, whole: seq<Bytes>) {
    |part| <= |whole| && whole[|whole| - |part|..] == part
  }

  lemma LowerThenTrim(s: Bytes)
    ensures Lower(TrimDot(s)) == TrimDot(Lower(s))
  {
  }

  lemma {:induction false} SplitAppend(a: Bytes, b: Bytes, sep: Byte)
    ensures Split(a + ([sep] + b), sep) == Split(a, sep) + Split(b, sep)
  {
    if a == [] {
      assert a + ([sep] + b) == [sep] + b;
      assert ([sep] + b)[1..] == b;
    } else {
      SplitAppend(a[1..], b, sep);
      assert (a + ([sep] + b))[1..] == a[1..] + ([sep] + b);
      SplitCons(a[0], a[1..] + ([sep] + b), a[1..], Split(b, sep), sep);
      assert a == [a[0]] + a[1..];
      assert a + ([sep] + b) == [a[0]] + (a[1..] + ([sep] + b));
    }
  }

  /** One more byte in front extends the first piece or starts a new one. */
  lemma SplitCons(c: Byte, s: Bytes, t: Bytes, more: seq<Bytes>, sep: Byte)
    requires Split(s, sep) == Split(t, sep) + more
    ensures Split([c] + s, sep) == Split([c] + t, sep) + more
  {
    var u := Split(t, sep);
    SplitStep(c, s, sep);
    SplitStep(c, t, sep);
    if c == sep {
      Regroup([[]], u, more);
    } else {
      TailOf(u, more);
      Regroup([[c] + u[0]], u[1..], more);
    }
  }

  lemma TailOf<T>(a: seq<T>, b: seq<T>)
    requires |a| > 0
    ensures (a + b)[0] == a[0] && (a + b)[1..] == a[1..] + b
  {
  }

  lemma SplitStep(c: Byte, s: Bytes, sep: Byte)
    ensures var rest := Split(s, sep);
      Split([c] + s, sep) == if c == sep then [[]] + rest else [[c] + rest[0]] + rest[1..]
  {
    assert ([c] + s)[1..] == s;
  }

  lemma {:induction false} JoinAppend(a: seq<Bytes>, b: seq<Bytes>, sep: Byte)
    requires |a| > 0 && |b| > 0
    ensures Join(a + b, sep) == Join(a, sep) + [sep] + Join(b, sep)
  {
    assert (a + b)[1..] == a[1..] + b;
    if |a| > 1 { JoinAppend(a[1..], b, sep); }
  }

  /** A zone covers a name exactly when it is not the root and its labels end the name's labels:
      "le.com" does not cover "example.com". */
  lemma ZoneCoversIff(zone: Bytes, name: Bytes)
    ensures ZoneCovers(zone, name) <==>
      Labels(zone) != [] && Labels(name) != [] && LabelSuffix(Labels(zone), Labels(name))
  {
    LowerThenTrim(TrimRight(TrimLeft(zone)));
    LowerThenTrim(TrimRight(TrimLeft(name)));
    if Canonical(zone) != [] && Canonical(name) != [] {
      SuffixIff(Canonical(zone), Canonical(name));
    }
  }

  lemma SuffixIff(z: Bytes, n: Bytes)
    ensures n == z || HasSuffix(n, [DOT] + z) <==> LabelSuffix(Split(z, DOT), Split(n, DOT))
  {
    if HasSuffix(n, [DOT] + z) {
      var head := n[..|n| - |z| - 1];
      assert n == head + ([DOT] + z);
      SplitAppend(head, z, DOT);
    }
    if LabelSuffix(Split(z, DOT), Split(n, DOT)) {
      SuffixJoins(z, n);
    }
  }

  lemma SuffixJoins(z: Bytes, n: Bytes)
    requires LabelSuffix(Split(z, DOT), Split(n, DOT))
    ensures n == z || HasSuffix(n, [DOT] + z)
  {
    JoinSplit(z, DOT);
    JoinSplit(n, DOT);
    JoinedSuffix(Split(z, DOT), Split(n, DOT));
  }

  lemma JoinedSuffix(tail: seq<Bytes>, whole: seq<Bytes>)
    requires |tail| > 0 && LabelSuffix(tail, whole)
    ensures Join(whole, DOT) == Join(tail, DOT) || HasSuffix(Join(whole, DOT), [DOT] + Join(tail, DOT))
  {
    var head := whole[..|whole| - |tail|];
    assert whole == head + tail;
    if head == [] {
      assert whole == tail;
    } else {
      JoinAppend(head, tail, DOT);
      EndsWith(Join(head, DOT), [DOT], Join(tail, DOT));
    }
  }

  lemma EndsWith(a: Bytes, b: Bytes, c: Bytes)
    ensures HasSuffix(a + b + c, b + c)
  {
    assert a + b + c == a + (b + c);
  }
}
