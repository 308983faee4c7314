/** DNS messages (sections 4.1 and 4.2.1 of RFC 1035): reading a query, writing a bounded response, reading the
    answers of a reply (crates/scone-network/src/dns.rs). */
module Dns {
  import opened Prelude
  import opened Bytes

  type Rcode = n: nat | n < 256

  const CLASS_IN: U16 := 1
  const MAX_FALLBACK_TTL: U32 := 600
  const HEADER_LEN: nat := 12

  datatype Query = Query(id: U16, rd: bool, name: seq<Byte>, qtype: U16)

  /** One wire answer: type, time to live, data. */
  datatype Answer = Answer(typeCode: U16, ttl: U32, rdata: seq<Byte>)

  // ----- numbers and names on the wire -----

  function Be16(x: U16): (b: seq<Byte>)
    ensures |b| == 2
  {
    [x / 256, x % 256]
  }

  function Be32(x: U32): (b: seq<Byte>)
    ensures |b| == 4
  {
    [x / 0x100_0000, x / 0x1_0000 % 256, x / 256 % 256, x % 256]
  }

  function At16(b: seq<Byte>, i: nat): U16
    requires i + 2 <= |b|
  {
    var (hi: nat, lo: nat) := (b[i], b[i + 1]);
    hi * 256 + lo
  }

  function At32(b: seq<Byte>, i: nat): U32
    requires i + 4 <= |b|
  {
    var (w: nat, x: nat, y: nat, z: nat) := (b[i], b[i + 1], b[i + 2], b[i + 3]);
    w * 0x100_0000 + x * 0x1_0000 + y * 256 + z
  }

  lemma NumbersRoundTrip(x: U16, y: U32)
    ensures At16(Be16(x), 0) == x && At32(Be32(y), 0) == y
  {
    var hi, lo := y / 0x1_0000, y % 0x1_0000;
    assert hi / 256 * 256 + hi % 256 == hi && lo / 256 * 256 + lo % 256 == lo;
    assert y / 0x100_0000 == hi / 256;
    assert y / 256 % 256 == lo / 256 && y % 256 == lo % 256;
  }

  /** An uncompressed wire name: labels of 1 to 63 bytes, then the root. */
  predicate IsWireName(q: seq<Byte>)
    decreases |q|
  {
    && q != []
    && if q[0] == 0 then |q| == 1 else q[0] < 64 && 1 + q[0] < |q| && IsWireName(q[1 + q[0]..])
  }

  /** Where the name that starts at i ends; None when it runs off the message or uses compression. */
  function NameEnd(b: seq<Byte>, i: nat): (end: Option<nat>)
    ensures end.Some? ==> i < end.value <= |b|
    decreases |b| - i
  {
    if i >= |b| || b[i] >= 64 then None
    else if b[i] == 0 then Some(i + 1)
    else NameEnd(b, i + 1 + b[i])
  }

  lemma {:induction false} NameEndIsName(b: seq<Byte>, i: nat)
    requires NameEnd(b, i).Some?
    ensures IsWireName(b[i..NameEnd(b, i).value])
    decreases |b| - i
  {
    if b[i] != 0 {
      NameEndIsName(b, i + 1 + b[i]);
      var e := NameEnd(b, i).value;
      assert b[i..e][1 + b[i]..] == b[i + 1 + b[i]..e];
    }
  }

  // ----- the query -----

  predicate LabelByte(c: Byte) {
    48 <= c <= 57 || 65 <= c <= 90 || 97 <= c <= 122 || c == 45 || c == 95
  }

  function Lower(c: Byte): Byte {
    if 65 <= c <= 90 then c + 32 else c
  }

  function Lowered(part: seq<Byte>): seq<Byte> {
    seq(|part|, i requires 0 <= i < |part| => Lower(part[i]))
  }

  /** The lower-cased labels from i to the root, and where the name ends. */
  function Labels(b: seq<Byte>, i: nat): Option<(seq<seq<Byte>>, nat)>
    decreases |b| - i
  {
    if i >= |b| then None
    else if b[i] == 0 then Some(([], i + 1))
    else if b[i] >= 64 || i + 1 + b[i] > |b| then None
    else
      var part := b[i + 1..i + 1 + b[i]];
      if !forall c :: c in part ==> LabelByte(c) then None
      else
        match Labels(b, i + 1 + b[i])
        case None => None
        case Some((labels, end)) => Some(([Lowered(part)] + labels, end))
  }

  function JoinDots(labels: seq<seq<Byte>>): seq<Byte> {
    if labels == [] then []
    else if |labels| == 1 then labels[0]
    else labels[0] + [46] + JoinDots(labels[1..])
  }

  function ParseQuery(b: seq<Byte>): Option<Query> {
    if |b| < HEADER_LEN || b[2] >= 128 || At16(b, 4) != 1 then None
    else
      match Labels(b, HEADER_LEN)
      case None => None
      case Some((labels, end)) =>
        if !(2 <= |labels| <= 16) || end + 4 > |b| || At16(b, end + 2) != CLASS_IN then None
        else Some(Query(At16(b, 0), b[2] % 2 == 1, JoinDots(labels), At16(b, end)))
  }

  /** The question section as sent: name, type, class. */
  function QuestionBytes(b: seq<Byte>): Option<seq<Byte>> {
    match NameEnd(b, HEADER_LEN)
    case Some(end) => if end + 4 <= |b| then Some(b[HEADER_LEN..end + 4]) else None
    case None => None
  }

  lemma {:induction false} LabelsEnd(b: seq<Byte>, i: nat)
    requires Labels(b, i).Some?
    ensures NameEnd(b, i) == Some(Labels(b, i).value.1)
    decreases |b| - i
  {
    if b[i] != 0 { LabelsEnd(b, i + 1 + b[i]); }
  }

  /** Every accepted query has a question section, and it starts with an uncompressed name. */
  lemma AcceptedHasQuestion(b: seq<Byte>)
    requires ParseQuery(b).Some?
    ensures QuestionBytes(b).Some?
    ensures var q := QuestionBytes(b).value;
            && |q| > 4 && IsWireName(q[..|q| - 4])
            && At16(q, |q| - 4) == ParseQuery(b).value.qtype
  {
    LabelsEnd(b, HEADER_LEN);
    NameEndIsName(b, HEADER_LEN);
    var end := NameEnd(b, HEADER_LEN).value;
    assert b[HEADER_LEN..end + 4][..end - HEADER_LEN] == b[HEADER_LEN..end];
  }

  /** Labels as a wire name. */
  function WireName(labels: seq<seq<Byte>>): (r: seq<Byte>)
    requires forall l :: l in labels ==> GoodLabel(l)
    ensures r != []
  {
    if labels == [] then [0]
    else
      assert GoodLabel(labels[0]);
      var length: Byte := |labels[0]|;
      [length] + labels[0] + WireName(labels[1..])
  }

  function LoweredAll(labels: seq<seq<Byte>>): seq<seq<Byte>> {
    if labels == [] then [] else [Lowered(labels[0])] + LoweredAll(labels[1..])
  }

  predicate GoodLabel(l: seq<Byte>) {
    1 <= |l| <= 63 && forall c :: c in l ==> LabelByte(c)
  }

  lemma GoodLabelBytes(l: seq<Byte>)
    ensures GoodLabel(l) <==>
              && 1 <= |l| <= 63
              && forall c :: c in l ==> 48 <= c <= 57 || 65 <= c <= 90 || 97 <= c <= 122 || c == 45 || c == 95
  {
  }

  lemma {:induction false} LabelsOfWireName(b: seq<Byte>, i: nat, labels: seq<seq<Byte>>)
    requires forall l :: l in labels ==> GoodLabel(l)
    requires i + |WireName(labels)| <= |b| && b[i..i + |WireName(labels)|] == WireName(labels)
    ensures Labels(b, i) == Some((LoweredAll(labels), i + |WireName(labels)|))
    decreases |labels|
  {
    hide Lowered, LabelByte, JoinDots;
    var w := WireName(labels);
    assert b[i] == w[0];
    if labels != [] {
      var l := labels[0];
      var n := 1 + |l|;
      assert GoodLabel(l);
      FirstLabel(l, WireName(labels[1..]));
      Slice(b, i, w, 1, n);
      Slice(b, i, w, n, |w|);
      LabelsOfWireName(b, i + n, labels[1..]);
    }
  }

  lemma FirstLabel(l: seq<Byte>, more: seq<Byte>)
    requires |l| < 256
    ensures var w := [|l|] + l + more; w[1..1 + |l|] == l && w[1 + |l|..|w|] == more
  {
  }

  /** A standard query. */
  function QueryBytes(id: U16, rd: bool, labels: seq<seq<Byte>>, qtype: U16): seq<Byte>
    requires forall l :: l in labels ==> GoodLabel(l)
  {
    QueryHeader(id, rd) + WireName(labels) + (Be16(qtype) + Be16(CLASS_IN))
  }

  function QueryHeader(id: U16, rd: bool): (b: seq<Byte>)
    ensures |b| == HEADER_LEN
  {
    Be16(id) + Be16(if rd then 0x0100 else 0) + Be16(1) + Be16(0) + Be16(0) + Be16(0)
  }

  lemma QueryFields(id: U16, rd: bool, more: seq<Byte>)
    ensures var b := QueryHeader(id, rd) + more; At16(b, 0) == id && At16(b, 4) == 1 && b[2] == if rd then 1 else 0
  {
    var h := QueryHeader(id, rd);
    var b := h + more;
    assert h[0..2] == Be16(id) && h[2..4] == Be16(if rd then 0x0100 else 0) && h[4..6] == Be16(1);
    assert b[0..2] == Be16(id) && b[4..6] == Be16(1) && b[2] == Be16(if rd then 0x0100 else 0)[0];
    Read16(b, 0, id);
    Read16(b, 4, 1);
  }

  lemma QueryTail(h: seq<Byte>, w: seq<Byte>, t: seq<Byte>, rest: seq<Byte>)
    requires |t| == 4
    ensures var (b, i, end) := (h + (w + t + rest), |h|, |h| + |w|);
            h + w + t + rest == b && b[i..end] == w && b[end..end + 2] == t[0..2] && b[end + 2..end + 4] == t[2..4]
  {
  }

  lemma Halves(x: seq<Byte>, y: seq<Byte>)
    requires |x| == 2 && |y| == 2
    ensures (x + y)[0..2] == x && (x + y)[2..4] == y
  {
  }

  lemma QueryShape(id: U16, rd: bool, labels: seq<seq<Byte>>, qtype: U16, rest: seq<Byte>)
    requires forall l :: l in labels ==> GoodLabel(l)
    ensures QueryBytes(id, rd, labels, qtype) + rest ==
            QueryHeader(id, rd) + (WireName(labels) + (Be16(qtype) + Be16(CLASS_IN)) + rest)
  {
    hide QueryHeader, WireName, Be16;
  }

  lemma ParsedFields(b: seq<Byte>, labels: seq<seq<Byte>>, end: nat)
    requires |b| >= HEADER_LEN && b[2] < 128 && At16(b, 4) == 1 && Labels(b, HEADER_LEN) == Some((labels, end))
    requires 2 <= |labels| <= 16 && end + 4 <= |b| && At16(b, end + 2) == CLASS_IN
    ensures ParseQuery(b) == Some(Query(At16(b, 0), b[2] % 2 == 1, JoinDots(labels), At16(b, end)))
  {
    hide JoinDots, Labels, At16;
  }

  /** A standard query for two to sixteen labels is accepted and read back, in lower case, whatever follows it. */
  lemma QueryRoundTrip(id: U16, rd: bool, labels: seq<seq<Byte>>, qtype: U16, rest: seq<Byte>)
    requires 2 <= |labels| <= 16 && forall l :: l in labels ==> GoodLabel(l)
    ensures ParseQuery(QueryBytes(id, rd, labels, qtype) + rest) == Some(Query(id, rd, JoinDots(LoweredAll(labels)), qtype))
  {
    hide JoinDots, Labels, GoodLabel, WireName, QueryHeader, QueryBytes, LoweredAll, Be16, At16, ParseQuery;
    QueryShape(id, rd, labels, qtype, rest);
    var (h, w, t) := (QueryHeader(id, rd), WireName(labels), Be16(qtype) + Be16(CLASS_IN));
    var b := h + (w + t + rest);
    var end := HEADER_LEN + |w|;
    QueryTail(h, w, t, rest);
    QueryFields(id, rd, w + t + rest);
    LabelsOfWireName(b, HEADER_LEN, labels);
    LoweredLength(labels);
    Halves(Be16(qtype), Be16(CLASS_IN));
    Read16(b, end, qtype);
    Read16(b, end + 2, CLASS_IN);
    ParsedFields(b, LoweredAll(labels), end);
  }

  /** What was read as labels is a wire name of good labels. */
  lemma {:induction false} RawLabels(b: seq<Byte>, i: nat) returns (raw: seq<seq<Byte>>)
    requires Labels(b, i).Some?
    ensures forall l :: l in raw ==> GoodLabel(l)
    ensures Labels(b, i).value == (LoweredAll(raw), i + |WireName(raw)|)
    ensures i + |WireName(raw)| <= |b| && b[i..i + |WireName(raw)|] == WireName(raw)
    decreases |b| - i
  {
    hide Lowered, LabelByte, JoinDots;
    raw := [];
    if b[i] != 0 {
      var n := 1 + b[i];
      var part := b[i + 1..i + n];
      var more := RawLabels(b, i + n);
      raw := [part] + more;
      assert raw[1..] == more && GoodLabel(part);
      assert WireName(raw) == [b[i]] + part + WireName(more);
      assert b[i..i + n] == [b[i]] + part;
      assert b[i..i + n + |WireName(more)|] == b[i..i + n] + b[i + n..i + n + |WireName(more)|];
    }
  }

  /** Exactly the standard queries are accepted: a message with the response bit clear and one question, whose name is
      2 to 16 labels of 1 to 63 letters, digits, hyphens and underscores, and whose class is the Internet. */
  lemma AcceptedExactly(b: seq<Byte>)
    ensures ParseQuery(b).Some? <==>
              && |b| >= 12 && b[2] < 128 && b[4] == 0 && b[5] == 1
              && exists labels: seq<seq<Byte>> :: IsQuestion(b, labels)
  {
    hide Labels, WireName, JoinDots, GoodLabel;
    if ParseQuery(b).Some? {
      var labels := RawLabels(b, HEADER_LEN);
      LoweredLength(labels);
      assert IsQuestion(b, labels);
    }
    if |b| >= 12 && b[2] < 128 && b[4] == 0 && b[5] == 1 {
      forall labels: seq<seq<Byte>> | IsQuestion(b, labels) ensures ParseQuery(b).Some? {
        LabelsOfWireName(b, HEADER_LEN, labels);
        LoweredLength(labels);
      }
    }
  }

  /** The question of b is for this name, in class IN. */
  predicate IsQuestion(b: seq<Byte>, labels: seq<seq<Byte>>) {
    && 2 <= |labels| <= 16 && (forall l :: l in labels ==> GoodLabel(l))
    && var end := 12 + |WireName(labels)|;
       end + 4 <= |b| && b[12..end] == WireName(labels) && b[end + 2] == 0 && b[end + 3] == 1
  }

  /** What was asked, byte by byte. The name that is looked up has only lower-case letters, digits, hyphens, underscores
      and the dots between labels. */
  lemma QueryReads(b: seq<Byte>)
    requires ParseQuery(b).Some?
    ensures var (q, end) := (ParseQuery(b).value, NameEnd(b, HEADER_LEN));
            && |b| >= 12 && b[0] == q.id / 256 && b[1] == q.id % 256 && (q.rd <==> b[2] % 2 == 1)
            && end.Some? && end.value + 4 <= |b| && b[end.value] == q.qtype / 256 && b[end.value + 1] == q.qtype % 256
            && QuestionBytes(b) == Some(b[12..end.value + 4])
            && forall c :: c in q.name ==> 97 <= c <= 122 || 48 <= c <= 57 || c == 45 || c == 95 || c == 46
  {
    hide Lower, LabelByte;
    LabelsEnd(b, HEADER_LEN);
    var labels := RawLabels(b, HEADER_LEN);
    NameBytes(labels);
  }

  lemma {:induction false} NameBytes(labels: seq<seq<Byte>>)
    requires forall l :: l in labels ==> GoodLabel(l)
    ensures forall c :: c in JoinDots(LoweredAll(labels)) ==>
              97 <= c <= 122 || 48 <= c <= 57 || c == 45 || c == 95 || c == 46
    decreases |labels|
  {
    hide Lowered;
    if labels != [] {
      LoweredLength(labels[1..]);
      NameBytes(labels[1..]);
      LoweredBytes(labels[0]);
      assert LoweredAll(labels)[1..] == LoweredAll(labels[1..]);
    }
  }

  lemma LoweredBytes(part: seq<Byte>)
    requires GoodLabel(part)
    ensures forall c :: c in Lowered(part) ==> 97 <= c <= 122 || 48 <= c <= 57 || c == 45 || c == 95
  {
    forall j | 0 <= j < |part|
      ensures var c := Lowered(part)[j]; 97 <= c <= 122 || 48 <= c <= 57 || c == 45 || c == 95
    {
      assert LabelByte(part[j]);
    }
  }

  lemma {:induction false} LoweredLength(labels: seq<seq<Byte>>)
    ensures |LoweredAll(labels)| == |labels|
  {
    if labels != [] { LoweredLength(labels[1..]); }
  }

  // ----- the response -----

  function RecordBytes(qname: seq<Byte>, a: Answer): (r: seq<Byte>)
    ensures |r| == |qname| + 10 + |a.rdata|
  {
    qname + Be16(a.typeCode) + Be16(CLASS_IN) + Be32(a.ttl) + Be16(Min(|a.rdata|, 0xFFFF)) + a.rdata
  }

  /** An answer on the wire: the name asked for, type, class IN, time to live, length and data, numbers high byte first. */
  lemma AnswerFields(qname: seq<Byte>, a: Answer)
    ensures var (r, n) := (RecordBytes(qname, a), |qname|);
            && r[..n] == qname && r[n] == a.typeCode / 256 && r[n + 1] == a.typeCode % 256 && r[n + 2] == 0 && r[n + 3] == 1
            && r[n + 4] == a.ttl / 0x100_0000 && r[n + 5] == a.ttl / 0x1_0000 % 256 && r[n + 6] == a.ttl / 256 % 256
            && r[n + 7] == a.ttl % 256 && r[n + 10..] == a.rdata
            && r[n + 8] == Min(|a.rdata|, 0xFFFF) / 256 && r[n + 9] == Min(|a.rdata|, 0xFFFF) % 256
  {
    var r, n := RecordBytes(qname, a), |qname|;
    var (t, c, l, d) := (Be16(a.typeCode), Be16(CLASS_IN), Be32(a.ttl), Be16(Min(|a.rdata|, 0xFFFF)));
    assert r == qname + (t + c + l + d + a.rdata);
  }

  function RecordsBytes(qname: seq<Byte>, answers: seq<Answer>): seq<Byte> {
    if answers == [] then [] else RecordBytes(qname, answers[0]) + RecordsBytes(qname, answers[1..])
  }

  /** Greedy: answers are kept while the next one still fits. */
  function Kept(qname: seq<Byte>, answers: seq<Answer>, used: nat, budget: nat): (k: nat)
    ensures k <= |answers|
  {
    if answers == [] || used + |qname| + 10 + |answers[0].rdata| > budget then 0
    else 1 + Kept(qname, answers[1..], used + |qname| + 10 + |answers[0].rdata|, budget)
  }

  /** The kept answers are the longest prefix that fits, and the whole list when that fits. */
  lemma {:induction false} KeptIsLongest(qname: seq<Byte>, answers: seq<Answer>, used: nat, budget: nat, k: nat)
    requires k <= |answers|
    ensures k <= Kept(qname, answers, used, budget) <==> k == 0 || used + |RecordsBytes(qname, answers[..k])| <= budget
    decreases |answers|
  {
    if k > 0 {
      var used' := used + |RecordBytes(qname, answers[0])|;
      assert answers[..k][1..] == answers[1..][..k - 1];
      assert |RecordsBytes(qname, answers[..k])| ==
          |RecordBytes(qname, answers[0])| + |RecordsBytes(qname, answers[1..][..k - 1])|;
      if used' <= budget {
        KeptIsLongest(qname, answers[1..], used', budget, k - 1);
      }
    }
  }

  /** The code is a whole byte, or-ed into the low byte together with the bit for "recursion available". */
  function Flags(rd: bool, authoritative: bool, truncated: bool, rcode: Rcode): U16 {
    HighByte(rd, authoritative, truncated) * 0x100 + LowByte(rcode)
  }

  function HighByte(rd: bool, authoritative: bool, truncated: bool): (high: nat)
    ensures 0x80 <= high < 0x88
  {
    0x80 + (if authoritative then 0x04 else 0) + (if truncated then 0x02 else 0) + (if rd then 0x01 else 0)
  }

  function LowByte(rcode: Rcode): (low: nat)
    ensures 0x80 <= low < 0x100
  {
    if rcode < 0x80 then rcode + 0x80 else rcode
  }

  lemma LowByteBits(rcode: Rcode)
    ensures LowByte(rcode) % 128 == rcode % 128 && LowByte(rcode) % 16 == rcode % 16
    ensures rcode % 16 == rcode <==> rcode < 16
  {
  }

  lemma TwoBytes(f: U16, high: nat, low: nat)
    requires f == high * 256 + low && 0x80 <= low < 0x100
    ensures f / 0x100 == high && f / 0x80 == 2 * high + 1 && f % 128 == low % 128 && f % 16 == low % 16
  {
  }

  /** Each flag sits in its own bit: response, authoritative, truncated, recursion desired and available. A reader
      takes the code from the low four bits, which gives it back exactly when it is below 16. */
  lemma FlagBits(rd: bool, authoritative: bool, truncated: bool, rcode: Rcode)
    ensures var f := Flags(rd, authoritative, truncated, rcode);
            && Bit(f, 0x8000) && (Bit(f, 0x0400) <==> authoritative) && (Bit(f, 0x0200) <==> truncated)
            && (Bit(f, 0x0100) <==> rd) && Bit(f, 0x0080)
            && f % 128 == rcode % 128 && f % 16 == rcode % 16 && (f % 16 == rcode <==> rcode < 16)
            && !Bit(f, 0x4000) && !Bit(f, 0x2000) && !Bit(f, 0x1000) && !Bit(f, 0x0800)
  {
    hide LowByte;
    var f := Flags(rd, authoritative, truncated, rcode);
    LowByteBits(rcode);
    TwoBytes(f, HighByte(rd, authoritative, truncated), LowByte(rcode));
    assert f / 0x200 == f / 0x100 / 2 && f / 0x400 == f / 0x200 / 2 && f / 0x800 == f / 0x400 / 2;
    assert f / 0x1000 == f / 0x800 / 2 && f / 0x2000 == f / 0x1000 / 2 && f / 0x4000 == f / 0x2000 / 2;
  }

  predicate Bit(f: U16, place: nat)
    requires place > 0
  {
    f / place % 2 == 1
  }

  function HeaderBytes(id: U16, flags: U16, ancount: U16): (b: seq<Byte>)
    ensures |b| == HEADER_LEN
  {
    Be16(id) + Be16(flags) + Be16(1) + Be16(ancount) + Be16(0) + Be16(0)
  }

  function Response(q: Query, original: seq<Byte>, answers: seq<Answer>, rcode: Rcode, authoritative: bool,
      budget: nat): seq<Byte> {
    match QuestionBytes(original)
    case None => HeaderBytes(q.id, Flags(q.rd, false, false, rcode), 0)
    case Some(question) =>
      var qname := question[..SaturatingSub(|question|, 4)];
      var k := Kept(qname, answers, HEADER_LEN + |question|, budget);
      HeaderBytes(q.id, Flags(q.rd, authoritative, k < |answers|, rcode),
          k % 0x1_0000) + question + RecordsBytes(qname, answers[..k])
  }

  /** The response never outgrows the budget, unless the header and the question alone do. */
  lemma ResponseLength(q: Query, original: seq<Byte>, answers: seq<Answer>, rcode: Rcode, authoritative: bool, budget: nat)
    ensures var question := QuestionBytes(original);
            |Response(q, original, answers, rcode, authoritative, budget)| <=
            Max(budget, HEADER_LEN + if question.Some? then |question.value| else 0)
  {
    if QuestionBytes(original).Some? {
      var question := QuestionBytes(original).value;
      var qname := question[..SaturatingSub(|question|, 4)];
      KeptIsLongest(qname, answers, HEADER_LEN + |question|, budget, Kept(qname, answers, HEADER_LEN + |question|, budget));
      assert RecordsBytes(qname, answers[..0]) == [];
    }
  }

  /** The response to an accepted query: its id, one question, repeated byte for byte, then the answers kept, counted in
      the header, and nothing in the other two sections. */
  lemma ResponseLayout(q: Query, original: seq<Byte>, answers: seq<Answer>, rcode: Rcode, authoritative: bool, budget: nat)
    requires ParseQuery(original) == Some(q) && budget <= 0xFFFF
    ensures QuestionBytes(original).Some? && |QuestionBytes(original).value| > 4
    ensures var r := Response(q, original, answers, rcode, authoritative, budget);
            var question := QuestionBytes(original).value;
            var (qname, n) := (question[..|question| - 4], 12 + |question|);
            var k := Kept(qname, answers, n, budget);
            && r[0] == original[0] && r[1] == original[1] && r[4] == 0 && r[5] == 1
            && r[6] == k / 256 && r[7] == k % 256
            && r[8..12] == [0, 0, 0, 0] && |r| >= n && r[12..n] == question
            && forall i :: 0 <= i < k ==>
                 var at := n + |RecordsBytes(qname, answers[..i])|;
                 at + |RecordBytes(qname, answers[i])| <= |r| && r[at..at + |RecordBytes(qname, answers[i])|] ==
                     RecordBytes(qname, answers[i])
  {
    hide Kept, RecordsBytes, RecordBytes, Flags, QuestionBytes, ParseQuery, IsWireName, HeaderBytes, Response;
    AcceptedHasQuestion(original);
    var question := QuestionBytes(original).value;
    var (qname, n) := (question[..|question| - 4], 12 + |question|);
    var k := Kept(qname, answers, n, budget);
    KeptFits(qname, answers, n, budget);
    var flags := Flags(q.rd, authoritative, k < |answers|, rcode);
    HeaderOf(q, original, flags, k);
    ResponseShape(q, original, answers, rcode, authoritative, budget);
    AppendAssociates(HeaderBytes(q.id, flags, k), question, RecordsBytes(qname, answers[..k]));
    Assembled(HeaderBytes(q.id, flags, k), question, qname, answers, k);
  }

  lemma Assembled(h: seq<Byte>, question: seq<Byte>, qname: seq<Byte>, answers: seq<Answer>, k: nat)
    requires |h| == 12 && k <= |answers|
    ensures var (r, n) := (h + question + RecordsBytes(qname, answers[..k]), 12 + |question|);
            && r[..12] == h && r[12..n] == question && (forall i :: 0 <= i < 12 ==> r[i] == h[i]) && r[8..12] == h[8..12]
            && forall i :: 0 <= i < k ==>
                 var at := n + |RecordsBytes(qname, answers[..i])|;
                 at + |RecordBytes(qname, answers[i])| <= |r| && r[at..at + |RecordBytes(qname, answers[i])|] ==
                     RecordBytes(qname, answers[i])
  {
    hide RecordsBytes, RecordBytes;
    var (n, body) := (12 + |question|, RecordsBytes(qname, answers[..k]));
    var r := h + question + body;
    forall i | 0 <= i < k
      ensures var at := n + |RecordsBytes(qname, answers[..i])|;
              at + |RecordBytes(qname, answers[i])| <= |r| && r[at..at + |RecordBytes(qname, answers[i])|] ==
                  RecordBytes(qname, answers[i])
    {
      RecordIn(qname, answers[..k], i);
      assert answers[..k][..i] == answers[..i];
      var at, m := |RecordsBytes(qname, answers[..i])|, |RecordBytes(qname, answers[i])|;
      assert r[n + at..n + at + m] == body[at..at + m];
    }
  }

  lemma HeaderOf(q: Query, original: seq<Byte>, flags: U16, k: U16)
    requires ParseQuery(original) == Some(q)
    ensures |original| >= 2
    ensures var h := HeaderBytes(q.id, flags, k);
            && h[0] == original[0] && h[1] == original[1] && h[4] == 0 && h[5] == 1
            && h[6] == k / 256 && h[7] == k % 256
            && h[8..12] == [0, 0, 0, 0]
  {
    hide Labels, JoinDots;
    var h := HeaderBytes(q.id, flags, k);
    assert h[0] == q.id / 256 && h[1] == q.id % 256;
  }

  lemma {:induction false} RecordIn(qname: seq<Byte>, answers: seq<Answer>, i: nat)
    requires i < |answers|
    ensures var (b, at) := (RecordsBytes(qname, answers), |RecordsBytes(qname, answers[..i])|);
            at + |RecordBytes(qname, answers[i])| <= |b| && b[at..at + |RecordBytes(qname, answers[i])|] ==
                RecordBytes(qname, answers[i])
    decreases i
  {
    hide RecordBytes;
    if i > 0 {
      RecordIn(qname, answers[1..], i - 1);
      assert answers[..i][1..] == answers[1..][..i - 1];
      var n, at := |RecordBytes(qname, answers[0])|, |RecordsBytes(qname, answers[1..][..i - 1])|;
      var (b, rest, m) := (RecordsBytes(qname, answers), RecordsBytes(qname, answers[1..]), |RecordBytes(qname, answers[i])|);
      assert b[n..] == rest;
      assert b[n + at..n + at + m] == rest[at..at + m];
    }
  }

  // ----- reading answers -----

  /** Skips labels up to the byte that ends the name. */
  function SkipName(b: seq<Byte>, i: nat): (j: nat)
    ensures i <= j
    decreases |b| - i
  {
    if i < |b| && b[i] != 0 then SkipName(b, i + 1 + b[i]) else i
  }

  function Clamped(a: Answer): Answer {
    a.(ttl := Min(a.ttl, MAX_FALLBACK_TTL))
  }

  function ClampedAll(answers: seq<Answer>): (r: seq<Answer>)
    ensures |r| == |answers|
  {
    seq(|answers|, i requires 0 <= i < |answers| => Clamped(answers[i]))
  }

  function MaxTtl(answers: seq<Answer>): U32 {
    if answers == [] then 0 else Max(answers[0].ttl, MaxTtl(answers[1..]))
  }

  /** Only the time to live is clamped, to ten minutes; the largest of them is the time of the whole reply. */
  lemma {:induction false} ClampedTtls(answers: seq<Answer>, i: nat)
    requires i < |answers|
    ensures var c := ClampedAll(answers);
            && c[i] == Answer(answers[i].typeCode, if answers[i].ttl < 600 then answers[i].ttl else 600, answers[i].rdata)
            && c[i].ttl <= MaxTtl(c) && exists j :: 0 <= j < |c| && c[j].ttl == MaxTtl(c)
  {
    LargestTtl(ClampedAll(answers));
  }

  lemma {:induction false} LargestTtl(answers: seq<Answer>)
    ensures forall a :: a in answers ==> a.ttl <= MaxTtl(answers)
    ensures if answers == [] then MaxTtl(answers) == 0
            else exists j :: 0 <= j < |answers| && answers[j].ttl == MaxTtl(answers)
  {
    if answers != [] {
      LargestTtl(answers[1..]);
      if answers[1..] != [] {
        var j :| 0 <= j < |answers[1..]| && answers[1..][j].ttl == MaxTtl(answers[1..]);
        assert answers[j + 1].ttl == MaxTtl(answers[1..]);
      }
      assert answers[0].ttl == MaxTtl(answers) || exists j :: 0 <= j < |answers| && answers[j].ttl == MaxTtl(answers);
    }
  }

  /** The record at i, its time to live clamped, and where it ends. */
  function OneRecord(b: seq<Byte>, i: nat): Option<(Answer, nat)> {
    var j := SkipName(b, i) + 1;
    if j + 10 > |b| || j + 10 + At16(b, j + 8) > |b| then None
    else
      var end := j + 10 + At16(b, j + 8);
      Some((Answer(At16(b, j), Min(At32(b, j + 4), MAX_FALLBACK_TTL), b[j + 10..end]), end))
  }

  /** The n records from i on. */
  function Records(b: seq<Byte>, i: nat, n: nat): Option<seq<Answer>>
    decreases n
  {
    if n == 0 then Some([])
    else
      match OneRecord(b, i)
      case None => None
      case Some((a, end)) => Added([a], Records(b, end, n - 1))
  }

  function Added(done: seq<Answer>, p: Option<seq<Answer>>): Option<seq<Answer>> {
    if p.Some? then Some(done + p.value) else None
  }

  function Extract(resp: seq<Byte>): Option<(seq<Answer>, U32)> {
    if |resp| < HEADER_LEN then None
    else
      match Records(resp, SkipName(resp, HEADER_LEN) + 5, At16(resp, 6))
      case Some(answers) => Some((answers, MaxTtl(answers)))
      case None => None
  }

  /** A wire name copied anywhere into a message is skipped up to its root byte. */
  lemma {:induction false} SkipWireName(b: seq<Byte>, i: nat, q: seq<Byte>)
    requires IsWireName(q) && i + |q| <= |b| && b[i..i + |q|] == q
    ensures SkipName(b, i) == i + |q| - 1
    decreases |q|
  {
    assert b[i] == q[0];
    if q[0] != 0 {
      var n := 1 + q[0];
      assert b[i + n..i + |q|] == q[n..];
      SkipWireName(b, i + n, q[n..]);
    } else {
      assert b[i + |q| - 1] == 0;
    }
  }

  lemma Fields(x: seq<Byte>, c: seq<Byte>, y: seq<Byte>, z: seq<Byte>, d: seq<Byte>)
    requires |x| == 2 && |c| == 2 && |y| == 4 && |z| == 2
    ensures var t := x + c + y + z + d; t[0..2] == x && t[4..8] == y && t[8..10] == z && t[10..] == d
  {
  }

  lemma Read16(b: seq<Byte>, i: nat, x: U16)
    requires i + 2 <= |b| && b[i..i + 2] == Be16(x)
    ensures At16(b, i) == x
  {
    assert b[i] == Be16(x)[0] && b[i + 1] == Be16(x)[1];
    NumbersRoundTrip(x, 0);
  }

  lemma Read32(b: seq<Byte>, i: nat, x: U32)
    requires i + 4 <= |b| && b[i..i + 4] == Be32(x)
    ensures At32(b, i) == x
  {
    assert b[i] == Be32(x)[0] && b[i + 1] == Be32(x)[1] && b[i + 2] == Be32(x)[2] && b[i + 3] == Be32(x)[3];
    NumbersRoundTrip(0, x);
  }

  lemma Slice(b: seq<Byte>, i: nat, t: seq<Byte>, m: nat, n: nat)
    requires i + |t| <= |b| && b[i..i + |t|] == t && m <= n <= |t|
    ensures b[i + m..i + n] == t[m..n]
  {
    var x, y := b[i + m..i + n], t[m..n];
    forall k | 0 <= k < |x| ensures x[k] == y[k] {
      assert b[i..i + |t|][m + k] == t[m + k];
    }
    assert x == y;
  }

  /** Every field of a record written at i is read back from there. */
  lemma RecordFields(b: seq<Byte>, i: nat, qname: seq<Byte>, a: Answer)
    requires IsWireName(qname) && |a.rdata| <= 0xFFFF
    requires i + |RecordBytes(qname, a)| <= |b| && b[i..i + |RecordBytes(qname, a)|] == RecordBytes(qname, a)
    ensures OneRecord(b, i) == Some((Clamped(a), i + |RecordBytes(qname, a)|))
  {
    hide IsWireName, SkipName, Be16, Be32, At16, At32;
    var r, j := RecordBytes(qname, a), i + |qname|;
    var t := Be16(a.typeCode) + Be16(CLASS_IN) + Be32(a.ttl) + Be16(|a.rdata|) + a.rdata;
    assert r == qname + t;
    Slice(b, i, r, 0, |qname|);
    SkipWireName(b, i, qname);
    Slice(b, i, r, |qname|, |r|);
    assert b[j..j + |t|] == t;
    Fields(Be16(a.typeCode), Be16(CLASS_IN), Be32(a.ttl), Be16(|a.rdata|), a.rdata);
    Slice(b, j, t, 0, 2);
    Slice(b, j, t, 4, 8);
    Slice(b, j, t, 8, 10);
    Slice(b, j, t, 10, |t|);
    Read16(b, j, a.typeCode);
    Read32(b, j + 4, a.ttl);
    Read16(b, j + 8, |a.rdata|);
  }

  lemma PrefixOf(answers: seq<Answer>, k: nat)
    requires k <= |answers|
    ensures ClampedAll(answers)[..k] == ClampedAll(answers[..k])
  {
  }

  lemma {:induction false} RecordsRoundTrip(b: seq<Byte>, i: nat, qname: seq<Byte>, answers: seq<Answer>)
    requires IsWireName(qname) && (forall a :: a in answers ==> |a.rdata| <= 0xFFFF)
    requires i <= |b| && b[i..] == RecordsBytes(qname, answers)
    ensures Records(b, i, |answers|) == Some(ClampedAll(answers))
    decreases |answers|
  {
    hide IsWireName, RecordBytes, OneRecord;
    if answers != [] {
      var a := answers[0];
      var r := RecordBytes(qname, a);
      assert b[i..][..|r|] == r && b[i..][|r|..] == RecordsBytes(qname, answers[1..]);
      assert b[i..i + |r|] == r && b[i + |r|..] == RecordsBytes(qname, answers[1..]);
      RecordFields(b, i, qname, a);
      RecordsRoundTrip(b, i + |r|, qname, answers[1..]);
      assert ClampedAll(answers) == [Clamped(a)] + ClampedAll(answers[1..]);
    }
  }

  /** A counted answer takes at least 11 bytes, so the count of a budget of 65535 fits its field. */
  lemma {:induction false} KeptFits(qname: seq<Byte>, answers: seq<Answer>, used: nat, budget: nat)
    requires qname != []
    ensures Kept(qname, answers, used, budget) == 0 || used + 11 * Kept(qname, answers, used, budget) <= budget
    decreases |answers|
  {
    if answers != [] && used + |qname| + 10 + |answers[0].rdata| <= budget {
      KeptFits(qname, answers[1..], used + |qname| + 10 + |answers[0].rdata|, budget);
    }
  }

  /** How many answers a response to this query carries. */
  function Carried(original: seq<Byte>, answers: seq<Answer>, budget: nat): nat
    requires QuestionBytes(original).Some?
  {
    var question := QuestionBytes(original).value;
    Kept(question[..SaturatingSub(|question|, 4)], answers, HEADER_LEN + |question|, budget)
  }

  lemma HeaderFields(id: U16, flags: U16, ancount: U16, tail: seq<Byte>)
    ensures var r := HeaderBytes(id, flags, ancount) + tail;
            && At16(r, 0) == id && At16(r, 2) == flags && At16(r, 4) == 1 && At16(r, 6) == ancount
            && r[HEADER_LEN..] == tail
  {
    NumbersRoundTrip(id, 0);
    NumbersRoundTrip(flags, 0);
    NumbersRoundTrip(ancount, 0);
    var h := HeaderBytes(id, flags, ancount);
    assert h[0..2] == Be16(id) && h[2..4] == Be16(flags) && h[4..6] == Be16(1) && h[6..8] == Be16(ancount);
    var r := h + tail;
    assert forall i :: 0 <= i < HEADER_LEN ==> r[i] == h[i];
  }

  /** Reading the answers back from the response to an accepted query gives exactly the longest prefix that
      fits the budget, with clamped times to live; the truncation flag is set exactly when that is not everything. */
  lemma ResponseRoundTrip(q: Query, original: seq<Byte>, answers: seq<Answer>, rcode: Rcode, authoritative: bool, budget: nat)
    requires ParseQuery(original) == Some(q) && budget <= 0xFFFF
    requires forall a :: a in answers ==> |a.rdata| <= 0xFFFF
    ensures QuestionBytes(original).Some?
    ensures var (r, k) := (Response(q, original, answers, rcode, authoritative, budget), Carried(original, answers, budget));
            && Extract(r) == Some((ClampedAll(answers)[..k], MaxTtl(ClampedAll(answers)[..k])))
            && |r| >= HEADER_LEN && At16(r, 2) == Flags(q.rd, authoritative, k < |answers|, rcode)
            && (Bit(At16(r, 2), 0x0200) <==> k < |answers|)
  {
    hide NameEnd, ParseQuery, QuestionBytes, IsWireName, RecordsBytes, HeaderBytes, SkipName, Records, Kept,
        Response, Carried, Flags, At16, Bit;
    AcceptedHasQuestion(original);
    FlagBits(q.rd, authoritative, Carried(original, answers, budget) < |answers|, rcode);
    var question := QuestionBytes(original).value;
    var qname := question[..|question| - 4];
    var k := Carried(original, answers, budget);
    ResponseShape(q, original, answers, rcode, authoritative, budget);
    var body := RecordsBytes(qname, answers[..k]);
    var flags := Flags(q.rd, authoritative, k < |answers|, rcode);
    var r := Response(q, original, answers, rcode, authoritative, budget);
    HeaderFields(q.id, flags, k, question + body);
    assert r[HEADER_LEN..HEADER_LEN + |qname|] == qname by { Slice(r, HEADER_LEN, question + body, 0, |qname|); }
    SkipWireName(r, HEADER_LEN, qname);
    assert r[HEADER_LEN + |question|..] == body;
    RecordsRoundTrip(r, HEADER_LEN + |question|, qname, answers[..k]);
    PrefixOf(answers, k);
  }

  lemma ResponseShape(q: Query, original: seq<Byte>, answers: seq<Answer>, rcode: Rcode, authoritative: bool, budget: nat)
    requires QuestionBytes(original).Some? && |QuestionBytes(original).value| > 4 && budget <= 0xFFFF
    ensures var (question, k) := (QuestionBytes(original).value, Carried(original, answers, budget));
            && k <= |answers| && k <= 0xFFFF
            && Response(q, original, answers, rcode, authoritative, budget) ==
               HeaderBytes(q.id, Flags(q.rd, authoritative, k < |answers|, rcode), k) +
               (question + RecordsBytes(question[..|question| - 4], answers[..k]))
  {
    hide QuestionBytes, HeaderBytes, Flags, RecordsBytes;
    var question := QuestionBytes(original).value;
    KeptFits(question[..|question| - 4], answers, HEADER_LEN + |question|, budget);
  }

  /** A response carries the query's id and repeats its question, so it is recognised as the reply to it. */
  predicate ReplyMatches(resp: seq<Byte>, query: seq<Byte>, question: seq<Byte>)
    requires |query| >= 2
  {
    && |resp| >= HEADER_LEN && resp[0] == query[0] && resp[1] == query[1] && resp[2] >= 128
    && HEADER_LEN + |question| <= |resp| && resp[HEADER_LEN..HEADER_LEN + |question|] == question
  }

  /** A reply is taken for ours only with the id, the response bit and the whole question of the query. */
  lemma OnlyRepliesMatch(resp: seq<Byte>, query: seq<Byte>, question: seq<Byte>)
    requires |query| >= 2
    ensures ReplyMatches(resp, query, question) <==>
              && |resp| >= 12 && resp[..2] == query[..2] && 0x80 <= resp[2]
              && 12 + |question| <= |resp| && forall i :: 0 <= i < |question| ==> resp[12 + i] == question[i]
  {
    if |resp| >= 12 + |question| {
      assert (forall i :: 0 <= i < |question| ==> resp[12 + i] == question[i]) ==> resp[12..12 + |question|] == question;
      assert resp[12..12 + |question|] == question ==>
          forall i :: 0 <= i < |question| ==> resp[12..12 + |question|][i] == question[i];
      assert resp[..2] == [resp[0], resp[1]] && query[..2] == [query[0], query[1]];
    }
  }

  lemma ResponseMatches(q: Query, original: seq<Byte>, answers: seq<Answer>, rcode: Rcode, authoritative: bool, budget: nat)
    requires ParseQuery(original) == Some(q)
    ensures QuestionBytes(original).Some?
    ensures ReplyMatches(Response(q, original, answers, rcode, authoritative, budget), original,
        QuestionBytes(original).value)
  {
    AcceptedHasQuestion(original);
    var question := QuestionBytes(original).value;
    var qname := question[..|question| - 4];
    var k := Kept(qname, answers, HEADER_LEN + |question|, budget);
    var flags := Flags(q.rd, authoritative, k < |answers|, rcode);
    var h := HeaderBytes(q.id, flags, k % 0x1_0000);
    assert h[0..2] == Be16(q.id) && h[2..4] == Be16(flags);
    assert h[0] == q.id / 256 && h[1] == q.id % 256 && h[2] == flags / 256;
  }

  // ----- in place -----

  method ParseQueryLoop(b: seq<Byte>) returns (q: Option<Query>)
    ensures q == ParseQuery(b)
  {
    if |b| < HEADER_LEN { return None; }
    var id := At16(b, 0);
    if b[2] >= 128 { return None; }
    if At16(b, 4) != 1 { return None; }
    var i := HEADER_LEN;
    var labels: seq<seq<Byte>> := [];
    var open := true;
    AfterNone(Labels(b, HEADER_LEN));
    while open
      invariant HEADER_LEN <= i
      invariant Labels(b, HEADER_LEN) == if open then After(labels, Labels(b, i)) else Some((labels, i))
      decreases if open then 1 else 0, |b| - i
    {
      if i >= |b| { return None; }
      var len := b[i];
      i := i + 1;
      if len == 0 {
        open := false;
        assert labels + [] == labels;
      } else {
        if len >= 64 { return None; }
        if i + len > |b| { return None; }
        var lab := b[i..i + len];
        i := i + len;
        if !forall c :: c in lab ==> LabelByte(c) { return None; }
        AfterOne(labels, Lowered(lab), Labels(b, i));
        labels := labels + [Lowered(lab)];
      }
    }
    if |labels| < 2 || |labels| > 16 { return None; }
    if i + 4 > |b| { return None; }
    var qtype := At16(b, i);
    if At16(b, i + 2) != CLASS_IN { return None; }
    q := Some(Query(id, b[2] % 2 == 1, JoinDots(labels), qtype));
  }

  function After(done: seq<seq<Byte>>, p: Option<(seq<seq<Byte>>, nat)>): Option<(seq<seq<Byte>>, nat)> {
    match p
    case Some((labels, end)) => Some((done + labels, end))
    case None => None
  }

  lemma AfterNone(p: Option<(seq<seq<Byte>>, nat)>)
    ensures After([], p) == p
  {
    if p.Some? { assert [] + p.value.0 == p.value.0; }
  }

  lemma AfterOne(done: seq<seq<Byte>>, x: seq<Byte>, p: Option<(seq<seq<Byte>>, nat)>)
    ensures After(done + [x], p) ==
        After(done, match p case Some((labels, end)) => Some(([x] + labels, end)) case None => None)
  {
    if p.Some? { assert done + [x] + p.value.0 == done + ([x] + p.value.0); }
  }

  method FindQuestion(b: seq<Byte>) returns (question: Option<seq<Byte>>)
    ensures question == QuestionBytes(b)
  {
    var i := HEADER_LEN;
    var open := true;
    while open
      invariant HEADER_LEN <= i
      invariant NameEnd(b, HEADER_LEN) == if open then NameEnd(b, i) else Some(i)
      decreases if open then 1 else 0, |b| - i
    {
      if i >= |b| { return None; }
      var len := b[i];
      i := i + 1;
      if len == 0 {
        open := false;
      } else {
        if len >= 64 { return None; }
        i := i + len;
      }
    }
    question := if i + 4 <= |b| then Some(b[HEADER_LEN..i + 4]) else None;
  }

  /** Writes placeholders for the flags and the count, appends answers while they fit, then patches both. */
  method BuildResponse(q: Query, original: seq<Byte>, answers: seq<Answer>, rcode: Rcode, authoritative: bool, budget: nat)
    returns (out: seq<Byte>)
    ensures out == Response(q, original, answers, rcode, authoritative, budget)
  {
    hide RecordsBytes, RecordBytes, Kept, QuestionBytes, Flags;
    var question := FindQuestion(original);
    out := Be16(q.id) + [0, 0] + Be16(1) + Be16(0) + Be16(0) + Be16(0);
    ghost var header := out;
    if question == None {
      var flags := Flags(q.rd, false, false, rcode);
      out := out[2 := flags / 256][3 := flags % 256];
      assert out == HeaderBytes(q.id, flags, 0);
      return;
    }
    out := out + question.value;
    var qname := question.value[..SaturatingSub(|question.value|, 4)];
    var kept;
    out, kept := AppendAnswers(out, qname, answers, budget);
    var flags := Flags(q.rd, authoritative, kept < |answers|, rcode);
    var count: U16 := kept % 0x1_0000;
    AppendAssociates(header, question.value, RecordsBytes(qname, answers[..kept]));
    Patched(q.id, flags, count, out, question.value + RecordsBytes(qname, answers[..kept]));
    AppendAssociates(HeaderBytes(q.id, flags, count), question.value, RecordsBytes(qname, answers[..kept]));
    out := out[2 := flags / 256][3 := flags % 256][6 := count / 256][7 := count % 256];
  }

  lemma AppendAssociates(a: seq<Byte>, b: seq<Byte>, c: seq<Byte>)
    ensures a + b + c == a + (b + c)
  {
  }

  /** Appends answers until the next one would pass the budget. */
  method AppendAnswers(start: seq<Byte>, qname: seq<Byte>, answers: seq<Answer>,
      budget: nat) returns (out: seq<Byte>, kept: nat)
    ensures kept == Kept(qname, answers, |start|, budget) && out == start + RecordsBytes(qname, answers[..kept])
  {
    hide RecordsBytes, RecordBytes, Kept;
    out, kept := start, 0;
    NoBytes(start, qname, answers);
    assert answers[0..] == answers;
    while kept < |answers|
      invariant 0 <= kept <= |answers|
      invariant out == start + RecordsBytes(qname, answers[..kept])
      invariant Kept(qname, answers, |start|, budget) == kept + Kept(qname, answers[kept..], |out|, budget)
    {
      var a := answers[kept];
      var need := |qname| + 10 + |a.rdata|;
      KeptUnfold(qname, answers[kept..], |out|, budget);
      if |out| + need > budget { return; }
      OneMoreRecord(qname, answers, kept);
      assert answers[kept..][1..] == answers[kept + 1..];
      AppendAssociates(start, RecordsBytes(qname, answers[..kept]), RecordBytes(qname, a));
      out := out + RecordBytes(qname, a);
      kept := kept + 1;
    }
    KeptUnfold(qname, answers[kept..], |out|, budget);
  }

  lemma NoBytes(start: seq<Byte>, qname: seq<Byte>, answers: seq<Answer>)
    ensures start + RecordsBytes(qname, answers[..0]) == start
  {
  }

  lemma KeptUnfold(qname: seq<Byte>, answers: seq<Answer>, used: nat, budget: nat)
    ensures Kept(qname, answers, used, budget) ==
            if answers == [] || used + |qname| + 10 + |answers[0].rdata| > budget then 0
            else 1 + Kept(qname, answers[1..], used + |qname| + 10 + |answers[0].rdata|, budget)
  {
  }

  lemma Patched(id: U16, flags: U16, count: U16, before: seq<Byte>, tail: seq<Byte>)
    requires before == Be16(id) + [0, 0] + Be16(1) + Be16(0) + Be16(0) + Be16(0) + tail
    ensures before[2 := flags / 256][3 := flags % 256][6 := count / 256][7 := count % 256] ==
        HeaderBytes(id, flags, count) + tail
  {
  }

  lemma {:induction false} OneMoreRecord(qname: seq<Byte>, answers: seq<Answer>, k: nat)
    requires k < |answers|
    ensures RecordsBytes(qname, answers[..k + 1]) == RecordsBytes(qname, answers[..k]) + RecordBytes(qname, answers[k])
    decreases k
  {
    hide RecordBytes;
    if k > 0 {
      assert answers[..k + 1][1..] == answers[1..][..k] && answers[..k][1..] == answers[1..][..k - 1];
      OneMoreRecord(qname, answers[1..], k - 1);
    } else {
      assert RecordsBytes(qname, answers[..1][1..]) == [];
      assert RecordsBytes(qname, answers[..0]) == [];
    }
  }

  method ExtractAnswers(resp: seq<Byte>) returns (result: Option<(seq<Answer>, U32)>)
    ensures result == Extract(resp)
  {
    hide MaxTtl, Records, Added, OneRecord;
    if |resp| < HEADER_LEN { return None; }
    var ancount := At16(resp, 6);
    var i: nat := SkipLabels(resp, HEADER_LEN);
    i := i + 5;
    var out: seq<Answer>, maxTtl: U32, n := [], 0, 0;
    ghost var whole := Records(resp, i, ancount);
    AddedNone(whole);
    NoTtl();
    while n < ancount
      invariant 0 <= n <= ancount
      invariant whole == Added(out, Records(resp, i, ancount - n))
      invariant maxTtl == MaxTtl(out)
    {
      RecordsUnfold(resp, i, ancount - n);
      var one := TakeRecord(resp, i);
      if one == None {
        AddedToNone(out);
        return None;
      }
      var (a, end) := one.value;
      AddedOne(out, a, Records(resp, end, ancount - n - 1));
      MaxTtlOne(out, a);
      out := out + [a];
      maxTtl := Max(maxTtl, a.ttl);
      i := end;
      n := n + 1;
    }
    NoRecords(resp, i, out);
    result := Some((out, maxTtl));
  }

  method TakeRecord(resp: seq<Byte>, start: nat) returns (one: Option<(Answer, nat)>)
    ensures one == OneRecord(resp, start)
  {
    hide SkipName, At16, At32;
    var i: nat := SkipLabels(resp, start);
    i := i + 1;
    if i + 10 > |resp| { return None; }
    var rdlen := At16(resp, i + 8);
    if i + 10 + rdlen > |resp| { return None; }
    one := Some((Answer(At16(resp, i), Min(At32(resp, i + 4), MAX_FALLBACK_TTL), resp[i + 10..i + 10 + rdlen]),
        i + 10 + rdlen));
  }

  lemma RecordsUnfold(b: seq<Byte>, i: nat, n: nat)
    requires n > 0
    ensures Records(b, i, n) ==
        match OneRecord(b, i) case None => None case Some((a, end)) => Added([a], Records(b, end, n - 1))
  {
    hide OneRecord, Added;
  }

  lemma NoRecords(b: seq<Byte>, i: nat, done: seq<Answer>)
    ensures Added(done, Records(b, i, 0)) == Some(done)
  {
    assert done + [] == done;
  }

  lemma AddedToNone(done: seq<Answer>)
    ensures Added(done, None) == None
  {
  }

  method SkipLabels(b: seq<Byte>, start: nat) returns (i: nat)
    ensures i == SkipName(b, start)
  {
    i := start;
    while i < |b| && b[i] != 0
      invariant SkipName(b, start) == SkipName(b, i)
      decreases |b| - i
    {
      i := i + 1 + b[i];
    }
  }

  lemma AddedNone(p: Option<seq<Answer>>)
    ensures Added([], p) == p
  {
    if p.Some? { assert [] + p.value == p.value; }
  }

  lemma AddedOne(done: seq<Answer>, a: Answer, p: Option<seq<Answer>>)
    ensures Added(done + [a], p) == Added(done, Added([a], p))
  {
    if p.Some? { assert done + [a] + p.value == done + ([a] + p.value); }
  }

  lemma NoTtl()
    ensures MaxTtl([]) == 0
  {
  }

  lemma {:induction false} MaxTtlOne(done: seq<Answer>, a: Answer)
    ensures MaxTtl(done + [a]) == Max(MaxTtl(done), a.ttl)
  {
    if done == [] {
      assert [a][1..] == [];
    } else {
      MaxTtlOne(done[1..], a);
      assert (done + [a])[1..] == done[1..] + [a];
    }
  }
}
