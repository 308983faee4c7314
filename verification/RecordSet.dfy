/** Record sets: order on the wire is the order of the encodings, so a set has exactly one encoding
    (crates/scone-protocol/src/record.rs). */
module RecordSet {
  import opened Prelude
  import opened Bytes
  import opened Wire
  import opened RecordCodec

  // ----- the order on byte strings -----

  predicate Less(a: seq<Byte>, b: seq<Byte>)
    decreases |a|
  {
    b != [] && (a == [] || a[0] < b[0] || (a[0] == b[0] && Less(a[1..], b[1..])))
  }

  lemma {:induction false} LessTotal(a: seq<Byte>, b: seq<Byte>)
    ensures (Less(a, b) ==> a != b && !Less(b, a)) && (Less(a, b) || a == b || Less(b, a))
    decreases |a|
  {
    if a != [] && b != [] && a[0] == b[0] {
      LessTotal(a[1..], b[1..]);
      assert a == [a[0]] + a[1..] && b == [b[0]] + b[1..];
    }
  }

  lemma {:induction false} LessTransitive(a: seq<Byte>, b: seq<Byte>, c: seq<Byte>)
    requires Less(a, b) && Less(b, c)
    ensures Less(a, c)
    decreases |a|
  {
    if a != [] && a[0] == b[0] && b[0] == c[0] { LessTransitive(a[1..], b[1..], c[1..]); }
  }

  /** Strictly increasing. */
  predicate Canonical(es: seq<seq<Byte>>) {
    forall i :: 0 < i < |es| ==> Less(es[i - 1], es[i])
  }

  lemma {:induction false} CanonicalFrom(es: seq<seq<Byte>>, i: nat, j: nat)
    requires Canonical(es) && i < j < |es|
    ensures Less(es[i], es[j])
  {
    if i < j - 1 {
      CanonicalFrom(es, i, j - 1);
      LessTransitive(es[i], es[j - 1], es[j]);
    }
  }

  function InsertBytes(e: seq<Byte>, es: seq<seq<Byte>>): (r: seq<seq<Byte>>)
    ensures |r| == |es| + 1
  {
    if es == [] || !Less(es[0], e) then [e] + es else [es[0]] + InsertBytes(e, es[1..])
  }

  function SortBytes(es: seq<seq<Byte>>): (r: seq<seq<Byte>>)
    ensures |r| == |es|
  {
    if es == [] then [] else InsertBytes(es[0], SortBytes(es[1..]))
  }

  // ----- encodings of a record set -----

  predicate Encodable(records: seq<RecordData>) {
    forall i :: 0 <= i < |records| ==> EncodeData(records[i]).Ok?
  }

  function Enc(x: RecordData): seq<Byte> {
    var e := EncodeData(x);
    if e.Ok? then e.value else []
  }

  function Encodings(records: seq<RecordData>): (es: seq<seq<Byte>>)
    ensures |es| == |records|
    ensures forall i :: 0 <= i < |records| ==> es[i] == Enc(records[i])
  {
    if records == [] then [] else [Enc(records[0])] + Encodings(records[1..])
  }

  /** The same records in the order of their encodings. */
  function InsertRecord(x: RecordData, records: seq<RecordData>): (r: seq<RecordData>)
    ensures |r| == |records| + 1
  {
    if records == [] || !Less(Enc(records[0]), Enc(x)) then [x] + records else [records[0]] + InsertRecord(x, records[1..])
  }

  function SortRecords(records: seq<RecordData>): (r: seq<RecordData>)
    ensures |r| == |records|
  {
    if records == [] then [] else InsertRecord(records[0], SortRecords(records[1..]))
  }

  lemma EncodingsCons(x: RecordData, records: seq<RecordData>)
    ensures Encodings([x] + records) == [Enc(x)] + Encodings(records)
  {
    hide Enc;
    assert ([x] + records)[1..] == records;
  }

  lemma {:induction false} InsertEncodings(x: RecordData, records: seq<RecordData>)
    ensures Encodings(InsertRecord(x, records)) == InsertBytes(Enc(x), Encodings(records))
  {
    hide Enc, Less, Encodings;
    if records == [] || !Less(Enc(records[0]), Enc(x)) {
      EncodingsCons(x, records);
    } else {
      InsertEncodings(x, records[1..]);
      assert records == [records[0]] + records[1..];
      EncodingsCons(records[0], records[1..]);
      assert Encodings(records)[1..] == Encodings(records[1..]);
      EncodingsCons(records[0], InsertRecord(x, records[1..]));
    }
  }

  lemma {:induction false} InsertKeepsAll(x: RecordData, records: seq<RecordData>)
    ensures multiset(InsertRecord(x, records)) == multiset(records) + multiset{x}
  {
    hide Enc, Less;
    if records != [] {
      InsertKeepsAll(x, records[1..]);
      assert records == [records[0]] + records[1..];
    }
  }

  /** Sorting records is sorting their encodings, and loses or invents none. */
  lemma {:induction false} SortEncodings(records: seq<RecordData>)
    ensures Encodings(SortRecords(records)) == SortBytes(Encodings(records))
    ensures multiset(SortRecords(records)) == multiset(records)
  {
    if records != [] {
      SortEncodings(records[1..]);
      InsertEncodings(records[0], SortRecords(records[1..]));
      InsertKeepsAll(records[0], SortRecords(records[1..]));
      assert records == [records[0]] + records[1..];
      assert Encodings(records)[1..] == Encodings(records[1..]);
    }
  }

  lemma {:induction false} InsertInOrder(e: seq<Byte>, es: seq<seq<Byte>>)
    requires es != [] ==> Less(e, es[0])
    ensures InsertBytes(e, es) == [e] + es
  {
    if es != [] { LessTotal(e, es[0]); }
  }

  /** A canonical list is already sorted. */
  lemma {:induction false} SortedAlready(es: seq<seq<Byte>>)
    requires Canonical(es)
    ensures SortBytes(es) == es
  {
    if es != [] {
      assert forall i :: 0 < i < |es[1..]| ==> es[1..][i - 1] == es[i];
      SortedAlready(es[1..]);
      InsertInOrder(es[0], es[1..]);
    }
  }

  /** Two canonical orders of the same records are the same list. */
  lemma {:induction false} CanonicalOrderUnique(a: seq<RecordData>, b: seq<RecordData>)
    requires multiset(a) == multiset(b) && Canonical(Encodings(a)) && Canonical(Encodings(b))
    ensures a == b
    decreases |a|
  {
    hide Less, Canonical, Encodings;
    SameLength(a, b);
    if a != [] {
      HeadIsLeast(a, b);
      HeadIsLeast(b, a);
      LessTotal(Enc(a[0]), Enc(b[0]));
      assert a == [a[0]] + a[1..] && b == [b[0]] + b[1..];
      TailCanonical(a);
      TailCanonical(b);
      assert multiset(a[1..]) == multiset(a) - multiset{a[0]};
      assert multiset(b[1..]) == multiset(b) - multiset{b[0]};
      CanonicalOrderUnique(a[1..], b[1..]);
    }
  }

  lemma HeadIsLeast(a: seq<RecordData>, b: seq<RecordData>)
    requires multiset(a) == multiset(b) && Canonical(Encodings(a)) && a != [] && b != []
    ensures a[0] == b[0] || Less(Enc(a[0]), Enc(b[0]))
  {
    assert b[0] in multiset(a);
    var i :| 0 <= i < |a| && a[i] == b[0];
    if i > 0 { CanonicalFrom(Encodings(a), 0, i); }
  }

  lemma TailCanonical(a: seq<RecordData>)
    requires Canonical(Encodings(a)) && a != []
    ensures Canonical(Encodings(a[1..]))
  {
    var t := Encodings(a[1..]);
    forall i | 0 < i < |t| ensures Less(t[i - 1], t[i]) {
      assert Less(Encodings(a)[i], Encodings(a)[i + 1]);
    }
  }

  // ----- the codec -----

  function Joined(es: seq<seq<Byte>>): seq<Byte> {
    if es == [] then [] else es[0] + Joined(es[1..])
  }

  function FirstFailure(records: seq<RecordData>): Option<WireError> {
    if records == [] then None
    else if EncodeData(records[0]).Err? then Some(EncodeData(records[0]).error)
    else FirstFailure(records[1..])
  }

  function Header(r: DnsRecord): seq<Byte> {
    WordBytes(r.domainId) + Put(r.sequence) + Put(r.expiration)
  }

  function EncodeRecord(r: DnsRecord): Result<seq<Byte>> {
    var sorted := SortBytes(Encodings(r.records));
    if r.sequence == 0 || r.records == [] then Err(InvalidRecord)
    else if |r.records| > MAX_RECORDS_PER_SET then Err(LimitExceeded)
    else if FirstFailure(r.records).Some? then Err(FirstFailure(r.records).value)
    else if !Canonical(sorted) then Err(DuplicateRecord)
    else Ok(Header(r) + Put(|r.records|) + Joined(sorted))
  }

  function DecodeSet(T: TextRules, b: seq<Byte>, count: nat, previous: seq<Byte>): Parse<seq<RecordData>>
    decreases count
  {
    if count == 0 then Ok(([], b))
    else
      match DecodeData(T, b)
      case Err(e) => Err(e)
      case Ok((x, rest)) =>
        if EncodeData(x).Err? then Err(EncodeData(x).error)
        else if !Less(previous, Enc(x)) then Err(NotSorted)
        else
          match DecodeSet(T, rest, count - 1, Enc(x))
          case Ok((xs, left)) => Ok(([x] + xs, left))
          case Err(e) => Err(e)
  }

  function DecodeHeader(b: seq<Byte>): Parse<(Word32, U64, U64, U64)> {
    var id := TakeArray(b, 32);
    if id.Err? then Err(id.error) else
    var sequence := TakeU64(id.value.1);
    if sequence.Err? then Err(sequence.error) else
    var expiration := TakeU64(sequence.value.1);
    if expiration.Err? then Err(expiration.error) else
    var count := TakeU64(expiration.value.1);
    if count.Err? then Err(count.error) else
    Ok(((WordOf(id.value.0), sequence.value.0, expiration.value.0, count.value.0), count.value.1))
  }

  function DecodeRecord(T: TextRules, b: seq<Byte>): Parse<DnsRecord> {
    match DecodeHeader(b)
    case Err(e) => Err(e)
    case Ok(((id, sequence, expiration, count), rest)) =>
      if count > MAX_RECORDS_PER_SET then Err(LimitExceeded)
      else
        match DecodeSet(T, rest, count, [])
        case Err(e) => Err(e)
        case Ok((records, left)) =>
          if sequence == 0 || records == [] then Err(InvalidRecord)
          else Ok((DnsRecord(id, sequence, expiration, records), left))
  }

  predicate RecordOk(T: TextRules, r: DnsRecord) {
    forall i :: 0 <= i < |r.records| ==> DataOk(T, r.records[i])
  }

  // ----- the laws -----

  lemma HeaderRoundTrip(r: DnsRecord, count: U64, rest: seq<Byte>)
    ensures DecodeHeader(Header(r) + Put(count) + rest) == Ok(((r.domainId, r.sequence, r.expiration, count), rest))
  {
    hide Put, TakeU64, TakeArray, WordBytes, WordOf;
    var (id, s, e, c) := (WordBytes(r.domainId), Put(r.sequence), Put(r.expiration), Put(count));
    assert Header(r) + c + rest == id + (s + (e + (c + rest)));
    ArrayRoundTrip(id, s + (e + (c + rest)));
    U64RoundTrips(r.sequence, e + (c + rest));
    U64RoundTrips(r.expiration, c + rest);
    U64RoundTrips(count, rest);
    WordRoundTrip(r.domainId);
  }

  lemma HeaderCanonical(b: seq<Byte>)
    requires DecodeHeader(b).Ok?
    ensures var ((id, sequence, expiration, count), rest) := DecodeHeader(b).value;
            b == Header(DnsRecord(id, sequence, expiration, [])) + Put(count) + rest
  {
    hide Put, TakeU64, WordBytes, WordOf;
    var id := TakeArray(b, 32).value;
    var s := TakeU64(id.1).value;
    var e := TakeU64(s.1).value;
    var c := TakeU64(e.1).value;
    U64Canonical(id.1);
    U64Canonical(s.1);
    U64Canonical(e.1);
    WordCanonical(id.0);
    assert b == id.0 + (Put(s.0) + (Put(e.0) + (Put(c.0) + c.1)));
  }

  /** Records in canonical order are read back from their joined encodings. */
  lemma {:induction false} SetRoundTrip(T: TextRules, records: seq<RecordData>, previous: seq<Byte>, rest: seq<Byte>)
    requires Encodable(records) && Canonical([previous] + Encodings(records))
    requires forall i :: 0 <= i < |records| ==> DataOk(T, records[i])
    ensures DecodeSet(T, Joined(Encodings(records)) + rest, |records|, previous) == Ok((records, rest))
    decreases |records|
  {
    hide DecodeData, EncodeData, DataOk, Less;
    var es := Encodings(records);
    if records != [] {
      var tail := Joined(Encodings(records[1..])) + rest;
      assert es[1..] == Encodings(records[1..]);
      Regroup(es[0], Joined(es[1..]), rest);
      DataRoundTrip(T, records[0], tail);
      assert ([previous] + es)[0] == previous && ([previous] + es)[1] == es[0];
      forall i | 0 < i < |es| ensures Less(([es[0]] + es[1..])[i - 1], ([es[0]] + es[1..])[i]) {
        assert Less(([previous] + es)[i], ([previous] + es)[i + 1]);
      }
      SetRoundTrip(T, records[1..], es[0], rest);
      assert Joined(es) + rest == EncodeData(records[0]).value + tail;
      assert Less(previous, Enc(records[0])) by { assert Less(([previous] + es)[0], ([previous] + es)[1]); }
      assert [records[0]] + records[1..] == records;
    } else {
      assert Joined(es) + rest == rest;
    }
  }

  lemma {:induction false} SetCanonical(T: TextRules, b: seq<Byte>, count: nat, previous: seq<Byte>)
    requires DecodeSet(T, b, count, previous).Ok?
    ensures var (records, rest) := DecodeSet(T, b, count, previous).value;
            && |records| == count && Encodable(records) && Canonical([previous] + Encodings(records))
            && (forall i :: 0 <= i < |records| ==> DataOk(T, records[i]))
            && b == Joined(Encodings(records)) + rest
    decreases count
  {
    hide DecodeData, EncodeData, DataOk, Less;
    if count > 0 {
      var (x, rest) := DecodeData(T, b).value;
      DataCanonical(T, b);
      SetCanonical(T, rest, count - 1, Enc(x));
      var (xs, left) := DecodeSet(T, rest, count - 1, Enc(x)).value;
      var records := [x] + xs;
      assert records[1..] == xs;
      Regroup(Enc(x), Joined(Encodings(xs)), left);
      var list := [previous] + Encodings(records);
      forall i | 0 < i < |list| ensures Less(list[i - 1], list[i]) {
        if i > 1 { assert Less(([Enc(x)] + Encodings(xs))[i - 2], ([Enc(x)] + Encodings(xs))[i - 1]); }
      }
    } else {
      assert Joined(Encodings([])) + b == b;
    }
  }

  lemma {:induction false} NoFailure(records: seq<RecordData>)
    ensures FirstFailure(records) == None <==> Encodable(records)
  {
    if records != [] {
      NoFailure(records[1..]);
      if Encodable(records[1..]) && EncodeData(records[0]).Ok? {
        forall i | 0 <= i < |records| ensures EncodeData(records[i]).Ok? {
          if i > 0 { assert records[i] == records[1..][i - 1]; }
        }
      }
      if Encodable(records) {
        forall i | 0 <= i < |records| - 1 ensures EncodeData(records[1..][i]).Ok? { assert EncodeData(records[i + 1]).Ok?; }
      }
    }
  }

  /** What holds for every member holds in any order. */
  lemma SortedKeeps(T: TextRules, records: seq<RecordData>)
    requires Encodable(records) && forall i :: 0 <= i < |records| ==> DataOk(T, records[i])
    ensures var s := SortRecords(records); Encodable(s) && forall i :: 0 <= i < |s| ==> DataOk(T, s[i])
  {
    SortEncodings(records);
    var s := SortRecords(records);
    forall i | 0 <= i < |s| ensures EncodeData(s[i]).Ok? && DataOk(T, s[i]) {
      assert s[i] in multiset(s);
      assert s[i] in multiset(records);
      var j :| 0 <= j < |records| && records[j] == s[i];
    }
  }

  lemma {:induction false} EncodingNotEmpty(x: RecordData)
    requires EncodeData(x).Ok?
    ensures Less([], Enc(x))
  {
    hide Put;
  }

  lemma StartsCanonical(records: seq<RecordData>)
    requires Encodable(records) && Canonical(Encodings(records))
    ensures Canonical([[]] + Encodings(records))
  {
    hide EncodeData;
    var es := Encodings(records);
    var list: seq<seq<Byte>> := [[]] + es;
    forall i | 0 < i < |list| ensures Less(list[i - 1], list[i]) {
      if i == 1 { EncodingNotEmpty(records[0]); } else { assert Less(es[i - 2], es[i - 1]); }
    }
  }

  /** Decoding the encoding of a record gives the record with its set in canonical order. */
  lemma RecordRoundTrip(T: TextRules, r: DnsRecord, rest: seq<Byte>)
    requires RecordOk(T, r) && EncodeRecord(r).Ok?
    ensures DecodeRecord(T, EncodeRecord(r).value + rest) == Ok((r.(records := SortRecords(r.records)), rest))
    ensures multiset(SortRecords(r.records)) == multiset(r.records) && Canonical(Encodings(SortRecords(r.records)))
  {
    hide DecodeHeader, Header, DecodeSet, Put, Canonical, DataOk, Encodable, FirstFailure;
    var sorted := SortRecords(r.records);
    NoFailure(r.records);
    SortEncodings(r.records);
    assert Encodable(sorted) && (forall i :: 0 <= i < |sorted| ==> DataOk(T, sorted[i])) by { SortedKeeps(T, r.records); }
    StartsCanonical(sorted);
    var body := Joined(Encodings(sorted));
    Regroup(Header(r) + Put(|sorted|), body, rest);
    HeaderRoundTrip(r, |sorted|, body + rest);
    SetRoundTrip(T, sorted, [], rest);
  }

  /** Accepted bytes are the encoding of what was read: one record set, one byte string. */
  lemma RecordCanonical(T: TextRules, b: seq<Byte>)
    requires DecodeRecord(T, b).Ok?
    ensures var (r, rest) := DecodeRecord(T, b).value;
            RecordOk(T, r) && EncodeRecord(r).Ok? && b == EncodeRecord(r).value + rest
  {
    hide DecodeHeader, DecodeSet, Put, DataOk, Encodable, FirstFailure, Less;
    var ((id, sequence, expiration, count), rest) := DecodeHeader(b).value;
    var (records, left) := DecodeSet(T, rest, count, []).value;
    HeaderCanonical(b);
    SetCanonical(T, rest, count, []);
    var list, es := [[]] + Encodings(records), Encodings(records);
    forall i | 0 < i < |es| ensures Less(es[i - 1], es[i]) { assert Less(list[i], list[i + 1]); }
    SortedAlready(es);
    NoFailure(records);
    var r := DnsRecord(id, sequence, expiration, records);
    assert Header(r) == Header(DnsRecord(id, sequence, expiration, []));
    Regroup(Header(r) + Put(count), Joined(es), left);
  }

  /** With nothing after it, an accepted byte string is exactly the encoding of its record set. */
  lemma CompleteRecord(T: TextRules, b: seq<Byte>, r: DnsRecord)
    ensures Complete(DecodeRecord(T, b)) == Ok(r) <==>
              RecordOk(T, r) && EncodeRecord(r) == Ok(b) && SortRecords(r.records) == r.records
  {
    hide EncodeRecord, DecodeRecord, RecordOk;
    assert b + [] == b;
    if Complete(DecodeRecord(T, b)) == Ok(r) {
      RecordCanonical(T, b);
      assert DecodeRecord(T, b) == Ok((r, []));
      assert EncodeRecord(r).value + [] == EncodeRecord(r).value;
      RecordRoundTrip(T, r, []);
      assert r.(records := SortRecords(r.records)) == r;
    }
    if RecordOk(T, r) && EncodeRecord(r) == Ok(b) && SortRecords(r.records) == r.records {
      RecordRoundTrip(T, r, []);
      assert r.(records := SortRecords(r.records)) == r;
    }
  }

  /** Two records have the same encoding exactly when they differ at most in the order of their sets. */
  lemma SameBytesSameRecord(T: TextRules, a: DnsRecord, b: DnsRecord)
    requires RecordOk(T, a) && RecordOk(T, b) && EncodeRecord(a).Ok? && EncodeRecord(b).Ok?
    ensures EncodeRecord(a) == EncodeRecord(b) <==>
              a.domainId == b.domainId && a.sequence == b.sequence && a.expiration == b.expiration
              && multiset(a.records) == multiset(b.records)
  {
    hide DecodeRecord, Header, Put, Canonical, FirstFailure, RecordOk, Joined;
    RecordRoundTrip(T, a, []);
    RecordRoundTrip(T, b, []);
    if multiset(a.records) == multiset(b.records) {
      CanonicalOrderUnique(SortRecords(a.records), SortRecords(b.records));
      SortEncodings(a.records);
      SortEncodings(b.records);
      SameLength(a.records, b.records);
      if a.domainId == b.domainId && a.sequence == b.sequence && a.expiration == b.expiration {
        SameHeader(a, b);
      }
    }
  }

  lemma SameLength(a: seq<RecordData>, b: seq<RecordData>)
    requires multiset(a) == multiset(b)
    ensures |a| == |b|
  {
    assert |a| == |multiset(a)| && |b| == |multiset(b)|;
  }

  lemma SameHeader(a: DnsRecord, b: DnsRecord)
    requires a.domainId == b.domainId && a.sequence == b.sequence && a.expiration == b.expiration
    ensures Header(a) == Header(b)
  {
  }

  // ----- in place -----

  /** Validates, encodes every member, sorts the encodings, refuses duplicates, writes. */
  method WriteRecord(r: DnsRecord, out: Writer) returns (result: Result<()>)
    modifies out
    ensures match EncodeRecord(r)
            case Ok(e) => result == Ok(()) && out.bytes == old(out.bytes) + e
            case Err(e) => result == Err(e)
  {
    hide EncodeData, Put, WordBytes, Less;
    ghost var start := out.bytes;
    if r.sequence == 0 || r.records == [] { return Err(InvalidRecord); }
    if |r.records| > MAX_RECORDS_PER_SET { return Err(LimitExceeded); }
    out.Append(WordBytes(r.domainId));
    out.PutU64(r.sequence);
    out.PutU64(r.expiration);
    assert out.bytes == start + Header(r);
    var encoded, failure := EncodeAll(r.records);
    if failure.Some? { return Err(failure.value); }
    encoded := SortBytes(encoded);
    var duplicate := AnyEqualNeighbours(encoded);
    SortedUnlessDuplicate(Encodings(r.records));
    if duplicate { return Err(DuplicateRecord); }
    out.PutU64(|encoded|);
    ghost var head := out.bytes;
    WriteJoined(encoded, out);
    assert out.bytes == start + (Header(r) + Put(|encoded|) + Joined(encoded));
    result := Ok(());
  }

  method WriteJoined(es: seq<seq<Byte>>, out: Writer)
    modifies out
    ensures out.bytes == old(out.bytes) + Joined(es)
  {
    var i := 0;
    assert es[0..] == es;
    while i < |es|
      invariant 0 <= i <= |es|
      invariant out.bytes + Joined(es[i..]) == old(out.bytes) + Joined(es)
    {
      assert es[i..][1..] == es[i + 1..];
      Regroup(out.bytes, es[i], Joined(es[i + 1..]));
      out.Append(es[i]);
      i := i + 1;
    }
    assert out.bytes + Joined(es[i..]) == out.bytes;
  }

  method EncodeAll(records: seq<RecordData>) returns (encoded: seq<seq<Byte>>, failure: Option<WireError>)
    ensures failure == FirstFailure(records) && (failure == None ==> encoded == Encodings(records))
  {
    hide EncodeData;
    encoded := [];
    var i := 0;
    assert records[0..] == records;
    while i < |records|
      invariant 0 <= i <= |records|
      invariant FirstFailure(records) == FirstFailure(records[i..])
      invariant encoded + Encodings(records[i..]) == Encodings(records)
    {
      assert records[i..][1..] == records[i + 1..];
      var one := new Writer();
      var r := WriteData(records[i], one);
      if r.Err? { return [], Some(r.error); }
      assert one.bytes == Enc(records[i]);
      EncodingsFrom(records, i);
      Regroup3(encoded, [one.bytes], Encodings(records[i + 1..]));
      encoded := encoded + [one.bytes];
      i := i + 1;
    }
    failure := None;
  }

  lemma EncodingsFrom(records: seq<RecordData>, i: nat)
    requires i < |records|
    ensures Encodings(records[i..]) == [Enc(records[i])] + Encodings(records[i + 1..])
  {
    assert records[i..][1..] == records[i + 1..];
  }

  lemma Regroup3(a: seq<seq<Byte>>, b: seq<seq<Byte>>, c: seq<seq<Byte>>)
    ensures a + b + c == a + (b + c)
  {
  }

  method AnyEqualNeighbours(es: seq<seq<Byte>>) returns (found: bool)
    ensures found <==> exists i :: 0 < i < |es| && es[i - 1] == es[i]
  {
    found := false;
    var i := 1;
    while i < |es|
      invariant 1 <= i
      invariant found <==> exists j :: 0 < j < i && j < |es| && es[j - 1] == es[j]
    {
      if es[i - 1] == es[i] { found := true; }
      i := i + 1;
    }
  }

  /** A sorted list is strictly increasing unless two neighbours are equal. */
  lemma SortedUnlessDuplicate(es: seq<seq<Byte>>)
    ensures var s := SortBytes(es); Canonical(s) <==> !exists i :: 0 < i < |s| && s[i - 1] == s[i]
  {
    var s := SortBytes(es);
    SortBytesSorts(es);
    forall i | 0 < i < |s| ensures Less(s[i - 1], s[i]) <==> s[i - 1] != s[i] {
      LessTotal(s[i - 1], s[i]);
    }
  }

  /** Never decreasing. */
  predicate Ordered(es: seq<seq<Byte>>) {
    forall i :: 0 < i < |es| ==> !Less(es[i], es[i - 1])
  }

  lemma {:induction false} SortBytesSorts(es: seq<seq<Byte>>)
    ensures Ordered(SortBytes(es))
  {
    if es != [] {
      SortBytesSorts(es[1..]);
      InsertKeepsOrder(es[0], SortBytes(es[1..]));
    }
  }

  lemma {:induction false} InsertKeepsOrder(e: seq<Byte>, es: seq<seq<Byte>>)
    requires Ordered(es)
    ensures Ordered(InsertBytes(e, es))
  {
    if es != [] && Less(es[0], e) {
      InsertKeepsOrder(e, es[1..]);
      var r := InsertBytes(e, es[1..]);
      LessTotal(es[0], e);
      forall i | 0 < i < |es[1..]| ensures !Less(es[1..][i], es[1..][i - 1]) {}
      assert !Less(r[0], es[0]) by {
        if es[1..] != [] && Less(es[1..][0], e) { assert r[0] == es[1]; }
      }
    } else if es != [] {
      assert !Less(es[0], e);
    }
  }

  /** Reads a record set, insisting on strictly increasing encodings. */
  method ReadRecord(T: TextRules, input: Cursor) returns (result: Result<DnsRecord>)
    modifies input
    ensures Reads(DecodeRecord(T, old(input.rest)), result, input.rest)
  {
    hide DecodeData, EncodeData, TakeU64, WordOf, DecodeSet, Less;
    var id := input.ReadArray(32);
    if id.Err? { return Err(id.error); }
    var sequence := input.ReadU64();
    if sequence.Err? { return Err(sequence.error); }
    var expiration := input.ReadU64();
    if expiration.Err? { return Err(expiration.error); }
    var count := input.ReadU64();
    if count.Err? { return Err(count.error); }
    if count.value > MAX_RECORDS_PER_SET { return Err(LimitExceeded); }
    var records := ReadSet(T, count.value, input);
    if records.Err? { return Err(records.error); }
    if sequence.value == 0 || records.value == [] { return Err(InvalidRecord); }
    result := Ok(DnsRecord(WordOf(id.value), sequence.value, expiration.value, records.value));
  }

  method ReadSet(T: TextRules, count: nat, input: Cursor) returns (result: Result<seq<RecordData>>)
    modifies input
    ensures Reads(DecodeSet(T, old(input.rest), count, []), result, input.rest)
  {
    hide DecodeData, EncodeData, Less, DecodeSet;
    var records: seq<RecordData>, previous: seq<Byte>, i := [], [], 0;
    ghost var whole := DecodeSet(T, input.rest, count, []);
    AppendedNone(whole);
    while i < count
      invariant 0 <= i <= count
      invariant whole == Appended(records, DecodeSet(T, input.rest, count - i, previous))
    {
      DecodeSetStep(T, input.rest, count - i, previous);
      var x := ReadData(T, input);
      if x.Err? { return Err(x.error); }
      var one := new Writer();
      var written := WriteData(x.value, one);
      if written.Err? { return Err(written.error); }
      assert one.bytes == Enc(x.value);
      if !Less(previous, one.bytes) { return Err(NotSorted); }
      AppendedOne(records, x.value, DecodeSet(T, input.rest, count - i - 1, one.bytes));
      previous := one.bytes;
      records := records + [x.value];
      i := i + 1;
    }
    assert records + [] == records;
    DecodeSetDone(T, input.rest, previous);
    result := Ok(records);
  }

  function Appended(done: seq<RecordData>, p: Parse<seq<RecordData>>): Parse<seq<RecordData>> {
    match p
    case Ok((xs, rest)) => Ok((done + xs, rest))
    case Err(e) => Err(e)
  }

  lemma AppendedNone(p: Parse<seq<RecordData>>)
    ensures Appended([], p) == p
  {
    if p.Ok? { assert [] + p.value.0 == p.value.0; }
  }

  lemma DecodeSetDone(T: TextRules, b: seq<Byte>, previous: seq<Byte>)
    ensures DecodeSet(T, b, 0, previous) == Ok(([], b))
  {
  }

  lemma DecodeSetStep(T: TextRules, b: seq<Byte>, count: nat, previous: seq<Byte>)
    requires count > 0
    ensures DecodeSet(T, b, count, previous) ==
            match DecodeData(T, b)
            case Err(e) => Err(e)
            case Ok((x, rest)) =>
              if EncodeData(x).Err? then Err(EncodeData(x).error)
              else if !Less(previous, Enc(x)) then Err(NotSorted)
              else Appended([x], DecodeSet(T, rest, count - 1, Enc(x)))
  {
    hide DecodeData, EncodeData, Less;
  }

  lemma AppendedOne(done: seq<RecordData>, x: RecordData, p: Parse<seq<RecordData>>)
    ensures Appended(done + [x], p) == Appended(done, Appended([x], p))
  {
    if p.Ok? { assert done + [x] + p.value.0 == done + ([x] + p.value.0); }
  }
}
