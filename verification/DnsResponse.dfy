/** Parsing DNS responses (section 4.1 of RFC 1035). */
module DnsResponse {
  import opened Bytes
  import opened DnsName

  datatype Ip = V4(octets: seq<byte>) | V6(octets: seq<byte>)

  const DEFAULT_TTL: u32 := 300

  /** `Hangs` is a name on which decoding never returns. */
  datatype Response = Ips(ips: seq<Ip>, ttl: u32) | EmptyResponse | RCode(code: nat) | Malformed | Hangs

  /** Where parsing goes on after a name. */
  datatype Place = At(pos: nat) | Bad | Stuck

  function AfterName(data: seq<byte>, utf8: Utf8, pos: nat): Place
  {
    if !Halts(data, utf8, pos) then Stuck
    else match Decode(data, utf8, pos)
      case Fail => Bad
      case Name(_, end) => At(end)
  }

  /** Names are all the rest of the parser needs the message's text for. */
  function Skipper(data: seq<byte>, utf8: Utf8): nat -> Place { (pos: nat) => AfterName(data, utf8, pos) }

  function SkipQuestions(skip: nat -> Place, n: nat, pos: nat): Place
    decreases n
  {
    if n == 0 then At(pos)
    else match skip(pos)
      case At(end) => SkipQuestions(skip, n - 1, end + 4)
      case p => p
  }

  /** The address a record carries, by its type and exact length. */
  function IpOf(rtype: u16, rdata: seq<byte>): Option<Ip>
  {
    if rtype == 1 && |rdata| == 4 then Some(V4(rdata))
    else if rtype == 28 && |rdata| == 16 then Some(V6(rdata))
    else None
  }

  function Lower(a: u32, b: u32): u32 { if b < a then b else a }

  function Finish(ips: seq<Ip>, ttl: u32): Response { if ips == [] then EmptyResponse else Ips(ips, ttl) }

  /** One answer record: its address if it has one, its time to live, and where it ends. */
  datatype Record = Record(ip: Option<Ip>, ttl: u32, end: nat) | BadRecord | StuckRecord

  function ReadRecord(data: seq<byte>, skip: nat -> Place, pos: nat): Record
  {
    match skip(pos)
    case Bad => BadRecord
    case Stuck => StuckRecord
    case At(p) =>
      if p + 10 > |data| then BadRecord
      else
        var end := p + 10 + U16Of(data[p + 8], data[p + 9]);
        if end > |data| then BadRecord
        else Record(IpOf(U16Of(data[p], data[p + 1]), data[p + 10..end]),
                    U32Of(data[p + 4], data[p + 5], data[p + 6], data[p + 7]), end)
  }

  /** The answer loop over whatever reads one record at a position. */
  function Gather(read: nat -> Record, n: nat, pos: nat, ips: seq<Ip>, ttl: u32): Response
    decreases n
  {
    if n == 0 then Finish(ips, ttl)
    else match read(pos)
      case BadRecord => Malformed
      case StuckRecord => Hangs
      case Record(ip, t, end) =>
        Gather(read, n - 1, end,
               if ip.Some? then ips + [ip.value] else ips, if ip.Some? then Lower(ttl, t) else ttl)
  }

  function Reader(data: seq<byte>, skip: nat -> Place): nat -> Record
  {
    (pos: nat) => ReadRecord(data, skip, pos)
  }

  function Parse(data: seq<byte>, utf8: Utf8): Response
  {
    if |data| < 12 then Malformed
    else
      var flags := U16Of(data[2], data[3]);
      if flags < 0x8000 then Malformed
      else if flags % 16 != 0 then RCode(flags % 16)
      else ParseSections(data, Skipper(data, utf8), U16Of(data[4], data[5]), U16Of(data[6], data[7]))
  }

  function ParseSections(data: seq<byte>, skip: nat -> Place, qdcount: nat, ancount: nat): Response
  {
    match SkipQuestions(skip, qdcount, 12)
    case Bad => Malformed
    case Stuck => Hangs
    case At(pos) => Gather(Reader(data, skip), ancount, pos, [], DEFAULT_TTL)
  }

  /** The parser with its moving position; every index is within bounds on every message it returns on. */
  method ParseDnsResponse(data: seq<byte>, utf8: Utf8) returns (r: Response)
    requires Parse(data, utf8) != Hangs
    ensures r == Parse(data, utf8)
  {
    if |data| < 12 { return Malformed; }
    var flags := U16Of(data[2], data[3]);
    if flags < 0x8000 { return Malformed; }
    if flags % 16 != 0 { return RCode(flags % 16); }
    var qdcount, ancount := U16Of(data[4], data[5]), U16Of(data[6], data[7]);
    var place := PassQuestions(data, utf8, qdcount);
    if place.Bad? { return Malformed; }
    r := CollectAnswers(data, utf8, ancount, place.pos);
  }

  /** The answer loop. */
  method CollectAnswers(data: seq<byte>, utf8: Utf8, ancount: nat, start: nat) returns (r: Response)
    requires Gather(Reader(data, Skipper(data, utf8)), ancount, start, [], DEFAULT_TTL) != Hangs
    ensures r == Gather(Reader(data, Skipper(data, utf8)), ancount, start, [], DEFAULT_TTL)
  {
    ghost var read := Reader(data, Skipper(data, utf8));
    var pos, ips: seq<Ip>, minTtl := start, [], DEFAULT_TTL;
    for i := 0 to ancount
      invariant Gather(read, ancount, start, [], DEFAULT_TTL) == Gather(read, ancount - i, pos, ips, minTtl)
    {
      assert !read(pos).StuckRecord?;
      var rec := ParseRecord(data, utf8, pos);
      assert rec == read(pos);
      GatherStep(read, ancount - i, pos, ips, minTtl);
      if rec.BadRecord? { return Malformed; }
      if rec.ip.Some? {
        ips := ips + [rec.ip.value];
        minTtl := Lower(minTtl, rec.ttl);
      }
      pos := rec.end;
    }
    return if ips == [] then EmptyResponse else Ips(ips, minTtl);
  }

  lemma GatherStep(read: nat -> Record, n: nat, pos: nat, ips: seq<Ip>, ttl: u32)
    requires n > 0
    ensures match read(pos)
      case BadRecord => Gather(read, n, pos, ips, ttl) == Malformed
      case StuckRecord => Gather(read, n, pos, ips, ttl) == Hangs
      case Record(ip, t, end) =>
        Gather(read, n, pos, ips, ttl)
          == if ip.Some? then Gather(read, n - 1, end, ips + [ip.value], Lower(ttl, t))
             else Gather(read, n - 1, end, ips, ttl)
  {
  }

  /** The question loop. */
  method PassQuestions(data: seq<byte>, utf8: Utf8, qdcount: nat) returns (p: Place)
    requires SkipQuestions(Skipper(data, utf8), qdcount, 12) != Stuck
    ensures p == SkipQuestions(Skipper(data, utf8), qdcount, 12)
  {
    ghost var skip := Skipper(data, utf8);
    var pos: nat := 12;
    for i := 0 to qdcount
      invariant SkipQuestions(skip, qdcount, 12) == SkipQuestions(skip, qdcount - i, pos)
    {
      var place := SkipName(data, utf8, pos);
      if place.Bad? { return Bad; }
      pos := place.pos + 4;
    }
    return At(pos);
  }

  method SkipName(data: seq<byte>, utf8: Utf8, pos: nat) returns (p: Place)
    requires Skipper(data, utf8)(pos) != Stuck
    ensures p == Skipper(data, utf8)(pos)
  {
    var d := DecodeDomainName(data, utf8, pos);
    p := if d.Fail? then Bad else At(d.end);
  }

  /** The body of the answer loop. */
  method ParseRecord(data: seq<byte>, utf8: Utf8, start: nat) returns (r: Record)
    requires !Reader(data, Skipper(data, utf8))(start).StuckRecord?
    ensures r == Reader(data, Skipper(data, utf8))(start)
  {
    var place := SkipName(data, utf8, start);
    if place.Bad? { return BadRecord; }
    var pos := place.pos;
    if pos + 10 > |data| { return BadRecord; }
    var rtype := U16Of(data[pos], data[pos + 1]);
    var ttl := U32Of(data[pos + 4], data[pos + 5], data[pos + 6], data[pos + 7]);
    var rdlength := U16Of(data[pos + 8], data[pos + 9]);
    pos := pos + 10;
    if pos + rdlength > |data| { return BadRecord; }
    var ip := None;
    if rtype == 1 && rdlength == 4 {
      ip := Some(V4(data[pos..pos + 4]));
    } else if rtype == 28 && rdlength == 16 {
      ip := Some(V6(data[pos..pos + 16]));
    }
    return Record(ip, ttl, pos + rdlength);
  }

  // ----- messages put together from their parts -----

  /** A name as a server writes it: labels, then the root or a pointer. */
  datatype WireName = WireName(labels: seq<seq<byte>>, pointer: Option<u14>)

  /** Pointers are fourteen bits wide. */
  type u14 = x: int | 0 <= x < 0x4000

  function WireTail(p: Option<u14>): seq<byte>
  {
    if p == None then [0] else [192 + p.value / 256, p.value % 256]
  }

  function WireBytes(n: WireName): seq<byte>
  {
    EncodeLabels(n.labels) + WireTail(n.pointer)
  }

  predicate GoodLabels(utf8: Utf8, labels: seq<seq<byte>>)
  {
    labels == [] || (1 <= |labels[0]| <= 63 && utf8(labels[0]) && GoodLabels(utf8, labels[1..]))
  }

  /** Labels of 1 to 63 bytes of text, and a pointer to a place where a name stands. */
  ghost predicate GoodName(data: seq<byte>, utf8: Utf8, n: WireName)
  {
    && GoodLabels(utf8, n.labels)
    && (n.pointer.Some? ==> exists x :: Expands(data, utf8, n.pointer.value, x))
  }

  function Prepend(labels: seq<seq<byte>>, x: Expansion): Expansion
  {
    if labels == [] then x else Label(labels[0], Prepend(labels[1..], x))
  }

  lemma {:induction false} LabelsExpand(
      data: seq<byte>, utf8: Utf8, pos: nat, labels: seq<seq<byte>>, end: nat, x: Expansion)
    requires Stands(data, pos, EncodeLabels(labels)) && end == pos + |EncodeLabels(labels)|
    requires GoodLabels(utf8, labels)
    requires Expands(data, utf8, end, x)
    ensures Expands(data, utf8, pos, Prepend(labels, x))
    ensures EndOf(pos, Prepend(labels, x)) == EndOf(end, x)
    decreases |labels|
  {
    if labels != [] {
      var text, rest := labels[0], labels[1..];
      FirstLabel(data, utf8, pos, text, EncodeLabels(rest));
      LabelsExpand(data, utf8, pos + 1 + |text|, rest, end, x);
      LabelThenRest(data, utf8, pos, text, Prepend(rest, x));
    }
  }

  lemma LabelThenRest(data: seq<byte>, utf8: Utf8, pos: nat, text: seq<byte>, y: Expansion)
    requires LabelAt(data, utf8, pos, text) && Expands(data, utf8, pos + 1 + |text|, y)
    ensures Expands(data, utf8, pos, Label(text, y)) && EndOf(pos, Label(text, y)) == EndOf(pos + 1 + |text|, y)
  {
  }

  lemma FirstLabel(data: seq<byte>, utf8: Utf8, pos: nat, text: seq<byte>, rest: seq<byte>)
    requires Stands(data, pos, EncodeLabel(text) + rest) && 1 <= |text| <= 63 && utf8(text)
    ensures LabelAt(data, utf8, pos, text) && Stands(data, pos + 1 + |text|, rest)
    ensures |EncodeLabel(text) + rest| == 1 + |text| + |rest|
  {
    assert Clip(text) == text;
    StandsSplit(data, pos, EncodeLabel(text), rest);
    OneLabel(data, utf8, pos, text);
  }

  lemma TailExpands(data: seq<byte>, utf8: Utf8, pos: nat, p: Option<u14>) returns (x: Expansion)
    requires p.Some? ==> exists y :: Expands(data, utf8, p.value, y)
    requires Stands(data, pos, WireTail(p))
    ensures Expands(data, utf8, pos, x) && EndOf(pos, x) == pos + |WireTail(p)|
  {
    StandsAt(data, pos, WireTail(p), 0);
    if p == None {
      x := Root;
    } else {
      StandsAt(data, pos, WireTail(p), 1);
      var y :| Expands(data, utf8, p.value, y);
      x := Pointer(y);
    }
  }

  /** A good name is skipped exactly, compressed or not. */
  lemma NameIsSkipped(data: seq<byte>, utf8: Utf8, pos: nat, n: WireName)
    requires GoodName(data, utf8, n) && Stands(data, pos, WireBytes(n))
    ensures AfterName(data, utf8, pos) == At(pos + |WireBytes(n)|)
  {
    var x := NameExpands(data, utf8, pos, n);
    DecodeFollowsExpansion(data, utf8, pos, x);
  }

  lemma NameExpands(data: seq<byte>, utf8: Utf8, pos: nat, n: WireName) returns (x: Expansion)
    requires GoodName(data, utf8, n) && Stands(data, pos, WireBytes(n))
    ensures Expands(data, utf8, pos, x) && EndOf(pos, x) == pos + |WireBytes(n)|
  {
    var end := pos + |EncodeLabels(n.labels)|;
    StandsSplit(data, pos, EncodeLabels(n.labels), WireTail(n.pointer));
    var tail := TailExpands(data, utf8, end, n.pointer);
    LabelsExpand(data, utf8, pos, n.labels, end, tail);
    x := Prepend(n.labels, tail);
  }

  /** `skip` steps over this name wherever in the message it stands. */
  ghost predicate Skippable(data: seq<byte>, skip: nat -> Place, n: WireName)
  {
    forall pos: nat :: Stands(data, pos, WireBytes(n)) ==> skip(pos) == At(pos + |WireBytes(n)|)
  }

  lemma GoodIsSkippable(data: seq<byte>, utf8: Utf8, n: WireName)
    requires GoodName(data, utf8, n)
    ensures Skippable(data, Skipper(data, utf8), n)
  {
    forall pos: nat | Stands(data, pos, WireBytes(n))
      ensures Skipper(data, utf8)(pos) == At(pos + |WireBytes(n)|)
    {
      NameIsSkipped(data, utf8, pos, n);
    }
  }

  datatype Question = Question(name: WireName, qtype: u16, qclass: u16)

  datatype Answer = Answer(name: WireName, rtype: u16, rclass: u16, ttl: u32, rdata: seq<byte>)

  function QuestionBytes(q: Question): seq<byte>
  {
    WireBytes(q.name) + (U16Bytes(q.qtype) + U16Bytes(q.qclass))
  }

  /** Type, class, time to live and length: the ten bytes before the data. */
  function Fixed(a: Answer): (r: seq<byte>)
    ensures |r| == 10
  {
    U16Bytes(a.rtype) + U16Bytes(a.rclass) + U32Bytes(a.ttl) + U16Bytes(|a.rdata|)
  }

  function AnswerBytes(a: Answer): seq<byte>
  {
    WireBytes(a.name) + (Fixed(a) + a.rdata)
  }

  function AllQuestions(qs: seq<Question>): seq<byte>
  {
    if qs == [] then [] else QuestionBytes(qs[0]) + AllQuestions(qs[1..])
  }

  function AllAnswers(ans: seq<Answer>): seq<byte>
  {
    if ans == [] then [] else AnswerBytes(ans[0]) + AllAnswers(ans[1..])
  }

  /** The addresses of the A and AAAA answers, in order. */
  function Addresses(ans: seq<Answer>): seq<Ip>
  {
    if ans == [] then []
    else
      var ip := IpOf(ans[0].rtype, ans[0].rdata);
      (if ip.Some? then [ip.value] else []) + Addresses(ans[1..])
  }

  /** The least time to live among them, starting from `ttl`. */
  function LeastTtl(ans: seq<Answer>, ttl: u32): u32
  {
    if ans == [] then ttl
    else LeastTtl(ans[1..], if IpOf(ans[0].rtype, ans[0].rdata).Some? then Lower(ttl, ans[0].ttl) else ttl)
  }

  function QuestionLength(q: Question): (n: nat)
    ensures n >= 4
  {
    |QuestionBytes(q)|
  }

  /** From `pos` on, `skip` finds the questions one after another; `end` is where they stop. */
  ghost predicate Steps(skip: nat -> Place, pos: nat, qs: seq<Question>, end: nat)
    decreases |qs|
  {
    if qs == [] then pos == end else
      skip(pos) == At(pos + QuestionLength(qs[0]) - 4) && Steps(skip, pos + QuestionLength(qs[0]), qs[1..], end)
  }

  lemma {:induction false} QuestionsAreFound(
      data: seq<byte>, skip: nat -> Place, pos: nat, qs: seq<Question>, end: nat)
    requires forall i :: 0 <= i < |qs| ==> Skippable(data, skip, qs[i].name)
    requires Stands(data, pos, AllQuestions(qs)) && end == pos + |AllQuestions(qs)|
    ensures Steps(skip, pos, qs, end)
    decreases |qs|
  {
    if qs != [] {
      var rest, next := AllQuestions(qs[1..]), pos + QuestionLength(qs[0]);
      OneQuestion(data, skip, pos, qs[0], rest);
      QuestionsAreFound(data, skip, next, qs[1..], end);
    }
  }

  lemma {:induction false} FoundQuestionsAreSkipped(skip: nat -> Place, pos: nat, qs: seq<Question>, end: nat)
    requires Steps(skip, pos, qs, end)
    ensures SkipQuestions(skip, |qs|, pos) == At(end)
    decreases |qs|
  {
    if qs != [] {
      FoundQuestionsAreSkipped(skip, pos + QuestionLength(qs[0]), qs[1..], end);
    }
  }

  lemma QuestionsAreSkipped(data: seq<byte>, skip: nat -> Place, pos: nat, qs: seq<Question>)
    requires forall i :: 0 <= i < |qs| ==> Skippable(data, skip, qs[i].name)
    requires Stands(data, pos, AllQuestions(qs))
    ensures SkipQuestions(skip, |qs|, pos) == At(pos + |AllQuestions(qs)|)
  {
    QuestionsAreFound(data, skip, pos, qs, pos + |AllQuestions(qs)|);
    FoundQuestionsAreSkipped(skip, pos, qs, pos + |AllQuestions(qs)|);
  }

  lemma OneQuestion(data: seq<byte>, skip: nat -> Place, pos: nat, q: Question, rest: seq<byte>)
    requires Skippable(data, skip, q.name) && Stands(data, pos, QuestionBytes(q) + rest)
    ensures skip(pos) == At(pos + QuestionLength(q) - 4)
    ensures Stands(data, pos + QuestionLength(q), rest)
  {
    StandsSplit(data, pos, QuestionBytes(q), rest);
    StandsSplit(data, pos, WireBytes(q.name), U16Bytes(q.qtype) + U16Bytes(q.qclass));
    assert skip(pos) == At(pos + |WireBytes(q.name)|);
  }

  lemma U16Stands(data: seq<byte>, pos: nat, n: u16)
    requires Stands(data, pos, U16Bytes(n))
    ensures U16Of(data[pos], data[pos + 1]) == n
  {
    SmallRoundTrip(n);
    StandsAt(data, pos, U16Bytes(n), 0);
    StandsAt(data, pos, U16Bytes(n), 1);
  }

  lemma U32Stands(data: seq<byte>, pos: nat, n: u32)
    requires Stands(data, pos, U32Bytes(n))
    ensures U32Of(data[pos], data[pos + 1], data[pos + 2], data[pos + 3]) == n
  {
    U32RoundTrip(n);
    StandsAt(data, pos, U32Bytes(n), 0);
    StandsAt(data, pos, U32Bytes(n), 1);
    StandsAt(data, pos, U32Bytes(n), 2);
    StandsAt(data, pos, U32Bytes(n), 3);
  }

  lemma FixedParts(data: seq<byte>, p: nat, a: Answer)
    requires |a.rdata| < 0x1_0000 && Stands(data, p, Fixed(a))
    ensures U16Of(data[p], data[p + 1]) == a.rtype
    ensures U32Of(data[p + 4], data[p + 5], data[p + 6], data[p + 7]) == a.ttl
    ensures U16Of(data[p + 8], data[p + 9]) == |a.rdata|
  {
    var t, c, l, n := U16Bytes(a.rtype), U16Bytes(a.rclass), U32Bytes(a.ttl), U16Bytes(|a.rdata|);
    StandsSplit(data, p, t + c + l, n);
    StandsSplit(data, p, t + c, l);
    StandsSplit(data, p, t, c);
    U16Stands(data, p, a.rtype);
    U32Stands(data, p + 4, a.ttl);
    U16Stands(data, p + 8, |a.rdata|);
  }

  lemma RecordIsRead(data: seq<byte>, skip: nat -> Place, pos: nat, a: Answer)
    requires Skippable(data, skip, a.name) && |a.rdata| < 0x1_0000
    requires Stands(data, pos, AnswerBytes(a))
    ensures ReadRecord(data, skip, pos) == Record(IpOf(a.rtype, a.rdata), a.ttl, pos + |AnswerBytes(a)|)
  {
    var name := WireBytes(a.name);
    StandsSplit(data, pos, name, Fixed(a) + a.rdata);
    var p := pos + |name|;
    StandsSplit(data, p, Fixed(a), a.rdata);
    FixedParts(data, p, a);
    RecordOfParts(data, skip, pos, p, a);
  }

  lemma RecordOfParts(data: seq<byte>, skip: nat -> Place, pos: nat, p: nat, a: Answer)
    requires skip(pos) == At(p) && |a.rdata| < 0x1_0000 && Stands(data, p + 10, a.rdata)
    requires U16Of(data[p], data[p + 1]) == a.rtype
    requires U32Of(data[p + 4], data[p + 5], data[p + 6], data[p + 7]) == a.ttl
    requires U16Of(data[p + 8], data[p + 9]) == |a.rdata|
    ensures ReadRecord(data, skip, pos) == Record(IpOf(a.rtype, a.rdata), a.ttl, p + 10 + |a.rdata|)
  {
  }

  function LengthOf(a: Answer): nat
  {
    |AnswerBytes(a)|
  }

  /** From `pos` on, `read` finds the answers one after another. */
  ghost predicate Finds(read: nat -> Record, pos: nat, ans: seq<Answer>)
    decreases |ans|
  {
    ans == [] ||
    (read(pos) == Record(IpOf(ans[0].rtype, ans[0].rdata), ans[0].ttl, pos + LengthOf(ans[0]))
     && Finds(read, pos + LengthOf(ans[0]), ans[1..]))
  }

  lemma {:induction false} AnswersAreFound(data: seq<byte>, skip: nat -> Place, pos: nat, ans: seq<Answer>)
    requires forall i :: 0 <= i < |ans| ==> Skippable(data, skip, ans[i].name) && |ans[i].rdata| < 0x1_0000
    requires Stands(data, pos, AllAnswers(ans))
    ensures Finds(Reader(data, skip), pos, ans)
    decreases |ans|
  {
    if ans != [] {
      StandsSplit(data, pos, AnswerBytes(ans[0]), AllAnswers(ans[1..]));
      RecordIsRead(data, skip, pos, ans[0]);
      AnswersAreFound(data, skip, pos + LengthOf(ans[0]), ans[1..]);
    }
  }

  lemma {:induction false} FoundAnswersAreGathered(
      read: nat -> Record, pos: nat, ans: seq<Answer>, ips: seq<Ip>, ttl: u32)
    requires Finds(read, pos, ans)
    ensures Gather(read, |ans|, pos, ips, ttl) == Finish(ips + Addresses(ans), LeastTtl(ans, ttl))
    decreases |ans|
  {
    if ans == [] {
      assert ips + [] == ips;
    } else {
      var a := ans[0];
      var ip := IpOf(a.rtype, a.rdata);
      var ips' := if ip.Some? then ips + [ip.value] else ips;
      FoundAnswersAreGathered(read, pos + LengthOf(a), ans[1..], ips', if ip.Some? then Lower(ttl, a.ttl) else ttl);
      AddressesCons(ans, ips);
    }
  }

  lemma AddressesCons(ans: seq<Answer>, ips: seq<Ip>)
    requires ans != []
    ensures var ip := IpOf(ans[0].rtype, ans[0].rdata);
      ips + Addresses(ans) == (if ip.Some? then ips + [ip.value] else ips) + Addresses(ans[1..])
  {
  }

  /** Identifier, flags, the two counts used and the two that are not. */
  function Header(id: u16, flags: u16, qd: u16, an: u16, more: seq<byte>): (r: seq<byte>)
    requires |more| == 4
    ensures |r| == 12
  {
    U16Bytes(id) + U16Bytes(flags) + U16Bytes(qd) + U16Bytes(an) + more
  }

  lemma HeaderParts(data: seq<byte>, id: u16, flags: u16, qd: u16, an: u16, more: seq<byte>)
    requires |more| == 4 && Stands(data, 0, Header(id, flags, qd, an, more))
    ensures U16Of(data[2], data[3]) == flags && U16Of(data[4], data[5]) == qd && U16Of(data[6], data[7]) == an
  {
    var a, b, c, d := U16Bytes(id), U16Bytes(flags), U16Bytes(qd), U16Bytes(an);
    StandsSplit(data, 0, a + b + c + d, more);
    StandsSplit(data, 0, a + b + c, d);
    StandsSplit(data, 0, a + b, c);
    StandsSplit(data, 0, a, b);
    U16Stands(data, 2, flags);
    U16Stands(data, 4, qd);
    U16Stands(data, 6, an);
  }

  lemma HeaderIsRead(
      data: seq<byte>, utf8: Utf8, id: u16, flags: u16, qd: u16, an: u16, more: seq<byte>, rest: seq<byte>)
    requires |more| == 4 && flags >= 0x8000 && flags % 16 == 0
    requires Stands(data, 0, Header(id, flags, qd, an, more) + rest)
    ensures Parse(data, utf8) == ParseSections(data, Skipper(data, utf8), qd, an) && Stands(data, 12, rest)
  {
    StandsSplit(data, 0, Header(id, flags, qd, an, more), rest);
    HeaderParts(data, id, flags, qd, an, more);
  }

  /**
    * On every successful response that starts with a header, questions and answers as serialised,
    * names compressed or not and whatever follows, the parser returns exactly the A and AAAA
    * addresses in order, with the least of their times to live capped at 300, or `EmptyResponse`
    * when there are none.
    */
  lemma ResponseRoundTrip(
      data: seq<byte>, utf8: Utf8, id: u16, flags: u16, qs: seq<Question>, ans: seq<Answer>, more: seq<byte>)
    requires |more| == 4 && flags >= 0x8000 && flags % 16 == 0 && |qs| < 0x1_0000 && |ans| < 0x1_0000
    requires forall i :: 0 <= i < |qs| ==> GoodName(data, utf8, qs[i].name)
    requires forall i :: 0 <= i < |ans| ==>
      |ans[i].rdata| < 0x1_0000 && GoodName(data, utf8, ans[i].name)
    requires Stands(data, 0, Header(id, flags, |qs|, |ans|, more) + (AllQuestions(qs) + AllAnswers(ans)))
    ensures Parse(data, utf8) == Finish(Addresses(ans), LeastTtl(ans, DEFAULT_TTL))
  {
    var skip := Skipper(data, utf8);
    HeaderIsRead(data, utf8, id, flags, |qs|, |ans|, more, AllQuestions(qs) + AllAnswers(ans));
    forall i | 0 <= i < |qs| ensures Skippable(data, skip, qs[i].name) { GoodIsSkippable(data, utf8, qs[i].name); }
    forall i | 0 <= i < |ans| ensures Skippable(data, skip, ans[i].name) { GoodIsSkippable(data, utf8, ans[i].name); }
    SectionsAreParsed(data, skip, qs, ans);
  }

  lemma SectionsAreParsed(data: seq<byte>, skip: nat -> Place, qs: seq<Question>, ans: seq<Answer>)
    requires forall i :: 0 <= i < |qs| ==> Skippable(data, skip, qs[i].name)
    requires forall i :: 0 <= i < |ans| ==> Skippable(data, skip, ans[i].name) && |ans[i].rdata| < 0x1_0000
    requires Stands(data, 12, AllQuestions(qs) + AllAnswers(ans))
    ensures ParseSections(data, skip, |qs|, |ans|) == Finish(Addresses(ans), LeastTtl(ans, DEFAULT_TTL))
  {
    StandsSplit(data, 12, AllQuestions(qs), AllAnswers(ans));
    QuestionsAreSkipped(data, skip, 12, qs);
    var pos := 12 + |AllQuestions(qs)|;
    AnswersAreFound(data, skip, pos, ans);
    SectionsFollow(data, skip, |qs|, pos, ans);
  }

  lemma SectionsFollow(data: seq<byte>, skip: nat -> Place, qd: nat, pos: nat, ans: seq<Answer>)
    requires SkipQuestions(skip, qd, 12) == At(pos) && Finds(Reader(data, skip), pos, ans)
    ensures ParseSections(data, skip, qd, |ans|) == Finish(Addresses(ans), LeastTtl(ans, DEFAULT_TTL))
  {
    FoundAnswersAreGathered(Reader(data, skip), pos, ans, [], DEFAULT_TTL);
    assert [] + Addresses(ans) == Addresses(ans);
  }

  // ----- returning at all -----

  /** Skipping `n` questions from `pos` on decodes a name at `p`. */
  predicate QuestionAt(skip: nat -> Place, n: nat, pos: nat, p: nat)
    decreases n
  {
    n > 0 && (p == pos || (skip(pos).At? && QuestionAt(skip, n - 1, skip(pos).pos + 4, p)))
  }

  /** Reading `n` answers from `pos` on decodes a name at `p`. */
  predicate AnswerAt(read: nat -> Record, n: nat, pos: nat, p: nat)
    decreases n
  {
    n > 0 && (p == pos || (read(pos).Record? && AnswerAt(read, n - 1, read(pos).end, p)))
  }

  /** The parser decodes a name at `p`. */
  predicate NameAt(data: seq<byte>, utf8: Utf8, p: nat)
  {
    |data| >= 12 && U16Of(data[2], data[3]) >= 0x8000 && U16Of(data[2], data[3]) % 16 == 0
    && var skip, qd := Skipper(data, utf8), U16Of(data[4], data[5]);
       var questions := SkipQuestions(skip, qd, 12);
       || QuestionAt(skip, qd, 12, p)
       || (questions.At? && AnswerAt(Reader(data, skip), U16Of(data[6], data[7]), questions.pos, p))
  }

  lemma {:induction false} StuckQuestion(skip: nat -> Place, n: nat, pos: nat) returns (p: nat)
    requires SkipQuestions(skip, n, pos) == Stuck
    ensures QuestionAt(skip, n, pos, p) && skip(p) == Stuck
    decreases n
  {
    p := pos;
    if skip(pos).At? { p := StuckQuestion(skip, n - 1, skip(pos).pos + 4); }
  }

  lemma {:induction false} QuestionSticks(skip: nat -> Place, n: nat, pos: nat, p: nat)
    requires QuestionAt(skip, n, pos, p) && skip(p) == Stuck
    ensures SkipQuestions(skip, n, pos) == Stuck
    decreases n
  {
    if p != pos { QuestionSticks(skip, n - 1, skip(pos).pos + 4, p); }
  }

  lemma {:induction false} StuckAnswer(read: nat -> Record, n: nat, pos: nat, ips: seq<Ip>, ttl: u32) returns (p: nat)
    requires Gather(read, n, pos, ips, ttl) == Hangs
    ensures AnswerAt(read, n, pos, p) && read(p) == StuckRecord
    decreases n
  {
    p := pos;
    var r := read(pos);
    if n > 0 && r.Record? {
      p := StuckAnswer(read, n - 1, r.end, if r.ip.Some? then ips + [r.ip.value] else ips,
                       if r.ip.Some? then Lower(ttl, r.ttl) else ttl);
    }
  }

  lemma {:induction false} AnswerSticks(read: nat -> Record, n: nat, pos: nat, ips: seq<Ip>, ttl: u32, p: nat)
    requires AnswerAt(read, n, pos, p) && read(p) == StuckRecord
    ensures Gather(read, n, pos, ips, ttl) == Hangs
    decreases n
  {
    var r := read(pos);
    if p != pos {
      AnswerSticks(read, n - 1, r.end, if r.ip.Some? then ips + [r.ip.value] else ips,
                   if r.ip.Some? then Lower(ttl, r.ttl) else ttl, p);
    }
  }

  lemma HangingName(data: seq<byte>, utf8: Utf8) returns (p: nat)
    requires Parse(data, utf8) == Hangs
    ensures NameAt(data, utf8, p) && !Halts(data, utf8, p)
  {
    var skip, qd := Skipper(data, utf8), U16Of(data[4], data[5]);
    var questions := SkipQuestions(skip, qd, 12);
    if questions.At? {
      p := StuckAnswer(Reader(data, skip), U16Of(data[6], data[7]), questions.pos, [], DEFAULT_TTL);
    } else {
      p := StuckQuestion(skip, qd, 12);
    }
  }

  /** Parsing hangs exactly when one of the names it decodes does. */
  lemma ParseHangsIff(data: seq<byte>, utf8: Utf8)
    ensures Parse(data, utf8) == Hangs <==> exists p: nat :: NameAt(data, utf8, p) && !Halts(data, utf8, p)
  {
    if Parse(data, utf8) == Hangs {
      var p := HangingName(data, utf8);
    } else if p: nat :| NameAt(data, utf8, p) && !Halts(data, utf8, p) {
      var skip, qd := Skipper(data, utf8), U16Of(data[4], data[5]);
      assert skip(p) == Stuck;
      var questions := SkipQuestions(skip, qd, 12);
      if QuestionAt(skip, qd, 12, p) {
        QuestionSticks(skip, qd, 12, p);
      } else {
        AnswerSticks(Reader(data, skip), U16Of(data[6], data[7]), questions.pos, [], DEFAULT_TTL, p);
      }
    }
  }

  /** A message whose names follow the rule for pointers is parsed to the end, whatever its other bytes are. */
  lemma CompliantMessageReturns(data: seq<byte>, utf8: Utf8)
    requires forall p: nat :: NameAt(data, utf8, p) ==> PointsBack(data, p, p)
    ensures Parse(data, utf8) != Hangs
  {
    if Parse(data, utf8) == Hangs {
      var p := HangingName(data, utf8);
      CompliantNamesHalt(data, utf8, p);
    }
  }
}
