/** DNS messages as RFC 1035 section 4.1 lays them out: the query builder and the response parser. */
module DnsMessage {
  import opened ByteSeq

  // ---- Host names ----

  /** The labels of a host name, given the label begun so far: the nonempty runs between dots. */
  function Labels(name: Bytes, current: Bytes): seq<Bytes>
  {
    if name == [] then if current == [] then [] else [current]
    else if name[0] == 46 then (if current == [] then [] else [current]) + Labels(name[1..], [])
    else Labels(name[1..], current + [name[0]])
  }

  method SplitHostname(name: Bytes) returns (labels: seq<Bytes>)
    ensures labels == Labels(name, [])
  {
    labels := [];
    var current: Bytes := [];
    var i := 0;
    while i < |name|
      invariant i <= |name|
      invariant Labels(name, []) == labels + Labels(name[i..], current)
    {
      assert name[i..][1..] == name[i + 1..];
      if name[i] == 46 {
        if current != [] {
          labels := labels + [current];
          current := [];
        }
      } else {
        current := current + [name[i]];
      }
      i := i + 1;
    }
    assert name[i..] == [];
    if current != [] {
      labels := labels + [current];
    }
  }

  predicate DotFree(run: Bytes) { forall i :: 0 <= i < |run| ==> run[i] != 46 }

  predicate Label(run: Bytes) { run != [] && DotFree(run) }

  /** Labels joined by dots, as a host name is written. */
  function Dotted(labels: seq<Bytes>): Bytes
  {
    if labels == [] then [] else if |labels| == 1 then labels[0] else labels[0] + [46] + Dotted(labels[1..])
  }

  lemma {:induction false} LabelsOfRun(run: Bytes, rest: Bytes, current: Bytes)
    requires DotFree(run)
    ensures Labels(run + rest, current) == Labels(rest, current + run)
    decreases |run|
  {
    if run == [] {
      assert run + rest == rest && current + run == current;
    } else {
      assert (run + rest)[1..] == run[1..] + rest;
      LabelsOfRun(run[1..], rest, current + [run[0]]);
      assert current + [run[0]] + run[1..] == current + run;
    }
  }

  /** Splitting undoes joining. */
  lemma {:induction false} SplitDotted(labels: seq<Bytes>)
    requires forall i :: 0 <= i < |labels| ==> Label(labels[i])
    ensures Labels(Dotted(labels), []) == labels
  {
    if labels != [] {
      var first := labels[0];
      if |labels| == 1 {
        LabelsOfRun(first, [], []);
        assert first + [] == first && [] + first == first;
      } else {
        var rest := Dotted(labels[1..]);
        LabelsOfRun(first, [46] + rest, []);
        assert [] + first == first && ([46] + rest)[1..] == rest;
        assert first + ([46] + rest) == Dotted(labels);
        SplitDotted(labels[1..]);
        assert labels == [first] + labels[1..];
      }
    }
  }

  lemma {:induction false} LabelsAreLabels(name: Bytes, current: Bytes)
    requires DotFree(current)
    ensures forall i :: 0 <= i < |Labels(name, current)| ==> Label(Labels(name, current)[i])
    decreases |name|
  {
    if name != [] {
      LabelsAreLabels(name[1..], if name[0] == 46 then [] else current + [name[0]]);
    }
  }

  // ---- Wire form ----

  /** Labels behind their lengths, then the root label. */
  function NameBytes(labels: seq<Bytes>): Bytes
  {
    if labels == [] then [0] else [Low(|labels[0]|)] + labels[0] + NameBytes(labels[1..])
  }

  function Question(labels: seq<Bytes>, qtype: nat): Bytes { NameBytes(labels) + (Be16(qtype) + [0, 1]) }

  function QueryHeader(): Bytes { [0xAB, 0xCD, 1, 0, 0, 1, 0, 0, 0, 0, 0, 0] }

  method BuildDnsQuery(hostname: Bytes, qtype: nat) returns (msg: Bytes)
    requires qtype < 65536
    ensures msg == QueryHeader() + Question(Labels(hostname, []), qtype)
    ensures |msg| >= 17 && msg[..12] == [0xAB, 0xCD, 1, 0, 0, 1, 0, 0, 0, 0, 0, 0]
    ensures msg[|msg| - 4..] == [qtype / 256, qtype % 256, 0, 1]
  {
    hide Be16;
    msg := [];
    msg := msg + [0xAB, 0xCD];
    msg := msg + [1, 0];
    msg := msg + [0, 1];
    msg := msg + [0, 0, 0, 0, 0, 0];
    var labels := SplitHostname(hostname);
    ghost var head := msg;
    for i := 0 to |labels|
      invariant msg + NameBytes(labels[i..]) == head + NameBytes(labels)
    {
      assert labels[i..][1..] == labels[i + 1..];
      msg := msg + [Low(|labels[i]|)];
      msg := msg + labels[i];
    }
    assert labels[|labels|..] == [];
    msg := msg + [0];
    msg := msg + Be16(qtype);
    msg := msg + [0, 1];
    assert msg == head + NameBytes(labels) + (Be16(qtype) + [0, 1]);
    assert Be16(qtype) == [qtype / 256, qtype % 256] by { TypeBytes(qtype); }
    NameEnds(labels);
  }

  lemma TypeBytes(qtype: nat)
    requires qtype < 65536
    ensures Be16(qtype) == [qtype / 256, qtype % 256]
  {
  }

  lemma NameEnds(labels: seq<Bytes>)
    ensures |NameBytes(labels)| >= 1
  {
  }

  /** A name off the front of a message, label by label, as section 3.1 of RFC 1035 spells it. */
  function ReadName(b: Bytes): Option<(seq<Bytes>, Bytes)>
    decreases |b|
  {
    if b == [] || 1 + b[0] > |b| then None
    else if b[0] == 0 then Some(([], b[1..]))
    else match ReadName(b[1 + b[0]..])
      case None => None
      case Some((labels, rest)) => Some(([b[1..1 + b[0]]] + labels, rest))
  }

  /** The name in a query reads back as the labels of the host name, up to 255 bytes each. */
  lemma {:induction false} NameReadsBack(labels: seq<Bytes>, rest: Bytes)
    requires forall i :: 0 <= i < |labels| ==> 0 < |labels[i]| < 256
    ensures ReadName(NameBytes(labels) + rest) == Some((labels, rest))
  {
    hide Low;
    if labels == [] {
      assert ([0] + rest)[1..] == rest;
    } else {
      var run, more := labels[0], NameBytes(labels[1..]) + rest;
      var b := NameBytes(labels) + rest;
      assert b == [Low(|run|)] + run + more;
      assert Low(|run|) == |run| by { LowSmall(|run|); }
      assert b[1..1 + |run|] == run && b[1 + |run|..] == more;
      NameReadsBack(labels[1..], rest);
      assert [run] + labels[1..] == labels;
    }
  }

  lemma LowSmall(n: nat)
    requires n < 256
    ensures Low(n) == n
  {
  }

  /** So a query carries exactly the host name it was built for. */
  lemma QueryCarriesName(hostname: Bytes, qtype: nat)
    requires forall i :: 0 <= i < |Labels(hostname, [])| ==> |Labels(hostname, [])[i]| < 256
    ensures var q := QueryHeader() + Question(Labels(hostname, []), qtype);
      ReadName(q[12..]) == Some((Labels(hostname, []), Be16(qtype) + [0, 1]))
  {
    hide Be16;
    LabelsAreLabels(hostname, []);
    var labels := Labels(hostname, []);
    forall i | 0 <= i < |labels| ensures 0 < |labels[i]| {
      assert Label(labels[i]);
    }
    NameReadsBack(labels, Be16(qtype) + [0, 1]);
    assert (QueryHeader() + Question(labels, qtype))[12..] == Question(labels, qtype);
  }

  // ---- The parser ----

  /** Skip the question's name: a pointer byte (192 and up) ends it too. */
  function SkipQuestionName(data: Bytes, o: nat): (r: nat)
    ensures o <= r
    decreases |data| - o
  {
    if o >= |data| then o
    else if data[o] == 0 then o + 1
    else if data[o] >= 192 then o + 2
    else SkipQuestionName(data, o + (data[o] as int) + 1)
  }

  /** Skip an uncompressed name. */
  function SkipLabels(data: Bytes, o: nat): (r: nat)
    ensures o <= r
    decreases |data| - o
  {
    if o >= |data| then o else if data[o] == 0 then o + 1 else SkipLabels(data, o + (data[o] as int) + 1)
  }

  function SkipName(data: Bytes, o: nat): (r: nat)
    requires o < |data|
    ensures o < r
  {
    if data[o] >= 192 then o + 2 else SkipLabels(data, o)
  }

  /** net.IPv4: the four bytes in their 16-byte form. */
  function V4(b: Bytes): Bytes { [0, 0, 0, 0, 0, 0, 0, 0, 0, 0, 0xFF, 0xFF] + b }

  /** The address a record contributes, if any. */
  function Address(rtype: nat, rdata: Bytes): seq<Bytes>
  {
    if rtype == 1 && |rdata| == 4 then [V4(rdata)] else if rtype == 28 && |rdata| == 16 then [rdata] else []
  }

  /** A record's addresses (none or one) and the offset behind it. */
  datatype Parsed = Parsed(addresses: seq<Bytes>, next: nat)

  /** The record at offset o, or None when the data ends inside it. */
  function Record(data: Bytes, o: nat): Option<Parsed>
    requires o < |data|
  {
    var p := SkipName(data, o);
    if p + 10 > |data| || p + 10 + U16At(data, p + 8) > |data| then None
    else
      var n := U16At(data, p + 8);
      Some(Parsed(Address(U16At(data, p), data[p + 10..p + 10 + n]), p + 10 + n))
  }

  /** The addresses of up to `left` records starting at offset o. */
  function Answers(data: Bytes, o: nat, left: nat): seq<Bytes>
    decreases left
  {
    if left == 0 || o >= |data| then []
    else match Record(data, o)
      case None => []
      case Some(r) => r.addresses + Answers(data, r.next, left - 1)
  }

  function Response(data: Bytes): Option<seq<Bytes>>
  {
    if |data| < 12 then None
    else if U16At(data, 6) == 0 then Some([])
    else Some(Answers(data, SkipQuestionName(data, 12) + 4, U16At(data, 6)))
  }

  method SkipQuestion(data: Bytes, start: nat) returns (offset: nat)
    ensures offset == SkipQuestionName(data, start)
  {
    offset := start;
    while offset < |data|
      invariant SkipQuestionName(data, start) == SkipQuestionName(data, offset)
      decreases |data| - offset
    {
      var length := data[offset] as int;
      if length == 0 {
        offset := offset + 1;
        return;
      }
      if length >= 192 {
        offset := offset + 2;
        return;
      }
      offset := offset + length + 1;
    }
  }

  method SkipAnswerName(data: Bytes, start: nat) returns (offset: nat)
    requires start < |data|
    ensures offset == SkipName(data, start)
  {
    offset := start;
    if data[offset] >= 192 {
      offset := offset + 2;
    } else {
      while offset < |data|
        invariant SkipLabels(data, start) == SkipLabels(data, offset)
        decreases |data| - offset
      {
        var length := data[offset] as int;
        if length == 0 {
          offset := offset + 1;
          return;
        }
        offset := offset + length + 1;
      }
    }
  }

  lemma RecordFields(data: Bytes, p: nat)
    ensures p + 10 <= |data| ==>
      && U16At(data, p + 8) == (data[p + 8] as int) * 256 + data[p + 9] as int
      && (U16At(data, p) == 1 <==> data[p] == 0 && data[p + 1] == 1)
      && (U16At(data, p) == 28 <==> data[p] == 0 && data[p + 1] == 28)
  {
  }

  /** One turn of the answer loop. */
  method ParseRecord(data: Bytes, start: nat) returns (r: Option<Parsed>)
    requires start < |data|
    ensures r == Record(data, start)
    ensures var p := SkipName(data, start);
      && (r.Some? <==> p + 10 <= |data| && p + 10 + (data[p + 8] as int) * 256 + data[p + 9] as int <= |data|)
      && (r.Some? ==>
            var n := (data[p + 8] as int) * 256 + data[p + 9] as int;
            var rdata := data[p + 10..p + 10 + n];
            && r.value.next == p + 10 + n
            && r.value.addresses ==
                 if data[p] == 0 && data[p + 1] == 1 && n == 4 then [[0, 0, 0, 0, 0, 0, 0, 0, 0, 0, 255, 255] + rdata]
                 else if data[p] == 0 && data[p + 1] == 28 && n == 16 then [rdata]
                 else [])
  {
    hide U16, SkipLabels, SkipName;
    var offset := SkipAnswerName(data, start);
    RecordFields(data, offset);
    if offset + 10 > |data| { return None; }
    var rtype := U16At(data, offset);
    offset := offset + 2;
    offset := offset + 2;
    offset := offset + 4;
    var rdlength := U16At(data, offset);
    offset := offset + 2;
    if offset + rdlength > |data| { return None; }
    var ips: seq<Bytes> := [];
    if rtype == 1 && rdlength == 4 {
      assert data[offset..offset + 4] == [data[offset], data[offset + 1], data[offset + 2], data[offset + 3]];
      ips := [V4([data[offset], data[offset + 1], data[offset + 2], data[offset + 3]])];
    } else if rtype == 28 && rdlength == 16 {
      ips := [data[offset..offset + 16]];
    }
    return Some(Parsed(ips, offset + rdlength));
  }

  /** Total on any bytes: every index is in range and every loop ends. */
  method ParseDnsResponse(data: Bytes) returns (ips: Option<seq<Bytes>>)
    ensures ips == Response(data)
  {
    hide U16, Record, SkipQuestionName;
    if |data| < 12 {
      return None;
    }
    var answerCount := U16At(data, 6);
    if answerCount == 0 {
      return Some([]);
    }
    var offset: nat := SkipQuestion(data, 12);
    offset := offset + 4;
    ghost var start := offset;
    var found: seq<Bytes> := [];
    var i: nat := 0;
    while i < answerCount && offset < |data|
      invariant i <= answerCount
      invariant Answers(data, start, answerCount) == found + Answers(data, offset, answerCount - i)
      decreases answerCount - i
    {
      var r := ParseRecord(data, offset);
      if r.None? { break; }
      found := found + r.value.addresses;
      offset := r.value.next;
      i := i + 1;
    }
    assert found + [] == found;
    return Some(found);
  }

  // ---- Against RFC 1035 ----

  datatype Name = Pointer(hi: Byte, lo: Byte) | Plain(labels: seq<Bytes>)

  datatype Answer = Answer(name: Name, rtype: nat, klass: Bytes, ttl: Bytes, rdata: Bytes)

  /** A length byte must read as a label: not the root, not a pointer. */
  predicate Short(labels: seq<Bytes>) { forall i :: 0 <= i < |labels| ==> 0 < |labels[i]| < 192 }

  predicate ValidAnswer(a: Answer)
  {
    && (if a.name.Pointer? then a.name.hi >= 192 else Short(a.name.labels))
    && a.rtype < 65536 && |a.klass| == 2 && |a.ttl| == 4 && |a.rdata| < 65536
  }

  function AnswerName(n: Name): Bytes { if n.Pointer? then [n.hi, n.lo] else NameBytes(n.labels) }

  /** What follows an answer's name. */
  function AnswerFields(a: Answer): Bytes { Be16(a.rtype) + a.klass + a.ttl + Be16(|a.rdata|) + a.rdata }

  function AnswersBytes(answers: seq<Answer>): Bytes
  {
    if answers == [] then []
    else AnswerName(answers[0].name) + AnswerFields(answers[0]) + AnswersBytes(answers[1..])
  }

  function Addresses(answers: seq<Answer>): seq<Bytes>
  {
    if answers == [] then [] else Address(answers[0].rtype, answers[0].rdata) + Addresses(answers[1..])
  }

  lemma LabelAt(data: Bytes, o: nat, run: Bytes, more: Bytes)
    requires o <= |data| && data[o..] == [Low(|run|)] + run + more && |run| < 192
    ensures o + 1 + |run| <= |data| && data[o] == |run| && data[o + 1 + |run|..] == more
  {
    assert data[o] == data[o..][0];
    assert data[o + 1 + |run|..] == data[o..][1 + |run|..];
  }

  /** Both skips of a name end right behind it, whatever follows. */
  lemma {:induction false} SkipsName(data: Bytes, o: nat, labels: seq<Bytes>, rest: Bytes)
    requires Short(labels) && o <= |data| && data[o..] == NameBytes(labels) + rest
    ensures o + |NameBytes(labels)| <= |data| && data[o + |NameBytes(labels)|..] == rest
    ensures SkipQuestionName(data, o) == SkipLabels(data, o) == o + |NameBytes(labels)|
    ensures data[o] < 192
    decreases |labels|
  {
    hide Low;
    if labels == [] {
      assert data[o] == data[o..][0] == 0;
      assert data[o + 1..] == data[o..][1..];
    } else {
      var run, more := labels[0], NameBytes(labels[1..]) + rest;
      assert data[o..] == [Low(|run|)] + run + more;
      LabelAt(data, o, run, more);
      SkipsName(data, o + 1 + |run|, labels[1..], rest);
    }
  }

  /** A question name that ends in a pointer is skipped exactly too. */
  lemma {:induction false} SkipsQuestionPointer(data: Bytes, o: nat, labels: seq<Bytes>, hi: Byte, rest: Bytes)
    requires Short(labels) && hi >= 192 && o <= |data| && data[o..] == LabelBytes(labels) + ([hi] + rest)
    ensures SkipQuestionName(data, o) == o + |LabelBytes(labels)| + 2
    decreases |labels|
  {
    hide Low;
    if labels == [] {
      assert data[o] == data[o..][0] == hi;
    } else {
      var run, more := labels[0], LabelBytes(labels[1..]) + ([hi] + rest);
      assert data[o..] == [Low(|run|)] + run + more;
      LabelAt(data, o, run, more);
      SkipsQuestionPointer(data, o + 1 + |run|, labels[1..], hi, rest);
    }
  }

  /** The question the builder writes is skipped exactly: the parser lands on the end of the query. */
  lemma QuestionSkipped(header: Bytes, labels: seq<Bytes>, qtype: nat, rest: Bytes)
    requires |header| == 12 && Short(labels)
    ensures var q := header + Question(labels, qtype); SkipQuestionName(q + rest, 12) + 4 == |q|
  {
    hide Be16;
    var data := header + Question(labels, qtype) + rest;
    assert data[12..] == NameBytes(labels) + (Be16(qtype) + [0, 1] + rest);
    SkipsName(data, 12, labels, Be16(qtype) + [0, 1] + rest);
  }

  /** For every host name with short labels the skip lands on the end of BuildDnsQuery's output. */
  lemma QueryRoundTrip(hostname: Bytes, qtype: nat, rest: Bytes)
    requires Short(Labels(hostname, []))
    ensures var q := QueryHeader() + Question(Labels(hostname, []), qtype);
      SkipQuestionName(q + rest, 12) + 4 == |q|
  {
    QuestionSkipped(QueryHeader(), Labels(hostname, []), qtype, rest);
  }

  lemma NumberAt(data: Bytes, p: nat, n: nat, rest: Bytes)
    requires n < 65536 && p <= |data| && data[p..] == Be16(n) + rest
    ensures p + 2 <= |data| && U16At(data, p) == n
  {
    hide Be16, U16;
    Be16Value(n);
    assert data[p] == data[p..][0] && data[p + 1] == data[p..][1];
  }

  lemma FieldsAt(data: Bytes, p: nat, a: Answer, rest: Bytes)
    requires ValidAnswer(a) && p <= |data| && data[p..] == AnswerFields(a) + rest
    ensures p + 10 + |a.rdata| <= |data|
    ensures U16At(data, p) == a.rtype && U16At(data, p + 8) == |a.rdata|
    ensures data[p + 10..p + 10 + |a.rdata|] == a.rdata && data[p + 10 + |a.rdata|..] == rest
  {
    hide Be16, U16;
    NumberAt(data, p, a.rtype, data[p + 2..]);
    NumberAt(data, p + 8, |a.rdata|, data[p + 10..]);
    var d := data[p..];
    assert d[10..10 + |a.rdata|] == a.rdata && d[10 + |a.rdata|..] == rest;
    assert d == data[p..|data|];
    SliceOfSlice(data, p, |data|, 10, 10 + |a.rdata|);
    SliceOfSlice(data, p, |data|, 10 + |a.rdata|, |d|);
  }

  lemma RecordAt(data: Bytes, o: nat, a: Answer, rest: Bytes)
    requires ValidAnswer(a) && o < |data| && data[o..] == AnswerName(a.name) + AnswerFields(a) + rest
    ensures Record(data, o) == Some(Parsed(Address(a.rtype, a.rdata), o + |AnswerName(a.name)| + 10 + |a.rdata|))
    ensures o + |AnswerName(a.name)| + 10 + |a.rdata| <= |data|
    ensures data[o + |AnswerName(a.name)| + 10 + |a.rdata|..] == rest
  {
    hide U16, AnswerFields, AnswerName, SkipName, ValidAnswer;
    var name := AnswerName(a.name);
    assert data[o..] == name + (AnswerFields(a) + rest);
    SkipsAnswerName(data, o, a, AnswerFields(a) + rest);
    FieldsAt(data, o + |name|, a, rest);
  }

  lemma SkipsAnswerName(data: Bytes, o: nat, a: Answer, rest: Bytes)
    requires ValidAnswer(a) && o < |data| && data[o..] == AnswerName(a.name) + rest
    ensures SkipName(data, o) == o + |AnswerName(a.name)| <= |data|
    ensures data[o + |AnswerName(a.name)|..] == rest
  {
    if a.name.Pointer? {
      assert data[o] == data[o..][0] == a.name.hi;
      assert data[o + 2..] == data[o..][2..];
    } else {
      SkipsName(data, o, a.name.labels, rest);
    }
  }

  /** k answers read back as exactly their addresses, in order, whatever sections follow. */
  lemma {:induction false} AnswersReadBack(data: Bytes, o: nat, answers: seq<Answer>, rest: Bytes)
    requires (forall i :: 0 <= i < |answers| ==> ValidAnswer(answers[i]))
    requires o <= |data| && data[o..] == AnswersBytes(answers) + rest
    ensures Answers(data, o, |answers|) == Addresses(answers)
    decreases |answers|
  {
    hide Record, AnswerName, AnswerFields, Address, ValidAnswer;
    if answers != [] {
      var a, tail := answers[0], AnswersBytes(answers[1..]);
      Assoc(AnswerName(a.name) + AnswerFields(a), tail, rest);
      NameNotEmpty(a.name);
      RecordAt(data, o, a, tail + rest);
      AnswersReadBack(data, o + |AnswerName(a.name)| + 10 + |a.rdata|, answers[1..], rest);
    }
  }

  lemma NameNotEmpty(n: Name)
    ensures AnswerName(n) != []
  {
  }

  lemma CountAt(before: Bytes, n: nat, counts: Bytes, more: Bytes)
    requires |before| == 6 && n < 65536
    ensures U16At(before + Be16(n) + counts + more, 6) == n
  {
    hide Be16, U16;
    Be16Value(n);
    var data := before + Be16(n) + counts + more;
    assert data[6] == Be16(n)[0] && data[7] == Be16(n)[1];
  }

  /**
    The response to a query: the same question, k answers with pointer or uncompressed names, and
    any authority and additional sections, parses to exactly the A and AAAA addresses in order.
   */
  lemma ResponseRoundTrip(id: Bytes, flags: Bytes, counts: Bytes, labels: seq<Bytes>, qtype: nat,
                          answers: seq<Answer>, rest: Bytes)
    requires |id| == 2 && |flags| == 2 && |counts| == 4 && Short(labels) && |answers| < 65536
    requires forall i :: 0 <= i < |answers| ==> ValidAnswer(answers[i])
    ensures var header := id + flags + [0, 1] + Be16(|answers|) + counts;
      Response(header + Question(labels, qtype) + (AnswersBytes(answers) + rest)) == Some(Addresses(answers))
  {
    hide Be16, U16, Response;
    var header := id + flags + [0, 1] + Be16(|answers|) + counts;
    CountAt(id + flags + [0, 1], |answers|, counts, []);
    assert header == id + flags + [0, 1] + Be16(|answers|) + counts + [];
    ResponseFrom(header, labels, qtype, answers, rest);
  }

  lemma ResponseFrom(header: Bytes, labels: seq<Bytes>, qtype: nat, answers: seq<Answer>, rest: Bytes)
    requires |header| == 12 && U16At(header, 6) == |answers| && Short(labels)
    requires forall i :: 0 <= i < |answers| ==> ValidAnswer(answers[i])
    ensures Response(header + Question(labels, qtype) + (AnswersBytes(answers) + rest)) == Some(Addresses(answers))
  {
    hide U16, Question, SkipQuestionName, AnswersBytes, ValidAnswer, Record, Address;
    var q := header + Question(labels, qtype);
    var data := q + (AnswersBytes(answers) + rest);
    assert data[6] == header[6] && data[7] == header[7];
    QuestionSkipped(header, labels, qtype, AnswersBytes(answers) + rest);
    DropPrefix(q, AnswersBytes(answers) + rest);
    AnswersReadBack(data, |q|, answers, rest);
  }

  // ---- Names that end in a pointer after some labels (RFC 1035 section 4.1.4) ----

  /** Labels without the root label. */
  function LabelBytes(labels: seq<Bytes>): Bytes
  {
    if labels == [] then [] else [Low(|labels[0]|)] + labels[0] + LabelBytes(labels[1..])
  }

  /** After its labels the answer loop takes the pointer byte for a label length of 192 or more. */
  lemma {:induction false} SkipsIntoPointer(data: Bytes, o: nat, labels: seq<Bytes>, hi: Byte, rest: Bytes)
    requires Short(labels) && hi >= 192 && o <= |data| && data[o..] == LabelBytes(labels) + ([hi] + rest)
    ensures SkipLabels(data, o) == SkipLabels(data, o + |LabelBytes(labels)| + (hi as int) + 1)
    decreases |labels|
  {
    hide Low;
    if labels == [] {
      assert data[o] == data[o..][0] == hi;
    } else {
      var run, more := labels[0], LabelBytes(labels[1..]) + ([hi] + rest);
      assert data[o..] == [Low(|run|)] + run + more;
      LabelAt(data, o, run, more);
      SkipsIntoPointer(data, o + 1 + |run|, labels[1..], hi, rest);
    }
  }

  /**
    So a name of labels followed by a pointer is never skipped correctly: the offset lands at least
    191 bytes past its end. When the response is over before that, this answer and all later ones
    are dropped.
   */
  lemma MixedNameMisread(data: Bytes, o: nat, labels: seq<Bytes>, hi: Byte, lo: Byte, rest: Bytes)
    requires Short(labels) && labels != [] && hi >= 192
    requires o <= |data| && data[o..] == LabelBytes(labels) + ([hi] + ([lo] + rest))
    ensures o < |data|
    ensures var end := o + |LabelBytes(labels)| + 2;
      && SkipName(data, o) >= end + (hi as int) - 1 > end
      && (|rest| < (hi as int) - 1 ==> Record(data, o).None? && forall k: nat :: Answers(data, o, k) == [])
  {
    hide SkipLabels;
    SkipsIntoPointer(data, o, labels, hi, [lo] + rest);
    FirstByte(data, o, labels, [hi] + ([lo] + rest));
    assert |data| == o + |LabelBytes(labels)| + 2 + |rest|;
  }

  lemma FirstByte(data: Bytes, o: nat, labels: seq<Bytes>, rest: Bytes)
    requires Short(labels) && labels != [] && o <= |data| && data[o..] == LabelBytes(labels) + rest
    ensures o < |data| && data[o] < 192
  {
    assert data[o] == data[o..][0];
  }
}
