/** Query packets with known answers (lib/mdnspp/include/mdnspp/detail/dns_query.h):
    the single-packet builder and the splitter that spreads a long known-answer
    list over several packets with the TC bit (section 7.1 of RFC 6762). */
module Query {
  import opened Bytes
  import opened Names
  import opened NameRoundTrip
  import opened Records
  import opened Frame

  const TC_FLAG: u16 := 0x0200

  function Question(name: Name, qtype: u16, qu: bool): seq<byte> {
    Encoded(name) + U16(qtype) + U16(if qu then 0x8001 else 0x0001)
  }

  /** A query packet with the given TC bit, answer count and answer bytes. */
  function QueryPacket(question: seq<byte>, tc: bool, ancount: u16, answers: seq<byte>): (p: seq<byte>)
    ensures |p| == 12 + |question| + |answers|
  {
    PacketHeader(0, if tc then TC_FLAG else 0, 1, ancount, 0, 0) + question + answers
  }

  /** Known answers are written in class IN without the cache-flush bit. */
  function KnownAnswer(r: Record): Record {
    r.(hdr := r.hdr.(rclass := CLASS_IN, flush := false))
  }

  function KnownAnswers(rs: seq<Record>): (k: seq<Record>)
    ensures |k| == |rs|
  {
    seq(|rs|, i requires 0 <= i < |rs| => KnownAnswer(rs[i]))
  }

  /** A known answer is the record itself, without the flush bit and in class IN. */
  lemma KnownAnswerIsExact(r: Record)
    ensures KnownAnswer(r).hdr == Header(r.hdr.name, r.hdr.ttl, 1, false)
    ensures KnownAnswer(r).(hdr := r.hdr) == r
  {
  }

  method BuildDnsQuery(name: Name, qtype: u16, qu: bool) returns (packet: seq<byte>)
    ensures packet == if Encodable(name) then QueryPacket(Question(name, qtype, qu), false, 0, []) else []
  {
    hide Encodable, PacketHeader;
    packet := PacketHeader(0, 0, 1, 0, 0, 0);
    var encoded := EncodeDnsName(name);
    if encoded == [] {
      return [];
    }
    packet := packet + encoded;
    packet := packet + U16(qtype);
    packet := packet + U16(if qu then 0x8001 else 0x0001);
  }

  function SetBit1(b: byte): byte {
    if b / 2 % 2 == 0 then b + 2 else b
  }

  function WithAncount(p: seq<byte>, ancount: u16): (r: seq<byte>)
    requires |p| >= 12
    ensures |r| == |p|
  {
    var hi: seq<byte> := p[6 := Hi(ancount)];
    hi[7 := Lo(ancount)]
  }

  function WithTc(p: seq<byte>): (r: seq<byte>)
    requires |p| >= 12
    ensures |r| == |p|
  {
    p[2 := SetBit1(p[2])]
  }

  /** Overwriting header octets 2, 6 and 7 sets the TC bit and the answer count and nothing else. */
  lemma PatchHeader(question: seq<byte>, ancount: u16, answers: seq<byte>)
    ensures var p := QueryPacket(question, false, 0, answers);
            && WithAncount(p, ancount) == QueryPacket(question, false, ancount, answers)
            && WithAncount(WithTc(p), ancount) == QueryPacket(question, true, ancount, answers)
  {
    var h := PacketHeader(0, 0, 1, 0, 0, 0);
    assert WithAncount(h, ancount) == PacketHeader(0, 0, 1, ancount, 0, 0);
    assert WithAncount(WithTc(h), ancount) == PacketHeader(0, TC_FLAG, 1, ancount, 0, 0);
    var p := QueryPacket(question, false, 0, answers);
    assert WithAncount(p, ancount) == WithAncount(h, ancount) + question + answers;
    assert WithAncount(WithTc(p), ancount) == WithAncount(WithTc(h), ancount) + question + answers;
  }

  /** How many records leave bytes in a packet. */
  function Written(rs: seq<Record>): nat {
    if rs == [] then 0
    else Written(rs[..|rs| - 1]) + (if RecordWire(rs[|rs| - 1]) != [] then 1 else 0)
  }

  lemma WrittenNothing()
    ensures Written([]) == 0
  {
  }

  lemma WrittenSnoc(rs: seq<Record>, r: Record)
    ensures Written(rs + [r]) == Written(rs) + (if RecordWire(r) != [] then 1 else 0)
  {
    hide RecordWire;
    assert (rs + [r])[..|rs|] == rs;
  }

  lemma {:induction false} WholeIsWritten(rs: seq<Record>)
    requires forall i :: 0 <= i < |rs| ==> Whole(rs[i])
    ensures Written(rs) == |rs|
  {
    if rs != [] {
      WholeIsWritten(rs[..|rs| - 1]);
    }
  }

  /** build_dns_query with known answers, all in one packet: only answers that
      were serialized are counted. */
  method BuildDnsQueryWithAnswers(name: Name, qtype: u16, known: seq<Record>, qu: bool) returns (packet: seq<byte>)
    requires Encodable(name)
    ensures packet == QueryPacket(Question(name, qtype, qu), false, Written(KnownAnswers(known)) % 0x1_0000,
                                  WireAll(KnownAnswers(known)))
  {
    hide RecordWire, Encodable, Question, QueryPacket, WireAll, WithAncount, Written;
    ghost var q, kas := Question(name, qtype, qu), KnownAnswers(known);
    packet := BuildDnsQuery(name, qtype, qu);
    var ancount: u16 := 0;
    WireNothing();
    assert kas[..0] == [];
    WrittenNothing();
    for i := 0 to |known|
      invariant packet == QueryPacket(q, false, 0, WireAll(kas[..i]))
      invariant ancount == Written(kas[..i]) % 0x1_0000
    {
      var before := |packet|;
      assert kas[..i + 1] == kas[..i] + [kas[i]];
      WireSnocRecord(kas[..i], kas[i]);
      AppendAnswer(q, WireAll(kas[..i]), RecordWire(kas[i]));
      WrittenSnoc(kas[..i], kas[i]);
      packet := packet + RecordWire(KnownAnswer(known[i]));
      if |packet| > before {
        ancount := (ancount + 1) % 0x1_0000;
      }
    }
    assert kas[..|known|] == kas;
    PatchHeader(q, ancount, WireAll(kas));
    packet := WithAncount(packet, ancount);
  }

  // ---------------------------------------------------------------- splitting

  /** The answers grouped as the splitter's loop groups them: `cur` is the packet
      under construction. Its answer counter has 16 bits. */
  function Greedy(cur: seq<Record>, rest: seq<Record>, base: nat, max: nat): (groups: seq<seq<Record>>)
    ensures |groups| >= 1
    decreases rest
  {
    if rest == [] then [cur]
    else if Count16(|cur|) > 0 && base + |WireAll(cur)| + |RecordWire(rest[0])| > max then
      [cur] + Greedy([rest[0]], rest[1..], base, max)
    else Greedy(cur + [rest[0]], rest[1..], base, max)
  }

  /** A 16-bit counter. */
  function Count16(n: nat): u16 { n % 0x1_0000 }

  function Packets(question: seq<byte>, groups: seq<seq<Record>>): (packets: seq<seq<byte>>)
    ensures |packets| == |groups|
  {
    seq(|groups|, i requires 0 <= i < |groups| =>
      GroupPacket(question, i < |groups| - 1, groups[i]))
  }

  /** The packet of one group; its answer count has 16 bits. */
  function GroupPacket(question: seq<byte>, tc: bool, group: seq<Record>): seq<byte> {
    QueryPacket(question, tc, Count16(|group|), WireAll(group))
  }

  /** The serialisation of all answers, and where each one stands in it. */
  method SerializeAnswers(known: seq<Record>) returns (all: seq<byte>, sizes: seq<(nat, nat)>)
    ensures |sizes| == |known|
    ensures forall i :: 0 <= i < |known| ==>
              sizes[i].0 <= sizes[i].1 <= |all| && all[sizes[i].0..sizes[i].1] == RecordWire(KnownAnswer(known[i]))
  {
    hide RecordWire;
    all, sizes := [], [];
    for n := 0 to |known|
      invariant |sizes| == n
      invariant forall i :: 0 <= i < n ==>
                  sizes[i].0 <= sizes[i].1 <= |all| && all[sizes[i].0..sizes[i].1] == RecordWire(KnownAnswer(known[i]))
    {
      var before := |all|;
      var w := RecordWire(KnownAnswer(known[n]));
      forall i | 0 <= i < n
        ensures (all + w)[sizes[i].0..sizes[i].1] == all[sizes[i].0..sizes[i].1]
      {
      }
      all := all + w;
      assert all[before..|all|] == w;
      sizes := sizes + [(before, |all|)];
    }
  }

  method BuildDnsQueryTc(name: Name, qtype: u16, known: seq<Record>, max: nat, qu: bool)
    returns (result: seq<seq<byte>>)
    requires Encodable(name)
    ensures var q := Question(name, qtype, qu);
            result == Packets(q, Greedy([], KnownAnswers(known), 12 + |q|, max))
  {
    hide RecordWire, Encodable, Question, QueryPacket, WireAll, Greedy, Packets, WithAncount, WithTc, Splitting;
    hide Count16;
    ghost var q, kas := Question(name, qtype, qu), KnownAnswers(known);
    var basePkt := BuildDnsQuery(name, qtype, qu);
    SplitStarts(q, kas, max);
    if known == [] {
      return [basePkt];
    }
    var all, sizes := SerializeAnswers(known);
    var current := basePkt;
    var count: u16 := 0;
    result := [];
    ghost var done: seq<seq<Record>>, cur: seq<Record> := [], [];
    for i := 0 to |known|
      invariant Splitting(q, kas, i, max, current, count, result, done, cur)
    {
      var (ansStart, ansEnd) := sizes[i];
      var ansSize := ansEnd - ansStart;
      SplitSize(q, kas, i, max, current, count, result, done, cur);
      if count > 0 && |current| + ansSize > max {
        SplitFlush(q, kas, i, max, current, count, result, done, cur);
        current := WithAncount(WithTc(current), count);
        result := result + [current];
        done := done + [cur];
        current := BuildDnsQuery(name, qtype, qu);
        count := 0;
        cur := [];
      }
      SplitAppend(q, kas, i, max, current, count, result, done, cur);
      current := current + all[ansStart..ansEnd];
      count := Count16(count + 1);
      cur := cur + [kas[i]];
    }
    SplitEnds(q, kas, max, current, count, result, done, cur);
    current := WithAncount(current, count);
    result := result + [current];
  }

  /** A state of the splitting loop before answer `i`: `done` has been sent, `cur` is in
      the packet under construction, and greedy grouping of the rest completes the job. */
  ghost predicate Splitting(q: seq<byte>, kas: seq<Record>, i: nat, max: nat, current: seq<byte>, count: u16,
                            result: seq<seq<byte>>, done: seq<seq<Record>>, cur: seq<Record>)
  {
    && i <= |kas| && Count16(|cur|) == count
    && current == QueryPacket(q, false, 0, WireAll(cur)) && result == FullPackets(q, done)
    && done + Greedy(cur, kas[i..], 12 + |q|, max) == Greedy([], kas, 12 + |q|, max)
  }

  lemma SplitStarts(q: seq<byte>, kas: seq<Record>, max: nat)
    ensures Splitting(q, kas, 0, max, QueryPacket(q, false, 0, []), 0, [], [], [])
    ensures kas == [] ==> Packets(q, Greedy([], kas, 12 + |q|, max)) == [QueryPacket(q, false, 0, [])]
  {
    hide QueryPacket;
    WireNothing();
    assert kas[0..] == kas;
    assert [] + Greedy([], kas, 12 + |q|, max) == Greedy([], kas, 12 + |q|, max);
    if kas == [] {
      LastPacket(q, [], []);
    }
  }

  /** The packet under construction is as long as the grouping assumes. */
  lemma SplitSize(q: seq<byte>, kas: seq<Record>, i: nat, max: nat, current: seq<byte>, count: u16,
                  result: seq<seq<byte>>, done: seq<seq<Record>>, cur: seq<Record>)
    requires Splitting(q, kas, i, max, current, count, result, done, cur)
    ensures |current| == 12 + |q| + |WireAll(cur)|
  {
    hide WireAll, Greedy;
  }

  /** A full packet is sent with TC, and an empty one takes its place. */
  lemma SplitFlush(q: seq<byte>, kas: seq<Record>, i: nat, max: nat, current: seq<byte>, count: u16,
                   result: seq<seq<byte>>, done: seq<seq<Record>>, cur: seq<Record>)
    requires Splitting(q, kas, i, max, current, count, result, done, cur) && i < |kas|
    requires count > 0 && |current| + |RecordWire(kas[i])| > max
    ensures |current| >= 12
    ensures Splitting(q, kas, i, max, QueryPacket(q, false, 0, []), 0,
                      result + [WithAncount(WithTc(current), count)], done + [cur], [])
  {
    hide RecordWire, WireAll, WithAncount, WithTc, Greedy, QueryPacket;
    SplitSize(q, kas, i, max, current, count, result, done, cur);
    var base, rest := 12 + |q|, kas[i..];
    PatchHeader(q, count, WireAll(cur));
    WireNothing();
    GreedyFlush(cur, rest, base, max);
    Assoc(done, [cur], Greedy([], rest, base, max));
  }

  lemma GreedyFlush(cur: seq<Record>, rest: seq<Record>, base: nat, max: nat)
    requires rest != [] && Count16(|cur|) > 0 && base + |WireAll(cur)| + |RecordWire(rest[0])| > max
    ensures Greedy(cur, rest, base, max) == [cur] + Greedy([], rest, base, max)
  {
    hide RecordWire, WireAll;
    assert [] + [rest[0]] == [rest[0]];
  }

  /** An answer that fits, or the first one of a packet, is appended. */
  lemma SplitAppend(q: seq<byte>, kas: seq<Record>, i: nat, max: nat, current: seq<byte>, count: u16,
                    result: seq<seq<byte>>, done: seq<seq<Record>>, cur: seq<Record>)
    requires Splitting(q, kas, i, max, current, count, result, done, cur) && i < |kas|
    requires count == 0 || |current| + |RecordWire(kas[i])| <= max
    ensures Splitting(q, kas, i + 1, max, current + RecordWire(kas[i]), Count16(count + 1),
                      result, done, cur + [kas[i]])
  {
    hide RecordWire, WireAll, QueryPacket, FullPackets, Greedy, Count16;
    SplitSize(q, kas, i, max, current, count, result, done, cur);
    var cur' := cur + [kas[i]];
    assert Count16(|cur'|) == Count16(count + 1) by { CountUp(|cur|, count); }
    assert current + RecordWire(kas[i]) == QueryPacket(q, false, 0, WireAll(cur')) by {
      WireSnocRecord(cur, kas[i]);
      AppendAnswer(q, WireAll(cur), RecordWire(kas[i]));
    }
    assert Greedy(cur, kas[i..], 12 + |q|, max) == Greedy(cur', kas[i + 1..], 12 + |q|, max) by {
      assert kas[i..][0] == kas[i] && kas[i..][1..] == kas[i + 1..];
      GreedyAppend(cur, kas[i..], 12 + |q|, max);
    }
  }

  lemma CountUp(n: nat, count: u16)
    requires Count16(n) == count
    ensures Count16(n + 1) == Count16(count + 1)
  {
  }

  lemma GreedyAppend(cur: seq<Record>, rest: seq<Record>, base: nat, max: nat)
    requires rest != [] && (Count16(|cur|) == 0 || base + |WireAll(cur)| + |RecordWire(rest[0])| <= max)
    ensures Greedy(cur, rest, base, max) == Greedy(cur + [rest[0]], rest[1..], base, max)
  {
    hide RecordWire, WireAll;
  }

  lemma SplitEnds(q: seq<byte>, kas: seq<Record>, max: nat, current: seq<byte>, count: u16,
                  result: seq<seq<byte>>, done: seq<seq<Record>>, cur: seq<Record>)
    requires Splitting(q, kas, |kas|, max, current, count, result, done, cur)
    ensures |current| >= 12
    ensures Packets(q, Greedy([], kas, 12 + |q|, max)) == result + [WithAncount(current, count)]
  {
    hide RecordWire, WireAll, WithAncount, QueryPacket, Packets;
    SplitSize(q, kas, |kas|, max, current, count, result, done, cur);
    assert kas[|kas|..] == [];
    GreedyEnd(cur, 12 + |q|, max);
    PatchHeader(q, count, WireAll(cur));
    LastPacket(q, done, cur);
  }

  lemma AppendAnswer(q: seq<byte>, answers: seq<byte>, more: seq<byte>)
    ensures QueryPacket(q, false, 0, answers) + more == QueryPacket(q, false, 0, answers + more)
  {
    hide PacketHeader;
    Assoc(PacketHeader(0, 0, 1, 0, 0, 0) + q, answers, more);
  }

  lemma GreedyEnd(cur: seq<Record>, base: nat, max: nat)
    ensures Greedy(cur, [], base, max) == [cur]
  {
  }

  lemma LastPacket(q: seq<byte>, done: seq<seq<Record>>, cur: seq<Record>)
    ensures Packets(q, done + [cur])
         == FullPackets(q, done) + [GroupPacket(q, false, cur)]
  {
    hide GroupPacket;
    var groups, n := done + [cur], |done|;
    assert groups[n] == cur && forall i :: 0 <= i < n ==> groups[i] == done[i];
  }

  ghost function FullPackets(q: seq<byte>, groups: seq<seq<Record>>): seq<seq<byte>> {
    seq(|groups|, i requires 0 <= i < |groups| => GroupPacket(q, true, groups[i]))
  }

  lemma WireSnocRecord(rs: seq<Record>, r: Record)
    ensures WireAll(rs + [r]) == WireAll(rs) + RecordWire(r)
  {
    hide RecordWire;
    WireAllConcat(rs, [r]);
    assert WireAll([r]) == RecordWire(r) + WireAll([]);
  }

  // ---------------------------------------------------------------- at the receiver

  /** Where everything stands in a query packet. */
  lemma QueryLayout(q: seq<byte>, tc: bool, ancount: u16, answers: seq<byte>)
    ensures var p := QueryPacket(q, tc, ancount, answers);
            && At(p, 12, q) && At(p, 12 + |q|, answers)
            && ReadU16(p, 0) == 0 && ReadU16(p, 2) == (if tc then 0x0200 else 0) && ReadU16(p, 4) == 1
            && ReadU16(p, 6) == ancount && RrTotal(p) == ancount
  {
    var flags := if tc then TC_FLAG else 0;
    var h := PacketHeader(0, flags, 1, ancount, 0, 0);
    var p := QueryPacket(q, tc, ancount, answers);
    hide PacketHeader;
    AtMiddle([], h, q + answers);
    assert [] + h + (q + answers) == p;
    PacketHeaderAt(p, 0, flags, 1, ancount, 0, 0);
    AtMiddle(h, q, answers);
    AtMiddle(h + q, answers, []);
    assert h + q + answers + [] == p;
  }

  lemma TypeAndClassAt(p: seq<byte>, off: nat, w: seq<byte>, qtype: u16, qclass: u16)
    requires At(p, off, w + U16(qtype) + U16(qclass))
    ensures At(p, off, w) && off + |w| + 4 <= |p|
    ensures ReadU16(p, off + |w|) == qtype && ReadU16(p, off + |w| + 2) == qclass
  {
    AtConcat(p, off, w + U16(qtype), U16(qclass));
    AtConcat(p, off, w, U16(qtype));
    ReadU16At(p, off + |w|, qtype);
    ReadU16At(p, off + |w| + 2, qclass);
  }

  /** The question is skipped exactly, and its fields can be read. */
  lemma QuestionAt(p: seq<byte>, off: nat, name: Name, qtype: u16, qu: bool)
    requires Encodable(name) && Clean(name) && At(p, off, Question(name, qtype, qu))
    ensures var next := off + |Encoded(name)|;
            && Skip(p, off) == Skipped(true, next) && Decoded(p, off) == Some(Canonical(name))
            && next + 4 == off + |Question(name, qtype, qu)| <= |p|
            && ReadU16(p, next) == qtype && ReadU16(p, next + 2) == (if qu then 0x8001 else 0x0001)
  {
    hide Encodable, Encoded, Clean, Skip, Decoded, At, U16;
    TypeAndClassAt(p, off, Encoded(name), qtype, if qu then 0x8001 else 0x0001);
    NameRoundTrip.NameRoundTrip(name, p, off);
  }

  /** One query packet, read by the frame walker: exactly its answers arrive. */
  lemma QueryDelivers(name: Name, qtype: u16, qu: bool, tc: bool, rs: seq<Record>)
    requires Encodable(name) && Clean(name) && |rs| < 0x1_0000
    requires forall i :: 0 <= i < |rs| ==> Whole(rs[i])
    ensures var q := Question(name, qtype, qu);
            var p := QueryPacket(q, tc, |rs|, WireAll(rs));
            && Walk(p) == ArrivingAll(rs) && WalkEnd(p) == |p|
            && At(p, 12, q) && ReadU16(p, 0) == 0 && ReadU16(p, 2) == (if tc then 0x0200 else 0)
            && ReadU16(p, 4) == 1 && ReadU16(p, 6) == RrTotal(p) == |rs|
  {
    hide Encodable, Encoded, Clean, Skip, Decoded, Whole, WireAll, Arriving, WalkFrom, QueryPacket, Question;
    var q := Question(name, qtype, qu);
    var p := QueryPacket(q, tc, |rs|, WireAll(rs));
    QueryLayout(q, tc, |rs|, WireAll(rs));
    QuestionAt(p, 12, name, qtype, qu);
    assert SkipQuestions(p, 12, 1) == SkipQuestions(p, 12 + |q|, 0);
    WalkWritten(p, 12 + |q|, rs, |rs|);
  }
}
