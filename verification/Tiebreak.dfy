/** Simultaneous probes (section 8.2 of RFC 6762): the probe packet, what a
    probing server reads from another one's probe, and who gives way. */
module Tiebreak {
  import opened Bytes
  import opened Names
  import opened NameRoundTrip
  import opened Records
  import opened Frame
  import opened Query

  // ---------------------------------------------------------------- byte order

  /** compare_authority_records, from index `i` on. */
  function CompareFrom(a: seq<byte>, b: seq<byte>, i: nat): int
    requires i <= |a| && i <= |b|
    decreases |a| - i
  {
    if i < |a| && i < |b| then
      if a[i] != b[i] then a[i] as int - b[i] as int else CompareFrom(a, b, i + 1)
    else if |a| < |b| then -1
    else if |a| > |b| then 1
    else 0
  }

  function Compare(a: seq<byte>, b: seq<byte>): int { CompareFrom(a, b, 0) }

  method CompareAuthorityRecords(ours: seq<byte>, theirs: seq<byte>) returns (r: int)
    ensures r == Compare(ours, theirs)
  {
    var minSize := if |ours| < |theirs| then |ours| else |theirs|;
    for i := 0 to minSize
      invariant Compare(ours, theirs) == CompareFrom(ours, theirs, i)
    {
      if ours[i] != theirs[i] {
        return ours[i] as int - theirs[i] as int;
      }
    }
    if |ours| < |theirs| {
      return -1;
    }
    if |ours| > |theirs| {
      return 1;
    }
    return 0;
  }

  /** `a` comes before `b` in dictionary order; `k` is the length of the common start. */
  ghost predicate Precedes(a: seq<byte>, b: seq<byte>, k: int) {
    0 <= k <= |a| && k < |b| && a[..k] == b[..k] && (k < |a| ==> a[k] < b[k])
  }

  lemma {:induction false} CompareDecides(a: seq<byte>, b: seq<byte>, i: nat) returns (k: nat)
    requires i <= |a| && i <= |b| && a[..i] == b[..i]
    ensures CompareFrom(a, b, i) < 0 ==> Precedes(a, b, k)
    ensures CompareFrom(a, b, i) > 0 ==> Precedes(b, a, k)
    ensures CompareFrom(a, b, i) == 0 ==> a == b
    decreases |a| - i
  {
    k := i;
    if i < |a| && i < |b| && a[i] == b[i] {
      assert a[..i + 1] == a[..i] + [a[i]] && b[..i + 1] == b[..i] + [b[i]];
      k := CompareDecides(a, b, i + 1);
    } else if i == |a| == |b| {
      assert a[..i] == a && b[..i] == b;
    }
  }

  lemma PrecedesIsStrict(a: seq<byte>, b: seq<byte>, j: nat, k: nat)
    requires Precedes(a, b, j)
    ensures !Precedes(b, a, k) && a != b
  {
    assert j < |a| && j < |b| && j < k <= |a| && k <= |b| ==> a[..k][j] == a[j] && b[..k][j] == b[j];
    assert k < |a| && k < |b| && k < j <= |a| && j <= |b| ==> a[..j][k] == a[k] && b[..j][k] == b[k];
  }

  lemma PrecedesIsTransitive(a: seq<byte>, b: seq<byte>, c: seq<byte>, j: nat, k: nat)
    requires Precedes(a, b, j) && Precedes(b, c, k)
    ensures Precedes(a, c, if j < k then j else k)
  {
    var m := if j < k then j else k;
    assert a[..m] == a[..j][..m] && b[..m] == b[..j][..m] == b[..k][..m] && c[..m] == c[..k][..m];
    if j < k {
      assert b[j] == b[..k][j] && c[j] == c[..k][j];
    } else if k < j {
      assert a[k] == a[..j][k] && b[k] == b[..j][k];
    }
  }

  /** The comparison is a total order on byte strings. */
  lemma CompareIsTotalOrder(a: seq<byte>, b: seq<byte>, c: seq<byte>)
    ensures Compare(a, b) == 0 <==> a == b
    ensures Compare(a, b) < 0 <==> Compare(b, a) > 0
    ensures Compare(a, b) < 0 && Compare(b, c) < 0 ==> Compare(a, c) < 0
  {
    var ab := CompareDecides(a, b, 0);
    var ba := CompareDecides(b, a, 0);
    var bc := CompareDecides(b, c, 0);
    var ac := CompareDecides(a, c, 0);
    var aa := CompareDecides(a, a, 0);
    hide Precedes, CompareFrom;
    if Compare(a, b) < 0 {
      PrecedesIsStrict(a, b, ab, ba);
      if Compare(b, c) < 0 {
        PrecedesIsTransitive(a, b, c, ab, bc);
        PrecedesIsStrict(a, c, if ab < bc then ab else bc, ac);
      }
    }
    if Compare(a, b) > 0 {
      PrecedesIsStrict(b, a, ab, ba);
    }
    if a == b {
      if Compare(a, a) < 0 || Compare(a, a) > 0 {
        PrecedesIsStrict(a, a, aa, aa);
      }
    }
  }

  // ---------------------------------------------------------------- the probe

  function OurRdata(info: ServiceInfo): seq<byte> {
    SrvRdata(info.priority, info.weight, info.port, info.hostname)
  }

  /** build_probe_query with the server's probe id written into the header. */
  function Probe(info: ServiceInfo, id: u16, ttl: u32): seq<byte> {
    PacketHeader(id, 0, 1, 0, 1, 0) + Question(info.serviceName, TYPE_ANY, true)
    + RrWire(Encoded(info.serviceName), TYPE_SRV, false, ttl, OurRdata(info))
  }

  method BuildProbeQuery(info: ServiceInfo, id: u16, ttl: u32) returns (packet: seq<byte>)
    requires Encodable(info.serviceName) && Encodable(info.hostname)
    ensures packet == Probe(info, id, ttl)
  {
    hide Encodable, RrWire, PacketHeader;
    var service := EncodeDnsName(info.serviceName);
    var host := EncodeDnsName(info.hostname);
    var rdata: seq<byte> := U16(info.priority);
    rdata := rdata + U16(info.weight);
    rdata := rdata + U16(info.port);
    rdata := rdata + host;
    packet := PacketHeader(0, 0, 1, 0, 1, 0);
    packet := packet + (service + U16(TYPE_ANY) + U16(0x8001));
    packet := packet + RrWire(service, TYPE_SRV, false, ttl, rdata);
    PatchId(id, service + U16(TYPE_ANY) + U16(0x8001), RrWire(service, TYPE_SRV, false, ttl, rdata));
    packet := WithId(packet, id);
  }

  function WithId(p: seq<byte>, id: u16): seq<byte>
    requires |p| >= 12
  {
    var hi: seq<byte> := p[0 := Hi(id)];
    hi[1 := Lo(id)]
  }

  lemma PatchId(id: u16, q: seq<byte>, rr: seq<byte>)
    ensures WithId(PacketHeader(0, 0, 1, 0, 1, 0) + q + rr, id) == PacketHeader(id, 0, 1, 0, 1, 0) + q + rr
  {
    var h := PacketHeader(0, 0, 1, 0, 1, 0);
    assert WithId(h, id) == PacketHeader(id, 0, 1, 0, 1, 0);
    assert WithId(h + q + rr, id) == WithId(h, id) + q + rr;
  }

  // ---------------------------------------------------------------- reading a probe

  function SkipRecords(data: seq<byte>, off: nat, n: nat): Option<nat>
    decreases n
  {
    if n == 0 then Some(off) else
    var v := ViewAt(data, off);
    if v.None? then None else SkipRecords(data, v.value.rdOff + v.value.rdLen, n - 1)
  }

  /** The rdata of the first SRV among the next `n` records. */
  function FirstSrv(data: seq<byte>, off: nat, n: nat): seq<byte>
    decreases n
  {
    if n == 0 then [] else
    var v := ViewAt(data, off);
    if v.None? then []
    else if v.value.rtype == TYPE_SRV then data[v.value.rdOff..v.value.rdOff + v.value.rdLen]
    else FirstSrv(data, v.value.rdOff + v.value.rdLen, n - 1)
  }

  function AuthoritySrv(data: seq<byte>): seq<byte> {
    if |data| < 12 then [] else
    var questions := SkipQuestions(data, 12, ReadU16(data, 4));
    if questions.None? then [] else
    var answers := SkipRecords(data, questions.value, ReadU16(data, 6));
    if answers.None? then [] else FirstSrv(data, answers.value, ReadU16(data, 8))
  }

  method ExtractAuthoritySrvRdata(data: seq<byte>) returns (rdata: seq<byte>)
    ensures rdata == AuthoritySrv(data)
  {
    hide ViewAt, SkipQuestions;
    if |data| < 12 {
      return [];
    }
    var ancount: nat, nscount: nat := ReadU16(data, 6), ReadU16(data, 8);
    if nscount == 0 {
      return [];
    }
    var start := SkipQuestionSection(data, ReadU16(data, 4));
    if start.None? {
      return [];
    }
    var offset: nat := start.value;
    for i := 0 to ancount
      invariant SkipRecords(data, start.value, ancount) == SkipRecords(data, offset, ancount - i)
    {
      var v := ReadRrHeader(data, offset);
      if v.None? {
        return [];
      }
      offset := v.value.rdOff + v.value.rdLen;
    }
    ghost var first := FirstSrv(data, offset, nscount);
    for i := 0 to nscount
      invariant first == FirstSrv(data, offset, nscount - i)
    {
      var v := ReadRrHeader(data, offset);
      if v.None? {
        return [];
      }
      if v.value.rtype == TYPE_SRV {
        return data[v.value.rdOff..v.value.rdOff + v.value.rdLen];
      }
      offset := v.value.rdOff + v.value.rdLen;
    }
    return [];
  }

  datatype Verdict = Ignore | NameConflict | Defer

  predicate Conflicts(info: ServiceInfo, rs: seq<Record>) {
    exists i :: 0 <= i < |rs| && (rs[i].hdr.name == info.serviceName || rs[i].hdr.name == info.hostname)
  }

  /** handle_probing_packet: what a probing server does about a packet. */
  function Judge(info: ServiceInfo, probeId: u16, data: seq<byte>): Verdict {
    if |data| < 12 then Ignore
    else if ReadU16(data, 2) >= 0x8000 then
      if Conflicts(info, Walk(data)) then NameConflict else Ignore
    else if ReadU16(data, 0) == probeId || ReadU16(data, 8) == 0 || !Conflicts(info, Walk(data)) then Ignore
    else if AuthoritySrv(data) == [] then NameConflict
    else if Compare(OurRdata(info), AuthoritySrv(data)) <= 0 then Defer
    else Ignore
  }

  method ResponseConflicts(info: ServiceInfo, data: seq<byte>) returns (conflict: bool)
    ensures conflict <==> Conflicts(info, Walk(data))
  {
    hide Walk;
    conflict := false;
    var records, _ := WalkDnsFrame(data);
    for i := 0 to |records|
      invariant conflict <==>
                exists k :: 0 <= k < i
                            && (records[k].hdr.name == info.serviceName || records[k].hdr.name == info.hostname)
    {
      if records[i].hdr.name == info.serviceName || records[i].hdr.name == info.hostname {
        conflict := true;
      }
    }
  }

  method JudgeProbingPacket(info: ServiceInfo, probeId: u16, data: seq<byte>) returns (v: Verdict)
    ensures v == Judge(info, probeId, data)
  {
    hide Walk, AuthoritySrv, Encodable, Conflicts, Compare;
    if |data| < 12 {
      return Ignore;
    }
    if ReadU16(data, 2) >= 0x8000 {
      var conflict := ResponseConflicts(info, data);
      return if conflict then NameConflict else Ignore;
    }
    if ReadU16(data, 0) == probeId || ReadU16(data, 8) == 0 {
      return Ignore;
    }
    var conflict := ResponseConflicts(info, data);
    if !conflict {
      return Ignore;
    }
    var ours := OurRdata(info);
    var theirs := ExtractAuthoritySrvRdata(data);
    if theirs == [] {
      return NameConflict;
    }
    var cmp := CompareAuthorityRecords(ours, theirs);
    return if cmp <= 0 then Defer else Ignore;
  }

  // ---------------------------------------------------------------- consistency

  /** Another server reads from a probe exactly the rdata its sender compares with,
      and sees the contested name. */
  lemma ProbeIsUnderstood(b: ServiceInfo, id: u16, ttl: u32)
    requires WireName(b.serviceName) && WireName(b.hostname)
    ensures var p := Probe(b, id, ttl);
            && |p| >= 12 && ReadU16(p, 0) == id && ReadU16(p, 2) == 0 && ReadU16(p, 8) == 1
            && AuthoritySrv(p) == OurRdata(b) != []
            && |Walk(p)| == 1 && Walk(p)[0].hdr.name == b.serviceName
  {
    hide Probe, Walk, AuthoritySrv, RecordWire, Rdata, Question, SrvRdata, Encoded, Encodable, Clean, Decoded, Skip;
    var p, q := Probe(b, id, ttl), Question(b.serviceName, TYPE_ANY, true);
    ProbeIsWhole(b, ttl);
    ProbeLayout(b, id, ttl);
    ProbeSections(p, b, ProbeRecord(b, ttl), |q|);
  }

  /** A probe as it is read: one question for any record of the contested name, to be
      answered by unicast, and in the authority section the sender's SRV record. */
  lemma ProbeIsExact(b: ServiceInfo, id: u16, ttl: u32)
    requires WireName(b.serviceName) && WireName(b.hostname)
    ensures var p, next := Probe(b, id, ttl), 12 + |Encoded(b.serviceName)|;
            && |p| >= next + 4 && ReadU16(p, 0) == id && ReadU16(p, 2) == 0 && ReadU16(p, 4) == 1
            && ReadU16(p, 6) == 0 && ReadU16(p, 8) == 1 && ReadU16(p, 10) == 0
            && Decoded(p, 12) == Some(Canonical(b.serviceName))
            && ReadU16(p, next) == 255 && ReadU16(p, next + 2) == 0x8001
            && Walk(p) == [Srv(Header(b.serviceName, ttl, 1, false), b.priority, b.weight, b.port, b.hostname)]
  {
    hide Probe, Walk, AuthoritySrv, RecordWire, Rdata, Question, SrvRdata, Encoded, Encodable, Clean, Decoded, Skip;
    hide IsNormalized, Canonical;
    var p, q := Probe(b, id, ttl), Question(b.serviceName, TYPE_ANY, true);
    ProbeIsWhole(b, ttl);
    ProbeLayout(b, id, ttl);
    QuestionAt(p, 12, b.serviceName, TYPE_ANY, true);
    ProbeSections(p, b, ProbeRecord(b, ttl), |q|);
  }

  function ProbeRecord(b: ServiceInfo, ttl: u32): Record {
    Srv(Header(b.serviceName, ttl, CLASS_IN, false), b.priority, b.weight, b.port, b.hostname)
  }

  lemma ProbeIsWhole(b: ServiceInfo, ttl: u32)
    requires WireName(b.serviceName) && WireName(b.hostname)
    ensures Whole(ProbeRecord(b, ttl)) && Rdata(ProbeRecord(b, ttl)) == OurRdata(b) != []
    ensures RecordWire(ProbeRecord(b, ttl)) == RrWire(Encoded(b.serviceName), TYPE_SRV, false, ttl, OurRdata(b))
  {
    hide RrWire, Clean, IsNormalized;
    assert |Encoded(b.hostname)| <= 255;
  }

  lemma ProbeLayout(b: ServiceInfo, id: u16, ttl: u32)
    ensures var p, q := Probe(b, id, ttl), Question(b.serviceName, TYPE_ANY, true);
            && |p| >= 12 && ReadU16(p, 0) == id && ReadU16(p, 2) == 0 && ReadU16(p, 4) == 1
            && ReadU16(p, 6) == 0 && ReadU16(p, 8) == 1 && ReadU16(p, 10) == 0
            && At(p, 12, q) && At(p, 12 + |q|, RrWire(Encoded(b.serviceName), TYPE_SRV, false, ttl, OurRdata(b)))
  {
    hide PacketHeader, Question, RrWire, Encoded;
    var h, q := PacketHeader(id, 0, 1, 0, 1, 0), Question(b.serviceName, TYPE_ANY, true);
    var rr := RrWire(Encoded(b.serviceName), TYPE_SRV, false, ttl, OurRdata(b));
    var p := Probe(b, id, ttl);
    AtMiddle([], h, q + rr);
    assert [] + h + (q + rr) == p;
    AtMiddle(h, q, rr);
    AtMiddle(h + q, rr, []);
    assert h + q + rr + [] == p;
    PacketHeaderAt(p, id, 0, 1, 0, 1, 0);
  }

  lemma ProbeSections(p: seq<byte>, b: ServiceInfo, r: Record, n: nat)
    requires |p| >= 12 && ReadU16(p, 4) == 1 && ReadU16(p, 6) == 0 && ReadU16(p, 8) == 1 && ReadU16(p, 10) == 0
    requires WireName(b.serviceName) && Whole(r) && r.Srv? && r.hdr.name == b.serviceName
    requires n == |Question(b.serviceName, TYPE_ANY, true)| && At(p, 12, Question(b.serviceName, TYPE_ANY, true))
    requires At(p, 12 + n, RecordWire(r))
    ensures AuthoritySrv(p) == Rdata(r) && Walk(p) == [r]
  {
    hide Question, Encoded, Encodable, Clean, IsNormalized, Decoded, Skip, Whole, RecordWire, ParseRecord, Rdata;
    QuestionAt(p, 12, b.serviceName, TYPE_ANY, true);
    assert SkipQuestions(p, 12, 1) == SkipQuestions(p, 12 + n, 0);
    RecordRoundTrip(p, 12 + n, r);
    SrvView(p, 12 + n, r);
    var v := ViewAt(p, 12 + n).value;
    hide ViewAt;
    assert WalkFrom(p, 12 + n, 1) == Parsed(p, v) + WalkFrom(p, v.rdOff + v.rdLen, 0);
    assert SkipRecords(p, 12 + n, 0) == Some(12 + n);
  }

  lemma SrvView(p: seq<byte>, off: nat, r: Record)
    requires Whole(r) && At(p, off, RecordWire(r)) && r.Srv?
    ensures ViewAt(p, off).Some?
    ensures var v := ViewAt(p, off).value; v.rtype == TYPE_SRV && p[v.rdOff..v.rdOff + v.rdLen] == Rdata(r)
  {
    hide Decoded, Encoded, Encodable, Clean, IsNormalized, ViewAt, Skip, Normalize, Rdata, RrWire;
    ViewInContext(p, off, r.hdr.name, TypeOf(r), r.hdr.flush, r.hdr.ttl, Rdata(r));
  }

  /** SRV rdata determines the SRV data. */
  lemma RdataIsInjective(a: ServiceInfo, b: ServiceInfo)
    requires WireName(a.hostname) && WireName(b.hostname) && OurRdata(a) == OurRdata(b)
    ensures a.priority == b.priority && a.weight == b.weight && a.port == b.port && a.hostname == b.hostname
  {
    hide WireName, SrvRdata, Decoded;
    var w := OurRdata(a);
    AtMiddle([], w, []);
    assert [] + w + [] == w;
    SrvRdataAt(w, 0, a.priority, a.weight, a.port, a.hostname);
    SrvRdataAt(w, 0, b.priority, b.weight, b.port, b.hostname);
  }

  /** Two servers probing for one name, each seeing the other's probe: exactly one
      defers if their SRV data differ, and both defer if the data are the same. */
  lemma ExactlyOneDefers(a: ServiceInfo, b: ServiceInfo, idA: u16, idB: u16, ttlA: u32, ttlB: u32)
    requires a.serviceName == b.serviceName && idA != idB
    requires WireName(a.serviceName) && WireName(a.hostname) && WireName(b.hostname)
    ensures var va, vb := Judge(a, idA, Probe(b, idB, ttlB)), Judge(b, idB, Probe(a, idA, ttlA));
            && va in {Defer, Ignore} && vb in {Defer, Ignore}
            && ((va == Defer) != (vb == Defer) <==>
                  !(a.priority == b.priority && a.weight == b.weight && a.port == b.port && a.hostname == b.hostname))
            && (va == Ignore ==> vb == Defer)
  {
    hide Probe, Walk, AuthoritySrv, WireName, Compare, SrvRdata;
    ProbeIsUnderstood(a, idA, ttlA);
    ProbeIsUnderstood(b, idB, ttlB);
    var pa, pb := Probe(a, idA, ttlA), Probe(b, idB, ttlB);
    assert Conflicts(a, Walk(pb)) && Conflicts(b, Walk(pa));
    CompareIsTotalOrder(OurRdata(a), OurRdata(b), []);
    if OurRdata(a) == OurRdata(b) {
      RdataIsInjective(a, b);
    }
  }

  // ---------------------------------------------------------------- who gives way

  /** The comparison is negative exactly if the first string comes first in the dictionary. */
  lemma CompareIsDictionary(a: seq<byte>, b: seq<byte>)
    ensures Compare(a, b) < 0 <==> exists k :: Precedes(a, b, k)
    ensures Compare(a, b) <= 0 <==> a == b || exists k :: Precedes(a, b, k)
  {
    var k := CompareDecides(a, b, 0);
    assert Compare(a, b) < 0 ==> Precedes(a, b, k);
    assert Compare(a, b) > 0 ==> Precedes(b, a, k);
    if j :| Precedes(a, b, j) {
      PrecedesIsStrict(a, b, j, k);
    }
    if a == b && Compare(a, b) < 0 {
      PrecedesIsStrict(a, b, k, k);
    }
    if a == b && Compare(a, b) > 0 {
      PrecedesIsStrict(b, a, k, k);
    }
  }

  /** Which of two servers gives way: the one whose SRV rdata come first in the dictionary,
      as section 8.2 of RFC 6762 has it, and both if they are the same. */
  lemma EarlierDefers(a: ServiceInfo, b: ServiceInfo, idA: u16, idB: u16, ttlB: u32)
    requires a.serviceName == b.serviceName && idA != idB
    requires WireName(a.serviceName) && WireName(b.hostname)
    ensures var ours, theirs := SrvBytes(a), SrvBytes(b);
            Judge(a, idA, Probe(b, idB, ttlB)) ==
            if ours == theirs || exists k :: Precedes(ours, theirs, k) then Defer else Ignore
  {
    hide Probe, Walk, AuthoritySrv, WireName, Compare, SrvRdata, Precedes;
    ProbeIsUnderstood(b, idB, ttlB);
    assert Conflicts(a, Walk(Probe(b, idB, ttlB)));
    CompareIsDictionary(OurRdata(a), OurRdata(b));
    SrvBytesAre(a);
    SrvBytesAre(b);
  }

  /** SRV rdata: priority, weight and port, most significant octet first, and the encoded host. */
  function SrvBytes(info: ServiceInfo): seq<byte> {
    [info.priority / 256, info.priority % 256, info.weight / 256, info.weight % 256,
     info.port / 256, info.port % 256] + Encoded(info.hostname)
  }

  lemma SrvBytesAre(info: ServiceInfo)
    ensures SrvBytes(info) == OurRdata(info)
  {
  }

  /** A server never gives way to its own probe coming back. */
  lemma OwnProbeIsIgnored(a: ServiceInfo, id: u16, ttl: u32)
    requires WireName(a.serviceName) && WireName(a.hostname)
    ensures Judge(a, id, Probe(a, id, ttl)) == Ignore
  {
    hide Probe, Walk, AuthoritySrv, WireName, Compare, SrvRdata;
    ProbeIsUnderstood(a, id, ttl);
  }

  /** The whole judgement, over any octets. A response conflicts if some record in it is
      owned by our service name or our host. A query matters only if it is not our own, has
      an authority section and such a record in it; then it is a conflict if there is no SRV
      record in the authority section, and otherwise the comparison decides. */
  lemma JudgeIsExact(info: ServiceInfo, id: u16, data: seq<byte>)
    ensures var rs := Walk(data);
            var ours := exists i :: 0 <= i < |rs|
                          && (rs[i].hdr.name == info.serviceName || rs[i].hdr.name == info.hostname);
            var response := |data| >= 12 && data[2] >= 0x80;
            var probe := |data| >= 12 && data[2] < 0x80 && ReadU16(data, 0) != id && ReadU16(data, 8) != 0;
            var theirs := AuthoritySrv(data);
            && (Judge(info, id, data) == NameConflict <==> ours && (response || (probe && theirs == [])))
            && (Judge(info, id, data) == Defer <==>
                  ours && probe && theirs != []
                  && (SrvBytes(info) == theirs || exists k :: Precedes(SrvBytes(info), theirs, k)))
  {
    hide Walk, AuthoritySrv, Compare, SrvRdata, Precedes, SrvBytes;
    CompareIsDictionary(OurRdata(info), AuthoritySrv(data));
    SrvBytesAre(info);
    if |data| >= 12 {
      assert ReadU16(data, 2) >= 0x8000 <==> data[2] >= 0x80;
    }
  }

  // ---------------------------------------------------------------- the authority section

  lemma {:induction false} SkipWritten(p: seq<byte>, off: nat, rs: seq<Record>)
    requires (forall i :: 0 <= i < |rs| ==> Whole(rs[i])) && At(p, off, WireAll(rs))
    ensures SkipRecords(p, off, |rs|) == Some(off + |WireAll(rs)|)
    decreases rs
  {
    hide RecordWire, Whole, ViewAt, ParseRecord, Arriving, At;
    if rs != [] {
      assert WireAll(rs) == RecordWire(rs[0]) + WireAll(rs[1..]);
      AtConcat(p, off, RecordWire(rs[0]), WireAll(rs[1..]));
      RecordRoundTrip(p, off, rs[0]);
      SkipWritten(p, off + |RecordWire(rs[0])|, rs[1..]);
    }
  }

  lemma {:induction false} FirstSrvWritten(p: seq<byte>, off: nat, rs: seq<Record>, i: nat)
    requires (forall k :: 0 <= k < |rs| ==> Whole(rs[k])) && At(p, off, WireAll(rs))
    requires i <= |rs| && (i < |rs| ==> rs[i].Srv?) && forall k :: 0 <= k < i ==> !rs[k].Srv?
    ensures FirstSrv(p, off, |rs|) == if i < |rs| then Rdata(rs[i]) else []
    decreases rs
  {
    hide RecordWire, Whole, ViewAt, ParseRecord, Arriving, At, Rdata;
    if rs != [] {
      assert WireAll(rs) == RecordWire(rs[0]) + WireAll(rs[1..]);
      AtConcat(p, off, RecordWire(rs[0]), WireAll(rs[1..]));
      RecordRoundTrip(p, off, rs[0]);
      if i == 0 {
        SrvView(p, off, rs[0]);
      } else {
        assert forall k :: 0 <= k < |rs| - 1 ==> rs[1..][k] == rs[k + 1];
        assert rs[0].Srv? <==> TypeOf(rs[0]) == TYPE_SRV;
        FirstSrvWritten(p, off + |RecordWire(rs[0])|, rs[1..], i - 1);
      }
    }
  }

  /** Of any packet with one question, answers and authority records, the rdata of the first
      SRV record of the authority section are extracted, and nothing if there is none; SRV
      records among the answers do not count. */
  lemma AuthorityIsExact(p: seq<byte>, name: Name, qtype: u16, qu: bool, an: seq<Record>, ns: seq<Record>, i: nat)
    requires |p| >= 12 && ReadU16(p, 4) == 1 && ReadU16(p, 6) == |an| && ReadU16(p, 8) == |ns|
    requires WireName(name) && At(p, 12, Question(name, qtype, qu))
    requires At(p, 12 + |Question(name, qtype, qu)|, WireAll(an + ns))
    requires forall k :: 0 <= k < |an + ns| ==> Whole((an + ns)[k])
    requires i <= |ns| && (i < |ns| ==> ns[i].Srv?) && forall k :: 0 <= k < i ==> !ns[k].Srv?
    ensures AuthoritySrv(p) == if i < |ns| then Rdata(ns[i]) else []
  {
    hide RecordWire, Whole, WireAll, At, Question, WireName, SkipRecords, FirstSrv, Rdata, AuthoritySrv, SkipQuestions;
    var start := 12 + |Question(name, qtype, qu)|;
    OneQuestionSkipped(p, name, qtype, qu);
    WireAllConcat(an, ns);
    AtConcat(p, start, WireAll(an), WireAll(ns));
    AllWhole(an, ns);
    SkipWritten(p, start, an);
    FirstSrvWritten(p, start + |WireAll(an)|, ns, i);
    AuthorityParts(p, start, start + |WireAll(an)|);
  }

  lemma AllWhole(an: seq<Record>, ns: seq<Record>)
    requires forall k :: 0 <= k < |an + ns| ==> Whole((an + ns)[k])
    ensures (forall k :: 0 <= k < |an| ==> Whole(an[k])) && forall k :: 0 <= k < |ns| ==> Whole(ns[k])
  {
    hide Whole;
    assert forall k :: 0 <= k < |an| ==> (an + ns)[k] == an[k];
    assert forall k :: 0 <= k < |ns| ==> (an + ns)[|an| + k] == ns[k];
  }

  lemma OneQuestionSkipped(p: seq<byte>, name: Name, qtype: u16, qu: bool)
    requires |p| >= 12 && WireName(name) && At(p, 12, Question(name, qtype, qu))
    ensures SkipQuestions(p, 12, 1) == Some(12 + |Question(name, qtype, qu)|)
  {
    hide Question, Encodable, Clean, IsNormalized, Skip, Decoded, At;
    QuestionAt(p, 12, name, qtype, qu);
    assert SkipQuestions(p, 12, 1) == SkipQuestions(p, 12 + |Question(name, qtype, qu)|, 0);
  }

  lemma AuthorityParts(p: seq<byte>, start: nat, mid: nat)
    requires |p| >= 12 && SkipQuestions(p, 12, ReadU16(p, 4)) == Some(start)
    requires SkipRecords(p, start, ReadU16(p, 6)) == Some(mid)
    ensures AuthoritySrv(p) == FirstSrv(p, mid, ReadU16(p, 8))
  {
    hide SkipQuestions, SkipRecords, FirstSrv;
  }
}
