/** Response packets (lib/mdnspp/include/mdnspp/detail/dns_response.h): what a
    query type promises, how it is written, and that a receiver gets exactly it. */
module Response {
  import opened Bytes
  import opened Names
  import opened NameRoundTrip
  import opened Records
  import opened TxtCodec
  import opened Frame

  datatype Ttls = Ttls(ptr: u32, srv: u32, txt: u32, a: u32, aaaa: u32)

  function Capped(ttl: u32, cap: u32): u32 {
    if ttl < cap then ttl else cap
  }

  // ---------------------------------------------------------------- the promise

  function PtrRecord(info: ServiceInfo, ttls: Ttls, cap: u32): Record {
    Ptr(Header(info.serviceType, Capped(ttls.ptr, cap), CLASS_IN, false), info.serviceName)
  }

  function SrvRecord(info: ServiceInfo, ttls: Ttls, cap: u32): Record {
    Srv(Header(info.serviceName, Capped(ttls.srv, cap), CLASS_IN, true),
        info.priority, info.weight, info.port, info.hostname)
  }

  function TxtRecord(info: ServiceInfo, ttls: Ttls, cap: u32): Record {
    Txts(Header(info.serviceName, Capped(ttls.txt, cap), CLASS_IN, true), info.txt)
  }

  predicate HasIpv4(info: ServiceInfo) { info.ipv4.Some? && |info.ipv4.value| == 4 }

  predicate HasIpv6(info: ServiceInfo) { info.ipv6.Some? && |info.ipv6.value| == 16 }

  function ARecords(info: ServiceInfo, ttls: Ttls, cap: u32): seq<Record> {
    if HasIpv4(info) then [A(Header(info.hostname, Capped(ttls.a, cap), CLASS_IN, true), info.ipv4.value)] else []
  }

  function AaaaRecords(info: ServiceInfo, ttls: Ttls, cap: u32): seq<Record> {
    if HasIpv6(info) then [Aaaa(Header(info.hostname, Capped(ttls.aaaa, cap), CLASS_IN, true), info.ipv6.value)] else []
  }

  function AddressRecords(info: ServiceInfo, ttls: Ttls, cap: u32): seq<Record> {
    ARecords(info, ttls, cap) + AaaaRecords(info, ttls, cap)
  }

  function TxtRecords(info: ServiceInfo, ttls: Ttls, cap: u32): seq<Record> {
    if EncodedTxt(info.txt) != [] then [TxtRecord(info, ttls, cap)] else []
  }

  function Answers(info: ServiceInfo, qtype: u16, ttls: Ttls, cap: u32): (r: seq<Record>)
    ensures |r| <= 5
  {
    if qtype == TYPE_PTR then [PtrRecord(info, ttls, cap)]
    else if qtype == TYPE_SRV then [SrvRecord(info, ttls, cap)]
    else if qtype == TYPE_A then ARecords(info, ttls, cap)
    else if qtype == TYPE_AAAA then AaaaRecords(info, ttls, cap)
    else if qtype == TYPE_TXT then [TxtRecord(info, ttls, cap)]
    else if qtype == TYPE_ANY then
      [PtrRecord(info, ttls, cap)] + ([SrvRecord(info, ttls, cap)]
      + (AddressRecords(info, ttls, cap) + TxtRecords(info, ttls, cap)))
    else []
  }

  function Additional(info: ServiceInfo, qtype: u16, ttls: Ttls, cap: u32): (r: seq<Record>)
    ensures |r| <= 4
  {
    if qtype == TYPE_PTR then
      [SrvRecord(info, ttls, cap)] + (AddressRecords(info, ttls, cap) + TxtRecords(info, ttls, cap))
    else if qtype == TYPE_SRV then AddressRecords(info, ttls, cap)
    else []
  }

  function Promised(info: ServiceInfo, qtype: u16, ttls: Ttls, cap: u32): seq<Record> {
    Answers(info, qtype, ttls, cap) + Additional(info, qtype, ttls, cap)
  }

  predicate EncodableInfo(info: ServiceInfo) {
    Encodable(info.serviceType) && Encodable(info.serviceName) && Encodable(info.hostname)
  }

  predicate Responds(info: ServiceInfo, qtype: u16) {
    && EncodableInfo(info)
    && (qtype == TYPE_A ==> HasIpv4(info))
    && (qtype == TYPE_AAAA ==> HasIpv6(info))
    && qtype in {TYPE_A, TYPE_AAAA, TYPE_PTR, TYPE_SRV, TYPE_TXT, TYPE_ANY}
  }

  function ResponseBytes(info: ServiceInfo, qtype: u16, ttls: Ttls, cap: u32): seq<byte> {
    if !Responds(info, qtype) then []
    else
      PacketHeader(0, 0x8400, 0, |Answers(info, qtype, ttls, cap)|, 0, |Additional(info, qtype, ttls, cap)|)
      + WireAll(Promised(info, qtype, ttls, cap))
  }

  // ---------------------------------------------------------------- the builder

  method AppendAddresses(buf: seq<byte>, count: nat, info: ServiceInfo, ttls: Ttls, cap: u32)
    returns (buf': seq<byte>, count': nat)
    ensures buf' == buf + WireAll(AddressRecords(info, ttls, cap))
    ensures count' == count + |AddressRecords(info, ttls, cap)|
  {
    hide RecordWire;
    buf', count' := buf, count;
    ghost var a, b := ARecords(info, ttls, cap), AaaaRecords(info, ttls, cap);
    WireAllConcat(a, b);
    if HasIpv4(info) {
      buf' := buf' + RecordWire(A(Header(info.hostname, Capped(ttls.a, cap), CLASS_IN, true), info.ipv4.value));
      count' := count' + 1;
    }
    assert buf' == buf + WireAll(a);
    if HasIpv6(info) {
      buf' := buf' + RecordWire(Aaaa(Header(info.hostname, Capped(ttls.aaaa, cap), CLASS_IN, true), info.ipv6.value));
      count' := count' + 1;
    }
    assert buf' == buf + WireAll(a) + WireAll(b);
  }

  method AppendTxt(buf: seq<byte>, count: nat, info: ServiceInfo, ttls: Ttls, cap: u32)
    returns (buf': seq<byte>, count': nat)
    ensures buf' == buf + WireAll(TxtRecords(info, ttls, cap))
    ensures count' == count + |TxtRecords(info, ttls, cap)|
  {
    hide RecordWire;
    buf', count' := buf, count;
    var rdata := EncodeTxtRecords(info.txt);
    if rdata != [] {
      buf' := buf' + RecordWire(TxtRecord(info, ttls, cap));
      count' := count' + 1;
    }
  }

  /** The service part shared by PTR and ANY replies: SRV, addresses, TXT. */
  method AppendService(buf: seq<byte>, count: nat, info: ServiceInfo, ttls: Ttls, cap: u32)
    returns (buf': seq<byte>, count': nat)
    ensures buf' == buf + WireAll([SrvRecord(info, ttls, cap)]
                                  + (AddressRecords(info, ttls, cap) + TxtRecords(info, ttls, cap)))
    ensures count' == count + 1 + |AddressRecords(info, ttls, cap)| + |TxtRecords(info, ttls, cap)|
  {
    hide RecordWire, WireAll, AddressRecords, TxtRecords;
    var srv := SrvRecord(info, ttls, cap);
    buf', count' := buf + RecordWire(srv), count + 1;
    buf', count' := AppendAddresses(buf', count', info, ttls, cap);
    buf', count' := AppendTxt(buf', count', info, ttls, cap);
    ghost var a, t := AddressRecords(info, ttls, cap), TxtRecords(info, ttls, cap);
    WireOne(srv);
    WireAllConcat([srv], a + t);
    WireAllConcat(a, t);
  }

  method BuildDnsResponse(info: ServiceInfo, qtype: u16, ttls: Ttls, cap: u32) returns (packet: seq<byte>)
    ensures packet == ResponseBytes(info, qtype, ttls, cap)
  {
    hide WireAll, Encodable, Answers, Additional, PacketHeader;
    var nameType := EncodeDnsName(info.serviceType);
    var nameService := EncodeDnsName(info.serviceName);
    var nameHost := EncodeDnsName(info.hostname);
    if nameType == [] || nameService == [] || nameHost == [] {
      return [];
    }
    if (qtype == TYPE_A && !HasIpv4(info)) || (qtype == TYPE_AAAA && !HasIpv6(info)) {
      return [];
    }
    if qtype !in {TYPE_A, TYPE_AAAA, TYPE_PTR, TYPE_SRV, TYPE_TXT, TYPE_ANY} {
      return [];
    }
    var answers, ancount, additional, arcount := BuildSections(info, qtype, ttls, cap);
    WireAllConcat(Answers(info, qtype, ttls, cap), Additional(info, qtype, ttls, cap));
    packet := PacketHeader(0, 0x8400, 0, ancount, 0, arcount) + (answers + additional);
  }

  /** The switch over the query type. */
  method BuildSections(info: ServiceInfo, qtype: u16, ttls: Ttls, cap: u32)
    returns (answers: seq<byte>, ancount: nat, additional: seq<byte>, arcount: nat)
    requires Responds(info, qtype)
    ensures answers == WireAll(Answers(info, qtype, ttls, cap)) && ancount == |Answers(info, qtype, ttls, cap)|
    ensures additional == WireAll(Additional(info, qtype, ttls, cap))
         && arcount == |Additional(info, qtype, ttls, cap)|
  {
    hide RecordWire, WireAll, EncodableInfo, AddressRecords, TxtRecords, PtrRecord, SrvRecord, TxtRecord;
    answers, ancount, additional, arcount := [], 0, [], 0;
    WireNothing();
    if qtype == TYPE_PTR {
      answers, ancount := answers + RecordWire(PtrRecord(info, ttls, cap)), ancount + 1;
      WireOne(PtrRecord(info, ttls, cap));
      additional, arcount := AppendService(additional, arcount, info, ttls, cap);
    } else if qtype == TYPE_SRV {
      answers, ancount := answers + RecordWire(SrvRecord(info, ttls, cap)), ancount + 1;
      WireOne(SrvRecord(info, ttls, cap));
      additional, arcount := AppendAddresses(additional, arcount, info, ttls, cap);
    } else if qtype == TYPE_A {
      var r := A(Header(info.hostname, Capped(ttls.a, cap), CLASS_IN, true), info.ipv4.value);
      answers, ancount := answers + RecordWire(r), ancount + 1;
      WireOne(r);
    } else if qtype == TYPE_AAAA {
      var r := Aaaa(Header(info.hostname, Capped(ttls.aaaa, cap), CLASS_IN, true), info.ipv6.value);
      answers, ancount := answers + RecordWire(r), ancount + 1;
      WireOne(r);
    } else if qtype == TYPE_TXT {
      answers, ancount := answers + RecordWire(TxtRecord(info, ttls, cap)), ancount + 1;
      WireOne(TxtRecord(info, ttls, cap));
    } else {
      var ptr := PtrRecord(info, ttls, cap);
      answers, ancount := answers + RecordWire(ptr), ancount + 1;
      answers, ancount := AppendService(answers, ancount, info, ttls, cap);
      WireOne(ptr);
      WireAllConcat([ptr], [SrvRecord(info, ttls, cap)]
                           + (AddressRecords(info, ttls, cap) + TxtRecords(info, ttls, cap)));
    }
  }

  // ---------------------------------------------------------------- the receiver

  /** Names that reach a receiver unchanged. */
  predicate WireInfo(info: ServiceInfo) {
    WireName(info.serviceType) && WireName(info.serviceName) && WireName(info.hostname)
  }

  /** Records whose rdata fits a 16-bit length; the builder silently leaves the others out. */
  function Fitting(rs: seq<Record>): (r: seq<Record>)
    ensures |r| <= |rs|
  {
    if rs == [] then []
    else if |Rdata(rs[0])| <= 0xFFFF then [rs[0]] + Fitting(rs[1..]) else Fitting(rs[1..])
  }

  lemma {:induction false} FittingWire(rs: seq<Record>)
    ensures WireAll(Fitting(rs)) == WireAll(rs)
    ensures forall i :: 0 <= i < |Fitting(rs)| ==> Fitting(rs)[i] in rs && |Rdata(Fitting(rs)[i])| <= 0xFFFF
  {
    hide Rdata;
    if rs != [] {
      FittingWire(rs[1..]);
      if |Rdata(rs[0])| <= 0xFFFF {
        assert Fitting(rs)[1..] == Fitting(rs[1..]);
      } else {
        assert RecordWire(rs[0]) == [];
      }
    }
  }

  /** A record as a receiver may rely on it: complete if it fits, the cache-flush
      bit exactly on all but PTR, and its type's TTL cut off at the cap. */
  ghost predicate Shaped(r: Record, ttls: Ttls, cap: u32) {
    && (|Rdata(r)| <= 0xFFFF ==> Whole(r))
    && r.hdr.rclass == CLASS_IN
    && (r.hdr.flush <==> !r.Ptr?)
    && r.hdr.ttl == Capped(match r {
         case Ptr(_, _) => ttls.ptr
         case Srv(_, _, _, _, _) => ttls.srv
         case A(_, _) => ttls.a
         case Aaaa(_, _) => ttls.aaaa
         case Txts(_, _) => ttls.txt }, cap)
  }

  lemma PromisedShape(info: ServiceInfo, qtype: u16, ttls: Ttls, cap: u32)
    requires WireInfo(info)
    ensures forall r :: r in Promised(info, qtype, ttls, cap) ==> Shaped(r, ttls, cap)
  {
    hide WireName, EncodedTxt, Rdata;
    assert Shaped(PtrRecord(info, ttls, cap), ttls, cap);
    assert Shaped(SrvRecord(info, ttls, cap), ttls, cap);
    assert Shaped(TxtRecord(info, ttls, cap), ttls, cap);
    assert forall r :: r in ARecords(info, ttls, cap) ==> Shaped(r, ttls, cap);
    assert forall r :: r in AaaaRecords(info, ttls, cap) ==> Shaped(r, ttls, cap);
    hide Shaped, PtrRecord, SrvRecord, TxtRecord, ARecords, AaaaRecords;
    assert forall r :: r in AddressRecords(info, ttls, cap) ==> Shaped(r, ttls, cap);
  }

  /** Response round trip: a receiver walking the packet is delivered exactly the
      promised records that fit, in order, and consumes the packet to its last octet;
      the header counts say as many unless one of them did not fit. */
  lemma ResponseRoundTrip(info: ServiceInfo, qtype: u16, ttls: Ttls, cap: u32)
    requires WireInfo(info)
    ensures var packet, promised := ResponseBytes(info, qtype, ttls, cap), Promised(info, qtype, ttls, cap);
            && (packet == [] <==> !Responds(info, qtype))
            && (packet != [] ==>
                  && |packet| >= 12
                  && Walk(packet) == ArrivingAll(Fitting(promised))
                  && WalkEnd(packet) == |packet| && WalkTypes(packet) == Types(Fitting(promised))
                  && (RrTotal(packet) == |Walk(packet)| <==> Fitting(promised) == promised))
  {
    hide WireAll, Promised, Responds, Walk, WalkTypes, WalkEnd, Arriving, PacketHeader, Answers, Additional, Fitting;
    if Responds(info, qtype) {
      var promised := Promised(info, qtype, ttls, cap);
      PromisedShape(info, qtype, ttls, cap);
      hide Shaped, WireInfo;
      PromisedSize(info, qtype, ttls, cap);
      FittingAll(promised);
      PacketDelivers(|Answers(info, qtype, ttls, cap)|, |Additional(info, qtype, ttls, cap)|, promised, ttls, cap);
    }
  }

  /** A header with both counts and the records: what a receiver makes of it. */
  lemma PacketDelivers(n: u16, m: u16, rs: seq<Record>, ttls: Ttls, cap: u32)
    requires |rs| == n + m && forall r :: r in rs ==> Shaped(r, ttls, cap)
    ensures var packet := PacketHeader(0, 0x8400, 0, n, 0, m) + WireAll(rs);
            && |packet| >= 12 && RrTotal(packet) == n + m && Walk(packet) == ArrivingAll(Fitting(rs))
            && WalkEnd(packet) == |packet| && WalkTypes(packet) == Types(Fitting(rs))
  {
    hide WireAll, Whole, Walk, WalkFrom, WalkTypes, TypesFrom, WalkEnd, EndFrom, Arriving, PacketHeader;
    hide Fitting, Capped, Rdata;
    var h := PacketHeader(0, 0x8400, 0, n, 0, m);
    var packet := h + WireAll(rs);
    AtMiddle([], h, WireAll(rs));
    assert [] + h + WireAll(rs) == packet;
    AtMiddle(h, WireAll(rs), []);
    assert h + WireAll(rs) + [] == packet;
    PacketHeaderAt(packet, 0, 0x8400, 0, n, 0, m);
    FittingWire(rs);
    WalkWritten(packet, 12, Fitting(rs), n + m);
    WalkWithoutQuestions(packet);
  }

  lemma {:induction false} RepeatedTxt(e: Txt, es: seq<Txt>)
    requires |EntryText(e)| <= MAX_ENTRY && forall i :: 0 <= i < |es| ==> es[i] == e
    ensures |EncodedTxt(es)| == |es| * (1 + |EntryText(e)|)
  {
    hide EntryText;
    if es != [] {
      RepeatedTxt(e, es[1..]);
    }
  }

  /** TXT data beyond 65535 octets: 257 strings of 255 octets. */
  function Oversized(info: ServiceInfo): ServiceInfo {
    info.(txt := seq(257, _ => Txt(seq(255, _ => 97), None)))
  }

  /** The reply to a TXT question about such a service is counted, but not there. */
  lemma OversizedTxtIsCounted(info: ServiceInfo, ttls: Ttls, cap: u32)
    requires WireInfo(info)
    ensures |EncodedTxt(Oversized(info).txt)| > 0xFFFF
    ensures var packet := ResponseBytes(Oversized(info), TYPE_TXT, ttls, cap);
            |packet| == 12 && Walk(packet) == [] && RrTotal(packet) != 0
  {
    OversizedSize(info);
    hide EncodedTxt, Oversized, Walk, WalkTypes, WalkEnd, WireAll, WireInfo, Answers, Responds;
    var big := Oversized(info);
    assert WireInfo(big) && Answers(big, TYPE_TXT, ttls, cap) == [TxtRecord(big, ttls, cap)]
           && Responds(big, TYPE_TXT) by { OversizedAnswers(info, ttls, cap); }
    ResponseRoundTrip(big, TYPE_TXT, ttls, cap);
    var promised := Promised(big, TYPE_TXT, ttls, cap);
    assert promised == [TxtRecord(big, ttls, cap)];
    assert Fitting(promised) == [] != promised;
    FittingWire(promised);
    WireNothing();
  }

  lemma OversizedSize(info: ServiceInfo)
    ensures |EncodedTxt(Oversized(info).txt)| > 0xFFFF
  {
    RepeatedTxt(Txt(seq(255, _ => 97), None), Oversized(info).txt);
  }

  lemma OversizedAnswers(info: ServiceInfo, ttls: Ttls, cap: u32)
    requires WireInfo(info)
    ensures var big := Oversized(info);
            && WireInfo(big) && Responds(big, TYPE_TXT)
            && Answers(big, TYPE_TXT, ttls, cap) == [TxtRecord(big, ttls, cap)]
  {
    hide Capped, Encodable, Clean, IsNormalized, EncodedTxt;
  }

  lemma PromisedSize(info: ServiceInfo, qtype: u16, ttls: Ttls, cap: u32)
    ensures |Promised(info, qtype, ttls, cap)|
         == |Answers(info, qtype, ttls, cap)| + |Additional(info, qtype, ttls, cap)|
  {
  }

  lemma {:induction false} FittingAll(rs: seq<Record>)
    ensures |Fitting(rs)| == |rs| <==> Fitting(rs) == rs
  {
    if rs != [] {
      FittingAll(rs[1..]);
      assert rs == [rs[0]] + rs[1..];
    }
  }
}
