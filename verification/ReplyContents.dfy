/** What each kind of question is answered with, field by field: the records a receiver is
    delivered from the packet (lib/mdnspp/include/mdnspp/detail/dns_response.h). */
module ReplyContents {
  import opened Bytes
  import opened Names
  import opened NameRoundTrip
  import opened Records
  import opened TxtCodec
  import opened Frame
  import R = Response
  import Discovery

  /** The records as they arrive, written out. Addresses of a wrong length are none. */
  ghost predicate IsPtr(r: Record, info: ServiceInfo, ttl: u32, cap: u32) {
    r == Ptr(Header(info.serviceType, if ttl < cap then ttl else cap, 1, false), info.serviceName)
  }

  ghost predicate IsSrv(r: Record, info: ServiceInfo, ttl: u32, cap: u32) {
    && r.Srv? && r.hdr == Header(info.serviceName, if ttl < cap then ttl else cap, 1, true)
    && r.priority == info.priority && r.weight == info.weight && r.port == info.port && r.target == info.hostname
  }

  ghost predicate IsTxt(r: Record, info: ServiceInfo, ttl: u32, cap: u32) {
    && r.Txts? && r.hdr == Header(info.serviceName, if ttl < cap then ttl else cap, 1, true)
    && r.entries == DecodedTxt(EncodedTxt(info.txt))
  }

  /** The address records of the host: A if there is an IPv4 address, then AAAA if there is
      an IPv6 address. */
  ghost predicate AreAddresses(rs: seq<Record>, info: ServiceInfo, ttlA: u32, ttlAaaa: u32, cap: u32) {
    var v4 := info.ipv4.Some? && |info.ipv4.value| == 4;
    var v6 := info.ipv6.Some? && |info.ipv6.value| == 16;
    && |rs| == (if v4 then 1 else 0) + (if v6 then 1 else 0)
    && (v4 ==> rs[0] == A(Header(info.hostname, if ttlA < cap then ttlA else cap, 1, true), info.ipv4.value))
    && (v6 ==> rs[|rs| - 1]
               == Aaaa(Header(info.hostname, if ttlAaaa < cap then ttlAaaa else cap, 1, true), info.ipv6.value))
  }

  lemma AddressesAre(info: ServiceInfo, ttls: R.Ttls, cap: u32)
    ensures AreAddresses(R.ARecords(info, ttls, cap) + R.AaaaRecords(info, ttls, cap), info, ttls.a, ttls.aaaa, cap)
  {
  }

  /** An SRV question: the SRV record under the service's name, then the host's addresses. */
  lemma SrvReply(info: ServiceInfo, ttls: R.Ttls, cap: u32)
    requires R.WireInfo(info)
    ensures var rs := Walk(R.ResponseBytes(info, TYPE_SRV, ttls, cap));
            rs != [] && IsSrv(rs[0], info, ttls.srv, cap) && AreAddresses(rs[1..], info, ttls.a, ttls.aaaa, cap)
  {
    hide Walk, WalkEnd, WalkTypes, R.ResponseBytes, R.WireInfo, R.Fitting, R.Responds, AreAddresses, IsSrv;
    hide R.SrvRecord, R.ARecords, R.AaaaRecords, Arriving;
    var srv, a, aaaa := R.SrvRecord(info, ttls, cap), R.ARecords(info, ttls, cap), R.AaaaRecords(info, ttls, cap);
    Discovery.AllFit(info, ttls, cap);
    AllRespond(info);
    R.ResponseRoundTrip(info, TYPE_SRV, ttls, cap);
    assert R.Promised(info, TYPE_SRV, ttls, cap) == [srv] + (a + aaaa);
    Discovery.FittingConcat([srv], a + aaaa);
    Discovery.FittingConcat(a, aaaa);
    var rs := [srv] + (a + aaaa);
    PlainArrives(info, ttls, cap);
    assert rs[1..] == a + aaaa;
    AddressesAre(info, ttls, cap);
    SrvIs(info, ttls, cap);
  }

  lemma SrvIs(info: ServiceInfo, ttls: R.Ttls, cap: u32)
    ensures IsSrv(R.SrvRecord(info, ttls, cap), info, ttls.srv, cap)
  {
  }

  lemma CappedIs(ttl: u32, cap: u32)
    ensures R.Capped(ttl, cap) == if ttl < cap then ttl else cap
  {
  }

  lemma AllRespond(info: ServiceInfo)
    requires R.WireInfo(info)
    ensures R.Responds(info, TYPE_SRV) && R.Responds(info, TYPE_TXT)
    ensures R.Responds(info, TYPE_A) <==> R.HasIpv4(info)
    ensures R.Responds(info, TYPE_AAAA) <==> R.HasIpv6(info)
  {
  }

  /** Records without TXT strings arrive as they are. */
  lemma PlainArrives(info: ServiceInfo, ttls: R.Ttls, cap: u32)
    ensures var rs := [R.SrvRecord(info, ttls, cap)] + (R.ARecords(info, ttls, cap) + R.AaaaRecords(info, ttls, cap));
            ArrivingAll(rs) == rs
  {
    hide R.Capped;
    var rs := [R.SrvRecord(info, ttls, cap)] + (R.ARecords(info, ttls, cap) + R.AaaaRecords(info, ttls, cap));
    assert forall i :: 0 <= i < |rs| ==> Arriving(rs[i]) == rs[i];
  }

  /** A question for an address: that address alone, and no packet if there is none. */
  lemma AddressReply(info: ServiceInfo, v6: bool, ttls: R.Ttls, cap: u32)
    requires R.WireInfo(info)
    ensures var packet := R.ResponseBytes(info, if v6 then TYPE_AAAA else TYPE_A, ttls, cap);
            var addr, size := if v6 then info.ipv6 else info.ipv4, if v6 then 16 else 4;
            if addr.Some? && |addr.value| == size
            then
              var ttl := if v6 then ttls.aaaa else ttls.a;
              var hdr := Header(info.hostname, if ttl < cap then ttl else cap, 1, true);
              Walk(packet) == [if v6 then Aaaa(hdr, addr.value) else A(hdr, addr.value)]
            else packet == []
  {
    hide Walk, WalkEnd, WalkTypes, R.ResponseBytes, R.WireInfo, R.Fitting, R.Responds;
    Discovery.AllFit(info, ttls, cap);
    AllRespond(info);
    var qtype := if v6 then TYPE_AAAA else TYPE_A;
    R.ResponseRoundTrip(info, qtype, ttls, cap);
    var rs := if v6 then R.AaaaRecords(info, ttls, cap) else R.ARecords(info, ttls, cap);
    assert R.Promised(info, qtype, ttls, cap) == rs;
  }

  /** A TXT question: one TXT record, with as many strings as survive, even none. */
  lemma TxtReply(info: ServiceInfo, ttls: R.Ttls, cap: u32)
    requires R.WireInfo(info)
    ensures var rs := Walk(R.ResponseBytes(info, TYPE_TXT, ttls, cap));
            if |EncodedTxt(info.txt)| <= 0xFFFF then |rs| == 1 && IsTxt(rs[0], info, ttls.txt, cap) else rs == []
  {
    hide Walk, WalkEnd, WalkTypes, R.ResponseBytes, R.WireInfo, R.Responds, EncodedTxt, DecodedTxt;
    AllRespond(info);
    R.ResponseRoundTrip(info, TYPE_TXT, ttls, cap);
    var txt := R.TxtRecord(info, ttls, cap);
    assert R.Promised(info, TYPE_TXT, ttls, cap) == [txt];
    assert R.Fitting([txt]) == if |EncodedTxt(info.txt)| <= 0xFFFF then [txt] else [];
  }

  /** A PTR question, ANY, or an announcement: the PTR record of the type, the SRV record, the
      addresses, and the TXT record if there is TXT data that fits. */
  lemma FullReply(info: ServiceInfo, qtype: u16, ttls: R.Ttls, cap: u32)
    requires R.WireInfo(info) && (qtype == 12 || qtype == 255)
    ensures var rs := Walk(R.ResponseBytes(info, qtype, ttls, cap));
            var txt := if 0 < |EncodedTxt(info.txt)| <= 0xFFFF then 1 else 0;
            && |rs| >= 2 + txt && IsPtr(rs[0], info, ttls.ptr, cap) && IsSrv(rs[1], info, ttls.srv, cap)
            && AreAddresses(rs[2..|rs| - txt], info, ttls.a, ttls.aaaa, cap)
            && (txt == 1 ==> IsTxt(rs[|rs| - 1], info, ttls.txt, cap))
  {
    hide Walk, R.ResponseBytes, R.WireInfo, R.Capped, AreAddresses, EncodedTxt, DecodedTxt;
    Discovery.FullReplyDelivers(info, qtype, ttls, cap);
    var ptr, srv := R.PtrRecord(info, ttls, cap), R.SrvRecord(info, ttls, cap);
    var addresses := R.ARecords(info, ttls, cap) + R.AaaaRecords(info, ttls, cap);
    var txt := Discovery.TxtArriving(info, ttls, cap);
    var rs := Walk(R.ResponseBytes(info, qtype, ttls, cap));
    assert rs == [ptr] + [srv] + addresses + txt;
    assert rs[2..|rs| - |txt|] == addresses;
    AddressesAre(info, ttls, cap);
    CappedIs(ttls.ptr, cap);
    CappedIs(ttls.srv, cap);
    CappedIs(ttls.txt, cap);
  }

  /** The header of a reply: a response with authority, no question, and the counts of both
      sections. What was asked for is the answer, its company is additional; ANY asks for
      everything. TXT data is counted whether or not it fits. */
  lemma HeaderIsExact(info: ServiceInfo, qtype: u16, ttls: R.Ttls, cap: u32)
    requires R.ResponseBytes(info, qtype, ttls, cap) != []
    ensures var packet := R.ResponseBytes(info, qtype, ttls, cap);
            var v4 := if info.ipv4.Some? && |info.ipv4.value| == 4 then 1 else 0;
            var v6 := if info.ipv6.Some? && |info.ipv6.value| == 16 then 1 else 0;
            var txt := if EncodedTxt(info.txt) != [] then 1 else 0;
            && |packet| >= 12 && packet[..4] == [0, 0, 0x84, 0]
            && ReadU16(packet, 4) == 0 && ReadU16(packet, 8) == 0
            && ReadU16(packet, 6) == (if qtype == 255 then 2 + v4 + v6 + txt else 1)
            && ReadU16(packet, 10)
               == if qtype == 12 then 1 + v4 + v6 + txt else if qtype == 33 then v4 + v6 else 0
  {
    hide EncodedTxt, WireAll, PacketHeader, R.Capped;
    var n, m := |R.Answers(info, qtype, ttls, cap)|, |R.Additional(info, qtype, ttls, cap)|;
    var h, rs := PacketHeader(0, 0x8400, 0, n, 0, m), WireAll(R.Promised(info, qtype, ttls, cap));
    assert R.ResponseBytes(info, qtype, ttls, cap) == h + rs;
    hide R.ResponseBytes, R.Promised;
    AtMiddle([], h, rs);
    assert [] + h + rs == h + rs;
    PacketHeaderAt(h + rs, 0, 0x8400, 0, n, 0, m);
    FirstOctets(n, m, rs);
  }

  lemma FirstOctets(n: u16, m: u16, rest: seq<byte>)
    ensures (PacketHeader(0, 0x8400, 0, n, 0, m) + rest)[..4] == [0, 0, 0x84, 0]
  {
  }

  /** Any other question is not answered. */
  lemma NoOtherReply(info: ServiceInfo, qtype: u16, ttls: R.Ttls, cap: u32)
    ensures R.ResponseBytes(info, qtype, ttls, cap) != [] ==>
            qtype == 1 || qtype == 12 || qtype == 16 || qtype == 28 || qtype == 33 || qtype == 255
  {
  }
}
