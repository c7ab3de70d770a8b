/** The packet a pending reply turns into (detail/server_response_aggregation.h and
    detail/dns_write.h under lib/mdnspp/include/mdnspp): suppressed, answered, and
    with or without an NSEC record saying which types exist. */
module ReplyPackets {
  import opened Bytes
  import opened Names
  import opened NameRoundTrip
  import opened Records
  import opened TxtCodec
  import opened Frame
  import opened Response
  import opened KnownAnswerSuppression
  import opened PendingResponses

  // ---------------------------------------------------------------- the type bitmap

  /** The place value of a type's bit within its octet; the first bit is the highest. */
  function Weight(t: nat): nat {
    [128, 64, 32, 16, 8, 4, 2, 1][t % 8]
  }

  predicate Bit(bitmap: seq<byte>, t: nat) {
    t / 8 < |bitmap| && bitmap[t / 8] / Weight(t) % 2 == 1
  }

  function SetBit(bitmap: seq<byte>, t: nat): (r: seq<byte>)
    requires t / 8 < |bitmap|
    ensures |r| == |bitmap|
  {
    if Bit(bitmap, t) then bitmap else bitmap[t / 8 := (bitmap[t / 8] + Weight(t)) % 256]
  }

  /** The types an NSEC record asserts. */
  predicate Exists(info: ServiceInfo, t: nat) {
    t == 12 || t == 16 || t == 33 || (t == 1 && info.ipv4.Some?) || (t == 28 && info.ipv6.Some?)
  }

  function Bitmap(info: ServiceInfo): seq<byte> {
    [if info.ipv4.Some? then 0x40 else 0, 0x08, 0x80, if info.ipv6.Some? then 0x08 else 0, 0x40]
  }

  /** The bit of every type says whether the service has it. */
  lemma BitmapIsExact(info: ServiceInfo, t: nat)
    ensures Bit(Bitmap(info), t) <==> Exists(info, t)
  {
    if t < 40 {
      var q, r := t / 8, t % 8;
      assert t == 8 * q + r;
    }
  }

  method TrimZeros(bitmap: seq<byte>) returns (r: seq<byte>)
    ensures r <= bitmap && (r != [] ==> r[|r| - 1] != 0)
    ensures forall i :: |r| <= i < |bitmap| ==> bitmap[i] == 0
  {
    r := bitmap;
    while r != [] && r[|r| - 1] == 0
      invariant r <= bitmap && forall i :: |r| <= i < |bitmap| ==> bitmap[i] == 0
      decreases |r|
    {
      r := r[..|r| - 1];
    }
  }

  /** build_nsec_bitmap: one window block, without trailing zero octets. */
  method BuildNsecBitmap(info: ServiceInfo) returns (block: seq<byte>)
    ensures block == [0, 5] + Bitmap(info)
  {
    var bitmap: seq<byte> := [0, 0, 0, 0, 0];
    bitmap := SetBit(bitmap, TYPE_PTR);
    assert bitmap == [0, 8, 0, 0, 0];
    bitmap := SetBit(bitmap, TYPE_TXT);
    assert bitmap == [0, 8, 128, 0, 0];
    bitmap := SetBit(bitmap, TYPE_SRV);
    assert bitmap == [0, 8, 128, 0, 64];
    if info.ipv4.Some? {
      bitmap := SetBit(bitmap, TYPE_A);
    }
    assert bitmap == [if info.ipv4.Some? then 64 else 0, 8, 128, 0, 64];
    if info.ipv6.Some? {
      bitmap := SetBit(bitmap, TYPE_AAAA);
    }
    assert bitmap == Bitmap(info) && bitmap[4] == 64;
    bitmap := TrimZeros(bitmap);
    assert bitmap == Bitmap(info);
    block := [0];
    block := block + [|bitmap|];
    block := block + bitmap;
  }

  // ---------------------------------------------------------------- the packet

  /** The NSEC record: the owner is its own successor. */
  function NsecWire(info: ServiceInfo, ttl: u32): seq<byte> {
    var owner := Encoded(info.hostname);
    RrWire(owner, TYPE_NSEC, false, ttl, owner + ([0, 5] + Bitmap(info)))
  }

  predicate Suppressed(p: Pending, suppress: bool) {
    suppress && p.qtype != TYPE_ANY && Has(p.mask, p.qtype)
  }

  predicate SendsNsec(p: Pending, suppress: bool, info: ServiceInfo) {
    !Suppressed(p, suppress) && p.needsNsec && p.qtype != TYPE_ANY && Encodable(info.hostname)
  }

  function Sections(info: ServiceInfo, qtype: u16, ttls: Ttls, cap: u32): seq<Record> {
    if Responds(info, qtype) then Promised(info, qtype, ttls, cap) else []
  }

  /** The records that go out, apart from NSEC. */
  function Sent(info: ServiceInfo, p: Pending, suppress: bool, ttls: Ttls, cap: u32): seq<Record> {
    if Suppressed(p, suppress) then [] else Sections(info, p.qtype, ttls, cap)
  }

  function ReplyHeader(info: ServiceInfo, qtype: u16, ttls: Ttls, cap: u32, extra: nat): seq<byte>
    requires extra <= 1
  {
    if Responds(info, qtype) then
      PacketHeader(0, 0x8400, 0, |Answers(info, qtype, ttls, cap)|, 0, |Additional(info, qtype, ttls, cap)| + extra)
    else PacketHeader(0, 0x8400, 0, 0, 0, extra)
  }

  function ReplyBytes(info: ServiceInfo, p: Pending, suppress: bool, ttls: Ttls, cap: u32, nsecTtl: u32): seq<byte> {
    if Suppressed(p, suppress) then []
    else if SendsNsec(p, suppress, info) then
      ReplyHeader(info, p.qtype, ttls, cap, 1) + WireAll(Sections(info, p.qtype, ttls, cap)) + NsecWire(info, nsecTtl)
    else ResponseBytes(info, p.qtype, ttls, cap)
  }

  function WithArcount(p: seq<byte>, arcount: u16): (r: seq<byte>)
    requires |p| >= 12
    ensures |r| == |p|
  {
    var hi: seq<byte> := p[10 := Hi(arcount)];
    hi[11 := Lo(arcount)]
  }

  /** Raising the additional count by one leaves everything else as it is. */
  lemma PatchArcount(ancount: u16, arcount: u16, rest: seq<byte>)
    requires arcount < 0xFFFF
    ensures var p := PacketHeader(0, 0x8400, 0, ancount, 0, arcount) + rest;
            && |p| >= 12 && ReadU16(p, 10) == arcount
            && WithArcount(p, arcount + 1) == PacketHeader(0, 0x8400, 0, ancount, 0, arcount + 1) + rest
  {
    var h := PacketHeader(0, 0x8400, 0, ancount, 0, arcount);
    assert [] + h + rest == h + rest;
    AtMiddle([], h, rest);
    PacketHeaderAt(h + rest, 0, 0x8400, 0, ancount, 0, arcount);
    assert WithArcount(h, arcount + 1) == PacketHeader(0, 0x8400, 0, ancount, 0, arcount + 1);
    assert WithArcount(h + rest, arcount + 1) == WithArcount(h, arcount + 1) + rest;
  }

  method BuildResponseWithNsec(info: ServiceInfo, p: Pending, suppress: bool, ttls: Ttls, cap: u32, nsecTtl: u32)
    returns (response: seq<byte>)
    ensures response == ReplyBytes(info, p, suppress, ttls, cap, nsecTtl)
  {
    hide Has, WireAll, Promised, PacketHeader, RrWire, Bitmap, Encodable, Answers, Additional;
    if suppress && p.qtype != TYPE_ANY {
      if Has(p.mask, p.qtype) {
        return [];
      }
    }
    response := BuildDnsResponse(info, p.qtype, ttls, cap);
    if p.needsNsec && p.qtype != TYPE_ANY {
      var owner := EncodeDnsName(info.hostname);
      if owner == [] {
        return;
      }
      var bitmap := BuildNsecBitmap(info);
      var nsec := RrWire(owner, TYPE_NSEC, false, nsecTtl, owner + bitmap);
      if response == [] {
        NoResponse(info, p.qtype, ttls, cap);
        response := PacketHeader(0, 0x8400, 0, 0, 0, 1);
        assert response + WireAll([]) == response by { WireNothing(); }
        response := response + nsec;
      } else {
        ResponseParts(info, p.qtype, ttls, cap);
        ghost var n, m := |Answers(info, p.qtype, ttls, cap)|, |Additional(info, p.qtype, ttls, cap)|;
        PatchArcount(n, m, WireAll(Promised(info, p.qtype, ttls, cap)) + nsec);
        Assoc(PacketHeader(0, 0x8400, 0, n, 0, m), WireAll(Promised(info, p.qtype, ttls, cap)), nsec);
        Assoc(PacketHeader(0, 0x8400, 0, n, 0, m + 1), WireAll(Promised(info, p.qtype, ttls, cap)), nsec);
        response := response + nsec;
        var arcount := ReadU16(response, 10);
        response := WithArcount(response, (arcount + 1) % 0x1_0000);
      }
    }
  }

  lemma NoResponse(info: ServiceInfo, qtype: u16, ttls: Ttls, cap: u32)
    requires ResponseBytes(info, qtype, ttls, cap) == []
    ensures !Responds(info, qtype)
  {
    hide Responds, WireAll, Promised, Answers, Additional;
  }

  lemma ResponseParts(info: ServiceInfo, qtype: u16, ttls: Ttls, cap: u32)
    requires ResponseBytes(info, qtype, ttls, cap) != []
    ensures Responds(info, qtype)
    ensures ResponseBytes(info, qtype, ttls, cap)
         == PacketHeader(0, 0x8400, 0, |Answers(info, qtype, ttls, cap)|, 0, |Additional(info, qtype, ttls, cap)|)
            + WireAll(Promised(info, qtype, ttls, cap))
  {
  }

  // ---------------------------------------------------------------- at the receiver

  /** An NSEC record is walked over and delivers nothing. */
  lemma NsecStep(data: seq<byte>, off: nat, info: ServiceInfo, ttl: u32, n: nat)
    requires WireName(info.hostname) && At(data, off, NsecWire(info, ttl)) && n > 0
    ensures var next := off + |NsecWire(info, ttl)|;
            && WalkFrom(data, off, n) == WalkFrom(data, next, n - 1)
            && TypesFrom(data, off, n) == [TYPE_NSEC] + TypesFrom(data, next, n - 1)
            && EndFrom(data, off, n) == EndFrom(data, next, n - 1)
  {
    hide ViewAt, NsecWire, At, WireName, ParseRecord;
    NsecView(data, off, info, ttl);
    var v, next := ViewAt(data, off).value, off + |NsecWire(info, ttl)|;
    assert Parsed(data, v) == [] by { NsecIsNotParsed(data, v); }
    assert [] + WalkFrom(data, next, n - 1) == WalkFrom(data, next, n - 1);
  }

  lemma NsecIsNotParsed(data: seq<byte>, v: View)
    requires v.rtype == TYPE_NSEC && v.rdOff + v.rdLen <= |data|
    ensures ParseRecord(data, v) == None
  {
  }

  lemma NsecView(data: seq<byte>, off: nat, info: ServiceInfo, ttl: u32)
    requires WireName(info.hostname) && At(data, off, NsecWire(info, ttl))
    ensures ViewAt(data, off).Some?
    ensures var v := ViewAt(data, off).value;
            v.rtype == TYPE_NSEC && v.rdOff + v.rdLen == off + |NsecWire(info, ttl)|
  {
    var owner := Encoded(info.hostname);
    assert |owner| <= 255;
    hide ViewAt, RrWire, Encodable, Encoded, Decoded, Bitmap, Clean, IsNormalized;
    var rdata := owner + ([0, 5] + Bitmap(info));
    assert |rdata| <= 0xFFFF by { BitmapSize(info); }
    ViewInContext(data, off, info.hostname, TYPE_NSEC, false, ttl, rdata);
  }

  lemma BitmapSize(info: ServiceInfo)
    ensures |Bitmap(info)| == 5
  {
  }

  /** Written records followed by an NSEC record, under a count that is not too low. */
  lemma WalkWithNsec(data: seq<byte>, off: nat, rs: seq<Record>, info: ServiceInfo, ttl: u32, n: nat)
    requires WireName(info.hostname) && forall i :: 0 <= i < |rs| ==> Whole(rs[i])
    requires At(data, off, WireAll(rs) + NsecWire(info, ttl)) && off + |WireAll(rs) + NsecWire(info, ttl)| == |data|
    requires n > |rs|
    ensures WalkFrom(data, off, n) == ArrivingAll(rs) && TypesFrom(data, off, n) == Types(rs) + [TYPE_NSEC]
    ensures EndFrom(data, off, n) == |data|
  {
    hide WalkFrom, TypesFrom, EndFrom, WireAll, Whole, NsecWire, At, WireName, Arriving;
    var k, mid := |rs|, off + |WireAll(rs)|;
    AtConcat(data, off, WireAll(rs), NsecWire(info, ttl));
    WalkWritten(data, off, rs, k);
    WalkInTwo(data, off, k, n - k);
    NsecStep(data, mid, info, ttl, n - k);
    WalkNothing(data, |data|, n - k - 1);
    assert [TYPE_NSEC] + [] == [TYPE_NSEC];
    assert ArrivingAll(rs) + [] == ArrivingAll(rs);
  }

  /** The NSEC record as a receiver reads it: owned by the host, without the flush bit, its
      own successor, and one block of five octets whose bits are the types that exist. */
  lemma NsecMeans(data: seq<byte>, off: nat, info: ServiceInfo, ttl: u32, t: nat)
    requires WireName(info.hostname) && At(data, off, NsecWire(info, ttl))
    ensures ViewAt(data, off).Some? && Decoded(data, off) == Some(info.hostname)
    ensures var v := ViewAt(data, off).value;
            var block := v.rdOff + |Encoded(info.hostname)|;
            && v.rtype == 47 && v.rclass == 1 && v.ttl == ttl
            && Decoded(data, v.rdOff) == Some(info.hostname)
            && v.rdOff + v.rdLen == block + 7 && data[block] == 0 && data[block + 1] == 5
            && (Bit(data[block + 2..block + 7], t) <==>
                  t == 12 || t == 16 || t == 33 || (t == 1 && info.ipv4.Some?) || (t == 28 && info.ipv6.Some?))
  {
    hide ViewAt, RrWire, Encodable, Encoded, Decoded, Bitmap, Clean, IsNormalized, Bit, Normalize, At;
    var owner := Encoded(info.hostname);
    var bits := [0, 5] + Bitmap(info);
    assert |owner + bits| <= 0xFFFF by { OwnerSize(info); }
    ViewInContext(data, off, info.hostname, TYPE_NSEC, false, ttl, owner + bits);
    var v := ViewAt(data, off).value;
    AtConcat(data, v.rdOff, owner, bits);
    NormalizedRoundTrip(info.hostname, data, v.rdOff);
    BlockAt(data, v.rdOff + |owner|, info, t);
    BitmapSize(info);
  }

  lemma BlockAt(data: seq<byte>, block: nat, info: ServiceInfo, t: nat)
    requires At(data, block, [0, 5] + Bitmap(info))
    ensures block + 7 <= |data| && data[block] == 0 && data[block + 1] == 5
    ensures Bit(data[block + 2..block + 7], t) <==>
            t == 12 || t == 16 || t == 33 || (t == 1 && info.ipv4.Some?) || (t == 28 && info.ipv6.Some?)
  {
    hide Bit, Bitmap;
    AtConcat(data, block, [0, 5], Bitmap(info));
    AtCons(data, block, 0, [5]);
    assert [0] + [5] == [0, 5];
    BitmapIsExact(info, t);
    BitmapSize(info);
    assert data[block..block + 2][1] == 5;
  }

  lemma OwnerSize(info: ServiceInfo)
    requires Encodable(info.hostname)
    ensures |Encoded(info.hostname) + ([0, 5] + Bitmap(info))| <= 0xFFFF
  {
  }

  /** What arrives of a reply: the records sent that fit, in order, to the last octet of
      the packet, and an NSEC record exactly if one is due. */
  lemma ReplyDelivers(info: ServiceInfo, p: Pending, suppress: bool, ttls: Ttls, cap: u32, nsecTtl: u32)
    requires WireInfo(info)
    ensures var packet := ReplyBytes(info, p, suppress, ttls, cap, nsecTtl);
            var silent := suppress && p.qtype != 255 && Has(p.mask, p.qtype);
            var fit := if silent then [] else Fitting(Sections(info, p.qtype, ttls, cap));
            && Walk(packet) == ArrivingAll(fit)
            && WalkTypes(packet) == Types(fit) + (if !silent && p.needsNsec && p.qtype != 255 then [47] else [])
            && (silent ==> packet == [])
            && (packet != [] ==> |packet| >= 12 && WalkEnd(packet) == |packet|)
  {
    hide Walk, WalkTypes, WalkEnd, ResponseBytes, Responds, Promised, Fitting, Arriving, Has, NsecWire, Encodable;
    hide WireInfo, ReplyHeader, WireAll;
    HostEncodes(info);
    assert Fitting([]) == [] && ArrivingAll([]) == [] && Types([]) == [] by { NothingFits(); }
    assert Walk([]) == [] && WalkTypes([]) == [] by { NothingWalks(); }
    if SendsNsec(p, suppress, info) {
      NsecReplyDelivers(info, p, suppress, ttls, cap, nsecTtl);
    } else if !Suppressed(p, suppress) {
      ResponseRoundTrip(info, p.qtype, ttls, cap);
      var fit := Fitting(Sent(info, p, suppress, ttls, cap));
      assert Types(fit) + [] == Types(fit);
    }
  }

  lemma HostEncodes(info: ServiceInfo)
    requires WireInfo(info)
    ensures Encodable(info.hostname)
  {
  }

  lemma NothingFits()
    ensures Fitting([]) == [] && ArrivingAll([]) == [] && Types([]) == []
  {
  }

  lemma NothingWalks()
    ensures Walk([]) == [] && WalkTypes([]) == []
  {
  }

  lemma NsecReplyDelivers(info: ServiceInfo, p: Pending, suppress: bool, ttls: Ttls, cap: u32, nsecTtl: u32)
    requires WireInfo(info) && SendsNsec(p, suppress, info)
    ensures var packet := ReplyBytes(info, p, suppress, ttls, cap, nsecTtl);
            var fit := Fitting(Sent(info, p, suppress, ttls, cap));
            && Walk(packet) == ArrivingAll(fit) && WalkTypes(packet) == Types(fit) + [TYPE_NSEC]
            && |packet| >= 12 && WalkEnd(packet) == |packet|
  {
    hide Walk, WalkFrom, WalkTypes, TypesFrom, WalkEnd, EndFrom, Responds, Promised, Arriving, Has, NsecWire, Encodable;
    hide WireAll, PacketHeader, Answers, Additional, Whole, Fitting, WireName;
    var rs := Sections(info, p.qtype, ttls, cap);
    var h, body := ReplyHeader(info, p.qtype, ttls, cap, 1), WireAll(rs) + NsecWire(info, nsecTtl);
    var packet := h + body;
    Assoc(h, WireAll(rs), NsecWire(info, nsecTtl));
    AtMiddle([], h, body);
    assert [] + h + body == packet;
    AtMiddle(h, body, []);
    assert h + body + [] == packet;
    SectionsFit(info, p.qtype, ttls, cap);
    HeaderCounts(packet, info, p.qtype, ttls, cap);
    WalkWithNsec(packet, 12, Fitting(rs), info, nsecTtl, RrTotal(packet));
    WalkWithoutQuestions(packet);
  }

  lemma HeaderCounts(packet: seq<byte>, info: ServiceInfo, qtype: u16, ttls: Ttls, cap: u32)
    requires At(packet, 0, ReplyHeader(info, qtype, ttls, cap, 1))
    ensures |packet| >= 12 && ReadU16(packet, 4) == 0 && |ReplyHeader(info, qtype, ttls, cap, 1)| == 12
    ensures RrTotal(packet) == |Sections(info, qtype, ttls, cap)| + 1
  {
    hide PacketHeader, Answers, Additional, Responds, At;
    if Responds(info, qtype) {
      var n, m := |Answers(info, qtype, ttls, cap)|, |Additional(info, qtype, ttls, cap)|;
      PacketHeaderAt(packet, 0, 0x8400, 0, n, 0, m + 1);
    } else {
      PacketHeaderAt(packet, 0, 0x8400, 0, 0, 0, 1);
    }
  }

  lemma SectionsFit(info: ServiceInfo, qtype: u16, ttls: Ttls, cap: u32)
    requires WireInfo(info)
    ensures var rs := Sections(info, qtype, ttls, cap);
            && WireAll(Fitting(rs)) == WireAll(rs) && |Fitting(rs)| <= |rs|
            && forall i :: 0 <= i < |Fitting(rs)| ==> Whole(Fitting(rs)[i])
  {
    hide WireAll, Whole, Promised, Responds, Capped;
    FittingWire(Sections(info, qtype, ttls, cap));
    PromisedShape(info, qtype, ttls, cap);
  }

  // ---------------------------------------------------------------- merged queries

  /** An NSEC record arrives exactly if some merged query asked for one, all ask for one
      and the same type other than ANY, and do not all know its answer: escalation to ANY
      drops it. */
  lemma NsecIsExact(info: ServiceInfo, p: Pending, qs: set<Ask>, suppress: bool, ttls: Ttls, cap: u32, nsecTtl: u32)
    requires WireInfo(info) && qs != {} && Joins(p, qs)
    ensures TYPE_NSEC in WalkTypes(ReplyBytes(info, p, suppress, ttls, cap, nsecTtl)) <==>
            && (exists q :: q in qs && q.needsNsec)
            && exists t :: && t != TYPE_ANY && AllOfType(qs, t)
                           && !(suppress && t in RECORD_TYPES && forall q :: q in qs ==> Has(q.mask, t))
  {
    hide Has, WireInfo, ReplyBytes, WalkTypes, SendsNsec, Joins, AllOfType;
    NsecArrives(info, p, suppress, ttls, cap, nsecTtl);
    NsecGuard(info, p, qs, suppress);
  }

  lemma NsecArrives(info: ServiceInfo, p: Pending, suppress: bool, ttls: Ttls, cap: u32, nsecTtl: u32)
    requires WireInfo(info)
    ensures TYPE_NSEC in WalkTypes(ReplyBytes(info, p, suppress, ttls, cap, nsecTtl)) <==> SendsNsec(p, suppress, info)
  {
    hide Has, WireInfo, ReplyBytes, WalkTypes, Walk, WalkEnd, Sections, Fitting, Encodable;
    HostEncodes(info);
    ReplyDelivers(info, p, suppress, ttls, cap, nsecTtl);
    var fit := if Suppressed(p, suppress) then [] else Fitting(Sections(info, p.qtype, ttls, cap));
    assert forall i :: 0 <= i < |fit| ==> Types(fit)[i] != TYPE_NSEC;
    hide Types;
  }

  lemma NsecGuard(info: ServiceInfo, p: Pending, qs: set<Ask>, suppress: bool)
    requires WireInfo(info) && qs != {} && Joins(p, qs)
    ensures SendsNsec(p, suppress, info) <==>
            && (exists q :: q in qs && q.needsNsec)
            && exists t :: && t != TYPE_ANY && AllOfType(qs, t)
                           && !(suppress && t in RECORD_TYPES && forall q :: q in qs ==> Has(q.mask, t))
  {
    var t := p.qtype;
    assert t !in RECORD_TYPES ==> !Has(p.mask, t);
    assert Encodable(info.hostname);
    hide Has, Encodable, WireInfo;
    if t != TYPE_ANY {
      assert AllOfType(qs, t);
    }
  }

  /** The answers a query would get on its own. */
  function Alone(info: ServiceInfo, q: Ask, suppress: bool, ttls: Ttls, cap: u32): seq<Record> {
    if (suppress && q.qtype != TYPE_ANY && Has(q.mask, q.qtype)) || !Responds(info, q.qtype) then []
    else Answers(info, q.qtype, ttls, cap)
  }

  /** Known answers included, the merged reply carries every answer a merged query would
      have got on its own, if and only if it is not ANY in place of an unsuppressed TXT
      question about a service without TXT data. */
  lemma MergedReplyCovers(info: ServiceInfo, p: Pending, qs: set<Ask>, q: Ask, suppress: bool, ttls: Ttls, cap: u32)
    requires WireInfo(info) && Joins(p, qs) && q in qs
    ensures (forall r :: r in Alone(info, q, suppress, ttls, cap) ==> r in Sent(info, p, suppress, ttls, cap))
       <==> !(&& q.qtype == TYPE_TXT && p.qtype == TYPE_ANY && EncodedTxt(info.txt) == []
              && !(suppress && Has(q.mask, TYPE_TXT)))
  {
    if p.qtype == TYPE_ANY {
      AnyResponds(info);
      hide EncodedTxt, Has, Responds, WireInfo;
      assert forall r :: r in Answers(info, TYPE_ANY, ttls, cap) ==> r in Promised(info, TYPE_ANY, ttls, cap);
      if q.qtype == TYPE_TXT && EncodedTxt(info.txt) == [] {
        NoTxtInAny(info, ttls, cap);
        assert TxtRecord(info, ttls, cap) in Answers(info, TYPE_TXT, ttls, cap);
        hide Answers, Promised, TxtRecord;
        assert (suppress && Has(q.mask, TYPE_TXT)) || TxtRecord(info, ttls, cap) in Alone(info, q, suppress, ttls, cap);
      } else {
        AnyCovers(info, q.qtype, ttls, cap);
        hide Answers, Promised;
      }
    } else {
      SameSuppression(p, qs, q);
      hide EncodedTxt, Has, Answers, Additional, Responds;
    }
  }

  /** A TXT and an SRV question about a service without TXT data: merged, the TXT record
      that the first would have got is gone. */
  lemma EscalationLosesTxt(info: ServiceInfo, suppress: bool, ttls: Ttls, cap: u32)
    requires WireInfo(info) && info.txt == []
    ensures var q := Ask(TYPE_TXT, false, NO_MASK);
            var p := MergeAll([q, Ask(TYPE_SRV, false, NO_MASK)]);
            && p.qtype == TYPE_ANY && TxtRecord(info, ttls, cap) in Alone(info, q, suppress, ttls, cap)
            && TxtRecord(info, ttls, cap) !in Sent(info, p, suppress, ttls, cap)
  {
    var q, q' := Ask(TYPE_TXT, false, NO_MASK), Ask(TYPE_SRV, false, NO_MASK);
    MergeOfTwo(q, q');
    AnyResponds(info);
    NoTxtInAny(info, ttls, cap);
    hide MergeAll, Responds, Capped, TxtRecord, Promised, Has, WireInfo;
    assert TxtRecord(info, ttls, cap).Txts? && !Has(NO_MASK, TYPE_TXT) by { TxtIsTxt(info, ttls, cap); }
  }

  lemma TxtIsTxt(info: ServiceInfo, ttls: Ttls, cap: u32)
    ensures TxtRecord(info, ttls, cap).Txts? && !Has(NO_MASK, TYPE_TXT)
  {
  }

  lemma MergeOfTwo(q: Ask, q': Ask)
    ensures MergeAll([q, q']) == Merge(Merge(EMPTY, q), q') && MergeAll([q]) == Merge(EMPTY, q)
  {
    hide Merge;
    var one, two := [q], [q, q'];
    assert two[..1] == one && one[..0] == [];
    assert MergeAll(one) == Merge(MergeAll(one[..0]), one[0]);
    assert MergeAll(two) == Merge(MergeAll(two[..1]), two[1]);
  }

  /** A question for a missing address alone is answered with an NSEC record; merged with
      an SRV question it is not. */
  lemma EscalationLosesNsec(info: ServiceInfo, suppress: bool, ttls: Ttls, cap: u32, nsecTtl: u32)
    requires WireInfo(info)
    ensures var q := Ask(TYPE_A, true, NO_MASK);
            var p, p' := MergeAll([q]), MergeAll([q, Ask(TYPE_SRV, false, NO_MASK)]);
            && p'.needsNsec
            && TYPE_NSEC in WalkTypes(ReplyBytes(info, p, suppress, ttls, cap, nsecTtl))
            && TYPE_NSEC !in WalkTypes(ReplyBytes(info, p', suppress, ttls, cap, nsecTtl))
  {
    var q, q' := Ask(TYPE_A, true, NO_MASK), Ask(TYPE_SRV, false, NO_MASK);
    MergeOfTwo(q, q');
    hide MergeAll, ReplyBytes, WalkTypes;
    NsecArrives(info, MergeAll([q]), suppress, ttls, cap, nsecTtl);
    NsecArrives(info, MergeAll([q, q']), suppress, ttls, cap, nsecTtl);
  }

  lemma SameSuppression(p: Pending, qs: set<Ask>, q: Ask)
    requires Joins(p, qs) && q in qs && p.qtype != TYPE_ANY
    ensures q.qtype == p.qtype && (Has(p.mask, p.qtype) ==> Has(q.mask, q.qtype))
  {
    assert p.qtype !in RECORD_TYPES ==> !Has(p.mask, p.qtype);
    hide Has;
  }

  lemma AnyResponds(info: ServiceInfo)
    requires WireInfo(info)
    ensures Responds(info, TYPE_ANY) && Responds(info, TYPE_TXT)
  {
  }

  lemma AnyCovers(info: ServiceInfo, t: u16, ttls: Ttls, cap: u32)
    requires !(t == TYPE_TXT && EncodedTxt(info.txt) == [])
    ensures forall r :: r in Answers(info, t, ttls, cap) ==> r in Answers(info, TYPE_ANY, ttls, cap)
  {
  }

  lemma NoTxtInAny(info: ServiceInfo, ttls: Ttls, cap: u32)
    requires EncodedTxt(info.txt) == []
    ensures forall r :: r in Promised(info, TYPE_ANY, ttls, cap) ==> !r.Txts?
  {
  }
}
