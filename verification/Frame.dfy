/** Resource records on the wire: appending them, walking a frame and parsing
    each one (detail/dns_write.h, detail/dns_frame.h and parse.h under
    lib/mdnspp/include/mdnspp). */
module Frame {
  import opened Bytes
  import opened Names
  import opened NameRoundTrip
  import opened Records
  import opened TxtCodec

  // ---------------------------------------------------------------- writing

  /** append_dns_rr: no bytes at all if the owner did not encode or the rdata is too long. */
  function RrWire(owner: seq<byte>, rtype: u16, flush: bool, ttl: u32, rdata: seq<byte>): seq<byte> {
    if owner == [] || |rdata| > 0xFFFF then []
    else owner + RrFields(rtype, flush, ttl, |rdata|) + rdata
  }

  function RrFields(rtype: u16, flush: bool, ttl: u32, rdlength: u16): (r: seq<byte>)
    ensures |r| == 10
  {
    U16(rtype) + U16(if flush then 0x8001 else 0x0001) + U32(ttl) + U16(rdlength)
  }

  function SrvRdata(priority: u16, weight: u16, port: u16, target: Name): seq<byte> {
    U16(priority) + U16(weight) + U16(port) + Encoded(target)
  }

  function Rdata(r: Record): seq<byte> {
    match r
    case Ptr(_, target) => Encoded(target)
    case Srv(_, priority, weight, port, target) => SrvRdata(priority, weight, port, target)
    case A(_, addr) => addr
    case Aaaa(_, addr) => addr
    case Txts(_, entries) => EncodedTxt(entries)
  }

  /** A record as the builders append it; an address that does not encode appends nothing. */
  function RecordWire(r: Record): seq<byte> {
    if (r.A? && |r.addr| != 4) || (r.Aaaa? && |r.addr| != 16) then []
    else RrWire(Encoded(r.hdr.name), TypeOf(r), r.hdr.flush, r.hdr.ttl, Rdata(r))
  }

  function WireAll(rs: seq<Record>): seq<byte> {
    if rs == [] then [] else RecordWire(rs[0]) + WireAll(rs[1..])
  }

  lemma WireNothing()
    ensures WireAll([]) == []
  {
  }

  lemma WireOne(r: Record)
    ensures WireAll([r]) == RecordWire(r)
  {
    hide RecordWire;
    assert WireAll([r]) == RecordWire(r) + WireAll([]);
  }

  lemma {:induction false} WireAllConcat(a: seq<Record>, b: seq<Record>)
    ensures WireAll(a + b) == WireAll(a) + WireAll(b)
  {
    hide RecordWire;
    if a == [] {
      assert a + b == b;
    } else {
      WireAllConcat(a[1..], b);
      assert (a + b)[0] == a[0] && (a + b)[1..] == a[1..] + b;
      Assoc(RecordWire(a[0]), WireAll(a[1..]), WireAll(b));
    }
  }

  function PacketHeader(id: u16, flags: u16, qdcount: u16, ancount: u16, nscount: u16, arcount: u16): (h: seq<byte>)
    ensures |h| == 12
  {
    U16(id) + U16(flags) + U16(qdcount) + U16(ancount) + U16(nscount) + U16(arcount)
  }

  lemma PacketHeaderAt(data: seq<byte>, id: u16, flags: u16, qdcount: u16, ancount: u16, nscount: u16, arcount: u16)
    requires At(data, 0, PacketHeader(id, flags, qdcount, ancount, nscount, arcount))
    ensures |data| >= 12
    ensures ReadU16(data, 0) == id && ReadU16(data, 2) == flags && ReadU16(data, 4) == qdcount
    ensures ReadU16(data, 6) == ancount && ReadU16(data, 8) == nscount && ReadU16(data, 10) == arcount
  {
    var a, b, c := U16(id), U16(flags), U16(qdcount);
    var d, e, f := U16(ancount), U16(nscount), U16(arcount);
    AtConcat(data, 0, a + b + c + d + e, f);
    AtConcat(data, 0, a + b + c + d, e);
    AtConcat(data, 0, a + b + c, d);
    AtConcat(data, 0, a + b, c);
    AtConcat(data, 0, a, b);
    ReadU16At(data, 0, id);
    ReadU16At(data, 2, flags);
    ReadU16At(data, 4, qdcount);
    ReadU16At(data, 6, ancount);
    ReadU16At(data, 8, nscount);
    ReadU16At(data, 10, arcount);
  }

  // ---------------------------------------------------------------- reading

  datatype View = View(nameOff: nat, rtype: u16, rclass: u16, ttl: u32, rdOff: nat, rdLen: nat)

  /** The fixed part of the resource record at `off`. */
  function ViewAt(data: seq<byte>, off: nat): (r: Option<View>)
    ensures r.Some? ==> off < r.value.rdOff && r.value.rdOff + r.value.rdLen <= |data|
  {
    var s := Skip(data, off);
    if !s.ok || s.next + 10 > |data| then None
    else
      var v := View(off, ReadU16(data, s.next), ReadU16(data, s.next + 2), ReadU32(data, s.next + 4),
                    s.next + 10, ReadU16(data, s.next + 8));
      if v.rdOff + v.rdLen > |data| then None else Some(v)
  }

  function HeaderOf(data: seq<byte>, v: View): Header {
    var owner := Decoded(data, v.nameOff);
    Header(Normalize(if owner.Some? then owner.value else []), v.ttl, v.rclass % 0x8000, v.rclass >= 0x8000)
  }

  /** parse::record; types other than A, PTR, TXT, AAAA and SRV do not parse. */
  function ParseRecord(data: seq<byte>, v: View): Option<Record>
    requires v.rdOff + v.rdLen <= |data|
  {
    if v.rtype == TYPE_A then
      if v.rdLen != 4 then None else Some(A(HeaderOf(data, v), data[v.rdOff..v.rdOff + 4]))
    else if v.rtype == TYPE_PTR then
      var target := Decoded(data, v.rdOff);
      if target.None? then None else Some(Ptr(HeaderOf(data, v), Normalize(target.value)))
    else if v.rtype == TYPE_TXT then
      Some(Txts(HeaderOf(data, v), DecodedTxt(data[v.rdOff..v.rdOff + v.rdLen])))
    else if v.rtype == TYPE_AAAA then
      if v.rdLen != 16 then None else Some(Aaaa(HeaderOf(data, v), data[v.rdOff..v.rdOff + 16]))
    else if v.rtype == TYPE_SRV then
      if v.rdLen < 7 then None else
      var target := Decoded(data, v.rdOff + 6);
      if target.None? then None else
      Some(Srv(HeaderOf(data, v), ReadU16(data, v.rdOff), ReadU16(data, v.rdOff + 2),
               ReadU16(data, v.rdOff + 4), Normalize(target.value)))
    else None
  }

  function Parsed(data: seq<byte>, v: View): seq<Record>
    requires v.rdOff + v.rdLen <= |data|
  {
    var r := ParseRecord(data, v);
    if r.Some? then [r.value] else []
  }

  /** The records delivered from `off` on when the header promises `n` more. */
  function WalkFrom(data: seq<byte>, off: nat, n: nat): seq<Record>
    decreases n
  {
    if n == 0 then [] else
    var v := ViewAt(data, off);
    if v.None? then []
    else Parsed(data, v.value) + WalkFrom(data, v.value.rdOff + v.value.rdLen, n - 1)
  }

  /** Where such a walk stops: behind the last record it could read. */
  function EndFrom(data: seq<byte>, off: nat, n: nat): nat
    decreases n
  {
    if n == 0 then off else
    var v := ViewAt(data, off);
    if v.None? then off else EndFrom(data, v.value.rdOff + v.value.rdLen, n - 1)
  }

  /** The types of the records such a walk reads, parsed or not. */
  function TypesFrom(data: seq<byte>, off: nat, n: nat): seq<u16>
    decreases n
  {
    if n == 0 then [] else
    var v := ViewAt(data, off);
    if v.None? then [] else [v.value.rtype] + TypesFrom(data, v.value.rdOff + v.value.rdLen, n - 1)
  }

  function SkipQuestions(data: seq<byte>, off: nat, n: nat): Option<nat>
    decreases n
  {
    if n == 0 then Some(off) else
    var s := Skip(data, off);
    if !s.ok || s.next + 4 > |data| then None else SkipQuestions(data, s.next + 4, n - 1)
  }

  function RrTotal(data: seq<byte>): nat
    requires |data| >= 12
  {
    ReadU16(data, 6) + ReadU16(data, 8) + ReadU16(data, 10)
  }

  function Walk(data: seq<byte>): seq<Record> {
    if |data| < 12 then [] else
    var start := SkipQuestions(data, 12, ReadU16(data, 4));
    if start.None? then [] else WalkFrom(data, start.value, RrTotal(data))
  }

  /** The offset at which the walk of a whole packet stops. */
  function WalkEnd(data: seq<byte>): nat
    requires |data| >= 12
  {
    var start := SkipQuestions(data, 12, ReadU16(data, 4));
    if start.None? then 12 else EndFrom(data, start.value, RrTotal(data))
  }

  function WalkTypes(data: seq<byte>): seq<u16> {
    if |data| < 12 then [] else
    var start := SkipQuestions(data, 12, ReadU16(data, 4));
    if start.None? then [] else TypesFrom(data, start.value, RrTotal(data))
  }

  method SkipQuestionSection(data: seq<byte>, qdcount: nat) returns (start: Option<nat>)
    requires |data| >= 12
    ensures start == SkipQuestions(data, 12, qdcount)
  {
    hide Skip;
    var offset: nat := 12;
    for i := 0 to qdcount
      invariant SkipQuestions(data, 12, qdcount) == SkipQuestions(data, offset, qdcount - i)
    {
      var ok;
      ok, offset := SkipDnsName(data, offset);
      if !ok {
        return None;
      }
      offset := offset + 4;
      if offset > |data| {
        return None;
      }
    }
    return Some(offset);
  }

  method ReadRrHeader(data: seq<byte>, start: nat) returns (v: Option<View>)
    ensures v == ViewAt(data, start)
  {
    hide Skip;
    var ok, offset := SkipDnsName(data, start);
    if !ok || offset + 10 > |data| {
      return None;
    }
    var rtype := ReadU16(data, offset);
    offset := offset + 2;
    var rclass := ReadU16(data, offset);
    offset := offset + 2;
    var ttl := ReadU32(data, offset);
    offset := offset + 4;
    var rdlength := ReadU16(data, offset);
    offset := offset + 2;
    if offset + rdlength > |data| {
      return None;
    }
    return Some(View(start, rtype, rclass, ttl, offset, rdlength));
  }

  method WalkDnsFrame(data: seq<byte>) returns (delivered: seq<Record>, ghost end: nat)
    ensures delivered == Walk(data)
    ensures |data| >= 12 ==> end == WalkEnd(data)
  {
    hide ParseRecord, ViewAt, SkipQuestions;
    delivered, end := [], 12;
    if |data| < 12 {
      return;
    }
    var start := SkipQuestionSection(data, ReadU16(data, 4));
    if start.None? {
      return;
    }
    var offset: nat := start.value;
    var rrTotal := RrTotal(data);
    assert Walk(data) == WalkFrom(data, offset, rrTotal);
    hide Walk;
    for rr := 0 to rrTotal
      invariant Walk(data) == delivered + WalkFrom(data, offset, rrTotal - rr)
      invariant WalkEnd(data) == EndFrom(data, offset, rrTotal - rr)
    {
      var v := ReadRrHeader(data, offset);
      if v.None? {
        return delivered, offset;
      }
      var result := ParseRecord(data, v.value);
      ghost var before := delivered;
      if result.Some? {
        delivered := delivered + [result.value];
      }
      assert delivered == before + Parsed(data, v.value);
      offset := v.value.rdOff + v.value.rdLen;
      Assoc(before, Parsed(data, v.value), WalkFrom(data, offset, rrTotal - rr - 1));
    }
    end := offset;
  }

  // ---------------------------------------------------------------- the layout, octet by octet

  /** A written record: its owner, type, class with the flush bit on top, TTL and length,
      each with its most significant octet first, and its data. */
  lemma RecordLayout(r: Record)
    requires Whole(r)
    ensures var t, len, ttl := TypeOf(r), |Rdata(r)|, r.hdr.ttl;
            RecordWire(r) ==
              Encoded(r.hdr.name)
              + [t / 256, t % 256, if r.hdr.flush then 0x80 else 0, 1,
                 ttl / 0x100_0000, ttl / 0x1_0000 % 256, ttl / 256 % 256, ttl % 256, len / 256, len % 256]
              + Rdata(r)
  {
    hide Encoded, Encodable, Clean, Normalize, IsNormalized, Rdata, RrFields, TypeOf;
    EncodedNonEmpty(r.hdr.name);
    FieldsLayout(TypeOf(r), r.hdr.flush, r.hdr.ttl, |Rdata(r)|);
  }

  lemma FieldsLayout(t: u16, flush: bool, ttl: u32, len: u16)
    ensures RrFields(t, flush, ttl, len)
         == [t / 256, t % 256, if flush then 0x80 else 0, 1,
             ttl / 0x100_0000, ttl / 0x1_0000 % 256, ttl / 256 % 256, ttl % 256, len / 256, len % 256]
  {
  }

  lemma EncodedNonEmpty(name: Name)
    requires Encodable(name)
    ensures Encoded(name) != []
  {
  }

  lemma RdataLayout(r: Record)
    ensures match r
            case Ptr(_, target) => Rdata(r) == Encoded(target)
            case Srv(_, p, w, port, target) =>
              Rdata(r) == [p / 256, p % 256, w / 256, w % 256, port / 256, port % 256] + Encoded(target)
            case A(_, addr) => Rdata(r) == addr
            case Aaaa(_, addr) => Rdata(r) == addr
            case Txts(_, entries) => Rdata(r) == EncodedTxt(entries)
  {
  }

  lemma HeaderLayout(id: u16, flags: u16, qd: u16, an: u16, ns: u16, ar: u16)
    ensures PacketHeader(id, flags, qd, an, ns, ar)
         == [id / 256, id % 256, flags / 256, flags % 256, qd / 256, qd % 256,
             an / 256, an % 256, ns / 256, ns % 256, ar / 256, ar % 256]
  {
  }

  /** Which records of any packet are delivered: addresses of the right size, PTR records
      with a name that can be read, SRV records with one behind their three numbers, and
      every TXT record. */
  lemma ParseIsExact(data: seq<byte>, v: View)
    requires v.rdOff + v.rdLen <= |data|
    ensures ParseRecord(data, v).Some? <==>
            || (v.rtype == 1 && v.rdLen == 4)
            || (v.rtype == 28 && v.rdLen == 16)
            || (v.rtype == 12 && Decoded(data, v.rdOff).Some?)
            || (v.rtype == 33 && v.rdLen >= 7 && Decoded(data, v.rdOff + 6).Some?)
            || v.rtype == 16
    ensures ParseRecord(data, v).Some? ==>
            var r, owner := ParseRecord(data, v).value, Decoded(data, v.nameOff);
            && TypeOf(r) == v.rtype && r.hdr.ttl == v.ttl
            && r.hdr.name == Normalize(if owner.Some? then owner.value else [])
            && (r.hdr.flush <==> v.rclass / 0x8000 == 1) && r.hdr.rclass == v.rclass % 0x8000
  {
    hide Decoded, Normalize, DecodedTxt;
  }

  // ---------------------------------------------------------------- round trip

  /** Names that survive the wire unchanged. */
  predicate WireName(name: Name) {
    IsNormalized(name) && Clean(name) && Encodable(name)
  }

  /** Records a builder writes completely. */
  predicate Whole(r: Record) {
    && WireName(r.hdr.name) && r.hdr.rclass == CLASS_IN && |Rdata(r)| <= 0xFFFF
    && match r
       case Ptr(_, target) => WireName(target)
       case Srv(_, _, _, _, target) => WireName(target)
       case A(_, addr) => |addr| == 4
       case Aaaa(_, addr) => |addr| == 16
       case Txts(_, _) => true
  }

  /** What arrives for a record that was written; only TXT entries can differ. */
  function Arriving(r: Record): Record {
    if r.Txts? then r.(entries := DecodedTxt(EncodedTxt(r.entries))) else r
  }

  function ArrivingAll(rs: seq<Record>): (a: seq<Record>)
    ensures |a| == |rs|
  {
    seq(|rs|, i requires 0 <= i < |rs| => Arriving(rs[i]))
  }

  lemma FieldsAt(data: seq<byte>, o: nat, rtype: u16, flush: bool, ttl: u32, rdlength: u16)
    requires At(data, o, RrFields(rtype, flush, ttl, rdlength))
    ensures o + 10 <= |data|
    ensures ReadU16(data, o) == rtype && ReadU16(data, o + 2) == (if flush then 0x8001 else 0x0001)
    ensures ReadU32(data, o + 4) == ttl && ReadU16(data, o + 8) == rdlength
  {
    var a, b, c, d := U16(rtype), U16(if flush then 0x8001 else 0x0001), U32(ttl), U16(rdlength);
    AtConcat(data, o, a + b + c, d);
    AtConcat(data, o, a + b, c);
    AtConcat(data, o, a, b);
    ReadU16At(data, o, rtype);
    ReadU16At(data, o + 2, if flush then 0x8001 else 0x0001);
    ReadU32At(data, o + 4, ttl);
    ReadU16At(data, o + 8, rdlength);
  }

  /** A written resource record is seen again with all its fields, in any surroundings. */
  lemma ViewInContext(data: seq<byte>, off: nat, name: Name, rtype: u16, flush: bool, ttl: u32, rdata: seq<byte>)
    requires WireName(name) && |rdata| <= 0xFFFF
    requires At(data, off, RrWire(Encoded(name), rtype, flush, ttl, rdata))
    ensures var rdOff := off + |Encoded(name)| + 10;
            && ViewAt(data, off) == Some(View(off, rtype, if flush then 0x8001 else 0x0001, ttl, rdOff, |rdata|))
            && At(data, rdOff, rdata)
            && off + |RrWire(Encoded(name), rtype, flush, ttl, rdata)| == rdOff + |rdata|
    ensures Decoded(data, off) == Some(name)
  {
    hide Decoded, Encoded, Encodable, Clean, Skip, RrFields, IsNormalized, Normalize;
    var owner, fields := Encoded(name), RrFields(rtype, flush, ttl, |rdata|);
    AtConcat(data, off, owner + fields, rdata);
    AtConcat(data, off, owner, fields);
    NormalizedRoundTrip(name, data, off);
    FieldsAt(data, off + |owner|, rtype, flush, ttl, |rdata|);
  }

  lemma SrvRdataAt(data: seq<byte>, o: nat, priority: u16, weight: u16, port: u16, target: Name)
    requires WireName(target) && At(data, o, SrvRdata(priority, weight, port, target))
    ensures o + 6 <= |data| && |SrvRdata(priority, weight, port, target)| >= 7
    ensures ReadU16(data, o) == priority && ReadU16(data, o + 2) == weight && ReadU16(data, o + 4) == port
    ensures Decoded(data, o + 6) == Some(target)
  {
    var a, b, c, d := U16(priority), U16(weight), U16(port), Encoded(target);
    AtConcat(data, o, a + b + c, d);
    AtConcat(data, o, a + b, c);
    AtConcat(data, o, a, b);
    ReadU16At(data, o, priority);
    ReadU16At(data, o + 2, weight);
    ReadU16At(data, o + 4, port);
    NormalizedRoundTrip(target, data, o + 6);
  }

  lemma ParseWritten(data: seq<byte>, v: View, r: Record)
    requires Whole(r) && v.rtype == TypeOf(r) && v.rdLen == |Rdata(r)| && At(data, v.rdOff, Rdata(r))
    requires HeaderOf(data, v) == r.hdr
    ensures ParseRecord(data, v) == Some(Arriving(r))
  {
    hide HeaderOf, Decoded, Encoded, Encodable, Clean, IsNormalized, DecodedTxt, Skip, Normalize;
    match r
    case Ptr(_, target) =>
      NormalizedRoundTrip(target, data, v.rdOff);
    case Srv(_, priority, weight, port, target) =>
      hide SrvRdata;
      SrvRdataAt(data, v.rdOff, priority, weight, port, target);
      NormalizeIsIdempotent(target);
    case A(_, _) =>
    case Aaaa(_, _) =>
    case Txts(_, _) =>
  }

  /** One record, written and read: it arrives, and the walk goes on right behind it. */
  lemma RecordRoundTrip(data: seq<byte>, off: nat, r: Record)
    requires Whole(r) && At(data, off, RecordWire(r))
    ensures ViewAt(data, off).Some?
    ensures var v := ViewAt(data, off).value;
            && ParseRecord(data, v) == Some(Arriving(r)) && v.rtype == TypeOf(r)
            && v.rdOff + v.rdLen == off + |RecordWire(r)|
  {
    hide Decoded, Encoded, Encodable, Clean, IsNormalized, ViewAt, Skip, Normalize, Rdata, RrWire;
    hide ParseRecord, Arriving;
    ViewInContext(data, off, r.hdr.name, TypeOf(r), r.hdr.flush, r.hdr.ttl, Rdata(r));
    NormalizeIsIdempotent(r.hdr.name);
    ParseWritten(data, ViewAt(data, off).value, r);
  }

  /** Every written record arrives, in order, whatever surrounds the records; a
      header count that is too high does no harm at the end of the packet. */
  lemma {:induction false} WalkWritten(data: seq<byte>, off: nat, rs: seq<Record>, n: nat)
    requires forall i :: 0 <= i < |rs| ==> Whole(rs[i])
    requires At(data, off, WireAll(rs))
    requires n == |rs| || (n > |rs| && off + |WireAll(rs)| == |data|)
    ensures WalkFrom(data, off, n) == ArrivingAll(rs)
    ensures TypesFrom(data, off, n) == Types(rs)
    ensures EndFrom(data, off, n) == off + |WireAll(rs)|
    decreases rs
  {
    hide RecordWire, Whole, Arriving, WalkFrom, TypesFrom, EndFrom;
    if rs == [] {
      WalkNothing(data, off, n);
    } else {
      var first, rest := rs[0], rs[1..];
      assert WireAll(rs) == RecordWire(first) + WireAll(rest);
      AtConcat(data, off, RecordWire(first), WireAll(rest));
      WalkStep(data, off, first, n);
      WalkWritten(data, off + |RecordWire(first)|, rest, n - 1);
      assert ArrivingAll(rs) == [Arriving(first)] + ArrivingAll(rest);
      assert Types(rs) == [TypeOf(first)] + Types(rest);
    }
  }

  lemma WalkNothing(data: seq<byte>, off: nat, n: nat)
    requires n == 0 || off == |data|
    ensures WalkFrom(data, off, n) == [] && TypesFrom(data, off, n) == [] && EndFrom(data, off, n) == off
  {
  }

  lemma WalkStep(data: seq<byte>, off: nat, r: Record, n: nat)
    requires Whole(r) && At(data, off, RecordWire(r)) && n > 0
    ensures var next := off + |RecordWire(r)|;
            && WalkFrom(data, off, n) == [Arriving(r)] + WalkFrom(data, next, n - 1)
            && TypesFrom(data, off, n) == [TypeOf(r)] + TypesFrom(data, next, n - 1)
            && EndFrom(data, off, n) == EndFrom(data, next, n - 1)
  {
    hide RecordWire, ParseRecord, Whole, Arriving, ViewAt, At;
    RecordRoundTrip(data, off, r);
  }

  /** A packet without questions is walked from behind its header. */
  lemma WalkWithoutQuestions(data: seq<byte>)
    requires |data| >= 12 && ReadU16(data, 4) == 0
    ensures Walk(data) == WalkFrom(data, 12, RrTotal(data)) && WalkTypes(data) == TypesFrom(data, 12, RrTotal(data))
    ensures WalkEnd(data) == EndFrom(data, 12, RrTotal(data))
  {
    hide WalkFrom, TypesFrom, EndFrom;
  }

  function Types(rs: seq<Record>): (ts: seq<u16>)
    ensures |ts| == |rs|
  {
    seq(|rs|, i requires 0 <= i < |rs| => TypeOf(rs[i]))
  }

  /** A walk may be cut in two wherever its first part is complete. */
  lemma {:induction false} WalkInTwo(data: seq<byte>, off: nat, n: nat, m: nat)
    requires |TypesFrom(data, off, n)| == n
    ensures var mid := EndFrom(data, off, n);
            && WalkFrom(data, off, n + m) == WalkFrom(data, off, n) + WalkFrom(data, mid, m)
            && TypesFrom(data, off, n + m) == TypesFrom(data, off, n) + TypesFrom(data, mid, m)
            && EndFrom(data, off, n + m) == EndFrom(data, mid, m)
    decreases n
  {
    hide ViewAt, ParseRecord;
    if n > 0 {
      var v := ViewAt(data, off).value;
      var next := v.rdOff + v.rdLen;
      WalkInTwo(data, next, n - 1, m);
      var mid := EndFrom(data, off, n);
      Assoc(Parsed(data, v), WalkFrom(data, next, n - 1), WalkFrom(data, mid, m));
      Assoc([v.rtype], TypesFrom(data, next, n - 1), TypesFrom(data, mid, m));
    }
  }
}
