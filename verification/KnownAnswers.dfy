/** The responder's reading of a query: which questions concern it
    (detail/server_query_match.h) and which of its records the querier already
    knows (detail/server_known_answer.h), both under lib/mdnspp/include/mdnspp. */
module KnownAnswerSuppression {
  import opened Bytes
  import opened Names
  import opened NameRoundTrip
  import opened Records
  import opened Frame
  import opened Query

  // "_services._dns-sd._udp.local."
  const META_NAME: Name :=
    [95, 115, 101, 114, 118, 105, 99, 101, 115, 46, 95, 100, 110, 115, 45, 115, 100, 46,
     95, 117, 100, 112, 46, 108, 111, 99, 97, 108, 46]
  // "._sub."
  const SUB_INFIX: Name := [46, 95, 115, 117, 98, 46]

  // ---------------------------------------------------------------- questions

  /** `multicast` is false while every matched question has asked for a unicast reply. */
  datatype Match = Match(qtype: u16, multicast: bool, matched: bool, needsNsec: bool,
                         meta: bool, subtype: Name, offset: nat)

  const NO_MATCH := Match(0, false, false, false, false, [], 0)

  function FindSubtype(subs: seq<Name>, serviceType: Name, qname: Name): Name {
    if subs == [] then []
    else if Normalize(subs[0] + SUB_INFIX + serviceType) == qname then subs[0]
    else FindSubtype(subs[1..], serviceType, qname)
  }

  predicate HasRecordType(qtype: u16, info: ServiceInfo) {
    if qtype == TYPE_A then info.ipv4.Some?
    else if qtype == TYPE_AAAA then info.ipv6.Some?
    else qtype in {TYPE_PTR, TYPE_SRV, TYPE_TXT, TYPE_ANY}
  }

  datatype Kind = MetaQuestion | SubtypeQuestion(sub: Name) | ServiceQuestion | Foreign

  /** What a question of this type for this (decoded) name is about. */
  function Classify(info: ServiceInfo, respondToMeta: bool, qname: Option<Name>, qtype: u16): Kind {
    if qname.None? then Foreign
    else if respondToMeta && qtype == TYPE_PTR && qname.value == META_NAME then MetaQuestion
    else if qtype == TYPE_PTR && FindSubtype(info.subtypes, info.serviceType, qname.value) != [] then
      SubtypeQuestion(FindSubtype(info.subtypes, info.serviceType, qname.value))
    else if qname.value == info.serviceType || qname.value == info.serviceName || qname.value == info.hostname then
      ServiceQuestion
    else Foreign
  }

  function Ascii(s: string): seq<int> { seq(|s|, i requires 0 <= i < |s| => s[i] as int) }

  /** The configured subtype a question is for: the first that matches. */
  ghost predicate AsksForSubtype(info: ServiceInfo, qname: Name, k: int) {
    && 0 <= k < |info.subtypes|
    && qname == Normalize(info.subtypes[k] + Ascii("._sub.") + info.serviceType)
    && forall j :: 0 <= j < k ==> qname != Normalize(info.subtypes[j] + Ascii("._sub.") + info.serviceType)
  }

  /** What a question is about: the enumeration of all types, if that is answered; else a
      non-empty subtype; else the service under one of its three names. */
  lemma KindIsExact(info: ServiceInfo, respondToMeta: bool, qname: Name, qtype: u16)
    ensures var kind := Classify(info, respondToMeta, Some(qname), qtype);
            var meta := respondToMeta && qtype == 12 && qname == Ascii("_services._dns-sd._udp.local.");
            && (kind == MetaQuestion <==> meta)
            && (forall sub :: kind == SubtypeQuestion(sub) <==>
                  !meta && qtype == 12 && sub != []
                  && exists k :: AsksForSubtype(info, qname, k) && info.subtypes[k] == sub)
            && (kind == ServiceQuestion <==>
                  !meta && !kind.SubtypeQuestion?
                  && (qname == info.serviceType || qname == info.serviceName || qname == info.hostname))
  {
    hide Normalize, FindSubtype, AsksForSubtype;
    assert META_NAME == Ascii("_services._dns-sd._udp.local.");
    SubtypeIsFirst(info, qname);
  }

  lemma SubtypeIsFirst(info: ServiceInfo, qname: Name)
    ensures var sub := FindSubtype(info.subtypes, info.serviceType, qname);
            && (sub != [] ==> exists k :: AsksForSubtype(info, qname, k) && info.subtypes[k] == sub)
            && forall k :: AsksForSubtype(info, qname, k) ==> info.subtypes[k] == sub
  {
    hide Normalize;
    assert SUB_INFIX == Ascii("._sub.");
    FirstMatch(info.subtypes, info.serviceType, qname);
  }

  lemma {:induction false} FirstMatch(subs: seq<Name>, serviceType: Name, qname: Name)
    ensures (FindSubtype(subs, serviceType, qname) == []
             && forall j :: 0 <= j < |subs| ==> qname != Normalize(subs[j] + SUB_INFIX + serviceType))
         || exists k :: && 0 <= k < |subs| && FindSubtype(subs, serviceType, qname) == subs[k]
                        && qname == Normalize(subs[k] + SUB_INFIX + serviceType)
                        && forall j :: 0 <= j < k ==> qname != Normalize(subs[j] + SUB_INFIX + serviceType)
  {
    hide Normalize;
    if subs != [] && Normalize(subs[0] + SUB_INFIX + serviceType) != qname {
      FirstMatch(subs[1..], serviceType, qname);
      if k :| && 0 <= k < |subs[1..]| && FindSubtype(subs[1..], serviceType, qname) == subs[1..][k]
              && qname == Normalize(subs[1..][k] + SUB_INFIX + serviceType)
              && forall j :: 0 <= j < k ==> qname != Normalize(subs[1..][j] + SUB_INFIX + serviceType) {
        assert subs[k + 1] == subs[1..][k];
        assert forall j :: 0 < j < k + 1 ==> subs[j] == subs[1..][j - 1];
      }
    }
  }

  /** One pass of the question loop. */
  function Accumulate(m: Match, info: ServiceInfo, kind: Kind, qtype: u16, qclass: u16): Match {
    match kind
    case Foreign => m
    case MetaQuestion => m.(meta := true, multicast := m.multicast || qclass < 0x8000)
    case SubtypeQuestion(sub) => m.(subtype := sub, multicast := m.multicast || qclass < 0x8000)
    case ServiceQuestion =>
      m.(qtype := if !m.matched || m.qtype == qtype then qtype else TYPE_ANY,
         matched := true,
         needsNsec := m.needsNsec || (qtype != TYPE_ANY && !HasRecordType(qtype, info)),
         multicast := m.multicast || qclass < 0x8000)
  }

  function NormalizedAt(data: seq<byte>, off: nat): Option<Name> {
    var d := Decoded(data, off);
    if d.None? then None else Some(Normalize(d.value))
  }

  function MatchFrom(data: seq<byte>, info: ServiceInfo, respondToMeta: bool, off: nat, n: nat, m: Match): Match
    decreases n
  {
    if n == 0 then m.(offset := off) else
    var s := Skip(data, off);
    if !s.ok || s.next + 4 > |data| then m.(offset := s.next) else
    var qtype, qclass := ReadU16(data, s.next), ReadU16(data, s.next + 2);
    var kind := Classify(info, respondToMeta, NormalizedAt(data, off), qtype);
    MatchFrom(data, info, respondToMeta, s.next + 4, n - 1, Accumulate(m, info, kind, qtype, qclass))
  }

  function Matched(data: seq<byte>, info: ServiceInfo, respondToMeta: bool): Match {
    if |data| < 12 || ReadU16(data, 4) == 0 then NO_MATCH
    else MatchFrom(data, info, respondToMeta, 12, ReadU16(data, 4), NO_MATCH)
  }

  method MatchQueries(data: seq<byte>, info: ServiceInfo, respondToMeta: bool) returns (result: Match)
    ensures result == Matched(data, info, respondToMeta)
  {
    hide Skip, Decoded, Normalize, Classify, Accumulate;
    result := NO_MATCH;
    if |data| < 12 {
      return;
    }
    var qdcount: nat := ReadU16(data, 4);
    if qdcount == 0 {
      return;
    }
    var offset: nat := 12;
    for i := 0 to qdcount
      invariant Matched(data, info, respondToMeta)
             == MatchFrom(data, info, respondToMeta, offset, qdcount - i, result)
    {
      var nameStart := offset;
      var ok;
      ok, offset := SkipDnsName(data, offset);
      if !ok || offset + 4 > |data| {
        return result.(offset := offset);
      }
      var qtype, qclass := ReadU16(data, offset), ReadU16(data, offset + 2);
      offset := offset + 4;
      var decoded, _ := ReadDnsName(data, nameStart);
      var qname := if decoded.None? then None else Some(Normalize(decoded.value));
      result := Accumulate(result, info, Classify(info, respondToMeta, qname, qtype), qtype, qclass);
    }
    return result.(offset := offset);
  }

  // ---------------------------------------------------------------- a whole question section

  datatype Asked = Asked(name: Name, qtype: u16, qu: bool)

  function QuestionsWire(qs: seq<Asked>): seq<byte> {
    if qs == [] then [] else QuestionsWire(qs[..|qs| - 1]) + AskedWire(qs[|qs| - 1])
  }

  function AskedWire(q: Asked): seq<byte> { Question(q.name, q.qtype, q.qu) }

  function KindOf(info: ServiceInfo, respondToMeta: bool, q: Asked): Kind {
    Classify(info, respondToMeta, Some(q.name), q.qtype)
  }

  function Fold(info: ServiceInfo, respondToMeta: bool, qs: seq<Asked>): Match {
    if qs == [] then NO_MATCH
    else
      var q := qs[|qs| - 1];
      Accumulate(Fold(info, respondToMeta, qs[..|qs| - 1]), info, KindOf(info, respondToMeta, q),
                 q.qtype, if q.qu then 0x8001 else 0x0001)
  }

  ghost predicate About(info: ServiceInfo, respondToMeta: bool, q: Asked) {
    KindOf(info, respondToMeta, q) == ServiceQuestion
  }

  /** Every question about the service asks for type `t`. */
  ghost predicate AllAsk(info: ServiceInfo, respondToMeta: bool, qs: seq<Asked>, t: u16) {
    forall i :: 0 <= i < |qs| && About(info, respondToMeta, qs[i]) ==> qs[i].qtype == t
  }

  /** The accumulated match, said without the loop: each flag is an existence
      statement, the query type is the common one or ANY, and the subtype the last. */
  ghost predicate Summarizes(m: Match, info: ServiceInfo, respondToMeta: bool, qs: seq<Asked>) {
    && Flags(m, info, respondToMeta, qs)
    && CommonType(m, info, respondToMeta, qs)
    && LastSubtype(m, info, respondToMeta, qs)
  }

  /** The service has no record of this type. */
  predicate Lacks(info: ServiceInfo, t: u16) {
    (t == 1 && info.ipv4.None?) || (t == 28 && info.ipv6.None?) || t !in {1, 12, 16, 28, 33, 255}
  }

  ghost predicate Flags(m: Match, info: ServiceInfo, respondToMeta: bool, qs: seq<Asked>) {
    && (m.matched <==> exists i :: 0 <= i < |qs| && About(info, respondToMeta, qs[i]))
    && (m.needsNsec <==> exists i :: 0 <= i < |qs| && About(info, respondToMeta, qs[i])
                                    && Lacks(info, qs[i].qtype))
    && (m.meta <==> exists i :: 0 <= i < |qs| && KindOf(info, respondToMeta, qs[i]) == MetaQuestion)
    && (m.multicast <==> exists i :: 0 <= i < |qs| && KindOf(info, respondToMeta, qs[i]) != Foreign && !qs[i].qu)
  }

  /** The subtype to answer for is that of the last subtype question, if there is one. */
  ghost predicate LastSubtype(m: Match, info: ServiceInfo, respondToMeta: bool, qs: seq<Asked>) {
    if m.subtype == [] then forall i :: 0 <= i < |qs| ==> !KindOf(info, respondToMeta, qs[i]).SubtypeQuestion?
    else exists i :: 0 <= i < |qs| && IsLastSubtype(m.subtype, info, respondToMeta, qs, i)
  }

  ghost predicate IsLastSubtype(sub: Name, info: ServiceInfo, respondToMeta: bool, qs: seq<Asked>, i: nat)
    requires i < |qs|
  {
    && KindOf(info, respondToMeta, qs[i]) == SubtypeQuestion(sub)
    && forall j :: i < j < |qs| ==> !KindOf(info, respondToMeta, qs[j]).SubtypeQuestion?
  }

  ghost predicate CommonType(m: Match, info: ServiceInfo, respondToMeta: bool, qs: seq<Asked>) {
    && (m.matched ==> forall t :: AllAsk(info, respondToMeta, qs, t) ==> m.qtype == t)
    && (m.qtype != TYPE_ANY ==> AllAsk(info, respondToMeta, qs, m.qtype))
  }

  lemma {:induction false} FoldSummarizes(info: ServiceInfo, respondToMeta: bool, qs: seq<Asked>)
    ensures Summarizes(Fold(info, respondToMeta, qs), info, respondToMeta, qs)
  {
    hide Classify;
    if qs != [] {
      var n := |qs| - 1;
      var init := qs[..n];
      FoldSummarizes(info, respondToMeta, init);
      assert qs == init + [qs[n]];
      SummaryGrows(Fold(info, respondToMeta, init), info, respondToMeta, init, qs[n]);
    }
  }

  lemma SummaryGrows(m: Match, info: ServiceInfo, respondToMeta: bool, init: seq<Asked>, q: Asked)
    requires Summarizes(m, info, respondToMeta, init)
    ensures Summarizes(Accumulate(m, info, KindOf(info, respondToMeta, q), q.qtype, if q.qu then 0x8001 else 0x0001),
                       info, respondToMeta, init + [q])
  {
    hide Accumulate, KindOf, CommonType, LastSubtype;
    CommonTypeGrows(m, info, respondToMeta, init, q);
    LastSubtypeGrows(m, info, respondToMeta, init, q);
    FlagsGrow(m, info, respondToMeta, init, q);
    hide Flags;
  }

  lemma FlagsGrow(m: Match, info: ServiceInfo, respondToMeta: bool, init: seq<Asked>, q: Asked)
    requires Flags(m, info, respondToMeta, init)
    ensures Flags(Accumulate(m, info, KindOf(info, respondToMeta, q), q.qtype, if q.qu then 0x8001 else 0x0001),
                  info, respondToMeta, init + [q])
  {
    assert forall t: u16 :: Lacks(info, t) <==> t != TYPE_ANY && !HasRecordType(t, info);
    hide KindOf, HasRecordType, Lacks;
    var qs, n := init + [q], |init|;
    assert qs[n] == q && forall i :: 0 <= i < n ==> qs[i] == init[i];
    assert About(info, respondToMeta, qs[n]) <==> About(info, respondToMeta, q);
  }

  lemma LastSubtypeGrows(m: Match, info: ServiceInfo, respondToMeta: bool, init: seq<Asked>, q: Asked)
    requires LastSubtype(m, info, respondToMeta, init)
    ensures LastSubtype(Accumulate(m, info, KindOf(info, respondToMeta, q), q.qtype, if q.qu then 0x8001 else 0x0001),
                        info, respondToMeta, init + [q])
  {
    var qs, n, kind := init + [q], |init|, KindOf(info, respondToMeta, q);
    assert qs[n] == q && forall i :: 0 <= i < n ==> qs[i] == init[i];
    assert kind.SubtypeQuestion? ==> kind.sub != [];
    hide KindOf, HasRecordType;
    if kind.SubtypeQuestion? {
      assert IsLastSubtype(kind.sub, info, respondToMeta, qs, n);
    } else if m.subtype != [] {
      var i :| 0 <= i < n && IsLastSubtype(m.subtype, info, respondToMeta, init, i);
      assert IsLastSubtype(m.subtype, info, respondToMeta, qs, i);
    }
  }

  lemma CommonTypeGrows(m: Match, info: ServiceInfo, respondToMeta: bool, init: seq<Asked>, q: Asked)
    requires CommonType(m, info, respondToMeta, init)
    requires m.matched <==> exists i :: 0 <= i < |init| && About(info, respondToMeta, init[i])
    ensures CommonType(Accumulate(m, info, KindOf(info, respondToMeta, q), q.qtype, if q.qu then 0x8001 else 0x0001),
                       info, respondToMeta, init + [q])
  {
    hide KindOf, HasRecordType;
    var qs, n := init + [q], |init|;
    assert qs[n] == q && forall i :: 0 <= i < n ==> qs[i] == init[i];
    forall t
      ensures AllAsk(info, respondToMeta, qs, t)
         <==> AllAsk(info, respondToMeta, init, t) && (About(info, respondToMeta, q) ==> q.qtype == t)
    {
    }
  }

  lemma {:induction false} QuestionsPrefix(p: seq<byte>, qs: seq<Asked>, i: nat)
    requires i < |qs| && At(p, 12, QuestionsWire(qs))
    ensures At(p, 12 + |QuestionsWire(qs[..i])|, AskedWire(qs[i]))
    ensures |QuestionsWire(qs[..i + 1])| == |QuestionsWire(qs[..i])| + |AskedWire(qs[i])|
    decreases |qs|
  {
    hide AskedWire;
    var n := |qs| - 1;
    AtConcat(p, 12, QuestionsWire(qs[..n]), AskedWire(qs[n]));
    if i < n {
      QuestionsPrefix(p, qs[..n], i);
      assert qs[..n][..i] == qs[..i] && qs[..n][..i + 1] == qs[..i + 1];
    } else {
      assert qs[..i + 1] == qs;
    }
  }

  lemma MatchOne(p: seq<byte>, info: ServiceInfo, respondToMeta: bool, off: nat, n: nat, m: Match, q: Asked)
    requires WireName(q.name) && At(p, off, AskedWire(q))
    ensures MatchFrom(p, info, respondToMeta, off, n + 1, m)
         == MatchFrom(p, info, respondToMeta, off + |AskedWire(q)|, n,
                      Accumulate(m, info, KindOf(info, respondToMeta, q), q.qtype, if q.qu then 0x8001 else 0x0001))
  {
    hide Classify, Accumulate, Skip, Decoded, Normalize, Question, Clean, Encodable, IsNormalized, At, Encoded;
    QuestionAt(p, off, q.name, q.qtype, q.qu);
    NormalizeIsIdempotent(q.name);
    CanonicalOfNormalized(q.name);
  }

  lemma FoldOne(info: ServiceInfo, respondToMeta: bool, qs: seq<Asked>, i: nat)
    requires i < |qs|
    ensures Fold(info, respondToMeta, qs[..i + 1])
         == Accumulate(Fold(info, respondToMeta, qs[..i]), info, KindOf(info, respondToMeta, qs[i]),
                       qs[i].qtype, if qs[i].qu then 0x8001 else 0x0001)
  {
    hide Accumulate, KindOf;
    assert qs[..i + 1][..i] == qs[..i];
  }

  lemma {:induction false} MatchSectionFrom(p: seq<byte>, info: ServiceInfo, respondToMeta: bool,
                                            qs: seq<Asked>, i: nat)
    requires i <= |qs| && At(p, 12, QuestionsWire(qs))
    requires forall k :: 0 <= k < |qs| ==> WireName(qs[k].name)
    ensures MatchFrom(p, info, respondToMeta, 12 + |QuestionsWire(qs[..i])|, |qs| - i,
                      Fold(info, respondToMeta, qs[..i]))
         == Fold(info, respondToMeta, qs).(offset := 12 + |QuestionsWire(qs)|)
    decreases |qs| - i
  {
    hide Accumulate, KindOf, AskedWire, QuestionsWire, WireName, Fold, At;
    if i == |qs| {
      assert qs[..i] == qs;
    } else {
      var off := 12 + |QuestionsWire(qs[..i])|;
      QuestionsPrefix(p, qs, i);
      MatchOne(p, info, respondToMeta, off, |qs| - i - 1, Fold(info, respondToMeta, qs[..i]), qs[i]);
      FoldOne(info, respondToMeta, qs, i);
      MatchSectionFrom(p, info, respondToMeta, qs, i + 1);
    }
  }

  lemma CanonicalOfNormalized(name: Name)
    ensures IsNormalized(name) ==> Canonical(name) == name
  {
  }

  /** A well-formed question section, of any length, is summarized and the answer
      section is found exactly behind it. */
  lemma QuestionsAreSummarized(p: seq<byte>, info: ServiceInfo, respondToMeta: bool, qs: seq<Asked>)
    requires qs != [] && At(p, 12, QuestionsWire(qs)) && ReadU16(p, 4) == |qs|
    requires forall k :: 0 <= k < |qs| ==> WireName(qs[k].name)
    ensures Matched(p, info, respondToMeta).offset == 12 + |QuestionsWire(qs)|
    ensures Summarizes(Matched(p, info, respondToMeta), info, respondToMeta, qs)
  {
    hide MatchFrom, Fold, WireName, AskedWire;
    assert qs[..0] == [] && Fold(info, respondToMeta, []) == NO_MATCH by { FoldNothing(info, respondToMeta); }
    MatchSectionFrom(p, info, respondToMeta, qs, 0);
    FoldSummarizes(info, respondToMeta, qs);
  }

  lemma FoldNothing(info: ServiceInfo, respondToMeta: bool)
    ensures Fold(info, respondToMeta, []) == NO_MATCH
  {
  }

  // ---------------------------------------------------------------- known answers

  datatype Mask = Mask(ptr: bool, srv: bool, a: bool, aaaa: bool, txt: bool)

  const NO_MASK := Mask(false, false, false, false, false)

  const RECORD_TYPES: set<u16> := {TYPE_PTR, TYPE_SRV, TYPE_A, TYPE_AAAA, TYPE_TXT}

  predicate Has(m: Mask, t: u16) {
    if t == TYPE_PTR then m.ptr
    else if t == TYPE_SRV then m.srv
    else if t == TYPE_A then m.a
    else if t == TYPE_AAAA then m.aaaa
    else t == TYPE_TXT && m.txt
  }

  function Mark(m: Mask, t: u16): Mask {
    if t == TYPE_PTR then m.(ptr := true)
    else if t == TYPE_SRV then m.(srv := true)
    else if t == TYPE_A then m.(a := true)
    else if t == TYPE_AAAA then m.(aaaa := true)
    else if t == TYPE_TXT then m.(txt := true)
    else m
  }

  predicate OwnName(info: ServiceInfo, name: Name) {
    name == info.serviceName || name == info.serviceType || name == info.hostname
  }

  function KnownFrom(data: seq<byte>, off: nat, n: nat, info: ServiceInfo, threshold: u32, mask: Mask): Mask
    decreases n
  {
    if n == 0 || Decoded(data, off).None? || ViewAt(data, off).None? then mask
    else
      var v := ViewAt(data, off).value;
      var hit := OwnName(info, Normalize(Decoded(data, off).value)) && v.ttl >= threshold;
      KnownFrom(data, v.rdOff + v.rdLen, n - 1, info, threshold, if hit then Mark(mask, v.rtype) else mask)
  }

  method ParseKnownAnswers(data: seq<byte>, start: nat, info: ServiceInfo, threshold: u32) returns (mask: Mask)
    ensures mask == if |data| < 12 then NO_MASK
                    else KnownFrom(data, start, ReadU16(data, 6), info, threshold, NO_MASK)
  {
    hide Decoded, ViewAt, Normalize, Mark;
    mask := NO_MASK;
    if |data| < 12 {
      return;
    }
    var offset: nat := start;
    var ancount: nat := ReadU16(data, 6);
    for i := 0 to ancount
      invariant KnownFrom(data, start, ancount, info, threshold, NO_MASK)
             == KnownFrom(data, offset, ancount - i, info, threshold, mask)
    {
      var name, _ := ReadDnsName(data, offset);
      if name.None? {
        return;
      }
      var v := ReadRrHeader(data, offset);
      if v.None? {
        return;
      }
      offset := v.value.rdOff + v.value.rdLen;
      var ansName := Normalize(name.value);
      if OwnName(info, ansName) && v.value.ttl >= threshold {
        mask := Mark(mask, v.value.rtype);
      }
    }
  }

  /** The record is one the responder would suppress its own answer for. */
  predicate Suppresses(info: ServiceInfo, threshold: u32, r: Record) {
    OwnName(info, r.hdr.name) && r.hdr.ttl >= threshold
  }

  /** Reading back a written known-answer list marks exactly the listed types. */
  lemma {:induction false} KnownWritten(data: seq<byte>, off: nat, rs: seq<Record>, info: ServiceInfo,
                                        threshold: u32, mask: Mask, t: u16)
    requires forall i :: 0 <= i < |rs| ==> Whole(rs[i])
    requires At(data, off, WireAll(rs)) && t in RECORD_TYPES
    ensures Has(KnownFrom(data, off, |rs|, info, threshold, mask), t)
       <==> Has(mask, t) || exists i :: 0 <= i < |rs| && TypeOf(rs[i]) == t && Suppresses(info, threshold, rs[i])
    decreases rs
  {
    hide WireAll, Decoded, ViewAt, Normalize, Whole, RecordWire, OwnName, Suppresses;
    if rs != [] {
      var r, rest := rs[0], rs[1..];
      WireAllConcat([r], rest);
      assert [r] + rest == rs;
      WireOne(r);
      AtConcat(data, off, RecordWire(r), WireAll(rest));
      OneKnown(data, off, r, info, threshold);
      var mask' := if Suppresses(info, threshold, r) then Mark(mask, TypeOf(r)) else mask;
      assert KnownFrom(data, off, |rs|, info, threshold, mask)
          == KnownFrom(data, off + |RecordWire(r)|, |rest|, info, threshold, mask');
      KnownWritten(data, off + |RecordWire(r)|, rest, info, threshold, mask', t);
      MarkOnly(mask, TypeOf(r), t);
      SplitExists(rs, info, threshold, t);
    }
  }

  lemma MarkOnly(mask: Mask, u: u16, t: u16)
    requires t in RECORD_TYPES
    ensures Has(Mark(mask, u), t) <==> Has(mask, t) || u == t
  {
  }

  lemma SplitExists(rs: seq<Record>, info: ServiceInfo, threshold: u32, t: u16)
    requires rs != []
    ensures (exists i :: 0 <= i < |rs| && TypeOf(rs[i]) == t && Suppresses(info, threshold, rs[i]))
       <==> (TypeOf(rs[0]) == t && Suppresses(info, threshold, rs[0]))
            || exists i :: 0 <= i < |rs[1..]| && TypeOf(rs[1..][i]) == t && Suppresses(info, threshold, rs[1..][i])
  {
    hide Suppresses, TypeOf;
    var rest := rs[1..];
    assert forall i :: 0 <= i < |rest| ==> rest[i] == rs[i + 1];
    if i :| 0 <= i < |rs| && TypeOf(rs[i]) == t && Suppresses(info, threshold, rs[i]) {
      assert i > 0 ==> rest[i - 1] == rs[i];
    }
  }

  lemma OneKnown(data: seq<byte>, off: nat, r: Record, info: ServiceInfo, threshold: u32)
    requires Whole(r) && At(data, off, RecordWire(r))
    ensures Decoded(data, off).Some? && ViewAt(data, off).Some?
    ensures var v := ViewAt(data, off).value;
            && v.rtype == TypeOf(r) && v.rdOff + v.rdLen == off + |RecordWire(r)|
            && ((OwnName(info, Normalize(Decoded(data, off).value)) && v.ttl >= threshold) <==>
                Suppresses(info, threshold, r))
  {
    hide Decoded, Encoded, Encodable, Clean, IsNormalized, ViewAt, Skip, Normalize, Rdata, RrWire, OwnName;
    ViewInContext(data, off, r.hdr.name, TypeOf(r), r.hdr.flush, r.hdr.ttl, Rdata(r));
    NormalizeIsIdempotent(r.hdr.name);
  }

  /** Known answers end to end: for a query with one question and any well-formed
      known-answer list, the responder finds the list exactly where it starts and
      marks a type if and only if the list holds a record of that type under one
      of the service's names with enough TTL left. Of a list of 65536 or more answers
      only as many are read as its 16-bit count says. */
  lemma KnownAnswersEndToEnd(name: Name, qtype: u16, qu: bool, tc: bool, known: seq<Record>,
                             info: ServiceInfo, respondToMeta: bool, threshold: u32, t: u16)
    requires WireName(name) && t in RECORD_TYPES
    requires forall i :: 0 <= i < |known| ==> Whole(KnownAnswers(known)[i])
    ensures var q, n := Question(name, qtype, qu), Count16(|known|);
            var p := QueryPacket(q, tc, n, WireAll(KnownAnswers(known)));
            var start := Matched(p, info, respondToMeta).offset;
            && start == 12 + |q| && n <= |known| && (|known| < 0x1_0000 ==> n == |known|)
            && (Has(KnownFrom(p, start, ReadU16(p, 6), info, threshold, NO_MASK), t)
                <==> exists i :: && 0 <= i < n && TypeOf(known[i]) == t && known[i].hdr.ttl >= threshold
                                 && known[i].hdr.name in {info.serviceName, info.serviceType, info.hostname})
  {
    SuppressesMeans(known, info, threshold);
    hide WireName, Whole, WireAll, Question, QueryPacket, Matched, Summarizes, Suppresses, KnownFrom, TypeOf;
    var q, kas, n := Question(name, qtype, qu), KnownAnswers(known), Count16(|known|);
    var p := QueryPacket(q, tc, n, WireAll(kas));
    QueryLayout(q, tc, n, WireAll(kas));
    var qs := [Asked(name, qtype, qu)];
    assert QuestionsWire(qs) == q by { OneQuestion(name, qtype, qu); }
    QuestionsAreSummarized(p, info, respondToMeta, qs);
    assert kas == kas[..n] + kas[n..];
    WireAllConcat(kas[..n], kas[n..]);
    AtConcat(p, 12 + |q|, WireAll(kas[..n]), WireAll(kas[n..]));
    KnownWritten(p, 12 + |q|, kas[..n], info, threshold, NO_MASK, t);
    assert !Has(NO_MASK, t);
    SameOwnerAndType(known, info, threshold);
  }

  lemma OneQuestion(name: Name, qtype: u16, qu: bool)
    ensures QuestionsWire([Asked(name, qtype, qu)]) == Question(name, qtype, qu)
  {
    hide Question;
    var qs := [Asked(name, qtype, qu)];
    assert qs[..0] == [];
    assert QuestionsWire(qs) == QuestionsWire(qs[..0]) + AskedWire(qs[0]);
  }

  lemma SuppressesMeans(known: seq<Record>, info: ServiceInfo, threshold: u32)
    ensures forall i :: 0 <= i < |known| ==>
              (Suppresses(info, threshold, known[i]) <==>
                 && known[i].hdr.ttl >= threshold
                 && known[i].hdr.name in {info.serviceName, info.serviceType, info.hostname})
  {
  }

  lemma SameOwnerAndType(known: seq<Record>, info: ServiceInfo, threshold: u32)
    ensures forall i :: 0 <= i < |known| ==>
              && TypeOf(KnownAnswers(known)[i]) == TypeOf(known[i])
              && (Suppresses(info, threshold, KnownAnswers(known)[i]) <==> Suppresses(info, threshold, known[i]))
  {
  }

  // ---------------------------------------------------------------- staying silent

  /** The record types a reply of this kind would carry. */
  function WouldSend(qtype: u16, info: ServiceInfo): set<u16> {
    set t | t in RECORD_TYPES && (qtype == t || qtype == TYPE_ANY) && HasRecordType(t, info)
  }

  method AllSuppressed(mask: Mask, qtype: u16, info: ServiceInfo) returns (r: bool)
    ensures r <==> WouldSend(qtype, info) != {} && forall t :: t in WouldSend(qtype, info) ==> Has(mask, t)
  {
    var anyWouldSend := false;
    var all := qtype == TYPE_ANY;
    ghost var w := WouldSend(qtype, info);
    assert forall t :: t in w <==> t in RECORD_TYPES && (qtype == t || all) && HasRecordType(t, info);
    if qtype == TYPE_PTR || all {
      anyWouldSend := true;
      assert TYPE_PTR in w;
      if !mask.ptr { return false; }
    }
    if qtype == TYPE_SRV || all {
      anyWouldSend := true;
      assert TYPE_SRV in w;
      if !mask.srv { return false; }
    }
    if (qtype == TYPE_A || all) && info.ipv4.Some? {
      anyWouldSend := true;
      assert TYPE_A in w;
      if !mask.a { return false; }
    }
    if (qtype == TYPE_AAAA || all) && info.ipv6.Some? {
      anyWouldSend := true;
      assert TYPE_AAAA in w;
      if !mask.aaaa { return false; }
    }
    if qtype == TYPE_TXT || all {
      anyWouldSend := true;
      assert TYPE_TXT in w;
      if !mask.txt { return false; }
    }
    return anyWouldSend;
  }
}
