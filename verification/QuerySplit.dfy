/** What the known-answer splitter guarantees: nothing is lost or reordered, no
    packet is oversized without need, and no other split needs fewer packets. */
module QuerySplit {
  import opened Bytes
  import opened Names
  import opened NameRoundTrip
  import opened Records
  import opened Frame
  import opened Query

  function Concat(groups: seq<seq<Record>>): seq<Record> {
    if groups == [] then [] else groups[0] + Concat(groups[1..])
  }

  /** A packet holding these answers is within the limit, or cannot be helped. */
  predicate Acceptable(g: seq<Record>, base: nat, max: nat) {
    |g| <= 1 || base + |WireAll(g)| <= max
  }

  /** The 16-bit answer counter of one packet cannot overflow: there are few
      answers, or each takes room and the limit is that of a UDP payload. */
  predicate CountSafe(rs: seq<Record>, max: nat) {
    |rs| < 0x1_0000 || (max < 0x1_0000 && forall i :: 0 <= i < |rs| ==> RecordWire(rs[i]) != [])
  }

  // ---------------------------------------------------------------- conservation

  /** The groups are the answers, in order, whatever the limit. */
  lemma {:induction false} SplitConserves(cur: seq<Record>, rest: seq<Record>, base: nat, max: nat)
    ensures Concat(Greedy(cur, rest, base, max)) == cur + rest
    decreases rest
  {
    hide RecordWire, WireAll;
    if rest == [] {
      assert Concat([cur]) == cur + Concat([]);
    } else {
      var head, tail := rest[0], rest[1..];
      assert rest == [head] + tail;
      SplitConserves([head], tail, base, max);
      SplitConserves(cur + [head], tail, base, max);
      Assoc(cur, [head], tail);
      var more := Greedy([head], tail, base, max);
      assert ([cur] + more)[1..] == more;
    }
  }

  lemma {:induction false} CountBelowBytes(rs: seq<Record>)
    requires forall i :: 0 <= i < |rs| ==> RecordWire(rs[i]) != []
    ensures |rs| <= |WireAll(rs)|
  {
    hide RecordWire;
    if rs != [] {
      CountBelowBytes(rs[1..]);
    }
  }

  lemma CountFits(g: seq<Record>, base: nat, max: nat)
    requires Acceptable(g, base, max) && CountSafe(g, max)
    ensures |g| < 0x1_0000
  {
    hide RecordWire;
    if |g| >= 0x1_0000 {
      CountBelowBytes(g);
    }
  }

  lemma CountSafeParts(a: seq<Record>, b: seq<Record>, max: nat)
    requires CountSafe(a + b, max)
    ensures CountSafe(a, max) && CountSafe(b, max)
  {
    hide RecordWire;
    assert forall i :: 0 <= i < |a| ==> (a + b)[i] == a[i];
    assert forall i :: 0 <= i < |b| ==> (a + b)[|a| + i] == b[i];
  }

  /** Every packet is non-empty, acceptable, and its counter is exact. */
  lemma {:induction false} SplitRespectsLimit(cur: seq<Record>, rest: seq<Record>, base: nat, max: nat)
    requires cur != [] && Acceptable(cur, base, max) && CountSafe(cur + rest, max)
    ensures forall g :: g in Greedy(cur, rest, base, max) ==>
              g != [] && Acceptable(g, base, max) && |g| < 0x1_0000
    decreases rest
  {
    hide RecordWire, WireAll, CountSafe;
    CountSafeParts(cur, rest, max);
    CountFits(cur, base, max);
    if rest != [] {
      var head, tail := rest[0], rest[1..];
      assert rest == [head] + tail;
      Assoc(cur, [head], tail);
      if base + |WireAll(cur)| + |RecordWire(head)| > max {
        SplitRespectsLimit([head], tail, base, max);
      } else {
        WireSnocRecord(cur, head);
        SplitRespectsLimit(cur + [head], tail, base, max);
      }
    }
  }

  // ---------------------------------------------------------------- optimality

  /** The first packet ends only where the next answer would exceed the limit, and
      the rest starts afresh. */
  lemma {:induction false} FirstGroup(cur: seq<Record>, rest: seq<Record>, base: nat, max: nat) returns (k: nat)
    requires cur != []
    ensures k <= |rest|
    ensures k == |rest| ==> |Greedy(cur, rest, base, max)| == 1
    ensures k < |rest| ==>
              && base + |WireAll(cur + rest[..k])| + |RecordWire(rest[k])| > max
              && |Greedy(cur, rest, base, max)| == 1 + |Greedy([], rest[k..], base, max)|
    decreases rest
  {
    hide RecordWire, WireAll;
    k := 0;
    if rest != [] {
      var head, tail := rest[0], rest[1..];
      assert rest == [head] + tail;
      if |cur| % 0x1_0000 > 0 && base + |WireAll(cur)| + |RecordWire(head)| > max {
        assert cur + rest[..0] == cur && rest[0..] == rest && [] + [head] == [head];
      } else {
        Assoc(cur, [head], tail);
        var j := FirstGroup(cur + [head], tail, base, max);
        k := j + 1;
        assert rest[k..] == tail[j..];
        assert (cur + [head]) + tail[..j] == cur + rest[..k];
      }
    }
  }

  lemma WireLonger(u: seq<Record>, g: seq<Record>, r: Record, z: seq<Record>)
    ensures |WireAll(u + (g + [r]) + z)| >= |WireAll(g)| + |RecordWire(r)|
  {
    hide RecordWire, WireAll;
    WireAllConcat(u + (g + [r]), z);
    WireAllConcat(u, g + [r]);
    WireSnocRecord(g, r);
  }

  /** A part reaching past the greedy group would be oversized. */
  lemma PartStopsEarlier(u: seq<Record>, r: seq<Record>, part: seq<Record>, k: nat, base: nat, max: nat)
    requires part <= u + r && 0 < k < |r|
    ensures Acceptable(part, base, max) && base + |WireAll(r[..k])| + |RecordWire(r[k])| > max ==> |part| <= |u| + k
  {
    hide RecordWire, WireAll;
    if |part| > |u| + k {
      var z := part[|u| + k + 1..];
      assert r[..k] + [r[k]] == r[..k + 1];
      assert part == u + (r[..k] + [r[k]]) + z by {
        var whole := u + r;
        assert part == whole[..|part|];
        assert whole[..|u| + k + 1] == u + r[..k + 1];
      }
      WireLonger(u, r[..k], r[k], z);
    }
  }

  /** Greedy stays ahead: whoever still has `u` more answers to send cannot
      finish in fewer packets. */
  lemma {:induction false} GreedyStaysAhead(u: seq<Record>, r: seq<Record>, parts: seq<seq<Record>>,
                                            base: nat, max: nat)
    requires r != [] && Concat(parts) == u + r
    requires forall i :: 0 <= i < |parts| ==> Acceptable(parts[i], base, max)
    ensures |parts| >= |Greedy([], r, base, max)|
    decreases |parts|
  {
    hide RecordWire, WireAll;
    assert parts != [];
    var head, tail := r[0], r[1..];
    assert r == [head] + tail && [] + [head] == [head];
    assert Greedy([], r, base, max) == Greedy([head], tail, base, max);
    var k := FirstGroup([head], tail, base, max);
    if k < |tail| {
      var n, part := k + 1, parts[0];
      assert r[..n] == [head] + tail[..k] && r[n..] == tail[k..] && r[n] == tail[k];
      PartStopsEarlier(u, r, part, n, base, max);
      Remainder(u, r, part, Concat(parts[1..]), n);
      GreedyStaysAhead((u + r)[|part|..|u| + n], r[n..], parts[1..], base, max);
    }
  }

  lemma Remainder(u: seq<Record>, r: seq<Record>, part: seq<Record>, rest: seq<Record>, n: nat)
    requires u + r == part + rest && n <= |r| && |part| <= |u| + n
    ensures rest == (u + r)[|part|..|u| + n] + r[n..]
  {
    var whole := u + r;
    assert whole[|part|..] == rest;
    assert whole[|u| + n..] == r[n..];
    assert whole[|part|..] == whole[|part|..|u| + n] + whole[|u| + n..];
  }

  /** No order-preserving split into acceptable packets uses fewer packets. */
  lemma SplitIsOptimal(rs: seq<Record>, parts: seq<seq<Record>>, base: nat, max: nat)
    requires rs != [] && Concat(parts) == rs
    requires forall i :: 0 <= i < |parts| ==> Acceptable(parts[i], base, max)
    ensures |Greedy([], rs, base, max)| <= |parts|
  {
    assert [] + rs == rs;
    GreedyStaysAhead([], rs, parts, base, max);
  }

  // ---------------------------------------------------------------- answer counts

  lemma {:induction false} WrittenIsAll(rs: seq<Record>)
    ensures Written(rs) <= |rs|
    ensures Written(rs) == |rs| <==> forall i :: 0 <= i < |rs| ==> RecordWire(rs[i]) != []
  {
    hide RecordWire;
    if rs != [] {
      var n := |rs| - 1;
      WrittenIsAll(rs[..n]);
      assert forall i :: 0 <= i < n ==> rs[..n][i] == rs[i];
    }
  }

  /** Groups are no longer than the whole, and hold nothing but its members. */
  lemma {:induction false} ConcatMember(groups: seq<seq<Record>>, i: nat)
    requires i < |groups|
    ensures |groups[i]| <= |Concat(groups)| && forall r :: r in groups[i] ==> r in Concat(groups)
  {
    if i > 0 {
      ConcatMember(groups[1..], i - 1);
    }
  }

  lemma {:induction false} ConcatOrigin(groups: seq<seq<Record>>, r: Record) returns (i: nat)
    requires r in Concat(groups)
    ensures i < |groups| && r in groups[i]
  {
    if r in groups[0] {
      i := 0;
    } else {
      var j := ConcatOrigin(groups[1..], r);
      i := j + 1;
    }
  }

  /** The header of every packet of a train counts the answers it holds. */
  ghost predicate CountsAreTrue(q: seq<byte>, groups: seq<seq<Record>>) {
    forall i :: 0 <= i < |groups| ==>
      |Packets(q, groups)[i]| >= 12 && ReadU16(Packets(q, groups)[i], 6) == Written(groups[i])
  }

  lemma CountAt(q: seq<byte>, groups: seq<seq<Record>>, i: nat)
    requires i < |groups|
    ensures |Packets(q, groups)[i]| >= 12 && ReadU16(Packets(q, groups)[i], 6) == |groups[i]| % 0x1_0000
  {
    hide WireAll, QueryPacket;
    QueryLayout(q, i < |groups| - 1, |groups[i]| % 0x1_0000, WireAll(groups[i]));
  }

  /** Every packet "reflects the number of answers in that packet" exactly if every
      known answer encodes: the splitter counts answers that left no bytes too. */
  lemma CountsAreExact(q: seq<byte>, known: seq<Record>, max: nat)
    requires |known| < 0x1_0000
    ensures CountsAreTrue(q, Greedy([], KnownAnswers(known), 12 + |q|, max)) <==>
            forall k :: 0 <= k < |known| ==> RecordWire(KnownAnswers(known)[k]) != []
  {
    hide RecordWire, Greedy, WireAll, Packets, Concat;
    var kas := KnownAnswers(known);
    var groups := Greedy([], kas, 12 + |q|, max);
    SplitConserves([], kas, 12 + |q|, max);
    assert [] + kas == kas;
    forall i | 0 <= i < |groups|
      ensures |Packets(q, groups)[i]| >= 12
      ensures ReadU16(Packets(q, groups)[i], 6) == Written(groups[i]) <==>
              forall r :: r in groups[i] ==> RecordWire(r) != []
      ensures forall r :: r in groups[i] ==> r in kas
    {
      CountAt(q, groups, i);
      ConcatMember(groups, i);
      WrittenIsAll(groups[i]);
    }
    if CountsAreTrue(q, groups) {
      forall k | 0 <= k < |known|
        ensures RecordWire(kas[k]) != []
      {
        assert kas[k] in kas;
        var i := ConcatOrigin(groups, kas[k]);
      }
    }
  }

  /** One answer that does not encode: counted, but not there. */
  lemma UnencodableIsCounted(q: seq<byte>, name: Name, max: nat)
    ensures var known := [A(Header(name, 0, CLASS_IN, false), [1, 2, 3])];
            var groups := Greedy([], KnownAnswers(known), 12 + |q|, max);
            var packets := Packets(q, groups);
            |packets| == 1 && |packets[0]| == 12 + |q| && ReadU16(packets[0], 6) == 1
  {
    var known := [A(Header(name, 0, CLASS_IN, false), [1, 2, 3])];
    var kas := KnownAnswers(known);
    assert kas == [kas[0]] && RecordWire(kas[0]) == [] && kas[1..] == [] && [] + [kas[0]] == kas;
    assert Greedy([], kas, 12 + |q|, max) == Greedy([kas[0]], [], 12 + |q|, max) == [kas];
    assert WireAll(kas) == RecordWire(kas[0]) + WireAll([]);
    CountAt(q, [kas], 0);
  }

  lemma {:induction false} FitsInOne(cur: seq<Record>, rest: seq<Record>, base: nat, max: nat)
    requires base + |WireAll(cur + rest)| <= max
    ensures Greedy(cur, rest, base, max) == [cur + rest]
    decreases rest
  {
    hide RecordWire, WireAll;
    if rest == [] {
      assert cur + rest == cur;
    } else {
      var head, tail := rest[0], rest[1..];
      assert rest == [head] + tail;
      Assoc(cur, [head], tail);
      WireAllConcat(cur + [head], tail);
      WireSnocRecord(cur, head);
      FitsInOne(cur + [head], tail, base, max);
    }
  }

  /** Answers that all encode and fit one packet: its count is true exactly if there
      are fewer than 65536 of them. */
  lemma CountWrapsExactly(q: seq<byte>, known: seq<Record>, max: nat)
    requires forall k :: 0 <= k < |known| ==> RecordWire(KnownAnswers(known)[k]) != []
    requires 12 + |q| + |WireAll(KnownAnswers(known))| <= max
    ensures CountsAreTrue(q, Greedy([], KnownAnswers(known), 12 + |q|, max)) <==> |known| < 0x1_0000
  {
    hide RecordWire, WireAll, Packets, Written, Greedy;
    var kas := KnownAnswers(known);
    assert [] + kas == kas;
    FitsInOne([], kas, 12 + |q|, max);
    CountAt(q, [kas], 0);
    WrittenIsAll(kas);
    assert CountsAreTrue(q, [kas]) <==> |kas| % 0x1_0000 == |kas|;
  }

  /** 65536 well-formed answers in one packet whose header says there are none. */
  lemma CountWraps(q: seq<byte>) returns (known: seq<Record>, max: nat)
    ensures |known| == 0x1_0000 && forall k :: 0 <= k < |known| ==> Whole(KnownAnswers(known)[k])
    ensures var packets := Packets(q, Greedy([], KnownAnswers(known), 12 + |q|, max));
            |packets| == 1 && |packets[0]| >= 12 && ReadU16(packets[0], 6) == 0
  {
    hide RecordWire, WireAll, Whole, Packets;
    var r := A(Header([97, DOT], 120, CLASS_IN, false), [10, 0, 0, 1]);
    WholeAddress();
    known := seq(0x1_0000, _ => r);
    var kas := KnownAnswers(known);
    assert forall k :: 0 <= k < |known| ==> kas[k] == r;
    max := 12 + |q| + |WireAll(kas)|;
    assert [] + kas == kas;
    FitsInOne([], kas, 12 + |q|, max);
    CountAt(q, [kas], 0);
  }

  lemma WholeAddress()
    ensures Whole(A(Header([97, DOT], 120, CLASS_IN, false), [10, 0, 0, 1]))
  {
    var name: Name := [97, DOT];
    var s: Name := [97];
    assert Stripped(name) == s;
    assert FindDot(s, 0) == 1 && s[0..1] == s;
    assert SplitFrom(s, 0) == [s[0..1]] + SplitFrom(s, 2);
    assert LabelsOf(name) == [s];
    assert WireLabels([s]) == [1, 97] + WireLabels([]);
  }

  // ---------------------------------------------------------------- at the receiver

  /** All records a receiver is delivered from a train of packets. */
  function WalkAll(packets: seq<seq<byte>>): seq<Record> {
    if packets == [] then [] else Walk(packets[0]) + WalkAll(packets[1..])
  }

  lemma {:induction false} WalkTrain(packets: seq<seq<byte>>, groups: seq<seq<Record>>)
    requires |packets| == |groups|
    requires forall i :: 0 <= i < |groups| ==> Walk(packets[i]) == ArrivingAll(groups[i])
    ensures WalkAll(packets) == ArrivingAll(Concat(groups))
  {
    hide Walk, Arriving;
    if groups != [] {
      WalkTrain(packets[1..], groups[1..]);
      var a, b := groups[0], Concat(groups[1..]);
      assert ArrivingAll(a + b) == ArrivingAll(a) + ArrivingAll(b);
    }
  }

  /** End to end: the train of packets repeats one question, announces its true
      answer counts, has TC set on all but the last, exceeds the limit only where
      a single answer does, and delivers the whole known-answer list in order. */
  lemma TrainDelivers(name: Name, qtype: u16, qu: bool, known: seq<Record>, max: nat)
    requires Encodable(name) && Clean(name) && known != []
    requires forall i :: 0 <= i < |known| ==> Whole(KnownAnswers(known)[i])
    requires CountSafe(KnownAnswers(known), max)
    ensures var q := Question(name, qtype, qu);
            var groups := Greedy([], KnownAnswers(known), 12 + |q|, max);
            var packets := Packets(q, groups);
            && WalkAll(packets) == ArrivingAll(KnownAnswers(known))
            && forall i :: 0 <= i < |packets| ==>
                 && At(packets[i], 12, q) && ReadU16(packets[i], 6) == RrTotal(packets[i]) == |groups[i]| > 0
                 && ReadU16(packets[i], 2) == (if i < |packets| - 1 then 0x0200 else 0)
                 && (|packets[i]| > max ==> |groups[i]| == 1)
  {
    hide CountSafe, Encodable, Clean, Whole, RecordWire, WireAll, Question, QueryPacket, Walk, Arriving, Greedy;
    hide At, RrTotal, WalkAll, Concat;
    var q, kas := Question(name, qtype, qu), KnownAnswers(known);
    var groups := Greedy([], kas, 12 + |q|, max);
    var packets := Packets(q, groups);
    SplitConserves([], kas, 12 + |q|, max);
    assert [] + kas == kas;
    SplitAllAcceptable(kas, 12 + |q|, max);
    forall i | 0 <= i < |packets|
      ensures Walk(packets[i]) == ArrivingAll(groups[i])
      ensures At(packets[i], 12, q) && ReadU16(packets[i], 6) == RrTotal(packets[i]) == |groups[i]| > 0
      ensures ReadU16(packets[i], 2) == (if i < |packets| - 1 then 0x0200 else 0)
      ensures |packets[i]| > max ==> |groups[i]| == 1
    {
      assert groups[i] in groups;
      assert forall j :: 0 <= j < |groups[i]| ==> Whole(groups[i][j]) by {
        GroupsWhole(groups, i);
      }
      QueryDelivers(name, qtype, qu, i < |packets| - 1, groups[i]);
    }
    WalkTrain(packets, groups);
  }

  lemma GroupsWhole(groups: seq<seq<Record>>, i: nat)
    requires i < |groups| && forall k :: 0 <= k < |Concat(groups)| ==> Whole(Concat(groups)[k])
    ensures forall j :: 0 <= j < |groups[i]| ==> Whole(groups[i][j])
  {
    hide Whole;
    forall j | 0 <= j < |groups[i]|
      ensures Whole(groups[i][j])
    {
      ConcatMember(groups, i);
      assert groups[i][j] in Concat(groups);
    }
  }

  lemma SplitAllAcceptable(kas: seq<Record>, base: nat, max: nat)
    requires kas != [] && CountSafe(kas, max)
    ensures forall g :: g in Greedy([], kas, base, max) ==>
              g != [] && Acceptable(g, base, max) && |g| < 0x1_0000
  {
    hide CountSafe, RecordWire, WireAll;
    assert [kas[0]] + kas[1..] == kas && [] + [kas[0]] == [kas[0]];
    SplitRespectsLimit([kas[0]], kas[1..], base, max);
  }
}
