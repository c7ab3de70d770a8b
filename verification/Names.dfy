/** Domain names on the wire: label sequences, compression pointers, and the
    dotted text form (lib/mdnspp/include/mdnspp/detail/dns_read.h). */
module Names {
  import opened Bytes

  type Name = seq<byte>   // dotted text, one octet per character
  type Label = seq<byte>

  const DOT: byte := 46
  const MAX_HOPS: nat := 4
  const MAX_LABEL: nat := 63
  const MAX_NAME: nat := 255
  const PTR_MARK: nat := 192   // both top bits of the length octet set

  // ---------------------------------------------------------------- text form

  /** Every label followed by a dot; the root name is the empty text. */
  function Dotted(ls: seq<Label>): Name {
    if ls == [] then [] else ls[0] + [DOT] + Dotted(ls[1..])
  }

  lemma {:induction false} DottedConcat(a: seq<Label>, b: seq<Label>)
    ensures Dotted(a + b) == Dotted(a) + Dotted(b)
  {
    if a == [] {
      assert a + b == b;
    } else {
      DottedConcat(a[1..], b);
      assert (a + b)[0] == a[0] && (a + b)[1..] == a[1..] + b;
      Assoc(a[0] + [DOT], Dotted(a[1..]), Dotted(b));
    }
  }

  lemma DottedSnoc(a: seq<Label>, l: Label)
    ensures Dotted(a + [l]) == Dotted(a) + l + [DOT]
  {
    DottedConcat(a, [l]);
    assert Dotted([l]) == l + [DOT];
  }

  /** What the class dns_name stores for a text: lower case, one final dot added if missing. */
  function Lower(c: byte): byte {
    if 65 <= c <= 90 then c + 32 else c
  }

  function Canonical(name: Name): Name {
    if name == [] || name[|name| - 1] == DOT then name else name + [DOT]
  }

  function Normalize(name: Name): Name {
    Canonical(seq(|name|, i requires 0 <= i < |name| => Lower(name[i])))
  }

  /** The invariant of every dns_name value. */
  predicate IsNormalized(name: Name) {
    && (name != [] ==> name[|name| - 1] == DOT)
    && forall i :: 0 <= i < |name| ==> Lower(name[i]) == name[i]
  }

  lemma NormalizeIsIdempotent(name: Name)
    ensures IsNormalized(Normalize(name))
    ensures IsNormalized(name) ==> Normalize(name) == name
  {
    if IsNormalized(name) {
      assert seq(|name|, i requires 0 <= i < |name| => Lower(name[i])) == name;
    }
  }

  /** Two texts are stored alike exactly if they differ in no more than the case of ASCII
      letters and one final dot. */
  lemma NormalizeForgets(a: Name, b: Name)
    ensures Normalize(a) == Normalize(b) <==>
            var a', b' := Closed(a), Closed(b);
            |a'| == |b'| && forall i :: 0 <= i < |a'| ==> SameLetter(a'[i], b'[i])
  {
    assert forall i :: 0 <= i < |Closed(a)| ==> Normalize(a)[i] == Lower(Closed(a)[i]);
    assert forall i :: 0 <= i < |Closed(b)| ==> Normalize(b)[i] == Lower(Closed(b)[i]);
    assert |Normalize(a)| == |Closed(a)| && |Normalize(b)| == |Closed(b)|;
    forall c: byte, d: byte
      ensures Lower(c) == Lower(d) <==> SameLetter(c, d)
    {
    }
    hide Lower, SameLetter, Normalize;
  }

  /** With its final dot. */
  function Closed(a: Name): Name {
    if a == [] || a[|a| - 1] == '.' as byte then a else a + ['.' as byte]
  }

  predicate SameLetter(c: byte, d: byte) {
    || c == d
    || ('A' as byte <= c <= 'Z' as byte && d == c + 32)
    || ('A' as byte <= d <= 'Z' as byte && c == d + 32)
  }

  // ---------------------------------------------------------------- wire form

  function WireLabels(ls: seq<Label>): seq<byte>
    requires forall i :: 0 <= i < |ls| ==> |ls[i]| < 256
  {
    if ls == [] then [] else [|ls[0]|] + ls[0] + WireLabels(ls[1..])
  }

  function Wire(ls: seq<Label>): seq<byte>
    requires forall i :: 0 <= i < |ls| ==> |ls[i]| < 256
  {
    WireLabels(ls) + [0]
  }

  /** Labels that can stand in a name: 1 to 63 octets each. */
  predicate Proper(ls: seq<Label>) {
    forall i :: 0 <= i < |ls| ==> 1 <= |ls[i]| <= MAX_LABEL
  }

  lemma {:induction false} WireLength(ls: seq<Label>)
    requires forall i :: 0 <= i < |ls| ==> |ls[i]| < 256
    ensures |WireLabels(ls)| == |Dotted(ls)|
  {
    if ls != [] {
      WireLength(ls[1..]);
    }
  }

  // ---------------------------------------------------------------- skipping

  datatype Skipped = Skipped(ok: bool, next: nat)

  /** skip_dns_name: where the offset ends up, and whether the walk stayed in bounds. */
  function Skip(buf: seq<byte>, off: nat): (r: Skipped)
    ensures r.ok ==> off < r.next <= |buf|
    decreases |buf| - off
  {
    if off >= |buf| then Skipped(false, off)
    else if buf[off] >= PTR_MARK then
      if off + 1 >= |buf| then Skipped(false, off) else Skipped(true, off + 2)
    else if buf[off] == 0 then Skipped(true, off + 1)
    else
      var next := off + 1 + buf[off];
      if next > |buf| then Skipped(false, next) else Skip(buf, next)
  }

  method SkipDnsName(buf: seq<byte>, start: nat) returns (ok: bool, offset: nat)
    ensures Skipped(ok, offset) == Skip(buf, start)
  {
    offset := start;
    while true
      invariant Skip(buf, offset) == Skip(buf, start)
      decreases |buf| - offset
    {
      if offset >= |buf| {
        return false, offset;
      }
      var labelLen := buf[offset];
      if labelLen >= PTR_MARK {
        if offset + 1 >= |buf| {
          return false, offset;
        }
        return true, offset + 2;
      }
      if labelLen == 0 {
        return true, offset + 1;
      }
      offset := offset + 1 + labelLen;
      if offset > |buf| {
        return false, offset;
      }
    }
  }

  // ---------------------------------------------------------------- decoding

  /** The label sequence that stands at `off` if at most `hops` pointers may be
      followed: the meaning of a compressed name, with no text being built. */
  function NameAt(buf: seq<byte>, off: nat, hops: nat): (r: Option<seq<Label>>)
    ensures r.Some? ==> Proper(r.value)
    decreases hops, |buf| - off
  {
    if off >= |buf| then None
    else if buf[off] >= PTR_MARK then
      if off + 1 >= |buf| then None
      else
        var target := PointerTarget(buf, off);
        if target >= off || hops == 0 then None else NameAt(buf, target, hops - 1)
    else if buf[off] == 0 then Some([])
    else
      var next := off + 1 + buf[off];
      if buf[off] > MAX_LABEL || next > |buf| then None
      else
        var rest := NameAt(buf, next, hops);
        if rest.None? then None else Some([buf[off + 1..next]] + rest.value)
  }

  function PointerTarget(buf: seq<byte>, off: nat): nat
    requires off + 1 < |buf| && buf[off] >= PTR_MARK
  {
    (buf[off] as int - PTR_MARK) * 256 + buf[off + 1] as int
  }

  /** What read_dns_name must return: the dotted text of those labels, if it has
      at most 255 characters. */
  function Decoded(buf: seq<byte>, off: nat): Option<Name> {
    var labels := NameAt(buf, off, MAX_HOPS);
    if labels.Some? && |Dotted(labels.value)| <= MAX_NAME then Some(Dotted(labels.value)) else None
  }

  /** `result` is the text of `labels` without the final dot. */
  ghost predicate Text(labels: seq<Label>, result: Name) {
    && (labels == [] ==> result == [] && Dotted(labels) == [])
    && (labels != [] ==> result != [] && result + [DOT] == Dotted(labels))
    && 2 * |labels| <= |Dotted(labels)|
  }

  lemma TextSnoc(labels: seq<Label>, result: Name, lbl: Label)
    requires Text(labels, result) && lbl != []
    ensures Text(labels + [lbl], (if result == [] then [] else result + [DOT]) + lbl)
  {
    DottedSnoc(labels, lbl);
    hide Dotted;
  }

  /** The meaning of a name by its first octet. */
  lemma NameStep(buf: seq<byte>, off: nat, hops: nat)
    ensures off >= |buf| ==> NameAt(buf, off, hops) == None
    ensures off < |buf| && buf[off] >= PTR_MARK ==>
              NameAt(buf, off, hops) ==
              if off + 1 >= |buf| || PointerTarget(buf, off) >= off || hops == 0 then None
              else NameAt(buf, PointerTarget(buf, off), hops - 1)
    ensures off < |buf| && buf[off] == 0 ==> NameAt(buf, off, hops) == Some([])
    ensures off < |buf| && 0 < buf[off] < PTR_MARK ==>
              var next := off + 1 + buf[off];
              NameAt(buf, off, hops) ==
              if buf[off] > MAX_LABEL || next > |buf| || NameAt(buf, next, hops).None? then None
              else Some([buf[off + 1..next]] + NameAt(buf, next, hops).value)
  {
    hide PointerTarget;
  }

  /** A state of the decoding loop: `labels` have been read into `result`, and the whole
      name is those labels followed by what stands at `off`. */
  ghost predicate Reading(buf: seq<byte>, start: nat, labels: seq<Label>, result: Name, off: nat, hops: nat) {
    && Text(labels, result) && |Dotted(labels)| <= MAX_NAME
    && NameAt(buf, start, MAX_HOPS) == Prepend(labels, NameAt(buf, off, hops))
  }

  lemma ReadingStarts(buf: seq<byte>, start: nat)
    ensures Reading(buf, start, [], [], start, MAX_HOPS)
  {
    hide NameAt;
    PrependNothing(NameAt(buf, start, MAX_HOPS));
  }

  lemma ReadingFails(buf: seq<byte>, start: nat, labels: seq<Label>, result: Name, off: nat, hops: nat)
    requires Reading(buf, start, labels, result, off, hops)
    ensures |labels| <= 127
    ensures NameAt(buf, off, hops) == None ==> Decoded(buf, start) == None
  {
    hide NameAt, Dotted;
    PrependEnds(labels);
  }

  lemma ReadingEnds(buf: seq<byte>, start: nat, labels: seq<Label>, result: Name, off: nat, hops: nat)
    requires Reading(buf, start, labels, result, off, hops) && NameAt(buf, off, hops) == Some([])
    ensures Decoded(buf, start) == Some(if result == [] then [] else result + [DOT])
  {
    hide NameAt, Dotted;
    PrependEnds(labels);
  }

  /** One label more, with its text. */
  function Extended(result: Name, lbl: Label): Name {
    (if result == [] then [] else result + [DOT]) + lbl
  }

  lemma ReadingLabel(buf: seq<byte>, start: nat, labels: seq<Label>, result: Name, off: nat, hops: nat, next: nat)
    requires Reading(buf, start, labels, result, off, hops)
    requires off < |buf| && 0 < buf[off] <= MAX_LABEL && next == off + 1 + buf[off] <= |buf|
    ensures var lbl := buf[off + 1..next];
            if |Extended(result, lbl)| + 1 > MAX_NAME then Decoded(buf, start) == None
            else Reading(buf, start, labels + [lbl], Extended(result, lbl), next, hops)
  {
    NameStep(buf, off, hops);
    hide NameAt, Dotted;
    var lbl := buf[off + 1..next];
    TextSnoc(labels, result, lbl);
    PrependSnoc(labels, lbl, NameAt(buf, next, hops));
    if |Extended(result, lbl)| + 1 > MAX_NAME {
      TooLong(labels + [lbl], NameAt(buf, next, hops));
    }
  }

  /** read_dns_name. The loop follows at most 4 pointers, accepts at most 127
      labels and does one closing iteration; it computes `Decoded`. */
  method ReadDnsName(buf: seq<byte>, start: nat) returns (r: Option<Name>, ghost steps: nat)
    ensures r == Decoded(buf, start)
    ensures steps <= 132
  {
    var offset: nat, hops: nat := start, 0;
    var result: Name := [];
    ghost var labels: seq<Label> := [];
    steps := 0;
    hide Decoded, NameAt, PointerTarget, Reading;
    ReadingStarts(buf, start);
    while true
      invariant hops <= MAX_HOPS && steps == |labels| + hops
      invariant Reading(buf, start, labels, result, offset, MAX_HOPS - hops)
      decreases MAX_HOPS - hops, |buf| - offset
    {
      steps := steps + 1;
      ReadingFails(buf, start, labels, result, offset, MAX_HOPS - hops);
      NameStep(buf, offset, MAX_HOPS - hops);
      if offset >= |buf| {
        return None, steps;
      }
      var labelLen := buf[offset];
      if labelLen >= PTR_MARK {
        if offset + 1 >= |buf| {
          return None, steps;
        }
        var target := PointerTarget(buf, offset);
        if target >= offset {
          return None, steps;
        }
        hops := hops + 1;
        if hops > MAX_HOPS {
          return None, steps;
        }
        FollowPointer(buf, start, labels, result, offset, MAX_HOPS - hops + 1);
        offset := target;
        continue;
      }
      if labelLen == 0 {
        ReadingEnds(buf, start, labels, result, offset, MAX_HOPS - hops);
        if result != [] {
          result := result + [DOT];
        }
        return Some(result), steps;
      }
      if labelLen > MAX_LABEL {
        return None, steps;
      }
      var labelStart := offset + 1;
      var labelEnd := labelStart + labelLen;
      if labelEnd > |buf| {
        return None, steps;
      }
      ReadingLabel(buf, start, labels, result, offset, MAX_HOPS - hops, labelEnd);
      labels := labels + [buf[labelStart..labelEnd]];
      if result != [] {
        result := result + [DOT];
      }
      result := result + buf[labelStart..labelEnd];
      if |result| + 1 > MAX_NAME {
        return None, steps;
      }
      offset := labelEnd;
    }
  }

  lemma FollowPointer(buf: seq<byte>, start: nat, labels: seq<Label>, result: Name, off: nat, hops: nat)
    requires Reading(buf, start, labels, result, off, hops) && hops > 0
    requires off + 1 < |buf| && buf[off] >= PTR_MARK && PointerTarget(buf, off) < off
    ensures Reading(buf, start, labels, result, PointerTarget(buf, off), hops - 1)
  {
    NameStep(buf, off, hops);
    hide NameAt, Dotted, PointerTarget;
  }

  ghost function Prepend(labels: seq<Label>, rest: Option<seq<Label>>): Option<seq<Label>> {
    if rest.None? then None else Some(labels + rest.value)
  }

  lemma TooLong(labels: seq<Label>, rest: Option<seq<Label>>)
    requires |Dotted(labels)| > MAX_NAME
    ensures var all := Prepend(labels, rest); all.Some? ==> |Dotted(all.value)| > MAX_NAME
  {
    if rest.Some? {
      DottedConcat(labels, rest.value);
    }
  }

  lemma PrependNothing(rest: Option<seq<Label>>)
    ensures Prepend([], rest) == rest
  {
    if rest.Some? {
      assert [] + rest.value == rest.value;
    }
  }

  lemma PrependEnds(labels: seq<Label>)
    ensures Prepend(labels, None) == None && Prepend(labels, Some([])) == Some(labels)
  {
    assert labels + [] == labels;
  }

  lemma PrependCons(ls: seq<Label>, rest: Option<seq<Label>>)
    requires ls != []
    ensures Prepend(ls, rest)
         == if rest.None? then None else Some([ls[0]] + Prepend(ls[1..], rest).value)
  {
    if rest.Some? {
      assert ls == [ls[0]] + ls[1..];
      assert ls + rest.value == [ls[0]] + (ls[1..] + rest.value);
    }
  }

  lemma PrependSnoc(labels: seq<Label>, lbl: Label, rest: Option<seq<Label>>)
    ensures Prepend(labels + [lbl], rest)
         == Prepend(labels, if rest.None? then None else Some([lbl] + rest.value))
  {
    if rest.Some? {
      assert (labels + [lbl]) + rest.value == labels + ([lbl] + rest.value);
    }
  }

  // ---------------------------------------------------------------- laws of decoding

  /** The two octets of a compression pointer to `target`: 11 in the top bits, and the
      offset in the other 14, most significant octet first. */
  ghost predicate PointerAt(buf: seq<byte>, p: nat, target: nat) {
    p + 1 < |buf| && target < 0x4000 && buf[p] == 0xC0 + target / 256 && buf[p + 1] == target % 256
  }

  /** A pointer means what stands at its target, with one hop less; one that does not go
      backward, or comes when no hop is left, means nothing. It is skipped in two octets. */
  lemma PointerMeans(buf: seq<byte>, p: nat, target: nat, hops: nat)
    requires PointerAt(buf, p, target)
    ensures NameAt(buf, p, hops) == if target < p && hops > 0 then NameAt(buf, target, hops - 1) else None
    ensures Skip(buf, p) == Skipped(true, p + 2)
  {
    assert PointerTarget(buf, p) == target;
    hide PointerTarget;
  }

  /** Decompression is compositional: labels followed by a backward pointer mean
      those labels followed by whatever the target means with one hop less, and are
      skipped up to behind the pointer. */
  lemma {:induction false} LabelsThenPointer(buf: seq<byte>, off: nat, ls: seq<Label>, p: nat, target: nat, hops: nat)
    requires Proper(ls) && At(buf, off, WireLabels(ls)) && p == off + |WireLabels(ls)|
    requires PointerAt(buf, p, target) && target < p
    ensures NameAt(buf, off, hops + 1) == Prepend(ls, NameAt(buf, target, hops))
    ensures Skip(buf, off) == Skipped(true, p + 2)
    decreases ls
  {
    hide NameAt, Prepend;
    if ls == [] {
      PointerMeans(buf, p, target, hops + 1);
      PrependNothing(NameAt(buf, target, hops));
    } else {
      assert |WireLabels(ls)| == 1 + |ls[0]| + |WireLabels(ls[1..])|;
      LabelStep(buf, off, ls);
      var next := off + 1 + |ls[0]|;
      SkipLabel(buf, off, next);
      LabelsThenPointer(buf, next, ls[1..], p, target, hops);
      ConsPrepend(buf, off, ls, next, hops + 1, NameAt(buf, target, hops));
    }
  }

  lemma SkipLabel(buf: seq<byte>, off: nat, next: nat)
    requires off < |buf| && 0 < buf[off] < 0xC0 && next == off + 1 + buf[off] <= |buf|
    ensures Skip(buf, off) == Skip(buf, next)
  {
  }

  /** The limits of decoding: 4 pointers, 255 characters. */
  lemma DecodedIsExact(buf: seq<byte>, off: nat, text: Name)
    ensures Decoded(buf, off) == Some(text) <==>
            exists ls :: NameAt(buf, off, 4) == Some(ls) && text == Dotted(ls) && |text| <= 255
  {
    hide NameAt, Dotted;
  }

  lemma ConsPrepend(buf: seq<byte>, off: nat, ls: seq<Label>, next: nat, hops: nat, rest: Option<seq<Label>>)
    requires ls != [] && Proper(ls) && next == off + 1 + |ls[0]| <= |buf|
    requires buf[off] == |ls[0]| && buf[off + 1..next] == ls[0]
    requires NameAt(buf, next, hops) == Prepend(ls[1..], rest)
    ensures NameAt(buf, off, hops) == Prepend(ls, rest)
  {
    PrependCons(ls, rest);
  }

  /** The first label of a label sequence that stands in a buffer. */
  lemma LabelStep(buf: seq<byte>, off: nat, ls: seq<Label>)
    requires ls != [] && (forall i :: 0 <= i < |ls| ==> |ls[i]| < 256) && At(buf, off, WireLabels(ls))
    ensures off + 1 + |ls[0]| <= |buf| && buf[off] == |ls[0]| && buf[off + 1..off + 1 + |ls[0]|] == ls[0]
    ensures At(buf, off + 1 + |ls[0]|, WireLabels(ls[1..]))
  {
    var l, tail := ls[0], WireLabels(ls[1..]);
    assert WireLabels(ls) == [|l|] + (l + tail);
    AtCons(buf, off, |l|, l + tail);
    AtConcat(buf, off + 1, l, tail);
  }

  /** An uncompressed name means its labels, in any surroundings, and skipping
      it moves over exactly its own bytes. */
  lemma {:induction false} WireInContext(buf: seq<byte>, off: nat, ls: seq<Label>, hops: nat)
    requires Proper(ls) && At(buf, off, Wire(ls))
    ensures NameAt(buf, off, hops) == Some(ls)
    ensures Skip(buf, off) == Skipped(true, off + |Wire(ls)|)
    decreases ls
  {
    AtConcat(buf, off, WireLabels(ls), [0]);
    if ls == [] {
      AtIndex(buf, off, [0], 0);
    } else {
      LabelStep(buf, off, ls);
      var next := off + 1 + |ls[0]|;
      AtConcat(buf, next, WireLabels(ls[1..]), [0]);
      assert |Wire(ls)| == 1 + |ls[0]| + |Wire(ls[1..])|;
      hide At, Wire, WireLabels;
      assert Skip(buf, off) == Skip(buf, next);
      hide Skip, NameAt;
      WireInContext(buf, next, ls[1..], hops);
      NameCons(buf, off, ls, next, hops);
    }
  }

  lemma NameCons(buf: seq<byte>, off: nat, ls: seq<Label>, next: nat, hops: nat)
    requires ls != [] && Proper(ls) && next == off + 1 + |ls[0]| <= |buf|
    requires buf[off] == |ls[0]| && buf[off + 1..next] == ls[0]
    requires NameAt(buf, next, hops) == Some(ls[1..])
    ensures NameAt(buf, off, hops) == Some(ls)
  {
    assert [ls[0]] + ls[1..] == ls;
  }

  /** A name that can be read can be skipped, strictly forward and in bounds. */
  lemma {:induction false} ReadableIsSkippable(buf: seq<byte>, off: nat, hops: nat)
    requires NameAt(buf, off, hops).Some?
    ensures Skip(buf, off).ok && off < Skip(buf, off).next <= |buf|
    decreases |buf| - off
  {
    if buf[off] < PTR_MARK && buf[off] != 0 {
      ReadableIsSkippable(buf, off + 1 + buf[off], hops);
    }
  }

  /** Allowing more pointer hops never changes a name that already decodes. */
  lemma {:induction false} MoreHopsSameName(buf: seq<byte>, off: nat, hops: nat, more: nat)
    requires NameAt(buf, off, hops).Some? && hops <= more
    ensures NameAt(buf, off, more) == NameAt(buf, off, hops)
    decreases hops, |buf| - off
  {
    if buf[off] >= PTR_MARK {
      MoreHopsSameName(buf, PointerTarget(buf, off), hops - 1, more - 1);
    } else if buf[off] != 0 {
      MoreHopsSameName(buf, off + 1 + buf[off], hops, more);
    }
  }
}
