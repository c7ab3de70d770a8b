/** Encoding a dotted name and reading it back: for every name the encoder
    accepts, the exact condition under which the two are inverse. */
module NameRoundTrip {
  import opened Bytes
  import opened Names

  function FindDot(s: Name, from: nat): (d: nat)
    requires from <= |s|
    ensures from <= d <= |s| && (d < |s| ==> s[d] == DOT)
    ensures forall i :: from <= i < d ==> s[i] != DOT
    decreases |s| - from
  {
    if from == |s| || s[from] == DOT then from else FindDot(s, from + 1)
  }

  function Stripped(name: Name): Name {
    if name != [] && name[|name| - 1] == DOT then name[..|name| - 1] else name
  }

  /** The labels the encoder cuts `s` into from position `pos` on. */
  function SplitFrom(s: Name, pos: nat): (ls: seq<Label>)
    ensures forall i :: 0 <= i < |ls| ==> DOT !in ls[i]
    decreases |s| - pos
  {
    if pos >= |s| then [] else
    var dot := FindDot(s, pos);
    [s[pos..dot]] + SplitFrom(s, dot + 1)
  }

  function LabelsOf(name: Name): seq<Label> {
    SplitFrom(Stripped(name), 0)
  }

  predicate Short(ls: seq<Label>) {
    forall i :: 0 <= i < |ls| ==> |ls[i]| <= MAX_LABEL
  }

  /** Names the encoder does not refuse. */
  predicate Encodable(name: Name) {
    Short(LabelsOf(name)) && |Wire(LabelsOf(name))| <= MAX_NAME
  }

  /** The encoder's result; the empty sequence is its failure value. */
  function Encoded(name: Name): (w: seq<byte>)
    ensures w == [] <==> !Encodable(name)
  {
    if Encodable(name) then Wire(LabelsOf(name)) else []
  }

  /** The encoder accepts a name exactly if no stretch of more than 63 octets is without a
      dot and the encoding, one length octet for each label and one for the root, takes at
      most 255 octets. A final dot does not count. */
  lemma EncodableIsExact(name: Name)
    ensures var s := if name != [] && name[|name| - 1] == 46 then name[..|name| - 1] else name;
            var size := |s| + if s == [] || s[|s| - 1] == 46 then 1 else 2;
            Encodable(name) <==>
            && (forall i, j :: 0 <= i <= j <= |s| && DotFree(s, i, j) ==> j - i <= 63)
            && size <= 255
  {
    var s := Stripped(name);
    ShortIsExact(s, 0);
    SplitLength(s, 0);
    hide SplitFrom, Dotted;
    if Short(SplitFrom(s, 0)) {
      WireLength(SplitFrom(s, 0));
    }
  }

  predicate DotFree(s: Name, i: nat, j: nat)
    requires i <= j <= |s|
  {
    forall k :: i <= k < j ==> s[k] != 46
  }

  lemma {:induction false} SplitLength(s: Name, pos: nat)
    ensures |Dotted(SplitFrom(s, pos))|
         == if pos >= |s| then 0 else |s| - pos + if s[|s| - 1] == 46 then 0 else 1
    decreases |s| - pos
  {
    hide FindDot;
    if pos < |s| {
      var dot := FindDot(s, pos);
      SplitLength(s, dot + 1);
      DottedCons(s[pos..dot], SplitFrom(s, dot + 1));
    }
  }

  lemma ShortCons(l: Label, rest: seq<Label>)
    ensures Short([l] + rest) <==> |l| <= 63 && Short(rest)
  {
    var all := [l] + rest;
    assert all[0] == l && forall i :: 0 <= i < |rest| ==> all[i + 1] == rest[i];
  }

  lemma {:induction false} ShortIsExact(s: Name, pos: nat)
    ensures Short(SplitFrom(s, pos)) <==>
            forall i, j :: pos <= i <= j <= |s| && DotFree(s, i, j) ==> j - i <= 63
    decreases |s| - pos
  {
    hide FindDot;
    if pos < |s| {
      var dot := FindDot(s, pos);
      var rest := SplitFrom(s, dot + 1);
      ShortIsExact(s, dot + 1);
      assert SplitFrom(s, pos) == [s[pos..dot]] + rest;
      ShortCons(s[pos..dot], rest);
      assert DotFree(s, pos, dot);
      hide SplitFrom, Short;
      forall i, j | pos <= i <= j <= |s| && DotFree(s, i, j)
        ensures j <= dot || i > dot
      {
      }
    }
  }

  method EncodeDnsName(name: Name) returns (result: seq<byte>)
    ensures result == Encoded(name)
  {
    if name == [] {
      return [0];
    }
    var s := if name[|name| - 1] == DOT then name[..|name| - 1] else name;
    var ok;
    ok, result := EncodeLabels(s);
    if !ok {
      return [];
    }
    result := result + [0];
    if |result| > MAX_NAME {
      return [];
    }
  }

  /** The label loop of the encoder; it gives up at the first label over 63 octets. */
  method EncodeLabels(s: Name) returns (ok: bool, result: seq<byte>)
    ensures ok == Short(SplitFrom(s, 0))
    ensures ok ==> result == WireLabels(SplitFrom(s, 0))
  {
    result := [];
    var pos := 0;
    ghost var done: seq<Label> := [];
    hide SplitFrom, WireLabels, Short, FindDot;
    EncodeStarts(s);
    while pos < |s|
      invariant EncodedSoFar(s, pos, done, result)
      decreases |s| - pos
    {
      hide EncodedSoFar;
      var dot := FindDot(s, pos);
      EncodeStep(s, pos, done, result, dot);
      if dot - pos > MAX_LABEL {
        return false, [];
      }
      result := result + [dot - pos] + s[pos..dot];
      done := done + [s[pos..dot]];
      pos := dot + 1;
    }
    EncodeEnds(s, pos, done, result);
    return true, result;
  }

  /** A state of the encoding loop: the labels before `pos` have been written. */
  ghost predicate EncodedSoFar(s: Name, pos: nat, done: seq<Label>, result: seq<byte>) {
    Short(done) && result == WireLabels(done) && SplitFrom(s, 0) == done + SplitFrom(s, pos)
  }

  lemma EncodeStarts(s: Name)
    ensures EncodedSoFar(s, 0, [], [])
  {
    assert [] + SplitFrom(s, 0) == SplitFrom(s, 0);
  }

  lemma EncodeStep(s: Name, pos: nat, done: seq<Label>, result: seq<byte>, dot: nat)
    requires EncodedSoFar(s, pos, done, result) && pos < |s| && dot == FindDot(s, pos)
    ensures if dot - pos > MAX_LABEL then !Short(SplitFrom(s, 0))
            else EncodedSoFar(s, dot + 1, done + [s[pos..dot]], result + [dot - pos] + s[pos..dot])
  {
    var piece, all, rest := s[pos..dot], SplitFrom(s, 0), SplitFrom(s, dot + 1);
    assert SplitFrom(s, pos) == [piece] + rest;
    Assoc(done, [piece], rest);
    assert all[|done|] == piece;
    if |piece| <= MAX_LABEL {
      WireSnoc(done, piece);
    }
  }

  lemma EncodeEnds(s: Name, pos: nat, done: seq<Label>, result: seq<byte>)
    requires EncodedSoFar(s, pos, done, result) && pos >= |s|
    ensures Short(SplitFrom(s, 0)) && result == WireLabels(SplitFrom(s, 0))
  {
    assert SplitFrom(s, pos) == [] && done + [] == done;
  }

  lemma {:induction false} WireSnoc(ls: seq<Label>, l: Label)
    requires Short(ls) && |l| <= MAX_LABEL
    ensures WireLabels(ls + [l]) == WireLabels(ls) + [|l|] + l
  {
    if ls == [] {
      assert ls + [l] == [l];
    } else {
      WireSnoc(ls[1..], l);
      assert (ls + [l])[1..] == ls[1..] + [l];
    }
  }

  // ---------------------------------------------------------------- the condition

  /** No label is empty: no leading dot and no two dots in a row. */
  predicate Clean(name: Name) {
    && (name != [] ==> name[0] != DOT)
    && forall i :: 0 <= i < |name| - 1 ==> !(name[i] == DOT && name[i + 1] == DOT)
  }

  lemma {:induction false} CleanSplit(s: Name, pos: nat)
    requires pos < |s| && s[pos] != DOT && s[|s| - 1] != DOT
    requires forall i :: pos <= i < |s| - 1 ==> !(s[i] == DOT && s[i + 1] == DOT)
    ensures forall i :: 0 <= i < |SplitFrom(s, pos)| ==> SplitFrom(s, pos)[i] != []
    ensures Dotted(SplitFrom(s, pos)) == s[pos..] + [DOT]
    decreases |s| - pos
  {
    hide FindDot;
    var dot := FindDot(s, pos);
    var rest := SplitFrom(s, dot + 1);
    assert SplitFrom(s, pos) == [s[pos..dot]] + rest;
    DottedCons(s[pos..dot], rest);
    hide SplitFrom, Dotted;
    if dot < |s| {
      CleanSplit(s, dot + 1);
      assert s[pos..] == s[pos..dot] + [DOT] + s[dot + 1..];
      Assoc(s[pos..dot] + [DOT], s[dot + 1..], [DOT]);
    } else {
      SplitPastEnd(s, dot + 1);
      assert s[pos..dot] == s[pos..];
    }
  }

  lemma DottedCons(l: Label, rest: seq<Label>)
    ensures Dotted([l] + rest) == l + [DOT] + Dotted(rest)
  {
    assert ([l] + rest)[1..] == rest;
  }

  lemma SplitPastEnd(s: Name, pos: nat)
    requires pos >= |s|
    ensures SplitFrom(s, pos) == [] && Dotted(SplitFrom(s, pos)) == []
  {
  }

  lemma CleanLabels(name: Name)
    requires Clean(name)
    ensures forall i :: 0 <= i < |LabelsOf(name)| ==> LabelsOf(name)[i] != []
    ensures Dotted(LabelsOf(name)) == Canonical(name)
  {
    var s := Stripped(name);
    if s != [] {
      CleanSplit(s, 0);
      assert s[0..] == s;
      assert Canonical(name) == s + [DOT];
    } else {
      assert name == [];
    }
  }

  /** The labels before the first empty one. */
  function Cut(ls: seq<Label>): (r: seq<Label>)
    ensures forall i :: 0 <= i < |r| ==> r[i] != [] && r[i] in ls
  {
    if ls == [] || ls[0] == [] then [] else [ls[0]] + Cut(ls[1..])
  }

  /** An embedded empty label reads as the end of the name. */
  lemma {:induction false} CutInContext(buf: seq<byte>, off: nat, ls: seq<Label>, hops: nat)
    requires Short(ls) && At(buf, off, Wire(ls))
    ensures NameAt(buf, off, hops) == Some(Cut(ls))
    decreases ls
  {
    AtConcat(buf, off, WireLabels(ls), [0]);
    if ls == [] {
      AtIndex(buf, off, [0], 0);
    } else {
      hide At, WireLabels;
      LabelStep(buf, off, ls);
      if ls[0] != [] {
        var next := off + 1 + |ls[0]|;
        AtConcat(buf, next, WireLabels(ls[1..]), [0]);
        CutInContext(buf, next, ls[1..], hops);
      }
    }
  }

  lemma {:induction false} DottedIsClean(ls: seq<Label>)
    requires forall i :: 0 <= i < |ls| ==> ls[i] != [] && DOT !in ls[i]
    ensures Clean(Dotted(ls))
  {
    if ls != [] {
      DottedIsClean(ls[1..]);
      var t := Dotted(ls[1..]);
      var d := ls[0] + [DOT] + t;
      assert forall i :: 0 <= i < |ls[0]| ==> d[i] == ls[0][i];
      assert forall i :: 0 <= i < |t| ==> d[|ls[0]| + 1 + i] == t[i];
      forall i | 0 <= i < |d| - 1
        ensures !(d[i] == DOT && d[i + 1] == DOT)
      {
        if i > |ls[0]| {
          assert t[i - |ls[0]| - 1] == d[i] && t[i - |ls[0]|] == d[i + 1];
        } else if i == |ls[0]| {
          assert t[0] == d[i + 1];
        }
      }
    }
  }

  /** Name round trip, in any surroundings and for every name the encoder
      accepts: reading gives the name back with one final dot exactly when no
      label of it is empty, and then skipping moves over the encoding exactly. */
  lemma NameRoundTrip(name: Name, buf: seq<byte>, off: nat)
    requires Encodable(name) && At(buf, off, Encoded(name))
    ensures Decoded(buf, off) == Some(Canonical(name)) <==> Clean(name)
    ensures Clean(name) ==> Skip(buf, off) == Skipped(true, off + |Encoded(name)|)
  {
    var ls := LabelsOf(name);
    WireLength(ls);
    CutInContext(buf, off, ls, MAX_HOPS);
    if Clean(name) {
      CleanLabels(name);
      WireInContext(buf, off, ls, MAX_HOPS);
    } else {
      DottedIsClean(Cut(ls));
      NotCleanStaysNotClean(name);
    }
  }

  lemma NotCleanStaysNotClean(name: Name)
    requires !Clean(name)
    ensures !Clean(Canonical(name))
  {
    var c := Canonical(name);
    assert forall i :: 0 <= i < |name| ==> c[i] == name[i];
    if name[0] != DOT {
      var i :| 0 <= i < |name| - 1 && name[i] == DOT && name[i + 1] == DOT;
      assert c[i] == DOT && c[i + 1] == DOT;
    }
  }

  /** The form used between components: a normalized clean name comes back as itself. */
  lemma NormalizedRoundTrip(name: Name, buf: seq<byte>, off: nat)
    requires IsNormalized(name) && Clean(name) && Encodable(name) && At(buf, off, Encoded(name))
    ensures Decoded(buf, off) == Some(name)
    ensures Skip(buf, off) == Skipped(true, off + |Encoded(name)|)
    ensures Normalize(name) == name
  {
    NameRoundTrip(name, buf, off);
    NormalizeIsIdempotent(name);
  }

  /** A name the encoder accepts and the reader does not give back. */
  lemma EmptyLabelIsLost(buf: seq<byte>)
    ensures var name := [97, DOT, DOT, 98];  // "a..b"
            Encodable(name) && Decoded(Encoded(name) + buf, 0) == Some([97, DOT])
  {
    var name: Name := [97, DOT, DOT, 98];
    var ls: seq<Label> := [[97], [], [98]];
    assert FindDot(name, 0) == 1 && FindDot(name, 2) == 2 && FindDot(name, 3) == 4;
    calc {
      LabelsOf(name);
      [name[0..1]] + SplitFrom(name, 2);
      [name[0..1]] + ([name[2..2]] + SplitFrom(name, 3));
      [name[0..1]] + ([name[2..2]] + ([name[3..4]] + []));
      { assert name[0..1] == [97] && name[2..2] == [] && name[3..4] == [98]; }
      [[97]] + ([[]] + ([[98]] + []));
      ls;
    }
    WireLength(ls);
    assert Dotted(ls) == [97, DOT, DOT, 98, DOT];
    AtMiddle([], Encoded(name), buf);
    assert [] + Encoded(name) + buf == Encoded(name) + buf;
    CutInContext(Encoded(name) + buf, 0, ls, MAX_HOPS);
    assert Cut(ls) == [[97]];
    assert Dotted([[97]]) == [97, DOT];
  }
}
