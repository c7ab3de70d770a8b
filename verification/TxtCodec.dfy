/** TXT rdata: length-prefixed "key" and "key=value" strings, and exactly which
    entry lists survive encoding and parsing. */
module TxtCodec {
  import opened Bytes
  import opened Records

  const EQUALS: byte := 61
  const MAX_ENTRY: nat := 255

  function EntryText(e: Txt): seq<byte> {
    if e.value.None? then e.key else e.key + [EQUALS] + e.value.value
  }

  /** encode_txt_records: entries over 255 octets are left out. */
  function EncodedTxt(es: seq<Txt>): seq<byte> {
    if es == [] then []
    else if |EntryText(es[0])| > MAX_ENTRY then EncodedTxt(es[1..])
    else [|EntryText(es[0])|] + EntryText(es[0]) + EncodedTxt(es[1..])
  }

  function FindEquals(s: seq<byte>): (i: nat)
    ensures i <= |s| && (i < |s| ==> s[i] == EQUALS)
    ensures forall j :: 0 <= j < i ==> s[j] != EQUALS
  {
    if s == [] || s[0] == EQUALS then 0 else 1 + FindEquals(s[1..])
  }

  function ParseEntry(s: seq<byte>): Txt {
    var i := FindEquals(s);
    if i < |s| then Txt(s[..i], Some(s[i + 1..])) else Txt(s, None)
  }

  /** The entry loop of parse::txt over its rdata. */
  function DecodedTxt(rdata: seq<byte>): seq<Txt>
    decreases |rdata|
  {
    if rdata == [] || 1 + rdata[0] > |rdata| then []
    else
      var s, rest := rdata[1..1 + rdata[0]], rdata[1 + rdata[0]..];
      if s != [] && s[0] == EQUALS then DecodedTxt(rest) else [ParseEntry(s)] + DecodedTxt(rest)
  }

  method TextOf(e: Txt) returns (s: seq<byte>)
    ensures s == EntryText(e)
  {
    s := e.key;
    if e.value.Some? {
      s := s + [EQUALS];
      s := s + e.value.value;
    }
  }

  method EncodeTxtRecords(entries: seq<Txt>) returns (result: seq<byte>)
    ensures result == EncodedTxt(entries)
  {
    hide EntryText;
    result := [];
    for i := 0 to |entries|
      invariant EncodedTxt(entries) == result + EncodedTxt(entries[i..])
    {
      var s := TextOf(entries[i]);
      assert entries[i..][0] == entries[i] && entries[i..][1..] == entries[i + 1..];
      if |s| > 255 {
        continue;
      }
      Assoc(result, [|s|] + s, EncodedTxt(entries[i + 1..]));
      Assoc(result, [|s|], s);
      result := result + [|s|] + s;
    }
  }

  method ParseTxtEntries(buffer: seq<byte>, start: nat, length: nat) returns (entries: seq<Txt>)
    requires start + length <= |buffer|
    ensures entries == DecodedTxt(buffer[start..start + length])
  {
    hide ParseEntry, DecodedTxt;
    entries := [];
    var pos, end := start, start + length;
    ghost var all := DecodedTxt(buffer[start..end]);
    while pos < end
      invariant start <= pos <= end
      invariant all == entries + DecodedTxt(buffer[pos..end])
    {
      DecodeStep(buffer, pos, end);
      var entryLen := buffer[pos];
      pos := pos + 1;
      if pos + entryLen > end {
        break;
      }
      Assoc(entries, [ParseEntry(buffer[pos..pos + entryLen])], DecodedTxt(buffer[pos + entryLen..end]));
      if entryLen > 0 && buffer[pos] == EQUALS {
        pos := pos + entryLen;
        continue;
      }
      entries := entries + [ParseEntry(buffer[pos..pos + entryLen])];
      pos := pos + entryLen;
    }
    assert pos == end ==> DecodedTxt(buffer[pos..end]) == [] by {
      DecodeNothing(buffer[pos..end]);
    }
  }

  lemma DecodeNothing(rdata: seq<byte>)
    ensures rdata == [] ==> DecodedTxt(rdata) == []
  {
  }

  lemma DecodeStep(buffer: seq<byte>, pos: nat, end: nat)
    requires pos < end <= |buffer|
    ensures var n := buffer[pos];
            DecodedTxt(buffer[pos..end]) ==
              if pos + 1 + n > end then []
              else if n > 0 && buffer[pos + 1] == EQUALS then DecodedTxt(buffer[pos + 1 + n..end])
              else [ParseEntry(buffer[pos + 1..pos + 1 + n])] + DecodedTxt(buffer[pos + 1 + n..end])
  {
    hide DecodedTxt, ParseEntry;
    var rdata, n: nat := buffer[pos..end], buffer[pos];
    assert rdata != [] && rdata[0] == n && |rdata| == end - pos;
    if pos + 1 + n > end {
      DecodeTruncated(rdata);
    } else {
      SubSlice(buffer, pos, end, 1, 1 + n);
      SubSlice(buffer, pos, end, 1 + n, end - pos);
      assert rdata[1 + n..] == rdata[1 + n..end - pos];
      var s, rest := buffer[pos + 1..pos + 1 + n], buffer[pos + 1 + n..end];
      assert rdata[1..1 + n] == s && rdata[1 + n..] == rest;
      assert n > 0 ==> s[0] == buffer[pos + 1];
      DecodeOne(rdata, s, rest);
    }
  }

  lemma DecodeTruncated(rdata: seq<byte>)
    requires rdata != [] && 1 + rdata[0] > |rdata|
    ensures DecodedTxt(rdata) == []
  {
  }

  lemma DecodeOne(rdata: seq<byte>, s: seq<byte>, rest: seq<byte>)
    requires rdata != [] && 1 + rdata[0] <= |rdata| && rdata[1..1 + rdata[0]] == s && rdata[1 + rdata[0]..] == rest
    ensures DecodedTxt(rdata)
         == if s != [] && s[0] == EQUALS then DecodedTxt(rest) else [ParseEntry(s)] + DecodedTxt(rest)
  {
    hide ParseEntry;
  }

  // ---------------------------------------------------------------- round trip

  /** The entries that are short enough to be written. */
  function Kept(es: seq<Txt>): seq<Txt> {
    if es == [] then []
    else if |EntryText(es[0])| > MAX_ENTRY then Kept(es[1..]) else [es[0]] + Kept(es[1..])
  }

  /** An entry whose text can be taken apart again: no '=' in the key, and no
      empty key in front of a value. */
  predicate Survives(e: Txt) {
    EQUALS !in e.key && (e.key != [] || e.value.None?)
  }

  /** What the parser makes of one written entry. */
  function Reparsed(e: Txt): seq<Txt> {
    var s := EntryText(e);
    if s != [] && s[0] == EQUALS then [] else [ParseEntry(s)]
  }

  function ReparsedAll(es: seq<Txt>): (r: seq<Txt>)
    ensures |r| <= |es|
  {
    if es == [] then [] else Reparsed(es[0]) + ReparsedAll(es[1..])
  }

  lemma EntrySurvives(e: Txt)
    ensures Reparsed(e) == [e] <==> Survives(e)
  {
    var s := EntryText(e);
    var i := FindEquals(s);
    assert forall j :: 0 <= j < |e.key| ==> s[j] == e.key[j];
    if EQUALS in e.key {
      var j :| 0 <= j < |e.key| && e.key[j] == EQUALS;
      assert s[j] == EQUALS;
      assert i < |e.key|;
      assert |ParseEntry(s).key| < |e.key|;
    } else if e.value.Some? {
      assert s[|e.key|] == EQUALS;
      assert i == |e.key|;
      assert s[..i] == e.key && s[i + 1..] == e.value.value;
    } else {
      assert s == e.key && i == |s|;
    }
  }

  lemma {:induction false} DecodeEncoded(es: seq<Txt>)
    ensures DecodedTxt(EncodedTxt(es)) == ReparsedAll(Kept(es))
  {
    if es != [] {
      DecodeEncoded(es[1..]);
      var s, tail := EntryText(es[0]), EncodedTxt(es[1..]);
      if |s| <= MAX_ENTRY {
        var w := EncodedTxt(es);
        assert w == [|s|] + s + tail;
        assert w[1..1 + |s|] == s && w[1 + |s|..] == tail;
        assert Kept(es)[0] == es[0] && Kept(es)[1..] == Kept(es[1..]);
      }
    }
  }

  lemma {:induction false} ReparsedIdentity(es: seq<Txt>)
    ensures ReparsedAll(es) == es <==> forall i :: 0 <= i < |es| ==> Survives(es[i])
  {
    hide Survives, Reparsed;
    if es != [] {
      ReparsedIdentity(es[1..]);
      EntrySurvives(es[0]);
      ReparsedStep(es);
      assert forall i :: 1 <= i < |es| ==> es[i] == es[1..][i - 1];
      hide ReparsedAll;
    }
  }

  lemma ReparsedStep(es: seq<Txt>)
    requires es != []
    ensures ReparsedAll(es) == es <==> Reparsed(es[0]) == [es[0]] && ReparsedAll(es[1..]) == es[1..]
  {
    assert es == [es[0]] + es[1..];
    var first, rest := Reparsed(es[0]), ReparsedAll(es[1..]);
    assert |first| <= 1;
    hide Reparsed;
    if |first| == 1 {
      assert (first + rest)[0] == first[0] && (first + rest)[1..] == rest;
    } else {
      assert |first + rest| < |es|;
    }
  }

  /** TXT data comes back as the entries that were written exactly when every
      written entry has a separable key. */
  lemma TxtRoundTrip(es: seq<Txt>)
    ensures DecodedTxt(EncodedTxt(es)) == Kept(es)
       <==> forall i :: 0 <= i < |Kept(es)| ==> Survives(Kept(es)[i])
  {
    DecodeEncoded(es);
    ReparsedIdentity(Kept(es));
  }

  /** A valued entry with no key disappears; a '=' inside a key moves to the value. */
  lemma TxtCounterexamples()
    ensures DecodedTxt(EncodedTxt([Txt([], Some([97]))])) == []
    ensures DecodedTxt(EncodedTxt([Txt([97, EQUALS, 98], None)])) == [Txt([97], Some([98]))]
  {
    DecodeEncoded([Txt([], Some([97]))]);
    DecodeEncoded([Txt([97, EQUALS, 98], None)]);
    var s: seq<byte> := [97, EQUALS, 98];
    assert s[0] == 97 && FindEquals(s) == 1;
    assert s[..1] == [97] && s[2..] == [98];
  }
}
