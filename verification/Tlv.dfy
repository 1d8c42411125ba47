/**
  The TLV scan of SPL Token-2022 mint extensions: 16-bit little-endian type, 16-bit little-endian length,
  then that many bytes. The scan is proved to undo the encoder, and on arbitrary bytes to look a type
  up in the one decomposition of the buffer into entries and a rest that holds no further entry.
 */
module Tlv {
  import opened Text

  type Byte = b: nat | b < 0x100
  type Uint16 = n: nat | n < 0x1_0000

  /** binary.LittleEndian.Uint16 */
  function Uint16At(data: seq<Byte>, i: nat): Uint16
    requires i + 2 <= |data|
  {
    data[i] as int + 0x100 * (data[i + 1] as int)
  }

  function Encode16(n: Uint16): (s: seq<Byte>)
    ensures |s| == 2 && Uint16At(s, 0) == n
  {
    [n % 0x100, n / 0x100]
  }

  type Payload = s: seq<Byte> | |s| < 0x1_0000

  datatype Entry = Entry(tag: Uint16, value: Payload)

  function EncodeEntry(e: Entry): (s: seq<Byte>)
    ensures |s| == 4 + |e.value|
  {
    Encode16(e.tag) + Encode16(|e.value|) + e.value
  }

  function Encode(entries: seq<Entry>): seq<Byte> {
    if entries == [] then [] else EncodeEntry(entries[0]) + Encode(entries[1..])
  }

  /** The value of the first entry with the tag. */
  function First(entries: seq<Entry>, tag: Uint16): Option<Payload> {
    if entries == [] then None
    else if entries[0].tag == tag then Some(entries[0].value)
    else First(entries[1..], tag)
  }

  /** No complete entry starts these bytes: too short for a header, or for the length the header announces. */
  predicate Stray(rest: seq<Byte>) {
    |rest| < 4 || |rest| < 4 + Uint16At(rest, 2)
  }

  /** The complete entries at the front of a buffer, and what is left after them. */
  function Decode(data: seq<Byte>): (seq<Entry>, seq<Byte>)
    decreases |data|
  {
    if Stray(data) then ([], data)
    else
      var n := 4 + Uint16At(data, 2);
      var (entries, rest) := Decode(data[n..]);
      ([Entry(Uint16At(data, 0), data[4..n])] + entries, rest)
  }

  method GetExtensionData(extensionType: Uint16, tlvData: seq<Byte>) returns (r: Option<seq<Byte>>)
    ensures r == First(Decode(tlvData).0, extensionType)
  {
    var i := 0;
    assert tlvData[0..] == tlvData;
    while i + 4 <= |tlvData|
      invariant 0 <= i
      invariant First(Decode(tlvData).0, extensionType) == Remaining(tlvData, i, extensionType)
      decreases |tlvData| - i
    {
      var entryType := Uint16At(tlvData, i);
      var entryLength := Uint16At(tlvData, i + 2);
      var typeIndex := i + 4;
      ScanStep(tlvData, i, extensionType);
      if entryType == extensionType && typeIndex + entryLength <= |tlvData| {
        return Some(tlvData[typeIndex..typeIndex + entryLength]);
      }
      i := typeIndex + entryLength;
    }
    ShortRest(tlvData, i, extensionType);
    return None;
  }

  /** What is still to be found from index i on. */
  function Remaining(data: seq<Byte>, i: nat, tag: Uint16): Option<Payload> {
    if i > |data| then None else First(Decode(data[i..]).0, tag)
  }

  lemma ShortRest(data: seq<Byte>, i: nat, tag: Uint16)
    requires i + 4 > |data|
    ensures Remaining(data, i, tag) == None
  {}

  /** One round of the scan, in terms of the decomposition. */
  lemma ScanStep(data: seq<Byte>, i: nat, tag: Uint16)
    requires i + 4 <= |data|
    ensures var n := i + 4 + Uint16At(data, i + 2);
      Remaining(data, i, tag) ==
        if n <= |data| && Uint16At(data, i) == tag then Some(data[i + 4..n]) else Remaining(data, n, tag)
  {
    var d := data[i..];
    var n := 4 + Uint16At(d, 2);
    assert Uint16At(d, 2) == Uint16At(data, i + 2) && Uint16At(d, 0) == Uint16At(data, i);
    if i + n <= |data| {
      assert d[n..] == data[i + n..];
      assert d[4..n] == data[i + 4..i + n];
      var rest := Decode(d[n..]).0;
      assert ([Entry(Uint16At(d, 0), d[4..n])] + rest)[1..] == rest;
    }
  }

  lemma HeaderOf(e: Entry, tail: seq<Byte>)
    ensures var s := EncodeEntry(e) + tail;
      && Uint16At(s, 0) == e.tag && Uint16At(s, 2) == |e.value|
      && s[4..4 + |e.value|] == e.value && s[4 + |e.value|..] == tail
  {}

  /** Decoding undoes encoding, whatever stray bytes follow. */
  lemma {:induction false} DecodeEncode(entries: seq<Entry>, stray: seq<Byte>)
    requires Stray(stray)
    ensures Decode(Encode(entries) + stray) == (entries, stray)
  {
    if entries == [] {
      assert Encode(entries) + stray == stray;
    } else {
      var e := entries[0];
      var tail := Encode(entries[1..]) + stray;
      assert Encode(entries) + stray == EncodeEntry(e) + tail;
      HeaderOf(e, tail);
      DecodeEncode(entries[1..], stray);
      assert [e] + entries[1..] == entries;
    }
  }

  lemma ReencodeEntry(data: seq<Byte>)
    requires !Stray(data)
    ensures var n := 4 + Uint16At(data, 2);
      EncodeEntry(Entry(Uint16At(data, 0), data[4..n])) == data[..n]
  {}

  /** Encoding undoes decoding: every buffer is its entries followed by stray bytes. */
  lemma {:induction false} EncodeDecode(data: seq<Byte>)
    ensures Stray(Decode(data).1) && Encode(Decode(data).0) + Decode(data).1 == data
    decreases |data|
  {
    if !Stray(data) {
      var n := 4 + Uint16At(data, 2);
      EncodeDecode(data[n..]);
      ReencodeEntry(data);
      var e := Entry(Uint16At(data, 0), data[4..n]);
      var rest := Decode(data[n..]).0;
      assert Encode([e] + rest) == EncodeEntry(e) + Encode(rest) by {
        assert ([e] + rest)[1..] == rest;
      }
      Regroup(EncodeEntry(e), Encode(rest), Decode(data).1, data, n);
    }
  }

  lemma Regroup(a: seq<Byte>, b: seq<Byte>, c: seq<Byte>, data: seq<Byte>, n: nat)
    requires n <= |data| && a == data[..n] && b + c == data[n..]
    ensures (a + b) + c == data
  {}

  /** Entry i carries the tag and no earlier one does. */
  predicate FirstAt(entries: seq<Entry>, tag: Uint16, i: nat) {
    i < |entries| && entries[i].tag == tag && forall j :: 0 <= j < i ==> entries[j].tag != tag
  }

  /** A lookup answers with the value of the first entry of that type, and with nil exactly when there is none. */
  lemma {:induction false} FirstIsFirst(entries: seq<Entry>, tag: Uint16)
    ensures First(entries, tag).None? <==> forall i :: 0 <= i < |entries| ==> entries[i].tag != tag
    ensures forall i: nat :: FirstAt(entries, tag, i) ==> First(entries, tag) == Some(entries[i].value)
  {
    if entries != [] {
      var rest := entries[1..];
      FirstIsFirst(rest, tag);
      assert forall j :: 0 < j < |entries| ==> entries[j] == rest[j - 1];
      forall i: nat | FirstAt(entries, tag, i) ensures First(entries, tag) == Some(entries[i].value) {
        if i > 0 {
          assert FirstAt(rest, tag, i - 1) by {
            assert forall j :: 0 <= j < i - 1 ==> rest[j] == entries[j + 1];
          }
        }
      }
    }
  }

  /** The scan's answer on encoded entries followed by stray bytes: the first entry of the type, or nil. */
  lemma ScanOfEncoded(entries: seq<Entry>, stray: seq<Byte>, tag: Uint16, i: nat)
    requires |stray| < 4
    ensures var answer := First(Decode(Encode(entries) + stray).0, tag);
      && (FirstAt(entries, tag, i) ==> answer == Some(entries[i].value))
      && (answer == None <==> forall j :: 0 <= j < |entries| ==> entries[j].tag != tag)
  {
    DecodeEncode(entries, stray);
    FirstIsFirst(entries, tag);
  }

  // ---- The wire format, byte by byte ----

  /** Type, then length, each with its low byte first, then the value. */
  lemma EntryOnTheWire(e: Entry)
    ensures EncodeEntry(e) == [e.tag % 0x100, e.tag / 0x100, |e.value| % 0x100, |e.value| / 0x100] + e.value
  {}

  /**
    The scan of a buffer that starts with the bytes of an entry: its value if that is the type asked for,
    otherwise what the scan of the remaining bytes finds.
   */
  lemma ScanReadsHeader(tag: Uint16, value: Payload, rest: seq<Byte>, wanted: Uint16)
    ensures First(Decode([tag % 0x100, tag / 0x100, |value| % 0x100, |value| / 0x100] + value + rest).0, wanted)
      == if wanted == tag then Some(value) else First(Decode(rest).0, wanted)
  {
    var data := [tag % 0x100, tag / 0x100, |value| % 0x100, |value| / 0x100] + value + rest;
    var n := 4 + |value|;
    assert data[4..n] == value && data[n..] == rest;
    var found := Decode(rest).0;
    assert ([Entry(tag, value)] + found)[1..] == found;
  }

  /** Bytes too few for a header, or for the length that the header announces, answer nothing. */
  lemma ScanOfTruncated(data: seq<Byte>, wanted: Uint16)
    requires |data| >= 4 ==> |data| < 4 + data[2] as int + 0x100 * (data[3] as int)
    ensures First(Decode(data).0, wanted) == None
  {}
}
