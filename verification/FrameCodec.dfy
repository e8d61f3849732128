/**
 The binary source-routed frame: magic, flags, receiving hop, hop count, then
 length-prefixed path, owner and hops, and a two-byte payload length.
 */
module FrameCodec {
  import opened Basics
  import opened MeshConfig

  const MAGIC: Bytes := [66, 80, 82, 49]  // BPR1

  datatype Frame = Frame(pathId: Name, ownerNodeId: Name, hops: seq<Name>, hopIndex: int, isReturn: bool, payload: Bytes)

  /** The names a frame carries, in wire order. */
  datatype Names = Names(pathId: Name, owner: Name, hops: seq<Name>)

  predicate ValidateBasic(f: Frame) {
    0 < |f.pathId| <= 64 && 0 < |f.ownerNodeId| <= 128 && 2 <= |f.hops| <= MAX_PATH_HOPS &&
    0 < f.hopIndex < |f.hops| &&
    (forall i :: 0 <= i < |f.hops| ==> 0 < |f.hops[i]| <= 128) && DistinctHops(f.hops) &&
    (if f.isReturn then f.hops[0] == f.ownerNodeId else f.hops[|f.hops| - 1] == f.ownerNodeId) &&
    0 < |f.payload| <= 65535
  }

  // ---------------------------------------------------------------- the encoding

  function Field(s: Name): Bytes
    requires |s| < 256
  {
    [|s| as byte] + ToBytes(s)
  }

  function EncodeHops(hops: seq<Name>): Bytes
    requires forall i :: 0 <= i < |hops| ==> |hops[i]| < 256
  {
    if hops == [] then [] else Field(hops[0]) + EncodeHops(hops[1..])
  }

  function Length16(n: nat): Bytes
    requires n < 65536
  {
    [(n / 256) as byte, (n % 256) as byte]
  }

  function Header(f: Frame): Bytes
    requires ValidateBasic(f)
  {
    MAGIC + [if f.isReturn then 1 else 0, f.hopIndex as byte, |f.hops| as byte]
  }

  predicate NamesFit(n: Names) {
    0 < |n.pathId| <= 64 && 0 < |n.owner| <= 128 && forall i :: 0 <= i < |n.hops| ==> 0 < |n.hops[i]| <= 128
  }

  function EncodeNames(n: Names): Bytes
    requires NamesFit(n)
  {
    Field(n.pathId) + Field(n.owner) + EncodeHops(n.hops)
  }

  function Encode(f: Frame): Bytes
    requires ValidateBasic(f)
  {
    Header(f) + EncodeNames(Names(f.pathId, f.ownerNodeId, f.hops)) + (Length16(|f.payload|) + f.payload)
  }

  // ---------------------------------------------------------------- the decoding

  /** A length-prefixed name at an offset, and the offset after it. */
  function ReadField(raw: Bytes, offset: nat, limit: nat): Option<(Name, nat)> {
    if offset >= |raw| then None
    else
      var length := raw[offset] as nat;
      if length == 0 || length > limit || offset + 1 + length > |raw| then None
      else Some((FromBytes(raw[offset + 1..offset + 1 + length]), offset + 1 + length))
  }

  function ReadHops(raw: Bytes, offset: nat, count: nat): Option<(seq<Name>, nat)>
    decreases count
  {
    if count == 0 then Some(([], offset))
    else
      match ReadField(raw, offset, 128)
      case None => None
      case Some((hop, next)) =>
        match ReadHops(raw, next, count - 1)
        case None => None
        case Some((rest, end)) => Some(([hop] + rest, end))
  }

  function ReadNames(raw: Bytes, offset: nat, count: nat): Option<(Names, nat)> {
    match ReadField(raw, offset, 64)
    case None => None
    case Some((pathId, ownerAt)) =>
      match ReadField(raw, ownerAt, 128)
      case None => None
      case Some((owner, hopsAt)) =>
        match ReadHops(raw, hopsAt, count)
        case None => None
        case Some((hops, end)) => Some((Names(pathId, owner, hops), end))
  }

  predicate HeaderFits(raw: Bytes) {
    |raw| >= 12 && raw[..4] == MAGIC && raw[4] <= 1 && 2 <= raw[6] as int <= MAX_PATH_HOPS
  }

  /** The payload behind its two-byte length, which must use up the frame. */
  function ReadPayload(raw: Bytes, at: nat): Option<Bytes> {
    if at + 2 > |raw| then None
    else
      var length := raw[at] as int * 256 + raw[at + 1] as int;
      if length == 0 || at + 2 + length != |raw| then None else Some(raw[at + 2..])
  }

  function Decode(raw: Bytes): Option<Frame> {
    if !HeaderFits(raw) then None
    else
      match ReadNames(raw, 7, raw[6] as nat)
      case None => None
      case Some((n, at)) =>
        var payload := ReadPayload(raw, at);
        if payload.None? then None
        else
          var f := Frame(n.pathId, n.owner, n.hops, raw[5] as int, raw[4] == 1, payload.value);
          if ValidateBasic(f) then Some(f) else None
  }

  // ---------------------------------------------------------------- encode then decode

  lemma ReadFieldOfField(before: Bytes, s: Name, after: Bytes, limit: nat)
    requires 0 < |s| <= limit < 256
    ensures ReadField(before + Field(s) + after, |before|, limit) == Some((s, |before + Field(s)|))
  {
    var raw := before + Field(s) + after;
    assert raw[|before|] == |s| as byte;
    assert raw[|before| + 1..|before| + 1 + |s|] == ToBytes(s);
    NameBytesRoundTrip(s, []);
  }

  lemma Associates(a: Bytes, b: Bytes, c: Bytes)
    ensures a + b + c == a + (b + c)
  {
  }

  lemma {:induction false} ReadHopsOfHops(before: Bytes, hops: seq<Name>, after: Bytes)
    requires forall i :: 0 <= i < |hops| ==> 0 < |hops[i]| <= 128
    ensures ReadHops(before + EncodeHops(hops) + after, |before|, |hops|) == Some((hops, |before + EncodeHops(hops)|))
    decreases |hops|
  {
    if hops != [] {
      var first, rest := Field(hops[0]), EncodeHops(hops[1..]);
      Associates(before, first, rest);
      Associates(before + first, rest, after);
      ReadFieldOfField(before, hops[0], rest + after, 128);
      ReadHopsOfHops(before + first, hops[1..], after);
      assert [hops[0]] + hops[1..] == hops;
    } else {
      assert before + EncodeHops(hops) == before;
    }
  }

  lemma ReadPayloadOfPayload(before: Bytes, payload: Bytes)
    requires 0 < |payload| <= 65535
    ensures ReadPayload(before + Length16(|payload|) + payload, |before|) == Some(payload)
  {
    var raw := before + Length16(|payload|) + payload;
    assert raw[|before|] == Length16(|payload|)[0] && raw[|before| + 1] == Length16(|payload|)[1];
    assert raw[|before| + 2..] == payload;
  }

  lemma Regroup(a: Bytes, b: Bytes, c: Bytes, d: Bytes, e: Bytes)
    ensures a + (b + c + d) + e == a + b + (c + d + e)
    ensures a + (b + c + d) + e == (a + b) + c + (d + e)
    ensures a + (b + c + d) + e == (a + b + c) + d + e
  {
  }

  lemma PathOfNames(before: Bytes, n: Names, after: Bytes)
    requires NamesFit(n)
    ensures ReadField(before + EncodeNames(n) + after, |before|, 64) == Some((n.pathId, |before| + |Field(n.pathId)|))
  {
    Regroup(before, Field(n.pathId), Field(n.owner), EncodeHops(n.hops), after);
    ReadFieldOfField(before, n.pathId, Field(n.owner) + EncodeHops(n.hops) + after, 64);
  }

  lemma OwnerOfNames(before: Bytes, n: Names, after: Bytes)
    requires NamesFit(n)
    ensures ReadField(before + EncodeNames(n) + after, |before| + |Field(n.pathId)|, 128) ==
            Some((n.owner, |before| + |Field(n.pathId)| + |Field(n.owner)|))
  {
    Regroup(before, Field(n.pathId), Field(n.owner), EncodeHops(n.hops), after);
    ReadFieldOfField(before + Field(n.pathId), n.owner, EncodeHops(n.hops) + after, 128);
  }

  lemma HopsOfNames(before: Bytes, n: Names, after: Bytes)
    requires NamesFit(n)
    ensures ReadHops(before + EncodeNames(n) + after, |before| + |Field(n.pathId)| + |Field(n.owner)|, |n.hops|) ==
            Some((n.hops, |before| + |EncodeNames(n)|))
  {
    Regroup(before, Field(n.pathId), Field(n.owner), EncodeHops(n.hops), after);
    ReadHopsOfHops(before + Field(n.pathId) + Field(n.owner), n.hops, after);
  }

  lemma ReadNamesOfNames(before: Bytes, n: Names, after: Bytes)
    requires NamesFit(n)
    ensures ReadNames(before + EncodeNames(n) + after, |before|, |n.hops|) == Some((n, |before| + |EncodeNames(n)|))
  {
    PathOfNames(before, n, after);
    OwnerOfNames(before, n, after);
    HopsOfNames(before, n, after);
  }

  lemma HeaderOfEncode(f: Frame)
    requires ValidateBasic(f)
    ensures HeaderFits(Encode(f)) && Encode(f)[5] as int == f.hopIndex && Encode(f)[6] as int == |f.hops|
    ensures (Encode(f)[4] == 1) == f.isReturn
  {
    var raw, names := Encode(f), Names(f.pathId, f.ownerNodeId, f.hops);
    assert raw == Header(f) + (EncodeNames(names) + (Length16(|f.payload|) + f.payload));
    assert raw[..7] == Header(f);
    assert raw[..4] == raw[..7][..4];
    assert forall i :: 0 <= i < 7 ==> raw[i] == raw[..7][i];
    assert |Field(f.pathId)| >= 2 && |Field(f.ownerNodeId)| >= 2;
  }

  /** Unmarshalling what was marshalled gives the frame back. */
  lemma DecodeEncode(f: Frame)
    requires ValidateBasic(f)
    ensures Decode(Encode(f)) == Some(f)
  {
    var names := Names(f.pathId, f.ownerNodeId, f.hops);
    HeaderOfEncode(f);
    ReadNamesOfNames(Header(f), names, Length16(|f.payload|) + f.payload);
    assert Encode(f) == Header(f) + EncodeNames(names) + Length16(|f.payload|) + f.payload;
    ReadPayloadOfPayload(Header(f) + EncodeNames(names), f.payload);
  }

  // ---------------------------------------------------------------- decode then encode

  lemma FieldOfReadField(raw: Bytes, offset: nat, limit: nat)
    requires limit < 256 && ReadField(raw, offset, limit).Some?
    ensures var (s, end) := ReadField(raw, offset, limit).value;
            0 < |s| <= limit && offset < end <= |raw| && raw[offset..end] == Field(s)
  {
    var (s, end) := ReadField(raw, offset, limit).value;
    NameBytesRoundTrip("", raw[offset + 1..end]);
    assert raw[offset..end] == [raw[offset]] + raw[offset + 1..end];
  }

  lemma {:induction false} HopsOfReadHops(raw: Bytes, offset: nat, count: nat)
    requires offset <= |raw| && ReadHops(raw, offset, count).Some?
    ensures var (hops, end) := ReadHops(raw, offset, count).value;
            |hops| == count && offset <= end <= |raw| &&
            (forall i :: 0 <= i < |hops| ==> 0 < |hops[i]| <= 128) && raw[offset..end] == EncodeHops(hops)
    decreases count
  {
    if count > 0 {
      FieldOfReadField(raw, offset, 128);
      var (hop, next) := ReadField(raw, offset, 128).value;
      HopsOfReadHops(raw, next, count - 1);
      var (rest, end) := ReadHops(raw, next, count - 1).value;
      assert ([hop] + rest)[1..] == rest;
      assert raw[offset..end] == raw[offset..next] + raw[next..end];
    }
  }

  lemma PayloadOfReadPayload(raw: Bytes, at: nat)
    requires ReadPayload(raw, at).Some?
    ensures |ReadPayload(raw, at).value| < 65536 && at <= |raw|
    ensures raw[at..] == Length16(|ReadPayload(raw, at).value|) + ReadPayload(raw, at).value
  {
    assert raw[at..] == [raw[at], raw[at + 1]] + raw[at + 2..];
  }

  lemma NamesOfReadNames(raw: Bytes, offset: nat, count: nat)
    requires ReadNames(raw, offset, count).Some?
    ensures var (n, end) := ReadNames(raw, offset, count).value;
            NamesFit(n) && |n.hops| == count && offset <= end <= |raw| && raw[offset..end] == EncodeNames(n)
  {
    hide ReadField, ReadHops, EncodeHops, Field;
    var (n, end) := ReadNames(raw, offset, count).value;
    var ownerAt := ReadField(raw, offset, 64).value.1;
    var hopsAt := ReadField(raw, ownerAt, 128).value.1;
    FieldOfReadField(raw, offset, 64);
    FieldOfReadField(raw, ownerAt, 128);
    HopsOfReadHops(raw, hopsAt, count);
    assert raw[offset..end] == raw[offset..ownerAt] + raw[ownerAt..hopsAt] + raw[hopsAt..end];
  }

  lemma DecodedCounts(raw: Bytes)
    requires Decode(raw).Some?
    ensures HeaderFits(raw) && ValidateBasic(Decode(raw).value)
    ensures |Decode(raw).value.hops| == raw[6] as int && Decode(raw).value.hopIndex == raw[5] as int
    ensures Decode(raw).value.isReturn == (raw[4] == 1)
  {
    NamesOfReadNames(raw, 7, raw[6] as nat);
  }

  lemma FirstSeven(raw: Bytes, a: byte, b: byte, c: byte)
    requires |raw| >= 7 && raw[..4] == MAGIC && raw[4] == a && raw[5] == b && raw[6] == c
    ensures raw[..7] == MAGIC + [a, b, c]
  {
    assert raw[..7] == raw[..4] + [raw[4], raw[5], raw[6]];
  }

  lemma HeaderOfDecode(raw: Bytes)
    requires Decode(raw).Some?
    ensures ValidateBasic(Decode(raw).value) && 7 <= |raw| && Header(Decode(raw).value) == raw[..7]
  {
    DecodedCounts(raw);
    FirstSeven(raw, raw[4], raw[5], raw[6]);
  }

  lemma BodyOfDecode(raw: Bytes)
    requires Decode(raw).Some?
    ensures var f := Decode(raw).value;
            raw[7..] == EncodeNames(Names(f.pathId, f.ownerNodeId, f.hops)) + (Length16(|f.payload|) + f.payload)
  {
    hide ReadNames, EncodeNames, ReadPayload, Length16, ValidateBasic;
    var end := ReadNames(raw, 7, raw[6] as nat).value.1;
    NamesOfReadNames(raw, 7, raw[6] as nat);
    PayloadOfReadPayload(raw, end);
    assert raw[7..] == raw[7..end] + raw[end..];
  }

  /** Marshalling what was unmarshalled gives the bytes back, so the encoding is canonical. */
  lemma EncodeDecode(raw: Bytes)
    requires Decode(raw).Some?
    ensures ValidateBasic(Decode(raw).value) && Encode(Decode(raw).value) == raw
  {
    hide Decode, EncodeNames, Length16, ValidateBasic, Header;
    HeaderOfDecode(raw);
    BodyOfDecode(raw);
    assert raw == raw[..7] + raw[7..];
  }

  // ---------------------------------------------------------------- the layout of the bytes

  /** At the offset stand the length of the name in one byte and then its characters. */
  predicate NameAt(raw: Bytes, at: nat, s: Name) {
    at + 1 + |s| <= |raw| && raw[at] as int == |s| && forall i :: 0 <= i < |s| ==> raw[at + 1 + i] as int == s[i] as int
  }

  function SizeOf(hops: seq<Name>): nat {
    if hops == [] then 0 else SizeOf(hops[..|hops| - 1]) + 1 + |hops[|hops| - 1]|
  }

  /** Where the k-th hop begins; the payload length follows the last one. */
  function HopAt(f: Frame, k: nat): nat
    requires k <= |f.hops|
  {
    9 + |f.pathId| + |f.ownerNodeId| + SizeOf(f.hops[..k])
  }

  lemma FieldIsNameAt(before: Bytes, s: Name, after: Bytes)
    requires |s| < 256
    ensures NameAt(before + Field(s) + after, |before|, s)
  {
    var raw := before + Field(s) + after;
    assert raw[|before|] == Field(s)[0];
    forall i | 0 <= i < |s|
      ensures raw[|before| + 1 + i] as int == s[i] as int
    {
      assert raw[|before| + 1 + i] == Field(s)[1 + i];
    }
  }

  lemma {:induction false} SizeFromFront(hops: seq<Name>)
    requires hops != []
    ensures SizeOf(hops) == 1 + |hops[0]| + SizeOf(hops[1..])
  {
    if |hops| == 1 {
      assert hops[1..] == [] && hops[..0] == [];
    } else {
      var n := |hops| - 1;
      SizeFromFront(hops[..n]);
      assert hops[..n][1..] == hops[1..][..n - 1];
    }
  }

  lemma {:induction false} HopsAreNames(before: Bytes, hops: seq<Name>, after: Bytes, k: nat)
    requires k < |hops| && forall i :: 0 <= i < |hops| ==> |hops[i]| < 256
    ensures NameAt(before + EncodeHops(hops) + after, |before| + SizeOf(hops[..k]), hops[k])
    decreases |hops|
  {
    var rest := EncodeHops(hops[1..]);
    assert before + EncodeHops(hops) + after == before + Field(hops[0]) + (rest + after);
    if k == 0 {
      FieldIsNameAt(before, hops[0], rest + after);
    } else {
      assert before + EncodeHops(hops) + after == (before + Field(hops[0])) + rest + after;
      HopsAreNames(before + Field(hops[0]), hops[1..], after, k - 1);
      SizeFromFront(hops[..k]);
      assert hops[..k][1..] == hops[1..][..k - 1];
    }
  }

  lemma {:induction false} HopsHaveSize(hops: seq<Name>)
    requires forall i :: 0 <= i < |hops| ==> |hops[i]| < 256
    ensures |EncodeHops(hops)| == SizeOf(hops)
  {
    if hops != [] {
      HopsHaveSize(hops[1..]);
      SizeFromFront(hops);
    }
  }

  lemma LengthIsBigEndian(n: nat)
    requires n < 65536
    ensures |Length16(n)| == 2 && n == 256 * Length16(n)[0] as int + Length16(n)[1] as int
  {
  }

  lemma NamesLayout(before: Bytes, n: Names, after: Bytes, k: nat)
    requires NamesFit(n) && k < |n.hops|
    ensures var raw := before + EncodeNames(n) + after;
            NameAt(raw, |before|, n.pathId) && NameAt(raw, |before| + 1 + |n.pathId|, n.owner) &&
            NameAt(raw, |before| + 2 + |n.pathId| + |n.owner| + SizeOf(n.hops[..k]), n.hops[k])
  {
    hide NameAt, SizeOf, EncodeHops;
    var raw, a, b, hops := before + EncodeNames(n) + after, Field(n.pathId), Field(n.owner), EncodeHops(n.hops);
    assert raw == before + a + (b + hops + after);
    FieldIsNameAt(before, n.pathId, b + hops + after);
    assert raw == (before + a) + b + (hops + after);
    FieldIsNameAt(before + a, n.owner, hops + after);
    assert raw == (before + a + b) + hops + after;
    HopsAreNames(before + a + b, n.hops, after, k);
  }

  lemma NamesSize(n: Names)
    requires NamesFit(n)
    ensures |EncodeNames(n)| == 2 + |n.pathId| + |n.owner| + SizeOf(n.hops)
  {
    HopsHaveSize(n.hops);
  }

  /**
   The bytes of a frame: "BPR1", the flags, the receiving hop and the hop count,
   the length-prefixed names one after the other, the payload length with the
   high byte first, and the payload up to the end.
   */
  lemma EncodeLayout(f: Frame, k: nat)
    requires ValidateBasic(f) && k < |f.hops|
    ensures var raw := Encode(f);
            |raw| == HopAt(f, |f.hops|) + 2 + |f.payload| &&
            raw[0] == 0x42 && raw[1] == 0x50 && raw[2] == 0x52 && raw[3] == 0x31 && raw[4] == (if f.isReturn then 1 else 0) &&
            raw[5] as int == f.hopIndex && raw[6] as int == |f.hops| &&
            NameAt(raw, 7, f.pathId) && NameAt(raw, 8 + |f.pathId|, f.ownerNodeId) && NameAt(raw, HopAt(f, k), f.hops[k])
    ensures var raw, end := Encode(f), HopAt(f, |f.hops|);
            raw[end] as int * 256 + raw[end + 1] as int == |f.payload| && raw[end + 2..] == f.payload
  {
    hide NameAt, EncodeNames, SizeOf, Length16;
    var names, tail := Names(f.pathId, f.ownerNodeId, f.hops), Length16(|f.payload|) + f.payload;
    var raw, end := Encode(f), HopAt(f, |f.hops|);
    assert |Header(f)| == 7 && forall i :: 0 <= i < 7 ==> raw[i] == Header(f)[i];
    NamesLayout(Header(f), names, tail, k);
    NamesSize(names);
    assert f.hops[..|f.hops|] == f.hops;
    LengthIsBigEndian(|f.payload|);
    assert raw[end..] == tail;
    assert raw[end] == tail[0] && raw[end + 1] == tail[1] && raw[end + 2..] == tail[2..];
  }

  // ---------------------------------------------------------------- the code

  /** The length-prefixed names, appended one by one. */
  method MarshalNames(f: Frame) returns (raw: Bytes)
    requires ValidateBasic(f)
    ensures raw == EncodeNames(Names(f.pathId, f.ownerNodeId, f.hops))
  {
    raw := [|f.pathId| as byte] + ToBytes(f.pathId);
    raw := raw + ([|f.ownerNodeId| as byte] + ToBytes(f.ownerNodeId));
    ghost var head := raw;
    for n := 0 to |f.hops|
      invariant raw + EncodeHops(f.hops[n..]) == head + EncodeHops(f.hops)
    {
      assert f.hops[n..][1..] == f.hops[n + 1..];
      ghost var before := raw;
      raw := raw + ([|f.hops[n]| as byte] + ToBytes(f.hops[n]));
      Associates(before, Field(f.hops[n]), EncodeHops(f.hops[n + 1..]));
    }
    assert raw == raw + EncodeHops(f.hops[|f.hops|..]);
  }

  /** Appends the header, the names and the payload. */
  method MarshalFrame(f: Frame) returns (r: Option<Bytes>)
    ensures r == if ValidateBasic(f) then Some(Encode(f)) else None
  {
    if !ValidateBasic(f) {
      return None;
    }
    var raw := MAGIC + [if f.isReturn then 1 else 0, f.hopIndex as byte, |f.hops| as byte];
    var names := MarshalNames(f);
    raw := raw + names + ([(|f.payload| / 256) as byte, (|f.payload| % 256) as byte] + f.payload);
    return Some(raw);
  }

  /** One length-prefixed name; the offset moves past it. */
  method UnmarshalField(raw: Bytes, start: nat, limit: nat) returns (name: Name, next: Option<nat>)
    ensures ReadField(raw, start, limit) == if next.Some? then Some((name, next.value)) else None
    ensures next.Some? ==> start < next.value <= |raw|
  {
    name, next := "", None;
    var offset := start;
    if offset >= |raw| {
      return;
    }
    var length := raw[offset] as int;
    offset := offset + 1;
    if length == 0 || length > limit || offset + length > |raw| {
      return;
    }
    return FromBytes(raw[offset..offset + length]), Some(offset + length);
  }

  function Prepend(hops: seq<Name>, rest: Option<(seq<Name>, nat)>): Option<(seq<Name>, nat)> {
    if rest.None? then None else Some((hops + rest.value.0, rest.value.1))
  }

  method UnmarshalHops(raw: Bytes, start: nat, count: nat) returns (hops: seq<Name>, end: Option<nat>)
    requires start <= |raw|
    ensures ReadHops(raw, start, count) == if end.Some? then Some((hops, end.value)) else None
    ensures end.Some? ==> end.value <= |raw|
  {
    hops, end := [], None;
    var offset: nat := start;
    assert forall rest: seq<Name> :: hops + rest == rest;
    for n := 0 to count
      invariant offset <= |raw|
      invariant ReadHops(raw, start, count) == Prepend(hops, ReadHops(raw, offset, count - n))
    {
      var hop, next := UnmarshalField(raw, offset, 128);
      if next.None? {
        return;
      }
      ghost var rest := ReadHops(raw, next.value, count - n - 1);
      assert rest.Some? ==> hops + ([hop] + rest.value.0) == (hops + [hop]) + rest.value.0;
      hops, offset := hops + [hop], next.value;
    }
    assert hops + [] == hops;
    end := Some(offset);
  }

  /** Moves an offset over arbitrary bytes; every index it uses is in bounds. */
  method UnmarshalFrame(raw: Bytes) returns (r: Option<Frame>)
    ensures r == Decode(raw)
  {
    hide ReadField, ReadHops, ValidateBasic;
    if |raw| < 12 || raw[..4] != MAGIC {
      return None;
    }
    var flags, hopIndex, hopCount := raw[4], raw[5] as int, raw[6] as int;
    var pathId, ownerAt := UnmarshalField(raw, 7, 64);
    if ownerAt.None? {
      return None;
    }
    var owner, hopsAt := UnmarshalField(raw, ownerAt.value, 128);
    if hopsAt.None? || hopCount < 2 || hopCount > MAX_PATH_HOPS {
      return None;
    }
    var hops, end := UnmarshalHops(raw, hopsAt.value, hopCount);
    if end.None? || end.value + 2 > |raw| {
      return None;
    }
    var payloadLen := raw[end.value] as int * 256 + raw[end.value + 1] as int;
    var offset := end.value + 2;
    if payloadLen == 0 || offset + payloadLen != |raw| {
      return None;
    }
    var frame := Frame(pathId, owner, hops, hopIndex, flags == 1, raw[offset..]);
    if flags > 1 || !ValidateBasic(frame) {
      return None;
    }
    return Some(frame);
  }
}
