/** The byte layout of consensus packets. They are written to and read from a
    bytes.Buffer, whose plain Read is content with fewer bytes than asked for. */
module PacketCodec {
  import opened Common
  import opened Encoding
  import opened Types

  const PROPOSAL: byte := 1

  /** Where a decoder can fail. */
  datatype Field =
    | PacketType | Signer | ProposerID | ValidatorID | HashLength | Hash | DataLength | Data
    | SignatureFlag | SignatureLength | Signature

  /** Block data and signature may be absent (nil). */
  datatype Packet = Packet(kind: byte, signer: SignerType, proposerID: Bytes, validatorID: Bytes, blockHash: Bytes,
                           blockData: Option<Bytes>, signature: Option<Bytes>)

  function OrEmpty(b: Option<Bytes>): Bytes {
    match b case Some(v) => v case None => []
  }

  function OrNone(b: Bytes): Option<Bytes> {
    if b == [] then None else Some(b)
  }

  /** The block data that is sent: none unless the packet is a proposal. */
  function SentData(p: Packet): Bytes {
    if p.kind == PROPOSAL then OrEmpty(p.blockData) else []
  }

  /** What survives a round trip. */
  function Normal(p: Packet): Packet {
    p.(signer := NormalSigner(p.signer), blockData := OrNone(SentData(p)), signature := OrNone(OrEmpty(p.signature)))
  }

  // ---------------------------------------------------------------------------
  // Layout

  function Frame(b: Bytes): Bytes { LE(4, |b|) + b }

  function EncodeHead(p: Packet): Bytes {
    LE(1, p.kind) + LE(4, SignerCode(p.signer)) + Frame(p.proposerID) + Frame(p.validatorID)
  }

  function EncodeBody(p: Packet): Bytes { Frame(p.blockHash) + Frame(SentData(p)) }

  function EncodeSignature(signature: Bytes): Bytes {
    LE(1, SignatureFlagOf(signature)) + Frame(signature)
  }

  function Encode(p: Packet): Bytes {
    EncodeHead(p) + EncodeBody(p) + EncodeSignature(OrEmpty(p.signature))
  }

  /** Lengths fit in their 32-bit prefixes. */
  predicate Fits(p: Packet) {
    && |p.proposerID| < 0x1_0000_0000 && |p.validatorID| < 0x1_0000_0000 && |p.blockHash| < 0x1_0000_0000
    && |OrEmpty(p.blockData)| < 0x1_0000_0000 && |OrEmpty(p.signature)| < 0x1_0000_0000
  }

  /** A length and the bytes behind it. */
  predicate FrameAt(bytes: Bytes, offset: nat, b: Bytes) {
    At(bytes, offset, LE(4, |b|)) && At(bytes, offset + 4, b)
  }

  lemma FrameParts(bytes: Bytes, offset: nat, b: Bytes)
    requires At(bytes, offset, Frame(b))
    ensures FrameAt(bytes, offset, b)
  {
    AtParts(bytes, offset, LE(4, |b|), b);
  }

  /** Where the parts of a packet stand: head, body, a flag that says whether there is a
      signature, and the signature behind its length. */
  lemma PartsAt(p: Packet)
    ensures var e, head, body := Encode(p), EncodeHead(p), EncodeBody(p);
            var signature := if p.signature.Some? then p.signature.value else [];
            var flag := |head| + |body|;
            && At(e, 0, head) && At(e, |head|, body) && At(e, flag, [if signature == [] then 0 else 1])
            && FrameAt(e, flag + 1, signature) && |e| == flag + 5 + |signature|
  {
    var e, head, body, signature := Encode(p), EncodeHead(p), EncodeBody(p), OrEmpty(p.signature);
    var flag := LE(1, SignatureFlagOf(signature));
    assert flag == [SignatureFlagOf(signature)];
    assert e == head + body + flag + Frame(signature);
    assert At(e, 0, head + body + flag + Frame(signature));
    AtParts(e, 0, head + body + flag, Frame(signature));
    AtParts(e, 0, head + body, flag);
    AtParts(e, 0, head, body);
    FrameParts(e, |head| + |body| + 1, signature);
  }

  /** Where the fields of the head stand in it. */
  lemma HeadAt(p: Packet)
    ensures var h, n := EncodeHead(p), |p.proposerID|;
            && At(h, 0, [p.kind]) && At(h, 1, LE(4, SignerCode(p.signer)))
            && FrameAt(h, 5, p.proposerID) && FrameAt(h, 9 + n, p.validatorID) && |h| == 13 + n + |p.validatorID|
  {
    var h := EncodeHead(p);
    var p1 := LE(1, p.kind);
    var p2 := p1 + LE(4, SignerCode(p.signer));
    var p3 := p2 + Frame(p.proposerID);
    assert p1 == [p.kind];
    assert At(h, 0, p3 + Frame(p.validatorID));
    AtParts(h, 0, p3, Frame(p.validatorID));
    AtParts(h, 0, p2, Frame(p.proposerID));
    AtParts(h, 0, p1, LE(4, SignerCode(p.signer)));
    FrameParts(h, |p3|, p.validatorID);
    FrameParts(h, |p2|, p.proposerID);
  }

  /** And those of the body; only a proposal carries block data. */
  lemma BodyAt(p: Packet)
    ensures var b, data := EncodeBody(p), if p.kind == 1 && p.blockData.Some? then p.blockData.value else [];
            FrameAt(b, 0, p.blockHash) && FrameAt(b, 4 + |p.blockHash|, data) && |b| == 8 + |p.blockHash| + |data|
  {
    var b := EncodeBody(p);
    assert At(b, 0, Frame(p.blockHash) + Frame(SentData(p)));
    AtParts(b, 0, Frame(p.blockHash), Frame(SentData(p)));
    FrameParts(b, 0, p.blockHash);
    FrameParts(b, 4 + |p.blockHash|, SentData(p));
  }

  // ---------------------------------------------------------------------------
  // Reading from the front of the unread bytes

  datatype Read<+T> = Got(value: T, rest: Bytes) | Failed(at: Field)

  function Zeros(n: nat): (r: Bytes)
    ensures |r| == n
  {
    if n == 0 then [] else [0] + Zeros(n - 1)
  }

  /** binary.Read: all `n` bytes or an error. */
  function ReadUint(n: nat, s: Bytes, at: Field): Read<nat> {
    if |s| < n then Failed(at) else Got(FromLE(s[..n]), s[n..])
  }

  /** Buffer.Read: an error only when nothing at all is left; what is missing stays zero. */
  function ReadSome(n: nat, s: Bytes, at: Field): Read<Bytes> {
    if n <= |s| then Got(s[..n], s[n..]) else if s == [] then Failed(at) else Got(s + Zeros(n - |s|), [])
  }

  /** deserializePeerID: io.ReadFull wants every byte. */
  function ReadPeerID(s: Bytes, at: Field): Read<Bytes> {
    match ReadUint(4, s, at)
    case Failed(e) => Failed(e)
    case Got(n, rest) => if |rest| < n then Failed(at) else Got(rest[..n], rest[n..])
  }

  function ReadFrame(s: Bytes, length: Field, at: Field): Read<Bytes> {
    match ReadUint(4, s, length)
    case Failed(e) => Failed(e)
    case Got(n, rest) => ReadSome(n, rest, at)
  }

  function DecodeHead(s: Bytes): Read<Packet> {
    match ReadUint(1, s, PacketType)
    case Failed(e) => Failed(e)
    case Got(kind, s1) =>
      match ReadUint(4, s1, Signer)
      case Failed(e) => Failed(e)
      case Got(code, s2) =>
        match ReadPeerID(s2, ProposerID)
        case Failed(e) => Failed(e)
        case Got(proposer, s3) =>
          match ReadPeerID(s3, ValidatorID)
          case Failed(e) => Failed(e)
          case Got(validator, s4) => Got(HeadPacket(kind, code, proposer, validator), s4)
  }

  function HeadPacket(kind: nat, code: nat, proposer: Bytes, validator: Bytes): Packet {
    Packet(kind % 0x100, SignerFromCode(code % 0x1_0000_0000), proposer, validator, [], None, None)
  }

  function DecodeBody(s: Bytes, p: Packet): Read<Packet> {
    match ReadFrame(s, HashLength, Hash)
    case Failed(e) => Failed(e)
    case Got(hash, s1) =>
      match ReadFrame(s1, DataLength, Data)
      case Failed(e) => Failed(e)
      case Got(data, s2) =>
        Got(p.(blockHash := hash, blockData := if p.kind == PROPOSAL then OrNone(data) else None), s2)
  }

  function DecodeSignature(s: Bytes): Read<Option<Bytes>> {
    match ReadUint(1, s, SignatureFlag)
    case Failed(e) => Failed(e)
    case Got(flag, s1) =>
      match ReadUint(4, s1, SignatureLength)
      case Failed(e) => Failed(e)
      case Got(n, s2) =>
        if flag == 1 && n > 0 then
          match ReadSome(n, s2, Signature)
          case Failed(e) => Failed(e)
          case Got(signature, s3) => Got(Some(signature), s3)
        else Got(None, s2)
  }

  function Decode(data: Bytes): Result<Packet, Field> {
    match DecodeHead(data)
    case Failed(e) => Err(e)
    case Got(head, s1) =>
      match DecodeBody(s1, head)
      case Failed(e) => Err(e)
      case Got(p, s2) =>
        match DecodeSignature(s2)
        case Failed(e) => Err(e)
        case Got(signature, _) => Ok(p.(signature := signature))
  }

  // ---------------------------------------------------------------------------
  // Round trip

  lemma UintRoundTrip(n: nat, x: nat, tail: Bytes, at: Field)
    requires x < Pow256(n)
    ensures ReadUint(n, LE(n, x) + tail, at) == Got(x, tail)
  {
    FromLEOfLE(n, x);
    assert (LE(n, x) + tail)[..n] == LE(n, x);
  }

  lemma FrameRoundTrip(b: Bytes, tail: Bytes, length: Field, at: Field)
    requires |b| < 0x1_0000_0000
    ensures ReadPeerID(Frame(b) + tail, at) == Got(b, tail)
    ensures ReadFrame(Frame(b) + tail, length, at) == Got(b, tail)
  {
    Widths();
    assert Frame(b) + tail == LE(4, |b|) + (b + tail);
    UintRoundTrip(4, |b|, b + tail, at);
    UintRoundTrip(4, |b|, b + tail, length);
    assert (b + tail)[..|b|] == b && (b + tail)[|b|..] == tail;
  }

  lemma HeadRoundTrip(p: Packet, tail: Bytes)
    requires Fits(p)
    ensures DecodeHead(EncodeHead(p) + tail) ==
            Got(HeadPacket(p.kind, SignerCode(p.signer), p.proposerID, p.validatorID), tail)
  {
    var s3 := Frame(p.validatorID) + tail;
    var s2 := Frame(p.proposerID) + s3;
    var s1 := LE(4, SignerCode(p.signer)) + s2;
    assert EncodeHead(p) + tail == LE(1, p.kind) + s1;
    Widths();
    UintRoundTrip(1, p.kind, s1, PacketType);
    UintRoundTrip(4, SignerCode(p.signer), s2, Signer);
    FrameRoundTrip(p.proposerID, s3, ProposerID, ProposerID);
    FrameRoundTrip(p.validatorID, tail, ValidatorID, ValidatorID);
  }

  lemma BodyRoundTrip(p: Packet, head: Packet, tail: Bytes)
    requires Fits(p) && head.kind == p.kind
    ensures DecodeBody(EncodeBody(p) + tail, head) ==
            Got(head.(blockHash := p.blockHash, blockData := OrNone(SentData(p))), tail)
  {
    assert EncodeBody(p) + tail == Frame(p.blockHash) + (Frame(SentData(p)) + tail);
    FrameRoundTrip(p.blockHash, Frame(SentData(p)) + tail, HashLength, Hash);
    FrameRoundTrip(SentData(p), tail, DataLength, Data);
  }

  function SignatureFlagOf(signature: Bytes): byte { if signature == [] then 0 else 1 }

  lemma TwoIntegers(flag: byte, n: uint32, rest: Bytes)
    ensures ReadUint(1, LE(1, flag) + LE(4, n) + rest, SignatureFlag) == Got(flag, LE(4, n) + rest)
    ensures ReadUint(4, LE(4, n) + rest, SignatureLength) == Got(n, rest)
  {
    Widths();
    assert LE(1, flag) + LE(4, n) + rest == LE(1, flag) + (LE(4, n) + rest);
    UintRoundTrip(1, flag, LE(4, n) + rest, SignatureFlag);
    UintRoundTrip(4, n, rest, SignatureLength);
  }

  /** The first two fields of a signature, before bytes that need not be complete. */
  lemma SignaturePrefix(signature: Bytes, rest: Bytes)
    requires |signature| < 0x1_0000_0000
    ensures DecodeSignature(LE(1, SignatureFlagOf(signature)) + LE(4, |signature|) + rest) ==
            if signature == [] then Got(None, rest)
            else match ReadSome(|signature|, rest, Signature) case Failed(e) => Failed(e) case Got(v, s3) => Got(Some(v), s3)
  {
    TwoIntegers(SignatureFlagOf(signature), |signature|, rest);
  }

  lemma SignatureRoundTrip(signature: Bytes, tail: Bytes)
    requires |signature| < 0x1_0000_0000
    ensures DecodeSignature(EncodeSignature(signature) + tail) == Got(OrNone(signature), tail)
  {
    SignaturePrefix(signature, signature + tail);
    assert EncodeSignature(signature) + tail ==
           LE(1, SignatureFlagOf(signature)) + LE(4, |signature|) + (signature + tail);
    assert (signature + tail)[..|signature|] == signature;
  }

  lemma DecodedParts(data: Bytes, head: Packet, s1: Bytes, p: Packet, s2: Bytes)
    requires DecodeHead(data) == Got(head, s1) && DecodeBody(s1, head) == Got(p, s2)
    ensures Decode(data) ==
            match DecodeSignature(s2) case Failed(e) => Err(e) case Got(signature, _) => Ok(p.(signature := signature))
  {
  }

  /** Whatever the signature part decodes to is put on top of the packet's normal form. */
  lemma DecodedUpToSignature(p: Packet, rest: Bytes)
    requires Fits(p)
    ensures Decode(EncodeHead(p) + EncodeBody(p) + rest) ==
            match DecodeSignature(rest)
            case Failed(e) => Err(e)
            case Got(signature, _) => Ok(Normal(p).(signature := signature))
  {
    var head := HeadPacket(p.kind, SignerCode(p.signer), p.proposerID, p.validatorID);
    var body := head.(blockHash := p.blockHash, blockData := OrNone(SentData(p)));
    var s1 := EncodeBody(p) + rest;
    assert EncodeHead(p) + EncodeBody(p) + rest == EncodeHead(p) + s1;
    HeadRoundTrip(p, s1);
    BodyRoundTrip(p, head, rest);
    DecodedParts(EncodeHead(p) + s1, head, s1, body, rest);
    HeadAndBody(p);
    SameButSignature(body, Normal(p), DecodeSignature(rest));
  }

  lemma SameButSignature(p: Packet, q: Packet, r: Read<Option<Bytes>>)
    requires p == q.(signature := None)
    ensures r.Got? ==> p.(signature := r.value) == q.(signature := r.value)
  {
  }

  lemma HeadAndBody(p: Packet)
    ensures HeadPacket(p.kind, SignerCode(p.signer), p.proposerID, p.validatorID)
              .(blockHash := p.blockHash, blockData := OrNone(SentData(p))) == Normal(p).(signature := None)
  {
  }

  /** Decoding an encoded packet followed by anything gives its normal form. */
  lemma RoundTrip(p: Packet, tail: Bytes)
    requires Fits(p)
    ensures Decode(Encode(p) + tail) == Ok(Normal(p))
  {
    var signature := OrEmpty(p.signature);
    assert Encode(p) + tail == EncodeHead(p) + EncodeBody(p) + (EncodeSignature(signature) + tail);
    SignatureRoundTrip(signature, tail);
    DecodedWithSignature(p, EncodeSignature(signature) + tail, OrNone(signature), tail);
  }

  lemma DecodedWithSignature(p: Packet, rest: Bytes, signature: Option<Bytes>, end: Bytes)
    requires Fits(p) && DecodeSignature(rest) == Got(signature, end)
    ensures Decode(EncodeHead(p) + EncodeBody(p) + rest) == Ok(Normal(p).(signature := signature))
  {
    DecodedUpToSignature(p, rest);
  }

  /** Two packets have the same bytes exactly when they have the same normal form. */
  lemma SameBytesSameNormal(p: Packet, q: Packet)
    requires Fits(p) && Fits(q)
    ensures Encode(p) == Encode(q) <==> Normal(p) == Normal(q)
  {
    RoundTrip(p, []);
    RoundTrip(q, []);
    assert Encode(p) + [] == Encode(p) && Encode(q) + [] == Encode(q);
    NormalEncodesAlike(p);
    NormalEncodesAlike(q);
  }

  lemma NormalEncodesAlike(p: Packet)
    ensures Encode(Normal(p)) == Encode(p) && Normal(Normal(p)) == Normal(p)
  {
    assert SignerCode(NormalSigner(p.signer)) == SignerCode(p.signer);
  }

  /** Every packet the decoder returns, from any bytes, is in normal form. */
  lemma DecodedIsNormal(data: Bytes)
    requires Decode(data).Ok?
    ensures Normal(Decode(data).value) == Decode(data).value
  {
  }

  // ---------------------------------------------------------------------------
  // Truncated packets

  lemma LengthKept(b: Bytes, rest: Bytes, k: nat, at: Field)
    requires |b| < 0x1_0000_0000 && 4 <= k < |Frame(b)|
    ensures ReadUint(4, (Frame(b) + rest)[..k], at) == Got(|b|, b[..k - 4])
  {
    Widths();
    assert (Frame(b) + rest)[..k] == LE(4, |b|) + b[..k - 4];
    UintRoundTrip(4, |b|, b[..k - 4], at);
  }

  /** A frame cut short is an error, or leaves nothing to read. */
  lemma FrameTruncated(b: Bytes, rest: Bytes, k: nat, length: Field, at: Field)
    requires |b| < 0x1_0000_0000 && k < |Frame(b)|
    ensures ReadPeerID((Frame(b) + rest)[..k], at).Failed?
    ensures var r := ReadFrame((Frame(b) + rest)[..k], length, at); r.Failed? || r.rest == []
  {
    if k >= 4 {
      LengthKept(b, rest, k, at);
      LengthKept(b, rest, k, length);
    }
  }

  /** Cutting inside `a + b`: either inside `a`, or behind the whole of it. */
  lemma Cut(a: Bytes, b: Bytes, k: nat)
    requires k <= |a| + |b|
    ensures |a| <= k ==> (a + b)[..k] == a + b[..k - |a|]
  {
  }

  lemma HeadTruncated(p: Packet, rest: Bytes, k: nat)
    requires Fits(p) && k < |EncodeHead(p)|
    ensures DecodeHead((EncodeHead(p) + rest)[..k]).Failed?
  {
    var code := SignerCode(p.signer);
    var s3 := Frame(p.validatorID) + rest;
    var s2 := Frame(p.proposerID) + s3;
    var s1 := LE(4, code) + s2;
    assert EncodeHead(p) + rest == LE(1, p.kind) + s1;
    Widths();
    if k >= 1 {
      Cut(LE(1, p.kind), s1, k);
      UintRoundTrip(1, p.kind, s1[..k - 1], PacketType);
      if k >= 5 {
        Cut(LE(4, code), s2, k - 1);
        UintRoundTrip(4, code, s2[..k - 5], Signer);
        PeersTruncated(p, rest, k - 5);
      }
    }
  }

  lemma PeersTruncated(p: Packet, rest: Bytes, k: nat)
    requires Fits(p) && k < |Frame(p.proposerID)| + |Frame(p.validatorID)|
    ensures var r := ReadPeerID((Frame(p.proposerID) + (Frame(p.validatorID) + rest))[..k], ProposerID);
            r.Failed? || ReadPeerID(r.rest, ValidatorID).Failed?
  {
    var f, s3 := Frame(p.proposerID), Frame(p.validatorID) + rest;
    if k < |f| {
      FrameTruncated(p.proposerID, s3, k, ProposerID, ProposerID);
    } else {
      Cut(f, s3, k);
      FrameRoundTrip(p.proposerID, s3[..k - |f|], ProposerID, ProposerID);
      FrameTruncated(p.validatorID, rest, k - |f|, ValidatorID, ValidatorID);
    }
  }

  lemma BodyTruncated(p: Packet, head: Packet, rest: Bytes, k: nat)
    requires Fits(p) && k < |EncodeBody(p)|
    ensures var r := DecodeBody((EncodeBody(p) + rest)[..k], head); r.Failed? || r.rest == []
  {
    var f, s1 := Frame(p.blockHash), Frame(SentData(p)) + rest;
    assert EncodeBody(p) + rest == f + s1;
    if k < |f| {
      FrameTruncated(p.blockHash, s1, k, HashLength, Hash);
    } else {
      Cut(f, s1, k);
      FrameRoundTrip(p.blockHash, s1[..k - |f|], HashLength, Hash);
      FrameTruncated(SentData(p), rest, k - |f|, DataLength, Data);
    }
  }

  lemma SignatureTruncated(signature: Bytes, k: nat)
    requires |signature| < 0x1_0000_0000 && k < |EncodeSignature(signature)|
    ensures DecodeSignature(EncodeSignature(signature)[..k]) ==
            if k == 0 then Failed(SignatureFlag)
            else if k < 5 then Failed(SignatureLength)
            else if k == 5 then Failed(Signature)
            else Got(Some(signature[..k - 5] + Zeros(|signature| - (k - 5))), [])
  {
    var flag := SignatureFlagOf(signature);
    var s := EncodeSignature(signature);
    if 0 < k < 5 {
      Widths();
      Cut(LE(1, flag), Frame(signature), k);
      UintRoundTrip(1, flag, Frame(signature)[..k - 1], SignatureFlag);
    } else if k >= 5 {
      assert s == LE(1, flag) + LE(4, |signature|) + signature;
      Cut(LE(1, flag) + LE(4, |signature|), signature, k);
      SignaturePrefix(signature, signature[..k - 5]);
    }
  }

  lemma TruncatedBeforeSignature(p: Packet, k: nat)
    requires Fits(p) && k < |EncodeHead(p)| + |EncodeBody(p)|
    ensures Decode(Encode(p)[..k]).Err?
  {
    var head, body, last := EncodeHead(p), EncodeBody(p), EncodeSignature(OrEmpty(p.signature));
    assert Encode(p) == head + (body + last);
    if k < |head| {
      HeadTruncated(p, body + last, k);
    } else {
      Cut(head, body + last, k);
      HeadRoundTrip(p, (body + last)[..k - |head|]);
      var h := HeadPacket(p.kind, SignerCode(p.signer), p.proposerID, p.validatorID);
      BodyTruncated(p, h, last, k - |head|);
    }
  }

  /** A packet cut short is refused exactly when not one byte of its signature is left;
      otherwise it is accepted with zeros for the bytes that are missing. */
  lemma TruncationAcceptedExactly(p: Packet, k: nat)
    requires Fits(p) && k < |Encode(p)|
    ensures Decode(Encode(p)[..k]).Ok? <==> |Encode(p)| - k < |OrEmpty(p.signature)|
    ensures Decode(Encode(p)[..k]).Ok? ==>
              var kept := |OrEmpty(p.signature)| - (|Encode(p)| - k);
              Decode(Encode(p)[..k]).value ==
              Normal(p).(signature := Some(OrEmpty(p.signature)[..kept] + Zeros(|Encode(p)| - k)))
  {
    var front, signature := EncodeHead(p) + EncodeBody(p), OrEmpty(p.signature);
    if k < |front| {
      TruncatedBeforeSignature(p, k);
    } else {
      Cut(front, EncodeSignature(signature), k);
      DecodedUpToSignature(p, EncodeSignature(signature)[..k - |front|]);
      SignatureTruncated(signature, k - |front|);
    }
  }

  // ---------------------------------------------------------------------------
  // The buffer

  /** bytes.Buffer, by the bytes written and not yet read. */
  class Buffer {
    var unread: Bytes

    constructor (data: Bytes)
      ensures unread == data
    {
      unread := data;
    }

    method Write(p: Bytes)
      modifies this
      ensures unread == old(unread) + p
    {
      unread := unread + p;
    }

    /** Fills `n` bytes as far as possible; an error only if there is nothing to read. */
    method Read(n: nat, at: Field) returns (r: Option<Bytes>)
      modifies this
      ensures match ReadSome(n, old(unread), at)
              case Failed(_) => r == None
              case Got(bytes, rest) => r == Some(bytes) && unread == rest
    {
      if unread == [] {
        r := if n == 0 then Some([]) else None;
        return;
      }
      var count := if n < |unread| then n else |unread|;
      assert n <= |unread| ==> unread[..count] + [] == unread[..n];
      assert n > |unread| ==> unread[..count] == unread && unread[count..] == [];
      r := Some(unread[..count] + Zeros(n - count));
      unread := unread[count..];
    }

    /** io.ReadFull. */
    method ReadFull(n: nat) returns (r: Option<Bytes>)
      modifies this
      ensures if |old(unread)| < n then r == None else r == Some(old(unread)[..n]) && unread == old(unread)[n..]
    {
      if |unread| < n {
        unread := [];
        return None;
      }
      r := Some(unread[..n]);
      unread := unread[n..];
    }

    method ReadInteger(n: nat, at: Field) returns (r: Option<nat>)
      modifies this
      ensures match ReadUint(n, old(unread), at)
              case Failed(_) => r == None
              case Got(x, rest) => r == Some(x) && unread == rest
    {
      var bytes := ReadFull(n);
      r := if bytes.None? then None else Some(FromLE(bytes.value));
    }
  }

  method SerializePeerID(buffer: Buffer, id: Bytes)
    modifies buffer
    ensures buffer.unread == old(buffer.unread) + Frame(id)
  {
    buffer.Write(LE(4, |id|));
    buffer.Write(id);
  }

  method DeserializePeerID(buffer: Buffer, at: Field) returns (r: Option<Bytes>)
    modifies buffer
    ensures match ReadPeerID(old(buffer.unread), at)
            case Failed(_) => r == None
            case Got(id, rest) => r == Some(id) && buffer.unread == rest
  {
    var n := buffer.ReadInteger(4, at);
    if n.None? {
      return None;
    }
    r := buffer.ReadFull(n.value);
  }

  method SerializeHead(buffer: Buffer, p: Packet)
    modifies buffer
    ensures buffer.unread == old(buffer.unread) + EncodeHead(p)
  {
    buffer.Write(LE(1, p.kind));
    buffer.Write(LE(4, SignerCode(p.signer)));
    SerializePeerID(buffer, p.proposerID);
    SerializePeerID(buffer, p.validatorID);
  }

  method SerializeBody(buffer: Buffer, p: Packet)
    modifies buffer
    ensures buffer.unread == old(buffer.unread) + EncodeBody(p)
  {
    ghost var before := buffer.unread;
    buffer.Write(LE(4, |p.blockHash|));
    buffer.Write(p.blockHash);
    assert buffer.unread == before + Frame(p.blockHash);
    if p.kind == PROPOSAL {
      var data := OrEmpty(p.blockData);
      buffer.Write(LE(4, |data|));
      buffer.Write(data);
    } else {
      buffer.Write(LE(4, 0));
    }
    assert buffer.unread == before + Frame(p.blockHash) + Frame(SentData(p));
  }

  method SerializeSignature(buffer: Buffer, signature: Option<Bytes>)
    modifies buffer
    ensures buffer.unread == old(buffer.unread) + EncodeSignature(OrEmpty(signature))
  {
    if signature.Some? && |signature.value| > 0 {
      buffer.Write(LE(1, 1));
      buffer.Write(LE(4, |signature.value|));
      buffer.Write(signature.value);
    } else {
      buffer.Write(LE(1, 0));
      buffer.Write(LE(4, 0));
    }
  }

  method Serialize(p: Packet) returns (bytes: Bytes)
    ensures bytes == Encode(p)
  {
    var buffer := new Buffer([]);
    SerializeHead(buffer, p);
    SerializeBody(buffer, p);
    SerializeSignature(buffer, p.signature);
    bytes := buffer.unread;
    assert [] + EncodeHead(p) == EncodeHead(p);
  }

  method DeserializeHead(buffer: Buffer) returns (r: Result<Packet, Field>)
    modifies buffer
    ensures match DecodeHead(old(buffer.unread))
            case Failed(e) => r == Err(e)
            case Got(p, rest) => r == Ok(p) && buffer.unread == rest
  {
    var kind := buffer.ReadInteger(1, PacketType);
    if kind.None? {
      return Err(PacketType);
    }
    var code := buffer.ReadInteger(4, Signer);
    if code.None? {
      return Err(Signer);
    }
    var proposer := DeserializePeerID(buffer, ProposerID);
    if proposer.None? {
      return Err(ProposerID);
    }
    var validator := DeserializePeerID(buffer, ValidatorID);
    if validator.None? {
      return Err(ValidatorID);
    }
    r := Ok(HeadPacket(kind.value, code.value, proposer.value, validator.value));
  }

  method DeserializeFrame(buffer: Buffer, length: Field, at: Field) returns (r: Result<Bytes, Field>)
    modifies buffer
    ensures match ReadFrame(old(buffer.unread), length, at)
            case Failed(e) => r == Err(e)
            case Got(bytes, rest) => r == Ok(bytes) && buffer.unread == rest
  {
    var n := buffer.ReadInteger(4, length);
    if n.None? {
      return Err(length);
    }
    var bytes := buffer.Read(n.value, at);
    r := if bytes.None? then Err(at) else Ok(bytes.value);
  }

  method DeserializeSignature(buffer: Buffer) returns (r: Result<Option<Bytes>, Field>)
    modifies buffer
    ensures match DecodeSignature(old(buffer.unread))
            case Failed(e) => r == Err(e)
            case Got(signature, _) => r == Ok(signature)
  {
    var flag := buffer.ReadInteger(1, SignatureFlag);
    if flag.None? {
      return Err(SignatureFlag);
    }
    var length := buffer.ReadInteger(4, SignatureLength);
    if length.None? {
      return Err(SignatureLength);
    }
    if flag.value == 1 && length.value > 0 {
      var signature := buffer.Read(length.value, Signature);
      return if signature.None? then Err(Signature) else Ok(signature);
    }
    r := Ok(None);
  }

  method Deserialize(data: Bytes) returns (r: Result<Packet, Field>)
    ensures r == Decode(data)
  {
    var buffer := new Buffer(data);
    var head := DeserializeHead(buffer);
    if head.Err? {
      return head;
    }
    var hash := DeserializeFrame(buffer, HashLength, Hash);
    if hash.Err? {
      return Err(hash.error);
    }
    var blockData := DeserializeFrame(buffer, DataLength, Data);
    if blockData.Err? {
      return Err(blockData.error);
    }
    var p := head.value.(blockHash := hash.value);
    if p.kind == PROPOSAL {
      p := p.(blockData := OrNone(blockData.value));
    }
    var signature := DeserializeSignature(buffer);
    if signature.Err? {
      return Err(signature.error);
    }
    r := Ok(p.(signature := signature.value));
  }
}
