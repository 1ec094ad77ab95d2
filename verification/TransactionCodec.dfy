/** The byte layout of a transaction: encoder, decoder, and that the decoder recovers
    what was encoded. */
module TransactionCodec {
  import opened Common
  import opened Encoding
  import opened Types

  const FIXED_SIZE := 112
  const MIN_SIZE := 116

  /** The fields of fixed width, up to and including the signature length. */
  function EncodeFixed(tx: Transaction): (r: Bytes)
    ensures |r| == FIXED_SIZE
  {
    var id: Bytes := tx.id;
    id + tx.sender + tx.recipient +
    LE(8, tx.amount) + LE(8, tx.fee) + LE(8, tx.nonce) + LE(8, ToUint64(tx.timestamp)) +
    LE(4, SignerCode(tx.signatureType)) + LE(4, |tx.signature|)
  }

  /** The total the source computes, in 32-bit arithmetic. */
  function EncodedSize(tx: Transaction): nat {
    FIXED_SIZE + |tx.signature| + 4 + |tx.payload|
  }

  predicate Fits(tx: Transaction) { EncodedSize(tx) < 0x1_0000_0000 }

  function Encode(tx: Transaction): (r: Bytes)
    ensures |r| == EncodedSize(tx)
  {
    EncodeFixed(tx) + tx.signature + LE(4, |tx.payload|) + tx.payload
  }

  lemma FixedSlices(tx: Transaction)
    ensures var f := EncodeFixed(tx);
            && At(f, 0, tx.id) && At(f, 32, tx.sender) && At(f, 52, tx.recipient)
            && At(f, 72, LE(8, tx.amount)) && At(f, 80, LE(8, tx.fee)) && At(f, 88, LE(8, tx.nonce))
            && At(f, 96, LE(8, ToUint64(tx.timestamp)))
            && At(f, 104, LE(4, SignerCode(tx.signatureType))) && At(f, 108, LE(4, |tx.signature|))
  {
    var f := EncodeFixed(tx);
    var p1: Bytes := tx.id;
    var p2 := p1 + tx.sender;
    var p3 := p2 + tx.recipient;
    var p4 := p3 + LE(8, tx.amount);
    var p5 := p4 + LE(8, tx.fee);
    var p6 := p5 + LE(8, tx.nonce);
    var p7 := p6 + LE(8, ToUint64(tx.timestamp));
    var p8 := p7 + LE(4, SignerCode(tx.signatureType));
    assert At(f, 0, p8 + LE(4, |tx.signature|));
    AtParts(f, 0, p8, LE(4, |tx.signature|));
    AtParts(f, 0, p7, LE(4, SignerCode(tx.signatureType)));
    AtParts(f, 0, p6, LE(8, ToUint64(tx.timestamp)));
    AtParts(f, 0, p5, LE(8, tx.nonce));
    AtParts(f, 0, p4, LE(8, tx.fee));
    AtParts(f, 0, p3, LE(8, tx.amount));
    AtParts(f, 0, p2, tx.recipient);
    AtParts(f, 0, p1, tx.sender);
  }

  /** Where the parts of variable length stand. */
  lemma PartsAt(tx: Transaction)
    ensures var e := Encode(tx);
            var n := |tx.signature|;
            && At(e, 0, EncodeFixed(tx)) && At(e, 112, tx.signature)
            && At(e, 112 + n, LE(4, |tx.payload|)) && At(e, 116 + n, tx.payload)
  {
    var e := Encode(tx);
    var p1 := EncodeFixed(tx);
    var p2 := p1 + tx.signature;
    var p3 := p2 + LE(4, |tx.payload|);
    assert At(e, 0, p3 + tx.payload);
    AtParts(e, 0, p3, tx.payload);
    AtParts(e, 0, p2, LE(4, |tx.payload|));
    AtParts(e, 0, p1, tx.signature);
  }

  /** What the decoder makes of any bytes: an error, or the transaction at their front.
      Bytes after the payload are ignored. */
  function Decode(data: Bytes): Result<Transaction, DecodeError> {
    if |data| < MIN_SIZE then Err(ShortTransaction)
    else
      var signatureEnd := FIXED_SIZE + ReadUint32(data[108..112]);
      if signatureEnd > |data| then Err(ShortSignature)
      else if signatureEnd + 4 > |data| then Err(ShortPayloadLength)
      else
        var payloadEnd := signatureEnd + 4 + ReadUint32(data[signatureEnd..signatureEnd + 4]);
        if payloadEnd > |data| then Err(ShortPayload)
        else Ok(Transaction(
                  data[..32], data[32..52], data[52..72],
                  ReadUint64(data[72..80]), ReadUint64(data[80..88]), ReadUint64(data[88..96]),
                  ToInt64(ReadUint64(data[96..104])), data[FIXED_SIZE..signatureEnd],
                  SignerFromCode(ReadUint32(data[104..108])), data[signatureEnd + 4..payloadEnd]))
  }

  /** What survives a round trip: everything but a signature type without a code. */
  function Normal(tx: Transaction): Transaction {
    tx.(signatureType := NormalSigner(tx.signatureType))
  }

  lemma SliceAt(a: Bytes, b: Bytes, c: Bytes)
    ensures (a + b + c)[|a|..|a| + |b|] == b
  {
  }

  lemma AtFront(data: Bytes, f: Bytes, offset: nat, part: Bytes)
    requires f <= data && At(f, offset, part)
    ensures At(data, offset, part)
  {
    assert data[offset..offset + |part|] == f[offset..offset + |part|];
  }

  lemma FixedRoundTrip(tx: Transaction, data: Bytes)
    requires Fits(tx) && EncodeFixed(tx) <= data
    ensures |data| >= FIXED_SIZE
    ensures data[..32] == tx.id && data[32..52] == tx.sender && data[52..72] == tx.recipient
    ensures ReadUint64(data[72..80]) == tx.amount && ReadUint64(data[80..88]) == tx.fee
    ensures ReadUint64(data[88..96]) == tx.nonce && ToInt64(ReadUint64(data[96..104])) == tx.timestamp
    ensures ReadUint32(data[104..108]) == SignerCode(tx.signatureType) && ReadUint32(data[108..112]) == |tx.signature|
  {
    var f := EncodeFixed(tx);
    FixedSlices(tx);
    AtFront(data, f, 0, tx.id);
    AtFront(data, f, 32, tx.sender);
    AtFront(data, f, 52, tx.recipient);
    AtFront(data, f, 72, LE(8, tx.amount));
    AtFront(data, f, 80, LE(8, tx.fee));
    AtFront(data, f, 88, LE(8, tx.nonce));
    AtFront(data, f, 96, LE(8, ToUint64(tx.timestamp)));
    AtFront(data, f, 104, LE(4, SignerCode(tx.signatureType)));
    AtFront(data, f, 108, LE(4, |tx.signature|));
    Uint64RoundTrip(tx.amount);
    Uint64RoundTrip(tx.fee);
    Uint64RoundTrip(tx.nonce);
    Uint64RoundTrip(ToUint64(tx.timestamp));
    Uint32RoundTrip(SignerCode(tx.signatureType));
    Uint32RoundTrip(|tx.signature|);
  }

  /** Decoding an encoded transaction followed by anything gives it back. */
  lemma RoundTrip(tx: Transaction, tail: Bytes)
    requires Fits(tx)
    ensures Decode(Encode(tx) + tail) == Ok(Normal(tx))
  {
    var data := Encode(tx) + tail;
    var f, l := EncodeFixed(tx), LE(4, |tx.payload|);
    FixedRoundTrip(tx, data);
    assert data == f + tx.signature + (l + tx.payload + tail);
    SliceAt(f, tx.signature, l + tx.payload + tail);
    assert data == (f + tx.signature) + l + (tx.payload + tail);
    SliceAt(f + tx.signature, l, tx.payload + tail);
    assert data == (f + tx.signature + l) + tx.payload + tail;
    SliceAt(f + tx.signature + l, tx.payload, tail);
    Uint32RoundTrip(|tx.payload|);
  }

  lemma ExactRoundTrip(tx: Transaction)
    requires Fits(tx)
    ensures |Encode(tx)| < 0x1_0000_0000 && Decode(Encode(tx)) == Ok(Normal(tx))
  {
    RoundTrip(tx, []);
    assert Encode(tx) + [] == Encode(tx);
  }

  lemma Joined(data: Bytes, i: nat, j: nat, k: nat)
    requires i <= j <= k <= |data|
    ensures data[i..j] + data[j..k] == data[i..k]
  {
  }

  lemma DecodedFixed(data: Bytes, tx: Transaction)
    requires |data| >= FIXED_SIZE && |tx.signature| < 0x1_0000_0000
    requires tx.id == data[..32] && tx.sender == data[32..52] && tx.recipient == data[52..72]
    requires tx.amount == ReadUint64(data[72..80]) && tx.fee == ReadUint64(data[80..88])
    requires tx.nonce == ReadUint64(data[88..96]) && tx.timestamp == ToInt64(ReadUint64(data[96..104]))
    requires |tx.signature| == ReadUint32(data[108..112])
    ensures EncodeFixed(tx) == data[..104] + LE(4, SignerCode(tx.signatureType)) + data[108..112]
  {
    Reencoded(data[72..80]);
    Reencoded(data[80..88]);
    Reencoded(data[88..96]);
    Reencoded(data[96..104]);
    Reencoded(data[108..112]);
    Joined(data, 0, 32, 52);
    Joined(data, 0, 52, 72);
    Joined(data, 0, 72, 80);
    Joined(data, 0, 80, 88);
    Joined(data, 0, 88, 96);
    Joined(data, 0, 96, 104);
    assert data[..32] == data[0..32] && data[..104] == data[0..104];
  }

  /** The decoder accepts nothing but encodings: whatever it reads, encoding the result
      gives back the bytes it consumed, except that an unknown signature code is
      written in its canonical form. */
  lemma DecodedIsEncoded(data: Bytes, tx: Transaction)
    requires Decode(data) == Ok(tx) && Fits(tx)
    ensures EncodedSize(tx) <= |data|
    ensures Encode(tx) == data[..104] + LE(4, SignerCode(tx.signatureType)) + data[108..EncodedSize(tx)]
    ensures tx == Normal(tx)
  {
    var signatureEnd, end := FIXED_SIZE + |tx.signature|, EncodedSize(tx);
    var head := data[..104] + LE(4, SignerCode(tx.signatureType));
    DecodedFixed(data, tx);
    DecodedRest(data, tx, signatureEnd, end, head);
  }

  lemma AppendJoined(head: Bytes, data: Bytes, i: nat, j: nat, k: nat)
    requires i <= j <= k <= |data|
    ensures head + data[i..j] + data[j..k] == head + data[i..k]
  {
    Joined(data, i, j, k);
  }

  lemma DecodedRest(data: Bytes, tx: Transaction, signatureEnd: nat, end: nat, head: Bytes)
    requires FIXED_SIZE <= signatureEnd && signatureEnd + 4 <= end <= |data|
    requires EncodeFixed(tx) == head + data[108..112]
    requires tx.signature == data[112..signatureEnd] && tx.payload == data[signatureEnd + 4..end]
    requires |tx.payload| == ReadUint32(data[signatureEnd..signatureEnd + 4])
    ensures Encode(tx) == head + data[108..end]
  {
    Reencoded(data[signatureEnd..signatureEnd + 4]);
    AppendJoined(head, data, 108, 112, signatureEnd);
    AppendJoined(head, data, 108, signatureEnd, signatureEnd + 4);
    AppendJoined(head, data, 108, signatureEnd + 4, end);
  }

  /** What is read from fewer than 2^32 bytes can be written again. */
  lemma DecodedFits(data: Bytes, tx: Transaction)
    requires |data| < 0x1_0000_0000 && Decode(data) == Ok(tx)
    ensures Fits(tx) && Normal(tx) == tx
  {
  }

  /** The transaction with the bytes that 32-bit lengths keep. */
  function Truncated(tx: Transaction): (r: Transaction)
    ensures Fits(tx) ==> r == tx
  {
    tx.(signature := Kept(tx.signature), payload := Kept(tx.payload))
  }

  lemma SameFixed(tx: Transaction)
    ensures EncodeFixed(tx) == EncodeFixed(Truncated(tx))
  {
    LengthBytes(tx.signature);
    assert |Kept(tx.signature)| == Length32(tx.signature);
  }

  /** The encoder: an offset moves over a buffer of the precomputed size. Beyond the
      domain of this contract the source runs out of that buffer. */
  method Serialize(tx: Transaction) returns (buf: array<byte>)
    requires Fits(Truncated(tx))
    ensures fresh(buf) && buf[..] == Encode(Truncated(tx))
  {
    SameFixed(tx);
    buf := new byte[EncodedSize(Truncated(tx))];
    var offset := SerializeFixed(tx, buf);
    CopyKept(buf, offset, tx.signature);
    offset := offset + Length32(tx.signature);
    PutUint(buf, offset, 4, Length32(tx.payload));
    offset := offset + 4;
    CopyKept(buf, offset, tx.payload);
    offset := offset + Length32(tx.payload);
    assert offset == buf.Length && buf[..offset] == buf[..];
  }

  method SerializeFixed(tx: Transaction, buf: array<byte>) returns (offset: nat)
    requires buf.Length >= FIXED_SIZE
    modifies buf
    ensures offset == FIXED_SIZE && buf[..offset] == EncodeFixed(tx)
  {
    offset := 0;
    CopyInto(buf, offset, tx.id);
    assert buf[..32] == tx.id;
    offset := offset + HASH_SIZE;
    CopyInto(buf, offset, tx.sender);
    offset := offset + ADDRESS_SIZE;
    CopyInto(buf, offset, tx.recipient);
    offset := offset + ADDRESS_SIZE;
    PutUint(buf, offset, 8, tx.amount);
    offset := offset + 8;
    PutUint(buf, offset, 8, tx.fee);
    offset := offset + 8;
    PutUint(buf, offset, 8, tx.nonce);
    offset := offset + 8;
    PutUint(buf, offset, 8, ToUint64(tx.timestamp));
    offset := offset + 8;
    PutUint(buf, offset, 4, SignerCode(tx.signatureType));
    offset := offset + 4;
    PutUint(buf, offset, 4, |tx.signature|);
    offset := offset + 4;
  }

  /** The decoder, with the source's checks before each read. */
  method Deserialize(data: Bytes) returns (r: Result<Transaction, DecodeError>)
    ensures r == Decode(data)
  {
    if |data| < MIN_SIZE {
      return Err(ShortTransaction);
    }
    var offset := 0;
    var id: Digest := data[offset..offset + HASH_SIZE];
    offset := offset + HASH_SIZE;
    var sender: Address := data[offset..offset + ADDRESS_SIZE];
    offset := offset + ADDRESS_SIZE;
    var recipient: Address := data[offset..offset + ADDRESS_SIZE];
    offset := offset + ADDRESS_SIZE;
    var amount := ReadUint64(data[offset..offset + 8]);
    offset := offset + 8;
    var fee := ReadUint64(data[offset..offset + 8]);
    offset := offset + 8;
    var nonce := ReadUint64(data[offset..offset + 8]);
    offset := offset + 8;
    var timestamp := ToInt64(ReadUint64(data[offset..offset + 8]));
    offset := offset + 8;
    var signatureType := SignerFromCode(ReadUint32(data[offset..offset + 4]));
    offset := offset + 4;
    var signatureLength := ReadUint32(data[offset..offset + 4]);
    offset := offset + 4;
    if offset + signatureLength > |data| {
      return Err(ShortSignature);
    }
    var signature := data[offset..offset + signatureLength];
    offset := offset + signatureLength;
    if offset + 4 > |data| {
      return Err(ShortPayloadLength);
    }
    var payloadLength := ReadUint32(data[offset..offset + 4]);
    offset := offset + 4;
    if offset + payloadLength > |data| {
      return Err(ShortPayload);
    }
    var payload := data[offset..offset + payloadLength];
    r := Ok(Transaction(id, sender, recipient, amount, fee, nonce, timestamp, signature, signatureType, payload));
  }
}
