/** The byte layout of a block, with its nested transactions and finalizer addresses. */
module BlockCodec {
  import opened Common
  import opened Encoding
  import opened Types
  import Tx = TransactionCodec

  const FIXED_SIZE := 120
  const MIN_SIZE := 156

  /** Index to signature length: all fields of fixed width before the signature. */
  function EncodeFixed(b: Block): (r: Bytes)
    ensures |r| == FIXED_SIZE
  {
    LE(8, b.index) + LE(8, ToUint64(b.timestamp)) + b.previousHash + b.hash + b.merkleRoot +
    LE(4, SignerCode(b.signatureType)) + LE(4, |b.signature|)
  }

  /** Validator to transaction count: those after it. */
  function EncodeMiddle(b: Block): (r: Bytes)
    ensures |r| == 36
  {
    var validator: Bytes := b.validatorID;
    validator + LE(8, b.difficulty) + LE(4, b.version) + LE(4, |b.transactions|)
  }

  function Map<A, B>(f: A -> B, xs: seq<A>): (r: seq<B>)
    ensures |r| == |xs| && forall i :: 0 <= i < |r| ==> r[i] == f(xs[i])
  {
    seq(|xs|, i requires 0 <= i < |xs| => f(xs[i]))
  }

  /** Each part behind its length. */
  function EncodeFrames(parts: seq<Bytes>): Bytes {
    if parts == [] then [] else LE(4, |parts[0]|) + parts[0] + EncodeFrames(parts[1..])
  }

  function EncodeAddresses(addresses: seq<Address>): (r: Bytes)
    ensures |r| == ADDRESS_SIZE * |addresses|
  {
    if addresses == [] then [] else
      var first: Bytes := addresses[0];
      first + EncodeAddresses(addresses[1..])
  }

  /** All lengths fit in the 32-bit prefixes that hold them. */
  predicate Fits(b: Block) {
    && |b.signature| < 0x1_0000_0000 && |b.transactions| < 0x1_0000_0000 && |b.finalizedBy| < 0x1_0000_0000
    && forall i :: 0 <= i < |b.transactions| ==> Tx.Fits(b.transactions[i])
  }

  function Encode(b: Block): Bytes {
    EncodeFixed(b) + b.signature + EncodeMiddle(b) + EncodeFrames(Map(Tx.Encode, b.transactions)) +
    LE(4, |b.finalizedBy|) + EncodeAddresses(b.finalizedBy)
  }

  // ---------------------------------------------------------------------------
  // Decoding

  /** What was read from an offset, and the offset behind it. */
  datatype Read<+T> = Got(value: T, end: nat) | Failed(error: DecodeError)

  function Prepend<T>(items: seq<T>, r: Read<seq<T>>): Read<seq<T>> {
    match r
    case Got(rest, end) => Got(items + rest, end)
    case Failed(_) => r
  }

  /** One item behind its length, decoded as soon as it is cut out. */
  function DecodeFrame<T>(decode: Bytes -> Result<T, DecodeError>, data: Bytes, offset: nat): (r: Read<T>)
    requires offset <= |data|
    ensures r.Got? ==> r.end <= |data|
  {
    if offset + 4 > |data| then Failed(ShortFrameLength)
    else
      var end := offset + 4 + ReadUint32(data[offset..offset + 4]);
      if end > |data| then Failed(ShortFrame)
      else
        match decode(data[offset + 4..end])
        case Err(e) => Failed(e)
        case Ok(item) => Got(item, end)
  }

  /** `count` of them. */
  function DecodeFrames<T>(decode: Bytes -> Result<T, DecodeError>, data: Bytes, offset: nat, count: nat): (r: Read<seq<T>>)
    requires offset <= |data|
    ensures r.Got? ==> r.end <= |data|
    decreases count
  {
    if count == 0 then Got([], offset)
    else
      match DecodeFrame(decode, data, offset)
      case Failed(e) => Failed(e)
      case Got(item, end) => Prepend([item], DecodeFrames(decode, data, end, count - 1))
  }

  function DecodeAddresses(data: Bytes, offset: nat, count: nat): Read<seq<Address>>
    requires offset <= |data|
    decreases count
  {
    if count == 0 then Got([], offset)
    else if offset + ADDRESS_SIZE > |data| then Failed(ShortFinalizedBy)
    else
      var address: Address := data[offset..offset + ADDRESS_SIZE];
      Prepend([address], DecodeAddresses(data, offset + ADDRESS_SIZE, count - 1))
  }

  /** The block up to its transactions, from at least the minimal number of bytes. */
  function DecodeHead(data: Bytes, signatureEnd: nat): Block
    requires FIXED_SIZE <= signatureEnd && signatureEnd + 36 <= |data|
  {
    Block(ReadUint64(data[0..8]), ToInt64(ReadUint64(data[8..16])), data[16..48], data[48..80], data[80..112],
          data[FIXED_SIZE..signatureEnd], SignerFromCode(ReadUint32(data[112..116])),
          data[signatureEnd..signatureEnd + 20], [],
          ReadUint64(data[signatureEnd + 20..signatureEnd + 28]), ReadUint32(data[signatureEnd + 28..signatureEnd + 32]), [])
  }

  function DecodeFinalizers(data: Bytes, offset: nat, b: Block): Result<Block, DecodeError>
    requires offset <= |data|
  {
    if offset + 4 > |data| then Err(ShortFinalizedCount)
    else
      match DecodeAddresses(data, offset + 4, ReadUint32(data[offset..offset + 4]))
      case Failed(e) => Err(e)
      case Got(addresses, _) => Ok(b.(finalizedBy := addresses))
  }

  type TransactionDecoder = Bytes -> Result<Transaction, DecodeError>

  function DecodeTail(decode: TransactionDecoder, data: Bytes, offset: nat, count: nat, b: Block): Result<Block, DecodeError>
    requires offset <= |data|
  {
    match DecodeFrames(decode, data, offset, count)
    case Failed(e) => Err(e)
    case Got(txs, end) => DecodeFinalizers(data, end, b.(transactions := txs))
  }

  function DecodeWith(decode: TransactionDecoder, data: Bytes): Result<Block, DecodeError> {
    if |data| < MIN_SIZE then Err(ShortBlock)
    else
      var signatureEnd := FIXED_SIZE + ReadUint32(data[116..120]);
      if signatureEnd > |data| then Err(ShortSignature)
      else if signatureEnd + 20 > |data| then Err(ShortValidatorID)
      else if signatureEnd + 36 > |data| then Err(ShortCounts)
      else
        DecodeTail(decode, data, signatureEnd + 36, ReadUint32(data[signatureEnd + 32..signatureEnd + 36]),
                   DecodeHead(data, signatureEnd))
  }

  /** What the decoder makes of any bytes. */
  function Decode(data: Bytes): Result<Block, DecodeError> { DecodeWith(Tx.Decode, data) }

  // ---------------------------------------------------------------------------
  // Round trip

  function Normal(b: Block): Block {
    b.(signatureType := NormalSigner(b.signatureType), transactions := Map(Tx.Normal, b.transactions))
  }

  predicate Decodes<T(==)>(decode: Bytes -> Result<T, DecodeError>, part: Bytes, item: T) {
    |part| < 0x1_0000_0000 && decode(part) == Ok(item)
  }

  predicate AllDecode<T(==)>(decode: Bytes -> Result<T, DecodeError>, parts: seq<Bytes>, items: seq<T>) {
    |parts| == |items| && forall i :: 0 <= i < |parts| ==> Decodes(decode, parts[i], items[i])
  }

  lemma AllDecodeRest<T>(decode: Bytes -> Result<T, DecodeError>, parts: seq<Bytes>, items: seq<T>)
    requires AllDecode(decode, parts, items) && parts != []
    ensures Decodes(decode, parts[0], items[0]) && AllDecode(decode, parts[1..], items[1..])
  {
  }

  lemma FirstFrame<T>(decode: Bytes -> Result<T, DecodeError>, data: Bytes, offset: nat, e: Bytes, item: T)
    requires Decodes(decode, e, item)
    requires At(data, offset, LE(4, |e|)) && At(data, offset + 4, e)
    ensures DecodeFrame(decode, data, offset) == Got(item, offset + 4 + |e|)
  {
    Uint32RoundTrip(|e|);
  }

  lemma FrameParts(data: Bytes, offset: nat, l: Bytes, e: Bytes, rest: Bytes)
    requires At(data, offset, l + e + rest)
    ensures At(data, offset, l) && At(data, offset + |l|, e) && At(data, offset + |l| + |e|, rest)
  {
    AtParts(data, offset, l + e, rest);
    AtParts(data, offset, l, e);
  }

  lemma {:induction false} FramesRoundTrip<T>(decode: Bytes -> Result<T, DecodeError>, data: Bytes, offset: nat,
                                              parts: seq<Bytes>, items: seq<T>)
    requires AllDecode(decode, parts, items)
    requires At(data, offset, EncodeFrames(parts))
    ensures DecodeFrames(decode, data, offset, |parts|) == Got(items, offset + |EncodeFrames(parts)|)
    decreases |parts|
  {
    if parts != [] {
      var l, e, rest := LE(4, |parts[0]|), parts[0], EncodeFrames(parts[1..]);
      FrameParts(data, offset, l, e, rest);
      AllDecodeRest(decode, parts, items);
      FirstFrame(decode, data, offset, e, items[0]);
      FramesRoundTrip(decode, data, offset + 4 + |e|, parts[1..], items[1..]);
      assert [items[0]] + items[1..] == items;
    }
  }

  lemma EachDecodes(txs: seq<Transaction>)
    requires forall i :: 0 <= i < |txs| ==> Tx.Fits(txs[i])
    ensures AllDecode(Tx.Decode, Map(Tx.Encode, txs), Map(Tx.Normal, txs))
  {
    forall i | 0 <= i < |txs| ensures Decodes(Tx.Decode, Map(Tx.Encode, txs)[i], Map(Tx.Normal, txs)[i]) {
      Tx.ExactRoundTrip(txs[i]);
    }
  }

  lemma {:induction false} AddressesRoundTrip(data: Bytes, offset: nat, addresses: seq<Address>)
    requires At(data, offset, EncodeAddresses(addresses))
    ensures DecodeAddresses(data, offset, |addresses|) == Got(addresses, offset + |EncodeAddresses(addresses)|)
    decreases |addresses|
  {
    if addresses != [] {
      var first: Bytes := addresses[0];
      AtParts(data, offset, first, EncodeAddresses(addresses[1..]));
      AddressesRoundTrip(data, offset + ADDRESS_SIZE, addresses[1..]);
      assert [addresses[0]] + addresses[1..] == addresses;
    }
  }

  lemma HeadSlices(b: Block)
    ensures var f := EncodeFixed(b);
            && f[0..8] == LE(8, b.index) && f[8..16] == LE(8, ToUint64(b.timestamp))
            && f[16..48] == b.previousHash && f[48..80] == b.hash && f[80..112] == b.merkleRoot
            && f[112..116] == LE(4, SignerCode(b.signatureType)) && f[116..120] == LE(4, |b.signature|)
    ensures var m := EncodeMiddle(b);
            m[0..20] == b.validatorID && m[20..28] == LE(8, b.difficulty) && m[28..32] == LE(4, b.version) &&
            m[32..36] == LE(4, |b.transactions|)
  {
  }

  lemma SubSlice(data: Bytes, offset: nat, part: Bytes, i: nat, j: nat)
    requires At(data, offset, part) && i <= j <= |part|
    ensures data[offset + i..offset + j] == part[i..j]
  {
    var whole := data[offset..offset + |part|];
    forall k | 0 <= k < j - i ensures data[offset + i..offset + j][k] == part[i..j][k] {
      assert whole[i + k] == data[offset + i + k];
    }
  }

  lemma SlicesAtFront(data: Bytes, f: Bytes)
    requires At(data, 0, f) && |f| == FIXED_SIZE
    ensures data[0..8] == f[0..8] && data[8..16] == f[8..16] && data[16..48] == f[16..48]
    ensures data[48..80] == f[48..80] && data[80..112] == f[80..112]
    ensures data[112..116] == f[112..116] && data[116..120] == f[116..120]
  {
    SubSlice(data, 0, f, 0, 8);
    SubSlice(data, 0, f, 8, 16);
    SubSlice(data, 0, f, 16, 48);
    SubSlice(data, 0, f, 48, 80);
    SubSlice(data, 0, f, 80, 112);
    SubSlice(data, 0, f, 112, 116);
    SubSlice(data, 0, f, 116, 120);
  }

  lemma FixedRoundTrip(b: Block, data: Bytes)
    requires Fits(b) && At(data, 0, EncodeFixed(b))
    ensures ReadUint64(data[0..8]) == b.index && ToInt64(ReadUint64(data[8..16])) == b.timestamp
    ensures data[16..48] == b.previousHash && data[48..80] == b.hash && data[80..112] == b.merkleRoot
    ensures ReadUint32(data[112..116]) == SignerCode(b.signatureType) && ReadUint32(data[116..120]) == |b.signature|
  {
    HeadSlices(b);
    SlicesAtFront(data, EncodeFixed(b));
    Uint64RoundTrip(b.index);
    Uint64RoundTrip(ToUint64(b.timestamp));
    Uint32RoundTrip(SignerCode(b.signatureType));
    Uint32RoundTrip(|b.signature|);
  }

  lemma MiddleRoundTrip(b: Block, data: Bytes, offset: nat)
    requires Fits(b) && At(data, offset, EncodeMiddle(b))
    ensures data[offset..offset + 20] == b.validatorID && ReadUint64(data[offset + 20..offset + 28]) == b.difficulty
    ensures ReadUint32(data[offset + 28..offset + 32]) == b.version
    ensures ReadUint32(data[offset + 32..offset + 36]) == |b.transactions|
  {
    var m := EncodeMiddle(b);
    HeadSlices(b);
    SubSlice(data, offset, m, 0, 20);
    SubSlice(data, offset, m, 20, 28);
    SubSlice(data, offset, m, 28, 32);
    SubSlice(data, offset, m, 32, 36);
    Uint64RoundTrip(b.difficulty);
    Uint32RoundTrip(b.version);
    Uint32RoundTrip(|b.transactions|);
  }

  /** Where the parts of an encoded block stand in the data that begins with it. */
  lemma Layout(b: Block, tail: Bytes)
    requires Fits(b)
    ensures var data := Encode(b) + tail;
            var middle := FIXED_SIZE + |b.signature|;
            var frames := EncodeFrames(Map(Tx.Encode, b.transactions));
            var count := middle + 36 + |frames|;
            && At(data, 0, EncodeFixed(b)) && At(data, FIXED_SIZE, b.signature) && At(data, middle, EncodeMiddle(b))
            && At(data, middle + 36, frames) && At(data, count, LE(4, |b.finalizedBy|))
            && At(data, count + 4, EncodeAddresses(b.finalizedBy))
  {
    var data := Encode(b) + tail;
    var p1 := EncodeFixed(b);
    var p2 := p1 + b.signature;
    var p3 := p2 + EncodeMiddle(b);
    var p4 := p3 + EncodeFrames(Map(Tx.Encode, b.transactions));
    var p5 := p4 + LE(4, |b.finalizedBy|);
    var p6 := p5 + EncodeAddresses(b.finalizedBy);
    assert data == p6 + tail;
    assert At(data, 0, p6 + tail);
    AtParts(data, 0, p6, tail);
    AtParts(data, 0, p5, EncodeAddresses(b.finalizedBy));
    AtParts(data, 0, p4, LE(4, |b.finalizedBy|));
    AtParts(data, 0, p3, EncodeFrames(Map(Tx.Encode, b.transactions)));
    AtParts(data, 0, p2, EncodeMiddle(b));
    AtParts(data, 0, p1, b.signature);
  }

  lemma FinalizersRoundTrip(data: Bytes, offset: nat, b: Block, addresses: seq<Address>)
    requires |addresses| < 0x1_0000_0000
    requires At(data, offset, LE(4, |addresses|)) && At(data, offset + 4, EncodeAddresses(addresses))
    ensures DecodeFinalizers(data, offset, b) == Ok(b.(finalizedBy := addresses))
  {
    Uint32RoundTrip(|addresses|);
    AddressesRoundTrip(data, offset + 4, addresses);
  }

  lemma TailRoundTrip(decode: TransactionDecoder, data: Bytes, offset: nat, parts: seq<Bytes>, items: seq<Transaction>,
                      addresses: seq<Address>, head: Block)
    requires AllDecode(decode, parts, items) && |addresses| < 0x1_0000_0000
    requires At(data, offset, EncodeFrames(parts)) && At(data, offset + |EncodeFrames(parts)|, LE(4, |addresses|))
    requires At(data, offset + |EncodeFrames(parts)| + 4, EncodeAddresses(addresses))
    ensures DecodeTail(decode, data, offset, |parts|, head) == Ok(head.(transactions := items, finalizedBy := addresses))
  {
    var end := offset + |EncodeFrames(parts)|;
    FramesRoundTrip(decode, data, offset, parts, items);
    FinalizersRoundTrip(data, end, head.(transactions := items), addresses);
    TailStep(decode, data, offset, |parts|, items, end, head, head.(transactions := items, finalizedBy := addresses));
  }

  lemma TailStep(decode: TransactionDecoder, data: Bytes, offset: nat, count: nat, items: seq<Transaction>, end: nat,
                 head: Block, b: Block)
    requires offset <= |data| && DecodeFrames(decode, data, offset, count) == Got(items, end)
    requires DecodeFinalizers(data, end, head.(transactions := items)) == Ok(b)
    ensures DecodeTail(decode, data, offset, count, head) == Ok(b)
  {
  }

  lemma RoundTripWith(decode: TransactionDecoder, b: Block, tail: Bytes, items: seq<Transaction>)
    requires Fits(b) && AllDecode(decode, Map(Tx.Encode, b.transactions), items)
    ensures DecodeWith(decode, Encode(b) + tail) ==
            Ok(b.(signatureType := NormalSigner(b.signatureType), transactions := items))
  {
    var data := Encode(b) + tail;
    var middle := FIXED_SIZE + |b.signature|;
    Layout(b, tail);
    FixedRoundTrip(b, data);
    MiddleRoundTrip(b, data, middle);
    TailRoundTrip(decode, data, middle + 36, Map(Tx.Encode, b.transactions), items, b.finalizedBy, DecodeHead(data, middle));
  }

  /** Decoding an encoded block followed by anything gives it back. */
  lemma RoundTrip(b: Block, tail: Bytes)
    requires Fits(b)
    ensures Decode(Encode(b) + tail) == Ok(Normal(b))
  {
    EachDecodes(b.transactions);
    RoundTripWith(Tx.Decode, b, tail, Map(Tx.Normal, b.transactions));
  }

  // ---------------------------------------------------------------------------
  // What the decoder can return

  /** A property of every item that `decode` makes of a short enough part. */
  ghost predicate Yields<T(!new)>(decode: Bytes -> Result<T, DecodeError>, good: T -> bool) {
    forall part: Bytes, x: T :: |part| < 0x1_0000_0000 && decode(part) == Ok(x) ==> good(x)
  }

  lemma {:induction false} FramesYield<T(!new)>(decode: Bytes -> Result<T, DecodeError>, good: T -> bool, data: Bytes,
                                               offset: nat, count: nat)
    requires Yields(decode, good) && offset <= |data|
    ensures var r := DecodeFrames(decode, data, offset, count);
            r.Got? ==> |r.value| == count && forall i :: 0 <= i < count ==> good(r.value[i])
    decreases count
  {
    if count > 0 && DecodeFrame(decode, data, offset).Got? {
      FramesYield(decode, good, data, DecodeFrame(decode, data, offset).end, count - 1);
    }
  }

  lemma {:induction false} AddressesCounted(data: Bytes, offset: nat, count: nat)
    requires offset <= |data|
    ensures var r := DecodeAddresses(data, offset, count); r.Got? ==> |r.value| == count
    decreases count
  {
    if count > 0 && offset + ADDRESS_SIZE <= |data| {
      AddressesCounted(data, offset + ADDRESS_SIZE, count - 1);
    }
  }

  predicate GoodTransaction(tx: Transaction) { Tx.Fits(tx) && Tx.Normal(tx) == tx }

  lemma TransactionsAreGood()
    ensures Yields(Tx.Decode, GoodTransaction)
  {
    forall part: Bytes, tx | |part| < 0x1_0000_0000 && Tx.Decode(part) == Ok(tx) ensures GoodTransaction(tx) {
      Tx.DecodedFits(part, tx);
    }
  }

  lemma GoodTail(decode: TransactionDecoder, data: Bytes, offset: nat, count: uint32, head: Block)
    requires Yields(decode, GoodTransaction) && offset <= |data|
    ensures var r := DecodeTail(decode, data, offset, count, head);
            r.Ok? ==> |r.value.transactions| < 0x1_0000_0000 && |r.value.finalizedBy| < 0x1_0000_0000 &&
                      r.value.signature == head.signature && r.value.signatureType == head.signatureType &&
                      forall i :: 0 <= i < |r.value.transactions| ==> GoodTransaction(r.value.transactions[i])
  {
    FramesYield(decode, GoodTransaction, data, offset, count);
    var frames := DecodeFrames(decode, data, offset, count);
    if frames.Got? && frames.end + 4 <= |data| {
      AddressesCounted(data, frames.end + 4, ReadUint32(data[frames.end..frames.end + 4]));
    }
  }

  lemma GoodBlock(decode: TransactionDecoder, data: Bytes)
    requires Yields(decode, GoodTransaction) && DecodeWith(decode, data).Ok?
    ensures Fits(DecodeWith(decode, data).value) && Normal(DecodeWith(decode, data).value) == DecodeWith(decode, data).value
  {
    var signatureEnd := FIXED_SIZE + ReadUint32(data[116..120]);
    GoodTail(decode, data, signatureEnd + 36, ReadUint32(data[signatureEnd + 32..signatureEnd + 36]), DecodeHead(data, signatureEnd));
    var b := DecodeWith(decode, data).value;
    assert Map(Tx.Normal, b.transactions) == b.transactions;
  }

  /** Whatever block is read from any bytes can be written, and reads back unchanged. */
  lemma DecodedRoundTrips(data: Bytes, tail: Bytes)
    requires Decode(data).Ok?
    ensures Fits(Decode(data).value) && Decode(Encode(Decode(data).value) + tail) == Decode(data)
  {
    TransactionsAreGood();
    GoodBlock(Tx.Decode, data);
    RoundTrip(Decode(data).value, tail);
  }

  // ---------------------------------------------------------------------------
  // Writing at an offset

  /** One transaction behind its length. */
  method WriteFrame(buf: array<byte>, start: nat, part: Bytes) returns (offset: nat)
    requires start + 4 + |part| <= buf.Length
    modifies buf
    ensures offset == start + 4 + |part| && buf[..offset] == old(buf[..start]) + LE(4, |part|) + part
  {
    offset := start;
    PutUint(buf, offset, 4, |part|);
    offset := offset + 4;
    CopyInto(buf, offset, part);
    offset := offset + |part|;
  }

  /** Fills `buf` with the transactions behind their lengths. */
  method WriteFrames(buf: array<byte>, start: nat, parts: seq<Bytes>) returns (offset: nat)
    requires start + |EncodeFrames(parts)| <= buf.Length
    modifies buf
    ensures offset == start + |EncodeFrames(parts)|
    ensures buf[..offset] == old(buf[..start]) + EncodeFrames(parts)
  {
    offset := start;
    ghost var before := buf[..start];
    for i := 0 to |parts|
      invariant start <= offset <= buf.Length
      invariant offset + |EncodeFrames(parts[i..])| == start + |EncodeFrames(parts)|
      invariant buf[..offset] + EncodeFrames(parts[i..]) == before + EncodeFrames(parts)
    {
      ghost var sofar, l, rest := buf[..offset], LE(4, |parts[i]|), EncodeFrames(parts[i + 1..]);
      assert parts[i..][1..] == parts[i + 1..];
      assert EncodeFrames(parts[i..]) == l + parts[i] + rest;
      offset := WriteFrame(buf, offset, parts[i]);
      assert sofar + (l + parts[i] + rest) == sofar + l + parts[i] + rest;
    }
    assert buf[..offset] + [] == buf[..offset];
  }

  method WriteAddresses(buf: array<byte>, start: nat, addresses: seq<Address>) returns (offset: nat)
    requires start + |EncodeAddresses(addresses)| <= buf.Length
    modifies buf
    ensures offset == start + |EncodeAddresses(addresses)|
    ensures buf[..offset] == old(buf[..start]) + EncodeAddresses(addresses)
  {
    offset := start;
    ghost var before := buf[..start];
    var i := 0;
    while i < |addresses|
      invariant 0 <= i <= |addresses| && offset == start + ADDRESS_SIZE * i <= buf.Length
      invariant buf[..offset] + EncodeAddresses(addresses[i..]) == before + EncodeAddresses(addresses)
    {
      ghost var sofar, rest := buf[..offset], EncodeAddresses(addresses[i + 1..]);
      assert addresses[i..][1..] == addresses[i + 1..];
      CopyInto(buf, offset, addresses[i]);
      offset := offset + ADDRESS_SIZE;
      assert buf[..offset] + rest == sofar + EncodeAddresses(addresses[i..]);
      i := i + 1;
    }
    assert buf[..offset] + [] == buf[..offset];
  }

  method WriteFinalizers(buf: array<byte>, start: nat, addresses: seq<Address>) returns (offset: nat)
    requires start + 4 + |EncodeAddresses(addresses)| <= buf.Length
    modifies buf
    ensures offset == start + 4 + |EncodeAddresses(addresses)|
    ensures buf[..offset] == old(buf[..start]) + LE(4, |addresses|) + EncodeAddresses(addresses)
  {
    offset := start;
    PutUint(buf, offset, 4, |addresses|);
    offset := offset + 4;
    offset := WriteAddresses(buf, offset, addresses);
  }

  /** The block with the bytes that 32-bit lengths keep. */
  function Truncated(b: Block): (r: Block)
    ensures Fits(b) ==> r == b
  {
    var r := b.(signature := Kept(b.signature), transactions := Map(Tx.Truncated, b.transactions));
    assert Fits(b) ==> r.transactions == b.transactions;
    r
  }

  /** Serializes every transaction first, to learn the total size. */
  method SerializeTransactions(txs: seq<Transaction>) returns (parts: seq<Bytes>, txSize: nat)
    requires forall i :: 0 <= i < |txs| ==> Tx.Fits(Tx.Truncated(txs[i]))
    ensures parts == Map(Tx.Encode, Map(Tx.Truncated, txs)) && txSize == |EncodeFrames(parts)|
  {
    parts := [];
    txSize := 0;
    for i := 0 to |txs|
      invariant |parts| == i && forall j :: 0 <= j < i ==> parts[j] == Tx.Encode(Tx.Truncated(txs[j]))
      invariant txSize == |EncodeFrames(parts)|
    {
      var txBytes := Tx.Serialize(txs[i]);
      FramesSnoc(parts, txBytes[..]);
      parts := parts + [txBytes[..]];
      txSize := txSize + 4 + txBytes.Length;
    }
  }

  lemma {:induction false} FramesSnoc(parts: seq<Bytes>, last: Bytes)
    ensures |EncodeFrames(parts + [last])| == |EncodeFrames(parts)| + 4 + |last|
  {
    if parts != [] {
      assert (parts + [last])[1..] == parts[1..] + [last];
      FramesSnoc(parts[1..], last);
    }
  }

  method SerializeFixed(b: Block, buf: array<byte>) returns (offset: nat)
    requires buf.Length >= FIXED_SIZE
    modifies buf
    ensures offset == FIXED_SIZE && buf[..offset] == EncodeFixed(b)
  {
    PutUint(buf, 0, 8, b.index);
    assert buf[..8] == LE(8, b.index);
    PutUint(buf, 8, 8, ToUint64(b.timestamp));
    offset := 16;
    CopyInto(buf, offset, b.previousHash);
    offset := offset + HASH_SIZE;
    CopyInto(buf, offset, b.hash);
    offset := offset + HASH_SIZE;
    CopyInto(buf, offset, b.merkleRoot);
    offset := offset + HASH_SIZE;
    PutUint(buf, offset, 4, SignerCode(b.signatureType));
    offset := offset + 4;
    PutUint(buf, offset, 4, |b.signature|);
    offset := offset + 4;
  }

  method SerializeMiddle(b: Block, buf: array<byte>, start: nat) returns (offset: nat)
    requires start + 36 <= buf.Length
    modifies buf
    ensures offset == start + 36 && buf[..offset] == old(buf[..start]) + EncodeMiddle(b)
  {
    ghost var before := buf[..start];
    offset := start;
    CopyInto(buf, offset, b.validatorID);
    offset := offset + ADDRESS_SIZE;
    PutUint(buf, offset, 8, b.difficulty);
    offset := offset + 8;
    PutUint(buf, offset, 4, b.version);
    offset := offset + 4;
    PutUint(buf, offset, 4, |b.transactions|);
    offset := offset + 4;
    MiddleAfter(before, b);
  }

  lemma MiddleAfter(before: Bytes, b: Block)
    ensures before + b.validatorID + LE(8, b.difficulty) + LE(4, b.version) + LE(4, |b.transactions|) ==
            before + EncodeMiddle(b)
  {
  }

  /** What Serialize writes of a block is what it would write of `t`. */
  ghost predicate Represents(t: Block, b: Block, parts: seq<Bytes>) {
    && EncodeFixed(t) == EncodeFixed(b) && t.signature == Kept(b.signature)
    && EncodeMiddle(t) == EncodeMiddle(b) && t.finalizedBy == b.finalizedBy && Map(Tx.Encode, t.transactions) == parts
  }

  lemma TruncatedRepresents(b: Block)
    ensures Represents(Truncated(b), b, Map(Tx.Encode, Map(Tx.Truncated, b.transactions)))
  {
    LengthBytes(b.signature);
    assert |Kept(b.signature)| == Length32(b.signature);
  }

  lemma EncodedLength(t: Block, b: Block, parts: seq<Bytes>)
    requires Represents(t, b, parts)
    ensures |Encode(t)| == FIXED_SIZE + Length32(b.signature) + 36 + |EncodeFrames(parts)| + 4 + |b.finalizedBy| * ADDRESS_SIZE
  {
  }

  lemma TruncatedTransactions(b: Block)
    requires Fits(Truncated(b))
    ensures forall i :: 0 <= i < |b.transactions| ==> Tx.Fits(Tx.Truncated(b.transactions[i]))
  {
    var r := Map(Tx.Truncated, b.transactions);
    assert Truncated(b).transactions == r;
    forall i | 0 <= i < |b.transactions| ensures Tx.Fits(Tx.Truncated(b.transactions[i])) {
      assert r[i] == Tx.Truncated(b.transactions[i]);
    }
  }

  /** Writes all parts; the offset ends exactly at the size computed before. */
  method Fill(ghost t: Block, b: Block, parts: seq<Bytes>, buf: array<byte>)
    requires Represents(t, b, parts) && buf.Length == |Encode(t)|
    modifies buf
    ensures buf[..] == Encode(t)
  {
    var offset := SerializeFixed(b, buf);
    CopyKept(buf, offset, b.signature);
    offset := offset + Length32(b.signature);
    offset := SerializeMiddle(b, buf, offset);
    offset := WriteFrames(buf, offset, parts);
    offset := WriteFinalizers(buf, offset, b.finalizedBy);
    assert offset == buf.Length && buf[..offset] == buf[..];
  }

  /** Beyond the domain of this contract the source panics. */
  method Serialize(b: Block) returns (buf: array<byte>)
    requires Fits(Truncated(b))
    ensures buf[..] == Encode(Truncated(b))
  {
    TruncatedTransactions(b);
    TruncatedRepresents(b);
    var txBytesList, txSize := SerializeTransactions(b.transactions);
    var finalizedSize := |b.finalizedBy| * ADDRESS_SIZE;
    var totalSize := FIXED_SIZE + Length32(b.signature) + 36 + txSize + 4 + finalizedSize;
    buf := new byte[totalSize];
    EncodedLength(Truncated(b), b, txBytesList);
    Fill(Truncated(b), b, txBytesList, buf);
  }

  // ---------------------------------------------------------------------------
  // Reading at an offset

  lemma PrependNothing<T>(r: Read<seq<T>>)
    ensures Prepend([], r) == r
  {
    if r.Got? {
      assert [] + r.value == r.value;
    }
  }

  lemma PrependTwice<T>(items: seq<T>, item: T, r: Read<seq<T>>)
    ensures Prepend(items, Prepend([item], r)) == Prepend(items + [item], r)
  {
    if r.Got? {
      assert items + ([item] + r.value) == items + [item] + r.value;
    }
  }

  /** One turn of the loop over the transactions. */
  lemma FramesStep<T>(decode: Bytes -> Result<T, DecodeError>, data: Bytes, offset: nat, count: nat, rest: nat,
                      items: seq<T>, frame: Read<T>, all: Read<seq<T>>)
    requires count == rest + 1 && offset <= |data| && frame == DecodeFrame(decode, data, offset)
    requires all == Prepend(items, DecodeFrames(decode, data, offset, count))
    ensures frame.Failed? ==> all == Failed(frame.error)
    ensures frame.Got? ==> all == Prepend(items + [frame.value], DecodeFrames(decode, data, frame.end, rest))
  {
    if frame.Got? {
      PrependTwice(items, frame.value, DecodeFrames(decode, data, frame.end, rest));
    }
  }

  /** `decode` is the function that Tx.Deserialize computes. */
  ghost predicate IsDecoder(decode: TransactionDecoder) { forall data :: Agrees(decode, data) }

  ghost predicate Agrees(decode: TransactionDecoder, data: Bytes) { decode(data) == Tx.Decode(data) }

  method ReadTransaction(ghost decode: TransactionDecoder, data: Bytes, start: nat) returns (r: Read<Transaction>)
    requires IsDecoder(decode) && start <= |data|
    ensures r == DecodeFrame(decode, data, start)
  {
    var offset := start;
    if offset + 4 > |data| {
      return Failed(ShortFrameLength);
    }
    var txLen := ReadUint32(data[offset..offset + 4]);
    offset := offset + 4;
    if offset + txLen > |data| {
      return Failed(ShortFrame);
    }
    var tx := Tx.Deserialize(data[offset..offset + txLen]);
    assert Agrees(decode, data[offset..offset + txLen]);
    r := if tx.Err? then Failed(tx.error) else Got(tx.value, offset + txLen);
  }

  method ReadTransactions(ghost decode: TransactionDecoder, data: Bytes, start: nat, txCount: uint32)
    returns (r: Read<seq<Transaction>>)
    requires IsDecoder(decode) && start <= |data|
    ensures r == DecodeFrames(decode, data, start, txCount)
  {
    var offset: nat, transactions: seq<Transaction>, i: nat := start, [], 0;
    ghost var all := DecodeFrames(decode, data, start, txCount);
    PrependNothing(all);
    while i < txCount
      invariant i <= txCount && offset <= |data|
      invariant all == Prepend(transactions, DecodeFrames(decode, data, offset, txCount - i))
    {
      var frame := ReadTransaction(decode, data, offset);
      FramesStep(decode, data, offset, txCount - i, txCount - (i + 1), transactions, frame, all);
      if frame.Failed? {
        return Failed(frame.error);
      }
      transactions := transactions + [frame.value];
      offset := frame.end;
      i := i + 1;
    }
    r := Got(transactions, offset);
    assert transactions + [] == transactions;
  }

  method ReadAddresses(data: Bytes, start: nat, count: uint32) returns (r: Read<seq<Address>>)
    requires start <= |data|
    ensures r == DecodeAddresses(data, start, count)
  {
    var offset: nat, addresses: seq<Address>, i: nat := start, [], 0;
    PrependNothing(DecodeAddresses(data, start, count));
    while i < count
      invariant i <= count && offset <= |data|
      invariant DecodeAddresses(data, start, count) == Prepend(addresses, DecodeAddresses(data, offset, count - i))
    {
      if offset + ADDRESS_SIZE > |data| {
        return Failed(ShortFinalizedBy);
      }
      var address: Address := data[offset..offset + ADDRESS_SIZE];
      offset := offset + ADDRESS_SIZE;
      i := i + 1;
      PrependTwice(addresses, address, DecodeAddresses(data, offset, count - i));
      addresses := addresses + [address];
    }
    r := Got(addresses, offset);
    assert addresses + [] == addresses;
  }

  /** The decoder, with the source's checks before each read. */
  method Deserialize(data: Bytes) returns (r: Result<Block, DecodeError>)
    ensures r == Decode(data)
  {
    if |data| < MIN_SIZE {
      return Err(ShortBlock);
    }
    var offset := 116;
    var signatureLength := ReadUint32(data[offset..offset + 4]);
    offset := offset + 4;
    if offset + signatureLength > |data| {
      return Err(ShortSignature);
    }
    offset := offset + signatureLength;
    if offset + ADDRESS_SIZE > |data| {
      return Err(ShortValidatorID);
    }
    if offset + 36 > |data| {
      return Err(ShortCounts);
    }
    var block := DecodeHead(data, offset);
    offset := offset + 32;
    var txCount := ReadUint32(data[offset..offset + 4]);
    offset := offset + 4;
    r := DeserializeTail(Tx.Decode, data, offset, txCount, block);
  }

  /** The transactions and the finalizers. */
  method DeserializeTail(ghost decode: TransactionDecoder, data: Bytes, start: nat, txCount: uint32, head: Block)
    returns (r: Result<Block, DecodeError>)
    requires IsDecoder(decode) && start <= |data|
    ensures r == DecodeTail(decode, data, start, txCount, head)
  {
    var transactions := ReadTransactions(decode, data, start, txCount);
    if transactions.Failed? {
      return Err(transactions.error);
    }
    var block, offset := head.(transactions := transactions.value), transactions.end;
    if offset + 4 > |data| {
      return Err(ShortFinalizedCount);
    }
    var finalizedCount := ReadUint32(data[offset..offset + 4]);
    offset := offset + 4;
    var finalizedBy := ReadAddresses(data, offset, finalizedCount);
    if finalizedBy.Failed? {
      return Err(finalizedBy.error);
    }
    r := Ok(block.(finalizedBy := finalizedBy.value));
  }
}
