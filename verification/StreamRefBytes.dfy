/** The bytes themselves: what the unsigned-varint and CIDv1 specifications of multiformats ask for. */
module StreamRefBytes {
  import opened Wrappers
  import opened StreamRef

  /** The number in groups of seven bits, the lowest first. */
  function ValueOf(bytes: Bytes): nat {
    if bytes == [] then 0 else bytes[0] % 128 + 128 * ValueOf(bytes[1..])
  }

  /** All bytes but the last have the top bit; the number is in the other bits; no byte is superfluous. */
  lemma {:induction false} VarintFormat(n: nat)
    ensures var bytes := EncodeVarint(n);
      && ValueOf(bytes) == n
      && (forall k :: 0 <= k < |bytes| - 1 ==> bytes[k] >= 128)
      && bytes[|bytes| - 1] < 128
      && (|bytes| > 1 ==> bytes[|bytes| - 1] != 0)
  {
    if n >= 128 {
      VarintFormat(n / 128);
      assert EncodeVarint(n)[1..] == EncodeVarint(n / 128);
    } else {
      assert EncodeVarint(n)[1..] == [];
    }
  }

  /** There is only one such encoding. */
  lemma {:induction false} VarintIsUnique(bytes: Bytes)
    requires bytes != [] && forall k :: 0 <= k < |bytes| - 1 ==> bytes[k] >= 128
    requires bytes[|bytes| - 1] < 128 && (|bytes| > 1 ==> bytes[|bytes| - 1] != 0)
    ensures EncodeVarint(ValueOf(bytes)) == bytes
    decreases |bytes|
  {
    if |bytes| == 1 {
      assert bytes[1..] == [] && bytes == [bytes[0]];
    } else {
      VarintIsUnique(bytes[1..]);
      assert bytes == [bytes[0]] + bytes[1..];
      ValueIsPositive(bytes[1..]);
    }
  }

  lemma {:induction false} ValueIsPositive(bytes: Bytes)
    requires bytes != [] && bytes[|bytes| - 1] != 0 && bytes[|bytes| - 1] < 128
    ensures ValueOf(bytes) > 0
  {
    if |bytes| > 1 {
      ValueIsPositive(bytes[1..]);
    }
  }

  /** Every identifier starts with the codec of stream identifiers. */
  lemma CodecBytes()
    ensures EncodeVarint(STREAMID_CODEC) == [0xce, 0x01]
  {
  }

  /** Fields below 128, as all registered stream types, codecs and hash functions in use are, take one byte. */
  predicate OneByteFields(c: Cid) {
    c.version == 1 && c.codec < 128 && c.hashCode < 128 && |c.digest| < 128
  }

  lemma CidLayout(c: Cid)
    requires OneByteFields(c)
    ensures CidBytes(c) == [1, c.codec, c.hashCode, |c.digest|] + c.digest
  {
  }

  /** The codec, the stream type and the genesis CID. */
  lemma StreamIDLayout(id: StreamID)
    requires id.tpe < 128 && OneByteFields(id.cid)
    ensures id.ToBytes() == [0xce, 0x01, id.tpe, 1, id.cid.codec, id.cid.hashCode, |id.cid.digest|] + id.cid.digest
  {
    CodecBytes();
    CidLayout(id.cid);
  }

  /** The same, followed by a zero for the genesis commit or by the CID of another commit. */
  lemma CommitIDLayout(id: CommitID)
    requires id.tpe < 128 && OneByteFields(id.cid) && (id.stored.Some? ==> OneByteFields(id.stored.value))
    ensures id.ToBytes() == StreamID(id.tpe, id.cid).ToBytes() +
      match id.stored
      case None => [0]
      case Some(c) => [1, c.codec, c.hashCode, |c.digest|] + c.digest
  {
    if id.stored.Some? {
      CidLayout(id.stored.value);
    }
  }
}
