/** Identifiers survive encoding, and are equal exactly when their bytes are. */
module StreamRefRoundTrip {
  import opened Wrappers
  import opened StreamRef

  function Pow128(k: nat): nat {
    if k == 0 then 1 else 128 * Pow128(k - 1)
  }

  lemma {:induction false} VarintRoundTrip(n: nat, rest: Bytes, count: nat)
    requires count <= 7 && n < Pow128(8 - count)
    ensures DecodeVarint(EncodeVarint(n) + rest, count) == Success(Varint(n, |EncodeVarint(n)|))
    decreases n
  {
    var bytes := EncodeVarint(n) + rest;
    if n >= 128 {
      VarintRoundTrip(n / 128, rest, count + 1);
      assert bytes[1..] == EncodeVarint(n / 128) + rest;
    }
  }

  lemma LimitFits()
    ensures LIMIT < Pow128(8)
  {
    assert Pow128(2) == 16384;
    assert Pow128(4) == 16384 * 16384;
    assert Pow128(6) == 16384 * Pow128(4);
    assert Pow128(8) == 16384 * Pow128(6);
  }

  /** Every number that can be encoded is read back, and what follows it is left. */
  lemma ReadVarintRoundTrip(n: nat, rest: Bytes)
    requires n < LIMIT
    ensures ReadVarint(EncodeVarint(n) + rest) == Success(ReadVarintResult(n, rest, |EncodeVarint(n)|))
  {
    LimitFits();
    VarintRoundTrip(n, rest, 0);
    assert (EncodeVarint(n) + rest)[|EncodeVarint(n)|..] == rest;
  }

  lemma MultihashRoundTrip(c: Cid)
    requires IsCidV1(c)
    ensures DecodeMultihash(MultihashBytes(c)) == Success(Multihash(c.hashCode, c.digest))
  {
    ReadVarintRoundTrip(c.hashCode, EncodeVarint(|c.digest|) + c.digest);
    ReadVarintRoundTrip(|c.digest|, c.digest);
  }

  lemma MultihashEnds(c: Cid, rest: Bytes)
    requires IsCidV1(c)
    ensures ReadMultihash(MultihashBytes(c) + rest) ==
      Success(ReadMultihashResult(Multihash(c.hashCode, c.digest), rest))
  {
    var m := MultihashBytes(c);
    var code, length := EncodeVarint(c.hashCode), EncodeVarint(|c.digest|);
    assert m + rest == code + (length + (c.digest + rest));
    ReadVarintRoundTrip(c.hashCode, length + (c.digest + rest));
    ReadVarintRoundTrip(|c.digest|, c.digest + rest);
    assert |m| == |code| + |length| + |c.digest|;
    assert Front(m + rest, |m|) == m && Rest(m + rest, |m|) == rest;
    MultihashRoundTrip(c);
  }

  /** A CID is read back whatever follows it. */
  lemma ReadCidRoundTrip(c: Cid, rest: Bytes)
    requires IsCidV1(c)
    ensures ReadCid(CidBytes(c) + rest) == Success(ReadCidResult(c, rest))
  {
    var m := MultihashBytes(c);
    var codec := EncodeVarint(c.codec);
    assert CidBytes(c) + rest == EncodeVarint(1) + (codec + (m + rest));
    ReadVarintRoundTrip(1, codec + (m + rest));
    ReadVarintRoundTrip(c.codec, m + rest);
    MultihashEnds(c, rest);
  }

  lemma CidBytesStart(c: Cid)
    requires IsCidV1(c)
    ensures |CidBytes(c)| > 1 && CidBytes(c)[0] == 1
  {
  }

  /** The part both kinds of identifiers share: codec, type and genesis CID. */
  lemma HeaderRoundTrip(tpe: nat, cid: Cid, tail: Bytes)
    requires tpe < LIMIT && IsCidV1(cid)
    ensures var bytes := EncodeVarint(STREAMID_CODEC) + (EncodeVarint(tpe) + (CidBytes(cid) + tail));
      ParseStreamRef(bytes) == ParseCommitPart(tpe, cid, tail)
  {
    ReadVarintRoundTrip(STREAMID_CODEC, EncodeVarint(tpe) + (CidBytes(cid) + tail));
    ReadVarintRoundTrip(tpe, CidBytes(cid) + tail);
    ReadCidRoundTrip(cid, tail);
  }

  /** Parsing the bytes of a stream identifier returns its components. */
  lemma StreamIDRoundTrip(id: StreamID)
    requires id.tpe < LIMIT && IsCidV1(id.cid)
    ensures ParseStreamRef(id.ToBytes()) == Success(StreamIDComponents(id.tpe, id.cid))
    ensures StreamID.FromBytes(id.ToBytes()) == Success(id)
    ensures CommitID.FromBytes(id.ToBytes()).Failure?
  {
    HeaderRoundTrip(id.tpe, id.cid, []);
    assert CidBytes(id.cid) + [] == CidBytes(id.cid);
  }

  predicate Encodable(id: CommitID) {
    id.tpe < LIMIT && IsCidV1(id.cid) && (id.stored.Some? ==> IsCidV1(id.stored.value))
  }

  lemma CommitPartRoundTrip(tpe: nat, genesis: Cid, commit: Cid)
    requires IsCidV1(commit)
    ensures ParseCommitPart(tpe, genesis, CidBytes(commit)) == Success(CommitIDComponents(tpe, genesis, Some(commit)))
  {
    CidBytesStart(commit);
    assert CidBytes(commit) + [] == CidBytes(commit);
    ReadCidRoundTrip(commit, []);
  }

  /** Parsing the bytes of a commit identifier returns its components. */
  lemma CommitIDRoundTrip(id: CommitID)
    requires Encodable(id)
    ensures ParseStreamRef(id.ToBytes()) == Success(CommitIDComponents(id.tpe, id.cid, id.stored))
    ensures id.Normal() ==> CommitID.FromBytes(id.ToBytes()) == Success(id)
    ensures StreamID.FromBytes(id.ToBytes()).Failure?
  {
    if id.stored.Some? {
      HeaderRoundTrip(id.tpe, id.cid, CidBytes(id.stored.value));
      CommitPartRoundTrip(id.tpe, id.cid, id.stored.value);
    } else {
      HeaderRoundTrip(id.tpe, id.cid, [0]);
    }
  }

  /** No bytes encode both a stream identifier and a commit identifier. */
  lemma EncodingsNeverCoincide(s: StreamID, c: CommitID)
    requires s.tpe < LIMIT && IsCidV1(s.cid) && Encodable(c)
    ensures s.ToBytes() != c.ToBytes()
  {
    StreamIDRoundTrip(s);
    CommitIDRoundTrip(c);
  }

  /** Constructed commit identifiers are equal exactly when their bytes are. */
  lemma EqualIffSameBytes(a: CommitID, b: CommitID)
    requires Encodable(a) && Encodable(b) && a.Normal() && b.Normal()
    ensures a.Equals(b) <==> a.ToBytes() == b.ToBytes()
  {
    if a.ToBytes() == b.ToBytes() {
      CommitIDRoundTrip(a);
      CommitIDRoundTrip(b);
    }
  }

  /** Without the normalisation of the genesis commit this would fail. */
  lemma NormalisationIsNeeded(tpe: nat, cid: Cid)
    requires tpe < LIMIT && IsCidV1(cid)
    ensures var a, b := CommitID(tpe, cid, None), CommitID(tpe, cid, Some(cid));
      a.Equals(b) && a.ToBytes() != b.ToBytes()
  {
    CommitIDRoundTrip(CommitID(tpe, cid, None));
    CommitIDRoundTrip(CommitID(tpe, cid, Some(cid)));
  }

  lemma StreamIDsEqualIffSameBytes(a: StreamID, b: StreamID)
    requires a.tpe < LIMIT && b.tpe < LIMIT && IsCidV1(a.cid) && IsCidV1(b.cid)
    ensures a == b <==> a.ToBytes() == b.ToBytes()
  {
    StreamIDRoundTrip(a);
    StreamIDRoundTrip(b);
  }

  /** A version 0 CID carries no version number in its bytes, and is not read back. */
  lemma VersionZeroIsRejected(tpe: nat, cid: Cid)
    requires tpe < LIMIT && IsCidV0(cid)
    ensures ParseStreamRef(StreamID(tpe, cid).ToBytes()) == Failure("Unknown CID version")
  {
    ReadVarintRoundTrip(STREAMID_CODEC, EncodeVarint(tpe) + CidBytes(cid));
    ReadVarintRoundTrip(tpe, CidBytes(cid));
    ReadVarintRoundTrip(SHA2_256, EncodeVarint(|cid.digest|) + cid.digest);
  }
}
