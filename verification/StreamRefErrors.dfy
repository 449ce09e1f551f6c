/** Which bytes are refused: other codecs, numbers that do not end, and everything that is cut short. */
module StreamRefErrors {
  import opened Wrappers
  import opened StreamRef
  import opened StreamRefRoundTrip
  import opened StreamRefBytes

  // ---------------------------------------------------------------- varints

  /** One of the first `n` bytes ends a number. */
  predicate EndsWithin(bytes: Bytes, n: nat) {
    exists k :: 0 <= k < n && k < |bytes| && bytes[k] < 128
  }

  lemma {:induction false} DecodesIffItEnds(bytes: Bytes, count: nat)
    requires count <= 8
    ensures DecodeVarint(bytes, count).Success? <==> EndsWithin(bytes, 8 - count)
    decreases |bytes|
  {
    if bytes != [] && count < 8 && bytes[0] >= 128 {
      DecodesIffItEnds(bytes[1..], count + 1);
      if k :| 0 <= k < 8 - count && k < |bytes| && bytes[k] < 128 {
        assert bytes[1..][k - 1] == bytes[k];
      }
    }
  }

  /** A number is read exactly when one of the first eight bytes ends it. */
  lemma ReadsIffItEnds(bytes: Bytes)
    ensures ReadVarint(bytes).Success? <==> EndsWithin(bytes, 8)
  {
    DecodesIffItEnds(bytes, 0);
  }

  lemma TruncatedVarint(n: nat, k: nat)
    requires k < |EncodeVarint(n)|
    ensures ReadVarint(EncodeVarint(n)[..k]).Failure?
  {
    VarintFormat(n);
    ReadsIffItEnds(EncodeVarint(n)[..k]);
  }

  // ---------------------------------------------------------------- CIDs

  lemma SplitPrefix(a: Bytes, b: Bytes, k: nat)
    requires k <= |a + b|
    ensures k < |a| ==> (a + b)[..k] == a[..k]
    ensures k >= |a| ==> k - |a| <= |b| && (a + b)[..k] == a + b[..k - |a|]
  {
  }

  lemma TruncatedMultihash(c: Cid, k: nat)
    requires IsCidV1(c) && k < |MultihashBytes(c)|
    ensures ReadMultihash(MultihashBytes(c)[..k]).Failure?
  {
    var code, length := EncodeVarint(c.hashCode), EncodeVarint(|c.digest|);
    SplitPrefix(code, length + c.digest, k);
    if k < |code| {
      TruncatedVarint(c.hashCode, k);
    } else {
      var j := k - |code|;
      ReadVarintRoundTrip(c.hashCode, (length + c.digest)[..j]);
      SplitPrefix(length, c.digest, j);
      if j < |length| {
        TruncatedVarint(|c.digest|, j);
      } else {
        ReadVarintRoundTrip(|c.digest|, c.digest[..j - |length|]);
      }
    }
  }

  lemma TruncatedCid(c: Cid, k: nat)
    requires IsCidV1(c) && k < |CidBytes(c)|
    ensures ReadCid(CidBytes(c)[..k]).Failure?
  {
    var version, after := EncodeVarint(1), EncodeVarint(c.codec) + MultihashBytes(c);
    SplitPrefix(version, after, k);
    if k < |version| {
      TruncatedVarint(1, k);
    } else {
      TruncatedAfterVersion(c, k - |version|);
    }
  }

  lemma TruncatedAfterVersion(c: Cid, j: nat)
    requires IsCidV1(c) && j < |EncodeVarint(c.codec) + MultihashBytes(c)|
    ensures ReadCid(EncodeVarint(1) + (EncodeVarint(c.codec) + MultihashBytes(c))[..j]).Failure?
  {
    var codec, m := EncodeVarint(c.codec), MultihashBytes(c);
    ReadVarintRoundTrip(1, (codec + m)[..j]);
    SplitPrefix(codec, m, j);
    if j < |codec| {
      TruncatedVarint(c.codec, j);
    } else {
      ReadVarintRoundTrip(c.codec, m[..j - |codec|]);
      TruncatedMultihash(c, j - |codec|);
    }
  }

  /** Where the version is written out as 0, the codec has to be that of version 0. */
  lemma ExplicitVersionZero(c: Cid, rest: Bytes)
    requires c.version == 1 && IsCidV1(c)
    ensures ReadCid(EncodeVarint(0) + (EncodeVarint(c.codec) + (MultihashBytes(c) + rest))).Success?
       <==> c.codec == DAG_PB
  {
    ReadVarintRoundTrip(0, EncodeVarint(c.codec) + (MultihashBytes(c) + rest));
    ReadVarintRoundTrip(c.codec, MultihashBytes(c) + rest);
    MultihashEnds(c, rest);
  }

  /** No other version is read. */
  lemma OtherVersionsAreRefused(version: nat, rest: Bytes)
    requires 1 < version < LIMIT
    ensures ReadCid(EncodeVarint(version) + rest).Failure?
  {
    ReadVarintRoundTrip(version, rest);
  }

  // ---------------------------------------------------------------- identifiers

  lemma OtherCodecsAreRefused(codec: nat, rest: Bytes)
    requires codec < LIMIT && codec != 206
    ensures ParseStreamRef(EncodeVarint(codec) + rest).Failure?
  {
    ReadVarintRoundTrip(codec, rest);
  }

  /** Main result: nothing that a stream identifier starts with is an identifier. */
  lemma TruncatedStreamID(id: StreamID, k: nat)
    requires id.tpe < LIMIT && IsCidV1(id.cid) && k < |id.ToBytes()|
    ensures ParseStreamRef(id.ToBytes()[..k]).Failure?
  {
    var codec, tpe, cid := EncodeVarint(STREAMID_CODEC), EncodeVarint(id.tpe), CidBytes(id.cid);
    SplitPrefix(codec, tpe + cid, k);
    if k < |codec| {
      TruncatedVarint(STREAMID_CODEC, k);
    } else {
      var j := k - |codec|;
      ReadVarintRoundTrip(STREAMID_CODEC, (tpe + cid)[..j]);
      SplitPrefix(tpe, cid, j);
      if j < |tpe| {
        TruncatedVarint(id.tpe, j);
      } else {
        ReadVarintRoundTrip(id.tpe, cid[..j - |tpe|]);
        TruncatedCid(id.cid, j - |tpe|);
      }
    }
  }

  /** What a commit identifier starts with is its stream identifier, or no identifier. */
  lemma TruncatedCommitID(id: CommitID, k: nat)
    requires Encodable(id) && k < |id.ToBytes()|
    ensures var stream := StreamID(id.tpe, id.cid);
      if k == |stream.ToBytes()| then ParseStreamRef(id.ToBytes()[..k]) == Success(StreamIDComponents(id.tpe, id.cid))
      else ParseStreamRef(id.ToBytes()[..k]).Failure?
  {
    var stream := StreamID(id.tpe, id.cid);
    var tail := if id.stored.Some? then CidBytes(id.stored.value) else [0];
    assert id.ToBytes() == stream.ToBytes() + tail;
    SplitPrefix(stream.ToBytes(), tail, k);
    if k < |stream.ToBytes()| {
      TruncatedStreamID(stream, k);
    } else if k == |stream.ToBytes()| {
      StreamIDRoundTrip(stream);
      assert id.ToBytes()[..k] == stream.ToBytes();
    } else {
      var j := k - |stream.ToBytes()|;
      HeaderRoundTrip(id.tpe, id.cid, tail[..j]);
      assert id.ToBytes()[..k]
          == EncodeVarint(STREAMID_CODEC) + (EncodeVarint(id.tpe) + (CidBytes(id.cid) + tail[..j]));
      CidBytesStart(id.stored.value);
      assert tail[..j][0] == 1;
      TruncatedCid(id.stored.value, j);
    }
  }
}
