/**
 The byte encoding of stream and commit identifiers (packages/streamid/src/): varints and CIDs read
 from the front of the input, as in the multiformats unsigned-varint and CIDv1 specifications.
 */
module StreamRef {
  import opened Wrappers

  type Byte = b: nat | b < 256

  type Bytes = seq<Byte>

  const STREAMID_CODEC: nat := 206

  /** `Number.MAX_SAFE_INTEGER + 1`: larger numbers are not encoded. */
  const LIMIT: nat := 0x20_0000_0000_0000

  // ---------------------------------------------------------------- varints

  /** `varint.encode`: seven bits a byte, the lowest first, with the top bit on all but the last. */
  function EncodeVarint(n: nat): (r: Bytes)
    ensures r != []
  {
    if n < 128 then [n] else [n % 128 + 128] + EncodeVarint(n / 128)
  }

  datatype Varint = Varint(value: nat, length: nat)

  /** `varint.decode`, after `count` bytes: at most eight bytes are read. */
  function DecodeVarint(bytes: Bytes, count: nat): (r: Result<Varint, string>)
    ensures r.Success? ==> 0 < r.value.length <= |bytes|
    decreases |bytes|
  {
    if bytes == [] || 7 * count > 49 then Failure("Could not decode varint")
    else if bytes[0] < 128 then Success(Varint(bytes[0], 1))
    else
      var rest :- DecodeVarint(bytes[1..], count + 1);
      Success(Varint(bytes[0] - 128 + 128 * rest.value, 1 + rest.length))
  }

  datatype ReadVarintResult = ReadVarintResult(value: nat, remainder: Bytes, length: nat)

  function ReadVarint(bytes: Bytes): (r: Result<ReadVarintResult, string>)
    ensures r.Success? ==> r.value.length <= |bytes| && r.value.remainder == bytes[r.value.length..]
  {
    var v :- DecodeVarint(bytes, 0);
    Success(ReadVarintResult(v.value, bytes[v.length..], v.length))
  }

  // ---------------------------------------------------------------- CIDs

  const DAG_PB: nat := 0x70
  const SHA2_256: nat := 0x12

  datatype Cid = Cid(version: nat, codec: nat, hashCode: nat, digest: Bytes)

  function MultihashBytes(c: Cid): Bytes {
    EncodeVarint(c.hashCode) + (EncodeVarint(|c.digest|) + c.digest)
  }

  /** The bytes of a version 0 CID are its multihash alone. */
  function CidBytes(c: Cid): Bytes {
    if c.version == 0 then MultihashBytes(c)
    else EncodeVarint(c.version) + (EncodeVarint(c.codec) + MultihashBytes(c))
  }

  /** A CID of version 1 whose numbers can be encoded. */
  predicate IsCidV1(c: Cid) {
    c.version == 1 && c.codec < LIMIT && c.hashCode < LIMIT && |c.digest| < LIMIT
  }

  predicate IsCidV0(c: Cid) {
    c.version == 0 && c.codec == DAG_PB && c.hashCode == SHA2_256 && |c.digest| == 32
  }

  /** `bytes.subarray(0, n)` */
  function Front(bytes: Bytes, n: nat): Bytes {
    if n <= |bytes| then bytes[..n] else bytes
  }

  /** `bytes.subarray(n)` */
  function Rest(bytes: Bytes, n: nat): Bytes {
    if n <= |bytes| then bytes[n..] else []
  }

  datatype Multihash = Multihash(code: nat, digest: Bytes)

  /** The multiformats digest decoder: the announced length has to be the length of what follows. */
  function DecodeMultihash(bytes: Bytes): Result<Multihash, string> {
    var code :- ReadVarint(bytes);
    var size :- ReadVarint(code.remainder);
    if |size.remainder| != size.value then Failure("Incorrect length")
    else Success(Multihash(code.value, size.remainder))
  }

  datatype ReadMultihashResult = ReadMultihashResult(multihash: Multihash, remainder: Bytes)

  /** The end of `readCid`: the multihash's own header says where the CID stops. */
  function ReadMultihash(bytes: Bytes): Result<ReadMultihashResult, string> {
    var mhCodec :- ReadVarint(bytes);
    var mhLength :- ReadVarint(mhCodec.remainder);
    var size := mhCodec.length + mhLength.length + mhLength.value;
    var multihash :- DecodeMultihash(Front(bytes, size));
    Success(ReadMultihashResult(multihash, Rest(bytes, size)))
  }

  datatype ReadCidResult = ReadCidResult(cid: Cid, remainder: Bytes)

  function ReadCid(bytes: Bytes): Result<ReadCidResult, string> {
    var version :- ReadVarint(bytes);
    if version.value != 0 && version.value != 1 then Failure("Unknown CID version") else
    var codec :- ReadVarint(version.remainder);
    var m :- ReadMultihash(codec.remainder);
    if version.value == 0 && codec.value != DAG_PB then Failure("Version 0 CID must use dag-pb") else
    Success(ReadCidResult(Cid(version.value, codec.value, m.multihash.code, m.multihash.digest), m.remainder))
  }

  // ---------------------------------------------------------------- identifiers

  datatype StreamRefComponents =
    | StreamIDComponents(tpe: nat, genesis: Cid)
    | CommitIDComponents(tpe: nat, genesis: Cid, commit: Option<Cid>)

  /** What follows the genesis CID: nothing, a single zero for the genesis commit, or the commit CID. */
  function ParseCommitPart(tpe: nat, genesis: Cid, bytes: Bytes): Result<StreamRefComponents, string> {
    if bytes == [] then Success(StreamIDComponents(tpe, genesis))
    else if bytes == [0] then Success(CommitIDComponents(tpe, genesis, None))
    else
      var commit :- ReadCid(bytes);
      Success(CommitIDComponents(tpe, genesis, Some(commit.cid)))
  }

  /** `fromBytes` of stream-ref-parsing.ts */
  function ParseStreamRef(input: Bytes): Result<StreamRefComponents, string> {
    var streamCodec :- ReadVarint(input);
    if streamCodec.value != STREAMID_CODEC then Failure("does not include streamid codec") else
    var tpe :- ReadVarint(streamCodec.remainder);
    var genesis :- ReadCid(tpe.remainder);
    ParseCommitPart(tpe.value, genesis.cid, genesis.remainder)
  }

  datatype StreamID = StreamID(tpe: nat, cid: Cid) {
    function ToBytes(): Bytes {
      EncodeVarint(STREAMID_CODEC) + (EncodeVarint(tpe) + CidBytes(cid))
    }

    static function FromBytes(bytes: Bytes): Result<StreamID, string> {
      var parsed :- ParseStreamRef(bytes);
      if parsed.StreamIDComponents? then Success(StreamID(parsed.tpe, parsed.genesis)) else Failure("contains commit")
    }
  }

  /** What a commit may be given as: nothing (also `0` and `null`), `"0"`, a CID, or anything else. */
  datatype CommitArgument = NoCommit | ZeroText | CommitCid(cid: Cid) | NotACid

  /** `None` is the genesis commit. */
  function ParseCommit(genesis: Cid, commit: CommitArgument): Result<Option<Cid>, string> {
    match commit
    case NoCommit => Success(None)
    case ZeroText => Success(None)
    case CommitCid(cid) => Success(if cid == genesis then None else Some(cid))
    case NotACid => Failure("Cannot specify commit as a number except to request commit 0 (the genesis commit)")
  }

  datatype CommitID = CommitID(tpe: nat, cid: Cid, stored: Option<Cid>) {
    /** `new CommitID(type, cid, commit)` */
    static function Make(tpe: nat, cid: Cid, commit: CommitArgument): (r: Result<CommitID, string>)
      ensures r.Success? ==> r.value.Normal()
      ensures r.Success? ==> r.value.Commit() == if commit.CommitCid? then commit.cid else cid
      ensures r.Failure? <==> commit.NotACid?
    {
      var parsed :- ParseCommit(cid, commit);
      Success(CommitID(tpe, cid, parsed))
    }

    /** The genesis commit is never stored explicitly. */
    predicate Normal() {
      stored != Some(cid)
    }

    function Commit(): Cid {
      if stored.Some? then stored.value else cid
    }

    function ToBytes(): Bytes {
      EncodeVarint(STREAMID_CODEC)
      + (EncodeVarint(tpe) + (CidBytes(cid) + if stored.Some? then CidBytes(stored.value) else [0]))
    }

    predicate Equals(other: CommitID) {
      tpe == other.tpe && cid == other.cid && Commit() == other.Commit()
    }

    static function FromBytes(bytes: Bytes): Result<CommitID, string> {
      var parsed :- ParseStreamRef(bytes);
      if parsed.CommitIDComponents? then
        Make(parsed.tpe, parsed.genesis, if parsed.commit.None? then NoCommit else CommitCid(parsed.commit.value))
      else Failure("no commit information provided")
    }
  }
}
