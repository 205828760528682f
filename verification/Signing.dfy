/**
 The domain-separated preimage of metadata signatures and the deploy-time trust posture
 (src/visualsign/src/signing.rs).

 SHA-256 stays outside: the results are about the bytes the hasher absorbs.
 */
module Signing {
  import opened Wrappers
  import opened Bytes

  type u64 = n: nat | n < 0x1_0000_0000_0000_0000

  /** A Rust slice: at most `isize::MAX` bytes. */
  type Slice = s: seq<byte> | |s| < 0x8000_0000_0000_0000

  type Address = s: seq<byte> | |s| == 20 witness seq(20, _ => 0)

  type ProgramId = s: seq<byte> | |s| == 32 witness seq(32, _ => 0)

  // ----- Length-prefixed fields -----

  function Frame(field: Slice): (bs: seq<byte>) {
    Prefixed(field, 8)
  }

  function Frames(fields: seq<Slice>): (bs: seq<byte>) {
    if fields == [] then [] else Frame(fields[0]) + Frames(fields[1..])
  }

  lemma FramePrefixFree(a: Slice, x: seq<byte>, b: Slice, y: seq<byte>)
    requires Frame(a) + x == Frame(b) + y
    ensures a == b && x == y
  {
    Power256Values();
    PrefixedSplit(a, x, b, y, 8);
  }

  /** Whatever the fields contain, their framed concatenation determines all of them. */
  lemma {:induction false} FramesInjective(fs: seq<Slice>, gs: seq<Slice>)
    requires Frames(fs) == Frames(gs)
    ensures fs == gs
  {
    if fs != [] && gs != [] {
      FramePrefixFree(fs[0], Frames(fs[1..]), gs[0], Frames(gs[1..]));
      FramesInjective(fs[1..], gs[1..]);
      assert fs == [fs[0]] + fs[1..] && gs == [gs[0]] + gs[1..];
    }
  }

  lemma {:induction false} FramesAppend(fs: seq<Slice>, f: Slice)
    ensures Frames(fs + [f]) == Frames(fs) + Frame(f)
  {
    if fs == [] {
      assert fs + [f] == [f];
      assert Frames([f]) == Frame(f) + Frames([]);
    } else {
      assert (fs + [f])[0] == fs[0] && (fs + [f])[1..] == fs[1..] + [f];
      FramesAppend(fs[1..], f);
    }
  }

  /** A running hash, known by the bytes it has absorbed. */
  class Hasher {
    var absorbed: seq<byte>

    constructor ()
      ensures absorbed == []
    {
      absorbed := [];
    }

    method Update(bs: seq<byte>)
      modifies this
      ensures absorbed == old(absorbed) + bs
    {
      absorbed := absorbed + bs;
    }

    method UpdateFramed(field: Slice)
      modifies this
      ensures absorbed == old(absorbed) + Frame(field)
    {
      var prefix := LittleEndian(|field|, 8);
      Update(prefix);
      Update(field);
      assert absorbed == old(absorbed) + (prefix + field);
    }
  }

  /** The bytes of an ASCII constant. */
  function Ascii(s: string): (bs: Slice)
    requires |s| < 100 && forall i :: 0 <= i < |s| ==> s[i] as int < 128
    ensures |bs| == |s|
  {
    seq(|s|, i requires 0 <= i < |s| => s[i] as int)
  }

  const DomainBytes: Slice := Ascii("visualsign-metadata-v1")

  /** Feeds the four fields of the v1 layout, each behind its length. */
  method MetadataSigningPrehash(chainTag: Slice, scope: Slice, body: Slice) returns (preimage: seq<byte>)
    ensures preimage == Frames([DomainBytes, chainTag, scope, body])
  {
    var hasher := new Hasher();
    var fields: seq<Slice> := [DomainBytes, chainTag, scope, body];
    for i := 0 to |fields|
      invariant hasher.absorbed == Frames(fields[..i])
    {
      hasher.UpdateFramed(fields[i]);
      assert fields[..i + 1] == fields[..i] + [fields[i]];
      FramesAppend(fields[..i], fields[i]);
    }
    assert fields[..|fields|] == fields;
    preimage := hasher.absorbed;
  }

  // ----- The five artifacts -----

  datatype Origin = NearOrigin | EthereumOrigin | SolanaOrigin

  datatype Artifact =
    | EthereumAbi(chainId: u64, address: Address, body: Slice)
    | SolanaIdl(programId: ProgramId, body: Slice)
    | TokenMetadata(origin: Origin, networkId: Slice, assetId: Slice, body: Slice)

  function ChainTag(a: Artifact): (tag: Slice)
    ensures |tag| == match a
                     case EthereumAbi(_, _, _) => 8
                     case SolanaIdl(_, _) => 6
                     case TokenMetadata(NearOrigin, _, _, _) => 19
                     case TokenMetadata(EthereumOrigin, _, _, _) => 23
                     case TokenMetadata(SolanaOrigin, _, _, _) => 21
  {
    match a
    case EthereumAbi(_, _, _) => Ascii("ethereum")
    case SolanaIdl(_, _) => Ascii("solana")
    case TokenMetadata(NearOrigin, _, _, _) => Ascii("near-token-metadata")
    case TokenMetadata(EthereumOrigin, _, _, _) => Ascii("ethereum-token-metadata")
    case TokenMetadata(SolanaOrigin, _, _, _) => Ascii("solana-token-metadata")
  }

  function ScopeBytes(a: Artifact): (bs: seq<byte>) {
    match a
    case EthereumAbi(chainId, address, _) => BigEndian(chainId, 8) + address
    case SolanaIdl(programId, _) => programId
    case TokenMetadata(_, networkId, assetId, _) => Frames([networkId, assetId])
  }

  /** The scope buffer can be allocated. */
  predicate FitsMemory(a: Artifact) {
    |ScopeBytes(a)| < 0x8000_0000_0000_0000
  }

  function Preimage(a: Artifact): (bs: seq<byte>)
    requires FitsMemory(a)
  {
    Frames([DomainBytes, ChainTag(a), ScopeBytes(a), a.body])
  }

  lemma SameTagSameKind(a: Artifact, b: Artifact)
    requires ChainTag(a) == ChainTag(b)
    ensures a.EthereumAbi? <==> b.EthereumAbi?
    ensures a.SolanaIdl? <==> b.SolanaIdl?
    ensures a.TokenMetadata? ==> b.TokenMetadata? && a.origin == b.origin
  {
    assert |ChainTag(a)| == |ChainTag(b)|;
  }

  lemma SameScope(a: Artifact, b: Artifact)
    requires ChainTag(a) == ChainTag(b) && ScopeBytes(a) == ScopeBytes(b) && a.body == b.body
    ensures a == b
  {
    SameTagSameKind(a, b);
    match a
    case EthereumAbi(_, _, _) =>
      SplitEqual(BigEndian(a.chainId, 8), a.address, BigEndian(b.chainId, 8), b.address);
      Power256Values();
      BigEndianInjective(a.chainId, b.chainId, 8);
    case SolanaIdl(_, _) =>
    case TokenMetadata(_, _, _, _) =>
      var fs, gs := [a.networkId, a.assetId], [b.networkId, b.assetId];
      FramesInjective(fs, gs);
      assert fs[0] == gs[0] && fs[1] == gs[1];
  }

  /** No two artifacts, of any kinds and with any contents, share a preimage. */
  lemma PreimageInjective(a: Artifact, b: Artifact)
    requires FitsMemory(a) && FitsMemory(b)
    requires Preimage(a) == Preimage(b)
    ensures a == b
  {
    var fs: seq<Slice> := [DomainBytes, ChainTag(a), ScopeBytes(a), a.body];
    var gs: seq<Slice> := [DomainBytes, ChainTag(b), ScopeBytes(b), b.body];
    FramesInjective(fs, gs);
    assert fs[1] == gs[1] && fs[2] == gs[2] && fs[3] == gs[3];
    SameScope(a, b);
  }

  // ----- Reading a preimage -----

  /** The next `n` fields, each behind its length as eight little-endian bytes, and nothing else. */
  function ReadFrames(bs: seq<byte>, n: nat): (r: Option<seq<seq<byte>>>) {
    if n == 0 then if bs == [] then Some([]) else None
    else if |bs| < 8 then None
    else
      var len := FromLittleEndian(bs[..8]);
      if |bs| < 8 + len then None
      else
        var more :- ReadFrames(bs[8 + len..], n - 1);
        Some([bs[8..8 + len]] + more)
  }

  lemma {:induction false} FramesRead(fields: seq<Slice>)
    ensures ReadFrames(Frames(fields), |fields|) == Some(fields)
  {
    if fields != [] {
      FrameFirst(fields[0], Frames(fields[1..]));
      FramesRead(fields[1..]);
      assert fields == [fields[0]] + fields[1..];
    }
  }

  lemma FrameFirst(f: Slice, rest: seq<byte>)
    ensures var bs := Frame(f) + rest;
            |bs| >= 8 + |f| && FromLittleEndian(bs[..8]) == |f| && bs[8..8 + |f|] == f && bs[8 + |f|..] == rest
  {
    ThreeParts(LittleEndian(|f|, 8), f, rest);
    Power256Values();
    FromOfLittleEndian(|f|, 8);
  }

  lemma ThreeParts(a: seq<byte>, b: seq<byte>, c: seq<byte>)
    ensures var bs := (a + b) + c;
            bs[..|a|] == a && bs[|a|..|a| + |b|] == b && bs[|a| + |b|..] == c
  {
  }

  /** The bytes are the characters of the text. */
  predicate Spells(bs: seq<byte>, text: string) {
    |bs| == |text| && forall i :: 0 <= i < |bs| ==> bs[i] == text[i] as int
  }

  /** What the scope field says, read back. */
  predicate Scopes(scope: seq<byte>, a: Artifact) {
    match a
    case EthereumAbi(chainId, address, _) =>
      |scope| == 28 && FromBigEndian(scope[..8]) == chainId && scope[8..] == address
    case SolanaIdl(programId, _) => scope == programId
    case TokenMetadata(_, networkId, assetId, _) => ReadFrames(scope, 2) == Some([networkId, assetId])
  }

  predicate Tags(tag: seq<byte>, a: Artifact) {
    match a
    case EthereumAbi(_, _, _) => Spells(tag, "ethereum")
    case SolanaIdl(_, _) => Spells(tag, "solana")
    case TokenMetadata(NearOrigin, _, _, _) => Spells(tag, "near-token-metadata")
    case TokenMetadata(EthereumOrigin, _, _, _) => Spells(tag, "ethereum-token-metadata")
    case TokenMetadata(SolanaOrigin, _, _, _) => Spells(tag, "solana-token-metadata")
  }

  /** The four fields of a preimage: the domain, the tag of the kind, the scope and the body. */
  lemma PreimageLayout(a: Artifact)
    requires FitsMemory(a)
    ensures exists domain, tag, scope ::
              && ReadFrames(Preimage(a), 4) == Some([domain, tag, scope, a.body])
              && Spells(domain, "visualsign-metadata-v1") && Tags(tag, a) && Scopes(scope, a)
  {
    var fields: seq<Slice> := [DomainBytes, ChainTag(a), ScopeBytes(a), a.body];
    FramesRead(fields);
    ScopeRead(a);
    DomainSpelled();
    TagSpelled(a);
  }

  lemma DomainSpelled()
    ensures Spells(DomainBytes, "visualsign-metadata-v1")
  {
  }

  lemma TagSpelled(a: Artifact)
    ensures Tags(ChainTag(a), a)
  {
  }

  lemma ScopeRead(a: Artifact)
    ensures Scopes(ScopeBytes(a), a)
  {
    match a
    case EthereumAbi(chainId, address, _) =>
      var scope := ScopeBytes(a);
      assert scope[..8] == BigEndian(chainId, 8) && scope[8..] == address;
      Power256Values();
      FromOfBigEndian(chainId, 8);
    case SolanaIdl(_, _) =>
    case TokenMetadata(_, networkId, assetId, _) => FramesRead([networkId, assetId]);
  }

  // ----- Trust posture -----

  /** Canonical public-key bytes of the signers a deployment trusts. */
  type SignerAllowlist = set<seq<byte>>

  datatype MetadataTrustPolicy = AcceptUnsigned | RequireAllowlistedSigner(allow: SignerAllowlist) {

    predicate AcceptsUnsigned() {
      AcceptUnsigned?
    }

    function SignerAllowlist(): (allowlist: Option<SignerAllowlist>) {
      if AcceptUnsigned? then None else Some(allow)
    }
  }
}
