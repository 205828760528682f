/**
 Extraction of caller-supplied ABIs under the deployment's trust posture
 (src/chain_parsers/visualsign-ethereum/src/abi_metadata.rs).

 Address parsing, JSON-ABI parsing and secp256k1 belong to other crates; a `World` says how
 they answer, and the results hold for every one.
 */
module AbiMetadata {
  import opened Wrappers
  import opened Bytes
  import opened Signing
  import opened AbiRegistry

  datatype World = World(
    parseAddress: string -> Option<Address>,
    parsesAsAbi: string -> bool,
    decodeSignature: string -> Option<seq<byte>>,
    decodeKey: string -> Option<seq<byte>>,
    verify: (seq<byte>, seq<byte>, seq<byte>) -> bool)

  /** Signature metadata as it arrives: the signature and key-value pairs about it. */
  datatype ProtoSignature = ProtoSignature(value: string, metadata: seq<(string, string)>)

  datatype Abi = Abi(value: string, signature: Option<ProtoSignature>, abiType: Option<int>,
                     implementationAddress: Option<string>)

  /** One entry of the mapping set: the address text it is filed under, and its ABI. */
  datatype Mapping = Mapping(name: string, abi: Abi)

  /** The entries come from a map: every name once, in whatever order the map is walked. */
  ghost predicate DistinctNames(ms: seq<Mapping>) {
    forall i, j :: 0 <= i < j < |ms| ==> ms[i].name != ms[j].name
  }

  const MaxAbiJsonBytes: nat := 1024 * 1024

  predicate WithinLimit(json: string) {
    |Utf8(json)| <= MaxAbiJsonBytes
  }

  // ----- Signatures -----

  /** The first pair with this key. */
  function Lookup(pairs: seq<(string, string)>, key: string): (r: Option<string>) {
    if pairs == [] then None
    else if pairs[0].0 == key then Some(pairs[0].1)
    else Lookup(pairs[1..], key)
  }

  /** A Rust string: its bytes fit a slice. */
  predicate InMemory(json: string) {
    |Utf8(json)| < 0x8000_0000_0000_0000
  }

  lemma ShortFits(json: string)
    requires |json| <= 1000
    ensures WithinLimit(json) && InMemory(json)
  {
    Utf8Length(json);
  }

  /** What a signature over an ABI commits to. */
  function AbiPreimage(chainId: u64, address: Address, json: string): (bs: seq<byte>)
    requires InMemory(json)
  {
    Preimage(EthereumAbi(chainId, address, Utf8(json)))
  }

  /** A signature that verifies, under an allowlisted key when an allowlist is enforced. */
  predicate ValidSignature(w: World, json: string, address: Address, chainId: u64,
                           signature: ProtoSignature, allowlist: Option<SignerAllowlist>)
    requires WithinLimit(json)
  {
    && Lookup(signature.metadata, "algorithm") == Some("secp256k1")
    && var keyText := Lookup(signature.metadata, "public_key");
    && keyText.Some?
    && var sig := w.decodeSignature(signature.value);
    && sig.Some?
    && var key := w.decodeKey(keyText.value);
    && key.Some?
    && w.verify(key.value, AbiPreimage(chainId, address, json), sig.value)
    && (allowlist.Some? ==> key.value in allowlist.value)
  }

  // ----- One entry -----

  /** Nobody vouched for where an accepted entry came from. */
  predicate IdentityUnverified(policy: MetadataTrustPolicy, abi: Abi) {
    policy.SignerAllowlist().None? || abi.signature.None?
  }

  /** Anything but an explicit proxy is an implementation; a bad link leaves a proxy unlinked. */
  function ResolveAbiKind(w: World, abi: Abi): (r: (AbiKind, Option<Address>)) {
    if abi.abiType != Some(2) then (Implementation, None)
    else if abi.implementationAddress.None? then (Proxy, None)
    else (Proxy, w.parseAddress(abi.implementationAddress.value))
  }

  predicate Trusted(w: World, policy: MetadataTrustPolicy, chainId: u64, address: Address, abi: Abi)
    requires WithinLimit(abi.value)
  {
    if abi.signature.Some?
    then ValidSignature(w, abi.value, address, chainId, abi.signature.value, policy.SignerAllowlist())
    else policy.AcceptsUnsigned()
  }

  predicate Accepted(w: World, policy: MetadataTrustPolicy, chainId: u64, m: Mapping) {
    && w.parseAddress(m.name).Some?
    && WithinLimit(m.abi.value)
    && Trusted(w, policy, chainId, w.parseAddress(m.name).value, m.abi)
    && w.parsesAsAbi(m.abi.value)
  }

  function MappingFor(w: World, m: Mapping): (r: AddressMapping) {
    var (kind, implementation) := ResolveAbiKind(w, m.abi);
    AddressMapping(m.name, kind, implementation)
  }

  // ----- The whole set -----

  datatype Extraction = Extraction(registry: Registry, unverified: nat)

  function Step(w: World, policy: MetadataTrustPolicy, chainId: u64, e: Extraction, m: Mapping): (r: Extraction) {
    if !Accepted(w, policy, chainId, m) then e
    else
      Extraction(
        Registry(e.registry.abis[m.name := JsonAbi(m.abi.value)],
                 e.registry.mappings[(chainId, w.parseAddress(m.name).value) := MappingFor(w, m)]),
        e.unverified + if IdentityUnverified(policy, m.abi) then 1 else 0)
  }

  function Extract(w: World, policy: MetadataTrustPolicy, chainId: u64, ms: seq<Mapping>): (r: Extraction) {
    if ms == [] then Extraction(EmptyRegistry, 0)
    else Step(w, policy, chainId, Extract(w, policy, chainId, ms[..|ms| - 1]), ms[|ms| - 1])
  }

  datatype ChainMetadata =
    | Ethereum(networkId: Option<string>, abiMappings: seq<Mapping>)
    | OtherChain
    | NoMetadata

  /** The registry a request gets: none when nothing was supplied or nothing was accepted. */
  function ExtractMetadata(w: World, policy: MetadataTrustPolicy, chainId: u64, metadata: Option<ChainMetadata>)
    : (r: (Option<Registry>, nat))
  {
    if metadata.None? || !metadata.value.Ethereum? then (None, 0)
    else
      var e := Extract(w, policy, chainId, metadata.value.abiMappings);
      (if e.registry.abis == map[] then None else Some(e.registry), e.unverified)
  }

  method ExtractWithProvenance(w: World, metadata: Option<ChainMetadata>, chainId: u64, policy: MetadataTrustPolicy)
    returns (registry: AbiRegistry?, unverified: nat)
    ensures ExtractMetadata(w, policy, chainId, metadata) ==
            (if registry == null then None else Some(registry.Contents()), unverified)
  {
    if metadata.None? || !metadata.value.Ethereum? { return null, 0; }
    var ms := metadata.value.abiMappings;
    if ms == [] { return null, 0; }
    var reg := new AbiRegistry();
    unverified := 0;
    for i := 0 to |ms|
      invariant fresh(reg)
      invariant Extraction(reg.Contents(), unverified) == Extract(w, policy, chainId, ms[..i])
    {
      assert ms[..i + 1][..i] == ms[..i];
      var m := ms[i];
      var address := w.parseAddress(m.name);
      if address.None? { continue; }
      if !WithinLimit(m.abi.value) { continue; }
      var identityUnverified := IdentityUnverified(policy, m.abi);
      match m.abi.signature {
        case Some(signature) =>
          if !ValidSignature(w, m.abi.value, address.value, chainId, signature, policy.SignerAllowlist()) { continue; }
        case None =>
          if !policy.AcceptsUnsigned() { continue; }
      }
      var (kind, implementation) := ResolveAbiKind(w, m.abi);
      var ok := reg.RegisterAbi(m.name, m.abi.value, w.parsesAsAbi);
      if ok {
        reg.MapAddressWithType(chainId, address.value, m.name, kind, implementation);
        if identityUnverified { unverified := unverified + 1; }
      }
    }
    assert ms[..|ms|] == ms;
    registry := if reg.abis == map[] then null else reg;
  }
}
