/**
 What the Ethereum conversion guarantees about the fields it shows
 (src/chain_parsers/visualsign-ethereum/src/lib.rs).
 */
module DispatchSafety {
  import opened Wrappers
  import opened Bytes
  import opened Decimals
  import opened Units
  import opened Signing
  import opened AbiRegistry
  import opened AbiMetadata
  import opened AbiTrust
  import opened Dispatch
  import Payload
  import SignedBytes

  // ----- Which destinations the caller can speak for -----

  /** Calldata is always shown. */
  lemma CalldataShown(b: BuiltIns, tx: Transaction, decodeTransfers: bool, chainId: u64, registry: Option<Registry>)
    ensures Calldata(b, tx, decodeTransfers, chainId, registry) == [] <==> tx.input == []
  {
  }

  ghost predicate OnlyBuiltIn(fs: seq<Sourced>) {
    forall i :: 0 <= i < |fs| ==> fs[i].source == BuiltIn
  }

  function MappingsOf(metadata: Option<ChainMetadata>): (ms: seq<Mapping>) {
    if metadata.Some? && metadata.value.Ethereum? then metadata.value.abiMappings else []
  }

  /** The calldata fields owe nothing to the metadata of any request that is shown at this chain. */
  ghost predicate OutOfReach(b: BuiltIns, w: World, policy: MetadataTrustPolicy, tx: Transaction, decodeTransfers: bool, chainId: u64) {
    forall metadata :: DistinctNames(MappingsOf(metadata)) && ResolveChainId(b, tx, metadata) == Ok(chainId) ==>
                         OnlyBuiltIn(Calldata(b, tx, decodeTransfers, chainId, RequestRegistry(w, policy, chainId, metadata)))
  }

  /** Metadata can leave or bring the transaction to this chain. */
  ghost predicate Nameable(b: BuiltIns, tx: Transaction, chainId: u64) {
    exists network :: ResolveChainId(b, tx, Some(Ethereum(network, []))) == Ok(chainId)
  }

  /** Some entry for `to` would be accepted at this chain. */
  ghost predicate Acceptable(w: World, policy: MetadataTrustPolicy, chainId: u64, to: Address) {
    exists m :: Accepted(w, policy, chainId, m) && w.parseAddress(m.name) == Some(to)
  }

  /** The entry as a proxy of itself; its signature does not cover that. */
  function SelfLinked(m: Mapping): (r: Mapping) {
    m.(abi := m.abi.(abiType := Some(2), implementationAddress := Some(m.name)))
  }

  lemma SelfLinkedAccepted(w: World, policy: MetadataTrustPolicy, chainId: u64, network: Option<string>, m: Mapping, to: Address)
    requires Accepted(w, policy, chainId, m) && w.parseAddress(m.name) == Some(to)
    ensures var registry := RequestRegistry(w, policy, chainId, Some(Ethereum(network, [SelfLinked(m)])));
            registry.Some? && registry.value.GetImplementationAbi(chainId, to) == Some((to, JsonAbi(m.abi.value)))
  {
    var n := SelfLinked(m);
    var ms := [n];
    assert Accepted(w, policy, chainId, n);
    assert LastSpelling(w, policy, chainId, ms, to, 0);
    RegisteredBody(w, policy, chainId, ms, 0);
    ResolutionExact(w, policy, chainId, ms, chainId, to, JsonAbi(m.abi.value));
    DeclaredLink(w, policy, chainId, ms, to, to);
  }

  lemma LinkedShowsNote(b: BuiltIns, tx: Transaction, decodeTransfers: bool, chainId: u64, registry: Registry)
    requires tx.input != [] && tx.to.Some? && ProtocolDecoding(b, tx, chainId).None? && !KnownToken(b, tx)
    requires registry.GetImplementationAbi(chainId, tx.to.value).Some?
    ensures !OnlyBuiltIn(Calldata(b, tx, decodeTransfers, chainId, Some(registry)))
  {
    var fs := Calldata(b, tx, decodeTransfers, chainId, Some(registry));
    assert fs == CallerFields(b, registry, chainId, tx.to.value, tx.input);
    assert fs[0].source.ImplementationNote?;
  }

  lemma UnmappedShowsBuiltIn(b: BuiltIns, tx: Transaction, decodeTransfers: bool, chainId: u64, registry: Option<Registry>)
    requires tx.to.Some? && registry.Some? ==> (chainId, tx.to.value) !in registry.value.mappings
    ensures OnlyBuiltIn(Calldata(b, tx, decodeTransfers, chainId, registry))
  {
  }

  lemma NotAcceptableUnmapped(w: World, policy: MetadataTrustPolicy, chainId: u64, metadata: Option<ChainMetadata>, to: Address)
    requires !Acceptable(w, policy, chainId, to)
    ensures var registry := RequestRegistry(w, policy, chainId, metadata);
            registry.Some? ==> (chainId, to) !in registry.value.mappings
  {
    MappedExactly(w, policy, chainId, MappingsOf(metadata), chainId, to);
  }

  /**
   A caller can put a field of their own in front of the signer at this chain exactly when there is
   calldata for a destination that no built-in decoder claims, metadata can name the chain, and the
   posture accepts some entry for the destination there.
   */
  lemma OutOfReachExactly(b: BuiltIns, w: World, policy: MetadataTrustPolicy, tx: Transaction, decodeTransfers: bool, chainId: u64)
    ensures OutOfReach(b, w, policy, tx, decodeTransfers, chainId) <==>
            || tx.input == [] || tx.to.None? || ProtocolDecoding(b, tx, chainId).Some? || KnownToken(b, tx)
            || !Nameable(b, tx, chainId) || !Acceptable(w, policy, chainId, tx.to.value)
  {
    if tx.input != [] && tx.to.Some? && ProtocolDecoding(b, tx, chainId).None? && !KnownToken(b, tx) {
      if Nameable(b, tx, chainId) && Acceptable(w, policy, chainId, tx.to.value) {
        AcceptableReaches(b, w, policy, tx, decodeTransfers, chainId);
      } else {
        NotAcceptableOutOfReach(b, w, policy, tx, decodeTransfers, chainId);
      }
    }
  }

  lemma AcceptableReaches(b: BuiltIns, w: World, policy: MetadataTrustPolicy, tx: Transaction, decodeTransfers: bool, chainId: u64)
    requires tx.input != [] && tx.to.Some? && ProtocolDecoding(b, tx, chainId).None? && !KnownToken(b, tx)
    requires Nameable(b, tx, chainId) && Acceptable(w, policy, chainId, tx.to.value)
    ensures !OutOfReach(b, w, policy, tx, decodeTransfers, chainId)
  {
    var m :| Accepted(w, policy, chainId, m) && w.parseAddress(m.name) == Some(tx.to.value);
    var network :| ResolveChainId(b, tx, Some(Ethereum(network, []))) == Ok(chainId);
    var metadata := Some(Ethereum(network, [SelfLinked(m)]));
    assert ResolveChainId(b, tx, metadata) == Ok(chainId);
    SelfLinkedAccepted(w, policy, chainId, network, m, tx.to.value);
    LinkedShowsNote(b, tx, decodeTransfers, chainId, RequestRegistry(w, policy, chainId, metadata).value);
    assert DistinctNames(MappingsOf(metadata));
  }

  lemma NotAcceptableOutOfReach(b: BuiltIns, w: World, policy: MetadataTrustPolicy, tx: Transaction, decodeTransfers: bool, chainId: u64)
    requires tx.to.Some? && (!Nameable(b, tx, chainId) || !Acceptable(w, policy, chainId, tx.to.value))
    ensures OutOfReach(b, w, policy, tx, decodeTransfers, chainId)
  {
    forall metadata | DistinctNames(MappingsOf(metadata)) && ResolveChainId(b, tx, metadata) == Ok(chainId)
      ensures OnlyBuiltIn(Calldata(b, tx, decodeTransfers, chainId, RequestRegistry(w, policy, chainId, metadata)))
    {
      if metadata.Some? && metadata.value.Ethereum? {
        assert ResolveChainId(b, tx, Some(Ethereum(metadata.value.networkId, []))) == Ok(chainId);
        NotAcceptableUnmapped(w, policy, chainId, metadata, tx.to.value);
      }
      UnmappedShowsBuiltIn(b, tx, decodeTransfers, chainId, RequestRegistry(w, policy, chainId, metadata));
    }
  }

  /** Under accept-unsigned that takes no more than a spelling of the address and a body that fits and parses. */
  lemma AcceptableUnsigned(w: World, chainId: u64, to: Address)
    ensures Acceptable(w, AcceptUnsigned, chainId, to) <==>
            (exists name :: w.parseAddress(name) == Some(to)) && (exists json :: w.parsesAsAbi(json) && WithinLimit(json))
  {
    if (exists name :: w.parseAddress(name) == Some(to)) && (exists json :: w.parsesAsAbi(json) && WithinLimit(json)) {
      var name :| w.parseAddress(name) == Some(to);
      var json :| w.parsesAsAbi(json) && WithinLimit(json);
      assert Accepted(w, AcceptUnsigned, chainId, Mapping(name, Abi(json, None, None, None)));
    }
  }

  /** The two fields agree but for the badge of an address. */
  ghost predicate SameButBadge(f: Payload.Field, g: Payload.Field) {
    && f.common == g.common
    && f.body.AddressV2? && g.body.AddressV2?
    && f.body.(badgeText := None) == g.body.(badgeText := None)
  }

  lemma KnownTokenCalldata(b: BuiltIns, tx: Transaction, chainId: u64,
                           d1: bool, r1: Option<Registry>, d2: bool, r2: Option<Registry>)
    requires KnownToken(b, tx)
    ensures Calldata(b, tx, d1, chainId, r1) == Calldata(b, tx, d2, chainId, r2)
  {
  }

  /** The same fields in the same places, but perhaps for the badge of the second. */
  ghost predicate SameButSecondBadge(fs: seq<Payload.Field>, gs: seq<Payload.Field>) {
    && |fs| == |gs|
    && forall i :: 0 <= i < |fs| ==> fs[i] == gs[i] || (i == 1 && SameButBadge(fs[i], gs[i]))
  }

  lemma DifferentAddressFields(network: Payload.Field, to1: seq<Payload.Field>, to2: seq<Payload.Field>,
                               costs: seq<Payload.Field>, calldata: seq<Payload.Field>)
    requires |to1| == |to2| <= 1 && forall i :: 0 <= i < |to1| ==> SameButBadge(to1[i], to2[i])
    ensures SameButSecondBadge([network] + to1 + costs + calldata, [network] + to2 + costs + calldata)
  {
  }

  lemma SameAddressFields(b: BuiltIns, tx: Transaction, chainId: u64, r1: Option<Registry>, r2: Option<Registry>)
    ensures var to1, to2 := AddressFields(b, tx, chainId, r1), AddressFields(b, tx, chainId, r2);
            |to1| == |to2| <= 1 && forall i :: 0 <= i < |to1| ==> SameButBadge(to1[i], to2[i])
  {
  }

  /**
   Two requests for the same transaction to a compiled-in token, with any two caller registries and
   either transfer setting, are shown the same fields but for the badge of the destination.
   */
  lemma KnownTokenLocksOut(b: BuiltIns, tx: Transaction, chainId: u64, title: Option<string>,
                           d1: bool, m1: Option<ChainMetadata>, r1: Option<Registry>,
                           d2: bool, m2: Option<ChainMetadata>, r2: Option<Registry>)
    requires KnownToken(b, tx)
    ensures var p1, p2 := Rendered(b, tx, Options(d1, title, m1), chainId, r1), Rendered(b, tx, Options(d2, title, m2), chainId, r2);
            && p1.(fields := []) == p2.(fields := [])
            && SameButSecondBadge(p1.fields, p2.fields)
  {
    KnownTokenCalldata(b, tx, chainId, d1, r1, d2, r2);
    SameAddressFields(b, tx, chainId, r1, r2);
    DifferentAddressFields(TextField("Network", b.networkName(chainId)),
                           AddressFields(b, tx, chainId, r1), AddressFields(b, tx, chainId, r2),
                           CostFields(b, tx, chainId), Plain(Calldata(b, tx, d1, chainId, r1)));
  }

  /** What is shown for a known token: its standard's decoding, or the raw bytes. */
  lemma KnownTokenShown(b: BuiltIns, tx: Transaction, decodeTransfers: bool, chainId: u64, registry: Option<Registry>)
    requires KnownToken(b, tx) && tx.input != [] && ProtocolDecoding(b, tx, chainId).None?
    ensures var decoded := match b.tokenStandard(tx.chainId, tx.to.value).value
              case Erc20 => b.erc20(tx.input)
              case Erc721 => b.erc721(tx.input)
              case Erc1155 => b.erc1155(tx.input);
            Plain(Calldata(b, tx, decodeTransfers, chainId, registry)) ==
            [if decoded.Some? then decoded.value else b.rawHex(tx.input)]
  {
  }

  /** What is shown for a linked proxy: the implementation, and the first decoding there is. */
  lemma ProxyShown(b: BuiltIns, registry: Registry, chainId: u64, to: Address, input: seq<byte>,
                   implementation: Address, abi: JsonAbi)
    requires registry.GetImplementationAbi(chainId, to) == Some((implementation, abi))
    ensures var shown := Plain(CallerFields(b, registry, chainId, to, input));
            var linked := b.decodeCall(abi, input, chainId);
            var own := registry.GetAbiForAddress(chainId, to);
            && |shown| == 2
            && NotesImplementation(b, implementation, linked.Some?, shown[0])
            && shown[1] == if linked.Some? then linked.value
                           else if own.Some? && b.decodeCall(own.value, input, chainId).Some?
                           then b.decodeCall(own.value, input, chainId).value
                           else b.rawHex(input)
  {
  }

  /** The chain id that metadata names: that of its network, for Ethereum metadata with one. */
  lemma MetadataNamesChain(b: BuiltIns, metadata: Option<ChainMetadata>, c: u64)
    ensures MetadataChainId(b, metadata) == Some(c) <==>
            exists n, ms :: metadata == Some(Ethereum(Some(n), ms)) && b.chainIdOf(n) == Some(c)
  {
    if MetadataChainId(b, metadata) == Some(c) {
      assert metadata == Some(Ethereum(Some(metadata.value.networkId.value), metadata.value.abiMappings));
    }
  }

  // ----- Provenance of caller decodings -----

  lemma CallerFieldSources(b: BuiltIns, registry: Registry, chainId: u64, to: Address, input: seq<byte>, f: Sourced)
    requires f in CallerFields(b, registry, chainId, to, input)
    ensures f.source.CallerAbi? ==>
              && b.decodeCall(f.source.abi, input, chainId) == Some(f.field)
              && (|| (f.source.at == to && registry.GetAbiForAddress(chainId, to) == Some(f.source.abi))
                  || registry.GetImplementationAbi(chainId, to) == Some((f.source.at, f.source.abi)))
    ensures f.source.ImplementationNote? ==>
              registry.GetImplementationAbi(chainId, to).Some? && registry.GetImplementationAbi(chainId, to).value.0 == f.source.at
  {
    var own := FromCallerAbi(b, to, registry.GetAbiForAddress(chainId, to), input, chainId);
    if registry.GetImplementationAbi(chainId, to).Some? {
      var (implementation, abi) := registry.GetImplementationAbi(chainId, to).value;
      var linked := FromCallerAbi(b, implementation, Some(abi), input, chainId);
      assert f.source.CallerAbi? ==> f in linked || f in own;
    }
  }

  lemma CallerFieldOnlySupplied(b: BuiltIns, tx: Transaction, decodeTransfers: bool, chainId: u64,
                                registry: Option<Registry>, f: Sourced)
    requires f in Calldata(b, tx, decodeTransfers, chainId, registry) && f.source != BuiltIn
    ensures tx.to.Some? && registry.Some? && !KnownToken(b, tx)
    ensures f in CallerFields(b, registry.value, chainId, tx.to.value, tx.input)
  {
  }

  /** Some body is vouched for at `at`. */
  ghost predicate SignedFor(w: World, allow: SignerAllowlist, chainId: u64, ms: seq<Mapping>, at: Address) {
    exists json :: Vouched(w, allow, chainId, ms, at, json)
  }

  /**
   What a field from the caller rests on: a body, or an implementation address, whose own entry
   carries a signature that verified under an allowlisted key for this chain and address, that
   address being the destination or the one implementation its deciding entry declares.
   */
  ghost predicate SourceVouched(w: World, allow: SignerAllowlist, chainId: u64, ms: seq<Mapping>, to: Address, source: Source) {
    match source
    case BuiltIn => true
    case ImplementationNote(at) =>
      && Declares(w, RequireAllowlistedSigner(allow), chainId, ms, to, at)
      && SignedFor(w, allow, chainId, ms, at)
    case CallerAbi(at, abi) =>
      && (at == to || Declares(w, RequireAllowlistedSigner(allow), chainId, ms, to, at))
      && Vouched(w, allow, chainId, ms, at, abi.json)
  }

  lemma CallerFieldVouched(b: BuiltIns, w: World, allow: SignerAllowlist, chainId: u64, ms: seq<Mapping>,
                           to: Address, input: seq<byte>, f: Sourced)
    requires DistinctNames(ms)
    requires f in CallerFields(b, Extract(w, RequireAllowlistedSigner(allow), chainId, ms).registry, chainId, to, input)
    ensures SourceVouched(w, allow, chainId, ms, to, f.source)
  {
    var registry := Extract(w, RequireAllowlistedSigner(allow), chainId, ms).registry;
    CallerFieldSources(b, registry, chainId, to, input, f);
    var hop := registry.GetImplementationAbi(chainId, to);
    if hop.Some? { ImplementationIsVouched(w, allow, chainId, ms, to, hop.value.0, hop.value.1); }
    if f.source.CallerAbi? { ResolvedIsVouched(w, allow, chainId, ms, chainId, to, f.source.abi); }
  }

  /**
   Under require-signed, every calldata field that is not built in is for a destination that is no
   known token, at the transaction's own chain when it names one, and rests on an entry's own valid
   signature.
   */
  lemma CallerFieldsVouched(b: BuiltIns, w: World, allow: SignerAllowlist, tx: Transaction, options: Options,
                            chainId: u64, f: Sourced)
    requires DistinctNames(MappingsOf(options.metadata))
    requires ResolveChainId(b, tx, options.metadata) == Ok(chainId)
    requires f in Calldata(b, tx, options.decodeTransfers, chainId,
                           RequestRegistry(w, RequireAllowlistedSigner(allow), chainId, options.metadata))
    requires f.source != BuiltIn
    ensures tx.to.Some? && !KnownToken(b, tx)
    ensures SourceVouched(w, allow, chainId, MappingsOf(options.metadata), tx.to.value, f.source)
    ensures Accounted(b, tx.input, chainId, f)
    ensures tx.chainId.Some? ==> chainId == tx.chainId.value
  {
    var registry := RequestRegistry(w, RequireAllowlistedSigner(allow), chainId, options.metadata);
    SourcesHonest(b, tx, options.decodeTransfers, chainId, registry, f);
    CallerFieldOnlySupplied(b, tx, options.decodeTransfers, chainId, registry, f);
    CallerFieldVouched(b, w, allow, chainId, MappingsOf(options.metadata), tx.to.value, tx.input, f);
  }

  /** What the compiled-in decoders make of the calldata, or its raw bytes. */
  ghost predicate BuiltInOutput(b: BuiltIns, input: seq<byte>, chainId: u64, field: Payload.Field) {
    || field == b.rawHex(input)
    || Some(field) in {b.universalRouter(input, chainId), b.permit2(input, chainId)}
    || Some(field) in {b.erc20(input), b.erc721(input), b.erc1155(input)}
  }

  /** An address field for an implementation, saying whether its ABI decoded the call. */
  ghost predicate NotesImplementation(b: BuiltIns, at: Address, decoded: bool, f: Payload.Field) {
    && f.common.caption == "Implementation" && f.common.fallbackText == b.showAddress(at)
    && f.body.AddressV2? && f.body.address == b.showAddress(at) && f.body.name == "Implementation"
    && f.body.memo == None && f.body.assetLabel == ""
    && f.body.badgeText == Some(if decoded then "Proxy implementation" else "Proxy implementation (unresolved)")
  }

  /** The field is what its source says it is. */
  ghost predicate Accounted(b: BuiltIns, input: seq<byte>, chainId: u64, f: Sourced) {
    match f.source
    case BuiltIn => BuiltInOutput(b, input, chainId, f.field)
    case ImplementationNote(at) => NotesImplementation(b, at, true, f.field) || NotesImplementation(b, at, false, f.field)
    case CallerAbi(_, abi) => b.decodeCall(abi, input, chainId) == Some(f.field)
  }

  /** Under any registry, every calldata field is accounted for by its source. */
  lemma SourcesHonest(b: BuiltIns, tx: Transaction, decodeTransfers: bool, chainId: u64, registry: Option<Registry>, f: Sourced)
    requires f in Calldata(b, tx, decodeTransfers, chainId, registry)
    ensures Accounted(b, tx.input, chainId, f)
  {
    if f in SuppliedFields(b, tx, chainId, registry) {
      CallerFieldHonest(b, registry.value, chainId, tx.to.value, tx.input, f);
    } else {
      assert || f in ProtocolFields(b, tx, chainId) || f in TokenFields(b, tx)
             || f in TransferFields(b, tx, decodeTransfers) || f in FromBuiltIn(Some(b.rawHex(tx.input)));
    }
  }

  lemma CallerFieldHonest(b: BuiltIns, registry: Registry, chainId: u64, to: Address, input: seq<byte>, f: Sourced)
    requires f in CallerFields(b, registry, chainId, to, input)
    ensures Accounted(b, input, chainId, f)
  {
    if f.source.CallerAbi? {
      CallerFieldSources(b, registry, chainId, to, input, f);
    }
  }

  /** Built in, or for a destination that is no known token and resting on an entry's own valid signature. */
  ghost predicate ProperlySourced(b: BuiltIns, w: World, allow: SignerAllowlist, tx: Transaction, chainId: u64,
                                  ms: seq<Mapping>, f: Sourced) {
    f.source == BuiltIn ||
    (tx.to.Some? && !KnownToken(b, tx) && SourceVouched(w, allow, chainId, ms, tx.to.value, f.source))
  }

  /** The payload is the header and the calldata fields at this chain, each accounted for and properly sourced. */
  ghost predicate SafelyShown(b: BuiltIns, w: World, allow: SignerAllowlist, tx: Transaction, options: Options,
                              chainId: u64, p: Payload.SignablePayload) {
    var registry := RequestRegistry(w, RequireAllowlistedSigner(allow), chainId, options.metadata);
    var shown := Calldata(b, tx, options.decodeTransfers, chainId, registry);
    && p.fields == Header(b, tx, chainId, registry) + Plain(shown)
    && (shown == [] <==> tx.input == [])
    && forall i :: 0 <= i < |shown| ==>
                     && Accounted(b, tx.input, chainId, shown[i])
                     && ProperlySourced(b, w, allow, tx, chainId, MappingsOf(options.metadata), shown[i])
  }

  /**
   Whatever a require-signed deployment converts, it shows at the transaction's own chain when that
   names one, and all it shows of the calldata is built in or vouched for.
   */
  lemma ConvertedSafely(b: BuiltIns, w: World, allow: SignerAllowlist, tx: Transaction, options: Options)
    requires DistinctNames(MappingsOf(options.metadata))
    ensures match Converted(b, w, RequireAllowlistedSigner(allow), tx, options)
            case Err(_) => true
            case Ok(p) =>
              match ResolveChainId(b, tx, options.metadata)
              case Err(_) => false
              case Ok(chainId) =>
                && (tx.chainId.Some? ==> tx.chainId.value == chainId)
                && SafelyShown(b, w, allow, tx, options, chainId, p)
  {
    if Converted(b, w, RequireAllowlistedSigner(allow), tx, options).Ok? {
      var chainId := ResolveChainId(b, tx, options.metadata).value;
      var registry := RequestRegistry(w, RequireAllowlistedSigner(allow), chainId, options.metadata);
      var shown := Calldata(b, tx, options.decodeTransfers, chainId, registry);
      forall i | 0 <= i < |shown|
        ensures Accounted(b, tx.input, chainId, shown[i])
        ensures ProperlySourced(b, w, allow, tx, chainId, MappingsOf(options.metadata), shown[i])
      {
        SourcesHonest(b, tx, options.decodeTransfers, chainId, registry, shown[i]);
        CalldataProperlySourced(b, w, allow, tx, options, chainId, shown[i]);
      }
    }
  }

  lemma CalldataProperlySourced(b: BuiltIns, w: World, allow: SignerAllowlist, tx: Transaction, options: Options,
                                chainId: u64, f: Sourced)
    requires DistinctNames(MappingsOf(options.metadata))
    requires ResolveChainId(b, tx, options.metadata) == Ok(chainId)
    requires f in Calldata(b, tx, options.decodeTransfers, chainId,
                           RequestRegistry(w, RequireAllowlistedSigner(allow), chainId, options.metadata))
    ensures ProperlySourced(b, w, allow, tx, chainId, MappingsOf(options.metadata), f)
  {
    if f.source != BuiltIn { CallerFieldsVouched(b, w, allow, tx, options, chainId, f); }
  }

  // ----- What the signed bytes say about the transaction -----

  lemma OfNatInjective(m: nat, n: nat)
    requires OfNat(m) == OfNat(n)
    ensures m == n
  {
    ToNatOfNat(m);
    ToNatOfNat(n);
  }

  lemma GweiTextInjective(m: nat, n: nat)
    requires GweiText(m) == GweiText(n)
    ensures m == n
  {
    var s, t := FormatGwei(m), FormatGwei(n);
    SameWithoutSuffix(s, t, " gwei");
    EtherAndGweiExact(m, n);
  }

  lemma SameWithoutSuffix(s: string, t: string, suffix: string)
    requires s + suffix == t + suffix
    ensures s == t
  {
    assert |s| == |t|;
    assert s == (s + suffix)[..|s|] && t == (t + suffix)[..|t|];
  }

  lemma ValueFieldInjective(b: BuiltIns, c: u64, v: nat, d: u64, u: nat)
    ensures ValueField(b, c, v) == ValueField(b, d, u) ==> v == u
  {
    EtherAndGweiExact(v, u);
  }

  lemma TextFieldInjective(caption: string, s: string, t: string)
    requires TextField(caption, s) == TextField(caption, t)
    ensures s == t
  {
  }

  /** The header fields by name. */
  datatype Parts = Parts(network: Payload.Field, to: seq<Payload.Field>, value: Payload.Field, limit: Payload.Field,
                         price: Payload.Field, priority: seq<Payload.Field>, nonce: Payload.Field)

  function Assembled(p: Parts, rest: seq<Payload.Field>): (fs: seq<Payload.Field>) {
    [p.network] + p.to + ([p.value, p.limit, p.price] + p.priority + [p.nonce]) + rest
  }

  function PartsOf(b: BuiltIns, tx: Transaction, c: u64, registry: Option<Registry>): (p: Parts) {
    Parts(TextField("Network", b.networkName(c)), AddressFields(b, tx, c, registry), ValueField(b, c, tx.value),
          TextField("Gas Limit", OfNat(tx.gasLimit)), TextField("Gas Price", GweiText(GasPrice(tx.pricing))),
          PriorityFields(tx.pricing), TextField("Nonce", OfNat(tx.nonce)))
  }

  /** Fields of these kinds are already in normal form. */
  predicate Settled(f: Payload.Field) {
    f.body.TextV2? || f.body.AddressV2? || f.body.AmountV2?
  }

  /** What tells the optional fields from those that follow them. */
  ghost predicate WellShaped(p: Parts) {
    && |p.to| <= 1 && (forall i :: 0 <= i < |p.to| ==> p.to[i].body.AddressV2?) && p.value.body.AmountV2?
    && |p.priority| <= 1 && (forall i :: 0 <= i < |p.priority| ==> Settled(p.priority[i]) && p.priority[i].common.caption != "Nonce")
    && p.nonce.common.caption == "Nonce"
    && Settled(p.network) && Settled(p.limit) && Settled(p.price) && Settled(p.nonce)
  }

  lemma RenderedParts(b: BuiltIns, tx: Transaction, options: Options, c: u64, registry: Option<Registry>)
    ensures Rendered(b, tx, options, c, registry).fields ==
            Assembled(PartsOf(b, tx, c, registry), Plain(Calldata(b, tx, options.decodeTransfers, c, registry)))
  {
  }

  lemma PartsShaped(b: BuiltIns, tx: Transaction, c: u64, registry: Option<Registry>)
    ensures WellShaped(PartsOf(b, tx, c, registry))
  {
    TextShaped("Network", b.networkName(c));
    AddressShaped(b, tx, c, registry);
    ValueShaped(b, c, tx.value);
    TextShaped("Gas Limit", OfNat(tx.gasLimit));
    TextShaped("Gas Price", GweiText(GasPrice(tx.pricing)));
    PriorityShaped(tx.pricing);
    TextShaped("Nonce", OfNat(tx.nonce));
    ShapedTogether(TextField("Network", b.networkName(c)), AddressFields(b, tx, c, registry), ValueField(b, c, tx.value),
                   TextField("Gas Limit", OfNat(tx.gasLimit)), TextField("Gas Price", GweiText(GasPrice(tx.pricing))),
                   PriorityFields(tx.pricing), TextField("Nonce", OfNat(tx.nonce)));
  }

  lemma ShapedTogether(network: Payload.Field, to: seq<Payload.Field>, value: Payload.Field, limit: Payload.Field,
                       price: Payload.Field, priority: seq<Payload.Field>, nonce: Payload.Field)
    requires Settled(network) && Settled(limit) && Settled(price)
    requires |to| <= 1 && (forall f :: f in to ==> f.body.AddressV2?) && value.body.AmountV2?
    requires |priority| <= 1 && forall f :: f in priority ==> Settled(f) && f.common.caption != "Nonce"
    requires Settled(nonce) && nonce.common.caption == "Nonce"
    ensures WellShaped(Parts(network, to, value, limit, price, priority, nonce))
  {
  }

  lemma TextShaped(caption: string, text: string)
    ensures Settled(TextField(caption, text)) && TextField(caption, text).common.caption == caption
  {
  }

  lemma ValueShaped(b: BuiltIns, c: u64, wei: nat)
    ensures ValueField(b, c, wei).body.AmountV2?
  {
  }

  lemma PriorityShaped(pricing: Pricing)
    ensures |PriorityFields(pricing)| <= 1
    ensures forall f :: f in PriorityFields(pricing) ==> Settled(f) && f.common.caption != "Nonce"
  {
    assert |"Nonce"| != |"Max Priority Fee Per Gas"|;
  }

  lemma AddressShaped(b: BuiltIns, tx: Transaction, c: u64, registry: Option<Registry>)
    ensures |AddressFields(b, tx, c, registry)| <= 1
    ensures forall f :: f in AddressFields(b, tx, c, registry) ==> f.body.AddressV2?
  {
  }

  lemma SettledNormal(f: Payload.Field, g: Payload.Field)
    requires Settled(f) && Settled(g) && Payload.NormalField(f) == Payload.NormalField(g)
    ensures f == g
  {
  }

  lemma SameFieldAt(fs: seq<Payload.Field>, gs: seq<Payload.Field>, i: nat)
    requires Payload.NormalFields(fs) == Payload.NormalFields(gs)
    requires i < |fs| && i < |gs| && Settled(fs[i]) && Settled(gs[i])
    ensures fs[i] == gs[i]
  {
    assert Payload.NormalFields(fs)[i] == Payload.NormalFields(gs)[i];
    SettledNormal(fs[i], gs[i]);
  }

  lemma AssembledPlaces(p: Parts, rest: seq<Payload.Field>)
    requires |p.to| <= 1 && |p.priority| <= 1
    ensures var fs, k, j := Assembled(p, rest), |p.to|, |p.priority|;
            && |fs| >= 5 + k + j
            && fs[0] == p.network && fs[1] == (if k == 1 then p.to[0] else p.value)
            && fs[1 + k] == p.value && fs[2 + k] == p.limit && fs[3 + k] == p.price
            && fs[4 + k] == (if j == 1 then p.priority[0] else p.nonce)
            && fs[4 + k + j] == p.nonce
  {
  }

  /** The field list determines the header, although two of its fields are optional. */
  lemma AssembledInjective(p: Parts, rest: seq<Payload.Field>, q: Parts, tail: seq<Payload.Field>)
    requires WellShaped(p) && WellShaped(q)
    requires Payload.NormalFields(Assembled(p, rest)) == Payload.NormalFields(Assembled(q, tail))
    ensures p == q
  {
    SameOpening(p, rest, q, tail);
    SameClosing(p, rest, q, tail);
  }

  lemma SameOpening(p: Parts, rest: seq<Payload.Field>, q: Parts, tail: seq<Payload.Field>)
    requires WellShaped(p) && WellShaped(q)
    requires Payload.NormalFields(Assembled(p, rest)) == Payload.NormalFields(Assembled(q, tail))
    ensures p.network == q.network && p.to == q.to && p.value == q.value
  {
    var fs, gs := Assembled(p, rest), Assembled(q, tail);
    AssembledPlaces(p, rest);
    AssembledPlaces(q, tail);
    SameFieldAt(fs, gs, 0);
    SameFieldAt(fs, gs, 1);
    assert |p.to| == |q.to|;
    SameFieldAt(fs, gs, 1 + |p.to|);
  }

  lemma SameClosing(p: Parts, rest: seq<Payload.Field>, q: Parts, tail: seq<Payload.Field>)
    requires WellShaped(p) && WellShaped(q) && p.to == q.to
    requires Payload.NormalFields(Assembled(p, rest)) == Payload.NormalFields(Assembled(q, tail))
    ensures p.limit == q.limit && p.price == q.price && p.priority == q.priority && p.nonce == q.nonce
  {
    var fs, gs, k := Assembled(p, rest), Assembled(q, tail), |p.to|;
    AssembledPlaces(p, rest);
    AssembledPlaces(q, tail);
    SameFieldAt(fs, gs, 2 + k);
    SameFieldAt(fs, gs, 3 + k);
    SameFieldAt(fs, gs, 4 + k);
    assert |p.priority| == |q.priority|;
    SameFieldAt(fs, gs, 4 + k + |p.priority|);
  }

  // ----- What the header tells a reader -----

  predicate ShowsText(f: Payload.Field, caption: string, text: string) {
    && f.common.caption == caption && f.common.fallbackText == text
    && f.body.TextV2? && f.body.text == text
  }

  /** A decimal number without superfluous zeros. */
  ghost predicate ShowsNumber(f: Payload.Field, caption: string, n: nat) {
    exists t :: t != "" && AllDigits(t) && ToNat(t) == n && (|t| > 1 ==> t[0] != '0') && ShowsText(f, caption, t)
  }

  /** An amount of gwei that reads back as this many wei. */
  ghost predicate ShowsGwei(f: Payload.Field, caption: string, wei: nat) {
    exists t :: ReadUnits(t, 9) == Some(wei) && ShowsText(f, caption, t + " gwei")
  }

  /** An amount of ether that reads back as this many wei, with the symbol of the chain. */
  ghost predicate ShowsEther(f: Payload.Field, wei: nat, symbol: Option<string>) {
    && f.common.caption == "Value"
    && f.body.AmountV2? && ReadUnits(f.body.amount, 18) == Some(wei) && f.body.abbreviation == symbol
    && f.common.fallbackText == if symbol.Some? then f.body.amount + " " + symbol.value else f.body.amount
  }

  ghost predicate ShowsDestination(f: Payload.Field, b: BuiltIns, chainId: u64, to: Address, registry: Option<Registry>) {
    && f.common.caption == "To" && f.common.fallbackText == b.showAddress(to)
    && f.body.AddressV2? && f.body.address == b.showAddress(to) && f.body.name == "To" && f.body.memo == None
    && f.body.assetLabel == (if b.feeSymbol(chainId).Some? then b.feeSymbol(chainId).value else "")
    && f.body.badgeText == if registry.Some? && (chainId, to) in registry.value.mappings
                              && registry.value.mappings[(chainId, to)].kind == Proxy
                           then Some("Proxy") else None
  }

  /** The price, and the priority fee where the transaction type has one. */
  ghost predicate ShowsPrices(price: Payload.Field, priority: seq<Payload.Field>, pricing: Pricing) {
    match pricing
    case Legacy(gasPrice) => ShowsGwei(price, "Gas Price", gasPrice) && priority == []
    case Eip2930(gasPrice) => ShowsGwei(price, "Gas Price", gasPrice) && priority == []
    case Eip1559(fee, tip) => ShowsGwei(price, "Gas Price", fee) && ShowsTip(priority, tip)
    case Eip4844(fee, tip) => ShowsGwei(price, "Gas Price", fee) && ShowsTip(priority, tip)
    case Eip7702(fee, tip) => ShowsGwei(price, "Gas Price", fee) && ShowsTip(priority, tip)
  }

  ghost predicate ShowsTip(priority: seq<Payload.Field>, tip: nat) {
    |priority| == 1 && ShowsGwei(priority[0], "Max Priority Fee Per Gas", tip)
  }

  ghost predicate Tells(p: Parts, b: BuiltIns, tx: Transaction, c: u64, registry: Option<Registry>) {
    && ShowsText(p.network, "Network", b.networkName(c))
    && (tx.to.None? ==> p.to == [])
    && (tx.to.Some? ==> |p.to| == 1 && ShowsDestination(p.to[0], b, c, tx.to.value, registry))
    && ShowsEther(p.value, tx.value, b.feeSymbol(c))
    && ShowsNumber(p.limit, "Gas Limit", tx.gasLimit)
    && ShowsPrices(p.price, p.priority, tx.pricing)
    && ShowsNumber(p.nonce, "Nonce", tx.nonce)
  }

  lemma NumberShown(caption: string, n: nat)
    ensures ShowsNumber(TextField(caption, OfNat(n)), caption, n)
  {
    ToNatOfNat(n);
    assert ShowsText(TextField(caption, OfNat(n)), caption, OfNat(n));
  }

  lemma GweiShown(caption: string, wei: nat)
    ensures ShowsGwei(TextField(caption, GweiText(wei)), caption, wei)
  {
    EtherAndGweiExact(wei, wei);
    assert ShowsText(TextField(caption, GweiText(wei)), caption, FormatGwei(wei) + " gwei");
  }

  lemma EtherShown(b: BuiltIns, c: u64, wei: nat)
    ensures ShowsEther(ValueField(b, c, wei), wei, b.feeSymbol(c))
  {
    EtherAndGweiExact(wei, wei);
  }

  lemma DestinationShown(b: BuiltIns, tx: Transaction, c: u64, registry: Option<Registry>)
    ensures var to := AddressFields(b, tx, c, registry);
            && (tx.to.None? ==> to == [])
            && (tx.to.Some? ==> |to| == 1 && ShowsDestination(to[0], b, c, tx.to.value, registry))
  {
  }

  lemma PricesShown(pricing: Pricing)
    ensures ShowsPrices(TextField("Gas Price", GweiText(GasPrice(pricing))), PriorityFields(pricing), pricing)
  {
    GweiShown("Gas Price", GasPrice(pricing));
    if PriorityFee(pricing).Some? { GweiShown("Max Priority Fee Per Gas", PriorityFee(pricing).value); }
  }

  lemma PartsTell(b: BuiltIns, tx: Transaction, c: u64, registry: Option<Registry>)
    ensures Tells(PartsOf(b, tx, c, registry), b, tx, c, registry)
  {
    DestinationShown(b, tx, c, registry);
    EtherShown(b, c, tx.value);
    NumberShown("Gas Limit", tx.gasLimit);
    PricesShown(tx.pricing);
    NumberShown("Nonce", tx.nonce);
  }

  ghost predicate RenderedAs(payload: Payload.SignablePayload, p: Parts, rest: seq<Payload.Field>,
                             b: BuiltIns, tx: Transaction, c: u64, registry: Option<Registry>) {
    payload.fields == Assembled(p, rest) && Tells(p, b, tx, c, registry)
  }

  /**
   Every rendered transaction opens with its network, destination, value, gas limit, prices and
   nonce, in that order, under those captions, each reading back as the transaction has it.
   */
  lemma RenderedTells(b: BuiltIns, tx: Transaction, options: Options, c: u64, registry: Option<Registry>)
    ensures exists p :: RenderedAs(Rendered(b, tx, options, c, registry), p,
                                   Plain(Calldata(b, tx, options.decodeTransfers, c, registry)), b, tx, c, registry)
    ensures var payload := Rendered(b, tx, options, c, registry);
            && payload.payloadType == "EthereumTx" && payload.version == "0" && payload.subtitle == None
            && payload.title == if options.transactionName.Some? then options.transactionName.value else "Ethereum Transaction"
  {
    RenderedParts(b, tx, options, c, registry);
    PartsTell(b, tx, c, registry);
    assert RenderedAs(Rendered(b, tx, options, c, registry), PartsOf(b, tx, c, registry),
                      Plain(Calldata(b, tx, options.decodeTransfers, c, registry)), b, tx, c, registry);
  }

  // ----- What the signed bytes determine -----

  /** What the fields of a rendered transaction let a reader conclude. */
  ghost predicate SameShown(b: BuiltIns, tx: Transaction, c: u64, ty: Transaction, d: u64) {
    && b.networkName(c) == b.networkName(d)
    && (tx.to.Some? <==> ty.to.Some?)
    && (tx.to.Some? ==> b.showAddress(tx.to.value) == b.showAddress(ty.to.value))
    && tx.value == ty.value
    && tx.gasLimit == ty.gasLimit
    && GasPrice(tx.pricing) == GasPrice(ty.pricing)
    && PriorityFee(tx.pricing) == PriorityFee(ty.pricing)
    && tx.nonce == ty.nonce
  }

  lemma SameAddressees(b: BuiltIns, tx: Transaction, c: u64, r: Option<Registry>, ty: Transaction, d: u64, s: Option<Registry>)
    requires AddressFields(b, tx, c, r) == AddressFields(b, ty, d, s)
    ensures tx.to.Some? <==> ty.to.Some?
    ensures tx.to.Some? ==> b.showAddress(tx.to.value) == b.showAddress(ty.to.value)
  {
    if tx.to.Some? { assert AddressFields(b, tx, c, r)[0] == AddressFields(b, ty, d, s)[0]; }
  }

  lemma SamePriorityFee(p: Pricing, q: Pricing)
    requires PriorityFields(p) == PriorityFields(q)
    ensures PriorityFee(p) == PriorityFee(q)
  {
    if PriorityFee(p).Some? {
      assert PriorityFields(p)[0] == PriorityFields(q)[0];
      GweiTextInjective(PriorityFee(p).value, PriorityFee(q).value);
    }
  }

  lemma SamePartsShown(b: BuiltIns, tx: Transaction, c: u64, r: Option<Registry>, ty: Transaction, d: u64, s: Option<Registry>)
    ensures PartsOf(b, tx, c, r) == PartsOf(b, ty, d, s) ==> SameShown(b, tx, c, ty, d)
  {
    if PartsOf(b, tx, c, r) == PartsOf(b, ty, d, s) {
      SameAddressees(b, tx, c, r, ty, d, s);
      SamePriorityFee(tx.pricing, ty.pricing);
      ValueFieldInjective(b, c, tx.value, d, ty.value);
      TextFieldInjective("Gas Limit", OfNat(tx.gasLimit), OfNat(ty.gasLimit));
      OfNatInjective(tx.gasLimit, ty.gasLimit);
      TextFieldInjective("Gas Price", GweiText(GasPrice(tx.pricing)), GweiText(GasPrice(ty.pricing)));
      GweiTextInjective(GasPrice(tx.pricing), GasPrice(ty.pricing));
      TextFieldInjective("Nonce", OfNat(tx.nonce), OfNat(ty.nonce));
      OfNatInjective(tx.nonce, ty.nonce);
    }
  }

  /**
   Transactions with the same signed bytes, whatever registries and settings produced them, show the
   same network and destination and have the same amounts, to the last wei.
   */
  lemma SameBytesSameTransaction(b: BuiltIns, tx: Transaction, o: Options, c: u64, r: Option<Registry>,
                                 ty: Transaction, p: Options, d: u64, s: Option<Registry>)
    ensures SignedBytes.ToJson(Rendered(b, tx, o, c, r)) == SignedBytes.ToJson(Rendered(b, ty, p, d, s)) ==>
              SameShown(b, tx, c, ty, d)
  {
    if SignedBytes.ToJson(Rendered(b, tx, o, c, r)) == SignedBytes.ToJson(Rendered(b, ty, p, d, s)) {
      SignedBytes.SameBytesSameNormalForm(Rendered(b, tx, o, c, r), Rendered(b, ty, p, d, s));
      RenderedParts(b, tx, o, c, r);
      RenderedParts(b, ty, p, d, s);
      PartsShaped(b, tx, c, r);
      PartsShaped(b, ty, d, s);
      AssembledInjective(PartsOf(b, tx, c, r), Plain(Calldata(b, tx, o.decodeTransfers, c, r)),
                         PartsOf(b, ty, d, s), Plain(Calldata(b, ty, p.decodeTransfers, d, s)));
      SamePartsShown(b, tx, c, r, ty, d, s);
    }
  }
}
