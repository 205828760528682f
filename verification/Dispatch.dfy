/**
 Ethereum transactions as signable payloads: the chain they are shown for, the header fields and
 the decoder that gets to explain the calldata
 (src/chain_parsers/visualsign-ethereum/src/lib.rs).

 The compiled-in decoders and network tables are outside the model; a `BuiltIns` record says how
 they answer, and the results hold for every one.
 */
module Dispatch {
  import opened Wrappers
  import opened Bytes
  import opened Decimals
  import opened Units
  import opened Signing
  import opened AbiRegistry
  import opened AbiMetadata
  import Payload

  datatype Pricing =
    | Legacy(gasPrice: nat)
    | Eip2930(gasPrice: nat)
    | Eip1559(maxFee: nat, maxPriorityFee: nat)
    | Eip4844(maxFee: nat, maxPriorityFee: nat)
    | Eip7702(maxFee: nat, maxPriorityFee: nat)

  datatype Transaction = Transaction(pricing: Pricing, chainId: Option<u64>, to: Option<Address>,
                                     value: nat, gasLimit: u64, nonce: u64, input: seq<byte>)

  datatype Options = Options(decodeTransfers: bool, transactionName: Option<string>,
                             metadata: Option<ChainMetadata>)

  datatype ContractType = UniversalRouter | Permit2 | OtherContract(id: string)

  datatype ErcStandard = Erc20 | Erc721 | Erc1155

  datatype BuiltIns = BuiltIns(
    networkName: u64 -> string,
    feeSymbol: u64 -> Option<string>,
    chainIdOf: string -> Option<u64>,
    showAddress: Address -> string,
    contractType: (u64, Address) -> Option<ContractType>,
    hasVisualizer: ContractType -> bool,
    universalRouter: (seq<byte>, u64) -> Option<Payload.Field>,
    permit2: (seq<byte>, u64) -> Option<Payload.Field>,
    tokenStandard: (Option<u64>, Address) -> Option<ErcStandard>,
    erc20: seq<byte> -> Option<Payload.Field>,
    erc721: seq<byte> -> Option<Payload.Field>,
    erc1155: seq<byte> -> Option<Payload.Field>,
    rawHex: seq<byte> -> Payload.Field,
    decodeCall: (JsonAbi, seq<byte>, u64) -> Option<Payload.Field>)

  // ----- Chain id -----

  datatype ConversionError = UnsupportedType | ChainIdMismatch | NoChainId

  function MetadataChainId(b: BuiltIns, metadata: Option<ChainMetadata>): (r: Option<u64>) {
    if metadata.Some? && metadata.value.Ethereum? && metadata.value.networkId.Some?
    then b.chainIdOf(metadata.value.networkId.value) else None
  }

  /** The transaction's own chain id is authoritative; the metadata may only agree or fill in. */
  function ResolveChainId(b: BuiltIns, tx: Transaction, metadata: Option<ChainMetadata>)
    : (r: Result<u64, ConversionError>)
    ensures forall c :: r == Ok(c) && tx.chainId.Some? ==> c == tx.chainId.value
    ensures forall c :: r == Ok(c) && MetadataChainId(b, metadata).Some? ==> c == MetadataChainId(b, metadata).value
    ensures r == Err(ChainIdMismatch) <==>
            tx.chainId.Some? && MetadataChainId(b, metadata).Some? && tx.chainId != MetadataChainId(b, metadata)
    ensures tx.chainId.None? && MetadataChainId(b, metadata).None? ==>
              r == if tx.pricing.Legacy? then Ok(1) else Err(NoChainId)
    ensures r != Err(UnsupportedType)
  {
    match (tx.chainId, MetadataChainId(b, metadata))
    case (Some(own), Some(meta)) => if own != meta then Err(ChainIdMismatch) else Ok(own)
    case (Some(own), None) => Ok(own)
    case (None, Some(meta)) => Ok(meta)
    case (None, None) => if tx.pricing.Legacy? then Ok(1) else Err(NoChainId)
  }

  // ----- Header fields -----

  function GasPrice(pricing: Pricing): (r: nat) {
    match pricing
    case Legacy(price) => price
    case Eip2930(price) => price
    case Eip1559(fee, _) => fee
    case Eip4844(fee, _) => fee
    case Eip7702(fee, _) => fee
  }

  function PriorityFee(pricing: Pricing): (r: Option<nat>) {
    match pricing
    case Legacy(_) => None
    case Eip2930(_) => None
    case Eip1559(_, fee) => Some(fee)
    case Eip4844(_, fee) => Some(fee)
    case Eip7702(_, fee) => Some(fee)
  }

  function TextField(caption: string, text: string): (f: Payload.Field) {
    Payload.Field(Payload.Common(text, caption), Payload.TextV2(text))
  }

  function GweiText(wei: nat): (s: string) {
    FormatGwei(wei) + " gwei"
  }

  function ToField(b: BuiltIns, chainId: u64, to: Address, badge: Option<string>): (f: Payload.Field) {
    var symbol := b.feeSymbol(chainId);
    Payload.Field(Payload.Common(b.showAddress(to), "To"),
                  Payload.AddressV2(b.showAddress(to), "To", None,
                                    if symbol.Some? then symbol.value else "", badge))
  }

  function ValueField(b: BuiltIns, chainId: u64, wei: nat): (f: Payload.Field) {
    var amount, symbol := FormatEther(wei), b.feeSymbol(chainId);
    Payload.Field(Payload.Common(if symbol.Some? then amount + " " + symbol.value else amount, "Value"),
                  Payload.AmountV2(amount, symbol))
  }

  function ProxyBadge(registry: Option<Registry>, chainId: u64, to: Address): (r: Option<string>) {
    if registry.Some? && registry.value.GetAbiKind(chainId, to) == Some(Proxy) then Some("Proxy") else None
  }

  function AddressFields(b: BuiltIns, tx: Transaction, chainId: u64, registry: Option<Registry>): (r: seq<Payload.Field>) {
    if tx.to.None? then []
    else [ToField(b, chainId, tx.to.value, ProxyBadge(registry, chainId, tx.to.value))]
  }

  function PriorityFields(pricing: Pricing): (r: seq<Payload.Field>) {
    var fee := PriorityFee(pricing);
    if fee.None? then [] else [TextField("Max Priority Fee Per Gas", GweiText(fee.value))]
  }

  function CostList(value: Payload.Field, limit: Payload.Field, price: Payload.Field,
                    priority: seq<Payload.Field>, nonce: Payload.Field): (r: seq<Payload.Field>) {
    [value, limit, price] + priority + [nonce]
  }

  function CostFields(b: BuiltIns, tx: Transaction, chainId: u64): (r: seq<Payload.Field>) {
    CostList(ValueField(b, chainId, tx.value),
             TextField("Gas Limit", OfNat(tx.gasLimit)),
             TextField("Gas Price", GweiText(GasPrice(tx.pricing))),
             PriorityFields(tx.pricing),
             TextField("Nonce", OfNat(tx.nonce)))
  }

  function Header(b: BuiltIns, tx: Transaction, chainId: u64, registry: Option<Registry>): (r: seq<Payload.Field>) {
    [TextField("Network", b.networkName(chainId))]
    + AddressFields(b, tx, chainId, registry)
    + CostFields(b, tx, chainId)
  }

  // ----- Calldata: the candidate explanations -----

  /** Where a calldata field came from: a caller ABI filed for `at`, or not. */
  datatype Source = BuiltIn | ImplementationNote(at: Address) | CallerAbi(at: Address, abi: JsonAbi)

  datatype Sourced = Sourced(field: Payload.Field, source: Source)

  function Plain(fs: seq<Sourced>): (r: seq<Payload.Field>)
    ensures |r| == |fs|
  {
    seq(|fs|, i requires 0 <= i < |fs| => fs[i].field)
  }

  function FromBuiltIn(o: Option<Payload.Field>): (r: seq<Sourced>) {
    if o.Some? then [Sourced(o.value, BuiltIn)] else []
  }

  function ProtocolDecoding(b: BuiltIns, tx: Transaction, chainId: u64): (r: Option<Payload.Field>) {
    var to :- tx.to;
    var contract :- b.contractType(chainId, to);
    if !b.hasVisualizer(contract) then None
    else match contract
         case UniversalRouter => b.universalRouter(tx.input, chainId)
         case Permit2 => b.permit2(tx.input, chainId)
         case OtherContract(_) => None
  }

  function TokenDecoding(b: BuiltIns, standard: ErcStandard, input: seq<byte>): (r: Option<Payload.Field>) {
    match standard
    case Erc20 => b.erc20(input)
    case Erc721 => b.erc721(input)
    case Erc1155 => b.erc1155(input)
  }

  /** The destination is a compiled-in token, looked up by the transaction's own chain id. */
  predicate KnownToken(b: BuiltIns, tx: Transaction) {
    tx.to.Some? && b.tokenStandard(tx.chainId, tx.to.value).Some?
  }

  function TryKnownTokenDispatch(b: BuiltIns, chainId: Option<u64>, to: Address, input: seq<byte>)
    : (r: Option<Payload.Field>)
  {
    var standard :- b.tokenStandard(chainId, to);
    var decoded := TokenDecoding(b, standard, input);
    Some(if decoded.Some? then decoded.value else b.rawHex(input))
  }

  function ImplementationField(b: BuiltIns, implementation: Address, resolved: bool): (f: Payload.Field) {
    var shown := b.showAddress(implementation);
    Payload.Field(Payload.Common(shown, "Implementation"),
                  Payload.AddressV2(shown, "Implementation", None, "",
                                    Some(if resolved then "Proxy implementation" else "Proxy implementation (unresolved)")))
  }

  /** One caller ABI, if it decodes the call. */
  function FromCallerAbi(b: BuiltIns, at: Address, abi: Option<JsonAbi>, input: seq<byte>, chainId: u64): (r: seq<Sourced>)
    ensures forall f :: f in r ==> abi.Some? && f.source == CallerAbi(at, abi.value)
                                   && b.decodeCall(abi.value, input, chainId) == Some(f.field)
  {
    if abi.None? then []
    else
      var field := b.decodeCall(abi.value, input, chainId);
      if field.Some? then [Sourced(field.value, CallerAbi(at, abi.value))] else []
  }

  /** The first explanation, or the second when there is none. */
  function Else(first: seq<Sourced>, second: seq<Sourced>): (r: seq<Sourced>) {
    if first != [] then first else second
  }

  /** The caller-supplied explanation: the linked implementation's ABI first, then the destination's own. */
  function CallerFields(b: BuiltIns, registry: Registry, chainId: u64, to: Address, input: seq<byte>): (r: seq<Sourced>) {
    var own := FromCallerAbi(b, to, registry.GetAbiForAddress(chainId, to), input, chainId);
    match registry.GetImplementationAbi(chainId, to)
    case None => own
    case Some((implementation, abi)) =>
      var linked := FromCallerAbi(b, implementation, Some(abi), input, chainId);
      [Sourced(ImplementationField(b, implementation, linked != []), ImplementationNote(implementation))]
      + Else(linked, Else(own, [Sourced(b.rawHex(input), BuiltIn)]))
  }

  function ProtocolFields(b: BuiltIns, tx: Transaction, chainId: u64): (r: seq<Sourced>) {
    FromBuiltIn(ProtocolDecoding(b, tx, chainId))
  }

  function TokenFields(b: BuiltIns, tx: Transaction): (r: seq<Sourced>) {
    FromBuiltIn(if tx.to.Some? then TryKnownTokenDispatch(b, tx.chainId, tx.to.value, tx.input) else None)
  }

  function SuppliedFields(b: BuiltIns, tx: Transaction, chainId: u64, registry: Option<Registry>): (r: seq<Sourced>) {
    if tx.to.Some? && registry.Some? then CallerFields(b, registry.value, chainId, tx.to.value, tx.input) else []
  }

  function TransferFields(b: BuiltIns, tx: Transaction, decodeTransfers: bool): (r: seq<Sourced>) {
    FromBuiltIn(if decodeTransfers then b.erc20(tx.input) else None)
  }

  /** What is shown for the calldata: nothing for none, else the first explanation there is. */
  function Calldata(b: BuiltIns, tx: Transaction, decodeTransfers: bool, chainId: u64, registry: Option<Registry>)
    : (r: seq<Sourced>)
  {
    if tx.input == [] then []
    else
      Else(Else(Else(Else(ProtocolFields(b, tx, chainId),
                          TokenFields(b, tx)),
                     SuppliedFields(b, tx, chainId, registry)),
                TransferFields(b, tx, decodeTransfers)),
           FromBuiltIn(Some(b.rawHex(tx.input))))
  }

  function Rendered(b: BuiltIns, tx: Transaction, options: Options, chainId: u64, registry: Option<Registry>)
    : (p: Payload.SignablePayload)
  {
    Payload.SignablePayload(
      Header(b, tx, chainId, registry) + Plain(Calldata(b, tx, options.decodeTransfers, chainId, registry)),
      "EthereumTx", None,
      if options.transactionName.Some? then options.transactionName.value else "Ethereum Transaction", "0")
  }

  /** The registry a request gets at this chain id. */
  function RequestRegistry(w: World, policy: MetadataTrustPolicy, chainId: u64, metadata: Option<ChainMetadata>)
    : (r: Option<Registry>)
  {
    ExtractMetadata(w, policy, chainId, metadata).0
  }

  function Converted(b: BuiltIns, w: World, policy: MetadataTrustPolicy, tx: Transaction, options: Options)
    : (r: Result<Payload.SignablePayload, ConversionError>)
  {
    if !tx.pricing.Legacy? && !tx.pricing.Eip1559? then Err(UnsupportedType)
    else
      match ResolveChainId(b, tx, options.metadata)
      case Err(e) => Err(e)
      case Ok(chainId) =>
        Ok(Rendered(b, tx, options, chainId, RequestRegistry(w, policy, chainId, options.metadata)))
  }

  // ----- The code: fields grown step by step behind emptiness gates -----

  ghost function ContentsOf(registry: AbiRegistry?): (r: Option<Registry>)
    reads registry
  {
    if registry == null then None else Some(registry.Contents())
  }

  method VisualizeWithAbiRegistry(b: BuiltIns, registry: AbiRegistry, chainId: u64, to: Address, input: seq<byte>)
    returns (fields: seq<Payload.Field>)
    ensures fields == Plain(CallerFields(b, registry.Contents(), chainId, to, input))
  {
    var reg := registry.Contents();
    var own := reg.GetAbiForAddress(chainId, to);
    var ownField := if own.Some? then b.decodeCall(own.value, input, chainId) else None;
    if reg.GetAbiKind(chainId, to) == Some(Proxy) {
      var hop := reg.GetImplementationAbi(chainId, to);
      if hop.Some? {
        var (implementation, abi) := hop.value;
        var decoded := b.decodeCall(abi, input, chainId);
        if decoded.Some? {
          return [ImplementationField(b, implementation, true), decoded.value];
        }
        fields := [ImplementationField(b, implementation, false)];
        if ownField.Some? {
          fields := fields + [ownField.value];
        } else {
          fields := fields + [b.rawHex(input)];
        }
        return;
      }
    }
    fields := if ownField.Some? then [ownField.value] else [];
  }

  method CalldataFields(b: BuiltIns, tx: Transaction, decodeTransfers: bool, chainId: u64, registry: AbiRegistry?)
    returns (inputFields: seq<Payload.Field>)
    ensures inputFields == Plain(Calldata(b, tx, decodeTransfers, chainId, ContentsOf(registry)))
  {
    inputFields := [];
    if tx.input == [] { return; }
    if tx.to.Some? {
      var contract := b.contractType(chainId, tx.to.value);
      if contract.Some? && b.hasVisualizer(contract.value) {
        if contract.value == UniversalRouter {
          var field := b.universalRouter(tx.input, chainId);
          if field.Some? { inputFields := inputFields + [field.value]; }
        } else if contract.value == Permit2 {
          var field := b.permit2(tx.input, chainId);
          if field.Some? { inputFields := inputFields + [field.value]; }
        }
      }
    }
    ghost var shown := ProtocolFields(b, tx, chainId);
    assert inputFields == Plain(shown);
    if inputFields == [] && tx.to.Some? {
      var known := TryKnownTokenDispatch(b, tx.chainId, tx.to.value, tx.input);
      if known.Some? { inputFields := inputFields + [known.value]; }
    }
    shown := Else(shown, TokenFields(b, tx));
    assert inputFields == Plain(shown);
    if inputFields == [] && tx.to.Some? && registry != null {
      var callerFields := VisualizeWithAbiRegistry(b, registry, chainId, tx.to.value, tx.input);
      inputFields := inputFields + callerFields;
    }
    shown := Else(shown, SuppliedFields(b, tx, chainId, ContentsOf(registry)));
    assert inputFields == Plain(shown);
    if inputFields == [] && decodeTransfers {
      var field := b.erc20(tx.input);
      if field.Some? { inputFields := inputFields + [field.value]; }
    }
    shown := Else(shown, TransferFields(b, tx, decodeTransfers));
    assert inputFields == Plain(shown);
    if inputFields == [] {
      inputFields := inputFields + [b.rawHex(tx.input)];
    }
  }

  method HeaderFields(b: BuiltIns, tx: Transaction, chainId: u64, registry: AbiRegistry?)
    returns (fields: seq<Payload.Field>)
    ensures fields == Header(b, tx, chainId, ContentsOf(registry))
  {
    fields := [TextField("Network", b.networkName(chainId))];
    if tx.to.Some? {
      var badge := None;
      if registry != null && registry.Contents().GetAbiKind(chainId, tx.to.value) == Some(Proxy) {
        badge := Some("Proxy");
      }
      fields := fields + [ToField(b, chainId, tx.to.value, badge)];
    }
    assert fields == [TextField("Network", b.networkName(chainId))] + AddressFields(b, tx, chainId, ContentsOf(registry));
    var priority := [];
    if PriorityFee(tx.pricing).Some? {
      priority := [TextField("Max Priority Fee Per Gas", GweiText(PriorityFee(tx.pricing).value))];
    }
    fields := AppendCosts(fields, ValueField(b, chainId, tx.value), TextField("Gas Limit", OfNat(tx.gasLimit)),
                          TextField("Gas Price", GweiText(GasPrice(tx.pricing))), priority,
                          TextField("Nonce", OfNat(tx.nonce)));
  }

  method AppendCosts(front: seq<Payload.Field>, value: Payload.Field, limit: Payload.Field, price: Payload.Field,
                     priority: seq<Payload.Field>, nonce: Payload.Field)
    returns (fields: seq<Payload.Field>)
    ensures fields == front + CostList(value, limit, price, priority, nonce)
  {
    fields := front + [value, limit];
    fields := fields + [price];
    fields := fields + priority;
    fields := fields + [nonce];
    CostsAppended(front, value, limit, price, priority, nonce);
  }

  lemma CostsAppended(front: seq<Payload.Field>, value: Payload.Field, limit: Payload.Field, price: Payload.Field,
                      priority: seq<Payload.Field>, nonce: Payload.Field)
    ensures front + [value, limit] + [price] + priority + [nonce] == front + CostList(value, limit, price, priority, nonce)
  {
  }

  method ConvertToVisualSignPayload(b: BuiltIns, tx: Transaction, options: Options, chainId: u64, registry: AbiRegistry?)
    returns (p: Payload.SignablePayload)
    ensures p == Rendered(b, tx, options, chainId, ContentsOf(registry))
  {
    var fields := HeaderFields(b, tx, chainId, registry);
    var inputFields := CalldataFields(b, tx, options.decodeTransfers, chainId, registry);
    fields := fields + inputFields;
    var title := if options.transactionName.Some? then options.transactionName.value else "Ethereum Transaction";
    p := Payload.SignablePayload(fields, "EthereumTx", None, title, "0");
  }

  method ConvertTransaction(b: BuiltIns, w: World, policy: MetadataTrustPolicy, tx: Transaction, options: Options)
    returns (r: Result<Payload.SignablePayload, ConversionError>)
    ensures r == Converted(b, w, policy, tx, options)
  {
    if !tx.pricing.Legacy? && !tx.pricing.Eip1559? { return Err(UnsupportedType); }
    match ResolveChainId(b, tx, options.metadata) {
      case Err(e) => return Err(e);
      case Ok(chainId) =>
        var registry, _ := ExtractWithProvenance(w, options.metadata, chainId, policy);
        var p := ConvertToVisualSignPayload(b, tx, options, chainId, registry);
        return Ok(p);
    }
  }
}
