/**
 The registry of ABIs a request may decode with
 (src/chain_parsers/visualsign-ethereum/src/abi_registry.rs).
 */
module AbiRegistry {
  import opened Wrappers
  import opened Signing

  /** A parsed ABI, which the JSON text it was parsed from determines. */
  datatype JsonAbi = JsonAbi(json: string)

  datatype AbiKind = Implementation | Proxy

  datatype AddressMapping = AddressMapping(abiName: string, kind: AbiKind, implementation: Option<Address>)

  /** The contents of a registry. */
  datatype Registry = Registry(abis: map<string, JsonAbi>, mappings: map<(u64, Address), AddressMapping>) {

    function GetAbiForAddress(chainId: u64, address: Address): (r: Option<JsonAbi>) {
      if (chainId, address) in mappings && mappings[(chainId, address)].abiName in abis
      then Some(abis[mappings[(chainId, address)].abiName]) else None
    }

    function GetAbiKind(chainId: u64, address: Address): (r: Option<AbiKind>) {
      if (chainId, address) in mappings then Some(mappings[(chainId, address)].kind) else None
    }

    /** One hop only: the ABI of the declared implementation, even if that is a proxy too. */
    function GetImplementationAbi(chainId: u64, proxy: Address): (r: Option<(Address, JsonAbi)>) {
      if (chainId, proxy) !in mappings || mappings[(chainId, proxy)].kind != Proxy then None
      else
        var implementation :- mappings[(chainId, proxy)].implementation;
        var abi :- GetAbiForAddress(chainId, implementation);
        Some((implementation, abi))
    }
  }

  const EmptyRegistry := Registry(map[], map[])

  class AbiRegistry {
    var abis: map<string, JsonAbi>
    var addressMappings: map<(u64, Address), AddressMapping>

    function Contents(): (r: Registry)
      reads this
    {
      Registry(abis, addressMappings)
    }

    constructor ()
      ensures Contents() == EmptyRegistry
    {
      abis := map[];
      addressMappings := map[];
    }

    /** Fails, and changes nothing, when the text does not parse as an ABI. */
    method RegisterAbi(name: string, json: string, parses: string -> bool) returns (ok: bool)
      modifies this
      ensures ok <==> parses(json)
      ensures Contents() == old(Contents()).(abis := if ok then old(abis)[name := JsonAbi(json)] else old(abis))
    {
      ok := parses(json);
      if ok { abis := abis[name := JsonAbi(json)]; }
    }

    method MapAddressWithType(chainId: u64, address: Address, name: string, kind: AbiKind,
                              implementation: Option<Address>)
      modifies this
      ensures Contents() == old(Contents()).(mappings :=
                            old(addressMappings)[(chainId, address) := AddressMapping(name, kind, implementation)])
    {
      addressMappings := addressMappings[(chainId, address) := AddressMapping(name, kind, implementation)];
    }
  }
}
