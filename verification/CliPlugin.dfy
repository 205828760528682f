/**
 The ABI mappings the command line builds and signs
 (src/chain_parsers/visualsign-ethereum/src/cli_plugin.rs, src/parser/cli-core/src/mapping_parser.rs,
 src/chain_parsers/visualsign-ethereum/src/abi_metadata.rs).

 Files, signing and the network tables are outside the model; `Tools` says how they answer.
 */
module CliPlugin {
  import opened Wrappers
  import opened Texts
  import opened Bytes
  import opened Signing
  import opened AbiMetadata
  import opened AbiEntries
  import opened EthAddress

  datatype Tools = Tools(
    readFile: string -> Option<string>,
    isJson: string -> bool,
    sign: seq<byte> -> Option<string>,
    devKey: string,
    parseNetwork: string -> Option<string>,
    chainIdOf: string -> Option<u64>)

  // ----- Mapping strings -----

  datatype Components = Components(name: string, path: string, identifier: string)

  /** Split at the first and the last colon, so that only the path may contain one. */
  function ParseMapping(s: string): (r: Option<Components>) {
    var (front, identifier) :- RSplitOnce(s, ':');
    var (name, path) :- SplitOnce(front, ':');
    if name == "" || path == "" || identifier == "" then None else Some(Components(name, path, identifier))
  }

  function Joined(c: Components): (s: string) {
    (c.name + [':'] + c.path) + [':'] + c.identifier
  }

  ghost predicate Splittable(c: Components) {
    c.name != "" && c.path != "" && c.identifier != "" && ':' !in c.name && ':' !in c.identifier
  }

  /** A mapping string parses to exactly the components it is the joining of. */
  lemma ParseMappingExact(s: string, c: Components)
    ensures ParseMapping(s) == Some(c) <==> Splittable(c) && s == Joined(c)
  {
    if Splittable(c) && s == Joined(c) {
      RSplitOnceJoined(c.name + [':'] + c.path, c.identifier, ':');
      SplitOnceJoined(c.name, c.path, ':');
    }
  }

  // ----- Signing -----

  /** `sign_abi` with the development key. */
  function SignAbi(t: Tools, json: string, address: Address, chainId: u64): (r: Option<ProtoSignature>)
    requires InMemory(json)
  {
    var value :- t.sign(AbiPreimage(chainId, address, json));
    Some(ProtoSignature(value, [("algorithm", "secp256k1"), ("public_key", t.devKey)]))
  }

  // ----- ABI files -----

  const MaxJsonFileSize: nat := 10 * 1024 * 1024

  function LoadJsonFile(t: Tools, path: string): (r: Option<string>)
    ensures r.Some? ==> InMemory(r.value)
  {
    var content :- t.readFile(path);
    if |Utf8(content)| > MaxJsonFileSize || !t.isJson(content) then None else Some(content)
  }

  /** The file's content, signed for this address and chain. */
  function SignedFile(t: Tools, w: World, chainId: u64, path: string, identifier: string): (r: Option<Abi>) {
    var json :- LoadJsonFile(t, path);
    var address :- w.parseAddress(identifier);
    var signature :- SignAbi(t, json, address, chainId);
    Some(Abi(json, Some(signature), None, None))
  }

  /** The entry one mapping string contributes, under the identifier as it was typed. */
  function LoadedEntry(t: Tools, w: World, chainId: u64, mapping: string): (r: Option<Mapping>) {
    var c :- ParseMapping(mapping);
    if !ValidEthAddress(c.identifier) then None
    else
      var abi :- SignedFile(t, w, chainId, c.path, c.identifier);
      Some(Mapping(c.identifier, abi))
  }

  function LoadedEntries(t: Tools, w: World, chainId: u64, mappings: seq<string>): (es: seq<Mapping>) {
    if mappings == [] then []
    else
      var e := LoadedEntry(t, w, chainId, mappings[|mappings| - 1]);
      LoadedEntries(t, w, chainId, mappings[..|mappings| - 1]) + if e.Some? then [e.value] else []
  }

  function Renamed(m: Mapping): (r: Mapping) {
    m.(name := NormalizeEthAddress(m.name))
  }

  function RenamedAll(ms: seq<Mapping>): (r: seq<Mapping>)
    ensures |r| == |ms| && forall i :: 0 <= i < |ms| ==> r[i] == Renamed(ms[i])
  {
    seq(|ms|, i requires 0 <= i < |ms| => Renamed(ms[i]))
  }

  /** The entries from files: per spelling the last mapping, per address the last spelling. */
  function FileEntries(t: Tools, w: World, chainId: u64, mappings: seq<string>): (ms: seq<Mapping>) {
    PutAll(RenamedAll(PutAll(LoadedEntries(t, w, chainId, mappings))))
  }

  // ----- Proxy links -----

  /** A link's normalised proxy and implementation. */
  function ParseLink(link: string): (r: Option<(string, string)>) {
    var (proxy, implementation) :- SplitOnce(link, ':');
    if !ValidEthAddress(proxy) || !ValidEthAddress(implementation) then None
    else Some((NormalizeEthAddress(proxy), NormalizeEthAddress(implementation)))
  }

  /** The empty ABI that stands in for a proxy without a file. */
  function Synthesized(t: Tools, w: World, chainId: u64, proxy: string): (r: Option<Abi>) {
    var address :- w.parseAddress(proxy);
    ShortFits("[]");
    var signature :- SignAbi(t, "[]", address, chainId);
    Some(Abi("[]", Some(signature), None, None))
  }

  function Stamped(abi: Abi, implementation: string): (r: Abi) {
    abi.(abiType := Some(2), implementationAddress := Some(implementation))
  }

  /** The ABI a link is stamped on: the proxy's own, or a synthesized one. */
  function ToStamp(t: Tools, w: World, chainId: u64, own: Option<Abi>, proxy: string): (r: Option<Abi>) {
    if own.Some? then own else Synthesized(t, w, chainId, proxy)
  }

  function Link(t: Tools, w: World, chainId: u64, ms: seq<Mapping>, link: string): (r: seq<Mapping>) {
    var parsed := ParseLink(link);
    if parsed.None? then ms
    else
      var (proxy, implementation) := parsed.value;
      var abi := ToStamp(t, w, chainId, Find(ms, proxy), proxy);
      if abi.None? then ms else Put(ms, proxy, Stamped(abi.value, implementation))
  }

  function LinkAll(t: Tools, w: World, chainId: u64, ms: seq<Mapping>, links: seq<string>): (r: seq<Mapping>) {
    if links == [] then ms
    else Link(t, w, chainId, LinkAll(t, w, chainId, ms, links[..|links| - 1]), links[|links| - 1])
  }

  // ----- The code -----

  class AbiMap {
    var entries: seq<Mapping>

    constructor ()
      ensures entries == []
    {
      entries := [];
    }

    method Insert(name: string, abi: Abi) returns (previous: Option<Abi>)
      modifies this
      ensures previous == old(Find(entries, name))
      ensures entries == Put(old(entries), name, abi)
    {
      previous := Find(entries, name);
      entries := Put(entries, name, abi);
    }
  }

  lemma LoadedStep(t: Tools, w: World, chainId: u64, mappings: seq<string>, i: nat)
    requires i < |mappings|
    ensures var e := LoadedEntry(t, w, chainId, mappings[i]);
            LoadedEntries(t, w, chainId, mappings[..i + 1]) ==
            LoadedEntries(t, w, chainId, mappings[..i]) + if e.Some? then [e.value] else []
  {
    assert mappings[..i + 1][..i] == mappings[..i];
  }

  /** The count is the number of identifiers that got an entry. */
  method LoadMappings(t: Tools, w: World, chainId: u64, mappings: seq<string>) returns (loaded: AbiMap, count: nat)
    ensures fresh(loaded)
    ensures loaded.entries == PutAll(LoadedEntries(t, w, chainId, mappings))
    ensures count == |loaded.entries|
  {
    loaded := new AbiMap();
    count := 0;
    for i := 0 to |mappings|
      invariant fresh(loaded)
      invariant loaded.entries == PutAll(LoadedEntries(t, w, chainId, mappings[..i]))
      invariant count == |loaded.entries|
    {
      LoadedStep(t, w, chainId, mappings, i);
      ghost var es := LoadedEntries(t, w, chainId, mappings[..i]);
      var entry := LoadedEntry(t, w, chainId, mappings[i]);
      assert entry.None? ==> es + [] == es;
      if entry.Some? {
        PutAllMore(es, entry.value);
        var previous := loaded.Insert(entry.value.name, entry.value.abi);
        if previous.None? { count := count + 1; }
      }
    }
    assert mappings[..|mappings|] == mappings;
  }

  method BuildAbiMappingsFromFiles(t: Tools, w: World, chainId: u64, mappings: seq<string>)
    returns (built: AbiMap, count: nat)
    ensures fresh(built)
    ensures built.entries == FileEntries(t, w, chainId, mappings)
    ensures count == |PutAll(LoadedEntries(t, w, chainId, mappings))|
  {
    var raw;
    raw, count := LoadMappings(t, w, chainId, mappings);
    built := new AbiMap();
    var renamed := RenamedAll(raw.entries);
    for i := 0 to |renamed|
      invariant fresh(built)
      invariant built.entries == PutAll(renamed[..i])
    {
      PutAllStep(renamed, i);
      var _ := built.Insert(renamed[i].name, renamed[i].abi);
    }
    assert renamed[..|renamed|] == renamed;
  }

  method ApplyProxyMappings(t: Tools, w: World, chainId: u64, abiMap: AbiMap, links: seq<string>)
    modifies abiMap
    ensures abiMap.entries == LinkAll(t, w, chainId, old(abiMap.entries), links)
  {
    for i := 0 to |links|
      invariant abiMap.entries == LinkAll(t, w, chainId, old(abiMap.entries), links[..i])
    {
      assert links[..i + 1][..i] == links[..i];
      var parsed := ParseLink(links[i]);
      if parsed.None? { continue; }
      var (proxy, implementation) := parsed.value;
      var abi := Find(abiMap.entries, proxy);
      if abi.None? {
        abi := Synthesized(t, w, chainId, proxy);
        if abi.None? { continue; }
      }
      var _ := abiMap.Insert(proxy, Stamped(abi.value, implementation));
    }
    assert links[..|links|] == links;
  }

  datatype CliError = InvalidNetwork | UnknownNetwork

  /** The network of the request, Ethereum mainnet when none is named. */
  function NetworkId(t: Tools, network: Option<string>): (r: Option<string>) {
    t.parseNetwork(if network.Some? then network.value else "ETHEREUM_MAINNET")
  }

  /** All entries: those from files, with the links applied. */
  function CliEntries(t: Tools, w: World, chainId: u64, mappings: seq<string>, links: seq<string>): (ms: seq<Mapping>) {
    LinkAll(t, w, chainId, FileEntries(t, w, chainId, mappings), links)
  }

  function ChainMetadataFor(t: Tools, w: World, network: Option<string>, mappings: seq<string>, links: seq<string>)
    : (r: Result<ChainMetadata, CliError>)
  {
    var networkId := NetworkId(t, network);
    if networkId.None? then Err(InvalidNetwork)
    else if mappings == [] && links == [] then Ok(Ethereum(networkId, []))
    else
      match t.chainIdOf(networkId.value)
      case None => Err(UnknownNetwork)
      case Some(chainId) => Ok(Ethereum(networkId, CliEntries(t, w, chainId, mappings, links)))
  }

  method CreateChainMetadata(t: Tools, w: World, network: Option<string>, mappings: seq<string>, links: seq<string>)
    returns (r: Result<ChainMetadata, CliError>)
    ensures r == ChainMetadataFor(t, w, network, mappings, links)
  {
    var networkId := NetworkId(t, network);
    if networkId.None? { return Err(InvalidNetwork); }
    var chainId := t.chainIdOf(networkId.value);
    var abiMap := new AbiMap();
    if mappings != [] {
      if chainId.None? { return Err(UnknownNetwork); }
      var built, _ := BuildAbiMappingsFromFiles(t, w, chainId.value, mappings);
      abiMap := built;
    }
    if links != [] {
      if chainId.None? { return Err(UnknownNetwork); }
      assert mappings == [] ==> abiMap.entries == FileEntries(t, w, chainId.value, mappings);
      ApplyProxyMappings(t, w, chainId.value, abiMap, links);
    }
    r := Ok(Ethereum(networkId, abiMap.entries));
  }
}
