/**
 Everything the command line builds survives the posture it runs under
 (src/chain_parsers/visualsign-ethereum/src/cli_plugin.rs).
 */
module CliTrust {
  import opened Wrappers
  import opened Texts
  import opened OrderedSeqs
  import opened Bytes
  import opened Signing
  import opened AbiRegistry
  import opened AbiMetadata
  import opened AbiTrust
  import opened AbiEntries
  import opened EthAddress
  import opened CliPlugin
  import opened Dispatch

  // ----- What one mapping string loads -----

  /** The ABI is the content of the file, at most ten mebibytes of JSON, signed for this address and chain. */
  ghost predicate LoadsAs(t: Tools, w: World, chainId: u64, path: string, identifier: string, abi: Abi) {
    && t.readFile(path) == Some(abi.value)
    && |Utf8(abi.value)| <= 10_485_760 && t.isJson(abi.value)
    && w.parseAddress(identifier).Some?
    && abi.signature == SignAbi(t, abi.value, w.parseAddress(identifier).value, chainId) && abi.signature.Some?
    && abi.abiType == None && abi.implementationAddress == None
  }

  ghost predicate Loads(t: Tools, w: World, chainId: u64, mapping: string, m: Mapping, c: Components) {
    && Splittable(c) && mapping == Joined(c)
    && ValidEthAddress(c.identifier) && m.name == c.identifier
    && LoadsAs(t, w, chainId, c.path, c.identifier, m.abi)
  }

  lemma SignedFileExact(t: Tools, w: World, chainId: u64, path: string, identifier: string, abi: Abi)
    ensures SignedFile(t, w, chainId, path, identifier) == Some(abi) <==> LoadsAs(t, w, chainId, path, identifier, abi)
  {
  }

  /** A mapping string loads an entry exactly when its file does and its address is valid. */
  lemma LoadedEntryExact(t: Tools, w: World, chainId: u64, mapping: string, m: Mapping)
    ensures LoadedEntry(t, w, chainId, mapping) == Some(m) <==> exists c :: Loads(t, w, chainId, mapping, m, c)
  {
    if LoadedEntry(t, w, chainId, mapping) == Some(m) {
      var c := ParseMapping(mapping).value;
      ParseMappingExact(mapping, c);
      SignedFileExact(t, w, chainId, c.path, c.identifier, m.abi);
      assert Loads(t, w, chainId, mapping, m, c);
    }
    if exists c :: Loads(t, w, chainId, mapping, m, c) {
      var c :| Loads(t, w, chainId, mapping, m, c);
      ParseMappingExact(mapping, c);
      SignedFileExact(t, w, chainId, c.path, c.identifier, m.abi);
    }
  }

  /** Without a network the metadata is that of mainnet; with one, it names the network as the table does. */
  lemma MetadataNetwork(t: Tools, w: World, network: string, mappings: seq<string>, links: seq<string>)
    ensures ChainMetadataFor(t, w, None, mappings, links) == ChainMetadataFor(t, w, Some("ETHEREUM_MAINNET"), mappings, links)
    ensures var r := ChainMetadataFor(t, w, Some(network), mappings, links);
            && (t.parseNetwork(network).None? ==> r == Err(InvalidNetwork))
            && (r.Ok? ==> r.value.Ethereum? && r.value.networkId == t.parseNetwork(network))
  {
  }

  // ----- Which file entry an address gets -----

  /** `id` was loaded with `abi` and is the last spelling of `key` that was loaded at all. */
  ghost predicate WinningSpelling(es: seq<Mapping>, key: string, id: string, abi: Abi) {
    && LastOf(es, id) == Some(abi)
    && NormalizeEthAddress(id) == key
    && forall other :: LastOf(es, other).Some? && NormalizeEthAddress(other) == key ==> other == id || Before(other, id)
  }

  ghost predicate Wins(es: seq<Mapping>, key: string, abi: Abi) {
    exists id :: WinningSpelling(es, key, id, abi)
  }

  lemma {:induction false} LastOfIndex(es: seq<Mapping>, name: string) returns (i: nat)
    requires LastOf(es, name).Some?
    ensures i < |es| && es[i].name == name && LastOf(es, name) == Some(es[i].abi)
    ensures forall j :: i < j < |es| ==> es[j].name != name
  {
    if es[|es| - 1].name == name { return |es| - 1; }
    i := LastOfIndex(es[..|es| - 1], name);
  }

  lemma LoadedIsHeld(es: seq<Mapping>, id: string)
    ensures LastOf(es, id).Some? ==> Mapping(id, LastOf(es, id).value) in PutAll(es)
    ensures forall abi :: Mapping(id, abi) in PutAll(es) ==> LastOf(es, id) == Some(abi)
  {
    PutAllExact(es, id);
    PutAllAscending(es);
    AscendingDistinct(PutAll(es));
    if LastOf(es, id).Some? { FindExact(PutAll(es), id, LastOf(es, id).value); }
    forall abi | Mapping(id, abi) in PutAll(es) ensures LastOf(es, id) == Some(abi) {
      FindExact(PutAll(es), id, abi);
    }
  }

  lemma HeldSpellingWins(es: seq<Mapping>, i: nat)
    requires i < |PutAll(es)|
    requires var raw := PutAll(es);
             forall j :: i < j < |raw| ==> NormalizeEthAddress(raw[j].name) != NormalizeEthAddress(raw[i].name)
    ensures var raw := PutAll(es); WinningSpelling(es, NormalizeEthAddress(raw[i].name), raw[i].name, raw[i].abi)
  {
    var raw := PutAll(es);
    PutAllAscending(es);
    LoadedIsHeld(es, raw[i].name);
    assert Mapping(raw[i].name, raw[i].abi) == raw[i];
    forall other | LastOf(es, other).Some? && NormalizeEthAddress(other) == NormalizeEthAddress(raw[i].name)
      ensures other == raw[i].name || Before(other, raw[i].name)
    {
      LoadedIsHeld(es, other);
      var j :| 0 <= j < |raw| && raw[j] == Mapping(other, LastOf(es, other).value);
    }
  }

  lemma WinningUnique(es: seq<Mapping>, key: string, id: string, abi: Abi, other: string, body: Abi)
    requires WinningSpelling(es, key, id, abi) && WinningSpelling(es, key, other, body)
    ensures id == other && abi == body
  {
    BeforeTotal(id, other);
    assert LastOf(es, other).Some? && LastOf(es, id).Some?;
  }

  /** Of all spellings of an address that loaded, the last in text order wins, with the last file given for it. */
  lemma FileEntriesExact(t: Tools, w: World, chainId: u64, mappings: seq<string>, key: string, abi: Abi)
    ensures Find(FileEntries(t, w, chainId, mappings), key) == Some(abi) <==>
            Wins(LoadedEntries(t, w, chainId, mappings), key, abi)
  {
    WinnerFound(LoadedEntries(t, w, chainId, mappings), key, abi);
  }

  lemma WinnerFound(es: seq<Mapping>, key: string, abi: Abi)
    ensures Find(PutAll(RenamedAll(PutAll(es))), key) == Some(abi) <==> Wins(es, key, abi)
  {
    var raw := PutAll(es);
    var renamed := RenamedAll(raw);
    PutAllExact(renamed, key);
    if LastOf(renamed, key).Some? {
      var i := LastOfIndex(renamed, key);
      forall j | i < j < |raw| ensures NormalizeEthAddress(raw[j].name) != key { assert renamed[j].name != key; }
      HeldSpellingWins(es, i);
      forall id, body | WinningSpelling(es, key, id, body) ensures body == raw[i].abi {
        WinningUnique(es, key, raw[i].name, raw[i].abi, id, body);
      }
    } else {
      forall id | WinningSpelling(es, key, id, abi) ensures false {
        LoadedIsHeld(es, id);
        var j :| 0 <= j < |raw| && raw[j] == Mapping(id, abi);
        RenamedPresent(renamed, j);
      }
    }
  }

  lemma {:induction false} RenamedPresent(es: seq<Mapping>, j: nat)
    requires j < |es|
    ensures LastOf(es, es[j].name).Some?
  {
    if j < |es| - 1 { RenamedPresent(es[..|es| - 1], j); }
  }

  // ----- What the links do -----

  /** The implementation in the last well-formed link of this proxy. */
  function LastLink(links: seq<string>, proxy: string): (r: Option<string>) {
    if links == [] then None
    else
      var parsed := ParseLink(links[|links| - 1]);
      if parsed.Some? && parsed.value.0 == proxy then Some(parsed.value.1)
      else LastLink(links[..|links| - 1], proxy)
  }

  /** What a key holds once the links are applied, given what it held before. */
  function LinkedAbi(t: Tools, w: World, chainId: u64, own: Option<Abi>, link: Option<string>, key: string): (r: Option<Abi>) {
    if link.None? then own
    else if own.Some? then Some(Abi(own.value.value, own.value.signature, Some(2), link))
    else
      var address :- w.parseAddress(key);
      ShortFits("[]");
      var signature :- SignAbi(t, "[]", address, chainId);
      Some(Abi("[]", Some(signature), Some(2), link))
  }

  /** A link is well formed exactly when it is two valid addresses with a colon between them, the proxy first. */
  ghost predicate Links(link: string, proxy: string, implementation: string, p: string, i: string) {
    && ValidEthAddress(p) && ValidEthAddress(i) && link == p + [':'] + i
    && proxy == NormalizeEthAddress(p) && implementation == NormalizeEthAddress(i)
  }

  lemma ParseLinkExact(link: string, proxy: string, implementation: string)
    ensures ParseLink(link) == Some((proxy, implementation)) <==> exists p, i :: Links(link, proxy, implementation, p, i)
  {
    if ParseLink(link) == Some((proxy, implementation)) {
      var (p, i) := SplitOnce(link, ':').value;
      assert Links(link, proxy, implementation, p, i);
    }
    if exists p, i :: Links(link, proxy, implementation, p, i) {
      var p, i :| Links(link, proxy, implementation, p, i);
      NoColon(p);
      SplitOnceJoined(p, i, ':');
    }
  }

  lemma NoColon(address: string)
    requires ValidEthAddress(address)
    ensures ':' !in address
  {
    ValidExactly(address);
    assert !IsHexDigit(':');
  }

  lemma LinkOne(t: Tools, w: World, chainId: u64, ms: seq<Mapping>, link: string, key: string)
    ensures var parsed := ParseLink(link);
            Find(Link(t, w, chainId, ms, link), key) ==
            if parsed.Some? && parsed.value.0 == key
            then LinkedAbi(t, w, chainId, Find(ms, key), Some(parsed.value.1), key)
            else Find(ms, key)
  {
    var parsed := ParseLink(link);
    if parsed.Some? {
      var (proxy, implementation) := parsed.value;
      var abi := ToStamp(t, w, chainId, Find(ms, proxy), proxy);
      if abi.Some? { FindAfterPut(ms, proxy, Stamped(abi.value, implementation), key); }
    }
  }

  lemma LinkedTwice(t: Tools, w: World, chainId: u64, own: Option<Abi>, first: Option<string>, second: string, key: string)
    ensures LinkedAbi(t, w, chainId, LinkedAbi(t, w, chainId, own, first, key), Some(second), key) ==
            LinkedAbi(t, w, chainId, own, Some(second), key)
  {
  }

  /**
   Each entry after linking: untouched without a link; otherwise the file's body and signature, or
   a signed empty ABI, stamped with the last well-formed link of that proxy.
   */
  lemma {:induction false} LinksExact(t: Tools, w: World, chainId: u64, ms: seq<Mapping>, links: seq<string>, key: string)
    ensures Find(LinkAll(t, w, chainId, ms, links), key) ==
            LinkedAbi(t, w, chainId, Find(ms, key), LastLink(links, key), key)
  {
    if links != [] {
      var front, last := links[..|links| - 1], links[|links| - 1];
      LinksExact(t, w, chainId, ms, front, key);
      LinkOne(t, w, chainId, LinkAll(t, w, chainId, ms, front), last, key);
      var parsed := ParseLink(last);
      if parsed.Some? && parsed.value.0 == key {
        LinkedTwice(t, w, chainId, Find(ms, key), LastLink(front, key), parsed.value.1, key);
      }
    }
  }

  /** A body loaded from a file keeps its text and signature through all links. */
  lemma FileBodiesKept(t: Tools, w: World, chainId: u64, mappings: seq<string>, links: seq<string>, key: string)
    requires Find(FileEntries(t, w, chainId, mappings), key).Some?
    ensures var before, after := Find(FileEntries(t, w, chainId, mappings), key), Find(CliEntries(t, w, chainId, mappings, links), key);
            after.Some? && after.value.value == before.value.value && after.value.signature == before.value.signature
  {
    LinksExact(t, w, chainId, FileEntries(t, w, chainId, mappings), links, key);
  }

  // ----- Every entry is signed for its key and chain -----

  ghost predicate SignedEntry(t: Tools, w: World, chainId: u64, m: Mapping) {
    && w.parseAddress(m.name).Some?
    && InMemory(m.abi.value)
    && m.abi.signature.Some?
    && m.abi.signature == SignAbi(t, m.abi.value, w.parseAddress(m.name).value, chainId)
  }

  ghost predicate GoodEntry(t: Tools, w: World, chainId: u64, m: Mapping) {
    && ValidEthAddress(m.name) && NormalizeEthAddress(m.name) == m.name
    && SignedEntry(t, w, chainId, m)
  }

  lemma SignedFileSigned(t: Tools, w: World, chainId: u64, path: string, identifier: string)
    ensures var abi := SignedFile(t, w, chainId, path, identifier);
            abi.Some? ==> SignedEntry(t, w, chainId, Mapping(identifier, abi.value))
  {
  }

  lemma LoadedEntrySigned(t: Tools, w: World, chainId: u64, mapping: string)
    ensures var m := LoadedEntry(t, w, chainId, mapping);
            m.Some? ==> ValidEthAddress(m.value.name) && SignedEntry(t, w, chainId, m.value)
  {
    var c := ParseMapping(mapping);
    if c.Some? { SignedFileSigned(t, w, chainId, c.value.path, c.value.identifier); }
  }

  lemma {:induction false} LoadedSigned(t: Tools, w: World, chainId: u64, mappings: seq<string>, m: Mapping)
    requires m in LoadedEntries(t, w, chainId, mappings)
    ensures ValidEthAddress(m.name) && SignedEntry(t, w, chainId, m)
  {
    if m in LoadedEntries(t, w, chainId, mappings[..|mappings| - 1]) {
      LoadedSigned(t, w, chainId, mappings[..|mappings| - 1], m);
    } else {
      LoadedEntrySigned(t, w, chainId, mappings[|mappings| - 1]);
    }
  }

  lemma RenamedGood(t: Tools, w: World, chainId: u64, m: Mapping)
    requires ReadsHexAddresses(w.parseAddress)
    requires ValidEthAddress(m.name) && SignedEntry(t, w, chainId, m)
    ensures GoodEntry(t, w, chainId, Renamed(m))
  {
    NormalizedStable(m.name);
  }

  lemma FileEntriesGood(t: Tools, w: World, chainId: u64, mappings: seq<string>, m: Mapping)
    requires ReadsHexAddresses(w.parseAddress)
    requires m in FileEntries(t, w, chainId, mappings)
    ensures GoodEntry(t, w, chainId, m)
  {
    var es := LoadedEntries(t, w, chainId, mappings);
    var raw := PutAll(es);
    PutAllMembers(RenamedAll(raw), m);
    var i :| 0 <= i < |raw| && RenamedAll(raw)[i] == m;
    PutAllMembers(es, raw[i]);
    LoadedSigned(t, w, chainId, mappings, raw[i]);
    RenamedGood(t, w, chainId, raw[i]);
  }

  lemma ParsedLinkNormal(link: string)
    requires ParseLink(link).Some?
    ensures var (proxy, implementation) := ParseLink(link).value;
            && ValidEthAddress(proxy) && NormalizeEthAddress(proxy) == proxy
            && ValidEthAddress(implementation) && NormalizeEthAddress(implementation) == implementation
  {
    var (proxy, implementation) := SplitOnce(link, ':').value;
    NormalizedStable(proxy);
    NormalizedStable(implementation);
  }

  lemma StampedGood(t: Tools, w: World, chainId: u64, own: Option<Abi>, proxy: string, implementation: string)
    requires ValidEthAddress(proxy) && NormalizeEthAddress(proxy) == proxy
    requires own.Some? ==> GoodEntry(t, w, chainId, Mapping(proxy, own.value))
    requires ToStamp(t, w, chainId, own, proxy).Some?
    ensures GoodEntry(t, w, chainId, Mapping(proxy, Stamped(ToStamp(t, w, chainId, own, proxy).value, implementation)))
  {
    ShortFits("[]");
  }

  lemma {:induction false} LinkedGood(t: Tools, w: World, chainId: u64, ms: seq<Mapping>, links: seq<string>)
    requires Ascending(ms) && forall m :: m in ms ==> GoodEntry(t, w, chainId, m)
    ensures var r := LinkAll(t, w, chainId, ms, links);
            Ascending(r) && forall m :: m in r ==> GoodEntry(t, w, chainId, m)
  {
    if links != [] {
      LinkedGood(t, w, chainId, ms, links[..|links| - 1]);
      LinkGood(t, w, chainId, LinkAll(t, w, chainId, ms, links[..|links| - 1]), links[|links| - 1]);
    }
  }

  lemma LinkGood(t: Tools, w: World, chainId: u64, ms: seq<Mapping>, link: string)
    requires Ascending(ms) && forall m :: m in ms ==> GoodEntry(t, w, chainId, m)
    ensures var r := Link(t, w, chainId, ms, link);
            Ascending(r) && forall m :: m in r ==> GoodEntry(t, w, chainId, m)
  {
    if ParseLink(link).Some? {
      var (proxy, implementation) := ParseLink(link).value;
      var own := Find(ms, proxy);
      var abi := ToStamp(t, w, chainId, own, proxy);
      if abi.Some? {
        ParsedLinkNormal(link);
        AscendingDistinct(ms);
        if own.Some? { FindExact(ms, proxy, own.value); }
        StampedGood(t, w, chainId, own, proxy, implementation);
        PutAscending(ms, proxy, Stamped(abi.value, implementation));
        forall m | m in Link(t, w, chainId, ms, link) ensures GoodEntry(t, w, chainId, m) {
          PutMembers(ms, proxy, Stamped(abi.value, implementation), m);
        }
      }
    }
  }

  /** Every entry has a normalised key, each key once, and a signature made for that key and chain. */
  lemma CliEntriesGood(t: Tools, w: World, chainId: u64, mappings: seq<string>, links: seq<string>)
    requires ReadsHexAddresses(w.parseAddress)
    ensures var ms := CliEntries(t, w, chainId, mappings, links);
            DistinctNames(ms) && forall m :: m in ms ==> GoodEntry(t, w, chainId, m)
  {
    var files := FileEntries(t, w, chainId, mappings);
    PutAllAscending(RenamedAll(PutAll(LoadedEntries(t, w, chainId, mappings))));
    forall m | m in files ensures GoodEntry(t, w, chainId, m) { FileEntriesGood(t, w, chainId, mappings, m); }
    LinkedGood(t, w, chainId, files, links);
    AscendingDistinct(LinkAll(t, w, chainId, files, links));
  }

  // ----- Extraction accepts it all -----

  /** The development key is allowlisted, and what it signs verifies under it. */
  ghost predicate SignsFor(t: Tools, w: World, allow: SignerAllowlist) {
    && w.decodeKey(t.devKey).Some?
    && w.decodeKey(t.devKey).value in allow
    && forall bs :: t.sign(bs).Some? ==>
                      && w.decodeSignature(t.sign(bs).value).Some?
                      && w.verify(w.decodeKey(t.devKey).value, bs, w.decodeSignature(t.sign(bs).value).value)
  }

  lemma SignatureLookups(key: string)
    ensures var pairs := [("algorithm", "secp256k1"), ("public_key", key)];
            Lookup(pairs, "algorithm") == Some("secp256k1") && Lookup(pairs, "public_key") == Some(key)
  {
    var pairs := [("algorithm", "secp256k1"), ("public_key", key)];
    assert pairs[1..][0] == ("public_key", key);
  }

  lemma SignedIsValid(t: Tools, w: World, allow: SignerAllowlist, json: string, address: Address, chainId: u64)
    requires SignsFor(t, w, allow) && WithinLimit(json) && SignAbi(t, json, address, chainId).Some?
    ensures ValidSignature(w, json, address, chainId, SignAbi(t, json, address, chainId).value, Some(allow))
  {
    SignatureLookups(t.devKey);
  }

  /** A signed entry is accepted exactly when its body fits the limit and parses. */
  lemma SignedAccepted(t: Tools, w: World, allow: SignerAllowlist, chainId: u64, m: Mapping)
    requires SignsFor(t, w, allow) && SignedEntry(t, w, chainId, m)
    ensures Accepted(w, RequireAllowlistedSigner(allow), chainId, m) <==>
            WithinLimit(m.abi.value) && w.parsesAsAbi(m.abi.value)
  {
    if WithinLimit(m.abi.value) {
      SignedIsValid(t, w, allow, m.abi.value, w.parseAddress(m.name).value, chainId);
    }
  }

  /** Normalised keys spell every address once. */
  lemma OneSpellingEach(t: Tools, w: World, policy: MetadataTrustPolicy, chainId: u64, ms: seq<Mapping>, i: nat)
    requires ReadsHexAddresses(w.parseAddress) && DistinctNames(ms)
    requires forall m :: m in ms ==> GoodEntry(t, w, chainId, m)
    requires i < |ms| && Accepted(w, policy, chainId, ms[i])
    ensures LastSpelling(w, policy, chainId, ms, w.parseAddress(ms[i].name).value, i)
  {
    forall j | i < j < |ms| ensures w.parseAddress(ms[j].name) != w.parseAddress(ms[i].name) {
      assert ms[i] in ms && ms[j] in ms;
    }
  }

  /** The entry is registered and is what its address resolves to. */
  ghost predicate Extracted(w: World, chainId: u64, registry: Registry, m: Mapping) {
    && m.name in registry.abis && registry.abis[m.name] == JsonAbi(m.abi.value)
    && w.parseAddress(m.name).Some?
    && var key := (chainId, w.parseAddress(m.name).value);
    && key in registry.mappings && registry.mappings[key] == MappingFor(w, m)
  }

  lemma AcceptedExtracted(t: Tools, w: World, policy: MetadataTrustPolicy, chainId: u64, ms: seq<Mapping>, i: nat)
    requires ReadsHexAddresses(w.parseAddress) && DistinctNames(ms)
    requires forall m :: m in ms ==> GoodEntry(t, w, chainId, m)
    requires i < |ms| && Accepted(w, policy, chainId, ms[i])
    ensures Extracted(w, chainId, Extract(w, policy, chainId, ms).registry, ms[i])
  {
    RegisteredBody(w, policy, chainId, ms, i);
    var a := w.parseAddress(ms[i].name).value;
    OneSpellingEach(t, w, policy, chainId, ms, i);
    MappedExactly(w, policy, chainId, ms, chainId, a);
    var mappings := Extract(w, policy, chainId, ms).registry.mappings;
    var j: nat :| LastSpelling(w, policy, chainId, ms, a, j) && mappings[(chainId, a)] == MappingFor(w, ms[j]);
    LastSpellingUnique(w, policy, chainId, ms, a, i, j);
  }

  lemma RegisteredMeansAccepted(w: World, policy: MetadataTrustPolicy, chainId: u64, ms: seq<Mapping>, i: nat)
    requires DistinctNames(ms) && i < |ms| && ms[i].name in Extract(w, policy, chainId, ms).registry.abis
    ensures Accepted(w, policy, chainId, ms[i])
  {
    RegisteredNames(w, policy, chainId, ms, ms[i].name);
    var j :| 0 <= j < |ms| && ms[j].name == ms[i].name && Accepted(w, policy, chainId, ms[j]);
    assert i == j;
  }

  /**
   Under its own require-signed posture the command line loses exactly the entries whose body does
   not fit or parse; every other one is registered, decides for its address, and none is unverified.
   */
  lemma CliSurvivesItsPolicy(t: Tools, w: World, allow: SignerAllowlist, chainId: u64, mappings: seq<string>, links: seq<string>)
    requires ReadsHexAddresses(w.parseAddress) && SignsFor(t, w, allow)
    ensures var ms := CliEntries(t, w, chainId, mappings, links);
            var e := Extract(w, RequireAllowlistedSigner(allow), chainId, ms);
            && e.unverified == 0
            && forall i :: 0 <= i < |ms| ==>
                             (Extracted(w, chainId, e.registry, ms[i]) <==> WithinLimit(ms[i].abi.value) && w.parsesAsAbi(ms[i].abi.value))
  {
    var policy, ms := RequireAllowlistedSigner(allow), CliEntries(t, w, chainId, mappings, links);
    var registry := Extract(w, policy, chainId, ms).registry;
    CliEntriesGood(t, w, chainId, mappings, links);
    UnverifiedCountExact(w, policy, chainId, ms);
    forall i | 0 <= i < |ms|
      ensures Extracted(w, chainId, registry, ms[i]) <==> WithinLimit(ms[i].abi.value) && w.parsesAsAbi(ms[i].abi.value)
    {
      assert ms[i] in ms;
      SignedAccepted(t, w, allow, chainId, ms[i]);
      if Accepted(w, policy, chainId, ms[i]) {
        AcceptedExtracted(t, w, policy, chainId, ms, i);
      } else if ms[i].name in registry.abis {
        RegisteredMeansAccepted(w, policy, chainId, ms, i);
      }
    }
  }

  // ----- One request, end to end -----

  /**
   Metadata built for a network is read back at that network's chain id, for every transaction that
   names no other chain, and the request's registry then holds every entry that fits and parses.
   */
  lemma CliRequestDecodes(t: Tools, b: BuiltIns, w: World, allow: SignerAllowlist, network: Option<string>,
                          mappings: seq<string>, links: seq<string>, tx: Transaction, chainId: u64, metadata: ChainMetadata, m: Mapping)
    requires ReadsHexAddresses(w.parseAddress) && SignsFor(t, w, allow)
    requires t.chainIdOf == b.chainIdOf
    requires ChainMetadataFor(t, w, network, mappings, links) == Ok(metadata)
    requires t.chainIdOf(NetworkId(t, network).value) == Some(chainId)
    requires tx.chainId.None? || tx.chainId == Some(chainId)
    requires m in metadata.abiMappings && WithinLimit(m.abi.value) && w.parsesAsAbi(m.abi.value)
    ensures ResolveChainId(b, tx, Some(metadata)) == Ok(chainId)
    ensures var registry := RequestRegistry(w, RequireAllowlistedSigner(allow), chainId, Some(metadata));
            registry.Some? && Extracted(w, chainId, registry.value, m)
  {
    CliSurvivesItsPolicy(t, w, allow, chainId, mappings, links);
    var ms := metadata.abiMappings;
    var i :| 0 <= i < |ms| && ms[i] == m;
    assert ms == CliEntries(t, w, chainId, mappings, links);
    assert Extracted(w, chainId, Extract(w, RequireAllowlistedSigner(allow), chainId, ms).registry, ms[i]);
  }
}
