/**
 What a whole extraction run guarantees about the registry it fills
 (src/chain_parsers/visualsign-ethereum/src/abi_metadata.rs,
 src/chain_parsers/visualsign-ethereum/src/abi_registry.rs).
 */
module AbiTrust {
  import opened Wrappers
  import opened Bytes
  import opened Signing
  import opened AbiRegistry
  import opened AbiMetadata
  import opened EthAddress
  import opened OrderedSeqs

  // ----- What acceptance means -----

  /** The first pair with this key has this value. */
  ghost predicate FirstPair(pairs: seq<(string, string)>, key: string, value: string) {
    exists i :: 0 <= i < |pairs| && pairs[i] == (key, value) && forall j :: 0 <= j < i ==> pairs[j].0 != key
  }

  lemma {:induction false} LookupExact(pairs: seq<(string, string)>, key: string, value: string)
    ensures Lookup(pairs, key) == Some(value) <==> FirstPair(pairs, key, value)
  {
    if pairs != [] && pairs[0].0 == key {
      if pairs[0].1 == value { assert pairs[0] == (key, value); }
    } else if pairs != [] {
      var rest := pairs[1..];
      LookupExact(rest, key, value);
      if FirstPair(rest, key, value) {
        var i :| 0 <= i < |rest| && rest[i] == (key, value) && forall j :: 0 <= j < i ==> rest[j].0 != key;
        assert pairs[i + 1] == (key, value);
        assert forall j :: 0 < j < i + 1 ==> pairs[j] == rest[j - 1];
      }
      if FirstPair(pairs, key, value) {
        var i :| 0 <= i < |pairs| && pairs[i] == (key, value) && forall j :: 0 <= j < i ==> pairs[j].0 != key;
        assert rest[i - 1] == (key, value);
        assert forall j :: 0 <= j < i - 1 ==> rest[j] == pairs[j + 1];
      }
    }
  }

  /** The signature names this key. */
  ghost predicate NamesKey(w: World, signature: ProtoSignature, key: seq<byte>) {
    exists text :: FirstPair(signature.metadata, "public_key", text) && w.decodeKey(text) == Some(key)
  }

  /** The ABI carries a secp256k1 signature that this key verifies over chain, address and body. */
  ghost predicate SignedBy(w: World, chainId: u64, address: Address, abi: Abi, key: seq<byte>)
    requires InMemory(abi.value)
  {
    && abi.signature.Some?
    && FirstPair(abi.signature.value.metadata, "algorithm", "secp256k1")
    && NamesKey(w, abi.signature.value, key)
    && exists der :: w.decodeSignature(abi.signature.value.value) == Some(der)
                     && w.verify(key, AbiPreimage(chainId, address, abi.value), der)
  }

  /** A key of the allowlist signed this ABI, which is at most one mebibyte. */
  ghost predicate SignedByListed(w: World, allow: SignerAllowlist, chainId: u64, address: Address, abi: Abi) {
    |Utf8(abi.value)| <= 1_048_576 && exists key :: key in allow && SignedBy(w, chainId, address, abi, key)
  }

  lemma ValidSignatureExact(w: World, abi: Abi, address: Address, chainId: u64, allowlist: Option<SignerAllowlist>)
    requires WithinLimit(abi.value) && abi.signature.Some?
    ensures ValidSignature(w, abi.value, address, chainId, abi.signature.value, allowlist) <==>
            exists key :: SignedBy(w, chainId, address, abi, key) && (allowlist.Some? ==> key in allowlist.value)
  {
    var signature := abi.signature.value;
    LookupExact(signature.metadata, "algorithm", "secp256k1");
    forall text ensures Lookup(signature.metadata, "public_key") == Some(text) <==> FirstPair(signature.metadata, "public_key", text) {
      LookupExact(signature.metadata, "public_key", text);
    }
    if ValidSignature(w, abi.value, address, chainId, signature, allowlist) {
      var text := Lookup(signature.metadata, "public_key").value;
      assert NamesKey(w, signature, w.decodeKey(text).value);
      assert SignedBy(w, chainId, address, abi, w.decodeKey(text).value);
    }
  }

  /** What an entry needs under each posture, word for word. */
  ghost predicate Acceptance(w: World, policy: MetadataTrustPolicy, chainId: u64, m: Mapping, a: Address) {
    && w.parseAddress(m.name) == Some(a)
    && |Utf8(m.abi.value)| <= 1_048_576
    && w.parsesAsAbi(m.abi.value)
    && match policy
       case AcceptUnsigned => m.abi.signature.None? || exists key :: SignedBy(w, chainId, a, m.abi, key)
       case RequireAllowlistedSigner(allow) => SignedByListed(w, allow, chainId, a, m.abi)
  }

  lemma AcceptedExactly(w: World, policy: MetadataTrustPolicy, chainId: u64, m: Mapping)
    ensures Accepted(w, policy, chainId, m) <==> exists a :: Acceptance(w, policy, chainId, m, a)
  {
    if w.parseAddress(m.name).Some? && WithinLimit(m.abi.value) {
      var a := w.parseAddress(m.name).value;
      if m.abi.signature.Some? { ValidSignatureExact(w, m.abi, a, chainId, policy.SignerAllowlist()); }
      assert Accepted(w, policy, chainId, m) <==> Acceptance(w, policy, chainId, m, a);
    }
  }

  // ----- Require-signed is accept-unsigned on the entries of listed signers -----

  /** The entry names a key of the allowlist. */
  ghost predicate NamesListed(w: World, allow: SignerAllowlist, m: Mapping) {
    m.abi.signature.Some? && exists key :: key in allow && NamesKey(w, m.abi.signature.value, key)
  }

  ghost function FromListed(w: World, allow: SignerAllowlist, ms: seq<Mapping>): (r: seq<Mapping>) {
    if ms == [] then []
    else FromListed(w, allow, ms[..|ms| - 1]) + if NamesListed(w, allow, ms[|ms| - 1]) then [ms[|ms| - 1]] else []
  }

  lemma ListedAccepted(w: World, allow: SignerAllowlist, chainId: u64, m: Mapping)
    ensures Accepted(w, RequireAllowlistedSigner(allow), chainId, m) <==>
            NamesListed(w, allow, m) && Accepted(w, AcceptUnsigned, chainId, m)
  {
    if m.abi.signature.Some? {
      var signature := m.abi.signature.value;
      forall text ensures Lookup(signature.metadata, "public_key") == Some(text) <==> FirstPair(signature.metadata, "public_key", text) {
        LookupExact(signature.metadata, "public_key", text);
      }
    }
  }

  /** The allowlist does nothing but select entries, by the key they name. */
  lemma {:induction false} RequireSignedSelects(w: World, allow: SignerAllowlist, chainId: u64, ms: seq<Mapping>)
    ensures Extract(w, RequireAllowlistedSigner(allow), chainId, ms).registry ==
            Extract(w, AcceptUnsigned, chainId, FromListed(w, allow, ms)).registry
  {
    if ms != [] {
      var front, m := ms[..|ms| - 1], ms[|ms| - 1];
      RequireSignedSelects(w, allow, chainId, front);
      ListedAccepted(w, allow, chainId, m);
      var kept := FromListed(w, allow, front);
      assert (kept + [m])[..|kept|] == kept;
      assert kept + [] == kept;
    }
  }

  // ----- Names -----

  ghost predicate AcceptedUnder(w: World, policy: MetadataTrustPolicy, chainId: u64, ms: seq<Mapping>, name: string) {
    exists i :: 0 <= i < |ms| && ms[i].name == name && Accepted(w, policy, chainId, ms[i])
  }

  lemma AcceptedUnderLast(w: World, policy: MetadataTrustPolicy, chainId: u64, ms: seq<Mapping>, m: Mapping, name: string)
    ensures AcceptedUnder(w, policy, chainId, ms + [m], name) <==>
            AcceptedUnder(w, policy, chainId, ms, name) || (m.name == name && Accepted(w, policy, chainId, m))
  {
    var all := ms + [m];
    if AcceptedUnder(w, policy, chainId, ms, name) {
      var i :| 0 <= i < |ms| && ms[i].name == name && Accepted(w, policy, chainId, ms[i]);
      assert all[i] == ms[i];
    }
    assert all[|ms|] == m;
  }

  /** A name is registered exactly when the entry of that name was accepted. */
  lemma {:induction false} RegisteredNames(w: World, policy: MetadataTrustPolicy, chainId: u64, ms: seq<Mapping>, name: string)
    ensures name in Extract(w, policy, chainId, ms).registry.abis <==> AcceptedUnder(w, policy, chainId, ms, name)
  {
    if ms != [] {
      var front, m := ms[..|ms| - 1], ms[|ms| - 1];
      assert ms == front + [m];
      RegisteredNames(w, policy, chainId, front, name);
      AcceptedUnderLast(w, policy, chainId, front, m, name);
    }
  }

  /** Every accepted name holds its own entry's body, whatever else was accepted. */
  lemma {:induction false} RegisteredBody(w: World, policy: MetadataTrustPolicy, chainId: u64, ms: seq<Mapping>, i: nat)
    requires DistinctNames(ms) && i < |ms| && Accepted(w, policy, chainId, ms[i])
    ensures var abis := Extract(w, policy, chainId, ms).registry.abis;
            ms[i].name in abis && abis[ms[i].name] == JsonAbi(ms[i].abi.value)
  {
    if i < |ms| - 1 { RegisteredBody(w, policy, chainId, ms[..|ms| - 1], i); }
  }

  // ----- The count of unattributed entries -----

  /** All registered names under accept-unsigned, none under require-signed. */
  lemma {:induction false} UnverifiedCountExact(w: World, policy: MetadataTrustPolicy, chainId: u64, ms: seq<Mapping>)
    requires DistinctNames(ms)
    ensures var e := Extract(w, policy, chainId, ms);
            e.unverified == if policy.AcceptUnsigned? then |e.registry.abis| else 0
  {
    if ms != [] {
      var front, m := ms[..|ms| - 1], ms[|ms| - 1];
      UnverifiedCountExact(w, policy, chainId, front);
      RegisteredNames(w, policy, chainId, front, m.name);
      var abis := Extract(w, policy, chainId, front).registry.abis;
      assert abis[m.name := JsonAbi(m.abi.value)].Keys == abis.Keys + {m.name};
    }
  }

  // ----- Addresses -----

  /** Entry `i` is the last accepted one whose name spells `a`. */
  ghost predicate LastSpelling(w: World, policy: MetadataTrustPolicy, chainId: u64, ms: seq<Mapping>, a: Address, i: nat) {
    && i < |ms|
    && Accepted(w, policy, chainId, ms[i])
    && w.parseAddress(ms[i].name) == Some(a)
    && forall j :: i < j < |ms| && Accepted(w, policy, chainId, ms[j]) ==> w.parseAddress(ms[j].name) != Some(a)
  }

  ghost predicate Spelled(w: World, policy: MetadataTrustPolicy, chainId: u64, ms: seq<Mapping>, a: Address) {
    exists i: nat :: i < |ms| && Accepted(w, policy, chainId, ms[i]) && w.parseAddress(ms[i].name) == Some(a)
  }

  /** `mapping` is what the last accepted spelling of `a` says. */
  ghost predicate Decides(w: World, policy: MetadataTrustPolicy, chainId: u64, ms: seq<Mapping>, a: Address, mapping: AddressMapping) {
    exists i: nat :: LastSpelling(w, policy, chainId, ms, a, i) && mapping == MappingFor(w, ms[i])
  }

  lemma LastDecides(w: World, policy: MetadataTrustPolicy, chainId: u64, ms: seq<Mapping>, a: Address)
    requires ms != []
    requires Accepted(w, policy, chainId, ms[|ms| - 1]) && w.parseAddress(ms[|ms| - 1].name) == Some(a)
    ensures Spelled(w, policy, chainId, ms, a)
    ensures Decides(w, policy, chainId, ms, a, MappingFor(w, ms[|ms| - 1]))
  {
    assert LastSpelling(w, policy, chainId, ms, a, |ms| - 1);
  }

  lemma EarlierStaysLast(w: World, policy: MetadataTrustPolicy, chainId: u64, ms: seq<Mapping>, a: Address, i: nat)
    requires ms != [] && LastSpelling(w, policy, chainId, ms[..|ms| - 1], a, i)
    requires !(Accepted(w, policy, chainId, ms[|ms| - 1]) && w.parseAddress(ms[|ms| - 1].name) == Some(a))
    ensures LastSpelling(w, policy, chainId, ms, a, i) && ms[i] == ms[..|ms| - 1][i]
  {
    var front := ms[..|ms| - 1];
    forall j | i < j < |ms| && Accepted(w, policy, chainId, ms[j]) ensures w.parseAddress(ms[j].name) != Some(a) {
      if j < |front| { assert front[j] == ms[j]; }
    }
  }

  lemma EarlierDecides(w: World, policy: MetadataTrustPolicy, chainId: u64, ms: seq<Mapping>, a: Address, mapping: AddressMapping)
    requires ms != []
    requires !(Accepted(w, policy, chainId, ms[|ms| - 1]) && w.parseAddress(ms[|ms| - 1].name) == Some(a))
    requires Decides(w, policy, chainId, ms[..|ms| - 1], a, mapping)
    ensures Decides(w, policy, chainId, ms, a, mapping)
  {
    var i: nat :| LastSpelling(w, policy, chainId, ms[..|ms| - 1], a, i) && mapping == MappingFor(w, ms[..|ms| - 1][i]);
    EarlierStaysLast(w, policy, chainId, ms, a, i);
  }

  lemma StepMappings(w: World, policy: MetadataTrustPolicy, chainId: u64, e: Extraction, m: Mapping, c: u64, a: Address)
    ensures var before, after := e.registry.mappings, Step(w, policy, chainId, e, m).registry.mappings;
            if c == chainId && Accepted(w, policy, chainId, m) && w.parseAddress(m.name) == Some(a)
            then (c, a) in after && after[(c, a)] == MappingFor(w, m)
            else ((c, a) in after <==> (c, a) in before) && ((c, a) in before ==> after[(c, a)] == before[(c, a)])
  {
  }

  /** An address is mapped exactly when an accepted entry spells it, and then the last such entry decides. */
  lemma {:induction false} MappedExactly(w: World, policy: MetadataTrustPolicy, chainId: u64, ms: seq<Mapping>, c: u64, a: Address)
    ensures var mappings := Extract(w, policy, chainId, ms).registry.mappings;
            && ((c, a) in mappings <==> c == chainId && Spelled(w, policy, chainId, ms, a))
            && ((c, a) in mappings ==> Decides(w, policy, chainId, ms, a, mappings[(c, a)]))
  {
    if ms != [] {
      var front, m := ms[..|ms| - 1], ms[|ms| - 1];
      var e := Extract(w, policy, chainId, front);
      MappedExactly(w, policy, chainId, front, c, a);
      StepMappings(w, policy, chainId, e, m, c, a);
      if Accepted(w, policy, chainId, m) && w.parseAddress(m.name) == Some(a) {
        LastDecides(w, policy, chainId, ms, a);
      } else {
        SpelledBeforeLast(w, policy, chainId, ms, a);
        if (c, a) in e.registry.mappings {
          EarlierDecides(w, policy, chainId, ms, a, e.registry.mappings[(c, a)]);
        }
      }
    }
  }

  lemma SpelledBeforeLast(w: World, policy: MetadataTrustPolicy, chainId: u64, ms: seq<Mapping>, a: Address)
    requires ms != []
    requires !(Accepted(w, policy, chainId, ms[|ms| - 1]) && w.parseAddress(ms[|ms| - 1].name) == Some(a))
    ensures Spelled(w, policy, chainId, ms, a) <==> Spelled(w, policy, chainId, ms[..|ms| - 1], a)
  {
    var front := ms[..|ms| - 1];
    if Spelled(w, policy, chainId, ms, a) {
      var i: nat :| i < |ms| && Accepted(w, policy, chainId, ms[i]) && w.parseAddress(ms[i].name) == Some(a);
      assert front[i] == ms[i];
    }
    if Spelled(w, policy, chainId, front, a) {
      var i: nat :| i < |front| && Accepted(w, policy, chainId, front[i]) && w.parseAddress(front[i].name) == Some(a);
      assert front[i] == ms[i];
    }
  }

  lemma LastSpellingUnique(w: World, policy: MetadataTrustPolicy, chainId: u64, ms: seq<Mapping>, a: Address, i: nat, j: nat)
    requires LastSpelling(w, policy, chainId, ms, a, i) && LastSpelling(w, policy, chainId, ms, a, j)
    ensures i == j
  {
  }

  /** What an address resolves to: the body of the last accepted entry that spells it. */
  lemma ResolutionExact(w: World, policy: MetadataTrustPolicy, chainId: u64, ms: seq<Mapping>, c: u64, a: Address, abi: JsonAbi)
    requires DistinctNames(ms)
    ensures Extract(w, policy, chainId, ms).registry.GetAbiForAddress(c, a) == Some(abi) <==>
            c == chainId && exists i: nat :: LastSpelling(w, policy, chainId, ms, a, i) && abi == JsonAbi(ms[i].abi.value)
  {
    var registry := Extract(w, policy, chainId, ms).registry;
    MappedExactly(w, policy, chainId, ms, c, a);
    if (c, a) in registry.mappings {
      var i: nat :| LastSpelling(w, policy, chainId, ms, a, i) && registry.mappings[(c, a)] == MappingFor(w, ms[i]);
      RegisteredBody(w, policy, chainId, ms, i);
      forall j: nat | LastSpelling(w, policy, chainId, ms, a, j) ensures j == i {
        LastSpellingUnique(w, policy, chainId, ms, a, i, j);
      }
    } else if c == chainId {
      forall j: nat ensures !LastSpelling(w, policy, chainId, ms, a, j) { }
    }
  }

  // ----- Provenance -----

  /** The entry that decides for `a` has this body, and a key of the allowlist signed it for this chain and address. */
  ghost predicate Vouched(w: World, allow: SignerAllowlist, chainId: u64, ms: seq<Mapping>, a: Address, json: string) {
    exists i: nat ::
      && LastSpelling(w, RequireAllowlistedSigner(allow), chainId, ms, a, i)
      && ms[i].abi.value == json
      && SignedByListed(w, allow, chainId, a, ms[i].abi)
  }

  /** Under require-signed, an address resolves to exactly the body vouched for at this chain and that address. */
  lemma ResolvedIsVouched(w: World, allow: SignerAllowlist, chainId: u64, ms: seq<Mapping>, c: u64, a: Address, abi: JsonAbi)
    requires DistinctNames(ms)
    ensures Extract(w, RequireAllowlistedSigner(allow), chainId, ms).registry.GetAbiForAddress(c, a) == Some(abi) <==>
            c == chainId && Vouched(w, allow, chainId, ms, a, abi.json)
  {
    var policy := RequireAllowlistedSigner(allow);
    ResolutionExact(w, policy, chainId, ms, c, a, abi);
    forall i: nat | LastSpelling(w, policy, chainId, ms, a, i) ensures SignedByListed(w, allow, chainId, a, ms[i].abi) {
      AcceptedExactly(w, policy, chainId, ms[i]);
    }
  }

  /** The accepted entry that decides for `proxy` declares `implementation` behind it. */
  ghost predicate Declares(w: World, policy: MetadataTrustPolicy, chainId: u64, ms: seq<Mapping>,
                           proxy: Address, implementation: Address) {
    exists i: nat :: LastSpelling(w, policy, chainId, ms, proxy, i) && ms[i].abi.abiType == Some(2)
                     && ms[i].abi.implementationAddress.Some?
                     && w.parseAddress(ms[i].abi.implementationAddress.value) == Some(implementation)
  }

  /** An address counts as a proxy exactly when the entry that decides for it says so. */
  lemma KindExact(w: World, policy: MetadataTrustPolicy, chainId: u64, ms: seq<Mapping>, a: Address, i: nat)
    requires LastSpelling(w, policy, chainId, ms, a, i)
    ensures Extract(w, policy, chainId, ms).registry.GetAbiKind(chainId, a) ==
            Some(if ms[i].abi.abiType == Some(2) then Proxy else Implementation)
  {
    MappedExactly(w, policy, chainId, ms, chainId, a);
    var mappings := Extract(w, policy, chainId, ms).registry.mappings;
    var j: nat :| LastSpelling(w, policy, chainId, ms, a, j) && mappings[(chainId, a)] == MappingFor(w, ms[j]);
    LastSpellingUnique(w, policy, chainId, ms, a, i, j);
  }

  lemma DeclaredLink(w: World, policy: MetadataTrustPolicy, chainId: u64, ms: seq<Mapping>, proxy: Address, implementation: Address)
    ensures var mappings := Extract(w, policy, chainId, ms).registry.mappings;
            Declares(w, policy, chainId, ms, proxy, implementation) <==>
            && (chainId, proxy) in mappings
            && mappings[(chainId, proxy)].kind == Proxy
            && mappings[(chainId, proxy)].implementation == Some(implementation)
  {
    MappedExactly(w, policy, chainId, ms, chainId, proxy);
    var mappings := Extract(w, policy, chainId, ms).registry.mappings;
    if (chainId, proxy) in mappings {
      var i: nat :| LastSpelling(w, policy, chainId, ms, proxy, i) && mappings[(chainId, proxy)] == MappingFor(w, ms[i]);
      forall j: nat | LastSpelling(w, policy, chainId, ms, proxy, j) ensures j == i {
        LastSpellingUnique(w, policy, chainId, ms, proxy, i, j);
      }
    }
  }

  /** The proxy hop gives exactly the implementation declared and the body vouched for at its own address. */
  lemma ImplementationIsVouched(w: World, allow: SignerAllowlist, chainId: u64, ms: seq<Mapping>, proxy: Address,
                                implementation: Address, abi: JsonAbi)
    requires DistinctNames(ms)
    ensures Extract(w, RequireAllowlistedSigner(allow), chainId, ms).registry
            .GetImplementationAbi(chainId, proxy) == Some((implementation, abi)) <==>
            && Declares(w, RequireAllowlistedSigner(allow), chainId, ms, proxy, implementation)
            && Vouched(w, allow, chainId, ms, implementation, abi.json)
  {
    DeclaredLink(w, RequireAllowlistedSigner(allow), chainId, ms, proxy, implementation);
    ResolvedIsVouched(w, allow, chainId, ms, chainId, implementation, abi);
  }

  /** A signature speaks for one chain, one address and one body: no two share a preimage. */
  lemma AbiPreimageInjective(c: u64, a: Address, json: string, d: u64, b: Address, other: string)
    requires InMemory(json) && InMemory(other)
    requires AbiPreimage(c, a, json) == AbiPreimage(d, b, other)
    ensures c == d && a == b && json == other
  {
    PreimageInjective(EthereumAbi(c, a, Utf8(json)), EthereumAbi(d, b, Utf8(other)));
    Utf8Injective(json, other);
  }

  /** The signature verifies over both messages, under the key that travels with it, though they differ. */
  ghost predicate FitsTwo(w: World, signature: ProtoSignature, m: seq<byte>, n: seq<byte>) {
    var keyText, sig := Lookup(signature.metadata, "public_key"), w.decodeSignature(signature.value);
    && keyText.Some? && sig.Some?
    && var key := w.decodeKey(keyText.value);
    && key.Some?
    && m != n && w.verify(key.value, m, sig.value) && w.verify(key.value, n, sig.value)
  }

  /**
   A signature accepted for two chains, addresses or bodies, under any allowlists, is one that its key
   verifies over two different messages: nothing else in the layout lets it be replayed.
   */
  lemma SignatureNotReplayable(w: World, signature: ProtoSignature,
                               c: u64, a: Address, json: string, allow: Option<SignerAllowlist>,
                               d: u64, b: Address, other: string, also: Option<SignerAllowlist>)
    requires WithinLimit(json) && WithinLimit(other)
    requires ValidSignature(w, json, a, c, signature, allow) && ValidSignature(w, other, b, d, signature, also)
    ensures (c == d && a == b && json == other) || FitsTwo(w, signature, AbiPreimage(c, a, json), AbiPreimage(d, b, other))
  {
    if AbiPreimage(c, a, json) == AbiPreimage(d, b, other) { AbiPreimageInjective(c, a, json, d, b, other); }
  }

  // ----- Comparing two postures -----

  /** `loose` trusts at least what `strict` does. */
  predicate AtLeastAsLoose(strict: MetadataTrustPolicy, loose: MetadataTrustPolicy) {
    loose.AcceptUnsigned? || (strict.RequireAllowlistedSigner? && strict.allow <= loose.allow)
  }

  lemma AcceptedMonotone(w: World, strict: MetadataTrustPolicy, loose: MetadataTrustPolicy, chainId: u64, m: Mapping)
    requires AtLeastAsLoose(strict, loose)
    ensures Accepted(w, strict, chainId, m) ==> Accepted(w, loose, chainId, m)
  {
  }

  /** Loosening the posture never loses a name or an address. */
  lemma {:induction false} TrustMonotone(w: World, strict: MetadataTrustPolicy, loose: MetadataTrustPolicy, chainId: u64, ms: seq<Mapping>)
    requires AtLeastAsLoose(strict, loose)
    ensures var s, l := Extract(w, strict, chainId, ms).registry, Extract(w, loose, chainId, ms).registry;
            s.abis.Keys <= l.abis.Keys && s.mappings.Keys <= l.mappings.Keys
  {
    var s, l := Extract(w, strict, chainId, ms).registry, Extract(w, loose, chainId, ms).registry;
    forall name | name in s.abis ensures name in l.abis {
      RegisteredNames(w, strict, chainId, ms, name);
      RegisteredNames(w, loose, chainId, ms, name);
      var i :| 0 <= i < |ms| && ms[i].name == name && Accepted(w, strict, chainId, ms[i]);
      AcceptedMonotone(w, strict, loose, chainId, ms[i]);
    }
    forall key | key in s.mappings ensures key in l.mappings {
      MappedExactly(w, strict, chainId, ms, key.0, key.1);
      MappedExactly(w, loose, chainId, ms, key.0, key.1);
      var i: nat :| i < |ms| && Accepted(w, strict, chainId, ms[i]) && w.parseAddress(ms[i].name) == Some(key.1);
      AcceptedMonotone(w, strict, loose, chainId, ms[i]);
    }
  }

  /** No entry after `i` that spells `a` is accepted. */
  ghost predicate NotOverruled(w: World, policy: MetadataTrustPolicy, chainId: u64, ms: seq<Mapping>, a: Address, i: nat) {
    forall j :: i < j < |ms| && w.parseAddress(ms[j].name) == Some(a) ==> !Accepted(w, policy, chainId, ms[j])
  }

  /**
   An address that resolved under the strict posture keeps its mapping, exactly when the loose
   posture accepts no later spelling of it.
   */
  lemma MappingKept(w: World, strict: MetadataTrustPolicy, loose: MetadataTrustPolicy, chainId: u64, ms: seq<Mapping>,
                    a: Address, i: nat)
    requires AtLeastAsLoose(strict, loose) && DistinctNames(ms)
    requires LastSpelling(w, strict, chainId, ms, a, i)
    ensures var s, l := Extract(w, strict, chainId, ms).registry, Extract(w, loose, chainId, ms).registry;
            && (chainId, a) in s.mappings && (chainId, a) in l.mappings
            && (s.mappings[(chainId, a)] == l.mappings[(chainId, a)] <==> NotOverruled(w, loose, chainId, ms, a, i))
  {
    MappedExactly(w, strict, chainId, ms, chainId, a);
    MappedExactly(w, loose, chainId, ms, chainId, a);
    AcceptedMonotone(w, strict, loose, chainId, ms[i]);
    var s, l := Extract(w, strict, chainId, ms).registry, Extract(w, loose, chainId, ms).registry;
    var j: nat :| LastSpelling(w, strict, chainId, ms, a, j) && s.mappings[(chainId, a)] == MappingFor(w, ms[j]);
    LastSpellingUnique(w, strict, chainId, ms, a, i, j);
    var k: nat :| LastSpelling(w, loose, chainId, ms, a, k) && l.mappings[(chainId, a)] == MappingFor(w, ms[k]);
    assert k >= i;
    assert k == i <==> NotOverruled(w, loose, chainId, ms, a, i);
  }

  /** An address spelled once resolves to the same ABI once the posture is loosened. */
  lemma SpelledOnceKeepsResolution(w: World, strict: MetadataTrustPolicy, loose: MetadataTrustPolicy, chainId: u64,
                                   ms: seq<Mapping>, a: Address, abi: JsonAbi)
    requires AtLeastAsLoose(strict, loose) && DistinctNames(ms)
    requires forall i, j :: 0 <= i < j < |ms| && w.parseAddress(ms[i].name) == Some(a) ==>
                              w.parseAddress(ms[j].name) != Some(a)
    requires Extract(w, strict, chainId, ms).registry.GetAbiForAddress(chainId, a) == Some(abi)
    ensures Extract(w, loose, chainId, ms).registry.GetAbiForAddress(chainId, a) == Some(abi)
  {
    ResolutionExact(w, strict, chainId, ms, chainId, a, abi);
    ResolutionExact(w, loose, chainId, ms, chainId, a, abi);
    var i: nat :| LastSpelling(w, strict, chainId, ms, a, i) && abi == JsonAbi(ms[i].abi.value);
    AcceptedMonotone(w, strict, loose, chainId, ms[i]);
    assert LastSpelling(w, loose, chainId, ms, a, i);
  }

  /** A later spelling that only the looser posture accepts takes the address over. */
  lemma LaterSpellingTakesOver(w: World, strict: MetadataTrustPolicy, loose: MetadataTrustPolicy, chainId: u64,
                               first: Mapping, second: Mapping, a: Address)
    requires first.name != second.name
    requires w.parseAddress(first.name) == Some(a) == w.parseAddress(second.name)
    requires Accepted(w, strict, chainId, first) && !Accepted(w, strict, chainId, second)
    requires Accepted(w, loose, chainId, second)
    ensures Extract(w, strict, chainId, [first, second]).registry.GetAbiForAddress(chainId, a) == Some(JsonAbi(first.abi.value))
    ensures Extract(w, loose, chainId, [first, second]).registry.GetAbiForAddress(chainId, a) == Some(JsonAbi(second.abi.value))
  {
    var ms := [first, second];
    ResolutionExact(w, strict, chainId, ms, chainId, a, JsonAbi(first.abi.value));
    assert LastSpelling(w, strict, chainId, ms, a, 0);
    ResolutionExact(w, loose, chainId, ms, chainId, a, JsonAbi(second.abi.value));
    assert LastSpelling(w, loose, chainId, ms, a, 1);
  }

  // ----- Two spellings of one address -----

  const UpperSpelling: string := "0x" + seq(40, _ => 'A')

  const LowerSpelling: string := "0x" + seq(40, _ => 'a')

  const SpelledAddress: Address :=
    [0xAA, 0xAA, 0xAA, 0xAA, 0xAA, 0xAA, 0xAA, 0xAA, 0xAA, 0xAA,
     0xAA, 0xAA, 0xAA, 0xAA, 0xAA, 0xAA, 0xAA, 0xAA, 0xAA, 0xAA]

  const EmptyAbi: string := "[]"

  const FallbackAbi: string := "[{\"type\":\"fallback\",\"stateMutability\":\"payable\"}]"

  /** Canonical bytes of a public key, and a signature in DER form, with the texts they travel as. */
  const SignerPoint: seq<byte> :=
    [0x04,
     0x79, 0xBE, 0x66, 0x7E, 0xF9, 0xDC, 0xBB, 0xAC, 0x55, 0xA0, 0x62, 0x95, 0xCE, 0x87, 0x0B, 0x07,
     0x02, 0x9B, 0xFC, 0xDB, 0x2D, 0xCE, 0x28, 0xD9, 0x59, 0xF2, 0x81, 0x5B, 0x16, 0xF8, 0x17, 0x98,
     0x48, 0x3A, 0xDA, 0x77, 0x26, 0xA3, 0xC4, 0x65, 0x5D, 0xA4, 0xFB, 0xFC, 0x0E, 0x11, 0x08, 0xA8,
     0xFD, 0x17, 0xB4, 0x48, 0xA6, 0x85, 0x54, 0x19, 0x9C, 0x47, 0xD0, 0x8F, 0xFB, 0x10, 0xD4, 0xB8]

  const SignerText: string :=
    "0479be667ef9dcbbac55a06295ce870b07029bfcdb2dce28d959f2815b16f81798" +
    "483ada7726a3c4655da4fbfc0e1108a8fd17b448a68554199c47d08ffb10d4b8"

  const SignatureDer: seq<byte> := [0x30, 6, 2, 1, 1, 2, 1, 1]

  const SignatureText: string := "3006020101020101"

  /** The one signature that verifies: this key's, over the empty ABI at this address on chain 1. */
  predicate SampleVerify(key: seq<byte>, message: seq<byte>, sig: seq<byte>) {
    key == SignerPoint && sig == SignatureDer && message == SamplePreimage()
  }

  function SamplePreimage(): (bs: seq<byte>) {
    assert InMemory(EmptyAbi) by { ShortFits(EmptyAbi); }
    AbiPreimage(1, SpelledAddress, EmptyAbi)
  }

  /** Addresses are read as hexadecimal. */
  const SampleWorld: World :=
    World(ParseAddress,
          json => json == EmptyAbi || json == FallbackAbi,
          text => if text == SignatureText then Some(SignatureDer) else None,
          text => if text == SignerText then Some(SignerPoint) else None,
          SampleVerify)

  const SignedMapping: Mapping :=
    Mapping(UpperSpelling,
            Abi(EmptyAbi, Some(ProtoSignature(SignatureText, [("algorithm", "secp256k1"), ("public_key", SignerText)])), None, None))

  const UnsignedMapping: Mapping := Mapping(LowerSpelling, Abi(FallbackAbi, None, None, None))

  lemma SpellingParses(c: char)
    requires c == 'a' || c == 'A'
    ensures ParseAddress("0x" + seq(40, _ => c)) == Some(SpelledAddress)
  {
    var body := seq(40, _ => c);
    var s := "0x" + body;
    assert s[..2] == "0x" && s[2..] == body;
    assert forall i :: 0 <= i < 20 ==> Pair(body, i) == 0xAA;
    assert Unhex(body) == SpelledAddress;
  }

  lemma SpellingsInOrder()
    ensures Before(UpperSpelling, LowerSpelling) && UpperSpelling != LowerSpelling
  {
    var u, l := UpperSpelling, LowerSpelling;
    assert u[0] == l[0] && u[1..][0] == l[1..][0];
    assert u[1..][1..][0] == u[2] == 'A' && l[1..][1..][0] == l[2] == 'a';
  }

  lemma SignedMappingAccepted()
    ensures Accepted(SampleWorld, RequireAllowlistedSigner({SignerPoint}), 1, SignedMapping)
  {
    ShortFits(EmptyAbi);
    SpellingParses('A');
    var pairs := SignedMapping.abi.signature.value.metadata;
    assert pairs[1..][0] == ("public_key", SignerText);
    assert Lookup(pairs, "public_key") == Some(SignerText);
  }

  /**
   Two spellings of one address, in map order: require-signed shows the signed empty ABI, and
   accept-unsigned the unsigned one filed after it.
   */
  lemma LooseningRedirects()
    ensures var strict, ms := RequireAllowlistedSigner({SignerPoint}), [SignedMapping, UnsignedMapping];
            && Before(ms[0].name, ms[1].name)
            && AtLeastAsLoose(strict, AcceptUnsigned)
            && Extract(SampleWorld, strict, 1, ms).registry.GetAbiForAddress(1, SpelledAddress) == Some(JsonAbi(EmptyAbi))
            && Extract(SampleWorld, AcceptUnsigned, 1, ms).registry.GetAbiForAddress(1, SpelledAddress) == Some(JsonAbi(FallbackAbi))
            && EmptyAbi != FallbackAbi
  {
    SignedMappingAccepted();
    SpellingsInOrder();
    SpellingParses('A');
    SpellingParses('a');
    ShortFits(FallbackAbi);
    LaterSpellingTakesOver(SampleWorld, RequireAllowlistedSigner({SignerPoint}), AcceptUnsigned, 1,
                           SignedMapping, UnsignedMapping, SpelledAddress);
  }
}
