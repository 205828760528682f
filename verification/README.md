# VisualSign, verified

A Dafny model of the parts of VisualSign that decide what a wallet user signs and whose word is
taken for it, with proofs of what they promise. `dafny verify dfyconfig.toml` checks everything.

- **Signed bytes.** `Json`, `JsonText`, `JsonReader`, `Payload`, `Wire`, `Charset` and `SignedBytes` follow
  a payload from the field tree through sorted JSON to compact text and back. A JSON reader with tables of
  its own takes the text for the document, and the text determines the payload up to one explicit normal
  form, at any depth; the charset gate, which only scans escaped text, decides a property of the decoded
  strings.
- **Renderability.** `Render` walks the field tree as the wallet check does, `RenderReport` shows that
  its report is exactly the set of fields the wallet cannot render, and a function of the signed bytes.
- **Trust in caller ABIs.** `Signing` has the domain-separated preimages, `AbiMetadata` the extraction
  loop under the deploy-time posture, `AbiRegistry` the registry it fills, `AbiTrust` what a whole run
  guarantees. `Dispatch` and `DispatchSafety` carry that to the fields an Ethereum transaction is shown
  with. `EthAddress`, `AbiEntries`, `CliPlugin` and `CliTrust` show that what the command line builds
  and signs passes the posture it runs under.
- **Payment markers.** `PaymentMarker` is the Borsh codec and the request preimage.
- **Deploy tool.** `Template` is placeholder substitution, `Retention` the pruning of deployments.
- **Amounts.** `Units` is the wei printer.

`Wrappers`, `Texts`, `Decimals`, `Bytes` and `OrderedSeqs` hold what these share.

Code outside the model enters as a record of functions: `AbiMetadata.World` (address, ABI, key and
signature parsing, signature verification), `Dispatch.BuiltIns` (network tables, token tables, compiled-in
decoders) and `CliPlugin.Tools` (files, signing, network names). The results hold for every such record;
where they need a law of one, a named predicate states it (`EthAddress.ReadsHexAddresses`, which
`EthAddress.HexParserReads` shows a hexadecimal reader to meet, and `CliTrust.SignsFor`).

Where the code and its comments differ, the model follows the code:

- src/chain_parsers/visualsign-ethereum/src/lib.rs:273 and :505-512 say that metadata takes priority when
  the chain id is resolved; `resolve_chain_id` makes the transaction authoritative and refuses a mismatch.
- src/host_primitives/src/payment_marker.rs:130-145 asks for both lengths to stay below 2^32; the preimage
  is unique as soon as one of the two requests compared does.

## Model

| member | source | states |
|---|---|---|
| `Json.SortCanonicalForm` | src/visualsign/src/lib.rs:905-926 | two JSON values sort to the same value if and only if one is a reordering of the other's object members at any depth |
| `Json.SortIdempotent` | src/visualsign/src/lib.rs:905-926 | sorting a sorted value changes nothing |
| `Json.SortWellFormed` | src/visualsign/src/lib.rs:905-926 | sorting keeps every object's keys distinct and matched to its members |
| `Json.SortJsonAlphabetically` | src/visualsign/src/lib.rs:905-926 | the map-building walk computes the sorted value, whose keys are in alphabetical order at every depth |
| `Json.SortedExactly` | src/visualsign/src/lib.rs:905-926 | sorting leaves a value unchanged if and only if the keys of every object are in alphabetical order, by first differing character |
| `Json.VerifyJsonDeterministic` | src/visualsign/src/lib.rs:51-86 | accepts a value if and only if sorting leaves it unchanged, which is if and only if its keys are in alphabetical order at every depth |
| `JsonReader.EscapeCharRead` | src/visualsign/src/lib.rs:879-895 | whatever its escape is, a character reads back as itself by the escape table of section 7 of RFC 8259 |
| `JsonReader.EmitRead` | src/visualsign/src/lib.rs:879-895 | the text of a document, in front of any text that cannot extend a number, reads as that document and leaves that text |
| `JsonReader.ParsePrint` | src/visualsign/src/lib.rs:879-895 | the printed text of a document parses to that document |
| `JsonReader.EscapedPrefixFree` | src/visualsign/src/lib.rs:879-895 | an escaped string ends where its closing quote says, so text determines the string |
| `JsonReader.EmitPrefixFree` | src/visualsign/src/lib.rs:879-895 | no printed value is a proper prefix of another in a document |
| `JsonReader.PrintInjective` | src/visualsign/src/lib.rs:879-895 | compact text determines the JSON value |
| `Wire.SortPayloadDecode` | src/visualsign/src/lib.rs:96-222 | reading a payload does not depend on the order of object members |
| `Wire.ContentNames` | src/visualsign/src/lib.rs:130-222 | the member names written for field contents are the declared ones |
| `Wire.PayloadRoundTrip` | src/visualsign/src/lib.rs:249-326 | reading an encoded payload gives its normal form, and fails exactly when a string omitted for being empty has no default |
| `SignedBytes.SameBytesSameNormalForm` | src/visualsign/src/lib.rs:879-926 | two payloads have the same signed bytes if and only if their normal forms are equal |
| `SignedBytes.NormalFormCanonical` | src/visualsign/src/lib.rs:480-528 | the normal form has the same bytes and is its own normal form |
| `SignedBytes.SignedBytesReadBack` | src/visualsign/src/lib.rs:745-800 | the signed text, parsed as JSON and read by the declared field rules, gives the normal form, exactly when complete, and what is read has the same bytes |
| `SignedBytes.ToJsonText` | src/visualsign/src/lib.rs:879-895 | produces text that parses to a reordering of the payload's JSON with all keys in alphabetical order |
| `Charset.EmitClean` | src/visualsign/src/lib.rs:932-1000 | the escaped text is clean if and only if every decoded string is safe |
| `Charset.ScanText` | src/visualsign/src/lib.rs:932-1000 | the scan accepts exactly the clean texts |
| `SignedBytes.ValidateCharset` | src/visualsign/src/lib.rs:932-1000 | accepts exactly the payloads whose decoded strings hold only bytes 0x20-0x7E or newline and no backslash before u, t, r, b, f or a slash |
| `SignedBytes.ToValidatedJson` | src/visualsign/src/lib.rs:1005-1009 | the signed bytes, for exactly the payloads the gate accepts |
| `SignedBytes.NumberUnitRecovered` | src/visualsign/src/field_builders.rs:66-92 | the wire amount of a number field carries the unit it was built with if and only if the unit has no leading whitespace |
| `SignedBytes.FallbackText` | src/visualsign/src/field_builders.rs:66-92 | the fallback text of a number field is the number, with its unit one space behind it if it has one |
| `SignedBytes.NumberUnitRead` | src/visualsign/src/lib.rs:268-283 | the wire amount of any number field carries what stands behind the number and whitespace in its fallback text, and nothing if that text does not start with the number |
| `Render.CheckField` | src/visualsign/src/anchorage_render.rs:124-194 | appends the findings of one field and returns true exactly when there are none |
| `Render.CheckList` | src/visualsign/src/anchorage_render.rs:124-194 | appends the findings of a list in order and returns true exactly when there are none |
| `Render.AnchorageRenderFindings` | src/visualsign/src/anchorage_render.rs:95-101 | collects the findings of all top-level fields in order |
| `Render.WireTypeIsTag` | src/visualsign/src/anchorage_render.rs:198-207 | the type a finding names is the type on the wire |
| `RenderReport.PositionsExact` | src/visualsign/src/anchorage_render.rs:124-194 | a position is reported if and only if it leads to a field at or below which something is unrenderable |
| `RenderReport.PositionsInnermost` | src/visualsign/src/anchorage_render.rs:124-194 | positions are distinct and everything below a container comes before it |
| `RenderReport.PositionTextInjective` | src/visualsign/src/anchorage_render.rs:124-194 | a path text names one position only |
| `RenderReport.FindingsDescribed` | src/visualsign/src/anchorage_render.rs:210-221 | the findings of a field are those of its unrenderable positions, one by one |
| `RenderReport.ReportExact` | src/visualsign/src/anchorage_render.rs:95-101 | the report has one entry per unrenderable field, each spelling the field's path and carrying its label, its type on the wire and its reason, with pairwise distinct paths and descendants before containers |
| `RenderReport.FindingPaths` | src/visualsign/src/anchorage_render.rs:124-194 | an unrenderable field in the condensed or expanded list of a top-level field is reported with its label at `Fields[i].Condensed.Fields[j]` or `Fields[i].Expanded.Fields[j]`, and its container at `Fields[i]` |
| `RenderReport.NormalFindings` | src/visualsign/src/anchorage_render.rs:124-221 | a payload and its normal form have the same findings |
| `RenderReport.SameBytesSameFindings` | src/visualsign/src/anchorage_render.rs:124-221 | payloads with the same signed bytes have the same findings |
| `Signing.MetadataSigningPrehash` | src/visualsign/src/signing.rs:258-274 | the hasher absorbs exactly the four length-prefixed fields |
| `Signing.FramesInjective` | src/visualsign/src/signing.rs:258-274 | length-prefixed concatenation determines its fields, whatever they contain |
| `Signing.PreimageInjective` | src/visualsign/src/signing.rs:278-353 | no two artifacts of any of the five kinds share a preimage |
| `Signing.PreimageLayout` | src/visualsign/src/signing.rs:258-353 | a preimage reads as four length-prefixed fields: the domain text, the tag text of the kind, the scope (chain id big-endian and address, program id, or network and asset) and the body |
| `AbiRegistry.AbiRegistry.RegisterAbi` | src/chain_parsers/visualsign-ethereum/src/abi_registry.rs:98-108 | registers the body under its name if it parses, and otherwise changes nothing |
| `AbiRegistry.AbiRegistry.MapAddressWithType` | src/chain_parsers/visualsign-ethereum/src/abi_registry.rs:134-152 | overwrites the mapping of one chain and address and nothing else |
| `AbiMetadata.ExtractWithProvenance` | src/chain_parsers/visualsign-ethereum/src/abi_metadata.rs:132-248 | the loop with its early exits leaves the registry and count of the step-by-step definition, and no registry when nothing was accepted |
| `AbiTrust.AcceptedExactly` | src/chain_parsers/visualsign-ethereum/src/abi_metadata.rs:159-237 | an entry is accepted if and only if its name is an address, its body is at most one mebibyte and parses, and it is signed by an allowlisted key, or under accept-unsigned unsigned or signed by the key it names |
| `AbiTrust.ValidSignatureExact` | src/chain_parsers/visualsign-ethereum/src/abi_metadata.rs:362-433 | a signature is valid if and only if its first algorithm pair says secp256k1, its first public-key pair decodes to a key, the signature decodes and that key verifies it over chain, address and body, and the key is listed where a list is enforced |
| `AbiTrust.RequireSignedSelects` | src/chain_parsers/visualsign-ethereum/src/abi_metadata.rs:420-431 | require-signed extraction is accept-unsigned extraction of the entries that name an allowlisted key |
| `AbiTrust.RegisteredNames` | src/chain_parsers/visualsign-ethereum/src/abi_metadata.rs:159-237 | a name is registered if and only if an entry of that name was accepted |
| `AbiTrust.RegisteredBody` | src/chain_parsers/visualsign-ethereum/src/abi_metadata.rs:159-237 | every accepted entry's name holds that entry's own body at the end of the run |
| `AbiTrust.MappedExactly` | src/chain_parsers/visualsign-ethereum/src/abi_metadata.rs:159-237 | an address is mapped, at the request's chain only, if and only if an accepted entry spells it, and the last such entry decides |
| `AbiTrust.ResolutionExact` | src/chain_parsers/visualsign-ethereum/src/abi_registry.rs:163-168 | an address resolves to a body if and only if the last accepted entry that spells it has that body |
| `AbiTrust.UnverifiedCountExact` | src/chain_parsers/visualsign-ethereum/src/abi_metadata.rs:44-46 | after any run the count is the number of registered names under accept-unsigned and zero under require-signed |
| `AbiTrust.ResolvedIsVouched` | src/chain_parsers/visualsign-ethereum/src/abi_metadata.rs:132-248 | under require-signed, an address resolves to a body if and only if the entry that decides for it has that body and an allowlisted key's secp256k1 signature in that entry verifies over exactly that chain, address and body |
| `AbiTrust.KindExact` | src/chain_parsers/visualsign-ethereum/src/abi_metadata.rs:257-290 | an address counts as a proxy if and only if the entry that decides for it is typed as one, whatever its link |
| `AbiTrust.DeclaredLink` | src/chain_parsers/visualsign-ethereum/src/abi_metadata.rs:257-290 | an address is a proxy linked to an implementation if and only if the entry that decides for it is typed as a proxy and names that implementation |
| `AbiTrust.ImplementationIsVouched` | src/chain_parsers/visualsign-ethereum/src/abi_registry.rs:185-197 | under require-signed, the proxy hop gives an address and a body if and only if the proxy's deciding entry declares that address and that address's own deciding entry carries its valid signature over that body, for any chain or cycle of proxies |
| `AbiTrust.AbiPreimageInjective` | src/visualsign/src/signing.rs:278-284 | an ABI preimage determines chain, address and body text |
| `AbiTrust.SignatureNotReplayable` | src/chain_parsers/visualsign-ethereum/src/abi_metadata.rs:362-433 | a signature accepted for two different chains, addresses or bodies, under any allowlists, is one its own key verifies over two different messages |
| `AbiTrust.TrustMonotone` | src/visualsign/src/signing.rs:187-203 | enlarging the allowlist or accepting unsigned entries never removes a name or a mapped address |
| `AbiTrust.MappingKept` | src/chain_parsers/visualsign-ethereum/src/abi_registry.rs:134-166 | an address keeps its mapping under the looser posture if and only if that posture accepts no later spelling of it |
| `AbiTrust.SpelledOnceKeepsResolution` | src/chain_parsers/visualsign-ethereum/src/abi_registry.rs:134-166 | an address spelled once resolves to the same body under the looser posture |
| `AbiTrust.LaterSpellingTakesOver` | src/chain_parsers/visualsign-ethereum/src/abi_metadata.rs:159-237 | a later spelling that only the looser posture accepts redirects the address |
| `AbiTrust.LooseningRedirects` | src/chain_parsers/visualsign-ethereum/src/abi_metadata.rs:159-237 | the upper- and lower-case spellings of one address, in map order, signed with the empty ABI and unsigned with another, resolve to different bodies under the two postures |
| `Dispatch.ResolveChainId` | src/chain_parsers/visualsign-ethereum/src/lib.rs:463-482 | a resolved chain id equals the transaction's own whenever it has one, and the metadata's whenever that names one; it refuses exactly a mismatch, and a typed transaction when neither names a chain |
| `Dispatch.VisualizeWithAbiRegistry` | src/chain_parsers/visualsign-ethereum/src/lib.rs:572-613 | shows the implementation's decoding behind its address, else the destination's own, else raw bytes behind the unresolved address |
| `Dispatch.CalldataFields` | src/chain_parsers/visualsign-ethereum/src/lib.rs:746-847 | the gated appends produce the first explanation there is, in order of precedence |
| `Dispatch.HeaderFields` | src/chain_parsers/visualsign-ethereum/src/lib.rs:664-744 | the header fields in order, with the optional destination and priority fee |
| `Dispatch.ConvertToVisualSignPayload` | src/chain_parsers/visualsign-ethereum/src/lib.rs:653-858 | the payload is the header followed by the calldata explanation |
| `Dispatch.ConvertTransaction` | src/chain_parsers/visualsign-ethereum/src/lib.rs:257-285 | conversion at the resolved chain id with the registry extracted there, or the first applicable error |
| `DispatchSafety.CalldataShown` | src/chain_parsers/visualsign-ethereum/src/lib.rs:746-847 | there is a calldata field if and only if there is calldata |
| `DispatchSafety.RenderedTells` | src/chain_parsers/visualsign-ethereum/src/lib.rs:653-744 | every payload opens with network, destination, value, gas limit, price, priority fee and nonce in that order and under those captions, the value reading back at 18 decimals and the prices at 9 as the transaction has them, the numbers as decimals |
| `DispatchSafety.KnownTokenShown` | src/chain_parsers/visualsign-ethereum/src/lib.rs:529-558 | a known token's calldata is shown by the decoder of its own standard, or as raw bytes |
| `DispatchSafety.ProxyShown` | src/chain_parsers/visualsign-ethereum/src/lib.rs:572-651 | for a linked proxy, the implementation's address saying whether its ABI decoded the call, and the first decoding there is |
| `DispatchSafety.MetadataNamesChain` | src/chain_parsers/visualsign-ethereum/src/networks.rs:230-246 | metadata names a chain id if and only if it is Ethereum metadata whose network has that id |
| `DispatchSafety.OutOfReachExactly` | src/chain_parsers/visualsign-ethereum/src/lib.rs:746-847 | under a given posture, no metadata of a request shown at a chain can put a field of its own in the calldata if and only if there is no calldata, no destination, a protocol decoder reads it, the destination is a known token, no Ethereum metadata resolves to that chain, or the posture accepts no entry for the destination there |
| `DispatchSafety.AcceptableUnsigned` | src/chain_parsers/visualsign-ethereum/src/abi_metadata.rs:159-237 | accept-unsigned accepts some entry for an address if and only if some text parses to it and some body fits the limit and parses |
| `DispatchSafety.KnownTokenLocksOut` | src/chain_parsers/visualsign-ethereum/src/lib.rs:529-558 | for a known token, any two caller registries and either transfer setting give the same payload but for the badge of the destination |
| `DispatchSafety.CallerFieldsVouched` | src/chain_parsers/visualsign-ethereum/src/lib.rs:572-613 | under require-signed, a field decoded from a caller ABI, or an implementation address shown, rests on an entry whose own signature verified under an allowlisted key for the resolved chain and that address, which is the destination or the one implementation its deciding entry declares |
| `DispatchSafety.SourcesHonest` | src/chain_parsers/visualsign-ethereum/src/lib.rs:746-847 | under any registry, each calldata field is what its recorded source says: a built-in decoding or raw bytes, an implementation address, or that ABI's decoding of the call |
| `DispatchSafety.ConvertedSafely` | src/chain_parsers/visualsign-ethereum/src/lib.rs:257-285 | in every payload a require-signed deployment produces, each calldata field is a built-in decoding or rests on such an entry, at the transaction's own chain when it names one; that an implementation belongs to the destination is the declaration of the destination's signed entry, which the signature does not cover |
| `DispatchSafety.SameBytesSameTransaction` | src/chain_parsers/visualsign-ethereum/src/lib.rs:653-744 | transactions with the same signed bytes show the same network and destination and have equal value, gas limit, gas price, priority fee and nonce |
| `EthAddress.NormalizedStable` | src/chain_parsers/visualsign-ethereum/src/cli_plugin.rs:74-96 | a normalised address is valid and normalising it again changes nothing |
| `EthAddress.ValidExactly` | src/chain_parsers/visualsign-ethereum/src/cli_plugin.rs:74-86 | an address is valid if and only if it is `0x` or `0X` and forty hexadecimal digits |
| `EthAddress.NormalizedExactly` | src/chain_parsers/visualsign-ethereum/src/cli_plugin.rs:92-96 | normalising keeps the digits, in lower case, behind `0x` |
| `EthAddress.AddressIsNumber` | src/chain_parsers/visualsign-ethereum/src/cli_plugin.rs:88-96 | forty digits read as the twenty bytes of the number they denote |
| `EthAddress.HexParserReads` | src/chain_parsers/visualsign-ethereum/src/cli_plugin.rs:88-96 | a hexadecimal reader reads an address and its normalised form alike, and no two normalised forms alike |
| `CliPlugin.ParseMappingExact` | src/parser/cli-core/src/mapping_parser.rs:21-41 | a mapping string parses to exactly the non-empty components it is the joining of, colons allowed in the path only |
| `CliPlugin.LoadMappings` | src/parser/cli-core/src/mapping_parser.rs:82-149 | the loaded map holds the last entry per identifier, and the count is its size |
| `CliPlugin.BuildAbiMappingsFromFiles` | src/chain_parsers/visualsign-ethereum/src/cli_plugin.rs:108-161 | the loaded entries under normalised keys, in key order |
| `CliPlugin.ApplyProxyMappings` | src/chain_parsers/visualsign-ethereum/src/cli_plugin.rs:177-273 | applies the links one by one to the map in place |
| `CliPlugin.CreateChainMetadata` | src/chain_parsers/visualsign-ethereum/src/cli_plugin.rs:282-345 | the metadata of the network with all entries, or the network error |
| `CliTrust.MetadataNetwork` | src/chain_parsers/visualsign-ethereum/src/cli_plugin.rs:282-304 | without a network the metadata is that of mainnet, an unknown one is refused, and otherwise the metadata names it as the table does |
| `CliTrust.LoadedEntryExact` | src/parser/cli-core/src/mapping_parser.rs:82-176 | a mapping string loads an entry if and only if its components are as parsed, its address is valid, and its file is JSON of at most ten mebibytes that could be signed for that address and chain |
| `CliTrust.FileEntriesExact` | src/chain_parsers/visualsign-ethereum/src/cli_plugin.rs:108-161 | an address gets the last file given for the last of its loaded spellings in text order, and nothing else |
| `CliTrust.ParseLinkExact` | src/chain_parsers/visualsign-ethereum/src/cli_plugin.rs:193-218 | a link is well formed if and only if it is two valid addresses with a colon between them, the proxy first |
| `CliTrust.LinksExact` | src/chain_parsers/visualsign-ethereum/src/cli_plugin.rs:177-273 | each entry after linking: unchanged without a link, else the file's body and signature or the signed body `[]`, typed as a proxy and naming the implementation of the last well-formed link of that proxy |
| `CliTrust.FileBodiesKept` | src/chain_parsers/visualsign-ethereum/src/cli_plugin.rs:177-273 | links never change a loaded body or its signature |
| `CliTrust.CliEntriesGood` | src/chain_parsers/visualsign-ethereum/src/cli_plugin.rs:88-161 | every entry has a normalised key, once, and a signature made for that key and chain |
| `CliTrust.SignedAccepted` | src/chain_parsers/visualsign-ethereum/src/abi_metadata.rs:544-608 | a signed entry passes require-signed if and only if its body fits the size limit and parses |
| `CliTrust.CliSurvivesItsPolicy` | src/chain_parsers/visualsign-ethereum/src/cli_plugin.rs:48-61 | extraction loses exactly the entries whose body does not fit or parse; every other is registered and decides for its address, and none is counted unverified |
| `CliTrust.CliRequestDecodes` | src/chain_parsers/visualsign-ethereum/src/cli_plugin.rs:282-345 | a transaction of that network, or without a chain id, resolves to the chain the entries were signed for and gets all of them that fit and parse |
| `PaymentMarker.MarkerCodecExact` | src/host_primitives/src/payment_marker.rs:35-110 | a byte string decodes to a marker if and only if it is that marker's encoding |
| `PaymentMarker.MarkerRoundTrip` | src/host_primitives/src/payment_marker.rs:35-110 | every marker that serializes reads back, and no other marker has its bytes |
| `PaymentMarker.RequestHash` | src/host_primitives/src/payment_marker.rs:146-161 | the buffer holds the fields behind their 32-bit lengths |
| `PaymentMarker.RequestRead` | src/host_primitives/src/payment_marker.rs:146-161 | a preimage with both lengths below 2^32 reads back as its request: a signed chain number, the two length-prefixed inputs and a flag of 0 or 1 |
| `PaymentMarker.RequestPreimageShared` | src/host_primitives/src/payment_marker.rs:130-161 | for a request of any size, another request has its preimage if and only if payload, second length and metadata can be read with the payload ending elsewhere: at a place a multiple of 2^32 away, where the same length bytes stand, behind well-formed UTF-8 |
| `PaymentMarker.RequestPreimageUnique` | src/host_primitives/src/payment_marker.rs:130-161 | the preimage of a request with both lengths below 2^32 belongs to no other request of any size |
| `PaymentMarker.RequestPreimageWraps` | src/host_primitives/src/payment_marker.rs:130-161 | 2^32 zero bytes have one preimage as payload and as metadata |
| `Template.FindPlaceholders` | tools/tvc-deploy/src/invite.rs:907-919 | lists the names between double braces, left to right |
| `Template.RenderTemplate` | tools/tvc-deploy/src/invite.rs:921-927 | replaces the tokens one variable after the other, in the given order |
| `Template.RenderedFills` | tools/tvc-deploy/src/invite.rs:921-927 | replacing some variables leaves the overall substitution unchanged and exactly the other placeholders to fill |
| `Template.RenderIsSubstitution` | tools/tvc-deploy/src/invite.rs:921-927 | with brace-free names and values and no value missing, every order renders the simultaneous substitution and leaves no placeholder |
| `Template.BracesMakeOrderMatter` | tools/tvc-deploy/src/invite.rs:921-927 | for any two brace-free names, a value ending in the beginning of the other's token, in front of the rest of it, renders differently in the two orders: the completed token is replaced in one and left in the other |
| `Template.LoaderDependsOnOrder` | tools/tvc-deploy/src/invite.rs:945-968 | the loader accepts the first of those orders and refuses the second |
| `Template.LoaderAcceptsBoth` | tools/tvc-deploy/src/invite.rs:945-968 | for any brace-free name, a template in triple braces with the name and the braced name as variables is accepted in both orders, with two different texts |
| `Template.LoadTemplate` | tools/tvc-deploy/src/invite.rs:945-968 | reports exactly the names without a value, else exactly the placeholders left over, else the rendered text |
| `Retention.ParseDeployments` | tools/tvc-deploy/src/invite.rs:1394-1420 | every listed id, flagged live when the last header targets it |
| `Retention.LinesExact` | tools/tvc-deploy/src/invite.rs:1397-1397 | the lines of a text are what stands between its line breaks |
| `Retention.ParseRowExact` | tools/tvc-deploy/src/invite.rs:1398-1413 | a trimmed line starting with `Targeted Deployment:` is a header naming the rest, one starting with `Deployment:` lists the rest unless it is blank, and nothing else does either |
| `Retention.SelectForDeletion` | tools/tvc-deploy/src/invite.rs:1448-1465 | the running rank selects the non-live deployments beyond the first `keep` |
| `Retention.SubmitDeletions` | tools/tvc-deploy/src/invite.rs:1649-1657 | refuses if and only if the live deployment is among the deletions |
| `Retention.Prune` | tools/tvc-deploy/src/invite.rs:1567-1660 | submits exactly the plan; the guard on the live deployment never fires |
| `Retention.PlanExact` | tools/tvc-deploy/src/invite.rs:1434-1465 | for any listing, repeated ids included, a deployment is deleted if and only if it is listed, dated, not live, and more than `keep` dated rows that are not live were not created before it, ties decided by alphabetical order of ids |
| `Retention.PrunedExactly` | tools/tvc-deploy/src/invite.rs:1567-1605 | the same from the lines of the status text: listed on a line of its own, and not named by the last header |
| `Retention.PlanExactDistinct` | tools/tvc-deploy/src/invite.rs:1434-1465 | where each id is listed once, that means at least `keep` younger deployments that are not live |
| `Retention.KeptAreNewer` | tools/tvc-deploy/src/invite.rs:1434-1465 | every dated deployment that is kept and not live was created after every deleted one, or at the same time with the alphabetically greater id |
| `Retention.ProtectedSurvive` | tools/tvc-deploy/src/invite.rs:1582-1605 | live and undated deployments are never deleted |
| `Retention.ParsedOneLive` | tools/tvc-deploy/src/invite.rs:1394-1420 | whatever the status text, all live flags name one deployment |
| `Retention.PlanOrderFree` | tools/tvc-deploy/src/invite.rs:1582-1605 | listings of the same rows in any order have the same plan |
| `Units.PrintedShape` | src/chain_parsers/visualsign-ethereum/src/fmt.rs:2-8 | the printed amount is the integer part and the significant fraction digits, if any |
| `Units.PrintedReadsBack` | src/chain_parsers/visualsign-ethereum/src/fmt.rs:2-17 | the printed amount reads back as the same amount |
| `Units.PrintedInjective` | src/chain_parsers/visualsign-ethereum/src/fmt.rs:2-17 | different amounts print differently |
| `Units.PrintedWellFormed` | src/visualsign/src/field_builders.rs:27-64 | the printed amount satisfies the number grammar, without a redundant zero or dot and without losing an integer digit |
| `Units.EtherAndGweiExact` | src/chain_parsers/visualsign-ethereum/src/fmt.rs:11-17 | ether and gwei texts read back to the last wei and are equal only for equal amounts |

## Left out

- SHA-256, secp256k1 and DER or SEC1 decoding: the results are about preimages, with verification as an arbitrary function.
- RLP, JSON-ABI parsing and calldata decoding, the contract registry and the ERC and Uniswap visualizers: arbitrary functions of their inputs.
- JSON numbers other than the unsigned integers a payload can hold, and pretty printing.
- Wire.PayloadRoundTrip: reads objects only; the positional-array form that serde also accepts for structs is not modelled.
- Units.PrintedReadsBack: `format_units` belongs to a library and is taken as integer part, dot and zero-padded fraction; its failure branch is not modelled.
- CliPlugin.LoadMappings: a path always reads as the same content during one invocation; diagnostics printed along the way are not modelled.
- CliPlugin.ApplyProxyMappings: the set of attempted addresses only selects a warning and is not modelled.
- Retention.Prune: the listing, dates and deletions are values; confirmation, dry runs and the network are not modelled, and the library's in-place sort is the ordered insertion of `OrderedSeqs.Sort`.
- Template.LoadTemplate: the JSON parsing of the rendered policies is not modelled, and the order in which the variable map is walked is a parameter.
- CliTrust.CliSurvivesItsPolicy: assumes that the development key is allowlisted and that what it signs verifies, as `SignsFor` states.
- The network and chain-id tables, severity tables and other finite lookups.
- Solana, NEAR and the other chain parsers, gateways, metrics and health services.
- The wording of errors and log messages.
