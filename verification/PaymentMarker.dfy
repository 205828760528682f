/**
 The signed payment marker on the wire and the request preimage it is bound to
 (src/host_primitives/src/payment_marker.rs).

 The Borsh layout: little-endian integers, raw fixed-size arrays, strings and byte vectors
 behind a 4-byte length, enum variants behind a 1-byte index.
 */
module PaymentMarker {
  import opened Wrappers
  import opened Bytes

  type u32 = n: nat | n < 0x1_0000_0000
  type u64 = n: nat | n < 0x1_0000_0000_0000_0000
  type i32 = n: int | -0x8000_0000 <= n < 0x8000_0000

  type Hash32 = s: seq<byte> | |s| == 32 witness seq(32, _ => 0)

  datatype PaymentDetails = X402Direct(txid: string, payer: string, payTo: string, amount: string,
                                       mint: string, xPaymentHash: Hash32, network: string)

  datatype VerifiedPaymentMarker = VerifiedPaymentMarker(
    version: u32, requestHash: Hash32, details: PaymentDetails, settledAtMs: u64, gatewayPubkeyHex: string)

  datatype SignedMarker = SignedMarker(vpm: VerifiedPaymentMarker, signature: seq<byte>)

  // ----- Writing: each writer puts its value in front of what follows -----

  /** Lengths are written as `u32`; anything longer cannot be serialized. */
  predicate FitsLength(bs: seq<byte>) {
    |bs| < 0x1_0000_0000
  }

  predicate FitsText(s: string) {
    FitsLength(Utf8(s))
  }

  predicate FitsDetails(d: PaymentDetails) {
    && FitsText(d.txid) && FitsText(d.payer) && FitsText(d.payTo) && FitsText(d.amount)
    && FitsText(d.mint) && FitsText(d.network)
  }

  predicate Fits(m: SignedMarker) {
    FitsDetails(m.vpm.details) && FitsText(m.vpm.gatewayPubkeyHex) && FitsLength(m.signature)
  }

  function WriteBytes(bs: seq<byte>, rest: seq<byte>): (r: seq<byte>) {
    LittleEndian(|bs|, 4) + (bs + rest)
  }

  function WriteText(s: string, rest: seq<byte>): (r: seq<byte>) {
    WriteBytes(Utf8(s), rest)
  }

  function WriteDetails(d: PaymentDetails, rest: seq<byte>): (r: seq<byte>) {
    [0] + WriteText(d.txid, WriteText(d.payer, WriteText(d.payTo, WriteText(d.amount,
                                                                            WriteText(d.mint, d.xPaymentHash + WriteText(d.network, rest))))))
  }

  function WriteMarker(m: VerifiedPaymentMarker, rest: seq<byte>): (r: seq<byte>) {
    LittleEndian(m.version, 4) + (m.requestHash + WriteDetails(m.details,
                                                               LittleEndian(m.settledAtMs, 8) + WriteText(m.gatewayPubkeyHex, rest)))
  }

  function ToVec(m: SignedMarker): (r: Option<seq<byte>>) {
    if Fits(m) then Some(WriteMarker(m.vpm, WriteBytes(m.signature, []))) else None
  }

  // ----- Reading: each reader gives its value and what follows -----

  function Take(bs: seq<byte>, n: nat): (r: Option<(seq<byte>, seq<byte>)>) {
    if n <= |bs| then Some((bs[..n], bs[n..])) else None
  }

  function ReadInt(bs: seq<byte>, w: nat): (r: Option<(nat, seq<byte>)>) {
    var (head, rest) :- Take(bs, w);
    Some((FromLittleEndian(head), rest))
  }

  function ReadBytes(bs: seq<byte>): (r: Option<(seq<byte>, seq<byte>)>) {
    var (n, rest) :- ReadInt(bs, 4);
    Take(rest, n)
  }

  function ReadText(bs: seq<byte>): (r: Option<(string, seq<byte>)>) {
    var (raw, rest) :- ReadBytes(bs);
    var s :- FromUtf8(raw);
    Some((s, rest))
  }

  function ReadDetails(bs: seq<byte>): (r: Option<(PaymentDetails, seq<byte>)>) {
    var (variant, r0) :- Take(bs, 1);
    if variant != [0] then None
    else
      var (txid, r1) :- ReadText(r0);
      var (payer, r2) :- ReadText(r1);
      var (payTo, r3) :- ReadText(r2);
      var (amount, r4) :- ReadText(r3);
      var (mint, r5) :- ReadText(r4);
      var (hash, r6) :- Take(r5, 32);
      var (network, r7) :- ReadText(r6);
      Some((X402Direct(txid, payer, payTo, amount, mint, hash, network), r7))
  }

  function ReadMarker(bs: seq<byte>): (r: Option<(VerifiedPaymentMarker, seq<byte>)>) {
    var (version, r1) :- ReadInt(bs, 4);
    var (hash, r2) :- Take(r1, 32);
    var (details, r3) :- ReadDetails(r2);
    var (settledAtMs, r4) :- ReadInt(r3, 8);
    var (key, r5) :- ReadText(r4);
    if version < 0x1_0000_0000 && settledAtMs < 0x1_0000_0000_0000_0000
    then Some((VerifiedPaymentMarker(version, hash, details, settledAtMs, key), r5)) else None
  }

  /** `try_from_slice`: the whole input must be used up. */
  function TryFromSlice(bs: seq<byte>): (r: Option<SignedMarker>) {
    var (vpm, rest) :- ReadMarker(bs);
    var (signature, left) :- ReadBytes(rest);
    if left == [] then Some(SignedMarker(vpm, signature)) else None
  }

  // ----- Readers accept exactly what the writers produce -----

  lemma TakeExact(bs: seq<byte>, head: seq<byte>, rest: seq<byte>)
    ensures Take(bs, |head|) == Some((head, rest)) <==> bs == head + rest
  {
    if bs == head + rest { assert bs[..|head|] == head && bs[|head|..] == rest; }
    if Take(bs, |head|) == Some((head, rest)) { assert bs == bs[..|head|] + bs[|head|..]; }
  }

  lemma ReadIntExact(bs: seq<byte>, w: nat, n: nat, rest: seq<byte>)
    ensures ReadInt(bs, w) == Some((n, rest)) <==> n < Power256(w) && bs == LittleEndian(n, w) + rest
  {
    if w <= |bs| {
      var head := bs[..w];
      FromLittleEndianBound(head);
      LittleEndianOfFrom(head);
      assert bs == head + bs[w..];
    }
    if n < Power256(w) && bs == LittleEndian(n, w) + rest {
      FromOfLittleEndian(n, w);
      TakeExact(bs, LittleEndian(n, w), rest);
    }
  }

  lemma ReadBytesExact(bs: seq<byte>, x: seq<byte>, rest: seq<byte>)
    ensures ReadBytes(bs) == Some((x, rest)) <==> FitsLength(x) && bs == WriteBytes(x, rest)
  {
    Power256Values();
    var len := ReadInt(bs, 4);
    if len.Some? { ReadIntExact(bs, 4, len.value.0, len.value.1); }
    if ReadBytes(bs) == Some((x, rest)) { TakeExact(len.value.1, x, rest); }
    if FitsLength(x) && bs == WriteBytes(x, rest) {
      ReadIntExact(bs, 4, |x|, x + rest);
      TakeExact(x + rest, x, rest);
    }
  }

  lemma ReadTextExact(bs: seq<byte>, s: string, rest: seq<byte>)
    ensures ReadText(bs) == Some((s, rest)) <==> FitsText(s) && bs == WriteText(s, rest)
  {
    FromUtf8OfUtf8(s);
    var raw := ReadBytes(bs);
    if raw.Some? {
      ReadBytesExact(bs, raw.value.0, raw.value.1);
      if FromUtf8(raw.value.0).Some? { Utf8OfFromUtf8(raw.value.0); }
    }
    ReadBytesExact(bs, Utf8(s), rest);
  }

  lemma DetailsReadBack(d: PaymentDetails, rest: seq<byte>)
    requires FitsDetails(d)
    ensures ReadDetails(WriteDetails(d, rest)) == Some((d, rest))
  {
    var r7 := rest;
    var r6 := WriteText(d.network, r7);
    var r5 := d.xPaymentHash + r6;
    var r4 := WriteText(d.mint, r5);
    var r3 := WriteText(d.amount, r4);
    var r2 := WriteText(d.payTo, r3);
    var r1 := WriteText(d.payer, r2);
    var r0 := WriteText(d.txid, r1);
    TakeExact([0] + r0, [0], r0);
    ReadTextExact(r0, d.txid, r1);
    ReadTextExact(r1, d.payer, r2);
    ReadTextExact(r2, d.payTo, r3);
    ReadTextExact(r3, d.amount, r4);
    ReadTextExact(r4, d.mint, r5);
    TakeExact(r5, d.xPaymentHash, r6);
    ReadTextExact(r6, d.network, r7);
  }

  lemma DetailsUnique(bs: seq<byte>)
    requires ReadDetails(bs).Some?
    ensures var (d, rest) := ReadDetails(bs).value; FitsDetails(d) && bs == WriteDetails(d, rest)
  {
    var (d, r7) := ReadDetails(bs).value;
    var r0 := Take(bs, 1).value.1;
    var r1 := ReadText(r0).value.1;
    var r2 := ReadText(r1).value.1;
    var r3 := ReadText(r2).value.1;
    var r4 := ReadText(r3).value.1;
    var r5 := ReadText(r4).value.1;
    var r6 := Take(r5, 32).value.1;
    TakeExact(bs, [0], r0);
    ReadTextExact(r0, d.txid, r1);
    ReadTextExact(r1, d.payer, r2);
    ReadTextExact(r2, d.payTo, r3);
    ReadTextExact(r3, d.amount, r4);
    ReadTextExact(r4, d.mint, r5);
    TakeExact(r5, d.xPaymentHash, r6);
    ReadTextExact(r6, d.network, r7);
  }

  lemma MarkerReadBack(m: VerifiedPaymentMarker, rest: seq<byte>)
    requires FitsDetails(m.details) && FitsText(m.gatewayPubkeyHex)
    ensures ReadMarker(WriteMarker(m, rest)) == Some((m, rest))
  {
    Power256Values();
    var r4 := WriteText(m.gatewayPubkeyHex, rest);
    var r3 := LittleEndian(m.settledAtMs, 8) + r4;
    var r2 := WriteDetails(m.details, r3);
    var r1 := m.requestHash + r2;
    ReadIntExact(LittleEndian(m.version, 4) + r1, 4, m.version, r1);
    TakeExact(r1, m.requestHash, r2);
    DetailsReadBack(m.details, r3);
    ReadIntExact(r3, 8, m.settledAtMs, r4);
    ReadTextExact(r4, m.gatewayPubkeyHex, rest);
  }

  lemma MarkerUnique(bs: seq<byte>)
    requires ReadMarker(bs).Some?
    ensures var (m, rest) := ReadMarker(bs).value;
            FitsDetails(m.details) && FitsText(m.gatewayPubkeyHex) && bs == WriteMarker(m, rest)
  {
    var (m, r5) := ReadMarker(bs).value;
    var r1 := ReadInt(bs, 4).value.1;
    var r2 := Take(r1, 32).value.1;
    var r3 := ReadDetails(r2).value.1;
    var r4 := ReadInt(r3, 8).value.1;
    ReadIntExact(bs, 4, m.version, r1);
    TakeExact(r1, m.requestHash, r2);
    DetailsUnique(r2);
    ReadIntExact(r3, 8, m.settledAtMs, r4);
    ReadTextExact(r4, m.gatewayPubkeyHex, r5);
  }

  lemma SignedReadBack(m: SignedMarker)
    requires Fits(m)
    ensures TryFromSlice(ToVec(m).value) == Some(m)
  {
    MarkerReadBack(m.vpm, WriteBytes(m.signature, []));
    ReadBytesExact(WriteBytes(m.signature, []), m.signature, []);
  }

  lemma SignedUnique(bs: seq<byte>)
    ensures TryFromSlice(bs).Some? ==> ToVec(TryFromSlice(bs).value) == Some(bs)
  {
    if TryFromSlice(bs).Some? {
      MarkerUnique(bs);
      ReadBytesExact(ReadMarker(bs).value.1, TryFromSlice(bs).value.signature, []);
    }
  }

  /** Decoding accepts a byte string exactly when it is the encoding of what it returns. */
  lemma MarkerCodecExact(bs: seq<byte>, m: SignedMarker)
    ensures TryFromSlice(bs) == Some(m) <==> ToVec(m) == Some(bs)
  {
    SignedUnique(bs);
    if Fits(m) { SignedReadBack(m); }
  }

  /** Every marker that serializes reads back, and its bytes are those of no other marker. */
  lemma MarkerRoundTrip(m: SignedMarker, other: SignedMarker)
    ensures Fits(m) ==> TryFromSlice(ToVec(m).value) == Some(m)
    ensures Fits(m) && ToVec(m) == ToVec(other) ==> m == other
  {
    if Fits(m) {
      MarkerCodecExact(ToVec(m).value, m);
      MarkerCodecExact(ToVec(m).value, other);
    }
  }

  // ----- The request a marker is bound to -----

  datatype Request = Request(chain: i32, unsignedPayload: string, chainMetadata: seq<byte>,
                             includeIntermediateOutput: bool)

  function TwosComplement(n: i32): (r: u32) {
    if n < 0 then n + 0x1_0000_0000 else n
  }

  /** `as u32` keeps the low 32 bits of a length. */
  function LengthPrefix(bs: seq<byte>): (r: seq<byte>)
    ensures |r| == 4
  {
    LittleEndian(|bs| % 0x1_0000_0000, 4)
  }

  function RequestPreimage(r: Request): (bs: seq<byte>) {
    var payload := Utf8(r.unsignedPayload);
    LittleEndian(TwosComplement(r.chain), 4) + (LengthPrefix(payload) + (payload +
                                                                         (LengthPrefix(r.chainMetadata) + (r.chainMetadata + Flag(r.includeIntermediateOutput)))))
  }

  method RequestHash(r: Request) returns (buf: seq<byte>)
    ensures buf == RequestPreimage(r)
  {
    var payload := Utf8(r.unsignedPayload);
    buf := [];
    buf := buf + LittleEndian(TwosComplement(r.chain), 4);
    buf := buf + LengthPrefix(payload);
    buf := buf + payload;
    buf := buf + LengthPrefix(r.chainMetadata);
    buf := buf + r.chainMetadata;
    buf := buf + Flag(r.includeIntermediateOutput);
  }

  /** The request that a preimage spells, its first four bytes a signed number and its last a flag. */
  function ReadRequest(bs: seq<byte>): (r: Option<Request>) {
    var (n, r1) :- ReadInt(bs, 4);
    var (payload, r2) :- ReadText(r1);
    var (metadata, r3) :- ReadBytes(r2);
    if n >= 0x1_0000_0000 || (r3 != [0] && r3 != [1]) then None
    else Some(Request(if n < 0x8000_0000 then n else n - 0x1_0000_0000, payload, metadata, r3 == [1]))
  }

  lemma PrefixInBounds(bs: seq<byte>, rest: seq<byte>)
    requires FitsLength(bs)
    ensures LengthPrefix(bs) + (bs + rest) == WriteBytes(bs, rest)
  {
  }

  lemma AssembledRequest(bs: seq<byte>, r: Request, r1: seq<byte>, r2: seq<byte>)
    requires ReadInt(bs, 4) == Some((TwosComplement(r.chain), r1))
    requires ReadText(r1) == Some((r.unsignedPayload, r2))
    requires ReadBytes(r2) == Some((r.chainMetadata, Flag(r.includeIntermediateOutput)))
    ensures ReadRequest(bs) == Some(r)
  {
  }

  /** A preimage within the bound reads back as its request. */
  lemma RequestRead(r: Request)
    requires InBounds(r)
    ensures ReadRequest(RequestPreimage(r)) == Some(r)
  {
    var last := Flag(r.includeIntermediateOutput);
    var r2 := WriteBytes(r.chainMetadata, last);
    var r1 := WriteText(r.unsignedPayload, r2);
    Power256Values();
    PrefixInBounds(r.chainMetadata, last);
    PrefixInBounds(Utf8(r.unsignedPayload), r2);
    ReadIntExact(RequestPreimage(r), 4, TwosComplement(r.chain), r1);
    ReadTextExact(r1, r.unsignedPayload, r2);
    ReadBytesExact(r2, r.chainMetadata, last);
    AssembledRequest(RequestPreimage(r), r, r1, r2);
  }

  /** Both variable-length inputs are below 2^32 bytes. */
  predicate InBounds(r: Request) {
    FitsText(r.unsignedPayload) && FitsLength(r.chainMetadata)
  }

  lemma SameLength(a: seq<byte>, b: seq<byte>)
    requires LengthPrefix(a) == LengthPrefix(b)
    ensures |a| % 0x1_0000_0000 == |b| % 0x1_0000_0000
  {
    Power256Values();
    LittleEndianInjective(|a| % 0x1_0000_0000, |b| % 0x1_0000_0000, 4);
  }

  lemma SameChain(m: i32, n: i32)
    requires LittleEndian(TwosComplement(m), 4) == LittleEndian(TwosComplement(n), 4)
    ensures m == n
  {
    Power256Values();
    LittleEndianInjective(TwosComplement(m), TwosComplement(n), 4);
  }

  function Flag(b: bool): (bs: seq<byte>) {
    [if b then 1 else 0]
  }

  /** The two variable-length inputs with the second length between them. */
  function Framed(p: seq<byte>, m: seq<byte>): (bs: seq<byte>)
    ensures |bs| == |p| + 4 + |m|
  {
    p + (LengthPrefix(m) + m)
  }

  lemma FramedTail(p: seq<byte>, m: seq<byte>, f: seq<byte>)
    ensures p + (LengthPrefix(m) + (m + f)) == Framed(p, m) + f
  {
  }

  lemma FramedParts(p: seq<byte>, m: seq<byte>)
    ensures Framed(p, m)[..|p|] == p && Framed(p, m)[|p|..|p| + 4] == LengthPrefix(m) && Framed(p, m)[|p| + 4..] == m
  {
  }

  /** Equal preimages: the same chain, flag, first length and framed bytes. */
  ghost predicate Alike(a: Request, b: Request) {
    var p, q := Utf8(a.unsignedPayload), Utf8(b.unsignedPayload);
    && a.chain == b.chain
    && a.includeIntermediateOutput == b.includeIntermediateOutput
    && LengthPrefix(p) == LengthPrefix(q)
    && Framed(p, a.chainMetadata) == Framed(q, b.chainMetadata)
  }

  lemma SamePreimage(a: Request, b: Request)
    ensures RequestPreimage(a) == RequestPreimage(b) <==> Alike(a, b)
  {
    var p, q := Utf8(a.unsignedPayload), Utf8(b.unsignedPayload);
    var f, g := Flag(a.includeIntermediateOutput), Flag(b.includeIntermediateOutput);
    var m, n := a.chainMetadata, b.chainMetadata;
    FramedTail(p, m, f);
    FramedTail(q, n, g);
    if RequestPreimage(a) == RequestPreimage(b) {
      SplitEqual(LittleEndian(TwosComplement(a.chain), 4), LengthPrefix(p) + (Framed(p, m) + f),
                 LittleEndian(TwosComplement(b.chain), 4), LengthPrefix(q) + (Framed(q, n) + g));
      SameChain(a.chain, b.chain);
      SplitEqual(LengthPrefix(p), Framed(p, m) + f, LengthPrefix(q), Framed(q, n) + g);
      SplitEqual(Framed(p, m), f, Framed(q, n), g);
      assert f[0] == g[0];
    }
  }

  /** Some other request has the same preimage. */
  ghost predicate Shared(a: Request) {
    exists b :: b != a && RequestPreimage(b) == RequestPreimage(a)
  }

  /** The framed bytes can also be read with the payload ending at `cut`. */
  predicate CutsAt(a: Request, cut: nat) {
    var p, m := Utf8(a.unsignedPayload), a.chainMetadata;
    && cut != |p|
    && cut <= |p| + |m|
    && cut % 0x1_0000_0000 == |p| % 0x1_0000_0000
    && Framed(p, m)[cut..cut + 4] == LengthPrefix(m)
    && FromUtf8(Framed(p, m)[..cut]).Some?
  }

  ghost predicate Recuttable(a: Request) {
    exists cut: nat :: CutsAt(a, cut)
  }

  lemma WrappedAlike(x: nat, y: nat, u: nat, v: nat)
    requires x + u == y + v && x % 0x1_0000_0000 == y % 0x1_0000_0000
    ensures u % 0x1_0000_0000 == v % 0x1_0000_0000
  {
  }

  lemma SharedCuts(a: Request, b: Request)
    requires b != a && RequestPreimage(b) == RequestPreimage(a)
    ensures CutsAt(a, |Utf8(b.unsignedPayload)|)
  {
    var p, q := Utf8(a.unsignedPayload), Utf8(b.unsignedPayload);
    var m, n := a.chainMetadata, b.chainMetadata;
    SamePreimage(b, a);
    FramedParts(p, m);
    FramedParts(q, n);
    SameLength(p, q);
    WrappedAlike(|p|, |q|, |m|, |n|);
    FromUtf8OfUtf8(b.unsignedPayload);
    if p == q { Utf8Injective(a.unsignedPayload, b.unsignedPayload); }
  }

  lemma CutShares(a: Request, cut: nat)
    requires CutsAt(a, cut)
    ensures Shared(a)
  {
    var p, m := Utf8(a.unsignedPayload), a.chainMetadata;
    var q, n := Framed(p, m)[..cut], Framed(p, m)[cut + 4..];
    Utf8OfFromUtf8(q);
    var b := Request(a.chain, FromUtf8(q).value, n, a.includeIntermediateOutput);
    CutFramed(p, m, cut);
    SamePreimage(b, a);
    assert Utf8(b.unsignedPayload) != p;
  }

  lemma CutFramed(p: seq<byte>, m: seq<byte>, cut: nat)
    requires cut <= |p| + |m| && cut % 0x1_0000_0000 == |p| % 0x1_0000_0000
    requires Framed(p, m)[cut..cut + 4] == LengthPrefix(m)
    ensures var q, n := Framed(p, m)[..cut], Framed(p, m)[cut + 4..];
            LengthPrefix(q) == LengthPrefix(p) && Framed(q, n) == Framed(p, m)
  {
    var all := Framed(p, m);
    WrappedAlike(|p|, cut, |m|, |all[cut + 4..]|);
    ThreeParts(all, cut, cut + 4);
  }

  lemma ThreeParts(s: seq<byte>, i: nat, j: nat)
    requires i <= j <= |s|
    ensures s == s[..i] + (s[i..j] + s[j..])
  {
  }

  /** A request shares its preimage with another exactly when its framed bytes can be cut elsewhere. */
  lemma RequestPreimageShared(a: Request)
    ensures Shared(a) <==> Recuttable(a)
  {
    if Shared(a) {
      var b :| b != a && RequestPreimage(b) == RequestPreimage(a);
      SharedCuts(a, b);
    }
    if Recuttable(a) {
      var cut: nat :| CutsAt(a, cut);
      CutShares(a, cut);
    }
  }

  lemma NoOtherCut(p: nat, m: nat, cut: nat)
    requires p < 0x1_0000_0000 && m < 0x1_0000_0000
    requires cut <= p + m && cut % 0x1_0000_0000 == p % 0x1_0000_0000
    ensures cut == p
  {
  }

  lemma InBoundsUncut(a: Request, cut: nat)
    requires InBounds(a)
    ensures !CutsAt(a, cut)
  {
    var p, m := Utf8(a.unsignedPayload), a.chainMetadata;
    if cut <= |p| + |m| && cut % 0x1_0000_0000 == |p| % 0x1_0000_0000 { NoOtherCut(|p|, |m|, cut); }
  }

  /** The preimage of a request within the bound is shared by no other request of any size. */
  lemma RequestPreimageUnique(a: Request, b: Request)
    requires InBounds(a)
    requires RequestPreimage(a) == RequestPreimage(b)
    ensures a == b
  {
    if a != b {
      SharedCuts(a, b);
      InBoundsUncut(a, |Utf8(b.unsignedPayload)|);
    }
  }

  lemma {:induction false} Utf8Zeros(n: nat)
    ensures Utf8(seq(n, _ => '\0')) == seq(n, _ => 0)
  {
    if n > 0 {
      var s := seq(n, _ => '\0');
      assert s[1..] == seq(n - 1, _ => '\0');
      Utf8Zeros(n - 1);
    }
  }

  /** Beyond the bound the prefixes wrap: 2^32 zero bytes hash alike as payload or as metadata. */
  lemma RequestPreimageWraps()
    ensures var n := 0x1_0000_0000;
            var a := Request(0, seq(n, _ => '\0'), [], false);
            var b := Request(0, "", seq(n, _ => 0), false);
            a != b && RequestPreimage(a) == RequestPreimage(b)
  {
    var n := 0x1_0000_0000;
    WrapCollision(n, seq(n, _ => '\0'), seq(n, _ => 0));
  }

  lemma WrapCollision(n: nat, s: string, zeros: seq<byte>)
    requires n > 4 && n % 0x1_0000_0000 == 0 && s == seq(n, _ => '\0') && zeros == seq(n, _ => 0)
    ensures Request(0, s, [], false) != Request(0, "", zeros, false)
    ensures RequestPreimage(Request(0, s, [], false)) == RequestPreimage(Request(0, "", zeros, false))
  {
    Utf8Zeros(n);
    assert Request(0, s, [], false).unsignedPayload != "";
    var none := LengthPrefix([]);
    assert LengthPrefix(zeros) == none;
    assert none == [0, 0, 0, 0];
    assert zeros + (none + ([] + [0])) == [] + (none + (zeros + [0]));
  }
}
