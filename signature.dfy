/** The authorization signature checker `checkSig` (src/server.ts:15-143).

    It checks an EIP-712 typed-data signature over an EIP-3009
    `TransferWithAuthorization` message: first an input gate and an inclusive
    validity window, then a primary recovery through the typed-data library,
    then a fallback that splits the 65-byte r||s||v signature by hand,
    re-hashes the message and recovers the signer. The elliptic-curve and
    EIP-712 library calls are the function-valued fields of `Library`; each
    may return a value or throw. Every path that throws ends in `None` (the
    source's `null`). */
module SignatureCheck {
  import opened Common

  /** A message field as `BigInt(x.toString())` sees it: absent (read as 0),
      an integer, or text that makes `BigInt` throw. */
  datatype Field = Absent | Given(n: int) | Malformed

  function BigIntOf(f: Field): Option<int> {
    match f
    case Absent => Some(0)
    case Given(n) => Some(n)
    case Malformed => None
  }

  datatype ChainId = NoChain | ChainNumber(n: JsNum) | ChainText(text: string)

  datatype Domain = Domain(name: Option<string>, version: Option<string>, chainId: ChainId, verifyingContract: Option<string>)

  /** The typed-data message; a missing message object is the message whose
      fields are all absent. */
  datatype Message = Message(
    from: Option<string>, to: Option<string>, value: Field,
    validAfter: Field, validBefore: Field, nonce: Option<string>)

  /** The message the fallback re-hashes, with its integers converted. */
  datatype HashMessage = HashMessage(
    from: Option<string>, to: Option<string>, value: int,
    validAfter: int, validBefore: int, nonce: Option<string>)

  datatype TypeMember = TypeMember(name: string, typeName: string)

  type TypeMap = map<string, seq<TypeMember>>

  /** The `types` member as received: an object, JSON text, missing, or a
      value that is not an object. */
  datatype TypesField = TypesObject(types: TypeMap) | TypesText(json: string) | TypesMissing | TypesScalar

  /** What `JSON.parse` makes of JSON text: an object, a non-object, or a throw. */
  datatype ParsedTypes = ParsedObject(types: TypeMap) | ParsedScalar | ParseError

  datatype Eip712 = Eip712(domain: Domain, types: TypesField, message: Message)

  /** The argument of `checkSig`: the raw signature and the typed data. */
  datatype ErcObj = ErcObj(sig: Option<string>, eip712: Option<Eip712>)

  datatype SigParts = SigParts(v: int, r: string, s: string)

  /** The result record of a successful check. */
  datatype SigProof = SigProof(v: JsNum, r: string, s: string, recoveredAddress: string, isValid: bool)

  /** The foreign calls: `JSON.parse` of the types text, `verifyTypedData`,
      `Signature.from`, `TypedDataEncoder.hash` and `recoverAddress`. */
  datatype Library = Library(
    parseJson: string -> ParsedTypes,
    verifyTypedData: (Domain, TypeMap, Message, string) -> Attempt<string>,
    signatureFrom: string -> Attempt<SigParts>,
    typedDataHash: (Domain, TypeMap, HashMessage) -> Attempt<string>,
    recoverAddress: (string, JsNum, string, string) -> Attempt<string>)

  // ---------------------------------------------------------------------
  // Gate
  // ---------------------------------------------------------------------

  /** `validAfter <= now <= validBefore`, both bounds inclusive, a missing
      bound read as 0, a malformed bound failing. */
  predicate InWindow(m: Message, now: int)
    ensures InWindow(m, now) ==> m.validAfter != Malformed && m.validBefore != Malformed
    ensures m.validAfter == Given(now) && m.validBefore == Given(now) ==> InWindow(m, now)
    // with no bounds at all only the instant 0 is inside the window
    ensures m.validAfter == Absent && m.validBefore == Absent ==> (InWindow(m, now) <==> now == 0)
  {
    && BigIntOf(m.validAfter).Some?
    && BigIntOf(m.validBefore).Some?
    && BigIntOf(m.validAfter).value <= now <= BigIntOf(m.validBefore).value
  }

  /** The checks made before any recovery is attempted. */
  predicate PassesGate(obj: Option<ErcObj>, now: int)
    ensures PassesGate(obj, now) ==>
      && obj.Some? && obj.value.sig.Some? && obj.value.sig.value != "" && obj.value.eip712.Some?
      && InWindow(obj.value.eip712.value.message, now)
    // a message without validBefore has expired for every time after the epoch
    ensures obj.Some? && obj.value.eip712.Some? && obj.value.eip712.value.message.validBefore == Absent && now > 0
      ==> !PassesGate(obj, now)
  {
    && obj.Some?
    && obj.value.sig.Some? && obj.value.sig.value != ""
    && obj.value.eip712.Some?
    && InWindow(obj.value.eip712.value.message, now)
  }

  /** `Number(text)` on the chain id, for decimal text ("" is 0). */
  function ToNumber(text: string): JsNum {
    if text == "" then Num(0)
    else match ParseDecimal(text)
      case Some(n) => Num(n)
      case None => NaN
  }

  /** A chain id given as text is converted to a number; other values pass. */
  function NormaliseDomain(d: Domain): Domain {
    match d.chainId
    case ChainText(t) => d.(chainId := ChainNumber(ToNumber(t)))
    case _ => d
  }

  /** The types object: taken as is, or parsed from JSON text; a missing
      value or one that is not an object stops the check. */
  function ResolveTypes(lib: Library, t: TypesField): Option<TypeMap> {
    match t
    case TypesObject(m) => Some(m)
    case TypesText(json) =>
      (match lib.parseJson(json)
       case ParsedObject(m) => Some(m)
       case _ => None)
    case _ => None
  }

  // ---------------------------------------------------------------------
  // Signature parts
  // ---------------------------------------------------------------------

  /** Recovery id normalisation: 0 and 1 become 27 and 28. */
  function NormaliseV(v: JsNum): (w: JsNum)
    ensures v == Num(0) ==> w == Num(27)
    ensures v == Num(1) ==> w == Num(28)
    ensures v != Num(0) && v != Num(1) ==> w == v
    ensures w != Num(0) && w != Num(1)
  {
    if v == Num(0) || v == Num(1) then Num(v.n + 27) else v
  }

  /** The signature with "0x" put in front when it does not have it. */
  function WithPrefix(sig: string): (hex: string)
    ensures StartsWith(hex, "0x")
    ensures StartsWith(sig, "0x") ==> hex == sig
    ensures !StartsWith(sig, "0x") ==> |hex| == |sig| + 2 && hex[2..] == sig
  {
    if StartsWith(sig, "0x") then sig else "0x" + sig
  }

  datatype Split = Split(r: string, s: string, v: JsNum)

  /** `'0x' + hex.slice(a, b)`. */
  function HexPart(hex: string, a: nat, b: nat): (part: string)
    requires a <= b
    ensures StartsWith(part, "0x") && part[2..] == Slice(hex, a, b)
  {
    "0x" + Slice(hex, a, b)
  }

  /** `parseInt(hex.slice(130, 132) || '1b', 16)`, normalised. */
  function RecoveryByte(hex: string): (v: JsNum)
    ensures |hex| <= 130 ==> v == Num(27)
    ensures |hex| > 130 ==> v == NormaliseV(ParseIntHex(Slice(hex, 130, 132)))
    ensures v != Num(0) && v != Num(1)
  {
    var vText := Slice(hex, 130, 132);
    ParseIntHexByte("1b", '1', 'b');
    NormaliseV(ParseIntHex(if vText == "" then "1b" else vText))
  }

  /** The fallback's hand split of the hex signature: r is hex[2..66), s is
      hex[66..130), v is hex[130..132) read as base 16, or 0x1b when that
      slice is empty, then normalised. */
  function SplitSignature(sig: string): (sp: Split)
    ensures var hex := WithPrefix(sig);
      && StartsWith(sp.r, "0x") && sp.r[2..] == Slice(hex, 2, 66)
      && StartsWith(sp.s, "0x") && sp.s[2..] == Slice(hex, 66, 130)
    ensures var hex := WithPrefix(sig);
      |hex| >= 132 ==>
        && |sp.r| == 66 && |sp.s| == 66
        && hex[..132] == sp.r + sp.s[2..] + hex[130..132]
    ensures |WithPrefix(sig)| <= 130 ==> sp.v == Num(27)
    ensures |WithPrefix(sig)| > 130 ==> sp.v == NormaliseV(ParseIntHex(Slice(WithPrefix(sig), 130, 132)))
    ensures sp.v != Num(0) && sp.v != Num(1)
  {
    var hex := WithPrefix(sig);
    var sp := Split(HexPart(hex, 2, 66), HexPart(hex, 66, 130), RecoveryByte(hex));
    assert |hex| >= 132 ==> hex[..132] == hex[..2] + hex[2..66] + hex[66..130] + hex[130..132];
    sp
  }

  /** A full-length signature whose last byte is two hex digits yields that
      byte, normalised, as v. */
  lemma SplitRecoveryByte(sig: string)
    requires var hex := WithPrefix(sig); |hex| >= 132 && IsHexDigit(hex[130]) && IsHexDigit(hex[131])
    ensures var hex := WithPrefix(sig);
      SplitSignature(sig).v == NormaliseV(Num(16 * HexDigitValue(hex[130]) + HexDigitValue(hex[131])))
  {
    LastByte(WithPrefix(sig));
  }

  lemma LastByte(hex: string)
    requires |hex| >= 132 && IsHexDigit(hex[130]) && IsHexDigit(hex[131])
    ensures ParseIntHex(Slice(hex, 130, 132)) == Num(16 * HexDigitValue(hex[130]) + HexDigitValue(hex[131]))
  {
    SliceOfTwo(hex, 130);
    ParseIntHexByte([hex[130], hex[131]], hex[130], hex[131]);
  }

  lemma SliceOfTwo(hex: string, i: nat)
    requires i + 2 <= |hex|
    ensures Slice(hex, i, i + 2) == [hex[i], hex[i + 1]]
  {
  }

  // ---------------------------------------------------------------------
  // The two recovery paths
  // ---------------------------------------------------------------------

  /** Case-insensitive (ASCII) address equality; an absent `from` never matches. */
  predicate SameAddress(recovered: string, from: Option<string>) {
    from.Some? && Lower(recovered) == Lower(from.value)
  }

  /** Primary path: `verifyTypedData`, then, only when the recovered address
      matches `from`, `Signature.from` for v, r and s. None means control
      falls through to the fallback (a throw or a mismatch). */
  function Primary(lib: Library, domain: Domain, types: TypeMap, m: Message, sig: string): (r: Option<SigProof>)
    ensures r.Some? ==> r.value.isValid && SameAddress(r.value.recoveredAddress, m.from)
    ensures r.Some? ==> lib.verifyTypedData(domain, types, m, sig) == Ok(r.value.recoveredAddress)
    ensures r.Some? ==> lib.signatureFrom(WithPrefix(sig)).Ok?
  {
    match lib.verifyTypedData(domain, types, m, sig)
    case Threw => None
    case Ok(recovered) =>
      if !SameAddress(recovered, m.from) then None
      else
        match lib.signatureFrom(WithPrefix(sig))
        case Threw => None
        case Ok(parts) => Some(SigProof(NormaliseV(Num(parts.v)), parts.r, parts.s, recovered, true))
  }

  /** The message the fallback hashes; a value `BigInt` rejects throws. */
  function HashMessageOf(m: Message): Option<HashMessage> {
    match (BigIntOf(m.value), BigIntOf(m.validAfter), BigIntOf(m.validBefore))
    case (Some(value), Some(after), Some(before)) =>
      Some(HashMessage(m.from, m.to, value, after, before, m.nonce))
    case _ => None
  }

  /** The digest the fallback recomputes, or a throw. */
  function FallbackDigest(lib: Library, domain: Domain, types: TypeMap, m: Message): Attempt<string> {
    match HashMessageOf(m)
    case None => Threw
    case Some(hm) => lib.typedDataHash(domain, types, hm)
  }

  /** Fallback path: split the signature, re-hash the message, recover the
      address from the digest and the split parts, compare with `from`. */
  function Fallback(lib: Library, domain: Domain, types: TypeMap, m: Message, sig: string): (r: Option<SigProof>)
    ensures var sp := SplitSignature(sig);
      r.Some? ==> r.value.r == sp.r && r.value.s == sp.s && r.value.v == sp.v
    ensures r.Some? <==>
      FallbackDigest(lib, domain, types, m).Ok? &&
      lib.recoverAddress(FallbackDigest(lib, domain, types, m).value, SplitSignature(sig).v,
                         SplitSignature(sig).r, SplitSignature(sig).s).Ok?
    ensures r.Some? ==>
      lib.recoverAddress(FallbackDigest(lib, domain, types, m).value, SplitSignature(sig).v,
                         SplitSignature(sig).r, SplitSignature(sig).s) == Ok(r.value.recoveredAddress)
    ensures r.Some? ==> (r.value.isValid <==> SameAddress(r.value.recoveredAddress, m.from))
  {
    var sp := SplitSignature(sig);
    match FallbackDigest(lib, domain, types, m)
    case Threw => None
    case Ok(digest) =>
      match lib.recoverAddress(digest, sp.v, sp.r, sp.s)
      case Threw => None
      case Ok(recovered) => Some(SigProof(sp.v, sp.r, sp.s, recovered, SameAddress(recovered, m.from)))
  }

  // ---------------------------------------------------------------------
  // checkSig
  // ---------------------------------------------------------------------

  /** `checkSig(ercObj)` at time `now` (seconds). */
  function CheckSig(lib: Library, obj: Option<ErcObj>, now: int): (r: Option<SigProof>)
    ensures !PassesGate(obj, now) ==> r.None?
    // types that do not parse or are not an object also give null
    ensures PassesGate(obj, now) && ResolveTypes(lib, obj.value.eip712.value.types).None? ==> r.None?
    ensures r.Some? ==> r.value.v != Num(0) && r.value.v != Num(1)
    ensures r.Some? ==>
      (r.value.isValid <==> SameAddress(r.value.recoveredAddress, obj.value.eip712.value.message.from))
  {
    if obj.None? || obj.value.sig.None? || obj.value.sig.value == "" || obj.value.eip712.None? then None
    else
      var sig := obj.value.sig.value;
      var e := obj.value.eip712.value;
      var m := e.message;
      var after := BigIntOf(m.validAfter);
      var before := BigIntOf(m.validBefore);
      if after.None? || before.None? then None
      else if now < after.value then None
      else if now > before.value then None
      else
        var domain := NormaliseDomain(e.domain);
        match ResolveTypes(lib, e.types)
        case None => None
        case Some(types) =>
          var primary := Primary(lib, domain, types, m, sig);
          if primary.Some? then primary else Fallback(lib, domain, types, m, sig)
  }

  /** The pieces of an input that passes the gate and has usable types. */
  predicate Reaches(lib: Library, obj: Option<ErcObj>, now: int, types: TypeMap) {
    PassesGate(obj, now) && ResolveTypes(lib, obj.value.eip712.value.types) == Some(types)
  }

  function DomainOf(obj: Option<ErcObj>): Domain
    requires obj.Some? && obj.value.eip712.Some?
  {
    NormaliseDomain(obj.value.eip712.value.domain)
  }

  /** The gate is decided before any library call: an input it rejects
      gives null whatever the library would have answered. */
  lemma GateIgnoresLibrary(lib1: Library, lib2: Library, obj: Option<ErcObj>, now: int)
    requires !PassesGate(obj, now)
    ensures CheckSig(lib1, obj, now) == CheckSig(lib2, obj, now) == None
  {
  }

  /** Both ends of the window are accepted. */
  lemma WindowBoundsInclusive(m: Message, now: int)
    requires m.validAfter == Given(now) && m.validBefore == Given(now)
    ensures InWindow(m, now)
    ensures !InWindow(m, now + 1) && !InWindow(m, now - 1)
  {
  }

  /** A signature the typed-data library attributes to `from`, and that
      `Signature.from` splits, is accepted on the primary path with its
      recovery id normalised. */
  lemma PrimaryAccepts(lib: Library, obj: Option<ErcObj>, now: int, types: TypeMap, signer: string, parts: SigParts)
    requires Reaches(lib, obj, now, types)
    requires var m := obj.value.eip712.value.message;
      lib.verifyTypedData(DomainOf(obj), types, m, obj.value.sig.value) == Ok(signer)
      && SameAddress(signer, m.from)
    requires lib.signatureFrom(WithPrefix(obj.value.sig.value)) == Ok(parts)
    ensures CheckSig(lib, obj, now) == Some(SigProof(NormaliseV(Num(parts.v)), parts.r, parts.s, signer, true))
  {
  }

  /** When the primary path throws, recovers another address, or cannot
      split the signature, the result is exactly the fallback's. */
  lemma FallbackWhenPrimaryFails(lib: Library, obj: Option<ErcObj>, now: int, types: TypeMap)
    requires Reaches(lib, obj, now, types)
    requires var m := obj.value.eip712.value.message;
      var sig := obj.value.sig.value;
      match lib.verifyTypedData(DomainOf(obj), types, m, sig)
      case Threw => true
      case Ok(a) => !SameAddress(a, m.from) || lib.signatureFrom(WithPrefix(sig)).Threw?
    ensures CheckSig(lib, obj, now)
         == Fallback(lib, DomainOf(obj), types, obj.value.eip712.value.message, obj.value.sig.value)
  {
  }
}
