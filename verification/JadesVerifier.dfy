/** The JAdES verifier, and what it makes of the three serializations of a token. */
module JadesVerifier {
  import opened Basics
  import opened Json
  import opened Base64
  import opened JadesHeader
  import opened JadesToken
  import opened Splitting

  // ---------- serializing ----------

  datatype FlattenedJws = FlattenedJws(protected: string, payload: Option<string>, signature: string,
                                       header: Option<Json>)
  datatype JwsSignature = JwsSignature(protected: string, signature: string, header: Option<Json>)
  datatype GeneralJws = GeneralJws(payload: Option<string>, signatures: seq<JwsSignature>)

  function ToCompact(host: Host, s: State): Outcome<string, JadesError> {
    var payload := if s.detached then "" else AttachedSegment(host, s);
    if s.signature.None? then Err(NotSigned)
    else if s.unprotected.Some? || (Unencoded(s.header) && Contains(payload, '.')) then Err(NotCompact)
    else Ok(EncodedHeader(host, Final(s.header)) + "." + payload + "." + s.signature.value)
  }

  function ToFlattened(host: Host, s: State): Outcome<FlattenedJws, JadesError> {
    if s.signature.None? then Err(NotSigned)
    else Ok(FlattenedJws(EncodedHeader(host, Final(s.header)),
                         if s.detached then None else Some(AttachedSegment(host, s)),
                         s.signature.value, s.unprotected))
  }

  function ToGeneral(host: Host, s: State): Outcome<GeneralJws, JadesError> {
    if s.signature.None? then Err(NotSigned)
    else Ok(GeneralJws(if s.detached then None else Some(AttachedSegment(host, s)),
                       [JwsSignature(EncodedHeader(host, Final(s.header)), s.signature.value, s.unprotected)]))
  }

  // ---------- parsing and verifying ----------

  datatype VerifyError =
    | MissingHeader
    | InvalidEncoding
    | InvalidProtected
    | UnsupportedCritical
    | PayloadRequired
    | InvalidPayload
    | InvalidUnprotectedHeader
    | NotThreeParts
    | InvalidJws
    | NoSuchSignature
    | SignatureRejected

  datatype Supplied = SuppliedText(s: string) | SuppliedBytes(bytes: seq<Byte>)
  datatype Options = Options(detachedPayload: Option<Supplied>, understood: set<string>)

  datatype Parsed = Parsed(
    header: Header,
    rawBytes: seq<Byte>,
    rawText: string,
    unprotected: Option<Json>,
    signingInput: string,
    signature: string)

  function ParseProtected(host: Host, encoded: string): Outcome<Header, VerifyError> {
    if encoded == "" then Err(MissingHeader)
    else
      match host.fromBase64url(encoded)
      case None => Err(InvalidEncoding)
      case Some(bytes) =>
        match host.parseHeader(bytes)
        case None => Err(InvalidEncoding)
        case Some(h) => if Shaped(host, h) && Refined(h, false) then Ok(h) else Err(InvalidProtected)
  }

  predicate Understood(h: Header, understood: set<string>) {
    forall i :: 0 <= i < |Crit(h)| ==> Crit(h)[i] in CRITICAL_PARAMETERS || Crit(h)[i] in understood
  }

  function DetachedBytes(host: Host, options: Options): Option<seq<Byte>> {
    match options.detachedPayload
    case None => None
    case Some(SuppliedText(s)) => Some(host.utf8(s))
    case Some(SuppliedBytes(bytes)) => Some(bytes)
  }

  /** The segment that was signed, as far as the verifier can tell. */
  function RebuiltSegment(host: Host, h: Header, serialized: Option<string>, supplied: Option<seq<Byte>>): string {
    if Hashed(h) then ""
    else if supplied.None? then serialized.GetOr("")
    else if Unencoded(h) then host.text(supplied.value)
    else host.base64url(supplied.value)
  }

  function PayloadBytes(host: Host, h: Header, serialized: Option<string>,
                        supplied: Option<seq<Byte>>): Option<seq<Byte>> {
    if supplied.Some? then supplied
    else if serialized.None? then Some([])
    else if Unencoded(h) then Some(host.utf8(serialized.value))
    else host.fromBase64url(serialized.value)
  }

  function ParseSignature(host: Host, encodedHeader: string, serialized: Option<string>, signature: string,
                          unprotected: Option<Json>,
                          options: Options): Outcome<Parsed, VerifyError>
  {
    var header :- ParseProtected(host, encodedHeader);
    var supplied := DetachedBytes(host, options);
    if !Understood(header, options.understood) then Err(UnsupportedCritical)
    else if serialized.None? && supplied.None? && !Hashed(header) then Err(PayloadRequired)
    else
      match PayloadBytes(host, header, serialized, supplied)
      case None => Err(InvalidPayload)
      case Some(bytes) =>
        if unprotected.Some? && !host.unprotectedShape(unprotected.value) then Err(InvalidUnprotectedHeader)
        else Ok(Parsed(header, bytes, host.text(bytes), unprotected,
                       encodedHeader + "." + RebuiltSegment(host, header, serialized, supplied), signature))
  }

  type Verifier = (string, string) -> bool

  function VerifyParsed(parsed: Parsed, verifier: Verifier): Outcome<Parsed, VerifyError> {
    if verifier(parsed.signingInput, parsed.signature) then Ok(parsed) else Err(SignatureRejected)
  }

  function VerifyCompact(host: Host, jws: string, verifier: Verifier, options: Options): Outcome<Parsed, VerifyError> {
    var parts := Split(jws, '.');
    if |parts| != 3 then Err(NotThreeParts)
    else
      var parsed :- ParseSignature(host, parts[0], Some(parts[1]), parts[2], None, options);
      VerifyParsed(parsed, verifier)
  }

  function VerifyFlattened(host: Host, jws: FlattenedJws, verifier: Verifier,
                           options: Options): Outcome<Parsed, VerifyError> {
    if !(IsSignatureText(jws.protected) && IsSignatureText(jws.signature)) then Err(InvalidJws)
    else
      var parsed :- ParseSignature(host, jws.protected, jws.payload, jws.signature, jws.header, options);
      VerifyParsed(parsed, verifier)
  }

  predicate IsGeneral(jws: GeneralJws) {
    && jws.signatures != []
    && forall i :: 0 <= i < |jws.signatures| ==>
         IsSignatureText(jws.signatures[i].protected) && IsSignatureText(jws.signatures[i].signature)
  }

  function VerifyGeneral(host: Host, jws: GeneralJws, index: nat, verifier: Verifier,
                         options: Options): Outcome<Parsed, VerifyError> {
    if !IsGeneral(jws) then Err(InvalidJws)
    else if index >= |jws.signatures| then Err(NoSuchSignature)
    else
      var selected := jws.signatures[index];
      var parsed :- ParseSignature(host, selected.protected, jws.payload, selected.signature, selected.header, options);
      VerifyParsed(parsed, verifier)
  }

  // ---------- what is rebuilt ----------

  /** A detached payload is supplied to the verifier, though it need not be if only its hash was signed. */
  predicate SuppliesPayload(host: Host, s: State, options: Options) {
    var supplied := DetachedBytes(host, options);
    if s.detached then supplied == Some(s.bytes) || (Hashed(s.header) && supplied == None) else supplied == None
  }

  predicate SerializedAs(host: Host, s: State, serialized: Option<string>) {
    if s.detached then serialized == None || serialized == Some("") else serialized == Some(AttachedSegment(host, s))
  }

  /** Decoding the payload bytes gives the text that was signed; this matters only for a detached unencoded payload. */
  predicate TextRebuilt(host: Host, s: State) {
    s.detached && Unencoded(s.header) && !Hashed(s.header) ==> host.text(s.bytes) == s.text
  }

  /** Encoding the signed text gives the payload bytes; this matters only for an attached unencoded payload. */
  predicate BytesRebuilt(host: Host, s: State, options: Options) {
    if s.detached then DetachedBytes(host, options).Some? || s.bytes == []
    else Unencoded(s.header) ==> host.utf8(s.text) == s.bytes
  }

  predicate Acceptable(s: State, options: Options) {
    CriticalDefined(Final(s.header)) && Understood(Final(s.header), options.understood)
  }

  lemma FinalGets(h: Header, name: string)
    requires name != "crit"
    ensures Get(Defined(Final(h)), name) == Get(h, name)
  {
  }

  lemma ProtectedRebuilt(host: Host, s: State)
    requires Lawful(host) && Problem(host, s) == None
    ensures var r := ParseProtected(host, EncodedHeader(host, Final(s.header)));
            && (r.Ok? <==> CriticalDefined(Final(s.header)))
            && (r.Ok? ==> r.value == Defined(Final(s.header)))
    ensures IsSignatureText(EncodedHeader(host, Final(s.header)))
  {
    var h := Final(s.header);
    Base64UrlFacts(host, host.headerBytes(h));
    DefinedIsShaped(host, h);
    SignedHeaderIsAccepted(h);
  }

  lemma DefinedCrit(h: Header)
    ensures Crit(Defined(h)) == Crit(h)
  {
    DefinedGets(h, "crit");
  }

  /** The header the verifier reads selects the same modes as the one the builder signed. */
  lemma SameModes(host: Host, s: State)
    requires Problem(host, s) == None
    ensures var d := Defined(Final(s.header));
            && Hashed(d) == Hashed(s.header) && Unencoded(d) == Unencoded(s.header) && Crit(d) == Crit(Final(s.header))
            && (!s.detached ==> !Hashed(s.header))
  {
    FinalGets(s.header, "sigD");
    FinalGets(s.header, "b64");
    DefinedCrit(Final(s.header));
    DefinedGets(Final(s.header), "sigD");
  }

  lemma PayloadRebuilt(host: Host, s: State, h: Header, serialized: Option<string>, options: Options)
    requires Lawful(host) && SuppliesPayload(host, s, options) && SerializedAs(host, s, serialized)
    requires Hashed(h) == Hashed(s.header) && Unencoded(h) == Unencoded(s.header) && (!s.detached ==> !Hashed(s.header))
    ensures var supplied := DetachedBytes(host, options);
            var bytes := PayloadBytes(host, h, serialized, supplied);
            && bytes.Some? && (bytes.value == s.bytes <==> BytesRebuilt(host, s, options))
            && (RebuiltSegment(host, h, serialized, supplied) == SigningSegment(host, s) <==> TextRebuilt(host, s))
            && !(serialized.None? && supplied.None? && !Hashed(h))
  {
    Base64UrlFacts(host, s.bytes);
    Base64UrlFacts(host, []);
    if s.detached && DetachedBytes(host, options).None? && serialized == Some("") {
      EmptyText(host);
    }
  }

  lemma EmptyText(host: Host)
    requires Lawful(host)
    ensures host.fromBase64url("") == Some([])
  {
    assert Encode([], UrlSafe) == "";
    Base64UrlFacts(host, []);
  }

  /**
   * The verifier parses what the builder signed if and only if each critical parameter is defined and understood. It
   * then has the signed header, and it has the signed string, and the payload bytes, if and only if the conversions
   * between bytes and text that the mode of the token needs lose nothing.
   */
  lemma ParseRebuilds(host: Host, s: State, serialized: Option<string>, unprotected: Option<Json>, options: Options)
    requires Lawful(host) && Problem(host, s) == None && s.signature.Some?
    requires unprotected.Some? ==> host.unprotectedShape(unprotected.value)
    requires SuppliesPayload(host, s, options) && SerializedAs(host, s, serialized)
    ensures var r := ParseSignature(host, EncodedHeader(host, Final(s.header)), serialized, s.signature.value,
                                    unprotected, options);
            && (r.Ok? <==> Acceptable(s, options))
            && (r.Ok? ==>
                  && r.value.header == Defined(Final(s.header))
                  && r.value.signature == s.signature.value && r.value.unprotected == unprotected
                  && (r.value.signingInput == SigningInput(host, s) <==> TextRebuilt(host, s))
                  && (r.value.rawBytes == s.bytes <==> BytesRebuilt(host, s, options)))
  {
    ProtectedRebuilt(host, s);
    SameModes(host, s);
    var encoded := EncodedHeader(host, Final(s.header));
    var header := ParseProtected(host, encoded);
    if header.Ok? {
      PayloadRebuilt(host, s, header.value, serialized, options);
      SameTail(encoded + ".", RebuiltSegment(host, header.value, serialized, DetachedBytes(host, options)),
               SigningSegment(host, s));
    }
  }

  lemma SameTail(head: string, a: string, b: string)
    ensures head + a == head + b <==> a == b
  {
    assert (head + a)[|head|..] == a && (head + b)[|head|..] == b;
  }

  // ---------- the three forms ----------

  lemma AlphabetHasNoDot(s: string)
    requires InAlphabet(UrlSafe, s)
    ensures !Contains(s, '.')
  {
    assert IndexOf(UrlSafe, '.').None?;
  }

  lemma SplitThree(a: string, b: string, c: string)
    requires !Contains(a, '.') && !Contains(b, '.') && !Contains(c, '.')
    ensures Split(a + "." + b + "." + c, '.') == [a, b, c]
  {
    assert a + "." + b + "." + c == a + "." + (b + "." + c);
    SplitFirst(a, b + "." + c, '.');
    SplitFirst(b, c, '.');
    SplitOne(c, '.');
  }

  /** A signed token that passes the checks, as every run leaves it. */
  ghost predicate Signed(host: Host, s: State) {
    && Problem(host, s) == None && s.signature.Some? && IsSignatureText(s.signature.value)
    && (s.unprotected.Some? ==> host.unprotectedShape(s.unprotected.value))
  }

  /** The outcome of verifying a serialization of a token. */
  ghost predicate VerifiesAs(host: Host, s: State, verifier: Verifier, options: Options,
                             r: Outcome<Parsed, VerifyError>)
    requires s.signature.Some?
  {
    && (TextRebuilt(host, s) ==>
          (r.Ok? <==> Acceptable(s, options) && verifier(SigningInput(host, s), s.signature.value)))
    && (r.Ok? ==>
          Acceptable(s, options) && r.value.header == Defined(Final(s.header)) && r.value.unprotected == s.unprotected)
    && (r.Ok? ==> (r.value.signingInput == SigningInput(host, s) <==> TextRebuilt(host, s)))
    && (r.Ok? ==> (r.value.rawBytes == s.bytes <==> BytesRebuilt(host, s, options)))
  }

  lemma FlattenedVerifies(host: Host, s: State, verifier: Verifier, options: Options)
    requires Lawful(host) && Signed(host, s) && SuppliesPayload(host, s, options)
    ensures ToFlattened(host, s).Ok?
    ensures VerifiesAs(host, s, verifier, options, VerifyFlattened(host, ToFlattened(host, s).value, verifier, options))
  {
    var jws := ToFlattened(host, s).value;
    ProtectedRebuilt(host, s);
    ParseRebuilds(host, s, jws.payload, s.unprotected, options);
  }

  lemma GeneralVerifies(host: Host, s: State, verifier: Verifier, options: Options)
    requires Lawful(host) && Signed(host, s) && SuppliesPayload(host, s, options)
    ensures ToGeneral(host, s).Ok?
    ensures VerifiesAs(host, s, verifier, options, VerifyGeneral(host, ToGeneral(host, s).value, 0, verifier, options))
  {
    GeneralIsFlattened(host, s, verifier, options);
    FlattenedVerifies(host, s, verifier, options);
  }

  /** The general form with its one signature is verified like the flattened form. */
  lemma GeneralIsFlattened(host: Host, s: State, verifier: Verifier, options: Options)
    requires Lawful(host) && Signed(host, s)
    ensures VerifyGeneral(host, ToGeneral(host, s).value, 0, verifier, options) ==
            VerifyFlattened(host, ToFlattened(host, s).value, verifier, options)
  {
    ProtectedRebuilt(host, s);
    var one := JwsSignature(EncodedHeader(host, Final(s.header)), s.signature.value, s.unprotected);
    assert ToGeneral(host, s).value.signatures == [one];
    assert IsGeneral(ToGeneral(host, s).value);
  }

  /** The compact form splits into the header, the payload if it is attached, and the signature. */
  lemma CompactParts(host: Host, s: State)
    requires Lawful(host) && Signed(host, s) && ToCompact(host, s).Ok?
    ensures var payload := if s.detached then "" else AttachedSegment(host, s);
            Split(ToCompact(host, s).value, '.') == [EncodedHeader(host, Final(s.header)), payload, s.signature.value]
  {
    var payload := if s.detached then "" else AttachedSegment(host, s);
    ProtectedRebuilt(host, s);
    Base64UrlFacts(host, s.bytes);
    AlphabetHasNoDot(EncodedHeader(host, Final(s.header)));
    AlphabetHasNoDot(host.base64url(s.bytes));
    AlphabetHasNoDot(s.signature.value);
    SplitThree(EncodedHeader(host, Final(s.header)), payload, s.signature.value);
  }

  lemma CompactExists(host: Host, s: State)
    requires Lawful(host) && Signed(host, s)
    ensures ToCompact(host, s).Ok? <==>
            s.unprotected.None? && (s.detached || !Unencoded(s.header) || !Contains(s.text, '.'))
  {
  }

  /** The compact form exists unless there is an unprotected header or an unencoded payload with a period. */
  lemma CompactVerifies(host: Host, s: State, verifier: Verifier, options: Options)
    requires Lawful(host) && Signed(host, s) && SuppliesPayload(host, s, options)
    ensures ToCompact(host, s).Ok? <==>
            s.unprotected.None? && (s.detached || !Unencoded(s.header) || !Contains(s.text, '.'))
    ensures ToCompact(host, s).Ok? ==>
              VerifiesAs(host, s, verifier, options, VerifyCompact(host, ToCompact(host, s).value, verifier, options))
  {
    CompactExists(host, s);
    if ToCompact(host, s).Ok? {
      var payload := if s.detached then "" else AttachedSegment(host, s);
      CompactParts(host, s);
      CompactIsParsed(host, ToCompact(host, s).value, EncodedHeader(host, Final(s.header)), payload, s.signature.value,
                      verifier, options);
      PartsVerify(host, s, payload, verifier, options);
    }
  }

  function VerifyParts(host: Host, encodedHeader: string, payload: string, signature: string, verifier: Verifier,
                       options: Options): Outcome<Parsed, VerifyError>
  {
    var parsed :- ParseSignature(host, encodedHeader, Some(payload), signature, None, options);
    VerifyParsed(parsed, verifier)
  }

  lemma CompactIsParsed(host: Host, jws: string, encodedHeader: string, payload: string, signature: string,
                        verifier: Verifier, options: Options)
    requires Split(jws, '.') == [encodedHeader, payload, signature]
    ensures VerifyCompact(host, jws, verifier, options) ==
            VerifyParts(host, encodedHeader, payload, signature, verifier, options)
  {
  }

  lemma PartsVerify(host: Host, s: State, payload: string, verifier: Verifier, options: Options)
    requires Lawful(host) && Signed(host, s) && SuppliesPayload(host, s, options)
    requires s.unprotected.None? && payload == if s.detached then "" else AttachedSegment(host, s)
    ensures VerifiesAs(host, s, verifier, options,
                       VerifyParts(host, EncodedHeader(host, Final(s.header)), payload, s.signature.value, verifier,
                                   options))
  {
    ParseRebuilds(host, s, Some(payload), None, options);
  }

  // ---------- every run ----------

  /** The conversions between the bytes and the text of a payload lose nothing. */
  predicate FaithfulText(host: Host, p: Payload) {
    match p
    case Raw(bytes) => host.utf8(host.text(bytes)) == bytes
    case Str(s) => host.text(host.utf8(s)) == s
    case Data(json) => json.Some? ==> host.text(host.utf8(json.value)) == json.value
  }

  lemma FaithfulIsRebuilt(host: Host, s: State, options: Options)
    requires Lawful(host) && InSync(host, s)
    requires Unencoded(s.header) && s.payload.Some? ==> FaithfulText(host, s.payload.value)
    ensures TextRebuilt(host, s)
    ensures !s.detached || DetachedBytes(host, options).Some? ==> BytesRebuilt(host, s, options)
  {
  }

  predicate UnprotectedOk(host: Host, s: State) {
    s.unprotected.Some? ==> host.unprotectedShape(s.unprotected.value)
  }

  lemma StepKeepsUnprotected(host: Host, s: State, op: Op)
    requires UnprotectedOk(host, s)
    ensures UnprotectedOk(host, Step(host, s, op).state)
  {
    match op
    case SetDetached(sigD, payload) => assert Step(host, s, op).state.unprotected == s.unprotected;
    case Sign(signer) => SignSigns(host, s, signer);
    case SetSignature(signature) => SignatureSets(host, s, signature);
    case _ =>
  }

  lemma {:induction false} RunKeepsUnprotected(host: Host, start: State, ops: seq<Op>)
    requires UnprotectedOk(host, start)
    ensures UnprotectedOk(host, RunOps(host, start, ops).state)
  {
    if ops != [] {
      RunKeepsUnprotected(host, start, ops[..|ops| - 1]);
      StepKeepsUnprotected(host, RunOps(host, start, ops[..|ops| - 1]).state, ops[|ops| - 1]);
    }
  }

  /**
   * Whatever calls made it, a signed token verifies in flattened, general and, where it exists, compact form exactly
   * when its critical parameters are defined and understood and the verifier accepts the signature over the string that
   * was signed; the payload bytes are then those of the token.
   */
  lemma SignedTokensVerify(host: Host, payload: Option<Payload>, ops: seq<Op>, verifier: Verifier, options: Options)
    requires Lawful(host) && Created(host, payload).Ok?
    requires Repaired(host, ops)
    requires var s := RunOps(host, Created(host, payload).value, ops).state;
             && s.signature.Some? && SuppliesPayload(host, s, options)
             && (Unencoded(s.header) && s.payload.Some? ==> FaithfulText(host, s.payload.value))
    ensures var r := RunOps(host, Created(host, payload).value, ops);
            var s := r.state;
            var accepted := Acceptable(s, options) && verifier(r.signedInput, s.signature.value);
            var flattened := VerifyFlattened(host, ToFlattened(host, s).value, verifier, options);
            var general := VerifyGeneral(host, ToGeneral(host, s).value, 0, verifier, options);
            && (flattened.Ok? <==> accepted) && (general.Ok? <==> accepted)
            && (ToCompact(host, s).Ok? ==>
                  (VerifyCompact(host, ToCompact(host, s).value, verifier, options).Ok? <==> accepted))
            && (flattened.Ok? ==> flattened.value.signingInput == r.signedInput)
            && (flattened.Ok? && (!s.detached || DetachedBytes(host, options).Some?) ==>
                  flattened.value.rawBytes == s.bytes)
  {
    var r := RunOps(host, Created(host, payload).value, ops);
    EveryRun(host, payload, ops);
    RunKeepsUnprotected(host, Created(host, payload).value, ops);
    FaithfulIsRebuilt(host, r.state, options);
    FlattenedVerifies(host, r.state, verifier, options);
    GeneralVerifies(host, r.state, verifier, options);
    CompactVerifies(host, r.state, verifier, options);
  }

  /** A parameter that is set to undefined is critical all the same, so a token with it is accepted in no form. */
  lemma UndefinedCriticalIsRejected(host: Host, s: State, verifier: Verifier, options: Options)
    requires Lawful(host) && Signed(host, s) && SuppliesPayload(host, s, options)
    requires "b64" in s.header && s.header["b64"] == Undefined
    ensures VerifyFlattened(host, ToFlattened(host, s).value, verifier, options).Err?
    ensures VerifyGeneral(host, ToGeneral(host, s).value, 0, verifier, options).Err?
    ensures ToCompact(host, s).Ok? ==> VerifyCompact(host, ToCompact(host, s).value, verifier, options).Err?
  {
    FlattenedVerifies(host, s, verifier, options);
    GeneralVerifies(host, s, verifier, options);
    CompactVerifies(host, s, verifier, options);
    var h := Final(s.header);
    assert "b64" in FinalCrit(s.header);
    assert Crit(h) == FinalCrit(s.header);
    var i :| 0 <= i < |Crit(h)| && Crit(h)[i] == "b64";
    assert Get(h, Crit(h)[i]).Undefined?;
  }

  /** A header that is complete for signing, in which `b64` is set to undefined. */
  predicate CompleteButB64(h: Header) {
    && Truthy(Get(h, "alg")) && Truthy(Get(h, "x5t#S256")) && Get(h, "iat").Number? && Get(h, "sigT").Undefined?
    && "crit" !in h && "sigD" !in h && "b64" in h && h["b64"] == Undefined
  }

  lemma UndefinedB64IsSignable(host: Host, h: Header)
    requires CompleteButB64(h) && Shaped(host, h) && host.shape("crit", Names(["b64"]))
    ensures Shaped(host, Final(h)) && Refined(Final(h), true) && Get(Final(h), "sigD").Undefined? && !Unencoded(h)
  {
    OnlyB64IsCritical(h);
    CriticalIsShaped(host, h, ["b64"]);
    CriticalIsRefined(h, h["crit" := Names(["b64"])]);
  }

  lemma CriticalIsShaped(host: Host, h: Header, names: seq<string>)
    requires Shaped(host, h) && host.shape("crit", Names(names)) && names != [] && forall i :: 0 <= i < |names| ==>
               names[i] != ""
    ensures Shaped(host, h["crit" := Names(names)])
  {
  }

  lemma CriticalIsRefined(h: Header, f: Header)
    requires CompleteButB64(h) && f == h["crit" := Names(["b64"])]
    ensures Refined(f, true) && Get(f, "sigD").Undefined?
  {
    assert Crit(f) == ["b64"];
    assert forall name :: name != "crit" ==> Get(f, name) == Get(h, name);
  }

  lemma OnlyB64IsCritical(h: Header)
    requires CompleteButB64(h)
    ensures Final(h) == h["crit" := Names(["b64"])] && Crit(Final(h)) == ["b64"]
  {
    assert FinalCrit(h) == ["b64"];
  }

  /**
   * Setting such a header and signing succeeds, and the token has a compact form, but no form of it is ever accepted.
   */
  lemma UndefinedB64IsSigned(host: Host, payload: Option<Payload>, h: Header, signer: string -> Option<string>,
                             verifier: Verifier, options: Options)
    requires Lawful(host) && Created(host, payload).Ok? && options.detachedPayload.None?
    requires CompleteButB64(h) && Shaped(host, h) && host.shape("crit", Names(["b64"]))
    requires forall input :: signer(input).Some? && IsSignatureText(signer(input).value)
    ensures var ready := Step(host, Created(host, payload).value, SetProtectedHeader(h));
            var signed := Step(host, ready.state, Sign(signer));
            var s := signed.state;
            && ready.thrown.None? && signed.thrown.None? && s.signature.Some?
            && VerifyFlattened(host, ToFlattened(host, s).value, verifier, options).Err?
            && VerifyGeneral(host, ToGeneral(host, s).value, 0, verifier, options).Err?
            && ToCompact(host, s).Ok? && VerifyCompact(host, ToCompact(host, s).value, verifier, options).Err?
  {
    var start := Created(host, payload).value;
    assert start.header + h == h;
    var s := start.(header := h);
    assert Step(host, start, SetProtectedHeader(h)) == Done(s, None);
    UndefinedB64IsSignable(host, h);
    assert Problem(host, s) == None;
    SignIsAccepted(host, s, signer);
    UndefinedCriticalIsRejected(host, s.(signature := signer(SigningInput(host, s))), verifier, options);
  }

  /** There is such a header. */
  lemma CompleteButB64Exists()
    ensures CompleteButB64(map["alg" := Text("ES256"), "x5t#S256" := Text("dGh1bWI"), "iat" :=
                                 Number(1752537600), "b64" := Undefined])
  {
  }
}
