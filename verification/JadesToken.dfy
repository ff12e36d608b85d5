/** The JAdES token builder: its setters, signing, and what every sequence of calls keeps. */
module JadesToken {
  import opened Basics
  import opened Json
  import opened Base64
  import opened JadesHeader

  // ---------- payloads ----------

  /** A payload as given: bytes, a string, or a value with the JSON text of it, if it has one. */
  datatype Payload = Raw(bytes: seq<Byte>) | Str(s: string) | Data(json: Option<string>)

  datatype Serialized = Serialized(bytes: seq<Byte>, text: string)

  datatype JadesError =
    | InvalidHeader
    | InvalidUnprotected
    | InvalidSigningTime
    | InvalidSigD
    | NotSerializable
    | NotValidForSigning
    | NeedsDetached
    | NeedsPayload
    | InvalidSignature
    | SignerFailed
    | NotSigned
    | NotCompact

  function Serialize(host: Host, p: Payload): Outcome<Serialized, JadesError> {
    match p
    case Raw(bytes) => Ok(Serialized(bytes, host.text(bytes)))
    case Str(s) => Ok(Serialized(host.utf8(s), s))
    case Data(Some(json)) => Ok(Serialized(host.utf8(json), json))
    case Data(None) => Err(NotSerializable)
  }

  // ---------- state ----------

  datatype State = State(
    header: Header,
    unprotected: Option<Json>,
    payload: Option<Payload>,
    bytes: seq<Byte>,
    text: string,
    detached: bool,
    signature: Option<string>)

  function Unsigned(s: State): State {
    s.(signature := None)
  }

  function Unencoded(h: Header): bool {
    Get(h, "b64") == Flag(false)
  }

  function Hashed(h: Header): bool {
    Get(h, "sigD").SigD? && Get(h, "sigD").mId == OBJECT_BY_URI_HASH
  }

  function AttachedSegment(host: Host, s: State): string {
    if Unencoded(s.header) then s.text else host.base64url(s.bytes)
  }

  function SigningSegment(host: Host, s: State): string {
    if Hashed(s.header) then "" else AttachedSegment(host, s)
  }

  function SigningInput(host: Host, s: State): string {
    EncodedHeader(host, Final(s.header)) + "." + SigningSegment(host, s)
  }

  /** `validateBeforeSign`: the error it throws, if any. */
  function Problem(host: Host, s: State): Option<JadesError> {
    var h := Final(s.header);
    if !(Shaped(host, h) && Refined(h, true)) then Some(NotValidForSigning)
    else if Truthy(Get(h, "sigD")) && !s.detached then Some(NeedsDetached)
    else if Truthy(Get(h, "sigD")) && !Hashed(h) && s.payload.None? then Some(NeedsPayload)
    else None
  }

  predicate IsSignatureText(s: string) {
    s != "" && InAlphabet(UrlSafe, s)
  }

  // ---------- the calls ----------

  datatype Op =
    | SetProtectedHeader(header: Header)
    | SetUnprotectedHeader(unprotected: Json)
    | SetSigningTime(seconds: Option<int>)
    | SetLegacySigningTime(time: string)
    | SetB64(value: bool)
    | SetDetached(sigD: Param, payload: Option<Payload>)
    | SetSignature(signature: string)
    | Sign(signer: string -> Option<string>)

  /** The state after a call, and what it threw. */
  datatype Done = Done(state: State, thrown: Option<JadesError>)

  function Throw(s: State, e: JadesError): Done {
    Done(s, Some(e))
  }

  function WithHeader(host: Host, s: State, header: Header): Done {
    if Shaped(host, s.header + header) then Done(Unsigned(s.(header := s.header + header)), None)
    else Throw(s, InvalidHeader)
  }

  function WithB64(s: State, value: bool): State {
    Unsigned(s.(header := if value then s.header - {"b64"} else s.header["b64" := Flag(false)]))
  }

  /** The state when `setDetached` comes to the payload. */
  function Detaching(s: State, sigD: Param, payload: Option<Payload>): State {
    Unsigned(s.(detached := true, header := s.header["sigD" := sigD], payload :=
                  if payload.Some? then payload else s.payload))
  }

  function WithDetached(host: Host, s: State, sigD: Param, payload: Option<Payload>): Done {
    if !(sigD.SigD? && ParamOk(host, "sigD", sigD)) then Throw(s, InvalidSigD)
    else
      var d := Detaching(s, sigD, payload);
      var serialized := if payload.None? then Ok(Serialized(s.bytes, s.text)) else Serialize(host, payload.value);
      match serialized
      case Err(e) => Throw(d, e)
      case Ok(r) =>
        var after := d.(bytes := r.bytes, text := r.text);
        Done(if sigD.mId == HTTP_HEADERS then WithB64(after, false) else after, None)
  }

  function WithSignature(host: Host, s: State, signature: string): Done {
    if Problem(host, s).Some? then Throw(s, Problem(host, s).value)
    else if !IsSignatureText(signature) then Throw(s, InvalidSignature)
    else Done(s.(signature := Some(signature)), None)
  }

  /** With what the signer returned, if it did not fail. */
  function WithSigned(host: Host, s: State, made: Option<string>): Done {
    match made case None => Throw(s, SignerFailed) case Some(signature) => WithSignature(host, s, signature)
  }

  function Step(host: Host, s: State, op: Op): Done {
    match op
    case SetProtectedHeader(header) => WithHeader(host, s, header)
    case SetUnprotectedHeader(u) =>
      if host.unprotectedShape(u) then Done(s.(unprotected := Some(u)), None) else Throw(s, InvalidUnprotected)
    case SetSigningTime(None) => Throw(s, InvalidSigningTime)
    case SetSigningTime(Some(seconds)) => WithHeader(host, s, s.header["iat" := Number(seconds)] - {"sigT"})
    case SetLegacySigningTime(time) => WithHeader(host, s, s.header["sigT" := Text(time)] - {"iat"})
    case SetB64(value) => Done(WithB64(s, value), None)
    case SetDetached(sigD, payload) => WithDetached(host, s, sigD, payload)
    case SetSignature(signature) => WithSignature(host, s, signature)
    case Sign(signer) =>
      if Problem(host, s).Some? then Throw(s, Problem(host, s).value)
      else WithSigned(host, s, signer(SigningInput(host, s)))
  }

  function Created(host: Host, payload: Option<Payload>): Outcome<State, JadesError> {
    var r :- if payload.None? then Ok(Serialized([], "")) else Serialize(host, payload.value);
    Ok(State(map[], None, payload, r.bytes, r.text, false, None))
  }

  // ---------- what one call keeps ----------

  /** The one call that can throw after it has changed the state. */
  predicate DetachesUnserializable(host: Host, op: Op) {
    op.SetDetached? && op.sigD.SigD? && ParamOk(host, "sigD", op.sigD) && op.payload == Some(Data(None))
  }

  lemma DetachThrows(host: Host, s: State, sigD: Param, payload: Option<Payload>)
    ensures var d := WithDetached(host, s, sigD, payload);
            var ok := sigD.SigD? && ParamOk(host, "sigD", sigD);
            && (d.thrown.Some? <==> !ok || payload == Some(Data(None)))
            && (d.thrown.Some? ==> d.state == if ok then Detaching(s, sigD, payload) else s)
            && d.state.signature == if ok then None else s.signature
  {
  }

  /**
   * A call that throws leaves the state as it was, except for `setDetached` with a payload that JSON cannot express.
   */
  lemma ThrowingCallIsUndone(host: Host, s: State, op: Op)
    requires Step(host, s, op).thrown.Some?
    ensures Step(host, s, op).state == if DetachesUnserializable(host, op) then Detaching(s, op.sigD, op.payload) else s
  {
    match op
    case SetDetached(sigD, payload) => DetachThrows(host, s, sigD, payload);
    case _ =>
  }

  /** The bytes and the text that are signed are those of the payload. */
  predicate InSync(host: Host, s: State) {
    if s.payload.None? then s.bytes == [] && s.text == ""
       else Serialize(host, s.payload.value) == Ok(Serialized(s.bytes, s.text))
  }

  /** Setting the signing time does not take back a legacy signing time: it stays as it was. */
  lemma LegacyTimeStays(host: Host, s: State, seconds: int)
    ensures Get(Step(host, s, SetSigningTime(Some(seconds))).state.header, "sigT") == Get(s.header, "sigT")
    ensures !Get(s.header, "sigT").Undefined? ==>
              Problem(host, Step(host, s, SetSigningTime(Some(seconds))).state) == Some(NotValidForSigning)
  {
    var after := Step(host, s, SetSigningTime(Some(seconds))).state;
    assert Get(Final(after.header), "sigT") == Get(after.header, "sigT");
  }

  /** Nor does setting a legacy signing time take back a signing time, and then the token can no longer be signed. */
  lemma SigningTimeStays(host: Host, s: State, time: string)
    ensures var d := Step(host, s, SetLegacySigningTime(time));
            && Get(d.state.header, "iat") == Get(s.header, "iat")
            && (d.thrown.None? ==> Problem(host, d.state) == Some(NotValidForSigning))
  {
    var after := Step(host, s, SetLegacySigningTime(time)).state;
    assert Get(Final(after.header), "sigT") == Get(after.header, "sigT");
  }

  /** What is signed, and whether it may be, does not depend on the signature nor on the unprotected header. */
  lemma SignedPart(host: Host, s: State, after: State)
    requires after == s.(signature := after.signature, unprotected := after.unprotected)
    ensures SigningInput(host, after) == SigningInput(host, s) && Problem(host, after) == Problem(host, s)
  {
  }

  lemma KeepsSignedPart(host: Host, s: State, op: Op)
    ensures var after := Step(host, s, op).state;
            after.signature == None || after == s.(signature := after.signature, unprotected := after.unprotected)
  {
    match op
    case SetDetached(sigD, payload) => DetachThrows(host, s, sigD, payload);
    case Sign(signer) => SignSigns(host, s, signer);
    case SetSignature(signature) => SignatureSets(host, s, signature);
    case _ =>
  }

  lemma SignatureSets(host: Host, s: State, signature: string)
    ensures var d := WithSignature(host, s, signature);
            if d.thrown.None? then Problem(host, s) == None && IsSignatureText(signature)
               && d.state == s.(signature := Some(signature))
            else d.state == s
  {
  }

  lemma SignSigns(host: Host, s: State, signer: string -> Option<string>)
    ensures var d := Step(host, s, Sign(signer));
            if d.thrown.None?
            then Problem(host, s) == None && d.state.signature.Some? && IsSignatureText(d.state.signature.value)
                 && signer(SigningInput(host, s)) == d.state.signature && d.state == s.(signature := d.state.signature)
            else d.state == s
  {
    match signer(SigningInput(host, s))
    case None =>
    case Some(signature) => SignatureSets(host, s, signature);
  }

  /** Whatever changes the signing input, or whether the token may be signed, drops the signature. */
  lemma ChangeDropsSignature(host: Host, s: State, op: Op)
    ensures var after := Step(host, s, op).state;
            after.signature == None || (SigningInput(host, after) == SigningInput(host, s)
                                        && Problem(host, after) == Problem(host, s))
  {
    KeepsSignedPart(host, s, op);
    var after := Step(host, s, op).state;
    if after.signature != None { SignedPart(host, s, after); }
  }

  /** A signature is set only on a token that passes the checks. */
  lemma SetsOnlyIfValid(host: Host, s: State, op: Op)
    ensures var d := Step(host, s, op);
            if (op.Sign? || op.SetSignature?) && d.thrown.None?
            then Problem(host, s) == None && d.state.signature.Some? && IsSignatureText(d.state.signature.value)
            else d.state.signature == None || d.state.signature == s.signature
  {
    match op
    case SetDetached(sigD, payload) => DetachThrows(host, s, sigD, payload);
    case Sign(signer) => SignSigns(host, s, signer);
    case SetSignature(signature) => SignatureSets(host, s, signature);
    case _ =>
  }

  // ---------- what every run keeps ----------

  /** A state, with the signing input at the time of the last signature. */
  datatype Run = Run(state: State, signedInput: string)

  function RunStep(host: Host, r: Run, op: Op): Run {
    var d := Step(host, r.state, op);
    var signs := (op.Sign? || op.SetSignature?) && d.thrown.None?;
    Run(d.state, if signs then SigningInput(host, r.state) else r.signedInput)
  }

  function RunOps(host: Host, start: State, ops: seq<Op>): Run {
    if ops == [] then Run(start, "") else RunStep(host, RunOps(host, start, ops[..|ops| - 1]), ops[|ops| - 1])
  }

  ghost predicate Consistent(host: Host, r: Run) {
    r.state.signature.Some? ==>
      && r.signedInput == SigningInput(host, r.state)
      && Problem(host, r.state) == None
      && IsSignatureText(r.state.signature.value)
  }

  lemma StepIsConsistent(host: Host, r: Run, op: Op)
    requires Consistent(host, r)
    ensures Consistent(host, RunStep(host, r, op))
  {
    ChangeDropsSignature(host, r.state, op);
    SetsOnlyIfValid(host, r.state, op);
  }

  /** The call replaces the payload. */
  predicate GivesPayload(host: Host, op: Op) {
    op.SetDetached? && op.sigD.SigD? && ParamOk(host, "sigD", op.sigD) && op.payload.Some?
  }

  /** Every call with a payload that JSON cannot express is followed by one that gives another payload. */
  predicate Repaired(host: Host, ops: seq<Op>) {
    forall i :: 0 <= i < |ops| && DetachesUnserializable(host, ops[i]) ==>
      exists j :: i < j < |ops| && GivesPayload(host, ops[j]) && !DetachesUnserializable(host, ops[j])
  }

  lemma RepairedAfterOneMore(host: Host, ops: seq<Op>, op: Op)
    ensures Repaired(host, ops + [op]) <==>
              if GivesPayload(host, op) then !DetachesUnserializable(host, op) else Repaired(host, ops)
  {
    var all, n := ops + [op], |ops|;
    assert all[n] == op;
    if GivesPayload(host, op) && !DetachesUnserializable(host, op) {
      forall i | 0 <= i < |all| && DetachesUnserializable(host, all[i])
        ensures exists j :: i < j < |all| && GivesPayload(host, all[j]) && !DetachesUnserializable(host, all[j])
      {
        assert i < n < |all| && GivesPayload(host, all[n]);
      }
    } else if !GivesPayload(host, op) {
      if Repaired(host, ops) {
        forall i | 0 <= i < |all| && DetachesUnserializable(host, all[i])
          ensures exists j :: i < j < |all| && GivesPayload(host, all[j]) && !DetachesUnserializable(host, all[j])
        {
          assert all[i] == ops[i];
          var j :| i < j < n && GivesPayload(host, ops[j]) && !DetachesUnserializable(host, ops[j]);
          assert all[j] == ops[j];
        }
      }
      if Repaired(host, all) {
        forall i | 0 <= i < n && DetachesUnserializable(host, ops[i])
          ensures exists j :: i < j < n && GivesPayload(host, ops[j]) && !DetachesUnserializable(host, ops[j])
        {
          assert all[i] == ops[i];
          var j :| i < j < |all| && GivesPayload(host, all[j]) && !DetachesUnserializable(host, all[j]);
          assert all[j] == ops[j];
        }
      }
    }
  }

  lemma CallKeepsSync(host: Host, s: State, op: Op)
    ensures InSync(host, Step(host, s, op).state) <==>
            if GivesPayload(host, op) then !DetachesUnserializable(host, op) else InSync(host, s)
  {
    match op
    case SetDetached(sigD, payload) =>
    case Sign(signer) => SignSigns(host, s, signer);
    case SetSignature(signature) => SignatureSets(host, s, signature);
    case _ =>
  }

  lemma OneMoreCall(host: Host, r: Run, ops: seq<Op>, op: Op)
    requires Consistent(host, r) && (InSync(host, r.state) <==> Repaired(host, ops))
    ensures var after := RunStep(host, r, op);
            Consistent(host, after) && (InSync(host, after.state) <==> Repaired(host, ops + [op]))
  {
    StepIsConsistent(host, r, op);
    CallKeepsSync(host, r.state, op);
    RepairedAfterOneMore(host, ops, op);
  }

  type RunProperty = (Run, seq<Op>) -> bool

  /** Every call keeps the property. */
  ghost predicate IsKept(host: Host, good: RunProperty) {
    forall r, before, op :: good(r, before) ==> good(RunStep(host, r, op), before + [op])
  }

  lemma KeptOnce(host: Host, good: RunProperty, r: Run, before: seq<Op>, op: Op)
    requires IsKept(host, good) && good(r, before)
    ensures good(RunStep(host, r, op), before + [op])
  {
  }

  /** What every new token has and every call keeps, every run has. */
  lemma {:induction false} RunsKeep(host: Host, start: State, ops: seq<Op>, good: RunProperty)
    requires good(Run(start, ""), []) && IsKept(host, good)
    ensures good(RunOps(host, start, ops), ops)
  {
    if ops != [] {
      var front, last := ops[..|ops| - 1], ops[|ops| - 1];
      RunsKeep(host, start, front, good);
      KeptOnce(host, good, RunOps(host, start, front), front, last);
      OneMoreOp(host, start, ops, front, last);
    }
  }

  lemma OneMoreOp(host: Host, start: State, ops: seq<Op>, front: seq<Op>, last: Op)
    requires ops != [] && front == ops[..|ops| - 1] && last == ops[|ops| - 1]
    ensures ops == front + [last] && RunOps(host, start, ops) == RunStep(host, RunOps(host, start, front), last)
  {
  }

  /**
   * After any sequence of calls on a new token, a signature that is there was made over what would be signed now, and
   * the token still passes the checks for signing; and what would be signed is the payload if and only if every call
   * that tried to detach a payload that JSON cannot express is followed by one that gives another payload.
   */
  lemma EveryRun(host: Host, payload: Option<Payload>, ops: seq<Op>)
    requires Created(host, payload).Ok?
    ensures var r := RunOps(host, Created(host, payload).value, ops);
            Consistent(host, r) && (InSync(host, r.state) <==> Repaired(host, ops))
  {
    var good := (r: Run, before: seq<Op>) => Consistent(host, r) && (InSync(host, r.state) <==> Repaired(host, before));
    forall r, before, op | good(r, before) ensures good(RunStep(host, r, op), before + [op]) {
      OneMoreCall(host, r, before, op);
    }
    var start := Created(host, payload).value;
    var none: seq<Op> := [];
    assert Consistent(host, Run(start, ""));
    assert InSync(host, start);
    assert Repaired(host, none);
    assert good(Run(start, ""), none);
    RunsKeep(host, start, ops, good);
  }

  /**
   * Whatever calls came before, a `setDetached` that throws for its payload leaves the token detached with the new
   * payload and without a signature, but with the bytes and the text of the old payload.
   */
  lemma DetachCanHalfSucceed(host: Host, payload: Option<Payload>, ops: seq<Op>, sigD: Param)
    requires Created(host, payload).Ok? && sigD.SigD? && ParamOk(host, "sigD", sigD)
    ensures var s := RunOps(host, Created(host, payload).value, ops).state;
            var d := Step(host, s, SetDetached(sigD, Some(Data(None))));
            && d.thrown == Some(NotSerializable)
            && d.state.detached && d.state.payload == Some(Data(None)) && d.state.signature == None
            && d.state.bytes == s.bytes && d.state.text == s.text
            && !InSync(host, d.state) && (Repaired(host, ops) ==> d.state != s)
  {
    EveryRun(host, payload, ops);
  }

  // ---------- the builder ----------

  class Token {
    const host: Host
    var protectedHeader: Header
    var unprotectedHeader: Option<Json>
    var payload: Option<Payload>
    var payloadBytes: seq<Byte>
    var payloadText: string
    var detached: bool
    var signature: Option<string>

    ghost function Current(): State
      reads this
    {
      State(protectedHeader, unprotectedHeader, payload, payloadBytes, payloadText, detached, signature)
    }

    /** A new token for a payload that was serialized before. */
    constructor (host: Host, payload: Option<Payload>, serialized: Serialized)
      requires Created(host, payload).Ok?
      requires serialized == if payload.None? then Serialized([], "") else Serialize(host, payload.value).value
      ensures this.host == host && Current() == Created(host, payload).value
    {
      this.host := host;
      this.protectedHeader := map[];
      this.unprotectedHeader := None;
      this.payload := payload;
      this.payloadBytes := serialized.bytes;
      this.payloadText := serialized.text;
      this.detached := false;
      this.signature := None;
    }

    /** A new token, unless its payload cannot be expressed in JSON. */
    static method Create(host: Host, payload: Option<Payload>) returns (r: Outcome<Token, JadesError>)
      ensures Created(host, payload).Err? ==> r == Err(Created(host, payload).error)
      ensures Created(host, payload).Ok? ==>
                r.Ok? && fresh(r.value) && r.value.host == host && r.value.Current() == Created(host, payload).value
    {
      var serialized := if payload.None? then Ok(Serialized([], "")) else Serialize(host, payload.value);
      if serialized.Err? { return Err(serialized.error); }
      var token := new Token(host, payload, serialized.value);
      r := Ok(token);
    }

    method SetProtectedHeader(header: Header) returns (thrown: Option<JadesError>)
      modifies this
      ensures Done(Current(), thrown) == Step(host, old(Current()), Op.SetProtectedHeader(header))
    {
      var merged := protectedHeader + header;
      if !Shaped(host, merged) { return Some(InvalidHeader); }
      protectedHeader := merged;
      signature := None;
      thrown := None;
    }

    method SetUnprotectedHeader(header: Json) returns (thrown: Option<JadesError>)
      modifies this
      ensures Done(Current(), thrown) == Step(host, old(Current()), Op.SetUnprotectedHeader(header))
    {
      if !host.unprotectedShape(header) { return Some(InvalidUnprotected); }
      unprotectedHeader := Some(header);
      thrown := None;
    }

    method SetSigningTime(seconds: Option<int>) returns (thrown: Option<JadesError>)
      modifies this
      ensures Done(Current(), thrown) == Step(host, old(Current()), Op.SetSigningTime(seconds))
    {
      if seconds.None? { return Some(InvalidSigningTime); }
      var header := protectedHeader["iat" := Number(seconds.value)];
      header := header - {"sigT"};
      thrown := SetProtectedHeader(header);
    }

    method SetLegacySigningTime(time: string) returns (thrown: Option<JadesError>)
      modifies this
      ensures Done(Current(), thrown) == Step(host, old(Current()), Op.SetLegacySigningTime(time))
    {
      var header := protectedHeader["sigT" := Text(time)];
      header := header - {"iat"};
      thrown := SetProtectedHeader(header);
    }

    method SetB64(value: bool)
      modifies this
      ensures Current() == Step(host, old(Current()), Op.SetB64(value)).state
    {
      var header := protectedHeader;
      if value {
        header := header - {"b64"};
      } else {
        header := header["b64" := Flag(false)];
      }
      protectedHeader := header;
      signature := None;
    }

    method SetDetached(sigD: Param, newPayload: Option<Payload>) returns (thrown: Option<JadesError>)
      modifies this
      ensures Done(Current(), thrown) == Step(host, old(Current()), Op.SetDetached(sigD, newPayload))
    {
      if !(sigD.SigD? && ParamOk(host, "sigD", sigD)) { return Some(InvalidSigD); }
      detached := true;
      signature := None;
      protectedHeader := protectedHeader["sigD" := sigD];
      if newPayload.Some? {
        payload := newPayload;
        var serialized := Serialize(host, newPayload.value);
        if serialized.Err? { return Some(serialized.error); }
        payloadBytes := serialized.value.bytes;
        payloadText := serialized.value.text;
      }
      if sigD.mId == HTTP_HEADERS {
        SetB64(false);
      }
      thrown := None;
    }

    method SetSignature(text: string) returns (thrown: Option<JadesError>)
      modifies this
      ensures Done(Current(), thrown) == Step(host, old(Current()), Op.SetSignature(text))
    {
      thrown :=
          Problem(host, State(protectedHeader, unprotectedHeader, payload, payloadBytes, payloadText, detached,
                              signature));
      if thrown.Some? { return; }
      if !IsSignatureText(text) { return Some(InvalidSignature); }
      signature := Some(text);
    }

    method Sign(signer: string -> Option<string>) returns (thrown: Option<JadesError>)
      modifies this
      ensures Done(Current(), thrown) == Step(host, old(Current()), Op.Sign(signer))
    {
      var state := State(protectedHeader, unprotectedHeader, payload, payloadBytes, payloadText, detached, signature);
      assert Current() == state;
      var problem, made := AskSigner(host, state, signer);
      if problem.Some? { return problem; }
      thrown := SetSignature(made);
    }
  }

  lemma SignStep(host: Host, s: State, signer: string -> Option<string>)
    ensures Step(host, s, Op.Sign(signer)) ==
            if Problem(host, s).Some? then Throw(s, Problem(host, s).value)
            else WithSigned(host, s, signer(SigningInput(host, s)))
  {
  }

  lemma SetStep(host: Host, s: State, made: string)
    ensures WithSigned(host, s, None) == Throw(s, SignerFailed)
    ensures WithSigned(host, s, Some(made)) == Step(host, s, Op.SetSignature(made))
  {
  }

  /** A token that passes the checks takes what the signer returns, if that is a signature text. */
  lemma SignIsAccepted(host: Host, s: State, signer: string -> Option<string>)
    requires Problem(host, s) == None
    requires signer(SigningInput(host, s)).Some? && IsSignatureText(signer(SigningInput(host, s)).value)
    ensures Step(host, s, Op.Sign(signer)) == Done(s.(signature := signer(SigningInput(host, s))), None)
  {
    SignatureIsAccepted(host, s, signer(SigningInput(host, s)).value);
  }

  lemma SignatureIsAccepted(host: Host, s: State, signature: string)
    requires Problem(host, s) == None && IsSignatureText(signature)
    ensures WithSigned(host, s, Some(signature)) == Done(s.(signature := Some(signature)), None)
  {
  }

  /** What the signer makes of the signing input of a token that passes the checks. */
  method AskSigner(host: Host, s: State, signer: string -> Option<string>)
    returns (thrown: Option<JadesError>, made: string)
    ensures thrown.Some? ==> Step(host, s, Op.Sign(signer)) == Throw(s, thrown.value)
    ensures thrown.None? ==> Step(host, s, Op.Sign(signer)) == Step(host, s, Op.SetSignature(made))
  {
    thrown, made := Problem(host, s), "";
    SignStep(host, s, signer);
    if thrown.None? {
      var signature := signer(SigningInput(host, s));
      SetStep(host, s, signature.GetOr(""));
      if signature.None? { return Some(SignerFailed), ""; }
      made := signature.value;
    }
  }
}
