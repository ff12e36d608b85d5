/** `SdJwtInstance.verify`, which throws at the first error, and `safeVerify`, which collects them. */
module Verifying {
  import opened Basics
  import opened Json

  /** A parsed SD-JWT, as far as the control flow looks at it. */
  datatype Decoded = Decoded(text: string, hasPayload: bool, kbJwt: Option<string>)

  type Claims = seq<Member>

  datatype KeyBinding = KeyBinding(header: Json, payload: Json, sdHash: string)

  datatype Failure =
    | HasherNotFound
    | VerifierNotFound
    | InvalidSdJwt
    | ReservedField
    | MissingRequiredClaims
    | KbJwtMissing
    | KbVerifierNotFound
    | KbSignatureInvalid
    | SdHashInvalid
    | Callback(code: string)

  /** The configuration and the deterministic callbacks, with the current date already fixed. */
  datatype Instance = Instance(
    hasher: bool,
    verifier: bool,
    kbVerifier: bool,
    fromEncode: string -> Outcome<Decoded, Failure>,
    verifyJwt: Decoded -> Outcome<Json, Failure>,
    getClaims: Decoded -> Outcome<Claims, Failure>,
    checkPayload: Claims -> Option<Failure>,
    listKeys: Claims -> seq<string>,
    verifyKb: (Decoded, Claims, string) -> Outcome<Option<KeyBinding>, Failure>,
    sdHash: Decoded -> Outcome<string, Failure>)

  /** An empty nonce is no nonce. */
  datatype Options = Options(requiredClaimKeys: Option<seq<string>>, keyBindingNonce: string)

  datatype Verified = Verified(payload: Claims, header: Json, kb: Option<KeyBinding>)

  predicate HasKeys(keys: seq<string>, required: seq<string>) {
    forall k :: k in required ==> k in keys
  }

  // ---------- the steps both share ----------

  function Header(self: Instance, s: Decoded): Outcome<Json, Failure> {
    if !self.verifier then Err(VerifierNotFound) else self.verifyJwt(s)
  }

  /** The error about required claim keys, if any. */
  function KeysProblem(self: Instance, s: Decoded, options: Options): Option<Failure> {
    match options.requiredClaimKeys
    case None => None
    case Some(required) =>
      match self.getClaims(s)
      case Err(e) => Some(e)
      case Ok(claims) => if HasKeys(self.listKeys(claims), required) then None else Some(MissingRequiredClaims)
  }

  function KeyBindingOf(self: Instance, s: Decoded, payload: Claims, nonce: string): Outcome<KeyBinding, Failure> {
    if s.kbJwt.None? then Err(KbJwtMissing)
    else if !self.kbVerifier then Err(KbVerifierNotFound)
    else
      var kb :- self.verifyKb(s, payload, nonce);
      if kb.None? then Err(KbSignatureInvalid)
      else
        var hash :- self.sdHash(s);
        if hash != kb.value.sdHash then Err(SdHashInvalid) else Ok(kb.value)
  }

  // ---------- fail fast ----------

  function Verify(self: Instance, encoded: string, options: Options): Outcome<Verified, Failure> {
    if !self.hasher then Err(HasherNotFound)
    else
      var s :- self.fromEncode(encoded);
      if !s.hasPayload then Err(InvalidSdJwt)
      else
        var header :- Header(self, s);
        var claims :- self.getClaims(s);
        if !Clean(Obj(claims)) then Err(ReservedField)
        else if self.checkPayload(claims).Some? then Err(self.checkPayload(claims).value)
        else if KeysProblem(self, s, options).Some? then Err(KeysProblem(self, s, options).value)
        else if options.keyBindingNonce == "" then Ok(Verified(claims, header, None))
        else
          var kb :- KeyBindingOf(self, s, claims, options.keyBindingNonce);
          Ok(Verified(claims, header, Some(kb)))
  }

  // ---------- collect errors ----------

  function Reported(problem: Option<Failure>): seq<Failure> {
    match problem case None => [] case Some(e) => [e]
  }

  /** The error about the signature, the unpacked claims or the payload: the first of these, if any. */
  function ClaimsProblem(self: Instance, s: Decoded): Option<Failure> {
    match Header(self, s)
    case Err(e) => Some(e)
    case Ok(_) =>
      match self.getClaims(s)
      case Err(e) => Some(e)
      case Ok(claims) => self.checkPayload(claims)
  }

  predicate HasClaims(self: Instance, s: Decoded) {
    Header(self, s).Ok? && self.getClaims(s).Ok?
  }

  /** The error about the key binding; it is not checked against claims that are not there. */
  function KeyBindingProblem(self: Instance, s: Decoded, nonce: string): Option<Failure> {
    if nonce == "" then None
    else if s.kbJwt.None? then Some(KbJwtMissing)
    else if !self.kbVerifier then Some(KbVerifierNotFound)
    else if !HasClaims(self, s) then None
    else
      match KeyBindingOf(self, s, self.getClaims(s).value, nonce)
      case Err(e) => Some(e)
      case Ok(_) => None
  }

  /** All errors that are collected, in order. */
  function Problems(self: Instance, encoded: string, options: Options): seq<Failure> {
    if !self.hasher || !self.verifier then
      (if self.hasher then [] else [HasherNotFound]) + (if self.verifier then [] else [VerifierNotFound])
    else
      match self.fromEncode(encoded)
      case Err(_) => [InvalidSdJwt]
      case Ok(s) =>
        (if s.hasPayload then [] else [InvalidSdJwt]) + Reported(ClaimsProblem(self, s))
        + Reported(KeysProblem(self, s, options)) +
        Reported(KeyBindingProblem(self, s, options.keyBindingNonce))
  }

  /** Without problems, what is returned. */
  function SafeResult(self: Instance, encoded: string, options: Options): Verified
    requires Problems(self, encoded, options) == []
  {
    var s := self.fromEncode(encoded).value;
    var claims := self.getClaims(s).value;
    Verified(claims, Header(self, s).value,
             if options.keyBindingNonce == "" then None
                else Some(KeyBindingOf(self, s, claims, options.keyBindingNonce).value))
  }

  /** `verify` comes as far as the check for reserved names, and that check fails. */
  predicate StopsAtReserved(self: Instance, encoded: string) {
    && self.hasher && self.verifier && self.fromEncode(encoded).Ok?
    && var s := self.fromEncode(encoded).value;
       s.hasPayload && HasClaims(self, s) && !Clean(Obj(self.getClaims(s).value))
  }

  /** With a hasher there is a verifier too, and the text is an SD-JWT. */
  predicate CanCheck(self: Instance, encoded: string) {
    self.hasher ==> self.verifier && self.fromEncode(encoded).Ok?
  }

  /**
   * `verify` succeeds if and only if `safeVerify` finds no problem and the claims have no reserved name at any depth,
   * and then both return the same. If the check for reserved names stops it, that is the error it throws. Otherwise it
   * throws the first of the problems, unless the verifier is missing or the text is no SD-JWT.
   */
  lemma SafeVerifyAgrees(self: Instance, encoded: string, options: Options)
    ensures Verify(self, encoded, options).Ok? <==>
            Problems(self, encoded, options) == [] && Clean(Obj(SafeResult(self, encoded, options).payload))
    ensures Verify(self, encoded, options).Ok? ==>
              Verify(self, encoded, options) == Ok(SafeResult(self, encoded, options))
    ensures StopsAtReserved(self, encoded) ==> Verify(self, encoded, options) == Err(ReservedField)
    ensures !StopsAtReserved(self, encoded) && CanCheck(self, encoded) && Verify(self, encoded, options).Err? ==>
              Problems(self, encoded, options) != []
              && Verify(self, encoded, options) == Err(Problems(self, encoded, options)[0])
  {
  }

  method SafeVerify(self: Instance, encoded: string, options: Options)
    returns (data: Option<Verified>, errors: seq<Failure>)
    ensures errors == Problems(self, encoded, options)
    ensures data == if Problems(self, encoded, options) == [] then Some(SafeResult(self, encoded, options)) else None
    ensures var r := Verify(self, encoded, options);
            match data
            case Some(d) => if Clean(Obj(d.payload)) then r == Ok(d) else r == Err(ReservedField)
            case None => r.Err?
  {
    SafeVerifyAgrees(self, encoded, options);
    errors := [];
    data := None;
    if !self.hasher { errors := errors + [HasherNotFound]; }
    if !self.verifier { errors := errors + [VerifierNotFound]; }
    if errors != [] { return; }

    var decoded := self.fromEncode(encoded);
    if decoded.Err? { return None, [InvalidSdJwt]; }
    var s := decoded.value;
    if !s.hasPayload { errors := errors + [InvalidSdJwt]; }

    var header, payload, found := CollectClaims(self, s);
    errors := errors + found;

    var keysProblem := KeysProblem(self, s, options);
    if keysProblem.Some? { errors := errors + [keysProblem.value]; }

    var kb, unbound := CollectKeyBinding(self, s, payload, options.keyBindingNonce);
    errors := errors + unbound;
    if errors == [] {
      data := Some(Verified(payload.value, header.value, kb));
    }
  }

  /** Verifies the signature and unpacks and validates the claims; stops at the first of these that fails. */
  method CollectClaims(self: Instance, s: Decoded)
    returns (header: Option<Json>, payload: Option<Claims>, errors: seq<Failure>)
    requires self.verifier
    ensures errors == Reported(ClaimsProblem(self, s))
    ensures header == if Header(self, s).Ok? then Some(Header(self, s).value) else None
    ensures payload == if HasClaims(self, s) then Some(self.getClaims(s).value) else None
  {
    header, payload, errors := None, None, [];
    var verified := Header(self, s);
    if verified.Err? { return None, None, [verified.error]; }
    header := Some(verified.value);
    var claims := self.getClaims(s);
    if claims.Err? { return header, None, [claims.error]; }
    payload := Some(claims.value);
    var problem := self.checkPayload(claims.value);
    if problem.Some? { errors := [problem.value]; }
  }

  /** Verifies the key binding, if one is asked for and there are claims to verify it against. */
  method CollectKeyBinding(self: Instance, s: Decoded, payload: Option<Claims>, nonce: string)
    returns (kb: Option<KeyBinding>, errors: seq<Failure>)
    requires payload == if HasClaims(self, s) then Some(self.getClaims(s).value) else None
    ensures errors == Reported(KeyBindingProblem(self, s, nonce))
    ensures kb == if nonce == "" || errors != [] || payload.None? then None
                  else Some(KeyBindingOf(self, s, payload.value, nonce).value)
  {
    kb, errors := None, [];
    if nonce == "" { return; }
    if s.kbJwt.None? { return None, [KbJwtMissing]; }
    if !self.kbVerifier { return None, [KbVerifierNotFound]; }
    if payload.Some? {
      var checked := KeyBindingOf(self, s, payload.value, nonce);
      if checked.Err? { return None, [checked.error]; }
      kb := Some(checked.value);
    }
  }

  method VerifyFast(self: Instance, encoded: string, options: Options) returns (r: Outcome<Verified, Failure>)
    ensures r == Verify(self, encoded, options)
  {
    if !self.hasher { return Err(HasherNotFound); }
    var s :- self.fromEncode(encoded);
    if !s.hasPayload { return Err(InvalidSdJwt); }
    var header :- Header(self, s);
    var claims :- self.getClaims(s);
    var reserved := HasReserved(Obj(claims));
    if reserved { return Err(ReservedField); }
    if self.checkPayload(claims).Some? { return Err(self.checkPayload(claims).value); }
    var keysProblem := KeysProblem(self, s, options);
    if keysProblem.Some? { return Err(keysProblem.value); }
    if options.keyBindingNonce == "" { return Ok(Verified(claims, header, None)); }
    var kb :- KeyBindingOf(self, s, claims, options.keyBindingNonce);
    r := Ok(Verified(claims, header, Some(kb)));
  }

  /** `validateReservedFieldsInternal`: visits every member at every depth. */
  method HasReserved(node: Json) returns (found: bool)
    ensures found <==> !Clean(node)
    decreases node
  {
    var cells := Cells(node);
    for i := 0 to |cells|
      invariant forall k :: 0 <= k < i ==>
                  !(cells[k].seg.Key? && IsReserved(cells[k].seg.name)) && Clean(cells[k].value)
    {
      if cells[i].seg.Key? && IsReserved(cells[i].seg.name) { return true; }
      var below := HasReserved(cells[i].value);
      if below { return true; }
    }
    found := false;
  }
}
