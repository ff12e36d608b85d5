/** JAdES protected headers: the parameters, what is checked of them, and the header that is signed. */
module JadesHeader {
  import opened Basics
  import opened Json
  import opened Base64

  /** A header parameter; one that is present may still be undefined. */
  datatype Param =
    | Undefined
    | Flag(b: bool)
    | Text(s: string)
    | Number(n: int)
    | Names(names: seq<string>)
    | SigD(mId: string, details: Json)
    | Value(json: Json)

  type Header = map<string, Param>

  /** What the builder and the verifier are given: structural checks of values, JSON text, UTF-8 and base64url. */
  datatype Host = Host(
    shape: (string, Param) -> bool,
    unprotectedShape: Json -> bool,
    headerBytes: Header -> seq<Byte>,
    parseHeader: seq<Byte> -> Option<Header>,
    utf8: string -> seq<Byte>,
    text: seq<Byte> -> string,
    base64url: seq<Byte> -> string,
    fromBase64url: string -> Option<seq<Byte>>)

  const HTTP_HEADERS := "http://uri.etsi.org/19182/HttpHeaders"
  const OBJECT_BY_URI_HASH := "http://uri.etsi.org/19182/ObjectIdByURIHash"

  /** The parameters a verifier always understands, and that are critical whenever they are there. */
  const CRITICAL_PARAMETERS := ["sigD", "b64"]

  const REGISTERED_NAMES := {"alg", "jku", "jwk", "kid", "x5u", "x5c", "x5t", "x5t#S256", "typ", "cty", "crit"}

  predicate Truthy(p: Param) {
    match p
    case Undefined => false
    case Flag(b) => b
    case Text(s) => s != ""
    case Number(n) => n != 0
    case Names(_) => true
    case SigD(_, _) => true
    case Value(j) => !(j.Null? || j == Json.Bool(false) || j == Json.Num(0) || j == Json.Str(""))
  }

  function Get(h: Header, name: string): Param {
    if name in h then h[name] else Undefined
  }

  function Crit(h: Header): seq<string> {
    match Get(h, "crit") case Names(names) => names case _ => []
  }

  // ---------- the checks ----------

  /** The structural check of one parameter; every parameter may be left undefined. */
  predicate ParamOk(host: Host, name: string, p: Param) {
    || p.Undefined?
    || (&& host.shape(name, p)
        && (name == "alg" ==> p.Text? && p.s != "")
        && (name == "crit" ==> p.Names? && p.names != [] && forall i :: 0 <= i < |p.names| ==> p.names[i] != "")
        && (name == "b64" ==> p.Flag?)
        && (name == "iat" ==> p.Number?)
        && (name == "sigT" ==> p.Text?)
        && (name == "sigD" ==> p.SigD?)
        && name != "x5t" && name != "etsiU")
  }

  predicate Shaped(host: Host, h: Header) {
    forall name :: name in h ==> ParamOk(host, name, h[name])
  }

  /** `refineProtected`: `current` for a signature made now, otherwise for one that is verified. */
  predicate Refined(h: Header, current: bool) {
    && Truthy(Get(h, "alg"))
    && (Truthy(Get(h, "x5t#S256")) || Truthy(Get(h, "x5c")) || Truthy(Get(h, "x5t#o")) || Truthy(Get(h, "sigX5ts")))
    && (if current then !Get(h, "iat").Undefined? && Get(h, "sigT").Undefined?
        else Get(h, "iat").Undefined? != Get(h, "sigT").Undefined?)
    && (forall i, j :: 0 <= i < j < |Crit(h)| ==> Crit(h)[i] != Crit(h)[j])
    && (forall i :: 0 <= i < |Crit(h)| ==> Crit(h)[i] !in REGISTERED_NAMES && Crit(h)[i] in h)
    && (!Get(h, "b64").Undefined? ==> "b64" in Crit(h))
    && (Truthy(Get(h, "sigD")) ==> "sigD" in Crit(h))
    && (Get(h, "sigD").SigD? && Get(h, "sigD").mId == HTTP_HEADERS ==> Get(h, "b64") == Flag(false))
  }

  // ---------- the header that is signed ----------

  function AddIfPresent(names: seq<string>, name: string, h: Header): seq<string> {
    if name in h && name !in names then names + [name] else names
  }

  function FinalCrit(h: Header): seq<string> {
    AddIfPresent(AddIfPresent(Deduped(Crit(h)), "sigD", h), "b64", h)
  }

  /** `buildFinalHeader`. */
  function Final(h: Header): Header {
    if FinalCrit(h) == [] then h else h["crit" := Names(FinalCrit(h))]
  }

  /** What JSON keeps of a header. */
  function Defined(h: Header): Header {
    map name | name in h && !h[name].Undefined? :: h[name]
  }

  /**
   * The JSON text of a header is not empty and parses to what JSON keeps of it; base64url is that of module `Base64`.
   */
  ghost predicate Lawful(host: Host) {
    && (forall h :: Shaped(host, h) ==>
          host.headerBytes(h) != [] && host.parseHeader(host.headerBytes(h)) == Some(Defined(h)))
    && host.utf8("") == [] && host.text([]) == ""
    && (forall bytes :: host.base64url(bytes) == Encode(bytes, UrlSafe))
    && (forall text :: host.fromBase64url(text) == match Decode(text, UrlSafe) case Ok(bytes) =>
          Some(bytes) case Err(_) => None)
  }

  lemma Base64UrlFacts(host: Host, bytes: seq<Byte>)
    requires Lawful(host)
    ensures host.fromBase64url(host.base64url(bytes)) == Some(bytes)
    ensures InAlphabet(UrlSafe, host.base64url(bytes)) && (bytes != [] ==> host.base64url(bytes) != "")
  {
    DecodeOfEncode(bytes, UrlSafe);
    ValuesOfText(UrlSafe, Sextets(bytes));
    assert Encode(bytes, UrlSafe) == Base64.Text(UrlSafe, Sextets(bytes));
  }

  function EncodedHeader(host: Host, h: Header): string {
    host.base64url(host.headerBytes(h))
  }

  /** No critical parameter is present but undefined. */
  predicate CriticalDefined(h: Header) {
    forall i :: 0 <= i < |Crit(h)| ==> !Get(h, Crit(h)[i]).Undefined?
  }

  lemma DefinedGets(h: Header, name: string)
    ensures Get(Defined(h), name) == Get(h, name)
    ensures name in Defined(h) <==> !Get(h, name).Undefined?
  {
  }

  lemma DefinedIsShaped(host: Host, h: Header)
    requires Shaped(host, h)
    ensures Shaped(host, Defined(h))
  {
  }

  /**
   * A header that may be signed now is accepted by the verifier, once written and read back, if and only if each of its
   * critical parameters is defined.
   */
  lemma SignedHeaderIsAccepted(h: Header)
    requires Refined(h, true)
    ensures Refined(Defined(h), false) <==> CriticalDefined(h)
  {
    var d := Defined(h);
    DefinedGets(h, "alg");
    DefinedGets(h, "x5t#S256");
    DefinedGets(h, "x5c");
    DefinedGets(h, "x5t#o");
    DefinedGets(h, "sigX5ts");
    DefinedGets(h, "iat");
    DefinedGets(h, "sigT");
    DefinedGets(h, "crit");
    DefinedGets(h, "b64");
    DefinedGets(h, "sigD");
    assert Crit(d) == Crit(h);
    forall i | 0 <= i < |Crit(h)| ensures Crit(h)[i] in d <==> !Get(h, Crit(h)[i]).Undefined? {
      DefinedGets(h, Crit(h)[i]);
    }
  }
}
