/** The compact form of an SD-JWT, and the string over which `sd_hash` is computed. */
module CompactForm {
  import opened Basics
  import opened Splitting

  /** The encoded parts: the parsed objects keep the text they were parsed from. */
  datatype SdJwt = SdJwt(jwt: string, disclosures: seq<string>, kbJwt: Option<string>)

  datatype DecodeError = NoSeparator | InvalidPart

  /** Which texts parse as a JWT, as a disclosure, and as a key binding JWT. */
  datatype Parsers = Parsers(jwt: string -> bool, disclosure: string -> bool, kbJwt: string -> bool)

  const SEPARATOR := '~'

  function Encode(s: SdJwt): string {
    Join([s.jwt] + (if s.disclosures == [] then [] else [Join(s.disclosures, SEPARATOR)]) + [s.kbJwt.GetOr("")],
         SEPARATOR)
  }

  method EncodeSdJwt(s: SdJwt) returns (compact: string)
    ensures compact == Encode(s)
  {
    var data := [s.jwt];
    if |s.disclosures| > 0 {
      data := data + [Join(s.disclosures, SEPARATOR)];
    }
    data := data + [s.kbJwt.GetOr("")];
    compact := Join(data, SEPARATOR);
  }

  predicate Parses(s: SdJwt, parsers: Parsers) {
    && parsers.jwt(s.jwt)
    && (s.kbJwt.Some? ==> parsers.kbJwt(s.kbJwt.value))
    && forall i :: 0 <= i < |s.disclosures| ==> parsers.disclosure(s.disclosures[i])
  }

  function Decode(compact: string, parsers: Parsers): Outcome<SdJwt, DecodeError> {
    var parts := Split(compact, SEPARATOR);
    if |parts| == 1 then Err(NoSeparator)
    else
      var last := parts[|parts| - 1];
      var s := SdJwt(parts[0], parts[1..|parts| - 1], if last == "" then None else Some(last));
      if Parses(s, parsers) then Ok(s) else Err(InvalidPart)
  }

  method DecodeSdJwt(compact: string, parsers: Parsers) returns (r: Outcome<SdJwt, DecodeError>)
    ensures r == Decode(compact, parsers)
  {
    var parts := Split(compact, SEPARATOR);
    var encodedJwt, encodedDisclosures := parts[0], parts[1..];
    if |encodedDisclosures| == 0 { return Err(NoSeparator); }
    var n := |encodedDisclosures| - 1;
    var encodedKeyBindingJwt := encodedDisclosures[n];
    encodedDisclosures := encodedDisclosures[..n];
    assert encodedDisclosures == parts[1..|parts| - 1] && encodedKeyBindingJwt == parts[|parts| - 1];
    var s := SdJwt(encodedJwt, encodedDisclosures,
                   if encodedKeyBindingJwt == "" then None else Some(encodedKeyBindingJwt));
    r := if Parses(s, parsers) then Ok(s) else Err(InvalidPart);
  }

  /** All parts one after the other. */
  function Parts(s: SdJwt): seq<string> {
    [s.jwt] + s.disclosures + [s.kbJwt.GetOr("")]
  }

  lemma {:induction false} JoinNested(first: string, middle: seq<string>, last: string, separator: char)
    requires middle != []
    ensures Join([first] + middle + [last], separator) == Join([first, Join(middle, separator), last], separator)
  {
    JoinSnoc(middle, last, separator);
    var joined := Join(middle, separator);
    var flat, nested := [first] + middle + [last], [first, joined, last];
    assert flat[1..] == middle + [last];
    assert Join(flat, separator) == first + [separator] + (joined + [separator] + last);
    assert nested[1..] == [joined, last] && [joined, last][1..] == [last];
    assert Join([joined, last], separator) == joined + [separator] + last;
    assert Join(nested, separator) == first + [separator] + (joined + [separator] + last);
  }

  lemma {:induction false} JoinSnoc(middle: seq<string>, last: string, separator: char)
    requires middle != []
    ensures Join(middle + [last], separator) == Join(middle, separator) + [separator] + last
  {
    if |middle| == 1 {
      assert (middle + [last])[1..] == [last];
    } else {
      assert (middle + [last])[1..] == middle[1..] + [last];
      JoinSnoc(middle[1..], last, separator);
    }
  }

  lemma EncodeJoinsParts(s: SdJwt)
    ensures Encode(s) == Join(Parts(s), SEPARATOR)
  {
    var last := s.kbJwt.GetOr("");
    if s.disclosures == [] {
      assert [s.jwt] + [] + [last] == [s.jwt] + s.disclosures + [last];
    } else {
      JoinNested(s.jwt, s.disclosures, last, SEPARATOR);
      assert [s.jwt] + [Join(s.disclosures, SEPARATOR)] + [last] == [s.jwt, Join(s.disclosures, SEPARATOR), last];
    }
  }

  /** Encoding gives every accepted text back. */
  lemma EncodeOfDecode(compact: string, parsers: Parsers)
    requires Decode(compact, parsers).Ok?
    ensures Encode(Decode(compact, parsers).value) == compact
  {
    var s := Decode(compact, parsers).value;
    var parts := Split(compact, SEPARATOR);
    EncodeJoinsParts(s);
    assert Parts(s) == parts;
    JoinOfSplit(compact, SEPARATOR);
  }

  /** No part contains the separator, and a key binding JWT is not empty. */
  ghost predicate Separable(s: SdJwt) {
    s.kbJwt != Some("") && forall i :: 0 <= i < |Parts(s)| ==> !Contains(Parts(s)[i], SEPARATOR)
  }

  /** Decoding gives back what was encoded. */
  lemma DecodeOfEncode(s: SdJwt, parsers: Parsers)
    requires Separable(s) && Parses(s, parsers)
    ensures Decode(Encode(s), parsers) == Ok(s)
  {
    EncodeJoinsParts(s);
    SplitOfJoin(Parts(s), SEPARATOR);
    assert Parts(s)[1..|Parts(s)| - 1] == s.disclosures;
  }

  function WithoutKb(s: SdJwt): SdJwt {
    s.(kbJwt := None)
  }

  /**
   * The verifier, which drops the key binding JWT of the text it received and encodes the rest, hashes the very string
   * the holder hashed before adding that key binding JWT.
   */
  lemma SdHashAgrees(presented: SdJwt, kbJwt: string, parsers: Parsers)
    requires presented.kbJwt == None && Separable(presented.(kbJwt := Some(kbJwt)))
             && Parses(presented.(kbJwt := Some(kbJwt)), parsers)
    ensures var received := Decode(Encode(presented.(kbJwt := Some(kbJwt))), parsers);
            received.Ok? && Encode(WithoutKb(received.value)) == Encode(presented)
  {
    DecodeOfEncode(presented.(kbJwt := Some(kbJwt)), parsers);
  }
}
