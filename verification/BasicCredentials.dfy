/** The HTTP Basic credential the API route sends to the evaluation service:
    the user-pass of section 2 of RFC 7617 (id, ':', secret), UTF-8 encoded and
    then base64 encoded with the alphabet of section 4 of RFC 4648. */
module BasicCredentials {
  import opened Wrappers
  import opened JsObjects
  import opened Bytes
  import Base64
  import Utf8

  /** `id + ':' + secret`. In the route the two parts are read from the process
      environment; an unset variable would be concatenated as the text
      "undefined". Here they are parameters. */
  function UserPass(id: string, secret: string): string
  {
    id + ":" + secret
  }

  /** `Buffer.from(UserPass(id, secret)).toString('base64')`: it base64-decodes
      back to the UTF-8 bytes of the user-pass. */
  function Token(id: string, secret: string): (t: string)
    ensures Base64.Decode(t) == Some(Utf8.Encode(UserPass(id, secret)))
  {
    Base64.DecodeEncode(Utf8.Encode(UserPass(id, secret)));
    Base64.Encode(Utf8.Encode(UserPass(id, secret)))
  }

  /** The `Authorization` header value: a receiver reads the user-pass back
      from it. */
  function AuthorizationValue(id: string, secret: string): (v: string)
    ensures ParseAuthorization(v) == Some(UserPass(id, secret))
  {
    var t := Token(id, secret);
    Utf8.DecodeEncode(UserPass(id, secret));
    assert ("Basic " + t)[..6] == "Basic " && ("Basic " + t)[6..] == t;
    "Basic " + t
  }

  /** How the receiving side reads a Basic header: strip the scheme, then
      base64-decode, then UTF-8-decode. */
  function ParseAuthorization(header: string): Option<string>
  {
    if !StartsWith(header, "Basic ") then None
    else
      match Base64.Decode(header[6..])
      case None => None
      case Some(bytes) => Utf8.Decode(bytes)
  }

  /** Section 2 of RFC 7617: the user-id ends at the first colon. */
  function SplitUserPass(userPass: string): Option<(string, string)>
  {
    var i := IndexOf(userPass, ':');
    if i < |userPass| then Some((userPass[..i], userPass[i + 1..])) else None
  }

  /** The token is four characters for every started group of three bytes of
      the UTF-8 user-pass, each in the base64 alphabet or the pad '='. */
  lemma TokenShape(id: string, secret: string)
    ensures var n := |Utf8.Encode(UserPass(id, secret))|;
      |Token(id, secret)| == 4 * ((n + 2) / 3)
    ensures forall i | 0 <= i < |Token(id, secret)| ::
      Token(id, secret)[i] == '=' || Base64.CharSextet(Token(id, secret)[i]).Some?
  {
    Base64.EncodeAlphabet(Utf8.Encode(UserPass(id, secret)));
  }

  /** A receiver recovers the id and the secret themselves when the id has no
      colon (section 2 of RFC 7617 forbids one there). */
  lemma CredentialsRecovered(id: string, secret: string)
    requires forall i | 0 <= i < |id| :: id[i] != ':'
    ensures SplitUserPass(UserPass(id, secret)) == Some((id, secret))
  {
    var s := UserPass(id, secret);
    assert s[|id|] == ':';
    assert IndexOf(s, ':') == |id|;
    assert s[..|id|] == id && s[|id| + 1..] == secret;
  }

  /** Different credentials never share a header value. */
  lemma AuthorizationValueInjective(id: string, secret: string, id': string, secret': string)
    requires AuthorizationValue(id, secret) == AuthorizationValue(id', secret')
    ensures UserPass(id, secret) == UserPass(id', secret')
  {
  }

  /** The credential for the id "id" and the secret "secret". */
  lemma TokenVector()
    ensures Token("id", "secret") == "aWQ6c2VjcmV0"
  {
    VectorBytes();
    VectorEncoding();
  }

  lemma VectorBytes()
    ensures Utf8.Encode(UserPass("id", "secret")) == [105, 100, 58, 115, 101, 99, 114, 101, 116]
  {
    AsciiBytes(UserPass("id", "secret"), [105, 100, 58, 115, 101, 99, 114, 101, 116]);
  }

  /** ASCII text is encoded as its own character codes. */
  lemma {:induction false} AsciiBytes(text: string, codes: seq<Byte>)
    requires |text| == |codes|
    requires forall i | 0 <= i < |text| :: text[i] as int == codes[i] < 0x80
    ensures Utf8.Encode(text) == codes
  {
    if text != [] {
      AsciiBytes(text[1..], codes[1..]);
      assert codes == [codes[0]] + codes[1..];
    }
  }

  lemma VectorEncoding()
    ensures Base64.Encode([105, 100, 58, 115, 101, 99, 114, 101, 116]) == "aWQ6c2VjcmV0"
  {
    var codes: seq<Byte> := [105, 100, 58, 115, 101, 99, 114, 101, 116];
    VectorGroups();
    assert codes[3..][3..] == codes[6..] && codes[6..][3..] == [];
  }

  lemma VectorGroups()
    ensures Base64.EncodeGroup(105, 100, 58) == "aWQ6"
    ensures Base64.EncodeGroup(115, 101, 99) == "c2Vj"
    ensures Base64.EncodeGroup(114, 101, 116) == "cmV0"
  {
  }
}
