/** `security/tokens.py`: typed, canonical tokens over an authenticated cipher.

    The cipher, the JSON serialiser and the text forms of dates, decimals and UUIDs are parameters;
    `Ideal` states what is assumed of them. */
module Tokens {
  import opened Outcomes
  import opened Values
  import opened Base64Url

  const PREFIX := "pii:v1:"
  const MAX_TOKEN_CHARS := 4096
  const NONCE_BYTES := 12
  const SEAL_BYTES := 16
  const MAX_PAYLOAD_BYTES := 3038

  datatype Data = JText(text: string) | JBool(flag: bool) | JInt(number: int) | JFloat(digits: string) | JOther

  /** A parsed payload: an object with exactly the keys `v`, `t` and `d`, or anything else. */
  datatype Json = Document(version: Data, tag: Data, data: Data) | OtherJson

  datatype Library = Library(
    seal: (seq<byte>, seq<byte>, seq<byte>, string) -> seq<byte>,
    open: (seq<byte>, seq<byte>, seq<byte>, string) -> Option<seq<byte>>,
    dumps: Json -> Option<seq<byte>>,
    loads: seq<byte> -> Option<Json>,
    show: Value -> string,
    parse: (string, string) -> Option<Value>)

  datatype Codec = Codec(alias: string, key: seq<byte>, lib: Library) {
    function Context(): string {
      "pii:v1\0" + alias
    }
  }

  // ----- Typed payloads

  predicate TextTag(tag: string) {
    tag == "decimal" || tag == "date" || tag == "datetime" || tag == "time" || tag == "uuid" || tag == "bytes"
  }

  /** The type tag and JSON data of a value that can be tokenised. */
  function Tagged(lib: Library, v: Value): Option<(string, Data)> {
    match v
    case Str(text) => Some(("str", JText(text)))
    case Bool(flag) => Some(("bool", JBool(flag)))
    case Int(number) => Some(("int", JInt(number)))
    case Float(digits, finite) => if finite then Some(("float", JFloat(digits))) else None
    case Decimal(_, _) => Some(("decimal", JText(lib.show(v))))
    case Date(_) => Some(("date", JText(lib.show(v))))
    case DateTime(_) => Some(("datetime", JText(lib.show(v))))
    case Time(_) => Some(("time", JText(lib.show(v))))
    case Uuid(_) => Some(("uuid", JText(lib.show(v))))
    case Bytes(_) => Some(("bytes", JText(lib.show(v))))
    case _ => None
  }

  function Payload(lib: Library, v: Value): Option<seq<byte>> {
    var tagged := Tagged(lib, v);
    if tagged.None? then None
    else lib.dumps(Document(JInt(1), JText(tagged.value.0), tagged.value.1))
  }

  /** Parses the data of a tag, rejecting a wrong JSON type and any non-canonical text. */
  function DecodeValue(lib: Library, tag: Data, data: Data): Option<Value> {
    if !tag.JText? then None
    else if tag.text == "str" then (if data.JText? then Some(Str(data.text)) else None)
    else if tag.text == "bool" then (if data.JBool? then Some(Bool(data.flag)) else None)
    else if tag.text == "int" then (if data.JInt? then Some(Int(data.number)) else None)
    else if tag.text == "float" then (if data.JFloat? then Some(Float(data.digits, true)) else None)
    else if TextTag(tag.text) && data.JText? then
      var v := lib.parse(tag.text, data.text);
      if v.Some? && lib.show(v.value) == data.text && (v.value.Decimal? ==> v.value.finite) then v else None
    else None
  }

  // ----- Tokens

  function Token(codec: Codec, nonce: seq<byte>, payload: seq<byte>): string {
    PREFIX + Encode(nonce + codec.lib.seal(codec.key, nonce, payload, codec.Context()))
  }

  /** NULL stays NULL; a value that has no payload, or too long a token, is refused. */
  function Encrypt(codec: Codec, nonce: seq<byte>, v: Value): Result<Option<string>> {
    if v == Null then Ok(None)
    else
      var payload := Payload(codec.lib, v);
      if payload.None? then Rejected(UnsupportedValue)
      else
        var token := Token(codec, nonce, payload.value);
        if |token| > MAX_TOKEN_CHARS then Rejected(UnsupportedValue) else Ok(Some(token))
  }

  predicate IsAscii(s: string) {
    forall i :: 0 <= i < |s| ==> s[i] < 128 as char
  }

  predicate HasPrefix(s: string) {
    PREFIX <= s
  }

  function DecryptRaw(codec: Codec, raw: seq<byte>): Option<Value> {
    if |raw| < NONCE_BYTES + SEAL_BYTES then None
    else
      var payload := codec.lib.open(codec.key, raw[..NONCE_BYTES], raw[NONCE_BYTES..], codec.Context());
      if payload.None? then None
      else
        var json := codec.lib.loads(payload.value);
        if json.None? || !json.value.Document? || json.value.version != JInt(1) then None
        else DecodeValue(codec.lib, json.value.tag, json.value.data)
  }

  /** Every failure is the same error. */
  function Decrypt(codec: Codec, token: string): Result<Value> {
    if |token| > MAX_TOKEN_CHARS || !HasPrefix(token) then Rejected(InvalidToken)
    else
      var body := token[|PREFIX|..];
      if !IsAscii(body) then Rejected(InvalidToken)
      else
        var raw := Unframe(body);
        if raw.None? then Rejected(InvalidToken)
        else
          var v := DecryptRaw(codec, raw.value);
          if v.None? then Rejected(InvalidToken) else Ok(v.value)
  }

  // ----- What is assumed of the platform

  /** Sealing is inverted by opening, and only genuine sealed texts open. */
  ghost predicate IdealCipher(lib: Library) {
    && (forall k, n, p, c ::
          |lib.seal(k, n, p, c)| == |p| + SEAL_BYTES && lib.open(k, n, lib.seal(k, n, p, c), c) == Some(p))
    && (forall k, n, s, c :: lib.open(k, n, s, c).Some? ==> s == lib.seal(k, n, lib.open(k, n, s, c).value, c))
  }

  /** The key and the authenticated context a codec seals with. */
  type Domain = (seq<byte>, string)

  /** Among the domains in use, a text sealed in one does not open in another. */
  ghost predicate Separates(lib: Library, domains: set<Domain>) {
    forall d, d', n, p :: d in domains && d' in domains && lib.open(d'.0, n, lib.seal(d.0, n, p, d.1), d'.1).Some? ==>
      d == d'
  }

  ghost predicate FaithfulText(lib: Library) {
    && (forall j :: lib.dumps(j).Some? ==> lib.loads(lib.dumps(j).value) == Some(j))
    && (forall v :: Tagged(lib, v).Some? && TextTag(Tagged(lib, v).value.0) ==>
        lib.parse(Tagged(lib, v).value.0, lib.show(v)) == Some(v))
  }

  ghost predicate Ideal(lib: Library) {
    IdealCipher(lib) && FaithfulText(lib)
  }

  predicate IsNonce(nonce: seq<byte>) {
    |nonce| == NONCE_BYTES
  }

  /** A decimal that is not finite serialises but is refused when read back. */
  predicate Restorable(v: Value) {
    v.Decimal? ==> v.finite
  }

  // ----- Results

  lemma UnframeToken(codec: Codec, nonce: seq<byte>, payload: seq<byte>)
    ensures var token := Token(codec, nonce, payload);
      var raw := nonce + codec.lib.seal(codec.key, nonce, payload, codec.Context());
      HasPrefix(token) && IsAscii(token[|PREFIX|..]) && Unframe(token[|PREFIX|..]) == Some(raw)
  {
    var raw := nonce + codec.lib.seal(codec.key, nonce, payload, codec.Context());
    assert Token(codec, nonce, payload)[|PREFIX|..] == Encode(raw);
    EncodeAscii(raw);
    OneBodyPerByteString(raw, Encode(raw));
  }

  lemma DecryptToken(codec: Codec, other: Codec, nonce: seq<byte>, payload: seq<byte>)
    requires IsNonce(nonce) && IdealCipher(codec.lib) && other.lib == codec.lib
    requires |Token(codec, nonce, payload)| <= MAX_TOKEN_CHARS
    ensures var sealed := codec.lib.seal(codec.key, nonce, payload, codec.Context());
      Decrypt(other, Token(codec, nonce, payload)) ==
      var v := DecryptRaw(other, nonce + sealed);
      if v.None? then Rejected(InvalidToken) else Ok(v.value)
  {
    UnframeToken(codec, nonce, payload);
  }

  /** What opening the sealed payload of a value gives. */
  lemma SealedValueDecodes(codec: Codec, nonce: seq<byte>, v: Value)
    requires Ideal(codec.lib) && IsNonce(nonce) && v != Null && Payload(codec.lib, v).Some?
    ensures Tagged(codec.lib, v).Some?
    ensures var raw := nonce + codec.lib.seal(codec.key, nonce, Payload(codec.lib, v).value, codec.Context());
      var tagged := Tagged(codec.lib, v).value;
      DecryptRaw(codec, raw) == DecodeValue(codec.lib, JText(tagged.0), tagged.1)
  {
    var lib := codec.lib;
    var payload := Payload(lib, v).value;
    var sealed := lib.seal(codec.key, nonce, payload, codec.Context());
    var raw := nonce + sealed;
    assert raw[..NONCE_BYTES] == nonce && raw[NONCE_BYTES..] == sealed;
    assert lib.open(codec.key, nonce, sealed, codec.Context()) == Some(payload);
    var tagged := Tagged(lib, v).value;
    assert lib.loads(payload) == Some(Document(JInt(1), JText(tagged.0), tagged.1));
  }

  /** A tagged value is read back, but for a non-finite decimal. */
  lemma TaggedDecodes(lib: Library, v: Value)
    requires Ideal(lib) && Tagged(lib, v).Some?
    ensures var tagged := Tagged(lib, v).value;
      DecodeValue(lib, JText(tagged.0), tagged.1) == if Restorable(v) then Some(v) else None
  {
    var tagged := Tagged(lib, v).value;
    if TextTag(tagged.0) {
      assert lib.parse(tagged.0, lib.show(v)) == Some(v);
    }
  }

  /** MAIN RESULT. A token decrypts to the value it was made from, with its type, iff that value is
      not a non-finite decimal; such a token is refused. */
  lemma TokenRoundTrip(codec: Codec, nonce: seq<byte>, v: Value)
    requires Ideal(codec.lib) && IsNonce(nonce)
    requires v != Null && Encrypt(codec, nonce, v).Ok?
    ensures Encrypt(codec, nonce, v).value.Some?
    ensures Restorable(v) <==> Decrypt(codec, Encrypt(codec, nonce, v).value.value) == Ok(v)
    ensures !Restorable(v) ==> Decrypt(codec, Encrypt(codec, nonce, v).value.value) == Rejected(InvalidToken)
  {
    var lib := codec.lib;
    DecryptToken(codec, codec, nonce, Payload(lib, v).value);
    SealedValueDecodes(codec, nonce, v);
    TaggedDecodes(lib, v);
  }

  /** A token is refused by a codec of another alias or another key. */
  lemma TokenBelongsToItsAlias(codec: Codec, other: Codec, domains: set<Domain>, nonce: seq<byte>, v: Value)
    requires Ideal(codec.lib) && other.lib == codec.lib && IsNonce(nonce)
    requires Separates(codec.lib, domains)
    requires (codec.key, codec.Context()) in domains && (other.key, other.Context()) in domains
    requires v != Null && Encrypt(codec, nonce, v).Ok?
    requires other.alias != codec.alias || other.key != codec.key
    ensures Decrypt(other, Encrypt(codec, nonce, v).value.value) == Rejected(InvalidToken)
  {
    var payload := Payload(codec.lib, v).value;
    var sealed := codec.lib.seal(codec.key, nonce, payload, codec.Context());
    DecryptToken(codec, other, nonce, payload);
    var raw := nonce + sealed;
    assert raw[..NONCE_BYTES] == nonce && raw[NONCE_BYTES..] == sealed;
    assert codec.Context()[|"pii:v1\0"|..] == codec.alias && other.Context()[|"pii:v1\0"|..] == other.alias;
  }

  /** Whatever decrypts is the canonical token of some nonce and payload sealed by this codec. */
  lemma OnlySealedTokensDecrypt(codec: Codec, token: string) returns (nonce: seq<byte>, payload: seq<byte>)
    requires IdealCipher(codec.lib) && Decrypt(codec, token).Ok?
    ensures IsNonce(nonce) && token == Token(codec, nonce, payload)
  {
    var body := token[|PREFIX|..];
    var raw := Unframe(body).value;
    nonce := raw[..NONCE_BYTES];
    payload := codec.lib.open(codec.key, nonce, raw[NONCE_BYTES..], codec.Context()).value;
    OneBodyPerByteString(raw, body);
    assert raw == nonce + raw[NONCE_BYTES..];
    assert token == PREFIX + body;
  }

  /** MAIN RESULT. A value with a payload is tokenised iff the payload has at most 3038 bytes, and
      its token passes the length guards of decryption. */
  lemma TokenSizeThreshold(codec: Codec, nonce: seq<byte>, v: Value)
    requires IdealCipher(codec.lib) && IsNonce(nonce)
    requires v != Null && Payload(codec.lib, v).Some?
    ensures Encrypt(codec, nonce, v).Ok? <==> |Payload(codec.lib, v).value| <= MAX_PAYLOAD_BYTES
    ensures Encrypt(codec, nonce, v).Ok? ==>
      var token := Encrypt(codec, nonce, v).value.value;
      && |token| <= MAX_TOKEN_CHARS && HasPrefix(token)
      && Unframe(token[|PREFIX|..]).Some? && |Unframe(token[|PREFIX|..]).value| >= NONCE_BYTES + SEAL_BYTES
  {
    var payload := Payload(codec.lib, v).value;
    var sealed := codec.lib.seal(codec.key, nonce, payload, codec.Context());
    assert |sealed| == |payload| + SEAL_BYTES;
    EncodeLength(nonce + sealed);
    UnframeToken(codec, nonce, payload);
  }

  /** The values that can be tokenised. The nonce does not matter. */
  ghost predicate Tokenisable(codec: Codec, v: Value) {
    Payload(codec.lib, v).Some? && |Payload(codec.lib, v).value| <= MAX_PAYLOAD_BYTES
  }

  // ----- Which values, and which tokens

  /** A value that can be tokenised at all is one of ten types; a float is to be finite. */
  lemma TaggedExactly(lib: Library, v: Value)
    ensures Tagged(lib, v).Some? <==>
      || v.Str? || v.Bool? || v.Int? || (v.Float? && v.finite) || v.Decimal? || v.Date? || v.DateTime? || v.Time?
      || v.Uuid? || v.Bytes?
    ensures forall w :: Tagged(lib, v).Some? && Tagged(lib, v) == Tagged(lib, w) && FaithfulText(lib) ==> w == v
  {
    forall w | Tagged(lib, v).Some? && Tagged(lib, v) == Tagged(lib, w) && FaithfulText(lib)
      ensures w == v
    {
      if TextTag(Tagged(lib, v).value.0) {
        assert lib.parse(Tagged(lib, v).value.0, lib.show(v)) == Some(v);
        assert lib.parse(Tagged(lib, w).value.0, lib.show(w)) == Some(w);
      }
    }
  }

  /** A parser yields values of the type that its tag names. */
  ghost predicate TypedText(lib: Library) {
    forall tag, text :: TextTag(tag) && lib.parse(tag, text).Some? ==>
      var v := lib.parse(tag, text).value;
      Tagged(lib, v).Some? && Tagged(lib, v).value.0 == tag
  }

  /** The data of a tag decodes to a value exactly when it is the canonical form of that value. */
  lemma DecodesCanonical(lib: Library, tag: Data, data: Data, v: Value)
    requires FaithfulText(lib) && TypedText(lib)
    ensures DecodeValue(lib, tag, data) == Some(v) <==>
      tag.JText? && Restorable(v) && Tagged(lib, v) == Some((tag.text, data))
  {
    if Tagged(lib, v).Some? && TextTag(Tagged(lib, v).value.0) {
      assert lib.parse(Tagged(lib, v).value.0, lib.show(v)) == Some(v);
    }
  }

  /** The payload is a document of this version with the canonical form of the value. */
  ghost predicate CanonicalPayload(lib: Library, payload: seq<byte>, v: Value) {
    && Restorable(v) && Tagged(lib, v).Some?
    && lib.loads(payload) == Some(Document(JInt(1), JText(Tagged(lib, v).value.0), Tagged(lib, v).value.1))
  }

  lemma OpensTo(codec: Codec, nonce: seq<byte>, payload: seq<byte>, v: Value)
    requires Ideal(codec.lib) && TypedText(codec.lib) && IsNonce(nonce)
    requires |Token(codec, nonce, payload)| <= MAX_TOKEN_CHARS
    ensures Decrypt(codec, Token(codec, nonce, payload)) == Ok(v) <==> CanonicalPayload(codec.lib, payload, v)
  {
    var lib := codec.lib;
    var sealed := lib.seal(codec.key, nonce, payload, codec.Context());
    var raw := nonce + sealed;
    DecryptToken(codec, codec, nonce, payload);
    assert raw[..NONCE_BYTES] == nonce && raw[NONCE_BYTES..] == sealed;
    assert lib.open(codec.key, nonce, sealed, codec.Context()) == Some(payload);
    var json := lib.loads(payload);
    if json.Some? && json.value.Document? {
      DecodesCanonical(lib, json.value.tag, json.value.data, v);
    }
  }

  /** MAIN RESULT. A text decrypts to a value exactly when it is short enough and is the token, for some
      nonce, of a payload that holds the canonical form of that value, with its type. */
  lemma DecryptsExactly(codec: Codec, token: string, v: Value)
    requires Ideal(codec.lib) && TypedText(codec.lib)
    ensures Decrypt(codec, token) == Ok(v) <==>
      |token| <= MAX_TOKEN_CHARS &&
      exists nonce, payload :: IsNonce(nonce) && token == Token(codec, nonce, payload)
        && CanonicalPayload(codec.lib, payload, v)
  {
    if Decrypt(codec, token) == Ok(v) {
      var nonce, payload := OnlySealedTokensDecrypt(codec, token);
      OpensTo(codec, nonce, payload, v);
    }
    if nonce, payload :| IsNonce(nonce) && token == Token(codec, nonce, payload)
                         && CanonicalPayload(codec.lib, payload, v) && |token| <= MAX_TOKEN_CHARS {
      OpensTo(codec, nonce, payload, v);
    }
  }
}
