/**
 * The development-only JWT helper: a token is three URL-safe base64 parts joined by
 * '.', a header, a payload and an HMAC-SHA256 signature of the first two. json_encode,
 * json_decode, base64_encode, base64_decode and hash_hmac are parameters of the model.
 */
module SimpleJWT {
  import opened Wrappers
  import opened PhpString
  import opened Json

  /** `str_replace(['+', '/', '='], ['-', '_', ''], $b)`: the three replacements, one after the other. */
  function UrlSafe(b: string): (r: string)
    ensures '+' !in r && '/' !in r && '=' !in r
    ensures |r| <= |b|
  {
    var plus := Replace(b, "+", "-");
    var slash := Replace(plus, "/", "_");
    ReplaceRemovesChar(b, '+', "-");
    ReplaceRemovesChar(plus, '/', "_");
    ReplaceRemovesChar(slash, '=', "");
    ReplaceKeepsAbsent(plus, "/", "_", '+');
    ReplaceKeepsAbsent(slash, "=", "", '+');
    ReplaceKeepsAbsent(slash, "=", "", '/');
    Replace(slash, "=", "")
  }

  /**
   * The URL-safe text holds no '+', '/' or '=', adds no '.', and when `b` had no '+' or '/'
   * only its '=' are gone.
   */
  lemma {:induction false} UrlSafeOutput(b: string)
    ensures var r := UrlSafe(b); '+' !in r && '/' !in r && '=' !in r
    ensures '.' !in b ==> '.' !in UrlSafe(b)
    ensures '+' !in b && '/' !in b ==> UrlSafe(b) == Replace(b, "=", "")
  {
    var plus := Replace(b, "+", "-");
    var slash := Replace(plus, "/", "_");
    ReplaceRemovesChar(b, '+', "-");
    ReplaceRemovesChar(plus, '/', "_");
    ReplaceRemovesChar(slash, '=', "");
    ReplaceKeepsAbsent(plus, "/", "_", '+');
    ReplaceKeepsAbsent(slash, "=", "", '+');
    ReplaceKeepsAbsent(slash, "=", "", '/');
    if '.' !in b {
      ReplaceKeepsAbsent(b, "+", "-", '.');
      ReplaceKeepsAbsent(plus, "/", "_", '.');
      ReplaceKeepsAbsent(slash, "=", "", '.');
    }
    if '+' !in b && '/' !in b {
      AbsentCharNotContained(b, '+');
      ReplaceAbsent(b, "+", "-");
      AbsentCharNotContained(b, '/');
      ReplaceAbsent(b, "/", "_");
    }
  }

  /** The fixed header `['typ' => 'JWT', 'alg' => 'HS256']`. */
  const Header := JObj([("typ", JStr("JWT")), ("alg", JStr("HS256"))])

  /** The third part: the URL-safe base64 of the raw HMAC of `input` under `key`. */
  function Signature(input: string, key: string, base64: string -> string, hmac: (string, string) -> string): (r: string)
    ensures '+' !in r && '/' !in r && '=' !in r && |r| <= |base64(hmac(input, key))|
    ensures '.' !in base64(hmac(input, key)) ==> '.' !in r
    ensures '+' !in base64(hmac(input, key)) && '/' !in base64(hmac(input, key)) ==> r == Replace(base64(hmac(input, key)), "=", "")
  {
    UrlSafeOutput(base64(hmac(input, key)));
    UrlSafe(base64(hmac(input, key)))
  }

  /** The first two parts of the token for `payload`. */
  function HeaderPart(jsonEncode: Json -> string, base64: string -> string): (r: string)
    ensures '+' !in r && '/' !in r && '=' !in r && |r| <= |base64(jsonEncode(Header))|
    ensures '.' !in base64(jsonEncode(Header)) ==> '.' !in r
    ensures '+' !in base64(jsonEncode(Header)) && '/' !in base64(jsonEncode(Header)) ==> r == Replace(base64(jsonEncode(Header)), "=", "")
  {
    UrlSafeOutput(base64(jsonEncode(Header)));
    UrlSafe(base64(jsonEncode(Header)))
  }

  function PayloadPart(payload: Json, jsonEncode: Json -> string, base64: string -> string): (r: string)
    ensures '+' !in r && '/' !in r && '=' !in r && |r| <= |base64(jsonEncode(payload))|
    ensures '.' !in base64(jsonEncode(payload)) ==> '.' !in r
    ensures '+' !in base64(jsonEncode(payload)) && '/' !in base64(jsonEncode(payload)) ==> r == Replace(base64(jsonEncode(payload)), "=", "")
  {
    UrlSafeOutput(base64(jsonEncode(payload)));
    UrlSafe(base64(jsonEncode(payload)))
  }

  /** SimpleJWT::encode: header, payload and signature parts, each URL-safe, joined by '.'. */
  function Encode(payload: Json, key: string, jsonEncode: Json -> string, base64: string -> string,
                  hmac: (string, string) -> string): (t: string)
    ensures '+' !in t && '/' !in t && '=' !in t
  {
    var h := HeaderPart(jsonEncode, base64);
    var p := PayloadPart(payload, jsonEncode, base64);
    var s := Signature(h + "." + p, key, base64, hmac);
    UrlSafeOutput(base64(jsonEncode(Header)));
    UrlSafeOutput(base64(jsonEncode(payload)));
    UrlSafeOutput(base64(hmac(h + "." + p, key)));
    h + "." + p + "." + s
  }

  /**
   * Base64 text holds no '.', so a token has exactly two dots: explode('.') gives back its
   * three parts, the last being the signature over the first two.
   */
  lemma EncodeHasThreeParts(payload: Json, key: string, jsonEncode: Json -> string, base64: string -> string,
                            hmac: (string, string) -> string)
    requires forall x :: '.' !in base64(x)
    ensures var h := HeaderPart(jsonEncode, base64);
            var p := PayloadPart(payload, jsonEncode, base64);
            Split(Encode(payload, key, jsonEncode, base64, hmac), '.') == [h, p, Signature(h + "." + p, key, base64, hmac)]
  {
    var h := HeaderPart(jsonEncode, base64);
    var p := PayloadPart(payload, jsonEncode, base64);
    UrlSafeOutput(base64(jsonEncode(Header)));
    UrlSafeOutput(base64(jsonEncode(payload)));
    UrlSafeOutput(base64(hmac(h + "." + p, key)));
    TokenParts(h, p, Signature(h + "." + p, key, base64, hmac));
  }

  /** Three dot-free parts joined by '.' split back into themselves. */
  lemma TokenParts(h: string, p: string, s: string)
    requires '.' !in h && '.' !in p && '.' !in s
    ensures Split(h + "." + p + "." + s, '.') == [h, p, s]
  {
    var parts := [h, p, s];
    assert Join(parts[2..], '.') == s;
    assert Join(parts[1..], '.') == p + "." + s;
    assert Join(parts, '.') == h + "." + p + "." + s;
    SplitJoin(parts, '.');
  }

  const InvalidToken := "Token inválido"
  const BadSignature := "Firma inválida"
  const ExpiredToken := "Token expirado"

  datatype DecodeResult = Invalid(message: string) | Valid(payload: Json)

  /**
   * `isset($payload['exp']) && $payload['exp'] < time()`: an integer exp before `now`,
   * or false against a non-zero clock. A missing or null exp, and an array, never expire.
   */
  predicate Expired(payload: Json, now: int)
    ensures Get(payload, "exp").JInt? ==> (Expired(payload, now) <==> Get(payload, "exp").i < now)
    ensures !Get(payload, "exp").JInt? && !Get(payload, "exp").JBool? ==> !Expired(payload, now)
  {
    match Get(payload, "exp")
    case JInt(i) => i < now
    case JBool(b) => !b && now != 0
    case _ => false
  }

  /**
   * SimpleJWT::decode. `now` is time(). The checks run in order: three parts, then the
   * signature recomputed over the first two, then the expiry of the decoded payload.
   */
  function Decode(token: string, key: string, base64: string -> string, base64Decode: string -> string,
                  jsonDecode: string -> Json, hmac: (string, string) -> string, now: int): (r: DecodeResult)
    ensures r == Invalid(InvalidToken) <==> |Split(token, '.')| != 3
    ensures r == Invalid(BadSignature) <==>
              var parts := Split(token, '.');
              |parts| == 3 && parts[2] != Signature(parts[0] + "." + parts[1], key, base64, hmac)
    ensures r == Invalid(ExpiredToken) <==>
              var parts := Split(token, '.');
              |parts| == 3 && parts[2] == Signature(parts[0] + "." + parts[1], key, base64, hmac) &&
              Expired(jsonDecode(base64Decode(parts[1])), now)
    ensures r.Valid? ==> var parts := Split(token, '.');
                         r.payload == jsonDecode(base64Decode(parts[1])) && !Expired(r.payload, now)
    ensures var parts := Split(token, '.');
            |parts| == 3 && parts[2] == Signature(parts[0] + "." + parts[1], key, base64, hmac) &&
            !Expired(jsonDecode(base64Decode(parts[1])), now) ==>
              r == Valid(jsonDecode(base64Decode(parts[1])))
  {
    var parts := Split(token, '.');
    if |parts| != 3 then Invalid(InvalidToken)
    else if Signature(parts[0] + "." + parts[1], key, base64, hmac) != parts[2] then Invalid(BadSignature)
    else
      var payload := jsonDecode(base64Decode(parts[1]));
      if Expired(payload, now) then Invalid(ExpiredToken) else Valid(payload)
  }

  /**
   * A token made by encode decodes back to its payload under the same key, provided it has
   * not expired. base64_decode receives the URL-safe text as it is: the padding it lost does
   * not matter to it, but the payload's base64 must not have held '+' or '/'.
   */
  lemma RoundTrip(payload: Json, key: string, jsonEncode: Json -> string, base64: string -> string,
                  base64Decode: string -> string, jsonDecode: string -> Json, hmac: (string, string) -> string,
                  now: int)
    requires forall x :: '.' !in base64(x)
    requires '+' !in base64(jsonEncode(payload)) && '/' !in base64(jsonEncode(payload))
    requires base64Decode(Replace(base64(jsonEncode(payload)), "=", "")) == jsonEncode(payload)
    requires jsonDecode(jsonEncode(payload)) == payload
    requires !Expired(payload, now)
    ensures Decode(Encode(payload, key, jsonEncode, base64, hmac), key, base64, base64Decode, jsonDecode, hmac, now)
            == Valid(payload)
  {
    var t := Encode(payload, key, jsonEncode, base64, hmac);
    var p := PayloadPart(payload, jsonEncode, base64);
    UrlSafeOutput(base64(jsonEncode(payload)));
    EncodeHasThreeParts(payload, key, jsonEncode, base64, hmac);
    assert Split(t, '.')[1] == p;
  }

  /** A token whose signature part was altered is refused before its payload is read. */
  lemma AlteredSignatureRefused(h: string, p: string, s: string, key: string, base64: string -> string,
                                base64Decode: string -> string, jsonDecode: string -> Json,
                                hmac: (string, string) -> string, now: int)
    requires '.' !in h && '.' !in p && '.' !in s
    requires s != Signature(h + "." + p, key, base64, hmac)
    ensures Decode(h + "." + p + "." + s, key, base64, base64Decode, jsonDecode, hmac, now) == Invalid(BadSignature)
  {
    TokenParts(h, p, s);
  }

  /** The comparison is strict: a token expiring at the current second is still accepted. */
  lemma ExpiryIsStrict(now: int)
    ensures !Expired(JObj([("exp", JInt(now))]), now)
    ensures Expired(JObj([("exp", JInt(now - 1))]), now)
  {
  }

  /** A payload without "exp", or with a null one, never expires. */
  lemma NoExpiryNeverExpires(members: seq<(string, Json)>, now: int)
    requires Lookup(members, "exp").None? || Lookup(members, "exp") == Some(JNull)
    ensures !Expired(JObj(members), now)
  {
  }
}
