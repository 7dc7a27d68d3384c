/**
  OAuth 1.0a request signing as the Twitter adapter does it: the signature base
  string of section 3.4.1 of RFC 5849, the HMAC-SHA1 signing key of section
  3.4.2, and the Authorization header of section 3.5.1, with every key and value
  percent-encoded as in section 3.6.
 */
module OAuth1 {
  import opened Strings
  import opened PercentEncoding
  import opened Wrappers
  import Utf8

  /** HMAC-SHA1 and base64, foreign library code, taken as given functions. */
  datatype Crypto = Crypto(
    hmacSha1: (seq<Utf8.byte>, seq<Utf8.byte>) -> seq<Utf8.byte>,  // (key, message) to digest
    base64: seq<Utf8.byte> -> string)

  /** Every protocol parameter name starts with "oauth_". */
  const Prefix := "oauth_"
  const ConsumerKey := Prefix + "consumer_key"
  const Nonce := Prefix + "nonce"
  const SignatureKey := Prefix + "signature"
  const SignatureMethod := Prefix + "signature_method"
  const Timestamp := Prefix + "timestamp"
  const Token := Prefix + "token"
  const Version := Prefix + "version"

  /** The six protocol parameters, before signing. */
  function OAuthParams(apiKey: string, nonce: string, unixTime: nat, accessToken: string): (m: map<string, string>)
    ensures m.Keys == {ConsumerKey, Nonce, SignatureMethod, Timestamp, Token, Version}
    ensures m[SignatureMethod] == "HMAC-SHA1" && m[Version] == "1.0"
    ensures m[Timestamp] == Decimal(unixTime) && DecimalValue(m[Timestamp]) == unixTime
  {
    DecimalRoundTrip(unixTime);
    map[ConsumerKey := apiKey, Nonce := nonce, SignatureMethod := "HMAC-SHA1",
        Timestamp := Decimal(unixTime), Token := accessToken, Version := "1.0"]
  }

  /** {**oauth_params, **params}: the caller's parameters win over same-named protocol ones. */
  function Merge(oauthParams: map<string, string>, params: map<string, string>): (m: map<string, string>)
    ensures m.Keys == oauthParams.Keys + params.Keys
    ensures forall k :: k in params ==> m[k] == params[k]
    ensures forall k :: k in oauthParams && k !in params ==> m[k] == oauthParams[k]
  {
    oauthParams + params
  }

  function ParamPair(k: string, v: string): string
  {
    Quote(k) + "=" + Quote(v)
  }

  /** The encoded k=v pairs for the keys ks, in that order. */
  function ParamPairs(ks: seq<string>, m: map<string, string>): (r: seq<string>)
    requires forall k :: k in ks ==> k in m
    ensures |r| == |ks|
    ensures forall i :: 0 <= i < |ks| ==> r[i] == ParamPair(ks[i], m[ks[i]])
  {
    if ks == [] then [] else [ParamPair(ks[0], m[ks[0]])] + ParamPairs(ks[1..], m)
  }

  /** The normalized parameter string: sorted pairs joined with '&'. */
  function ParamString(m: map<string, string>): string
  {
    Join("&", ParamPairs(SortedKeys(m.Keys), m))
  }

  /** METHOD&enc(url)&enc(param string). */
  function BaseString(httpMethod: string, url: string, params: map<string, string>): string
  {
    httpMethod + "&" + Quote(url) + "&" + Quote(ParamString(params))
  }

  /** enc(consumer secret)&enc(token secret). */
  function SigningKey(apiSecret: string, tokenSecret: string): string
  {
    Quote(apiSecret) + "&" + Quote(tokenSecret)
  }

  /** base64(HMAC-SHA1(key, base string)) over the UTF-8 bytes of both. */
  function Signature(crypto: Crypto, key: string, base: string): string
  {
    crypto.base64(crypto.hmacSha1(Utf8.Encode(key), Utf8.Encode(base)))
  }

  function HeaderPair(k: string, v: string): string
  {
    Quote(k) + "=\"" + Quote(v) + "\""
  }

  function HeaderPairs(ks: seq<string>, m: map<string, string>): (r: seq<string>)
    requires forall k :: k in ks ==> k in m
    ensures |r| == |ks|
    ensures forall i :: 0 <= i < |ks| ==> r[i] == HeaderPair(ks[i], m[ks[i]])
  {
    if ks == [] then [] else [HeaderPair(ks[0], m[ks[0]])] + HeaderPairs(ks[1..], m)
  }

  /** "OAuth " and the sorted k="v" pairs joined with ", ". */
  function HeaderValue(m: map<string, string>): string
  {
    "OAuth " + Join(", ", HeaderPairs(SortedKeys(m.Keys), m))
  }

  /** The header _oauth1_header returns for the given nonce and clock reading. */
  function AuthorizationHeader(httpMethod: string, url: string, params: map<string, string>,
                               apiKey: string, apiSecret: string, accessToken: string, tokenSecret: string,
                               nonce: string, unixTime: nat, crypto: Crypto): string
  {
    var oauthParams := OAuthParams(apiKey, nonce, unixTime, accessToken);
    var base := BaseString(httpMethod, url, Merge(oauthParams, params));
    var signature := Signature(crypto, SigningKey(apiSecret, tokenSecret), base);
    HeaderValue(oauthParams[SignatureKey := signature])
  }

  /**
    _oauth1_header: the nonce and the clock reading are inputs, so the header is a
    function of its arguments; the protocol parameters gain oauth_signature in place.
   */
  method OAuth1Header(httpMethod: string, url: string, params: map<string, string>,
                      apiKey: string, apiSecret: string, accessToken: string, tokenSecret: string,
                      nonce: string, unixTime: nat, crypto: Crypto) returns (header: string)
    ensures header == AuthorizationHeader(httpMethod, url, params, apiKey, apiSecret, accessToken,
                                          tokenSecret, nonce, unixTime, crypto)
    ensures header == "OAuth " + Join(", ", [
      HeaderPair(ConsumerKey, apiKey),
      HeaderPair(Nonce, nonce),
      HeaderPair(SignatureKey, Signature(crypto, SigningKey(apiSecret, tokenSecret),
        BaseString(httpMethod, url, Merge(OAuthParams(apiKey, nonce, unixTime, accessToken), params)))),
      HeaderPair(SignatureMethod, "HMAC-SHA1"),
      HeaderPair(Timestamp, Decimal(unixTime)),
      HeaderPair(Token, accessToken),
      HeaderPair(Version, "1.0")])
  {
    var oauthParams := OAuthParams(apiKey, nonce, unixTime, accessToken);
    var allParams := Merge(oauthParams, params);
    var paramString := ParamString(allParams);
    var base := httpMethod + "&" + Quote(url) + "&" + Quote(paramString);
    var key := Quote(apiSecret) + "&" + Quote(tokenSecret);
    var signature := Signature(crypto, key, base);
    oauthParams := oauthParams[SignatureKey := signature];
    header := HeaderValue(oauthParams);
    HeaderLayout(apiKey, nonce, unixTime, accessToken, signature);
  }

  /** The seven header keys in sorted order. */
  const HeaderKeys: seq<string> :=
    [ConsumerKey, Nonce, SignatureKey, SignatureMethod, Timestamp, Token, Version]

  lemma {:induction false} ConsumerKeyBeforeNonce()
    ensures Less(ConsumerKey, Nonce)
  {
    assert ConsumerKey[..6] == Nonce[..6];
    LessAt(ConsumerKey, Nonce, 6);
  }

  lemma {:induction false} NonceBeforeSignatureKey()
    ensures Less(Nonce, SignatureKey)
  {
    assert Nonce[..6] == SignatureKey[..6];
    LessAt(Nonce, SignatureKey, 6);
  }

  lemma {:induction false} SignatureKeyBeforeSignatureMethod()
    ensures Less(SignatureKey, SignatureMethod)
  {
    assert SignatureMethod[..|SignatureKey|] == SignatureKey;
    LessPrefix(SignatureKey, SignatureMethod);
  }

  lemma {:induction false} SignatureMethodBeforeTimestamp()
    ensures Less(SignatureMethod, Timestamp)
  {
    assert SignatureMethod[..6] == Timestamp[..6];
    LessAt(SignatureMethod, Timestamp, 6);
  }

  lemma {:induction false} TimestampBeforeToken()
    ensures Less(Timestamp, Token)
  {
    assert Timestamp[..7] == Token[..7];
    LessAt(Timestamp, Token, 7);
  }

  lemma {:induction false} TokenBeforeVersion()
    ensures Less(Token, Version)
  {
    assert Token[..6] == Version[..6];
    LessAt(Token, Version, 6);
  }

  lemma {:induction false} HeaderKeysChain()
    ensures forall i :: 1 <= i < |HeaderKeys| ==> Less(HeaderKeys[i - 1], HeaderKeys[i])
  {
    forall i | 1 <= i < |HeaderKeys| ensures Less(HeaderKeys[i - 1], HeaderKeys[i]) {
      if i == 1 { ConsumerKeyBeforeNonce(); }
      else if i == 2 { NonceBeforeSignatureKey(); }
      else if i == 3 { SignatureKeyBeforeSignatureMethod(); }
      else if i == 4 { SignatureMethodBeforeTimestamp(); }
      else if i == 5 { TimestampBeforeToken(); }
      else { TokenBeforeVersion(); }
    }
  }

  lemma {:induction false} HeaderKeysSorted()
    ensures SortedKeys(set k | k in HeaderKeys) == HeaderKeys
  {
    HeaderKeysChain();
    ChainSorted(HeaderKeys);
    SortedKeysUnique(HeaderKeys, set k | k in HeaderKeys);
  }

  /** The six protocol parameter names in sorted order. */
  const ParamKeys: seq<string> := [ConsumerKey, Nonce, SignatureMethod, Timestamp, Token, Version]

  lemma {:induction false} NonceBeforeSignatureMethod()
    ensures Less(Nonce, SignatureMethod)
  {
    assert Nonce[..6] == SignatureMethod[..6];
    LessAt(Nonce, SignatureMethod, 6);
  }

  lemma {:induction false} ParamKeysSorted()
    ensures SortedKeys(set k | k in ParamKeys) == ParamKeys
  {
    forall i | 1 <= i < |ParamKeys| ensures Less(ParamKeys[i - 1], ParamKeys[i]) {
      if i == 1 { ConsumerKeyBeforeNonce(); }
      else if i == 2 { NonceBeforeSignatureMethod(); }
      else if i == 3 { SignatureMethodBeforeTimestamp(); }
      else if i == 4 { TimestampBeforeToken(); }
      else { TokenBeforeVersion(); }
    }
    ChainSorted(ParamKeys);
    SortedKeysUnique(ParamKeys, set k | k in ParamKeys);
  }

  /**
    The header when the caller passes no request parameters, as for both Twitter
    requests: the parameter string lists the six protocol parameters in sorted
    order, and the header lists them with oauth_signature.
   */
  function PlainAuthorizationHeader(httpMethod: string, url: string,
                                    apiKey: string, apiSecret: string, accessToken: string, tokenSecret: string,
                                    nonce: string, unixTime: nat, crypto: Crypto): string
  {
    var oauthParams := OAuthParams(apiKey, nonce, unixTime, accessToken);
    var base := httpMethod + "&" + Quote(url) + "&" + Quote(Join("&", ParamPairs(ParamKeys, oauthParams)));
    var signature := Signature(crypto, SigningKey(apiSecret, tokenSecret), base);
    "OAuth " + Join(", ", HeaderPairs(HeaderKeys, oauthParams[SignatureKey := signature]))
  }

  /** With no request parameters the general header is the plain one. */
  lemma {:induction false} PlainHeader(httpMethod: string, url: string,
                    apiKey: string, apiSecret: string, accessToken: string, tokenSecret: string,
                    nonce: string, unixTime: nat, crypto: Crypto)
    ensures AuthorizationHeader(httpMethod, url, map[], apiKey, apiSecret, accessToken, tokenSecret, nonce, unixTime, crypto)
         == PlainAuthorizationHeader(httpMethod, url, apiKey, apiSecret, accessToken, tokenSecret, nonce, unixTime, crypto)
  {
    var oauthParams := OAuthParams(apiKey, nonce, unixTime, accessToken);
    var merged := Merge(oauthParams, map[]);
    assert merged == oauthParams;
    PlainParamString(apiKey, nonce, unixTime, accessToken);
    var base := BaseString(httpMethod, url, merged);
    var signature := Signature(crypto, SigningKey(apiSecret, tokenSecret), base);
    PlainHeaderValue(apiKey, nonce, unixTime, accessToken, signature);
  }

  /** The parameter string of the six protocol parameters lists them in sorted order. */
  lemma {:induction false} PlainParamString(apiKey: string, nonce: string, unixTime: nat, accessToken: string)
    ensures var m := OAuthParams(apiKey, nonce, unixTime, accessToken);
            ParamString(m) == Join("&", ParamPairs(ParamKeys, m))
  {
    var m := OAuthParams(apiKey, nonce, unixTime, accessToken);
    assert m.Keys == set k | k in ParamKeys;
    ParamKeysSorted();
  }

  /** The header value of the signed parameters lists the seven keys in sorted order. */
  lemma {:induction false} PlainHeaderValue(apiKey: string, nonce: string, unixTime: nat, accessToken: string, signature: string)
    ensures var m := OAuthParams(apiKey, nonce, unixTime, accessToken)[SignatureKey := signature];
            HeaderValue(m) == "OAuth " + Join(", ", HeaderPairs(HeaderKeys, m))
  {
    var m := OAuthParams(apiKey, nonce, unixTime, accessToken)[SignatureKey := signature];
    SignedParams(apiKey, nonce, unixTime, accessToken, signature);
    HeaderKeysSorted();
    assert SortedKeys(m.Keys) == HeaderKeys;
  }

  /**
    The header holds exactly the six protocol parameters and oauth_signature, in
    sorted key order; no request parameter of the caller appears in it except
    through the signature.
   */
  lemma {:induction false} HeaderLayout(apiKey: string, nonce: string, unixTime: nat, accessToken: string, signature: string)
    ensures HeaderValue(OAuthParams(apiKey, nonce, unixTime, accessToken)[SignatureKey := signature])
         == "OAuth " + Join(", ", [
              HeaderPair(ConsumerKey, apiKey),
              HeaderPair(Nonce, nonce),
              HeaderPair(SignatureKey, signature),
              HeaderPair(SignatureMethod, "HMAC-SHA1"),
              HeaderPair(Timestamp, Decimal(unixTime)),
              HeaderPair(Token, accessToken),
              HeaderPair(Version, "1.0")])
  {
    var m := OAuthParams(apiKey, nonce, unixTime, accessToken)[SignatureKey := signature];
    PlainHeaderValue(apiKey, nonce, unixTime, accessToken, signature);
    SignedParams(apiKey, nonce, unixTime, accessToken, signature);
    var r := HeaderPairs(HeaderKeys, m);
    SevenElements(r);
  }

  /** A sequence of seven elements, written out. */
  lemma {:induction false} SevenElements<T>(r: seq<T>)
    requires |r| == 7
    ensures r == [r[0], r[1], r[2], r[3], r[4], r[5], r[6]]
  {
    var w := [r[0], r[1], r[2], r[3], r[4], r[5], r[6]];
    forall i | 0 <= i < 7 ensures r[i] == w[i] {
    }
  }

  /** The signed protocol parameters, key by key. */
  lemma {:induction false} SignedParams(apiKey: string, nonce: string, unixTime: nat, accessToken: string, signature: string)
    ensures var m := OAuthParams(apiKey, nonce, unixTime, accessToken)[SignatureKey := signature];
            m.Keys == (set k | k in HeaderKeys)
            && m[HeaderKeys[0]] == apiKey && m[HeaderKeys[1]] == nonce
            && m[HeaderKeys[2]] == signature && m[HeaderKeys[3]] == "HMAC-SHA1"
            && m[HeaderKeys[4]] == Decimal(unixTime) && m[HeaderKeys[5]] == accessToken
            && m[HeaderKeys[6]] == "1.0"
  {
    assert Nonce[6] != Token[6];
    assert SignatureKey[6] != Timestamp[6];
  }

  lemma {:induction false} NoSeparatorInQuote(s: string, c: char)
    requires !IsQuotedChar(c)
    ensures c !in Quote(s)
  {
    QuoteChars(s);
  }

  /**
    The signing key splits back at '&' into the two encoded secrets: no secret can
    shift the boundary, because the encoding never emits '&'.
   */
  lemma {:induction false} SigningKeyFields(apiSecret: string, tokenSecret: string)
    ensures Split(SigningKey(apiSecret, tokenSecret), '&') == [Quote(apiSecret), Quote(tokenSecret)]
  {
    NoSeparatorInQuote(apiSecret, '&');
    NoSeparatorInQuote(tokenSecret, '&');
    SplitNone(Quote(tokenSecret), '&');
    SplitAt(Quote(apiSecret), '&', Quote(tokenSecret));
  }

  /**
    The base string splits back at '&' into exactly its three parts whenever the
    method name itself has no '&'.
   */
  lemma {:induction false} BaseStringFields(httpMethod: string, url: string, params: map<string, string>)
    requires '&' !in httpMethod
    ensures Split(BaseString(httpMethod, url, params), '&')
         == [httpMethod, Quote(url), Quote(ParamString(params))]
  {
    var ps := ParamString(params);
    NoSeparatorInQuote(url, '&');
    NoSeparatorInQuote(ps, '&');
    assert BaseString(httpMethod, url, params) == httpMethod + ['&'] + Quote(url) + ['&'] + Quote(ps);
    SplitThree(httpMethod, Quote(url), Quote(ps), '&');
  }

  /** An encoded pair splits back at '=' into its encoded key and value. */
  lemma {:induction false} ParamPairFields(k: string, v: string)
    ensures Split(ParamPair(k, v), '=') == [Quote(k), Quote(v)]
    ensures '&' !in ParamPair(k, v)
  {
    NoSeparatorInQuote(k, '=');
    NoSeparatorInQuote(v, '=');
    NoSeparatorInQuote(k, '&');
    NoSeparatorInQuote(v, '&');
    SplitNone(Quote(v), '=');
    SplitAt(Quote(k), '=', Quote(v));
  }

  /** The parameter string splits back at '&' into the sorted encoded pairs. */
  lemma {:induction false} ParamStringSplits(m: map<string, string>)
    requires m != map[]
    ensures Split(ParamString(m), '&') == ParamPairs(SortedKeys(m.Keys), m)
  {
    var ks := SortedKeys(m.Keys);
    var pairs := ParamPairs(ks, m);
    assert |m.Keys| > 0 by {
      var k :| k in m;
    }
    forall i | 0 <= i < |pairs| ensures '&' !in pairs[i] {
      ParamPairFields(ks[i], m[ks[i]]);
    }
    SplitJoin(pairs, '&');
  }

  /**
    The parameter string lists every parameter exactly once, in sorted key order:
    split at '&', its i-th field is the i-th key and its value, each split back at
    '=' and each decoding to the UTF-8 bytes of the original.
   */
  lemma {:induction false} ParamStringFields(m: map<string, string>)
    requires m != map[]
    ensures var ks := SortedKeys(m.Keys);
            var fields := Split(ParamString(m), '&');
            |fields| == |ks| == |m|
            && forall i :: 0 <= i < |ks| ==>
                 Split(fields[i], '=') == [Quote(ks[i]), Quote(m[ks[i]])]
                 && Unquote(Quote(ks[i])) == Some(Utf8.Encode(ks[i]))
                 && Unquote(Quote(m[ks[i]])) == Some(Utf8.Encode(m[ks[i]]))
  {
    var ks := SortedKeys(m.Keys);
    ParamStringSplits(m);
    forall i | 0 <= i < |ks|
      ensures Split(ParamPair(ks[i], m[ks[i]]), '=') == [Quote(ks[i]), Quote(m[ks[i]])]
      ensures Unquote(Quote(ks[i])) == Some(Utf8.Encode(ks[i]))
      ensures Unquote(Quote(m[ks[i]])) == Some(Utf8.Encode(m[ks[i]]))
    {
      ParamPairFields(ks[i], m[ks[i]]);
      UnquoteQuote(ks[i]);
      UnquoteQuote(m[ks[i]]);
    }
  }
}
