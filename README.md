# Social media publisher: a Dafny model

This project models `publisher.py`, the multi-platform publishing dispatcher of a small web tool. It
posts one text (and optionally one image) to Bluesky, Twitter/X, a Facebook page and LinkedIn, and proves
properties of the model. Every publisher has the same interface. It takes the text, an image path
and the platform's configuration. It returns a `PublishResult` with five fields: success flag,
platform name, post id, post URL and error message.

What is modelled:

- `Results`: `PublishResult`, its `to_dict` form and the inverse reading of that dictionary.
- `Bluesky`: the configuration check and session creation. The MIME type of an uploaded image,
  with `os.path.splitext` written out. The post record: facets, and the image embed after a
  successful upload. The createRecord request and the web URL built from the record key.
- `Facets`: `_parse_facets`. These are the URL and hashtag scans with their regular expressions
  written out as predicates, and the UTF-8 byte offsets of each match.
- `OAuth1`, `PercentEncoding`, `Utf8`: `_oauth1_header`.
  - The six protocol parameters, merged with the caller's.
  - The parameter string: sorted pairs quoted with `quote(..., safe="")`.
  - The signature base string and the signing key.
  - The header listing the seven `oauth_` parameters in sorted order.
  - Percent-encoding is defined on the UTF-8 bytes of the text, as Python's `quote` does.
- `Twitter`: the credential check, the optional media upload, and the tweet request signed with a
  fresh OAuth header. Also how each reply becomes a result.
- `Facebook`, `LinkedIn`: the single request each makes and how its reply becomes a result.
- `Dispatcher`: the `PUBLISHERS` table, `publish_to_platform` and `publish_to_all`.

The outside world is an `Http.World` value rather than effects:

- the reply to every request (`net`);
- `os.path.exists`;
- the formatted UTC time;
- the nonce and the clock reading before the k-th request of one publisher call;
- HMAC-SHA1 and base64.

Each publisher is a method. It returns the result together with the sequence of requests it sent,
so its contract can say which requests were sent, in which order, and what result each possible
reply leads to.

Two behaviours of the code to note:

- A Twitter media upload that answers with a status other than 200 does not stop the tweet. The
  tweet is sent without media.
- A successful result may have an empty post id. A failed result may have an empty error (an empty
  reply text). The code does not exclude either.

## Model

| member | source | states |
|---|---|---|
| Results.Failure | publisher.py:18-24 | defines the failed result: platform and error kept, post id and URL empty |
| Results.Success | publisher.py:18-24 | defines the successful result: platform, post id and URL kept, error empty |
| Results.ToDict | publisher.py:26-33 | the dictionary has exactly the keys success, platform, post_id, url, error |
| Results.FromToDict | publisher.py:26-33 | reading the dictionary back gives the original result |
| Results.ToFromDict | publisher.py:26-33 | a five-key dictionary that reads back as a result is that result's dictionary |
| Results.FromDict | publisher.py:26-33 | defines the reading of a `to_dict` dictionary back into a result; nothing when a key is missing or holds the wrong kind of value |
| Http.Get | publisher.py:105-106 | defines `config.get(key, '')`: the stored value, or empty for a missing key |
| Http.HttpError | publisher.py:300 | the message is "HTTP ", the decimal status, ": ", the text; the status can be read back |
| Http.Missing | publisher.py:102 | defines `not config`: no configuration, or an empty one |
| Http.RequireKeys | publisher.py:102-109 | the configuration check every publisher makes: a missing configuration gives the first message; otherwise it passes iff every named key holds a non-empty value, and fails with the second message |
| Http.KeyError | publisher.py:62-64 | defines `str(KeyError(key))`: the key in single quotes |
| Http.TextOf | publisher.py:155 | defines a reply field read as text; a field that holds an object reads as empty |
| Http.Uploading | publisher.py:131 | defines `image_path and os.path.exists(image_path)` |
| Http.Bearer | publisher.py:86 | defines the `Bearer` Authorization value of a token |
| Bluesky.ValidationError | publisher.py:102-109 | no or empty configuration gives the first message; otherwise it passes iff handle and app password are non-empty |
| Bluesky.Authenticate | publisher.py:50-69 | a session iff the reply is 200 with all four session keys; otherwise the exception message, the reply text, or the KeyError of the first missing key of `did`, `accessJwt`, `refreshJwt`, `handle` |
| Bluesky.Extension | publisher.py:79 | the extension is empty or one '.' then no '.' or '/', and it is a suffix of the path |
| Bluesky.ExtensionOfName | publisher.py:79 | a file name with a non-dot character before its last '.' has that dot and the rest as extension |
| Bluesky.HiddenNameHasNoExtension | publisher.py:79 | a name of leading dots and one more part, like ".png", has no extension |
| Bluesky.DotAndSeparator | publisher.py:79 | in a directory, a stem, '.' and an extension, the last '.' is the one before the extension and the last '/' ends the directory |
| Bluesky.MimeType | publisher.py:79-81 | the Content-Type is always one of the four image types |
| Bluesky.MimeTypeOfName | publisher.py:79-81 | the type is the table entry of the lower-cased extension, JPEG when absent |
| Bluesky.UploadedBlob | publisher.py:92-97 | a blob exactly for a 200 reply whose body has `blob`, and it is that value |
| Bluesky.RKey | publisher.py:157 | the key has no '/'; it is empty without '/'; otherwise the URI is a prefix, '/', then the key |
| Bluesky.RecordResult | publisher.py:153-164 | success iff a readable 200 reply; the post id is the URI and the URL ends in the record key; failures carry the reply text or the message |
| Bluesky.PostUrlEndsWithRKey | publisher.py:155-159 | the URL of a successful post is the profile URL, the handle, "/post/" and the last part of the URI |
| Bluesky.Publish | publisher.py:100-164 | a bad configuration sends nothing; the session request comes first; a failed session ends the call; otherwise an optional upload, then createRecord; the record has text, time and type, facets iff the text has some, an embed iff a blob came back |
| Bluesky.SessionRequest | publisher.py:52-55 | defines the createSession request with the handle as identifier and the app password |
| Bluesky.UploadRequest | publisher.py:83-90 | defines the uploadBlob request: bearer token, the MIME type of the extension, the file as body |
| Bluesky.RecordRequest | publisher.py:143-151 | defines the createRecord request: bearer token, the session's DID as repo, the post collection and the record |
| Bluesky.PostUrl | publisher.py:158 | defines the web URL of a post from the handle and the record key |
| Bluesky.SessionOf | publisher.py:112-113 | defines the session a valid configuration obtains: `authenticate` on the reply to the createSession request |
| Facets.UrlRunEnd | publisher.py:173 | the end of the longest run of URL characters from j: all characters before it are URL characters and the one at it is not |
| Facets.TagRunEnd | publisher.py:183 | the end of the longest run of `[a-zA-Z0-9_]` from j, with the same maximality |
| Facets.UrlRunUnique | publisher.py:173 | any maximal run of URL characters from j ends where UrlRunEnd says |
| Facets.TagRunUnique | publisher.py:183 | any maximal run of tag characters from j ends where TagRunEnd says |
| Facets.LinkAt | publisher.py:173 | an attempt of `https?://[^\s<>"']+` at i: a result is always a link match |
| Facets.LinkAtComplete | publisher.py:173 | every link match that starts at i is the attempt's result, so the attempt misses none |
| Facets.HasAtSlice | publisher.py:173 | the text holds w at i exactly when the slice from i starts with w |
| Facets.LinkMatchUrl | publisher.py:173 | a link match at [i, e) is exactly a slice that is a scheme followed by URL characters, not followed by another URL character |
| Facets.LinkSpans | publisher.py:173-174 | `finditer` of the link pattern from i: the spans lie in the text |
| Facets.LinkSpansIncreasing | publisher.py:174 | the link spans come in text order and do not overlap |
| Facets.LinkSpansMatch | publisher.py:173-174 | every link span is a link match |
| Facets.TagAt | publisher.py:183-184 | a tag starts at the text's start or right after a whitespace character, and is a tag match |
| Facets.TagAtComplete | publisher.py:183 | wherever a tag match starts at 0 or after the whitespace at i, the attempt at i finds it |
| Facets.TagMatchName | publisher.py:183 | a tag match at [t, e) is exactly '#', a non-empty name of tag characters, whitespace or the start before it, and no tag character after it |
| Facets.TagSpans | publisher.py:183-184 | `finditer` of the hashtag pattern from i: the spans lie in the text |
| Facets.TagSpansIncreasing | publisher.py:184 | the tag spans come in text order and do not overlap |
| Facets.TagSpansMatch | publisher.py:183-184 | every tag span is a tag match |
| Facets.TagCharNotSpace | publisher.py:183 | '#' and the tag characters are not whitespace |
| Facets.ByteOffsetLength | publisher.py:175-176 | the byte offset of position i is `len(text[:i].encode('utf-8'))` |
| Facets.ByteOffsetMonotonic | publisher.py:175-188 | byte offsets grow at least as fast as positions |
| Facets.LinkFacets | publisher.py:174-180 | one link facet per span, in order |
| Facets.TagFacets | publisher.py:184-192 | one tag facet per span, in order |
| Facets.LinkFacetsSnoc | publisher.py:174-180 | the link facets grow by one facet per span |
| Facets.TagFacetsSnoc | publisher.py:184-192 | the tag facets grow by one facet per span |
| Facets.LinkFacetsAt | publisher.py:174-180 | the k-th link facet is the facet of the k-th link span |
| Facets.TagFacetsAt | publisher.py:184-192 | the k-th tag facet is the facet of the k-th tag span |
| Facets.LinkFacetStep | publisher.py:174-180 | one round of the link loop appends the facet of the next link, with its byte offsets and matched text |
| Facets.TagFacetStep | publisher.py:184-192 | one round of the hashtag loop appends the facet of the next tag, with its byte offsets and the tag without '#' |
| Facets.ParseFacets | publisher.py:167-194 | the two loops build exactly the facet list of the specification function |
| Facets.FacetAt | publisher.py:170-194 | the k-th facet is the facet of the k-th link, or after all links, of the (k - n)-th tag |
| Facets.FacetListAt | publisher.py:170-194 | indexing the link facets followed by the tag facets |
| Facets.FacetOffsets | publisher.py:175-191 | the offsets are the UTF-8 lengths of the text before the match's start and end; a link keeps the match, a tag drops the '#' |
| Facets.SourceSpan | publisher.py:175-188 | every facet covers a non-empty span of the text |
| Facets.FacetSource | publisher.py:173-191 | each facet's offsets are the byte offsets of its span, it covers that span's text, it is a link iff it comes from the link loop, and its span is a link or tag match |
| Facets.LinkFacetCovers | publisher.py:175-180 | a link facet is a link over exactly its span's text |
| Facets.TagFacetCovers | publisher.py:186-191 | a tag facet carries its span's text without the '#' |
| Facets.FacetBytes | publisher.py:175-188 | the byte range lies in the encoded text, holds exactly the encoding of the covered text, and starts on a character boundary |
| Facets.FacetMatches | publisher.py:173-191 | a link facet's URI is a link match and a tag facet's "#" plus tag is a tag match |
| Facets.FacetOrder | publisher.py:170-194 | links come first, then tags, each group in text order without overlap |
| Facets.FacetPairOrder | publisher.py:170-194 | within the links and within the tags, a facet's byte range ends before the next one starts |
| Facets.FacetListOrder | publisher.py:170-194 | the same for any ordered link and tag spans |
| Facets.LinkFacetsOrder | publisher.py:174-180 | facets of ordered link spans have ordered byte ranges |
| Facets.TagFacetsOrder | publisher.py:184-192 | facets of ordered tag spans have ordered byte ranges |
| Facets.LinkCovered | publisher.py:174 | a link match is reported or lies inside a reported link |
| Facets.LinksComplete | publisher.py:173-180 | every link match of the text is reported or starts inside a reported link |
| Facets.NoTagInside | publisher.py:184 | no tag starts inside a reported tag |
| Facets.TagReported | publisher.py:184 | every tag start from the scan position on is reported |
| Facets.TagsComplete | publisher.py:183-192 | every tag match of the text is reported |
| Facets.IsSpace | publisher.py:173 | defines Python's `\s` on text: the characters for which `str.isspace()` holds |
| Facets.IsUrlChar | publisher.py:173 | defines the class `[^\s<>"']` |
| Facets.IsTagChar | publisher.py:183 | defines the class `[a-zA-Z0-9_]` |
| Facets.IsLinkMatch | publisher.py:173 | defines a link match at [i, e): the scheme, then a run of URL characters that cannot be extended |
| Facets.IsTagMatch | publisher.py:183 | defines a tag match at [t, e): '#' and a run of tag characters that cannot be extended, at the start or after whitespace |
| Facets.ByteOffset | publisher.py:175-176 | defines the UTF-8 length of the first i characters |
| Facets.LinkFacet | publisher.py:175-180 | defines the facet of a link span: its byte offsets and the matched URL |
| Facets.TagFacet | publisher.py:186-192 | defines the facet of a tag span: its byte offsets and the tag without '#' |
| Facets.FacetList | publisher.py:167-194 | defines what `_parse_facets` returns: the link facets, then the tag facets |
| Utf8.EncodeChar | publisher.py:175 | 1-4 bytes, ASCII unchanged, a lead byte followed only by continuation bytes |
| Utf8.ConcatAppend | publisher.py:175-176 | concatenating byte strings distributes over appending lists |
| Utf8.CharEncodings | publisher.py:175-176 | defines the list of the characters' encodings, one per character |
| Utf8.EncodeCons | publisher.py:175-176 | a text encodes as its first character's bytes followed by the rest's |
| Utf8.EncodeLength | publisher.py:175-176 | the encoding is at least as long as the text |
| Utf8.EncodeConcat | publisher.py:175-176 | `(a + b).encode()` is `a.encode() + b.encode()` |
| Utf8.EncodeSlice | publisher.py:175-188 | prefix lengths grow with the prefix, and the bytes between two of them encode the text between |
| Utf8.CharBoundary | publisher.py:175-188 | the byte offset of a character is in range and is not a continuation byte |
| Utf8.Encode | publisher.py:175-176 | defines `.encode('utf-8')`: the encodings of the characters, in order |
| PercentEncoding.HexDigit | publisher.py:229-232 | an upper-case hex digit |
| PercentEncoding.HexValue | publisher.py:229-232 | a value below 16 |
| PercentEncoding.HexRoundTrip | publisher.py:229-232 | reading a hex digit gives its value back |
| PercentEncoding.QuoteByte | publisher.py:229-232 | a quoted byte uses only unreserved characters, '%' and upper-case hex digits |
| PercentEncoding.ByteQuotes | publisher.py:229-232 | defines the list of the bytes' quoted forms, one per byte |
| PercentEncoding.QuoteBytesCons | publisher.py:229-232 | quoting proceeds byte by byte |
| PercentEncoding.QuoteBytesChars | publisher.py:229-232 | quoted bytes contain only unreserved characters, '%' and hex digits |
| PercentEncoding.QuoteChars | publisher.py:229-232 | `quote(s, safe="")` contains only unreserved characters, '%' and hex digits |
| PercentEncoding.UnquoteQuoteBytes | publisher.py:229-232 | decoding quoted bytes gives the bytes back |
| PercentEncoding.UnquoteQuote | publisher.py:229-232 | decoding `quote(s)` gives the UTF-8 bytes of s |
| PercentEncoding.QuoteInjective | publisher.py:229-232 | texts with the same quoted form have the same bytes |
| PercentEncoding.FlattenAppend | publisher.py:229-232 | joining quoted pieces distributes over appending lists |
| PercentEncoding.QuoteBytesConcat | publisher.py:229-232 | quoting distributes over concatenation |
| PercentEncoding.QuoteUnreserved | publisher.py:229-232 | a text of unreserved characters quotes to itself |
| PercentEncoding.IsUnreserved | publisher.py:229 | defines the characters `quote` with `safe=""` keeps: letters, digits and `-._~` |
| PercentEncoding.Quote | publisher.py:229-232 | defines `quote(s, safe="")`: the quoted UTF-8 bytes of s |
| Strings.JoinSnoc | publisher.py:229 | joining one more part appends the separator and the part |
| Strings.Split | publisher.py:157 | one more part than separators, no part holding the separator |
| Strings.CountZero | publisher.py:157 | no separator counted iff none occurs |
| Strings.JoinSplit | publisher.py:157 | joining the parts of a split gives the text back |
| Strings.SplitNone | publisher.py:157 | a text without the separator splits into itself |
| Strings.SplitThree | publisher.py:231 | three separator-free fields joined by the separator split back into the three |
| Strings.SplitAt | publisher.py:157 | splitting at the first separator |
| Strings.SplitJoin | publisher.py:229 | splitting a join of separator-free parts gives the parts back |
| Strings.LastField | publisher.py:157 | `s.split(c)[-1]` holds no c |
| Strings.LastFieldSuffix | publisher.py:157 | when c occurs, the text is a prefix, c, then the last field |
| Strings.Decimal | publisher.py:222 | `str(n)`: digits only, no leading zero |
| Strings.DecimalRoundTrip | publisher.py:222 | reading the decimal form gives the number back |
| Strings.LessIrreflexive | publisher.py:228 | no key sorts before itself |
| Strings.LessAsymmetric | publisher.py:228 | two keys never sort before each other |
| Strings.LessTransitive | publisher.py:228 | the key order is transitive |
| Strings.LessTotal | publisher.py:228 | two different keys are ordered one way or the other |
| Strings.LeastExists | publisher.py:228 | a non-empty key set has a least key |
| Strings.LeastUnique | publisher.py:228 | the least key is unique |
| Strings.SortedKeys | publisher.py:228 | `sorted(keys)`: each key once, strictly increasing |
| Strings.LeastFirst | publisher.py:228 | the least key in front of the sorted other keys is a sorted listing of all keys |
| Strings.SortedKeysUnique | publisher.py:228 | any strictly increasing list of exactly the keys is the sorted list |
| Strings.ChainSorted | publisher.py:228 | neighbouring keys in order make the list sorted |
| Strings.LessAt | publisher.py:228 | a first differing character decides the order |
| Strings.LessPrefix | publisher.py:228 | a proper prefix sorts first |
| Strings.Lower | publisher.py:79 | defines `.lower()` of the extension, character by character |
| Strings.RFind | publisher.py:79 | the last occurrence of a character, or -1 |
| Strings.RFindAt | publisher.py:79 | a c at j with no c after it is what rfind finds |
| Strings.Join | publisher.py:229 | defines `sep.join(parts)` |
| Strings.Less | publisher.py:228 | defines the order `sorted` uses on text: by code point, a proper prefix first |
| OAuth1.OAuthParams | publisher.py:218-225 | the six protocol parameters, with HMAC-SHA1, version 1.0 and the decimal timestamp |
| OAuth1.Merge | publisher.py:227 | the caller's parameters override the protocol parameters |
| OAuth1.ParamPairs | publisher.py:229 | one quoted `k=v` pair per key |
| OAuth1.HeaderPairs | publisher.py:239-241 | one quoted `k="v"` pair per key |
| OAuth1.OAuth1Header | publisher.py:214-243 | the header is the specified function of its inputs, and lists exactly the seven parameters with the signature of the base string |
| OAuth1.ConsumerKeyBeforeNonce | publisher.py:240 | oauth_consumer_key sorts before oauth_nonce |
| OAuth1.NonceBeforeSignatureKey | publisher.py:240 | oauth_nonce sorts before oauth_signature |
| OAuth1.SignatureKeyBeforeSignatureMethod | publisher.py:240 | oauth_signature sorts before oauth_signature_method |
| OAuth1.SignatureMethodBeforeTimestamp | publisher.py:240 | oauth_signature_method sorts before oauth_timestamp |
| OAuth1.TimestampBeforeToken | publisher.py:240 | oauth_timestamp sorts before oauth_token |
| OAuth1.TokenBeforeVersion | publisher.py:240 | oauth_token sorts before oauth_version |
| OAuth1.HeaderKeysChain | publisher.py:240 | the seven header keys are listed in increasing order |
| OAuth1.HeaderKeysSorted | publisher.py:240 | sorting the seven header keys gives that list |
| OAuth1.NonceBeforeSignatureMethod | publisher.py:228 | oauth_nonce sorts before oauth_signature_method |
| OAuth1.ParamKeysSorted | publisher.py:228 | sorting the six protocol keys gives their listed order |
| OAuth1.PlainHeader | publisher.py:214-243 | with no caller parameters, the header is the one over the six protocol parameters in listed order |
| OAuth1.PlainParamString | publisher.py:228-229 | the parameter string of the six protocol parameters lists them in their sorted order |
| OAuth1.PlainHeaderValue | publisher.py:238-241 | the header of the signed parameters lists the seven keys in their sorted order |
| OAuth1.HeaderLayout | publisher.py:238-241 | the header lists consumer key, nonce, signature, method, timestamp, token, version in that order |
| OAuth1.SignedParams | publisher.py:238 | adding the signature gives exactly the seven header keys with their values |
| OAuth1.NoSeparatorInQuote | publisher.py:229-232 | a quoted text contains no '&', '=' or other reserved separator |
| OAuth1.SigningKeyFields | publisher.py:232 | the signing key splits at '&' into the two quoted secrets |
| OAuth1.BaseStringFields | publisher.py:231 | the base string splits at '&' into method, quoted URL, quoted parameter string |
| OAuth1.ParamPairFields | publisher.py:229 | a pair splits at '=' into quoted key and value and holds no '&' |
| OAuth1.ParamStringSplits | publisher.py:229 | the parameter string splits at '&' into the sorted pairs |
| OAuth1.ParamStringFields | publisher.py:229 | every sorted key and value can be read back from the parameter string |
| OAuth1.ParamString | publisher.py:228-229 | defines the parameter string: the quoted pairs of the sorted keys joined with '&' |
| OAuth1.BaseString | publisher.py:231 | defines the base string: method, quoted URL and quoted parameter string joined with '&' |
| OAuth1.SigningKey | publisher.py:232 | defines the signing key: the two quoted secrets joined with '&' |
| OAuth1.Signature | publisher.py:234-236 | defines base64 of HMAC-SHA1 over the UTF-8 bytes of key and base string |
| OAuth1.HeaderValue | publisher.py:239-241 | defines "OAuth " and the quoted `k="v"` pairs of the sorted keys joined with ", " |
| OAuth1.AuthorizationHeader | publisher.py:214-243 | defines the header `_oauth1_header` returns for given parameters, nonce and clock reading; it specifies the method OAuth1Header |
| OAuth1.PlainAuthorizationHeader | publisher.py:214-243 | defines the same header for `params == {}`, over the six protocol parameters; PlainHeader proves it equal to AuthorizationHeader |
| Twitter.ValidationError | publisher.py:248-257 | no or empty configuration gives the first message; otherwise it passes iff all four credentials are non-empty |
| Twitter.Sign | publisher.py:280-282 | `_oauth1_header('POST', url, {}, ...)` is the header over the six protocol parameters for that request's nonce and time |
| Twitter.UploadOutcome | publisher.py:272-276 | a 200 reply attaches `media_id_string`; another status is ignored; an exception, an unreadable body or a missing id aborts |
| Twitter.StatusPage | publisher.py:297 | the tweet URL is empty exactly without a username |
| Twitter.TweetResult | publisher.py:293-303 | success iff a readable 200/201 reply with `data.id`; otherwise the exception message, the KeyError of `data` or `id`, the string-index TypeError when `data` is text, or the status and reply text |
| Twitter.UploadMedia | publisher.py:262-276 | defines the upload step: the request carries the header signed for the upload URL as the first request, and its reply gives the upload outcome |
| Twitter.PostTweet | publisher.py:278-303 | defines the tweet step: the request carries the header signed for the tweet URL at its position, and its reply decides the result |
| Twitter.Publish | publisher.py:246-303 | a bad configuration sends nothing; without an image, exactly the tweet is sent; with one, the upload comes first; an aborted upload ends the call; otherwise the tweet follows, signed for its own position, with the media id iff one came back, and its reply decides the result |
| Twitter.CredentialsOf | publisher.py:250-253 | defines the four credentials read from the configuration, the token secret from `refresh_token` |
| Twitter.MediaRequest | publisher.py:265-272 | defines the media upload request with its Authorization header and the file |
| Twitter.TweetRequest | publisher.py:279-291 | defines the tweet request with its Authorization header and the tweet data |
| Twitter.Authorization | publisher.py:269-271 | defines the header of the k-th request of one call: `_oauth1_header('POST', url, {}, ...)` with that request's nonce and clock reading |
| Facebook.ValidationError | publisher.py:323-330 | no or empty configuration gives the first message; otherwise it passes iff token and page id are non-empty |
| Facebook.PostId | publisher.py:351 | the `id` field, else the `post_id` field, else empty |
| Facebook.PostUrl | publisher.py:352 | empty exactly when the id is; otherwise the page URL followed by the id |
| Facebook.ReplyResult | publisher.py:349-358 | success iff a readable 200 reply, with the id and its URL; the status and text, or the message, otherwise |
| Facebook.Publish | publisher.py:321-358 | a bad configuration sends nothing; otherwise exactly one request, a photo if the image exists and a feed post otherwise, whose reply decides the result |
| Facebook.PhotoRequest | publisher.py:335-340 | defines the photo request: caption and token as form fields, the file as `source` |
| Facebook.FeedRequest | publisher.py:343-347 | defines the text-only request to the page feed |
| LinkedIn.ValidationError | publisher.py:376-383 | no or empty configuration gives the first message; otherwise it passes iff token and author URN are non-empty |
| LinkedIn.ReplyResult | publisher.py:415-423 | success iff a readable 200/201 reply, with its `id` or empty and never a URL; the status and text, or the message, otherwise |
| LinkedIn.Publish | publisher.py:374-423 | a bad configuration sends nothing; otherwise exactly the one UGC request, independent of the image, whose reply decides the result |
| LinkedIn.Headers | publisher.py:386-390 | defines the three request headers, in order |
| LinkedIn.UgcRequest | publisher.py:392-413 | defines the published, public, text-only UGC post by the author |
| Dispatcher.Lookup | publisher.py:430-439 | a publisher exactly for the four names, found under its own name |
| Dispatcher.LookupName | publisher.py:430-435 | every publisher is found under its name |
| Dispatcher.UnknownPlatform | publisher.py:440-441 | defines the failure that names the platform and says it is unknown |
| Dispatcher.PublishToPlatform | publisher.py:437-443 | the result names the requested platform; an unknown name or a rejected configuration sends nothing; an accepted one sends at least one request |
| Dispatcher.Run | publisher.py:443 | the publisher's result names its platform; a rejected configuration sends nothing; an accepted one sends at least one request |
| Dispatcher.RunTwitter | publisher.py:443 | the same for the Twitter publisher |
| Dispatcher.PublishToAll | publisher.py:445-455 | no configuration gives no results; otherwise one five-key dictionary per entry, in order, naming its platform, with the unknown and rejected failures |
| Dispatcher.Name | publisher.py:430-435 | defines the platform name of each publisher |
| Dispatcher.ValidationError | publisher.py:437-443 | defines the configuration check of the chosen publisher |
| Dispatcher.NoPlatforms | publisher.py:447 | defines `not platforms_config`: no platform map, or an empty one |

## Left out

- Network, files, clock, UUID nonces, HMAC-SHA1 and base64 are not computed. They are inputs in `Http.World`, and the byte contents of files are represented by their paths.
- Errors while opening or reading an image file are not modelled. `os.path.exists` decides, and the open is taken to succeed.
- JSON is simplified to text and objects, and reply bodies to objects. A field the code uses as text but that holds an object reads as the empty string (`Http.TextOf`), so lists and numbers in replies are not modelled.
- `datetime.utcnow().strftime(...)` is the already formatted `World.utcNow`.
- The world answers each request the same way wherever it occurs. Nonces and clock readings are indexed by the position of the request within one publisher call, so two Twitter calls of one `publish_to_all` see the same ones.
- Strings.Lower: lower-cases ASCII letters only. Only U+212A and U+0130 lower into ASCII letters under Python's `str.lower`, and neither can make one of the five table extensions.
- Dispatcher.PublishToPlatform: states the chosen publisher through the platform name of the result and the requests sent. It does not restate each publisher's full contract, which that publisher's `Publish` states.
- Dispatcher.Run: states for each publisher the platform name, the configuration errors and that an accepted configuration sends a request, not the publisher's full contract, which that publisher's `Publish` states.
- Dispatcher.RunTwitter: states the same summary for the Twitter publisher only.
- Dispatcher.PublishToAll: states per entry only what PublishToPlatform states. It does not list the requests sent.
- `publish_to_all` takes the platforms as a sequence of (name, configuration) pairs in dictionary order. Uniqueness of dictionary keys is not used.
- Text is taken to hold no lone surrogates, because a Dafny `string` cannot hold one. In Python such text makes `.encode('utf-8')` and `quote` raise `UnicodeEncodeError`, in the facet scan and in the OAuth signature. The caught failure that follows is not modelled.
- Bluesky.Extension: follows POSIX path rules (`posixpath.splitext`), where only '/' separates path parts. The Windows rules of `ntpath`, which also split at '\\' and after a drive letter, are not modelled.
- The `mentions` of the `_parse_facets` docstring are not produced by the code, and so are not modelled.
- The other modules of the tool (web app, analytics, seed content) are not part of this model.
- Concurrency: the code is sequential.
