/**
  The outside world the publishers talk to. HTTP replies, file existence, the
  clock, the nonce generator and the cryptographic primitives are not computed
  here: they are given, as fields of a World value, and the publishers record
  every request they send.
 */
module Http {
  import opened Wrappers
  import Facets
  import Strings
  import OAuth1

  /** A JSON value as the publishers read it: text, or an object of named fields. */
  datatype Json = Text(text: string) | Object(fields: map<string, Json>)

  /** A reply body as `resp.json()` reads it: an object, or the message of the exception it raised. */
  datatype Payload = Parsed(fields: map<string, Json>) | Malformed(reason: string)

  /** What one `requests.post` call gives back: the message of an exception, or a response. */
  datatype Reply = Raised(reason: string) | Response(status: nat, text: string, payload: Payload)

  /** One image of a Bluesky embed. */
  datatype Image = Image(alt: string, image: Json)

  /** The `embed` part of a Bluesky post record. */
  datatype Embed = Embed(kind: string, images: seq<Image>)

  /** A Bluesky post record; `facets` and `embed` are keys the record may lack. */
  datatype PostRecord = PostRecord(text: string, createdAt: string, kind: string,
                                   facets: Option<seq<Facets.Facet>>, embed: Option<Embed>)

  /** The JSON body of a tweet; `mediaIds` stands for the optional `media.media_ids` key. */
  datatype TweetData = TweetData(text: string, mediaIds: Option<seq<Json>>)

  /** The JSON body of a LinkedIn UGC post. */
  datatype UgcPost = UgcPost(author: string, lifecycleState: string, commentary: string,
                             shareMediaCategory: string, visibility: string)

  /** The body of a request; a file is named by its path and stands for the bytes read from it. */
  datatype Body =
    | SessionJson(identifier: string, password: string)
    | BlobBytes(path: string)
    | RecordJson(repo: string, collection: string, record: PostRecord)
    | MediaFile(path: string)
    | TweetJson(tweet: TweetData)
    | PhotoForm(caption: string, accessToken: string, source: string)
    | FeedForm(message: string, accessToken: string)
    | UgcJson(post: UgcPost)

  /** A POST request: target URL, headers in order, body. */
  datatype Request = Post(url: string, headers: seq<(string, string)>, body: Body)

  /**
    Everything a publisher observes. `net` answers a request; `fileExists` is
    `os.path.exists`; `utcNow` is the current time already formatted as
    `%Y-%m-%dT%H:%M:%S.000Z`; `nonce(k)` and `unixTime(k)` are the nonce and the
    clock reading taken just before the k-th request of one publisher call.
   */
  datatype World = World(net: Request -> Reply, fileExists: string -> bool, utcNow: string,
                         nonce: nat -> string, unixTime: nat -> nat, crypto: OAuth1.Crypto)

  /** A platform configuration: string fields by name. */
  type Config = map<string, string>

  /** `config.get(key, '')`. */
  function Get(config: Config, key: string): (r: string)
    ensures key !in config ==> r == ""
    ensures key in config ==> r == config[key]
  {
    if key in config then config[key] else ""
  }

  /** `not config`: no configuration, or an empty one. */
  predicate Missing(config: Option<Config>) {
    config.None? || config.value == map[]
  }

  /**
    The check each publisher makes before its first request: `not config` gives the
    first message, and an empty or missing value under any of the keys the second.
   */
  function RequireKeys(config: Option<Config>, keys: seq<string>, noConfig: string, noCredentials: string): (r: Option<string>)
    ensures Missing(config) ==> r == Some(noConfig)
    ensures !Missing(config) ==> (r.None? <==> forall k :: k in keys ==> Get(config.value, k) != "")
    ensures !Missing(config) && r.Some? ==> r == Some(noCredentials)
  {
    if Missing(config) then Some(noConfig)
    else if exists k :: k in keys && Get(config.value, k) == "" then Some(noCredentials)
    else None
  }

  /** `str(KeyError(key))`: the key in single quotes. */
  function KeyError(key: string): string {
    "'" + key + "'"
  }

  /** The message Python gives when a string is indexed by a string key. */
  const StringIndexError := "string indices must be integers, not 'str'"

  /** A JSON value read where text is expected; an object reads as the empty string. */
  function TextOf(j: Json): string {
    if j.Text? then j.text else ""
  }

  /** `f'Bearer {token}'`. */
  function Bearer(token: string): string {
    "Bearer " + token
  }

  /** `image_path and os.path.exists(image_path)`: a path is given and the file exists. */
  predicate Uploading(imagePath: string, world: World) {
    imagePath != "" && world.fileExists(imagePath)
  }

  /** `f"HTTP {status}: {text}"`; the status can be read back from the message. */
  function HttpError(status: nat, text: string): (r: string)
    ensures r == "HTTP " + Strings.Decimal(status) + ": " + text
    ensures var code := r[5..5 + |Strings.Decimal(status)|];
            Strings.DecimalValue(code) == status
  {
    Strings.DecimalRoundTrip(status);
    var r := "HTTP " + Strings.Decimal(status) + ": " + text;
    assert r[5..5 + |Strings.Decimal(status)|] == Strings.Decimal(status);
    r
  }
}
