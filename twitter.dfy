/**
  TwitterPublisher: an optional media upload, then the tweet, each request signed
  with an OAuth 1.0a Authorization header.
 */
module Twitter {
  import opened Wrappers
  import opened Http
  import opened Results
  import OAuth1

  const Platform := "twitter"
  const ApiUrl := "https://api.twitter.com/2"
  const UploadBaseUrl := "https://upload.twitter.com/1.1"
  const MediaUrl := UploadBaseUrl + "/media/upload.json"
  const TweetUrl := ApiUrl + "/tweets"
  const StatusUrl := "https://twitter.com/"
  const NoConfig := "No Twitter configuration provided"
  const NoCredentials := "Twitter API credentials incomplete"

  /** The four OAuth credentials; the token secret is kept in the `refresh_token` field. */
  datatype Credentials = Credentials(apiKey: string, apiSecret: string, accessToken: string, tokenSecret: string)

  function CredentialsOf(config: Config): Credentials {
    Credentials(Get(config, "api_key"), Get(config, "api_secret"), Get(config, "access_token"),
                Get(config, "refresh_token"))
  }

  /** The credential check done before any request: all four credentials must be set. */
  function ValidationError(config: Option<Config>): (r: Option<string>)
    ensures Missing(config) ==> r == Some(NoConfig)
    ensures !Missing(config) ==>
              (r.None? <==> Get(config.value, "api_key") != "" && Get(config.value, "api_secret") != ""
                            && Get(config.value, "access_token") != "" && Get(config.value, "refresh_token") != "")
    ensures !Missing(config) && r.Some? ==> r == Some(NoCredentials)
  {
    RequireKeys(config, ["api_key", "api_secret", "access_token", "refresh_token"], NoConfig, NoCredentials)
  }

  /** The Authorization header of the k-th request of a publish call, a POST to url with no parameters. */
  function Authorization(url: string, creds: Credentials, world: World, k: nat): string {
    OAuth1.PlainAuthorizationHeader("POST", url, creds.apiKey, creds.apiSecret, creds.accessToken,
                                    creds.tokenSecret, world.nonce(k), world.unixTime(k), world.crypto)
  }

  /** `_oauth1_header('POST', url, {}, ...)` for the k-th request. */
  method Sign(url: string, creds: Credentials, world: World, k: nat) returns (header: string)
    ensures header == Authorization(url, creds, world, k)
  {
    header := OAuth1.OAuth1Header("POST", url, map[], creds.apiKey, creds.apiSecret, creds.accessToken,
                                  creds.tokenSecret, world.nonce(k), world.unixTime(k), world.crypto);
    OAuth1.PlainHeader("POST", url, creds.apiKey, creds.apiSecret, creds.accessToken,
                       creds.tokenSecret, world.nonce(k), world.unixTime(k), world.crypto);
  }

  /** The media upload request, signed with the given header. */
  function MediaRequest(path: string, authorization: string): Request {
    Post(MediaUrl, [("Authorization", authorization)], MediaFile(path))
  }

  /** The tweet request, signed with the given header. */
  function TweetRequest(tweet: TweetData, authorization: string): Request {
    Post(TweetUrl, [("Authorization", authorization), ("Content-Type", "application/json")], TweetJson(tweet))
  }

  /** What a media upload reply means for the tweet. */
  datatype Upload = Abort(reason: string) | Skip | Attach(mediaId: Json)

  /**
    A media upload reply: a 200 reply attaches its `media_id_string`; any other
    status is ignored; an exception, an unreadable 200 body or a 200 body without
    the id fails the whole publication.
   */
  function UploadOutcome(reply: Reply): (r: Upload)
    ensures r.Skip? <==> reply.Response? && reply.status != 200
    ensures r.Attach? <==> reply.Response? && reply.status == 200 && reply.payload.Parsed?
                           && "media_id_string" in reply.payload.fields
    ensures r.Attach? ==> r.mediaId == reply.payload.fields["media_id_string"]
    ensures reply.Raised? ==> r == Abort(reply.reason)
    ensures reply.Response? && reply.status == 200 && reply.payload.Malformed? ==> r == Abort(reply.payload.reason)
    ensures reply.Response? && reply.status == 200 && reply.payload.Parsed? && "media_id_string" !in reply.payload.fields
            ==> r == Abort(KeyError("media_id_string"))
  {
    match reply
    case Raised(e) => Abort(e)
    case Response(status, _, payload) =>
      if status != 200 then Skip
      else match payload
        case Malformed(e) => Abort(e)
        case Parsed(f) =>
          if "media_id_string" in f then Attach(f["media_id_string"]) else Abort(KeyError("media_id_string"))
  }

  /** The tweet URL: empty without a username. */
  function StatusPage(username: string, id: string): (r: string)
    ensures r == "" <==> username == ""
  {
    if username != "" then StatusUrl + username + "/status/" + id else ""
  }

  /**
    The result of the tweet reply: 200 and 201 succeed with the id under
    `data.id`; a missing key or an unreadable body fails with the exception's
    message; any other status fails with the status and the reply text.
   */
  function TweetResult(reply: Reply, username: string): (r: PublishResult)
    ensures r.platform == Platform
    ensures r.success <==> reply.Response? && reply.status in {200, 201} && reply.payload.Parsed?
                           && "data" in reply.payload.fields && reply.payload.fields["data"].Object?
                           && "id" in reply.payload.fields["data"].fields
    ensures r.success ==> var id := TextOf(reply.payload.fields["data"].fields["id"]);
                          r == Success(Platform, id, StatusPage(username, id))
    ensures reply.Raised? ==> r == Failure(Platform, reply.reason)
    ensures reply.Response? && reply.status !in {200, 201} ==>
              r == Failure(Platform, HttpError(reply.status, reply.text))
    ensures reply.Response? && reply.status in {200, 201} && reply.payload.Parsed? && "data" !in reply.payload.fields
            ==> r == Failure(Platform, KeyError("data"))
    ensures reply.Response? && reply.status in {200, 201} && reply.payload.Parsed? && "data" in reply.payload.fields
            && reply.payload.fields["data"].Text?
            ==> r == Failure(Platform, StringIndexError)
    ensures reply.Response? && reply.status in {200, 201} && reply.payload.Parsed? && "data" in reply.payload.fields
            && reply.payload.fields["data"].Object? && "id" !in reply.payload.fields["data"].fields
            ==> r == Failure(Platform, KeyError("id"))
  {
    match reply
    case Raised(e) => Failure(Platform, e)
    case Response(status, text, payload) =>
      if status != 200 && status != 201 then Failure(Platform, HttpError(status, text))
      else match payload
        case Malformed(e) => Failure(Platform, e)
        case Parsed(f) =>
          if "data" !in f then Failure(Platform, KeyError("data"))
          else match f["data"]
            case Text(_) => Failure(Platform, StringIndexError)
            case Object(d) =>
              if "id" !in d then Failure(Platform, KeyError("id"))
              else
                var id := TextOf(d["id"]);
                Success(Platform, id, StatusPage(username, id))
  }

  /**
    `TwitterPublisher.publish`. A bad configuration fails before any request.
    With an existing image the media is uploaded first; its id is attached only
    on a 200 reply, another status leaves the tweet without media, and an
    exception ends the publication. The tweet then carries the text, and each
    request is signed with the header for its own URL, nonce and time.
   */
  method Publish(content: string, imagePath: string, config: Option<Config>, world: World)
    returns (res: PublishResult, issued: seq<Request>)
    ensures res.platform == Platform
    ensures ValidationError(config).Some? ==>
              res == Failure(Platform, ValidationError(config).value) && issued == []
    ensures ValidationError(config).None? && !Uploading(imagePath, world) ==>
              var tweet := TweetRequest(TweetData(content, None), Authorization(TweetUrl, CredentialsOf(config.value), world, 0));
              issued == [tweet] && res == TweetResult(world.net(tweet), Get(config.value, "username"))
    ensures ValidationError(config).None? && Uploading(imagePath, world) ==>
              var creds := CredentialsOf(config.value);
              var upload := MediaRequest(imagePath, Authorization(MediaUrl, creds, world, 0));
              var outcome := UploadOutcome(world.net(upload));
              var media := if outcome.Attach? then Some([outcome.mediaId]) else None;
              var tweet := TweetRequest(TweetData(content, media), Authorization(TweetUrl, creds, world, 1));
              (outcome.Abort? ==> issued == [upload] && res == Failure(Platform, outcome.reason))
              && (!outcome.Abort? ==> issued == [upload, tweet] && res == TweetResult(world.net(tweet), Get(config.value, "username")))
  {
    var invalid := ValidationError(config);
    if invalid.Some? {
      return Failure(Platform, invalid.value), [];
    }
    var creds := CredentialsOf(config.value);
    var username := Get(config.value, "username");
    if !Uploading(imagePath, world) {
      var post;
      res, post := PostTweet(TweetData(content, None), creds, world, 0, username);
      return res, [post];
    }
    var outcome, upload := UploadMedia(imagePath, creds, world);
    match outcome
    case Abort(e) =>
      return Failure(Platform, e), [upload];
    case Skip =>
      var post;
      res, post := PostTweet(TweetData(content, None), creds, world, 1, username);
      issued := [upload, post];
    case Attach(id) =>
      var post;
      res, post := PostTweet(TweetData(content, Some([id])), creds, world, 1, username);
      issued := [upload, post];
  }

  /** The media upload, the first request of a publish call. */
  method UploadMedia(imagePath: string, creds: Credentials, world: World) returns (outcome: Upload, upload: Request)
    ensures upload == MediaRequest(imagePath, Authorization(MediaUrl, creds, world, 0))
    ensures outcome == UploadOutcome(world.net(upload))
  {
    var header := Sign(MediaUrl, creds, world, 0);
    upload := MediaRequest(imagePath, header);
    outcome := UploadOutcome(world.net(upload));
  }

  /** The tweet, the k-th request of a publish call. */
  method PostTweet(tweet: TweetData, creds: Credentials, world: World, k: nat, username: string)
    returns (res: PublishResult, post: Request)
    ensures post == TweetRequest(tweet, Authorization(TweetUrl, creds, world, k))
    ensures res == TweetResult(world.net(post), username)
  {
    var header := Sign(TweetUrl, creds, world, k);
    post := TweetRequest(tweet, header);
    res := TweetResult(world.net(post), username);
  }
}
