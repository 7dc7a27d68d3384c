/**
  LinkedInPublisher: one UGC post request carrying the text; the image is not
  sent.
 */
module LinkedIn {
  import opened Wrappers
  import opened Http
  import opened Results

  const Platform := "linkedin"
  const ApiUrl := "https://api.linkedin.com/v2"
  const UgcPostsUrl := ApiUrl + "/ugcPosts"
  const NoConfig := "No LinkedIn configuration provided"
  const NoCredentials := "LinkedIn Access Token and Author URN required"

  /** The check done before any request: the access token and the author URN (kept in `username`) must be set. */
  function ValidationError(config: Option<Config>): (r: Option<string>)
    ensures Missing(config) ==> r == Some(NoConfig)
    ensures !Missing(config) ==>
              (r.None? <==> Get(config.value, "access_token") != "" && Get(config.value, "username") != "")
    ensures !Missing(config) && r.Some? ==> r == Some(NoCredentials)
  {
    RequireKeys(config, ["access_token", "username"], NoConfig, NoCredentials)
  }

  /** The headers of the UGC request, in order. */
  function Headers(accessToken: string): seq<(string, string)> {
    [("Authorization", Bearer(accessToken)), ("Content-Type", "application/json"),
     ("X-Restli-Protocol-Version", "2.0.0")]
  }

  /** The published, public, text-only UGC post by the author. */
  function UgcRequest(accessToken: string, authorUrn: string, content: string): Request {
    Post(UgcPostsUrl, Headers(accessToken), UgcJson(UgcPost(authorUrn, "PUBLISHED", content, "NONE", "PUBLIC")))
  }

  /**
    The result of the reply: 200 and 201 succeed with the body's `id` (empty
    when absent) and no URL; any other status fails with the status and the
    text; an exception or an unreadable body fails with its message.
   */
  function ReplyResult(reply: Reply): (r: PublishResult)
    ensures r.platform == Platform && r.url == ""
    ensures r.success <==> reply.Response? && reply.status in {200, 201} && reply.payload.Parsed?
    ensures r.success ==> var data := reply.payload.fields;
                          r.error == "" && ("id" in data ==> r.postId == TextOf(data["id"]))
                          && ("id" !in data ==> r.postId == "")
    ensures reply.Raised? ==> r == Failure(Platform, reply.reason)
    ensures reply.Response? && reply.status !in {200, 201} ==>
              r == Failure(Platform, HttpError(reply.status, reply.text))
    ensures reply.Response? && reply.status in {200, 201} && reply.payload.Malformed? ==>
              r == Failure(Platform, reply.payload.reason)
  {
    match reply
    case Raised(e) => Failure(Platform, e)
    case Response(status, text, payload) =>
      if status != 200 && status != 201 then Failure(Platform, HttpError(status, text))
      else match payload
        case Malformed(e) => Failure(Platform, e)
        case Parsed(data) =>
          Success(Platform, if "id" in data then TextOf(data["id"]) else "", "")
  }

  /** `LinkedInPublisher.publish`: at most one request, which does not depend on the image. */
  method Publish(content: string, imagePath: string, config: Option<Config>, world: World)
    returns (res: PublishResult, issued: seq<Request>)
    ensures res.platform == Platform
    ensures ValidationError(config).Some? ==>
              res == Failure(Platform, ValidationError(config).value) && issued == []
    ensures ValidationError(config).None? ==>
              issued == [UgcRequest(Get(config.value, "access_token"), Get(config.value, "username"), content)]
              && res == ReplyResult(world.net(issued[0]))
  {
    issued := [];
    var invalid := ValidationError(config);
    if invalid.Some? {
      return Failure(Platform, invalid.value), issued;
    }
    var request := UgcRequest(Get(config.value, "access_token"), Get(config.value, "username"), content);
    issued := issued + [request];
    res := ReplyResult(world.net(request));
  }
}
