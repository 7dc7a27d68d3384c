/**
  FacebookPublisher: one Graph API request to a page, a photo with its caption
  when the image file exists, a text post to the page feed otherwise.
 */
module Facebook {
  import opened Wrappers
  import opened Http
  import opened Results

  const Platform := "facebook"
  const GraphUrl := "https://graph.facebook.com/v19.0"
  const PageUrl := "https://facebook.com/"
  const NoConfig := "No Facebook configuration provided"
  const NoCredentials := "Facebook Page ID and Access Token required"

  /** The check done before any request: the access token and the page id (kept in `username`) must be set. */
  function ValidationError(config: Option<Config>): (r: Option<string>)
    ensures Missing(config) ==> r == Some(NoConfig)
    ensures !Missing(config) ==>
              (r.None? <==> Get(config.value, "access_token") != "" && Get(config.value, "username") != "")
    ensures !Missing(config) && r.Some? ==> r == Some(NoCredentials)
  {
    RequireKeys(config, ["access_token", "username"], NoConfig, NoCredentials)
  }

  /** The photo request: caption and token as form fields, the file as `source`. */
  function PhotoRequest(pageId: string, accessToken: string, content: string, imagePath: string): Request {
    Post(GraphUrl + "/" + pageId + "/photos", [], PhotoForm(content, accessToken, imagePath))
  }

  /** The text-only request to the page feed. */
  function FeedRequest(pageId: string, accessToken: string, content: string): Request {
    Post(GraphUrl + "/" + pageId + "/feed", [], FeedForm(content, accessToken))
  }

  /** `data.get('id', data.get('post_id', ''))`, read as text. */
  function PostId(data: map<string, Json>): (r: string)
    ensures "id" in data ==> r == TextOf(data["id"])
    ensures "id" !in data && "post_id" in data ==> r == TextOf(data["post_id"])
    ensures "id" !in data && "post_id" !in data ==> r == ""
  {
    if "id" in data then TextOf(data["id"])
    else if "post_id" in data then TextOf(data["post_id"])
    else ""
  }

  /** The post URL: empty exactly when the id is. */
  function PostUrl(postId: string): (r: string)
    ensures r == "" <==> postId == ""
    ensures r != "" ==> |r| > |PageUrl| && r[..|PageUrl|] == PageUrl && r[|PageUrl|..] == postId
  {
    if postId != "" then PageUrl + postId else ""
  }

  /**
    The result of the Graph API reply: status 200 succeeds with the id of the
    body; any other status fails with the status and the text; an exception or
    an unreadable 200 body fails with its message.
   */
  function ReplyResult(reply: Reply): (r: PublishResult)
    ensures r.platform == Platform
    ensures r.success <==> reply.Response? && reply.status == 200 && reply.payload.Parsed?
    ensures r.success ==> r == Success(Platform, PostId(reply.payload.fields), PostUrl(PostId(reply.payload.fields)))
    ensures reply.Raised? ==> r == Failure(Platform, reply.reason)
    ensures reply.Response? && reply.status != 200 ==> r == Failure(Platform, HttpError(reply.status, reply.text))
    ensures reply.Response? && reply.status == 200 && reply.payload.Malformed? ==>
              r == Failure(Platform, reply.payload.reason)
  {
    match reply
    case Raised(e) => Failure(Platform, e)
    case Response(status, text, payload) =>
      if status != 200 then Failure(Platform, HttpError(status, text))
      else match payload
        case Malformed(e) => Failure(Platform, e)
        case Parsed(data) =>
          var postId := PostId(data);
          Success(Platform, postId, PostUrl(postId))
  }

  /** `FacebookPublisher.publish`: at most one request, chosen by whether the image file exists. */
  method Publish(content: string, imagePath: string, config: Option<Config>, world: World)
    returns (res: PublishResult, issued: seq<Request>)
    ensures res.platform == Platform
    ensures ValidationError(config).Some? ==>
              res == Failure(Platform, ValidationError(config).value) && issued == []
    ensures ValidationError(config).None? ==>
              var pageId := Get(config.value, "username");
              var accessToken := Get(config.value, "access_token");
              |issued| == 1
              && issued[0] == (if Uploading(imagePath, world) then PhotoRequest(pageId, accessToken, content, imagePath)
                               else FeedRequest(pageId, accessToken, content))
              && res == ReplyResult(world.net(issued[0]))
  {
    issued := [];
    var invalid := ValidationError(config);
    if invalid.Some? {
      return Failure(Platform, invalid.value), issued;
    }
    var accessToken := Get(config.value, "access_token");
    var pageId := Get(config.value, "username");
    var request;
    if Uploading(imagePath, world) {
      request := PhotoRequest(pageId, accessToken, content, imagePath);
    } else {
      request := FeedRequest(pageId, accessToken, content);
    }
    issued := issued + [request];
    res := ReplyResult(world.net(request));
  }
}
