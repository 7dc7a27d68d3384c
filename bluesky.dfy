/**
  BlueskyPublisher: create a session, build the post record (text, time, facets,
  an optional image embed), create the record and derive the post's web URL.
 */
module Bluesky {
  import opened Wrappers
  import opened Http
  import opened Results
  import Strings
  import Facets

  const Platform := "bluesky"
  const BaseUrl := "https://bsky.social/xrpc"
  const SessionUrl := BaseUrl + "/com.atproto.server.createSession"
  const UploadUrl := BaseUrl + "/com.atproto.repo.uploadBlob"
  const RecordUrl := BaseUrl + "/com.atproto.repo.createRecord"
  const PostType := "app.bsky.feed.post"
  const EmbedType := "app.bsky.embed.images"
  const ImageAlt := "Forbidden Bourbon"
  const NoConfig := "No Bluesky configuration provided"
  const NoCredentials := "Bluesky handle and app password required"

  /** The credential check done before any request: the handle and the app password must be set. */
  function ValidationError(config: Option<Config>): (r: Option<string>)
    ensures Missing(config) ==> r == Some(NoConfig)
    ensures !Missing(config) ==>
              (r.None? <==> Get(config.value, "username") != "" && Get(config.value, "api_key") != "")
    ensures !Missing(config) && r.Some? ==> r == Some(NoCredentials)
  {
    RequireKeys(config, ["username", "api_key"], NoConfig, NoCredentials)
  }

  /** The tokens of an authenticated session. */
  datatype Session = Session(did: string, accessJwt: string, refreshJwt: string, handle: string)

  const SessionKeys: set<string> := {"did", "accessJwt", "refreshJwt", "handle"}

  /** The createSession request for a handle and an app password. */
  function SessionRequest(handle: string, password: string): Request {
    Post(SessionUrl, [], SessionJson(handle, password))
  }

  /**
    `authenticate`: the session the createSession reply grants. Only a 200 reply
    whose body holds all four session fields succeeds; otherwise the error is the
    exception's message, the reply text, or the first missing key.
   */
  function Authenticate(reply: Reply): (r: Result<Session>)
    ensures r.Ok? <==> reply.Response? && reply.status == 200 && reply.payload.Parsed?
                       && SessionKeys <= reply.payload.fields.Keys
    ensures r.Ok? ==> var f := reply.payload.fields;
                      r.value == Session(TextOf(f["did"]), TextOf(f["accessJwt"]),
                                         TextOf(f["refreshJwt"]), TextOf(f["handle"]))
    ensures reply.Raised? ==> r == Err(reply.reason)
    ensures reply.Response? && reply.status != 200 ==> r == Err(reply.text)
    ensures reply.Response? && reply.status == 200 && reply.payload.Malformed? ==> r == Err(reply.payload.reason)
    ensures reply.Response? && reply.status == 200 && reply.payload.Parsed? && "did" !in reply.payload.fields
            ==> r == Err(KeyError("did"))
    ensures reply.Response? && reply.status == 200 && reply.payload.Parsed?
            && "did" in reply.payload.fields && "accessJwt" !in reply.payload.fields
            ==> r == Err(KeyError("accessJwt"))
    ensures reply.Response? && reply.status == 200 && reply.payload.Parsed?
            && "did" in reply.payload.fields && "accessJwt" in reply.payload.fields
            && "refreshJwt" !in reply.payload.fields
            ==> r == Err(KeyError("refreshJwt"))
    ensures reply.Response? && reply.status == 200 && reply.payload.Parsed?
            && "did" in reply.payload.fields && "accessJwt" in reply.payload.fields
            && "refreshJwt" in reply.payload.fields && "handle" !in reply.payload.fields
            ==> r == Err(KeyError("handle"))
  {
    match reply
    case Raised(e) => Err(e)
    case Response(status, text, payload) =>
      if status != 200 then Err(text)
      else match payload
        case Malformed(e) => Err(e)
        case Parsed(f) =>
          if "did" !in f then Err(KeyError("did"))
          else if "accessJwt" !in f then Err(KeyError("accessJwt"))
          else if "refreshJwt" !in f then Err(KeyError("refreshJwt"))
          else if "handle" !in f then Err(KeyError("handle"))
          else Ok(Session(TextOf(f["did"]), TextOf(f["accessJwt"]), TextOf(f["refreshJwt"]), TextOf(f["handle"])))
  }

  /**
    `os.path.splitext(path)[1]`: from the last '.' of the last path component, or
    empty when that component has no '.' after a character other than '.'.
   */
  function Extension(path: string): (ext: string)
    ensures ext == "" || (ext[0] == '.' && '.' !in ext[1..] && '/' !in ext)
    ensures |ext| <= |path| && path[|path| - |ext|..] == ext
  {
    var sep := Strings.RFind(path, '/');
    var dot := Strings.RFind(path, '.');
    if dot > sep && exists k :: sep + 1 <= k < dot && path[k] != '.' then path[dot..] else ""
  }

  /** The extension table of `upload_image`. */
  const MimeTypes: map<string, string> :=
    map[".jpg" := "image/jpeg", ".jpeg" := "image/jpeg", ".png" := "image/png",
        ".gif" := "image/gif", ".webp" := "image/webp"]

  /** The Content-Type of an image upload: from the lower-cased extension, JPEG by default. */
  function MimeType(path: string): (r: string)
    ensures r in {"image/jpeg", "image/png", "image/gif", "image/webp"}
  {
    var ext := Strings.Lower(Extension(path));
    if ext in MimeTypes then MimeTypes[ext] else "image/jpeg"
  }

  /**
    The extension is what follows the last '.' of the file name, provided the name
    has a character other than '.' before that dot.
   */
  lemma {:induction false} ExtensionOfName(dir: string, stem: string, ext: string)
    requires dir == [] || dir[|dir| - 1] == '/'
    requires '/' !in stem && '/' !in ext && '.' !in ext
    requires exists k :: 0 <= k < |stem| && stem[k] != '.'
    ensures Extension(dir + stem + "." + ext) == "." + ext
  {
    var path := dir + stem + "." + ext;
    var dot := |dir| + |stem|;
    DotAndSeparator(dir, stem, ext);
    var k :| 0 <= k < |stem| && stem[k] != '.';
    assert path[|dir| + k] == stem[k];
    assert path[dot..] == "." + ext;
  }

  /**
    In dir + stem + "." + ext, the last '.' is the one before ext and the last '/'
    is the one ending dir.
   */
  lemma {:induction false} DotAndSeparator(dir: string, stem: string, ext: string)
    requires dir == [] || dir[|dir| - 1] == '/'
    requires '/' !in stem && '/' !in ext && '.' !in ext
    ensures var path := dir + stem + "." + ext;
            Strings.RFind(path, '.') == |dir| + |stem| && Strings.RFind(path, '/') == |dir| - 1
            && forall k :: |dir| <= k < |dir| + |stem| ==> path[k] == stem[k - |dir|]
  {
    var path := dir + stem + "." + ext;
    var dot := |dir| + |stem|;
    forall k | dot < k < |path| ensures path[k] != '.' && path[k] != '/' {
      assert path[k] == ext[k - dot - 1];
    }
    Strings.RFindAt(path, '.', dot);
    forall k | |dir| <= k < dot ensures path[k] == stem[k - |dir|] && path[k] != '/' {
      assert path[k] == stem[k - |dir|];
    }
    Strings.RFindAt(path, '/', |dir| - 1);
  }

  /** A name made of dots and an extension, like ".png", has no extension. */
  lemma {:induction false} HiddenNameHasNoExtension(dir: string, dots: nat, ext: string)
    requires dir == [] || dir[|dir| - 1] == '/'
    requires '/' !in ext && '.' !in ext
    ensures Extension(dir + seq(dots, _ => '.') + "." + ext) == ""
  {
    var stem: string := seq(dots, _ => '.');
    var path := dir + stem + "." + ext;
    DotAndSeparator(dir, stem, ext);
    assert forall k :: |dir| <= k < |dir| + dots ==> path[k] == stem[k - |dir|] == '.';
  }

  /** The image type follows the file name's extension, whatever its case. */
  lemma {:induction false} MimeTypeOfName(dir: string, stem: string, ext: string)
    requires dir == [] || dir[|dir| - 1] == '/'
    requires '/' !in stem && '/' !in ext && '.' !in ext
    requires exists k :: 0 <= k < |stem| && stem[k] != '.'
    ensures var key := Strings.Lower("." + ext);
            MimeType(dir + stem + "." + ext) == if key in MimeTypes then MimeTypes[key] else "image/jpeg"
  {
    ExtensionOfName(dir, stem, ext);
  }

  /** The uploadBlob request: the file's bytes, typed by its extension. */
  function UploadRequest(accessJwt: string, path: string): Request {
    Post(UploadUrl, [("Authorization", Bearer(accessJwt)), ("Content-Type", MimeType(path))], BlobBytes(path))
  }

  /** `upload_image`'s blob: present only on a 200 reply whose body has a `blob`. */
  function UploadedBlob(reply: Reply): (r: Option<Json>)
    ensures r.Some? <==> reply.Response? && reply.status == 200 && reply.payload.Parsed?
                         && "blob" in reply.payload.fields
    ensures r.Some? ==> r.value == reply.payload.fields["blob"]
  {
    if reply.Response? && reply.status == 200 && reply.payload.Parsed? && "blob" in reply.payload.fields
    then Some(reply.payload.fields["blob"])
    else None
  }

  /** The createRecord request for a record in the session's repository. */
  function RecordRequest(session: Session, record: PostRecord): Request {
    Post(RecordUrl, [("Authorization", Bearer(session.accessJwt))], RecordJson(session.did, PostType, record))
  }

  /** The record key of a post: the last '/'-separated part of its URI, or empty without a '/'. */
  function RKey(uri: string): (r: string)
    ensures '/' !in r
    ensures '/' !in uri ==> r == ""
    ensures '/' in uri ==> |r| < |uri| && uri == uri[..|uri| - |r| - 1] + "/" + r
  {
    if '/' in uri then
      Strings.LastFieldSuffix(uri, '/');
      Strings.LastField(uri, '/')
    else ""
  }

  const ProfileUrl := "https://bsky.app/profile/"

  /** The web address of a post by handle with record key rkey. */
  function PostUrl(handle: string, rkey: string): string {
    ProfileUrl + handle + "/post/" + rkey
  }

  /**
    The result of the createRecord reply: on 200 the post id is the record's URI and
    the URL is the profile page of the session's handle followed by the record key;
    anything else fails with the exception's message or the reply text.
   */
  function RecordResult(reply: Reply, handle: string): (r: PublishResult)
    ensures r.platform == Platform
    ensures r.success <==> reply.Response? && reply.status == 200 && reply.payload.Parsed?
    ensures r.success ==> var f := reply.payload.fields;
                          var uri := if "uri" in f then TextOf(f["uri"]) else "";
                          r == Success(Platform, uri, PostUrl(handle, RKey(uri)))
    ensures reply.Raised? ==> r == Failure(Platform, reply.reason)
    ensures reply.Response? && reply.status != 200 ==> r == Failure(Platform, reply.text)
    ensures reply.Response? && reply.status == 200 && reply.payload.Malformed? ==>
              r == Failure(Platform, reply.payload.reason)
  {
    match reply
    case Raised(e) => Failure(Platform, e)
    case Response(status, text, payload) =>
      if status != 200 then Failure(Platform, text)
      else match payload
        case Malformed(e) => Failure(Platform, e)
        case Parsed(f) =>
          var uri := if "uri" in f then TextOf(f["uri"]) else "";
          Success(Platform, uri, PostUrl(handle, RKey(uri)))
  }

  /** The URL of a successful post ends in "/post/" and the record key, a part of the URI with no '/'. */
  lemma {:induction false} PostUrlEndsWithRKey(reply: Reply, handle: string)
    requires RecordResult(reply, handle).success
    ensures var r := RecordResult(reply, handle);
            var rkey := RKey(r.postId);
            '/' !in rkey && r.url == ProfileUrl + handle + "/post/" + rkey
            && ('/' in r.postId ==> r.postId == r.postId[..|r.postId| - |rkey| - 1] + "/" + rkey)
  {
  }

  /** The session a valid configuration obtains. */
  function SessionOf(config: Config, world: World): Result<Session> {
    Authenticate(world.net(SessionRequest(Get(config, "username"), Get(config, "api_key"))))
  }

  /**
    `BlueskyPublisher.publish`. A bad configuration fails before any request. A
    valid one authenticates first; a failed authentication ends there. Otherwise
    the record carries the text, the time and the post type, gains `facets` only
    when the text has some, and gains an image `embed` only when an existing
    image was uploaded with a 200 reply; a failed upload does not stop the post.
   */
  method Publish(content: string, imagePath: string, config: Option<Config>, world: World)
    returns (res: PublishResult, issued: seq<Request>)
    ensures res.platform == Platform
    ensures ValidationError(config).Some? ==>
              res == Failure(Platform, ValidationError(config).value) && issued == []
    ensures ValidationError(config).None? ==>
              |issued| >= 1 && issued[0] == SessionRequest(Get(config.value, "username"), Get(config.value, "api_key"))
    ensures ValidationError(config).None? && SessionOf(config.value, world).Err? ==>
              |issued| == 1 && res == Failure(Platform, "Auth failed: " + SessionOf(config.value, world).error)
    ensures ValidationError(config).None? && SessionOf(config.value, world).Ok? ==>
              var session := SessionOf(config.value, world).value;
              var create := issued[|issued| - 1];
              |issued| == (if Uploading(imagePath, world) then 3 else 2)
              && (Uploading(imagePath, world) ==> issued[1] == UploadRequest(session.accessJwt, imagePath))
              && create.body.RecordJson?
              && create == RecordRequest(session, create.body.record)
              && res == RecordResult(world.net(create), session.handle)
    ensures ValidationError(config).None? && SessionOf(config.value, world).Ok? ==>
              var record := issued[|issued| - 1].body.record;
              var blob := if Uploading(imagePath, world) then UploadedBlob(world.net(issued[1])) else None;
              record.text == content && record.createdAt == world.utcNow && record.kind == PostType
              && (record.facets.Some? <==> Facets.FacetList(content) != [])
              && (record.facets.Some? ==> record.facets.value == Facets.FacetList(content))
              && (record.embed.Some? <==> blob.Some?)
              && (blob.Some? ==> record.embed.value == Embed(EmbedType, [Image(ImageAlt, blob.value)]))
  {
    issued := [];
    var invalid := ValidationError(config);
    if invalid.Some? {
      return Failure(Platform, invalid.value), issued;
    }
    var sessionRequest := SessionRequest(Get(config.value, "username"), Get(config.value, "api_key"));
    issued := issued + [sessionRequest];
    var auth := Authenticate(world.net(sessionRequest));
    if auth.Err? {
      return Failure(Platform, "Auth failed: " + auth.error), issued;
    }
    var session := auth.value;
    var record := PostRecord(content, world.utcNow, PostType, None, None);
    var facets := Facets.ParseFacets(content);
    if facets != [] {
      record := record.(facets := Some(facets));
    }
    if Uploading(imagePath, world) {
      var upload := UploadRequest(session.accessJwt, imagePath);
      issued := issued + [upload];
      var blob := UploadedBlob(world.net(upload));
      if blob.Some? {
        record := record.(embed := Some(Embed(EmbedType, [Image(ImageAlt, blob.value)])));
      }
    }
    var create := RecordRequest(session, record);
    issued := issued + [create];
    res := RecordResult(world.net(create), session.handle);
  }
}
