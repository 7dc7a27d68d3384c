/**
  The dispatcher: the table of the four publishers, publication to one platform
  by name, and publication to every configured platform in turn.
 */
module Dispatcher {
  import opened Wrappers
  import opened Http
  import opened Results
  import Bluesky
  import Twitter
  import Facebook
  import LinkedIn

  /** The publishers of the `PUBLISHERS` table. */
  datatype Publisher = TwitterPublisher | BlueskyPublisher | FacebookPublisher | LinkedInPublisher

  /** The table key of a publisher. */
  function Name(p: Publisher): string {
    match p
    case TwitterPublisher => Twitter.Platform
    case BlueskyPublisher => Bluesky.Platform
    case FacebookPublisher => Facebook.Platform
    case LinkedInPublisher => LinkedIn.Platform
  }

  /** `PUBLISHERS.get(name)`: a publisher exactly for the four table keys. */
  function Lookup(name: string): (r: Option<Publisher>)
    ensures r.Some? <==> name in {"twitter", "bluesky", "facebook", "linkedin"}
    ensures r.Some? ==> Name(r.value) == name
  {
    if name == Twitter.Platform then Some(TwitterPublisher)
    else if name == Bluesky.Platform then Some(BlueskyPublisher)
    else if name == Facebook.Platform then Some(FacebookPublisher)
    else if name == LinkedIn.Platform then Some(LinkedInPublisher)
    else None
  }

  /** Every publisher is found under its own key: the table has no two publishers under one key. */
  lemma {:induction false} LookupName(p: Publisher)
    ensures Lookup(Name(p)) == Some(p)
  {
  }

  /** The configuration check of the publisher, done before it sends anything. */
  function ValidationError(p: Publisher, config: Option<Config>): Option<string> {
    match p
    case TwitterPublisher => Twitter.ValidationError(config)
    case BlueskyPublisher => Bluesky.ValidationError(config)
    case FacebookPublisher => Facebook.ValidationError(config)
    case LinkedInPublisher => LinkedIn.ValidationError(config)
  }

  /** The failure for a name the table does not hold. */
  function UnknownPlatform(name: string): (r: PublishResult)
    ensures !r.success && r.platform == name && r.error == "Unknown platform: " + name
  {
    Failure(name, "Unknown platform: " + name)
  }

  /**
    `publish_to_platform`: an unknown name fails without a request; otherwise the
    named publisher runs, so the result carries the name; a configuration it
    rejects sends nothing, an accepted one sends at least one request.
   */
  method PublishToPlatform(name: string, content: string, imagePath: string, config: Option<Config>, world: World)
    returns (res: PublishResult, issued: seq<Request>)
    ensures res.platform == name
    ensures Lookup(name).None? ==> res == UnknownPlatform(name) && issued == []
    ensures Lookup(name).Some? && ValidationError(Lookup(name).value, config).Some? ==>
              res == Failure(name, ValidationError(Lookup(name).value, config).value) && issued == []
    ensures Lookup(name).Some? && ValidationError(Lookup(name).value, config).None? ==> |issued| >= 1
  {
    var publisher := Lookup(name);
    if publisher.None? {
      return UnknownPlatform(name), [];
    }
    res, issued := Run(publisher.value, content, imagePath, config, world);
  }

  /** `PUBLISHERS[name]().publish(...)` for the publisher found. */
  method Run(p: Publisher, content: string, imagePath: string, config: Option<Config>, world: World)
    returns (res: PublishResult, issued: seq<Request>)
    ensures res.platform == Name(p)
    ensures ValidationError(p, config).Some? ==> res == Failure(Name(p), ValidationError(p, config).value) && issued == []
    ensures ValidationError(p, config).None? ==> |issued| >= 1
  {
    match p
    case TwitterPublisher =>
      res, issued := RunTwitter(content, imagePath, config, world);
    case BlueskyPublisher =>
      res, issued := Bluesky.Publish(content, imagePath, config, world);
    case FacebookPublisher =>
      res, issued := Facebook.Publish(content, imagePath, config, world);
    case LinkedInPublisher =>
      res, issued := LinkedIn.Publish(content, imagePath, config, world);
  }

  /**
    `TwitterPublisher().publish(...)`, stated by what the dispatcher relies on,
    so that the full contracts of the four publishers are not proved together.
   */
  method RunTwitter(content: string, imagePath: string, config: Option<Config>, world: World)
    returns (res: PublishResult, issued: seq<Request>)
    ensures res.platform == Twitter.Platform
    ensures Twitter.ValidationError(config).Some? ==> res == Failure(Twitter.Platform, Twitter.ValidationError(config).value) && issued == []
    ensures Twitter.ValidationError(config).None? ==> |issued| >= 1
  {
    res, issued := Twitter.Publish(content, imagePath, config, world);
  }

  /** `not platforms_config`: no configuration, or no platform in it. */
  predicate NoPlatforms(platformsConfig: Option<seq<(string, Option<Config>)>>) {
    platformsConfig.None? || platformsConfig.value == []
  }

  /**
    `publish_to_all`: one result dictionary per configured platform, in the order
    of the configuration, each naming its platform; unknown names and rejected
    configurations give their failures.
   */
  method PublishToAll(content: string, imagePath: string, platformsConfig: Option<seq<(string, Option<Config>)>>,
                      world: World)
    returns (results: seq<map<string, Value>>)
    ensures NoPlatforms(platformsConfig) ==> results == []
    ensures platformsConfig.Some? ==> |results| == |platformsConfig.value|
    ensures platformsConfig.Some? ==>
              forall i | 0 <= i < |results| ::
                var (name, config) := platformsConfig.value[i];
                results[i].Keys == DictKeys
                && FromDict(results[i]).Some? && FromDict(results[i]).value.platform == name
                && (Lookup(name).None? ==> results[i] == ToDict(UnknownPlatform(name)))
                && (Lookup(name).Some? && ValidationError(Lookup(name).value, config).Some? ==>
                      results[i] == ToDict(Failure(name, ValidationError(Lookup(name).value, config).value)))
  {
    results := [];
    if NoPlatforms(platformsConfig) {
      return;
    }
    var entries := platformsConfig.value;
    var i := 0;
    while i < |entries|
      invariant 0 <= i <= |entries|
      invariant |results| == i
      invariant forall j | 0 <= j < i ::
                  var (name, config) := entries[j];
                  results[j].Keys == DictKeys
                  && FromDict(results[j]).Some? && FromDict(results[j]).value.platform == name
                  && (Lookup(name).None? ==> results[j] == ToDict(UnknownPlatform(name)))
                  && (Lookup(name).Some? && ValidationError(Lookup(name).value, config).Some? ==>
                        results[j] == ToDict(Failure(name, ValidationError(Lookup(name).value, config).value)))
    {
      var (name, config) := entries[i];
      var res, _ := PublishToPlatform(name, content, imagePath, config, world);
      FromToDict(res);
      results := results + [ToDict(res)];
      i := i + 1;
    }
  }
}
