/** The uniform result every publisher returns, and its dictionary form. */
module Results {
  import opened Wrappers

  /** `PublishResult(success, platform, post_id, url, error)`. */
  datatype PublishResult = PublishResult(success: bool, platform: string, postId: string,
                                         url: string, error: string)

  /** A failed result: only the platform and the error are set. */
  function Failure(platform: string, error: string): (r: PublishResult)
    ensures !r.success && r.platform == platform && r.error == error
    ensures r.postId == "" && r.url == ""
  {
    PublishResult(false, platform, "", "", error)
  }

  /** A successful result: the error stays empty. */
  function Success(platform: string, postId: string, url: string): (r: PublishResult)
    ensures r.success && r.platform == platform && r.postId == postId && r.url == url
    ensures r.error == ""
  {
    PublishResult(true, platform, postId, url, "")
  }

  /** A value of the result dictionary. */
  datatype Value = Bool(b: bool) | Str(s: string)

  const DictKeys: set<string> := {"success", "platform", "post_id", "url", "error"}

  /** `to_dict`: the five attributes under their snake-case names. */
  function ToDict(r: PublishResult): (d: map<string, Value>)
    ensures d.Keys == DictKeys
  {
    map["success" := Bool(r.success), "platform" := Str(r.platform), "post_id" := Str(r.postId),
        "url" := Str(r.url), "error" := Str(r.error)]
  }

  /** Reads a result dictionary back; None when a key is missing or holds the wrong kind of value. */
  function FromDict(d: map<string, Value>): Option<PublishResult> {
    if DictKeys <= d.Keys && d["success"].Bool? && d["platform"].Str? && d["post_id"].Str?
       && d["url"].Str? && d["error"].Str?
    then Some(PublishResult(d["success"].b, d["platform"].s, d["post_id"].s, d["url"].s, d["error"].s))
    else None
  }

  /** `to_dict` loses nothing: the result can be read back from its dictionary. */
  lemma {:induction false} FromToDict(r: PublishResult)
    ensures FromDict(ToDict(r)) == Some(r)
  {
  }

  /** A dictionary with exactly the five keys that reads back as a result is that result's `to_dict`. */
  lemma {:induction false} ToFromDict(d: map<string, Value>)
    requires d.Keys == DictKeys && FromDict(d).Some?
    ensures ToDict(FromDict(d).value) == d
  {
    var e := ToDict(FromDict(d).value);
    assert forall k | k in DictKeys :: e[k] == d[k];
  }
}
