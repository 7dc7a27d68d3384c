/**
  Bluesky rich-text facets (BlueskyPublisher._parse_facets): two left-to-right
  scans of the post text, one for links and one for hashtags, each match reported
  as a range of UTF-8 byte offsets into the text.

  The two regular expressions are written out as the scanners below:
    links     https?://[^\s<>"']+
    hashtags  (?:^|\s)(#[a-zA-Z0-9_]+)
  Scanning follows re.finditer: a match is tried at each position from left to
  right, and after a match the scan resumes where the match ended.
 */
module Facets {
  import opened Wrappers
  import Utf8

  /** Python's \s on str patterns: the characters for which str.isspace() holds. */
  predicate IsSpace(ch: char)
  {
    ('\t' <= ch <= '\r') || ('\U{1C}' <= ch <= ' ') || ch == '\U{85}' || ch == '\U{A0}'
    || ch == '\U{1680}' || ('\U{2000}' <= ch <= '\U{200A}') || ch == '\U{2028}' || ch == '\U{2029}'
    || ch == '\U{202F}' || ch == '\U{205F}' || ch == '\U{3000}'
  }

  /** [^\s<>"'] */
  predicate IsUrlChar(ch: char)
  {
    !IsSpace(ch) && ch != '<' && ch != '>' && ch != '"' && ch != '\''
  }

  /** [a-zA-Z0-9_] */
  predicate IsTagChar(ch: char)
  {
    ('a' <= ch <= 'z') || ('A' <= ch <= 'Z') || ('0' <= ch <= '9') || ch == '_'
  }

  /** Text the link pattern matches in full: a scheme, then one or more URL characters. */
  predicate IsUrl(s: string)
  {
    (|s| > 7 && s[..7] == "http://" && forall k :: 7 <= k < |s| ==> IsUrlChar(s[k]))
    || (|s| > 8 && s[..8] == "https://" && forall k :: 8 <= k < |s| ==> IsUrlChar(s[k]))
  }

  /** A tag name: one or more of [a-zA-Z0-9_]. */
  predicate IsTagName(s: string)
  {
    |s| > 0 && forall k :: 0 <= k < |s| ==> IsTagChar(s[k])
  }

  /** A character range [start, end) of the text. */
  datatype Span = Span(start: nat, end: nat)

  /**
    The link at [i, e): the scheme the pattern accepts at i, then a run of one or
    more URL characters that cannot be extended to the right.
   */
  predicate IsLinkMatch(text: string, i: nat, e: nat)
  {
    var n := SchemeAt(text, i);
    n > 0 && i + n < e <= |text|
    && (forall k {:trigger IsUrlChar(text[k])} :: i + n <= k < e ==> IsUrlChar(text[k]))
    && (e == |text| || !IsUrlChar(text[e]))
  }

  /**
    The hashtag at [t, e): '#' and one or more tag characters that cannot be
    extended, at the start of the text or right after whitespace.
   */
  predicate IsTagMatch(text: string, t: nat, e: nat)
  {
    t + 1 < e <= |text| && text[t] == '#'
    && (forall k {:trigger IsTagChar(text[k])} :: t < k < e ==> IsTagChar(text[k]))
    && (t == 0 || IsSpace(text[t - 1])) && (e == |text| || !IsTagChar(text[e]))
  }

  /** The end of the longest run of URL characters that starts at j. */
  function UrlRunEnd(text: string, j: nat): (e: nat)
    requires j <= |text|
    ensures j <= e <= |text|
    ensures forall k {:trigger IsUrlChar(text[k])} :: j <= k < e ==> IsUrlChar(text[k])
    ensures e == |text| || !IsUrlChar(text[e])
    decreases |text| - j
  {
    if j < |text| && IsUrlChar(text[j]) then UrlRunEnd(text, j + 1) else j
  }

  /** The end of the longest run of tag characters that starts at j. */
  function TagRunEnd(text: string, j: nat): (e: nat)
    requires j <= |text|
    ensures j <= e <= |text|
    ensures forall k {:trigger IsTagChar(text[k])} :: j <= k < e ==> IsTagChar(text[k])
    ensures e == |text| || !IsTagChar(text[e])
    decreases |text| - j
  {
    if j < |text| && IsTagChar(text[j]) then TagRunEnd(text, j + 1) else j
  }

  /** The characters of w appear in text from position i on. */
  predicate HasAt(text: string, i: nat, w: string)
  {
    i + |w| <= |text| && forall k :: 0 <= k < |w| ==> text[i + k] == w[k]
  }

  /** Length of the scheme the link pattern accepts at i: 8 for https://, 7 for http://, 0 for none. */
  function SchemeAt(text: string, i: nat): nat
  {
    if HasAt(text, i, "https://") then 8 else if HasAt(text, i, "http://") then 7 else 0
  }

  /** An attempt of the link pattern at position i: the end of the match, if there is one. */
  function LinkAt(text: string, i: nat): (r: Option<nat>)
    requires i <= |text|
    ensures r.Some? ==> IsLinkMatch(text, i, r.value)
  {
    var n := SchemeAt(text, i);
    if n > 0 && i + n < |text| && IsUrlChar(text[i + n]) then Some(UrlRunEnd(text, i + n)) else None
  }

  /** The attempt at i finds every link match that starts at i. */
  lemma {:induction false} LinkAtComplete(text: string, i: nat, e: nat)
    requires i <= |text|
    requires IsLinkMatch(text, i, e)
    ensures LinkAt(text, i) == Some(e)
  {
    var n := SchemeAt(text, i);
    assert IsUrlChar(text[i + n]);
    UrlRunUnique(text, i + n, e);
  }

  /** A maximal run of URL characters is unique: one from j that cannot be extended ends at UrlRunEnd. */
  lemma {:induction false} UrlRunUnique(text: string, j: nat, e: nat)
    requires j <= e <= |text|
    requires forall k :: j <= k < e ==> IsUrlChar(text[k])
    requires e == |text| || !IsUrlChar(text[e])
    ensures e == UrlRunEnd(text, j)
    decreases e - j
  {
    if j < e {
      UrlRunUnique(text, j + 1, e);
    }
  }

  /** A maximal run of tag characters is unique: one from j that cannot be extended ends at TagRunEnd. */
  lemma {:induction false} TagRunUnique(text: string, j: nat, e: nat)
    requires j <= e <= |text|
    requires forall k :: j <= k < e ==> IsTagChar(text[k])
    requires e == |text| || !IsTagChar(text[e])
    ensures e == TagRunEnd(text, j)
    decreases e - j
  {
    if j < e {
      TagRunUnique(text, j + 1, e);
    }
  }

  /** Whether w appears at i is whether the slice of the text from i starts with w. */
  lemma {:induction false} HasAtSlice(text: string, i: nat, e: nat, w: string)
    requires i + |w| <= e <= |text|
    ensures HasAt(text, i, w) <==> text[i..e][..|w|] == w
  {
    var p := text[i..e][..|w|];
    assert forall k :: 0 <= k < |w| ==> p[k] == text[i + k];
  }

  /**
    IsLinkMatch is the link regular expression read on the text: the characters
    from i to e form a URL, and the character at e cannot extend it.
   */
  lemma {:induction false} LinkMatchUrl(text: string, i: nat, e: nat)
    ensures IsLinkMatch(text, i, e) <==>
              i < e <= |text| && IsUrl(text[i..e]) && (e == |text| || !IsUrlChar(text[e]))
  {
    if i < e <= |text| {
      var s := text[i..e];
      if |s| > 8 {
        HasAtSlice(text, i, e, "https://");
      }
      if |s| > 7 {
        HasAtSlice(text, i, e, "http://");
      }
      if |s| > 7 && s[..7] == "http://" {
        assert text[i + 4] == s[..7][4] == ':';
        assert "https://"[4] == 's';
      }
      var n := SchemeAt(text, i);
      if IsLinkMatch(text, i, e) {
        forall k | n <= k < |s| ensures IsUrlChar(s[k]) {
          assert s[k] == text[i + k];
        }
      }
      if IsUrl(s) && n > 0 {
        forall k | i + n <= k < e ensures IsUrlChar(text[k]) {
          assert text[k] == s[k - i];
        }
      }
    }
  }

  /**
    IsTagMatch is the hashtag regular expression read on the text: '#' and a tag
    name, at the start of the text or after whitespace, that cannot be extended.
   */
  lemma {:induction false} TagMatchName(text: string, t: nat, e: nat)
    ensures IsTagMatch(text, t, e) <==>
              t < e <= |text| && text[t] == '#' && IsTagName(text[t + 1..e])
              && (t == 0 || IsSpace(text[t - 1])) && (e == |text| || !IsTagChar(text[e]))
  {
    if t < e <= |text| {
      var s := text[t + 1..e];
      if IsTagMatch(text, t, e) {
        forall k | 0 <= k < |s| ensures IsTagChar(s[k]) {
          assert s[k] == text[t + 1 + k];
        }
      }
      if IsTagName(s) {
        forall k | t < k < e ensures IsTagChar(text[k]) {
          assert text[k] == s[k - t - 1];
        }
      }
    }
  }

  /** Spans inside [lo, hi), each non-empty. */
  predicate Within(spans: seq<Span>, lo: nat, hi: nat)
  {
    forall k :: 0 <= k < |spans| ==> lo <= spans[k].start < spans[k].end <= hi
  }

  /** Each span ends before the next one begins. */
  predicate Increasing(spans: seq<Span>)
  {
    forall k :: 0 <= k < |spans| - 1 ==> spans[k].end <= spans[k + 1].start
  }

  /** url_pattern.finditer(text), resumed at position i. */
  function LinkSpans(text: string, i: nat): (r: seq<Span>)
    requires i <= |text|
    ensures Within(r, i, |text|)
    decreases |text| - i
  {
    if i == |text| then []
    else
      match LinkAt(text, i)
      case Some(e) => [Span(i, e)] + LinkSpans(text, e)
      case None => LinkSpans(text, i + 1)
  }

  /** The link scan reports matches from left to right without overlap. */
  lemma {:induction false} LinkSpansIncreasing(text: string, i: nat)
    requires i <= |text|
    ensures Increasing(LinkSpans(text, i))
    decreases |text| - i
  {
    if i < |text| {
      match LinkAt(text, i)
      case Some(e) =>
        LinkSpansIncreasing(text, e);
        var rest := LinkSpans(text, e);
        assert LinkSpans(text, i) == [Span(i, e)] + rest;
      case None =>
        LinkSpansIncreasing(text, i + 1);
    }
  }

  /** Every span is a link match. */
  predicate AllLinkMatches(text: string, spans: seq<Span>)
  {
    forall k :: 0 <= k < |spans| ==> IsLinkMatch(text, spans[k].start, spans[k].end)
  }

  lemma {:induction false} LinkMatchesCons(text: string, s: Span, rest: seq<Span>)
    requires IsLinkMatch(text, s.start, s.end) && AllLinkMatches(text, rest)
    ensures AllLinkMatches(text, [s] + rest)
  {
    var r := [s] + rest;
    forall k | 0 <= k < |r| ensures IsLinkMatch(text, r[k].start, r[k].end) {
      if k > 0 {
        assert r[k] == rest[k - 1];
      }
    }
  }

  /** Every span of the link scan is a link match. */
  lemma {:induction false} LinkSpansMatch(text: string, i: nat)
    requires i <= |text|
    ensures AllLinkMatches(text, LinkSpans(text, i))
    decreases |text| - i
  {
    if i < |text| {
      match LinkAt(text, i)
      case Some(e) =>
        LinkSpansMatch(text, e);
        assert LinkSpans(text, i) == [Span(i, e)] + LinkSpans(text, e);
        LinkMatchesCons(text, Span(i, e), LinkSpans(text, e));
      case None =>
        assert LinkSpans(text, i) == LinkSpans(text, i + 1);
        LinkSpansMatch(text, i + 1);
    }
  }

  /**
    An attempt of the hashtag pattern at position i: the position of the '#' of the
    match, if there is one. ^ can only match at 0; otherwise the match begins with
    the whitespace character at i.
   */
  function TagAt(text: string, i: nat): (r: Option<nat>)
    requires i < |text|
    ensures r.Some? ==> (r.value == i || r.value == i + 1) && r.value + 1 < |text|
                        && IsTagMatch(text, r.value, TagRunEnd(text, r.value + 1))
    ensures r.Some? && r.value == i ==> i == 0
    ensures r.Some? && r.value == i + 1 ==> IsSpace(text[i])
  {
    if i == 0 && text[0] == '#' && 1 < |text| && IsTagChar(text[1]) then Some(0)
    else if IsSpace(text[i]) && i + 2 < |text| && text[i + 1] == '#' && IsTagChar(text[i + 2]) then Some(i + 1)
    else None
  }

  /** The attempt at i finds a hashtag at 0 when i is 0, or one right after whitespace at i. */
  lemma {:induction false} TagAtComplete(text: string, i: nat, e: nat)
    requires i < |text|
    requires (i == 0 && IsTagMatch(text, 0, e)) || (IsSpace(text[i]) && IsTagMatch(text, i + 1, e))
    ensures TagAt(text, i).Some?
  {
    if IsSpace(text[i]) && IsTagMatch(text, i + 1, e) {
      assert IsTagChar(text[i + 2]);
    } else {
      assert IsTagChar(text[1]);
    }
  }

  /** hashtag_pattern.finditer(text), resumed at position i, as the spans of group 1. */
  function TagSpans(text: string, i: nat): (r: seq<Span>)
    requires i <= |text|
    ensures Within(r, i, |text|)
    decreases |text| - i
  {
    if i == |text| then []
    else
      match TagAt(text, i)
      case Some(t) => [Span(t, TagRunEnd(text, t + 1))] + TagSpans(text, TagRunEnd(text, t + 1))
      case None => TagSpans(text, i + 1)
  }

  /** The hashtag scan reports matches from left to right without overlap. */
  lemma {:induction false} TagSpansIncreasing(text: string, i: nat)
    requires i <= |text|
    ensures Increasing(TagSpans(text, i))
    decreases |text| - i
  {
    if i < |text| {
      match TagAt(text, i)
      case Some(t) =>
        var e := TagRunEnd(text, t + 1);
        TagSpansIncreasing(text, e);
        var rest := TagSpans(text, e);
        assert TagSpans(text, i) == [Span(t, e)] + rest;
      case None =>
        TagSpansIncreasing(text, i + 1);
    }
  }

  /** Every span is a hashtag match. */
  predicate AllTagMatches(text: string, spans: seq<Span>)
  {
    forall k :: 0 <= k < |spans| ==> IsTagMatch(text, spans[k].start, spans[k].end)
  }

  lemma {:induction false} TagMatchesCons(text: string, s: Span, rest: seq<Span>)
    requires IsTagMatch(text, s.start, s.end) && AllTagMatches(text, rest)
    ensures AllTagMatches(text, [s] + rest)
  {
    var r := [s] + rest;
    forall k | 0 <= k < |r| ensures IsTagMatch(text, r[k].start, r[k].end) {
      if k > 0 {
        assert r[k] == rest[k - 1];
      }
    }
  }

  /** Every span of the hashtag scan is a hashtag match. */
  lemma {:induction false} TagSpansMatch(text: string, i: nat)
    requires i <= |text|
    ensures AllTagMatches(text, TagSpans(text, i))
    decreases |text| - i
  {
    if i < |text| {
      match TagAt(text, i)
      case Some(t) =>
        var e := TagRunEnd(text, t + 1);
        TagSpansMatch(text, e);
        assert TagSpans(text, i) == [Span(t, e)] + TagSpans(text, e);
        TagMatchesCons(text, Span(t, e), TagSpans(text, e));
      case None =>
        assert TagSpans(text, i) == TagSpans(text, i + 1);
        TagSpansMatch(text, i + 1);
    }
  }

  datatype Feature = Link(uri: string) | Tag(tag: string)

  /** A facet: the byte range [byteStart, byteEnd) of the UTF-8 text and what it marks. */
  datatype Facet = Facet(byteStart: nat, byteEnd: nat, feature: Feature)

  /** The text a facet covers: the link itself, or '#' and the tag. */
  function Covered(f: Facet): string
  {
    match f.feature
    case Link(uri) => uri
    case Tag(tag) => "#" + tag
  }

  /** The UTF-8 length of the first i characters, summed character by character. */
  function ByteOffset(text: string, i: nat): nat
    requires i <= |text|
  {
    if i == 0 then 0 else ByteOffset(text, i - 1) + Utf8.Width(text[i - 1])
  }

  /** ByteOffset is the length that len(text[:i].encode('utf-8')) computes. */
  lemma {:induction false} ByteOffsetLength(text: string, i: nat)
    requires i <= |text|
    ensures ByteOffset(text, i) == |Utf8.Encode(text[..i])|
  {
    if i > 0 {
      ByteOffsetLength(text, i - 1);
      var c := text[i - 1];
      assert text[..i] == text[..i - 1] + [c];
      Utf8.EncodeConcat(text[..i - 1], [c]);
      Utf8.EncodeCons([c]);
      assert [c][1..] == [];
    }
  }

  /** ByteOffset grows with the character offset, strictly: every character takes at least one byte. */
  lemma {:induction false} ByteOffsetMonotonic(text: string, i: nat, j: nat)
    requires i <= j <= |text|
    ensures ByteOffset(text, i) + (j - i) <= ByteOffset(text, j)
    decreases j - i
  {
    if i < j {
      ByteOffsetMonotonic(text, i, j - 1);
    }
  }

  function LinkFacet(text: string, sp: Span): Facet
    requires sp.start <= sp.end <= |text|
  {
    Facet(ByteOffset(text, sp.start), ByteOffset(text, sp.end), Link(text[sp.start..sp.end]))
  }

  function TagFacet(text: string, sp: Span): Facet
    requires sp.start < sp.end <= |text|
  {
    Facet(ByteOffset(text, sp.start), ByteOffset(text, sp.end), Tag(text[sp.start + 1..sp.end]))
  }

  /** The facets of the given link spans, one per span and in the same order. */
  function LinkFacets(text: string, spans: seq<Span>): (r: seq<Facet>)
    requires Within(spans, 0, |text|)
    ensures |r| == |spans|
  {
    if spans == [] then []
    else
      var n := |spans| - 1;
      LinkFacets(text, spans[..n]) + [LinkFacet(text, spans[n])]
  }

  /** The facets of the given hashtag spans, one per span and in the same order. */
  function TagFacets(text: string, spans: seq<Span>): (r: seq<Facet>)
    requires Within(spans, 0, |text|)
    ensures |r| == |spans|
  {
    if spans == [] then []
    else
      var n := |spans| - 1;
      TagFacets(text, spans[..n]) + [TagFacet(text, spans[n])]
  }

  lemma {:induction false} LinkFacetsSnoc(text: string, spans: seq<Span>, k: nat)
    requires k < |spans| && Within(spans, 0, |text|)
    ensures LinkFacets(text, spans[..k + 1]) == LinkFacets(text, spans[..k]) + [LinkFacet(text, spans[k])]
  {
    assert spans[..k + 1][..k] == spans[..k];
  }

  lemma {:induction false} TagFacetsSnoc(text: string, spans: seq<Span>, k: nat)
    requires k < |spans| && Within(spans, 0, |text|)
    ensures TagFacets(text, spans[..k + 1]) == TagFacets(text, spans[..k]) + [TagFacet(text, spans[k])]
  {
    assert spans[..k + 1][..k] == spans[..k];
  }

  /** The k-th link facet is the facet of the k-th link span. */
  lemma {:induction false} LinkFacetsAt(text: string, spans: seq<Span>, k: nat)
    requires k < |spans| && Within(spans, 0, |text|)
    ensures LinkFacets(text, spans)[k] == LinkFacet(text, spans[k])
  {
    var n := |spans| - 1;
    if k < n {
      LinkFacetsAt(text, spans[..n], k);
    }
  }

  /** The k-th hashtag facet is the facet of the k-th hashtag span. */
  lemma {:induction false} TagFacetsAt(text: string, spans: seq<Span>, k: nat)
    requires k < |spans| && Within(spans, 0, |text|)
    ensures TagFacets(text, spans)[k] == TagFacet(text, spans[k])
  {
    var n := |spans| - 1;
    if k < n {
      TagFacetsAt(text, spans[..n], k);
    }
  }

  /** What _parse_facets returns: the link facets, then the hashtag facets. */
  function FacetList(text: string): seq<Facet>
  {
    LinkFacets(text, LinkSpans(text, 0)) + TagFacets(text, TagSpans(text, 0))
  }

  /** One round of the link loop of _parse_facets appends the facet of the k-th link. */
  lemma {:induction false} LinkFacetStep(text: string, links: seq<Span>, k: nat, done: seq<Facet>, start: nat, end: nat)
    requires k < |links| && Within(links, 0, |text|)
    requires done == LinkFacets(text, links[..k])
    requires start == ByteOffset(text, links[k].start) && end == ByteOffset(text, links[k].end)
    ensures done + [Facet(start, end, Link(text[links[k].start..links[k].end]))] == LinkFacets(text, links[..k + 1])
  {
    LinkFacetsSnoc(text, links, k);
  }

  /** One round of the hashtag loop of _parse_facets appends the facet of the k-th hashtag. */
  lemma {:induction false} TagFacetStep(text: string, tags: seq<Span>, k: nat, prefix: seq<Facet>, done: seq<Facet>, start: nat, end: nat)
    requires k < |tags| && Within(tags, 0, |text|)
    requires done == prefix + TagFacets(text, tags[..k])
    requires start == ByteOffset(text, tags[k].start) && end == ByteOffset(text, tags[k].end)
    ensures done + [Facet(start, end, Tag(text[tags[k].start..tags[k].end][1..]))]
            == prefix + TagFacets(text, tags[..k + 1])
  {
    TagFacetsSnoc(text, tags, k);
    assert text[tags[k].start..tags[k].end][1..] == text[tags[k].start + 1..tags[k].end];
  }

  /**
    _parse_facets: two loops over the matches, appending one facet per match. The
    byte offsets are taken with ByteOffset, the UTF-8 length of the text before the
    offset (ByteOffsetLength).
   */
  method ParseFacets(text: string) returns (facets: seq<Facet>)
    ensures facets == FacetList(text)
  {
    facets := [];
    var links := LinkSpans(text, 0);
    assert links[..0] == [];
    for k := 0 to |links|
      invariant facets == LinkFacets(text, links[..k])
    {
      var m := links[k];
      assert m.start < m.end <= |text|;
      var start := ByteOffset(text, m.start);
      var end := ByteOffset(text, m.end);
      LinkFacetStep(text, links, k, facets, start, end);
      facets := facets + [Facet(start, end, Link(text[m.start..m.end]))];
    }
    assert links[..|links|] == links;
    var tags := TagSpans(text, 0);
    ghost var linkFacets := facets;
    assert tags[..0] == [];
    for k := 0 to |tags|
      invariant facets == linkFacets + TagFacets(text, tags[..k])
    {
      var m := tags[k];
      assert m.start < m.end <= |text|;
      var tag := text[m.start..m.end];
      var start := ByteOffset(text, m.start);
      var end := ByteOffset(text, m.start + |tag|);
      TagFacetStep(text, tags, k, linkFacets, facets, start, end);
      facets := facets + [Facet(start, end, Tag(tag[1..]))];
    }
    assert tags[..|tags|] == tags;
    assert FacetList(text) == linkFacets + TagFacets(text, tags);
  }

  /** The k-th facet: the facet of the k-th link, or after the n links, the facet of the (k - n)-th hashtag. */
  lemma {:induction false} FacetAt(text: string, k: nat)
    requires k < |FacetList(text)|
    ensures var links := LinkSpans(text, 0);
            FacetList(text)[k] == if k < |links| then LinkFacet(text, links[k])
                               else TagFacet(text, TagSpans(text, 0)[k - |links|])
  {
    var links, tags := LinkSpans(text, 0), TagSpans(text, 0);
    assert FacetList(text) == LinkFacets(text, links) + TagFacets(text, tags);
    FacetListAt(text, links, tags, k);
  }

  /** Indexing the link facets followed by the hashtag facets. */
  lemma {:induction false} FacetListAt(text: string, links: seq<Span>, tags: seq<Span>, k: nat)
    requires Within(links, 0, |text|) && Within(tags, 0, |text|)
    requires k < |links| + |tags|
    ensures (LinkFacets(text, links) + TagFacets(text, tags))[k]
            == if k < |links| then LinkFacet(text, links[k]) else TagFacet(text, tags[k - |links|])
  {
    var lf, tf := LinkFacets(text, links), TagFacets(text, tags);
    if k < |links| {
      LinkFacetsAt(text, links, k);
      assert (lf + tf)[k] == lf[k];
    } else {
      TagFacetsAt(text, tags, k - |links|);
      assert (lf + tf)[k] == tf[k - |links|];
    }
  }

  /** Every facet's offsets are the UTF-8 lengths of a prefix, as _parse_facets computes them. */
  lemma {:induction false} FacetOffsets(text: string, k: nat)
    requires k < |FacetList(text)|
    ensures var f := FacetList(text)[k];
            var links := LinkSpans(text, 0);
            var tags := TagSpans(text, 0);
            if k < |links| then
              f.byteStart == |Utf8.Encode(text[..links[k].start])| && f.byteEnd == |Utf8.Encode(text[..links[k].end])|
              && f.feature == Link(text[links[k].start..links[k].end])
            else
              var sp := tags[k - |links|];
              f.byteStart == |Utf8.Encode(text[..sp.start])| && f.byteEnd == |Utf8.Encode(text[..sp.end])|
              && f.feature == Tag(text[sp.start + 1..sp.end])
  {
    FacetAt(text, k);
    var sp := SourceSpan(text, k);
    ByteOffsetLength(text, sp.start);
    ByteOffsetLength(text, sp.end);
  }

  /** The character range a facet was computed from. */
  function SourceSpan(text: string, k: nat): (sp: Span)
    requires k < |FacetList(text)|
    ensures sp.start < sp.end <= |text|
  {
    var links := LinkSpans(text, 0);
    if k < |links| then links[k] else TagSpans(text, 0)[k - |links|]
  }

  /** A facet is computed from its source span, and covers exactly the text of that span. */
  lemma {:induction false} FacetSource(text: string, k: nat)
    requires k < |FacetList(text)|
    ensures var f, sp := FacetList(text)[k], SourceSpan(text, k);
            f.byteStart == ByteOffset(text, sp.start) && f.byteEnd == ByteOffset(text, sp.end)
            && Covered(f) == text[sp.start..sp.end]
            && (f.feature.Link? <==> k < |LinkSpans(text, 0)|)
            && (f.feature.Link? ==> IsLinkMatch(text, sp.start, sp.end))
            && (f.feature.Tag? ==> IsTagMatch(text, sp.start, sp.end) && f.feature.tag == text[sp.start + 1..sp.end])
  {
    var links, tags := LinkSpans(text, 0), TagSpans(text, 0);
    FacetAt(text, k);
    var f, sp := FacetList(text)[k], SourceSpan(text, k);
    if k < |links| {
      assert sp == links[k] && f == LinkFacet(text, sp);
      LinkFacetCovers(text, sp);
      LinkSpansMatch(text, 0);
      assert IsLinkMatch(text, sp.start, sp.end);
    } else {
      assert sp == tags[k - |links|] && f == TagFacet(text, sp);
      TagSpansMatch(text, 0);
      assert IsTagMatch(text, sp.start, sp.end);
      TagFacetCovers(text, sp);
    }
  }

  /** A link facet covers the text of its span. */
  lemma {:induction false} LinkFacetCovers(text: string, sp: Span)
    requires sp.start <= sp.end <= |text|
    ensures var f := LinkFacet(text, sp);
            f.feature.Link? && Covered(f) == text[sp.start..sp.end]
  {
  }

  /** A hashtag facet whose span starts with '#' covers the text of its span. */
  lemma {:induction false} TagFacetCovers(text: string, sp: Span)
    requires sp.start < sp.end <= |text| && text[sp.start] == '#'
    ensures var f := TagFacet(text, sp);
            f.feature == Tag(text[sp.start + 1..sp.end]) && Covered(f) == text[sp.start..sp.end]
  {
    assert text[sp.start..sp.end] == [text[sp.start]] + text[sp.start + 1..sp.end];
  }

  /**
    Every facet's byte range is a non-empty range of the UTF-8 text that starts on a
    character boundary, and the bytes in it are exactly the encoding of the link or
    of '#' and the tag the facet carries.
   */
  lemma {:induction false} FacetBytes(text: string, k: nat)
    requires k < |FacetList(text)|
    ensures var f := FacetList(text)[k];
            var bytes := Utf8.Encode(text);
            f.byteStart < f.byteEnd <= |bytes|
            && bytes[f.byteStart..f.byteEnd] == Utf8.Encode(Covered(f))
            && !Utf8.IsContinuation(bytes[f.byteStart])
  {
    var sp := SourceSpan(text, k);
    FacetSource(text, k);
    ByteOffsetLength(text, sp.start);
    ByteOffsetLength(text, sp.end);
    Utf8.EncodeSlice(text, sp.start, sp.end);
    Utf8.CharBoundary(text, sp.start);
  }

  /**
    Each link facet carries text the link pattern matches, and each hashtag facet a
    tag name; both at a place of the text where the pattern matches in full.
   */
  lemma {:induction false} FacetMatches(text: string, k: nat)
    requires k < |FacetList(text)|
    ensures var f := FacetList(text)[k];
            var sp := SourceSpan(text, k);
            match f.feature
            case Link(uri) => IsUrl(uri) && IsLinkMatch(text, sp.start, sp.end) && uri == text[sp.start..sp.end]
            case Tag(tag) => IsTagName(tag) && IsTagMatch(text, sp.start, sp.end) && "#" + tag == text[sp.start..sp.end]
  {
    var sp := SourceSpan(text, k);
    FacetSource(text, k);
    LinkMatchUrl(text, sp.start, sp.end);
    TagMatchName(text, sp.start, sp.end);
  }

  /**
    All link facets come before all hashtag facets, and within each group the byte
    ranges are increasing and do not overlap.
   */
  lemma {:induction false} FacetOrder(text: string)
    ensures var fs := FacetList(text);
            var n := |LinkSpans(text, 0)|;
            n <= |fs|
            && (forall k :: 0 <= k < |fs| ==> (fs[k].feature.Link? <==> k < n))
            && (forall k :: 0 <= k < |fs| - 1 && k != n - 1 ==> fs[k].byteEnd <= fs[k + 1].byteStart)
  {
    var fs := FacetList(text);
    var links, tags := LinkSpans(text, 0), TagSpans(text, 0);
    var n := |links|;
    assert fs == LinkFacets(text, links) + TagFacets(text, tags);
    forall k | 0 <= k < |fs| ensures fs[k].feature.Link? <==> k < n {
      FacetListAt(text, links, tags, k);
    }
    forall k | 0 <= k < |fs| - 1 && k != n - 1 ensures fs[k].byteEnd <= fs[k + 1].byteStart {
      FacetPairOrder(text, k);
    }
  }

  /** Two neighbouring facets of the same group do not overlap. */
  lemma {:induction false} FacetPairOrder(text: string, k: nat)
    requires k + 1 < |FacetList(text)| && k + 1 != |LinkSpans(text, 0)|
    ensures FacetList(text)[k].byteEnd <= FacetList(text)[k + 1].byteStart
  {
    var links, tags := LinkSpans(text, 0), TagSpans(text, 0);
    assert FacetList(text) == LinkFacets(text, links) + TagFacets(text, tags);
    LinkSpansIncreasing(text, 0);
    TagSpansIncreasing(text, 0);
    FacetListOrder(text, links, tags, k);
  }

  /** Neighbouring facets in the same group of the link facets followed by the hashtag facets. */
  lemma {:induction false} FacetListOrder(text: string, links: seq<Span>, tags: seq<Span>, k: nat)
    requires Within(links, 0, |text|) && Increasing(links)
    requires Within(tags, 0, |text|) && Increasing(tags)
    requires k + 1 < |links| + |tags| && k + 1 != |links|
    ensures var fs := LinkFacets(text, links) + TagFacets(text, tags);
            fs[k].byteEnd <= fs[k + 1].byteStart
  {
    var n := |links|;
    var lf, tf := LinkFacets(text, links), TagFacets(text, tags);
    if k < n {
      LinkFacetsOrder(text, links, k);
      assert (lf + tf)[k] == lf[k] && (lf + tf)[k + 1] == lf[k + 1];
    } else {
      TagFacetsOrder(text, tags, k - n);
      assert (lf + tf)[k] == tf[k - n] && (lf + tf)[k + 1] == tf[k - n + 1];
    }
  }

  /** The facets of increasing link spans have increasing, disjoint byte ranges. */
  lemma {:induction false} LinkFacetsOrder(text: string, links: seq<Span>, k: nat)
    requires Within(links, 0, |text|) && Increasing(links) && k + 1 < |links|
    ensures LinkFacets(text, links)[k].byteEnd <= LinkFacets(text, links)[k + 1].byteStart
  {
    LinkFacetsAt(text, links, k);
    LinkFacetsAt(text, links, k + 1);
    ByteOffsetMonotonic(text, links[k].end, links[k + 1].start);
  }

  /** The facets of increasing hashtag spans have increasing, disjoint byte ranges. */
  lemma {:induction false} TagFacetsOrder(text: string, tags: seq<Span>, k: nat)
    requires Within(tags, 0, |text|) && Increasing(tags) && k + 1 < |tags|
    ensures TagFacets(text, tags)[k].byteEnd <= TagFacets(text, tags)[k + 1].byteStart
  {
    TagFacetsAt(text, tags, k);
    TagFacetsAt(text, tags, k + 1);
    ByteOffsetMonotonic(text, tags[k].end, tags[k + 1].start);
  }

  /**
    A link the pattern could match at i is reported, unless i lies inside a link
    that an earlier match already consumed.
   */
  lemma {:induction false} LinkCovered(text: string, from: nat, i: nat)
    requires from <= i < |text|
    requires LinkAt(text, i).Some?
    ensures var spans := LinkSpans(text, from);
            Span(i, LinkAt(text, i).value) in spans
            || exists k :: 0 <= k < |spans| && spans[k].start < i < spans[k].end
    decreases |text| - from
  {
    var spans := LinkSpans(text, from);
    match LinkAt(text, from)
    case None =>
      LinkCovered(text, from + 1, i);
    case Some(e0) =>
      assert spans[0] == Span(from, e0);
      if i >= e0 {
        LinkCovered(text, e0, i);
        var rest := LinkSpans(text, e0);
        assert spans == [Span(from, e0)] + rest;
        if !(Span(i, LinkAt(text, i).value) in rest) {
          InsideCons(Span(from, e0), rest, i);
        }
      }
  }

  /** A position inside one of the later spans stays inside one when a span is put in front. */
  lemma {:induction false} InsideCons(s0: Span, rest: seq<Span>, i: int)
    requires exists k :: 0 <= k < |rest| && rest[k].start < i < rest[k].end
    ensures var spans := [s0] + rest;
            exists k :: 0 <= k < |spans| && spans[k].start < i < spans[k].end
  {
    var k :| 0 <= k < |rest| && rest[k].start < i < rest[k].end;
    assert ([s0] + rest)[k + 1] == rest[k];
  }

  /**
    The link scan misses nothing: every place where the link pattern matches is a
    reported link or lies inside one.
   */
  lemma {:induction false} LinksComplete(text: string)
    ensures var spans := LinkSpans(text, 0);
            forall i: nat, e: nat :: IsLinkMatch(text, i, e) ==>
              Span(i, e) in spans || exists k :: 0 <= k < |spans| && spans[k].start < i < spans[k].end
  {
    forall i: nat, e: nat | IsLinkMatch(text, i, e)
      ensures var spans := LinkSpans(text, 0);
              Span(i, e) in spans || exists k :: 0 <= k < |spans| && spans[k].start < i < spans[k].end
    {
      LinkAtComplete(text, i, e);
      LinkCovered(text, 0, i);
    }
  }

  /** No hashtag match can begin strictly inside a hashtag match that starts at from. */
  lemma {:induction false} NoTagInside(text: string, from: nat, i: nat)
    requires from < |text| && TagAt(text, from).Some?
    requires i < |text|
    ensures var t := TagAt(text, from).value;
            from < i < TagRunEnd(text, t + 1) ==> TagAt(text, i).None?
  {
    var t := TagAt(text, from).value;
    var e := TagRunEnd(text, t + 1);
    if from < i < e {
      if i > t {
        assert IsTagChar(text[i]);
      }
      TagCharNotSpace(text[i]);
    }
  }

  /** '#' and the tag characters are not whitespace. */
  lemma {:induction false} TagCharNotSpace(ch: char)
    requires ch == '#' || IsTagChar(ch)
    ensures !IsSpace(ch)
  {
  }

  /** A hashtag the pattern could match from position i is reported by every scan from a position up to i. */
  lemma {:induction false} TagReported(text: string, from: nat, i: nat)
    requires from <= i < |text|
    requires TagAt(text, i).Some?
    ensures var t := TagAt(text, i).value;
            Span(t, TagRunEnd(text, t + 1)) in TagSpans(text, from)
    decreases |text| - from
  {
    var spans := TagSpans(text, from);
    match TagAt(text, from)
    case None =>
      assert spans == TagSpans(text, from + 1);
      TagReported(text, from + 1, i);
    case Some(t0) =>
      var e0 := TagRunEnd(text, t0 + 1);
      var rest := TagSpans(text, e0);
      assert spans == [Span(t0, e0)] + rest;
      if i == from {
        assert spans[0] == Span(t0, e0);
      } else {
        NoTagInside(text, from, i);
        assert e0 <= i;
        TagReported(text, e0, i);
      }
  }

  /** The hashtag scan misses nothing: every hashtag in the text is reported with its exact range. */
  lemma {:induction false} TagsComplete(text: string)
    ensures forall t: nat, e: nat :: IsTagMatch(text, t, e) ==> Span(t, e) in TagSpans(text, 0)
  {
    forall t: nat, e: nat | IsTagMatch(text, t, e) ensures Span(t, e) in TagSpans(text, 0) {
      var i := if t == 0 then 0 else t - 1;
      assert text[t + 1..e][0] == text[t + 1];
      assert forall k :: t + 1 <= k < e ==> text[k] == text[t + 1..e][k - t - 1];
      TagRunUnique(text, t + 1, e);
      TagAtComplete(text, i, e);
      assert TagAt(text, i) == Some(t);
      TagReported(text, 0, i);
    }
  }
}
