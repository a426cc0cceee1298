/**
 * The detail route: cache-first lookup under the composite key, the
 * unknown-source guard before any outbound call, rejection of markup bodies,
 * and caching only of bodies that carry `list` or `data`.
 */
module Detail {
  import opened Wrappers
  import opened Text
  import opened Items
  import opened Uri
  import opened CacheSpec
  import opened Cache

  /** What the route answers: the body (200), 404 `Site not found`, or 500 `Source Error`. */
  datatype DetailReply = Found(payload: Payload) | NotFound | SourceError

  /** The composite cache key `site_key + "_" + id`. */
  function DetailKey(siteKey: string, id: string): string {
    siteKey + "_" + id
  }

  /** In a composite key, the source key ends at the first underscore. */
  lemma FirstUnderscore(siteKey: string, id: string)
    requires '_' !in siteKey
    ensures |DetailKey(siteKey, id)| > |siteKey| && DetailKey(siteKey, id)[|siteKey|] == '_'
    ensures forall n :: 0 <= n < |siteKey| ==> DetailKey(siteKey, id)[n] != '_'
  {
    assert forall n :: 0 <= n < |siteKey| ==> DetailKey(siteKey, id)[n] == siteKey[n];
  }

  /** Keys are distinct for distinct requests as long as source keys contain no underscore. */
  lemma DetailKeyInjective(a: string, i: string, b: string, j: string)
    requires '_' !in a && '_' !in b
    requires DetailKey(a, i) == DetailKey(b, j)
    ensures a == b && i == j
  {
    var k := DetailKey(a, i);
    FirstUnderscore(a, i);
    FirstUnderscore(b, j);
    assert |a| == |b|;
    assert a == k[..|a|] && b == k[..|b|];
    assert i == k[|a| + 1..] && j == k[|b| + 1..];
  }

  /** Without that restriction two sources can share a cache slot. */
  lemma DetailKeysCanCollide()
    ensures DetailKey("a_b", "c") == DetailKey("a", "b_c")
  {
  }

  /** `sites.find(s => s.key === siteKey)`: the first registered source with that key. */
  function FindSite(sites: seq<Site>, siteKey: string): (r: Option<Site>)
    ensures r.None? <==> forall i :: 0 <= i < |sites| ==> sites[i].key != siteKey
    ensures r.Some? ==> exists i ::
              && 0 <= i < |sites|
              && sites[i] == r.value
              && r.value.key == siteKey
              && forall j :: 0 <= j < i ==> sites[j].key != siteKey
  {
    if sites == [] then None
    else if sites[0].key == siteKey then Some(sites[0])
    else
      var r := FindSite(sites[1..], siteKey);
      assert forall i :: 1 <= i < |sites| ==> sites[i] == sites[1..][i - 1];
      r
  }

  /** `typeof data === 'string' && data.trim().startsWith('<')`. */
  predicate IsMarkup(p: Payload) {
    p.Text? && var t := TrimStart(p.text); t != [] && t[0] == '<'
  }

  /** A body that starts with `<` after any whitespace is rejected. */
  lemma {:induction false} MarkupAfterWhitespace(ws: string, rest: string)
    requires forall i :: 0 <= i < |ws| ==> IsJsSpace(ws[i])
    ensures IsMarkup(Text(ws + "<" + rest))
  {
    if ws != [] {
      assert (ws + "<" + rest)[1..] == ws[1..] + "<" + rest;
      MarkupAfterWhitespace(ws[1..], rest);
    } else {
      assert ws + "<" + rest == "<" + rest;
    }
  }

  /** JavaScript truthiness of a response body. */
  predicate PayloadTruthy(p: Payload) {
    match p
    case Null => false
    case Text(t) => t != ""
    case Record(_, _) => true
  }

  /** `data && (data.list || data.data)`: only an object carrying one of the two lists is cached. */
  predicate Cacheable(p: Payload) {
    p.Record? && (Truthy(p.list) || Truthy(p.data))
  }

  /** Only objects are cached, so a cached body is truthy and the next request is a hit. */
  lemma CachedBodyIsTruthy(p: Payload)
    ensures Cacheable(p) ==> PayloadTruthy(p) && !IsMarkup(p)
    ensures p.Text? ==> !Cacheable(p)
  {
  }

  /** Text with no `<` at all, and any object, passes the markup guard. */
  lemma NoAngleIsNotMarkup(p: Payload)
    requires p.Text? ==> '<' !in p.text
    ensures !IsMarkup(p)
  {
    if p.Text? {
      var t := TrimStart(p.text);
      if t != [] {
        assert t[0] == p.text[|p.text| - |t|];
      }
    }
  }

  /**
   * `GET /api/detail?site_key&id`. A truthy cached body is answered without
   * any call. An unknown source answers 404 and calls nothing. Otherwise one
   * call goes to the source (`request`), whose settled outcome is `response`
   * (None when the call failed or timed out): failures and markup bodies answer
   * 500, any other body is answered as it is and cached when it carries
   * `list` or `data`.
   */
  method HandleDetail(cache: CacheManager, sites: seq<Site>, siteKey: string, id: string, response: Option<Payload>)
    returns (reply: DetailReply, request: Option<string>)
    requires cache.Valid()
    modifies cache
    ensures cache.Valid()
    ensures
      var key := DetailKey(siteKey, id);
      var cached := CacheSpec.GetDetail(old(cache.Model()), key);
      var site := FindSite(sites, siteKey);
      if cached.Some? && PayloadTruthy(cached.value) then
        reply == Found(cached.value) && request == None && cache.Model() == old(cache.Model())
      else if site.None? then
        reply == NotFound && request == None && cache.Model() == old(cache.Model())
      else
        && request == Some(QueryUrl(site.value.api, DetailParams(id)))
        && (response.None? || IsMarkup(response.value) ==> reply == SourceError && cache.Model() == old(cache.Model()))
        && (response.Some? && !IsMarkup(response.value) ==>
              && reply == Found(response.value)
              && (if Cacheable(response.value) then SetDetailStep(old(cache.Model()), cache.Model(), key, response.value)
                  else cache.Model() == old(cache.Model())))
  {
    var key := DetailKey(siteKey, id);
    var cached := cache.GetDetail(key);
    if cached.Some? && PayloadTruthy(cached.value) {
      return Found(cached.value), None;
    }
    var site := FindSite(sites, siteKey);
    if site.None? {
      return NotFound, None;
    }
    request := Some(QueryUrl(site.value.api, DetailParams(id)));
    if response.None? {
      return SourceError, request;
    }
    var data := response.value;
    if IsMarkup(data) {
      return SourceError, request;
    }
    if Cacheable(data) {
      cache.SetDetail(key, data);
    }
    reply := Found(data);
  }
}
