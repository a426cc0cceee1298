/**
 * Building the outbound query URLs: `encodeURIComponent` for the keyword and
 * the connector/`out=json` rule shared by the search and detail routes.
 */
module Uri {
  import opened Text

  /** The characters `encodeURIComponent` leaves as they are. */
  predicate Unreserved(c: char) {
    ('A' <= c <= 'Z') || ('a' <= c <= 'z') || ('0' <= c <= '9')
    || c == '-' || c == '_' || c == '.' || c == '!' || c == '~' || c == '*' || c == '\'' || c == '(' || c == ')'
  }

  function HexDigit(n: nat): (c: char)
    requires n < 16
    ensures Unreserved(c)
  {
    if n < 10 then ('0' as int + n) as char else ('A' as int + n - 10) as char
  }

  /** The UTF-8 bytes of a Unicode scalar value. */
  function Utf8(c: char): (bytes: seq<nat>)
    ensures 1 <= |bytes| <= 4
    ensures forall i :: 0 <= i < |bytes| ==> bytes[i] < 256
  {
    var n := c as int;
    if n < 0x80 then [n]
    else if n < 0x800 then [0xC0 + n / 0x40, 0x80 + n % 0x40]
    else if n < 0x10000 then [0xE0 + n / 0x1000, 0x80 + (n / 0x40) % 0x40, 0x80 + n % 0x40]
    else [0xF0 + n / 0x40000, 0x80 + (n / 0x1000) % 0x40, 0x80 + (n / 0x40) % 0x40, 0x80 + n % 0x40]
  }

  /** `%XX` for each byte, upper-case hexadecimal. */
  function PercentBytes(bytes: seq<nat>): (r: string)
    requires forall i :: 0 <= i < |bytes| ==> bytes[i] < 256
    ensures |r| == 3 * |bytes|
    ensures forall i :: 0 <= i < |r| ==> Unreserved(r[i]) || r[i] == '%'
  {
    if bytes == [] then []
    else ['%', HexDigit(bytes[0] / 16), HexDigit(bytes[0] % 16)] + PercentBytes(bytes[1..])
  }

  function EncodeChar(c: char): (r: string)
    ensures forall i :: 0 <= i < |r| ==> Unreserved(r[i]) || r[i] == '%'
  {
    if Unreserved(c) then [c] else PercentBytes(Utf8(c))
  }

  /** `encodeURIComponent`: the result holds only unreserved characters and `%` escapes. */
  function EncodeUriComponent(s: string): (r: string)
    ensures forall i :: 0 <= i < |r| ==> Unreserved(r[i]) || r[i] == '%'
  {
    if s == [] then [] else EncodeChar(s[0]) + EncodeUriComponent(s[1..])
  }

  /** Text made only of unreserved characters is sent unchanged. */
  lemma {:induction false} EncodeKeepsUnreserved(s: string)
    requires forall i :: 0 <= i < |s| ==> Unreserved(s[i])
    ensures EncodeUriComponent(s) == s
  {
    if s != [] {
      EncodeKeepsUnreserved(s[1..]);
      assert s == [s[0]] + s[1..];
    }
  }

  /** An encoded keyword can never open a query string or add a parameter. */
  lemma EncodedHasNoDelimiters(s: string)
    ensures '?' !in EncodeUriComponent(s)
    ensures '&' !in EncodeUriComponent(s)
    ensures '=' !in EncodeUriComponent(s)
  {
  }

  const OutJson := "out=json"
  const OutJsonParam := "&out=json"

  /** `&` when the source's base API already carries a query string, `?` otherwise. */
  function Connector(api: string): (c: char)
    ensures c == '&' || c == '?'
    ensures '?' in api + [c]
    ensures c == '?' ==> '?' !in api
  {
    if '?' in api then '&' else '?'
  }

  /**
   * `api + connector + params`, then `&out=json` appended unless the URL already
   * contains `out=json`. The URL starts with the base API, the connector follows
   * it, and structured output is always requested exactly once by this rule.
   */
  function QueryUrl(api: string, params: string): (url: string)
    ensures Contains(url, OutJson)
    ensures |url| > |api| && url[..|api|] == api && url[|api|] == Connector(api)
    ensures url[|api| + 1..] == params
         || (url[|api| + 1..] == params + OutJsonParam && !Contains(api + [Connector(api)] + params, OutJson))
  {
    var base := api + [Connector(api)] + params;
    if Contains(base, OutJson) then base
    else
      var url := base + OutJsonParam;
      assert OccursAt(url, OutJson, |base| + 1);
      assert url[|api| + 1..] == params + OutJsonParam;
      url
  }

  /** The URL is the base API, the connector and the parameters, possibly followed by `&out=json`. */
  lemma QueryUrlShape(api: string, params: string)
    ensures QueryUrl(api, params) == api + [Connector(api)] + params
         || QueryUrl(api, params) == api + [Connector(api)] + params + OutJsonParam
  {
  }

  /** The base URL before the `out=json` rule: the connector adds a `?` only when the base API has none. */
  lemma BaseQuestionMarks(api: string, params: string)
    ensures Count(api + [Connector(api)] + params, '?')
         == (if '?' in api then Count(api, '?') else 1) + Count(params, '?')
  {
    var c := [Connector(api)];
    CountAppend(api, c, '?');
    CountAppend(api + c, params, '?');
    assert Count(c, '?') == if '?' in api then 0 else 1;
  }

  /**
   * The question marks of a query URL: the connector contributes one only when
   * the base API has none, and the rest come from the parameters as given.
   */
  lemma QueryUrlCount(api: string, params: string)
    ensures Count(QueryUrl(api, params), '?') == (if '?' in api then Count(api, '?') else 1) + Count(params, '?')
  {
    var base := api + [Connector(api)] + params;
    BaseQuestionMarks(api, params);
    QueryUrlShape(api, params);
    CountAppend(base, OutJsonParam, '?');
    assert '?' !in OutJsonParam;
  }

  /**
   * No second `?`: when the parameters carry none, the URL holds exactly the base
   * API's question marks if it had any, and exactly one otherwise.
   */
  lemma QueryUrlQuestionMarks(api: string, params: string)
    requires '?' !in params
    ensures Count(QueryUrl(api, params), '?') == if '?' in api then Count(api, '?') else 1
  {
    QueryUrlCount(api, params);
  }

  /** The search query: `ac=list&wd=<encoded keyword>`. */
  function SearchParams(wd: string): (p: string)
    ensures '?' !in p
  {
    "ac=list&wd=" + EncodeUriComponent(wd)
  }

  const DetailQuery := "ac=detail&ids="

  lemma DetailQueryHasNoMark()
    ensures '?' !in DetailQuery
  {
  }

  /** The detail query: `ac=detail&ids=<id>`, the id inserted as given. */
  function DetailParams(id: string): (p: string)
    ensures '?' in p <==> '?' in id
  {
    DetailQueryHasNoMark();
    DetailQuery + id
  }

  /** Every search URL keeps to a single query string, whatever the keyword. */
  lemma SearchUrlQuestionMarks(api: string, wd: string)
    ensures Count(QueryUrl(api, SearchParams(wd)), '?') == if '?' in api then Count(api, '?') else 1
  {
    QueryUrlQuestionMarks(api, SearchParams(wd));
  }

  /**
   * The detail id goes into the URL unencoded, so each `?` it carries is one
   * more in the URL: an id with a `?` yields a URL with a second query mark.
   */
  lemma DetailUrlQuestionMarks(api: string, id: string)
    ensures Count(QueryUrl(api, DetailParams(id)), '?')
         == (if '?' in api then Count(api, '?') else 1) + Count(id, '?')
  {
    QueryUrlCount(api, DetailParams(id));
    CountAppend(DetailQuery, id, '?');
    DetailQueryHasNoMark();
  }

  /** So an id such as `7?x` gives a base API without a query string a URL with two `?`. */
  lemma DetailUrlWithTwoQuestionMarks(api: string, before: string, after: string)
    requires '?' !in api && '?' !in before && '?' !in after
    ensures Count(QueryUrl(api, DetailParams(before + "?" + after)), '?') == 2
  {
    DetailUrlQuestionMarks(api, before + "?" + after);
    CountAppend(before + "?", after, '?');
    CountAppend(before, "?", '?');
    assert Count("?", '?') == 1;
  }
}
