/**
 * The HTTP messages the library reads and builds (PSR-7).
 *
 * PSR-7 header names are case-insensitive: a request keeps each header under
 * its ASCII-lower-cased name, and a lookup lower-cases the name it is given.
 */
module Http {
  import opened Php

  /** ASCII lower-casing of one character, as `strtolower` does. */
  function LowerChar(c: char): (r: char)
    ensures 'A' <= c <= 'Z' ==> r as int == c as int + 32 && 'a' <= r <= 'z'
    ensures !('A' <= c <= 'Z') ==> r == c
  {
    if 'A' <= c <= 'Z' then (c as int + 32) as char else c
  }

  function Lower(s: string): (r: string)
    ensures |r| == |s| && forall i :: 0 <= i < |s| ==> r[i] == LowerChar(s[i])
  {
    seq(|s|, i requires 0 <= i < |s| => LowerChar(s[i]))
  }

  /** Lower-casing twice changes nothing more, so a lower-cased name is its own lookup key. */
  lemma LowerIdempotent(s: string)
    ensures Lower(Lower(s)) == Lower(s)
  {
    assert forall i :: 0 <= i < |s| ==> LowerChar(LowerChar(s[i])) == LowerChar(s[i]);
  }

  /** Header names differing only in ASCII case are the same header. */
  lemma LowerIgnoresCase(a: string, b: string)
    requires |a| == |b| && forall i :: 0 <= i < |a| ==> LowerChar(a[i]) == LowerChar(b[i])
    ensures Lower(a) == Lower(b)
  {
  }

  /** Every header is stored under its lower-cased name. */
  predicate LowerCaseNames(headers: map<string, seq<string>>) {
    forall name :: name in headers ==> Lower(name) == name
  }

  datatype RequestData = RequestData(headers: map<string, seq<string>>, body: string)

  type ServerRequest = r: RequestData | LowerCaseNames(r.headers) witness RequestData(map[], "")

  /** `getHeader($name)`: every value of the header, whatever the case of `name`, or `[]` when it is absent. */
  function GetHeader(request: ServerRequest, name: string): (r: seq<string>)
    ensures Lower(name) in request.headers ==> r == request.headers[Lower(name)]
    ensures Lower(name) !in request.headers ==> r == []
  {
    var key := Lower(name);
    if key in request.headers then request.headers[key] else []
  }

  /** A lookup depends only on the lower-cased name: `Accept` finds what `accept` finds. */
  lemma HeaderNamesIgnoreCase(request: ServerRequest, name: string)
    ensures GetHeader(request, name) == GetHeader(request, Lower(name))
    ensures GetHeader(request, "Accept") == GetHeader(request, "accept")
    ensures GetHeader(request, "Content-Type") == GetHeader(request, "content-type")
  {
    LowerIdempotent(name);
    LowerIgnoresCase("Accept", "accept");
    LowerIgnoresCase("Content-Type", "content-type");
  }

  /** A header stored under a lower-cased name is found by that name. */
  lemma StoredHeaderFound(request: ServerRequest, name: string)
    requires name in request.headers
    ensures GetHeader(request, name) == request.headers[name]
  {
  }

  /** `(string) reset($values)`: the first value, or `""` (false cast to string) when there is none. */
  function FirstOrEmpty(values: seq<string>): string
  {
    if values == [] then "" else values[0]
  }

  /** A response: body, status code and the header array handed to the response object. */
  datatype Response = Response(body: string, status: int, headers: seq<(Key, Value)>)

  const ContentTypeName: string := "Content-Type"

  /**
   * The integer-keyed part of `array_merge($headers, ...)`: integer keys are
   * renumbered from `next` in order, string keys are kept.
   */
  function Renumber(headers: seq<(Key, Value)>, next: int): (r: seq<(Key, Value)>)
    ensures |r| == |headers|
    ensures forall s :: Get(r, StrKey(s)) == Get(headers, StrKey(s))
  {
    if headers == [] then []
    else if headers[0].0.IntKey? then [(IntKey(next), headers[0].1)] + Renumber(headers[1..], next + 1)
    else [headers[0]] + Renumber(headers[1..], next)
  }

  /**
   * The common `response()` helper of both encoder families: the status
   * defaults to 200, the caller's headers are kept, and the encoder's own
   * Content-Type is merged in last, replacing a caller value under that name.
   */
  function BuildResponse(content: string, status: Option<int>, headers: Option<seq<(Key, Value)>>, contentType: string)
    : (r: Response)
    ensures r.body == content
    ensures status.None? ==> r.status == 200
    ensures status.Some? ==> r.status == status.value
    ensures Get(r.headers, StrKey(ContentTypeName)) == Some(Str(contentType))
    ensures forall s :: s != ContentTypeName ==> Get(r.headers, StrKey(s)) == Get(headers.GetOr([]), StrKey(s))
  {
    var merged := Renumber(headers.GetOr([]), 0);
    Response(content, status.GetOr(200), Put(merged, StrKey(ContentTypeName), Str(contentType)))
  }
}
