/**
 * `FormattedApiResponse`: an immutable value carrying the content a
 * controller returns, with its status code and headers, for the encoder to
 * format later. The status code defaults to 200 and the headers to an
 * empty array.
 */
module FormattedResponse {
  import opened Php

  datatype FormattedApiResponse = FormattedApiResponse(content: Value, statusCode: int, headers: seq<(Key, Value)>)
  {
    /** `getContent()`. */
    function GetContent(): Value {
      content
    }

    /** `getStatusCode()`. */
    function GetStatusCode(): int {
      statusCode
    }

    /** `getHeaders()`. */
    function GetHeaders(): seq<(Key, Value)> {
      headers
    }
  }

  /** The constructor: a missing status code is 200, missing headers are `[]`. */
  function NewFormattedApiResponse(content: Value, statusCode: Option<int>, headers: Option<seq<(Key, Value)>>)
    : (r: FormattedApiResponse)
    ensures r.GetContent() == content
    ensures r.GetStatusCode() == if statusCode.Some? then statusCode.value else 200
    ensures r.GetHeaders() == if headers.Some? then headers.value else []
  {
    FormattedApiResponse(content, statusCode.GetOr(200), headers.GetOr([]))
  }

  /**
   * The getters give back exactly what was supplied, and the response built
   * without a status code or headers is the one built with 200 and `[]`.
   */
  lemma DefaultsAreExplicitValues(content: Value, statusCode: int, headers: seq<(Key, Value)>)
    ensures NewFormattedApiResponse(content, None, None) == NewFormattedApiResponse(content, Some(200), Some([]))
    ensures var r := NewFormattedApiResponse(content, Some(statusCode), Some(headers));
      r.GetContent() == content && r.GetStatusCode() == statusCode && r.GetHeaders() == headers
    ensures NewFormattedApiResponse(content, Some(statusCode), Some(headers)) == NewFormattedApiResponse(content, None, None)
        <==> statusCode == 200 && headers == []
  {
  }
}
