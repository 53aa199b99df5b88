/**
 * The shared part of the request encoders (`AbstractRequestEncoder`). It
 * decodes like the response encoders and names resources the same way, but
 * its collection test does not look for `toResponseArray`.
 */
module RequestEncoderBase {
  import opened Php
  import opened Http
  import opened EncoderBase

  /** The request-encoder state `decode` and `setContent` work on. */
  class RequestEncoder {
    const request: Option<ServerRequest>
    var content: Option<string>

    constructor (request: Option<ServerRequest>)
      ensures this.request == request && content.None?
    {
      this.request := request;
      content := None;
    }

    /** `setContent`: stores the content and returns the same encoder. */
    method SetContent(content: string) returns (self: RequestEncoder)
      modifies this`content
      ensures this.content == Some(content)
      ensures self == this
    {
      this.content := Some(content);
      self := this;
    }

    /** `decode`: the content rule shared with the response encoders. */
    method Decode(decoder: ContentDecoder) returns (r: Result<seq<(Key, Value)>, DecodeError>)
      ensures r == DecodeContent(request, content, decoder)
    {
      if request.None? && content.None? {
        return Err(DecodeNullRequest);
      }
      var body := if content.Some? then content.value else request.value.body;
      if body == "" {
        return Ok([]);
      }
      r := Ok(decoder(body));
    }
  }

  /**
   * `isCollection` of the request encoders: the first key is an integer and
   * the first value is an array or a serializable.
   */
  predicate IsRequestCollection(data: seq<(Key, Value)>) {
    data != [] && data[0].0.IntKey? && (data[0].1.Arr? || IsSerializable(data[0].1))
  }

  /** `getResourceKey` of the request encoders, with its `foreach` scan. */
  method GetRequestResourceKey(data: Value, pluralize: string -> string) returns (key: string)
    ensures key == ResourceKey(data, pluralize, IsRequestCollection)
  {
    if IsSerializable(data) {
      return KeyForSerializable(data.obj, pluralize);
    }
    var items := CastToArray(data);
    if IsRequestCollection(items) {
      var i := 0;
      while i < |items|
        invariant 0 <= i <= |items|
        invariant FirstSerializable(items) == FirstSerializable(items[i..])
      {
        assert items[i..][0] == items[i] && items[i..][1..] == items[i + 1..];
        if IsSerializable(items[i].1) {
          return KeyForSerializable(items[i].1.obj, pluralize);
        }
        i := i + 1;
      }
    }
    key := "items";
  }

  /**
   * The two collection tests differ exactly on a first value that only has
   * `toResponseArray`: the request encoders do not count it.
   */
  lemma CollectionTestsDiffer(data: seq<(Key, Value)>)
    ensures IsRequestCollection(data) ==> IsCollection(data)
    ensures IsCollection(data) && !IsRequestCollection(data) <==>
      data != [] && data[0].0.IntKey? && HasToResponseArray(data[0].1) && !IsSerializable(data[0].1)
  {
  }

  /**
   * So a list led by an object that only has `toResponseArray` is published
   * as `items` by a request encoder, even when a later item is serializable.
   */
  lemma ResponseArrayLedListIsItems(data: seq<(Key, Value)>, pluralize: string -> string)
    requires data != [] && data[0].0.IntKey? && HasToResponseArray(data[0].1) && !IsSerializable(data[0].1)
    ensures ResourceKey(Arr(data), pluralize, IsRequestCollection) == "items"
  {
  }

  /**
   * `response()` adds the Content-Type header when the caller did not give
   * one and replaces it when they did, without adding a second entry.
   */
  lemma {:induction false} ResponseHeaderCount(content: string, status: Option<int>, headers: seq<(Key, Value)>, contentType: string)
    requires UniqueKeys(headers)
    ensures |BuildResponse(content, status, Some(headers), contentType).headers|
         == if StrKey(ContentTypeName) in Keys(headers) then |headers| else |headers| + 1
  {
    var merged := Renumber(headers, 0);
    assert Get(merged, StrKey(ContentTypeName)) == Get(headers, StrKey(ContentTypeName));
    var r := Put(merged, StrKey(ContentTypeName), Str(contentType));
    assert |Keys(r)| == |r| && |Keys(merged)| == |merged|;
  }
}
