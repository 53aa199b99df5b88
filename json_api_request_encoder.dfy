/**
 * The JSON:API request encoder (`JsonApiRequestEncoder`). It renders through
 * Fractal like the response encoder, with its own emptiness test,
 * classification and fallback transformer. It passes `json_encode`'s result
 * to `response(string ...)` without a fallback, so a failed encoding is a
 * type error rather than an empty body.
 */
module JsonApiRequestEncoding {
  import opened Php
  import opened Http
  import opened EncoderBase
  import opened RequestEncoderBase
  import opened JsonApiEncoding

  /** The error `response()` raises when handed `false` instead of a string. */
  datatype RequestEncodingFailure = ContentTypeError

  /** `isEmpty`: an empty array, or a serializable whose `toArray()` is empty. */
  predicate IsEmptyRequest(data: Value) {
    (data.Arr? && data.entries == []) || (IsSerializable(data) && data.obj.toArray == [])
  }

  /**
   * `getResourceClass`: every serializable is an `Item`, collection or not;
   * other data is a `Collection` exactly when its `(array)` cast passes the
   * request encoders' `isCollection`.
   */
  function RequestResourceClass(data: Value): (r: ResourceClass)
    ensures IsSerializable(data) ==> r == Item
    ensures !IsSerializable(data) ==> (r == Collection <==> IsRequestCollection(CastToArray(data)))
  {
    if IsSerializable(data) then Item
    else if IsRequestCollection(CastToArray(data)) then Collection
    else Item
  }

  /**
   * `getTransformer`: a serializable that supplies a transformer gets a new
   * instance of its class (of the returned object's class when an object is
   * returned); all other data gets the `toArray`-or-cast closure.
   */
  function RequestTransformer(data: Value): (r: Transformer)
    ensures !r.Instance? && !r.GenericNormaliser?
    ensures r == ToArrayOrCast <==> !IsSerializable(data) || data.obj.transformer.None?
    ensures r.Created? ==> data.obj.transformer == Some(TransformerClassName(r.className))
                           || data.obj.transformer == Some(TransformerInstance(r.className))
  {
    if IsSerializable(data) && data.obj.transformer.Some? then
      match data.obj.transformer.value
      case TransformerInstance(c) => Created(c)
      case TransformerClassName(c) => Created(c)
    else ToArrayOrCast
  }

  /** The resource `encode` renders. */
  function RequestResource(data: Value, pluralize: string -> string): (r: FractalResource)
    ensures r.NullResource? <==> IsEmptyRequest(data)
    ensures r.Resource? ==> r.data == data && r.resourceKey == ResourceKey(data, pluralize, IsRequestCollection)
  {
    if IsEmptyRequest(data) then NullResource
    else Resource(RequestResourceClass(data), data, RequestTransformer(data), ResourceKey(data, pluralize, IsRequestCollection))
  }

  /** `encode`: the rendered resource, or a type error when encoding fails. */
  function EncodeRequest(data: Value, status: Option<int>, headers: Option<seq<(Key, Value)>>,
                         serialize: Serialize, pluralize: string -> string)
    : (r: Result<Response, RequestEncodingFailure>)
    ensures r.Err? <==> serialize(RequestResource(data, pluralize)).None?
    ensures r.Ok? ==> r.value.body == serialize(RequestResource(data, pluralize)).value
    ensures r.Ok? ==> Get(r.value.headers, StrKey(ContentTypeName)) == Some(Str(JsonApiContentType))
  {
    var body := serialize(RequestResource(data, pluralize));
    if body.None? then Err(ContentTypeError)
    else Ok(BuildResponse(body.value, status, headers, JsonApiContentType))
  }

  // ---------------------------------------------------------------------------
  // Properties
  // ---------------------------------------------------------------------------

  /**
   * The request encoder's emptiness implies the response encoder's for data
   * without `toResponseArray`; the converse fails: `null`, and a traversable
   * object that yields nothing, are empty only for the response encoder.
   */
  lemma EmptinessComparedWithResponseEncoder(data: Value, o: Obj)
    requires !o.serializable && !o.hasToResponseArray && o.iterable && o.iteration == []
    ensures IsEmptyRequest(data) && !HasToResponseArray(data) ==> IsEmpty(data)
    ensures IsEmpty(Null) && !IsEmptyRequest(Null)
    ensures IsEmpty(Object(o)) && !IsEmptyRequest(Object(o))
  {
    EmptyExactly(data);
    EmptyExactly(Null);
    EmptyExactly(Object(o));
  }

  /** Every empty value gets the same outcome: the null document. */
  lemma EmptyRequestIsNullDocument(data: Value, status: Option<int>, headers: Option<seq<(Key, Value)>>,
                                   serialize: Serialize, pluralize: string -> string)
    requires IsEmptyRequest(data)
    ensures EncodeRequest(data, status, headers, serialize, pluralize)
         == EncodeRequest(Arr([]), status, headers, serialize, pluralize)
  {
  }

  /**
   * Unlike the response encoder, a collection-interface object is an `Item`
   * here, and a transformer object is never used as it is.
   */
  lemma CollectionInterfaceIsItem(o: Obj, pluralize: string -> string)
    requires o.collection && o.serializable && o.toArray != []
    requires o.transformer.Some? && o.transformer.value.TransformerInstance?
    ensures RequestResource(Object(o), pluralize).Resource?
    ensures RequestResource(Object(o), pluralize).resourceClass == Item
    ensures RequestResource(Object(o), pluralize).transformer == Created(o.transformer.value.instanceClass)
    ensures ResourceClassOf(Object(o)) == Collection && TransformerFor(Object(o)) == Instance(o.transformer.value.instanceClass)
  {
  }

  /**
   * The two fallback closures agree on a serializable without
   * `toResponseArray` and on plain arrays; on an object with
   * `toResponseArray` the response encoder's uses that method and the
   * request encoder's `toArray()`.
   */
  lemma FallbacksCompared(item: Value)
    ensures IsSerializable(item) && !HasToResponseArray(item) ==>
      FallbackOutput(GenericNormaliser, item) == FallbackOutput(ToArrayOrCast, item) == Some(item.obj.toArray)
    ensures PlainData(item) && item.Arr? ==>
      FallbackOutput(GenericNormaliser, item) == FallbackOutput(ToArrayOrCast, item) == Some(item.entries)
    ensures IsSerializable(item) && HasToResponseArray(item) ==>
      FallbackOutput(GenericNormaliser, item) == Some(item.obj.toResponseArray)
      && FallbackOutput(ToArrayOrCast, item) == Some(item.obj.toArray)
  {
    if PlainData(item) && item.Arr? {
      PlainDataUnchanged(item);
    }
  }

  /**
   * Where the response encoder falls back to an empty body, the request
   * encoder fails: the same failing serialiser gives `""` there and an
   * error here.
   */
  lemma FailedEncodingCompared(data: Value, status: Option<int>, headers: Option<seq<(Key, Value)>>,
                               serialize: Serialize, pluralize: string -> string)
    requires IsEmptyRequest(data) && !HasToResponseArray(data)
    requires serialize(NullResource).None?
    ensures EncodeRequest(data, status, headers, serialize, pluralize) == Err(ContentTypeError)
    ensures Encode(data, status, headers, serialize, pluralize).body == ""
  {
    EmptyExactly(data);
  }
}
