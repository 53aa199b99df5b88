/**
 * The JSON:API response encoder (`JsonApiEncoder`). Data whose normal form
 * is empty is published as Fractal's null resource; any other data becomes a
 * Fractal `Item` or `Collection` resource with a transformer and the resource
 * key, and Fractal's JSON:API serialiser renders it. `encodeError` bypasses
 * Fractal and publishes the normalised data under `errors`.
 *
 * Fractal's serialisation followed by `json_encode`, and `json_encode` on its
 * own, are parameters: each gives a document, or nothing when encoding fails.
 */
module JsonApiEncoding {
  import opened Php
  import opened Http
  import opened EncoderBase

  /** `getContentTypeHeader()` of both JSON:API encoders. */
  const JsonApiContentType: string := "application/vnd.api+json"

  /** The Fractal resource class chosen for the data. */
  datatype ResourceClass = Item | Collection

  /** The transformer handed to Fractal with the data. */
  datatype Transformer =
    | Instance(instanceClass: string)   // the transformer object `getTransformer()` returned, used as it is
    | Created(className: string)        // a new instance of a transformer class
    | GenericNormaliser                 // the response encoder's closure over `getDataAsArray`
    | ToArrayOrCast                     // the request encoder's closure: `toArray()`, else an `(array)` cast

  /** What Fractal is asked to render. */
  datatype FractalResource =
    | NullResource
    | Resource(resourceClass: ResourceClass, data: Value, transformer: Transformer, resourceKey: string)

  /** Fractal's JSON:API serialisation of a resource, then `json_encode`: a document, or nothing (false). */
  type Serialize = FractalResource -> Option<string>

  /** `json_encode` of an array: a document, or nothing (false). */
  type JsonEncode = seq<(Key, Value)> -> Option<string>

  /**
   * What the two fallback closures return for one item; the transformers
   * supplied by the data are not part of this model.
   */
  function FallbackOutput(t: Transformer, item: Value): (r: Option<seq<(Key, Value)>>)
    ensures r.Some? <==> t == GenericNormaliser || t == ToArrayOrCast
  {
    match t
    case GenericNormaliser => RootIsArray(item, None); Some(DataAsArray(item, None).entries)
    case ToArrayOrCast => Some(if IsSerializable(item) then item.obj.toArray else CastToArray(item))
    case _ => None
  }

  // ---------------------------------------------------------------------------
  // `encode`
  // ---------------------------------------------------------------------------

  /** `isEmpty`: the normal form of the data has no element. */
  predicate IsEmpty(data: Value) {
    RootIsArray(data, None);
    DataAsArray(data, None).entries == []
  }

  /** An independent reading of emptiness: the pairs the data would contribute, per kind of value. */
  predicate NothingToPublish(data: Value) {
    if HasToResponseArray(data) then data.obj.toResponseArray == []
    else if IsSerializable(data) then data.obj.toArray == []
    else if IsIterable(data) then Iteration(data) == []
    else CastToArray(data) == []
  }

  /**
   * `getResourceClass`: a collection-interface object is a `Collection`
   * (tested first, as such objects are also serializable), any other
   * serializable an `Item`, and other data a `Collection` exactly when its
   * `(array)` cast passes `isCollection`.
   */
  function ResourceClassOf(data: Value): (r: ResourceClass)
    ensures data.Object? && data.obj.collection ==> r == Collection
    ensures IsSerializable(data) && !data.obj.collection ==> r == Item
    ensures !IsSerializable(data) && !(data.Object? && data.obj.collection) ==>
      (r == Collection <==> IsCollection(CastToArray(data)))
  {
    if data.Object? && data.obj.collection then Collection
    else if IsSerializable(data) then Item
    else if IsCollection(CastToArray(data)) then Collection
    else Item
  }

  /**
   * `getTransformer`: a serializable that supplies a transformer gets it
   * (an instance as it is, a class name instantiated); all other data is
   * transformed by `getDataAsArray`.
   */
  function TransformerFor(data: Value): (r: Transformer)
    ensures r == GenericNormaliser <==> !IsSerializable(data) || data.obj.transformer.None?
    ensures r.Instance? ==> data.obj.transformer == Some(TransformerInstance(r.instanceClass))
    ensures r.Created? ==> data.obj.transformer == Some(TransformerClassName(r.className))
  {
    if IsSerializable(data) && data.obj.transformer.Some? then
      match data.obj.transformer.value
      case TransformerInstance(c) => Instance(c)
      case TransformerClassName(c) => Created(c)
    else GenericNormaliser
  }

  /** The resource `encode` renders: the null resource for empty data, else a resource built from the data itself. */
  function EncodedResource(data: Value, pluralize: string -> string): (r: FractalResource)
    ensures r.NullResource? <==> IsEmpty(data)
    ensures r.Resource? ==> r.data == data && r.resourceKey == ResourceKey(data, pluralize, IsCollection)
  {
    if IsEmpty(data) then NullResource
    else Resource(ResourceClassOf(data), data, TransformerFor(data), ResourceKey(data, pluralize, IsCollection))
  }

  /** `encode`: the rendered resource, or an empty body when encoding fails. */
  function Encode(data: Value, status: Option<int>, headers: Option<seq<(Key, Value)>>,
                  serialize: Serialize, pluralize: string -> string): (r: Response)
    ensures serialize(EncodedResource(data, pluralize)).None? ==> r.body == ""
    ensures Get(r.headers, StrKey(ContentTypeName)) == Some(Str(JsonApiContentType))
  {
    BuildResponse(serialize(EncodedResource(data, pluralize)).GetOr(""), status, headers, JsonApiContentType)
  }

  // ---------------------------------------------------------------------------
  // `encodeError`
  // ---------------------------------------------------------------------------

  /** The error `isCollection($data)` raises: it accepts arrays only. */
  datatype ErrorEncodingFailure = IsCollectionTypeError

  /**
   * `encodeError` as written: `isCollection` is given the raw data, and its
   * `array` parameter type rejects anything else with a type error.
   */
  function EncodeErrorAsWritten(data: Value, status: Option<int>, headers: Option<seq<(Key, Value)>>,
                                jsonEncode: JsonEncode): (r: Result<Response, ErrorEncodingFailure>)
    ensures r.Err? <==> !data.Arr?
  {
    if !data.Arr? then Err(IsCollectionTypeError)
    else
      RootIsArray(data, None);
      var errors := DataAsArray(data, None).entries;
      var list := if IsCollection(data.entries) then errors else [(IntKey(0), Arr(errors))];
      Ok(BuildResponse(jsonEncode([(StrKey("errors"), Arr(list))]).GetOr(""), status, headers, JsonApiContentType))
  }

  /**
   * The array `encodeError` hands to `json_encode`, with the collection test
   * applied to the `(array)` cast of the data as `getResourceClass` does: the
   * normalised data under `errors`, a non-collection first wrapped in a list.
   */
  function ErrorsDocument(data: Value): (r: seq<(Key, Value)>)
    ensures |r| == 1 && r[0].0 == StrKey("errors") && r[0].1.Arr?
  {
    RootIsArray(data, None);
    var errors := DataAsArray(data, None).entries;
    [(StrKey("errors"), Arr(if IsCollection(CastToArray(data)) then errors else [(IntKey(0), Arr(errors))]))]
  }

  /** `encodeError`, corrected: every value gets an errors document; Fractal is not involved. */
  function EncodeError(data: Value, status: Option<int>, headers: Option<seq<(Key, Value)>>,
                       jsonEncode: JsonEncode): (r: Response)
    ensures jsonEncode(ErrorsDocument(data)).Some? ==> r.body == jsonEncode(ErrorsDocument(data)).value
    ensures jsonEncode(ErrorsDocument(data)).None? ==> r.body == ""
    ensures Get(r.headers, StrKey(ContentTypeName)) == Some(Str(JsonApiContentType))
  {
    BuildResponse(jsonEncode(ErrorsDocument(data)).GetOr(""), status, headers, JsonApiContentType)
  }

  // ---------------------------------------------------------------------------
  // Properties
  // ---------------------------------------------------------------------------

  /**
   * The emptiness test reads the normal form, so it agrees with what each
   * kind of value contributes: the `toResponseArray` or `toArray` result, the
   * pairs of an iterable, or the `(array)` cast (empty for `null`, never for
   * a scalar).
   */
  lemma EmptyExactly(data: Value)
    ensures IsEmpty(data) <==> NothingToPublish(data)
  {
    if Rebuilt(data) {
      var n := DataAsArray(data, None).entries;
      IterableKeysKept(data, None, IntKey(0));
      AppendNewCovers([], Keys(Iteration(data)));
      var it := Iteration(data);
      if it != [] {
        KeysIndex(it);
        assert it[0].0 in Keys(n);
      }
      if n != [] {
        KeysIndex(n);
        assert n[0].0 in Keys(it);
      }
    }
  }

  /** Every empty value gets the same response: the null document. */
  lemma EmptyDataIsNullDocument(data: Value, status: Option<int>, headers: Option<seq<(Key, Value)>>,
                                serialize: Serialize, pluralize: string -> string)
    requires IsEmpty(data)
    ensures Encode(data, status, headers, serialize, pluralize) == Encode(Arr([]), status, headers, serialize, pluralize)
    ensures Encode(data, status, headers, serialize, pluralize).body == serialize(NullResource).GetOr("")
  {
    EmptyExactly(Arr([]));
  }

  /**
   * Non-empty data is rendered as a resource holding the data itself (not
   * its normal form), with its class, transformer and resource key; `null`
   * and a scalar are the two plain extremes: `null` is empty, a scalar never is.
   */
  lemma NonEmptyDataIsResource(data: Value, status: Option<int>, headers: Option<seq<(Key, Value)>>,
                               serialize: Serialize, pluralize: string -> string)
    requires !IsEmpty(data)
    ensures var res := Resource(ResourceClassOf(data), data, TransformerFor(data), ResourceKey(data, pluralize, IsCollection));
      Encode(data, status, headers, serialize, pluralize).body == serialize(res).GetOr("")
    ensures !data.Null?
  {
    EmptyExactly(data);
  }

  /** A scalar is never empty, and is published as an `Item` named `items`. */
  lemma ScalarIsItem(data: Value, pluralize: string -> string)
    requires data.Bool? || data.Int? || data.Str?
    ensures !IsEmpty(data)
    ensures EncodedResource(data, pluralize) == Resource(Item, data, GenericNormaliser, "items")
  {
    EmptyExactly(data);
  }

  /**
   * A collection-interface object is a `Collection` even though it is also
   * serializable; a serializable with a transformer class name gets a new
   * instance of it, one with a transformer instance gets that instance.
   */
  lemma CollectionInterfaceBeforeSerializable(o: Obj, pluralize: string -> string)
    requires o.collection && o.serializable && !o.hasToResponseArray && o.toArray != []
    ensures EncodedResource(Object(o), pluralize).Resource?
    ensures EncodedResource(Object(o), pluralize).resourceClass == Collection
    ensures o.transformer.Some? && o.transformer.value.TransformerClassName? ==>
      EncodedResource(Object(o), pluralize).transformer == Created(o.transformer.value.className)
    ensures o.transformer.Some? && o.transformer.value.TransformerInstance? ==>
      EncodedResource(Object(o), pluralize).transformer == Instance(o.transformer.value.instanceClass)
  {
    EmptyExactly(Object(o));
  }

  /**
   * The errors document publishes a collection's normal form as it is and
   * anything else as a one-element list at key 0, so empty data still
   * publishes one (empty) error.
   */
  lemma ErrorsWrapping(data: Value)
    ensures IsCollection(CastToArray(data)) ==> ErrorsDocument(data)[0].1 == Arr(DataAsArray(data, None).entries)
    ensures !IsCollection(CastToArray(data)) ==>
      ErrorsDocument(data)[0].1 == Arr([(IntKey(0), DataAsArray(data, None))])
    ensures ErrorsDocument(Arr([])) == [(StrKey("errors"), Arr([(IntKey(0), Arr([]))]))]
  {
    RootIsArray(data, None);
    EmptyExactly(Arr([]));
  }

  /**
   * A list of error arrays, plain data only, is published unchanged under
   * `errors`.
   */
  lemma PlainErrorListUnchanged(es: seq<(Key, Value)>)
    requires PlainData(Arr(es)) && IsCollection(es)
    ensures ErrorsDocument(Arr(es)) == [(StrKey("errors"), Arr(es))]
  {
    PlainDataUnchanged(Arr(es));
  }

  /**
   * The code as written fails on every object, including the serializable
   * error objects it is meant to publish.
   */
  lemma EncodeErrorRejectsObjects(o: Obj, status: Option<int>, headers: Option<seq<(Key, Value)>>, jsonEncode: JsonEncode)
    ensures EncodeErrorAsWritten(Object(o), status, headers, jsonEncode) == Err(IsCollectionTypeError)
  {
  }

  /** On arrays, the only values the code accepts, the corrected encoder gives the same response. */
  lemma EncodeErrorAgreesOnArrays(es: seq<(Key, Value)>, status: Option<int>, headers: Option<seq<(Key, Value)>>,
                                  jsonEncode: JsonEncode)
    ensures EncodeErrorAsWritten(Arr(es), status, headers, jsonEncode) == Ok(EncodeError(Arr(es), status, headers, jsonEncode))
  {
  }
}
