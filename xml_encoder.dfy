/**
 * The XML response encoder (`XmlEncoder`). Data is normalised at the root;
 * a collection is then published as a one-key array `{resourceKey: list}`
 * whose list holds every item normalised again at the root. The array is
 * handed to the XML converter, whose output (or `""` when it has none) is
 * the response body.
 *
 * The converter's `arrayToXml` and `xmlToArray` and the inflector's
 * `pluralize` are parameters.
 */
module XmlEncoding {
  import opened Php
  import opened Http
  import opened EncoderBase

  /** `getContentTypeHeader()`. */
  const XmlEncoderContentType: string := "application/xml"

  /** The converter's `arrayToXml`: a document, or null. */
  type ArrayToXml = seq<(Key, Value)> -> Option<string>

  /** The converter's `xmlToArray`: an array, or null. */
  type XmlToArray = string -> Option<seq<(Key, Value)>>

  /** `decodeRequestContent`: the converter's array, or `[]` when it gives null. */
  function XmlContentDecoder(xmlToArray: XmlToArray): ContentDecoder {
    content => xmlToArray(content).GetOr([])
  }

  /** The list `collectionToArray` builds: item `i` normalised at the root, under the key `i`. */
  function ItemList(data: seq<(Key, Value)>): seq<(Key, Value)> {
    seq(|data|, i requires 0 <= i < |data| => (IntKey(i), DataAsArray(data[i].1, None)))
  }

  /** `collectionToArray`: the list under the resource key of the (normalised) collection. */
  function Wrapped(data: seq<(Key, Value)>, pluralize: string -> string): seq<(Key, Value)> {
    [(StringKey(ResourceKey(Arr(data), pluralize, IsCollection)), Arr(ItemList(data)))]
  }

  /** The array `encode` hands to `arrayToXml`. */
  function ConverterInput(data: Value, pluralize: string -> string): seq<(Key, Value)> {
    RootIsArray(data, None);
    var normalized := DataAsArray(data, None).entries;
    if IsCollection(normalized) then Wrapped(normalized, pluralize) else normalized
  }

  /** The response `encode` returns. */
  function EncodeSpec(data: Value, status: Option<int>, headers: Option<seq<(Key, Value)>>,
                      arrayToXml: ArrayToXml, pluralize: string -> string): Response
  {
    BuildResponse(arrayToXml(ConverterInput(data, pluralize)).GetOr(""), status, headers, XmlEncoderContentType)
  }

  /** `collectionToArray`, with its `foreach` appending to the list. */
  method CollectionToArray(data: seq<(Key, Value)>, pluralize: string -> string) returns (r: seq<(Key, Value)>)
    ensures r == Wrapped(data, pluralize)
  {
    var items: seq<(Key, Value)> := [];
    var i := 0;
    while i < |data|
      invariant 0 <= i <= |data| && |items| == i
      invariant forall j :: 0 <= j < i ==> items[j] == (IntKey(j), DataAsArray(data[j].1, None))
    {
      var item := GetDataAsArray(data[i].1, None);
      items := items + [(IntKey(|items|), item)];
      i := i + 1;
    }
    assert items == ItemList(data);
    var key := GetResourceKey(Arr(data), pluralize);
    r := [(StringKey(key), Arr(items))];
  }

  /** `encode`: normalise, wrap a collection, convert, respond. */
  method Encode(data: Value, status: Option<int>, headers: Option<seq<(Key, Value)>>,
                arrayToXml: ArrayToXml, pluralize: string -> string) returns (response: Response)
    ensures response == EncodeSpec(data, status, headers, arrayToXml, pluralize)
  {
    var normalized := GetDataAsArray(data, None);
    RootIsArray(data, None);
    var items := normalized.entries;
    if IsCollection(items) {
      items := CollectionToArray(items, pluralize);
    }
    var body := arrayToXml(items);
    response := BuildResponse(body.GetOr(""), status, headers, XmlEncoderContentType);
  }

  /** `encodeError` of the response encoders: the same as `encode`. */
  method EncodeError(data: Value, status: Option<int>, headers: Option<seq<(Key, Value)>>,
                     arrayToXml: ArrayToXml, pluralize: string -> string) returns (response: Response)
    ensures response == EncodeSpec(data, status, headers, arrayToXml, pluralize)
  {
    response := Encode(data, status, headers, arrayToXml, pluralize);
  }

  // ---------------------------------------------------------------------------
  // Properties
  // ---------------------------------------------------------------------------

  /**
   * The response carries the converter's document (or nothing), the
   * status (200 by default) and the XML Content-Type.
   */
  lemma ResponseCarriesDocument(data: Value, status: Option<int>, headers: Option<seq<(Key, Value)>>,
                                arrayToXml: ArrayToXml, pluralize: string -> string)
    ensures var r := EncodeSpec(data, status, headers, arrayToXml, pluralize);
      && (arrayToXml(ConverterInput(data, pluralize)).None? ==> r.body == "")
      && (arrayToXml(ConverterInput(data, pluralize)).Some? ==> r.body == arrayToXml(ConverterInput(data, pluralize)).value)
      && r.status == (if status.Some? then status.value else 200)
      && Get(r.headers, StrKey(ContentTypeName)) == Some(Str("application/xml"))
  {
  }

  /** Data whose normal form is not a collection reaches the converter as normalised, unwrapped. */
  lemma NonCollectionUnwrapped(data: Value, pluralize: string -> string)
    requires !IsCollection(DataAsArray(data, None).entries)
    ensures ConverterInput(data, pluralize) == DataAsArray(data, None).entries
  {
  }

  /**
   * A collection reaches the converter as one pair whose value is a list of
   * the same length and order, each item normalised again at the root (so
   * each one is an array).
   */
  lemma CollectionWrappedInOrder(data: Value, pluralize: string -> string)
    requires DataAsArray(data, None).Arr? && IsCollection(DataAsArray(data, None).entries)
    ensures var n := DataAsArray(data, None).entries;
      var input := ConverterInput(data, pluralize);
      && |input| == 1
      && input[0].0 == StringKey(ResourceKey(Arr(n), pluralize, IsCollection))
      && input[0].1.Arr? && |input[0].1.entries| == |n|
      && forall i :: 0 <= i < |n| ==>
           input[0].1.entries[i] == (IntKey(i), DataAsArray(n[i].1, None))
           && input[0].1.entries[i].1.Arr?
  {
    var n := DataAsArray(data, None).entries;
    forall i | 0 <= i < |n|
      ensures DataAsArray(n[i].1, None).Arr?
    {
      RootIsArray(n[i].1, None);
    }
  }

  /** Normalisation never yields a serializable object. */
  lemma NormalizedNotSerializable(data: Value, isRoot: Option<bool>)
    ensures !IsSerializable(DataAsArray(data, isRoot))
  {
  }

  /**
   * The resource key is taken from the normalised data, where serializable
   * items have already become arrays: a rebuilt array or iterable that is
   * a collection is always published under `items`, even when its items
   * are serializables with their own resource key.
   */
  lemma {:induction false} RebuiltCollectionPublishedAsItems(data: Value, pluralize: string -> string)
    requires Rebuilt(data) && IsCollection(DataAsArray(data, None).entries)
    ensures ConverterInput(data, pluralize)[0].0 == StrKey("items")
  {
    var es := Iteration(data);
    var ns := NormalizedEntries(data, es);
    var n := DataAsArray(data, None).entries;
    assert n == PutAll([], ns);
    PutAllMembers([], ns);
    forall i | 0 <= i < |n|
      ensures !IsSerializable(n[i].1)
    {
      assert n[i] in ns;
      var j :| 0 <= j < |ns| && ns[j] == n[i];
      NormalizedNotSerializable(es[j].1, Some(false));
    }
    assert FirstSerializable(n).None?;
    assert ResourceKey(Arr(n), pluralize, IsCollection) == "items";
    assert !CanonicalDigits("items") by {
      assert !IsDigit("items"[0]);
    }
  }

  /** A one-item list of a serializable normalises to that item's `toArray`. */
  lemma SerializableListNormalized(item: Obj)
    requires item.serializable && !item.hasToResponseArray
    ensures DataAsArray(Arr([(IntKey(0), Object(item))]), None).entries == [(IntKey(0), Arr(item.toArray))]
  {
    var data := Arr([(IntKey(0), Object(item))]);
    IterableKeysKept(data, None, IntKey(0));
    var n := DataAsArray(data, None).entries;
    assert Keys(n) == [IntKey(0)] by {
      assert Keys(Iteration(data)) == [IntKey(0)];
      assert AppendNew([], [IntKey(0)]) == [IntKey(0)];
    }
    assert n[0].1 == Arr(item.toArray) by {
      assert Keys(n)[0] == n[0].0;
      assert Get(n, IntKey(0)) == Some(Arr(item.toArray));
    }
  }

  /** So an array of serializables is not published under their own key by this encoder. */
  lemma SerializableItemsLoseTheirKey(item: Obj, pluralize: string -> string)
    requires item.serializable && !item.hasToResponseArray && item.resourceKey == Some("users")
    ensures ResourceKey(Arr([(IntKey(0), Object(item))]), pluralize, IsCollection) == "users"
    ensures ConverterInput(Arr([(IntKey(0), Object(item))]), pluralize)
         == [(StrKey("items"), Arr([(IntKey(0), DataAsArray(Arr(item.toArray), None))]))]
  {
    var data := Arr([(IntKey(0), Object(item))]);
    SerializableListNormalized(item);
    RebuiltCollectionPublishedAsItems(data, pluralize);
    var n := [(IntKey(0), Arr(item.toArray))];
    assert ItemList(n) == [(IntKey(0), DataAsArray(Arr(item.toArray), None))];
  }

  /** `decode` of this encoder: a converter that gives null decodes to the empty array. */
  lemma NullDocumentDecodesEmpty(request: Option<ServerRequest>, content: Option<string>, xmlToArray: XmlToArray)
    requires request.Some? || content.Some?
    requires xmlToArray(if content.Some? then content.value else request.value.body).None?
    ensures DecodeContent(request, content, XmlContentDecoder(xmlToArray)) == Ok([])
  {
  }
}
