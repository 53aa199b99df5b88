/**
 * The shared part of the response encoders (`AbstractEncoder`): decoding of
 * the request body, the recursive normalisation of data to arrays, the
 * resource key under which a collection is published, and the collection test.
 *
 * The format-specific decoder and the inflector's `pluralize` are parameters.
 */
module EncoderBase {
  import opened Php
  import opened Http

  // ---------------------------------------------------------------------------
  // Decoding
  // ---------------------------------------------------------------------------

  datatype DecodeError = DecodeNullRequest

  /** What the format-specific `decodeRequestContent` makes of a non-empty body. */
  type ContentDecoder = string -> seq<(Key, Value)>

  /**
   * `decode()`: content set by hand beats the request body, an empty body is
   * the empty array, and with neither a request nor content there is nothing
   * to decode.
   */
  function DecodeContent(request: Option<ServerRequest>, content: Option<string>, decoder: ContentDecoder)
    : (r: Result<seq<(Key, Value)>, DecodeError>)
    ensures r.Err? <==> request.None? && content.None?
    ensures r.Ok? && r.value != [] ==>
      r.value == decoder(if content.Some? then content.value else request.value.body)
  {
    if request.None? && content.None? then Err(DecodeNullRequest)
    else
      var body := if content.Some? then content.value else if request.Some? then request.value.body else "";
      if body == "" then Ok([]) else Ok(decoder(body))
  }

  /** The encoder state `decode` and `setContent` work on. */
  class Encoder {
    const request: Option<ServerRequest>
    var content: Option<string>

    constructor (request: Option<ServerRequest>)
      ensures this.request == request && content.None?
    {
      this.request := request;
      content := None;
    }

    /** `setContent`: stores the content and returns the same encoder. */
    method SetContent(content: string) returns (self: Encoder)
      modifies this`content
      ensures this.content == Some(content)
      ensures self == this
    {
      this.content := Some(content);
      self := this;
    }

    method Decode(decoder: ContentDecoder) returns (r: Result<seq<(Key, Value)>, DecodeError>)
      ensures r == DecodeContent(request, content, decoder)
    {
      if request.None? && content.None? {
        return Err(DecodeNullRequest);
      }
      var body: string;
      if content.Some? {
        body := content.value;
      } else if request.Some? {
        body := request.value.body;
      } else {
        body := "";
      }
      if body == "" {
        return Ok([]);
      }
      r := Ok(decoder(body));
    }
  }

  /** Content set by hand decides; the request is not read. */
  lemma ManualContentWins(request: Option<ServerRequest>, content: string, decoder: ContentDecoder)
    ensures DecodeContent(request, Some(content), decoder) == DecodeContent(None, Some(content), decoder)
    ensures DecodeContent(request, Some(content), decoder).Ok?
  {
  }

  /** An empty body decodes to `[]` whatever the format-specific decoder does. */
  lemma EmptyContentIsEmptyArray(request: Option<ServerRequest>, content: Option<string>, d1: ContentDecoder, d2: ContentDecoder)
    requires content == Some("") || (content.None? && request.Some? && request.value.body == "")
    ensures DecodeContent(request, content, d1) == DecodeContent(request, content, d2) == Ok([])
  {
  }

  // ---------------------------------------------------------------------------
  // Normalisation (`getDataAsArray`, `processIterableObject`)
  // ---------------------------------------------------------------------------

  /** An iterable that normalisation rebuilds rather than converts through a method. */
  predicate Rebuilt(data: Value) {
    !IsSerializable(data) && !HasToResponseArray(data) && IsIterable(data)
  }

  /**
   * `getDataAsArray($data, $isRoot)`. A serializable value or one with
   * `toResponseArray` is converted by that method, `toResponseArray` first;
   * any other non-iterable is cast to an array at the root (a missing
   * `isRoot` counts as the root) and kept as it is below; an iterable is
   * rebuilt pair by pair.
   */
  function DataAsArray(data: Value, isRoot: Option<bool>): (r: Value)
    ensures HasToResponseArray(data) ==> r == Arr(data.obj.toResponseArray)
    ensures IsSerializable(data) && !HasToResponseArray(data) ==> r == Arr(data.obj.toArray)
    ensures !IsSerializable(data) && !HasToResponseArray(data) && !IsIterable(data) ==>
      r == if isRoot.GetOr(true) then Arr(CastToArray(data)) else data
    ensures Rebuilt(data) ==> r.Arr?
    decreases data, 1
  {
    if IsSerializable(data) || HasToResponseArray(data) then
      if HasToResponseArray(data) then Arr(data.obj.toResponseArray) else Arr(data.obj.toArray)
    else if !IsIterable(data) then
      if isRoot.GetOr(true) then Arr(CastToArray(data)) else data
    else
      Arr(PutAll([], NormalizedEntries(data, Iteration(data))))
  }

  /** `es` is the part of the iteration of `parent` still to be visited. */
  ghost predicate IterationSuffix(parent: Value, es: seq<(Key, Value)>) {
    IsIterable(parent) && |es| <= |Iteration(parent)| && es == Iteration(parent)[|Iteration(parent)| - |es|..]
  }

  lemma ElementSmaller(parent: Value, i: int)
    requires IsIterable(parent) && 0 <= i < |Iteration(parent)|
    ensures Iteration(parent)[i].1 < parent
  {
    if parent.Arr? {
      assert parent.entries[i] in parent.entries;
    } else {
      assert parent.obj.iteration[i] in parent.obj.iteration;
    }
  }

  /** The pairs the loop of `processIterableObject` assigns: each value normalised as non-root. */
  function NormalizedEntries(ghost parent: Value, es: seq<(Key, Value)>): (r: seq<(Key, Value)>)
    requires IterationSuffix(parent, es)
    ensures |r| == |es|
    ensures forall i :: 0 <= i < |es| ==> r[i] == (es[i].0, DataAsArray(es[i].1, Some(false)))
    decreases parent, 0, |es|
  {
    if es == [] then []
    else
      ElementSmaller(parent, |Iteration(parent)| - |es|);
      assert IterationSuffix(parent, es[1..]);
      var rest := NormalizedEntries(parent, es[1..]);
      var r := [(es[0].0, DataAsArray(es[0].1, Some(false)))] + rest;
      assert forall i :: 1 <= i < |es| ==> r[i] == rest[i - 1] && es[i] == es[1..][i - 1];
      r
  }

  method GetDataAsArray(data: Value, isRoot: Option<bool>) returns (r: Value)
    ensures r == DataAsArray(data, isRoot)
    decreases data, 1
  {
    if IsSerializable(data) || HasToResponseArray(data) {
      if HasToResponseArray(data) {
        return Arr(data.obj.toResponseArray);
      }
      return Arr(data.obj.toArray);
    }
    if !IsIterable(data) {
      if isRoot.GetOr(true) {
        return Arr(CastToArray(data));
      }
      return data;
    }
    var entries := ProcessIterableObject(data);
    r := Arr(entries);
  }

  /** `processIterableObject`: `$return[$key] = getDataAsArray($value, false)` for each pair. */
  method ProcessIterableObject(data: Value) returns (r: seq<(Key, Value)>)
    ensures r == if IsIterable(data) then PutAll([], NormalizedEntries(data, Iteration(data))) else []
    decreases data, 0
  {
    r := [];
    if !IsIterable(data) {
      return;
    }
    var es := Iteration(data);
    var i := 0;
    SuffixAt(data, 0);
    while i < |es|
      invariant 0 <= i <= |es| && IterationSuffix(data, es[i..])
      invariant PutAll([], NormalizedEntries(data, es)) == PutAll(r, NormalizedEntries(data, es[i..]))
    {
      NormalizedStep(data, i);
      ElementSmaller(data, i);
      var value := GetDataAsArray(es[i].1, Some(false));
      PutAllStep(r, (es[i].0, value), NormalizedEntries(data, es[i + 1..]));
      r := Put(r, es[i].0, value);
      i := i + 1;
    }
  }

  lemma SuffixAt(data: Value, i: int)
    requires IsIterable(data) && 0 <= i <= |Iteration(data)|
    ensures IterationSuffix(data, Iteration(data)[i..])
  {
  }

  /** One pass of the `processIterableObject` loop: the pair at `i` heads the pairs still to assign. */
  lemma NormalizedStep(data: Value, i: int)
    requires IsIterable(data) && 0 <= i < |Iteration(data)|
    ensures IterationSuffix(data, Iteration(data)[i..]) && IterationSuffix(data, Iteration(data)[i + 1..])
    ensures NormalizedEntries(data, Iteration(data)[i..])
         == [(Iteration(data)[i].0, DataAsArray(Iteration(data)[i].1, Some(false)))]
            + NormalizedEntries(data, Iteration(data)[i + 1..])
  {
    var es := Iteration(data);
    SuffixAt(data, i);
    SuffixAt(data, i + 1);
    assert es[i..][0] == es[i] && es[i..][1..] == es[i + 1..];
  }

  /** At the root, and whenever `isRoot` is left out, the result is an array. */
  lemma RootIsArray(data: Value, isRoot: Option<bool>)
    requires isRoot.GetOr(true)
    ensures DataAsArray(data, isRoot).Arr?
  {
  }

  /** Below the root, a scalar (or any other non-iterable plain value) is kept unchanged. */
  lemma NestedScalarKept(data: Value)
    requires !IsSerializable(data) && !HasToResponseArray(data) && !IsIterable(data)
    ensures DataAsArray(data, Some(false)) == data
    ensures DataAsArray(data, None) == Arr(CastToArray(data))
  {
  }

  /**
   * An iterable is rebuilt with its own keys in first-occurrence order, each
   * holding the non-root normalisation of its last value; root or not makes
   * no difference.
   */
  lemma {:induction false} IterableKeysKept(data: Value, isRoot: Option<bool>, k: Key)
    requires Rebuilt(data)
    ensures Keys(DataAsArray(data, isRoot).entries) == AppendNew([], Keys(Iteration(data)))
    ensures DataAsArray(data, isRoot) == DataAsArray(data, Some(!isRoot.GetOr(true)))
    ensures k in Keys(Iteration(data)) ==>
      Get(DataAsArray(data, isRoot).entries, k) == Some(DataAsArray(LastValue(Iteration(data), k), Some(false)))
    ensures k !in Keys(Iteration(data)) ==> Get(DataAsArray(data, isRoot).entries, k).None?
  {
    var es := Iteration(data);
    var ns := NormalizedEntries(data, es);
    PutAllKeys([], ns);
    PutAllGet([], ns, k);
    SameKeys(ns, es);
    if k in Keys(es) {
      LastValueMap(es, ns, v => DataAsArray(v, Some(false)), k);
    }
  }

  /** Plain data: scalars and arrays of plain data, without objects. */
  predicate PlainData(v: Value)
    decreases v
  {
    match v
    case Object(_) => false
    case Arr(es) => UniqueKeys(es) && forall i :: 0 <= i < |es| ==> PlainData(es[i].1)
    case _ => true
  }

  /** Plain data is a fixed point of normalisation below the root, and plain arrays at any level. */
  lemma {:induction false} PlainDataUnchanged(v: Value)
    requires PlainData(v)
    ensures DataAsArray(v, Some(false)) == v
    ensures v.Arr? ==> DataAsArray(v, None) == v
    decreases v, 1
  {
    if v.Arr? {
      PlainEntriesUnchanged(v, v.entries);
      assert [] + v.entries == v.entries;
      PutAllFresh([], v.entries);
    }
  }

  lemma {:induction false} PlainEntriesUnchanged(parent: Value, es: seq<(Key, Value)>)
    requires parent.Arr? && PlainData(parent) && IterationSuffix(parent, es)
    ensures NormalizedEntries(parent, es) == es
    decreases parent, 0, |es|
  {
    if es != [] {
      var i := |parent.entries| - |es|;
      assert es[0] == parent.entries[i] && PlainData(es[0].1);
      ElementSmaller(parent, i);
      PlainDataUnchanged(es[0].1);
      assert IterationSuffix(parent, es[1..]);
      PlainEntriesUnchanged(parent, es[1..]);
      assert NormalizedEntries(parent, es) == [(es[0].0, DataAsArray(es[0].1, Some(false)))] + NormalizedEntries(parent, es[1..]);
      assert [es[0]] + es[1..] == es;
    }
  }

  /** Normalising the normal form of plain data changes nothing more. */
  lemma PlainDataIdempotent(v: Value, isRoot: Option<bool>)
    requires PlainData(v) && v.Arr?
    ensures DataAsArray(DataAsArray(v, isRoot), isRoot) == DataAsArray(v, isRoot)
  {
    PlainDataUnchanged(v);
    IterableKeysKept(v, isRoot, IntKey(0));
  }

  // ---------------------------------------------------------------------------
  // Collections and resource keys
  // ---------------------------------------------------------------------------

  /**
   * `isCollection`: the first key is an integer and the first value is an
   * array, a serializable or has `toResponseArray`. An empty array has no
   * first key and is not a collection.
   */
  predicate IsCollection(data: seq<(Key, Value)>) {
    data != [] && data[0].0.IntKey?
    && (data[0].1.Arr? || IsSerializable(data[0].1) || HasToResponseArray(data[0].1))
  }

  /** `getResourceKeyForSerializable`: the object's own key, else its pluralised short class name. */
  function KeyForSerializable(o: Obj, pluralize: string -> string): (r: string)
    ensures o.resourceKey.Some? ==> r == o.resourceKey.value
    ensures o.resourceKey.None? ==> r == pluralize(o.shortName)
  {
    if o.resourceKey.Some? then o.resourceKey.value else pluralize(o.shortName)
  }

  /** The first serializable among the values of `items`. */
  function FirstSerializable(items: seq<(Key, Value)>): (r: Option<Obj>)
    ensures r.None? <==> forall i :: 0 <= i < |items| ==> !IsSerializable(items[i].1)
    ensures r.Some? ==> exists i :: 0 <= i < |items| && items[i].1 == Object(r.value) && r.value.serializable
                                   && forall j :: 0 <= j < i ==> !IsSerializable(items[j].1)
  {
    if items == [] then None
    else if IsSerializable(items[0].1) then
      Some(items[0].1.obj)
    else
      var r := FirstSerializable(items[1..]);
      assert forall i :: 0 < i < |items| ==> items[i] == items[1..][i - 1];
      if r.Some? then
        var i :| 0 <= i < |items[1..]| && items[1..][i].1 == Object(r.value) && r.value.serializable
                 && forall j :: 0 <= j < i ==> !IsSerializable(items[1..][j].1);
        assert items[i + 1].1 == Object(r.value);
        r
      else r
  }

  /**
   * `getResourceKey`, for a given collection test: a serializable gives its
   * own key; a collection (after the `(array)` cast) gives the key of its
   * first serializable item; everything else is published as `items`.
   */
  function ResourceKey(data: Value, pluralize: string -> string, isCollection: seq<(Key, Value)> -> bool): (r: string)
  {
    if IsSerializable(data) then KeyForSerializable(data.obj, pluralize)
    else if isCollection(CastToArray(data)) && FirstSerializable(CastToArray(data)).Some? then
      KeyForSerializable(FirstSerializable(CastToArray(data)).value, pluralize)
    else "items"
  }

  /** `getResourceKey` of the response encoders, with its `foreach` scan. */
  method GetResourceKey(data: Value, pluralize: string -> string) returns (key: string)
    ensures key == ResourceKey(data, pluralize, IsCollection)
  {
    if IsSerializable(data) {
      return KeyForSerializable(data.obj, pluralize);
    }
    var items := CastToArray(data);
    if IsCollection(items) {
      var i := 0;
      while i < |items|
        invariant 0 <= i <= |items|
        invariant FirstSerializable(items) == FirstSerializable(items[i..])
      {
        assert items[i..][0] == items[i] && items[i..][1..] == items[i + 1..];
        if IsSerializable(items[i].1) {
          return KeyForSerializable(items[i].1.obj, pluralize);
        }
        i := i + 1;
      }
    }
    key := "items";
  }

  /** A serializable names itself: its declared key, else its pluralised class name. */
  lemma SerializableNamesItself(data: Value, pluralize: string -> string, isCollection: seq<(Key, Value)> -> bool)
    requires IsSerializable(data)
    ensures data.obj.resourceKey.Some? ==> ResourceKey(data, pluralize, isCollection) == data.obj.resourceKey.value
    ensures data.obj.resourceKey.None? ==> ResourceKey(data, pluralize, isCollection) == pluralize(data.obj.shortName)
  {
  }

  /**
   * A collection takes the key of its first serializable item, and only
   * items before it are passed over.
   */
  lemma FirstSerializableItemNames(data: Value, pluralize: string -> string)
    requires !IsSerializable(data) && IsCollection(CastToArray(data))
    requires exists i :: 0 <= i < |CastToArray(data)| && IsSerializable(CastToArray(data)[i].1)
    ensures exists i :: (0 <= i < |CastToArray(data)| && IsSerializable(CastToArray(data)[i].1)
                         && (forall j :: 0 <= j < i ==> !IsSerializable(CastToArray(data)[j].1))
                         && ResourceKey(data, pluralize, IsCollection) == KeyForSerializable(CastToArray(data)[i].1.obj, pluralize))
  {
    var items := CastToArray(data);
    var o := FirstSerializable(items).value;
    var i :| 0 <= i < |items| && items[i].1 == Object(o) && o.serializable
             && forall j :: 0 <= j < i ==> !IsSerializable(items[j].1);
    assert ResourceKey(data, pluralize, IsCollection) == KeyForSerializable(items[i].1.obj, pluralize);
  }

  /** Anything that is neither serializable nor a collection holding one is published as `items`. */
  lemma ItemsByDefault(data: Value, pluralize: string -> string, isCollection: seq<(Key, Value)> -> bool)
    requires !IsSerializable(data)
    requires !isCollection(CastToArray(data)) || forall i :: 0 <= i < |CastToArray(data)| ==> !IsSerializable(CastToArray(data)[i].1)
    ensures ResourceKey(data, pluralize, isCollection) == "items"
  {
  }

  /** A scalar or `null` is never a collection, so it is published as `items`. */
  lemma ScalarIsNotCollection(data: Value, pluralize: string -> string)
    requires data.Null? || data.Bool? || data.Int? || data.Str?
    ensures !IsCollection(CastToArray(data))
    ensures ResourceKey(data, pluralize, IsCollection) == "items"
  {
  }

  /** The collection test looks at the first pair only. */
  lemma CollectionByFirstPair(data: seq<(Key, Value)>, rest: seq<(Key, Value)>)
    requires data != []
    ensures IsCollection(data + rest) == IsCollection(data)
    ensures !IsCollection([])
  {
    assert (data + rest)[0] == data[0];
  }
}
