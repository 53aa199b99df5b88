# apiformats in Dafny

A model of the core of the `apiformats` PHP library. The library picks an
encoder for a request from its `Content-Type` and `Accept` headers. It
normalises controller data into nested PHP arrays. It renders the arrays as
JSON, XML or JSON:API, and it hydrates JSON:API documents back into nested
arrays.

The model covers:

- **Encoder selection.** The three selectors are modelled as classes over an
  ordered MIME table:
  - `EncoderGuesser`, which matches with regular expressions;
  - the older `RequestEncoderGuesser`;
  - `SetFormatOnRequestListener`, which looks MIME types up exactly.
- **Structural core of the encoders.** This is the `decode` state rule, the
  recursive normaliser `getDataAsArray`, the resource-key resolver, and the
  two `isCollection` heuristics.
- **Dispatch of the XML and JSON:API encoders.** This covers collection
  wrapping, the emptiness test, Item/Collection classification, transformer
  choice and the `errors` document.
- **Array-to-XML tree builder** of `XmlRequestEncoder`. The DOM is an
  algebraic tree.
- **JSON:API hydrator.** It works over an abstract document, with its shared
  identity map.
- **Configuration helpers** and the `FormattedApiResponse` value object.

PHP values are a datatype: `null`, booleans, integers, strings, ordered arrays
and objects (`php.dfy`). An array is a sequence of key/value pairs in
insertion order. Writing to an existing key replaces its value in place, and
a new key goes at the end. An object is a record of the capabilities the
library tests:

- serializable (`toArray`, an optional resource key, an optional transformer);
- has `toResponseArray`;
- implements the collection interface;
- traversable;
- castable to string.

Code that changes state step by step is written as methods with loops. Each
such method is proved equal to a specification function, and the lemmas are
stated about those functions. Examples are the table-building constructors,
the header scans, the hydrator's link loops, the XML child loops and the
configuration loops.

These collaborators are function-typed parameters:

- regular-expression matching;
- Doctrine's inflector;
- Fractal's serialiser and `json_encode`;
- the XML converter;
- `simplexml` parsing;
- DOM rendering.

Class existence and interface checks are sets of class names.

## Model

| member | source | states |
|---|---|---|
| Http.GetHeader | src/EncoderGuesser.php:219-221 | `getHeader` finds a header under its lower-cased name, whatever the case of the name asked for, and gives `[]` when it is absent |
| Http.HeaderNamesIgnoreCase | src/EncoderGuesser.php:219-221 | a lookup depends only on the lower-cased name: `Accept` and `accept`, `Content-Type` and `content-type` find the same values |
| Http.StoredHeaderFound | src/RequestEncoderGuesser.php:74 | a stored header is found by its stored name |
| Http.BuildResponse | src/Encoders/AbstractEncoder.php:194-203 | the body is the content; the status is the given one or 200; Content-Type is the encoder's own, overriding a caller value; every other caller header is kept |
| RequestEncoderBase.ResponseHeaderCount | src/RequestEncoders/AbstractRequestEncoder.php:145-154 | Content-Type is added once when absent and replaced (not duplicated) when the caller gave one |
| EncoderBase.DecodeContent | src/Encoders/AbstractEncoder.php:47-60 | decoding fails exactly when there is neither a request nor manually set content; a non-empty result is the decoder's reading of the manual content if set, else of the request body |
| EncoderBase.ManualContentWins | src/Encoders/AbstractEncoder.php:47-60 | with manual content set, the request is irrelevant and decoding succeeds |
| EncoderBase.EmptyContentIsEmptyArray | src/Encoders/AbstractEncoder.php:55-59 | empty content decodes to `[]` whatever the format-specific decoder |
| EncoderBase.Encoder.constructor | src/Encoders/AbstractEncoder.php:33-36 | a new encoder holds its request and no manual content |
| EncoderBase.Encoder.SetContent | src/Encoders/AbstractEncoder.php:83-88 | stores the content and returns the same encoder |
| EncoderBase.Encoder.Decode | src/Encoders/AbstractEncoder.php:47-60 | equals `DecodeContent` of the encoder's request and content |
| EncoderBase.DataAsArray | src/Encoders/AbstractEncoder.php:114-129 | `toResponseArray` wins over `toArray`, either returned unchanged; a non-iterable is cast only at the root; rebuilt values are arrays |
| EncoderBase.NormalizedEntries | src/Encoders/AbstractEncoder.php:234-248 | each pair keeps its key and its value is normalised as non-root |
| EncoderBase.GetDataAsArray | src/Encoders/AbstractEncoder.php:114-129 | the method equals `DataAsArray` |
| EncoderBase.ProcessIterableObject | src/Encoders/AbstractEncoder.php:234-248 | the loop builds the array of normalised pairs written in iteration order (`[]` for a non-iterable) |
| EncoderBase.RootIsArray | src/Encoders/AbstractEncoder.php:122-128 | at the root (explicit or default) normalisation always gives an array |
| EncoderBase.NestedScalarKept | src/Encoders/AbstractEncoder.php:122-128 | a nested scalar is returned unchanged, the same scalar at the root is cast |
| EncoderBase.IterableKeysKept | src/Encoders/AbstractEncoder.php:234-248 | an iterable keeps exactly its keys, each holding the normalised last value written under it; the root flag does not matter |
| EncoderBase.PlainDataUnchanged | src/Encoders/AbstractEncoder.php:114-129 | data made only of scalars and arrays is a fixed point of normalisation |
| EncoderBase.PlainDataIdempotent | src/Encoders/AbstractEncoder.php:114-129 | normalising plain data twice is normalising it once |
| EncoderBase.KeyForSerializable | src/Encoders/AbstractEncoder.php:216-225 | the explicit resource key, else the pluralised short class name |
| EncoderBase.FirstSerializable | src/Encoders/AbstractEncoder.php:140-159 | none exactly when no item is serializable; otherwise a serializable item of the collection |
| EncoderBase.GetResourceKey | src/Encoders/AbstractEncoder.php:140-159 | the method equals `ResourceKey` with the response encoders' collection test |
| EncoderBase.SerializableNamesItself | src/Encoders/AbstractEncoder.php:140-159 | a serializable is named by its own key or pluralised class name |
| EncoderBase.FirstSerializableItemNames | src/Encoders/AbstractEncoder.php:140-159 | a collection is named after its first serializable item, which exists in the cast array |
| EncoderBase.ItemsByDefault | src/Encoders/AbstractEncoder.php:140-159 | a non-serializable that is not a collection, or a collection without serializable items, is named `items` |
| EncoderBase.ScalarIsNotCollection | src/Encoders/AbstractEncoder.php:168-180 | a scalar's cast is never a collection, so its key is `items` |
| EncoderBase.CollectionByFirstPair | src/Encoders/AbstractEncoder.php:168-180 | the test depends on the first pair only; the empty array is not a collection |
| EncoderBase.IsCollection | src/Encoders/AbstractEncoder.php:168-180 | reference definition of the response collection test; `CollectionByFirstPair` and `ScalarIsNotCollection` state what it decides |
| EncoderBase.ResourceKey | src/Encoders/AbstractEncoder.php:140-159 | reference definition of the resource key; `SerializableNamesItself`, `FirstSerializableItemNames` and `ItemsByDefault` state its three outcomes, `GetResourceKey` is proved equal to it |
| RequestEncoderBase.RequestEncoder.constructor | src/RequestEncoders/AbstractRequestEncoder.php:32-35 | a new encoder holds its request and no manual content |
| RequestEncoderBase.RequestEncoder.SetContent | src/RequestEncoders/AbstractRequestEncoder.php:68-73 | stores the content and returns the same encoder |
| RequestEncoderBase.RequestEncoder.Decode | src/RequestEncoders/AbstractRequestEncoder.php:46-59 | equals `DecodeContent`: manual content first, empty is `[]`, neither is an error |
| RequestEncoderBase.GetRequestResourceKey | src/RequestEncoders/AbstractRequestEncoder.php:100-119 | the method equals `ResourceKey` with the request encoders' collection test |
| RequestEncoderBase.CollectionTestsDiffer | src/RequestEncoders/AbstractRequestEncoder.php:128-131 | a request collection is a response collection; they differ exactly on a first value that only has `toResponseArray` |
| RequestEncoderBase.ResponseArrayLedListIsItems | src/RequestEncoders/AbstractRequestEncoder.php:100-119 | a list led by a `toResponseArray` object is named `items` by the request encoders |
| RequestEncoderBase.IsRequestCollection | src/RequestEncoders/AbstractRequestEncoder.php:128-131 | reference definition of the request collection test; `CollectionTestsDiffer` relates it to the response test |
| Registry.FirstEntryFault | src/EncoderGuesser.php:291-313 | no fault exactly when every key is a string and every value an array |
| Registry.FirstFault | src/EncoderGuesser.php:291-313 | no fault exactly when the registry is valid; the empty-registry fault exactly for the empty registry |
| Registry.ValidateFormats | src/EncoderGuesser.php:291-313 | the early-return loop reports `FirstFault` |
| Registry.FirstFaultIsEarliest | src/EncoderGuesser.php:291-313 | the reported fault is the one of the earliest faulty entry |
| Registry.ValidFormats | src/EncoderGuesser.php:291-313 | what a valid registry is: non-empty, string keys, array values; `FirstFault` is none exactly when it holds |
| Registry.TableKeys | src/EncoderGuesser.php:272-280 | the MIME table has distinct patterns, exactly those listed by some encoder |
| Registry.TableOwner | src/EncoderGuesser.php:272-280 | a pattern maps to the last encoder that lists it |
| Registry.TableRebuildIdempotent | src/EncoderGuesser.php:272-280 | rebuilding the table over itself on a later call leaves it unchanged |
| Registry.BuildTable | src/EncoderGuesser.php:272-280 | reference definition of the MIME table; `TableKeys`, `TableOwner` and `TableRebuildIdempotent` state its keys, owners and idempotence |
| Registry.FirstMatch | src/EncoderGuesser.php:173-177 | no result exactly when no pattern matches |
| Registry.FirstMatchIsEarliest | src/EncoderGuesser.php:173-177 | the result is the encoder of the earliest matching pattern in table order |
| Registry.Instantiate | src/EncoderGuesser.php:246-263 | an unknown class, or one not implementing the encoder interface, is an `InvalidEncoder` error; otherwise an encoder of that class on the request |
| EncoderGuessing.Without | src/EncoderGuesser.php:189-202 | the defaults minus the primary header |
| EncoderGuessing.EncoderGuesser.constructor | src/EncoderGuesser.php:44-48 | keeps the registry; the default encoder is the given one, else the JSON encoder |
| EncoderGuessing.EncoderGuesser.DefaultEncoder | src/EncoderGuesser.php:59-62 | instantiates the default encoder with no registry validation |
| EncoderGuessing.EncoderGuesser.GuessEncoder | src/EncoderGuesser.php:76-94 | equals `Guess` over the given headers (default Accept, Content-Type) with the generic error |
| EncoderGuessing.EncoderGuesser.GuessRequestEncoder | src/EncoderGuesser.php:107-125 | equals `Guess` over Content-Type then Accept with the Content-Type error |
| EncoderGuessing.EncoderGuesser.GuessResponseEncoder | src/EncoderGuesser.php:138-156 | equals `Guess` over Accept then Content-Type with the Accept error |
| EncoderGuessing.EncoderGuesser.GetEncoderClass | src/EncoderGuesser.php:165-180 | no MIME type gives the default encoder; otherwise the first match in the table |
| EncoderGuessing.EncoderGuesser.GetHeaderWithFallbacks | src/EncoderGuesser.php:189-202 | the loop builds the primary header followed by the other defaults |
| EncoderGuessing.EncoderGuesser.GuessMimeType | src/EncoderGuesser.php:214-234 | an invalid registry is an error with the table untouched; otherwise the table is rebuilt and the first usable header value returned |
| EncoderGuessing.EncoderGuesser.ReadMimeType | src/EncoderGuesser.php:220-233 | the scan returns the first usable header's first value |
| EncoderGuessing.EncoderGuesser.SetMimeTypes | src/EncoderGuesser.php:272-280 | the nested loops write every pattern of every encoder, in order, into the table |
| EncoderGuessing.FirstUsableIsEarliest | src/EncoderGuesser.php:220-233 | the chosen value comes from the earliest header that is present, not `""` and not `*/*` |
| EncoderGuessing.NoUsableHeader | src/EncoderGuesser.php:220-233 | with no usable header there is no MIME type |
| EncoderGuessing.GuessValidatesFirst | src/EncoderGuesser.php:214-217 | an invalid registry is reported whatever the request |
| EncoderGuessing.GuessFallsBackToDefault | src/EncoderGuesser.php:165-170 | with no usable header the default encoder is instantiated and nothing is matched |
| EncoderGuessing.GuessDecidedByFirstUsable | src/EncoderGuesser.php:220-233 | the first usable header alone decides, even when its value matches nothing |
| EncoderGuessing.UnsupportedListsEveryPattern | src/EncoderGuesser.php:84-90 | an unmatched value raises the entry point's error listing every pattern once; only the header-specific errors are 406 |
| EncoderGuessing.DispatchFirstMatch | src/EncoderGuesser.php:173-177 | the encoder of the earliest matching pattern is instantiated |
| EncoderGuessing.PatternOwnedByLastEncoder | src/EncoderGuesser.php:272-280 | a pattern listed twice belongs to the later encoder |
| EncoderGuessing.HeaderOrders | src/EncoderGuesser.php:107-109 | requests read Content-Type then Accept, responses Accept then Content-Type |
| EncoderGuessing.FallbacksShape | src/EncoderGuesser.php:189-202 | the primary header is first and not repeated, and every default header is still read |
| EncoderGuessing.FirstUsableHeader | src/EncoderGuesser.php:220-233 | reference definition of the header scan; `FirstUsableIsEarliest` and `NoUsableHeader` state its result, `ReadMimeType` is proved equal to it |
| EncoderGuessing.WithFallbacks | src/EncoderGuesser.php:189-202 | reference definition of the header order; `FallbacksShape` states its shape, `GetHeaderWithFallbacks` is proved equal to it |
| EncoderGuessing.Dispatch | src/EncoderGuesser.php:173-177 | reference definition of matching then instantiating; `DispatchFirstMatch` and `UnsupportedListsEveryPattern` state its two outcomes |
| EncoderGuessing.Guess | src/EncoderGuesser.php:76-94 | reference definition of a guess; `GuessValidatesFirst`, `GuessFallsBackToDefault` and `GuessDecidedByFirstUsable` state its outcomes, the three entry points are proved equal to it |
| EncoderGuessing.FirstUsableIgnoresCase | src/EncoderGuesser.php:219-233 | header names that differ only in ASCII case give the same first usable value |
| EncoderGuessing.GuessIgnoresHeaderCase | src/EncoderGuesser.php:76-94 | the caller's header names are matched case-insensitively: asking for `Accept` guesses what asking for `accept` guesses |
| RequestEncoderGuessing.RequestEncoderGuesser.Create | src/RequestEncoderGuesser.php:41-45 | construction fails exactly on an invalid registry, reporting its first fault; otherwise the guesser is valid |
| RequestEncoderGuessing.RequestEncoderGuesser.constructor | src/RequestEncoderGuesser.php:41-45 | a guesser built from a valid registry holds it, with its table and fallback filled |
| RequestEncoderGuessing.RequestEncoderGuesser.DefaultEncoder | src/RequestEncoderGuesser.php:54-57 | always the JSON request encoder, whatever the registry |
| RequestEncoderGuessing.RequestEncoderGuesser.GuessEncoder | src/RequestEncoderGuesser.php:70-100 | the scan equals `RequestGuess` over the guesser's table and fallback |
| RequestEncoderGuessing.RequestEncoderGuesser.GetEncoderClass | src/RequestEncoderGuesser.php:109-118 | the encoder of the first matching pattern, or none |
| RequestEncoderGuessing.RequestEncoderGuesser.SetMimeTypes | src/RequestEncoderGuesser.php:154-166 | the table is every pattern written in order; the fallback is the first encoder name unless one was set |
| RequestEncoderGuessing.FirstAssignedKeeps | src/RequestEncoderGuesser.php:157-159 | a fallback already chosen is never replaced |
| RequestEncoderGuessing.FirstAssignedIsFirstName | src/RequestEncoderGuesser.php:154-159 | on a non-empty registry the fallback is the first configured encoder |
| RequestEncoderGuessing.DecidingIsFirstNotSkipped | src/RequestEncoderGuesser.php:73-79 | the deciding header is the earliest with values whose first value is not `*/*` |
| RequestEncoderGuessing.NothingDecides | src/RequestEncoderGuesser.php:73-79 | when every header is skipped none decides |
| RequestEncoderGuessing.GuessFallsBack | src/RequestEncoderGuesser.php:99 | with both headers skipped the first registry encoder is instantiated |
| RequestEncoderGuessing.AcceptDecidesAlone | src/RequestEncoderGuesser.php:81-95 | an unskipped, unmatched Accept is refused at once, even if Content-Type would match; `""` is not skipped |
| RequestEncoderGuessing.ContentTypeWhenAcceptSkipped | src/RequestEncoderGuesser.php:73-95 | Content-Type decides only when Accept is skipped, by its earliest matching pattern |
| RequestEncoderGuessing.LaterEncoderWins | src/RequestEncoderGuesser.php:162-164 | a pattern listed twice belongs to the later encoder |
| RequestEncoderGuessing.DecidingHeader | src/RequestEncoderGuesser.php:73-79 | reference definition of the header scan; `DecidingIsFirstNotSkipped` and `NothingDecides` state its result |
| RequestEncoderGuessing.RequestGuess | src/RequestEncoderGuesser.php:70-100 | reference definition of a request guess; `GuessFallsBack`, `AcceptDecidesAlone` and `ContentTypeWhenAcceptSkipped` state its outcomes, `GuessEncoder` is proved equal to it |
| FormatListener.MimeKeys | src/EventListeners/SetFormatOnRequestListener.php:45-47 | the keys are exactly the scalar MIME values listed, converted to array keys |
| FormatListener.HeaderValue | src/EventListeners/SetFormatOnRequestListener.php:63-70 | a header's first value, absent exactly when the header has no value |
| FormatListener.SetFormatOnRequestListener.constructor | src/EventListeners/SetFormatOnRequestListener.php:38-49 | the default is the first format key and every listed MIME type maps to its format |
| FormatListener.SetFormatOnRequestListener.AddMimeTypes | src/EventListeners/SetFormatOnRequestListener.php:45-47 | the inner loop writes each MIME type of one format into the table, in order |
| FormatListener.SetFormatOnRequestListener.OnKernelRequest | src/EventListeners/SetFormatOnRequestListener.php:58-85 | an unsupported value is returned as the error with the request format untouched; otherwise the request format is the resolved one |
| FormatListener.AcceptDecides | src/EventListeners/SetFormatOnRequestListener.php:63-80 | a present Accept decides alone: its exact lookup, or the unsupported error |
| FormatListener.ContentTypeWhenNoAccept | src/EventListeners/SetFormatOnRequestListener.php:63-70 | without Accept, Content-Type is read |
| FormatListener.EmptyAcceptIsLookedUp | src/EventListeners/SetFormatOnRequestListener.php:63-70 | an empty-string Accept is looked up, not skipped |
| FormatListener.FallsBackToFirstFormat | src/EventListeners/SetFormatOnRequestListener.php:83-84 | with neither header the request format is the first configured format |
| FormatListener.SuccessIsExactLookup | src/EventListeners/SetFormatOnRequestListener.php:73 | a format set from a header is stored under exactly that header's value |
| FormatListener.ErrorListsTable | src/EventListeners/SetFormatOnRequestListener.php:94-101 | the error names a value not in the table and lists exactly the configured MIME types |
| FormatListener.LaterFormatWins | src/EventListeners/SetFormatOnRequestListener.php:45-47 | a MIME type listed by two formats belongs to the later |
| FormatListener.ScalarIsOneElementList | src/EventListeners/SetFormatOnRequestListener.php:45-47 | a scalar MIME value counts as a one-element list |
| FormatListener.FirstFormat | src/EventListeners/SetFormatOnRequestListener.php:40-43 | reference definition of the default format; `FallsBackToFirstFormat` states its use |
| FormatListener.Resolve | src/EventListeners/SetFormatOnRequestListener.php:63-84 | reference definition of the header loop; `AcceptDecides`, `ContentTypeWhenNoAccept`, `EmptyAcceptIsLookedUp`, `SuccessIsExactLookup` and `FallsBackToFirstFormat` state its outcomes, `OnKernelRequest` is proved against it |
| FormatListener.SetFormatOnRequestListener.LoadFormats | src/EventListeners/SetFormatOnRequestListener.php:40-48 | the constructor's loop leaves the first format as the default and the table as every listed MIME type mapped to its last format |
| JsonApiHydration.GetObjectFromMap | src/External/Libraries/JsonApi/JsonApiHydrator.php:41-44 | found exactly when the `type-id` key is in the identity map |
| JsonApiHydration.SaveObjectToMap | src/External/Libraries/JsonApi/JsonApiHydrator.php:167-170 | the resource's key now holds the given array; every other key is unchanged |
| JsonApiHydration.IdentityKeyCollision | src/External/Libraries/JsonApi/JsonApiHydrator.php:41-44 | two different type/id pairs can share an identity key |
| JsonApiHydration.FindIncluded | src/External/Libraries/JsonApi/JsonApiHydrator.php:113-114 | an included resource with that type and id, none exactly when there is none |
| JsonApiHydration.Attach | src/External/Libraries/JsonApi/JsonApiHydrator.php:125-131 | a to-one link sets the field, a to-many link appends at the next list index; no other field changes |
| JsonApiHydration.StrictlyShrinks | src/External/Libraries/JsonApi/JsonApiHydrator.php:103-106 | saving an unmapped included resource strictly shrinks the set of unmapped included resources |
| JsonApiHydration.HydrateSpec | src/External/Libraries/JsonApi/JsonApiHydrator.php:93-136 | the resource is in the map as its attribute snapshot; earlier entries survive; fields outside the relationships are the snapshot's |
| JsonApiHydration.RelationshipsSpec | src/External/Libraries/JsonApi/JsonApiHydrator.php:109-133 | map entries are never lost or changed; fields not named by a relationship are untouched |
| JsonApiHydration.LinksSpec | src/External/Libraries/JsonApi/JsonApiHydrator.php:110-132 | map entries are never lost or changed; only the relationship's own field changes |
| JsonApiHydration.ResolveSpec | src/External/Libraries/JsonApi/JsonApiHydrator.php:111-123 | a mapped link is served from the map untouched; an unresolved link leaves the map as it was; `IncludedLinkHydrated` states the included case |
| JsonApiHydration.PrimariesSpec | src/External/Libraries/JsonApi/JsonApiHydrator.php:67-82 | one hydrated array per primary resource, the map threaded through and only growing |
| JsonApiHydration.HydrateResultArray | src/External/Libraries/JsonApi/JsonApiHydrator.php:145-157 | the loop builds the attribute snapshot |
| JsonApiHydration.HydrateResource | src/External/Libraries/JsonApi/JsonApiHydrator.php:93-136 | the recursive method equals `HydrateSpec`, result and identity map |
| JsonApiHydration.FillRelationships | src/External/Libraries/JsonApi/JsonApiHydrator.php:109-133 | the outer loop equals `RelationshipsSpec` |
| JsonApiHydration.FillLinks | src/External/Libraries/JsonApi/JsonApiHydrator.php:110-132 | the inner loop equals `LinksSpec` |
| JsonApiHydration.AttachLink | src/External/Libraries/JsonApi/JsonApiHydrator.php:125-131 | equals `Attach` |
| JsonApiHydration.ResolveLink | src/External/Libraries/JsonApi/JsonApiHydrator.php:111-123 | equals `ResolveSpec` |
| JsonApiHydration.HydratePrimaryResource | src/External/Libraries/JsonApi/JsonApiHydrator.php:53-58 | the single resource is hydrated with a fresh identity map |
| JsonApiHydration.HydratePrimaryResources | src/External/Libraries/JsonApi/JsonApiHydrator.php:67-82 | every primary resource in order, under the first resource's type, one map shared by all |
| JsonApiHydration.HydrateEach | src/External/Libraries/JsonApi/JsonApiHydrator.php:70-78 | the loop builds the list of hydrations and remembers the first type |
| JsonApiHydration.Hydrate | src/External/Libraries/JsonApi/JsonApiHydrator.php:19-30 | the method equals `HydrateDocument` |
| JsonApiHydration.SnapshotShape | src/External/Libraries/JsonApi/JsonApiHydrator.php:145-157 | `id` and `type` come first, then the attributes with their last values |
| JsonApiHydration.HydratedIdentity | src/External/Libraries/JsonApi/JsonApiHydrator.php:145-157 | relationships never overwrite `id` or `type` |
| JsonApiHydration.EmptyDocument | src/External/Libraries/JsonApi/JsonApiHydrator.php:21-23 | no primary resources hydrate to the empty array |
| JsonApiHydration.SingleResourceDocument | src/External/Libraries/JsonApi/JsonApiHydrator.php:25-27 | one key, the resource's type, holding the resource with its `id` |
| JsonApiHydration.PrimariesIdentity | src/External/Libraries/JsonApi/JsonApiHydrator.php:67-82 | the i-th hydration carries the i-th resource's `id` and `type` |
| JsonApiHydration.CollectionDocument | src/External/Libraries/JsonApi/JsonApiHydrator.php:67-82 | one key, the first resource's type, holding every primary resource in order at indexes 0, 1, ... whatever its type |
| JsonApiHydration.LinkFromMap | src/External/Libraries/JsonApi/JsonApiHydrator.php:111 | a mapped link attaches the map's entry and hydrates nothing |
| JsonApiHydration.UnresolvedLinks | src/External/Libraries/JsonApi/JsonApiHydrator.php:121-123 | links resolved neither by the map nor by `included` change nothing |
| JsonApiHydration.ToManyUnresolvedAbsent | src/External/Libraries/JsonApi/JsonApiHydrator.php:125-131 | a to-many whose links all fail leaves its field absent |
| JsonApiHydration.ToManyAppendsInOrder | src/External/Libraries/JsonApi/JsonApiHydrator.php:125-131 | a to-many appends its resolved objects after the existing items, in link order |
| JsonApiHydration.SelfReference | src/External/Libraries/JsonApi/JsonApiHydrator.php:103-106 | a self-link gets the attribute-only snapshot saved before relationships are filled |
| JsonApiHydration.IncludedLinkHydrated | src/External/Libraries/JsonApi/JsonApiHydrator.php:113-120 | a link not in the identity map but present in `included` resolves to that resource's recursive hydration and the map it leaves |
| JsonApiHydration.ToOneIncludedLink | src/External/Libraries/JsonApi/JsonApiHydrator.php:111-128 | a to-one link to an unmapped included resource sets the field to that resource's hydration, whose snapshot is saved under the link's key; inside the field namespace the field keeps the resource's `id` and `type` |
| JsonApiHydration.Snapshot | src/External/Libraries/JsonApi/JsonApiHydrator.php:145-157 | reference definition of the attribute snapshot; `SnapshotShape` states its keys and values, `HydrateResultArray` is proved equal to it |
| JsonApiHydration.HydrateDocument | src/External/Libraries/JsonApi/JsonApiHydrator.php:19-30 | reference definition of `hydrate`; `EmptyDocument`, `SingleResourceDocument` and `CollectionDocument` state its three outcomes, `Hydrate` is proved equal to it |
| XmlRequestEncoding.TagPatternEquivalence | src/RequestEncoders/XmlRequestEncoder.php:243-248 | the tag test holds exactly when the name splits as the regular expression's three parts |
| XmlRequestEncoding.ValidTagStart | src/RequestEncoders/XmlRequestEncoder.php:243-248 | a valid tag is non-empty and starts with a letter or underscore |
| XmlRequestEncoding.PermissiveTags | src/RequestEncoders/XmlRequestEncoder.php:243-248 | `bad tag!` and `a:` pass; `""`, `1a` and `a b:c` fail |
| XmlRequestEncoding.ValidTagNotNumeric | src/RequestEncoders/XmlRequestEncoder.php:243-248 | a valid tag is never a numeric string |
| XmlRequestEncoding.IsValidXmlTag | src/RequestEncoders/XmlRequestEncoder.php:243-248 | reference definition of the tag test; `TagPatternEquivalence` proves it equal to the regular expression read literally |
| XmlRequestEncoding.IsXmlName | src/RequestEncoders/XmlRequestEncoder.php:163 | the DOM's own name check: the XML 1.0 `Name` production |
| XmlRequestEncoding.TagCharsMakeXmlName | src/RequestEncoders/XmlRequestEncoder.php:243-248 | a valid tag made only of letters, digits, `_`, `:`, `-` and `.` is a name the DOM accepts |
| XmlRequestEncoding.TagTestAdmitsDomRejected | src/RequestEncoders/XmlRequestEncoder.php:163 | `bad tag!` and `a:b c` pass the tag test but are not XML names; `data` and `a:` are |
| XmlRequestEncoding.XToString | src/RequestEncoders/XmlRequestEncoder.php:257-266 | booleans are `true`/`false`, strings and integers their string cast; only an object without string cast fails |
| XmlRequestEncoding.BooleansAreWords | src/RequestEncoders/XmlRequestEncoder.php:257-266 | `false` is not rendered like `null`, nor `true` like `1` |
| XmlRequestEncoding.SetAttributes | src/RequestEncoders/XmlRequestEncoder.php:168-184 | attributes are checked in order: the tag test, then the value's text, then the DOM's name check; on success every name passed both checks and is set |
| XmlRequestEncoding.CreateNode | src/RequestEncoders/XmlRequestEncoder.php:160-234 | a name the DOM refuses fails before anything else; a built node is an element with the given name |
| XmlRequestEncoding.AppendValue | src/RequestEncoders/XmlRequestEncoder.php:101-117 | a non-list value gives exactly one element |
| XmlRequestEncoding.Siblings | src/RequestEncoders/XmlRequestEncoder.php:104-111 | one element per item, all named after the parent key |
| XmlRequestEncoding.Encoded | src/RequestEncoders/XmlRequestEncoder.php:71-78 | the document root is an element named `data` |
| XmlRequestEncoding.AttributesBeforeValue | src/RequestEncoders/XmlRequestEncoder.php:168-206 | attributes are applied, then `@value` becomes the only text |
| XmlRequestEncoding.OneAttribute | src/RequestEncoders/XmlRequestEncoder.php:168-184 | one valid attribute becomes one attribute pair |
| XmlRequestEncoding.ValueStopsRecursion | src/RequestEncoders/XmlRequestEncoder.php:186-195 | a set `@value` is the node's only content; the other keys are ignored |
| XmlRequestEncoding.CDataStopsRecursion | src/RequestEncoders/XmlRequestEncoder.php:196-206 | without `@value`, a set `@cdata` is the only content |
| XmlRequestEncoding.NullMarkerIsInvalidName | src/RequestEncoders/XmlRequestEncoder.php:187-217 | a null `@value` is not set, so it is treated as a child key and rejected as a tag |
| XmlRequestEncoding.InvalidKeyReported | src/RequestEncoders/XmlRequestEncoder.php:209-217 | the first invalid child key is reported with its parent node |
| XmlRequestEncoding.ListBecomesSiblings | src/RequestEncoders/XmlRequestEncoder.php:104-111 | a list becomes one sibling element per item, in order |
| XmlRequestEncoding.ScalarIsTextElement | src/RequestEncoders/XmlRequestEncoder.php:228-233 | a scalar becomes an element holding its string form |
| XmlRequestEncoding.SingleDataRoot | src/RequestEncoders/XmlRequestEncoder.php:71-78 | a successful encoding has a single root named `data` |
| XmlRequestEncoding.DomRejectsKey | src/RequestEncoders/XmlRequestEncoder.php:101-117 | a key the DOM refuses fails as a single child and as the name of a list's items |
| XmlRequestEncoding.PermissiveTagFailsEncoding | src/RequestEncoders/XmlRequestEncoder.php:160-184 | a child key or an attribute named `bad tag!` passes the tag test yet makes the encoding fail in the DOM |
| XmlRequestEncoding.IsList | src/RequestEncoders/XmlRequestEncoder.php:104 | reference definition of the list test; `ListBecomesSiblings` states what a list becomes |
| XmlRequestEncoding.Children | src/RequestEncoders/XmlRequestEncoder.php:209-226 | reference definition of the key loop; `InvalidKeyReported` states its error, `AppendChildren` is proved equal to it |
| XmlRequestEncoding.ConvertedValue | src/RequestEncoders/XmlRequestEncoder.php:127-148 | non-arrays are unchanged; the empty array becomes the replacement; other arrays keep their length |
| XmlRequestEncoding.ConvertEmptyArrays | src/RequestEncoders/XmlRequestEncoder.php:127-148 | keys and order are kept, each value converted |
| XmlRequestEncoding.NoEmptyArraysLeft | src/RequestEncoders/XmlRequestEncoder.php:127-148 | no empty array is left at any depth |
| XmlRequestEncoding.ConvertIdempotent | src/RequestEncoders/XmlRequestEncoder.php:127-148 | converting twice is converting once |
| XmlRequestEncoding.ConvertEmptyArraysToString | src/RequestEncoders/XmlRequestEncoder.php:127-148 | the in-place loop equals `ConvertEmptyArrays` with `""` as the default replacement |
| XmlRequestEncoding.DecodeXml | src/RequestEncoders/XmlRequestEncoder.php:35-58 | fails exactly without a request or on unparsable XML; otherwise keeps the parsed keys |
| XmlRequestEncoding.XmlRequestEncoder.Decode | src/RequestEncoders/XmlRequestEncoder.php:35-58 | equals `DecodeXml` |
| XmlRequestEncoding.XmlRequestEncoder.Encode | src/RequestEncoders/XmlRequestEncoder.php:71-78 | a failure leaves a fresh document; on success the document root is the `data` tree and the response has Content-Type `application/xml` |
| XmlRequestEncoding.CreateXmlNode | src/RequestEncoders/XmlRequestEncoder.php:160-234 | equals `CreateNode` |
| XmlRequestEncoding.ApplyAttributes | src/RequestEncoders/XmlRequestEncoder.php:168-184 | the attribute loop equals `SetAttributes` |
| XmlRequestEncoding.AppendChildren | src/RequestEncoders/XmlRequestEncoder.php:209-226 | the child loop equals `Children` |
| XmlRequestEncoding.AppendXmlAttribute | src/RequestEncoders/XmlRequestEncoder.php:101-117 | equals `AppendValue` |
| XmlEncoding.CollectionToArray | src/Encoders/XmlEncoder.php:89-98 | the loop builds the list under the collection's resource key |
| XmlEncoding.Encode | src/Encoders/XmlEncoder.php:45-54 | equals `EncodeSpec` |
| XmlEncoding.EncodeError | src/Encoders/AbstractEncoder.php:71-74 | errors are encoded as `encode` does |
| XmlEncoding.ResponseCarriesDocument | src/Encoders/XmlEncoder.php:45-54 | the body is the converter's document or `""`; the status defaults to 200; Content-Type is `application/xml` |
| XmlEncoding.NonCollectionUnwrapped | src/Encoders/XmlEncoder.php:45-53 | a non-collection reaches the converter as normalised |
| XmlEncoding.CollectionWrappedInOrder | src/Encoders/XmlEncoder.php:89-98 | a collection becomes one pair: its resource key and a list of the same length and order, each item normalised at the root |
| XmlEncoding.NormalizedNotSerializable | src/Encoders/AbstractEncoder.php:114-129 | normalisation never yields a serializable object |
| XmlEncoding.RebuiltCollectionPublishedAsItems | src/Encoders/XmlEncoder.php:45-54 | the key is computed from the normalised data, so a rebuilt collection is always published as `items` |
| XmlEncoding.SerializableListNormalized | src/Encoders/AbstractEncoder.php:114-129 | a list of one serializable normalises to its `toArray` |
| XmlEncoding.SerializableItemsLoseTheirKey | src/Encoders/XmlEncoder.php:45-54 | serializables keyed `users` are still published under `items` |
| XmlEncoding.NullDocumentDecodesEmpty | src/Encoders/XmlEncoder.php:65-68 | a converter giving null decodes to `[]` |
| XmlEncoding.Wrapped | src/Encoders/XmlEncoder.php:89-98 | reference definition of `collectionToArray`; `CollectionWrappedInOrder` states its shape, `CollectionToArray` is proved equal to it |
| XmlEncoding.ConverterInput | src/Encoders/XmlEncoder.php:45-53 | reference definition of what reaches the converter; `NonCollectionUnwrapped` and `CollectionWrappedInOrder` state its two cases |
| XmlEncoding.EncodeSpec | src/Encoders/XmlEncoder.php:45-54 | reference definition of `encode`; `ResponseCarriesDocument` states the response, `Encode` is proved equal to it |
| XmlEncoding.XmlContentDecoder | src/Encoders/XmlEncoder.php:65-68 | reference definition of the content decoder; `NullDocumentDecodesEmpty` states its null case |
| JsonApiEncoding.FallbackOutput | src/Encoders/JsonApiEncoder.php:163-184 | only the two fallback closures are modelled |
| JsonApiEncoding.EmptyExactly | src/Encoders/JsonApiEncoder.php:193-196 | data is empty exactly when what it contributes (`toResponseArray`, `toArray`, its iteration or its cast) is empty |
| JsonApiEncoding.IsEmpty | src/Encoders/JsonApiEncoder.php:193-196 | reference definition of emptiness; `EmptyExactly` states when it holds |
| JsonApiEncoding.ResourceClassOf | src/Encoders/JsonApiEncoder.php:141-154 | the collection interface gives Collection; other serializables Item; plain data Collection exactly when its cast is a collection |
| JsonApiEncoding.TransformerFor | src/Encoders/JsonApiEncoder.php:163-184 | a supplied instance is used as it is, a supplied class is instantiated, otherwise the generic normaliser |
| JsonApiEncoding.EncodedResource | src/Encoders/JsonApiEncoder.php:67-74 | the null resource exactly for empty data; otherwise a resource of the data under its resource key |
| JsonApiEncoding.Encode | src/Encoders/JsonApiEncoder.php:211-221 | a failed serialisation gives an empty body; Content-Type is `application/vnd.api+json` |
| JsonApiEncoding.EmptyDataIsNullDocument | src/Encoders/JsonApiEncoder.php:125-132 | every empty value gets the null document |
| JsonApiEncoding.NonEmptyDataIsResource | src/Encoders/JsonApiEncoder.php:67-74 | non-empty data is rendered as its resource; `null` is never such data |
| JsonApiEncoding.ScalarIsItem | src/Encoders/JsonApiEncoder.php:148-153 | a scalar is a non-empty Item named `items` with the generic normaliser |
| JsonApiEncoding.CollectionInterfaceBeforeSerializable | src/Encoders/JsonApiEncoder.php:141-146 | a collection-interface serializable is a Collection with its own transformer |
| JsonApiEncoding.EncodeErrorAsWritten | src/Encoders/JsonApiEncoder.php:81-90 | fails exactly on non-array data, which `isCollection(array)` rejects |
| JsonApiEncoding.ErrorsDocument | src/Encoders/JsonApiEncoder.php:81-90 | one pair, `errors`, holding an array |
| JsonApiEncoding.EncodeError | src/Encoders/JsonApiEncoder.php:81-90 | the body is the encoded errors document, or `""` on failure; Content-Type is `application/vnd.api+json` |
| JsonApiEncoding.ErrorsWrapping | src/Encoders/JsonApiEncoder.php:81-90 | a collection is published as normalised; anything else is wrapped in a one-element list |
| JsonApiEncoding.PlainErrorListUnchanged | src/Encoders/JsonApiEncoder.php:81-90 | a plain list of error arrays is published unchanged |
| JsonApiEncoding.EncodeErrorRejectsObjects | src/Encoders/JsonApiEncoder.php:81-90 | an object given to `encodeError` as written is a type error |
| JsonApiEncoding.EncodeErrorAgreesOnArrays | src/Encoders/JsonApiEncoder.php:81-90 | on arrays the corrected version is the code as written |
| JsonApiRequestEncoding.RequestResourceClass | src/RequestEncoders/JsonApiRequestEncoder.php:123-136 | every serializable is an Item; plain data is a Collection exactly when its cast passes the request test |
| JsonApiRequestEncoding.RequestTransformer | src/RequestEncoders/JsonApiRequestEncoder.php:145-162 | a supplied transformer is always instantiated anew; otherwise the `toArray`-or-cast closure |
| JsonApiRequestEncoding.RequestResource | src/RequestEncoders/JsonApiRequestEncoder.php:65-72 | the null resource exactly for empty data; otherwise the data under its resource key |
| JsonApiRequestEncoding.EncodeRequest | src/RequestEncoders/JsonApiRequestEncoder.php:191-201 | fails exactly when serialisation fails; otherwise the document with Content-Type `application/vnd.api+json` |
| JsonApiRequestEncoding.EmptinessComparedWithResponseEncoder | src/RequestEncoders/JsonApiRequestEncoder.php:171-176 | request emptiness implies response emptiness, but not conversely (`null`, an empty traversable) |
| JsonApiRequestEncoding.IsEmptyRequest | src/RequestEncoders/JsonApiRequestEncoder.php:171-176 | reference definition of request emptiness; `EmptinessComparedWithResponseEncoder` relates it to the response encoder's |
| JsonApiRequestEncoding.EmptyRequestIsNullDocument | src/RequestEncoders/JsonApiRequestEncoder.php:107-114 | every empty value gets the null document |
| JsonApiRequestEncoding.CollectionInterfaceIsItem | src/RequestEncoders/JsonApiRequestEncoder.php:123-136 | a collection-interface serializable is an Item here but a Collection for the response encoder |
| JsonApiRequestEncoding.FallbacksCompared | src/RequestEncoders/JsonApiRequestEncoder.php:145-162 | the two fallback closures agree except on objects with `toResponseArray` |
| JsonApiRequestEncoding.FailedEncodingCompared | src/RequestEncoders/JsonApiRequestEncoder.php:191-201 | where the response encoder gives `""` the request encoder fails |
| FormatsHelping.MimeTypesOf | src/Helpers/FormatsHelper.php:20 | a non-array entry has no MIME types |
| FormatsHelping.ListOf | src/Helpers/FormatsHelper.php:19-23 | the values in order, keyed 0, 1, ... |
| FormatsHelping.NormalizeFormats | src/Helpers/FormatsHelper.php:15-26 | the nested loops build `FormatsSpec` |
| FormatsHelping.AppendMimeTypes | src/Helpers/FormatsHelper.php:19-23 | the inner loop adds one format's list after the existing formats |
| FormatsHelping.FormatsInOrder | src/Helpers/FormatsHelper.php:19-25 | the output keys are the formats with MIME types, in input order; none is added |
| FormatsHelping.FormatsLookup | src/Helpers/FormatsHelper.php:19-23 | each format maps to the list of its MIME types in order; one without MIME types has no entry |
| FormatsHelping.ScalarMimeType | src/Helpers/FormatsHelper.php:20 | a scalar `mime_types` value becomes a one-element list |
| FormatsHelping.FormatsSpec | src/Helpers/FormatsHelper.php:15-26 | reference definition of `normalizeFormats`; `FormatsInOrder` and `FormatsLookup` state its keys and values, `NormalizeFormats` is proved equal to it |
| SymfonyConfiguration.NormalizedEntry | src/Bridge/Symfony/DependencyInjection/Configuration.php:63-69 | an entry with `mime_types` set is kept; any other is wrapped as its `mime_types` |
| SymfonyConfiguration.NormalizedConfig | src/Bridge/Symfony/DependencyInjection/Configuration.php:57-72 | each entry normalised under its own key, in order |
| SymfonyConfiguration.NormalizeSupported | src/Bridge/Symfony/DependencyInjection/Configuration.php:57-72 | the in-place loop equals `NormalizedConfig` |
| SymfonyConfiguration.KeysKept | src/Bridge/Symfony/DependencyInjection/Configuration.php:63-71 | the same format keys, none added or dropped |
| SymfonyConfiguration.FullyNormalizedIsFixedPoint | src/Bridge/Symfony/DependencyInjection/Configuration.php:64-66 | a fully normalised configuration is a fixed point |
| SymfonyConfiguration.NormalizationIdempotent | src/Bridge/Symfony/DependencyInjection/Configuration.php:63-69 | without `null` entries the closure is idempotent; a `null` entry is wrapped again on every run |
| SymfonyConfiguration.ShorthandSameMimeTypes | tests/Bridge/Symfony/DependencyInjection/ConfigurationTest.php:34-56 | a shorthand list yields the same MIME types as the written-out form |
| SymfonyConfiguration.DefaultFormatsTable | src/Bridge/Symfony/DependencyInjection/Configuration.php:16-19 | the defaults are normalised and give json → `application/json`, xml → `application/xml`, `text/xml` |
| FormattedResponse.NewFormattedApiResponse | src/FormattedApiResponse.php:35-40 | the getters return the content, the status or 200, and the headers or `[]` |
| FormattedResponse.DefaultsAreExplicitValues | src/FormattedApiResponse.php:35-70 | omitting status and headers is the same as passing 200 and `[]`; supplied values come back unchanged |

## Left out

- Laravel and Symfony wiring are not part of this model. That is the middleware, service provider, response trait, bundle extension and `getConfigTreeBuilder`. They only call the modelled code.
- PSR-7 factories and the thin JSON and URL-encoded encoders are not part of this model. They wrap `json_encode`, `json_decode`, `http_build_query`, `parse_str` and `rawurlencode`, whose behaviour lies outside the library.
- Some third-party behaviour is a parameter and is not modelled: Fractal's serialiser, `json_encode`, `XmlConverter`, `simplexml` parsing, DOM rendering, Doctrine's pluralisation and PCRE matching. So JSON, XML and JSON:API output is never checked byte by byte. `Registry.FirstMatch` is stated for any matcher, with case-insensitive substring matching left to the matcher.
- `JsonApiConverter` (JSON:API parsing) is not part of this model. The hydrator works on an abstract document of resources, relationships and links.
- Reflection (`class_exists`, `is_subclass_of`) is reduced to two sets of class names. Exception classes are reduced to error datatypes and their status codes.
- The transformers a serializable supplies are opaque. `JsonApiEncoding.FallbackOutput` gives output only for the two library closures.
- JSON:API `decodeRequestContent` converters are not part of this model. The XML one appears as `XmlEncoding.XmlContentDecoder`.
- `FormatsHelping.MimeTypesOf`: when a format's value is a string, PHP reads `$value['mime_types']` as a string offset. The model reads any non-array entry as having no MIME types.
- `FormatsHelping.NormalizeFormats` and `SymfonyConfiguration.NormalizeSupported` require distinct keys, which every PHP array has.
- PHP's integer-key renumbering in `array_merge` is modelled only as far as `response()` uses it. Caller headers are string-keyed.
- `JsonApiHydration.HydrateSpec`, `RelationshipsSpec`, `LinksSpec`, `ResolveSpec`, `PrimariesSpec` and `HydrateDocument` are total, but they match PHP only inside JSON:API's field namespace (section 5.2.2 of JSON:API 1.0). There no attribute is named `id` or `type`, and no attribute shares its name with a relationship. The lemmas that need the first half require `FieldNamespace`; the second half is required nowhere.
- `JsonApiHydration.HydrateResource` is proved equal to `HydrateSpec` and has the same gap. Outside the namespace, PHP keys the identity map by the saved array's own `type` and `id` entries, which an attribute of that name overwrites, and its recursion need not terminate. The model keys the map by the resource's own type and id.
- `JsonApiHydration.SaveObjectToMap` keys by the resource's type and id, not by the `type` and `id` entries of the array it saves. The two agree inside the field namespace, where `SnapshotShape` shows those entries are the resource's own.
- `JsonApiHydration.Attach` (and `AttachLink`, proved equal to it) follows PHP only when the relationship's field holds nothing or a list numbered 0, 1, ... On a field an attribute of the same name already holds, PHP's `$result[$name][] = $object` throws an `Error` for a string or an object, refuses `true` or a number (a warning in PHP 7, an `Error` in PHP 8), and appends after the largest integer key of an array with gaps. The model treats a non-array as empty and appends at the array's length.
- `XmlRequestEncoding.IsXmlName` is exact for ASCII names. Other characters follow the XML 1.0 fifth-edition `Name` ranges, while libxml2's check uses the fourth edition's letter, digit, combining and extender tables, so the two differ on some non-ASCII characters.
- `XmlRequestEncoding.XmlRequestEncoder.Decode` follows the code. It reads the request body only, not content set with `setContent`.
- PHP 7 semantics are assumed where the versions differ. `method_exists` on a value that is neither an object nor a string (src/Encoders/AbstractEncoder.php:118 and :179) is false here, as in PHP 7; PHP 8 throws a `TypeError` for it. A string given to `method_exists` is treated as having no `toResponseArray`, although PHP would look up a class of that name.
- Floating-point values are not modelled. PHP values here are null, booleans, integers, strings, arrays and objects.
- `FormattedApiResponse`'s getters restate the stored fields. The row for `NewFormattedApiResponse` carries their contract.

## Findings

| source | as written | input that shows it | evidently intended | confidence | as-written member | corrected member |
|---|---|---|---|---|---|---|
| src/Encoders/JsonApiEncoder.php:81-90 | `encodeError` passes the raw `$data` to `isCollection(array $data)` under `strict_types=1` | any object (the error tests feed objects, tests/Encoders/RequestEncodersTest.php:49-58), or a scalar | test the `(array)` cast, as `getResourceClass` does, and publish an `errors` document for every value | not executed | JsonApiEncoding.EncodeErrorAsWritten | JsonApiEncoding.EncodeError |
