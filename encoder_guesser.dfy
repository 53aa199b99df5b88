/**
 * The response/request encoder guesser: picks an encoder for a request from
 * its headers and a registry of encoder class => MIME patterns.
 *
 * The registry is validated, and the MIME table rebuilt from it, on every
 * guess. The first usable header (present, neither empty nor the any-type
 * wildcard) decides;
 * its value is matched against the patterns in table order. Without a usable
 * header the default encoder is used.
 */
module EncoderGuessing {
  import opened Php
  import opened Http
  import opened Registry

  /** Which public entry point is guessing: each reports an unmatched MIME type its own way. */
  datatype EntryPoint = AnyFormat | RequestFormat | ResponseFormat

  function Unsupported(entry: EntryPoint, mime: string, supported: seq<string>): GuessError
  {
    match entry
    case AnyFormat => UnsupportedRequestFormat(mime, supported)
    case RequestFormat => UnsupportedContentTypeHeader(mime, supported)
    case ResponseFormat => UnsupportedAcceptHeader(mime, supported)
  }

  /** A header whose first value the guesser will use. */
  predicate Usable(values: seq<string>) {
    !(FirstOrEmpty(values) == "*/*" || FirstOrEmpty(values) == "" || |values| == 0)
  }

  /** The first value of the first usable header among `names`, in order. */
  function FirstUsableHeader(request: ServerRequest, names: seq<string>): Option<string>
  {
    if names == [] then None
    else if Usable(GetHeader(request, names[0])) then Some(GetHeader(request, names[0])[0])
    else FirstUsableHeader(request, names[1..])
  }

  /** `names` without `h`, in order. */
  function Without(names: seq<string>, h: string): (r: seq<string>)
    ensures forall x :: x in r <==> x in names && x != h
  {
    if names == [] then []
    else (if names[0] == h then [] else [names[0]]) + Without(names[1..], h)
  }

  /** The header names for an entry point: its own header first, then the other defaults. */
  function WithFallbacks(primary: string): seq<string>
  {
    [primary] + Without(DefaultHeaders, primary)
  }

  /** What happens once a MIME type has been read: match it, then instantiate. */
  function Dispatch(table: seq<(string, string)>, mime: string, request: ServerRequest, entry: EntryPoint,
                    matches: Matcher, classes: ClassTable): Result<Encoder, GuessError>
  {
    match FirstMatch(table, mime, matches)
    case None => Err(Unsupported(entry, mime, Keys(table)))
    case Some(encoderClass) => Instantiate(encoderClass, Some(request), classes.existing, classes.encoders)
  }

  /** The outcome of a guess over the given header names. */
  function Guess(formats: Formats, defaultEncoder: string, request: ServerRequest, names: seq<string>,
                 entry: EntryPoint, matches: Matcher, classes: ClassTable): Result<Encoder, GuessError>
  {
    match FirstFault(formats)
    case Some(fault) => Err(InvalidFormatsConfig(fault))
    case None =>
      match FirstUsableHeader(request, names)
      case None => Instantiate(defaultEncoder, Some(request), classes.existing, classes.encoders)
      case Some(mime) => Dispatch(BuildTable([], Groups(formats)), mime, request, entry, matches, classes)
  }

  class EncoderGuesser {
    const formats: Formats
    const defaultEncoder: string
    /** MIME pattern => encoder class; filled on the first guess and rebuilt on each one. */
    var mimeTypes: seq<(string, string)>

    ghost predicate Valid()
      reads this
    {
      mimeTypes == [] || (ValidFormats(formats) && mimeTypes == BuildTable([], Groups(formats)))
    }

    constructor (formats: Formats, defaultEncoder: Option<string>)
      ensures this.formats == formats
      ensures defaultEncoder.None? ==> this.defaultEncoder == JsonEncoderClass
      ensures defaultEncoder.Some? ==> this.defaultEncoder == defaultEncoder.value
      ensures mimeTypes == [] && Valid()
    {
      this.formats := formats;
      this.defaultEncoder := defaultEncoder.GetOr(JsonEncoderClass);
      mimeTypes := [];
    }

    /** The default encoder, without any validation of the registry. */
    method DefaultEncoder(request: Option<ServerRequest>, classes: ClassTable) returns (r: Result<Encoder, GuessError>)
      ensures r == Instantiate(defaultEncoder, request, classes.existing, classes.encoders)
    {
      r := Instantiate(defaultEncoder, request, classes.existing, classes.encoders);
    }

    method GuessEncoder(request: ServerRequest, headers: Option<seq<string>>, matches: Matcher, classes: ClassTable)
      returns (r: Result<Encoder, GuessError>)
      requires Valid()
      modifies this`mimeTypes
      ensures Valid()
      ensures r == Guess(formats, defaultEncoder, request, headers.GetOr(DefaultHeaders), AnyFormat, matches, classes)
    {
      r := GuessFor(request, headers.GetOr(DefaultHeaders), AnyFormat, matches, classes);
    }

    method GuessRequestEncoder(request: ServerRequest, matches: Matcher, classes: ClassTable)
      returns (r: Result<Encoder, GuessError>)
      requires Valid()
      modifies this`mimeTypes
      ensures Valid()
      ensures r == Guess(formats, defaultEncoder, request, WithFallbacks("content-type"), RequestFormat, matches, classes)
    {
      var names := GetHeaderWithFallbacks("content-type");
      r := GuessFor(request, names, RequestFormat, matches, classes);
    }

    method GuessResponseEncoder(request: ServerRequest, matches: Matcher, classes: ClassTable)
      returns (r: Result<Encoder, GuessError>)
      requires Valid()
      modifies this`mimeTypes
      ensures Valid()
      ensures r == Guess(formats, defaultEncoder, request, WithFallbacks("accept"), ResponseFormat, matches, classes)
    {
      var names := GetHeaderWithFallbacks("accept");
      r := GuessFor(request, names, ResponseFormat, matches, classes);
    }

    /** The steps the three entry points share: read the MIME type, look up its encoder, instantiate it. */
    method GuessFor(request: ServerRequest, names: seq<string>, entry: EntryPoint, matches: Matcher, classes: ClassTable)
      returns (r: Result<Encoder, GuessError>)
      requires Valid()
      modifies this`mimeTypes
      ensures Valid()
      ensures r == Guess(formats, defaultEncoder, request, names, entry, matches, classes)
    {
      var mime := GuessMimeType(request, names);
      if mime.Err? {
        return Err(InvalidFormatsConfig(mime.error));
      }
      var encoderClass := GetEncoderClass(mime.value, matches);
      if encoderClass.None? {
        return Err(Unsupported(entry, mime.value.value, Keys(mimeTypes)));
      }
      r := Instantiate(encoderClass.value, Some(request), classes.existing, classes.encoders);
    }

    /** The pattern table's encoder for a MIME type; the default encoder when there is none. */
    method GetEncoderClass(requested: Option<string>, matches: Matcher) returns (r: Option<string>)
      ensures requested.None? ==> r == Some(defaultEncoder)
      ensures requested.Some? ==> r == FirstMatch(mimeTypes, requested.value, matches)
    {
      if requested.None? {
        return Some(defaultEncoder);
      }
      var i := 0;
      while i < |mimeTypes|
        invariant 0 <= i <= |mimeTypes|
        invariant FirstMatch(mimeTypes, requested.value, matches) == FirstMatch(mimeTypes[i..], requested.value, matches)
      {
        assert mimeTypes[i..][1..] == mimeTypes[i + 1..];
        if matches(mimeTypes[i].0, requested.value) {
          return Some(mimeTypes[i].1);
        }
        i := i + 1;
      }
      return None;
    }

    static method GetHeaderWithFallbacks(primary: string) returns (names: seq<string>)
      ensures names == WithFallbacks(primary)
    {
      names := [primary];
      var i := 0;
      while i < |DefaultHeaders|
        invariant 0 <= i <= |DefaultHeaders|
        invariant WithFallbacks(primary) == names + Without(DefaultHeaders[i..], primary)
      {
        assert DefaultHeaders[i..][1..] == DefaultHeaders[i + 1..];
        if DefaultHeaders[i] != primary {
          names := names + [DefaultHeaders[i]];
        }
        i := i + 1;
      }
    }

    /**
     * Validates the registry and rebuilds the table, then reads the first
     * usable header. A validation fault leaves the table as it was.
     */
    method GuessMimeType(request: ServerRequest, names: seq<string>) returns (r: Result<Option<string>, ConfigFault>)
      requires Valid()
      modifies this`mimeTypes
      ensures Valid()
      ensures FirstFault(formats).Some? ==> r == Err(FirstFault(formats).value) && mimeTypes == old(mimeTypes)
      ensures FirstFault(formats).None? ==>
        r == Ok(FirstUsableHeader(request, names)) && mimeTypes == BuildTable([], Groups(formats))
    {
      var fault := ValidateFormats(formats);
      if fault.Some? {
        return Err(fault.value);
      }
      SetMimeTypes(formats);
      TableRebuildIdempotent(Groups(formats));
      var mime := ReadMimeType(request, names);
      r := Ok(mime);
    }

    /** The header loop of `guessMimeType`: the first value that is neither empty nor the any-type wildcard. */
    static method ReadMimeType(request: ServerRequest, names: seq<string>) returns (mime: Option<string>)
      ensures mime == FirstUsableHeader(request, names)
    {
      var i := 0;
      while i < |names|
        invariant 0 <= i <= |names|
        invariant FirstUsableHeader(request, names) == FirstUsableHeader(request, names[i..])
      {
        assert names[i..][1..] == names[i + 1..];
        var header := GetHeader(request, names[i]);
        var value := FirstOrEmpty(header);
        if value == "*/*" || value == "" || |header| == 0 {
          i := i + 1;
          continue;
        }
        return Some(value);
      }
      return None;
    }

    /** Adds every pattern of the registry to the table; the table is not cleared first. */
    method SetMimeTypes(formats: Formats)
      requires WellTyped(formats)
      modifies this`mimeTypes
      ensures mimeTypes == BuildTable(old(mimeTypes), Groups(formats))
    {
      ghost var groups := Groups(formats);
      var i := 0;
      while i < |formats|
        invariant 0 <= i <= |formats|
        invariant BuildTable(old(mimeTypes), groups) == PutAll(mimeTypes, Inverted(groups[i..]))
      {
        var encoder, types := formats[i].0.s, formats[i].1.types;
        FormatsStep(formats, mimeTypes, i);
        AddPatterns(types, encoder);
        i := i + 1;
      }
      assert groups[i..] == [];
    }

    /** The inner loop of `setMimeTypes`: every pattern of one encoder is mapped to it. */
    method AddPatterns(types: seq<string>, encoder: string)
      modifies this`mimeTypes
      ensures mimeTypes == PutAll(old(mimeTypes), Tag(types, encoder))
    {
      var j := 0;
      assert types[0..] == types;
      while j < |types|
        invariant 0 <= j <= |types|
        invariant PutAll(old(mimeTypes), Tag(types, encoder)) == PutAll(mimeTypes, Tag(types[j..], encoder))
      {
        assert types[j..][0] == types[j] && types[j..][1..] == types[j + 1..];
        PutAllStep(mimeTypes, (types[j], encoder), Tag(types[j + 1..], encoder));
        mimeTypes := Put(mimeTypes, types[j], encoder);
        j := j + 1;
      }
      assert types[j..] == [];
    }
  }

  // ---------------------------------------------------------------------------
  // Properties of a guess
  // ---------------------------------------------------------------------------

  /** The first usable header decides, whatever the later headers hold. */
  lemma {:induction false} FirstUsableIsEarliest(request: ServerRequest, names: seq<string>, i: int)
    requires 0 <= i < |names| && Usable(GetHeader(request, names[i]))
    requires forall j :: 0 <= j < i ==> !Usable(GetHeader(request, names[j]))
    ensures FirstUsableHeader(request, names) == Some(GetHeader(request, names[i])[0])
  {
    if i > 0 {
      FirstUsableIsEarliest(request, names[1..], i - 1);
    }
  }

  lemma {:induction false} NoUsableHeader(request: ServerRequest, names: seq<string>)
    requires forall j :: 0 <= j < |names| ==> !Usable(GetHeader(request, names[j]))
    ensures FirstUsableHeader(request, names).None?
  {
    if names != [] {
      NoUsableHeader(request, names[1..]);
    }
  }

  /** Header names that differ only in ASCII case find the same first usable value. */
  lemma {:induction false} FirstUsableIgnoresCase(request: ServerRequest, names: seq<string>, others: seq<string>)
    requires |names| == |others| && forall j :: 0 <= j < |names| ==> Lower(names[j]) == Lower(others[j])
    ensures FirstUsableHeader(request, names) == FirstUsableHeader(request, others)
  {
    if names != [] {
      FirstUsableIgnoresCase(request, names[1..], others[1..]);
    }
  }

  /**
   * The caller's header names are matched case-insensitively: asking for
   * `Accept` guesses what asking for `accept` guesses.
   */
  lemma GuessIgnoresHeaderCase(formats: Formats, defaultEncoder: string, request: ServerRequest,
                               names: seq<string>, others: seq<string>, entry: EntryPoint, matches: Matcher, classes: ClassTable)
    requires |names| == |others| && forall j :: 0 <= j < |names| ==> Lower(names[j]) == Lower(others[j])
    ensures Guess(formats, defaultEncoder, request, names, entry, matches, classes)
         == Guess(formats, defaultEncoder, request, others, entry, matches, classes)
    ensures Guess(formats, defaultEncoder, request, ["Accept"], entry, matches, classes)
         == Guess(formats, defaultEncoder, request, ["accept"], entry, matches, classes)
  {
    FirstUsableIgnoresCase(request, names, others);
    LowerIgnoresCase("Accept", "accept");
    FirstUsableIgnoresCase(request, ["Accept"], ["accept"]);
  }

  /** An invalid registry is reported before any header is read, whatever the request. */
  lemma GuessValidatesFirst(formats: Formats, defaultEncoder: string, request: ServerRequest, names: seq<string>,
                            entry: EntryPoint, matches: Matcher, classes: ClassTable)
    requires !ValidFormats(formats)
    ensures Guess(formats, defaultEncoder, request, names, entry, matches, classes).Err?
    ensures Guess(formats, defaultEncoder, request, names, entry, matches, classes).error
            == InvalidFormatsConfig(FirstFault(formats).value)
  {
  }

  /** With no usable header the default encoder is used and nothing is matched. */
  lemma GuessFallsBackToDefault(formats: Formats, defaultEncoder: string, request: ServerRequest, names: seq<string>,
                                entry: EntryPoint, matches: Matcher, classes: ClassTable)
    requires ValidFormats(formats)
    requires forall j :: 0 <= j < |names| ==> !Usable(GetHeader(request, names[j]))
    ensures Guess(formats, defaultEncoder, request, names, entry, matches, classes)
            == Instantiate(defaultEncoder, Some(request), classes.existing, classes.encoders)
  {
    NoUsableHeader(request, names);
  }

  /**
   * The first usable header decides the outcome on its own: the guess is the
   * dispatch of its first value, so later headers are never consulted, even
   * when that value matches no pattern.
   */
  lemma GuessDecidedByFirstUsable(formats: Formats, defaultEncoder: string, request: ServerRequest,
                                  names: seq<string>, i: int, entry: EntryPoint, matches: Matcher, classes: ClassTable)
    requires ValidFormats(formats)
    requires 0 <= i < |names| && Usable(GetHeader(request, names[i]))
    requires forall j :: 0 <= j < i ==> !Usable(GetHeader(request, names[j]))
    ensures Guess(formats, defaultEncoder, request, names, entry, matches, classes)
            == Dispatch(BuildTable([], Groups(formats)), GetHeader(request, names[i])[0], request, entry, matches, classes)
  {
    FirstUsableIsEarliest(request, names, i);
  }

  /**
   * An unmatched MIME type raises the entry point's own error, which lists
   * every configured pattern exactly once; the two header-specific errors
   * answer 406.
   */
  lemma UnsupportedListsEveryPattern(formats: Formats, request: ServerRequest, mime: string, entry: EntryPoint,
                                     matches: Matcher, classes: ClassTable)
    requires ValidFormats(formats)
    requires forall p :: p in Keys(BuildTable([], Groups(formats))) ==> !matches(p, mime)
    ensures var table := BuildTable([], Groups(formats));
      && Dispatch(table, mime, request, entry, matches, classes) == Err(Unsupported(entry, mime, Keys(table)))
      && (forall p :: p in Keys(table) <==> Listed(Groups(formats), p))
      && UniqueKeys(table)
      && (Unsupported(entry, mime, Keys(table)).NotAcceptable() <==> entry != AnyFormat)
  {
    TableKeys(Groups(formats));
    KeysIndex(BuildTable([], Groups(formats)));
  }

  /** The encoder of the earliest matching pattern is instantiated. */
  lemma DispatchFirstMatch(table: seq<(string, string)>, mime: string, request: ServerRequest, entry: EntryPoint,
                           matches: Matcher, classes: ClassTable, i: int)
    requires 0 <= i < |table| && matches(table[i].0, mime)
    requires forall j :: 0 <= j < i ==> !matches(table[j].0, mime)
    ensures Dispatch(table, mime, request, entry, matches, classes)
            == Instantiate(table[i].1, Some(request), classes.existing, classes.encoders)
  {
    FirstMatchIsEarliest(table, mime, matches, i);
  }

  /** A pattern listed under two encoders belongs to the later one. */
  lemma PatternOwnedByLastEncoder(formats: Formats, pattern: string, j: int)
    requires ValidFormats(formats)
    requires 0 <= j < |formats| && pattern in formats[j].1.types
    requires forall k :: j < k < |formats| ==> pattern !in formats[k].1.types
    ensures Get(BuildTable([], Groups(formats)), pattern) == Some(formats[j].0.s)
  {
    TableOwner(Groups(formats), pattern, j);
  }

  /** Requests read Content-Type before Accept; responses read Accept before Content-Type. */
  lemma HeaderOrders()
    ensures WithFallbacks("content-type") == ["content-type", "accept"]
    ensures WithFallbacks("accept") == ["accept", "content-type"]
  {
  }

  /** The primary header comes first and is not repeated; every default header is still consulted. */
  lemma FallbacksShape(primary: string)
    ensures WithFallbacks(primary)[0] == primary
    ensures primary !in WithFallbacks(primary)[1..]
    ensures forall h :: h in DefaultHeaders ==> h in WithFallbacks(primary)
  {
    assert WithFallbacks(primary)[1..] == Without(DefaultHeaders, primary);
  }
}
