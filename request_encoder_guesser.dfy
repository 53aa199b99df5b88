/**
 * The older request encoder guesser. It validates the registry once, when it
 * is built, and falls back to the first configured encoder. Headers are read
 * Accept first, then Content-Type; a header is skipped only when it is absent
 * or its first value is the any-type wildcard, and the first header not
 * skipped decides.
 */
module RequestEncoderGuessing {
  import opened Php
  import opened Http
  import opened Registry

  /** A header the request guesser passes over. An empty string is not passed over. */
  predicate Skipped(values: seq<string>) {
    |values| == 0 || values[0] == "*/*"
  }

  /** The first value of the first header among `names` that is not skipped. */
  function DecidingHeader(request: ServerRequest, names: seq<string>): Option<string>
  {
    if names == [] then None
    else if Skipped(GetHeader(request, names[0])) then DecidingHeader(request, names[1..])
    else Some(GetHeader(request, names[0])[0])
  }

  /** The outcome of `guessEncoder` for a guesser with this table and fallback. */
  function RequestGuess(table: seq<(string, string)>, fallback: string, request: ServerRequest,
                        matches: Matcher, classes: ClassTable): Result<Encoder, GuessError>
  {
    match DecidingHeader(request, DefaultHeaders)
    case None => Instantiate(fallback, Some(request), classes.existing, classes.requestEncoders)
    case Some(mime) =>
      match FirstMatch(table, mime, matches)
      case None => Err(UnsupportedRequestFormat(mime, Keys(table)))
      case Some(encoderClass) => Instantiate(encoderClass, Some(request), classes.existing, classes.requestEncoders)
  }

  /** The fallback after the registry loop: the first name seen while none was set. */
  function FirstAssigned(current: Option<string>, groups: seq<(string, seq<string>)>): Option<string>
    decreases |groups|
  {
    if groups == [] then current
    else FirstAssigned(if current.None? then Some(groups[0].0) else current, groups[1..])
  }

  class RequestEncoderGuesser {
    ghost const formats: Formats
    /** The fallback encoder: the first registry name. */
    var defaultEncoder: Option<string>
    /** MIME pattern => encoder class. */
    var mimeTypes: seq<(string, string)>

    ghost predicate Valid()
      reads this
    {
      && ValidFormats(formats)
      && defaultEncoder == Some(formats[0].0.s)
      && mimeTypes == BuildTable([], Groups(formats))
    }

    /** Building a guesser from a registry validates it first; an invalid registry is refused. */
    static method Create(formats: Formats) returns (r: Result<RequestEncoderGuesser, ConfigFault>)
      ensures r.Err? <==> !ValidFormats(formats)
      ensures r.Err? ==> r.error == FirstFault(formats).value
      ensures r.Ok? ==> fresh(r.value) && r.value.formats == formats && r.value.Valid()
    {
      var fault := ValidateFormats(formats);
      if fault.Some? {
        return Err(fault.value);
      }
      var guesser := new RequestEncoderGuesser(formats);
      return Ok(guesser);
    }

    /** The constructor past validation: fill the table and the fallback. */
    constructor (formats: Formats)
      requires ValidFormats(formats)
      ensures this.formats == formats && Valid()
    {
      this.formats := formats;
      defaultEncoder := None;
      mimeTypes := [];
      new;
      SetMimeTypes(formats);
      FirstAssignedIsFirstName(formats);
    }

    /** Always the JSON request encoder, whatever the registry holds. */
    method DefaultEncoder(request: Option<ServerRequest>) returns (e: Encoder)
      ensures e == Encoder(JsonRequestEncoderClass, request)
    {
      e := Encoder(JsonRequestEncoderClass, request);
    }

    method GuessEncoder(request: ServerRequest, matches: Matcher, classes: ClassTable) returns (r: Result<Encoder, GuessError>)
      requires Valid()
      ensures r == RequestGuess(mimeTypes, defaultEncoder.value, request, matches, classes)
    {
      var names := DefaultHeaders;
      var i := 0;
      while i < |names|
        invariant 0 <= i <= |names|
        invariant DecidingHeader(request, names) == DecidingHeader(request, names[i..])
      {
        assert names[i..][1..] == names[i + 1..];
        var header := GetHeader(request, names[i]);
        if |header| == 0 || header[0] == "*/*" {
          i := i + 1;
          continue;
        }
        var mime := header[0];
        var encoderClass := GetEncoderClass(mime, matches);
        if encoderClass.None? {
          return Err(UnsupportedRequestFormat(mime, Keys(mimeTypes)));
        }
        return Instantiate(encoderClass.value, Some(request), classes.existing, classes.requestEncoders);
      }
      r := Instantiate(defaultEncoder.value, Some(request), classes.existing, classes.requestEncoders);
    }

    method GetEncoderClass(mime: string, matches: Matcher) returns (r: Option<string>)
      ensures r == FirstMatch(mimeTypes, mime, matches)
    {
      var i := 0;
      while i < |mimeTypes|
        invariant 0 <= i <= |mimeTypes|
        invariant FirstMatch(mimeTypes, mime, matches) == FirstMatch(mimeTypes[i..], mime, matches)
      {
        assert mimeTypes[i..][1..] == mimeTypes[i + 1..];
        if matches(mimeTypes[i].0, mime) {
          return Some(mimeTypes[i].1);
        }
        i := i + 1;
      }
      return None;
    }

    /** The inner loop of `SetMimeTypes`: maps each of `types` to `encoder`. */
    method AddPatterns(types: seq<string>, encoder: string)
      modifies this`mimeTypes
      ensures mimeTypes == PutAll(old(mimeTypes), Tag(types, encoder))
    {
      var j := 0;
      while j < |types|
        invariant 0 <= j <= |types|
        invariant PutAll(old(mimeTypes), Tag(types, encoder)) == PutAll(mimeTypes, Tag(types[j..], encoder))
      {
        TagStep(types, encoder, j, []);
        assert Tag(types[j..], encoder) == [(types[j], encoder)] + Tag(types[j + 1..], encoder);
        PutAllStep(mimeTypes, (types[j], encoder), Tag(types[j + 1..], encoder));
        mimeTypes := Put(mimeTypes, types[j], encoder);
        j := j + 1;
      }
      assert types[j..] == [];
    }

    /** Adds every pattern to the table, and takes the first name as fallback when none is set. */
    method SetMimeTypes(formats: Formats)
      requires WellTyped(formats)
      modifies this`defaultEncoder, this`mimeTypes
      ensures mimeTypes == BuildTable(old(mimeTypes), Groups(formats))
      ensures defaultEncoder == FirstAssigned(old(defaultEncoder), Groups(formats))
    {
      ghost var groups := Groups(formats);
      var i := 0;
      assert groups[0..] == groups;
      while i < |formats|
        invariant 0 <= i <= |formats|
        invariant BuildTable(old(mimeTypes), groups) == PutAll(mimeTypes, Inverted(groups[i..]))
        invariant FirstAssigned(old(defaultEncoder), groups) == FirstAssigned(defaultEncoder, groups[i..])
      {
        var encoder, types := formats[i].0.s, formats[i].1.types;
        DefaultStep(formats, defaultEncoder, i);
        if defaultEncoder.None? {
          defaultEncoder := Some(encoder);
        }
        FormatsStep(formats, mimeTypes, i);
        AddPatterns(types, encoder);
        i := i + 1;
      }
      assert groups[i..] == [];
    }
  }

  // ---------------------------------------------------------------------------
  // Properties
  // ---------------------------------------------------------------------------

  lemma {:induction false} FirstAssignedStep(current: Option<string>, groups: seq<(string, seq<string>)>, i: int)
    requires 0 <= i < |groups|
    ensures FirstAssigned(current, groups[i..])
         == FirstAssigned(if current.None? then Some(groups[i].0) else current, groups[i + 1..])
  {
    assert groups[i..][0] == groups[i] && groups[i..][1..] == groups[i + 1..];
  }

  /** One outer pass of `setMimeTypes` on the fallback name: the encoder at `i` is taken when none is set. */
  lemma DefaultStep(formats: Formats, current: Option<string>, i: int)
    requires WellTyped(formats) && 0 <= i < |formats|
    ensures FirstAssigned(current, Groups(formats)[i..])
         == FirstAssigned(if current.None? then Some(formats[i].0.s) else current, Groups(formats)[i + 1..])
  {
    FirstAssignedStep(current, Groups(formats), i);
  }

  lemma {:induction false} FirstAssignedKeeps(name: string, groups: seq<(string, seq<string>)>)
    ensures FirstAssigned(Some(name), groups) == Some(name)
  {
    if groups != [] {
      FirstAssignedKeeps(name, groups[1..]);
    }
  }

  /** The fallback is the first name of the registry. */
  lemma {:induction false} FirstAssignedIsFirstName(formats: Formats)
    requires ValidFormats(formats)
    ensures FirstAssigned(None, Groups(formats)) == Some(formats[0].0.s)
  {
    FirstAssignedKeeps(formats[0].0.s, Groups(formats)[1..]);
  }

  lemma {:induction false} DecidingIsFirstNotSkipped(request: ServerRequest, names: seq<string>, i: int)
    requires 0 <= i < |names| && !Skipped(GetHeader(request, names[i]))
    requires forall j :: 0 <= j < i ==> Skipped(GetHeader(request, names[j]))
    ensures DecidingHeader(request, names) == Some(GetHeader(request, names[i])[0])
  {
    if i > 0 {
      DecidingIsFirstNotSkipped(request, names[1..], i - 1);
    }
  }

  lemma {:induction false} NothingDecides(request: ServerRequest, names: seq<string>)
    requires forall j :: 0 <= j < |names| ==> Skipped(GetHeader(request, names[j]))
    ensures DecidingHeader(request, names).None?
  {
    if names != [] {
      NothingDecides(request, names[1..]);
    }
  }

  /** With both headers skipped, the fallback encoder (the first registry name) is instantiated. */
  lemma GuessFallsBack(g: RequestEncoderGuesser, request: ServerRequest, matches: Matcher, classes: ClassTable)
    requires g.Valid()
    requires Skipped(GetHeader(request, "accept")) && Skipped(GetHeader(request, "content-type"))
    ensures RequestGuess(g.mimeTypes, g.defaultEncoder.value, request, matches, classes)
            == Instantiate(g.formats[0].0.s, Some(request), classes.existing, classes.requestEncoders)
  {
    NothingDecides(request, DefaultHeaders);
  }

  /**
   * An Accept header that is not skipped decides alone: an unmatched value is
   * refused at once, even when Content-Type would have matched, and an empty
   * string is matched like any other value.
   */
  lemma AcceptDecidesAlone(table: seq<(string, string)>, fallback: string, request: ServerRequest,
                           matches: Matcher, classes: ClassTable)
    requires !Skipped(GetHeader(request, "accept"))
    requires FirstMatch(table, GetHeader(request, "accept")[0], matches).None?
    ensures RequestGuess(table, fallback, request, matches, classes)
            == Err(UnsupportedRequestFormat(GetHeader(request, "accept")[0], Keys(table)))
  {
    DecidingIsFirstNotSkipped(request, DefaultHeaders, 0);
  }

  /** Content-Type is read only when Accept is skipped. */
  lemma ContentTypeWhenAcceptSkipped(table: seq<(string, string)>, fallback: string, request: ServerRequest,
                                     matches: Matcher, classes: ClassTable, i: int)
    requires Skipped(GetHeader(request, "accept")) && !Skipped(GetHeader(request, "content-type"))
    requires 0 <= i < |table| && matches(table[i].0, GetHeader(request, "content-type")[0])
    requires forall j :: 0 <= j < i ==> !matches(table[j].0, GetHeader(request, "content-type")[0])
    ensures RequestGuess(table, fallback, request, matches, classes)
            == Instantiate(table[i].1, Some(request), classes.existing, classes.requestEncoders)
  {
    DecidingIsFirstNotSkipped(request, DefaultHeaders, 1);
    FirstMatchIsEarliest(table, GetHeader(request, "content-type")[0], matches, i);
  }

  /** A pattern listed under two encoders belongs to the later one. */
  lemma LaterEncoderWins(g: RequestEncoderGuesser, pattern: string, j: int)
    requires g.Valid()
    requires 0 <= j < |g.formats| && pattern in g.formats[j].1.types
    requires forall k :: j < k < |g.formats| ==> pattern !in g.formats[k].1.types
    ensures Get(g.mimeTypes, pattern) == Some(g.formats[j].0.s)
  {
    TableOwner(Groups(g.formats), pattern, j);
  }
}
