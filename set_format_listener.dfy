/**
 * The kernel-request listener that sets a request's format from its headers.
 *
 * The listener inverts the formats registry into an exact MIME type => format
 * table and remembers the first format as the default. On each request it
 * reads `Accept`, then `Content-Type`; the first header that is present
 * decides: its value is looked up verbatim (no pattern matching), and an
 * unknown value is an error that leaves the request untouched. With neither
 * header present the request gets the default format.
 */
module FormatListener {
  import opened Php
  import opened Registry

  /** The MIME type => format table, keyed as PHP stores the MIME strings. */
  type FormatTable = seq<(Key, Key)>

  /** The headers scanned, in order. */
  const ListenerHeaders: seq<string> := ["accept", "content-type"]

  /**
   * The keys the MIME types of one registry entry are stored under:
   * the values of its `(array)` cast, in order; array or object values are
   * illegal offsets and store nothing.
   */
  function MimeKeys(entries: seq<(Key, Value)>): (ks: seq<Key>)
    ensures |ks| <= |entries|
    ensures forall k :: k in ks <==> exists i :: 0 <= i < |entries| && ValueKey(entries[i].1) == Some(k)
  {
    if entries == [] then []
    else
      var rest := MimeKeys(entries[1..]);
      assert forall i :: 1 <= i < |entries| ==> entries[i] == entries[1..][i - 1];
      match ValueKey(entries[0].1)
      case Some(k) => [k] + rest
      case None => rest
  }

  /** Each format with the keys of its MIME types. */
  function ListenerGroups(formats: seq<(Key, Value)>): (g: seq<(Key, seq<Key>)>)
    ensures |g| == |formats|
    ensures forall i :: 0 <= i < |g| ==> g[i] == (formats[i].0, MimeKeys(CastToArray(formats[i].1)))
  {
    seq(|formats|, i requires 0 <= i < |formats| => (formats[i].0, MimeKeys(CastToArray(formats[i].1))))
  }

  /** The first format of the registry, if it has any. */
  function FirstFormat(formats: seq<(Key, Value)>): Option<Key> {
    if formats == [] then None else Some(formats[0].0)
  }

  /**
   * `HeaderBag::get`: the first value of the header, or null when it is absent
   * or has no value. The bag keys headers by lower-cased name, and the
   * listener only asks for the lower-case names `accept` and `content-type`.
   */
  function HeaderValue(headers: map<string, seq<string>>, name: string): (r: Option<string>)
    ensures r.Some? <==> name in headers && |headers[name]| > 0
    ensures r.Some? ==> r.value == headers[name][0]
  {
    if name in headers && |headers[name]| > 0 then Some(headers[name][0]) else None
  }

  /** The exception raised for a MIME type the table does not hold; it lists every MIME type. */
  datatype Unsupported = UnsupportedFormat(mimeType: string, supported: seq<Key>)

  /**
   * The outcome of the header scan: the format to set (possibly none, when
   * the registry was empty) or the exception.
   */
  function Resolve(table: FormatTable, default: Option<Key>, headers: map<string, seq<string>>, names: seq<string>)
    : Result<Option<Key>, Unsupported>
    decreases |names|
  {
    if names == [] then Ok(default)
    else
      match HeaderValue(headers, names[0])
      case None => Resolve(table, default, headers, names[1..])
      case Some(mime) =>
        match Get(table, StringKey(mime))
        case Some(format) => Ok(Some(format))
        case None => Err(UnsupportedFormat(mime, Keys(table)))
  }

  /** The request whose format the listener sets. */
  class HttpRequest {
    const headers: map<string, seq<string>>
    var requestFormat: Option<Key>

    constructor (headers: map<string, seq<string>>, requestFormat: Option<Key>)
      ensures this.headers == headers && this.requestFormat == requestFormat
    {
      this.headers := headers;
      this.requestFormat := requestFormat;
    }

    method SetRequestFormat(format: Option<Key>)
      modifies this
      ensures requestFormat == format
    {
      requestFormat := format;
    }
  }

  class SetFormatOnRequestListener {
    ghost const formats: seq<(Key, Value)>
    var defaultFormat: Option<Key>
    var mimeTypes: FormatTable

    /** The default is the first format and the table is the inverted registry. */
    ghost predicate Valid()
      reads this
    {
      defaultFormat == FirstFormat(formats) && mimeTypes == BuildTable([], ListenerGroups(formats))
    }

    constructor (formats: seq<(Key, Value)>)
      ensures this.formats == formats && Valid()
    {
      this.formats := formats;
      defaultFormat := None;
      mimeTypes := [];
      new;
      LoadFormats(formats);
    }

    /** The loop of the constructor: the first format becomes the default, every MIME type is mapped to its format. */
    method LoadFormats(formats: seq<(Key, Value)>)
      requires formats == this.formats && defaultFormat.None? && mimeTypes == []
      modifies this`defaultFormat, this`mimeTypes
      ensures Valid()
    {
      ghost var groups := ListenerGroups(formats);
      var i := 0;
      while i < |formats|
        invariant 0 <= i <= |formats|
        invariant defaultFormat == FirstFormat(formats[..i])
        invariant BuildTable([], groups) == PutAll(mimeTypes, Inverted(groups[i..]))
      {
        var format := formats[i].0;
        if defaultFormat.None? {
          defaultFormat := Some(format);
        }
        assert defaultFormat == FirstFormat(formats[..i + 1]);
        LoadStep(formats, mimeTypes, i);
        AddMimeTypes(CastToArray(formats[i].1), format);
        i := i + 1;
      }
      assert groups[i..] == [] && formats[..i] == formats;
    }

    /** One pass of the constructor's loop: the entry at `i` is inverted, the later ones remain. */
    static lemma LoadStep(formats: seq<(Key, Value)>, table: FormatTable, i: int)
      requires 0 <= i < |formats|
      ensures PutAll(table, Inverted(ListenerGroups(formats)[i..]))
           == PutAll(PutAll(table, Tag(MimeKeys(CastToArray(formats[i].1)), formats[i].0)),
                     Inverted(ListenerGroups(formats)[i + 1..]))
    {
      var groups := ListenerGroups(formats);
      BuildStep(table, groups, i);
      assert groups[i] == (formats[i].0, MimeKeys(CastToArray(formats[i].1)));
    }

    /** The inner loop of the constructor: stores every MIME type of one entry under `format`. */
    method AddMimeTypes(entries: seq<(Key, Value)>, format: Key)
      modifies this`mimeTypes
      ensures mimeTypes == PutAll(old(mimeTypes), Tag(MimeKeys(entries), format))
    {
      var j := 0;
      while j < |entries|
        invariant 0 <= j <= |entries|
        invariant PutAll(old(mimeTypes), Tag(MimeKeys(entries), format))
               == PutAll(mimeTypes, Tag(MimeKeys(entries[j..]), format))
      {
        assert entries[j..][0] == entries[j] && entries[j..][1..] == entries[j + 1..];
        var key := ValueKey(entries[j].1);
        if key.Some? {
          var rest := MimeKeys(entries[j + 1..]);
          assert MimeKeys(entries[j..]) == [key.value] + rest;
          assert ([key.value] + rest)[0] == key.value && ([key.value] + rest)[1..] == rest;
          PutAllStep(mimeTypes, (key.value, format), Tag(rest, format));
          mimeTypes := Put(mimeTypes, key.value, format);
        }
        j := j + 1;
      }
    }

    /**
     * Scans the headers and sets the request format, or reports the
     * unsupported MIME type without touching the request.
     */
    method OnKernelRequest(request: HttpRequest) returns (error: Option<Unsupported>)
      modifies request
      ensures Resolve(mimeTypes, defaultFormat, request.headers, ListenerHeaders).Err? ==>
        error == Some(Resolve(mimeTypes, defaultFormat, request.headers, ListenerHeaders).error)
        && request.requestFormat == old(request.requestFormat)
      ensures Resolve(mimeTypes, defaultFormat, request.headers, ListenerHeaders).Ok? ==>
        error.None? && request.requestFormat == Resolve(mimeTypes, defaultFormat, request.headers, ListenerHeaders).value
    {
      var names := ListenerHeaders;
      var i := 0;
      while i < |names|
        invariant 0 <= i <= |names|
        invariant request.requestFormat == old(request.requestFormat)
        invariant Resolve(mimeTypes, defaultFormat, request.headers, names)
               == Resolve(mimeTypes, defaultFormat, request.headers, names[i..])
      {
        assert names[i..][0] == names[i] && names[i..][1..] == names[i + 1..];
        var mime := HeaderValue(request.headers, names[i]);
        if mime.None? {
          i := i + 1;
          continue;
        }
        var format := Get(mimeTypes, StringKey(mime.value));
        if format.None? {
          return Some(UnsupportedFormat(mime.value, Keys(mimeTypes)));
        }
        request.SetRequestFormat(format);
        return None;
      }
      request.SetRequestFormat(defaultFormat);
      error := None;
    }
  }

  // ---------------------------------------------------------------------------
  // Properties
  // ---------------------------------------------------------------------------

  /** A present Accept header alone decides; Content-Type is not consulted. */
  lemma AcceptDecides(table: FormatTable, default: Option<Key>, headers: map<string, seq<string>>)
    requires HeaderValue(headers, "accept").Some?
    ensures Resolve(table, default, headers, ListenerHeaders)
         == (var mime := HeaderValue(headers, "accept").value;
             match Get(table, StringKey(mime))
             case Some(format) => Ok(Some(format))
             case None => Err(UnsupportedFormat(mime, Keys(table))))
  {
  }

  /** Without Accept, a present Content-Type decides. */
  lemma {:induction false} ContentTypeWhenNoAccept(table: FormatTable, default: Option<Key>, headers: map<string, seq<string>>)
    requires HeaderValue(headers, "accept").None?
    requires HeaderValue(headers, "content-type").Some?
    ensures Resolve(table, default, headers, ListenerHeaders)
         == Resolve(table, default, headers, ["content-type"])
  {
    assert ListenerHeaders[1..] == ["content-type"];
  }

  /** A header that is present but empty-valued is not skipped: it is looked up like any other value. */
  lemma {:induction false} EmptyAcceptIsLookedUp(table: FormatTable, default: Option<Key>, headers: map<string, seq<string>>)
    requires "accept" in headers && headers["accept"] == [""]
    ensures Resolve(table, default, headers, ListenerHeaders)
         == if StringKey("") in Keys(table) then Ok(Get(table, StringKey(""))) else Err(UnsupportedFormat("", Keys(table)))
  {
  }

  /** With neither header present, the listener's result is its default: the first registry format. */
  lemma {:induction false} FallsBackToFirstFormat(listener: SetFormatOnRequestListener, headers: map<string, seq<string>>)
    requires listener.Valid()
    requires HeaderValue(headers, "accept").None? && HeaderValue(headers, "content-type").None?
    ensures Resolve(listener.mimeTypes, listener.defaultFormat, headers, ListenerHeaders)
         == Ok(FirstFormat(listener.formats))
  {
    assert ListenerHeaders[1..] == ["content-type"] && ListenerHeaders[1..][1..] == [];
  }

  /** A successful scan sets a format that some present header's value is exactly stored under. */
  lemma {:induction false} SuccessIsExactLookup(table: FormatTable, default: Option<Key>, headers: map<string, seq<string>>, names: seq<string>, format: Key)
    requires Resolve(table, default, headers, names) == Ok(Some(format))
    ensures default == Some(format)
         || exists i :: 0 <= i < |names| && HeaderValue(headers, names[i]).Some?
              && Get(table, StringKey(HeaderValue(headers, names[i]).value)) == Some(format)
    decreases |names|
  {
    if names != [] && HeaderValue(headers, names[0]).None? {
      SuccessIsExactLookup(table, default, headers, names[1..], format);
      if default != Some(format) {
        var i :| 0 <= i < |names[1..]| && HeaderValue(headers, names[1..][i]).Some?
              && Get(table, StringKey(HeaderValue(headers, names[1..][i]).value)) == Some(format);
        assert names[1..][i] == names[i + 1];
      }
    }
  }

  /** The exception names the offending value and lists exactly the MIME types of the registry. */
  lemma {:induction false} ErrorListsTable(formats: seq<(Key, Value)>, headers: map<string, seq<string>>, names: seq<string>)
    requires Resolve(BuildTable([], ListenerGroups(formats)), FirstFormat(formats), headers, names).Err?
    ensures var e := Resolve(BuildTable([], ListenerGroups(formats)), FirstFormat(formats), headers, names).error;
      StringKey(e.mimeType) !in e.supported
      && (forall k :: k in e.supported <==> Listed(ListenerGroups(formats), k))
    decreases |names|
  {
    TableKeys(ListenerGroups(formats));
    if names != [] && HeaderValue(headers, names[0]).None? {
      ErrorListsTable(formats, headers, names[1..]);
    }
  }

  /** A MIME type listed by several formats belongs to the last of them. */
  lemma LaterFormatWins(formats: seq<(Key, Value)>, mime: string, j: int)
    requires 0 <= j < |formats| && StringKey(mime) in MimeKeys(CastToArray(formats[j].1))
    requires forall k :: j < k < |formats| ==> StringKey(mime) !in MimeKeys(CastToArray(formats[k].1))
    ensures Get(BuildTable([], ListenerGroups(formats)), StringKey(mime)) == Some(formats[j].0)
  {
    TableOwner(ListenerGroups(formats), StringKey(mime), j);
  }

  /** A scalar MIME type counts as a one-element list. */
  lemma ScalarIsOneElementList(mime: string)
    ensures MimeKeys(CastToArray(Str(mime))) == [StringKey(mime)]
  {
  }
}
