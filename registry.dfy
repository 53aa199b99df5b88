/**
 * The encoder registry shared by the guessers and the format listener:
 * its validation, the MIME table built from it, pattern matching against the
 * table, encoder instantiation, and the errors these raise.
 */
module Registry {
  import opened Php
  import opened Http

  /** What a registry entry maps its name to. The guessers accept only a list. */
  datatype MimeTypes = MimeList(types: seq<string>) | MimeScalar(scalar: string) | MimeNull

  /** The configured formats, in insertion order: name => MIME types or patterns. */
  type Formats = seq<(Key, MimeTypes)>

  const JsonEncoderClass: string := "EoneoPay\\ApiFormats\\Encoders\\JsonEncoder"
  const JsonRequestEncoderClass: string := "EoneoPay\\ApiFormats\\RequestEncoders\\JsonRequestEncoder"

  /** The header names consulted when the caller names none, in priority order. */
  const DefaultHeaders: seq<string> := ["accept", "content-type"]

  // ---------------------------------------------------------------------------
  // Validation
  // ---------------------------------------------------------------------------

  datatype ConfigFault = NoFormats | NameNotString(intName: int) | MimeTypesNotArray(name: string)

  /** The fault a single entry raises, if any: the name is checked before the value. */
  function EntryFault(entry: (Key, MimeTypes)): Option<ConfigFault>
  {
    if entry.0.IntKey? then Some(NameNotString(entry.0.i))
    else if !entry.1.MimeList? then Some(MimeTypesNotArray(entry.0.s))
    else None
  }

  predicate WellTyped(formats: Formats) {
    forall i :: 0 <= i < |formats| ==> EntryFault(formats[i]).None?
  }

  predicate ValidFormats(formats: Formats) {
    formats != [] && WellTyped(formats)
  }

  /** The first fault of the entries, scanning in order. */
  function FirstEntryFault(formats: Formats): (f: Option<ConfigFault>)
    ensures f.None? <==> WellTyped(formats)
    ensures f != Some(NoFormats)
  {
    if formats == [] then None
    else if EntryFault(formats[0]).Some? then EntryFault(formats[0])
    else FirstEntryFault(formats[1..])
  }

  /** What validation reports: an empty registry, or else the first faulty entry. */
  function FirstFault(formats: Formats): (f: Option<ConfigFault>)
    ensures f.None? <==> ValidFormats(formats)
    ensures f == Some(NoFormats) <==> formats == []
  {
    if formats == [] then Some(NoFormats) else FirstEntryFault(formats)
  }

  /**
   * Rejects an empty registry, a name that is not a string, or a value that
   * is not a list. Both guessers validate with this same scan.
   */
  method ValidateFormats(formats: Formats) returns (fault: Option<ConfigFault>)
    ensures fault == FirstFault(formats)
  {
    if |formats| == 0 {
      return Some(NoFormats);
    }
    var i := 0;
    while i < |formats|
      invariant 0 <= i <= |formats|
      invariant FirstEntryFault(formats) == FirstEntryFault(formats[i..])
    {
      assert formats[i..][1..] == formats[i + 1..];
      var name, mimeTypes := formats[i].0, formats[i].1;
      if name.IntKey? {
        return Some(NameNotString(name.i));
      }
      if !mimeTypes.MimeList? {
        return Some(MimeTypesNotArray(name.s));
      }
      i := i + 1;
    }
    return None;
  }

  /** Validation reports the fault of the earliest faulty entry. */
  lemma {:induction false} FirstFaultIsEarliest(formats: Formats, i: int)
    requires 0 <= i < |formats| && EntryFault(formats[i]).Some?
    requires forall j :: 0 <= j < i ==> EntryFault(formats[j]).None?
    ensures FirstFault(formats) == EntryFault(formats[i])
  {
    EarliestEntryFault(formats, i);
  }

  lemma {:induction false} EarliestEntryFault(formats: Formats, i: int)
    requires 0 <= i < |formats| && EntryFault(formats[i]).Some?
    requires forall j :: 0 <= j < i ==> EntryFault(formats[j]).None?
    ensures FirstEntryFault(formats) == EntryFault(formats[i])
  {
    if i > 0 {
      EarliestEntryFault(formats[1..], i - 1);
    }
  }

  // ---------------------------------------------------------------------------
  // The MIME table: every listed MIME type (or pattern) => the name listing it
  // ---------------------------------------------------------------------------

  /** `ms` paired with `name`. */
  function Tag<M, N>(ms: seq<M>, name: N): (r: seq<(M, N)>)
    ensures Keys(r) == ms
    ensures forall i :: 0 <= i < |r| ==> r[i].1 == name
  {
    if ms == [] then [] else [(ms[0], name)] + Tag(ms[1..], name)
  }

  /** The assignments a nested `foreach name => list, foreach list as m: table[m] = name` performs. */
  function Inverted<M, N>(groups: seq<(N, seq<M>)>): seq<(M, N)>
  {
    if groups == [] then [] else Tag(groups[0].1, groups[0].0) + Inverted(groups[1..])
  }

  /** Where `m` is listed in some group. */
  predicate Listed<M(==), N>(groups: seq<(N, seq<M>)>, m: M) {
    exists j :: 0 <= j < |groups| && m in groups[j].1
  }

  lemma {:induction false} InvertedAppend<M(!new), N>(a: seq<(N, seq<M>)>, b: seq<(N, seq<M>)>)
    ensures Inverted(a + b) == Inverted(a) + Inverted(b)
  {
    if a == [] {
      assert a + b == b;
    } else {
      assert (a + b)[0] == a[0] && (a + b)[1..] == a[1..] + b;
      InvertedAppend(a[1..], b);
    }
  }

  lemma {:induction false} InvertedKeys<M(!new), N>(groups: seq<(N, seq<M>)>)
    ensures forall m :: m in Keys(Inverted(groups)) <==> Listed(groups, m)
  {
    if groups != [] {
      InvertedKeys(groups[1..]);
      var head := Tag(groups[0].1, groups[0].0);
      var rest := Inverted(groups[1..]);
      KeysAppend(head, rest);
      forall m
        ensures m in Keys(Inverted(groups)) <==> Listed(groups, m)
      {
        assert m in groups[0].1 ==> m in Keys(head);
        assert Listed(groups, m) <==> m in groups[0].1 || Listed(groups[1..], m) by {
          if Listed(groups, m) && m !in groups[0].1 {
            var j :| 0 <= j < |groups| && m in groups[j].1;
            assert groups[1..][j - 1] == groups[j];
          }
          if Listed(groups[1..], m) {
            var j :| 0 <= j < |groups[1..]| && m in groups[1..][j].1;
            assert groups[1..][j] == groups[j + 1];
          }
        }
      }
    }
  }

  lemma InvertedStep<M(!new), N>(groups: seq<(N, seq<M>)>, i: int)
    requires 0 <= i < |groups|
    ensures Inverted(groups[i..]) == Tag(groups[i].1, groups[i].0) + Inverted(groups[i + 1..])
  {
    assert groups[i..][0] == groups[i] && groups[i..][1..] == groups[i + 1..];
  }

  lemma TagStep<M(!new), N>(ms: seq<M>, name: N, j: int, rest: seq<(M, N)>)
    requires 0 <= j < |ms|
    ensures Tag(ms[j..], name) + rest == [(ms[j], name)] + (Tag(ms[j + 1..], name) + rest)
  {
    assert ms[j..][0] == ms[j] && ms[j..][1..] == ms[j + 1..];
  }

  /** The table built from the groups, on top of an existing table. */
  function BuildTable<M(==,!new), N>(table: seq<(M, N)>, groups: seq<(N, seq<M>)>): seq<(M, N)>
  {
    PutAll(table, Inverted(groups))
  }

  /** One outer iteration: the group at `i` is added, the later groups remain. */
  lemma {:induction false} BuildStep<M(!new), N>(table: seq<(M, N)>, groups: seq<(N, seq<M>)>, i: int)
    requires 0 <= i < |groups|
    ensures PutAll(table, Inverted(groups[i..]))
         == PutAll(PutAll(table, Tag(groups[i].1, groups[i].0)), Inverted(groups[i + 1..]))
  {
    InvertedStep(groups, i);
    PutAllConcat(table, Tag(groups[i].1, groups[i].0), Inverted(groups[i + 1..]));
  }

  /** The table's keys are exactly the listed MIME types, each once. */
  lemma {:induction false} TableKeys<M(!new), N>(groups: seq<(N, seq<M>)>)
    ensures UniqueKeys(BuildTable([], groups))
    ensures forall m :: m in Keys(BuildTable([], groups)) <==> Listed(groups, m)
  {
    PutAllUnique([], Inverted(groups));
    PutAllKeys([], Inverted(groups));
    AppendNewCovers([], Keys(Inverted(groups)));
    InvertedKeys(groups);
  }

  /** A MIME type listed under several names maps to the last of them. */
  lemma {:induction false} TableOwner<M(!new), N>(groups: seq<(N, seq<M>)>, m: M, j: int)
    requires 0 <= j < |groups| && m in groups[j].1
    requires forall k :: j < k < |groups| ==> m !in groups[k].1
    ensures Get(BuildTable([], groups), m) == Some(groups[j].0)
  {
    var before, here, after := groups[..j], groups[j], groups[j + 1..];
    var a, t, c := Inverted(before), Tag(here.1, here.0), Inverted(after);
    InvertedSplit(groups, j);
    PutAllConcat([], a + t, c);
    PutAllConcat([], a, t);
    var t2 := PutAll(PutAll([], a), t);
    assert m !in Keys(c) by {
      InvertedKeys(after);
      forall k | 0 <= k < |after|
        ensures m !in after[k].1
      {
        assert after[k] == groups[j + 1 + k];
      }
    }
    PutAllGet(t2, c, m);
    PutAllGet(PutAll([], a), t, m);
    TagLast(here.1, here.0, m);
  }

  lemma {:induction false} InvertedSplit<M(!new), N>(groups: seq<(N, seq<M>)>, j: int)
    requires 0 <= j < |groups|
    ensures Inverted(groups) == Inverted(groups[..j]) + Tag(groups[j].1, groups[j].0) + Inverted(groups[j + 1..])
  {
    var before, here, after := groups[..j], groups[j], groups[j + 1..];
    assert groups == before + [here] + after;
    InvertedAppend(before + [here], after);
    InvertedAppend(before, [here]);
    assert Inverted([here]) == Tag(here.1, here.0) + Inverted([]);
  }

  lemma {:induction false} TagLast<M(!new), N>(ms: seq<M>, name: N, m: M)
    requires m in ms
    ensures LastValue(Tag(ms, name), m) == name
  {
    if m in ms[1..] {
      TagLast(ms[1..], name, m);
    }
  }

  /** Rebuilding the table from the same groups leaves it unchanged. */
  lemma {:induction false} TableRebuildIdempotent<M(!new), N>(groups: seq<(N, seq<M>)>)
    ensures BuildTable(BuildTable([], groups), groups) == BuildTable([], groups)
  {
    PutAllIdempotent([], Inverted(groups));
  }

  /** The groups of a well-typed registry: encoder name and its patterns. */
  function Groups(formats: Formats): (g: seq<(string, seq<string>)>)
    requires WellTyped(formats)
    ensures |g| == |formats|
    ensures forall i :: 0 <= i < |g| ==> g[i] == (formats[i].0.s, formats[i].1.types)
  {
    seq(|formats|, i requires 0 <= i < |formats| => (formats[i].0.s, formats[i].1.types))
  }

  /** One outer pass of `setMimeTypes` over a registry: the encoder at `i` adds its patterns, the later ones remain. */
  lemma FormatsStep(formats: Formats, table: seq<(string, string)>, i: int)
    requires WellTyped(formats) && 0 <= i < |formats|
    ensures PutAll(table, Inverted(Groups(formats)[i..]))
         == PutAll(PutAll(table, Tag(formats[i].1.types, formats[i].0.s)), Inverted(Groups(formats)[i + 1..]))
  {
    var groups := Groups(formats);
    BuildStep(table, groups, i);
    assert groups[i] == (formats[i].0.s, formats[i].1.types);
  }

  // ---------------------------------------------------------------------------
  // Pattern matching and instantiation
  // ---------------------------------------------------------------------------

  /**
   * `preg_match('#' . pattern . '#i', subject) === 1`: a case-insensitive,
   * unanchored regular-expression search. The PCRE engine is not modelled.
   */
  type Matcher = (string, string) -> bool

  /** The encoder of the first pattern, in table order, that matches the MIME type. */
  function FirstMatch<N>(table: seq<(string, N)>, mime: string, matches: Matcher): (r: Option<N>)
    ensures r.None? <==> forall i :: 0 <= i < |table| ==> !matches(table[i].0, mime)
  {
    if table == [] then None
    else if matches(table[0].0, mime) then Some(table[0].1)
    else FirstMatch(table[1..], mime, matches)
  }

  /** The first matching pattern wins, even when a later one matches too. */
  lemma {:induction false} FirstMatchIsEarliest<N>(table: seq<(string, N)>, mime: string, matches: Matcher, i: int)
    requires 0 <= i < |table| && matches(table[i].0, mime)
    requires forall j :: 0 <= j < i ==> !matches(table[j].0, mime)
    ensures FirstMatch(table, mime, matches) == Some(table[i].1)
  {
    if i > 0 {
      FirstMatchIsEarliest(table[1..], mime, matches, i - 1);
    }
  }

  /** The classes known to exist, and those implementing each encoder interface. */
  datatype ClassTable = ClassTable(existing: set<string>, encoders: set<string>, requestEncoders: set<string>)

  /** An encoder instance: its class and the request it was built for. */
  datatype Encoder = Encoder(encoderClass: string, request: Option<ServerRequest>)

  datatype EncoderFault = ClassMissing | InterfaceMissing

  datatype GuessError =
    | InvalidFormatsConfig(fault: ConfigFault)
    | InvalidEncoder(encoderClass: string, reason: EncoderFault)
    | UnsupportedRequestFormat(mimeType: string, supported: seq<string>)
    | UnsupportedContentTypeHeader(mimeType: string, supported: seq<string>)
    | UnsupportedAcceptHeader(mimeType: string, supported: seq<string>)
  {
    /** The two header errors answer 406 Not Acceptable; the others take their status from outside this library. */
    predicate NotAcceptable() {
      UnsupportedContentTypeHeader? || UnsupportedAcceptHeader?
    }
  }

  /** `new $class($request)`, refused when the class is missing or does not implement the interface. */
  function Instantiate(encoderClass: string, request: Option<ServerRequest>, existing: set<string>, implementing: set<string>)
    : (r: Result<Encoder, GuessError>)
    ensures encoderClass !in existing ==> r == Err(InvalidEncoder(encoderClass, ClassMissing))
    ensures encoderClass in existing && encoderClass !in implementing ==> r == Err(InvalidEncoder(encoderClass, InterfaceMissing))
    ensures r.Ok? ==> r.value.encoderClass == encoderClass && r.value.request == request
  {
    if encoderClass !in existing then Err(InvalidEncoder(encoderClass, ClassMissing))
    else if encoderClass !in implementing then Err(InvalidEncoder(encoderClass, InterfaceMissing))
    else Ok(Encoder(encoderClass, request))
  }
}
