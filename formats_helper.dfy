/**
 * `FormatsHelper::normalizeFormats`: turns the configured formats
 * (`format => ['mime_types' => ...]`) into the `format => [mime, ...]` table
 * Symfony's request expects. The `mime_types` value is read through an
 * `(array)` cast, so a single string counts as a one-element list, and a
 * format without MIME types never gets an entry.
 */
module FormatsHelping {
  import opened Php

  /**
   * `(array) $value['mime_types']`: a missing key (or a value that is not
   * an array) reads as `null`, which casts to `[]`.
   */
  function MimeTypesOf(value: Value): (r: seq<(Key, Value)>)
    ensures !value.Arr? ==> r == []
  {
    CastToArray(if value.Arr? then Get(value.entries, StrKey("mime_types")).GetOr(Null) else Null)
  }

  /** The values of `ms` as a list, keyed `0, 1, ...` as `$list[] = ...` numbers them. */
  function ListOf(ms: seq<(Key, Value)>): (r: seq<(Key, Value)>)
    ensures |r| == |ms|
    ensures forall i :: 0 <= i < |ms| ==> r[i] == (IntKey(i), ms[i].1)
  {
    if ms == [] then [] else ListOf(ms[..|ms| - 1]) + [(IntKey(|ms| - 1), ms[|ms| - 1].1)]
  }

  /** What one format contributes: its list of MIME types, or nothing when it has none. */
  function FormatEntry(format: Key, mimes: seq<(Key, Value)>): seq<(Key, Value)> {
    if mimes == [] then [] else [(format, Arr(ListOf(mimes)))]
  }

  /** The table after the outer `foreach` has visited every format of `cfg`. */
  function FormatsSpec(cfg: seq<(Key, Value)>): seq<(Key, Value)> {
    if cfg == [] then []
    else FormatsSpec(cfg[..|cfg| - 1]) + FormatEntry(cfg[|cfg| - 1].0, MimeTypesOf(cfg[|cfg| - 1].1))
  }

  /** An independent statement of which formats are kept, and in which order: those with MIME types, in input order. */
  function KeptFormats(cfg: seq<(Key, Value)>): seq<Key> {
    if cfg == [] then []
    else (if MimeTypesOf(cfg[0].1) == [] then [] else [cfg[0].0]) + KeptFormats(cfg[1..])
  }

  /** `normalizeFormats`, with its nested `foreach`. */
  method NormalizeFormats(configFormats: seq<(Key, Value)>) returns (formats: seq<(Key, Value)>)
    requires UniqueKeys(configFormats)
    ensures formats == FormatsSpec(configFormats)
  {
    formats := [];
    var i := 0;
    while i < |configFormats|
      invariant 0 <= i <= |configFormats|
      invariant formats == FormatsSpec(configFormats[..i])
    {
      NormalizeStep(configFormats, i);
      formats := AppendMimeTypes(formats, configFormats[i].0, MimeTypesOf(configFormats[i].1));
      i := i + 1;
    }
    assert configFormats[..i] == configFormats;
  }

  /** The inner `foreach`: `$formats[$format][] = $mimeType` for each MIME type in turn. */
  method AppendMimeTypes(formats: seq<(Key, Value)>, format: Key, mimes: seq<(Key, Value)>) returns (r: seq<(Key, Value)>)
    requires format !in Keys(formats)
    ensures r == formats + FormatEntry(format, mimes)
  {
    r := formats;
    var j := 0;
    while j < |mimes|
      invariant 0 <= j <= |mimes|
      invariant r == formats + FormatEntry(format, mimes[..j])
    {
      AppendStep(formats, format, mimes, j);
      var current := Get(r, format);
      var list := if current.Some? && current.value.Arr? then current.value.entries else [];
      r := Put(r, format, Arr(list + [(IntKey(|list|), mimes[j].1)]));
      j := j + 1;
    }
    assert mimes[..j] == mimes;
  }

  // ---------------------------------------------------------------------------
  // Loop steps
  // ---------------------------------------------------------------------------

  /** Looking a key up in an array with one more pair at the end. */
  lemma {:induction false} GetAppendLast<K(!new), V>(a: seq<(K, V)>, p: (K, V), k: K)
    ensures Get(a + [p], k) == if k in Keys(a) then Get(a, k) else if k == p.0 then Some(p.1) else None
  {
    if a != [] {
      assert (a + [p])[0] == a[0] && (a + [p])[1..] == a[1..] + [p];
      assert Keys(a) == [a[0].0] + Keys(a[1..]);
      GetAppendLast(a[1..], p, k);
    }
  }

  /** A prefix of an array with distinct keys has distinct keys, and the last key is new to it. */
  lemma {:induction false} UniqueInit<K(!new), V>(a: seq<(K, V)>, p: (K, V))
    requires UniqueKeys(a + [p])
    ensures UniqueKeys(a) && p.0 !in Keys(a)
  {
    UniqueSplit(a, [p]);
    if a != [] {
      assert (a + [p])[0] == a[0] && (a + [p])[1..] == a[1..] + [p];
      KeysAppend(a[1..], [p]);
      UniqueInit(a[1..], p);
    }
  }

  /** One pass of the inner loop appends one MIME type to the format's list. */
  lemma AppendStep(formats: seq<(Key, Value)>, format: Key, mimes: seq<(Key, Value)>, j: int)
    requires format !in Keys(formats) && 0 <= j < |mimes|
    ensures Get(formats + FormatEntry(format, mimes[..j]), format)
         == if j == 0 then None else Some(Arr(ListOf(mimes[..j])))
    ensures j > 0 ==> ListOf(mimes[..j]) + [(IntKey(j), mimes[j].1)] == ListOf(mimes[..j + 1])
    ensures j == 0 ==> [(IntKey(0), mimes[j].1)] == ListOf(mimes[..j + 1])
    ensures Put(formats + FormatEntry(format, mimes[..j]), format, Arr(ListOf(mimes[..j + 1])))
         == formats + FormatEntry(format, mimes[..j + 1])
  {
    var prefix := mimes[..j + 1];
    assert prefix[..j] == mimes[..j] && prefix[j] == mimes[j];
    var v := Arr(ListOf(prefix));
    if j == 0 {
      assert formats + [] == formats;
      PutAbsent(formats, format, v);
    } else {
      var m := formats + [(format, Arr(ListOf(mimes[..j])))];
      GetAppendLast(formats, (format, Arr(ListOf(mimes[..j]))), format);
      assert m[..|formats|] == formats;
      PutAtPosition(m, |formats|, v);
      assert m[|formats| := (format, v)] == formats + [(format, v)];
    }
  }

  /** The keys of the table come from the configuration. */
  lemma {:induction false} FormatsKeysFrom(cfg: seq<(Key, Value)>)
    ensures forall k :: k in Keys(FormatsSpec(cfg)) ==> k in Keys(cfg)
    decreases |cfg|
  {
    if cfg != [] {
      var init := cfg[..|cfg| - 1];
      var last := cfg[|cfg| - 1];
      assert cfg == init + [last];
      FormatsKeysFrom(init);
      KeysAppend(FormatsSpec(init), FormatEntry(last.0, MimeTypesOf(last.1)));
      KeysAppend(init, [last]);
    }
  }

  /** One pass of the outer loop adds the entry of format `i`, whose key is new to the table. */
  lemma NormalizeStep(cfg: seq<(Key, Value)>, i: int)
    requires UniqueKeys(cfg) && 0 <= i < |cfg|
    ensures cfg[i].0 !in Keys(FormatsSpec(cfg[..i]))
    ensures FormatsSpec(cfg[..i + 1]) == FormatsSpec(cfg[..i]) + FormatEntry(cfg[i].0, MimeTypesOf(cfg[i].1))
  {
    assert cfg[..i + 1][..i] == cfg[..i];
    assert cfg == cfg[..i] + cfg[i..];
    UniqueSplit(cfg[..i], cfg[i..]);
    FormatsKeysFrom(cfg[..i]);
  }

  // ---------------------------------------------------------------------------
  // Properties
  // ---------------------------------------------------------------------------

  lemma {:induction false} KeptAppend(a: seq<(Key, Value)>, p: (Key, Value))
    ensures KeptFormats(a + [p]) == KeptFormats(a) + KeptFormats([p])
  {
    if a == [] {
      assert a + [p] == [p];
    } else {
      assert (a + [p])[0] == a[0] && (a + [p])[1..] == a[1..] + [p];
      KeptAppend(a[1..], p);
    }
  }

  /**
   * The table's formats are exactly the configured formats that have MIME
   * types, in their configured order: none is added, none reordered.
   */
  lemma {:induction false} FormatsInOrder(cfg: seq<(Key, Value)>)
    ensures Keys(FormatsSpec(cfg)) == KeptFormats(cfg)
    decreases |cfg|
  {
    if cfg != [] {
      var init := cfg[..|cfg| - 1];
      var last := cfg[|cfg| - 1];
      assert cfg == init + [last];
      FormatsInOrder(init);
      KeysAppend(FormatsSpec(init), FormatEntry(last.0, MimeTypesOf(last.1)));
      KeptAppend(init, last);
      assert [last][1..] == [];
    }
  }

  /**
   * Each format maps to the list of its MIME types in their configured
   * order; a format with none, or one not configured, has no entry.
   */
  lemma {:induction false} FormatsLookup(cfg: seq<(Key, Value)>, k: Key)
    requires UniqueKeys(cfg)
    ensures Get(FormatsSpec(cfg), k)
         == if k in Keys(cfg) && MimeTypesOf(Get(cfg, k).value) != []
            then Some(Arr(ListOf(MimeTypesOf(Get(cfg, k).value)))) else None
    decreases |cfg|
  {
    if cfg != [] {
      var init := cfg[..|cfg| - 1];
      var last := cfg[|cfg| - 1];
      assert cfg == init + [last];
      UniqueInit(init, last);
      FormatsLookup(init, k);
      GetAppendLast(init, last, k);
      KeysAppend(init, [last]);
      var entry := FormatEntry(last.0, MimeTypesOf(last.1));
      if entry != [] {
        GetAppendLast(FormatsSpec(init), entry[0], k);
        FormatsKeysFrom(init);
      } else {
        assert FormatsSpec(init) + entry == FormatsSpec(init);
      }
    }
  }

  /** A single MIME type given as a string becomes a one-element list. */
  lemma ScalarMimeType(format: Key, mime: string)
    ensures FormatEntry(format, MimeTypesOf(Arr([(StrKey("mime_types"), Str(mime))])))
         == [(format, Arr([(IntKey(0), Str(mime))]))]
  {
    assert ListOf([(IntKey(0), Str(mime))]) == [(IntKey(0), Str(mime))];
  }
}
