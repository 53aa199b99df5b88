/**
 * The Symfony configuration's `supported` formats: their default value and
 * the normalisation closure run on them before validation. The closure lets
 * a format be given as its MIME types alone: an entry without a set
 * `mime_types` key is wrapped as `['mime_types' => entry]`; the other
 * entries are left as they are.
 */
module SymfonyConfiguration {
  import opened Php
  import opened FormatsHelping

  /** `$defaultFormats`: JSON and XML with their MIME types. */
  const DefaultFormats: seq<(Key, Value)> := [
    (StrKey("json"), Arr([(StrKey("mime_types"), Arr([(IntKey(0), Str("application/json"))]))])),
    (StrKey("xml"), Arr([(StrKey("mime_types"), Arr([(IntKey(0), Str("application/xml")), (IntKey(1), Str("text/xml"))]))]))
  ]

  /** `isset($value['mime_types'])`: an array holding the key with a non-null value. */
  predicate MimeTypesSet(value: Value) {
    value.Arr? && Get(value.entries, StrKey("mime_types")).Some? && Get(value.entries, StrKey("mime_types")).value != Null
  }

  /** What the closure makes of one entry. */
  function NormalizedEntry(value: Value): (r: Value)
    ensures MimeTypesSet(value) ==> r == value
    ensures !MimeTypesSet(value) ==> r.Arr? && Get(r.entries, StrKey("mime_types")) == Some(value)
  {
    if MimeTypesSet(value) then value else Arr([(StrKey("mime_types"), value)])
  }

  /** The array the closure returns: every entry normalised, in place. */
  function NormalizedConfig(cfg: seq<(Key, Value)>): (r: seq<(Key, Value)>)
    ensures |r| == |cfg|
    ensures forall i :: 0 <= i < |cfg| ==> r[i] == (cfg[i].0, NormalizedEntry(cfg[i].1))
  {
    seq(|cfg|, i requires 0 <= i < |cfg| => (cfg[i].0, NormalizedEntry(cfg[i].1)))
  }

  /**
   * The closure returned by `getNormalizationClosure`: a `foreach` over the
   * array that skips entries with `mime_types` set and overwrites the others
   * under their own key.
   */
  method NormalizeSupported(supported: seq<(Key, Value)>) returns (r: seq<(Key, Value)>)
    requires UniqueKeys(supported)
    ensures r == NormalizedConfig(supported)
  {
    r := supported;
    var i := 0;
    while i < |supported|
      invariant 0 <= i <= |supported|
      invariant r == NormalizedConfig(supported[..i]) + supported[i..]
    {
      SupportedStep(supported, i);
      if MimeTypesSet(supported[i].1) {
        i := i + 1;
        continue;
      }
      r := Put(r, supported[i].0, Arr([(StrKey("mime_types"), supported[i].1)]));
      i := i + 1;
    }
    assert supported[i..] == [] && supported[..i] == supported;
  }

  /**
   * One pass of the loop: an entry with `mime_types` set is skipped, any
   * other is overwritten in place (`$array[$format] = ...` on its own key).
   */
  lemma SupportedStep(supported: seq<(Key, Value)>, i: int)
    requires UniqueKeys(supported) && 0 <= i < |supported|
    ensures var r := NormalizedConfig(supported[..i]) + supported[i..];
      var next := NormalizedConfig(supported[..i + 1]) + supported[i + 1..];
      && (MimeTypesSet(supported[i].1) ==> r == next)
      && (!MimeTypesSet(supported[i].1) ==> Put(r, supported[i].0, Arr([(StrKey("mime_types"), supported[i].1)])) == next)
  {
    var r := NormalizedConfig(supported[..i]) + supported[i..];
    var next := NormalizedConfig(supported[..i + 1]) + supported[i + 1..];
    var entry := (supported[i].0, NormalizedEntry(supported[i].1));
    forall j | 0 <= j < |supported|
      ensures next[j] == r[i := entry][j]
    {
      if j < i {
        assert next[j] == NormalizedConfig(supported[..i + 1])[j] && r[j] == NormalizedConfig(supported[..i])[j];
      } else if j == i {
        assert next[j] == NormalizedConfig(supported[..i + 1])[j];
      } else {
        assert next[j] == supported[i + 1..][j - i - 1] && r[j] == supported[i..][j - i];
      }
    }
    assert next == r[i := entry];
    if !MimeTypesSet(supported[i].1) {
      assert supported == supported[..i] + supported[i..];
      UniqueSplit(supported[..i], supported[i..]);
      assert r[..i] == NormalizedConfig(supported[..i]);
      SameKeys(r[..i], supported[..i]);
      PutAtPosition(r, i, entry.1);
    }
  }

  // ---------------------------------------------------------------------------
  // Properties
  // ---------------------------------------------------------------------------

  /** The closure keeps every format key in place, adding and dropping none. */
  lemma KeysKept(cfg: seq<(Key, Value)>)
    ensures Keys(NormalizedConfig(cfg)) == Keys(cfg)
  {
    SameKeys(NormalizedConfig(cfg), cfg);
  }

  /** A configuration whose every entry has `mime_types` set is a fixed point. */
  lemma FullyNormalizedIsFixedPoint(cfg: seq<(Key, Value)>)
    requires forall i :: 0 <= i < |cfg| ==> MimeTypesSet(cfg[i].1)
    ensures NormalizedConfig(cfg) == cfg
  {
  }

  /**
   * After the closure every entry has `mime_types` set, except one that was
   * `null`, so running it twice is the same as once when no entry is
   * `null`; a `null` entry is wrapped again on every run.
   */
  lemma NormalizationIdempotent(cfg: seq<(Key, Value)>, k: Key)
    requires forall i :: 0 <= i < |cfg| ==> cfg[i].1 != Null
    ensures forall i :: 0 <= i < |cfg| ==> MimeTypesSet(NormalizedConfig(cfg)[i].1)
    ensures NormalizedConfig(NormalizedConfig(cfg)) == NormalizedConfig(cfg)
    ensures NormalizedConfig(NormalizedConfig([(k, Null)]))
         == [(k, Arr([(StrKey("mime_types"), Arr([(StrKey("mime_types"), Null)]))]))]
  {
    var n := NormalizedConfig(cfg);
    forall i | 0 <= i < |cfg|
      ensures MimeTypesSet(n[i].1)
    {
      if !MimeTypesSet(cfg[i].1) {
        assert Get(n[i].1.entries, StrKey("mime_types")) == Some(cfg[i].1);
      }
    }
    FullyNormalizedIsFixedPoint(n);
  }

  /**
   * Shorthand entries reach the formats table as if written out: the
   * shorthand lists of the configuration tests give the same MIME types.
   */
  lemma ShorthandSameMimeTypes(value: Value)
    requires value.Arr? && !MimeTypesSet(value)
    ensures MimeTypesOf(NormalizedEntry(value)) == value.entries
  {
  }

  /**
   * The defaults are already normalised, and the formats table built from
   * them maps `json` to `application/json` and `xml` to `application/xml`
   * then `text/xml`.
   */
  lemma DefaultFormatsTable()
    ensures NormalizedConfig(DefaultFormats) == DefaultFormats
    ensures FormatsSpec(DefaultFormats) == [
      (StrKey("json"), Arr([(IntKey(0), Str("application/json"))])),
      (StrKey("xml"), Arr([(IntKey(0), Str("application/xml")), (IntKey(1), Str("text/xml"))]))
    ]
  {
    var json := DefaultFormats[0];
    var xml := DefaultFormats[1];
    var jsonTypes := [(IntKey(0), Str("application/json"))];
    var xmlTypes := [(IntKey(0), Str("application/xml")), (IntKey(1), Str("text/xml"))];
    assert MimeTypesSet(json.1) && MimeTypesSet(xml.1);
    FullyNormalizedIsFixedPoint(DefaultFormats);
    assert MimeTypesOf(json.1) == jsonTypes;
    assert MimeTypesOf(xml.1) == xmlTypes;
    assert ListOf(jsonTypes) == jsonTypes;
    assert ListOf(xmlTypes) == xmlTypes;
    assert FormatsSpec([json]) == FormatEntry(json.0, jsonTypes) by {
      assert [json][..0] == [];
    }
    assert DefaultFormats[..1] == [json];
    assert FormatsSpec(DefaultFormats) == FormatsSpec([json]) + FormatEntry(xml.0, xmlTypes);
  }
}
