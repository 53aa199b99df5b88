/**
 * The JSON:API hydrator: flattens a JSON:API 1.0 document (primary data plus
 * `included` resources, section 7 of the JSON:API 1.0 specification) into
 * nested PHP arrays.
 *
 * Every hydrated resource starts as `id`, `type` and its attributes. That
 * snapshot is saved in an identity map under `type-id` before the
 * relationships are filled, so a later reference to the same resource gets
 * the snapshot instead of recursing again. A link is resolved from the
 * identity map first, then from `included`; a link neither resolves is
 * skipped. A to-one relationship sets its field, a to-many appends to it.
 *
 * Termination: a resource is only hydrated from `included` when its key is
 * not yet in the identity map, and hydrating it adds the key. The measure is
 * the set of included resources whose key is not yet mapped.
 */
module JsonApiHydration {
  import opened Php

  datatype Link = Link(linkType: string, linkId: string)

  datatype Relationship = Relationship(toOne: bool, links: seq<Link>)

  datatype ResourceObject = ResourceObject(
    resourceType: string,
    id: string,
    attributes: seq<(Key, Value)>,
    relationships: seq<(Key, Relationship)>
  )

  /** A single-resource document (whose resource may be null) or a resource-collection document. */
  datatype PrimaryData = SingleResource(resource: Option<ResourceObject>) | ResourceCollection(resources: seq<ResourceObject>)

  datatype Document = Document(primary: PrimaryData, included: seq<ResourceObject>)

  /** Hydrated resources saved under `type-id`. */
  type IdentityMap = seq<(string, seq<(Key, Value)>)>

  /** A hydrated array together with the identity map as the call leaves it. */
  datatype Hydration = Hydration(result: seq<(Key, Value)>, identityMap: IdentityMap)

  function IdentityKey(resourceType: string, id: string): string {
    resourceType + "-" + id
  }

  function KeyOf(r: ResourceObject): string {
    IdentityKey(r.resourceType, r.id)
  }

  /** `hasAnyPrimaryResources()`. */
  predicate HasAnyPrimaryResources(doc: Document) {
    match doc.primary
    case SingleResource(r) => r.Some?
    case ResourceCollection(rs) => |rs| > 0
  }

  /** `resource($type, $id)`: the first included resource with that type and id. */
  function FindIncluded(doc: Document, resourceType: string, id: string): (r: Option<ResourceObject>)
    ensures r.Some? ==> r.value in doc.included && r.value.resourceType == resourceType && r.value.id == id
    ensures r.None? <==> forall R :: R in doc.included ==> !(R.resourceType == resourceType && R.id == id)
  {
    FindIn(doc.included, resourceType, id)
  }

  function FindIn(resources: seq<ResourceObject>, resourceType: string, id: string): (r: Option<ResourceObject>)
    ensures r.Some? ==> r.value in resources && r.value.resourceType == resourceType && r.value.id == id
    ensures r.None? <==> forall R :: R in resources ==> !(R.resourceType == resourceType && R.id == id)
  {
    if resources == [] then None
    else if resources[0].resourceType == resourceType && resources[0].id == id then Some(resources[0])
    else
      var r := FindIn(resources[1..], resourceType, id);
      assert forall R :: R in resources ==> R == resources[0] || R in resources[1..];
      r
  }

  /** The hydrated array before relationships: `id`, `type`, then each attribute assigned in turn. */
  function Snapshot(r: ResourceObject): seq<(Key, Value)> {
    PutAll([(StrKey("id"), Str(r.id)), (StrKey("type"), Str(r.resourceType))], r.attributes)
  }

  /** The items already appended to a to-many field. */
  function ToManyItems(result: seq<(Key, Value)>, name: Key): seq<(Key, Value)> {
    var current := Get(result, name);
    if current.Some? && current.value.Arr? then current.value.entries else []
  }

  /** `$result[$name] = $resolved` for a to-one relationship, `$result[$name][] = $resolved` for a to-many. */
  function Attach(result: seq<(Key, Value)>, name: Key, toOne: bool, resolved: seq<(Key, Value)>): (r: seq<(Key, Value)>)
    ensures forall k :: k != name ==> Get(r, k) == Get(result, k)
    ensures toOne ==> Get(r, name) == Some(Arr(resolved))
    ensures !toOne ==> Get(r, name) == Some(Arr(ToManyItems(result, name) + [(IntKey(|ToManyItems(result, name)|), Arr(resolved))]))
  {
    if toOne then Put(result, name, Arr(resolved))
    else
      var items := ToManyItems(result, name);
      Put(result, name, Arr(items + [(IntKey(|items|), Arr(resolved))]))
  }

  /** The included resources whose key is not in `keys`: the termination measure. */
  function Unmapped(doc: Document, keys: seq<string>): set<ResourceObject> {
    set R | R in doc.included && KeyOf(R) !in keys
  }

  lemma {:induction false} Shrinks(doc: Document, a: seq<string>, b: seq<string>)
    requires forall k :: k in a ==> k in b
    ensures |Unmapped(doc, b)| <= |Unmapped(doc, a)|
  {
    var ua, ub := Unmapped(doc, a), Unmapped(doc, b);
    assert ub <= ua;
    assert ua == ub + (ua - ub);
    assert ub * (ua - ub) == {};
  }

  lemma {:induction false} StrictlyShrinks(doc: Document, a: seq<string>, r: ResourceObject)
    requires r in doc.included && KeyOf(r) !in a
    ensures |Unmapped(doc, a + [KeyOf(r)])| < |Unmapped(doc, a)|
  {
    var ua, ub := Unmapped(doc, a), Unmapped(doc, a + [KeyOf(r)]);
    assert ub <= ua;
    assert r in ua && r !in ub;
    assert ua == ub + (ua - ub);
    assert ub * (ua - ub) == {};
    assert r in ua - ub;
  }

  /** Every key of `after` not in `before` holds the snapshot of an included resource with that key. */
  ghost predicate AddsIncludedSnapshots(doc: Document, before: IdentityMap, after: IdentityMap) {
    forall k :: k in Keys(after) && k !in Keys(before) ==>
      exists R :: R in doc.included && KeyOf(R) == k && Get(after, k) == Some(Snapshot(R))
  }

  /** How one link resolved: the object found (if any) and the identity map afterwards. */
  datatype Resolution = Resolution(resolved: Option<seq<(Key, Value)>>, identityMap: IdentityMap)

  /** `hydrateResource`: the snapshot is saved, then the relationships are filled. */
  function HydrateSpec(doc: Document, r: ResourceObject, m: IdentityMap): (h: Hydration)
    ensures KeyOf(r) in Keys(h.identityMap)
    ensures Get(h.identityMap, KeyOf(r)) == Some(Snapshot(r))
    ensures forall k :: k in Keys(m) ==> k in Keys(h.identityMap)
    ensures forall k :: k in Keys(m) && k != KeyOf(r) ==> Get(h.identityMap, k) == Get(m, k)
    ensures forall k :: k !in Keys(r.relationships) ==> Get(h.result, k) == Get(Snapshot(r), k)
    decreases |Unmapped(doc, Keys(m) + [KeyOf(r)])|, 3
  {
    var snapshot := Snapshot(r);
    var saved := Put(m, KeyOf(r), snapshot);
    Shrinks(doc, Keys(m) + [KeyOf(r)], Keys(saved));
    RelationshipsSpec(doc, r.relationships, snapshot, saved)
  }

  /** The relationships loop of `hydrateResource`. */
  function RelationshipsSpec(doc: Document, rels: seq<(Key, Relationship)>, result: seq<(Key, Value)>, m: IdentityMap)
    : (h: Hydration)
    ensures forall k :: k in Keys(m) ==> k in Keys(h.identityMap)
    ensures forall k :: k in Keys(m) ==> Get(h.identityMap, k) == Get(m, k)
    ensures forall k :: k !in Keys(rels) ==> Get(h.result, k) == Get(result, k)
    decreases |Unmapped(doc, Keys(m))|, 2, |rels|
  {
    if rels == [] then Hydration(result, m)
    else
      var h := LinksSpec(doc, rels[0].0, rels[0].1.toOne, rels[0].1.links, result, m);
      Shrinks(doc, Keys(m), Keys(h.identityMap));
      RelationshipsSpec(doc, rels[1..], h.result, h.identityMap)
  }

  /** The links loop of one relationship: resolved objects are attached, unresolved links skipped. */
  function LinksSpec(doc: Document, name: Key, toOne: bool, links: seq<Link>, result: seq<(Key, Value)>, m: IdentityMap)
    : (h: Hydration)
    ensures forall k :: k in Keys(m) ==> k in Keys(h.identityMap)
    ensures forall k :: k in Keys(m) ==> Get(h.identityMap, k) == Get(m, k)
    ensures forall k :: k != name ==> Get(h.result, k) == Get(result, k)
    decreases |Unmapped(doc, Keys(m))|, 1, |links|
  {
    if links == [] then Hydration(result, m)
    else
      var res := ResolveSpec(doc, links[0], m);
      Shrinks(doc, Keys(m), Keys(res.identityMap));
      var next := if res.resolved.Some? then Attach(result, name, toOne, res.resolved.value) else result;
      LinksSpec(doc, name, toOne, links[1..], next, res.identityMap)
  }

  /** One link: from the identity map, else by hydrating the included resource, else nothing. */
  function ResolveSpec(doc: Document, link: Link, m: IdentityMap): (res: Resolution)
    ensures forall k :: k in Keys(m) ==> k in Keys(res.identityMap)
    ensures forall k :: k in Keys(m) ==> Get(res.identityMap, k) == Get(m, k)
    ensures IdentityKey(link.linkType, link.linkId) in Keys(m) ==>
      res == Resolution(Get(m, IdentityKey(link.linkType, link.linkId)), m)
    ensures res.resolved.None? ==> res.identityMap == m
    decreases |Unmapped(doc, Keys(m))|, 0
  {
    var key := IdentityKey(link.linkType, link.linkId);
    if key in Keys(m) then Resolution(Get(m, key), m)
    else
      match FindIncluded(doc, link.linkType, link.linkId)
      case None => Resolution(None, m)
      case Some(related) =>
        StrictlyShrinks(doc, Keys(m), related);
        var h := HydrateSpec(doc, related, m);
        Resolution(Some(h.result), h.identityMap)
  }

  /** `hydratePrimaryResources`' loop: each primary resource in order, the identity map shared. */
  function PrimariesSpec(doc: Document, rs: seq<ResourceObject>, m: IdentityMap): (p: (seq<seq<(Key, Value)>>, IdentityMap))
    ensures |p.0| == |rs|
    ensures forall k :: k in Keys(m) ==> k in Keys(p.1)
    decreases |rs|
  {
    if rs == [] then ([], m)
    else
      var h := HydrateSpec(doc, rs[0], m);
      var rest := PrimariesSpec(doc, rs[1..], h.identityMap);
      ([h.result] + rest.0, rest.1)
  }

  /** A PHP list: the items under the keys 0, 1, 2, ... */
  function ListArray(items: seq<seq<(Key, Value)>>): (r: seq<(Key, Value)>)
    ensures |r| == |items|
    ensures forall i :: 0 <= i < |r| ==> r[i] == (IntKey(i), Arr(items[i]))
  {
    seq(|items|, i requires 0 <= i < |items| => (IntKey(i), Arr(items[i])))
  }

  lemma {:induction false} PrimariesAdvance(doc: Document, rs: seq<ResourceObject>, i: int, m: IdentityMap,
                                           items: seq<seq<(Key, Value)>>, h: Hydration)
    requires 0 <= i < |rs| && h == HydrateSpec(doc, rs[i], m)
    ensures items + PrimariesSpec(doc, rs[i..], m).0 == (items + [h.result]) + PrimariesSpec(doc, rs[i + 1..], h.identityMap).0
  {
    assert rs[i..][0] == rs[i] && rs[i..][1..] == rs[i + 1..];
    assert PrimariesSpec(doc, rs[i..], m).0 == [h.result] + PrimariesSpec(doc, rs[i + 1..], h.identityMap).0;
  }

  lemma {:induction false} ListArrayAppend(items: seq<seq<(Key, Value)>>, item: seq<(Key, Value)>)
    ensures ListArray(items + [item]) == ListArray(items) + [(IntKey(|items|), Arr(item))]
  {
    var a, b := ListArray(items + [item]), ListArray(items) + [(IntKey(|items|), Arr(item))];
    assert |a| == |b|;
    forall i | 0 <= i < |a|
      ensures a[i] == b[i]
    {
      if i < |items| {
        assert (items + [item])[i] == items[i];
      }
    }
  }

  /** `hydrate`: the whole document. */
  function HydrateDocument(doc: Document): seq<(Key, Value)> {
    if !HasAnyPrimaryResources(doc) then []
    else
      match doc.primary
      case SingleResource(r) => [(StringKey(r.value.resourceType), Arr(HydrateSpec(doc, r.value, []).result))]
      case ResourceCollection(rs) => [(StringKey(rs[0].resourceType), Arr(ListArray(PrimariesSpec(doc, rs, []).0)))]
  }

  // ---------------------------------------------------------------------------
  // The hydrator
  // ---------------------------------------------------------------------------

  /** `hydrateResultArray`: `id` and `type`, then every attribute. */
  method HydrateResultArray(r: ResourceObject) returns (result: seq<(Key, Value)>)
    ensures result == Snapshot(r)
  {
    result := [(StrKey("id"), Str(r.id)), (StrKey("type"), Str(r.resourceType))];
    var i := 0;
    while i < |r.attributes|
      invariant 0 <= i <= |r.attributes|
      invariant Snapshot(r) == PutAll(result, r.attributes[i..])
    {
      assert r.attributes[i..][0] == r.attributes[i] && r.attributes[i..][1..] == r.attributes[i + 1..];
      result := Put(result, r.attributes[i].0, r.attributes[i].1);
      i := i + 1;
    }
  }

  /** `hydrateResource`, with the identity map passed in and handed back (PHP passes it by reference). */
  method HydrateResource(r: ResourceObject, doc: Document, m: IdentityMap) returns (result: seq<(Key, Value)>, identityMap: IdentityMap)
    ensures Hydration(result, identityMap) == HydrateSpec(doc, r, m)
    decreases |Unmapped(doc, Keys(m) + [KeyOf(r)])|, 3
  {
    result := HydrateResultArray(r);
    identityMap := SaveObjectToMap(r, result, m);
    Shrinks(doc, Keys(m) + [KeyOf(r)], Keys(identityMap));
    result, identityMap := FillRelationships(doc, r.relationships, result, identityMap);
  }

  /** The relationships loop of `hydrateResource`. */
  method FillRelationships(doc: Document, rels: seq<(Key, Relationship)>, result0: seq<(Key, Value)>, m: IdentityMap)
    returns (result: seq<(Key, Value)>, identityMap: IdentityMap)
    ensures Hydration(result, identityMap) == RelationshipsSpec(doc, rels, result0, m)
    decreases |Unmapped(doc, Keys(m))|, 2
  {
    result, identityMap := result0, m;
    var i := 0;
    while i < |rels|
      invariant 0 <= i <= |rels|
      invariant RelationshipsSpec(doc, rels, result0, m) == RelationshipsSpec(doc, rels[i..], result, identityMap)
      invariant forall k :: k in Keys(m) ==> k in Keys(identityMap)
    {
      assert rels[i..][0] == rels[i] && rels[i..][1..] == rels[i + 1..];
      Shrinks(doc, Keys(m), Keys(identityMap));
      result, identityMap := FillLinks(doc, rels[i].0, rels[i].1.toOne, rels[i].1.links, result, identityMap);
      i := i + 1;
    }
  }

  /** The links loop of one relationship. */
  method FillLinks(doc: Document, name: Key, toOne: bool, links: seq<Link>, result0: seq<(Key, Value)>, m: IdentityMap)
    returns (result: seq<(Key, Value)>, identityMap: IdentityMap)
    ensures Hydration(result, identityMap) == LinksSpec(doc, name, toOne, links, result0, m)
    decreases |Unmapped(doc, Keys(m))|, 1
  {
    result, identityMap := result0, m;
    var j := 0;
    while j < |links|
      invariant 0 <= j <= |links|
      invariant LinksSpec(doc, name, toOne, links, result0, m) == LinksSpec(doc, name, toOne, links[j..], result, identityMap)
      invariant forall k :: k in Keys(m) ==> k in Keys(identityMap)
    {
      LinksStep(doc, name, toOne, links, j, result, identityMap);
      Shrinks(doc, Keys(m), Keys(identityMap));
      var resolved;
      resolved, identityMap := ResolveLink(doc, links[j], identityMap);
      if resolved.Some? {
        result := AttachLink(result, name, toOne, resolved.value);
      }
      j := j + 1;
    }
  }

  /** The body of the links loop once the link is resolved: assign to-one, append to-many. */
  method AttachLink(result0: seq<(Key, Value)>, name: Key, toOne: bool, resolved: seq<(Key, Value)>)
    returns (result: seq<(Key, Value)>)
    ensures result == Attach(result0, name, toOne, resolved)
  {
    if toOne {
      return Put(result0, name, Arr(resolved));
    }
    var items := ToManyItems(result0, name);
    result := Put(result0, name, Arr(items + [(IntKey(|items|), Arr(resolved))]));
  }

  lemma LinksStep(doc: Document, name: Key, toOne: bool, links: seq<Link>, j: int, result: seq<(Key, Value)>, m: IdentityMap)
    requires 0 <= j < |links|
    ensures var res := ResolveSpec(doc, links[j], m);
      LinksSpec(doc, name, toOne, links[j..], result, m)
      == LinksSpec(doc, name, toOne, links[j + 1..],
                   if res.resolved.Some? then Attach(result, name, toOne, res.resolved.value) else result,
                   res.identityMap)
  {
    assert links[j..][0] == links[j] && links[j..][1..] == links[j + 1..];
  }

  /** One link of the links loop: the identity map first, then `included`. */
  method ResolveLink(doc: Document, link: Link, m: IdentityMap) returns (resolved: Option<seq<(Key, Value)>>, identityMap: IdentityMap)
    ensures Resolution(resolved, identityMap) == ResolveSpec(doc, link, m)
    decreases |Unmapped(doc, Keys(m))|, 0
  {
    identityMap := m;
    resolved := GetObjectFromMap(link.linkType, link.linkId, identityMap);
    if resolved.None? && HasIncludedResource(doc, link.linkType, link.linkId) {
      var related := FindIncluded(doc, link.linkType, link.linkId);
      if related.Some? {
        StrictlyShrinks(doc, Keys(m), related.value);
        var hydrated;
        hydrated, identityMap := HydrateResource(related.value, doc, identityMap);
        resolved := Some(hydrated);
      }
    }
  }

  /** `saveObjectToMap`: the hydrated array under the resource's `type-id`. */
  function SaveObjectToMap(r: ResourceObject, hydrated: seq<(Key, Value)>, m: IdentityMap): (saved: IdentityMap)
    ensures Get(saved, KeyOf(r)) == Some(hydrated)
    ensures forall k :: k != KeyOf(r) ==> Get(saved, k) == Get(m, k)
  {
    Put(m, KeyOf(r), hydrated)
  }

  /** `getObjectFromMap`: the entry under `type-id`, or null. */
  function GetObjectFromMap(resourceType: string, id: string, m: IdentityMap): (r: Option<seq<(Key, Value)>>)
    ensures r.Some? <==> IdentityKey(resourceType, id) in Keys(m)
  {
    Get(m, IdentityKey(resourceType, id))
  }

  /** `hasIncludedResource($type, $id)`. */
  predicate HasIncludedResource(doc: Document, resourceType: string, id: string) {
    exists R :: R in doc.included && R.resourceType == resourceType && R.id == id
  }

  /** `hydratePrimaryResource`: a fresh identity map. */
  method HydratePrimaryResource(doc: Document) returns (result: seq<(Key, Value)>)
    requires doc.primary.SingleResource? && doc.primary.resource.Some?
    ensures result == HydrateSpec(doc, doc.primary.resource.value, []).result
  {
    var identityMap;
    result, identityMap := HydrateResource(doc.primary.resource.value, doc, []);
  }

  /** `hydratePrimaryResources`: every primary resource under the first one's type, one identity map for all. */
  method HydratePrimaryResources(doc: Document) returns (r: seq<(Key, Value)>)
    requires doc.primary.ResourceCollection?
    ensures |doc.primary.resources| > 0 ==>
      r == [(StringKey(doc.primary.resources[0].resourceType), Arr(ListArray(PrimariesSpec(doc, doc.primary.resources, []).0)))]
    ensures |doc.primary.resources| == 0 ==> r == [(StrKey(""), Arr([]))]
  {
    var result, resourceType := HydrateEach(doc, doc.primary.resources);
    // `[null => ...]` stores the list under the empty string.
    var typeKey := if resourceType.Some? then StringKey(resourceType.value) else StrKey("");
    r := [(typeKey, Arr(result))];
  }

  /** The loop of `hydratePrimaryResources`: `$result[] = ...` for each resource, remembering the first type. */
  method HydrateEach(doc: Document, rs: seq<ResourceObject>) returns (result: seq<(Key, Value)>, resourceType: Option<string>)
    ensures result == ListArray(PrimariesSpec(doc, rs, []).0)
    ensures resourceType == if rs == [] then None else Some(rs[0].resourceType)
  {
    result := [];
    resourceType := None;
    ghost var items: seq<seq<(Key, Value)>> := [];
    var identityMap: IdentityMap := [];
    var i := 0;
    while i < |rs|
      invariant 0 <= i <= |rs|
      invariant resourceType == if i == 0 then None else Some(rs[0].resourceType)
      invariant |items| == i && result == ListArray(items)
      invariant PrimariesSpec(doc, rs, []).0 == items + PrimariesSpec(doc, rs[i..], identityMap).0
    {
      if resourceType.None? {
        resourceType := Some(rs[i].resourceType);
      }
      var hydrated, updated := HydrateResource(rs[i], doc, identityMap);
      PrimariesAdvance(doc, rs, i, identityMap, items, Hydration(hydrated, updated));
      identityMap := updated;
      ListArrayAppend(items, hydrated);
      result := result + [(IntKey(|result|), Arr(hydrated))];
      items := items + [hydrated];
      i := i + 1;
    }
    assert rs[i..] == [];
    assert PrimariesSpec(doc, rs, []).0 == items + [] == items;
  }

  /** `hydrate`. */
  method Hydrate(doc: Document) returns (r: seq<(Key, Value)>)
    ensures r == HydrateDocument(doc)
  {
    if !HasAnyPrimaryResources(doc) {
      return [];
    }
    if doc.primary.SingleResource? && doc.primary.resource.Some? {
      var hydrated := HydratePrimaryResource(doc);
      return [(StringKey(doc.primary.resource.value.resourceType), Arr(hydrated))];
    }
    r := HydratePrimaryResources(doc);
  }

  // ---------------------------------------------------------------------------
  // Properties
  // ---------------------------------------------------------------------------

  /**
   * Section 5.2.2 of JSON:API 1.0: a resource's attributes and relationships
   * share one namespace with `id` and `type`, and none of them may be named
   * `id` or `type`.
   */
  predicate FieldNamespace(r: ResourceObject) {
    && StrKey("id") !in Keys(r.attributes) && StrKey("type") !in Keys(r.attributes)
    && StrKey("id") !in Keys(r.relationships) && StrKey("type") !in Keys(r.relationships)
  }

  /** A snapshot starts with `id` and `type`, which keep the resource's own values, followed by the attributes. */
  lemma {:induction false} SnapshotShape(r: ResourceObject)
    requires FieldNamespace(r)
    ensures Get(Snapshot(r), StrKey("id")) == Some(Str(r.id))
    ensures Get(Snapshot(r), StrKey("type")) == Some(Str(r.resourceType))
    ensures Keys(Snapshot(r)) == AppendNew([StrKey("id"), StrKey("type")], Keys(r.attributes))
    ensures forall k :: k in Keys(r.attributes) ==> Get(Snapshot(r), k) == Some(LastValue(r.attributes, k))
  {
    var base := [(StrKey("id"), Str(r.id)), (StrKey("type"), Str(r.resourceType))];
    assert Keys(base) == [StrKey("id"), StrKey("type")];
    PutAllKeys(base, r.attributes);
    PutAllGet(base, r.attributes, StrKey("id"));
    PutAllGet(base, r.attributes, StrKey("type"));
    forall k | k in Keys(r.attributes)
      ensures Get(Snapshot(r), k) == Some(LastValue(r.attributes, k))
    {
      PutAllGet(base, r.attributes, k);
    }
  }

  /** A hydrated array that holds the `id` and `type` of its resource. */
  predicate KeepsIdentity(hydrated: seq<(Key, Value)>, r: ResourceObject) {
    Get(hydrated, StrKey("id")) == Some(Str(r.id)) && Get(hydrated, StrKey("type")) == Some(Str(r.resourceType))
  }

  /** A hydrated resource keeps the `id` and `type` of its snapshot: relationships never overwrite them. */
  lemma HydratedIdentity(doc: Document, r: ResourceObject, m: IdentityMap)
    requires FieldNamespace(r)
    ensures KeepsIdentity(HydrateSpec(doc, r, m).result, r)
  {
    SnapshotShape(r);
  }

  /** A document without primary resources hydrates to the empty array. */
  lemma EmptyDocument(doc: Document)
    requires !HasAnyPrimaryResources(doc)
    ensures HydrateDocument(doc) == []
  {
  }

  /** A single-resource document hydrates to one entry, under the resource's type, holding its `id` and `type`. */
  lemma SingleResourceDocument(doc: Document)
    requires doc.primary.SingleResource? && doc.primary.resource.Some?
    requires FieldNamespace(doc.primary.resource.value)
    ensures var r := doc.primary.resource.value;
      Keys(HydrateDocument(doc)) == [StringKey(r.resourceType)]
      && HydrateDocument(doc)[0].1.Arr?
      && Get(HydrateDocument(doc)[0].1.entries, StrKey("id")) == Some(Str(r.id))
  {
    HydratedIdentity(doc, doc.primary.resource.value, []);
  }

  /** Each primary resource's hydration keeps its own `id` and `type`, in order. */
  lemma {:induction false} PrimariesIdentity(doc: Document, rs: seq<ResourceObject>, m: IdentityMap)
    requires forall i :: 0 <= i < |rs| ==> FieldNamespace(rs[i])
    ensures forall i :: 0 <= i < |rs| ==> KeepsIdentity(PrimariesSpec(doc, rs, m).0[i], rs[i])
    decreases |rs|
  {
    if rs != [] {
      var h := HydrateSpec(doc, rs[0], m);
      var rest := PrimariesSpec(doc, rs[1..], h.identityMap);
      assert PrimariesSpec(doc, rs, m).0 == [h.result] + rest.0;
      HydratedIdentity(doc, rs[0], m);
      PrimariesIdentity(doc, rs[1..], h.identityMap);
      forall i | 0 <= i < |rs|
        ensures KeepsIdentity(PrimariesSpec(doc, rs, m).0[i], rs[i])
      {
        if i > 0 {
          assert rs[1..][i - 1] == rs[i];
        }
      }
    }
  }

  /**
   * A collection document hydrates to one entry under the FIRST resource's
   * type, holding every primary resource in order, whatever its type.
   */
  lemma CollectionDocument(doc: Document)
    requires doc.primary.ResourceCollection? && |doc.primary.resources| > 0
    requires forall i :: 0 <= i < |doc.primary.resources| ==> FieldNamespace(doc.primary.resources[i])
    ensures var rs := doc.primary.resources;
      Keys(HydrateDocument(doc)) == [StringKey(rs[0].resourceType)]
      && HydrateDocument(doc)[0].1.Arr?
      && |HydrateDocument(doc)[0].1.entries| == |rs|
      && forall i :: 0 <= i < |rs| ==>
           HydrateDocument(doc)[0].1.entries[i].0 == IntKey(i)
           && HydrateDocument(doc)[0].1.entries[i].1.Arr?
           && Get(HydrateDocument(doc)[0].1.entries[i].1.entries, StrKey("type")) == Some(Str(rs[i].resourceType))
  {
    PrimariesIdentity(doc, doc.primary.resources, []);
  }

  /** A link already in the identity map is served from it, and nothing is hydrated. */
  lemma {:induction false} LinkFromMap(doc: Document, name: Key, toOne: bool, link: Link, result: seq<(Key, Value)>, m: IdentityMap)
    requires IdentityKey(link.linkType, link.linkId) in Keys(m)
    ensures LinksSpec(doc, name, toOne, [link], result, m)
         == Hydration(Attach(result, name, toOne, Get(m, IdentityKey(link.linkType, link.linkId)).value), m)
  {
    LinksFromMapStep(doc, name, toOne, [link], result, m);
    assert [link][0] == link && [link][1..] == [];
  }

  /**
   * A link not yet in the identity map but present in `included` is resolved
   * by hydrating that resource, recursively, with the current identity map.
   */
  lemma IncludedLinkHydrated(doc: Document, link: Link, m: IdentityMap)
    requires IdentityKey(link.linkType, link.linkId) !in Keys(m)
    requires FindIncluded(doc, link.linkType, link.linkId).Some?
    ensures var h := HydrateSpec(doc, FindIncluded(doc, link.linkType, link.linkId).value, m);
      ResolveSpec(doc, link, m) == Resolution(Some(h.result), h.identityMap)
  {
  }

  /**
   * A to-one link to an unmapped included resource sets the field to that
   * resource's hydration, saves the resource's snapshot under the link's key,
   * and, inside the field namespace, the field carries the resource's `id`
   * and `type`.
   */
  lemma {:induction false} ToOneIncludedLink(doc: Document, name: Key, link: Link, result: seq<(Key, Value)>, m: IdentityMap)
    requires IdentityKey(link.linkType, link.linkId) !in Keys(m)
    requires FindIncluded(doc, link.linkType, link.linkId).Some?
    ensures var R := FindIncluded(doc, link.linkType, link.linkId).value;
      var h := HydrateSpec(doc, R, m);
      LinksSpec(doc, name, true, [link], result, m) == Hydration(Put(result, name, Arr(h.result)), h.identityMap)
      && Get(LinksSpec(doc, name, true, [link], result, m).result, name) == Some(Arr(h.result))
      && Get(h.identityMap, IdentityKey(link.linkType, link.linkId)) == Some(Snapshot(R))
    ensures var R := FindIncluded(doc, link.linkType, link.linkId).value;
      FieldNamespace(R) ==> KeepsIdentity(HydrateSpec(doc, R, m).result, R)
  {
    var R := FindIncluded(doc, link.linkType, link.linkId).value;
    IncludedLinkHydrated(doc, link, m);
    assert [link][0] == link && [link][1..] == [];
    assert KeyOf(R) == IdentityKey(link.linkType, link.linkId);
    if FieldNamespace(R) {
      HydratedIdentity(doc, R, m);
    }
  }

  /** Links that neither the identity map nor `included` resolves contribute nothing. */
  lemma {:induction false} UnresolvedLinks(doc: Document, name: Key, toOne: bool, links: seq<Link>, result: seq<(Key, Value)>, m: IdentityMap)
    requires forall l :: l in links ==> IdentityKey(l.linkType, l.linkId) !in Keys(m) && !HasIncludedResource(doc, l.linkType, l.linkId)
    ensures LinksSpec(doc, name, toOne, links, result, m) == Hydration(result, m)
    decreases |links|
  {
    if links != [] {
      assert links[0] in links;
      assert forall l :: l in links[1..] ==> l in links;
      UnresolvedLinks(doc, name, toOne, links[1..], result, m);
    }
  }

  /** So a to-many relationship whose links all fail to resolve leaves its field absent. */
  lemma ToManyUnresolvedAbsent(doc: Document, name: Key, links: seq<Link>, result: seq<(Key, Value)>, m: IdentityMap)
    requires name !in Keys(result)
    requires forall l :: l in links ==> IdentityKey(l.linkType, l.linkId) !in Keys(m) && !HasIncludedResource(doc, l.linkType, l.linkId)
    ensures name !in Keys(LinksSpec(doc, name, false, links, result, m).result)
  {
    UnresolvedLinks(doc, name, false, links, result, m);
  }

  /** The map entries a to-many relationship's links resolve to, in link order. */
  function MappedObjects(links: seq<Link>, m: IdentityMap): seq<seq<(Key, Value)>>
    requires forall l :: l in links ==> IdentityKey(l.linkType, l.linkId) in Keys(m)
  {
    if links == [] then []
    else [Get(m, IdentityKey(links[0].linkType, links[0].linkId)).value] + MappedObjects(links[1..], m)
  }

  /** A to-many relationship appends its resolved objects after the items already there, in link order. */
  lemma {:induction false} ToManyAppendsInOrder(doc: Document, name: Key, links: seq<Link>, result: seq<(Key, Value)>, m: IdentityMap, items: seq<seq<(Key, Value)>>)
    requires forall l :: l in links ==> IdentityKey(l.linkType, l.linkId) in Keys(m)
    requires ToManyItems(result, name) == ListArray(items)
    ensures ToManyItems(LinksSpec(doc, name, false, links, result, m).result, name) == ListArray(items + MappedObjects(links, m))
    decreases |links|
  {
    if links == [] {
      assert items + MappedObjects(links, m) == items;
    } else {
      assert links[0] in links;
      var resolved := Get(m, IdentityKey(links[0].linkType, links[0].linkId)).value;
      var next := Attach(result, name, false, resolved);
      LinksFromMapStep(doc, name, false, links, result, m);
      ListArrayAppend(items, resolved);
      assert ToManyItems(next, name) == ListArray(items + [resolved]);
      assert forall l :: l in links[1..] ==> l in links;
      ToManyAppendsInOrder(doc, name, links[1..], next, m, items + [resolved]);
      var later := MappedObjects(links[1..], m);
      assert MappedObjects(links, m) == [resolved] + later;
      ConcatAssociative(items, [resolved], later);
    }
  }

  /** One step of the links loop when the link is already in the identity map. */
  lemma {:induction false} LinksFromMapStep(doc: Document, name: Key, toOne: bool, links: seq<Link>, result: seq<(Key, Value)>, m: IdentityMap)
    requires links != [] && IdentityKey(links[0].linkType, links[0].linkId) in Keys(m)
    ensures LinksSpec(doc, name, toOne, links, result, m)
         == LinksSpec(doc, name, toOne, links[1..], Attach(result, name, toOne, Get(m, IdentityKey(links[0].linkType, links[0].linkId)).value), m)
  {
    var res := ResolveSpec(doc, links[0], m);
    assert res == Resolution(Get(m, IdentityKey(links[0].linkType, links[0].linkId)), m);
  }

  /**
   * A resource that links to itself gets its own attribute-only snapshot:
   * it was saved before its relationships were filled, so there is no
   * second hydration.
   */
  lemma {:induction false} SelfReference(doc: Document, r: ResourceObject, name: Key)
    requires r.relationships == [(name, Relationship(true, [Link(r.resourceType, r.id)]))]
    ensures HydrateSpec(doc, r, []).result == Put(Snapshot(r), name, Arr(Snapshot(r)))
  {
    var snapshot := Snapshot(r);
    var saved := Put([], KeyOf(r), snapshot);
    assert HydrateSpec(doc, r, []) == RelationshipsSpec(doc, r.relationships, snapshot, saved);
    LinkFromMap(doc, name, true, Link(r.resourceType, r.id), snapshot, saved);
    var h := LinksSpec(doc, name, true, [Link(r.resourceType, r.id)], snapshot, saved);
    assert h.result == Put(snapshot, name, Arr(snapshot));
    assert r.relationships[0] == (name, Relationship(true, [Link(r.resourceType, r.id)])) && r.relationships[1..] == [];
    assert RelationshipsSpec(doc, r.relationships, snapshot, saved) == RelationshipsSpec(doc, [], h.result, h.identityMap);
  }

  /** Different type/id pairs can share an identity key: the key joins them with a `-` that either may contain. */
  lemma IdentityKeyCollision()
    ensures IdentityKey("user-group", "7") == IdentityKey("user", "group-7")
  {
  }
}
