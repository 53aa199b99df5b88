/**
 * The XML request encoder (`XmlRequestEncoder`): builds an element tree,
 * rooted at `data`, from a nested PHP array, and post-processes decoded XML
 * by turning empty arrays into strings.
 *
 * The document is modelled as a tree of values. XML parsing (`simplexml` and
 * the JSON round trip that follows it) and the serialisation of the tree
 * (`saveXML`) are parameters.
 */
module XmlRequestEncoding {
  import opened Php
  import opened Http

  const RootNode: string := "data"
  const XmlContentType: string := "application/xml"

  /** A DOM node: an element with its attributes (in the order they were set) and children. */
  datatype XmlNode =
    | Element(name: string, attributes: seq<(string, string)>, children: seq<XmlNode>)
    | Text(text: string)
    | CData(text: string)

  datatype XmlError =
    | InvalidAttributeName(attribute: string, node: string)
    | InvalidNodeName(key: string, node: string)
      /** An integer key where a name is expected: a type error under strict types. */
    | IntegerName(index: int, node: string)
      /** An object without a string conversion where text is expected. */
    | NotStringable(node: string)
      /** A name the DOM refuses to create (`DOMException`, invalid character). */
    | DomNameRejected(name: string)

  // ---------------------------------------------------------------------------
  // Tag names (`isValidXmlTag`)
  // ---------------------------------------------------------------------------

  /** `[a-z_]` under the case-insensitive flag. */
  predicate IsTagStart(c: char) {
    'a' <= c <= 'z' || 'A' <= c <= 'Z' || c == '_'
  }

  /** `[a-z0-9:\-._]` under the case-insensitive flag. */
  predicate IsTagChar(c: char) {
    IsTagStart(c) || IsDigit(c) || c == ':' || c == '-' || c == '.'
  }

  /** What may follow the first character: tag characters, then anything without a colon. */
  predicate TagTail(t: string) {
    ':' !in t || (t != [] && IsTagChar(t[0]) && TagTail(t[1..]))
  }

  /**
   * `isValidXmlTag`: the whole name matches `^[a-z_]+[a-z0-9:\-._]*[^:]*$`
   * case-insensitively.
   */
  predicate IsValidXmlTag(name: string) {
    name != [] && IsTagStart(name[0]) && TagTail(name[1..])
  }

  /** `s[..a]`, `s[a..b]` and `s[b..]` match the three runs of the pattern. */
  ghost predicate PatternSplit(s: string, a: int, b: int) {
    1 <= a <= b <= |s|
    && (forall i :: 0 <= i < a ==> IsTagStart(s[i]))
    && (forall i :: a <= i < b ==> IsTagChar(s[i]))
    && ':' !in s[b..]
  }

  /** The pattern read literally: three consecutive runs, the first non-empty. */
  ghost predicate MatchesTagPattern(s: string) {
    exists a, b :: PatternSplit(s, a, b)
  }

  lemma {:induction false} TagTailSplit(t: string) returns (n: nat)
    requires TagTail(t)
    ensures n <= |t| && (forall i :: 0 <= i < n ==> IsTagChar(t[i])) && ':' !in t[n..]
  {
    if ':' in t {
      var m := TagTailSplit(t[1..]);
      n := m + 1;
      assert t[n..] == t[1..][m..];
      forall i | 0 <= i < n
        ensures IsTagChar(t[i])
      {
        if i > 0 {
          assert t[i] == t[1..][i - 1];
        }
      }
    } else {
      n := 0;
    }
  }

  lemma {:induction false} TagTailFromSplit(t: string, n: nat)
    requires n <= |t| && (forall i :: 0 <= i < n ==> IsTagChar(t[i])) && ':' !in t[n..]
    ensures TagTail(t)
  {
    if n > 0 {
      assert t[1..][n - 1..] == t[n..];
      TagTailFromSplit(t[1..], n - 1);
    } else {
      assert t[n..] == t;
    }
  }

  /** The scan agrees with the pattern, both ways. */
  lemma TagPatternEquivalence(s: string)
    ensures IsValidXmlTag(s) <==> MatchesTagPattern(s)
  {
    if IsValidXmlTag(s) {
      var n := TagTailSplit(s[1..]);
      assert s[1 + n..] == s[1..][n..];
      forall i | 1 <= i < 1 + n
        ensures IsTagChar(s[i])
      {
        assert s[i] == s[1..][i - 1];
      }
      assert PatternSplit(s, 1, 1 + n);
    }
    if MatchesTagPattern(s) {
      var a, b :| PatternSplit(s, a, b);
      var t := s[1..];
      forall i | 0 <= i < b - 1
        ensures IsTagChar(t[i])
      {
        assert t[i] == s[i + 1];
      }
      assert t[b - 1..] == s[b..];
      TagTailFromSplit(t, b - 1);
    }
  }

  /** A valid name is non-empty and starts with a letter or an underscore. */
  lemma ValidTagStart(name: string)
    requires IsValidXmlTag(name)
    ensures |name| > 0 && IsTagStart(name[0]) && !IsDigit(name[0]) && name[0] != ':'
  {
  }

  /** The pattern's last run admits spaces and punctuation after a valid start, and a trailing colon. */
  lemma PermissiveTags()
    ensures IsValidXmlTag("bad tag!")
    ensures IsValidXmlTag("a:")
    ensures !IsValidXmlTag("")
    ensures !IsValidXmlTag("1a")
    ensures !IsValidXmlTag("a b:c")
  {
    assert "bad tag!"[1..] == "ad tag!";
    assert ':' !in "ad tag!";
    assert "a:"[1..] == ":" && ":"[1..] == [];
    assert "a b:c"[1..] == " b:c";
    assert "a b:c"[3] == ':';
  }

  // ---------------------------------------------------------------------------
  // Names the DOM accepts (`createElement`, `setAttribute`)
  // ---------------------------------------------------------------------------

  /** A character outside ASCII that may start an XML 1.0 (fifth edition) `Name`. */
  predicate IsWideNameStart(c: char) {
    var n := c as int;
    (0xC0 <= n <= 0xD6) || (0xD8 <= n <= 0xF6) || (0xF8 <= n <= 0x2FF) || (0x370 <= n <= 0x37D)
    || (0x37F <= n <= 0x1FFF) || (0x200C <= n <= 0x200D) || (0x2070 <= n <= 0x218F)
    || (0x2C00 <= n <= 0x2FEF) || (0x3001 <= n <= 0xD7FF) || (0xF900 <= n <= 0xFDCF)
    || (0xFDF0 <= n <= 0xFFFD) || (0x10000 <= n <= 0xEFFFF)
  }

  /** `NameStartChar`: a letter, `_` or `:`. */
  predicate IsNameStart(c: char) {
    'a' <= c <= 'z' || 'A' <= c <= 'Z' || c == '_' || c == ':' || IsWideNameStart(c)
  }

  /** `NameChar`: a start character, a digit, `-`, `.` or a combining mark. */
  predicate IsNameChar(c: char) {
    var n := c as int;
    IsNameStart(c) || IsDigit(c) || c == '-' || c == '.'
    || n == 0xB7 || (0x300 <= n <= 0x36F) || (0x203F <= n <= 0x2040)
  }

  /**
   * The check `DOMDocument::createElement` and `DOMElement::setAttribute`
   * make before creating a name (the XML 1.0 `Name` production); a name
   * that fails it raises a `DOMException`.
   */
  predicate IsXmlName(name: string) {
    name != [] && IsNameStart(name[0]) && forall i :: 1 <= i < |name| ==> IsNameChar(name[i])
  }

  /** A valid tag made only of the pattern's second run of characters is a name the DOM accepts. */
  lemma TagCharsMakeXmlName(name: string)
    requires IsValidXmlTag(name)
    requires forall i :: 0 <= i < |name| ==> IsTagChar(name[i])
    ensures IsXmlName(name)
  {
  }

  /** The tag test admits names the DOM refuses: a space, a `!`, or a leading `:` in the last run. */
  lemma TagTestAdmitsDomRejected()
    ensures IsValidXmlTag("bad tag!") && !IsXmlName("bad tag!")
    ensures IsValidXmlTag("a:b c") && !IsXmlName("a:b c")
    ensures IsXmlName(RootNode) && IsXmlName("a:")
  {
    PermissiveTags();
    assert "bad tag!"[3] == ' ';
    assert "a:b c"[3] == ' ';
    assert "a:b c"[1..] == ":b c" && ":b c"[1..] == "b c" && ':' !in "b c";
  }

  /** A valid name never counts as numeric, so a key that names an element never starts a list. */
  lemma ValidTagNotNumeric(name: string)
    requires IsValidXmlTag(name)
    ensures !IsNumericString(name)
  {
    var c := name[0];
    assert !IsNumericWhitespace(c) && !IsDigit(c) && c != '+' && c != '-' && c != '.';
    assert SkipWhitespace(name) == name;
    assert DigitRun(name) == 0;
    assert name[0..] == name;
  }

  // ---------------------------------------------------------------------------
  // Text (`xToString`)
  // ---------------------------------------------------------------------------

  /**
   * `xToString`: booleans become `true`/`false`, everything else takes PHP's
   * string cast (`null` is empty, an array is `Array`, an object needs a
   * string conversion).
   */
  function XToString(v: Value): (r: Option<string>)
    ensures v.Bool? ==> r == Some(if v.b then "true" else "false")
    ensures v.Str? ==> r == Some(v.s)
    ensures v.Int? ==> r == Some(IntToString(v.i))
    ensures r.None? <==> v.Object? && v.obj.stringCast.None?
  {
    match v
    case Null => Some("")
    case Bool(b) => Some(if b then "true" else "false")
    case Int(i) => Some(IntToString(i))
    case Str(s) => Some(s)
    case Arr(_) => Some("Array")
    case Object(o) => o.stringCast
  }

  /** Unlike the plain string cast, `false` is not rendered as the empty string. */
  lemma BooleansAreWords()
    ensures XToString(Bool(false)) == Some("false") != XToString(Null)
    ensures XToString(Bool(true)) == Some("true") != XToString(Int(1))
  {
  }

  // ---------------------------------------------------------------------------
  // The tree builder (`createXmlNode`, `appendXmlAttribute`)
  // ---------------------------------------------------------------------------

  /** `isset($m[$k])`: present and not `null`. */
  predicate IsSet(m: seq<(Key, Value)>, k: string) {
    Get(m, StrKey(k)).Some? && !Get(m, StrKey(k)).value.Null?
  }

  /**
   * The `@attributes` loop: each key is validated, its value turned into text,
   * then `setAttribute` checks the name and stores the text.
   */
  function SetAttributes(node: string, attributes: seq<(string, string)>, entries: seq<(Key, Value)>)
    : (r: Result<seq<(string, string)>, XmlError>)
    decreases |entries|
    ensures r.Ok? ==> forall e :: e in entries ==> e.0.StrKey? && IsValidXmlTag(e.0.s) && IsXmlName(e.0.s) && e.0.s in Keys(r.value)
    ensures r.Ok? ==> forall a :: a in Keys(attributes) ==> a in Keys(r.value)
  {
    if entries == [] then Ok(attributes)
    else
      var k := entries[0].0;
      if k.IntKey? then Err(IntegerName(k.i, node))
      else if !IsValidXmlTag(k.s) then Err(InvalidAttributeName(k.s, node))
      else match XToString(entries[0].1)
        case None => Err(NotStringable(node))
        case Some(text) =>
          if !IsXmlName(k.s) then Err(DomNameRejected(k.s))
          else
            var r := SetAttributes(node, Put(attributes, k.s, text), entries[1..]);
            assert forall e :: e in entries ==> e == entries[0] || e in entries[1..];
            r
  }

  /** The first result's error, or both results' nodes in order. */
  function Concat(a: Result<seq<XmlNode>, XmlError>, b: Result<seq<XmlNode>, XmlError>): Result<seq<XmlNode>, XmlError> {
    if a.Err? then a else if b.Err? then b else Ok(a.value + b.value)
  }

  /**
   * `createXmlNode($name, $value)`. A non-array value becomes the element's
   * text. For an array, a set `@attributes` is applied first and dropped,
   * then a set `@value` becomes the only text, else a set `@cdata` the only
   * CDATA section; otherwise every remaining key, validated in order, is
   * expanded into child elements. The element itself is created first, so a
   * name the DOM refuses fails before anything else.
   */
  function CreateNode(name: string, value: Value): (r: Result<XmlNode, XmlError>)
    ensures !IsXmlName(name) ==> r == Err(DomNameRejected(name))
    ensures r.Ok? ==> r.value.Element? && r.value.name == name
    decreases value, 2
  {
    if !IsXmlName(name) then Err(DomNameRejected(name))
    else if !value.Arr? then
      match XToString(value)
      case None => Err(NotStringable(name))
      case Some(text) => Ok(Element(name, [], [Text(text)]))
    else
      var m := value.entries;
      var attributes :=
        if IsSet(m, "@attributes") then SetAttributes(name, [], CastToArray(Get(m, StrKey("@attributes")).value))
        else Ok([]);
      if attributes.Err? then Err(attributes.error)
      else
        var rest := if IsSet(m, "@attributes") then Remove(m, StrKey("@attributes")) else m;
        if IsSet(rest, "@value") then
          match XToString(Get(rest, StrKey("@value")).value)
          case None => Err(NotStringable(name))
          case Some(text) => Ok(Element(name, attributes.value, [Text(text)]))
        else if IsSet(rest, "@cdata") then
          match XToString(Get(rest, StrKey("@cdata")).value)
          case None => Err(NotStringable(name))
          case Some(text) => Ok(Element(name, attributes.value, [CData(text)]))
        else
          match Children(name, value, rest)
          case Err(e) => Err(e)
          case Ok(children) => Ok(Element(name, attributes.value, children))
  }

  /** The key loop of `createXmlNode` over the pairs `es` of the array `parent`. */
  function Children(node: string, ghost parent: Value, es: seq<(Key, Value)>): (r: Result<seq<XmlNode>, XmlError>)
    requires parent.Arr? && forall p :: p in es ==> p in parent.entries
    decreases parent, 1, |es|
  {
    if es == [] then Ok([])
    else
      var k := es[0].0;
      assert es[0] in parent.entries;
      if k.IntKey? then Err(IntegerName(k.i, node))
      else if !IsValidXmlTag(k.s) then Err(InvalidNodeName(k.s, node))
      else Concat(AppendValue(k.s, es[0].1), Children(node, parent, es[1..]))
  }

  /** Whether `appendXmlAttribute` spreads `value` into sibling elements: an array whose first key is numeric. */
  predicate IsList(value: Value) {
    value.Arr? && value.entries != [] && IsNumericKey(value.entries[0].0)
  }

  /**
   * `appendXmlAttribute($node, $name, $value)`: the elements added under the
   * parent, one per item for a list, else one.
   */
  function AppendValue(name: string, value: Value): (r: Result<seq<XmlNode>, XmlError>)
    ensures r.Ok? && !IsList(value) ==> |r.value| == 1
    decreases value, 3
  {
    if IsList(value) then Siblings(name, value, value.entries)
    else match CreateNode(name, value)
      case Err(e) => Err(e)
      case Ok(node) => Ok([node])
  }

  /** One element named `name` per item of `es`, in order. */
  function Siblings(name: string, ghost parent: Value, es: seq<(Key, Value)>): (r: Result<seq<XmlNode>, XmlError>)
    requires parent.Arr? && forall p :: p in es ==> p in parent.entries
    ensures r.Ok? ==> |r.value| == |es| && forall i :: 0 <= i < |es| ==> r.value[i].Element? && r.value[i].name == name
    decreases parent, 0, |es|
  {
    if es == [] then Ok([])
    else
      assert es[0] in parent.entries;
      var first := CreateNode(name, es[0].1);
      if first.Err? then Err(first.error)
      else
        var more := Siblings(name, parent, es[1..]);
        if more.Err? then more else Ok([first.value] + more.value)
  }

  /** The element tree `encode` puts in the document. */
  function Encoded(data: seq<(Key, Value)>): (r: Result<XmlNode, XmlError>)
    ensures r.Ok? ==> r.value.Element? && r.value.name == RootNode
  {
    CreateNode(RootNode, Arr(data))
  }

  // ---------------------------------------------------------------------------
  // Properties of the tree builder
  // ---------------------------------------------------------------------------

  /** Attributes are applied first: `@attributes` is never an element, and attributes sit beside `@value`. */
  lemma AttributesBeforeValue(name: string, m: seq<(Key, Value)>, attribute: string, text: string)
    requires Get(m, StrKey("@attributes")) == Some(Arr([(StrKey(attribute), Str("x"))]))
    requires Get(m, StrKey("@value")) == Some(Str(text))
    requires IsXmlName(name) && IsValidXmlTag(attribute) && IsXmlName(attribute)
    ensures CreateNode(name, Arr(m)) == Ok(Element(name, [(attribute, "x")], [Text(text)]))
  {
    var pairs := [(StrKey(attribute), Str("x"))];
    OneAttribute(name, attribute);
    assert IsSet(m, "@attributes") && CastToArray(Arr(pairs)) == pairs;
    var rest := Remove(m, StrKey("@attributes"));
    assert StrKey("@value") != StrKey("@attributes");
    assert Get(rest, StrKey("@value")) == Some(Str(text)) && IsSet(rest, "@value");
    assert XToString(Str(text)) == Some(text);
  }

  lemma OneAttribute(name: string, attribute: string)
    requires IsValidXmlTag(attribute) && IsXmlName(attribute)
    ensures SetAttributes(name, [], [(StrKey(attribute), Str("x"))]) == Ok([(attribute, "x")])
  {
    var entries := [(StrKey(attribute), Str("x"))];
    assert entries[1..] == [];
  }

  /** A set `@value` wins over `@cdata` and over every other key, valid or not. */
  lemma ValueStopsRecursion(name: string, m: seq<(Key, Value)>, text: string)
    requires IsXmlName(name) && !IsSet(m, "@attributes")
    requires Get(m, StrKey("@value")) == Some(Str(text))
    ensures CreateNode(name, Arr(m)) == Ok(Element(name, [], [Text(text)]))
  {
  }

  /** Without `@value`, a set `@cdata` becomes the only child, as a CDATA section. */
  lemma CDataStopsRecursion(name: string, m: seq<(Key, Value)>, text: string)
    requires IsXmlName(name) && !IsSet(m, "@attributes") && !IsSet(m, "@value")
    requires Get(m, StrKey("@cdata")) == Some(Str(text))
    ensures CreateNode(name, Arr(m)) == Ok(Element(name, [], [CData(text)]))
  {
  }

  /**
   * `isset` treats a `null` marker as absent: the key then stays an ordinary
   * key, fails validation and names its node in the error.
   */
  lemma NullMarkerIsInvalidName(name: string)
    requires IsXmlName(name)
    ensures CreateNode(name, Arr([(StrKey("@value"), Null)])) == Err(InvalidNodeName("@value", name))
  {
    var m := [(StrKey("@value"), Null)];
    assert !IsValidXmlTag("@value");
    assert !IsSet(m, "@attributes") && !IsSet(m, "@cdata");
    assert m[1..] == [];
  }

  /** The first invalid key, scanning in order, is the one reported, with its parent node. */
  lemma {:induction false} InvalidKeyReported(node: string, parent: Value, es: seq<(Key, Value)>, i: int)
    requires parent.Arr? && forall p :: p in es ==> p in parent.entries
    requires 0 <= i < |es| && es[i].0.StrKey? && !IsValidXmlTag(es[i].0.s)
    requires forall j :: 0 <= j < i ==> es[j].0.StrKey? && IsValidXmlTag(es[j].0.s) && AppendValue(es[j].0.s, es[j].1).Ok?
    ensures Children(node, parent, es) == Err(InvalidNodeName(es[i].0.s, node))
    decreases i
  {
    if i > 0 {
      assert forall p :: p in es[1..] ==> p in es;
      assert forall j :: 0 <= j < i - 1 ==> es[1..][j] == es[j + 1];
      InvalidKeyReported(node, parent, es[1..], i - 1);
    }
  }

  /** A list value becomes one sibling element per item, all with the parent key's name, in order. */
  lemma ListBecomesSiblings(name: string, items: seq<(Key, Value)>)
    requires IsList(Arr(items))
    requires AppendValue(name, Arr(items)).Ok?
    ensures |AppendValue(name, Arr(items)).value| == |items|
    ensures forall i :: 0 <= i < |items| ==>
      CreateNode(name, items[i].1).Ok? && AppendValue(name, Arr(items)).value[i] == CreateNode(name, items[i].1).value
  {
    SiblingsItems(name, Arr(items), items);
  }

  lemma {:induction false} SiblingsItems(name: string, parent: Value, es: seq<(Key, Value)>)
    requires parent.Arr? && forall p :: p in es ==> p in parent.entries
    requires Siblings(name, parent, es).Ok?
    ensures |Siblings(name, parent, es).value| == |es|
    ensures forall i :: 0 <= i < |es| ==> CreateNode(name, es[i].1).Ok? && Siblings(name, parent, es).value[i] == CreateNode(name, es[i].1).value
    decreases |es|
  {
    if es != [] {
      assert forall p :: p in es[1..] ==> p in es;
      SiblingsItems(name, parent, es[1..]);
      assert forall i :: 0 < i < |es| ==> es[i] == es[1..][i - 1];
    }
  }

  /** A non-array value is a single element holding its text. */
  lemma ScalarIsTextElement(name: string, value: Value)
    requires IsXmlName(name) && !value.Arr? && XToString(value).Some?
    ensures CreateNode(name, value) == Ok(Element(name, [], [Text(XToString(value).value)]))
  {
  }

  /** The document always has one root, named `data`. */
  lemma SingleDataRoot(data: seq<(Key, Value)>)
    requires Encoded(data).Ok?
    ensures Encoded(data).value.Element? && Encoded(data).value.name == "data"
  {
  }

  /** A key the DOM refuses fails wherever it is used, as a single child or as the name of a list's items. */
  lemma DomRejectsKey(name: string, value: Value)
    requires !IsXmlName(name)
    ensures AppendValue(name, value) == Err(DomNameRejected(name))
  {
    if IsList(value) {
      assert value.entries[0] in value.entries;
    }
  }

  /** A child key or an attribute that passes the tag test can still make the encoding fail in the DOM. */
  lemma PermissiveTagFailsEncoding()
    ensures Encoded([(StrKey("bad tag!"), Str("x"))]) == Err(DomNameRejected("bad tag!"))
    ensures Encoded([(StrKey("@attributes"), Arr([(StrKey("bad tag!"), Str("x"))]))]) == Err(DomNameRejected("bad tag!"))
  {
    TagTestAdmitsDomRejected();
    var child := [(StrKey("bad tag!"), Str("x"))];
    assert !IsSet(child, "@attributes") && !IsSet(child, "@value") && !IsSet(child, "@cdata");
    DomRejectsKey("bad tag!", Str("x"));
    assert Children(RootNode, Arr(child), child) == Err(DomNameRejected("bad tag!"));
    var attributes := [(StrKey("@attributes"), Arr(child))];
    assert IsSet(attributes, "@attributes") && CastToArray(Arr(child)) == child;
    assert SetAttributes(RootNode, [], child) == Err(DomNameRejected("bad tag!"));
  }

  // ---------------------------------------------------------------------------
  // Empty arrays (`convertEmptyArraysToString`)
  // ---------------------------------------------------------------------------

  /** The value a pair ends up with: an empty array is replaced, a non-empty one converted within. */
  function ConvertedValue(v: Value, replacement: string): (r: Value)
    ensures !v.Arr? ==> r == v
    ensures v.Arr? && v.entries == [] ==> r == Str(replacement)
    ensures v.Arr? && v.entries != [] ==> r.Arr? && |r.entries| == |v.entries|
    decreases v
  {
    match v
    case Arr(es) =>
      if es == [] then Str(replacement)
      else Arr(seq(|es|, i requires 0 <= i < |es| => (es[i].0, ConvertedValue(es[i].1, replacement))))
    case _ => v
  }

  function ConvertEmptyArrays(items: seq<(Key, Value)>, replacement: string): (r: seq<(Key, Value)>)
    ensures |r| == |items| && Keys(r) == Keys(items)
    ensures forall i :: 0 <= i < |items| ==> r[i] == (items[i].0, ConvertedValue(items[i].1, replacement))
  {
    var r := seq(|items|, i requires 0 <= i < |items| => (items[i].0, ConvertedValue(items[i].1, replacement)));
    SameKeys(r, items);
    r
  }

  /** No array anywhere in `v` is empty, except possibly `v` itself. */
  predicate NoEmptyNested(v: Value)
    decreases v
  {
    match v
    case Arr(es) => forall i :: 0 <= i < |es| ==> (es[i].1 != Arr([]) && NoEmptyNested(es[i].1))
    case _ => true
  }

  /** After the conversion no empty array is left at any depth. */
  lemma {:induction false} NoEmptyArraysLeft(v: Value, replacement: string)
    ensures NoEmptyNested(ConvertedValue(v, replacement))
    ensures ConvertedValue(v, replacement) != Arr([])
    decreases v
  {
    if v.Arr? && v.entries != [] {
      var r := ConvertedValue(v, replacement);
      forall i | 0 <= i < |r.entries|
        ensures r.entries[i].1 != Arr([]) && NoEmptyNested(r.entries[i].1)
      {
        assert v.entries[i] in v.entries;
        NoEmptyArraysLeft(v.entries[i].1, replacement);
      }
    }
  }

  /** Converting twice changes nothing more. */
  lemma {:induction false} ConvertIdempotent(v: Value, replacement: string)
    ensures ConvertedValue(ConvertedValue(v, replacement), replacement) == ConvertedValue(v, replacement)
    decreases v
  {
    if v.Arr? && v.entries != [] {
      var r := ConvertedValue(v, replacement);
      var rr := ConvertedValue(r, replacement);
      forall i | 0 <= i < |r.entries|
        ensures rr.entries[i] == r.entries[i]
      {
        assert v.entries[i] in v.entries;
        ConvertIdempotent(v.entries[i].1, replacement);
      }
      assert rr.entries == r.entries;
    }
  }

  /** The state of the conversion loop after the first `i` pairs. */
  ghost predicate ConvertedUpTo(r: seq<(Key, Value)>, items: seq<(Key, Value)>, i: int, text: string) {
    0 <= i <= |items| && |r| == |items| && Keys(r) == Keys(items) && UniqueKeys(r)
    && (forall j :: 0 <= j < i ==> r[j] == (items[j].0, ConvertedValue(items[j].1, text)))
    && (forall j :: i <= j < |items| ==> r[j] == items[j])
  }

  lemma ConvertStep(r: seq<(Key, Value)>, items: seq<(Key, Value)>, i: int, text: string, converted: Value)
    requires ConvertedUpTo(r, items, i, text) && i < |items|
    requires converted == ConvertedValue(items[i].1, text)
    ensures ConvertedUpTo(Put(r, items[i].0, converted), items, i + 1, text)
  {
    assert r == r[..i] + r[i..] && r[i..][0] == r[i];
    UniqueSplit(r[..i], r[i..]);
    PutAtPosition(r, i, converted);
    ConvertUpdate(r, items, i, text, converted);
  }

  lemma ConvertUpdate(r: seq<(Key, Value)>, items: seq<(Key, Value)>, i: int, text: string, converted: Value)
    requires ConvertedUpTo(r, items, i, text) && i < |items|
    requires converted == ConvertedValue(items[i].1, text)
    requires UniqueKeys(r[i := (items[i].0, converted)])
    ensures ConvertedUpTo(r[i := (items[i].0, converted)], items, i + 1, text)
  {
    SameKeys(r[i := (items[i].0, converted)], r);
  }

  lemma ConvertSkip(r: seq<(Key, Value)>, items: seq<(Key, Value)>, i: int, text: string)
    requires ConvertedUpTo(r, items, i, text) && i < |items| && !items[i].1.Arr?
    ensures ConvertedUpTo(r, items, i + 1, text)
  {
  }

  lemma ConvertNested(es: seq<(Key, Value)>, text: string)
    requires es != []
    ensures ConvertedValue(Arr(es), text) == Arr(ConvertEmptyArrays(es, text))
  {
  }

  lemma ConvertDone(r: seq<(Key, Value)>, items: seq<(Key, Value)>, text: string)
    requires ConvertedUpTo(r, items, |items|, text)
    ensures r == ConvertEmptyArrays(items, text)
  {
  }

  /** `convertEmptyArraysToString($array, $replacement)`; a missing replacement is `""`. */
  method ConvertEmptyArraysToString(items: seq<(Key, Value)>, replacement: Option<string>) returns (r: seq<(Key, Value)>)
    requires WellFormed(Arr(items))
    ensures r == ConvertEmptyArrays(items, replacement.GetOr(""))
    decreases Arr(items)
  {
    var text := replacement.GetOr("");
    r := items;
    for i := 0 to |items|
      invariant ConvertedUpTo(r, items, i, text)
    {
      var (key, value) := items[i];
      if !value.Arr? {
        ConvertSkip(r, items, i, text);
        continue;
      }
      var converted: Value;
      if value.entries == [] {
        converted := Str(text);
      } else {
        assert items[i] in items;
        var inner := ConvertEmptyArraysToString(value.entries, Some(text));
        ConvertNested(value.entries, text);
        converted := Arr(inner);
      }
      ConvertStep(r, items, i, text, converted);
      r := Put(r, key, converted);
    }
    ConvertDone(r, items, text);
  }

  // ---------------------------------------------------------------------------
  // The encoder
  // ---------------------------------------------------------------------------

  datatype XmlDecodeError = NoRequest | InvalidXml

  /** What parsing a body and the JSON round trip make of it; `None` when the XML does not load. */
  type XmlParser = string -> Option<seq<(Key, Value)>>

  /**
   * `decode`: the request body is parsed and empty arrays become `""`. This
   * override reads the request only: content set with `setContent` is not
   * consulted, and without a request the body cannot be read.
   */
  function DecodeXml(request: Option<ServerRequest>, parse: XmlParser): (r: Result<seq<(Key, Value)>, XmlDecodeError>)
    ensures r.Err? <==> request.None? || parse(request.value.body).None?
    ensures r.Ok? ==> Keys(r.value) == Keys(parse(request.value.body).value)
  {
    if request.None? then Err(NoRequest)
    else match parse(request.value.body)
      case None => Err(InvalidXml)
      case Some(items) => Ok(ConvertEmptyArrays(items, ""))
  }

  class XmlRequestEncoder {
    const request: Option<ServerRequest>
    /** The root element of `$this->xml`; `None` for a fresh, empty document. */
    var documentRoot: Option<XmlNode>

    constructor (request: Option<ServerRequest>)
      ensures this.request == request && documentRoot.None?
    {
      this.request := request;
      documentRoot := None;
    }

    method Decode(parse: XmlParser) returns (r: Result<seq<(Key, Value)>, XmlDecodeError>)
      requires forall body :: parse(body).Some? ==> WellFormed(Arr(parse(body).value))
      ensures r == DecodeXml(request, parse)
    {
      if request.None? {
        return Err(NoRequest);
      }
      var parsed := parse(request.value.body);
      if parsed.None? {
        return Err(InvalidXml);
      }
      var items := ConvertEmptyArraysToString(parsed.value, None);
      r := Ok(items);
    }

    /**
     * `encode`: a fresh document whose single root `data` holds the tree of
     * `data`, rendered into a response with Content-Type `application/xml`.
     */
    method Encode(data: seq<(Key, Value)>, status: Option<int>, headers: Option<seq<(Key, Value)>>, render: XmlNode -> string)
      returns (r: Result<Response, XmlError>)
      modifies this`documentRoot
      ensures Encoded(data).Err? ==> r == Err(Encoded(data).error) && documentRoot.None?
      ensures Encoded(data).Ok? ==>
        documentRoot == Some(Encoded(data).value)
        && r == Ok(BuildResponse(render(Encoded(data).value), status, headers, XmlContentType))
    {
      documentRoot := None;
      var root := CreateXmlNode(RootNode, Arr(data));
      if root.Err? {
        return Err(root.error);
      }
      documentRoot := Some(root.value);
      r := Ok(BuildResponse(render(root.value), status, headers, XmlContentType));
    }
  }

  lemma ConcatEmpty(x: Result<seq<XmlNode>, XmlError>)
    ensures Concat(Ok([]), x) == x
  {
    if x.Ok? {
      assert [] + x.value == x.value;
    }
  }

  /** `createXmlNode`: attributes, then `@value`, then `@cdata`, then the keys. */
  method CreateXmlNode(name: string, value: Value) returns (r: Result<XmlNode, XmlError>)
    ensures r == CreateNode(name, value)
    decreases value, 2
  {
    if !IsXmlName(name) {
      return Err(DomNameRejected(name));
    }
    if !value.Arr? {
      var text := XToString(value);
      if text.None? {
        return Err(NotStringable(name));
      }
      return Ok(Element(name, [], [Text(text.value)]));
    }
    var m := value.entries;
    var attributes: seq<(string, string)> := [];
    if IsSet(m, "@attributes") {
      var applied := ApplyAttributes(name, CastToArray(Get(m, StrKey("@attributes")).value));
      if applied.Err? {
        return Err(applied.error);
      }
      attributes := applied.value;
      m := Remove(m, StrKey("@attributes"));
    }
    if IsSet(m, "@value") {
      var text := XToString(Get(m, StrKey("@value")).value);
      if text.None? {
        return Err(NotStringable(name));
      }
      return Ok(Element(name, attributes, [Text(text.value)]));
    }
    if IsSet(m, "@cdata") {
      var text := XToString(Get(m, StrKey("@cdata")).value);
      if text.None? {
        return Err(NotStringable(name));
      }
      return Ok(Element(name, attributes, [CData(text.value)]));
    }
    var children := AppendChildren(name, value, m);
    if children.Err? {
      return Err(children.error);
    }
    r := Ok(Element(name, attributes, children.value));
  }

  /** The `@attributes` loop of `createXmlNode`. */
  method ApplyAttributes(name: string, entries: seq<(Key, Value)>) returns (r: Result<seq<(string, string)>, XmlError>)
    ensures r == SetAttributes(name, [], entries)
  {
    var attributes: seq<(string, string)> := [];
    assert entries[0..] == entries;
    for i := 0 to |entries|
      invariant SetAttributes(name, [], entries) == SetAttributes(name, attributes, entries[i..])
    {
      assert entries[i..][0] == entries[i] && entries[i..][1..] == entries[i + 1..];
      var k := entries[i].0;
      if k.IntKey? {
        return Err(IntegerName(k.i, name));
      }
      if !IsValidXmlTag(k.s) {
        return Err(InvalidAttributeName(k.s, name));
      }
      var text := XToString(entries[i].1);
      if text.None? {
        return Err(NotStringable(name));
      }
      if !IsXmlName(k.s) {
        return Err(DomNameRejected(k.s));
      }
      attributes := Put(attributes, k.s, text.value);
    }
    assert entries[|entries|..] == [];
    r := Ok(attributes);
  }

  /** One turn of the key loop: the key's elements join the children built so far, or an error ends the loop. */
  lemma ChildrenStep(node: string, parent: Value, es: seq<(Key, Value)>, i: int, children: seq<XmlNode>)
    requires parent.Arr? && forall p :: p in es ==> p in parent.entries
    requires 0 <= i < |es| && es[i].0.StrKey? && IsValidXmlTag(es[i].0.s)
    ensures forall p :: p in es[i..] ==> p in parent.entries
    ensures forall p :: p in es[i + 1..] ==> p in parent.entries
    ensures AppendValue(es[i].0.s, es[i].1).Err? ==>
      Concat(Ok(children), Children(node, parent, es[i..])) == Err(AppendValue(es[i].0.s, es[i].1).error)
    ensures AppendValue(es[i].0.s, es[i].1).Ok? ==>
      Concat(Ok(children), Children(node, parent, es[i..]))
      == Concat(Ok(children + AppendValue(es[i].0.s, es[i].1).value), Children(node, parent, es[i + 1..]))
  {
    assert es[i..][0] == es[i] && es[i..][1..] == es[i + 1..];
    var nodes := AppendValue(es[i].0.s, es[i].1);
    var more := Children(node, parent, es[i + 1..]);
    if nodes.Ok? && more.Ok? {
      ConcatAssociative(children, nodes.value, more.value);
    }
  }

  /** The key loop of `createXmlNode`: every key is validated, then expanded by `appendXmlAttribute`. */
  method AppendChildren(name: string, ghost parent: Value, es: seq<(Key, Value)>) returns (r: Result<seq<XmlNode>, XmlError>)
    requires parent.Arr? && forall p :: p in es ==> p in parent.entries
    ensures r == Children(name, parent, es)
    decreases parent, 1
  {
    var children: seq<XmlNode> := [];
    assert es[0..] == es;
    ConcatEmpty(Children(name, parent, es));
    for i := 0 to |es|
      invariant Children(name, parent, es) == Concat(Ok(children), Children(name, parent, es[i..]))
    {
      assert es[i..][0] == es[i] && es[i..][1..] == es[i + 1..];
      var k := es[i].0;
      if k.IntKey? {
        return Err(IntegerName(k.i, name));
      }
      if !IsValidXmlTag(k.s) {
        return Err(InvalidNodeName(k.s, name));
      }
      ChildrenStep(name, parent, es, i, children);
      assert es[i] in parent.entries;
      var nodes := AppendXmlAttribute(k.s, es[i].1);
      if nodes.Err? {
        return Err(nodes.error);
      }
      children := children + nodes.value;
    }
    assert es[|es|..] == [];
    assert Children(name, parent, es[|es|..]) == Ok([]);
    assert children + [] == children;
    r := Ok(children);
  }

  /** One turn of the sibling loop: the item's element joins the nodes built so far, or its error ends the loop. */
  lemma SiblingsStep(name: string, parent: Value, es: seq<(Key, Value)>, i: int, nodes: seq<XmlNode>)
    requires parent.Arr? && forall p :: p in es ==> p in parent.entries
    requires 0 <= i < |es|
    ensures forall p :: p in es[i..] ==> p in parent.entries
    ensures forall p :: p in es[i + 1..] ==> p in parent.entries
    ensures CreateNode(name, es[i].1).Err? ==>
      Concat(Ok(nodes), Siblings(name, parent, es[i..])) == Err(CreateNode(name, es[i].1).error)
    ensures CreateNode(name, es[i].1).Ok? ==>
      Concat(Ok(nodes), Siblings(name, parent, es[i..]))
      == Concat(Ok(nodes + [CreateNode(name, es[i].1).value]), Siblings(name, parent, es[i + 1..]))
  {
    assert es[i..][0] == es[i] && es[i..][1..] == es[i + 1..];
    var more := Siblings(name, parent, es[i + 1..]);
    if CreateNode(name, es[i].1).Ok? && more.Ok? {
      ConcatAssociative(nodes, [CreateNode(name, es[i].1).value], more.value);
    }
  }

  /** `appendXmlAttribute`: the elements it appends to the parent. */
  method AppendXmlAttribute(name: string, value: Value) returns (r: Result<seq<XmlNode>, XmlError>)
    ensures r == AppendValue(name, value)
    decreases value, 3
  {
    if IsList(value) {
      var nodes: seq<XmlNode> := [];
      var items := value.entries;
      assert items[0..] == items;
      ConcatEmpty(Siblings(name, value, items));
      for i := 0 to |items|
        invariant Siblings(name, value, items) == Concat(Ok(nodes), Siblings(name, value, items[i..]))
      {
        SiblingsStep(name, value, items, i, nodes);
        assert items[i] in value.entries;
        var node := CreateXmlNode(name, items[i].1);
        if node.Err? {
          return Err(node.error);
        }
        nodes := nodes + [node.value];
      }
      assert items[|items|..] == [];
      assert Siblings(name, value, items[|items|..]) == Ok([]);
      assert nodes + [] == nodes;
      return Ok(nodes);
    }
    var node := CreateXmlNode(name, value);
    if node.Err? {
      return Err(node.error);
    }
    r := Ok([node.value]);
  }
}
