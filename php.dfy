/**
 * The PHP values the library handles, and the PHP array operations it relies on.
 *
 * A PHP array is an ordered dictionary: iteration follows insertion order, and
 * assigning to a key that is already present (`$a[$k] = $v`) replaces the value
 * in place without moving the key. Arrays are modelled as sequences of
 * key/value pairs; `Put` is the assignment, `PutAll` a `foreach` of them.
 *
 * Objects are described by the capabilities the library probes for with
 * `instanceof` and `method_exists` (serializable, `toResponseArray`,
 * `getResourceKey`, `getTransformer`, collection, iterable), together with the
 * results those methods return.
 */
module Php {

  datatype Option<+T> = None | Some(value: T) {
    function GetOr(default: T): T {
      match this
      case Some(v) => v
      case None => default
    }
  }

  datatype Result<+T, +E> = Ok(value: T) | Err(error: E)

  /** An array key after PHP's key normalisation. */
  datatype Key = IntKey(i: int) | StrKey(s: string)

  /** A PHP value. Floats and resources are not modelled. */
  datatype Value =
    | Null
    | Bool(b: bool)
    | Int(i: int)
    | Str(s: string)
    | Arr(entries: seq<(Key, Value)>)
    | Object(obj: Obj)

  /** What `getTransformer()` returned: a transformer instance or a class name. */
  datatype TransformerRef = TransformerInstance(instanceClass: string) | TransformerClassName(className: string)

  /**
   * An object, as a record of the capabilities the library tests for.
   * `toArray` is meaningful when `serializable`, `toResponseArray` when
   * `hasToResponseArray`, `iteration` (what `foreach` yields) when `iterable`.
   * `properties` is what an `(array)` cast yields.
   */
  datatype Obj = Obj(
    shortName: string,
    serializable: bool,
    collection: bool,
    toArray: seq<(Key, Value)>,
    hasToResponseArray: bool,
    toResponseArray: seq<(Key, Value)>,
    resourceKey: Option<string>,
    transformer: Option<TransformerRef>,
    iterable: bool,
    iteration: seq<(Key, Value)>,
    properties: seq<(Key, Value)>,
    stringCast: Option<string>
  )

  predicate IsSerializable(v: Value) {
    v.Object? && v.obj.serializable
  }

  predicate HasToResponseArray(v: Value) {
    v.Object? && v.obj.hasToResponseArray
  }

  /** `is_iterable`: arrays and Traversable objects. */
  predicate IsIterable(v: Value) {
    v.Arr? || (v.Object? && v.obj.iterable)
  }

  /** The pairs `foreach` visits on an iterable value. */
  function Iteration(v: Value): seq<(Key, Value)>
    requires IsIterable(v)
  {
    if v.Arr? then v.entries else v.obj.iteration
  }

  /** The `(array)` cast. */
  function CastToArray(v: Value): (r: seq<(Key, Value)>)
    ensures v.Arr? ==> r == v.entries
    ensures v.Null? ==> r == []
    ensures (v.Bool? || v.Int? || v.Str?) ==> r == [(IntKey(0), v)]
  {
    match v
    case Null => []
    case Arr(es) => es
    case Object(o) => o.properties
    case _ => [(IntKey(0), v)]
  }

  /** Decimal rendering of an integer, as PHP's `(string)` cast writes it. */
  function IntToString(n: int): (s: string)
    ensures |s| > 0
    decreases if n < 0 then 1 - n else n
  {
    if n < 0 then "-" + IntToString(-n)
    else if n < 10 then [DigitChar(n)]
    else IntToString(n / 10) + [DigitChar(n % 10)]
  }

  function DigitChar(d: int): (c: char)
    requires 0 <= d < 10
    ensures IsDigit(c) && c as int - '0' as int == d
  {
    (d + '0' as int) as char
  }

  predicate IsDigit(c: char) {
    '0' <= c <= '9'
  }

  predicate AllDigits(s: string) {
    forall i :: 0 <= i < |s| ==> IsDigit(s[i])
  }

  /** A non-empty run of decimal digits with no superfluous leading zero. */
  predicate CanonicalDigits(s: string) {
    |s| > 0 && AllDigits(s) && (s[0] == '0' ==> |s| == 1)
  }

  function DecimalValue(s: string): nat
    requires AllDigits(s)
  {
    if s == [] then 0 else DecimalValue(s[..|s| - 1]) * 10 + (s[|s| - 1] as int - '0' as int)
  }

  /** The largest integer a 64-bit PHP build stores as an integer key. */
  const PhpIntMax: int := 0x7FFF_FFFF_FFFF_FFFF

  /**
   * The key PHP stores a string under: a string that is the canonical decimal
   * form of an integer within range becomes an integer key, any other string
   * stays a string key.
   */
  function StringKey(s: string): (k: Key)
    ensures k.StrKey? ==> k.s == s
    ensures k.IntKey? ==> IntToString(k.i) == s
  {
    if CanonicalDigits(s) && DecimalValue(s) <= PhpIntMax then
      DigitsRoundTrip(s);
      IntKey(DecimalValue(s))
    else if 1 < |s| && s[0] == '-' && CanonicalDigits(s[1..]) && s[1..] != "0" && DecimalValue(s[1..]) <= PhpIntMax + 1 then
      DigitsRoundTrip(s[1..]);
      assert s == "-" + s[1..];
      var magnitude: int := DecimalValue(s[1..]);
      IntKey(-magnitude)
    else
      StrKey(s)
  }

  /** The key a value is stored under when used as an array offset; arrays and objects are illegal offsets. */
  function ValueKey(v: Value): (k: Option<Key>)
    ensures k.None? <==> v.Arr? || v.Object?
    ensures v.Str? ==> k == Some(StringKey(v.s))
  {
    match v
    case Null => Some(StrKey(""))
    case Bool(b) => Some(IntKey(if b then 1 else 0))
    case Int(i) => Some(IntKey(i))
    case Str(s) => Some(StringKey(s))
    case _ => None
  }

  /** Reading canonical digits and writing the number back gives the same digits. */
  lemma {:induction false} DigitsRoundTrip(s: string)
    requires CanonicalDigits(s)
    ensures IntToString(DecimalValue(s)) == s
    ensures s != "0" ==> DecimalValue(s) > 0
    ensures |s| > 1 ==> DecimalValue(s) >= 10
    decreases |s|
  {
    var n := DecimalValue(s);
    if |s| == 1 {
      assert s[..0] == [] && DecimalValue(s[..0]) == 0;
      assert IsDigit(s[0]) && n == s[0] as int - '0' as int;
      assert s == [DigitChar(n)];
    } else {
      var p := s[..|s| - 1];
      assert p[0] == s[0];
      assert CanonicalDigits(p);
      DigitsRoundTrip(p);
      var d := s[|s| - 1] as int - '0' as int;
      assert n == DecimalValue(p) * 10 + d;
      assert n / 10 == DecimalValue(p) && n % 10 == d;
      assert s == p + [DigitChar(d)];
    }
  }

  /** Writing a natural number gives canonical digits that read back as the number. */
  lemma {:induction false} NaturalDigits(n: nat)
    ensures CanonicalDigits(IntToString(n))
    ensures DecimalValue(IntToString(n)) == n
    ensures n > 0 ==> IntToString(n)[0] != '0'
    decreases n
  {
    if n >= 10 {
      NaturalDigits(n / 10);
      var p := IntToString(n / 10);
      var s := p + [DigitChar(n % 10)];
      assert IntToString(n) == s;
      assert s[..|s| - 1] == p;
      assert s[0] == p[0];
    } else {
      var s := IntToString(n);
      assert s == [DigitChar(n)];
      assert s[..0] == [];
    }
  }

  /** Every in-range integer written as a string is stored under that integer key. */
  lemma {:induction false} IntegerStringKey(n: int)
    requires -PhpIntMax - 1 <= n <= PhpIntMax
    ensures StringKey(IntToString(n)) == IntKey(n)
  {
    if n >= 0 {
      NaturalDigits(n);
    } else {
      NaturalDigits(-n);
      var s := IntToString(n);
      assert s == "-" + IntToString(-n);
      assert s[1..] == IntToString(-n);
      assert s[1..][0] != '0';
    }
  }

  // ---------------------------------------------------------------------------
  // Ordered dictionaries (PHP arrays)
  // ---------------------------------------------------------------------------

  function Keys<K, V>(m: seq<(K, V)>): (ks: seq<K>)
    ensures |ks| == |m|
  {
    if m == [] then [] else [m[0].0] + Keys(m[1..])
  }

  /** The keys of `m` position by position. */
  lemma {:induction false} KeysIndex<K, V>(m: seq<(K, V)>)
    ensures forall i :: 0 <= i < |m| ==> Keys(m)[i] == m[i].0
  {
    if m != [] {
      KeysIndex(m[1..]);
      assert forall i :: 1 <= i < |m| ==> m[1..][i - 1] == m[i];
    }
  }

  /** Two arrays that hold the same key at every position have the same keys. */
  lemma SameKeys<K, V, W>(a: seq<(K, V)>, b: seq<(K, W)>)
    requires |a| == |b| && forall i :: 0 <= i < |a| ==> a[i].0 == b[i].0
    ensures Keys(a) == Keys(b)
  {
    KeysIndex(a);
    KeysIndex(b);
  }

  lemma {:induction false} KeysAppend<K, V>(a: seq<(K, V)>, b: seq<(K, V)>)
    ensures Keys(a + b) == Keys(a) + Keys(b)
  {
    assert |Keys(a + b)| == |Keys(a) + Keys(b)|;
    KeysIndex(a + b);
    KeysIndex(a);
    KeysIndex(b);
    forall i | 0 <= i < |a + b|
      ensures Keys(a + b)[i] == (Keys(a) + Keys(b))[i]
    {
    }
  }

  lemma ConcatAssociative<T>(a: seq<T>, b: seq<T>, c: seq<T>)
    ensures a + (b + c) == (a + b) + c
  {
  }

  /** PHP arrays never hold a key twice. */
  predicate UniqueKeys<K(==,!new), V>(m: seq<(K, V)>) {
    m == [] || (m[0].0 !in Keys(m[1..]) && UniqueKeys(m[1..]))
  }

  /** `$m[$k] ?? null`, with absence made explicit. */
  function Get<K(==,!new), V>(m: seq<(K, V)>, k: K): (r: Option<V>)
    ensures r.Some? <==> k in Keys(m)
    ensures r.Some? ==> exists i :: 0 <= i < |m| && m[i] == (k, r.value)
  {
    if m == [] then None
    else if m[0].0 == k then Some(m[0].1)
    else Get(m[1..], k)
  }

  /** `$m[$k] = $v`: replace in place when present, append otherwise. */
  function Put<K(==,!new), V>(m: seq<(K, V)>, k: K, v: V): (r: seq<(K, V)>)
    ensures Keys(r) == if k in Keys(m) then Keys(m) else Keys(m) + [k]
    ensures Get(r, k) == Some(v)
    ensures forall j :: j != k ==> Get(r, j) == Get(m, j)
    ensures UniqueKeys(m) ==> UniqueKeys(r)
  {
    if m == [] then [(k, v)]
    else if m[0].0 == k then
      var r := [(k, v)] + m[1..];
      assert r[0] == (k, v) && r[1..] == m[1..];
      assert Keys(m) == [k] + Keys(m[1..]);
      assert Keys(r) == [k] + Keys(m[1..]);
      r
    else
      var tail := Put(m[1..], k, v);
      var r := [m[0]] + tail;
      assert r[0] == m[0] && r[1..] == tail;
      assert Keys(m) == [m[0].0] + Keys(m[1..]);
      assert Keys(r) == [m[0].0] + Keys(tail);
      r
  }

  /** A `foreach` that performs `$m[$k] = $v` for each pair in turn. */
  function PutAll<K(==,!new), V>(m: seq<(K, V)>, ps: seq<(K, V)>): seq<(K, V)>
    decreases |ps|
  {
    if ps == [] then m else PutAll(Put(m, ps[0].0, ps[0].1), ps[1..])
  }

  lemma PutAllStep<K(!new), V>(m: seq<(K, V)>, p: (K, V), ps: seq<(K, V)>)
    ensures PutAll(m, [p] + ps) == PutAll(Put(m, p.0, p.1), ps)
  {
    assert ([p] + ps)[0] == p && ([p] + ps)[1..] == ps;
  }

  /** The value of the last pair for `k` in `ps`. */
  function LastValue<K(==,!new), V>(ps: seq<(K, V)>, k: K): V
    requires k in Keys(ps)
  {
    if k in Keys(ps[1..]) then LastValue(ps[1..], k) else ps[0].1
  }

  /** `ks` followed by the keys of `ns` not seen before, in first-occurrence order. */
  function AppendNew<K(==,!new)>(ks: seq<K>, ns: seq<K>): seq<K>
    decreases |ns|
  {
    if ns == [] then ks
    else AppendNew(if ns[0] in ks then ks else ks + [ns[0]], ns[1..])
  }

  lemma {:induction false} PutAllUnique<K(!new), V>(m: seq<(K, V)>, ps: seq<(K, V)>)
    requires UniqueKeys(m)
    ensures UniqueKeys(PutAll(m, ps))
    decreases |ps|
  {
    if ps != [] {
      PutAllUnique(Put(m, ps[0].0, ps[0].1), ps[1..]);
    }
  }

  /** After the loop, a key holds the value of its last assignment, or its old value. */
  lemma {:induction false} PutAllGet<K(!new), V>(m: seq<(K, V)>, ps: seq<(K, V)>, k: K)
    ensures Get(PutAll(m, ps), k) == if k in Keys(ps) then Some(LastValue(ps, k)) else Get(m, k)
    decreases |ps|
  {
    if ps != [] {
      PutAllGet(Put(m, ps[0].0, ps[0].1), ps[1..], k);
      assert Keys(ps) == [ps[0].0] + Keys(ps[1..]);
    }
  }

  /** After the loop, the old keys keep their places and new keys follow in first-assignment order. */
  lemma {:induction false} PutAllKeys<K(!new), V>(m: seq<(K, V)>, ps: seq<(K, V)>)
    ensures Keys(PutAll(m, ps)) == AppendNew(Keys(m), Keys(ps))
    decreases |ps|
  {
    if ps != [] {
      PutAllKeys(Put(m, ps[0].0, ps[0].1), ps[1..]);
      assert Keys(ps) == [ps[0].0] + Keys(ps[1..]);
    }
  }

  lemma {:induction false} PutAllConcat<K(!new), V>(m: seq<(K, V)>, a: seq<(K, V)>, b: seq<(K, V)>)
    ensures PutAll(m, a + b) == PutAll(PutAll(m, a), b)
    decreases |a|
  {
    if a == [] {
      assert a + b == b;
    } else {
      var ab := a + b;
      assert ab[0] == a[0] && ab[1..] == a[1..] + b;
      assert PutAll(m, ab) == PutAll(Put(m, a[0].0, a[0].1), a[1..] + b);
      PutAllConcat(Put(m, a[0].0, a[0].1), a[1..], b);
    }
  }

  lemma {:induction false} AppendNewCovers<K(!new)>(ks: seq<K>, ns: seq<K>)
    ensures forall x :: x in AppendNew(ks, ns) <==> x in ks || x in ns
    decreases |ns|
  {
    if ns != [] {
      AppendNewCovers(if ns[0] in ks then ks else ks + [ns[0]], ns[1..]);
    }
  }

  lemma {:induction false} AppendNewPresent<K(!new)>(ks: seq<K>, ns: seq<K>)
    requires forall x :: x in ns ==> x in ks
    ensures AppendNew(ks, ns) == ks
    decreases |ns|
  {
    if ns != [] {
      AppendNewPresent(ks, ns[1..]);
    }
  }

  /** Two arrays with the same key order and the same lookups are the same array. */
  lemma {:induction false} Extensionality<K(!new), V>(a: seq<(K, V)>, b: seq<(K, V)>)
    requires UniqueKeys(a) && UniqueKeys(b)
    requires Keys(a) == Keys(b)
    requires forall k :: Get(a, k) == Get(b, k)
    ensures a == b
  {
    if a != [] {
      var k0 := a[0].0;
      assert Get(a, k0) == Some(a[0].1) && Get(b, k0) == Some(b[0].1);
      assert Keys(a[1..]) == Keys(a)[1..] == Keys(b)[1..] == Keys(b[1..]);
      forall k
        ensures Get(a[1..], k) == Get(b[1..], k)
      {
        if k == k0 {
          assert Get(a[1..], k).None? && Get(b[1..], k).None?;
        } else {
          assert Get(a, k) == Get(a[1..], k) && Get(b, k) == Get(b[1..], k);
        }
      }
      Extensionality(a[1..], b[1..]);
    }
  }

  /** Repeating the same assignments changes nothing: the loop is idempotent. */
  lemma {:induction false} PutAllIdempotent<K(!new), V>(m: seq<(K, V)>, ps: seq<(K, V)>)
    requires UniqueKeys(m)
    ensures PutAll(PutAll(m, ps), ps) == PutAll(m, ps)
  {
    var t := PutAll(m, ps);
    PutAllUnique(m, ps);
    PutAllUnique(t, ps);
    PutAllKeys(m, ps);
    PutAllKeys(t, ps);
    AppendNewCovers(Keys(m), Keys(ps));
    AppendNewPresent(Keys(t), Keys(ps));
    forall k
      ensures Get(PutAll(t, ps), k) == Get(t, k)
    {
      PutAllGet(t, ps, k);
      PutAllGet(m, ps, k);
    }
    Extensionality(PutAll(t, ps), t);
  }

  /** Assigning a key that is not present appends the pair. */
  lemma {:induction false} PutAbsent<K(!new), V>(m: seq<(K, V)>, k: K, v: V)
    requires k !in Keys(m)
    ensures Put(m, k, v) == m + [(k, v)]
  {
    if m != [] {
      assert Keys(m)[0] == m[0].0;
      assert Keys(m[1..]) == Keys(m)[1..];
      PutAbsent(m[1..], k, v);
      calc {
        Put(m, k, v);
        [m[0]] + Put(m[1..], k, v);
        [m[0]] + (m[1..] + [(k, v)]);
        { ConcatAssociative([m[0]], m[1..], [(k, v)]); assert [m[0]] + m[1..] == m; }
        m + [(k, v)];
      }
    }
  }

  /** In an array with distinct keys, no key of a later part occurs in an earlier part. */
  lemma {:induction false} UniqueSplit<K(!new), V>(a: seq<(K, V)>, b: seq<(K, V)>)
    requires UniqueKeys(a + b) && b != []
    ensures b[0].0 !in Keys(a)
  {
    if a != [] {
      var ab := a + b;
      assert ab[1..] == a[1..] + b;
      KeysAppend(a[1..], b);
      assert Keys(b)[0] == b[0].0;
      UniqueSplit(a[1..], b);
      assert Keys(a) == [a[0].0] + Keys(a[1..]);
    }
  }

  /** `$array[$key] = $v` for a key first found at position `i` replaces the pair there. */
  lemma {:induction false} PutAtPosition<K(!new), V>(m: seq<(K, V)>, i: int, v: V)
    requires 0 <= i < |m| && m[i].0 !in Keys(m[..i])
    ensures Put(m, m[i].0, v) == m[i := (m[i].0, v)]
  {
    var k := m[i].0;
    UpdateCons(m, i, (k, v));
    if i > 0 {
      var tail := m[1..];
      assert m[..i] == [m[0]] + tail[..i - 1];
      KeysAppend([m[0]], tail[..i - 1]);
      assert tail[i - 1] == m[i];
      PutAtPosition(tail, i - 1, v);
    }
  }

  /** Updating position `i` of a non-empty sequence updates its head or its tail. */
  lemma UpdateCons<T>(m: seq<T>, i: int, x: T)
    requires 0 <= i < |m|
    ensures i == 0 ==> m[i := x] == [x] + m[1..]
    ensures i > 0 ==> m[i := x] == [m[0]] + m[1..][i - 1 := x]
  {
  }

  /** Assigning fresh, distinct keys one by one just appends the pairs. */
  lemma {:induction false} PutAllFresh<K(!new), V>(m: seq<(K, V)>, ps: seq<(K, V)>)
    requires UniqueKeys(m + ps)
    ensures PutAll(m, ps) == m + ps
    decreases |ps|
  {
    if ps == [] {
      assert m + ps == m;
    } else {
      UniqueSplit(m, ps);
      PutAbsent(m, ps[0].0, ps[0].1);
      var m' := m + [ps[0]];
      ConcatAssociative(m, [ps[0]], ps[1..]);
      assert [ps[0]] + ps[1..] == ps;
      PutAllFresh(m', ps[1..]);
    }
  }

  /**
   * A list whose pairs carry `f` of the pairs of `es`, key by key, holds `f`
   * of the last value of `es` under every key.
   */
  lemma {:induction false} LastValueMap<K(!new), V, W>(es: seq<(K, V)>, rs: seq<(K, W)>, f: V -> W, k: K)
    requires |rs| == |es|
    requires forall i :: 0 <= i < |es| ==> rs[i] == (es[i].0, f(es[i].1))
    requires k in Keys(es)
    ensures Keys(rs) == Keys(es)
    ensures LastValue(rs, k) == f(LastValue(es, k))
    decreases |es|
  {
    SameKeys(rs, es);
    assert Keys(rs[1..]) == Keys(rs)[1..] && Keys(es[1..]) == Keys(es)[1..];
    if k in Keys(es[1..]) {
      LastValueMap(es[1..], rs[1..], f, k);
    }
  }

  /** Every pair of `$m[$k] = $v` is a pair of `$m` or the new one. */
  lemma {:induction false} PutMembers<K(!new), V>(m: seq<(K, V)>, k: K, v: V)
    ensures forall p :: p in Put(m, k, v) ==> p in m || p == (k, v)
  {
    if m != [] && m[0].0 != k {
      PutMembers(m[1..], k, v);
      assert forall p :: p in m[1..] ==> p in m;
    }
  }

  /** Every pair a `foreach` of assignments leaves is a pair of the start or one of those assigned. */
  lemma {:induction false} PutAllMembers<K(!new), V>(m: seq<(K, V)>, ps: seq<(K, V)>)
    ensures forall p :: p in PutAll(m, ps) ==> p in m || p in ps
    decreases |ps|
  {
    if ps != [] {
      PutMembers(m, ps[0].0, ps[0].1);
      PutAllMembers(Put(m, ps[0].0, ps[0].1), ps[1..]);
      assert forall p :: p in ps[1..] ==> p in ps;
    }
  }

  /** `unset($m[$k])`. */
  function Remove<K(==,!new), V>(m: seq<(K, V)>, k: K): (r: seq<(K, V)>)
    ensures Get(r, k).None?
    ensures forall j :: j != k ==> Get(r, j) == Get(m, j)
    ensures forall p :: p in r ==> p in m
  {
    if m == [] then []
    else if m[0].0 == k then Remove(m[1..], k)
    else
      var tail := Remove(m[1..], k);
      assert Keys([m[0]] + tail) == [m[0].0] + Keys(tail);
      [m[0]] + tail
  }

  /** A value whose arrays, at every depth, hold each key once, as PHP arrays always do. */
  predicate WellFormed(v: Value)
    decreases v
  {
    match v
    case Arr(es) => UniqueKeys(es) && forall i :: 0 <= i < |es| ==> WellFormed(es[i].1)
    case _ => true
  }

  // ---------------------------------------------------------------------------
  // is_numeric (PHP 7): optional leading whitespace, an optional sign, a
  // decimal number with at least one digit, and an optional exponent.
  // ---------------------------------------------------------------------------

  predicate IsNumericWhitespace(c: char) {
    c == ' ' || c == '\t' || c == '\n' || c == '\r' || c == '\U{B}' || c == '\U{C}'
  }

  function SkipWhitespace(s: string): (r: string)
    ensures |r| <= |s| && r == s[|s| - |r|..]
    ensures r == [] || !IsNumericWhitespace(r[0])
  {
    if s != [] && IsNumericWhitespace(s[0]) then SkipWhitespace(s[1..]) else s
  }

  /** The length of the run of digits `s` starts with. */
  function DigitRun(s: string): (n: nat)
    ensures n <= |s| && AllDigits(s[..n])
    ensures n < |s| ==> !IsDigit(s[n])
  {
    if s != [] && IsDigit(s[0]) then
      var n := 1 + DigitRun(s[1..]);
      assert s[..n] == [s[0]] + s[1..][..n - 1];
      n
    else 0
  }

  /** An exponent part: empty, or `e`/`E`, an optional sign and at least one digit. */
  predicate ExponentPart(s: string) {
    s == [] ||
    ((s[0] == 'e' || s[0] == 'E') &&
     var t := if 1 < |s| && (s[1] == '+' || s[1] == '-') then s[2..] else s[1..];
     0 < |t| && DigitRun(t) == |t|)
  }

  /** Digits, optionally a point and more digits, at least one digit in all, then an exponent part. */
  predicate DecimalLiteral(s: string) {
    var whole := DigitRun(s);
    var rest := s[whole..];
    if rest != [] && rest[0] == '.' then
      var fraction := DigitRun(rest[1..]);
      whole + fraction > 0 && ExponentPart(rest[1 + fraction..])
    else
      whole > 0 && ExponentPart(rest)
  }

  /** `is_numeric` on a string. */
  predicate IsNumericString(s: string) {
    var t := SkipWhitespace(s);
    var u := if t != [] && (t[0] == '+' || t[0] == '-') then t[1..] else t;
    DecimalLiteral(u)
  }

  /** `is_numeric` on an array key: integer keys always are. */
  predicate IsNumericKey(k: Key) {
    k.IntKey? || IsNumericString(k.s)
  }
}
