/**
 * `object_to_cache_key`: how an arbitrary Ruby object given as a cache key
 * becomes the text stored in the table's `key` column, following the rules
 * of ActiveSupport's cache stores.
 */
module CacheKeys {
  import opened Wrappers

  /** The class of the key object, as far as the rules look at it. */
  datatype Kind =
    | StringObject(s: string)         // `is_a?(String)`
    | ArrayObject(elements: seq<Key>) // `is_a?(Array)`
    | OtherObject

  /**
   * A key object: its class and what it answers to the three methods the
   * rules may call (`None` when it does not respond to the method).
   * `to_s` is defined on every Ruby object.
   */
  datatype Key = Key(kind: Kind, cacheKey: Option<string>, toParam: Option<string>, toS: string)

  const Separator: char := '/'

  /** ActiveSupport's `Array#to_param` on an array of strings: the elements joined with "/". */
  function ArrayToParam(parts: seq<string>): (r: string)
    ensures parts == [] ==> r == ""
  {
    if parts == [] then ""
    else if |parts| == 1 then parts[0]
    else parts[0] + [Separator] + ArrayToParam(parts[1..])
  }

  /**
   * The normalized key is what the first applicable rule gives, the rules
   * being tried in the order String, `cache_key`, Array, `to_param`, `to_s`.
   */
  function ObjectToCacheKey(k: Key): (r: string)
    ensures Some(r) == FirstMatch(Rules(k))
    decreases k, 1
  {
    match k.kind
    case StringObject(s) => s
    case ArrayObject(es) =>
      FirstMatchSkip(Rules(k));
      if k.cacheKey.Some? then k.cacheKey.value
      else
        FirstMatchSkip(Rules(k)[1..]);
        ArrayToParam(NormalizeAll(es))
    case OtherObject =>
      FirstMatchSkip(Rules(k));
      if k.cacheKey.Some? then k.cacheKey.value
      else
        FirstMatchSkip(Rules(k)[1..]);
        FirstMatchSkip(Rules(k)[1..][1..]);
        if k.toParam.Some? then k.toParam.value
        else
          FirstMatchSkip(Rules(k)[1..][1..][1..]);
          k.toS
  }

  /** `object.map { |element| object_to_cache_key(element) }`. */
  function NormalizeAll(es: seq<Key>): (r: seq<string>)
    decreases es, 0
  {
    seq(|es|, i requires 0 <= i < |es| => ObjectToCacheKey(es[i]))
  }

  // ---- The priority order, stated independently as a list of rules ----

  /** What each rule would give on `k`, in the order the rules are tried; `None` when it does not apply. */
  function Rules(k: Key): (rs: seq<Option<string>>)
    ensures |rs| == 5 && rs[4].Some?
    decreases k, 0
  {
    [ if k.kind.StringObject? then Some(k.kind.s) else None,
      k.cacheKey,
      if k.kind.ArrayObject? then Some(ArrayToParam(NormalizeAll(k.kind.elements))) else None,
      k.toParam,
      Some(k.toS) ]
  }

  /** The result of the first rule that applies. */
  function FirstMatch(rs: seq<Option<string>>): (r: Option<string>)
    ensures r.Some? <==> exists i :: 0 <= i < |rs| && rs[i].Some?
    ensures r.Some? ==> exists i :: 0 <= i < |rs| && rs[i] == r && forall j :: 0 <= j < i ==> rs[j].None?
  {
    if rs == [] then None
    else if rs[0].Some? then rs[0]
    else
      var r := FirstMatch(rs[1..]);
      assert forall i :: 0 < i < |rs| ==> rs[i] == rs[1..][i - 1];
      r
  }

  lemma FirstMatchSkip(rs: seq<Option<string>>)
    requires rs != [] && rs[0].None?
    ensures FirstMatch(rs) == FirstMatch(rs[1..])
  {
  }

  /** An array key is normalized element by element, each element by the same rules. */
  lemma ArrayKeyNormalizesElements(k: Key)
    requires k.kind.ArrayObject? && k.cacheKey.None?
    ensures ObjectToCacheKey(k) == ArrayToParam(NormalizeAll(k.kind.elements))
  {
  }

  // ---- What array keys do and do not distinguish ----

  /** Splits text at every "/"; the inverse of ArrayToParam on non-empty lists of parts that contain no "/". */
  function Split(s: string): (r: seq<string>)
    ensures |r| >= 1
  {
    if s == [] then [""]
    else
      var rest := Split(s[1..]);
      if s[0] == Separator then [""] + rest
      else [[s[0]] + rest[0]] + rest[1..]
  }

  predicate NoSeparator(parts: seq<string>) {
    forall i :: 0 <= i < |parts| ==> Separator !in parts[i]
  }

  lemma {:induction false} SplitPrefix(p: string, s: string)
    requires Separator !in p
    ensures Split(p + s) == [p + Split(s)[0]] + Split(s)[1..]
  {
    if p != [] {
      assert (p + s)[1..] == p[1..] + s;
      SplitPrefix(p[1..], s);
      assert [p[0]] + (p[1..] + Split(s)[0]) == p + Split(s)[0];
    } else {
      assert p + s == s;
      assert p + Split(s)[0] == Split(s)[0];
      assert [Split(s)[0]] + Split(s)[1..] == Split(s);
    }
  }

  lemma {:induction false} SplitArrayToParam(parts: seq<string>)
    requires parts != [] && NoSeparator(parts)
    ensures Split(ArrayToParam(parts)) == parts
  {
    if |parts| == 1 {
      SplitPrefix(parts[0], "");
      assert parts[0] + "" == parts[0];
      assert Split("") == [""];
      assert parts == [parts[0]];
    } else {
      var tail := ArrayToParam(parts[1..]);
      SplitPrefix(parts[0], [Separator] + tail);
      assert ([Separator] + tail)[1..] == tail;
      SplitArrayToParam(parts[1..]);
      assert Split([Separator] + tail) == [""] + parts[1..];
      assert parts[0] + [Separator] + tail == parts[0] + ([Separator] + tail);
      assert parts[0] + "" == parts[0];
      assert [parts[0]] + parts[1..] == parts;
    }
  }

  /** Two non-empty arrays whose elements normalize to text without "/" collide only when their elements do. */
  lemma ArrayKeysCollideOnlyOnEqualElements(k1: Key, k2: Key)
    requires k1.kind.ArrayObject? && k1.cacheKey.None? && k1.kind.elements != []
    requires k2.kind.ArrayObject? && k2.cacheKey.None? && k2.kind.elements != []
    requires NoSeparator(NormalizeAll(k1.kind.elements)) && NoSeparator(NormalizeAll(k2.kind.elements))
    ensures ObjectToCacheKey(k1) == ObjectToCacheKey(k2) <==> NormalizeAll(k1.kind.elements) == NormalizeAll(k2.kind.elements)
  {
    ArrayKeyNormalizesElements(k1);
    ArrayKeyNormalizesElements(k2);
    SplitArrayToParam(NormalizeAll(k1.kind.elements));
    SplitArrayToParam(NormalizeAll(k2.kind.elements));
  }

  function StringKey(s: string): Key {
    Key(StringObject(s), None, Some(s), s)
  }

  function ArrayKey(es: seq<Key>): Key {
    Key(ArrayObject(es), None, None, "")
  }

  /** A composite key and a plain string can normalize to the same text: ["a", "b"] and "a/b". */
  lemma CompositeAndStringKeysCollide()
    ensures ObjectToCacheKey(ArrayKey([StringKey("a"), StringKey("b")])) == ObjectToCacheKey(StringKey("a/b"))
  {
    var es := [StringKey("a"), StringKey("b")];
    assert NormalizeAll(es) == ["a", "b"];
    ArrayKeyNormalizesElements(ArrayKey(es));
  }

  /** The empty array and the array holding one empty string both normalize to "". */
  lemma EmptyArrayCollidesWithEmptyElement()
    ensures ObjectToCacheKey(ArrayKey([])) == ObjectToCacheKey(ArrayKey([StringKey("")])) == ""
  {
    assert NormalizeAll([StringKey("")]) == [""];
    ArrayKeyNormalizesElements(ArrayKey([StringKey("")]));
  }
}
