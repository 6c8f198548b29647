/** The JavaScript array operations the icon resolver relies on. */
module JsArray {
  import opened Wrappers
  import opened JsText

  /**
   * The position of the element `s.find(p)` returns: the first one that
   * satisfies `p`, or `None` when `find` yields `undefined`.
   */
  function FindIndex<T>(s: seq<T>, p: T -> bool): (r: Option<nat>)
    ensures r.Some? ==> r.value < |s| && p(s[r.value])
    ensures r.Some? ==> forall j :: 0 <= j < r.value ==> !p(s[j])
    ensures r.None? <==> forall j :: 0 <= j < |s| ==> !p(s[j])
  {
    if |s| == 0 then None
    else if p(s[0]) then Some(0)
    else match FindIndex(s[1..], p)
      case None => None
      case Some(k) => Some(k + 1)
  }

  /**
   * The property names every array inherits from `Array.prototype` and
   * `Object.prototype` (ECMAScript 2023, as in the Node.js releases that
   * provide `import.meta.dirname`).
   */
  predicate IsInheritedKey(key: string) {
    || key == "at" || key == "concat" || key == "constructor" || key == "copyWithin"
    || key == "entries" || key == "every" || key == "fill" || key == "filter"
    || key == "find" || key == "findIndex" || key == "findLast" || key == "findLastIndex"
    || key == "flat" || key == "flatMap" || key == "forEach" || key == "includes"
    || key == "indexOf" || key == "join" || key == "keys" || key == "lastIndexOf"
    || key == "length" || key == "map" || key == "pop" || key == "push"
    || key == "reduce" || key == "reduceRight" || key == "reverse" || key == "shift"
    || key == "slice" || key == "some" || key == "sort" || key == "splice"
    || key == "toLocaleString" || key == "toReversed" || key == "toSorted" || key == "toSpliced"
    || key == "toString" || key == "unshift" || key == "values" || key == "with"
    || key == "hasOwnProperty" || key == "isPrototypeOf" || key == "propertyIsEnumerable"
    || key == "valueOf" || key == "__proto__" || key == "__defineGetter__"
    || key == "__defineSetter__" || key == "__lookupGetter__" || key == "__lookupSetter__"
  }

  /**
   * A name is not inherited when its first letter and length match no
   * inherited name: none starts with 'o', those starting with 'p' have 3, 4
   * or 20 letters, those starting with 'l' have 6 or 11.
   */
  lemma NotInheritedByShape(key: string)
    requires |key| > 0
    requires || key[0] == 'o'
             || (key[0] == 'p' && |key| != 3 && |key| != 4 && |key| != 20)
             || (key[0] == 'l' && |key| != 6 && |key| != 11)
    ensures !IsInheritedKey(key)
  {
  }

  /** `key` names one of the elements of an array of length `len`. */
  predicate IsIndexKey(key: string, len: nat) {
    IsCanonicalIndex(key) && DigitsValue(key) < len
  }

  /**
   * `key in arr` for a dense array of strings: true for the index keys, for
   * the own property "length" and for every inherited property name. It
   * never looks at the elements themselves.
   */
  predicate HasProperty<T>(arr: seq<T>, key: string)
    ensures HasProperty(arr, key) <==>
              || (exists i :: 0 <= i < |arr| && key == NatToString(i))
              || key == "length"
              || IsInheritedKey(key)
  {
    IndexKeysAreSpelledIndices(key, |arr|);
    IsIndexKey(key, |arr|) || key == "length" || IsInheritedKey(key)
  }

  /** Whether `key in arr` holds depends on the array's length, never on its elements. */
  lemma HasPropertyIgnoresElements<T>(a: seq<T>, b: seq<T>, key: string)
    requires |a| == |b|
    ensures HasProperty(a, key) <==> HasProperty(b, key)
  {
  }

  /** The index keys of an array of length `len` are exactly the spellings of 0 .. len-1. */
  lemma IndexKeysAreSpelledIndices(key: string, len: nat)
    ensures IsIndexKey(key, len) <==> exists i :: 0 <= i < len && key == NatToString(i)
  {
    if IsIndexKey(key, len) {
      CanonicalIndexRoundTrip(key);
      var i := DigitsValue(key);
      assert 0 <= i < len && key == NatToString(i);
    }
    if exists i :: 0 <= i < len && key == NatToString(i) {
      var i :| 0 <= i < len && key == NatToString(i);
      NatToStringRoundTrip(i);
    }
  }
}
