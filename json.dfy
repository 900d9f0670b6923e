/**
 * The JSON values the client exchanges, with the few Python operations the
 * source applies to them: truthiness (`if x:`), `key in x` and `x[key]`.
 * JSON numbers are restricted to integers.
 */
module Json {
  import opened Wrappers
  import opened Assoc

  datatype Json =
    | JNull
    | JBool(b: bool)
    | JInt(n: int)
    | JStr(s: string)
    | JArr(items: seq<Json>)
    | JObj(fields: Assoc<Json>)

  /** Python truthiness: `None`, `False`, `0` and empty containers are false. */
  predicate Truthy(j: Json): (b: bool)
    ensures !b <==> j == JNull || j == JBool(false) || j == JInt(0) || j == JStr("") || j == JArr([]) || j == JObj([])
  {
    match j
    case JNull => false
    case JBool(b) => b
    case JInt(n) => n != 0
    case JStr(s) => s != []
    case JArr(items) => items != []
    case JObj(fields) => fields != []
  }

  /** `needle` occurs as a contiguous piece of `s` (Python `needle in s` on strings). */
  predicate IsSubstring(needle: string, s: string)
    decreases |s|
  {
    if |needle| > |s| then false
    else s[..|needle|] == needle || (s != [] && IsSubstring(needle, s[1..]))
  }

  /** `needle` starts at position `i` of `s`. */
  ghost predicate OccursAt(needle: string, s: string, i: nat)
  {
    i + |needle| <= |s| && s[i..i + |needle|] == needle
  }

  /** The scan of `IsSubstring` finds `needle` exactly when it starts at some position of `s`. */
  lemma {:induction false} IsSubstringOccurs(needle: string, s: string)
    ensures IsSubstring(needle, s) <==> exists i: nat :: OccursAt(needle, s, i)
    decreases |s|
  {
    if |needle| <= |s| && s != [] {
      IsSubstringOccurs(needle, s[1..]);
      forall i: nat | OccursAt(needle, s[1..], i) ensures OccursAt(needle, s, i + 1) {
        assert s[1..][i..i + |needle|] == s[i + 1..i + 1 + |needle|];
      }
      forall i: nat | OccursAt(needle, s, i) && i > 0 ensures OccursAt(needle, s[1..], i - 1) {
        assert s[1..][i - 1..i - 1 + |needle|] == s[i..i + |needle|];
      }
      assert OccursAt(needle, s, 0) <==> s[..|needle|] == needle;
    } else if |needle| <= |s| {
      assert OccursAt(needle, s, 0);
    }
  }

  /**
   * Python `key in container` for a string `key`: a key of a dict, an
   * element of a list, a substring of a string; on None, a bool or an int
   * Python raises TypeError, given here as None.
   */
  function Contains(container: Json, key: string): (r: Option<bool>)
    ensures r.None? <==> container.JNull? || container.JBool? || container.JInt?
    ensures container.JObj? ==> r == Some(key in Keys(container.fields))
  {
    match container
    case JObj(fields) => Some(key in Keys(fields))
    case JArr(items) => Some(JStr(key) in items)
    case JStr(s) => Some(IsSubstring(key, s))
    case _ => None
  }

  /**
   * Python `container[key]` for a string `key`: defined only on a dict that
   * holds the key; everything else raises (KeyError or TypeError), given
   * here as None.
   */
  function Subscript(container: Json, key: string): (r: Option<Json>)
    ensures r.Some? <==> container.JObj? && key in Keys(container.fields)
    ensures r.Some? ==> (key, r.value) in container.fields
  {
    if container.JObj? then Get(container.fields, key) else None
  }
}
