/**
 * The few JavaScript built-ins the UNO core leans on, stated with the
 * semantics the engine relies on: `Array.prototype.indexOf`,
 * `String.prototype.charAt`, and `Math.floor(Math.random() * n)` with the
 * random number taken as a parameter.
 */
module JsBuiltins {
  import opened Wrappers

  /** `s.indexOf(x)`: the first index holding `x`, or -1 when there is none. */
  function IndexOf<T(==)>(s: seq<T>, x: T): (r: int)
    ensures -1 <= r < |s|
    ensures r == -1 <==> x !in s
    ensures 0 <= r ==> s[r] == x && forall j :: 0 <= j < r ==> s[j] != x
  {
    if |s| == 0 then -1
    else if s[0] == x then 0
    else
      var r := IndexOf(s[1..], x);
      if r == -1 then -1 else r + 1
  }

  /** A relative index of `Array.prototype.slice` resolved against length `n`: negatives count from the end. */
  function SliceIndex(x: int, n: nat): (k: nat)
    ensures k <= n
    ensures 0 <= x <= n ==> k == x
    ensures x < 0 && n + x >= 0 ==> k == n + x
  {
    if x < 0 then (if n + x < 0 then 0 else n + x) else if x > n then n else x
  }

  /** `s.slice(start, end)`: empty when the resolved start is not before the resolved end. */
  function JsSlice<T>(s: seq<T>, start: int, end: int): seq<T> {
    var i, j := SliceIndex(start, |s|), SliceIndex(end, |s|);
    if i < j then s[i..j] else []
  }

  /** `s.charAt(i)`: the one-character string at `i`, or "" past the end. */
  function CharAt(s: string, i: nat): (r: string)
    ensures i < |s| ==> r == [s[i]]
    ensures i >= |s| ==> r == ""
  {
    if i < |s| then [s[i]] else ""
  }

  /** `Math.floor(random * n)` for a `random` drawn from [0, 1). */
  function RandomIndex(random: real, n: nat): (j: int)
    requires 0.0 <= random < 1.0
    ensures n > 0 ==> 0 <= j < n
    ensures n == 0 ==> j == 0
  {
    var x := random * n as real;
    assert 0.0 <= x;
    assert n > 0 ==> x < n as real;
    x.Floor
  }

  /**
   * `obj[key] = v` on a JavaScript object kept as its entries in insertion
   * order: an existing key keeps its place and takes the new value, a new key
   * goes at the end.
   */
  function ObjectSet<V>(entries: seq<(string, V)>, key: string, v: V): (r: seq<(string, V)>)
    ensures ObjectGet(r, key) == Some(v)
    ensures forall other :: other != key ==> ObjectGet(r, other) == ObjectGet(entries, other)
    ensures ObjectGet(entries, key).None? ==> r == entries + [(key, v)]
  {
    if |entries| == 0 then [(key, v)]
    else if entries[0].0 == key then [(key, v)] + entries[1..]
    else [entries[0]] + ObjectSet(entries[1..], key, v)
  }

  /** `obj[key]`: the value of the first entry for `key`, or undefined. */
  function ObjectGet<V>(entries: seq<(string, V)>, key: string): Option<V> {
    if |entries| == 0 then None
    else if entries[0].0 == key then Some(entries[0].1)
    else ObjectGet(entries[1..], key)
  }

  /** No value occurs twice. */
  predicate NoDuplicates<T(==)>(s: seq<T>) {
    forall i, j :: 0 <= i < j < |s| ==> s[i] != s[j]
  }
}
