/** The list rewrites the dashboard performs on its collections: `filter` by
    a string key, `map` that replaces the elements with a given key, and
    `slice(0, n)`. The key is a named field accessor such as `ActivityId`. */
module Lists {

  /** `s.filter(x => key(x) === v)`. */
  function WithKey<T(!new)>(s: seq<T>, key: T -> string, v: string): (r: seq<T>)
    ensures |r| <= |s|
  {
    if s == [] then []
    else (if key(s[0]) == v then [s[0]] else []) + WithKey(s[1..], key, v)
  }

  /** The elements kept are exactly those of `s` whose key is `v`. */
  lemma {:induction false} WithKeyMembers<T(!new)>(s: seq<T>, key: T -> string, v: string)
    ensures forall x :: x in WithKey(s, key, v) <==> x in s && key(x) == v
  {
    if s != [] {
      WithKeyMembers(s[1..], key, v);
      assert s == [s[0]] + s[1..];
    }
  }

  /** `s.filter(x => key(x) !== v)`. */
  function WithoutKey<T(!new)>(s: seq<T>, key: T -> string, v: string): (r: seq<T>)
    ensures |r| <= |s|
  {
    if s == [] then []
    else (if key(s[0]) != v then [s[0]] else []) + WithoutKey(s[1..], key, v)
  }

  /** The elements kept are exactly those of `s` whose key is not `v`. */
  lemma {:induction false} WithoutKeyMembers<T(!new)>(s: seq<T>, key: T -> string, v: string)
    ensures forall x :: x in WithoutKey(s, key, v) <==> x in s && key(x) != v
  {
    if s != [] {
      WithoutKeyMembers(s[1..], key, v);
      assert s == [s[0]] + s[1..];
    }
  }

  /** `s.map(x => key(x) === v ? merge(x, patch) : x)`. */
  function UpdateWhere<T, P>(s: seq<T>, key: T -> string, v: string, merge: (T, P) -> T, patch: P): (r: seq<T>)
    ensures |r| == |s|
    ensures forall i :: 0 <= i < |s| && key(s[i]) != v ==> r[i] == s[i]
    ensures forall i :: 0 <= i < |s| && key(s[i]) == v ==> r[i] == merge(s[i], patch)
  {
    seq(|s|, i requires 0 <= i < |s| => if key(s[i]) == v then merge(s[i], patch) else s[i])
  }

  /** `s.slice(0, n)`. */
  function Take<T>(s: seq<T>, n: nat): (r: seq<T>)
    ensures |r| == if n < |s| then n else |s|
    ensures r <= s
  {
    if n < |s| then s[..n] else s
  }

  /** Filtering distributes over concatenation: the kept elements stay in order. */
  lemma {:induction false} WithKeyAppend<T(!new)>(a: seq<T>, b: seq<T>, key: T -> string, v: string)
    ensures WithKey(a + b, key, v) == WithKey(a, key, v) + WithKey(b, key, v)
  {
    if a != [] {
      var head := if key(a[0]) == v then [a[0]] else [];
      assert (a + b)[0] == a[0];
      assert (a + b)[1..] == a[1..] + b;
      WithKeyAppend(a[1..], b, key, v);
    } else {
      assert a + b == b;
    }
  }

  lemma {:induction false} WithoutKeyAppend<T(!new)>(a: seq<T>, b: seq<T>, key: T -> string, v: string)
    ensures WithoutKey(a + b, key, v) == WithoutKey(a, key, v) + WithoutKey(b, key, v)
  {
    if a != [] {
      var head := if key(a[0]) != v then [a[0]] else [];
      assert (a + b)[0] == a[0];
      assert (a + b)[1..] == a[1..] + b;
      WithoutKeyAppend(a[1..], b, key, v);
    } else {
      assert a + b == b;
    }
  }

  /** Removing a key twice removes nothing more: delete is idempotent. */
  lemma {:induction false} WithoutKeyIdempotent<T(!new)>(s: seq<T>, key: T -> string, v: string)
    ensures WithoutKey(WithoutKey(s, key, v), key, v) == WithoutKey(s, key, v)
  {
    if s != [] {
      var head := if key(s[0]) != v then [s[0]] else [];
      WithoutKeyAppend(head, WithoutKey(s[1..], key, v), key, v);
      assert WithoutKey(head, key, v) == head;
      WithoutKeyIdempotent(s[1..], key, v);
    }
  }

  /** Removing a key no element carries leaves the list as it was. */
  lemma {:induction false} WithoutAbsentKey<T(!new)>(s: seq<T>, key: T -> string, v: string)
    requires forall i :: 0 <= i < |s| ==> key(s[i]) != v
    ensures WithoutKey(s, key, v) == s
  {
    if s != [] {
      WithoutAbsentKey(s[1..], key, v);
    }
  }

  /** Every element either carries the key or does not: the two filters
      split the list between them. */
  lemma {:induction false} KeySplit<T(!new)>(s: seq<T>, key: T -> string, v: string)
    ensures |WithKey(s, key, v)| + |WithoutKey(s, key, v)| == |s|
  {
    if s != [] {
      KeySplit(s[1..], key, v);
    }
  }

  /** Updating a key no element carries leaves the list as it was. */
  lemma UpdateAbsentKey<T, P>(s: seq<T>, key: T -> string, v: string, merge: (T, P) -> T, patch: P)
    requires forall i :: 0 <= i < |s| ==> key(s[i]) != v
    ensures UpdateWhere(s, key, v, merge, patch) == s
  {
  }
}
