/** Array methods the store and the dashboard use: `findIndex`, `filter`, the set
    of keys of a list, and the "first new key wins" de-duplication of the bulk
    imports.  Keys are strings taken from each element by a `key` function. */
module Lists {

  /** `xs.findIndex(p)`: the first index whose element satisfies `p`, or -1. */
  function FindIndex<T>(xs: seq<T>, p: T -> bool): (r: int)
    ensures -1 <= r < |xs|
    ensures r == -1 <==> forall k :: 0 <= k < |xs| ==> !p(xs[k])
    ensures r >= 0 ==> p(xs[r]) && forall k :: 0 <= k < r ==> !p(xs[k])
  {
    if xs == [] then -1
    else if p(xs[0]) then 0
    else
      var r := FindIndex(xs[1..], p);
      if r == -1 then -1 else r + 1
  }

  /** `xs.filter(p)`: the elements satisfying `p`, in their order. */
  function Filter<T>(xs: seq<T>, p: T -> bool): (r: seq<T>)
    ensures |r| <= |xs|
    ensures forall k :: 0 <= k < |r| ==> r[k] in xs && p(r[k])
    ensures forall k :: 0 <= k < |xs| && p(xs[k]) ==> xs[k] in r
  {
    if xs == [] then []
    else (if p(xs[0]) then [xs[0]] else []) + Filter(xs[1..], p)
  }

  /** Filtering keeps order: it distributes over concatenation. */
  lemma {:induction false} FilterAppend<T>(a: seq<T>, b: seq<T>, p: T -> bool)
    ensures Filter(a + b, p) == Filter(a, p) + Filter(b, p)
  {
    if a != [] {
      assert (a + b)[1..] == a[1..] + b;
      FilterAppend(a[1..], b, p);
    } else {
      assert a + b == b;
    }
  }

  /** Filtering never duplicates: each element is kept at most as often as it occurs. */
  lemma {:induction false} FilterSubMultiset<T>(xs: seq<T>, p: T -> bool)
    ensures multiset(Filter(xs, p)) <= multiset(xs)
  {
    if xs != [] {
      var head := if p(xs[0]) then [xs[0]] else [];
      FilterSubMultiset(xs[1..], p);
      assert Filter(xs, p) == head + Filter(xs[1..], p);
      assert multiset(Filter(xs, p)) == multiset(head) + multiset(Filter(xs[1..], p));
      assert xs == [xs[0]] + xs[1..];
      assert multiset(xs) == multiset([xs[0]]) + multiset(xs[1..]);
    }
  }

  /** Filtering keeps everything when every element qualifies. */
  lemma {:induction false} FilterAll<T>(xs: seq<T>, p: T -> bool)
    requires forall k :: 0 <= k < |xs| ==> p(xs[k])
    ensures Filter(xs, p) == xs
  {
    if xs != [] {
      FilterAll(xs[1..], p);
    }
  }

  /** Filtering keeps nothing when no element qualifies. */
  lemma {:induction false} FilterNone<T>(xs: seq<T>, p: T -> bool)
    requires forall k :: 0 <= k < |xs| ==> !p(xs[k])
    ensures Filter(xs, p) == []
  {
    if xs != [] {
      FilterNone(xs[1..], p);
    }
  }

  /** The set of keys of a list (`new Set(xs.map(key))`). */
  function Keys<T>(xs: seq<T>, key: T -> string): set<string> {
    set k | 0 <= k < |xs| :: key(xs[k])
  }

  lemma KeysCons<T>(x: T, xs: seq<T>, key: T -> string)
    ensures Keys([x] + xs, key) == {key(x)} + Keys(xs, key)
  {
    var s := [x] + xs;
    forall y | y in Keys(s, key) ensures y in {key(x)} + Keys(xs, key) {
      var k :| 0 <= k < |s| && key(s[k]) == y;
      if k > 0 { assert s[k] == xs[k - 1]; }
    }
    forall y | y in Keys(xs, key) ensures y in Keys(s, key) {
      var k :| 0 <= k < |xs| && key(xs[k]) == y;
      assert s[k + 1] == xs[k];
    }
    assert key(s[0]) == key(x);
  }

  lemma KeysAppend<T>(a: seq<T>, b: seq<T>, key: T -> string)
    ensures Keys(a + b, key) == Keys(a, key) + Keys(b, key)
  {
    var s := a + b;
    forall y | y in Keys(s, key) ensures y in Keys(a, key) + Keys(b, key) {
      var k :| 0 <= k < |s| && key(s[k]) == y;
      if k < |a| { assert s[k] == a[k]; } else { assert s[k] == b[k - |a|]; }
    }
    forall y | y in Keys(a, key) ensures y in Keys(s, key) {
      var k :| 0 <= k < |a| && key(a[k]) == y;
      assert s[k] == a[k];
    }
    forall y | y in Keys(b, key) ensures y in Keys(s, key) {
      var k :| 0 <= k < |b| && key(b[k]) == y;
      assert s[|a| + k] == b[k];
    }
  }

  /** Index `i` holds the first element whose key is `k`. */
  predicate IsFirstKey<T>(xs: seq<T>, key: T -> string, k: string, i: int) {
    0 <= i < |xs| && key(xs[i]) == k && forall j :: 0 <= j < i ==> key(xs[j]) != k
  }

  /** `xs.findIndex(x => key(x) === k)`. */
  function IndexOfKey<T>(xs: seq<T>, key: T -> string, k: string): (r: int)
    ensures -1 <= r < |xs|
    ensures r == -1 <==> k !in Keys(xs, key)
    ensures r != -1 ==> IsFirstKey(xs, key, k, r)
  {
    var r := FindIndex(xs, (x: T) => key(x) == k);
    assert r != -1 ==> key(xs[r]) in Keys(xs, key);
    r
  }

  /** No two elements of the list share a key. */
  predicate DistinctKeys<T>(xs: seq<T>, key: T -> string) {
    forall i, j :: 0 <= i < j < |xs| ==> key(xs[i]) != key(xs[j])
  }

  /** Two key-distinct lists with no key in common concatenate to a key-distinct list. */
  lemma DistinctConcat<T>(a: seq<T>, b: seq<T>, key: T -> string)
    requires DistinctKeys(a, key) && DistinctKeys(b, key)
    requires forall k :: 0 <= k < |b| ==> key(b[k]) !in Keys(a, key)
    ensures DistinctKeys(a + b, key)
  {
    var s := a + b;
    forall i, j | 0 <= i < j < |s| ensures key(s[i]) != key(s[j]) {
      if j < |a| {
        assert s[i] == a[i] && s[j] == a[j];
      } else if i >= |a| {
        assert s[i] == b[i - |a|] && s[j] == b[j - |a|];
      } else {
        assert s[i] == a[i] && s[j] == b[j - |a|];
        assert key(a[i]) in Keys(a, key);
      }
    }
  }

  /** Removing elements keeps keys distinct. */
  lemma {:induction false} FilterKeepsDistinct<T>(xs: seq<T>, p: T -> bool, key: T -> string)
    requires DistinctKeys(xs, key)
    ensures DistinctKeys(Filter(xs, p), key)
  {
    if xs != [] {
      FilterKeepsDistinct(xs[1..], p, key);
      var rest := Filter(xs[1..], p);
      if p(xs[0]) {
        forall k | 0 <= k < |rest| ensures key(rest[k]) !in Keys([xs[0]], key) {
          assert rest[k] in xs[1..];
          var j :| 0 <= j < |xs[1..]| && xs[1..][j] == rest[k];
          assert xs[j + 1] == rest[k];
        }
        DistinctConcat([xs[0]], rest, key);
      }
    }
  }

  /** The bulk-import loop: walk `batch` in order and keep each element whose key
      is neither in `seen` nor the key of an element kept before it. */
  function FirstNew<T>(key: T -> string, seen: set<string>, batch: seq<T>): (r: seq<T>)
    decreases |batch|
    ensures DistinctKeys(r, key)
    ensures forall k :: 0 <= k < |r| ==> key(r[k]) !in seen
    ensures forall k :: 0 <= k < |r| ==> r[k] in batch
  {
    if batch == [] then []
    else if key(batch[0]) in seen then FirstNew(key, seen, batch[1..])
    else
      var rest := FirstNew(key, seen + {key(batch[0])}, batch[1..]);
      assert forall k :: 0 <= k < |rest| ==> key(rest[k]) != key(batch[0]);
      [batch[0]] + rest
  }

  /** The exact rule of the import: an element is appended after the ones before it
      precisely when its key is neither stored nor carried by any earlier element
      of the batch, kept or not. */
  lemma {:induction false} FirstNewSnoc<T>(key: T -> string, seen: set<string>, batch: seq<T>, x: T)
    ensures FirstNew(key, seen, batch + [x])
         == FirstNew(key, seen, batch) + (if key(x) in seen + Keys(batch, key) then [] else [x])
    decreases |batch|
  {
    if batch == [] {
      assert batch + [x] == [x];
      assert Keys(batch, key) == {};
    } else {
      var b := batch[0];
      var rest := batch[1..];
      assert (batch + [x])[1..] == rest + [x];
      assert batch == [b] + rest;
      KeysCons(b, rest, key);
      if key(b) in seen {
        FirstNewSnoc(key, seen, rest, x);
      } else {
        FirstNewSnoc(key, seen + {key(b)}, rest, x);
      }
    }
  }

  /** Every key of the batch ends up stored: it was there already or it is imported. */
  lemma {:induction false} FirstNewCovers<T>(key: T -> string, seen: set<string>, batch: seq<T>)
    ensures seen + Keys(FirstNew(key, seen, batch), key) == seen + Keys(batch, key)
    decreases |batch|
  {
    if batch == [] {
      assert Keys(batch, key) == {};
      assert Keys(FirstNew(key, seen, batch), key) == {};
    } else {
      var b := batch[0];
      var rest := batch[1..];
      assert batch == [b] + rest;
      KeysCons(b, rest, key);
      if key(b) in seen {
        FirstNewCovers(key, seen, rest);
      } else {
        FirstNewCovers(key, seen + {key(b)}, rest);
        KeysCons(b, FirstNew(key, seen + {key(b)}, rest), key);
      }
    }
  }

  /** Importing into a key-distinct list keeps it key-distinct. */
  lemma ImportKeepsDistinct<T>(existing: seq<T>, key: T -> string, batch: seq<T>)
    requires DistinctKeys(existing, key)
    ensures DistinctKeys(existing + FirstNew(key, Keys(existing, key), batch), key)
  {
    DistinctConcat(existing, FirstNew(key, Keys(existing, key), batch), key);
  }
}
