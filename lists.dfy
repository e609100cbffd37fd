/** The lodash and Array operations the data sources apply to parsed rows:
    `_.reverse`, `_.drop`, `Array.pop`, `_.remove` and `join`. */
module Lists {

  /** `_.reverse`: index 0 of the result is the last element of the input. */
  function Reverse<T>(s: seq<T>): (r: seq<T>)
    ensures |r| == |s|
    ensures forall k :: 0 <= k < |s| ==> r[k] == s[|s| - 1 - k]
  {
    if s == [] then [] else [s[|s| - 1]] + Reverse(s[..|s| - 1])
  }

  /** `_.drop(s, n)`. */
  function Drop<T>(s: seq<T>, n: nat): seq<T>
  {
    if |s| <= n then [] else s[n..]
  }

  /** `Array.pop` for its effect on the array: the last element, if any, goes. */
  function Pop<T>(s: seq<T>): seq<T>
  {
    if s == [] then [] else s[..|s| - 1]
  }

  /** The elements on which `keep` holds, in their original order. */
  function Filter<T>(s: seq<T>, keep: T -> bool): (r: seq<T>)
    ensures |r| <= |s|
    ensures forall k :: 0 <= k < |r| ==> keep(r[k])
    ensures forall x :: x in s && keep(x) ==> x in r
    ensures forall x :: x in r ==> x in s
  {
    if s == [] then []
    else if keep(s[0]) then [s[0]] + Filter(s[1..], keep)
    else Filter(s[1..], keep)
  }

  /** The predicate that holds where p does not. */
  function Not<T>(p: T -> bool): T -> bool
  {
    x => !p(x)
  }

  /** Splitting by a predicate loses nothing: what is kept and what is not together are the input. */
  lemma {:induction false} FilterPartition<T>(s: seq<T>, keep: T -> bool)
    ensures multiset(Filter(s, keep)) + multiset(Filter(s, Not(keep))) == multiset(s)
  {
    if s != [] {
      FilterPartition(s[1..], keep);
      assert s == [s[0]] + s[1..];
    }
  }

  /** `_.remove(array, pred)`: the array keeps, in order, the elements pred rejects, and the
      removed elements are returned, in order. */
  method Remove<T>(data: seq<T>, pred: T -> bool) returns (kept: seq<T>, removed: seq<T>)
    ensures kept == Filter(data, Not(pred))
    ensures removed == Filter(data, pred)
  {
    kept, removed := [], [];
    var i := |data|;
    while i > 0
      invariant 0 <= i <= |data|
      invariant kept == Filter(data[i..], Not(pred))
      invariant removed == Filter(data[i..], pred)
    {
      i := i - 1;
      assert data[i..][1..] == data[i + 1..];
      if pred(data[i]) {
        removed := [data[i]] + removed;
      } else {
        kept := [data[i]] + kept;
      }
    }
  }

  /** `parts.join(sep)`. */
  function Join(parts: seq<string>, sep: char): string
  {
    if parts == [] then ""
    else if |parts| == 1 then parts[0]
    else parts[0] + [sep] + Join(parts[1..], sep)
  }

  /** `s.split(sep)`: the pieces between separators; an empty string gives one empty piece. */
  function Split(s: string, sep: char): (parts: seq<string>)
    ensures |parts| >= 1
  {
    if s == [] then [""]
    else
      var rest := Split(s[1..], sep);
      if s[0] == sep then [""] + rest
      else [[s[0]] + rest[0]] + rest[1..]
  }

  /** Splitting a joined list gives the list back when no part holds the separator. */
  lemma {:induction false} SplitJoin(parts: seq<string>, sep: char)
    requires parts != []
    requires forall k :: 0 <= k < |parts| ==> sep !in parts[k]
    ensures Split(Join(parts, sep), sep) == parts
  {
    if |parts| == 1 {
      SplitNoSep(parts[0], sep);
    } else {
      var tail := [sep] + Join(parts[1..], sep);
      SplitJoin(parts[1..], sep);
      assert tail[1..] == Join(parts[1..], sep);
      assert Split(tail, sep) == [""] + parts[1..];
      SplitPrefix(parts[0], tail, sep);
      assert parts[0] + [sep] + Join(parts[1..], sep) == parts[0] + tail;
      assert parts[0] + "" == parts[0];
      assert [parts[0]] + parts[1..] == parts;
    }
  }

  lemma {:induction false} SplitNoSep(s: string, sep: char)
    requires sep !in s
    ensures Split(s, sep) == [s]
  {
    if s != [] {
      SplitNoSep(s[1..], sep);
      assert [s[0]] + s[1..] == s;
    }
  }

  /** A prefix without the separator sticks to the first piece of what follows it. */
  lemma {:induction false} SplitPrefix(a: string, b: string, sep: char)
    requires sep !in a
    ensures Split(a + b, sep) == [a + Split(b, sep)[0]] + Split(b, sep)[1..]
  {
    if a == [] {
      var parts := Split(b, sep);
      assert a + b == b && a + parts[0] == parts[0];
      assert [parts[0]] + parts[1..] == parts;
    } else {
      assert (a + b)[1..] == a[1..] + b;
      SplitPrefix(a[1..], b, sep);
      assert [a[0]] + (a[1..] + Split(b, sep)[0]) == a + Split(b, sep)[0];
    }
  }
}

/** A Map filled by `set` calls in order: a later pair overwrites an earlier one with the same key. */
module Stores {

  /** The map after setting the first n pairs, in order, into an empty map. */
  function Assign<K, V>(pairs: seq<(K, V)>, n: nat): map<K, V>
    requires n <= |pairs|
  {
    if n == 0 then map[] else Assign(pairs, n - 1)[pairs[n - 1].0 := pairs[n - 1].1]
  }

  /** The pair entry gives for each item, in order. */
  function Entries<T, K, V>(items: seq<T>, entry: T -> (K, V)): (pairs: seq<(K, V)>)
    ensures |pairs| == |items|
    ensures forall i :: 0 <= i < |items| ==> pairs[i] == entry(items[i])
  {
    seq(|items|, i requires 0 <= i < |items| => entry(items[i]))
  }

  /** `_.each(items, item => { map[key] = value })` into an empty map: every item's pair is set in
      order, so a later item overwrites an earlier one with the same key. */
  method SetEach<T, K, V>(items: seq<T>, entry: T -> (K, V)) returns (m: map<K, V>)
    ensures m == Assign(Entries(items, entry), |items|)
  {
    m := map[];
    var i := 0;
    while i < |items|
      invariant 0 <= i <= |items|
      invariant m == Assign(Entries(items, entry), i)
    {
      var pair := entry(items[i]);
      AssignStep(Entries(items, entry), i, pair.0, pair.1);
      m := m[pair.0 := pair.1];
      i := i + 1;
    }
  }

  /** Setting one more pair. */
  lemma AssignStep<K, V>(pairs: seq<(K, V)>, n: nat, k: K, v: V)
    requires n < |pairs| && pairs[n] == (k, v)
    ensures Assign(pairs, n + 1) == Assign(pairs, n)[k := v]
  {
  }

  /** The keys are exactly those of the pairs set so far. */
  lemma {:induction false} AssignKeys<K, V>(pairs: seq<(K, V)>, n: nat, k: K)
    requires n <= |pairs|
    ensures k in Assign(pairs, n) <==> exists i :: 0 <= i < n && pairs[i].0 == k
  {
    if n > 0 {
      AssignKeys(pairs, n - 1, k);
      if pairs[n - 1].0 != k {
        assert forall i :: 0 <= i < n && pairs[i].0 == k ==> i < n - 1;
      }
    }
  }

  /** Last writer wins: a key holds the value of the last pair set with that key. */
  lemma {:induction false} AssignLast<K, V>(pairs: seq<(K, V)>, n: nat, i: nat)
    requires i < n <= |pairs|
    requires forall j :: i < j < n ==> pairs[j].0 != pairs[i].0
    ensures pairs[i].0 in Assign(pairs, n) && Assign(pairs, n)[pairs[i].0] == pairs[i].1
  {
    if i < n - 1 {
      AssignLast(pairs, n - 1, i);
    }
  }
}
