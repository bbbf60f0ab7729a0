/**
 * Grouping as the services do it: a dictionary of lists filled by appending in
 * a loop, its keys arranged for display (some fixed keys first, then the rest
 * as `sorted()` gives them) and lists sorted with Python's stable sort.
 */
module Grouping {
  import opened Text

  predicate Unique(s: seq<string>)
  {
    forall i, j :: 0 <= i < j < |s| ==> s[i] != s[j]
  }

  /** `groups[k]` after the append loop: the elements with key `k`, in input order. */
  function Members<T(==,!new)>(xs: seq<T>, key: T -> string, k: string): seq<T>
  {
    if xs == [] then []
    else
      assert xs == xs[..|xs| - 1] + [xs[|xs| - 1]];
      Members(xs[..|xs| - 1], key, k) + (if key(xs[|xs| - 1]) == k then [xs[|xs| - 1]] else [])
  }

  /** The dictionary's keys in insertion order: each key once, where it first occurs. */
  function KeysOf<T(==,!new)>(xs: seq<T>, key: T -> string): seq<string>
  {
    if xs == [] then []
    else
      assert xs == xs[..|xs| - 1] + [xs[|xs| - 1]];
      var prev := KeysOf(xs[..|xs| - 1], key);
      var k := key(xs[|xs| - 1]);
      if k in prev then prev else prev + [k]
  }

  /** A group holds exactly the elements with its key. */
  lemma {:induction false} MembersExactly<T(!new)>(xs: seq<T>, key: T -> string, k: string)
    ensures forall x :: x in Members(xs, key, k) <==> x in xs && key(x) == k
  {
    if xs != [] {
      var n := |xs| - 1;
      assert xs == xs[..n] + [xs[n]];
      MembersExactly(xs[..n], key, k);
    }
  }

  /** The keys are those of the elements, each listed once. */
  lemma {:induction false} KeysOfExactly<T(!new)>(xs: seq<T>, key: T -> string)
    ensures forall k :: k in KeysOf(xs, key) <==> exists x :: x in xs && key(x) == k
    ensures Unique(KeysOf(xs, key))
  {
    if xs != [] {
      var n := |xs| - 1;
      assert xs == xs[..n] + [xs[n]];
      KeysOfExactly(xs[..n], key);
    }
  }

  lemma {:induction false} MembersOfNewKey<T(!new)>(xs: seq<T>, key: T -> string, k: string)
    requires k !in KeysOf(xs, key)
    ensures Members(xs, key, k) == []
  {
    if xs != [] {
      var n := |xs| - 1;
      var prev := KeysOf(xs[..n], key);
      assert k != key(xs[n]) && k !in prev;
      MembersOfNewKey(xs[..n], key, k);
    }
  }

  /** One more element appended: its key is added if new, and it joins its key's group. */
  lemma GroupSnoc<T(!new)>(xs: seq<T>, key: T -> string, i: nat)
    requires i < |xs|
    ensures KeysOf(xs[..i + 1], key)
         == if key(xs[i]) in KeysOf(xs[..i], key) then KeysOf(xs[..i], key) else KeysOf(xs[..i], key) + [key(xs[i])]
    ensures forall k ::
      Members(xs[..i + 1], key, k) == Members(xs[..i], key, k) + (if key(xs[i]) == k then [xs[i]] else [])
  {
    assert xs[..i + 1][..i] == xs[..i];
  }

  /** The keys after one more element: the earlier keys and that element's key. */
  lemma KeysOfSnoc<T(!new)>(xs: seq<T>, key: T -> string, i: nat)
    requires i < |xs|
    ensures forall k :: k in KeysOf(xs[..i + 1], key) <==> k in KeysOf(xs[..i], key) || k == key(xs[i])
  {
    GroupSnoc(xs, key, i);
  }

  /** The state of the append loop after the first i elements. */
  ghost predicate GroupedUpTo<T(!new)>(xs: seq<T>, key: T -> string, i: nat, keys: seq<string>, groups: map<string, seq<T>>)
    requires i <= |xs|
  {
    && keys == KeysOf(xs[..i], key)
    && (forall k :: k in groups <==> k in keys)
    && (forall k :: k in groups ==> groups[k] == Members(xs[..i], key, k))
  }

  /** Appending to an existing group keeps the loop state. */
  lemma GroupAppendStep<T(!new)>(xs: seq<T>, key: T -> string, i: nat, keys: seq<string>, groups: map<string, seq<T>>)
    requires i < |xs| && GroupedUpTo(xs, key, i, keys, groups) && key(xs[i]) in groups
    ensures GroupedUpTo(xs, key, i + 1, keys, groups[key(xs[i]) := groups[key(xs[i])] + [xs[i]]])
  {
    GroupSnoc(xs, key, i);
  }

  /** Opening the group of a new key keeps the loop state. */
  lemma GroupNewStep<T(!new)>(xs: seq<T>, key: T -> string, i: nat, keys: seq<string>, groups: map<string, seq<T>>)
    requires i < |xs| && GroupedUpTo(xs, key, i, keys, groups) && key(xs[i]) !in groups
    ensures GroupedUpTo(xs, key, i + 1, keys + [key(xs[i])], groups[key(xs[i]) := [xs[i]]])
  {
    GroupSnoc(xs, key, i);
    MembersOfNewKey(xs[..i], key, key(xs[i]));
  }

  /**
   * The append loop: `groups[key(x)].append(x)` for each `x`, creating the list
   * on a key's first occurrence. Every element lands in the group of its key
   * and only there.
   */
  method Group<T(==,!new)>(xs: seq<T>, key: T -> string) returns (keys: seq<string>, groups: map<string, seq<T>>)
    ensures keys == KeysOf(xs, key)
    ensures forall k :: k in groups <==> k in keys
    ensures forall k :: k in groups ==> groups[k] == Members(xs, key, k)
  {
    keys := [];
    groups := map[];
    for i := 0 to |xs|
      invariant GroupedUpTo(xs, key, i, keys, groups)
    {
      var k := key(xs[i]);
      if k in groups {
        GroupAppendStep(xs, key, i, keys, groups);
        groups := groups[k := groups[k] + [xs[i]]];
      } else {
        GroupNewStep(xs, key, i, keys, groups);
        keys := keys + [k];
        groups := groups[k := [xs[i]]];
      }
    }
    assert xs[..|xs|] == xs;
  }

  /** The state of the sorting loop after the first i keys. */
  ghost predicate SortedUpTo<T(!new)>(keys: seq<string>, i: nat, groups: map<string, seq<T>>, rank: T -> int, sorted: map<string, seq<T>>)
    requires i <= |keys|
  {
    && (forall k :: k in sorted <==> k in keys[..i])
    && (forall k :: k in sorted ==> k in groups && sorted[k] == SortBy(groups[k], rank))
  }

  /** Sorting the next key's group keeps the loop state. */
  lemma SortStep<T(!new)>(keys: seq<string>, i: nat, groups: map<string, seq<T>>, rank: T -> int, sorted: map<string, seq<T>>)
    requires i < |keys| && SortedUpTo(keys, i, groups, rank, sorted) && keys[i] in groups
    ensures SortedUpTo(keys, i + 1, groups, rank, sorted[keys[i] := SortBy(groups[keys[i]], rank)])
  {
    assert keys[..i + 1] == keys[..i] + [keys[i]];
  }

  /** `for k in groups: groups[k].sort(key=rank)`: each list sorted in place. */
  method SortGroups<T(==,!new)>(xs: seq<T>, key: T -> string, rank: T -> int, keys: seq<string>, groups: map<string, seq<T>>)
    returns (sorted: map<string, seq<T>>)
    requires forall k :: k in groups <==> k in keys
    requires forall k :: k in groups ==> groups[k] == Members(xs, key, k)
    ensures forall k :: k in sorted <==> k in keys
    ensures forall k :: k in sorted ==> sorted[k] == SortBy(Members(xs, key, k), rank)
  {
    sorted := map[];
    for i := 0 to |keys|
      invariant SortedUpTo(keys, i, groups, rank, sorted)
    {
      SortStep(keys, i, groups, rank, sorted);
      sorted := sorted[keys[i] := SortBy(groups[keys[i]], rank)];
    }
    assert keys[..|keys|] == keys;
  }

  /** An element sits in the group of its key and in no other. */
  lemma {:induction false} GroupedOnce<T(!new)>(xs: seq<T>, key: T -> string, x: T, k: string)
    requires x in xs
    ensures k in KeysOf(xs, key) && x in Members(xs, key, k) <==> k == key(x)
  {
    MembersExactly(xs, key, k);
    KeysOfExactly(xs, key);
  }

  // ---------------------------------------------------------------- sorted()

  /** Python's `a < b` ordering on a list of strings, read as strictly ascending. */
  predicate Ascending(s: seq<string>)
  {
    forall i, j :: 0 <= i < j < |s| ==> Less(s[i], s[j])
  }

  function InsertString(x: string, s: seq<string>): (r: seq<string>)
    ensures multiset(r) == multiset(s) + multiset{x}
  {
    if s == [] || !Less(s[0], x) then [x] + s
    else
      assert s == [s[0]] + s[1..];
      [s[0]] + InsertString(x, s[1..])
  }

  /** `sorted(keys)` for a list of distinct strings. */
  function SortStrings(s: seq<string>): (r: seq<string>)
    ensures multiset(r) == multiset(s)
  {
    if s == [] then []
    else
      assert s == [s[0]] + s[1..];
      InsertString(s[0], SortStrings(s[1..]))
  }

  lemma {:induction false} InsertStringAscending(x: string, s: seq<string>)
    requires Ascending(s) && x !in s
    ensures Ascending(InsertString(x, s))
  {
    var r := InsertString(x, s);
    if s == [] || !Less(s[0], x) {
      if s != [] {
        LessTotal(x, s[0]);
        forall j | 1 <= j < |r| ensures Less(x, r[j]) {
          if j > 1 { LessTransitive(x, s[0], s[j - 1]); }
        }
      }
    } else {
      assert s == [s[0]] + s[1..];
      InsertStringAscending(x, s[1..]);
      var t := InsertString(x, s[1..]);
      forall j | 0 <= j < |t| ensures Less(s[0], t[j]) {
        assert t[j] in multiset(t);
        assert t[j] == x || t[j] in s[1..];
      }
    }
  }

  lemma {:induction false} SortStringsAscending(s: seq<string>)
    requires Unique(s)
    ensures Ascending(SortStrings(s))
  {
    if s != [] {
      assert s == [s[0]] + s[1..];
      assert Unique(s[1..]);
      SortStringsAscending(s[1..]);
      var t := SortStrings(s[1..]);
      assert s[0] !in t by {
        assert forall j :: 0 <= j < |s[1..]| ==> s[1..][j] == s[j + 1] != s[0];
        assert s[0] !in multiset(s[1..]);
      }
      InsertStringAscending(s[0], t);
    }
  }

  // ---------------------------------------------------------------- key order

  /** The elements of `s` not listed in `excluded`, in order. */
  function Except(s: seq<string>, excluded: seq<string>): seq<string>
  {
    if s == [] then []
    else (if s[0] in excluded then [] else [s[0]]) + Except(s[1..], excluded)
  }

  /** The elements of `priority` present in `keys`, in priority order. */
  function Present(priority: seq<string>, keys: seq<string>): seq<string>
  {
    if priority == [] then []
    else (if priority[0] in keys then [priority[0]] else []) + Present(priority[1..], keys)
  }

  /**
   * The display order of a grouping's keys: the fixed `priority` keys that
   * occur, in their fixed order, then every other key in ascending order.
   */
  function Arranged(keys: seq<string>, priority: seq<string>): seq<string>
  {
    Present(priority, keys) + Except(SortStrings(keys), priority)
  }

  lemma {:induction false} ExceptMembers(s: seq<string>, excluded: seq<string>)
    ensures forall k :: k in Except(s, excluded) <==> k in s && k !in excluded
  {
    if s != [] {
      ExceptMembers(s[1..], excluded);
      assert s == [s[0]] + s[1..];
    }
  }

  lemma {:induction false} PresentMembers(priority: seq<string>, keys: seq<string>)
    ensures forall k :: k in Present(priority, keys) <==> k in priority && k in keys
  {
    if priority != [] {
      PresentMembers(priority[1..], keys);
      assert priority == [priority[0]] + priority[1..];
    }
  }

  lemma {:induction false} ExceptAscending(s: seq<string>, excluded: seq<string>)
    requires Ascending(s)
    ensures Ascending(Except(s, excluded))
  {
    if s != [] {
      ExceptAscending(s[1..], excluded);
      var t := Except(s[1..], excluded);
      ExceptMembers(s[1..], excluded);
      forall j | 0 <= j < |t| ensures Less(s[0], t[j]) {
        assert t[j] in s[1..];
      }
    }
  }

  lemma {:induction false} ExceptUnique(s: seq<string>, excluded: seq<string>)
    requires Unique(s)
    ensures Unique(Except(s, excluded))
  {
    if s != [] {
      assert Unique(s[1..]);
      ExceptUnique(s[1..], excluded);
      ExceptMembers(s[1..], excluded);
      assert s[0] !in s[1..];
    }
  }

  lemma {:induction false} PresentUnique(priority: seq<string>, keys: seq<string>)
    requires Unique(priority)
    ensures Unique(Present(priority, keys))
  {
    if priority != [] {
      assert Unique(priority[1..]);
      PresentUnique(priority[1..], keys);
      PresentMembers(priority[1..], keys);
      assert priority[0] !in priority[1..];
    }
  }

  lemma {:induction false} SortedUnique(keys: seq<string>)
    requires Unique(keys)
    ensures Unique(SortStrings(keys)) && Ascending(SortStrings(keys))
  {
    var sorted := SortStrings(keys);
    SortStringsAscending(keys);
    forall i, j | 0 <= i < j < |sorted| ensures sorted[i] != sorted[j] {
      LessIrreflexive(sorted[i]);
    }
  }

  /** The arranged keys are the grouping's keys, each once. */
  lemma ArrangedKeys(keys: seq<string>, priority: seq<string>)
    requires Unique(keys) && Unique(priority)
    ensures var r := Arranged(keys, priority);
      (forall k :: k in r <==> k in keys) && Unique(r)
  {
    SortStringsMembers(keys);
    PresentMembers(priority, keys);
    ExceptMembers(SortStrings(keys), priority);
    ArrangedUnique(keys, priority);
  }

  lemma SortStringsMembers(keys: seq<string>)
    ensures forall k :: k in SortStrings(keys) <==> k in keys
  {
    forall k ensures k in SortStrings(keys) <==> k in keys {
      assert k in SortStrings(keys) <==> k in multiset(SortStrings(keys));
      assert k in keys <==> k in multiset(keys);
    }
  }

  lemma ArrangedUnique(keys: seq<string>, priority: seq<string>)
    requires Unique(keys) && Unique(priority)
    ensures Unique(Arranged(keys, priority))
  {
    var p := Present(priority, keys);
    var sorted := SortStrings(keys);
    SortedUnique(keys);
    PresentUnique(priority, keys);
    ExceptUnique(sorted, priority);
    var e := Except(sorted, priority);
    ArrangedSplit(keys, priority);
    PresentMembers(priority, keys);
    ExceptMembers(sorted, priority);
    var r := p + e;
    forall i, j | 0 <= i < j < |r| ensures r[i] != r[j] {
      if j < |p| {
        assert r[i] == p[i] && r[j] == p[j];
      } else if i >= |p| {
        assert r[i] == e[i - |p|] && r[j] == e[j - |p|];
      } else {
        assert r[i] == p[i] && r[j] == e[j - |p|];
        assert r[i] in priority && r[j] !in priority;
      }
    }
  }

  /** The arranged keys are the present priority keys followed by the others. */
  lemma ArrangedSplit(keys: seq<string>, priority: seq<string>)
    ensures var r, p, e := Arranged(keys, priority), Present(priority, keys), Except(SortStrings(keys), priority);
      && |r| == |p| + |e|
      && r[..|p|] == p
      && (forall i :: 0 <= i < |p| ==> r[i] == p[i])
      && (forall i :: |p| <= i < |r| ==> r[i] == e[i - |p|])
  {
  }

  /**
   * The priority keys that occur come first and in priority order; the others
   * follow, strictly ascending.
   */
  lemma ArrangedOrder(keys: seq<string>, priority: seq<string>)
    requires Unique(keys)
    ensures var r, m := Arranged(keys, priority), |Present(priority, keys)|;
      && r[..m] == Present(priority, keys)
      && (forall i :: 0 <= i < m ==> r[i] in priority)
      && (forall i :: m <= i < |r| ==> r[i] !in priority)
      && (forall i, j :: m <= i < j < |r| ==> Less(r[i], r[j]))
  {
    var p := Present(priority, keys);
    var sorted := SortStrings(keys);
    SortedUnique(keys);
    ExceptAscending(sorted, priority);
    var e := Except(sorted, priority);
    PresentMembers(priority, keys);
    ExceptMembers(sorted, priority);
    ConcatOrder(p, e, priority);
  }

  /** A list of priority keys followed by an ascending list of other keys. */
  lemma ConcatOrder(p: seq<string>, e: seq<string>, priority: seq<string>)
    requires forall k :: k in p ==> k in priority
    requires forall k :: k in e ==> k !in priority
    requires Ascending(e)
    ensures var r := p + e;
      && r[..|p|] == p
      && (forall i :: 0 <= i < |p| ==> r[i] in priority)
      && (forall i :: |p| <= i < |r| ==> r[i] !in priority)
      && (forall i, j :: |p| <= i < j < |r| ==> Less(r[i], r[j]))
  {
    var r := p + e;
    forall i | 0 <= i < |p| ensures r[i] in priority {
      assert r[i] == p[i];
    }
    forall i | |p| <= i < |r| ensures r[i] !in priority {
      assert r[i] == e[i - |p|];
    }
    forall i, j | |p| <= i < j < |r| ensures Less(r[i], r[j]) {
      assert r[i] == e[i - |p|] && r[j] == e[j - |p|];
    }
  }

  /** `entries` lists `(k, groups[k])` for the keys `ks`, in order. */
  ghost predicate Lists<T>(entries: seq<(string, seq<T>)>, ks: seq<string>, groups: map<string, seq<T>>)
  {
    |entries| == |ks| &&
    forall i :: 0 <= i < |entries| ==> ks[i] in groups && entries[i].0 == ks[i] && entries[i].1 == groups[ks[i]]
  }

  lemma ListsSnoc<T>(entries: seq<(string, seq<T>)>, ks: seq<string>, groups: map<string, seq<T>>, k: string)
    requires Lists(entries, ks, groups) && k in groups
    ensures Lists(entries + [(k, groups[k])], ks + [k], groups)
  {
  }

  /** The first loop: each priority key that occurs, in priority order. */
  method PriorityEntries<T>(keys: seq<string>, groups: map<string, seq<T>>, priority: seq<string>)
    returns (entries: seq<(string, seq<T>)>)
    requires forall k :: k in groups <==> k in keys
    ensures Lists(entries, Present(priority, keys), groups)
  {
    entries := [];
    for i := 0 to |priority|
      invariant Lists(entries, Present(priority[..i], keys), groups)
    {
      PresentSnoc(priority, keys, i);
      if priority[i] in groups {
        entries := entries + [(priority[i], groups[priority[i]])];
      }
    }
    assert priority[..|priority|] == priority;
  }

  /** The second loop: `sorted(keys)`, skipping the priority keys. */
  method OtherEntries<T>(keys: seq<string>, groups: map<string, seq<T>>, priority: seq<string>)
    returns (entries: seq<(string, seq<T>)>)
    requires forall k :: k in groups <==> k in keys
    ensures Lists(entries, Except(SortStrings(keys), priority), groups)
  {
    var sorted := SortStrings(keys);
    SortStringsMembers(keys);
    entries := [];
    for i := 0 to |sorted|
      invariant Lists(entries, Except(sorted[..i], priority), groups)
    {
      ExceptSnoc(sorted, priority, i);
      var done := Except(sorted[..i], priority);
      if sorted[i] !in priority {
        assert sorted[i] in sorted;
        ListsSnoc(entries, done, groups, sorted[i]);
        entries := entries + [(sorted[i], groups[sorted[i]])];
      } else {
        assert done + [] == done;
      }
    }
    assert sorted[..|sorted|] == sorted;
  }

  /** The result dictionary: its entries follow `Arranged(keys, priority)`. */
  method Arrange<T>(keys: seq<string>, groups: map<string, seq<T>>, priority: seq<string>)
    returns (entries: seq<(string, seq<T>)>)
    requires forall k :: k in groups <==> k in keys
    ensures Lists(entries, Arranged(keys, priority), groups)
  {
    var first := PriorityEntries(keys, groups, priority);
    var rest := OtherEntries(keys, groups, priority);
    entries := first + rest;
    ListsAppend(first, Present(priority, keys), rest, Except(SortStrings(keys), priority), groups);
  }

  /**
   * The ordered dictionary of groups: one entry per key, the priority keys
   * that occur first, in priority order, then the other keys ascending; each
   * entry holds its key's elements in input order.
   */
  function ByKey<T(==,!new)>(xs: seq<T>, key: T -> string, priority: seq<string>): seq<(string, seq<T>)>
  {
    var ks := Arranged(KeysOf(xs, key), priority);
    seq(|ks|, i requires 0 <= i < |ks| => (ks[i], Members(xs, key, ks[i])))
  }

  /** The append loop into a `defaultdict(list)`, then the two loops filling the ordered result. */
  method GroupArranged<T(==,!new)>(xs: seq<T>, key: T -> string, priority: seq<string>)
    returns (entries: seq<(string, seq<T>)>)
    ensures entries == ByKey(xs, key, priority)
  {
    var keys, groups := Group(xs, key);
    entries := Arrange(keys, groups, priority);
  }

  /** Every element sits in exactly one group, the one of its key. */
  lemma ByKeyOnce<T(!new)>(xs: seq<T>, key: T -> string, priority: seq<string>, x: T)
    requires Unique(priority) && x in xs
    ensures var g := ByKey(xs, key, priority);
      && (exists i :: 0 <= i < |g| && g[i].0 == key(x))
      && (forall i :: 0 <= i < |g| ==> (x in g[i].1 <==> g[i].0 == key(x)))
  {
    var keys := KeysOf(xs, key);
    var ks := Arranged(keys, priority);
    var g := ByKey(xs, key, priority);
    KeysOfExactly(xs, key);
    ArrangedKeys(keys, priority);
    assert key(x) in ks;
    var j :| 0 <= j < |ks| && ks[j] == key(x);
    assert g[j].0 == key(x);
    forall i | 0 <= i < |g| ensures x in g[i].1 <==> g[i].0 == key(x) {
      MembersExactly(xs, key, ks[i]);
    }
  }

  /** The priority keys that occur come first, in priority order; every other key follows, strictly ascending. */
  lemma ByKeyKeyOrder<T(!new)>(xs: seq<T>, key: T -> string, priority: seq<string>)
    ensures var g, p := ByKey(xs, key, priority), Present(priority, KeysOf(xs, key));
      && |p| <= |g|
      && (forall i :: 0 <= i < |p| ==> g[i].0 == p[i])
      && (forall i :: |p| <= i < |g| ==> g[i].0 !in priority)
      && (forall i, j :: |p| <= i < j < |g| ==> Less(g[i].0, g[j].0))
  {
    KeysOfExactly(xs, key);
    var keys := KeysOf(xs, key);
    ArrangedOrder(keys, priority);
    var ks := Arranged(keys, priority);
    var p := Present(priority, keys);
    forall i | 0 <= i < |p| ensures ks[i] == p[i] {
      assert ks[..|p|][i] == ks[i];
    }
  }

  lemma ListsAppend<T>(a: seq<(string, seq<T>)>, ka: seq<string>, b: seq<(string, seq<T>)>, kb: seq<string>, groups: map<string, seq<T>>)
    requires Lists(a, ka, groups) && Lists(b, kb, groups)
    ensures Lists(a + b, ka + kb, groups)
  {
    var e, ks := a + b, ka + kb;
    forall i | 0 <= i < |e| ensures ks[i] in groups && e[i].0 == ks[i] && e[i].1 == groups[ks[i]] {
      if i >= |a| {
        assert e[i] == b[i - |a|] && ks[i] == kb[i - |a|];
      } else {
        assert e[i] == a[i] && ks[i] == ka[i];
      }
    }
  }

  lemma {:induction false} PresentAppend(a: seq<string>, b: seq<string>, keys: seq<string>)
    ensures Present(a + b, keys) == Present(a, keys) + Present(b, keys)
  {
    if a != [] {
      assert (a + b)[0] == a[0] && (a + b)[1..] == a[1..] + b;
      PresentAppend(a[1..], b, keys);
    } else {
      assert a + b == b;
    }
  }

  lemma PresentSnoc(priority: seq<string>, keys: seq<string>, i: nat)
    requires i < |priority|
    ensures Present(priority[..i + 1], keys)
         == Present(priority[..i], keys) + (if priority[i] in keys then [priority[i]] else [])
  {
    assert priority[..i + 1] == priority[..i] + [priority[i]];
    PresentAppend(priority[..i], [priority[i]], keys);
    assert Present([priority[i]], keys) == (if priority[i] in keys then [priority[i]] else []) + Present([], keys);
  }

  lemma {:induction false} ExceptAppend(a: seq<string>, b: seq<string>, excluded: seq<string>)
    ensures Except(a + b, excluded) == Except(a, excluded) + Except(b, excluded)
  {
    if a != [] {
      assert (a + b)[0] == a[0] && (a + b)[1..] == a[1..] + b;
      ExceptAppend(a[1..], b, excluded);
    } else {
      assert a + b == b;
    }
  }

  lemma ExceptSnoc(s: seq<string>, excluded: seq<string>, i: nat)
    requires i < |s|
    ensures Except(s[..i + 1], excluded)
         == Except(s[..i], excluded) + (if s[i] in excluded then [] else [s[i]])
  {
    assert s[..i + 1] == s[..i] + [s[i]];
    ExceptAppend(s[..i], [s[i]], excluded);
    assert Except([s[i]], excluded) == (if s[i] in excluded then [] else [s[i]]) + Except([], excluded);
  }

  // ---------------------------------------------------------------- stable sort

  function InsertBy<T(==,!new)>(x: T, s: seq<T>, rank: T -> int): (r: seq<T>)
    ensures multiset(r) == multiset(s) + multiset{x}
  {
    if s == [] || rank(x) <= rank(s[0]) then [x] + s
    else
      assert s == [s[0]] + s[1..];
      [s[0]] + InsertBy(x, s[1..], rank)
  }

  /** `sorted(xs, key=rank)` / `xs.sort(key=rank)`: a stable sort by an integer key. */
  function SortBy<T(==,!new)>(xs: seq<T>, rank: T -> int): (r: seq<T>)
    ensures multiset(r) == multiset(xs)
  {
    if xs == [] then []
    else
      assert xs == [xs[0]] + xs[1..];
      InsertBy(xs[0], SortBy(xs[1..], rank), rank)
  }

  predicate SortedBy<T(==,!new)>(s: seq<T>, rank: T -> int)
  {
    forall i, j :: 0 <= i < j < |s| ==> rank(s[i]) <= rank(s[j])
  }

  /** The elements of rank `v`, in order: stability says these keep their order. */
  function OfRank<T(==,!new)>(s: seq<T>, rank: T -> int, v: int): seq<T>
  {
    if s == [] then []
    else (if rank(s[0]) == v then [s[0]] else []) + OfRank(s[1..], rank, v)
  }

  lemma {:induction false} InsertBySorted<T(!new)>(x: T, s: seq<T>, rank: T -> int)
    requires SortedBy(s, rank)
    ensures SortedBy(InsertBy(x, s, rank), rank)
  {
    if s == [] || rank(x) <= rank(s[0]) {
      SortedCons(x, s, rank);
    } else {
      var u := s[1..];
      SortedByTail(s, rank);
      InsertBySorted(x, u, rank);
      var t := InsertBy(x, u, rank);
      assert InsertBy(x, s, rank) == [s[0]] + t;
      assert t[0] == x || t[0] == s[1];
      SortedCons(s[0], t, rank);
    }
  }

  lemma SortedCons<T(!new)>(a: T, t: seq<T>, rank: T -> int)
    requires SortedBy(t, rank) && (t != [] ==> rank(a) <= rank(t[0]))
    ensures SortedBy([a] + t, rank)
  {
    var r := [a] + t;
    forall i, j | 0 <= i < j < |r| ensures rank(r[i]) <= rank(r[j]) {
      assert r[j] == t[j - 1];
      if i > 0 { assert r[i] == t[i - 1]; }
    }
  }

  /** Inserting `x` puts it in front of every element of its own rank. */
  lemma {:induction false} InsertByStable<T(!new)>(x: T, s: seq<T>, rank: T -> int, v: int)
    requires SortedBy(s, rank)
    ensures OfRank(InsertBy(x, s, rank), rank, v)
         == (if rank(x) == v then [x] else []) + OfRank(s, rank, v)
  {
    var r := InsertBy(x, s, rank);
    if s == [] || rank(x) <= rank(s[0]) {
      assert r[0] == x && r[1..] == s;
    } else {
      var t := s[1..];
      SortedByTail(s, rank);
      InsertByStable(x, t, rank, v);
      assert r[0] == s[0] && r[1..] == InsertBy(x, t, rank);
      assert OfRank(r, rank, v) == (if rank(s[0]) == v then [s[0]] else []) + OfRank(InsertBy(x, t, rank), rank, v);
      assert OfRank(s, rank, v) == (if rank(s[0]) == v then [s[0]] else []) + OfRank(t, rank, v);
      if rank(x) == v {
        // s[0] has a smaller rank than x, so it is not among those of rank v
        assert rank(s[0]) != v;
      }
    }
  }

  lemma SortedByTail<T(!new)>(s: seq<T>, rank: T -> int)
    requires s != [] && SortedBy(s, rank)
    ensures SortedBy(s[1..], rank)
  {
    forall i, j | 0 <= i < j < |s[1..]| ensures rank(s[1..][i]) <= rank(s[1..][j]) {
      assert s[1..][i] == s[i + 1] && s[1..][j] == s[j + 1];
    }
  }

  lemma {:induction false} SortBySorted<T(!new)>(xs: seq<T>, rank: T -> int)
    ensures SortedBy(SortBy(xs, rank), rank)
  {
    if xs != [] {
      SortBySorted(xs[1..], rank);
      InsertBySorted(xs[0], SortBy(xs[1..], rank), rank);
    }
  }

  /** Stability: the elements of any one rank come out in their input order. */
  lemma {:induction false} SortByStable<T(!new)>(xs: seq<T>, rank: T -> int, v: int)
    ensures OfRank(SortBy(xs, rank), rank, v) == OfRank(xs, rank, v)
  {
    if xs != [] {
      SortByStable(xs[1..], rank, v);
      SortBySorted(xs[1..], rank);
      InsertByStable(xs[0], SortBy(xs[1..], rank), rank, v);
    }
  }

  // ---------------------------------------------------------------- counting

  /** `sum(1 for x in xs if p(x))`. */
  function CountIf<T(==,!new)>(xs: seq<T>, p: T -> bool): (r: nat)
    ensures r <= |xs|
  {
    if xs == [] then 0 else CountIf(xs[..|xs| - 1], p) + (if p(xs[|xs| - 1]) then 1 else 0)
  }

  lemma CountIfSnoc<T(!new)>(xs: seq<T>, x: T, p: T -> bool)
    ensures CountIf(xs + [x], p) == CountIf(xs, p) + (if p(x) then 1 else 0)
  {
    assert (xs + [x])[..|xs|] == xs;
  }

  /** `[x for x in xs if p(x)]`. */
  function Where<T>(xs: seq<T>, p: T -> bool): (r: seq<T>)
    ensures |r| <= |xs|
  {
    if xs == [] then [] else Where(xs[..|xs| - 1], p) + (if p(xs[|xs| - 1]) then [xs[|xs| - 1]] else [])
  }

  /** The filtered list holds exactly the elements that pass, and there are as many as the count says. */
  lemma {:induction false} WhereExactly<T(!new)>(xs: seq<T>, p: T -> bool)
    ensures forall x :: x in Where(xs, p) <==> x in xs && p(x)
    ensures |Where(xs, p)| == CountIf(xs, p)
  {
    if xs != [] {
      var n := |xs| - 1;
      assert xs == xs[..n] + [xs[n]];
      WhereExactly(xs[..n], p);
    }
  }

  /** Filtering a concatenation filters each part. */
  lemma {:induction false} WhereAppend<T>(a: seq<T>, b: seq<T>, p: T -> bool)
    ensures Where(a + b, p) == Where(a, p) + Where(b, p)
  {
    if b != [] {
      var n := |b| - 1;
      assert (a + b)[..|a + b| - 1] == a + b[..n];
      WhereAppend(a, b[..n], p);
    } else {
      assert a + b == a;
    }
  }

  /** Filtering three concatenated parts filters each part. */
  lemma WhereOfThree<T>(a: seq<T>, b: seq<T>, c: seq<T>, p: T -> bool)
    ensures Where(a + b + c, p) == Where(a, p) + Where(b, p) + Where(c, p)
  {
    WhereAppend(a + b, c, p);
    WhereAppend(a, b, p);
  }

  /** Of three parts where only the first passes, filtering keeps exactly the first. */
  lemma WhereFirstOfThree<T>(a: seq<T>, b: seq<T>, c: seq<T>, p: T -> bool)
    requires forall i :: 0 <= i < |a| ==> p(a[i])
    requires Where(b, p) == []
    requires forall i :: 0 <= i < |c| ==> !p(c[i])
    ensures Where(a + b + c, p) == a
  {
    WhereOfThree(a, b, c, p);
    WhereKeepsAll(a, p);
    WhereDropsAll(c, p);
  }

  /** Of three parts where only the middle one passes, filtering keeps exactly the middle one. */
  lemma WhereMiddleOfThree<T>(a: seq<T>, b: seq<T>, c: seq<T>, p: T -> bool)
    requires forall i :: 0 <= i < |a| ==> !p(a[i])
    requires Where(b, p) == b
    requires forall i :: 0 <= i < |c| ==> !p(c[i])
    ensures Where(a + b + c, p) == b
  {
    WhereOfThree(a, b, c, p);
    WhereDropsAll(a, p);
    WhereDropsAll(c, p);
  }

  /** Of three parts where only the last passes, filtering keeps exactly the last. */
  lemma WhereLastOfThree<T>(a: seq<T>, b: seq<T>, c: seq<T>, p: T -> bool)
    requires forall i :: 0 <= i < |a| ==> !p(a[i])
    requires Where(b, p) == []
    requires forall i :: 0 <= i < |c| ==> p(c[i])
    ensures Where(a + b + c, p) == c
  {
    WhereOfThree(a, b, c, p);
    WhereDropsAll(a, p);
    WhereKeepsAll(c, p);
  }

  /** A list whose every element passes is kept whole. */
  lemma {:induction false} WhereKeepsAll<T>(xs: seq<T>, p: T -> bool)
    requires forall i :: 0 <= i < |xs| ==> p(xs[i])
    ensures Where(xs, p) == xs
  {
    if xs != [] {
      var n := |xs| - 1;
      WhereKeepsAll(xs[..n], p);
      assert xs == xs[..n] + [xs[n]];
    }
  }

  /** A list whose every element fails is filtered away. */
  lemma {:induction false} WhereDropsAll<T>(xs: seq<T>, p: T -> bool)
    requires forall i :: 0 <= i < |xs| ==> !p(xs[i])
    ensures Where(xs, p) == []
  {
    if xs != [] {
      WhereDropsAll(xs[..|xs| - 1], p);
    }
  }

  /** Counting a predicate and its negation covers every element once. */
  lemma {:induction false} CountIfSplit<T(!new)>(xs: seq<T>, p: T -> bool, q: T -> bool)
    requires forall x :: q(x) == !p(x)
    ensures CountIf(xs, p) + CountIf(xs, q) == |xs|
  {
    if xs != [] {
      CountIfSplit(xs[..|xs| - 1], p, q);
    }
  }

  /** A count by key is the size of that key's group. */
  lemma {:induction false} CountIsGroupSize<T(!new)>(xs: seq<T>, key: T -> string, k: string)
    ensures CountIf(xs, x => key(x) == k) == |Members(xs, key, k)|
  {
    if xs != [] {
      CountIsGroupSize(xs[..|xs| - 1], key, k);
    }
  }

  /** `counts[k]` after counting `xs`: one entry per key, the size of its group. */
  ghost predicate Counted<T(!new)>(counts: map<string, nat>, xs: seq<T>, key: T -> string)
  {
    && (forall k :: k in counts <==> k in KeysOf(xs, key))
    && (forall k :: k in counts ==> counts[k] == |Members(xs, key, k)|)
  }

  lemma MembersSnocSize<T(!new)>(xs: seq<T>, key: T -> string, i: nat, k: string)
    requires i < |xs|
    ensures |Members(xs[..i + 1], key, k)| == |Members(xs[..i], key, k)| + if key(xs[i]) == k then 1 else 0
  {
    GroupSnoc(xs, key, i);
  }

  lemma MembersOfNewKeySize<T(!new)>(xs: seq<T>, key: T -> string, k: string)
    requires k !in KeysOf(xs, key)
    ensures |Members(xs, key, k)| == 0
  {
    MembersOfNewKey(xs, key, k);
  }

  /** One turn of `counts[key(x)] += 1` on a `defaultdict(int)`. */
  method CountStep<T(==,!new)>(counts: map<string, nat>, xs: seq<T>, key: T -> string, i: nat) returns (r: map<string, nat>)
    requires i < |xs| && Counted(counts, xs[..i], key)
    ensures Counted(r, xs[..i + 1], key)
  {
    var k := key(xs[i]);
    KeysOfSnoc(xs, key, i);
    var start := if k in counts then counts[k] else 0;
    if k !in counts {
      MembersOfNewKeySize(xs[..i], key, k);
    }
    r := counts[k := start + 1];
    forall j | j in r ensures r[j] == |Members(xs[..i + 1], key, j)| {
      MembersSnocSize(xs, key, i, j);
    }
  }

  /** The counting loop: how many elements have each key. */
  method CountByKey<T(==,!new)>(xs: seq<T>, key: T -> string) returns (counts: map<string, nat>)
    ensures Counted(counts, xs, key)
  {
    counts := map[];
    for i := 0 to |xs|
      invariant Counted(counts, xs[..i], key)
    {
      counts := CountStep(counts, xs, key, i);
    }
    assert xs[..|xs|] == xs;
  }

  /** `sum(counts[k] for k in ks)`. */
  function SumCounts(counts: map<string, nat>, ks: seq<string>): int
  {
    if ks == [] then 0
    else SumCounts(counts, ks[..|ks| - 1]) + (if ks[|ks| - 1] in counts then counts[ks[|ks| - 1]] else 0)
  }

  lemma {:induction false} OnesAddUp<T>(xs: seq<T>)
    ensures Total(xs, _ => 1) == |xs|
  {
    if xs != [] {
      OnesAddUp(xs[..|xs| - 1]);
    }
  }

  lemma {:induction false} SumCountsByKeys<T(!new)>(counts: map<string, nat>, xs: seq<T>, key: T -> string, ks: seq<string>)
    requires Counted(counts, xs, key) && forall k :: k in ks ==> k in counts
    ensures SumCounts(counts, ks) == TotalByKeys(xs, key, _ => 1, ks)
  {
    if ks != [] {
      var n := |ks| - 1;
      SumCountsByKeys(counts, xs, key, ks[..n]);
      OnesAddUp(Members(xs, key, ks[n]));
    }
  }

  /** The counts add up to the number of elements: each is counted once, under its key. */
  lemma CountsAddUp<T(!new)>(counts: map<string, nat>, xs: seq<T>, key: T -> string)
    requires Counted(counts, xs, key)
    ensures SumCounts(counts, KeysOf(xs, key)) == |xs|
  {
    SumCountsByKeys(counts, xs, key, KeysOf(xs, key));
    GroupTotals(xs, key, _ => 1);
    OnesAddUp(xs);
  }

  // ---------------------------------------------------------------- sums per key

  /** `sum(w(x) for x in xs)`. */
  function Total<T>(xs: seq<T>, w: T -> int): int
  {
    if xs == [] then 0 else Total(xs[..|xs| - 1], w) + w(xs[|xs| - 1])
  }

  /** The sum, over the keys `ks`, of each group's total. */
  function TotalByKeys<T(==,!new)>(xs: seq<T>, key: T -> string, w: T -> int, ks: seq<string>): int
  {
    if ks == [] then 0
    else TotalByKeys(xs, key, w, ks[..|ks| - 1]) + Total(Members(xs, key, ks[|ks| - 1]), w)
  }

  lemma {:induction false} TotalByKeysSnoc<T(!new)>(p: seq<T>, x: T, key: T -> string, w: T -> int, ks: seq<string>)
    requires Unique(ks)
    ensures TotalByKeys(p + [x], key, w, ks) == TotalByKeys(p, key, w, ks) + (if key(x) in ks then w(x) else 0)
  {
    if ks != [] {
      var n := |ks| - 1;
      assert Unique(ks[..n]);
      TotalByKeysSnoc(p, x, key, w, ks[..n]);
      TotalOfSnoc(p, x, key, w, ks[n]);
      assert ks == ks[..n] + [ks[n]];
      assert key(x) in ks <==> key(x) in ks[..n] || key(x) == ks[n];
      assert !(key(x) in ks[..n] && key(x) == ks[n]);
    }
  }

  lemma TotalOfSnoc<T(!new)>(p: seq<T>, x: T, key: T -> string, w: T -> int, k: string)
    ensures Total(Members(p + [x], key, k), w) == Total(Members(p, key, k), w) + if key(x) == k then w(x) else 0
  {
    var xs := p + [x];
    assert xs[..|xs| - 1] == p;
    var m := Members(p, key, k);
    if key(x) == k {
      assert Members(xs, key, k) == m + [x];
      assert (m + [x])[..|m|] == m;
    } else {
      assert Members(xs, key, k) == m;
    }
  }

  /** `totals[k]` after adding up `w` over `xs` by key: one entry per key, the total of its group. */
  ghost predicate Summed<T(!new)>(totals: map<string, int>, xs: seq<T>, key: T -> string, w: T -> int)
  {
    && (forall k :: k in totals <==> k in KeysOf(xs, key))
    && (forall k :: k in totals ==> totals[k] == Total(Members(xs, key, k), w))
  }

  lemma TotalSnoc<T(!new)>(xs: seq<T>, key: T -> string, w: T -> int, i: nat, k: string)
    requires i < |xs|
    ensures Total(Members(xs[..i + 1], key, k), w)
         == Total(Members(xs[..i], key, k), w) + if key(xs[i]) == k then w(xs[i]) else 0
  {
    GroupSnoc(xs, key, i);
    var m := Members(xs[..i], key, k);
    if key(xs[i]) == k {
      assert (m + [xs[i]])[..|m|] == m;
    } else {
      assert m + [] == m;
    }
  }

  lemma TotalOfNewKey<T(!new)>(xs: seq<T>, key: T -> string, w: T -> int, k: string)
    requires k !in KeysOf(xs, key)
    ensures Total(Members(xs, key, k), w) == 0
  {
    MembersOfNewKey(xs, key, k);
  }

  /** One turn of `totals[key(x)] += w(x)` on a `defaultdict(int)`. */
  method SumStep<T(==,!new)>(totals: map<string, int>, xs: seq<T>, key: T -> string, w: T -> int, i: nat)
    returns (r: map<string, int>)
    requires i < |xs| && Summed(totals, xs[..i], key, w)
    ensures Summed(r, xs[..i + 1], key, w)
  {
    var k := key(xs[i]);
    var start := if k in totals then totals[k] else 0;
    r := totals[k := start + w(xs[i])];
    SumStepKeys(totals, xs, key, w, i, r);
    forall j | j in r ensures r[j] == Total(Members(xs[..i + 1], key, j), w) {
      TotalSnoc(xs, key, w, i, j);
      if j == k {
        if k !in totals {
          TotalOfNewKey(xs[..i], key, w, k);
        }
      } else {
        assert r[j] == totals[j];
      }
    }
  }

  lemma SumStepKeys<T(!new)>(totals: map<string, int>, xs: seq<T>, key: T -> string, w: T -> int, i: nat, r: map<string, int>)
    requires i < |xs| && Summed(totals, xs[..i], key, w)
    requires forall j :: j in r <==> j in totals || j == key(xs[i])
    ensures forall j :: j in r <==> j in KeysOf(xs[..i + 1], key)
  {
    KeysOfSnoc(xs, key, i);
  }

  /** `sum(totals[k] for k in ks)`. */
  function SumValues(totals: map<string, int>, ks: seq<string>): int
  {
    if ks == [] then 0
    else SumValues(totals, ks[..|ks| - 1]) + (if ks[|ks| - 1] in totals then totals[ks[|ks| - 1]] else 0)
  }

  lemma {:induction false} SumValuesByKeys<T(!new)>(totals: map<string, int>, xs: seq<T>, key: T -> string, w: T -> int, ks: seq<string>)
    requires Summed(totals, xs, key, w) && forall k :: k in ks ==> k in totals
    ensures SumValues(totals, ks) == TotalByKeys(xs, key, w, ks)
  {
    if ks != [] {
      SumValuesByKeys(totals, xs, key, w, ks[..|ks| - 1]);
    }
  }

  /** The per-key totals add up to the overall total. */
  lemma SumsAddUp<T(!new)>(totals: map<string, int>, xs: seq<T>, key: T -> string, w: T -> int)
    requires Summed(totals, xs, key, w)
    ensures SumValues(totals, KeysOf(xs, key)) == Total(xs, w)
  {
    SumValuesByKeys(totals, xs, key, w, KeysOf(xs, key));
    GroupTotals(xs, key, w);
  }

  /**
   * Grouping loses and duplicates nothing: the per-key totals over the
   * grouping's keys add up to the total over all elements.
   */
  lemma {:induction false} GroupTotals<T(!new)>(xs: seq<T>, key: T -> string, w: T -> int)
    ensures TotalByKeys(xs, key, w, KeysOf(xs, key)) == Total(xs, w)
  {
    if xs != [] {
      var n := |xs| - 1;
      var p, x := xs[..n], xs[n];
      assert xs == p + [x];
      GroupTotals(p, key, w);
      var ks := KeysOf(p, key);
      KeysOfExactly(p, key);
      TotalByKeysSnoc(p, x, key, w, ks);
      if key(x) !in ks {
        MembersOfNewKey(p, key, key(x));
        assert ks + [key(x)] == KeysOf(xs, key);
        assert (ks + [key(x)])[..|ks|] == ks;
        assert Members(xs, key, key(x)) == [x];
        assert Total([x], w) == w(x) by { assert [x][..0] == []; }
      }
    }
  }
}
