/** Relation loaders: a few bounded statements instead of one lookup per parent. */
module Relations {
  import opened Basics

  /** A row of the target scope, in the scope's order: the value of the physical
      relation column, and the model scanned from the row. */
  datatype TargetRow<K, T> = TargetRow(column: Option<K>, item: T)

  // ---- what a parent should get --------------------------------------------------

  /** The per-parent lookup: WHERE column = k, in scope order. */
  function Matching<K(==), T>(rows: seq<TargetRow<K, T>>, k: K): seq<T> {
    if rows == [] then []
    else (if rows[0].column == Some(k) then [rows[0].item] else []) + Matching(rows[1..], k)
  }

  /** One statement: WHERE column IN (keys), in scope order. */
  function Query<K(==), T>(rows: seq<TargetRow<K, T>>, keys: seq<K>): seq<T> {
    if rows == [] then []
    else (if rows[0].column.Some? && rows[0].column.value in keys then [rows[0].item] else []) + Query(rows[1..], keys)
  }

  /** The items that carry key k. */
  function WithKey<K(==), T>(items: seq<T>, key: T -> Option<K>, k: K): seq<T> {
    if items == [] then []
    else (if key(items[0]) == Some(k) then [items[0]] else []) + WithKey(items[1..], key, k)
  }

  predicate AllKeyed<K, T>(items: seq<T>, key: T -> Option<K>) {
    forall i :: 0 <= i < |items| ==> key(items[i]).Some?
  }

  /** The key callback normalizes the physical column: it gives its key, or none. */
  predicate Agrees<K(==), T>(rows: seq<TargetRow<K, T>>, key: T -> Option<K>) {
    forall i :: 0 <= i < |rows| && rows[i].column.Some? ==>
      key(rows[i].item).None? || key(rows[i].item) == rows[i].column
  }

  predicate Distinct<K(==)>(keys: seq<K>) {
    forall i, j :: 0 <= i < j < |keys| ==> keys[i] != keys[j]
  }

  function Concat<K>(parts: seq<seq<K>>): seq<K> {
    if parts == [] then [] else parts[0] + Concat(parts[1..])
  }

  /** Everything the statements return, one after the other. */
  function Fetched<K(==), T>(rows: seq<TargetRow<K, T>>, batches: seq<seq<K>>): seq<T> {
    if batches == [] then [] else Query(rows, batches[0]) + Fetched(rows, batches[1..])
  }

  // ---- keys and batches ---------------------------------------------------------------

  /** Some parent asks for key k. */
  ghost predicate Wants<P, K>(parents: seq<P>, key: P -> Option<K>, k: K) {
    exists i :: 0 <= i < |parents| && key(parents[i]) == Some(k)
  }

  lemma WantsMore<P, K>(parents: seq<P>, p: P, key: P -> Option<K>, k: K)
    ensures Wants(parents + [p], key, k) <==> Wants(parents, key, k) || key(p) == Some(k)
  {
    var more := parents + [p];
    assert more[|parents|] == p && forall i :: 0 <= i < |parents| ==> more[i] == parents[i];
  }

  /** Some parent asks for `a` before any asks for `b`. */
  ghost predicate Sooner<P, K>(parents: seq<P>, key: P -> Option<K>, a: K, b: K) {
    exists i :: 0 <= i < |parents| && SoonerAt(parents, key, a, b, i)
  }

  predicate SoonerAt<P, K(==)>(parents: seq<P>, key: P -> Option<K>, a: K, b: K, i: nat)
    requires i < |parents|
  {
    key(parents[i]) == Some(a) && forall j :: 0 <= j <= i ==> key(parents[j]) != Some(b)
  }

  lemma SoonerStays<P, K>(parents: seq<P>, p: P, key: P -> Option<K>, a: K, b: K)
    requires Sooner(parents, key, a, b)
    ensures Sooner(parents + [p], key, a, b)
  {
    var i :| 0 <= i < |parents| && SoonerAt(parents, key, a, b, i);
    assert forall j :: 0 <= j <= i ==> (parents + [p])[j] == parents[j];
    assert SoonerAt(parents + [p], key, a, b, i);
  }

  lemma KeysStaySooner<P, K>(parents: seq<P>, p: P, key: P -> Option<K>, keys: seq<K>)
    requires forall a, b :: 0 <= a < b < |keys| ==> Sooner(parents, key, keys[a], keys[b])
    ensures forall a, b :: 0 <= a < b < |keys| ==> Sooner(parents + [p], key, keys[a], keys[b])
  {
    forall a, b | 0 <= a < b < |keys|
      ensures Sooner(parents + [p], key, keys[a], keys[b])
    {
      SoonerStays(parents, p, key, keys[a], keys[b]);
    }
  }

  lemma SoonerThanNew<P, K>(parents: seq<P>, key: P -> Option<K>, a: K, b: K)
    requires Wants(parents, key, a) && !Wants(parents, key, b)
    ensures Sooner(parents, key, a, b)
  {
    var i :| 0 <= i < |parents| && key(parents[i]) == Some(a);
    assert SoonerAt(parents, key, a, b, i);
  }

  method UniqueKeys<P, K(==)>(parents: seq<P>, key: P -> Option<K>) returns (keys: seq<K>)
    ensures Distinct(keys)
    ensures forall k :: k in keys <==> Wants(parents, key, k)
    ensures forall i, j :: 0 <= i < j < |keys| ==> Sooner(parents, key, keys[i], keys[j])
  {
    keys := [];
    var seen: set<K> := {};
    for i := 0 to |parents|
      invariant Distinct(keys)
      invariant forall k :: k in seen <==> k in keys
      invariant forall k :: k in keys <==> Wants(parents[..i], key, k)
      invariant forall a, b :: 0 <= a < b < |keys| ==> Sooner(parents[..i], key, keys[a], keys[b])
    {
      var value := key(parents[i]);
      assert parents[..i + 1] == parents[..i] + [parents[i]];
      forall k ensures Wants(parents[..i + 1], key, k) <==> Wants(parents[..i], key, k) || key(parents[i]) == Some(k) {
        WantsMore(parents[..i], parents[i], key, k);
      }
      KeysStaySooner(parents[..i], parents[i], key, keys);
      if value.None? || value.value in seen {
        continue;
      }
      assert !Wants(parents[..i], key, value.value);
      forall a | 0 <= a < |keys|
        ensures Sooner(parents[..i + 1], key, keys[a], value.value)
      {
        SoonerThanNew(parents[..i], key, keys[a], value.value);
        SoonerStays(parents[..i], parents[i], key, keys[a], value.value);
      }
      seen := seen + {value.value};
      keys := keys + [value.value];
    }
    assert parents[..|parents|] == parents;
  }

  lemma {:induction false} ConcatAppend<K>(parts: seq<seq<K>>, last: seq<K>)
    ensures Concat(parts + [last]) == Concat(parts) + last
  {
    if parts == [] {
      assert [last][1..] == [] && Concat([last]) == last + Concat([]);
    } else {
      ConcatAppend(parts[1..], last);
      assert (parts + [last])[1..] == parts[1..] + [last];
    }
  }

  /** Splits the keys so that each statement, with the `base` arguments of the scope,
      stays within the limit; None is the scope that leaves no room. */
  method Batches<K>(keys: seq<K>, base: nat, limit: nat) returns (batches: Option<seq<seq<K>>>)
    ensures batches.Some? <==> keys == [] || base < limit
    ensures batches.Some? ==> Concat(batches.value) == keys
    ensures batches.Some? ==> forall b :: 0 <= b < |batches.value| ==>
                                batches.value[b] != [] && base + |batches.value[b]| <= limit
    ensures batches.Some? ==> forall b :: 0 <= b < |batches.value| - 1 ==> base + |batches.value[b]| == limit
  {
    if keys == [] {
      return Some([]);
    }
    var batchSize := limit - base;
    if batchSize < 1 {
      return None;
    }
    var parts: seq<seq<K>> := [];
    var start := 0;
    while start < |keys|
      invariant 0 <= start <= |keys|
      invariant Concat(parts) == keys[..start]
      invariant forall b :: 0 <= b < |parts| ==> parts[b] != [] && base + |parts[b]| <= limit
      invariant forall b :: 0 <= b < |parts| && (b < |parts| - 1 || start < |keys|) ==> base + |parts[b]| == limit
    {
      var end := if start + batchSize < |keys| then start + batchSize else |keys|;
      ConcatAppend(parts, keys[start..end]);
      assert keys[..end] == keys[..start] + keys[start..end];
      parts := parts + [keys[start..end]];
      start := end;
    }
    assert keys[..|keys|] == keys;
    batches := Some(parts);
  }

  // ---- why batching loses nothing --------------------------------------------------------

  lemma {:induction false} WithKeyConcat<K, T>(a: seq<T>, b: seq<T>, key: T -> Option<K>, k: K)
    ensures WithKey(a + b, key, k) == WithKey(a, key, k) + WithKey(b, key, k)
    decreases |a|
  {
    if a == [] {
      assert a + b == b;
    } else {
      WithKeyConcat(a[1..], b, key, k);
      assert (a + b)[0] == a[0] && (a + b)[1..] == a[1..] + b;
      var head := if key(a[0]) == Some(k) then [a[0]] else [];
      assert head + (WithKey(a[1..], key, k) + WithKey(b, key, k)) == head + WithKey(a[1..], key, k) + WithKey(b, key, k);
    }
  }

  /** Within one statement's rows, key k finds exactly the per-parent lookup. */
  lemma {:induction false} QueryKeepsLookup<K, T>(rows: seq<TargetRow<K, T>>, batch: seq<K>, key: T -> Option<K>, k: K)
    requires Agrees(rows, key) && AllKeyed(Query(rows, batch), key)
    ensures WithKey(Query(rows, batch), key, k) == if k in batch then Matching(rows, k) else []
    decreases |rows|
  {
    if rows != [] {
      var rest := rows[1..];
      var head := if rows[0].column.Some? && rows[0].column.value in batch then [rows[0].item] else [];
      assert Query(rows, batch) == head + Query(rest, batch);
      assert forall i :: 0 <= i < |Query(rest, batch)| ==> Query(rest, batch)[i] == Query(rows, batch)[|head| + i];
      assert head != [] ==> Query(rows, batch)[0] == rows[0].item;
      QueryKeepsLookup(rest, batch, key, k);
      WithKeyConcat(head, Query(rest, batch), key, k);
      if head != [] {
        assert key(rows[0].item) == rows[0].column;
        assert WithKey(head, key, k) == (if key(rows[0].item) == Some(k) then [rows[0].item] else []) + WithKey(head[1..], key, k);
      }
    }
  }

  lemma FetchedHead<K, T>(rows: seq<TargetRow<K, T>>, batches: seq<seq<K>>, key: T -> Option<K>)
    requires batches != [] && AllKeyed(Fetched(rows, batches), key)
    ensures AllKeyed(Query(rows, batches[0]), key) && AllKeyed(Fetched(rows, batches[1..]), key)
  {
    var q, f := Query(rows, batches[0]), Fetched(rows, batches[1..]);
    assert forall i :: 0 <= i < |q| ==> q[i] == (q + f)[i];
    assert forall i :: 0 <= i < |f| ==> f[i] == (q + f)[|q| + i];
  }

  lemma DistinctSplit<K>(a: seq<K>, b: seq<K>)
    requires Distinct(a + b)
    ensures Distinct(b) && forall x :: x in a ==> x !in b
  {
    assert forall i :: 0 <= i < |a| ==> (a + b)[i] == a[i];
    assert forall i :: 0 <= i < |b| ==> (a + b)[|a| + i] == b[i];
    forall i, j | 0 <= i < |a| && 0 <= j < |b| ensures a[i] != b[j] {
      assert (a + b)[i] == a[i] && (a + b)[|a| + j] == b[j];
    }
  }

  /** Every requested key stands in one batch only, so all its rows come together,
      in scope order, whatever the batches are. */
  lemma {:induction false} FetchedKeepsLookup<K, T>(rows: seq<TargetRow<K, T>>, batches: seq<seq<K>>, key: T -> Option<K>, k: K)
    requires Agrees(rows, key) && Distinct(Concat(batches)) && AllKeyed(Fetched(rows, batches), key)
    ensures WithKey(Fetched(rows, batches), key, k) == if k in Concat(batches) then Matching(rows, k) else []
    decreases |batches|
  {
    if batches != [] {
      var head, tail := batches[0], Concat(batches[1..]);
      FetchedHead(rows, batches, key);
      DistinctSplit(head, tail);
      QueryKeepsLookup(rows, head, key, k);
      FetchedKeepsLookup(rows, batches[1..], key, k);
      WithKeyConcat(Query(rows, head), Fetched(rows, batches[1..]), key, k);
    }
  }

  /** Which rows come back does not depend on the batches either. */
  lemma {:induction false} QueryMembers<K, T>(rows: seq<TargetRow<K, T>>, keys: seq<K>, x: T)
    ensures x in Query(rows, keys) <==>
              exists i :: 0 <= i < |rows| && rows[i].item == x && rows[i].column.Some? && rows[i].column.value in keys
    decreases |rows|
  {
    if rows != [] {
      var rest := rows[1..];
      QueryMembers(rest, keys, x);
      if i :| 0 <= i < |rows| && rows[i].item == x && rows[i].column.Some? && rows[i].column.value in keys {
        if i > 0 {
          assert rest[i - 1] == rows[i];
        }
      }
      if i :| 0 <= i < |rest| && rest[i].item == x && rest[i].column.Some? && rest[i].column.value in keys {
        assert rows[i + 1] == rest[i];
      }
    }
  }

  lemma {:induction false} FetchedMembers<K, T>(rows: seq<TargetRow<K, T>>, batches: seq<seq<K>>, x: T)
    ensures x in Fetched(rows, batches) <==>
              exists i :: 0 <= i < |rows| && rows[i].item == x && rows[i].column.Some? && rows[i].column.value in Concat(batches)
    decreases |batches|
  {
    if batches != [] {
      QueryMembers(rows, batches[0], x);
      FetchedMembers(rows, batches[1..], x);
    }
  }

  /** A row the request reaches has no key to file it under. */
  predicate KeyMissing<K(==), T>(rows: seq<TargetRow<K, T>>, keys: seq<K>, key: T -> Option<K>) {
    exists i :: 0 <= i < |rows| && rows[i].column.Some? && rows[i].column.value in keys && key(rows[i].item).None?
  }

  lemma KeyedIff<K, T>(rows: seq<TargetRow<K, T>>, batches: seq<seq<K>>, key: T -> Option<K>)
    ensures AllKeyed(Fetched(rows, batches), key) <==> !KeyMissing(rows, Concat(batches), key)
  {
    var fetched := Fetched(rows, batches);
    forall i | 0 <= i < |fetched| && key(fetched[i]).None? ensures KeyMissing(rows, Concat(batches), key) {
      FetchedMembers(rows, batches, fetched[i]);
    }
    forall i | 0 <= i < |rows| && rows[i].column.Some? && rows[i].column.value in Concat(batches) && key(rows[i].item).None?
      ensures !AllKeyed(fetched, key)
    {
      FetchedMembers(rows, batches, rows[i].item);
    }
  }

  // ---- to-many ------------------------------------------------------------------------------

  function Group<K(==), T>(byKey: map<K, seq<T>>, k: K): seq<T> {
    if k in byKey then byKey[k] else []
  }

  lemma WithKeyOne<K, T>(done: seq<T>, x: T, key: T -> Option<K>, k: K)
    ensures WithKey(done + [x], key, k) == WithKey(done, key, k) + (if key(x) == Some(k) then [x] else [])
  {
    WithKeyConcat(done, [x], key, k);
    assert WithKey([x], key, k) == (if key(x) == Some(k) then [x] else []) + WithKey([x][1..], key, k);
  }

  ghost predicate Filed<K(!new), T>(groups: map<K, seq<T>>, done: seq<T>, key: T -> Option<K>) {
    forall k :: Group(groups, k) == WithKey(done, key, k)
  }

  lemma FiledOne<K(!new), T>(groups: map<K, seq<T>>, done: seq<T>, key: T -> Option<K>, x: T, v: K)
    requires Filed(groups, done, key) && key(x) == Some(v)
    ensures Filed(groups[v := Group(groups, v) + [x]], done + [x], key)
  {
    var more := groups[v := Group(groups, v) + [x]];
    forall k ensures Group(more, k) == WithKey(done + [x], key, k) {
      WithKeyOne(done, x, key, k);
      assert Group(groups, k) == WithKey(done, key, k);
    }
  }

  /** The inner loop: files the rows of one statement. */
  method FileMany<K(!new, ==), T>(items: seq<T>, key: T -> Option<K>, byKey: map<K, seq<T>>, ghost done: seq<T>)
    returns (filed: Option<map<K, seq<T>>>)
    requires Filed(byKey, done, key)
    ensures filed.Some? <==> AllKeyed(items, key)
    ensures filed.Some? ==> Filed(filed.value, done + items, key)
  {
    var groups := byKey;
    assert done + items[..0] == done;
    for i := 0 to |items|
      invariant AllKeyed(items[..i], key)
      invariant Filed(groups, done + items[..i], key)
    {
      var value := key(items[i]);
      if value.None? {
        return None;
      }
      FiledOne(groups, done + items[..i], key, items[i], value.value);
      assert done + items[..i + 1] == done + items[..i] + [items[i]];
      groups := groups[value.value := Group(groups, value.value) + [items[i]]];
    }
    assert items[..|items|] == items;
    filed := Some(groups);
  }

  /** The loop over the statements meets the next one. */
  lemma FetchNext<K, T>(rows: seq<TargetRow<K, T>>, batches: seq<seq<K>>, b: nat, done: seq<T>)
    requires b < |batches|
    ensures done + Fetched(rows, batches[b..]) == done + Query(rows, batches[b]) + Fetched(rows, batches[b + 1..])
  {
    var rest := batches[b..];
    assert rest[0] == batches[b] && rest[1..] == batches[b + 1..];
    assert done + (Query(rows, batches[b]) + Fetched(rows, batches[b + 1..]))
        == done + Query(rows, batches[b]) + Fetched(rows, batches[b + 1..]);
  }

  lemma UnkeyedPart<K, T>(a: seq<T>, b: seq<T>, c: seq<T>, key: T -> Option<K>)
    requires !AllKeyed(b, key)
    ensures !AllKeyed(a + b + c, key)
  {
    var i :| 0 <= i < |b| && key(b[i]).None?;
    assert (a + b + c)[|a| + i] == b[i];
  }

  method CollectMany<K(!new, ==), T>(rows: seq<TargetRow<K, T>>, batches: seq<seq<K>>, key: T -> Option<K>)
    returns (filed: Option<map<K, seq<T>>>)
    ensures filed.Some? <==> AllKeyed(Fetched(rows, batches), key)
    ensures filed.Some? ==> Filed(filed.value, Fetched(rows, batches), key)
  {
    var groups: map<K, seq<T>> := map[];
    ghost var done: seq<T> := [];
    assert batches[0..] == batches;
    for b := 0 to |batches|
      invariant done + Fetched(rows, batches[b..]) == Fetched(rows, batches)
      invariant AllKeyed(done, key)
      invariant Filed(groups, done, key)
    {
      var items := Query(rows, batches[b]);
      FetchNext(rows, batches, b, done);
      var more := FileMany(items, key, groups, done);
      if more.None? {
        UnkeyedPart(done, items, Fetched(rows, batches[b + 1..]), key);
        return None;
      }
      groups := more.value;
      done := done + items;
    }
    assert batches[|batches|..] == [] && done + [] == done;
    filed := Some(groups);
  }

  /** What the per-parent lookup would assign. */
  function Lookup<P, K(==), T>(parent: P, parentKey: P -> Option<K>, rows: seq<TargetRow<K, T>>): seq<T> {
    match parentKey(parent) case None => [] case Some(k) => Matching(rows, k)
  }

  /** HasMany: every parent gets exactly its per-parent lookup; the batches, and so
      the parameter limit, leave no trace in the result. */
  method LoadHasMany<P, K(!new, ==), T>(parents: seq<P>, parentKey: P -> Option<K>, rows: seq<TargetRow<K, T>>, targetKey: T -> Option<K>,
                                        base: nat, limit: nat, assign: (P, seq<T>) -> P)
    returns (loaded: Option<seq<P>>, ghost keys: seq<K>)
    requires Agrees(rows, targetKey)
    ensures forall k :: k in keys <==> Wants(parents, parentKey, k)
    ensures loaded.Some? <==> (keys == [] || base < limit) && !KeyMissing(rows, keys, targetKey)
    ensures loaded.Some? ==> |loaded.value| == |parents|
    ensures loaded.Some? ==> forall i :: 0 <= i < |parents| ==>
                               loaded.value[i] == assign(parents[i], Lookup(parents[i], parentKey, rows))
  {
    var wanted := UniqueKeys(parents, parentKey);
    keys := wanted;
    var batches := Batches(wanted, base, limit);
    if batches.None? {
      return None, keys;
    }
    KeyedIff(rows, batches.value, targetKey);
    var byKey := CollectMany(rows, batches.value, targetKey);
    if byKey.None? {
      return None, keys;
    }
    var result: seq<P> := [];
    for i := 0 to |parents|
      invariant |result| == i
      invariant forall j :: 0 <= j < i ==> result[j] == assign(parents[j], Lookup(parents[j], parentKey, rows))
    {
      var key := parentKey(parents[i]);
      if key.None? {
        result := result + [assign(parents[i], [])];
        continue;
      }
      assert Wants(parents, parentKey, key.value);
      FetchedKeepsLookup(rows, batches.value, targetKey, key.value);
      result := result + [assign(parents[i], Group(byKey.value, key.value))];
    }
    loaded := Some(result);
  }

  // ---- to-one -------------------------------------------------------------------------------

  function Single<K(==), T>(byKey: map<K, T>, k: K): seq<T> {
    if k in byKey then [byKey[k]] else []
  }

  ghost predicate FiledSingly<K(!new), T>(byKey: map<K, T>, done: seq<T>, key: T -> Option<K>) {
    forall k :: Single(byKey, k) == WithKey(done, key, k)
  }

  /** Some key is carried by two of the items. */
  ghost predicate Clashes<K(!new), T>(items: seq<T>, key: T -> Option<K>) {
    exists k :: |WithKey(items, key, k)| > 1
  }

  lemma ClashStays<K(!new), T>(a: seq<T>, b: seq<T>, key: T -> Option<K>)
    requires Clashes(a, key)
    ensures Clashes(a + b, key)
  {
    var k :| |WithKey(a, key, k)| > 1;
    WithKeyConcat(a, b, key, k);
    assert |WithKey(a + b, key, k)| > 1;
  }

  lemma SinglyOne<K(!new), T>(byKey: map<K, T>, done: seq<T>, key: T -> Option<K>, x: T, v: K)
    requires FiledSingly(byKey, done, key) && key(x) == Some(v)
    ensures v in byKey ==> Clashes(done + [x], key)
    ensures v !in byKey ==> FiledSingly(byKey[v := x], done + [x], key)
  {
    assert Single(byKey, v) == WithKey(done, key, v);
    WithKeyOne(done, x, key, v);
    if v in byKey {
      assert |WithKey(done + [x], key, v)| > 1;
    } else {
      forall k ensures Single(byKey[v := x], k) == WithKey(done + [x], key, k) {
        assert Single(byKey, k) == WithKey(done, key, k);
        WithKeyOne(done, x, key, k);
      }
    }
  }

  lemma SinglyNeverClashes<K(!new), T>(byKey: map<K, T>, done: seq<T>, key: T -> Option<K>)
    requires FiledSingly(byKey, done, key)
    ensures !Clashes(done, key)
  {
    forall k ensures |WithKey(done, key, k)| <= 1 {
      assert Single(byKey, k) == WithKey(done, key, k);
    }
  }

  /** The inner loop: files the rows of one statement, refusing a key twice. */
  method FileSingly<K(!new, ==), T>(items: seq<T>, key: T -> Option<K>, byKey: map<K, T>, ghost done: seq<T>)
    returns (filed: Option<map<K, T>>)
    requires FiledSingly(byKey, done, key)
    ensures filed.Some? ==> AllKeyed(items, key) && FiledSingly(filed.value, done + items, key)
    ensures filed.None? ==> !AllKeyed(items, key) || Clashes(done + items, key)
  {
    var single := byKey;
    assert done + items[..0] == done;
    for i := 0 to |items|
      invariant AllKeyed(items[..i], key)
      invariant FiledSingly(single, done + items[..i], key)
    {
      var value := key(items[i]);
      if value.None? {
        return None;
      }
      SinglyOne(single, done + items[..i], key, items[i], value.value);
      assert done + items[..i + 1] == done + items[..i] + [items[i]];
      if value.value in single {
        ClashStays(done + items[..i + 1], items[i + 1..], key);
        assert done + items[..i + 1] + items[i + 1..] == done + items;
        return None;
      }
      single := single[value.value := items[i]];
    }
    assert items[..|items|] == items;
    filed := Some(single);
  }

  method CollectSingly<K(!new, ==), T>(rows: seq<TargetRow<K, T>>, batches: seq<seq<K>>, key: T -> Option<K>)
    returns (filed: Option<map<K, T>>)
    ensures filed.Some? <==> AllKeyed(Fetched(rows, batches), key) && !Clashes(Fetched(rows, batches), key)
    ensures filed.Some? ==> FiledSingly(filed.value, Fetched(rows, batches), key)
  {
    var single: map<K, T> := map[];
    ghost var done: seq<T> := [];
    assert batches[0..] == batches;
    for b := 0 to |batches|
      invariant done + Fetched(rows, batches[b..]) == Fetched(rows, batches)
      invariant AllKeyed(done, key)
      invariant FiledSingly(single, done, key)
    {
      var items := Query(rows, batches[b]);
      FetchNext(rows, batches, b, done);
      var more := FileSingly(items, key, single, done);
      if more.None? {
        if !AllKeyed(items, key) {
          UnkeyedPart(done, items, Fetched(rows, batches[b + 1..]), key);
        } else {
          ClashStays(done + items, Fetched(rows, batches[b + 1..]), key);
        }
        return None;
      }
      single := more.value;
      done := done + items;
    }
    assert batches[|batches|..] == [] && done + [] == done;
    SinglyNeverClashes(single, done, key);
    filed := Some(single);
  }

  function First<T>(items: seq<T>): Option<T> {
    if items == [] then None else Some(items[0])
  }

  /** Two targets match one of the keys asked for. */
  ghost predicate Ambiguous<K, T>(rows: seq<TargetRow<K, T>>, keys: seq<K>) {
    exists k :: k in keys && |Matching(rows, k)| > 1
  }

  lemma ClashesIff<K(!new), T>(rows: seq<TargetRow<K, T>>, batches: seq<seq<K>>, key: T -> Option<K>)
    requires Agrees(rows, key) && Distinct(Concat(batches)) && AllKeyed(Fetched(rows, batches), key)
    ensures Clashes(Fetched(rows, batches), key) <==> Ambiguous(rows, Concat(batches))
  {
    if Clashes(Fetched(rows, batches), key) {
      var k :| |WithKey(Fetched(rows, batches), key, k)| > 1;
      FetchedKeepsLookup(rows, batches, key, k);
    }
    if Ambiguous(rows, Concat(batches)) {
      var k :| k in Concat(batches) && |Matching(rows, k)| > 1;
      FetchedKeepsLookup(rows, batches, key, k);
      assert |WithKey(Fetched(rows, batches), key, k)| > 1;
    }
  }

  /** BelongsTo and HasOne: every parent gets the one row of its lookup or none; the
      load fails exactly when the scope leaves no room for a key, a row reached has
      no key, or two rows match one key. */
  method LoadOne<P, K(!new, ==), T>(parents: seq<P>, parentKey: P -> Option<K>, rows: seq<TargetRow<K, T>>, targetKey: T -> Option<K>,
                                    base: nat, limit: nat, assign: (P, Option<T>) -> P)
    returns (loaded: Option<seq<P>>, ghost keys: seq<K>)
    requires Agrees(rows, targetKey)
    ensures forall k :: k in keys <==> Wants(parents, parentKey, k)
    ensures loaded.Some? <==> (keys == [] || base < limit) && !KeyMissing(rows, keys, targetKey) && !Ambiguous(rows, keys)
    ensures loaded.Some? ==> |loaded.value| == |parents|
    ensures loaded.Some? ==> forall i :: 0 <= i < |parents| ==>
                               loaded.value[i] == assign(parents[i], First(Lookup(parents[i], parentKey, rows)))
  {
    var wanted := UniqueKeys(parents, parentKey);
    keys := wanted;
    var batches := Batches(wanted, base, limit);
    if batches.None? {
      return None, keys;
    }
    KeyedIff(rows, batches.value, targetKey);
    if AllKeyed(Fetched(rows, batches.value), targetKey) {
      ClashesIff(rows, batches.value, targetKey);
    }
    var byKey := CollectSingly(rows, batches.value, targetKey);
    if byKey.None? {
      return None, keys;
    }
    var result := AssignOne(parents, parentKey, byKey.value, assign);
    forall i | 0 <= i < |parents|
      ensures Picked(byKey.value, parentKey(parents[i])) == First(Lookup(parents[i], parentKey, rows))
    {
      var key := parentKey(parents[i]);
      if key.Some? {
        assert Wants(parents, parentKey, key.value);
        FetchedKeepsLookup(rows, batches.value, targetKey, key.value);
        assert Single(byKey.value, key.value) == Matching(rows, key.value);
      }
    }
    loaded := Some(result);
  }

  function Picked<K(==), T>(byKey: map<K, T>, key: Option<K>): Option<T> {
    if key.Some? && key.value in byKey then Some(byKey[key.value]) else None
  }

  /** The loop that assigns each parent what was filed under its key. */
  method AssignOne<P, K(==), T>(parents: seq<P>, parentKey: P -> Option<K>, byKey: map<K, T>, assign: (P, Option<T>) -> P)
    returns (result: seq<P>)
    ensures |result| == |parents|
    ensures forall i :: 0 <= i < |parents| ==> result[i] == assign(parents[i], Picked(byKey, parentKey(parents[i])))
  {
    result := [];
    for i := 0 to |parents|
      invariant |result| == i
      invariant forall j :: 0 <= j < i ==> result[j] == assign(parents[j], Picked(byKey, parentKey(parents[j])))
    {
      var key := parentKey(parents[i]);
      if key.None? || key.value !in byKey {
        result := result + [assign(parents[i], None)];
        continue;
      }
      result := result + [assign(parents[i], Some(byKey[key.value]))];
    }
  }

  // ---- many-to-many ----------------------------------------------------------------------------

  /** A row of the join, in scope order: the parent key of the join table, and the target. */
  datatype JoinRow<K, T> = JoinRow(parent: K, target: T)

  function Joined<K, T>(rows: seq<JoinRow<K, T>>): seq<TargetRow<K, JoinRow<K, T>>> {
    seq(|rows|, i requires 0 <= i < |rows| => TargetRow(Some(rows[i].parent), rows[i]))
  }

  function ParentOf<K, T>(row: JoinRow<K, T>): Option<K> { Some(row.parent) }

  function Keys<K, T, TK(==)>(items: seq<JoinRow<K, T>>, targetKey: T -> Option<TK>): set<Option<TK>> {
    set i | 0 <= i < |items| :: targetKey(items[i].target)
  }

  /** The targets in order, each target key once, at its first place. */
  function Targets<K, T, TK(==)>(items: seq<JoinRow<K, T>>, targetKey: T -> Option<TK>): seq<T> {
    if items == [] then []
    else
      var front, last := items[..|items| - 1], items[|items| - 1].target;
      Targets(front, targetKey) + (if targetKey(last) in Keys(front, targetKey) then [] else [last])
  }

  ghost predicate Linked<K(!new), T, TK>(byParent: map<K, seq<T>>, seen: map<K, set<Option<TK>>>, done: seq<JoinRow<K, T>>,
                                        targetKey: T -> Option<TK>) {
    forall k :: Group(byParent, k) == Targets(WithKey(done, ParentOf, k), targetKey)
             && Known(seen, k) == Keys(WithKey(done, ParentOf, k), targetKey)
  }

  lemma KeysOne<K, T, TK>(items: seq<JoinRow<K, T>>, x: JoinRow<K, T>, targetKey: T -> Option<TK>)
    ensures Keys(items + [x], targetKey) == Keys(items, targetKey) + {targetKey(x.target)}
  {
    var more := items + [x];
    assert more[|items|] == x && forall i :: 0 <= i < |items| ==> more[i] == items[i];
    forall t | t in Keys(items, targetKey) + {targetKey(x.target)} ensures t in Keys(more, targetKey) {
      if t in Keys(items, targetKey) {
        var i :| 0 <= i < |items| && targetKey(items[i].target) == t;
        assert targetKey(more[i].target) == t;
      } else {
        assert targetKey(more[|items|].target) == t;
      }
    }
  }

  function Known<K(==), TK(==)>(seen: map<K, set<Option<TK>>>, k: K): set<Option<TK>> {
    if k in seen then seen[k] else {}
  }

  function LinkTarget<K(==), T, TK(==)>(byParent: map<K, seq<T>>, seen: map<K, set<Option<TK>>>, targetKey: T -> Option<TK>,
                                       x: JoinRow<K, T>): map<K, seq<T>> {
    if targetKey(x.target) in Known(seen, x.parent) then byParent
    else byParent[x.parent := Group(byParent, x.parent) + [x.target]]
  }

  function LinkSeen<K(==), T, TK(==)>(seen: map<K, set<Option<TK>>>, targetKey: T -> Option<TK>, x: JoinRow<K, T>): map<K, set<Option<TK>>> {
    seen[x.parent := Known(seen, x.parent) + {targetKey(x.target)}]
  }

  lemma TargetsOne<K, T, TK>(items: seq<JoinRow<K, T>>, x: JoinRow<K, T>, targetKey: T -> Option<TK>)
    ensures Targets(items + [x], targetKey)
         == Targets(items, targetKey) + (if targetKey(x.target) in Keys(items, targetKey) then [] else [x.target])
  {
    var more := items + [x];
    assert more[..|more| - 1] == items && more[|more| - 1] == x;
  }

  ghost predicate HasKey<T, TK>(targets: seq<T>, targetKey: T -> Option<TK>, t: Option<TK>) {
    exists i :: 0 <= i < |targets| && targetKey(targets[i]) == t
  }

  ghost predicate DistinctKeys<T, TK>(targets: seq<T>, targetKey: T -> Option<TK>) {
    forall i, j :: 0 <= i < j < |targets| ==> targetKey(targets[i]) != targetKey(targets[j])
  }

  lemma HasKeyOne<T, TK>(targets: seq<T>, x: T, targetKey: T -> Option<TK>, t: Option<TK>)
    ensures HasKey(targets + [x], targetKey, t) <==> HasKey(targets, targetKey, t) || targetKey(x) == t
  {
    var more := targets + [x];
    if i :| 0 <= i < |targets| && targetKey(targets[i]) == t {
      assert more[i] == targets[i];
    }
    assert more[|targets|] == x;
  }

  /** The targets of a list of join rows: every target key among them, and each once. */
  lemma {:induction false} TargetsOnce<K, T, TK(!new)>(items: seq<JoinRow<K, T>>, targetKey: T -> Option<TK>)
    ensures forall t :: t in Keys(items, targetKey) <==> HasKey(Targets(items, targetKey), targetKey, t)
    ensures DistinctKeys(Targets(items, targetKey), targetKey)
    decreases |items|
  {
    if items != [] {
      var front, x := items[..|items| - 1], items[|items| - 1];
      assert items == front + [x];
      TargetsOnce(front, targetKey);
      KeysOne(front, x, targetKey);
      TargetsOne(front, x, targetKey);
      var before := Targets(front, targetKey);
      if targetKey(x.target) in Keys(front, targetKey) {
        assert before + [] == before;
      } else {
        forall t
          ensures t in Keys(items, targetKey) <==> HasKey(before + [x.target], targetKey, t)
        {
          HasKeyOne(before, x.target, targetKey, t);
        }
        assert !HasKey(before, targetKey, targetKey(x.target));
      }
    }
  }

  /** The lists of the row's own parent after the row is filed. */
  lemma LinkedHere<K(!new), T, TK>(byParent: map<K, seq<T>>, seen: map<K, set<Option<TK>>>, items: seq<JoinRow<K, T>>,
                                  targetKey: T -> Option<TK>, x: JoinRow<K, T>)
    requires Group(byParent, x.parent) == Targets(items, targetKey)
    requires Known(seen, x.parent) == Keys(items, targetKey)
    ensures Group(LinkTarget(byParent, seen, targetKey, x), x.parent) == Targets(items + [x], targetKey)
    ensures Known(LinkSeen(seen, targetKey, x), x.parent) == Keys(items + [x], targetKey)
  {
    TargetsOne(items, x, targetKey);
    KeysOne(items, x, targetKey);
  }

  lemma LinkedAt<K(!new), T, TK>(byParent: map<K, seq<T>>, seen: map<K, set<Option<TK>>>, done: seq<JoinRow<K, T>>,
                                targetKey: T -> Option<TK>, x: JoinRow<K, T>, k: K)
    requires Group(byParent, k) == Targets(WithKey(done, ParentOf, k), targetKey)
    requires Known(seen, k) == Keys(WithKey(done, ParentOf, k), targetKey)
    ensures Group(LinkTarget(byParent, seen, targetKey, x), k) == Targets(WithKey(done + [x], ParentOf, k), targetKey)
    ensures Known(LinkSeen(seen, targetKey, x), k) == Keys(WithKey(done + [x], ParentOf, k), targetKey)
  {
    var items := WithKey(done, ParentOf, k);
    WithKeyOne(done, x, ParentOf, k);
    if k == x.parent {
      LinkedHere(byParent, seen, items, targetKey, x);
    } else {
      assert items + [] == items;
    }
  }

  lemma LinkedOne<K(!new), T, TK>(byParent: map<K, seq<T>>, seen: map<K, set<Option<TK>>>, done: seq<JoinRow<K, T>>,
                                 targetKey: T -> Option<TK>, x: JoinRow<K, T>)
    requires Linked(byParent, seen, done, targetKey)
    ensures Linked(LinkTarget(byParent, seen, targetKey, x), LinkSeen(seen, targetKey, x), done + [x], targetKey)
  {
    forall k
      ensures Group(LinkTarget(byParent, seen, targetKey, x), k) == Targets(WithKey(done + [x], ParentOf, k), targetKey)
              && Known(LinkSeen(seen, targetKey, x), k) == Keys(WithKey(done + [x], ParentOf, k), targetKey)
    {
      LinkedAt(byParent, seen, done, targetKey, x, k);
    }
  }

  predicate TargetsKeyed<K, T, TK>(items: seq<JoinRow<K, T>>, targetKey: T -> Option<TK>) {
    forall i :: 0 <= i < |items| ==> targetKey(items[i].target).Some?
  }

  /** The inner loop: files the rows of one statement, a target once per parent. */
  method FileLinks<K(!new, ==), T, TK(==)>(items: seq<JoinRow<K, T>>, targetKey: T -> Option<TK>, byParent0: map<K, seq<T>>,
                                          seen0: map<K, set<Option<TK>>>, ghost done: seq<JoinRow<K, T>>)
    returns (ok: bool, byParent: map<K, seq<T>>, seen: map<K, set<Option<TK>>>)
    requires Linked(byParent0, seen0, done, targetKey)
    ensures ok <==> TargetsKeyed(items, targetKey)
    ensures ok ==> Linked(byParent, seen, done + items, targetKey)
  {
    byParent, seen := byParent0, seen0;
    assert done + items[..0] == done;
    for i := 0 to |items|
      invariant TargetsKeyed(items[..i], targetKey)
      invariant Linked(byParent, seen, done + items[..i], targetKey)
    {
      var x := items[i];
      var t := targetKey(x.target);
      if t.None? {
        return false, byParent, seen;
      }
      LinkedOne(byParent, seen, done + items[..i], targetKey, x);
      assert done + items[..i + 1] == done + items[..i] + [x];
      byParent, seen := LinkTarget(byParent, seen, targetKey, x), LinkSeen(seen, targetKey, x);
    }
    assert items[..|items|] == items;
    ok := true;
  }

  method CollectLinks<K(!new, ==), T, TK(==)>(rows: seq<JoinRow<K, T>>, batches: seq<seq<K>>, targetKey: T -> Option<TK>)
    returns (ok: bool, byParent: map<K, seq<T>>)
    ensures ok <==> TargetsKeyed(Fetched(Joined(rows), batches), targetKey)
    ensures ok ==> forall k :: Group(byParent, k) == Targets(WithKey(Fetched(Joined(rows), batches), ParentOf, k), targetKey)
  {
    byParent := map[];
    var seen: map<K, set<Option<TK>>> := map[];
    ghost var done: seq<JoinRow<K, T>> := [];
    var joined := Joined(rows);
    assert batches[0..] == batches;
    for b := 0 to |batches|
      invariant done + Fetched(joined, batches[b..]) == Fetched(joined, batches)
      invariant TargetsKeyed(done, targetKey)
      invariant Linked(byParent, seen, done, targetKey)
    {
      var items := Query(joined, batches[b]);
      FetchNext(joined, batches, b, done);
      ok, byParent, seen := FileLinks(items, targetKey, byParent, seen, done);
      if !ok {
        UnkeyedTarget(done, items, Fetched(joined, batches[b + 1..]), targetKey);
        return;
      }
      done := done + items;
    }
    assert batches[|batches|..] == [] && done + [] == done;
    ok := true;
  }

  lemma UnkeyedTarget<K, T, TK>(a: seq<JoinRow<K, T>>, b: seq<JoinRow<K, T>>, c: seq<JoinRow<K, T>>, targetKey: T -> Option<TK>)
    requires !TargetsKeyed(b, targetKey)
    ensures !TargetsKeyed(a + b + c, targetKey)
  {
    var i :| 0 <= i < |b| && targetKey(b[i].target).None?;
    assert (a + b + c)[|a| + i] == b[i];
  }

  lemma JoinedAgrees<K, T>(rows: seq<JoinRow<K, T>>, batches: seq<seq<K>>)
    ensures Agrees(Joined(rows), ParentOf) && AllKeyed(Fetched(Joined(rows), batches), ParentOf)
  {
  }

  /** Every parent gets the targets its own join would give, in scope order, each once. */
  method LoadManyToMany<P, K(!new, ==), T, TK(==)>(parents: seq<P>, parentKey: P -> Option<K>, rows: seq<JoinRow<K, T>>,
                                                   targetKey: T -> Option<TK>, base: nat, limit: nat, assign: (P, seq<T>) -> P)
    returns (loaded: Option<seq<P>>, ghost keys: seq<K>)
    ensures forall k :: k in keys <==> Wants(parents, parentKey, k)
    ensures loaded.Some? <==> (keys == [] || base < limit)
                              && forall i :: 0 <= i < |rows| && rows[i].parent in keys ==> targetKey(rows[i].target).Some?
    ensures loaded.Some? ==> |loaded.value| == |parents|
    ensures loaded.Some? ==> forall i :: 0 <= i < |parents| ==>
                               loaded.value[i] == assign(parents[i], Targets(Lookup(parents[i], parentKey, Joined(rows)), targetKey))
  {
    var wanted := UniqueKeys(parents, parentKey);
    keys := wanted;
    var batches := Batches(wanted, base, limit);
    if batches.None? {
      return None, keys;
    }
    JoinedAgrees(rows, batches.value);
    LinksKeyedIff(rows, batches.value, targetKey);
    var ok, byParent := CollectLinks(rows, batches.value, targetKey);
    if !ok {
      return None, keys;
    }
    var result: seq<P> := [];
    for i := 0 to |parents|
      invariant |result| == i
      invariant forall j :: 0 <= j < i ==>
                  result[j] == assign(parents[j], Targets(Lookup(parents[j], parentKey, Joined(rows)), targetKey))
    {
      var key := parentKey(parents[i]);
      if key.None? {
        result := result + [assign(parents[i], [])];
        continue;
      }
      assert Wants(parents, parentKey, key.value);
      FetchedKeepsLookup(Joined(rows), batches.value, ParentOf, key.value);
      result := result + [assign(parents[i], Group(byParent, key.value))];
    }
    loaded := Some(result);
  }

  lemma LinksKeyedIff<K, T, TK>(rows: seq<JoinRow<K, T>>, batches: seq<seq<K>>, targetKey: T -> Option<TK>)
    ensures TargetsKeyed(Fetched(Joined(rows), batches), targetKey) <==>
            forall i :: 0 <= i < |rows| && rows[i].parent in Concat(batches) ==> targetKey(rows[i].target).Some?
  {
    var fetched := Fetched(Joined(rows), batches);
    forall j | 0 <= j < |fetched|
      ensures exists i :: 0 <= i < |rows| && rows[i] == fetched[j] && rows[i].parent in Concat(batches)
    {
      FetchedMembers(Joined(rows), batches, fetched[j]);
      var i :| 0 <= i < |rows| && Joined(rows)[i].item == fetched[j] && Joined(rows)[i].column.value in Concat(batches);
      assert rows[i] == fetched[j];
    }
    forall i | 0 <= i < |rows| && rows[i].parent in Concat(batches)
      ensures rows[i] in Fetched(Joined(rows), batches)
    {
      FetchedMembers(Joined(rows), batches, rows[i]);
      assert Joined(rows)[i].item == rows[i];
    }
  }
}
