/**
 The hash-indexed, insertion-ordered store behind Map and Set.
 */
module OrderedCollection {
  import opened Options
  import opened SameValueZero
  import opened AssociationList

  type Buckets = map<nat, seq<nat>>

  predicate Listed(indexes: Buckets, bucket: nat, i: nat) {
    bucket in indexes && i in indexes[bucket]
  }

  ghost predicate NoDuplicates(list: seq<nat>) {
    forall m, n :: 0 <= m < n < |list| ==> list[m] != list[n]
  }

  predicate HashesTo(hash: Value -> nat, slots: Slots, i: nat, bucket: nat) {
    i < |slots| && slots[i].Some? && hash(Canonical(slots[i].value.key)) == bucket
  }

  /** Each live position is in its own bucket exactly once, no tombstone is in any, and no bucket is empty. */
  ghost predicate Indexed(hash: Value -> nat, slots: Slots, indexes: Buckets) {
    && (forall bucket, i :: Listed(indexes, bucket, i) <==> HashesTo(hash, slots, i, bucket))
    && (forall bucket <- indexes :: indexes[bucket] != [] && NoDuplicates(indexes[bucket]))
  }

  /** A key can only be held at a position of its own bucket. */
  lemma {:induction false} HoldsInBucket(hash: Value -> nat, slots: Slots, indexes: Buckets, i: nat, key: Value)
    requires Indexed(hash, slots, indexes) && Holds(slots, i, key)
    ensures Listed(indexes, hash(Canonical(key)), i)
  {
    SameIffCanonical(slots[i].value.key, key);
    assert HashesTo(hash, slots, i, hash(Canonical(key)));
  }

  /** Removal that moves the last element into the gap. */
  function SwapRemoved(list: seq<nat>, at: nat): seq<nat>
    requires at < |list|
  {
    if at == |list| - 1 then list[..at] else list[at := list[|list| - 1]][..|list| - 1]
  }

  lemma {:induction false} SwapRemovedElements(list: seq<nat>, at: nat)
    requires at < |list| && NoDuplicates(list)
    ensures NoDuplicates(SwapRemoved(list, at))
    ensures forall x :: x in SwapRemoved(list, at) <==> x in list && x != list[at]
  {
    var r := SwapRemoved(list, at);
    forall x | x in list && x != list[at] ensures x in r {
      var n :| 0 <= n < |list| && list[n] == x;
      assert if n == |list| - 1 then r[at] == x else r[n] == x;
    }
    forall x | x in r ensures x in list && x != list[at] {
      var n :| 0 <= n < |r| && r[n] == x;
      assert x == if n == at then list[|list| - 1] else list[n];
    }
  }

  lemma {:induction false} IndexedAppend(hash: Value -> nat, slots: Slots, indexes: Buckets, e: Entry)
    requires Indexed(hash, slots, indexes)
    ensures var bucket := hash(Canonical(e.key));
            var list := if bucket in indexes then indexes[bucket] else [];
            Indexed(hash, slots + [Some(e)], indexes[bucket := list + [|slots|]])
  {
    var bucket := hash(Canonical(e.key));
    var list := if bucket in indexes then indexes[bucket] else [];
    var indexes' := indexes[bucket := list + [|slots|]];
    var slots' := slots + [Some(e)];
    forall n | 0 <= n < |list| ensures list[n] < |slots| {
      assert Listed(indexes, bucket, list[n]);
    }
    forall b, i ensures Listed(indexes', b, i) <==> HashesTo(hash, slots', i, b) {
      assert Listed(indexes, b, i) <==> HashesTo(hash, slots, i, b);
    }
  }

  lemma {:induction false} IndexedReplace(hash: Value -> nat, slots: Slots, indexes: Buckets, i: nat, e: Entry)
    requires Indexed(hash, slots, indexes) && Holds(slots, i, e.key)
    ensures Indexed(hash, slots[i := Some(e)], indexes)
  {
    SameIffCanonical(slots[i].value.key, e.key);
    var slots' := slots[i := Some(e)];
    forall b, j ensures Listed(indexes, b, j) <==> HashesTo(hash, slots', j, b) {
      assert HashesTo(hash, slots', j, b) <==> HashesTo(hash, slots, j, b);
    }
  }

  lemma {:induction false} IndexedRemove(hash: Value -> nat, slots: Slots, indexes: Buckets, i: nat, bucket: nat, at: nat)
    requires Indexed(hash, slots, indexes) && HashesTo(hash, slots, i, bucket)
    requires bucket in indexes && at < |indexes[bucket]| && indexes[bucket][at] == i
    ensures var rest := SwapRemoved(indexes[bucket], at);
            Indexed(hash, slots[i := None], if rest == [] then indexes - {bucket} else indexes[bucket := rest])
  {
    var rest := SwapRemoved(indexes[bucket], at);
    SwapRemovedElements(indexes[bucket], at);
    var indexes' := if rest == [] then indexes - {bucket} else indexes[bucket := rest];
    var slots' := slots[i := None];
    forall b, j ensures Listed(indexes', b, j) <==> HashesTo(hash, slots', j, b) {
      assert Listed(indexes, b, j) <==> HashesTo(hash, slots, j, b);
      if b == bucket {
        assert Listed(indexes', b, j) <==> j in rest;
      }
    }
  }

  lemma {:induction false} DistinctAfter(slots: Slots, key: Value, value: Value, i: nat)
    requires Distinct(slots) && Holds(slots, i, key)
    ensures Distinct(slots[i := Some(Entry(key, value))])
    ensures Distinct(slots[i := None])
  {
    var slots' := slots[i := Some(Entry(key, value))];
    forall m, n | 0 <= m < n < |slots'| && slots'[m].Some? && slots'[n].Some?
      ensures !Same(slots'[m].value.key, slots'[n].value.key)
    {
      SameIsEquivalence(slots[m].value.key, slots[n].value.key, key);
      SameIsEquivalence(slots[i].value.key, key, slots'[m].value.key);
      SameIsEquivalence(slots[i].value.key, key, slots'[n].value.key);
      SameIsEquivalence(slots'[m].value.key, key, slots[i].value.key);
    }
  }

  lemma {:induction false} DistinctAppend(slots: Slots, e: Entry)
    requires Distinct(slots) && forall i :: 0 <= i < |slots| ==> !Holds(slots, i, e.key)
    ensures Distinct(slots + [Some(e)])
  {
    var slots' := slots + [Some(e)];
    forall m, n | 0 <= m < n < |slots'| && slots'[m].Some? && slots'[n].Some?
      ensures !Same(slots'[m].value.key, slots'[n].value.key)
    {
      assert !Holds(slots, m, e.key);
    }
  }

  lemma {:induction false} TombstonesLive(slots: Slots)
    requires forall i :: 0 <= i < |slots| ==> slots[i].None?
    ensures Live(slots) == []
  {
    if slots != [] {
      TombstonesLive(slots[1..]);
    }
  }

  class Collection {
    const hash: Value -> nat
    var entries: Slots
    var indexes: Buckets
    var len: nat

    ghost predicate Valid()
      reads this
    {
      && Distinct(entries)
      && Indexed(hash, entries, indexes)
      && len == |Live(entries)|
    }

    /** What iteration from a position still visits; from the start, the whole list. */
    ghost function From(p: nat): seq<Entry>
      requires p <= |entries|
      reads this
    {
      Live(entries[p..])
    }

    constructor (hash: Value -> nat)
      ensures Valid() && this.hash == hash && entries == []
    {
      this.hash := hash;
      entries := [];
      indexes := map[];
      len := 0;
    }

    /** The index finds exactly what a scan of the whole list would find. */
    method FindIndex(key: Value) returns (r: Option<nat>)
      requires Valid()
      ensures r.Some? ==> Holds(entries, r.value, key)
      ensures r.None? ==> forall i :: 0 <= i < |entries| ==> !Holds(entries, i, key)
    {
      hide Same, Live, Distinct;
      var bucket := hash(Canonical(key));
      if bucket in indexes {
        var list := indexes[bucket];
        for n := 0 to |list|
          invariant forall m :: 0 <= m < n ==> !Holds(entries, list[m], key)
        {
          assert Listed(indexes, bucket, list[n]);
          if entries[list[n]].Some? && Same(entries[list[n]].value.key, key) {
            return Some(list[n]);
          }
        }
      }
      forall i | 0 <= i < |entries| ensures !Holds(entries, i, key) {
        if Holds(entries, i, key) {
          HoldsInBucket(hash, entries, indexes, i, key);
        }
      }
      r := None;
    }

    method Get(key: Value) returns (r: Option<Value>)
      requires Valid()
      ensures var e := Lookup(From(0), key); r == if e.Some? then Some(e.value.value) else None
    {
      hide Same, Live, Distinct, Indexed, Lookup;
      var index := FindIndex(key);
      assert entries[0..] == entries;
      if index.Some? {
        ActsAt(entries, index.value, 0, key, key);
        r := Some(entries[index.value].value.value);
      } else {
        ActsNowhere(entries, 0, key, key);
        r := None;
      }
    }

    method Has(key: Value) returns (r: bool)
      requires Valid()
      ensures r == Lookup(From(0), key).Some?
    {
      hide Same, Live, Distinct, Indexed, Lookup;
      var index := FindIndex(key);
      if index.Some? {
        ActsAt(entries, index.value, 0, key, key);
      } else {
        ActsNowhere(entries, 0, key, key);
      }
      r := index.Some?;
    }

    /** Replaces in place or appends, as seen from every position; returns the entry that was there. */
    method Set(key: Value, value: Value) returns (previous: Option<Entry>)
      requires Valid()
      modifies this
      ensures Valid()
      ensures previous == Lookup(old(From(0)), key)
      ensures From(0) == Put(old(From(0)), key, value) && Unique(From(0))
      ensures |entries| == |old(entries)| + if previous.Some? then 0 else 1
      ensures forall i :: 0 <= i < |old(entries)| ==> Kept(old(entries)[i], entries[i], key)
      ensures previous.None? ==> forall p :: 0 <= p <= |old(entries)| ==> From(p) == old(From(p)) + [Entry(key, value)]
    {
      hide Same, Live, Lookup, Put, Distinct, Indexed, Unique;
      var index := FindIndex(key);
      assert entries[0..] == entries;
      if index.Some? {
        var i := index.value;
        ActsAt(entries, i, 0, key, value);
        DistinctAfter(entries, key, value, i);
        IndexedReplace(hash, entries, indexes, i, Entry(key, value));
        ReplaceCounts(entries, i, Entry(key, value));
        previous := entries[i];
        entries := entries[i := Some(Entry(key, value))];
        assert entries[0..] == entries;
        DistinctIsUnique(entries);
        return;
      }
      ghost var before := entries;
      var bucket := hash(Canonical(key));
      ActsNowhere(entries, 0, key, value);
      DistinctAppend(entries, Entry(key, value));
      IndexedAppend(hash, entries, indexes, Entry(key, value));
      indexes := indexes[bucket := (if bucket in indexes then indexes[bucket] else []) + [|entries|]];
      entries := entries + [Some(Entry(key, value))];
      len := len + 1;
      assert entries[0..] == entries;
      forall p | 0 <= p <= |before| ensures From(p) == Live(before[p..]) + [Entry(key, value)] {
        AppendedFrom(before, p, Entry(key, value));
      }
      AppendedFrom(before, 0, Entry(key, value));
      DistinctIsUnique(entries);
      previous := None;
    }

    /** Leaves a tombstone: later positions do not move, and nothing else is lost from any position. */
    method Delete(key: Value) returns (previous: Option<Entry>)
      requires Valid()
      modifies this
      ensures Valid()
      ensures previous == Lookup(old(From(0)), key)
      ensures |entries| == |old(entries)| && Unique(From(0))
      ensures forall i :: 0 <= i < |entries| ==> entries[i] == if Holds(old(entries), i, key) then None else old(entries)[i]
      ensures forall p :: 0 <= p <= |entries| ==> From(p) == Remove(old(From(p)), key)
    {
      hide Same, Live, Lookup, Remove, Distinct, Indexed, Unique;
      ghost var before := entries;
      assert before[0..] == before;
      var index := FindIndex(key);
      if index.None? {
        forall p | 0 <= p <= |entries| ensures From(p) == Remove(From(p), key) {
          ActsNowhere(before, p, key, key);
        }
        ActsNowhere(before, 0, key, key);
        DistinctIsUnique(before);
        return None;
      }
      var i := index.value;
      var bucket := hash(Canonical(key));
      HoldsInBucket(hash, entries, indexes, i, key);
      var list := indexes[bucket];
      var position := 0;
      while list[position] != i
        invariant 0 <= position < |list|
        invariant i in list[position..]
        decreases |list| - position
      {
        position := position + 1;
      }
      InBucket(hash, entries, indexes, bucket, i);
      IndexedRemove(hash, entries, indexes, i, bucket, position);
      var rest := SwapRemoved(list, position);
      indexes := if rest == [] then indexes - {bucket} else indexes[bucket := rest];
      ActsAt(before, i, 0, key, key);
      DistinctAfter(before, key, key, i);
      RemoveCounts(before, i);
      len := len - 1;
      previous := entries[i];
      entries := entries[i := None];
      assert entries[0..] == entries;
      forall p | 0 <= p <= |entries| ensures From(p) == Remove(Live(before[p..]), key) {
        RemovedFrom(before, p, i, key);
      }
      DistinctIsUnique(entries);
      forall j | 0 <= j < |entries| ensures entries[j] == if Holds(before, j, key) then None else before[j] {
        if Holds(before, j, key) {
          HoldsOnce(before, i, j, key);
        }
      }
    }

    /** Empties every slot; positions stay valid and nothing is left to visit. */
    method Clear()
      requires Valid()
      modifies this
      ensures Valid()
      ensures |entries| == |old(entries)| && len == 0 && indexes == map[]
      ensures forall p :: 0 <= p <= |entries| ==> From(p) == []
    {
      hide Same, Live, Indexed;
      var i := 0;
      while i < |entries|
        invariant 0 <= i <= |entries| == |old(entries)|
        invariant forall j :: 0 <= j < i ==> entries[j] == None
      {
        entries := entries[i := None];
        i := i + 1;
      }
      indexes := map[];
      len := 0;
      forall p | 0 <= p <= |entries| ensures From(p) == [] {
        TombstonesLive(entries[p..]);
      }
      TombstonesLive(entries);
      ClearedIsIndexed(hash, entries);
    }
  }

  /** A position in a collection; it lets go of the collection once it has seen the end. */
  class CollectionIterator {
    var collection: Collection?
    var index: nat

    ghost predicate Valid()
      reads this, collection
    {
      collection != null ==> collection.Valid() && index <= |collection.entries|
    }

    constructor (collection: Collection)
      requires collection.Valid()
      ensures this.collection == collection && index == 0 && Valid()
    {
      this.collection := collection;
      index := 0;
    }

    /**
     Yields exactly the first entry still ahead and moves behind it. With none
     ahead it is exhausted, and stays so whatever the collection gains later.
     */
    method Next() returns (step: Option<Entry>)
      requires Valid()
      modifies this
      ensures Valid()
      ensures old(collection) == null ==> step == None && collection == null
      ensures old(collection) != null ==>
                var list := old(collection).From(old(index));
                if list == [] then step == None && collection == null
                else collection == old(collection) && step == Some(list[0]) && collection.From(index) == list[1..]
    {
      if collection == null {
        return None;
      }
      var entries := collection.entries;
      var position := index;
      while position < |entries| && entries[position].None?
        invariant index <= position <= |entries|
        invariant Live(entries[index..]) == Live(entries[position..])
      {
        assert entries[position..][1..] == entries[position + 1..];
        position := position + 1;
      }
      if position == |entries| {
        index := position;
        collection := null;
        return None;
      }
      assert entries[position..][1..] == entries[position + 1..];
      step := entries[position];
      index := position + 1;
    }
  }

  /** A slot after a set: only the slot of the key itself may change, and it keeps that key. */
  predicate Kept(before: Option<Entry>, after: Option<Entry>, key: Value) {
    after == before || (before.Some? && after.Some? && Same(before.value.key, key) && after.value.key == key)
  }

  lemma {:induction false} InBucket(hash: Value -> nat, slots: Slots, indexes: Buckets, bucket: nat, i: nat)
    requires Indexed(hash, slots, indexes) && Listed(indexes, bucket, i)
    ensures HashesTo(hash, slots, i, bucket)
  {
  }

  lemma {:induction false} ClearedIsIndexed(hash: Value -> nat, slots: Slots)
    requires forall i :: 0 <= i < |slots| ==> slots[i].None?
    ensures Indexed(hash, slots, map[])
  {
  }

  lemma {:induction false} ReplaceCounts(slots: Slots, i: nat, e: Entry)
    requires i < |slots| && slots[i].Some?
    ensures |Live(slots[i := Some(e)])| == |Live(slots)|
  {
    LiveAround(slots, i);
    LiveAround(slots[i := Some(e)], i);
    assert slots[i := Some(e)][..i] == slots[..i] && slots[i := Some(e)][i + 1..] == slots[i + 1..];
  }

  lemma {:induction false} RemoveCounts(slots: Slots, i: nat)
    requires i < |slots| && slots[i].Some?
    ensures |Live(slots[i := None])| == |Live(slots)| - 1
  {
    Around(slots, i, 0, None);
    LiveAround(slots, i);
    assert slots[i := None][0..] == slots[i := None];
  }

  lemma {:induction false} AppendedFrom(slots: Slots, p: nat, e: Entry)
    requires p <= |slots|
    ensures Live((slots + [Some(e)])[p..]) == Live(slots[p..]) + [e]
  {
    assert (slots + [Some(e)])[p..] == slots[p..] + [Some(e)];
    LiveConcat(slots[p..], [Some(e)]);
  }

  lemma {:induction false} RemovedFrom(slots: Slots, p: nat, i: nat, key: Value)
    requires Distinct(slots) && Holds(slots, i, key) && p <= |slots|
    ensures Live(slots[i := None][p..]) == Remove(Live(slots[p..]), key)
  {
    hide Same, Live, Remove, Lookup, Put;
    if p <= i {
      ActsAt(slots, i, p, key, key);
    } else {
      assert slots[i := None][p..] == slots[p..];
      forall j | 0 <= j < |slots[p..]| ensures !Holds(slots[p..], j, key) {
        if Holds(slots[p..], j, key) {
          assert Holds(slots, p + j, key);
          HoldsOnce(slots, i, p + j, key);
        }
      }
      NoneHoldLacks(slots[p..], key);
      WithoutMatch(Live(slots[p..]), key, key);
    }
  }
}
