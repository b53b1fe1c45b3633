/**
 The reference for Map and Set: an insertion-ordered association list, and the
 slots with tombstones that hold one.
 */
module AssociationList {
  import opened Options
  import opened SameValueZero

  datatype Entry = Entry(key: Value, value: Value)

  type Slots = seq<Option<Entry>>

  /** The entries of the slots, in order. */
  function Live(slots: Slots): seq<Entry> {
    if slots == [] then [] else (if slots[0].Some? then [slots[0].value] else []) + Live(slots[1..])
  }

  predicate Holds(slots: Slots, i: nat, key: Value) {
    i < |slots| && slots[i].Some? && Same(slots[i].value.key, key)
  }

  /** No two live slots hold the same key. */
  ghost predicate Distinct(slots: Slots) {
    forall i, j :: 0 <= i < j < |slots| && slots[i].Some? && slots[j].Some? ==> !Same(slots[i].value.key, slots[j].value.key)
  }

  predicate Lacks(list: seq<Entry>, key: Value) {
    forall e <- list :: !Same(e.key, key)
  }

  function Lookup(list: seq<Entry>, key: Value): Option<Entry> {
    if list == [] then None
    else if Same(list[0].key, key) then Some(list[0])
    else Lookup(list[1..], key)
  }

  /** Replaces the entry of the key where it stands, or appends. */
  function Put(list: seq<Entry>, key: Value, value: Value): seq<Entry> {
    if list == [] then [Entry(key, value)]
    else if Same(list[0].key, key) then [Entry(key, value)] + list[1..]
    else [list[0]] + Put(list[1..], key, value)
  }

  function Remove(list: seq<Entry>, key: Value): seq<Entry> {
    if list == [] then []
    else if Same(list[0].key, key) then list[1..]
    else [list[0]] + Remove(list[1..], key)
  }

  // ---------------------------------------------------------------------
  // The list operations around the entry they act on

  lemma {:induction false} AroundMatch(before: seq<Entry>, e: Entry, after: seq<Entry>, key: Value, value: Value)
    requires Lacks(before, key) && Same(e.key, key)
    ensures Lookup(before + [e] + after, key) == Some(e)
    ensures Put(before + [e] + after, key, value) == before + [Entry(key, value)] + after
    ensures Remove(before + [e] + after, key) == before + after
  {
    hide Same;
    var list := before + [e] + after;
    if before == [] {
      assert list[0] == e && list[1..] == after;
      assert before + [Entry(key, value)] + after == [Entry(key, value)] + after;
      assert before + after == after;
    } else {
      AroundMatch(before[1..], e, after, key, value);
      assert list[0] == before[0] && list[1..] == before[1..] + [e] + after;
      assert !Same(before[0].key, key);
      assert [before[0]] + (before[1..] + [Entry(key, value)] + after) == before + [Entry(key, value)] + after;
      assert [before[0]] + (before[1..] + after) == before + after;
    }
  }

  lemma {:induction false} WithoutMatch(list: seq<Entry>, key: Value, value: Value)
    requires Lacks(list, key)
    ensures Lookup(list, key) == None
    ensures Put(list, key, value) == list + [Entry(key, value)]
    ensures Remove(list, key) == list
  {
    if list != [] {
      assert !Same(list[0].key, key);
      WithoutMatch(list[1..], key, value);
      assert [list[0]] + list[1..] == list;
    }
  }

  /** Keys of a well-formed list are pairwise different. */
  ghost predicate Unique(list: seq<Entry>) {
    forall i, j :: 0 <= i < j < |list| ==> !Same(list[i].key, list[j].key)
  }

  /** Putting a key changes what is found under that key, and under no other. */
  lemma {:induction false} PutLaw(list: seq<Entry>, key: Value, value: Value, other: Value)
    ensures Lookup(Put(list, key, value), other) ==
            if Same(key, other) then Some(Entry(key, value)) else Lookup(list, other)
  {
    if list != [] {
      SameIsEquivalence(list[0].key, key, other);
      SameIsEquivalence(key, list[0].key, other);
      if !Same(list[0].key, key) {
        PutLaw(list[1..], key, value, other);
        SameIsEquivalence(list[0].key, other, key);
        SameIsEquivalence(key, other, other);
      }
    }
  }

  lemma {:induction false} LacksNothing(list: seq<Entry>, key: Value)
    requires Lacks(list, key)
    ensures Lookup(list, key) == None
  {
    if list != [] {
      assert !Same(list[0].key, key);
      LacksNothing(list[1..], key);
    }
  }

  /** Removing a key leaves nothing under it, and every other key as it was. */
  lemma {:induction false} RemoveLaw(list: seq<Entry>, key: Value, other: Value)
    requires Unique(list)
    ensures Lookup(Remove(list, key), other) == if Same(key, other) then None else Lookup(list, other)
  {
    if Same(key, other) {
      RemoveLacks(list, key);
      LacksSame(Remove(list, key), key, other);
      LacksNothing(Remove(list, key), other);
    } else if list != [] {
      SameIsEquivalence(key, list[0].key, other);
      SameIsEquivalence(list[0].key, key, other);
      RemoveLaw(list[1..], key, other);
    }
  }

  lemma {:induction false} LacksSame(list: seq<Entry>, key: Value, other: Value)
    requires Lacks(list, key) && Same(key, other)
    ensures Lacks(list, other)
  {
    forall e <- list ensures !Same(e.key, other) {
      SameIsEquivalence(e.key, other, key);
      SameIsEquivalence(other, key, key);
      SameIsEquivalence(key, other, other);
    }
  }

  lemma {:induction false} RemoveLacks(list: seq<Entry>, key: Value)
    requires Unique(list)
    ensures Lacks(Remove(list, key), key)
  {
    if list != [] {
      if Same(list[0].key, key) {
        forall e <- list[1..] ensures !Same(e.key, key) {
          var i :| 0 <= i < |list[1..]| && list[1..][i] == e;
          assert list[i + 1] == e;
          SameIsEquivalence(e.key, key, list[0].key);
          SameIsEquivalence(key, list[0].key, e.key);
          SameIsEquivalence(list[0].key, key, e.key);
          SameIsEquivalence(e.key, key, e.key);
        }
      } else {
        RemoveLacks(list[1..], key);
      }
    }
  }

  /** A key that was removed and is put again goes to the end. */
  lemma {:induction false} PutAgainGoesLast(list: seq<Entry>, key: Value, value: Value)
    requires Unique(list)
    ensures Put(Remove(list, key), key, value) == Remove(list, key) + [Entry(key, value)]
  {
    RemoveLacks(list, key);
    WithoutMatch(Remove(list, key), key, value);
  }

  // ---------------------------------------------------------------------
  // Slots and their list

  lemma {:induction false} LiveConcat(a: Slots, b: Slots)
    ensures Live(a + b) == Live(a) + Live(b)
  {
    if a == [] {
      assert a + b == b;
    } else {
      LiveConcat(a[1..], b);
      assert (a + b)[0] == a[0] && (a + b)[1..] == a[1..] + b;
    }
  }

  lemma {:induction false} LiveAround(slots: Slots, i: nat)
    requires i < |slots| && slots[i].Some?
    ensures Live(slots) == Live(slots[..i]) + [slots[i].value] + Live(slots[i + 1..])
  {
    assert slots == slots[..i] + ([slots[i]] + slots[i + 1..]);
    LiveConcat(slots[..i], [slots[i]] + slots[i + 1..]);
    assert ([slots[i]] + slots[i + 1..])[1..] == slots[i + 1..];
  }

  lemma {:induction false} LiveFrom(slots: Slots, e: Entry)
    requires e in Live(slots)
    ensures exists i :: 0 <= i < |slots| && slots[i] == Some(e)
  {
    if slots[0] == Some(e) {
    } else {
      LiveFrom(slots[1..], e);
      var i :| 0 <= i < |slots[1..]| && slots[1..][i] == Some(e);
      assert slots[i + 1] == Some(e);
    }
  }

  /** Distinct slots hold a list whose keys are pairwise different. */
  lemma {:induction false} DistinctIsUnique(slots: Slots)
    requires Distinct(slots)
    ensures Unique(Live(slots))
  {
    hide Same;
    if slots != [] {
      var rest := slots[1..];
      DistinctIsUnique(rest);
      if slots[0].Some? {
        forall e <- Live(rest) ensures !Same(slots[0].value.key, e.key) {
          LiveFrom(rest, e);
          var i :| 0 <= i < |rest| && rest[i] == Some(e);
          assert slots[i + 1] == Some(e);
        }
        var list := Live(slots);
        assert list == [slots[0].value] + Live(rest);
        forall i, j | 0 <= i < j < |list| ensures !Same(list[i].key, list[j].key) {
          assert list[j] == Live(rest)[j - 1] && list[j] in Live(rest);
          assert i > 0 ==> list[i] == Live(rest)[i - 1];
        }
      } else {
        assert Live(slots) == Live(rest);
      }
    }
  }

  lemma {:induction false} NoneHoldLacks(slots: Slots, key: Value)
    requires forall i :: 0 <= i < |slots| ==> !Holds(slots, i, key)
    ensures Lacks(Live(slots), key)
  {
    forall e <- Live(slots) ensures !Same(e.key, key) {
      LiveFrom(slots, e);
      var i :| 0 <= i < |slots| && slots[i] == Some(e);
      assert !Holds(slots, i, key);
    }
  }

  /** Of distinct slots at most one holds a key. */
  lemma {:induction false} HoldsOnce(slots: Slots, i: nat, j: nat, key: Value)
    requires Distinct(slots) && Holds(slots, i, key) && Holds(slots, j, key)
    ensures i == j
  {
    SameIsEquivalence(slots[i].value.key, key, slots[j].value.key);
    SameIsEquivalence(slots[j].value.key, key, slots[i].value.key);
    SameIsEquivalence(slots[i].value.key, slots[j].value.key, key);
  }

  /** The slot that holds a key is where the list operations act, from any position at or before it. */
  lemma {:induction false} ActsAt(slots: Slots, i: nat, p: nat, key: Value, value: Value)
    requires Distinct(slots) && Holds(slots, i, key) && p <= i
    ensures Lookup(Live(slots[p..]), key) == slots[i]
    ensures Live(slots[i := Some(Entry(key, value))][p..]) == Put(Live(slots[p..]), key, value)
    ensures Live(slots[i := None][p..]) == Remove(Live(slots[p..]), key)
  {
    hide Same, Live, Lookup, Put, Remove;
    var before, after := slots[p..i], slots[i + 1..];
    forall j | 0 <= j < |before| ensures !Holds(before, j, key) {
      if Holds(before, j, key) {
        assert Holds(slots, p + j, key);
        HoldsOnce(slots, p + j, i, key);
      }
    }
    NoneHoldLacks(before, key);
    AroundMatch(Live(before), slots[i].value, Live(after), key, value);
    Around(slots, i, p, slots[i]);
    Around(slots, i, p, Some(Entry(key, value)));
    Around(slots, i, p, None);
    assert slots[i := slots[i]] == slots;
  }

  lemma {:induction false} Around(slots: Slots, i: nat, p: nat, slot: Option<Entry>)
    requires p <= i < |slots|
    ensures Live(slots[i := slot][p..]) == Live(slots[p..i]) + (if slot.Some? then [slot.value] else []) + Live(slots[i + 1..])
  {
    var rest := [slot] + slots[i + 1..];
    assert slots[i := slot][p..] == slots[p..i] + rest;
    LiveConcat(slots[p..i], rest);
    assert rest[1..] == slots[i + 1..];
  }

  lemma {:induction false} ActsNowhere(slots: Slots, p: nat, key: Value, value: Value)
    requires p <= |slots| && forall i :: 0 <= i < |slots| ==> !Holds(slots, i, key)
    ensures Lookup(Live(slots[p..]), key) == None
    ensures Live((slots + [Some(Entry(key, value))])[p..]) == Put(Live(slots[p..]), key, value)
    ensures Remove(Live(slots[p..]), key) == Live(slots[p..])
  {
    forall i | 0 <= i < |slots[p..]| ensures !Holds(slots[p..], i, key) {
      assert !Holds(slots, p + i, key);
    }
    NoneHoldLacks(slots[p..], key);
    WithoutMatch(Live(slots[p..]), key, value);
    assert (slots + [Some(Entry(key, value))])[p..] == slots[p..] + [Some(Entry(key, value))];
    LiveConcat(slots[p..], [Some(Entry(key, value))]);
  }
}
