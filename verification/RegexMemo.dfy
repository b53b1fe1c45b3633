/**
 The bounded first-in first-out memo of match results, and the values the
 client and its helper processes exchange.
 */
module RegexMemo {
  import opened Options
  import opened CodeUnits

  type Units = seq<Unit>

  datatype Pattern = Pattern(source: Units, flags: string)

  datatype Match = Match(captures: seq<Option<(nat, nat)>>, names: seq<(string, Option<(nat, nat)>)>)

  datatype FindKey = FindKey(pattern: Pattern, input: Units, start: nat)

  const MEMO_ENTRIES: nat := 1024
  const MEMO_UNITS: nat := 2 * 1024 * 1024
  const MEMO_KEY_UNITS: nat := 16 * 1024

  datatype Memo = Memo(results: map<FindKey, Option<Match>>, order: seq<FindKey>, units: nat)

  const EMPTY: Memo := Memo(map[], [], 0)

  function Size(key: FindKey): nat {
    |key.pattern.source| + |key.input|
  }

  function TotalSize(keys: seq<FindKey>): nat {
    if keys == [] then 0 else Size(keys[0]) + TotalSize(keys[1..])
  }

  ghost predicate Distinct(keys: seq<FindKey>) {
    forall i, j :: 0 <= i < j < |keys| ==> keys[i] != keys[j]
  }

  ghost function KeySet(keys: seq<FindKey>): set<FindKey> {
    set k | k in keys
  }

  /** The queue orders exactly the keys of the map, once each, and both bounds hold. */
  ghost predicate Valid(m: Memo) {
    && Distinct(m.order)
    && KeySet(m.order) == m.results.Keys
    && m.units == TotalSize(m.order)
    && |m.order| <= MEMO_ENTRIES
    && m.units <= MEMO_UNITS
  }

  predicate Fits(m: Memo, size: nat) {
    |m.results| < MEMO_ENTRIES && m.units + size <= MEMO_UNITS
  }

  lemma {:induction false} DistinctCount(keys: seq<FindKey>)
    requires Distinct(keys)
    ensures |KeySet(keys)| == |keys|
  {
    if keys != [] {
      DistinctCount(keys[1..]);
      assert KeySet(keys) == KeySet(keys[1..]) + {keys[0]};
      assert keys[0] !in KeySet(keys[1..]);
    }
  }

  lemma {:induction false} TotalSizeAppend(keys: seq<FindKey>, key: FindKey)
    ensures TotalSize(keys + [key]) == TotalSize(keys) + Size(key)
  {
    if keys == [] {
      assert keys + [key] == [key];
    } else {
      TotalSizeAppend(keys[1..], key);
      assert (keys + [key])[1..] == keys[1..] + [key];
    }
  }

  lemma {:induction false} TotalSizeTail(keys: seq<FindKey>)
    requires keys != []
    ensures TotalSize(keys) == Size(keys[0]) + TotalSize(keys[1..])
  {
  }

  /** A valid memo that has no room for an admissible key has an oldest entry, with its result. */
  lemma {:induction false} FullHasOldest(m: Memo, size: nat)
    requires Valid(m) && size <= MEMO_KEY_UNITS && !Fits(m, size)
    ensures m.order != [] && m.order[0] in m.results && Size(m.order[0]) <= m.units
  {
    DistinctCount(m.order);
    assert |m.results| == |m.results.Keys|;
    assert m.order != [] ==> m.order[0] in KeySet(m.order);
  }

  /** The memo without its oldest entry. */
  function Drop(m: Memo): Memo
    requires m.order != [] && Size(m.order[0]) <= m.units
  {
    Memo(m.results - {m.order[0]}, m.order[1..], m.units - Size(m.order[0]))
  }

  lemma {:induction false} DropKeepsValid(m: Memo)
    requires Valid(m) && m.order != [] && Size(m.order[0]) <= m.units
    ensures Valid(Drop(m))
  {
    hide TotalSize, Distinct, KeySet;
    TotalSizeTail(m.order);
    DistinctTail(m.order);
  }

  lemma {:induction false} DistinctTail(keys: seq<FindKey>)
    requires Distinct(keys) && keys != []
    ensures Distinct(keys[1..]) && KeySet(keys[1..]) == KeySet(keys) - {keys[0]}
  {
    assert keys == [keys[0]] + keys[1..];
    assert keys[0] !in keys[1..];
  }

  /** Drops the oldest entries until a key of `size` fits. */
  function Evict(m: Memo, size: nat): (r: Memo)
    requires Valid(m) && size <= MEMO_KEY_UNITS
    ensures Valid(r) && Fits(r, size)
    decreases |m.order|
  {
    if Fits(m, size) then m
    else
      FullHasOldest(m, size);
      DropKeepsValid(m);
      Evict(Drop(m), size)
  }

  lemma {:induction false} EvictStep(m: Memo, size: nat)
    requires Valid(m) && size <= MEMO_KEY_UNITS
    ensures Fits(m, size) ==> Evict(m, size) == m
    ensures !Fits(m, size) ==>
              && m.order != [] && m.order[0] in m.results && Size(m.order[0]) <= m.units
              && Valid(Drop(m)) && Evict(m, size) == Evict(Drop(m), size)
  {
    hide Valid, Fits;
    if !Fits(m, size) {
      FullHasOldest(m, size);
      DropKeepsValid(m);
    }
  }

  lemma {:induction false} EvictNothing(m: Memo, size: nat)
    requires Valid(m) && size <= MEMO_KEY_UNITS
    ensures |m.results| < 1024 && m.units + size <= 2097152 ==> Evict(m, size) == m
  {
  }

  function Remembered(m: Memo, key: FindKey, result: Option<Match>): Memo
    requires Valid(m)
  {
    if Size(key) > MEMO_KEY_UNITS || key in m.results then m
    else
      var r := Evict(m, Size(key));
      Memo(r.results[key := result], r.order + [key], r.units + Size(key))
  }

  /** What stays is a suffix of the queue. */
  lemma {:induction false} EvictKeepsSuffix(m: Memo, size: nat)
    requires Valid(m) && size <= MEMO_KEY_UNITS
    ensures var r := Evict(m, size);
            |r.order| <= |m.order| && r.order == m.order[|m.order| - |r.order|..]
    decreases |m.order|
  {
    hide Valid, Fits;
    if !Fits(m, size) {
      FullHasOldest(m, size);
      DropKeepsValid(m);
      EvictKeepsSuffix(Drop(m), size);
    }
  }

  /** What stays keeps its result. */
  lemma {:induction false} EvictKeepsResult(m: Memo, size: nat, k: FindKey)
    requires Valid(m) && size <= MEMO_KEY_UNITS
    ensures k in Evict(m, size).results ==> k in m.results && Evict(m, size).results[k] == m.results[k]
    decreases |m.order|
  {
    hide Valid, Fits;
    if !Fits(m, size) {
      FullHasOldest(m, size);
      DropKeepsValid(m);
      EvictKeepsResult(Drop(m), size, k);
    }
  }

  /** Nothing is dropped that would have fitted: with one entry more, a bound would be passed. */
  lemma {:induction false} EvictsNoMore(m: Memo, size: nat)
    requires Valid(m) && size <= MEMO_KEY_UNITS && |Evict(m, size).order| < |m.order|
    ensures var from := |m.order| - |Evict(m, size).order| - 1;
            from >= 0 && (|m.order[from..]| >= MEMO_ENTRIES || TotalSize(m.order[from..]) + size > MEMO_UNITS)
    decreases |m.order|
  {
    FullHasOldest(m, size);
    DropKeepsValid(m);
    var d := Drop(m);
    var from := |m.order| - |Evict(m, size).order| - 1;
    EvictKeepsSuffix(d, size);
    if from == 0 {
      DistinctCount(m.order);
      assert |m.results| == |m.results.Keys|;
      assert m.order[0..] == m.order;
    } else {
      hide Valid, Fits;
      EvictsNoMore(d, size);
      assert d.order[from - 1..] == m.order[from..];
    }
  }

  lemma {:induction false} DistinctAppend(keys: seq<FindKey>, key: FindKey)
    requires Distinct(keys) && key !in KeySet(keys)
    ensures Distinct(keys + [key]) && KeySet(keys + [key]) == KeySet(keys) + {key}
  {
    assert forall i :: 0 <= i < |keys| ==> keys[i] in KeySet(keys);
  }

  lemma {:induction false} InsertKeepsValid(m: Memo, key: FindKey, result: Option<Match>)
    requires Valid(m) && key !in m.results && Fits(m, Size(key))
    ensures Valid(Memo(m.results[key := result], m.order + [key], m.units + Size(key)))
  {
    hide Distinct, KeySet, TotalSize;
    TotalSizeAppend(m.order, key);
    DistinctCount(m.order);
    assert |m.results| == |m.results.Keys|;
    DistinctAppend(m.order, key);
  }

  /** Remembering keeps the memo valid, adds at most the new result and changes no other. */
  lemma {:induction false} RememberedValid(m: Memo, key: FindKey, result: Option<Match>)
    requires Valid(m)
    ensures Valid(Remembered(m, key, result))
    ensures var r := Remembered(m, key, result);
            forall k :: k in r.results ==> (k == key && key !in m.results && r.results[k] == result)
                                           || (k in m.results && r.results[k] == m.results[k])
    ensures Size(key) <= MEMO_KEY_UNITS && key !in m.results ==> key in Remembered(m, key, result).results
  {
    hide Valid;
    if !(Size(key) > MEMO_KEY_UNITS || key in m.results) {
      forall k ensures k in Evict(m, Size(key)).results ==> k in m.results && Evict(m, Size(key)).results[k] == m.results[k] {
        EvictKeepsResult(m, Size(key), k);
      }
      InsertKeepsValid(Evict(m, Size(key)), key, result);
    }
  }

  /** All units of the keys, written out one after another. */
  function AllUnits(keys: seq<FindKey>): Units {
    if keys == [] then [] else keys[0].pattern.source + keys[0].input + AllUnits(keys[1..])
  }

  lemma {:induction false} AllUnitsCount(keys: seq<FindKey>)
    ensures |AllUnits(keys)| == TotalSize(keys)
  {
    if keys != [] {
      AllUnitsCount(keys[1..]);
    }
  }

  /** A valid memo holds at most 1024 results, and at most 2097152 units of patterns and subjects. */
  lemma {:induction false} MemoBounds(m: Memo)
    requires Valid(m)
    ensures |m.results| == |m.order| <= 1024 && m.units == |AllUnits(m.order)| <= 2097152
  {
    AllUnitsCount(m.order);
    DistinctCount(m.order);
    assert |m.results| == |m.results.Keys|;
  }

  /**
   A key of more than 16384 units, or one already known, changes nothing. Any
   other becomes the newest entry with its result; older ones are kept, all of
   them if there is room.
   */
  lemma {:induction false} RememberLaw(m: Memo, key: FindKey, result: Option<Match>)
    requires Valid(m)
    ensures var size, r := |key.pattern.source| + |key.input|, Remembered(m, key, result);
            if size > 16384 || key in m.results then r == m
            else
              && key in r.results && r.results[key] == result
              && 1 <= |r.order| <= |m.order| + 1 && r.order == m.order[|m.order| + 1 - |r.order|..] + [key]
              && (|m.results| < 1024 && |AllUnits(m.order)| + size <= 2097152 ==> r.order == m.order + [key])
  {
    hide Valid, AllUnits, Evict;
    MemoBounds(m);
    RememberedAfter(m, key, result);
    var size := |key.pattern.source| + |key.input|;
    if size <= 16384 && key !in m.results {
      EvictNothing(m, size);
    }
  }

  lemma {:induction false} RememberedAfter(m: Memo, key: FindKey, result: Option<Match>)
    requires Valid(m)
    ensures var size, r := |key.pattern.source| + |key.input|, Remembered(m, key, result);
            if size > 16384 || key in m.results then r == m
            else
              && key in r.results && r.results[key] == result && r.order == Evict(m, size).order + [key]
              && |Evict(m, size).order| <= |m.order|
              && Evict(m, size).order == m.order[|m.order| - |Evict(m, size).order|..]
  {
    hide Valid, Evict;
    var size := |key.pattern.source| + |key.input|;
    if size <= 16384 && key !in m.results {
      EvictKeepsSuffix(m, size);
    }
  }

  /** The memo as the client holds it: three fields updated in place. */
  class FindMemo {
    var results: map<FindKey, Option<Match>>
    var order: seq<FindKey>
    var units: nat

    ghost function Value(): Memo
      reads this
    {
      Memo(results, order, units)
    }

    constructor ()
      ensures Value() == EMPTY && Valid(Value())
    {
      results, order, units := map[], [], 0;
    }

    /** Neither removal can fail: a full memo has an oldest key, and that key has a result. */
    method MakeRoom(size: nat)
      requires Valid(Value()) && size <= MEMO_KEY_UNITS
      modifies this
      ensures Value() == Evict(old(Value()), size)
    {
      hide Valid, Evict;
      while |results| >= MEMO_ENTRIES || units + size > MEMO_UNITS
        invariant Valid(Value()) && Evict(Value(), size) == Evict(old(Value()), size)
        decreases |order|
      {
        EvictStep(Value(), size);
        var oldest := order[0];
        order := order[1..];
        assert oldest in results;
        results := results - {oldest};
        units := units - (|oldest.pattern.source| + |oldest.input|);
      }
      EvictStep(Value(), size);
    }

    method Remember(key: FindKey, result: Option<Match>)
      requires Valid(Value())
      modifies this
      ensures Value() == Remembered(old(Value()), key, result)
      ensures Valid(Value())
    {
      hide Valid, Evict;
      RememberedValid(Value(), key, result);
      var size := |key.pattern.source| + |key.input|;
      if size > MEMO_KEY_UNITS || key in results {
        return;
      }
      MakeRoom(size);
      units := units + size;
      order := order + [key];
      results := results[key := result];
    }
  }
}
