/**
 * `PrioQueue`: a map from priority to a list of values, with insertion at
 * either end of a priority's list, removal of whole priorities, and `pop`
 * (last value of the highest priority) and `shift` (first value of the
 * lowest priority), both of which delete a list they empty.  Priorities are
 * numbers compared with `<` and `>`; they are integers here.
 *
 * The source keeps the lists in a JavaScript `Map`, which remembers the
 * order in which keys were first set; `minprio` and `maxprio` read the keys
 * in that order.  `Prios` models such a map: `keys` in insertion order and
 * `lists` holding the value under each key.
 */
module PrioQueues {
  import opened Wrappers

  /** No key occurs twice. */
  predicate Distinct(ks: seq<int>) {
    forall i, j | 0 <= i < j < |ks| :: ks[i] != ks[j]
  }

  /** An insertion-ordered map from priority to list. */
  datatype Prios<T> = Prios(keys: seq<int>, lists: map<int, seq<T>>)

  /** The key order lists exactly the keys of the map, each once. */
  ghost predicate WellFormed<T>(p: Prios<T>) {
    Distinct(p.keys) && forall q :: q in p.lists <==> q in p.keys
  }

  /**
   * What `pop` and `shift` return: `[null, null]` for an empty map, else
   * `[prio, val]`, where `val` is `undefined` (here `None`) when the list
   * under `prio` was empty, as a list created by `get` alone is.
   */
  datatype Taken<T> = Nothing | Took(prio: int, value: Option<T>)

  // ---------------------------------------------------------------------
  // The ordered map's own operations
  // ---------------------------------------------------------------------

  /** `ks` without `k`, the rest in their order. */
  function Without(ks: seq<int>, k: int): (r: seq<int>)
    ensures forall q :: q in r <==> q in ks && q != k
    ensures Distinct(ks) ==> Distinct(r)
    ensures k !in ks ==> r == ks
  {
    if |ks| == 0 then []
    else if ks[0] == k then Without(ks[1..], k)
    else
      var rest := Without(ks[1..], k);
      assert Distinct(ks) ==> ks[0] !in ks[1..] && Distinct(ks[1..]) by {
        if Distinct(ks) {
          forall i | 0 <= i < |ks[1..]|
            ensures ks[1..][i] != ks[0]
          {
            assert ks[1..][i] == ks[i + 1];
          }
        }
      }
      [ks[0]] + rest
  }

  /** `Map.set(prio, vals)`: a new key goes to the end of the order, an existing one stays in place. */
  function Set<T>(p: Prios<T>, prio: int, vals: seq<T>): (r: Prios<T>)
    ensures r.lists == p.lists[prio := vals]
    ensures r.keys == if prio in p.lists then p.keys else p.keys + [prio]
    ensures WellFormed(p) ==> WellFormed(r)
  {
    if prio in p.lists then Prios(p.keys, p.lists[prio := vals])
    else
      var r := Prios(p.keys + [prio], p.lists[prio := vals]);
      assert WellFormed(p) ==> Distinct(r.keys) by {
        if WellFormed(p) {
          forall i, j | 0 <= i < j < |r.keys|
            ensures r.keys[i] != r.keys[j]
          {
            if j == |p.keys| {
              assert r.keys[i] == p.keys[i] && p.keys[i] in p.lists;
            }
          }
        }
      }
      r
  }

  /** `Map.delete(prio)`: the key and its list gone, the other keys in their order. */
  function Delete<T>(p: Prios<T>, prio: int): (r: Prios<T>)
    ensures r.lists == p.lists - {prio}
    ensures r.keys == Without(p.keys, prio)
    ensures WellFormed(p) ==> WellFormed(r)
  {
    Prios(Without(p.keys, prio), p.lists - {prio})
  }

  // ---------------------------------------------------------------------
  // The queue transitions, as functions
  // ---------------------------------------------------------------------

  /** The list under `prio`, or the empty list `get` would create. */
  function ListAt<T>(p: Prios<T>, prio: int): seq<T> {
    if prio in p.lists then p.lists[prio] else []
  }

  /** `get(prio)`: the map with an empty list created under a missing `prio`, nothing else changed. */
  function Got<T>(p: Prios<T>, prio: int): (r: Prios<T>)
    ensures prio in r.lists && r.lists[prio] == ListAt(p, prio)
    ensures forall q | q != prio :: (q in r.lists <==> q in p.lists) && (q in p.lists ==> r.lists[q] == p.lists[q])
    ensures prio in p.lists ==> r == p
    ensures WellFormed(p) ==> WellFormed(r)
  {
    Set(p, prio, ListAt(p, prio))
  }

  /** `insertlast(prio, value)`: `value` appended to the list under `prio`, nothing else changed. */
  function InsertedLast<T>(p: Prios<T>, prio: int, value: T): (r: Prios<T>)
    ensures prio in r.lists && r.lists[prio] == ListAt(p, prio) + [value]
    ensures forall q | q != prio :: (q in r.lists <==> q in p.lists) && (q in p.lists ==> r.lists[q] == p.lists[q])
    ensures WellFormed(p) ==> WellFormed(r)
  {
    Set(p, prio, ListAt(p, prio) + [value])
  }

  /** `insertfirst(prio, value)`: `value` prepended to the list under `prio`, nothing else changed. */
  function InsertedFirst<T>(p: Prios<T>, prio: int, value: T): (r: Prios<T>)
    ensures prio in r.lists && r.lists[prio] == [value] + ListAt(p, prio)
    ensures forall q | q != prio :: (q in r.lists <==> q in p.lists) && (q in p.lists ==> r.lists[q] == p.lists[q])
    ensures WellFormed(p) ==> WellFormed(r)
  {
    Set(p, prio, [value] + ListAt(p, prio))
  }

  /** The smallest key: element 0 of the keys sorted ascending, as `minprio` computes it. */
  function Least(ks: seq<int>): (k: int)
    requires |ks| > 0
    ensures k in ks && forall q | q in ks :: k <= q
  {
    if |ks| == 1 then ks[0]
    else
      var init := ks[..|ks| - 1];
      var m := Least(init);
      assert forall q | q in ks :: q in init || q == ks[|ks| - 1];
      if ks[|ks| - 1] < m then ks[|ks| - 1] else m
  }

  /** The largest key: element 0 of the keys sorted descending, as `maxprio` computes it. */
  function Greatest(ks: seq<int>): (k: int)
    requires |ks| > 0
    ensures k in ks && forall q | q in ks :: q <= k
  {
    if |ks| == 1 then ks[0]
    else
      var init := ks[..|ks| - 1];
      var m := Greatest(init);
      assert forall q | q in ks :: q in init || q == ks[|ks| - 1];
      if ks[|ks| - 1] > m then ks[|ks| - 1] else m
  }

  /** What remains of a list once a value is taken off it: an emptied list is deleted. */
  function Leave<T>(p: Prios<T>, prio: int, rest: seq<T>): Prios<T> {
    if |rest| <= 0 then Delete(p, prio) else Set(p, prio, rest)
  }

  /** `pop()`: the last value of the highest priority, and the map afterwards. */
  function Popped<T>(p: Prios<T>): (r: (Taken<T>, Prios<T>))
    requires WellFormed(p)
    ensures WellFormed(r.1)
  {
    if |p.keys| <= 0 then (Nothing, p)
    else
      var prio := Greatest(p.keys);
      var vals := p.lists[prio];
      if |vals| == 0 then (Took(prio, None), Delete(p, prio))
      else (Took(prio, Some(vals[|vals| - 1])), Leave(p, prio, vals[..|vals| - 1]))
  }

  /** `shift()`: the first value of the lowest priority, and the map afterwards. */
  function Shifted<T>(p: Prios<T>): (r: (Taken<T>, Prios<T>))
    requires WellFormed(p)
    ensures WellFormed(r.1)
  {
    if |p.keys| <= 0 then (Nothing, p)
    else
      var prio := Least(p.keys);
      var vals := p.lists[prio];
      if |vals| == 0 then (Took(prio, None), Delete(p, prio))
      else (Took(prio, Some(vals[0])), Leave(p, prio, vals[1..]))
  }

  /** No priority holds an empty list. */
  ghost predicate Tidy<T>(p: Prios<T>) {
    forall q | q in p.lists :: |p.lists[q]| > 0
  }

  /** The summed lengths of the lists under `ks`. */
  function SumLengths<T>(ks: seq<int>, lists: map<int, seq<T>>): (n: nat)
    requires forall q | q in ks :: q in lists
    ensures forall q | q in ks :: |lists[q]| <= n
    ensures n == 0 <==> forall q | q in ks :: |lists[q]| == 0
  {
    if |ks| == 0 then 0
    else
      var k := ks[0];
      assert k in ks;
      assert forall q | q in ks :: q == k || q in ks[1..];
      |lists[k]| + SumLengths(ks[1..], lists)
  }

  /**
   * The number of values held under all priorities: no list is longer, and
   * it is 0 exactly when every list is empty.
   */
  function Total<T>(p: Prios<T>): (t: nat)
    requires WellFormed(p)
    ensures forall q | q in p.lists :: |p.lists[q]| <= t
    ensures t == 0 <==> forall q | q in p.lists :: p.lists[q] == []
  {
    SumLengths(p.keys, p.lists)
  }

  // ---------------------------------------------------------------------
  // The queue object
  // ---------------------------------------------------------------------

  class PrioQueue<T> {
    /** `prios`, the `Map` from priority to list. */
    var prios: Prios<T>

    ghost predicate Valid()
      reads this
    {
      WellFormed(prios)
    }

    constructor ()
      ensures Valid() && prios == Prios([], map[])
    {
      prios := Prios([], map[]);
    }

    /** `get(prio)`: the list under `prio`, created empty if missing. */
    method Get(prio: int) returns (vals: seq<T>)
      requires Valid()
      modifies this
      ensures Valid() && prios == Got(old(prios), prio) && vals == ListAt(old(prios), prio)
    {
      if prio !in prios.lists {
        prios := Set(prios, prio, []);
      }
      vals := prios.lists[prio];
    }

    /** `insertlast(prio, value)`. */
    method InsertLast(prio: int, value: T)
      requires Valid()
      modifies this
      ensures Valid() && prios == InsertedLast(old(prios), prio, value)
    {
      var vals := Get(prio);
      prios := Set(prios, prio, vals + [value]);
    }

    /** `insertfirst(prio, value)`. */
    method InsertFirst(prio: int, value: T)
      requires Valid()
      modifies this
      ensures Valid() && prios == InsertedFirst(old(prios), prio, value)
    {
      var vals := Get(prio);
      prios := Set(prios, prio, [value] + vals);
    }

    /** `remove()` clears the map; `remove(prio)` deletes that priority if present. */
    method Remove(prio: Option<int>)
      requires Valid()
      modifies this
      ensures Valid()
      ensures prio.None? ==> prios == Prios([], map[])
      ensures prio.Some? ==> prios == Delete(old(prios), prio.value)
    {
      if prio.None? {
        prios := Prios([], map[]);
      } else if prio.value in prios.lists {
        prios := Delete(prios, prio.value);
      }
    }

    /** `minprio()`: the smallest priority, `undefined` (None) for an empty map. */
    method MinPrio() returns (p: Option<int>)
      requires Valid()
      ensures p == if |prios.keys| == 0 then None else Some(Least(prios.keys))
    {
      p := None;
      var ks := prios.keys;
      for i := 0 to |ks|
        invariant p == if i == 0 then None else Some(Least(ks[..i]))
      {
        assert ks[..i + 1][..i] == ks[..i];
        if p.None? || ks[i] < p.value {
          p := Some(ks[i]);
        }
      }
      assert ks[..|ks|] == ks;
    }

    /** `maxprio()`: the largest priority, `undefined` (None) for an empty map. */
    method MaxPrio() returns (p: Option<int>)
      requires Valid()
      ensures p == if |prios.keys| == 0 then None else Some(Greatest(prios.keys))
    {
      p := None;
      var ks := prios.keys;
      for i := 0 to |ks|
        invariant p == if i == 0 then None else Some(Greatest(ks[..i]))
      {
        assert ks[..i + 1][..i] == ks[..i];
        if p.None? || ks[i] > p.value {
          p := Some(ks[i]);
        }
      }
      assert ks[..|ks|] == ks;
    }

    /** `pop()`: the last value of the highest priority, deleting the list if that empties it. */
    method Pop() returns (r: Taken<T>)
      requires Valid()
      modifies this
      ensures Valid() && (r, prios) == Popped(old(prios))
    {
      if |prios.keys| <= 0 {
        return Nothing;
      }
      ghost var before := prios;
      var prio := MaxPrio();
      var vals := prios.lists[prio.value];
      var val: Option<T> := None;
      if |vals| > 0 {
        val := Some(vals[|vals| - 1]);
        vals := vals[..|vals| - 1];
        prios := Set(prios, prio.value, vals);
      }
      if |vals| <= 0 {
        DeleteAfterSet(before, prio.value, vals);
        prios := Delete(prios, prio.value);
      }
      r := Took(prio.value, val);
    }

    /** `shift()`: the first value of the lowest priority, deleting the list if that empties it. */
    method Shift() returns (r: Taken<T>)
      requires Valid()
      modifies this
      ensures Valid() && (r, prios) == Shifted(old(prios))
    {
      if |prios.keys| <= 0 {
        return Nothing;
      }
      ghost var before := prios;
      var prio := MinPrio();
      var vals := prios.lists[prio.value];
      var val: Option<T> := None;
      if |vals| > 0 {
        val := Some(vals[0]);
        vals := vals[1..];
        prios := Set(prios, prio.value, vals);
      }
      if |vals| <= 0 {
        DeleteAfterSet(before, prio.value, vals);
        prios := Delete(prios, prio.value);
      }
      r := Took(prio.value, val);
    }
  }

  // ---------------------------------------------------------------------
  // Properties
  // ---------------------------------------------------------------------

  /** The summed lengths only read the lists under the keys summed. */
  lemma {:induction false} SumFrame<T>(ks: seq<int>, l1: map<int, seq<T>>, l2: map<int, seq<T>>)
    requires forall q | q in ks :: q in l1 && q in l2 && l1[q] == l2[q]
    ensures SumLengths(ks, l1) == SumLengths(ks, l2)
  {
    if |ks| > 0 {
      var k := ks[0];
      assert k in ks;
      SumFrame(ks[1..], l1, l2);
    }
  }

  /** The summed lengths can be counted starting from any key. */
  lemma {:induction false} SumWithout<T>(ks: seq<int>, lists: map<int, seq<T>>, k: int)
    requires Distinct(ks) && k in ks && forall q | q in ks :: q in lists
    ensures SumLengths(ks, lists) == |lists[k]| + SumLengths(Without(ks, k), lists)
  {
    assert ks[0] !in ks[1..] && Distinct(ks[1..]) by {
      forall i | 0 <= i < |ks[1..]|
        ensures ks[1..][i] != ks[0]
      {
        assert ks[1..][i] == ks[i + 1];
      }
    }
    if ks[0] == k {
      assert Without(ks[1..], k) == ks[1..];
    } else {
      SumWithout(ks[1..], lists, k);
    }
  }

  /** Setting a list changes the total by the difference in that list's length. */
  lemma SetTotal<T>(p: Prios<T>, prio: int, vals: seq<T>)
    requires WellFormed(p)
    ensures Total(Set(p, prio, vals)) + |ListAt(p, prio)| == Total(p) + |vals|
  {
    var r := Set(p, prio, vals);
    SumWithout(r.keys, r.lists, prio);
    SumFrame(Without(r.keys, prio), r.lists, p.lists);
    if prio in p.lists {
      SumWithout(p.keys, p.lists, prio);
    } else {
      WithoutLast(p.keys, prio);
    }
  }

  /** Deleting a priority takes its list's length off the total. */
  lemma DeleteTotal<T>(p: Prios<T>, prio: int)
    requires WellFormed(p)
    ensures Total(Delete(p, prio)) + |ListAt(p, prio)| == Total(p)
  {
    if prio in p.lists {
      SumWithout(p.keys, p.lists, prio);
      SumFrame(Without(p.keys, prio), p.lists - {prio}, p.lists);
    } else {
      SumFrame(p.keys, p.lists - {prio}, p.lists);
    }
  }

  /** Removing a key just appended gives back the keys before it. */
  lemma {:induction false} WithoutLast(ks: seq<int>, k: int)
    requires k !in ks
    ensures Without(ks + [k], k) == ks
  {
    if |ks| > 0 {
      assert (ks + [k])[1..] == ks[1..] + [k];
      WithoutLast(ks[1..], k);
    }
  }

  /** `insertlast` and `insertfirst` add one value. */
  lemma InsertAddsOne<T>(p: Prios<T>, prio: int, value: T)
    requires WellFormed(p)
    ensures Total(InsertedLast(p, prio, value)) == Total(p) + 1
    ensures Total(InsertedFirst(p, prio, value)) == Total(p) + 1
  {
    SetTotal(p, prio, ListAt(p, prio) + [value]);
    SetTotal(p, prio, [value] + ListAt(p, prio));
  }

  /** `pop` removes exactly the value it returns, and nothing from an empty map. */
  lemma PopRemovesOne<T>(p: Prios<T>)
    requires WellFormed(p)
    ensures Total(Popped(p).1) == Total(p) - (if Popped(p).0.Took? && Popped(p).0.value.Some? then 1 else 0)
  {
    if |p.keys| > 0 {
      var hi := Greatest(p.keys);
      var top := p.lists[hi];
      if |top| == 0 || |top| == 1 {
        DeleteTotal(p, hi);
      } else {
        SetTotal(p, hi, top[..|top| - 1]);
      }
    }
  }

  /** `shift` removes exactly the value it returns, and nothing from an empty map. */
  lemma ShiftRemovesOne<T>(p: Prios<T>)
    requires WellFormed(p)
    ensures Total(Shifted(p).1) == Total(p) - (if Shifted(p).0.Took? && Shifted(p).0.value.Some? then 1 else 0)
  {
    if |p.keys| > 0 {
      var lo := Least(p.keys);
      var bottom := p.lists[lo];
      if |bottom| == 0 || |bottom| == 1 {
        DeleteTotal(p, lo);
      } else {
        SetTotal(p, lo, bottom[1..]);
      }
    }
  }

  /** `pop` takes the last value of the highest priority; `[null, null]` only for an empty map. */
  lemma PopTakesLastOfHighest<T>(p: Prios<T>)
    requires WellFormed(p)
    ensures Popped(p).0.Nothing? <==> |p.keys| == 0
    ensures Popped(p).0.Took? ==> Popped(p).0.prio in p.lists && forall q | q in p.lists :: q <= Popped(p).0.prio
    ensures Popped(p).0.Took? ==> (Popped(p).0.value.Some? <==> |p.lists[Popped(p).0.prio]| > 0)
    ensures Popped(p).0.Took? && Popped(p).0.value.Some? ==>
      Popped(p).0.value.value == p.lists[Popped(p).0.prio][|p.lists[Popped(p).0.prio]| - 1]
  {
  }

  /** `shift` takes the first value of the lowest priority; `[null, null]` only for an empty map. */
  lemma ShiftTakesFirstOfLowest<T>(p: Prios<T>)
    requires WellFormed(p)
    ensures Shifted(p).0.Nothing? <==> |p.keys| == 0
    ensures Shifted(p).0.Took? ==> Shifted(p).0.prio in p.lists && forall q | q in p.lists :: Shifted(p).0.prio <= q
    ensures Shifted(p).0.Took? ==> (Shifted(p).0.value.Some? <==> |p.lists[Shifted(p).0.prio]| > 0)
    ensures Shifted(p).0.Took? && Shifted(p).0.value.Some? ==> Shifted(p).0.value.value == p.lists[Shifted(p).0.prio][0]
  {
  }

  /** Inserting keeps a map free of empty lists; `get` does so only for a priority already present. */
  lemma TidyKeptByInsert<T>(p: Prios<T>, prio: int, value: T)
    requires WellFormed(p) && Tidy(p)
    ensures Tidy(InsertedLast(p, prio, value)) && Tidy(InsertedFirst(p, prio, value))
    ensures Tidy(Got(p, prio)) <==> prio in p.lists
  {
  }

  /** `pop` and `shift` keep a map free of empty lists, and on such a map always return a value. */
  lemma TidyKeptByTake<T>(p: Prios<T>)
    requires WellFormed(p) && Tidy(p)
    ensures Tidy(Popped(p).1) && Tidy(Shifted(p).1)
    ensures Popped(p).0.Took? ==> Popped(p).0.value.Some?
    ensures Shifted(p).0.Took? ==> Shifted(p).0.value.Some?
  {
  }

  /**
   * A value inserted last under a priority no lower than any present is the
   * next one `pop` returns, and the map goes back to what it was, less a
   * list left empty by `get`.
   */
  lemma PopAfterInsertLast<T>(p: Prios<T>, prio: int, value: T)
    requires WellFormed(p) && forall q | q in p.lists :: q <= prio
    ensures Popped(InsertedLast(p, prio, value)).0 == Took(prio, Some(value))
    ensures Popped(InsertedLast(p, prio, value)).1 == if prio in p.lists && |p.lists[prio]| > 0 then p else Delete(p, prio)
  {
    var before := ListAt(p, prio);
    var p' := Set(p, prio, before + [value]);
    assert Greatest(p'.keys) == prio;
    assert (before + [value])[..|before|] == before;
    if |before| > 0 {
      SetTwice(p, prio, before + [value], before);
      SetSame(p, prio);
    } else {
      DeleteAfterSet(p, prio, before + [value]);
    }
  }

  /**
   * A value inserted first under a priority no higher than any present is
   * the next one `shift` returns, and the map goes back to what it was, less
   * a list left empty by `get`.
   */
  lemma ShiftAfterInsertFirst<T>(p: Prios<T>, prio: int, value: T)
    requires WellFormed(p) && forall q | q in p.lists :: prio <= q
    ensures Shifted(InsertedFirst(p, prio, value)).0 == Took(prio, Some(value))
    ensures Shifted(InsertedFirst(p, prio, value)).1 == if prio in p.lists && |p.lists[prio]| > 0 then p else Delete(p, prio)
  {
    var before := ListAt(p, prio);
    var p' := Set(p, prio, [value] + before);
    assert Least(p'.keys) == prio;
    assert ([value] + before)[1..] == before;
    if |before| > 0 {
      SetTwice(p, prio, [value] + before, before);
      SetSame(p, prio);
    } else {
      DeleteAfterSet(p, prio, [value] + before);
    }
  }

  /** Setting a list twice keeps the second. */
  lemma SetTwice<T>(p: Prios<T>, prio: int, v: seq<T>, w: seq<T>)
    ensures Set(Set(p, prio, v), prio, w) == Set(p, prio, w)
  {
    assert p.lists[prio := v][prio := w] == p.lists[prio := w];
  }

  /** Setting a list to what it already is changes nothing. */
  lemma SetSame<T>(p: Prios<T>, prio: int)
    requires prio in p.lists
    ensures Set(p, prio, p.lists[prio]) == p
  {
    assert p.lists[prio := p.lists[prio]] == p.lists;
  }

  /** Deleting a priority forgets whatever was set under it. */
  lemma DeleteAfterSet<T>(p: Prios<T>, prio: int, v: seq<T>)
    requires WellFormed(p)
    ensures Delete(Set(p, prio, v), prio) == Delete(p, prio)
  {
    assert p.lists[prio := v] - {prio} == p.lists - {prio};
    if prio !in p.lists {
      WithoutLast(p.keys, prio);
    }
  }

  /** Within the lowest priority, `shift` takes values in the order `insertlast` added them. */
  lemma ShiftIsFifoWithinPriority<T>(p: Prios<T>, prio: int, value: T)
    requires WellFormed(p) && prio in p.lists && |p.lists[prio]| > 1 && forall q | q in p.lists :: prio <= q
    ensures Shifted(InsertedLast(p, prio, value)).0 == Took(prio, Some(p.lists[prio][0]))
    ensures Shifted(InsertedLast(p, prio, value)).1 == InsertedLast(Shifted(p).1, prio, value)
  {
    var p' := InsertedLast(p, prio, value);
    assert Least(p'.keys) == prio;
    assert Least(p.keys) == prio;
    assert (p.lists[prio] + [value])[1..] == p.lists[prio][1..] + [value];
  }
}
