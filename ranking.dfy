/** Ranking of the handler's `{item_id, prediction}` records: a stable sort,
    highest prediction first, done in place. `SortDesc` is the reference
    definition; `SortByPredictionDesc` is the in-place sort proved equal to it. */
module Ranking {

  /** One record of the handler's answer: `{"item_id": i, "prediction": p}`.
      Scores are reals: the ranking only ever compares them. */
  datatype ItemPrediction = ItemPrediction(itemId: nat, prediction: real)

  /** The sort key, `order_item_predictions`: a record ranks by its prediction
      alone, whatever its item id. */
  function OrderItemPredictions(e: ItemPrediction): real {
    e.prediction
  }

  /** Highest prediction first. */
  predicate SortedDesc(s: seq<ItemPrediction>) {
    forall i, j :: 0 <= i < j < |s| ==> OrderItemPredictions(s[i]) >= OrderItemPredictions(s[j])
  }

  /** The records of `s` whose key is `v`, in their order in `s`. */
  function WithKey(s: seq<ItemPrediction>, v: real): seq<ItemPrediction> {
    if s == [] then []
    else (if OrderItemPredictions(s[0]) == v then [s[0]] else []) + WithKey(s[1..], v)
  }

  /** Stability: records that tie on the key keep their relative order. */
  ghost predicate SameOrderPerKey(s: seq<ItemPrediction>, t: seq<ItemPrediction>) {
    forall v :: WithKey(s, v) == WithKey(t, v)
  }

  /** Places `e` after every record of `s` whose key is at least `e`'s, so a later
      record never overtakes an earlier one it ties with. */
  function Insert(e: ItemPrediction, s: seq<ItemPrediction>): (r: seq<ItemPrediction>)
    ensures |r| == |s| + 1
  {
    if s == [] || OrderItemPredictions(s[0]) < OrderItemPredictions(e) then
      [e] + s
    else
      [s[0]] + Insert(e, s[1..])
  }

  /** The reference stable descending sort: insert the records one by one, left to right. */
  function SortDesc(s: seq<ItemPrediction>): (r: seq<ItemPrediction>)
    ensures |r| == |s|
  {
    if s == [] then []
    else Insert(s[|s| - 1], SortDesc(s[..|s| - 1]))
  }

  /** Inserting adds exactly `e`. */
  lemma {:induction false} InsertPermutes(e: ItemPrediction, s: seq<ItemPrediction>)
    ensures multiset(Insert(e, s)) == multiset(s) + multiset{e}
  {
    if s != [] && OrderItemPredictions(s[0]) >= OrderItemPredictions(e) {
      InsertPermutes(e, s[1..]);
      assert s == [s[0]] + s[1..];
    }
  }

  /** The reference sort neither adds, drops nor alters a record. */
  lemma {:induction false} SortDescPermutes(s: seq<ItemPrediction>)
    ensures multiset(SortDesc(s)) == multiset(s)
  {
    if s != [] {
      SortDescPermutes(s[..|s| - 1]);
      InsertPermutes(s[|s| - 1], SortDesc(s[..|s| - 1]));
      assert s == s[..|s| - 1] + [s[|s| - 1]];
    }
  }

  lemma {:induction false} WithKeyAppend(s: seq<ItemPrediction>, t: seq<ItemPrediction>, v: real)
    ensures WithKey(s + t, v) == WithKey(s, v) + WithKey(t, v)
  {
    if s == [] {
      assert s + t == t;
    } else {
      var head := if OrderItemPredictions(s[0]) == v then [s[0]] else [];
      assert (s + t)[0] == s[0];
      assert (s + t)[1..] == s[1..] + t;
      WithKeyAppend(s[1..], t, v);
      calc {
        WithKey(s + t, v);
        head + WithKey(s[1..] + t, v);
        head + (WithKey(s[1..], v) + WithKey(t, v));
        (head + WithKey(s[1..], v)) + WithKey(t, v);
      }
    }
  }

  lemma {:induction false} WithKeyMembers(s: seq<ItemPrediction>, v: real)
    ensures forall x :: x in WithKey(s, v) ==> x in s && OrderItemPredictions(x) == v
  {
    if s != [] {
      WithKeyMembers(s[1..], v);
    }
  }

  lemma {:induction false} WithKeyAbsent(s: seq<ItemPrediction>, v: real)
    requires forall i :: 0 <= i < |s| ==> OrderItemPredictions(s[i]) != v
    ensures WithKey(s, v) == []
  {
    if s != [] {
      WithKeyAbsent(s[1..], v);
    }
  }

  /** A non-empty sequence has a record with its first record's key. */
  lemma WithKeyHead(s: seq<ItemPrediction>)
    ensures s != [] ==> WithKey(s, OrderItemPredictions(s[0])) != []
  {
  }

  /** The first record of a sorted sequence carries the highest key. */
  lemma SortedHead(s: seq<ItemPrediction>, x: ItemPrediction)
    requires SortedDesc(s) && x in s
    ensures OrderItemPredictions(x) <= OrderItemPredictions(s[0])
  {
  }

  lemma {:induction false} InsertSorted(e: ItemPrediction, s: seq<ItemPrediction>)
    requires SortedDesc(s)
    ensures SortedDesc(Insert(e, s))
    ensures Insert(e, s)[0] == e || (s != [] && Insert(e, s)[0] == s[0])
  {
    if s == [] || OrderItemPredictions(s[0]) < OrderItemPredictions(e) {
    } else {
      var t := Insert(e, s[1..]);
      InsertSorted(e, s[1..]);
      assert OrderItemPredictions(t[0]) <= OrderItemPredictions(s[0]);
      var r := [s[0]] + t;
      forall i, j | 0 <= i < j < |r|
        ensures OrderItemPredictions(r[i]) >= OrderItemPredictions(r[j])
      {
        assert r[j] == t[j - 1];
        if i == 0 {
          assert OrderItemPredictions(t[j - 1]) <= OrderItemPredictions(t[0]);
        } else {
          assert r[i] == t[i - 1];
        }
      }
    }
  }

  /** Inserting into a sorted sequence puts `e` behind every record it ties with. */
  lemma {:induction false} InsertWithKey(e: ItemPrediction, s: seq<ItemPrediction>, v: real)
    requires SortedDesc(s)
    ensures WithKey(Insert(e, s), v) == WithKey(s, v) + WithKey([e], v)
  {
    if s == [] {
    } else if OrderItemPredictions(s[0]) < OrderItemPredictions(e) {
      WithKeyAppend([e], s, v);
      if OrderItemPredictions(e) == v {
        forall i | 0 <= i < |s|
          ensures OrderItemPredictions(s[i]) != v
        {
          assert OrderItemPredictions(s[i]) <= OrderItemPredictions(s[0]);
        }
        WithKeyAbsent(s, v);
      } else {
        assert WithKey([e], v) == [];
      }
    } else {
      InsertWithKey(e, s[1..], v);
      assert Insert(e, s) == [s[0]] + Insert(e, s[1..]);
      WithKeyAppend([s[0]], Insert(e, s[1..]), v);
      WithKeyAppend([s[0]], s[1..], v);
      assert [s[0]] + s[1..] == s;
    }
  }

  /** The reference sort puts the highest prediction first. */
  lemma {:induction false} SortDescSorted(s: seq<ItemPrediction>)
    ensures SortedDesc(SortDesc(s))
  {
    if s != [] {
      SortDescSorted(s[..|s| - 1]);
      InsertSorted(s[|s| - 1], SortDesc(s[..|s| - 1]));
    }
  }

  /** The reference sort is stable: records that tie keep their input order. */
  lemma {:induction false} SortDescStable(s: seq<ItemPrediction>)
    ensures SameOrderPerKey(SortDesc(s), s)
  {
    if s != [] {
      var p, x := s[..|s| - 1], s[|s| - 1];
      SortDescStable(p);
      SortDescSorted(p);
      assert s == p + [x];
      forall v
        ensures WithKey(SortDesc(s), v) == WithKey(s, v)
      {
        InsertWithKey(x, SortDesc(p), v);
        WithKeyAppend(p, [x], v);
      }
    }
  }

  /** A sorted sequence is determined by the order of the records within each key. */
  lemma {:induction false} SortedStableUnique(t1: seq<ItemPrediction>, t2: seq<ItemPrediction>)
    requires SortedDesc(t1) && SortedDesc(t2)
    requires SameOrderPerKey(t1, t2)
    ensures t1 == t2
    decreases |t1| + |t2|
  {
    if t1 == [] && t2 == [] {
    } else if t1 == [] {
      WithKeyHead(t2);
      assert false;
    } else if t2 == [] {
      WithKeyHead(t1);
      assert false;
    } else {
      var m1, m2 := OrderItemPredictions(t1[0]), OrderItemPredictions(t2[0]);
      WithKeyMembers(t1, m2);
      WithKeyMembers(t2, m1);
      assert WithKey(t1, m1)[0] == t1[0];
      assert t1[0] in WithKey(t2, m1);
      SortedHead(t2, t1[0]);
      assert WithKey(t2, m2)[0] == t2[0];
      assert t2[0] in WithKey(t1, m2);
      SortedHead(t1, t2[0]);
      assert m1 == m2;
      assert WithKey(t1, m1) == [t1[0]] + WithKey(t1[1..], m1);
      assert WithKey(t2, m1) == [t2[0]] + WithKey(t2[1..], m1);
      forall v
        ensures WithKey(t1[1..], v) == WithKey(t2[1..], v)
      {
        var w1, w2 := WithKey(t1[1..], v), WithKey(t2[1..], v);
        assert WithKey(t1, v) == WithKey(t2, v);
        if v == m1 {
          assert WithKey(t1, v) == [t1[0]] + w1;
          assert WithKey(t2, v) == [t2[0]] + w2;
          assert w1 == ([t1[0]] + w1)[1..];
          assert w2 == ([t2[0]] + w2)[1..];
        } else {
          assert WithKey(t1, v) == [] + w1 == w1;
          assert WithKey(t2, v) == [] + w2 == w2;
        }
      }
      SortedStableUnique(t1[1..], t2[1..]);
      assert t1 == [t1[0]] + t1[1..];
      assert t2 == [t2[0]] + t2[1..];
    }
  }

  /** Any sorting of `s` that is highest first and stable is the reference sort. */
  lemma SortDescUnique(s: seq<ItemPrediction>, t: seq<ItemPrediction>)
    requires SortedDesc(t) && SameOrderPerKey(t, s)
    ensures t == SortDesc(s)
  {
    SortDescSorted(s);
    SortDescStable(s);
    SortedStableUnique(t, SortDesc(s));
  }

  /** Where the insertion loop stops, `Insert` puts `e`. */
  lemma {:induction false} InsertAt(e: ItemPrediction, s: seq<ItemPrediction>, j: nat)
    requires SortedDesc(s) && j <= |s|
    requires j == 0 || OrderItemPredictions(s[j - 1]) >= OrderItemPredictions(e)
    requires forall k :: j <= k < |s| ==> OrderItemPredictions(s[k]) < OrderItemPredictions(e)
    ensures Insert(e, s) == s[..j] + [e] + s[j..]
  {
    if j == 0 {
      assert s == [] || OrderItemPredictions(s[0]) < OrderItemPredictions(e);
    } else {
      assert OrderItemPredictions(s[0]) >= OrderItemPredictions(s[j - 1]);
      InsertAt(e, s[1..], j - 1);
      assert s[..j] == [s[0]] + s[1..][..j - 1];
      assert s[j..] == s[1..][j - 1..];
    }
  }

  /** After the shifting loop, the prefix reads `s[..j]`, then `e`, then the rest of `s`. */
  lemma ShiftedIsInserted(t: seq<ItemPrediction>, s: seq<ItemPrediction>, e: ItemPrediction, j: nat)
    requires |t| == |s| + 1 && j <= |s|
    requires forall k :: 0 <= k < j ==> t[k] == s[k]
    requires t[j] == e
    requires forall k :: j < k < |t| ==> t[k] == s[k - 1]
    ensures t == s[..j] + [e] + s[j..]
  {
  }

  /** The shifting loop of one insertion pass: every record of `a[..i]`, from
      the right, that has a strictly lower key than `e` moves one place right,
      leaving a gap at the returned position. */
  method ShiftLower(a: array<ItemPrediction>, i: nat, e: ItemPrediction) returns (j: nat)
    requires i < a.Length
    modifies a
    ensures j <= i
    ensures forall k :: 0 <= k < j ==> a[k] == old(a[k])
    ensures a[j] == old(a[j])
    ensures forall k :: j < k <= i ==> a[k] == old(a[k - 1])
    ensures forall k :: i < k < a.Length ==> a[k] == old(a[k])
    ensures j == 0 || OrderItemPredictions(a[j - 1]) >= OrderItemPredictions(e)
    ensures forall k :: j <= k < i ==> OrderItemPredictions(old(a[k])) < OrderItemPredictions(e)
  {
    j := i;
    while j > 0 && OrderItemPredictions(a[j - 1]) < OrderItemPredictions(e)
      invariant j <= i
      invariant forall k :: 0 <= k < j ==> a[k] == old(a[k])
      invariant a[j] == old(a[j])
      invariant forall k :: j < k <= i ==> a[k] == old(a[k - 1])
      invariant forall k :: i < k < a.Length ==> a[k] == old(a[k])
      invariant forall k :: j <= k < i ==> OrderItemPredictions(old(a[k])) < OrderItemPredictions(e)
    {
      a[j] := a[j - 1];
      j := j - 1;
    }
  }

  /** One pass of the insertion sort: `a[i]` moves left past every record with
      a strictly lower key, which each shift one place right. */
  method InsertNext(a: array<ItemPrediction>, i: nat)
    requires i < a.Length && SortedDesc(a[..i])
    modifies a
    ensures a[..i + 1] == Insert(old(a[i]), old(a[..i]))
    ensures forall k :: i < k < a.Length ==> a[k] == old(a[k])
  {
    ghost var sorted := a[..i];
    var e := a[i];
    var j := ShiftLower(a, i, e);
    a[j] := e;
    InsertAt(e, sorted, j);
    ShiftedIsInserted(a[..i + 1], sorted, e, j);
  }

  /** The reference sort of a one-longer prefix inserts the next record. */
  lemma SortDescStep(s: seq<ItemPrediction>, i: nat)
    requires i < |s|
    ensures SortDesc(s[..i + 1]) == Insert(s[i], SortDesc(s[..i]))
  {
    assert s[..i + 1][..i] == s[..i];
  }

  /** `item_prediction_scores.sort(key=order_item_predictions, reverse=True)`:
      an insertion sort in place, equal to the reference sort (so, by
      `SortDescSorted`, `SortDescPermutes` and `SortDescStable`, sorted
      highest first, a permutation, and stable). */
  method SortByPredictionDesc(a: array<ItemPrediction>)
    modifies a
    ensures a[..] == SortDesc(old(a[..]))
  {
    ghost var original := a[..];
    var i := 0;
    while i < a.Length
      invariant 0 <= i <= a.Length
      invariant a[..i] == SortDesc(original[..i])
      invariant forall k :: i <= k < a.Length ==> a[k] == original[k]
    {
      SortDescSorted(original[..i]);
      SortDescStep(original, i);
      InsertNext(a, i);
      i := i + 1;
    }
    assert a[..] == a[..a.Length];
    assert original[..a.Length] == original;
  }
}
