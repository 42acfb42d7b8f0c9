/** Sequence helpers shared by the server tables and the client lists:
    SQL WHERE / ORDER BY DESC / LIMIT on ordered tables, and JavaScript's
    array filter and map-by-id on the client. */
module Seqs {
  import opened Http

  function Min(a: int, b: int): int
  {
    if a <= b then a else b
  }

  function Last<T>(s: seq<T>): T
    requires |s| > 0
  {
    s[|s| - 1]
  }

  /** The elements of `s` that `keep` accepts, in their original order
      (a WHERE clause over a table read in insertion order, or Array.filter). */
  function Filter<T>(s: seq<T>, keep: T -> bool): (r: seq<T>)
    ensures |r| <= |s|
    ensures forall i :: 0 <= i < |r| ==> keep(r[i])
    decreases |s|
  {
    if |s| == 0 then []
    else
      var init := s[..|s| - 1];
      assert s == init + [s[|s| - 1]];
      Filter(init, keep) + (if keep(s[|s| - 1]) then [s[|s| - 1]] else [])
  }

  /** `f` applied to every element (Array.map). */
  function Map<T, U>(s: seq<T>, f: T -> U): (r: seq<U>)
    ensures |r| == |s|
    ensures forall i :: 0 <= i < |s| ==> r[i] == f(s[i])
  {
    seq(|s|, i requires 0 <= i < |s| => f(s[i]))
  }

  /** `s` read backwards: ORDER BY ... DESC over rows kept in ascending order,
      or Array.prototype.reverse. */
  function Reversed<T>(s: seq<T>): (r: seq<T>)
  {
    seq(|s|, i requires 0 <= i < |s| => s[|s| - 1 - i])
  }

  /** The first `n` elements of `s`, or all of them when there are fewer (SQL LIMIT). */
  function Take<T>(s: seq<T>, n: nat): (r: seq<T>)
  {
    s[..Min(n, |s|)]
  }

  /** The last `n` elements of `s`, or all of them when there are fewer. */
  function Newest<T>(s: seq<T>, n: nat): (r: seq<T>)
    ensures |r| == Min(n, |s|)
    ensures forall k :: 0 <= k < |r| ==> r[k] == s[|s| - |r| + k]
  {
    s[|s| - Min(n, |s|)..]
  }

  /** The newest `n` of `s + t`, when `t` has at most `n` elements, are the
      newest `n - |t|` of `s` followed by all of `t`. */
  lemma NewestAppend<T>(s: seq<T>, t: seq<T>, n: nat)
    requires |t| <= n
    ensures Newest(s + t, n) == Newest(s, n - |t|) + t
  {
    var m := Min(n - |t|, |s|);
    assert Min(n, |s + t|) == m + |t|;
    assert (s + t)[|s| - m..] == s[|s| - m..] + t;
  }

  /** Appending `t` to the source of a window of `n` mapped elements moves the
      window: `t` enters it whole at the new end. */
  lemma WindowAppend<T, U>(head: seq<U>, s: seq<T>, t: seq<T>, n: nat, f: T -> U, tail: seq<U>, rest: seq<U>)
    requires |t| <= n
    requires Map(t, f) + tail == rest
    ensures head + Map(Newest(s + t, n), f) + tail == head + Map(Newest(s, n - |t|), f) + rest
  {
    NewestAppend(s, t, n);
    MapAppend(Newest(s, n - |t|), t, f);
  }

  /** Keys that strictly increase along the sequence (AUTO_INCREMENT ids in
      insertion order); in particular no key occurs twice. */
  ghost predicate Increasing<T>(s: seq<T>, key: T -> int)
  {
    forall i, j :: 0 <= i < j < |s| ==> key(s[i]) < key(s[j])
  }

  ghost predicate AllBelow<T>(s: seq<T>, key: T -> int, bound: int)
  {
    forall i :: 0 <= i < |s| ==> key(s[i]) < bound
  }

  function KeyIsNot<T>(key: T -> int, k: int): T -> bool
  {
    x => key(x) != k
  }

  /** With strictly increasing keys, an element carrying the key of element
      `i` is element `i`: an AUTO_INCREMENT id identifies its row. */
  lemma UniqueKeys<T>(s: seq<T>, key: T -> int, i: nat, x: T)
    requires Increasing(s, key)
    requires i < |s|
    requires x in s && key(x) == key(s[i])
    ensures x == s[i]
  {
    var j :| 0 <= j < |s| && s[j] == x;
    assert key(s[j]) == key(s[i]);
  }

  /** The first element whose key is `k` (SELECT ... WHERE id = k, first row). */
  function FindByKey<T>(s: seq<T>, key: T -> int, k: int): (r: Option<T>)
    ensures r.None? <==> forall x :: x in s ==> key(x) != k
    ensures r.Some? ==> r.value in s && key(r.value) == k
  {
    if |s| == 0 then None
    else if key(s[0]) == k then Some(s[0])
    else FindByKey(s[1..], key, k)
  }

  /** Every element whose key is not `k` (DELETE ... WHERE id = k; list.filter(x => x.id !== k)). */
  function RemoveById<T>(s: seq<T>, key: T -> int, k: int): (r: seq<T>)
    ensures forall i :: 0 <= i < |r| ==> key(r[i]) != k
  {
    Filter(s, KeyIsNot(key, k))
  }

  /** Every element whose key is `k` replaced by `x` (list.map(p => p.id === k ? x : p)). */
  function ReplaceById<T>(s: seq<T>, key: T -> int, k: int, x: T): (r: seq<T>)
    ensures |r| == |s|
    ensures forall i :: 0 <= i < |s| && key(s[i]) == k ==> r[i] == x
    ensures forall i :: 0 <= i < |s| && key(s[i]) != k ==> r[i] == s[i]
  {
    seq(|s|, i requires 0 <= i < |s| => if key(s[i]) == k then x else s[i])
  }

  /** An element is in the filtered sequence exactly when it is in the
      sequence and passes the filter. */
  lemma {:induction false} FilterMembers<T>(s: seq<T>, keep: T -> bool)
    ensures forall x :: x in Filter(s, keep) <==> x in s && keep(x)
    decreases |s|
  {
    if |s| > 0 {
      var init, y := s[..|s| - 1], s[|s| - 1];
      FilterMembers(init, keep);
      assert s == init + [y];
    }
  }

  /** Every element of the filtered sequence comes from the sequence. */
  lemma FilterElement<T>(s: seq<T>, keep: T -> bool, i: int)
    requires 0 <= i < |Filter(s, keep)|
    ensures Filter(s, keep)[i] in s
  {
    FilterMembers(s, keep);
    var f := Filter(s, keep);
    assert f[i] in f;
  }

  lemma {:induction false} FilterAppend<T>(s: seq<T>, t: seq<T>, keep: T -> bool)
    ensures Filter(s + t, keep) == Filter(s, keep) + Filter(t, keep)
    decreases |t|
  {
    if |t| == 0 {
      assert s + t == s;
    } else {
      var t' := t[..|t| - 1];
      assert (s + t)[..|s + t| - 1] == s + t';
      FilterAppend(s, t', keep);
    }
  }

  /** Filtering a sequence with one more element at its end. */
  lemma FilterSnoc<T>(s: seq<T>, x: T, keep: T -> bool)
    ensures Filter(s + [x], keep) == Filter(s, keep) + (if keep(x) then [x] else [])
  {
    assert (s + [x])[..|s|] == s;
  }

  lemma {:induction false} FilterAll<T>(s: seq<T>, keep: T -> bool)
    requires forall i :: 0 <= i < |s| ==> keep(s[i])
    ensures Filter(s, keep) == s
    decreases |s|
  {
    if |s| > 0 {
      FilterAll(s[..|s| - 1], keep);
      assert s == s[..|s| - 1] + [s[|s| - 1]];
    }
  }

  lemma {:induction false} FilterNone<T>(s: seq<T>, keep: T -> bool)
    requires forall i :: 0 <= i < |s| ==> !keep(s[i])
    ensures Filter(s, keep) == []
    decreases |s|
  {
    if |s| > 0 {
      FilterNone(s[..|s| - 1], keep);
    }
  }

  /** Two filters may be applied in either order. */
  lemma {:induction false} FilterCommute<T>(s: seq<T>, a: T -> bool, b: T -> bool)
    ensures Filter(Filter(s, a), b) == Filter(Filter(s, b), a)
    decreases |s|
  {
    if |s| > 0 {
      var init, x := s[..|s| - 1], s[|s| - 1];
      FilterCommute(init, a, b);
      FilterAppend(Filter(init, a), if a(x) then [x] else [], b);
      FilterAppend(Filter(init, b), if b(x) then [x] else [], a);
      assert [x][..0] == [];
    }
  }

  lemma MapAppend<T, U>(a: seq<T>, b: seq<T>, f: T -> U)
    ensures Map(a + b, f) == Map(a, f) + Map(b, f)
  {
  }

  /** A map that never changes whether an element passes a filter commutes with it. */
  lemma {:induction false} FilterMap<T>(s: seq<T>, f: T -> T, keep: T -> bool)
    requires forall x :: keep(f(x)) == keep(x)
    ensures Filter(Map(s, f), keep) == Map(Filter(s, keep), f)
    decreases |s|
  {
    if |s| > 0 {
      var init, x := s[..|s| - 1], s[|s| - 1];
      var tail := if keep(x) then [x] else [];
      assert s == init + [x];
      MapAppend(init, [x], f);
      FilterSnoc(Map(init, f), f(x), keep);
      FilterMap(init, f, keep);
      FilterSnoc(init, x, keep);
      MapAppend(Filter(init, keep), tail, f);
    }
  }

  /** A filtered sequence keeps strictly increasing keys strictly increasing. */
  lemma {:induction false} FilterIncreasing<T>(s: seq<T>, keep: T -> bool, key: T -> int)
    requires Increasing(s, key)
    ensures Increasing(Filter(s, keep), key)
    decreases |s|
  {
    if |s| > 0 {
      var init := s[..|s| - 1];
      var x := s[|s| - 1];
      FilterIncreasing(init, keep, key);
      var f := Filter(init, keep);
      forall i | 0 <= i < |f|
        ensures key(f[i]) < key(x)
      {
        FilterElement(init, keep, i);
        var j :| 0 <= j < |init| && init[j] == f[i];
      }
    }
  }

  lemma FilterAllBelow<T>(s: seq<T>, keep: T -> bool, key: T -> int, bound: int)
    requires AllBelow(s, key, bound)
    ensures AllBelow(Filter(s, keep), key, bound)
  {
    var f := Filter(s, keep);
    forall i | 0 <= i < |f| ensures key(f[i]) < bound {
      FilterElement(s, keep, i);
      var j :| 0 <= j < |s| && s[j] == f[i];
    }
  }

  /** With distinct keys, removing an existing key drops exactly that element. */
  lemma RemoveByIdExactlyOne<T>(s: seq<T>, key: T -> int, i: nat)
    requires Increasing(s, key)
    requires i < |s|
    ensures RemoveById(s, key, key(s[i])) == s[..i] + s[i + 1..]
    ensures |RemoveById(s, key, key(s[i]))| == |s| - 1
  {
    OthersKept(s, key, i);
    FilterDropsExactlyOne(s, KeyIsNot(key, key(s[i])), i);
  }

  /** A filter that refuses exactly the element at `i` drops that one element. */
  lemma FilterDropsExactlyOne<T>(s: seq<T>, keep: T -> bool, i: nat)
    requires i < |s| && !keep(s[i])
    requires forall j :: 0 <= j < |s| && j != i ==> keep(s[j])
    ensures Filter(s, keep) == s[..i] + s[i + 1..]
    ensures |Filter(s, keep)| == |s| - 1
  {
    var before, after := s[..i], s[i + 1..];
    SplitAt(s, i);
    assert forall j :: 0 <= j < |before| ==> before[j] == s[j];
    assert forall j :: 0 <= j < |after| ==> after[j] == s[i + 1 + j];
    FilterAll(before, keep);
    FilterAll(after, keep);
    FilterDropsOne(before, s[i], after, keep);
  }

  lemma SplitAt<T>(s: seq<T>, i: nat)
    requires i < |s|
    ensures s == s[..i] + [s[i]] + s[i + 1..]
  {
  }

  lemma OthersKept<T>(s: seq<T>, key: T -> int, i: nat)
    requires Increasing(s, key)
    requires i < |s|
    ensures forall j :: 0 <= j < |s| && j != i ==> KeyIsNot(key, key(s[i]))(s[j])
  {
  }

  lemma {:induction false} FilterDropsOne<T>(before: seq<T>, x: T, after: seq<T>, keep: T -> bool)
    requires Filter(before, keep) == before && Filter(after, keep) == after
    requires !keep(x)
    ensures Filter(before + [x] + after, keep) == before + after
  {
    assert Filter([x], keep) == [] by {
      assert [x][..0] == [];
    }
    FilterAppend(before, [x], keep);
    FilterAppend(before + [x], after, keep);
  }

  /** Removing a key that no element carries changes nothing. */
  lemma RemoveAbsentId<T>(s: seq<T>, key: T -> int, k: int)
    requires forall i :: 0 <= i < |s| ==> key(s[i]) != k
    ensures RemoveById(s, key, k) == s
  {
    FilterAll(s, KeyIsNot(key, k));
  }

  lemma ReversedMembers<T>(s: seq<T>)
    ensures forall x :: x in Reversed(s) <==> x in s
  {
    forall x | x in s ensures x in Reversed(s) {
      var i :| 0 <= i < |s| && s[i] == x;
      assert Reversed(s)[|s| - 1 - i] == x;
    }
  }

  /** Removing the key of the last element leaves everything before it. */
  lemma RemoveLastKey<T>(s: seq<T>, key: T -> int)
    requires Increasing(s, key)
    requires |s| > 0
    ensures RemoveById(s, key, key(Last(s))) == s[..|s| - 1]
  {
    var n := |s| - 1;
    RemoveByIdExactlyOne(s, key, n);
    assert s[..n] + s[n + 1..] == s[..n];
  }

  /** Removing a key the last element does not carry keeps that element last. */
  lemma RemoveKeepsLast<T>(s: seq<T>, key: T -> int, k: int)
    requires |s| > 0 && key(Last(s)) != k
    ensures RemoveById(s, key, k) == RemoveById(s[..|s| - 1], key, k) + [Last(s)]
  {
    assert s == s[..|s| - 1] + [Last(s)];
    FilterSnoc(s[..|s| - 1], Last(s), KeyIsNot(key, k));
  }

  lemma ReversedAppend<T>(a: seq<T>, b: seq<T>)
    ensures Reversed(a + b) == Reversed(b) + Reversed(a)
  {
  }

  lemma ReversedSnoc<T>(s: seq<T>, x: T)
    ensures Reversed(s + [x]) == [x] + Reversed(s)
  {
    ReversedAppend(s, [x]);
    assert Reversed([x]) == [x];
  }

  lemma MapReversed<T, U>(s: seq<T>, f: T -> U)
    ensures Reversed(Map(s, f)) == Map(Reversed(s), f)
  {
  }

  /** Filtering commutes with reversal. */
  lemma {:induction false} FilterReversed<T>(s: seq<T>, keep: T -> bool)
    ensures Filter(Reversed(s), keep) == Reversed(Filter(s, keep))
    decreases |s|
  {
    if |s| > 0 {
      var init, x := s[..|s| - 1], s[|s| - 1];
      var tail := if keep(x) then [x] else [];
      assert s == init + [x];
      ReversedAppend(init, [x]);
      assert Reversed([x]) == [x];
      FilterReversed(init, keep);
      FilterAppend([x], Reversed(init), keep);
      assert Filter([x], keep) == tail by {
        assert [x][..0] == [];
      }
      FilterSnoc(init, x, keep);
      ReversedAppend(Filter(init, keep), tail);
      assert Reversed(tail) == tail;
    }
  }

  /** Replacing by key commutes with reversal. */
  lemma ReplaceReversed<T>(s: seq<T>, key: T -> int, k: int, x: T)
    ensures ReplaceById(Reversed(s), key, k, x) == Reversed(ReplaceById(s, key, k, x))
  {
  }

  /** The first `n` of the newest-first order, put back in ascending order, are
      the `n` newest elements in ascending order. */
  lemma ReversedTakeReversed<T>(s: seq<T>, n: nat)
    ensures Reversed(Take(Reversed(s), n)) == Newest(s, n)
  {
    var m := Min(n, |s|);
    var t := Take(Reversed(s), n);
    assert |t| == m;
    forall i | 0 <= i < m ensures Reversed(t)[i] == Newest(s, n)[i] {
      assert Reversed(t)[i] == t[m - 1 - i];
      assert t[m - 1 - i] == Reversed(s)[m - 1 - i];
      assert Reversed(s)[m - 1 - i] == s[|s| - m + i];
    }
  }
}
