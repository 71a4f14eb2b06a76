/**
 The re-sort the runner loop performs after every iteration: the activity list is
 ordered by next-fire timestamp with a stable sort, so activities due at the same
 instant keep the relative order they had before.

 Stability is stated per instant: for every timestamp `k`, the activities due at `k`
 appear in the sorted list in exactly the order the unsorted list gave them
 (`DueAt`). A sorted list is fully determined by these per-instant orders, so the
 sort computed here is the only stable sort there is (`StableSortCharacterised`).
 */
module EventOrder {
  import opened Events

  /** `s` is ordered by non-decreasing next-fire timestamp. */
  predicate SortedBy(s: seq<Event>, t: Ticks) {
    forall i, j :: 0 <= i < j < |s| ==> t.At(s[i]) <= t.At(s[j])
  }

  /** The activities of `s` due at instant `k`, in the order `s` lists them. */
  function DueAt(s: seq<Event>, t: Ticks, k: int): seq<Event> {
    if |s| == 0 then []
    else (if t.At(s[0]) == k then [s[0]] else []) + DueAt(s[1..], t, k)
  }

  /** `r` is `s` stably sorted by the timestamps `t`. */
  ghost predicate IsStableSortOf(r: seq<Event>, s: seq<Event>, t: Ticks) {
    && SortedBy(r, t)
    && multiset(r) == multiset(s)
    && forall k :: DueAt(r, t, k) == DueAt(s, t, k)
  }

  /** Prepending one activity adds it in front of the activities due at its own instant only. */
  lemma DueAtCons(e: Event, s: seq<Event>, t: Ticks, k: int)
    ensures DueAt([e] + s, t, k) == (if t.At(e) == k then [e] else []) + DueAt(s, t, k)
  {
  }

  /**
   Inserts `e` in front of the first activity due no earlier than `e`: every activity
   it passes is due strictly earlier, which is what keeps the insertion stable.
   */
  function Insert(e: Event, s: seq<Event>, t: Ticks): (r: seq<Event>)
    ensures multiset(r) == multiset(s) + multiset{e}
    decreases |s|
  {
    if |s| == 0 then [e]
    else if t.At(e) <= t.At(s[0]) then [e] + s
    else
      assert s == [s[0]] + s[1..];
      [s[0]] + Insert(e, s[1..], t)
  }

  /** Inserting into a sorted list yields a sorted list. */
  lemma {:induction false} InsertKeepsSorted(e: Event, s: seq<Event>, t: Ticks)
    requires SortedBy(s, t)
    ensures SortedBy(Insert(e, s, t), t)
    decreases |s|
  {
    if |s| > 0 && t.At(e) > t.At(s[0]) {
      var tail := Insert(e, s[1..], t);
      InsertKeepsSorted(e, s[1..], t);
      var r := [s[0]] + tail;
      forall j | 0 < j < |r|
        ensures t.At(r[0]) <= t.At(r[j])
      {
        assert r[j] in multiset(tail);
        assert r[j] in multiset(s[1..]) + multiset{e};
        if r[j] != e {
          var m :| 0 <= m < |s[1..]| && s[1..][m] == r[j];
          assert s[m + 1] == r[j];
        }
      }
      assert SortedBy(r, t);
    }
  }

  /** Insertion keeps the order of the activities due at every instant, `e` first among its own. */
  lemma {:induction false} InsertIsStable(e: Event, s: seq<Event>, t: Ticks, k: int)
    ensures DueAt(Insert(e, s, t), t, k) == DueAt([e] + s, t, k)
    decreases |s|
  {
    if |s| > 0 && t.At(e) > t.At(s[0]) {
      var tail := Insert(e, s[1..], t);
      assert Insert(e, s, t) == [s[0]] + tail;
      var hs := if t.At(s[0]) == k then [s[0]] else [];
      var he := if t.At(e) == k then [e] else [];
      // `e` is due strictly later than `s[0]`, so at most one of them is due at `k`
      assert hs == [] || he == [];
      calc {
        DueAt(Insert(e, s, t), t, k);
        { DueAtCons(s[0], tail, t, k); }
        hs + DueAt(tail, t, k);
        { InsertIsStable(e, s[1..], t, k); DueAtCons(e, s[1..], t, k); }
        hs + (he + DueAt(s[1..], t, k));
        he + (hs + DueAt(s[1..], t, k));
        { assert s == [s[0]] + s[1..]; DueAtCons(s[0], s[1..], t, k); }
        he + DueAt(s, t, k);
        { DueAtCons(e, s, t, k); }
        DueAt([e] + s, t, k);
      }
    }
  }

  /** Stable insertion sort of the activity list by next-fire timestamp. */
  function SortByTick(s: seq<Event>, t: Ticks): (r: seq<Event>)
    ensures IsStableSortOf(r, s, t)
    decreases |s|
  {
    if |s| == 0 then []
    else
      var rest := SortByTick(s[1..], t);
      assert s == [s[0]] + s[1..];
      InsertKeepsSorted(s[0], rest, t);
      assert forall k :: DueAt(Insert(s[0], rest, t), t, k) == DueAt(s, t, k) by {
        forall k
          ensures DueAt(Insert(s[0], rest, t), t, k) == DueAt(s, t, k)
        {
          InsertIsStable(s[0], rest, t, k);
          DueAtCons(s[0], rest, t, k);
          DueAtCons(s[0], s[1..], t, k);
        }
      }
      Insert(s[0], rest, t)
  }

  /** Nothing is due at an instant earlier than every timestamp of the list. */
  lemma {:induction false} NoneDueBelow(s: seq<Event>, t: Ticks, k: int)
    requires forall i :: 0 <= i < |s| ==> k < t.At(s[i])
    ensures DueAt(s, t, k) == []
    decreases |s|
  {
    if |s| > 0 {
      NoneDueBelow(s[1..], t, k);
    }
  }

  /** The head of a non-empty list leads the activities due at its own instant. */
  lemma HeadLeadsItsInstant(s: seq<Event>, t: Ticks)
    ensures |s| > 0 ==> DueAt(s, t, t.At(s[0])) != [] && DueAt(s, t, t.At(s[0]))[0] == s[0]
  {
  }

  /**
   Two lists sorted by the same timestamps, agreeing on the order of the activities due
   at every instant, are the same list.
   */
  lemma {:induction false} StableSortIsUnique(a: seq<Event>, b: seq<Event>, t: Ticks)
    requires SortedBy(a, t) && SortedBy(b, t)
    requires forall k :: DueAt(a, t, k) == DueAt(b, t, k)
    ensures a == b
    decreases |a|
  {
    HeadLeadsItsInstant(a, t);
    HeadLeadsItsInstant(b, t);
    if |a| > 0 && |b| > 0 {
      var ka, kb := t.At(a[0]), t.At(b[0]);
      if ka < kb {
        NoneDueBelow(b, t, ka);
      } else if kb < ka {
        NoneDueBelow(a, t, kb);
      }
      assert ka == kb;
      assert a[0] == b[0];
      forall k
        ensures DueAt(a[1..], t, k) == DueAt(b[1..], t, k)
      {
        var head := if ka == k then [a[0]] else [];
        assert DueAt(a, t, k) == head + DueAt(a[1..], t, k);
        assert DueAt(b, t, k) == head + DueAt(b[1..], t, k);
        assert DueAt(a[1..], t, k) == DueAt(a, t, k)[|head|..];
        assert DueAt(b[1..], t, k) == DueAt(b, t, k)[|head|..];
      }
      StableSortIsUnique(a[1..], b[1..], t);
      assert a == [a[0]] + a[1..];
      assert b == [b[0]] + b[1..];
    }
  }

  /**
   The sort computed by `SortByTick` is exactly the stable sort: a list is a stable sort
   of `s` if and only if it is the one `SortByTick` returns.
   */
  lemma StableSortCharacterised(r: seq<Event>, s: seq<Event>, t: Ticks)
    ensures IsStableSortOf(r, s, t) <==> r == SortByTick(s, t)
  {
    if IsStableSortOf(r, s, t) {
      StableSortIsUnique(r, SortByTick(s, t), t);
    }
  }

  /** The head of a sorted non-empty list is due no later than any activity of the list. */
  lemma SortedHeadIsEarliest(s: seq<Event>, t: Ticks)
    requires SortedBy(s, t) && |s| > 0
    ensures forall e :: e in s ==> t.At(s[0]) <= t.At(e)
  {
  }
}
