/**
 * Generic list operations the ORM relies on, stated once: LINQ's Where and
 * First, List<T>.Remove (first occurrence), and the effect of removing a
 * series of items one after another.
 */
module Sequences {
  import opened Wrappers

  /** a can be obtained from b by deleting elements: a keeps b's order. */
  predicate IsSubsequence<T(==)>(a: seq<T>, b: seq<T>)
    decreases |b|
  {
    a == [] || (b != [] && ((a[0] == b[0] && IsSubsequence(a[1..], b[1..])) || IsSubsequence(a, b[1..])))
  }

  /** LINQ's Where: the elements satisfying p, in their original order (FilterSelects states the rest). */
  function Filter<T(==)>(s: seq<T>, p: T -> bool): (r: seq<T>)
    ensures forall x :: x in r ==> x in s && p(x)
    ensures |r| <= |s|
  {
    if s == [] then []
    else
      var rest := Filter(s[1..], p);
      if p(s[0]) then [s[0]] + rest else rest
  }

  /**
   * Filter keeps every element satisfying p as often as it occurs, drops
   * every other, and keeps the original order.
   */
  lemma {:induction false} FilterSelects<T>(s: seq<T>, p: T -> bool)
    ensures forall x :: x in s ==> multiset(Filter(s, p))[x] == if p(x) then multiset(s)[x] else 0
    ensures forall x :: x in s && p(x) ==> x in Filter(s, p)
    ensures IsSubsequence(Filter(s, p), s)
  {
    if s != [] {
      FilterSelects(s[1..], p);
      var rest := Filter(s[1..], p);
      assert s == [s[0]] + s[1..];
      if p(s[0]) {
        assert ([s[0]] + rest)[0] == s[0] && ([s[0]] + rest)[1..] == rest;
      }
    }
  }

  /** LINQ's First with a predicate: the index of the first element satisfying p, if any. */
  function FindIndex<T>(s: seq<T>, p: T -> bool): (r: Option<nat>)
    ensures r.Some? ==> r.value < |s| && p(s[r.value]) && forall j :: 0 <= j < r.value ==> !p(s[j])
    ensures r.None? <==> forall j :: 0 <= j < |s| ==> !p(s[j])
  {
    if s == [] then None
    else if p(s[0]) then Some(0)
    else match FindIndex(s[1..], p)
      case None => None
      case Some(i) => Some(i + 1)
  }

  /** The index of the first occurrence of x. */
  function IndexOf<T(==)>(s: seq<T>, x: T): (i: nat)
    requires x in s
    ensures i < |s| && s[i] == x && forall k :: 0 <= k < i ==> s[k] != x
  {
    if s[0] == x then 0 else IndexOf(s[1..], x) + 1
  }

  /** An occurrence with none before it is the first one. */
  lemma IndexOfFirst<T>(s: seq<T>, x: T, i: nat)
    requires i < |s| && s[i] == x && x !in s[..i]
    ensures IndexOf(s, x) == i
  {
  }

  /** List<T>.Remove: deletes the first occurrence of x, if there is one. */
  function RemoveFirst<T(==)>(s: seq<T>, x: T): (r: seq<T>)
    ensures x !in s ==> r == s
    ensures x in s ==> |r| == |s| - 1
    ensures forall y :: y in r ==> y in s
  {
    if s == [] then []
    else if s[0] == x then s[1..]
    else [s[0]] + RemoveFirst(s[1..], x)
  }

  /** Exactly one copy of x goes, and nothing else. */
  lemma {:induction false} RemoveFirstMultiset<T>(s: seq<T>, x: T)
    ensures multiset(RemoveFirst(s, x)) == multiset(s) - multiset{x}
  {
    if s != [] {
      assert s == [s[0]] + s[1..];
      if s[0] != x {
        RemoveFirstMultiset(s[1..], x);
      }
    }
  }

  /** Only the first occurrence goes: everything before it and after it stays, in order. */
  lemma {:induction false} RemoveFirstSplits<T>(s: seq<T>, x: T, i: nat)
    requires i < |s| && s[i] == x && x !in s[..i]
    ensures RemoveFirst(s, x) == s[..i] + s[i + 1..]
    decreases i
  {
    if i == 0 {
      assert s[..0] + s[1..] == s[1..];
    } else {
      var t := s[1..];
      assert s[0] != x by {
        assert s[..i][0] == s[0];
      }
      assert t[..i - 1] == s[..i][1..];
      RemoveFirstSplits(t, x, i - 1);
      assert s[..i] == [s[0]] + t[..i - 1];
      assert s[i + 1..] == t[i..];
      assert [s[0]] + (t[..i - 1] + t[i..]) == ([s[0]] + t[..i - 1]) + t[i..];
    }
  }

  /** Removing the first element of a list removes exactly its head. */
  lemma RemoveFirstOfHead<T>(s: seq<T>)
    requires s != []
    ensures RemoveFirst(s, s[0]) == s[1..]
  {
  }

  /**
   * Removes each item of `items` in turn, skipping those not present at their
   * turn. Yields what remains and the items actually removed, in order.
   */
  function RemoveEach<T(==)>(s: seq<T>, items: seq<T>): (r: (seq<T>, seq<T>))
    ensures |r.0| + |r.1| == |s|
    decreases |items|
  {
    if items == [] then (s, [])
    else if items[0] in s then
      var next := RemoveEach(RemoveFirst(s, items[0]), items[1..]);
      (next.0, [items[0]] + next.1)
    else
      RemoveEach(s, items[1..])
  }

  /**
   * Nothing is lost or invented: what remains and what was removed together
   * are the original elements, and the removed ones are items, in order.
   */
  lemma {:induction false} RemoveEachAccounts<T>(s: seq<T>, items: seq<T>)
    ensures multiset(RemoveEach(s, items).0) + multiset(RemoveEach(s, items).1) == multiset(s)
    ensures IsSubsequence(RemoveEach(s, items).1, items)
    decreases |items|
  {
    if items != [] {
      if items[0] in s {
        var t := RemoveFirst(s, items[0]);
        RemoveFirstMultiset(s, items[0]);
        RemoveEachAccounts(t, items[1..]);
        var next := RemoveEach(t, items[1..]);
        assert RemoveEach(s, items) == (next.0, [items[0]] + next.1);
        assert ([items[0]] + next.1)[1..] == next.1;
        assert multiset([items[0]] + next.1) == multiset{items[0]} + multiset(next.1);
        assert multiset(s) - multiset{items[0]} + multiset{items[0]} == multiset(s);
      } else {
        RemoveEachAccounts(s, items[1..]);
      }
    }
  }

  /** Removing one more item acts on what the earlier removals left. */
  lemma {:induction false} RemoveEachStep<T>(s: seq<T>, items: seq<T>, x: T)
    ensures RemoveEach(s, items + [x]).0 == RemoveFirst(RemoveEach(s, items).0, x)
    ensures RemoveEach(s, items + [x]).1
      == if x in RemoveEach(s, items).0 then RemoveEach(s, items).1 + [x] else RemoveEach(s, items).1
    decreases |items|
  {
    if items == [] {
      assert items + [x] == [x] && [x][1..] == [];
      if x in s {
        assert RemoveEach(RemoveFirst(s, x), []) == (RemoveFirst(s, x), []);
        assert [x] + [] == [x];
        assert RemoveEach(s, [x]) == (RemoveFirst(s, x), [x]);
      } else {
        assert RemoveEach(s, [x]) == (s, []);
      }
    } else {
      assert (items + [x])[1..] == items[1..] + [x];
      if items[0] in s {
        RemoveEachStep(RemoveFirst(s, items[0]), items[1..], x);
        var gone := RemoveEach(RemoveFirst(s, items[0]), items[1..]).1;
        assert [items[0]] + (gone + [x]) == ([items[0]] + gone) + [x];
      } else {
        RemoveEachStep(s, items[1..], x);
      }
    }
  }

  /** Removing every element of a list, front to back, empties it and removes them in order. */
  lemma {:induction false} RemoveEachOfItself<T>(s: seq<T>)
    ensures RemoveEach(s, s) == ([], s)
  {
    if s != [] {
      RemoveFirstOfHead(s);
      RemoveEachOfItself(s[1..]);
      assert [s[0]] + s[1..] == s;
    }
  }

  /** Items that are absent are ignored: removing only absent items changes nothing. */
  lemma {:induction false} RemoveEachAbsent<T>(s: seq<T>, items: seq<T>)
    requires forall x :: x in items ==> x !in s
    ensures RemoveEach(s, items) == (s, [])
    decreases |items|
  {
    if items != [] {
      assert items[0] in items;
      RemoveEachAbsent(s, items[1..]);
    }
  }

  /** The lists of ss one after another. */
  function Concat<T>(ss: seq<seq<T>>): (r: seq<T>)
    decreases |ss|
  {
    if ss == [] then [] else Concat(ss[..|ss| - 1]) + ss[|ss| - 1]
  }

  /** ss[i] occurs in Concat(ss) right after the lists before it, and right before those after it. */
  lemma {:induction false} ConcatSegment<T>(ss: seq<seq<T>>, i: nat)
    requires i < |ss|
    ensures var start := |Concat(ss[..i])|;
      && start + |ss[i]| == |Concat(ss[..i + 1])| <= |Concat(ss)|
      && Concat(ss)[start..start + |ss[i]|] == ss[i]
    decreases |ss|
  {
    var init := ss[..|ss| - 1];
    assert ss[..i + 1][..i] == ss[..i];
    if i < |ss| - 1 {
      ConcatSegment(init, i);
      assert init[..i] == ss[..i] && init[..i + 1] == ss[..i + 1] && init[i] == ss[i];
      var start := |Concat(ss[..i])|;
      assert Concat(ss)[start..start + |ss[i]|] == Concat(init)[start..start + |ss[i]|];
    } else {
      assert ss[..i] == init && ss[..i + 1] == ss;
      assert Concat(ss)[|Concat(init)|..] == ss[i];
    }
  }

  /** Every element of Concat(ss) comes from one of the lists. */
  lemma {:induction false} ConcatMembers<T>(ss: seq<seq<T>>)
    ensures forall x :: x in Concat(ss) ==> exists i :: 0 <= i < |ss| && x in ss[i]
    decreases |ss|
  {
    if ss != [] {
      var init := ss[..|ss| - 1];
      ConcatMembers(init);
      forall x | x in Concat(ss)
        ensures exists i :: 0 <= i < |ss| && x in ss[i]
      {
        if x in Concat(init) {
          var i :| 0 <= i < |init| && x in init[i];
          assert ss[i] == init[i];
        } else {
          assert x in ss[|ss| - 1];
        }
      }
    }
  }

  /** Concatenation splits at any index: the lists before it, then the lists from it on. */
  lemma {:induction false} ConcatSplit<T>(ss: seq<seq<T>>, j: nat)
    requires j <= |ss|
    ensures Concat(ss) == Concat(ss[..j]) + Concat(ss[j..])
    decreases |ss|
  {
    if j == |ss| {
      assert ss[..j] == ss && ss[j..] == [];
    } else {
      var init := ss[..|ss| - 1];
      ConcatSplit(init, j);
      assert init[..j] == ss[..j] && init[j..] == ss[j..][..|ss[j..]| - 1];
      assert ss[j..][|ss[j..]| - 1] == ss[|ss| - 1];
    }
  }
}
