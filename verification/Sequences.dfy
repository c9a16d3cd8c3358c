/** Row-by-row collection and stable sorting, with the facts the network description rests on. */
module Sequences {

  /** Each row contributes zero or more elements, in row order. */
  function Collect<A, B>(rows: seq<A>, rule: A -> seq<B>): seq<B>
    decreases |rows|
  {
    if rows == [] then [] else Collect(rows[..|rows| - 1], rule) + rule(rows[|rows| - 1])
  }

  lemma {:induction false} CollectIn<A, B>(rows: seq<A>, rule: A -> seq<B>, y: B)
    ensures y in Collect(rows, rule) <==> exists x :: x in rows && y in rule(x)
    decreases |rows|
  {
    if rows != [] {
      var front, last := rows[..|rows| - 1], rows[|rows| - 1];
      assert rows == front + [last];
      CollectIn(front, rule, y);
      if y in rule(last) {
        assert last in rows && y in rule(last);
      }
      if x :| x in front && y in rule(x) {
        assert x in rows && y in rule(x);
      }
    }
  }

  lemma {:induction false} CollectConcat<A, B>(a: seq<A>, b: seq<A>, rule: A -> seq<B>)
    ensures Collect(a + b, rule) == Collect(a, rule) + Collect(b, rule)
    decreases |b|
  {
    if b == [] {
      assert a + b == a;
    } else {
      assert (a + b)[..|a + b| - 1] == a + b[..|b| - 1];
      CollectConcat(a, b[..|b| - 1], rule);
    }
  }

  /** Only what the rule says about the rows matters. */
  lemma {:induction false} CollectSame<A, B>(rows: seq<A>, rule: A -> seq<B>, other: A -> seq<B>)
    requires forall x :: x in rows ==> rule(x) == other(x)
    ensures Collect(rows, rule) == Collect(rows, other)
    decreases |rows|
  {
    if rows != [] {
      CollectSame(rows[..|rows| - 1], rule, other);
    }
  }

  lemma CollectOne<A, B>(x: A, rule: A -> seq<B>)
    ensures Collect([x], rule) == rule(x)
  {
    assert [x][..0] == [];
  }

  /** A row in the middle contributes its own elements and nothing else. */
  lemma CollectAround<A, B>(before: seq<A>, x: A, after: seq<A>, rule: A -> seq<B>)
    ensures multiset(Collect(before + [x] + after, rule)) == multiset(Collect(before + after, rule)) + multiset(rule(x))
  {
    CollectConcat(before + [x], after, rule);
    CollectConcat(before, [x], rule);
    CollectConcat(before, after, rule);
    CollectOne(x, rule);
  }

  /** An element of a permutation can be taken out of it. */
  lemma TakeOut<A>(front: seq<A>, x: A, b: seq<A>) returns (before: seq<A>, after: seq<A>)
    requires multiset(front + [x]) == multiset(b)
    ensures b == before + [x] + after && multiset(before + after) == multiset(front)
  {
    assert x in multiset(b);
    var k :| 0 <= k < |b| && b[k] == x;
    before, after := b[..k], b[k + 1..];
    assert b == before + [x] + after;
    assert multiset(b) == multiset(before + after) + multiset{x};
    assert multiset(front + [x]) == multiset(front) + multiset{x};
    assert multiset(front) == multiset(b) - multiset{x};
  }

  /** The rows in another order contribute the same elements. */
  lemma {:induction false} CollectPermuted<A, B>(a: seq<A>, b: seq<A>, rule: A -> seq<B>)
    requires multiset(a) == multiset(b)
    ensures multiset(Collect(a, rule)) == multiset(Collect(b, rule))
    decreases |a|
  {
    if a == [] {
      assert |multiset(b)| == 0;
      assert b == [];
    } else {
      var x, front := a[|a| - 1], a[..|a| - 1];
      assert a == front + [x];
      var before, after := TakeOut(front, x, b);
      CollectPermuted(front, before + after, rule);
      CollectAround(before, x, after, rule);
    }
  }

  ghost predicate SortedBy<T(!new)>(s: seq<T>, key: T -> int) {
    forall i, j :: 0 <= i < j < |s| ==> key(s[i]) <= key(s[j])
  }

  /** Equal keys keep their order: the new element goes after them. */
  function Insert<T>(s: seq<T>, x: T, key: T -> int): seq<T>
    decreases |s|
  {
    if s == [] || key(s[|s| - 1]) <= key(x) then s + [x]
    else Insert(s[..|s| - 1], x, key) + [s[|s| - 1]]
  }

  /** A stable sort. */
  function SortBy<T>(s: seq<T>, key: T -> int): seq<T>
    decreases |s|
  {
    if s == [] then [] else Insert(SortBy(s[..|s| - 1], key), s[|s| - 1], key)
  }

  lemma {:induction false} InsertAdds<T>(s: seq<T>, x: T, key: T -> int)
    ensures multiset(Insert(s, x, key)) == multiset(s) + multiset{x}
    decreases |s|
  {
    if !(s == [] || key(s[|s| - 1]) <= key(x)) {
      InsertAdds(s[..|s| - 1], x, key);
      assert s == s[..|s| - 1] + [s[|s| - 1]];
    }
  }

  lemma {:induction false} InsertStaysBelow<T>(s: seq<T>, x: T, key: T -> int, bound: int)
    requires key(x) <= bound && forall i :: 0 <= i < |s| ==> key(s[i]) <= bound
    ensures forall i :: 0 <= i < |Insert(s, x, key)| ==> key(Insert(s, x, key)[i]) <= bound
    decreases |s|
  {
    if !(s == [] || key(s[|s| - 1]) <= key(x)) {
      InsertStaysBelow(s[..|s| - 1], x, key, bound);
    }
  }

  lemma {:induction false} InsertSorts<T(!new)>(s: seq<T>, x: T, key: T -> int)
    requires SortedBy(s, key)
    ensures SortedBy(Insert(s, x, key), key)
    decreases |s|
  {
    if s == [] || key(s[|s| - 1]) <= key(x) {
      assert forall i :: 0 <= i < |s| ==> key(s[i]) <= key(x);
    } else {
      var front, last := s[..|s| - 1], s[|s| - 1];
      InsertSorts(front, x, key);
      InsertStaysBelow(front, x, key, key(last));
    }
  }

  lemma {:induction false} SortKeeps<T(!new)>(s: seq<T>, key: T -> int)
    ensures SortedBy(SortBy(s, key), key)
    ensures multiset(SortBy(s, key)) == multiset(s)
    decreases |s|
  {
    if s != [] {
      assert s == s[..|s| - 1] + [s[|s| - 1]];
      SortKeeps(s[..|s| - 1], key);
      InsertAdds(SortBy(s[..|s| - 1], key), s[|s| - 1], key);
      InsertSorts(SortBy(s[..|s| - 1], key), s[|s| - 1], key);
    }
  }

  lemma SortedMembers<T(!new)>(s: seq<T>, key: T -> int, x: T)
    ensures x in SortBy(s, key) <==> x in s
  {
    SortKeeps(s, key);
    assert x in s <==> x in multiset(s);
    assert x in SortBy(s, key) <==> x in multiset(SortBy(s, key));
  }

  /** The key tells the elements of the list apart. */
  ghost predicate TellsApart<T(!new)>(s: seq<T>, key: T -> int) {
    forall i, j :: 0 <= i < |s| && 0 <= j < |s| && key(s[i]) == key(s[j]) ==> s[i] == s[j]
  }

  lemma SameLast<T(!new)>(a: seq<T>, b: seq<T>, key: T -> int)
    requires SortedBy(a, key) && SortedBy(b, key) && multiset(a) == multiset(b) && a != [] && b != []
    requires TellsApart(a, key)
    ensures a[|a| - 1] == b[|b| - 1]
  {
    var x, y := a[|a| - 1], b[|b| - 1];
    assert x in multiset(b) && y in multiset(a);
    var i :| 0 <= i < |b| && b[i] == x;
    var j :| 0 <= j < |a| && a[j] == y;
    assert key(b[i]) <= key(y) && key(a[j]) <= key(x);
  }

  lemma DropLast<T>(s: seq<T>)
    requires s != []
    ensures multiset(s[..|s| - 1]) == multiset(s) - multiset{s[|s| - 1]}
  {
    assert s == s[..|s| - 1] + [s[|s| - 1]];
  }

  /** A key that tells the elements apart leaves only one sorted order. */
  lemma {:induction false} SortedIsUnique<T(!new)>(a: seq<T>, b: seq<T>, key: T -> int)
    requires SortedBy(a, key) && SortedBy(b, key) && multiset(a) == multiset(b)
    requires TellsApart(a, key)
    ensures a == b
    decreases |a|
  {
    assert |a| == |multiset(a)| == |multiset(b)| == |b|;
    if a != [] {
      SameLast(a, b, key);
      var front, front' := a[..|a| - 1], b[..|b| - 1];
      DropLast(a);
      DropLast(b);
      SortedIsUnique(front, front', key);
    }
  }

  /** Sorting the same elements in any order gives the same list. */
  lemma SortPermuted<T(!new)>(a: seq<T>, b: seq<T>, key: T -> int)
    requires multiset(a) == multiset(b)
    requires TellsApart(a, key)
    ensures SortBy(a, key) == SortBy(b, key)
  {
    SortKeeps(a, key);
    SortKeeps(b, key);
    var sorted := SortBy(a, key);
    forall i, j | 0 <= i < |sorted| && 0 <= j < |sorted| && key(sorted[i]) == key(sorted[j])
      ensures sorted[i] == sorted[j]
    {
      SortedMembers(a, key, sorted[i]);
      SortedMembers(a, key, sorted[j]);
    }
    SortedIsUnique(SortBy(a, key), SortBy(b, key), key);
  }
}
