/** The final ordering of the kept circles: a stable sort by the key (y, x),
    top to bottom, then left to right. */
module Ordering {
  import opened Circles

  /** `a` comes no later than `b` in (y, x) order. */
  predicate PositionLe(a: Circle, b: Circle)
  {
    a.y < b.y || (a.y == b.y && a.x <= b.x)
  }

  /** `a` comes strictly before `b` in (y, x) order. */
  predicate PositionLt(a: Circle, b: Circle)
  {
    a.y < b.y || (a.y == b.y && a.x < b.x)
  }

  predicate SortedByPosition(s: seq<Circle>)
  {
    forall i, j :: 0 <= i < j < |s| ==> PositionLe(s[i], s[j])
  }

  /** The circles of `s` whose sort key is (y, x), in their order in `s`. */
  function WithKey(s: seq<Circle>, y: int, x: int): seq<Circle>
  {
    if s == [] then []
    else
      var last := s[|s| - 1];
      WithKey(s[..|s| - 1], y, x) + if last.y == y && last.x == x then [last] else []
  }

  /** Inserts `c` after every element of `t` that does not sort strictly after
      it, scanning from the back; equal keys keep `c` behind them. */
  function Insert(t: seq<Circle>, c: Circle): (r: seq<Circle>)
    ensures multiset(r) == multiset(t) + multiset{c}
    ensures |r| == |t| + 1
  {
    if t == [] || !PositionLt(c, t[|t| - 1]) then t + [c]
    else
      var init := t[..|t| - 1];
      assert t == init + [t[|t| - 1]];
      Insert(init, c) + [t[|t| - 1]]
  }

  /** `list.sort(key=lambda c: (c.y, c.x))`, as insertion of each element in
      turn into the sorted prefix. */
  function SortByPosition(s: seq<Circle>): seq<Circle>
  {
    if s == [] then [] else Insert(SortByPosition(s[..|s| - 1]), s[|s| - 1])
  }

  lemma {:induction false} InsertSorted(t: seq<Circle>, c: Circle)
    requires SortedByPosition(t)
    ensures SortedByPosition(Insert(t, c))
  {
    if t != [] && PositionLt(c, t[|t| - 1]) {
      var init, last := t[..|t| - 1], t[|t| - 1];
      InsertSorted(init, c);
      var r := Insert(init, c);
      forall e | e in r ensures PositionLe(e, last) {
        InsertMember(init, c, e);
        if e != c {
          var j :| 0 <= j < |init| && init[j] == e;
          assert t[j] == e;
        }
      }
      SortedAppend(r, last);
    }
  }

  /** A circle of an insertion is the inserted one or one of the list. */
  lemma InsertMember(t: seq<Circle>, c: Circle, e: Circle)
    requires e in Insert(t, c)
    ensures e in t || e == c
  {
    assert e in multiset(Insert(t, c));
  }

  /** A sorted list stays sorted when a circle that sorts after all of it is
      appended. */
  lemma SortedAppend(r: seq<Circle>, last: Circle)
    requires SortedByPosition(r)
    requires forall e :: e in r ==> PositionLe(e, last)
    ensures SortedByPosition(r + [last])
  {
    var q := r + [last];
    forall i, j | 0 <= i < j < |q| ensures PositionLe(q[i], q[j]) {
      if j == |r| {
        assert q[i] in r;
      }
    }
  }

  lemma {:induction false} InsertStable(t: seq<Circle>, c: Circle, y: int, x: int)
    ensures WithKey(Insert(t, c), y, x) == WithKey(t, y, x) + if c.y == y && c.x == x then [c] else []
  {
    var r := Insert(t, c);
    if t == [] || !PositionLt(c, t[|t| - 1]) {
      assert r[..|r| - 1] == t;
    } else {
      var init, last := t[..|t| - 1], t[|t| - 1];
      InsertStable(init, c, y, x);
      assert r[..|r| - 1] == Insert(init, c);
    }
  }

  /** The sort returns a sorted permutation of its input. */
  lemma {:induction false} SortByPositionSortedPermutation(s: seq<Circle>)
    ensures SortedByPosition(SortByPosition(s))
    ensures multiset(SortByPosition(s)) == multiset(s)
    ensures |SortByPosition(s)| == |s|
  {
    if s != [] {
      var init := s[..|s| - 1];
      assert s == init + [s[|s| - 1]];
      SortByPositionSortedPermutation(init);
      InsertSorted(SortByPosition(init), s[|s| - 1]);
    }
  }

  /** The sort is stable: the circles sharing any one key keep their input
      order. */
  lemma {:induction false} SortByPositionStable(s: seq<Circle>, y: int, x: int)
    ensures WithKey(SortByPosition(s), y, x) == WithKey(s, y, x)
  {
    if s != [] {
      var init := s[..|s| - 1];
      SortByPositionStable(init, y, x);
      InsertStable(SortByPosition(init), s[|s| - 1], y, x);
    }
  }

  /** The circles with one key in two runs of circles, one after the other, are
      those of the first run followed by those of the second. */
  lemma {:induction false} WithKeyAppend(a: seq<Circle>, b: seq<Circle>, y: int, x: int)
    ensures WithKey(a + b, y, x) == WithKey(a, y, x) + WithKey(b, y, x)
    decreases |b|
  {
    if b == [] {
      assert a + b == a;
    } else {
      var init := b[..|b| - 1];
      assert (a + b)[..|a + b| - 1] == a + init;
      WithKeyAppend(a, init, y, x);
    }
  }

  lemma {:induction false} WithKeyMembers(s: seq<Circle>, e: Circle)
    ensures e in s <==> e in WithKey(s, e.y, e.x)
  {
    if s != [] {
      var init := s[..|s| - 1];
      assert s == init + [s[|s| - 1]];
      WithKeyMembers(init, e);
    }
  }

  /** A stable sort by (y, x) has only one possible result: any sorted list
      with the same circles per key, in the same order per key, is exactly
      the result of SortByPosition. */
  lemma {:induction false} StableSortIsUnique(s: seq<Circle>, r: seq<Circle>)
    requires SortedByPosition(r)
    requires forall y, x :: WithKey(r, y, x) == WithKey(s, y, x)
    ensures r == SortByPosition(s)
  {
    var q := SortByPosition(s);
    SortByPositionSortedPermutation(s);
    forall y, x ensures WithKey(r, y, x) == WithKey(q, y, x) {
      SortByPositionStable(s, y, x);
    }
    SortedSameKeyGroupsEqual(r, q);
  }

  lemma {:induction false} SortedSameKeyGroupsEqual(r: seq<Circle>, q: seq<Circle>)
    requires SortedByPosition(r) && SortedByPosition(q)
    requires forall y, x :: WithKey(r, y, x) == WithKey(q, y, x)
    ensures r == q
    decreases |r|
  {
    if r == [] || q == [] {
      // a non-empty list has a non-empty key group, which the empty one lacks
      if r != [] {
        WithKeyMembers(r, r[0]);
        assert false;
      } else if q != [] {
        WithKeyMembers(q, q[0]);
        assert false;
      }
    } else {
      var a, b := r[|r| - 1], q[|q| - 1];
      assert WithKey(r, a.y, a.x) == WithKey(q, a.y, a.x);
      assert WithKey(q, b.y, b.x) == WithKey(r, b.y, b.x);
      LastKeyNoLater(r, q);
      LastKeyNoLater(q, r);
      SameLastCircle(r, q);
      var r', q' := r[..|r| - 1], q[..|q| - 1];
      forall y, x ensures WithKey(r', y, x) == WithKey(q', y, x) {
        SameGroupsWithoutLast(r, q, y, x);
      }
      SortedSameKeyGroupsEqual(r', q');
      assert r == r' + [a] && q == q' + [a];
    }
  }

  /** The last circle of a sorted list sorts no earlier than any circle with
      the same key as the last circle of another list with the same groups. */
  lemma LastKeyNoLater(r: seq<Circle>, q: seq<Circle>)
    requires r != [] && q != [] && SortedByPosition(q)
    requires var a := r[|r| - 1]; WithKey(r, a.y, a.x) == WithKey(q, a.y, a.x)
    ensures PositionLe(r[|r| - 1], q[|q| - 1])
  {
    var a := r[|r| - 1];
    WithKeyMembers(r, a);
    WithKeyMembers(q, a);
    var i :| 0 <= i < |q| && q[i] == a;
    if i < |q| - 1 {
      assert PositionLe(q[i], q[|q| - 1]);
    }
  }

  /** Two lists whose last circles share a key, and that have the same group
      for that key, end with the same circle. */
  lemma SameLastCircle(r: seq<Circle>, q: seq<Circle>)
    requires r != [] && q != []
    requires var a, b := r[|r| - 1], q[|q| - 1]; a.y == b.y && a.x == b.x
    requires var a := r[|r| - 1]; WithKey(r, a.y, a.x) == WithKey(q, a.y, a.x)
    ensures r[|r| - 1] == q[|q| - 1]
  {
    var a, b := r[|r| - 1], q[|q| - 1];
    var g := WithKey(r, a.y, a.x);
    assert g == WithKey(r[..|r| - 1], a.y, a.x) + [a];
    assert g == WithKey(q[..|q| - 1], a.y, a.x) + [b];
  }

  /** Dropping the same last circle from two lists keeps their groups equal. */
  lemma SameGroupsWithoutLast(r: seq<Circle>, q: seq<Circle>, y: int, x: int)
    requires r != [] && q != [] && r[|r| - 1] == q[|q| - 1]
    requires WithKey(r, y, x) == WithKey(q, y, x)
    ensures WithKey(r[..|r| - 1], y, x) == WithKey(q[..|q| - 1], y, x)
  {
    var a := r[|r| - 1];
    var gr, gq := WithKey(r[..|r| - 1], y, x), WithKey(q[..|q| - 1], y, x);
    if a.y == y && a.x == x {
      assert gr + [a] == gq + [a];
      assert gr == (gr + [a])[..|gr|];
      assert gq == (gq + [a])[..|gq|];
    } else {
      assert gr + [] == gr && gq + [] == gq;
    }
  }
}
