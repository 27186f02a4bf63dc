/** Overlap removal: the greedy, order-sensitive loop that builds the kept list
    of circles. For each candidate the scanner walks the kept list by position
    while removing entries from it, so after a removal the entry that moved into
    the freed position is never compared with that candidate. */
module Deduplication {
  import opened Circles

  /** The position of the first element equal to `x`. */
  function FirstIndex(s: seq<Circle>, x: Circle): (j: nat)
    requires x in s
    ensures j < |s| && s[j] == x && x !in s[..j]
  {
    if s[0] == x then 0
    else
      var j := FirstIndex(s[1..], x) + 1;
      assert s[..j] == [s[0]] + s[1..][..j - 1];
      j
  }

  /** `list.remove(x)`: drop the first element equal to `x`; the elements
      after it move one position to the left. */
  function RemoveFirst(s: seq<Circle>, x: Circle): (r: seq<Circle>)
    requires x in s
    ensures exists j :: 0 <= j < |s| && s[j] == x && x !in s[..j] && r == s[..j] + s[j + 1..]
    ensures |r| == |s| - 1
    ensures multiset(r) == multiset(s) - multiset{x}
  {
    var j := FirstIndex(s, x);
    assert s == s[..j] + [x] + s[j + 1..];
    s[..j] + s[j + 1..]
  }

  /** Removing the element found at position `i` keeps every suffix that starts
      after `i`. */
  lemma RemoveFirstKeepsTail(s: seq<Circle>, i: nat, m: nat)
    requires i < |s| && m < |s| - i
    ensures RemoveFirst(s, s[i])[|s| - 1 - m..] == s[|s| - m..]
  {
    var j := FirstIndex(s, s[i]);
    assert j <= i;
    var r, tail := RemoveFirst(s, s[i]), s[|s| - m..];
    assert r == s[..j] + s[j + 1..];
    forall k | 0 <= k < m ensures r[|s| - 1 - m..][k] == tail[k] {
      assert r[|s| - 1 - m + k] == s[|s| - m + k];
    }
  }

  /** Every circle left after a removal was there before. */
  lemma RemoveFirstMember(s: seq<Circle>, x: Circle, e: Circle)
    requires x in s && e in RemoveFirst(s, x)
    ensures e in s
  {
    assert e in multiset(RemoveFirst(s, x));
  }

  /** The kept list after one candidate's scan, and whether the candidate
      survived the scan. */
  datatype Outcome = Outcome(kept: seq<Circle>, keep: bool)

  /** The scan of candidate `c` over `kept`, from position `i` on. An
      overlapping kept circle with a smaller radius is removed and the position
      still advances; an overlapping one at least as large ends the scan and
      discards the candidate. */
  function Resolve(kept: seq<Circle>, c: Circle, i: nat): Outcome
    decreases |kept| - i
  {
    if i >= |kept| then Outcome(kept, true)
    else if Overlaps(kept[i], c) then
      if c.radius > kept[i].radius then Resolve(RemoveFirst(kept, kept[i]), c, i + 1)
      else Outcome(kept, false)
    else Resolve(kept, c, i + 1)
  }

  /** One pass of the outer loop: the kept list once `c` has been processed. */
  function Step(kept: seq<Circle>, c: Circle): seq<Circle>
  {
    var o := Resolve(kept, c, 0);
    if o.keep then o.kept + [c] else o.kept
  }

  /** The kept list after processing every candidate in arrival order. */
  function Dedup(all: seq<Circle>): seq<Circle>
  {
    if all == [] then [] else Step(Dedup(all[..|all| - 1]), all[|all| - 1])
  }

  /** Processing one more candidate is one more step on the kept list. */
  lemma DedupAppend(all: seq<Circle>, c: Circle)
    ensures Dedup(all + [c]) == Step(Dedup(all), c)
  {
    assert (all + [c])[..|all|] == all;
  }

  /** The inner loop of the scanner for one candidate. */
  method ResolveCandidate(kept: seq<Circle>, c: Circle) returns (rest: seq<Circle>, keep: bool)
    ensures Outcome(rest, keep) == Resolve(kept, c, 0)
    ensures multiset(rest) <= multiset(kept)
    ensures forall e :: e in multiset(kept) - multiset(rest) ==> Overlaps(e, c) && e.radius < c.radius
    ensures !keep ==> exists p :: StoppedAt(kept, c, 0, Outcome(rest, keep), p)
  {
    rest, keep := kept, true;
    var i := 0;
    while i < |rest|
      invariant keep
      invariant Resolve(kept, c, 0) == Resolve(rest, c, i)
      decreases |rest| - i
    {
      var existing := rest[i];
      if Overlaps(existing, c) {
        if c.radius > existing.radius {
          rest := RemoveFirst(rest, existing);
        } else {
          keep := false;
          break;
        }
      }
      i := i + 1;
    }
    ResolveRemovesOnlySmallerOverlapping(kept, c, 0);
    ResolveDiscardsOnlyForLarger(kept, c, 0);
  }

  /** The outer loop of the scanner over all candidates. */
  method RemoveOverlaps(all: seq<Circle>) returns (final: seq<Circle>)
    ensures final == Dedup(all)
    ensures |final| <= |all|
    ensures multiset(final) <= multiset(all)
  {
    final := [];
    for i := 0 to |all|
      invariant final == Dedup(all[..i])
    {
      var rest, keep := ResolveCandidate(final, all[i]);
      if keep {
        rest := rest + [all[i]];
      }
      assert all[..i + 1][..i] == all[..i];
      final := rest;
    }
    assert all[..|all|] == all;
    DedupIsSubMultiset(all);
  }

  /** A scan only removes kept circles that overlap the candidate and are
      strictly smaller than it. */
  lemma {:induction false} ResolveRemovesOnlySmallerOverlapping(kept: seq<Circle>, c: Circle, i: nat)
    ensures var o := Resolve(kept, c, i);
      && multiset(o.kept) <= multiset(kept)
      && forall e :: e in multiset(kept) - multiset(o.kept) ==> Overlaps(e, c) && e.radius < c.radius
    decreases |kept| - i
  {
    if i < |kept| && Overlaps(kept[i], c) && c.radius > kept[i].radius {
      var next := RemoveFirst(kept, kept[i]);
      ResolveRemovesOnlySmallerOverlapping(next, c, i + 1);
      RemovalOnlySmaller(kept, kept[i], c, Resolve(next, c, i + 1).kept);
    } else if i < |kept| && !Overlaps(kept[i], c) {
      ResolveRemovesOnlySmallerOverlapping(kept, c, i + 1);
    }
  }

  /** Removing an overlapping smaller circle `x` before a scan that itself
      removes only such circles removes only such circles. */
  lemma RemovalOnlySmaller(kept: seq<Circle>, x: Circle, c: Circle, rest: seq<Circle>)
    requires x in kept && Overlaps(x, c) && x.radius < c.radius
    requires var next := RemoveFirst(kept, x);
      && multiset(rest) <= multiset(next)
      && forall e :: e in multiset(next) - multiset(rest) ==> Overlaps(e, c) && e.radius < c.radius
    ensures multiset(rest) <= multiset(kept)
    ensures forall e :: e in multiset(kept) - multiset(rest) ==> Overlaps(e, c) && e.radius < c.radius
  {
    var mk, mn, mr := multiset(kept), multiset(RemoveFirst(kept, x)), multiset(rest);
    assert mn == mk - multiset{x};
    forall e | e in mk - mr
      ensures Overlaps(e, c) && e.radius < c.radius
    {
      if e != x {
        assert mn[e] == mk[e];
        assert e in mn - mr;
      }
    }
  }

  /** The scan stopped at position `p` of its final kept list `o.kept`: the
      circle there overlaps `c` with a radius at least its own, and from `p` on
      the list is an untouched tail of `kept`, the list the scan started from at
      position `i`. */
  ghost predicate StoppedAt(kept: seq<Circle>, c: Circle, i: nat, o: Outcome, p: int)
  {
    && i <= p < |o.kept| && |o.kept| - p <= |kept| - i
    && Overlaps(o.kept[p], c) && o.kept[p].radius >= c.radius
    && o.kept[p..] == kept[|kept| - (|o.kept| - p)..]
  }

  /** A candidate is discarded only at a kept circle that overlaps it with a
      radius at least its own; the scan stops there, so that circle and every
      circle after it are the untouched tail of the kept list. */
  lemma {:induction false} ResolveDiscardsOnlyForLarger(kept: seq<Circle>, c: Circle, i: nat)
    ensures var o := Resolve(kept, c, i);
      !o.keep ==> exists p :: StoppedAt(kept, c, i, o, p)
    decreases |kept| - i
  {
    if i < |kept| {
      if Overlaps(kept[i], c) {
        if c.radius > kept[i].radius {
          var next := RemoveFirst(kept, kept[i]);
          ResolveDiscardsOnlyForLarger(next, c, i + 1);
          var o := Resolve(next, c, i + 1);
          if !o.keep {
            var p :| StoppedAt(next, c, i + 1, o, p);
            StoppedAfterRemoval(kept, c, i, o, p);
          }
        } else {
          assert kept[i..] == kept[|kept| - (|kept| - i)..];
          assert StoppedAt(kept, c, i, Resolve(kept, c, i), i);
        }
      } else {
        ResolveDiscardsOnlyForLarger(kept, c, i + 1);
        var o := Resolve(kept, c, i);
        if !o.keep {
          var p :| StoppedAt(kept, c, i + 1, o, p);
          assert StoppedAt(kept, c, i, o, p);
        }
      }
    }
  }

  /** A stop found after removing the circle at position `i` is a stop of the
      scan from `i`. */
  lemma StoppedAfterRemoval(kept: seq<Circle>, c: Circle, i: nat, o: Outcome, p: int)
    requires i < |kept| && StoppedAt(RemoveFirst(kept, kept[i]), c, i + 1, o, p)
    ensures StoppedAt(kept, c, i, o, p)
  {
    RemoveFirstKeepsTail(kept, i, |o.kept| - p);
  }

  /** When the first kept circle from position `i` on that overlaps the
      candidate is at least as large, the candidate is discarded there and the
      kept list is left as it is. */
  lemma {:induction false} ResolveStopsAtFirstLargerOverlap(kept: seq<Circle>, c: Circle, i: nat, p: nat)
    requires i <= p < |kept|
    requires forall q :: i <= q < p ==> !Overlaps(kept[q], c)
    requires Overlaps(kept[p], c) && kept[p].radius >= c.radius
    ensures Resolve(kept, c, i) == Outcome(kept, false)
    decreases p - i
  {
    if i < p {
      ResolveStopsAtFirstLargerOverlap(kept, c, i + 1, p);
    }
  }

  /** A candidate that no kept circle at least as large overlaps always
      survives its scan. */
  lemma {:induction false} ResolveKeepsWhenNoLargerOverlap(kept: seq<Circle>, c: Circle, i: nat)
    requires forall e :: e in kept && Overlaps(e, c) ==> e.radius < c.radius
    ensures Resolve(kept, c, i).keep
    decreases |kept| - i
  {
    if i < |kept| {
      var x := kept[i];
      if Overlaps(x, c) {
        assert x in kept;
        var next := RemoveFirst(kept, x);
        forall e | e in next && Overlaps(e, c) ensures e.radius < c.radius {
          RemoveFirstMember(kept, x, e);
        }
        ResolveKeepsWhenNoLargerOverlap(next, c, i + 1);
      } else {
        ResolveKeepsWhenNoLargerOverlap(kept, c, i + 1);
      }
    }
  }

  /** A candidate that overlaps no kept circle is appended at the end and
      nothing else changes. */
  lemma {:induction false} StepAppendsIsolatedCandidate(kept: seq<Circle>, c: Circle)
    requires forall e :: e in kept ==> !Overlaps(e, c)
    ensures Step(kept, c) == kept + [c]
  {
    ResolveUntouchedWithoutOverlap(kept, c, 0);
  }

  lemma {:induction false} ResolveUntouchedWithoutOverlap(kept: seq<Circle>, c: Circle, i: nat)
    requires forall e :: e in kept ==> !Overlaps(e, c)
    ensures Resolve(kept, c, i) == Outcome(kept, true)
    decreases |kept| - i
  {
    if i < |kept| {
      assert kept[i] in kept;
      ResolveUntouchedWithoutOverlap(kept, c, i + 1);
    }
  }

  /** A surviving candidate ends the kept list; either way the new kept list
      holds nothing but the old kept circles and the candidate. */
  lemma StepShape(kept: seq<Circle>, c: Circle)
    ensures var o := Resolve(kept, c, 0);
      && (o.keep ==> Step(kept, c) == o.kept + [c] && Step(kept, c)[|Step(kept, c)| - 1] == c)
      && (!o.keep ==> Step(kept, c) == o.kept)
      && multiset(Step(kept, c)) <= multiset(kept) + multiset{c}
  {
    ResolveRemovesOnlySmallerOverlapping(kept, c, 0);
  }

  /** The kept list is a sub-multiset of the candidates, so never longer. */
  lemma {:induction false} DedupIsSubMultiset(all: seq<Circle>)
    ensures multiset(Dedup(all)) <= multiset(all)
    ensures |Dedup(all)| <= |all|
  {
    if all != [] {
      var init, last := all[..|all| - 1], all[|all| - 1];
      assert all == init + [last];
      DedupIsSubMultiset(init);
      StepShape(Dedup(init), last);
      assert multiset(Dedup(all)) <= multiset(Dedup(init)) + multiset{last};
      var m, n := multiset(Dedup(all)), multiset(all);
      assert n == m + (n - m);
    }
  }

  /** Ties favour the circle kept first: a candidate whose first overlapping
      kept circle has the same radius (or a larger one) is discarded and the
      kept list does not change. */
  lemma TieKeepsKeptCircle(kept: seq<Circle>, c: Circle, p: nat)
    requires p < |kept| && forall q :: 0 <= q < p ==> !Overlaps(kept[q], c)
    requires Overlaps(kept[p], c) && kept[p].radius >= c.radius
    ensures Step(kept, c) == kept
  {
    ResolveStopsAtFirstLargerOverlap(kept, c, 0, p);
  }

  /** Of two overlapping circles with the same radius only the first one
      survives. */
  lemma EqualRadiusKeepsFirst(a: Circle, b: Circle)
    requires Overlaps(a, b) && a.radius == b.radius
    ensures Dedup([a, b]) == [a]
  {
    assert [a, b][..1] == [a];
    assert [a][..0] == [];
    assert Dedup([a]) == [a];
    TieKeepsKeptCircle([a], b, 0);
  }

  /** Overlap removal does not leave a pairwise disjoint list: here the third
      candidate removes the first, the second moves into the freed position and
      is never compared, and two overlapping circles are kept. */
  lemma KeptCirclesMayOverlap()
    ensures var a, b, c := Circle(0, 0, 5), Circle(20, 0, 5), Circle(10, 0, 6);
      Dedup([a, b, c]) == [b, c] && Overlaps(b, c)
  {
    var a, b, c := Circle(0, 0, 5), Circle(20, 0, 5), Circle(10, 0, 6);
    assert [a, b, c][..2] == [a, b];
    assert [a, b][..1] == [a];
    assert [a][..0] == [];
    assert Dedup([a]) == [a];
    assert Resolve([a], b, 0) == Outcome([a], true);
    assert Dedup([a, b]) == [a, b];
    assert RemoveFirst([a, b], a) == [b];
    assert Resolve([a, b], c, 0) == Outcome([b], true);
  }
}
