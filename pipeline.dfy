/** The node-extraction run of the scanner without its image and file I/O: from
    the contours reported for the darkened image to the node-position document
    and the description skeleton. */
module Pipeline {
  import opened Circles
  import opened Deduplication
  import opened Ordering
  import opened Tiers

  /** The fitted circles of the contours that pass the area filter. */
  function Candidates(contours: seq<Contour>): (r: seq<Circle>)
    ensures |r| <= |contours|
    ensures forall c :: c in r ==> MIN_RADIUS <= c.radius <= MAX_RADIUS
  {
    var kept := FilterByArea(contours);
    seq(|kept|, i requires 0 <= i < |kept| => FitCircle(kept[i]))
  }

  /** The kept circles in their final (y, x) order. */
  function FinalCircles(contours: seq<Contour>): seq<Circle>
  {
    SortByPosition(Dedup(Candidates(contours)))
  }

  /** The final circles are sorted, come from the candidates, and are no more
      numerous than the contours. */
  lemma FinalCirclesShape(contours: seq<Contour>)
    ensures var f := FinalCircles(contours);
      && SortedByPosition(f)
      && multiset(f) <= multiset(Candidates(contours))
      && |f| <= |contours|
      && forall c :: c in f ==> MIN_RADIUS <= c.radius <= MAX_RADIUS
  {
    var d := Dedup(Candidates(contours));
    DedupIsSubMultiset(Candidates(contours));
    SortByPositionSortedPermutation(d);
    forall c | c in FinalCircles(contours) ensures c in Candidates(contours) {
      assert c in multiset(FinalCircles(contours));
    }
  }

  /** The scanner's run: fit, remove overlaps, sort, split into tiers, export. */
  method ExtractNodes(contours: seq<Contour>) returns (r: Result<Export>)
    ensures r == match Partition(FinalCircles(contours))
                 case Ok(p) => Ok(BuildExport(p))
                 case Err(e) => Err(e)
    ensures r.Ok? <==> forall c :: c in FinalCircles(contours) ==> c.radius <= 14
    ensures r.Err? ==> 15 <= r.error.radius <= MAX_RADIUS
    ensures r.Ok? ==> |r.value.keystones| + |r.value.notables| + |r.value.small| == |FinalCircles(contours)|
    ensures contours == [] ==> r == Ok(Export([], [], [], map[]))
  {
    var filtered := FilterByArea(contours);
    var all := FitAll(filtered);
    assert all == Candidates(contours);
    var final := RemoveOverlaps(all);
    final := SortByPosition(final);
    FinalCirclesShape(contours);
    ExportOfFitted(final);
    if contours == [] {
      NoContoursNoNodes();
    }
    match Partition(final)
    case Err(e) =>
      r := Err(e);
    case Ok(p) =>
      r := Ok(BuildExport(p));
  }

  /** The export of fitted circles fails exactly when a radius exceeds 14, and
      then with a radius in 15..MAX_RADIUS; otherwise it has one node per
      circle. */
  lemma ExportOfFitted(f: seq<Circle>)
    requires forall c :: c in f ==> MIN_RADIUS <= c.radius <= MAX_RADIUS
    ensures Partition(f).Ok? <==> forall c :: c in f ==> c.radius <= 14
    ensures Partition(f).Err? ==> 15 <= Partition(f).error.radius <= MAX_RADIUS
    ensures Partition(f).Ok? ==>
      var e := BuildExport(Partition(f).value);
      |e.keystones| + |e.notables| + |e.small| == |f|
  {
    PartitionExact(f);
    if Partition(f).Err? {
      SelectKindFailsAtFirst(f, Small);
      var i :| 0 <= i < |f| && KindOf(f[i]) == Err(SelectKind(f, Small).error)
               && forall j :: 0 <= j < i ==> KindOf(f[j]).Ok?;
      assert f[i] in f;
      var bad := f[i];
      assert !(bad.radius <= 14);
    } else {
      forall c | c in f ensures c.radius <= 14 {
        var i :| 0 <= i < |f| && f[i] == c;
      }
    }
  }

  /** No contours give no circles, no nodes and an empty skeleton. */
  lemma NoContoursNoNodes()
    ensures FinalCircles([]) == []
    ensures Partition([]) == Ok(Partitioned([], [], []))
    ensures BuildExport(Partitioned([], [], [])) == Export([], [], [], map[])
  {
    assert FilterByArea([]) == [];
    assert Candidates([]) == [];
    var d := Describe(0, 0);
    assert d.Keys == {} by {
      forall id | id in d ensures false {
        DescribeKey(0, 0, id);
      }
    }
  }

  // Three separate disks of radius 6, 9 and 12, as the contour extractor would
  // report them, and the circles the scanner fits to them.
  const DISKS: seq<Contour> := [Contour(113.0, 20.5, 30.5, 6.2), Contour(254.0, 50.0, 50.0, 9.0),
                                Contour(452.0, 80.9, 10.0, 12.7)]
  const SMALL_DISK := Circle(20, 30, 6)
  const NOTABLE_DISK := Circle(50, 50, 9)
  const KEYSTONE_DISK := Circle(80, 10, 12)

  lemma ThreeDisksCandidates()
    ensures Candidates(DISKS) == [SMALL_DISK, NOTABLE_DISK, KEYSTONE_DISK]
  {
    assert FilterByArea(DISKS[2..]) == DISKS[2..];
    assert FilterByArea(DISKS[1..]) == DISKS[1..];
    assert FilterByArea(DISKS) == DISKS;
  }

  lemma ThreeDisksApart()
    ensures !Overlaps(SMALL_DISK, NOTABLE_DISK) && !Overlaps(SMALL_DISK, KEYSTONE_DISK)
    ensures !Overlaps(NOTABLE_DISK, KEYSTONE_DISK)
  {
    assert SquaredDistance(SMALL_DISK, NOTABLE_DISK) == 1300;
    assert SquaredDistance(SMALL_DISK, KEYSTONE_DISK) == 4000;
    assert SquaredDistance(NOTABLE_DISK, KEYSTONE_DISK) == 2500;
  }

  lemma ThreeDisksKept()
    ensures Dedup([SMALL_DISK, NOTABLE_DISK, KEYSTONE_DISK]) == [SMALL_DISK, NOTABLE_DISK, KEYSTONE_DISK]
  {
    var s, n, k := SMALL_DISK, NOTABLE_DISK, KEYSTONE_DISK;
    ThreeDisksApart();
    assert [s] == [] + [s];
    DedupAppend([], s);
    StepAppendsIsolatedCandidate([], s);
    assert [s, n] == [s] + [n];
    DedupAppend([s], n);
    StepAppendsIsolatedCandidate([s], n);
    assert [s, n, k] == [s, n] + [k];
    DedupAppend([s, n], k);
    StepAppendsIsolatedCandidate([s, n], k);
  }

  lemma ThreeDisksSorted()
    ensures SortByPosition([SMALL_DISK, NOTABLE_DISK, KEYSTONE_DISK]) == [KEYSTONE_DISK, SMALL_DISK, NOTABLE_DISK]
  {
    var s, n, k := SMALL_DISK, NOTABLE_DISK, KEYSTONE_DISK;
    assert [s, n, k][..2] == [s, n];
    assert [s, n][..1] == [s];
    assert [s][..0] == [];
    assert SortByPosition([s]) == [s];
    assert SortByPosition([s, n]) == [s, n];
    assert [s, n][..1] == [s];
    assert Insert([s], k) == [k, s];
  }

  lemma ThreeDisksPartition()
    ensures Partition([KEYSTONE_DISK, SMALL_DISK, NOTABLE_DISK])
         == Ok(Partitioned([SMALL_DISK], [NOTABLE_DISK], [KEYSTONE_DISK]))
  {
    var sorted := [KEYSTONE_DISK, SMALL_DISK, NOTABLE_DISK];
    assert sorted[1..] == [SMALL_DISK, NOTABLE_DISK];
    assert sorted[1..][1..] == [NOTABLE_DISK];
    assert [NOTABLE_DISK][1..] == [];
    assert [NOTABLE_DISK] + [] == [NOTABLE_DISK] && [SMALL_DISK] + [] == [SMALL_DISK];
    assert [KEYSTONE_DISK] + [] == [KEYSTONE_DISK];
    assert SelectKind([NOTABLE_DISK], Small) == Ok([]);
    assert SelectKind([NOTABLE_DISK], Notable) == Ok([NOTABLE_DISK]);
    assert SelectKind([NOTABLE_DISK], Keystone) == Ok([]);
    assert SelectKind(sorted[1..], Small) == Ok([SMALL_DISK]);
    assert SelectKind(sorted[1..], Notable) == Ok([NOTABLE_DISK]);
    assert SelectKind(sorted[1..], Keystone) == Ok([]);
  }

  /** Three separate disks of radius 6, 9 and 12 give one small node, one
      notable and one keystone, and a description skeleton for K1 and N1 only. */
  lemma ThreeSeparateDisks()
    ensures Partition(FinalCircles(DISKS)) == Ok(Partitioned([SMALL_DISK], [NOTABLE_DISK], [KEYSTONE_DISK]))
    ensures BuildExport(Partitioned([SMALL_DISK], [NOTABLE_DISK], [KEYSTONE_DISK])).descriptions.Keys == {"K1", "N1"}
  {
    ThreeDisksCandidates();
    ThreeDisksKept();
    ThreeDisksSorted();
    ThreeDisksPartition();
    ThreeDisksDescriptions();
  }

  lemma ThreeDisksDescriptions()
    ensures Describe(1, 1).Keys == {"K1", "N1"}
  {
    var d := Describe(1, 1);
    assert TierId('K', 1) == "K1" && TierId('N', 1) == "N1";
    forall id ensures id in d <==> id == "K1" || id == "N1" {
      DescribeKey(1, 1, id);
      if id in d {
        var (p, n) := ParseTierId(id).value;
        assert id == TierId(p, n);
      } else {
        TierIdRoundTrip('K', 1);
        TierIdRoundTrip('N', 1);
      }
    }
  }
}
