/** The sorted circles split into the three tiers, the exported node records
    with their tier identifiers (`K1`, `N3`, `S12`, ...) and the description
    skeleton keyed by the keystone and notable identifiers. */
module Tiers {
  import opened Circles
  import opened Ordering

  datatype Option<+T> = None | Some(value: T)

  // ---------------------------------------------------------------------------
  // Decimal rendering of the 1-based ranks

  predicate IsDigit(ch: char)
  {
    '0' <= ch <= '9'
  }

  function DigitChar(d: nat): (ch: char)
    requires d < 10
    ensures IsDigit(ch) && (ch as int) - ('0' as int) == d
  {
    (('0' as int) + d) as char
  }

  /** `str(n)`: the decimal digits of `n`, without leading zeros. */
  function Decimal(n: nat): (s: string)
    ensures |s| >= 1
    ensures forall i :: 0 <= i < |s| ==> IsDigit(s[i])
    ensures s[0] == '0' ==> n == 0
  {
    if n < 10 then [DigitChar(n)] else Decimal(n / 10) + [DigitChar(n % 10)]
  }

  /** The number a string of decimal digits denotes. */
  function DecimalValue(s: string): nat
    requires forall i :: 0 <= i < |s| ==> IsDigit(s[i])
  {
    if s == [] then 0
    else
      var last := s[|s| - 1];
      assert IsDigit(last);
      DecimalValue(s[..|s| - 1]) * 10 + ((last as int) - ('0' as int))
  }

  /** Rendering a rank and reading it back gives the rank again. */
  lemma {:induction false} DecimalRoundTrip(n: nat)
    ensures DecimalValue(Decimal(n)) == n
  {
    if n >= 10 {
      DecimalRoundTrip(n / 10);
      var s := Decimal(n);
      assert s[..|s| - 1] == Decimal(n / 10);
    }
  }

  // ---------------------------------------------------------------------------
  // Tier identifiers

  function Prefix(k: Kind): char
  {
    match k
    case Keystone => 'K'
    case Notable => 'N'
    case Small => 'S'
  }

  /** `f"{prefix}{rank}"`. */
  function TierId(prefix: char, rank: nat): string
  {
    [prefix] + Decimal(rank)
  }

  /** Reads an identifier back into its prefix and rank; only identifiers that
      `TierId` can produce are accepted. */
  function ParseTierId(id: string): (r: Option<(char, nat)>)
    ensures r.Some? ==> id == TierId(r.value.0, r.value.1)
  {
    if |id| >= 2 && forall i :: 1 <= i < |id| ==> IsDigit(id[i]) then
      var rank := DecimalValue(id[1..]);
      if TierId(id[0], rank) == id then Some((id[0], rank)) else None
    else None
  }

  lemma TierIdRoundTrip(prefix: char, rank: nat)
    ensures ParseTierId(TierId(prefix, rank)) == Some((prefix, rank))
  {
    var id := TierId(prefix, rank);
    assert id[1..] == Decimal(rank);
    DecimalRoundTrip(rank);
  }

  /** Distinct (prefix, rank) pairs never share an identifier. */
  lemma TierIdInjective(p: char, n: nat, q: char, m: nat)
    requires TierId(p, n) == TierId(q, m)
    ensures p == q && n == m
  {
    TierIdRoundTrip(p, n);
    TierIdRoundTrip(q, m);
  }

  // ---------------------------------------------------------------------------
  // Partition into tiers

  /** `[c for c in circles if c.kind == k]`: the circles of kind `k` in their
      order, or the error of the first circle whose kind is undefined. */
  function SelectKind(s: seq<Circle>, k: Kind): Result<seq<Circle>>
  {
    if s == [] then Ok([])
    else
      match KindOf(s[0])
      case Err(e) => Err(e)
      case Ok(k0) =>
        match SelectKind(s[1..], k)
        case Err(e) => Err(e)
        case Ok(rest) => Ok(if k0 == k then [s[0]] + rest else rest)
  }

  /** A selection succeeds exactly when every circle has a defined kind. */
  lemma {:induction false} SelectKindSucceeds(s: seq<Circle>, k: Kind)
    ensures SelectKind(s, k).Ok? <==> forall i :: 0 <= i < |s| ==> KindOf(s[i]).Ok?
  {
    if s != [] {
      var tail := s[1..];
      SelectKindSucceeds(tail, k);
      assert forall i :: 1 <= i < |s| ==> s[i] == tail[i - 1];
    }
  }

  /** A failing selection reports the first circle of undefined kind. */
  lemma {:induction false} SelectKindFailsAtFirst(s: seq<Circle>, k: Kind)
    requires SelectKind(s, k).Err?
    ensures exists i :: 0 <= i < |s| && KindOf(s[i]) == Err(SelectKind(s, k).error)
                        && forall j :: 0 <= j < i ==> KindOf(s[j]).Ok?
  {
    if KindOf(s[0]).Err? {
      assert KindOf(s[0]) == Err(SelectKind(s, k).error);
    } else {
      var tail := s[1..];
      SelectKindFailsAtFirst(tail, k);
      var i :| 0 <= i < |tail| && KindOf(tail[i]) == Err(SelectKind(tail, k).error)
               && forall j :: 0 <= j < i ==> KindOf(tail[j]).Ok?;
      assert KindOf(s[i + 1]) == Err(SelectKind(s, k).error);
      assert forall j :: 0 <= j < i + 1 ==> KindOf(s[j]).Ok? by {
        forall j | 0 <= j < i + 1 ensures KindOf(s[j]).Ok? {
          if j > 0 { assert s[j] == tail[j - 1]; }
        }
      }
    }
  }

  /** A successful selection holds exactly the circles of kind `k`, each as
      often as in the input. */
  lemma {:induction false} SelectKindSelects(s: seq<Circle>, k: Kind)
    requires SelectKind(s, k).Ok?
    ensures forall c :: multiset(SelectKind(s, k).value)[c] == if KindOf(c) == Ok(k) then multiset(s)[c] else 0
  {
    if s != [] {
      assert s == [s[0]] + s[1..];
      SelectKindSelects(s[1..], k);
    }
  }

  /** Selecting one tier keeps the (y, x) order of the sorted circles. */
  lemma {:induction false} SelectKindKeepsOrder(s: seq<Circle>, k: Kind)
    requires SortedByPosition(s)
    requires SelectKind(s, k).Ok?
    ensures SortedByPosition(SelectKind(s, k).value)
  {
    if s != [] {
      var tail := s[1..];
      assert SortedByPosition(tail);
      SelectKindKeepsOrder(tail, k);
      var rest := SelectKind(tail, k).value;
      SelectKindSelects(tail, k);
      if KindOf(s[0]) == Ok(k) {
        forall j | 0 <= j < |rest| ensures PositionLe(s[0], rest[j]) {
          assert rest[j] in multiset(rest);
          assert rest[j] in tail;
        }
      }
    }
  }

  /** Selecting from two runs of circles, one after the other, succeeds when
      selecting from each does, and gives the two selections in that order. */
  lemma {:induction false} SelectKindAppend(a: seq<Circle>, b: seq<Circle>, k: Kind)
    requires SelectKind(a, k).Ok? && SelectKind(b, k).Ok?
    ensures SelectKind(a + b, k) == Ok(SelectKind(a, k).value + SelectKind(b, k).value)
  {
    if a == [] {
      assert a + b == b;
      assert SelectKind(a, k).value + SelectKind(b, k).value == SelectKind(b, k).value;
    } else {
      var ab, t := a + b, a[1..];
      assert ab[0] == a[0] && ab[1..] == t + b;
      assert KindOf(a[0]).Ok? && SelectKind(t, k).Ok?;
      SelectKindAppend(t, b, k);
      var vt, vb := SelectKind(t, k).value, SelectKind(b, k).value;
      assert SelectKind(ab[1..], k) == Ok(vt + vb);
      if KindOf(a[0]) == Ok(k) {
        assert SelectKind(a, k).value == [a[0]] + vt;
        assert SelectKind(ab, k) == Ok([a[0]] + (vt + vb));
        assert [a[0]] + (vt + vb) == ([a[0]] + vt) + vb;
      } else {
        assert SelectKind(a, k).value == vt;
        assert SelectKind(ab, k) == Ok(vt + vb);
      }
    }
  }

  /** Selecting a tier is stable: for every key (y, x), the tier's circles with
      that key are the input's circles with that key which have the tier's kind,
      in their input order. */
  lemma {:induction false} SelectKindStable(s: seq<Circle>, k: Kind, y: int, x: int)
    requires SelectKind(s, k).Ok?
    ensures SelectKind(WithKey(s, y, x), k) == Ok(WithKey(SelectKind(s, k).value, y, x))
  {
    if s != [] {
      var head, tail := [s[0]], s[1..];
      assert s == head + tail;
      SelectKindStableOne(s[0], k, y, x);
      assert SelectKind(tail, k).Ok?;
      SelectKindAppend(head, tail, k);
      WithKeyAppend(head, tail, y, x);
      SelectKindStable(tail, k, y, x);
      SelectKindAppend(WithKey(head, y, x), WithKey(tail, y, x), k);
      WithKeyAppend(SelectKind(head, k).value, SelectKind(tail, k).value, y, x);
    }
  }

  /** Stability for a single circle of defined kind. */
  lemma SelectKindStableOne(c: Circle, k: Kind, y: int, x: int)
    requires KindOf(c).Ok?
    ensures SelectKind([c], k).Ok?
    ensures SelectKind(WithKey([c], y, x), k) == Ok(WithKey(SelectKind([c], k).value, y, x))
  {
    assert [c][1..] == [] && [c][..0] == [] && [c] + [] == [c];
    assert WithKey([c], y, x) == if c.y == y && c.x == x then [c] else [];
    assert SelectKind([c], k) == Ok(if KindOf(c) == Ok(k) then [c] else []);
  }

  datatype Partitioned = Partitioned(small: seq<Circle>, notables: seq<Circle>, keystones: seq<Circle>)

  /** The three tier lists, computed small first as in the scanner, so a
      failure reports the first unclassifiable circle. */
  function Partition(s: seq<Circle>): Result<Partitioned>
  {
    match SelectKind(s, Small)
    case Err(e) => Err(e)
    case Ok(small) =>
      match SelectKind(s, Notable)
      case Err(e) => Err(e)
      case Ok(notables) =>
        match SelectKind(s, Keystone)
        case Err(e) => Err(e)
        case Ok(keystones) => Ok(Partitioned(small, notables, keystones))
  }

  /** The partition succeeds exactly when every radius is in a band; then every
      circle lands in exactly one tier, so the tier sizes add up to the total,
      and each tier keeps the sorted order. */
  lemma PartitionExact(s: seq<Circle>)
    ensures Partition(s).Ok? <==> forall i :: 0 <= i < |s| ==> 1 <= s[i].radius <= 14
    ensures Partition(s).Ok? ==>
      var p := Partition(s).value;
      && multiset(p.small) + multiset(p.notables) + multiset(p.keystones) == multiset(s)
      && |p.small| + |p.notables| + |p.keystones| == |s|
      && (forall c :: c in p.small ==> KindOf(c) == Ok(Small))
      && (forall c :: c in p.notables ==> KindOf(c) == Ok(Notable))
      && (forall c :: c in p.keystones ==> KindOf(c) == Ok(Keystone))
    ensures Partition(s).Err? ==> SelectKind(s, Small).Err? && Partition(s).error == SelectKind(s, Small).error
  {
    SelectKindSucceeds(s, Small);
    SelectKindSucceeds(s, Notable);
    SelectKindSucceeds(s, Keystone);
    if Partition(s).Ok? {
      var p := Partition(s).value;
      PartitionCovers(s);
      var m := multiset(p.small) + multiset(p.notables) + multiset(p.keystones);
      assert |m| == |s| by {
        assert |multiset(s)| == |s|;
      }
      SelectKindOnly(s, Small);
      SelectKindOnly(s, Notable);
      SelectKindOnly(s, Keystone);
    }
  }

  /** Every circle of a successful selection has the selected kind. */
  lemma SelectKindOnly(s: seq<Circle>, k: Kind)
    requires SelectKind(s, k).Ok?
    ensures forall c :: c in SelectKind(s, k).value ==> KindOf(c) == Ok(k)
  {
    SelectKindSelects(s, k);
    forall c | c in SelectKind(s, k).value ensures KindOf(c) == Ok(k) {
      assert c in multiset(SelectKind(s, k).value);
    }
  }

  /** The three tiers of a successful partition hold every circle exactly as
      often as the input. */
  lemma PartitionCovers(s: seq<Circle>)
    requires Partition(s).Ok?
    ensures var p := Partition(s).value;
      multiset(p.small) + multiset(p.notables) + multiset(p.keystones) == multiset(s)
  {
    var p := Partition(s).value;
    SelectKindSucceeds(s, Small);
    SelectKindSelects(s, Small);
    SelectKindSelects(s, Notable);
    SelectKindSelects(s, Keystone);
    var m := multiset(p.small) + multiset(p.notables) + multiset(p.keystones);
    forall c ensures m[c] == multiset(s)[c] {
      if c in s {
        var i :| 0 <= i < |s| && s[i] == c;
        assert KindOf(s[i]).Ok?;
      }
    }
    assert m == multiset(s);
  }

  /** Each tier of sorted circles is itself sorted, and within one key (y, x)
      each tier keeps the circles of its kind in their order in the input. */
  lemma PartitionKeepsOrder(s: seq<Circle>)
    requires SortedByPosition(s) && Partition(s).Ok?
    ensures var p := Partition(s).value;
      SortedByPosition(p.small) && SortedByPosition(p.notables) && SortedByPosition(p.keystones)
    ensures var p := Partition(s).value;
      forall y, x ::
        && SelectKind(WithKey(s, y, x), Small) == Ok(WithKey(p.small, y, x))
        && SelectKind(WithKey(s, y, x), Notable) == Ok(WithKey(p.notables, y, x))
        && SelectKind(WithKey(s, y, x), Keystone) == Ok(WithKey(p.keystones, y, x))
  {
    SelectKindKeepsOrder(s, Small);
    SelectKindKeepsOrder(s, Notable);
    SelectKindKeepsOrder(s, Keystone);
    forall y, x ensures
        && SelectKind(WithKey(s, y, x), Small) == Ok(WithKey(Partition(s).value.small, y, x))
        && SelectKind(WithKey(s, y, x), Notable) == Ok(WithKey(Partition(s).value.notables, y, x))
        && SelectKind(WithKey(s, y, x), Keystone) == Ok(WithKey(Partition(s).value.keystones, y, x))
    {
      SelectKindStable(s, Small, y, x);
      SelectKindStable(s, Notable, y, x);
      SelectKindStable(s, Keystone, y, x);
    }
  }

  // ---------------------------------------------------------------------------
  // Exported records

  /** One entry of the node-position document. The coordinates are the pixel
      coordinates of the circle; the division by the image size is not part of
      this model. */
  datatype Node = Node(id: string, x: int, y: int, kind: Kind)

  /** `[{"id": f"{prefix}{index}", ...} for (index, circle) in enumerate(tier, start=1)]`. */
  function TierNodes(tier: seq<Circle>, k: Kind): seq<Node>
  {
    seq(|tier|, i requires 0 <= i < |tier| => Node(TierId(Prefix(k), i + 1), tier[i].x, tier[i].y, k))
  }

  /** The k-th node of a tier (counting from 1) is named by the tier prefix and
      k, carries the k-th circle's position, and no two nodes share a name. */
  lemma TierNodesNumbering(tier: seq<Circle>, k: Kind)
    ensures |TierNodes(tier, k)| == |tier|
    ensures forall i :: 0 <= i < |tier| ==>
      var n := TierNodes(tier, k)[i];
      ParseTierId(n.id) == Some((Prefix(k), i + 1)) && n.x == tier[i].x && n.y == tier[i].y && n.kind == k
    ensures forall i, j :: 0 <= i < j < |tier| ==> TierNodes(tier, k)[i].id != TierNodes(tier, k)[j].id
  {
    var nodes := TierNodes(tier, k);
    forall i | 0 <= i < |tier| ensures ParseTierId(nodes[i].id) == Some((Prefix(k), i + 1)) {
      TierIdRoundTrip(Prefix(k), i + 1);
    }
  }

  /** Nodes of different tiers never share an identifier. */
  lemma TierNodesDisjoint(a: seq<Circle>, ka: Kind, b: seq<Circle>, kb: Kind, i: nat, j: nat)
    requires ka != kb && i < |a| && j < |b|
    ensures TierNodes(a, ka)[i].id != TierNodes(b, kb)[j].id
  {
    if TierNodes(a, ka)[i].id == TierNodes(b, kb)[j].id {
      TierIdInjective(Prefix(ka), i + 1, Prefix(kb), j + 1);
    }
  }

  /** An entry of the description skeleton. */
  datatype Description = Description(name: string, stats: seq<string>)

  /** The description skeleton: one entry per keystone and per notable
      identifier, named after its key, with no stats. */
  function Describe(keystones: nat, notables: nat): map<string, Description>
  {
    (map rank | 1 <= rank <= keystones :: TierId('K', rank) := Description(TierId('K', rank), []))
    + (map rank | 1 <= rank <= notables :: TierId('N', rank) := Description(TierId('N', rank), []))
  }

  /** The skeleton's keys are exactly K1..Kn and N1..Nm for n keystones and m
      notables; each entry is named after its key and has no stats; small nodes
      have no entry. */
  lemma DescribeKeys(keystones: nat, notables: nat)
    ensures var d := Describe(keystones, notables);
      && (forall id :: id in d <==>
            (ParseTierId(id).Some? &&
             var (p, n) := ParseTierId(id).value;
             (p == 'K' && 1 <= n <= keystones) || (p == 'N' && 1 <= n <= notables)))
      && (forall id :: id in d ==> d[id] == Description(id, []))
  {
    forall id ensures id in Describe(keystones, notables) <==>
            (ParseTierId(id).Some? &&
             var (p, n) := ParseTierId(id).value;
             (p == 'K' && 1 <= n <= keystones) || (p == 'N' && 1 <= n <= notables))
    {
      DescribeKey(keystones, notables, id);
    }
  }

  /** One identifier is a key of the skeleton exactly when it parses as a
      keystone or notable identifier within the counts. */
  lemma DescribeKey(keystones: nat, notables: nat, id: string)
    ensures id in Describe(keystones, notables) <==>
            (ParseTierId(id).Some? &&
             var (p, n) := ParseTierId(id).value;
             (p == 'K' && 1 <= n <= keystones) || (p == 'N' && 1 <= n <= notables))
  {
    var d := Describe(keystones, notables);
    if id in d {
      if rank :| 1 <= rank <= keystones && id == TierId('K', rank) {
        TierIdRoundTrip('K', rank);
      } else {
        var rank :| 1 <= rank <= notables && id == TierId('N', rank);
        TierIdRoundTrip('N', rank);
      }
    } else if ParseTierId(id).Some? {
      var (p, n) := ParseTierId(id).value;
      assert id == TierId(p, n);
    }
  }

  /** The node-position document and the description skeleton. */
  datatype Export = Export(keystones: seq<Node>, notables: seq<Node>, small: seq<Node>,
                           descriptions: map<string, Description>)

  function BuildExport(p: Partitioned): Export
  {
    Export(TierNodes(p.keystones, Keystone), TierNodes(p.notables, Notable), TierNodes(p.small, Small),
           Describe(|p.keystones|, |p.notables|))
  }
}
