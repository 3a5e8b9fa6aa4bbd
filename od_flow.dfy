/** get_OD_line_shp (GISshape.py:1-94) without the line geometry: the
    origin-destination table aggregated either per directed (origin,
    destination) pair or, with combine, per undirected pair of places,
    sorted by the aggregated measure, largest first. */
module OdFlow {
  import opened Text
  import opened PlaceRegistry

  /** The `how` argument: 'sum', 'mean' or 'countd'. */
  datatype How = Sum | Mean | CountD

  /** What a group is keyed by: the 'Pair' string when both directions are
      merged, the (origin, destination) names otherwise. */
  datatype FlowKey = Pair(pair: string) | Directed(origin: string, dest: string)

  /** An input row together with the key it is grouped under. */
  datatype Tagged = Tagged(key: FlowKey, row: OdRow)

  /** The numeric columns that are aggregated. */
  datatype Column = Count | OriginX | OriginY | DestX | DestY

  /** A group after groupby/agg and before the endpoints are attached. */
  datatype Aggregate = Aggregate(key: FlowKey, measure: real)

  /** A row of the returned table (its line geometry is left out). */
  datatype Flow = Flow(key: FlowKey, measure: real,
                       originX: real, originY: real, destX: real, destY: real)

  function Field(r: OdRow, c: Column): real {
    match c
    case Count => r.count
    case OriginX => r.originX
    case OriginY => r.originY
    case DestX => r.destX
    case DestY => r.destY
  }

  // ---------------------------------------------------------------------
  // groupby: the groups, and sums, counts and distinct dates per group

  function KeysIn(ts: seq<Tagged>): set<FlowKey> {
    set t | t in ts :: t.key
  }

  predicate DistinctKeys(ks: seq<FlowKey>) {
    forall i, j :: 0 <= i < j < |ks| ==> ks[i] != ks[j]
  }

  /** The groups, each once. pandas' groupby orders them by key; this model
      keeps them in order of first appearance, which only the sort that
      follows sees, and only among equal measures. */
  function GroupKeys(ts: seq<Tagged>): (ks: seq<FlowKey>)
    ensures DistinctKeys(ks)
    ensures forall k :: k in ks <==> k in KeysIn(ts)
  {
    if |ts| == 0 then []
    else
      var init := ts[..|ts| - 1];
      var t := ts[|ts| - 1];
      assert ts == init + [t];
      var ks := GroupKeys(init);
      assert KeysIn(ts) == KeysIn(init) + {t.key} by {
        assert forall u :: u in ts <==> u in init || u == t;
      }
      if t.key in ks then ks else ks + [t.key]
  }

  /** Sum of column c over the rows of group k. */
  function SumWhere(ts: seq<Tagged>, k: FlowKey, c: Column): real {
    if |ts| == 0 then 0.0
    else
      var t := ts[|ts| - 1];
      SumWhere(ts[..|ts| - 1], k, c) + (if t.key == k then Field(t.row, c) else 0.0)
  }

  /** Number of rows in group k. */
  function CountWhere(ts: seq<Tagged>, k: FlowKey): nat {
    if |ts| == 0 then 0
    else CountWhere(ts[..|ts| - 1], k) + (if ts[|ts| - 1].key == k then 1 else 0)
  }

  /** The distinct dates of group k (what nunique counts). */
  function DatesWhere(ts: seq<Tagged>, k: FlowKey): set<string> {
    set t | t in ts && t.key == k :: t.row.date
  }

  function Total(ts: seq<Tagged>, c: Column): real {
    if |ts| == 0 then 0.0 else Total(ts[..|ts| - 1], c) + Field(ts[|ts| - 1].row, c)
  }

  function SumOverKeys(ks: seq<FlowKey>, ts: seq<Tagged>, c: Column): real {
    if |ks| == 0 then 0.0
    else SumOverKeys(ks[..|ks| - 1], ts, c) + SumWhere(ts, ks[|ks| - 1], c)
  }

  /** A group that exists has at least one row and at least one date, so
      the mean and the per-day division are defined. */
  lemma {:induction false} GroupNonEmpty(ts: seq<Tagged>, k: FlowKey)
    requires k in KeysIn(ts)
    ensures CountWhere(ts, k) >= 1 && |DatesWhere(ts, k)| >= 1
  {
    var t :| t in ts && t.key == k;
    assert t.row.date in DatesWhere(ts, k);
    CountPositive(ts, k, t);
  }

  lemma {:induction false} CountPositive(ts: seq<Tagged>, k: FlowKey, t: Tagged)
    requires t in ts && t.key == k
    ensures CountWhere(ts, k) >= 1
  {
    var last := ts[|ts| - 1];
    if last != t {
      assert ts == ts[..|ts| - 1] + [last];
      assert t in ts[..|ts| - 1];
      CountPositive(ts[..|ts| - 1], k, t);
    }
  }

  lemma {:induction false} SumWhereAbsent(ts: seq<Tagged>, k: FlowKey, c: Column)
    requires k !in KeysIn(ts)
    ensures SumWhere(ts, k, c) == 0.0
  {
    if |ts| > 0 {
      var init := ts[..|ts| - 1];
      assert ts[|ts| - 1] in ts;
      assert KeysIn(init) <= KeysIn(ts) by {
        forall u | u in init ensures u in ts {
        }
      }
      SumWhereAbsent(init, k, c);
    }
  }

  lemma {:induction false} SumOverKeysStep(ks: seq<FlowKey>, ts: seq<Tagged>, t: Tagged, c: Column)
    requires DistinctKeys(ks)
    ensures SumOverKeys(ks, ts + [t], c)
            == SumOverKeys(ks, ts, c) + (if t.key in ks then Field(t.row, c) else 0.0)
  {
    assert (ts + [t])[..|ts|] == ts;
    if |ks| > 0 {
      var init := ks[..|ks| - 1];
      assert ks == init + [ks[|ks| - 1]];
      SumOverKeysStep(init, ts, t, c);
    }
  }

  /** Grouping loses nothing: the group sums add up to the column total. */
  lemma {:induction false} GroupSumsAddUp(ts: seq<Tagged>, c: Column)
    ensures SumOverKeys(GroupKeys(ts), ts, c) == Total(ts, c)
  {
    if |ts| > 0 {
      var init := ts[..|ts| - 1];
      var t := ts[|ts| - 1];
      assert ts == init + [t];
      GroupSumsAddUp(init, c);
      var ks := GroupKeys(init);
      SumOverKeysStep(ks, init, t, c);
      if t.key !in ks {
        assert (ks + [t.key])[..|ks|] == ks;
        SumWhereAbsent(init, t.key, c);
      }
    }
  }

  /** Mean of column c over group k. */
  function Average(ts: seq<Tagged>, k: FlowKey, c: Column): real
    requires k in KeysIn(ts)
  {
    GroupNonEmpty(ts, k);
    SumWhere(ts, k, c) / (CountWhere(ts, k) as real)
  }

  /** The aggregated measure of group k: its sum, its mean, or its sum
      divided by its number of distinct dates. */
  function GroupMeasure(ts: seq<Tagged>, k: FlowKey, how: How): real
    requires k in KeysIn(ts)
  {
    GroupNonEmpty(ts, k);
    match how
    case Sum => SumWhere(ts, k, Count)
    case Mean => Average(ts, k, Count)
    case CountD => SumWhere(ts, k, Count) / (|DatesWhere(ts, k)| as real)
  }

  // ---------------------------------------------------------------------
  // sort_values(count_col, ascending=False)

  predicate SortedDesc<T>(s: seq<T>, m: T -> real) {
    forall i, j :: 0 <= i < j < |s| ==> m(s[i]) >= m(s[j])
  }

  predicate DistinctBy<T>(s: seq<T>, key: T -> FlowKey) {
    forall i, j :: 0 <= i < j < |s| ==> key(s[i]) != key(s[j])
  }

  function SumBy<T>(s: seq<T>, m: T -> real): real {
    if |s| == 0 then 0.0 else m(s[0]) + SumBy(s[1..], m)
  }

  function InsertDesc<T>(x: T, s: seq<T>, m: T -> real): (r: seq<T>)
    ensures multiset(r) == multiset(s) + multiset{x}
    ensures SumBy(r, m) == m(x) + SumBy(s, m)
  {
    if |s| == 0 || m(x) >= m(s[0]) then [x] + s
    else
      assert s == [s[0]] + s[1..];
      var rest := InsertDesc(x, s[1..], m);
      assert ([s[0]] + rest)[1..] == rest;
      [s[0]] + rest
  }

  /** Largest measure first. pandas' default sort is not stable, so the
      order among equal measures is this model's choice; nothing proved
      here depends on it. */
  function SortDesc<T>(s: seq<T>, m: T -> real): (r: seq<T>)
    ensures multiset(r) == multiset(s)
    ensures SumBy(r, m) == SumBy(s, m)
  {
    if |s| == 0 then []
    else
      assert s == [s[0]] + s[1..];
      InsertDesc(s[0], SortDesc(s[1..], m), m)
  }

  lemma InsertDescMembers<T>(x: T, s: seq<T>, m: T -> real, q: T)
    requires q in InsertDesc(x, s, m)
    ensures q == x || q in s
  {
    assert q in multiset(InsertDesc(x, s, m));
  }

  lemma SortedDescCons<T>(h: T, rest: seq<T>, m: T -> real)
    requires SortedDesc(rest, m) && forall q :: q in rest ==> m(h) >= m(q)
    ensures SortedDesc([h] + rest, m)
  {
    var r := [h] + rest;
    forall i, j | 0 <= i < j < |r| ensures m(r[i]) >= m(r[j]) {
      if i == 0 {
        assert r[j] in rest;
      } else {
        assert r[i] == rest[i - 1] && r[j] == rest[j - 1];
      }
    }
  }

  lemma SortedDescTail<T>(s: seq<T>, m: T -> real)
    requires |s| > 0 && SortedDesc(s, m)
    ensures SortedDesc(s[1..], m) && forall q :: q in s[1..] ==> m(s[0]) >= m(q)
  {
    var tail := s[1..];
    forall i, j | 0 <= i < j < |tail| ensures m(tail[i]) >= m(tail[j]) {
      assert tail[i] == s[i + 1] && tail[j] == s[j + 1];
    }
    forall q | q in tail ensures m(s[0]) >= m(q) {
      var k :| 0 <= k < |tail| && tail[k] == q;
      assert s[k + 1] == q;
    }
  }

  lemma {:induction false} InsertDescSorted<T>(x: T, s: seq<T>, m: T -> real)
    requires SortedDesc(s, m)
    ensures SortedDesc(InsertDesc(x, s, m), m)
  {
    if |s| == 0 || m(x) >= m(s[0]) {
      if |s| > 0 {
        SortedDescTail(s, m);
        assert s == [s[0]] + s[1..];
      }
      SortedDescCons(x, s, m);
    } else {
      SortedDescTail(s, m);
      InsertDescSorted(x, s[1..], m);
      var rest := InsertDesc(x, s[1..], m);
      forall q | q in rest ensures m(s[0]) >= m(q) {
        InsertDescMembers(x, s[1..], m, q);
      }
      SortedDescCons(s[0], rest, m);
    }
  }

  lemma {:induction false} SortDescSorted<T>(s: seq<T>, m: T -> real)
    ensures SortedDesc(SortDesc(s, m), m)
  {
    if |s| > 0 {
      SortDescSorted(s[1..], m);
      InsertDescSorted(s[0], SortDesc(s[1..], m), m);
    }
  }

  lemma DistinctByCons<T>(h: T, rest: seq<T>, key: T -> FlowKey)
    requires DistinctBy(rest, key) && forall q :: q in rest ==> key(h) != key(q)
    ensures DistinctBy([h] + rest, key)
  {
    var r := [h] + rest;
    forall i, j | 0 <= i < j < |r| ensures key(r[i]) != key(r[j]) {
      if i == 0 {
        assert r[j] in rest;
      } else {
        assert r[i] == rest[i - 1] && r[j] == rest[j - 1];
      }
    }
  }

  lemma DistinctByTail<T>(s: seq<T>, key: T -> FlowKey)
    requires |s| > 0 && DistinctBy(s, key)
    ensures DistinctBy(s[1..], key) && forall q :: q in s[1..] ==> key(s[0]) != key(q)
  {
    var tail := s[1..];
    forall i, j | 0 <= i < j < |tail| ensures key(tail[i]) != key(tail[j]) {
      assert tail[i] == s[i + 1] && tail[j] == s[j + 1];
    }
    forall q | q in tail ensures key(s[0]) != key(q) {
      var k :| 0 <= k < |tail| && tail[k] == q;
      assert s[k + 1] == q;
    }
  }

  lemma {:induction false} InsertDescDistinct<T>(x: T, s: seq<T>, m: T -> real, key: T -> FlowKey)
    requires DistinctBy(s, key) && forall q :: q in s ==> key(q) != key(x)
    ensures DistinctBy(InsertDesc(x, s, m), key)
  {
    if |s| == 0 || m(x) >= m(s[0]) {
      DistinctByCons(x, s, key);
    } else {
      DistinctByTail(s, key);
      assert s == [s[0]] + s[1..];
      InsertDescDistinct(x, s[1..], m, key);
      var rest := InsertDesc(x, s[1..], m);
      forall q | q in rest ensures key(s[0]) != key(q) {
        InsertDescMembers(x, s[1..], m, q);
      }
      DistinctByCons(s[0], rest, key);
    }
  }

  /** Sorting keeps one row per key. */
  lemma {:induction false} SortDescDistinct<T>(s: seq<T>, m: T -> real, key: T -> FlowKey)
    requires DistinctBy(s, key)
    ensures DistinctBy(SortDesc(s, m), key)
  {
    if |s| > 0 {
      var tail := s[1..];
      DistinctByTail(s, key);
      SortDescDistinct(tail, m, key);
      var sorted := SortDesc(tail, m);
      forall q | q in sorted ensures key(q) != key(s[0]) {
        assert q in multiset(tail);
      }
      InsertDescDistinct(s[0], sorted, m, key);
    }
  }

  // ---------------------------------------------------------------------
  // combine = True: place IDs, the 'Pair' column, groupby('Pair')

  function AggregateMeasure(a: Aggregate): real {
    a.measure
  }

  function AggregateKey(a: Aggregate): FlowKey {
    a.key
  }

  function FlowMeasure(f: Flow): real {
    f.measure
  }

  function FlowKeyOf(f: Flow): FlowKey {
    f.key
  }

  predicate Registered(reg: seq<Place>, r: OdRow) {
    r.origin in Names(reg) && r.dest in Names(reg)
  }

  /** The 'Pair' key of a row whose two names are both in the place table. */
  function PairOf(reg: seq<Place>, r: OdRow): FlowKey
    requires Registered(reg, r)
  {
    Pair(PairKey(PlaceId(reg, r.origin), PlaceId(reg, r.dest)))
  }

  /** The two merges on the place names (inner joins, so a row whose name is
      not in the place table would be dropped), then the 'Pair' column. */
  function TagPairs(rows: seq<OdRow>, reg: seq<Place>): seq<Tagged> {
    if |rows| == 0 then []
    else
      var r := rows[|rows| - 1];
      TagPairs(rows[..|rows| - 1], reg)
      + (if Registered(reg, r) then [Tagged(PairOf(reg, r), r)] else [])
  }

  /** With the place table built from the rows themselves, no row is
      dropped by the merges. */
  lemma {:induction false} TagPairsKeepsRows(rows: seq<OdRow>, reg: seq<Place>)
    requires forall r :: r in rows ==> Registered(reg, r)
    ensures |TagPairs(rows, reg)| == |rows|
    ensures forall i :: 0 <= i < |rows| ==>
              TagPairs(rows, reg)[i] == Tagged(PairOf(reg, rows[i]), rows[i])
    ensures Total(TagPairs(rows, reg), Count) == RowsTotal(rows)
  {
    if |rows| > 0 {
      var init := rows[..|rows| - 1];
      assert rows == init + [rows[|rows| - 1]];
      assert forall r :: r in init ==> r in rows;
      TagPairsKeepsRows(init, reg);
      assert rows[|rows| - 1] in rows;
      var ts := TagPairs(rows, reg);
      assert ts[..|ts| - 1] == TagPairs(init, reg);
    }
  }

  function RowsTotal(rows: seq<OdRow>): real {
    if |rows| == 0 then 0.0 else RowsTotal(rows[..|rows| - 1]) + rows[|rows| - 1].count
  }

  /** countd keeps its meaning; any other `how` sums, since that branch of
      the source always aggregates with 'sum'. */
  function CombinedHow(how: How): How {
    if how == CountD then CountD else Sum
  }

  /** groupby('Pair').agg(...), and for countd the division by nunique. */
  function AggregatePairs(ts: seq<Tagged>, how: How): (aggs: seq<Aggregate>)
    ensures |aggs| == |GroupKeys(ts)|
    ensures forall i :: 0 <= i < |aggs| ==>
              aggs[i].key == GroupKeys(ts)[i]
              && aggs[i].measure == GroupMeasure(ts, aggs[i].key, CombinedHow(how))
    ensures (set a | a in aggs :: a.key) == KeysIn(ts)
    ensures DistinctBy(aggs, AggregateKey)
    ensures how != CountD ==> SumBy(aggs, AggregateMeasure) == Total(ts, Count)
  {
    var ks := GroupKeys(ts);
    var aggs := seq(|ks|, i requires 0 <= i < |ks| => Aggregate(ks[i], GroupMeasure(ts, ks[i], CombinedHow(how))));
    KeyedLikeGroups(ts, aggs);
    if how != CountD then
      GroupSumsAddUp(ts, Count);
      AggregatesAddUp(aggs, ks, ts);
      aggs
    else aggs
  }

  lemma KeyedLikeGroups(ts: seq<Tagged>, aggs: seq<Aggregate>)
    requires |aggs| == |GroupKeys(ts)|
    requires forall i :: 0 <= i < |aggs| ==> aggs[i].key == GroupKeys(ts)[i]
    ensures (set a | a in aggs :: a.key) == KeysIn(ts)
    ensures DistinctBy(aggs, AggregateKey)
  {
    var ks := GroupKeys(ts);
    forall k | k in KeysIn(ts) ensures k in (set a | a in aggs :: a.key) {
      var i :| 0 <= i < |ks| && ks[i] == k;
      assert aggs[i] in aggs;
    }
  }

  /** Pair.str.split('-') into PlaceID1 and PlaceID2, then the two merges
      with the place table: PlaceID1's coordinates become the origin
      columns and PlaceID2's the destination columns. */
  function Endpoints(a: Aggregate, reg: seq<Place>): (r: Option<Flow>)
    ensures r.Some? ==> r.value.key == a.key && r.value.measure == a.measure
  {
    if !a.key.Pair? then None
    else match SplitPair(a.key.pair)
      case None => None
      case Some((id1, id2)) =>
        if id1 < |reg| && id2 < |reg|
        then Some(Flow(a.key, a.measure, reg[id1].lng, reg[id1].lat, reg[id2].lng, reg[id2].lat))
        else None
  }

  function AttachEndpoints(aggs: seq<Aggregate>, reg: seq<Place>): seq<Flow> {
    if |aggs| == 0 then []
    else
      (match Endpoints(aggs[0], reg) case Some(f) => [f] case None => [])
      + AttachEndpoints(aggs[1..], reg)
  }

  lemma {:induction false} AttachEndpointsKeepsRows(aggs: seq<Aggregate>, reg: seq<Place>)
    requires forall a :: a in aggs ==> Endpoints(a, reg).Some?
    ensures |AttachEndpoints(aggs, reg)| == |aggs|
    ensures forall i :: 0 <= i < |aggs| ==> AttachEndpoints(aggs, reg)[i] == Endpoints(aggs[i], reg).value
  {
    if |aggs| > 0 {
      assert aggs[0] in aggs;
      assert forall a :: a in aggs[1..] ==> a in aggs;
      AttachEndpointsKeepsRows(aggs[1..], reg);
    }
  }

  // ---------------------------------------------------------------------
  // combine = False: groupby([o_col, d_col])

  function TagDirected(rows: seq<OdRow>): (ts: seq<Tagged>)
    ensures |ts| == |rows|
    ensures forall i :: 0 <= i < |rows| ==> ts[i] == Tagged(Directed(rows[i].origin, rows[i].dest), rows[i])
    ensures KeysIn(ts) == set r | r in rows :: Directed(r.origin, r.dest)
  {
    var ts := seq(|rows|, i requires 0 <= i < |rows| => Tagged(Directed(rows[i].origin, rows[i].dest), rows[i]));
    assert forall k :: k in (set r | r in rows :: Directed(r.origin, r.dest)) ==> k in KeysIn(ts) by {
      forall k | k in (set r | r in rows :: Directed(r.origin, r.dest)) ensures k in KeysIn(ts) {
        var r :| r in rows && Directed(r.origin, r.dest) == k;
        var i :| 0 <= i < |rows| && rows[i] == r;
        assert ts[i] in ts;
      }
    }
    ts
  }

  /** One row per (origin, destination) group: the measure aggregated with
      `how`, the four coordinates averaged. */
  function DirectedFlows(ts: seq<Tagged>, how: How): (flows: seq<Flow>)
    ensures |flows| == |GroupKeys(ts)|
    ensures forall i :: 0 <= i < |flows| ==> flows[i].key == GroupKeys(ts)[i]
    ensures (set f | f in flows :: f.key) == KeysIn(ts)
    ensures DistinctBy(flows, FlowKeyOf)
  {
    var ks := GroupKeys(ts);
    var flows := seq(|ks|, i requires 0 <= i < |ks| =>
      Flow(ks[i], GroupMeasure(ts, ks[i], how),
           Average(ts, ks[i], OriginX), Average(ts, ks[i], OriginY),
           Average(ts, ks[i], DestX), Average(ts, ks[i], DestY)));
    assert forall k :: k in KeysIn(ts) ==> k in (set f | f in flows :: f.key) by {
      forall k | k in KeysIn(ts) ensures k in (set f | f in flows :: f.key) {
        var i :| 0 <= i < |ks| && ks[i] == k;
        assert flows[i] in flows;
      }
    }
    flows
  }

  // ---------------------------------------------------------------------
  // the whole function

  /** The rows tagged with their 'Pair' key on the combine=True path. */
  function CombinedTagged(rows: seq<OdRow>): seq<Tagged> {
    TagPairs(rows, BuildRegistry(rows))
  }

  /** The 'Pair' groups of the combine=True path, largest measure first. */
  function CombinedRanked(rows: seq<OdRow>, how: How): seq<Aggregate> {
    SortDesc(AggregatePairs(CombinedTagged(rows), how), AggregateMeasure)
  }

  function GetODLine(rows: seq<OdRow>, how: How, combine: bool): seq<Flow> {
    if !combine then SortDesc(DirectedFlows(TagDirected(rows), how), FlowMeasure)
    else AttachEndpoints(CombinedRanked(rows, how), BuildRegistry(rows))
  }

  /** The two IDs of a row's places, smaller first, and the row's flow
      has the smaller ID's coordinates as origin and the larger's as
      destination. */
  predicate EndpointsFrom(f: Flow, reg: seq<Place>, r: OdRow)
    requires Registered(reg, r)
  {
    var a, b := PlaceId(reg, r.origin), PlaceId(reg, r.dest);
    var lo, hi := if a < b then a else b, if a < b then b else a;
    && f.key == Pair(PairKey(lo, hi))
    && f.originX == reg[lo].lng && f.originY == reg[lo].lat
    && f.destX == reg[hi].lng && f.destY == reg[hi].lat
  }

  lemma RowsRegistered(rows: seq<OdRow>)
    ensures forall r :: r in rows ==> Registered(BuildRegistry(rows), r)
  {
    RegistryIsBijection(rows);
  }

  /** No row is lost to the merges on the place names. */
  lemma CombinedTaggedRows(rows: seq<OdRow>)
    ensures var reg := BuildRegistry(rows);
            var ts := CombinedTagged(rows);
            && |ts| == |rows|
            && (forall i :: 0 <= i < |rows| ==>
                  Registered(reg, rows[i]) && ts[i] == Tagged(PairOf(reg, rows[i]), rows[i]))
            && Total(ts, Count) == RowsTotal(rows)
  {
    RowsRegistered(rows);
    TagPairsKeepsRows(rows, BuildRegistry(rows));
  }

  /** A group tagged with a row's 'Pair' key gets that row's two places as
      endpoints, smaller PlaceID first. */
  lemma PairEndpoints(reg: seq<Place>, r: OdRow, a: Aggregate)
    requires Registered(reg, r) && a.key == PairOf(reg, r)
    ensures Endpoints(a, reg).Some? && EndpointsFrom(Endpoints(a, reg).value, reg, r)
  {
    PairKeyRoundTrip(PlaceId(reg, r.origin), PlaceId(reg, r.dest));
  }

  lemma GroupWitness(rows: seq<OdRow>, k: FlowKey)
    requires k in KeysIn(CombinedTagged(rows))
    ensures |CombinedTagged(rows)| == |rows|
    ensures exists p :: 0 <= p < |rows| && Registered(BuildRegistry(rows), rows[p])
                        && CombinedTagged(rows)[p].key == k
  {
    CombinedTaggedRows(rows);
    var ts := CombinedTagged(rows);
    var t :| t in ts && t.key == k;
    var p :| 0 <= p < |ts| && ts[p] == t;
    assert Registered(BuildRegistry(rows), rows[p]);
  }

  /** A ranked group is a group of ts with its aggregated measure. */
  lemma RankedMember(ts: seq<Tagged>, how: How, a: Aggregate)
    requires a in SortDesc(AggregatePairs(ts, how), AggregateMeasure)
    ensures a.key in KeysIn(ts)
    ensures a.measure == GroupMeasure(ts, a.key, CombinedHow(how))
  {
    var aggs := AggregatePairs(ts, how);
    assert a in multiset(SortDesc(aggs, AggregateMeasure));
    assert a in multiset(aggs);
    var i :| 0 <= i < |aggs| && aggs[i] == a;
    assert a.key == GroupKeys(ts)[i];
  }

  /** Every group finds its two places in the table, so the final merges
      drop nothing. */
  lemma CombinedOutput(rows: seq<OdRow>, how: How)
    ensures forall a :: a in CombinedRanked(rows, how) ==> Endpoints(a, BuildRegistry(rows)).Some?
    ensures |GetODLine(rows, how, true)| == |CombinedRanked(rows, how)|
    ensures forall i :: 0 <= i < |CombinedRanked(rows, how)| ==>
              GetODLine(rows, how, true)[i] == Endpoints(CombinedRanked(rows, how)[i], BuildRegistry(rows)).value
  {
    var reg := BuildRegistry(rows);
    var ranked := CombinedRanked(rows, how);
    forall a | a in ranked ensures Endpoints(a, reg).Some? {
      RankedMember(CombinedTagged(rows), how, a);
      GroupWitness(rows, a.key);
      var p :| 0 <= p < |rows| && Registered(reg, rows[p]) && CombinedTagged(rows)[p].key == a.key;
      CombinedTaggedRows(rows);
      PairEndpoints(reg, rows[p], a);
    }
    AttachEndpointsKeepsRows(ranked, reg);
  }

  /** combine=True: every output row is one undirected pair of places
      occurring in the input, its measure is that pair's sum (divided by
      its number of distinct dates for countd; 'mean' also sums), and its
      origin and destination are the smaller and the larger PlaceID. */
  lemma CombinedFlowRow(rows: seq<OdRow>, how: How, i: int)
    requires 0 <= i < |GetODLine(rows, how, true)|
    ensures var reg := BuildRegistry(rows);
            var ts := CombinedTagged(rows);
            var f := GetODLine(rows, how, true)[i];
            && |ts| == |rows|
            && f.key in KeysIn(ts)
            && f.measure == GroupMeasure(ts, f.key, CombinedHow(how))
            && exists p :: 0 <= p < |rows| && Registered(reg, rows[p])
                 && ts[p].key == f.key && EndpointsFrom(f, reg, rows[p])
  {
    var reg := BuildRegistry(rows);
    var ranked := CombinedRanked(rows, how);
    CombinedOutput(rows, how);
    var a := ranked[i];
    RankedMember(CombinedTagged(rows), how, a);
    GroupWitness(rows, a.key);
    var p :| 0 <= p < |rows| && Registered(reg, rows[p]) && CombinedTagged(rows)[p].key == a.key;
    CombinedTaggedRows(rows);
    PairEndpoints(reg, rows[p], a);
  }

  /** One group per distinct key. */
  lemma GroupKeysCount(ts: seq<Tagged>)
    ensures |GroupKeys(ts)| == |KeysIn(ts)|
  {
    var ks := GroupKeys(ts);
    DistinctCount(ks);
    assert (set k | k in ks) == KeysIn(ts);
  }

  lemma {:induction false} DistinctCount(ks: seq<FlowKey>)
    requires DistinctKeys(ks)
    ensures |set k | k in ks| == |ks|
  {
    if |ks| > 0 {
      var init := ks[..|ks| - 1];
      var k := ks[|ks| - 1];
      assert ks == init + [k];
      DistinctCount(init);
      assert (set x | x in ks) == (set x | x in init) + {k};
    }
  }

  /** Each key of ts has a position among the groups. */
  lemma GroupIndex(ts: seq<Tagged>, p: int)
    requires 0 <= p < |ts|
    ensures exists j :: 0 <= j < |GroupKeys(ts)| && GroupKeys(ts)[j] == ts[p].key
  {
    assert ts[p] in ts;
    assert ts[p].key in GroupKeys(ts);
  }

  /** combine=True: exactly one output row per undirected pair that occurs. */
  lemma CombinedFlowsCoverPairs(rows: seq<OdRow>, how: How)
    ensures var ts := CombinedTagged(rows);
            var flows := GetODLine(rows, how, true);
            && |ts| == |rows|
            && DistinctBy(flows, FlowKeyOf)
            && (forall p :: 0 <= p < |rows| ==> exists i :: 0 <= i < |flows| && flows[i].key == ts[p].key)
            && |flows| == |KeysIn(ts)|
  {
    var ts := CombinedTagged(rows);
    var ranked := CombinedRanked(rows, how);
    var flows := GetODLine(rows, how, true);
    CombinedTaggedRows(rows);
    CombinedKeys(rows, how);
    forall p | 0 <= p < |rows| ensures exists i :: 0 <= i < |flows| && flows[i].key == ts[p].key {
      var i := RankedIndexOf(ts, how, p);
      assert flows[i].key == ts[p].key;
    }
  }

  /** The output rows carry the keys of the ranked groups, one per group. */
  lemma CombinedKeys(rows: seq<OdRow>, how: How)
    ensures |GetODLine(rows, how, true)| == |CombinedRanked(rows, how)| == |KeysIn(CombinedTagged(rows))|
    ensures forall i :: 0 <= i < |GetODLine(rows, how, true)| ==>
              GetODLine(rows, how, true)[i].key == CombinedRanked(rows, how)[i].key
    ensures DistinctBy(GetODLine(rows, how, true), FlowKeyOf)
  {
    CombinedOutput(rows, how);
    RankedDistinct(CombinedTagged(rows), how);
    KeysCarriedOver(CombinedRanked(rows, how), GetODLine(rows, how, true));
  }

  /** The ranked groups of ts: one per key. */
  lemma RankedDistinct(ts: seq<Tagged>, how: How)
    ensures var ranked := SortDesc(AggregatePairs(ts, how), AggregateMeasure);
            DistinctBy(ranked, AggregateKey) && |ranked| == |KeysIn(ts)|
  {
    var aggs := AggregatePairs(ts, how);
    var ranked := SortDesc(aggs, AggregateMeasure);
    assert DistinctBy(aggs, AggregateKey);
    SortDescDistinct(aggs, AggregateMeasure, AggregateKey);
    assert |ranked| == |multiset(ranked)| == |multiset(aggs)| == |aggs|;
    GroupKeysCount(ts);
  }

  lemma KeysCarriedOver(ranked: seq<Aggregate>, flows: seq<Flow>)
    requires |flows| == |ranked| && DistinctBy(ranked, AggregateKey)
    requires forall i :: 0 <= i < |flows| ==> flows[i].key == ranked[i].key
    ensures DistinctBy(flows, FlowKeyOf)
  {
    forall i, j | 0 <= i < j < |flows| ensures flows[i].key != flows[j].key {
      assert AggregateKey(ranked[i]) != AggregateKey(ranked[j]);
    }
  }

  /** Every key of ts is the key of some ranked group. */
  lemma RankedIndexOf(ts: seq<Tagged>, how: How, p: int) returns (i: int)
    requires 0 <= p < |ts|
    ensures var ranked := SortDesc(AggregatePairs(ts, how), AggregateMeasure);
            0 <= i < |ranked| && ranked[i].key == ts[p].key
  {
    var aggs := AggregatePairs(ts, how);
    var ranked := SortDesc(aggs, AggregateMeasure);
    GroupIndex(ts, p);
    var j :| 0 <= j < |GroupKeys(ts)| && GroupKeys(ts)[j] == ts[p].key;
    assert aggs[j] in multiset(ranked);
    i :| 0 <= i < |ranked| && ranked[i] == aggs[j];
  }

  /** combine=True: two rows fall into the same group exactly when they
      join the same two places, whichever way they travel. */
  lemma CombinedMergesDirections(rows: seq<OdRow>, p: int, q: int)
    requires 0 <= p < |rows| && 0 <= q < |rows|
    ensures var ts := CombinedTagged(rows);
            && |ts| == |rows|
            && (ts[p].key == ts[q].key
                <==> ((rows[p].origin == rows[q].origin && rows[p].dest == rows[q].dest)
                      || (rows[p].origin == rows[q].dest && rows[p].dest == rows[q].origin)))
  {
    var reg := BuildRegistry(rows);
    CombinedTaggedRows(rows);
    RegistryIsBijection(rows);
    var op, dp := PlaceId(reg, rows[p].origin), PlaceId(reg, rows[p].dest);
    var oq, dq := PlaceId(reg, rows[q].origin), PlaceId(reg, rows[q].dest);
    PairKeyInjective(op, dp, oq, dq);
    PlaceIdUniqueFor(reg, rows[p].origin, rows[q].origin);
    PlaceIdUniqueFor(reg, rows[p].origin, rows[q].dest);
    PlaceIdUniqueFor(reg, rows[p].dest, rows[q].origin);
    PlaceIdUniqueFor(reg, rows[p].dest, rows[q].dest);
  }

  lemma PlaceIdUniqueFor(reg: seq<Place>, a: string, b: string)
    requires a in Names(reg) && b in Names(reg)
    ensures PlaceId(reg, a) == PlaceId(reg, b) <==> a == b
  {
  }

  /** combine=True with 'sum' or 'mean': the total measure is preserved. */
  lemma CombinedTotalPreserved(rows: seq<OdRow>, how: How)
    requires how != CountD
    ensures SumBy(GetODLine(rows, how, true), FlowMeasure) == RowsTotal(rows)
  {
    var reg := BuildRegistry(rows);
    var ranked := CombinedRanked(rows, how);
    CombinedTaggedRows(rows);
    CombinedOutput(rows, how);
    FlowsAddUp(ranked, reg);
  }

  lemma {:induction false} AggregatesAddUp(aggs: seq<Aggregate>, ks: seq<FlowKey>, ts: seq<Tagged>)
    requires |aggs| == |ks|
    requires forall i :: 0 <= i < |aggs| ==> aggs[i].measure == SumWhere(ts, ks[i], Count)
    ensures SumBy(aggs, AggregateMeasure) == SumOverKeys(ks, ts, Count)
  {
    if |aggs| > 0 {
      var n := |aggs| - 1;
      AggregatesAddUp(aggs[..n], ks[..n], ts);
      SumBySnoc(aggs[..n], aggs[n], AggregateMeasure);
      assert aggs == aggs[..n] + [aggs[n]];
    }
  }

  lemma {:induction false} SumBySnoc<T>(s: seq<T>, x: T, m: T -> real)
    ensures SumBy(s + [x], m) == SumBy(s, m) + m(x)
  {
    if |s| > 0 {
      assert (s + [x])[1..] == s[1..] + [x];
      SumBySnoc(s[1..], x, m);
    }
  }

  lemma {:induction false} FlowsAddUp(ranked: seq<Aggregate>, reg: seq<Place>)
    requires forall a :: a in ranked ==> Endpoints(a, reg).Some?
    ensures SumBy(AttachEndpoints(ranked, reg), FlowMeasure) == SumBy(ranked, AggregateMeasure)
  {
    if |ranked| > 0 {
      assert ranked[0] in ranked;
      assert forall a :: a in ranked[1..] ==> a in ranked;
      FlowsAddUp(ranked[1..], reg);
      var f := Endpoints(ranked[0], reg).value;
      assert AttachEndpoints(ranked, reg) == [f] + AttachEndpoints(ranked[1..], reg);
      assert ([f] + AttachEndpoints(ranked[1..], reg))[1..] == AttachEndpoints(ranked[1..], reg);
    }
  }

  /** combine=False: every output row is one (origin, destination) group
      of the input, its measure aggregated with `how`, its coordinates the
      group means; A->B and B->A stay apart. */
  lemma DirectedFlowRow(rows: seq<OdRow>, how: How, i: int)
    requires 0 <= i < |GetODLine(rows, how, false)|
    ensures var ts := TagDirected(rows);
            var f := GetODLine(rows, how, false)[i];
            && f.key in KeysIn(ts)
            && (exists p :: 0 <= p < |rows| && f.key == Directed(rows[p].origin, rows[p].dest))
            && f.measure == GroupMeasure(ts, f.key, how)
            && f.originX == Average(ts, f.key, OriginX) && f.originY == Average(ts, f.key, OriginY)
            && f.destX == Average(ts, f.key, DestX) && f.destY == Average(ts, f.key, DestY)
  {
    var ts := TagDirected(rows);
    var flows := DirectedFlows(ts, how);
    var f := GetODLine(rows, how, false)[i];
    assert f in multiset(GetODLine(rows, how, false));
    assert f in multiset(flows);
    var j :| 0 <= j < |flows| && flows[j] == f;
    assert f.key in GroupKeys(ts);
    var t :| t in ts && t.key == f.key;
    var p :| 0 <= p < |ts| && ts[p] == t;
    assert f.key == Directed(rows[p].origin, rows[p].dest);
  }

  /** combine=False: exactly one output row per directed pair that occurs. */
  lemma DirectedFlowsCoverPairs(rows: seq<OdRow>, how: How)
    ensures var ts := TagDirected(rows);
            var flows := GetODLine(rows, how, false);
            && DistinctBy(flows, FlowKeyOf)
            && (forall p :: 0 <= p < |rows| ==>
                  exists i :: 0 <= i < |flows| && flows[i].key == Directed(rows[p].origin, rows[p].dest))
            && |flows| == |KeysIn(ts)|
  {
    var ts := TagDirected(rows);
    var flows := DirectedFlows(ts, how);
    var sorted := GetODLine(rows, how, false);
    assert DistinctBy(flows, FlowKeyOf);
    SortDescDistinct(flows, FlowMeasure, FlowKeyOf);
    forall p | 0 <= p < |rows|
      ensures exists i :: 0 <= i < |sorted| && sorted[i].key == Directed(rows[p].origin, rows[p].dest)
    {
      GroupIndex(ts, p);
      var j :| 0 <= j < |GroupKeys(ts)| && GroupKeys(ts)[j] == ts[p].key;
      assert flows[j] in multiset(sorted);
      var i :| 0 <= i < |sorted| && sorted[i] == flows[j];
      assert sorted[i].key == Directed(rows[p].origin, rows[p].dest);
    }
    assert |sorted| == |multiset(sorted)| == |multiset(flows)| == |flows|;
    GroupKeysCount(ts);
  }

  /** Both paths return the table sorted by measure, largest first. */
  lemma GetODLineSortedDesc(rows: seq<OdRow>, how: How, combine: bool)
    ensures SortedDesc(GetODLine(rows, how, combine), FlowMeasure)
  {
    if !combine {
      SortDescSorted(DirectedFlows(TagDirected(rows), how), FlowMeasure);
    } else {
      var ranked := CombinedRanked(rows, how);
      SortDescSorted(AggregatePairs(CombinedTagged(rows), how), AggregateMeasure);
      CombinedOutput(rows, how);
      var flows := GetODLine(rows, how, true);
      assert forall i :: 0 <= i < |flows| ==> flows[i].measure == ranked[i].measure;
    }
  }

  /** The countd measure of a three-row group seen on two dates. */
  lemma CountDGroup(ts: seq<Tagged>, k: FlowKey, d1: string, d2: string)
    requires d1 != d2 && |ts| == 3
    requires forall i :: 0 <= i < 3 ==> ts[i].key == k
    requires ts[0].row.count == 10.0 && ts[1].row.count == 20.0 && ts[2].row.count == 30.0
    requires ts[0].row.date == d1 && ts[1].row.date == d2 && ts[2].row.date == d1
    ensures k in KeysIn(ts) && GroupMeasure(ts, k, CountD) == 30.0
  {
    assert ts[0] in ts;
    assert ts[..2] == [ts[0], ts[1]] && ts[..2][..1] == [ts[0]] && ts[..2][..1][..0] == [];
    assert SumWhere(ts[..2][..1], k, Count) == 10.0;
    assert SumWhere(ts[..2], k, Count) == 30.0;
    assert SumWhere(ts, k, Count) == 60.0;
    assert ts == [ts[0], ts[1], ts[2]];
    assert DatesWhere(ts, k) == {d1, d2};
  }

  /** The three rows of the countd example fall into one 'Pair' group. */
  lemma CountDExampleGroup(rows: seq<OdRow>, a: string, b: string)
    requires |rows| == 3
    requires rows[0].origin == a && rows[0].dest == b
    requires rows[1].origin == a && rows[1].dest == b
    requires rows[2].origin == b && rows[2].dest == a
    ensures var ts := CombinedTagged(rows);
            && |ts| == 3
            && (forall i :: 0 <= i < 3 ==> ts[i].key == ts[0].key && ts[i].row == rows[i])
            && KeysIn(ts) == {ts[0].key}
  {
    var ts := CombinedTagged(rows);
    CombinedTaggedRows(rows);
    CombinedMergesDirections(rows, 0, 1);
    CombinedMergesDirections(rows, 0, 2);
    assert ts == [ts[0], ts[1], ts[2]];
  }

  /** combine=True with countd: A->B (10 on d1), A->B (20 on d2) and
      B->A (30 on d1) become one row with (10 + 20 + 30) / 2 = 30, because
      the pair was observed on two distinct dates. */
  lemma CountDExample(a: string, b: string, d1: string, d2: string, rows: seq<OdRow>)
    requires d1 != d2
    requires rows == [OdRow(a, 0.0, 0.0, b, 1.0, 1.0, 10.0, d1),
                      OdRow(a, 0.0, 0.0, b, 1.0, 1.0, 20.0, d2),
                      OdRow(b, 1.0, 1.0, a, 0.0, 0.0, 30.0, d1)]
    ensures |GetODLine(rows, CountD, true)| == 1 && GetODLine(rows, CountD, true)[0].measure == 30.0
  {
    var ts := CombinedTagged(rows);
    CountDExampleGroup(rows, a, b);
    CountDGroup(ts, ts[0].key, d1, d2);
    CombinedFlowsCoverPairs(rows, CountD);
    CombinedFlowRow(rows, CountD, 0);
  }
}
