/** The place table get_OD_line_shp builds when it merges both directions
    of travel (GISshape.py:39-43), and the undirected pair key it derives
    from two place IDs (GISshape.py:50-52, split again at :55 and :79). */
module PlaceRegistry {
  import opened Text

  /** One input row: the origin and destination names with their WGS84
      coordinates, the measure to aggregate and the date it was observed. */
  datatype OdRow = OdRow(
    origin: string, originX: real, originY: real,
    dest: string, destX: real, destY: real,
    count: real, date: string)

  /** A row of the place table: PlaceName, PlaceLng, PlaceLat. */
  datatype Place = Place(name: string, lng: real, lat: real)

  datatype Option<T> = None | Some(value: T)

  function OriginPlaces(rows: seq<OdRow>): (ps: seq<Place>)
    ensures |ps| == |rows|
    ensures forall i :: 0 <= i < |rows| ==> ps[i] == Place(rows[i].origin, rows[i].originX, rows[i].originY)
    ensures Names(ps) == set r | r in rows :: r.origin
  {
    var ps := seq(|rows|, i requires 0 <= i < |rows| => Place(rows[i].origin, rows[i].originX, rows[i].originY));
    assert forall n :: n in (set r | r in rows :: r.origin) ==> n in Names(ps) by {
      forall n | n in (set r | r in rows :: r.origin) ensures n in Names(ps) {
        var r :| r in rows && r.origin == n;
        var i :| 0 <= i < |rows| && rows[i] == r;
        assert ps[i] in ps;
      }
    }
    ps
  }

  function DestPlaces(rows: seq<OdRow>): (ps: seq<Place>)
    ensures |ps| == |rows|
    ensures forall i :: 0 <= i < |rows| ==> ps[i] == Place(rows[i].dest, rows[i].destX, rows[i].destY)
    ensures Names(ps) == set r | r in rows :: r.dest
  {
    var ps := seq(|rows|, i requires 0 <= i < |rows| => Place(rows[i].dest, rows[i].destX, rows[i].destY));
    assert forall n :: n in (set r | r in rows :: r.dest) ==> n in Names(ps) by {
      forall n | n in (set r | r in rows :: r.dest) ensures n in Names(ps) {
        var r :| r in rows && r.dest == n;
        var i :| 0 <= i < |rows| && rows[i] == r;
        assert ps[i] in ps;
      }
    }
    ps
  }

  /** pd.concat of the origin triples followed by the destination triples. */
  function Candidates(rows: seq<OdRow>): seq<Place> {
    OriginPlaces(rows) + DestPlaces(rows)
  }

  /** Every name in the origin or the destination column. */
  function AllNames(rows: seq<OdRow>): set<string> {
    (set r | r in rows :: r.origin) + (set r | r in rows :: r.dest)
  }

  function Names(ps: seq<Place>): set<string> {
    set p | p in ps :: p.name
  }

  predicate DistinctNames(ps: seq<Place>) {
    forall i, j :: 0 <= i < j < |ps| ==> ps[i].name != ps[j].name
  }

  predicate SortedByName(ps: seq<Place>) {
    forall i, j :: 0 <= i < j < |ps| ==> StrLess(ps[i].name, ps[j].name)
  }

  /** p is the first entry of ps that carries p's name. */
  predicate IsFirstOccurrence(ps: seq<Place>, p: Place) {
    exists j :: 0 <= j < |ps| && ps[j] == p && forall k :: 0 <= k < j ==> ps[k].name != p.name
  }

  /** drop_duplicates(subset=['PlaceName']) with its default keep='first'. */
  function KeepFirst(ps: seq<Place>): (r: seq<Place>)
    ensures DistinctNames(r)
    ensures Names(r) == Names(ps)
    ensures forall p :: p in r ==> IsFirstOccurrence(ps, p)
  {
    if |ps| == 0 then []
    else
      var r := KeepFirst(ps[..|ps| - 1]);
      var p := ps[|ps| - 1];
      assert ps == ps[..|ps| - 1] + [p];
      FirstOccurrenceExtends(ps[..|ps| - 1], p);
      NamesAppend(ps[..|ps| - 1], p);
      NamesAppend(r, p);
      if p.name in Names(r) then r
      else
        assert IsFirstOccurrence(ps, p) by {
          assert forall k :: 0 <= k < |ps| - 1 ==> ps[k].name != p.name by {
            forall k | 0 <= k < |ps| - 1 ensures ps[k].name != p.name {
              assert ps[k] in ps[..|ps| - 1];
            }
          }
        }
        r + [p]
  }

  lemma NamesAppend(s: seq<Place>, p: Place)
    ensures Names(s + [p]) == Names(s) + {p.name}
  {
    assert forall q :: q in s + [p] <==> q in s || q == p;
  }

  lemma FirstOccurrenceExtends(ps: seq<Place>, p: Place)
    ensures forall q :: IsFirstOccurrence(ps, q) ==> IsFirstOccurrence(ps + [p], q)
  {
    forall q | IsFirstOccurrence(ps, q) ensures IsFirstOccurrence(ps + [p], q) {
      var j :| 0 <= j < |ps| && ps[j] == q && forall k :: 0 <= k < j ==> ps[k].name != q.name;
      assert (ps + [p])[j] == q;
    }
  }

  /** Insertion of one place into a name-sorted table. */
  function InsertByName(p: Place, s: seq<Place>): (r: seq<Place>)
    ensures multiset(r) == multiset(s) + multiset{p}
  {
    if |s| == 0 || StrLess(p.name, s[0].name) then [p] + s
    else
      assert s == [s[0]] + s[1..];
      [s[0]] + InsertByName(p, s[1..])
  }

  /** sort_values('PlaceName'): names are distinct after KeepFirst, so every
      correct sort gives this same table. */
  function SortByName(ps: seq<Place>): (r: seq<Place>)
    ensures multiset(r) == multiset(ps)
  {
    if |ps| == 0 then []
    else
      assert ps == [ps[0]] + ps[1..];
      InsertByName(ps[0], SortByName(ps[1..]))
  }

  /** Every name in s sorts after n. */
  predicate AllAfter(n: string, s: seq<Place>) {
    forall q :: q in s ==> StrLess(n, q.name)
  }

  lemma SortedCons(p: Place, s: seq<Place>)
    requires SortedByName(s) && AllAfter(p.name, s)
    ensures SortedByName([p] + s)
  {
    var r := [p] + s;
    forall i, j | 0 <= i < j < |r| ensures StrLess(r[i].name, r[j].name) {
      if i == 0 {
        assert r[j] in s;
      } else {
        assert r[i] == s[i - 1] && r[j] == s[j - 1];
      }
    }
  }

  lemma SortedTail(s: seq<Place>)
    requires |s| > 0 && SortedByName(s)
    ensures SortedByName(s[1..])
  {
    var t := s[1..];
    forall i, j | 0 <= i < j < |t| ensures StrLess(t[i].name, t[j].name) {
      assert t[i] == s[i + 1] && t[j] == s[j + 1];
    }
  }

  lemma {:induction false} InsertByNameSorted(p: Place, s: seq<Place>)
    requires SortedByName(s) && p.name !in Names(s)
    ensures SortedByName(InsertByName(p, s))
  {
    if |s| == 0 {
    } else if StrLess(p.name, s[0].name) {
      assert AllAfter(p.name, s) by {
        forall q | q in s ensures StrLess(p.name, q.name) {
          var k :| 0 <= k < |s| && s[k] == q;
          if k > 0 {
            StrLessTransitive(p.name, s[0].name, q.name);
          }
        }
      }
      SortedCons(p, s);
    } else {
      assert s[0] in s;
      StrLessTotal(p.name, s[0].name);
      var tail := s[1..];
      SortedTail(s);
      assert p.name !in Names(tail) by {
        forall q | q in tail ensures q.name != p.name {
          assert q in s;
        }
      }
      InsertByNameSorted(p, tail);
      var rest := InsertByName(p, tail);
      assert AllAfter(s[0].name, rest) by {
        forall q | q in rest ensures StrLess(s[0].name, q.name) {
          assert q in multiset(rest);
          if q != p {
            var k :| 0 <= k < |tail| && tail[k] == q;
            assert s[k + 1] == q;
          }
        }
      }
      SortedCons(s[0], rest);
    }
  }

  lemma {:induction false} SortByNameSorted(ps: seq<Place>)
    requires DistinctNames(ps)
    ensures SortedByName(SortByName(ps))
  {
    if |ps| > 0 {
      var tail := ps[1..];
      SortByNameSorted(tail);
      var s := SortByName(tail);
      NamesOfPermutation(s, tail);
      assert ps[0].name !in Names(tail) by {
        forall q | q in tail ensures q.name != ps[0].name {
          var k :| 0 <= k < |tail| && tail[k] == q;
          assert ps[k + 1] == q;
        }
      }
      InsertByNameSorted(ps[0], s);
    }
  }

  lemma SortedIsDistinct(ps: seq<Place>)
    requires SortedByName(ps)
    ensures DistinctNames(ps)
  {
    forall i, j | 0 <= i < j < |ps| ensures ps[i].name != ps[j].name {
      if ps[i].name == ps[j].name {
        StrLessIrreflexive(ps[i].name);
      }
    }
  }

  lemma NamesOfPermutation(a: seq<Place>, b: seq<Place>)
    requires multiset(a) == multiset(b)
    ensures Names(a) == Names(b)
  {
    forall n | n in Names(a) ensures n in Names(b) {
      var p :| p in a && p.name == n;
      assert p in multiset(b);
    }
    forall n | n in Names(b) ensures n in Names(a) {
      var p :| p in b && p.name == n;
      assert p in multiset(a);
    }
  }

  /** A table with distinct names has one entry per name. */
  lemma {:induction false} DistinctNamesCount(ps: seq<Place>)
    requires DistinctNames(ps)
    ensures |Names(ps)| == |ps|
  {
    if |ps| > 0 {
      var init := ps[..|ps| - 1];
      var p := ps[|ps| - 1];
      assert ps == init + [p];
      DistinctNamesCount(init);
      assert Names(ps) == Names(init) + {p.name};
      assert p.name !in Names(init) by {
        forall q | q in init ensures q.name != p.name {
          var k :| 0 <= k < |init| && init[k] == q;
        }
      }
    }
  }

  /** The place table, PlaceID being the position in it. */
  function BuildRegistry(rows: seq<OdRow>): seq<Place> {
    SortByName(KeepFirst(Candidates(rows)))
  }

  lemma CandidateNames(rows: seq<OdRow>)
    ensures Names(Candidates(rows)) == AllNames(rows)
  {
    var cs := Candidates(rows);
    forall n | n in AllNames(rows) ensures n in Names(cs) {
      if r :| r in rows && r.origin == n {
        var i :| 0 <= i < |rows| && rows[i] == r;
        assert cs[i] in cs;
      } else {
        var r :| r in rows && r.dest == n;
        var i :| 0 <= i < |rows| && rows[i] == r;
        assert cs[|rows| + i] in cs;
      }
    }
    forall n | n in Names(cs) ensures n in AllNames(rows) {
      var p :| p in cs && p.name == n;
      var i :| 0 <= i < |cs| && cs[i] == p;
      if i < |rows| {
        assert rows[i] in rows;
      } else {
        assert rows[i - |rows|] in rows;
      }
    }
  }

  /** Every name of either column gets exactly one PlaceID, the IDs are
      0..N-1 for the N distinct names, and they run in name order. */
  lemma RegistryIsBijection(rows: seq<OdRow>)
    ensures var reg := BuildRegistry(rows);
            && Names(reg) == AllNames(rows)
            && |reg| == |AllNames(rows)|
            && DistinctNames(reg)
            && SortedByName(reg)
  {
    var firsts := KeepFirst(Candidates(rows));
    var reg := BuildRegistry(rows);
    SortByNameSorted(firsts);
    SortedIsDistinct(reg);
    NamesOfPermutation(reg, firsts);
    CandidateNames(rows);
    DistinctNamesCount(reg);
  }

  /** Each place keeps the coordinates of the first row that names it,
      origin rows being scanned before destination rows. */
  lemma RegistryFirstOccurrence(rows: seq<OdRow>, id: int)
    requires 0 <= id < |BuildRegistry(rows)|
    ensures IsFirstOccurrence(Candidates(rows), BuildRegistry(rows)[id])
  {
    var reg := BuildRegistry(rows);
    assert reg[id] in multiset(KeepFirst(Candidates(rows)));
  }

  /** The PlaceID of a name: merge on PlaceName. */
  function PlaceId(reg: seq<Place>, name: string): (id: nat)
    requires name in Names(reg)
    ensures id < |reg| && reg[id].name == name
  {
    if reg[0].name == name then 0
    else
      assert name in Names(reg[1..]) by {
        var p :| p in reg && p.name == name;
        var k :| 0 <= k < |reg| && reg[k] == p;
        assert reg[1..][k - 1] == p;
      }
      PlaceId(reg[1..], name) + 1
  }

  lemma PlaceIdUnique(reg: seq<Place>, name: string, id: int)
    requires DistinctNames(reg) && 0 <= id < |reg| && reg[id].name == name
    ensures name in Names(reg) && PlaceId(reg, name) == id
  {
    assert reg[id] in reg;
  }

  /** PlaceIDs follow name order: a < b as strings exactly when id(a) < id(b). */
  lemma PlaceIdOrder(rows: seq<OdRow>, a: string, b: string)
    requires a in AllNames(rows) && b in AllNames(rows)
    ensures var reg := BuildRegistry(rows);
            && a in Names(reg) && b in Names(reg)
            && (StrLess(a, b) <==> PlaceId(reg, a) < PlaceId(reg, b))
  {
    var reg := BuildRegistry(rows);
    RegistryIsBijection(rows);
    var ia, ib := PlaceId(reg, a), PlaceId(reg, b);
    if ia == ib {
      StrLessIrreflexive(a);
    } else if ib < ia {
      StrLessAsymmetric(b, a);
    }
  }

  lemma {:induction false} SortedNamesUnique(s1: seq<Place>, s2: seq<Place>)
    requires SortedByName(s1) && SortedByName(s2) && Names(s1) == Names(s2)
    ensures |s1| == |s2| && forall i :: 0 <= i < |s1| ==> s1[i].name == s2[i].name
    decreases |s1|
  {
    SortedIsDistinct(s1);
    SortedIsDistinct(s2);
    DistinctNamesCount(s1);
    DistinctNamesCount(s2);
    if |s1| > 0 {
      assert s1[0] in s1 && s2[0] in s2;
      assert s1[0].name in Names(s2) && s2[0].name in Names(s1);
      var q2 :| q2 in s2 && q2.name == s1[0].name;
      var q1 :| q1 in s1 && q1.name == s2[0].name;
      var j :| 0 <= j < |s2| && s2[j] == q2;
      var k :| 0 <= k < |s1| && s1[k] == q1;
      if j > 0 && k > 0 {
        StrLessAsymmetric(s2[0].name, s2[j].name);
      }
      var t1, t2 := s1[1..], s2[1..];
      assert Names(t1) == Names(t2) by {
        NamesOfTail(s1);
        NamesOfTail(s2);
      }
      SortedNamesUnique(t1, t2);
      forall i | 0 <= i < |s1| ensures s1[i].name == s2[i].name {
        if i > 0 {
          assert t1[i - 1] == s1[i] && t2[i - 1] == s2[i];
        }
      }
    }
  }

  lemma NamesOfTail(s: seq<Place>)
    requires |s| > 0 && DistinctNames(s)
    ensures Names(s[1..]) == Names(s) - {s[0].name}
  {
    assert s == [s[0]] + s[1..];
    forall q | q in s[1..] ensures q.name != s[0].name {
      var k :| 0 <= k < |s[1..]| && s[1..][k] == q;
      assert s[k + 1] == q;
    }
  }

  /** PlaceIDs depend only on which names occur, not on the row order or
      the coordinates. */
  lemma PlaceIdRowOrderIndependent(rows1: seq<OdRow>, rows2: seq<OdRow>, name: string)
    requires AllNames(rows1) == AllNames(rows2) && name in AllNames(rows1)
    ensures name in Names(BuildRegistry(rows1)) && name in Names(BuildRegistry(rows2))
    ensures PlaceId(BuildRegistry(rows1), name) == PlaceId(BuildRegistry(rows2), name)
  {
    var reg1, reg2 := BuildRegistry(rows1), BuildRegistry(rows2);
    RegistryIsBijection(rows1);
    RegistryIsBijection(rows2);
    SortedNamesUnique(reg1, reg2);
    var id := PlaceId(reg1, name);
    PlaceIdUnique(reg2, name, id);
  }

  /** The 'Pair' column: the smaller ID first ("min-max"). */
  function PairKey(i: nat, j: nat): string {
    if i < j then NatToString(i) + "-" + NatToString(j)
    else NatToString(j) + "-" + NatToString(i)
  }

  /** Index of the first '-' in s, or |s| when there is none. */
  function DashIndex(s: string): (k: nat)
    ensures k <= |s| && (k < |s| ==> s[k] == '-')
    ensures forall i :: 0 <= i < k ==> s[i] != '-'
  {
    if |s| == 0 then 0
    else if s[0] == '-' then 0
    else DashIndex(s[1..]) + 1
  }

  /** Pair.str.split('-', expand=True).astype(int): two integer IDs, or None
      where pandas would raise. */
  function SplitPair(key: string): Option<(nat, nat)> {
    var k := DashIndex(key);
    if k == |key| then None
    else
      var left, right := key[..k], key[k + 1..];
      if |left| > 0 && |right| > 0 && AllDigits(left) && AllDigits(right)
      then Some((DigitsValue(left), DigitsValue(right)))
      else None
  }

  /** The key does not depend on the travel direction. */
  lemma PairKeySymmetric(i: nat, j: nat)
    ensures PairKey(i, j) == PairKey(j, i)
  {
  }

  /** Splitting a key gives back its IDs, smaller first; a self-pair gives
      the same ID twice. */
  lemma PairKeyRoundTrip(i: nat, j: nat)
    ensures SplitPair(PairKey(i, j)) == Some((if i < j then i else j, if i < j then j else i))
    ensures i == j ==> PairKey(i, j) == NatToString(i) + "-" + NatToString(i)
  {
    var lo, hi := if i < j then i else j, if i < j then j else i;
    SplitJoined(NatToString(lo), NatToString(hi));
    NatToStringRoundTrip(lo);
    NatToStringRoundTrip(hi);
  }

  /** Two digit strings joined by '-' split back into their values. */
  lemma SplitJoined(a: string, b: string)
    requires |a| > 0 && |b| > 0 && AllDigits(a) && AllDigits(b)
    ensures SplitPair(a + "-" + b) == Some((DigitsValue(a), DigitsValue(b)))
  {
    var key := a + "-" + b;
    forall t | 0 <= t < |a| ensures key[t] != '-' {
      assert key[t] == a[t];
    }
    DashIndexAt(key, |a|);
    assert key[..|a|] == a && key[|a| + 1..] == b;
  }

  lemma DashIndexAt(s: string, k: nat)
    requires k < |s| && s[k] == '-' && forall t :: 0 <= t < k ==> s[t] != '-'
    ensures DashIndex(s) == k
  {
  }

  /** Two rows share a key exactly when they join the same two places, in
      either direction. */
  lemma PairKeyInjective(a: nat, b: nat, c: nat, d: nat)
    ensures PairKey(a, b) == PairKey(c, d) <==> (a == c && b == d) || (a == d && b == c)
  {
    PairKeyRoundTrip(a, b);
    PairKeyRoundTrip(c, d);
  }
}
