/** SearchNearby answers as a full scan would: stable distance order, no driver missed, none twice, on every snapshot
    that runs of the location index can reach. */
module SearchTheorems {
  import opened Common
  import opened LocationIndex
  import opened NearbySearch
  import HexGrid

  // ---------- the insertion sort is a stable sort ----------

  predicate Ascending<P, C>(s: seq<DriverPos<P, C>>) {
    forall i, j :: 0 <= i < j < |s| ==> s[i].distM <= s[j].distM
  }

  /** The entries at distance k, in order. */
  function Tied<P, C>(s: seq<DriverPos<P, C>>, k: real): seq<DriverPos<P, C>> {
    if s == [] then []
    else Tied(s[..|s| - 1], k) + if s[|s| - 1].distM == k then [s[|s| - 1]] else []
  }

  predicate DistinctIds<P, C>(s: seq<DriverPos<P, C>>) {
    forall i, j :: 0 <= i < j < |s| ==> s[i].id != s[j].id
  }

  lemma {:induction false} InsertSorts<P(!new), C(!new)>(s: seq<DriverPos<P, C>>, x: DriverPos<P, C>)
    requires Ascending(s)
    ensures Ascending(Insert(s, x))
    ensures forall e :: e in Insert(s, x) <==> e in s || e == x
    decreases |s|
  {
    if s != [] {
      var front, last := s[..|s| - 1], s[|s| - 1];
      assert s == front + [last];
      InsertSorts(front, x);
      if last.distM > x.distM {
        forall i | 0 <= i < |Insert(front, x)| ensures Insert(front, x)[i].distM <= last.distM {
          assert Insert(front, x)[i] in Insert(front, x);
        }
      }
    }
  }

  lemma {:induction false} InsertKeepsTies<P, C>(s: seq<DriverPos<P, C>>, x: DriverPos<P, C>, k: real)
    ensures Tied(Insert(s, x), k) == Tied(s, k) + if x.distM == k then [x] else []
    decreases |s|
  {
    if s == [] || s[|s| - 1].distM <= x.distM {
      assert (s + [x])[..|s|] == s;
    } else {
      var front, last := s[..|s| - 1], s[|s| - 1];
      InsertKeepsTies(front, x, k);
      var r := Insert(front, x);
      assert (r + [last])[..|r|] == r;
    }
  }

  lemma {:induction false} InsertKeepsDistinct<P(!new), C(!new)>(s: seq<DriverPos<P, C>>, x: DriverPos<P, C>)
    requires Ascending(s) && DistinctIds(s + [x])
    ensures DistinctIds(Insert(s, x))
    decreases |s|
  {
    if s != [] && s[|s| - 1].distM > x.distM {
      var front, last := s[..|s| - 1], s[|s| - 1];
      var all := s + [x];
      forall i, j | 0 <= i < j < |front + [x]| ensures (front + [x])[i].id != (front + [x])[j].id {
        assert all[i].id != all[if j < |front| then j else j + 1].id;
      }
      InsertKeepsDistinct(front, x);
      InsertSorts(front, x);
      var r := Insert(front, x);
      forall i | 0 <= i < |r| ensures r[i].id != last.id {
        assert r[i] in r;
        if r[i] in front {
          var m :| 0 <= m < |front| && front[m] == r[i];
          assert all[m].id != all[|front|].id;
        } else {
          assert all[|front|].id != all[|s|].id;
        }
      }
    }
  }

  lemma {:induction false} SortAscends<P(!new), C(!new)>(s: seq<DriverPos<P, C>>)
    ensures Ascending(SortByDist(s))
    ensures forall e :: e in SortByDist(s) <==> e in s
    decreases |s|
  {
    if s != [] {
      var front, last := s[..|s| - 1], s[|s| - 1];
      assert s == front + [last];
      SortAscends(front);
      InsertSorts(SortByDist(front), last);
    }
  }

  lemma {:induction false} InsertPermutes<P, C>(s: seq<DriverPos<P, C>>, x: DriverPos<P, C>)
    ensures multiset(Insert(s, x)) == multiset(s) + multiset{x}
    decreases |s|
  {
    if s != [] && s[|s| - 1].distM > x.distM {
      InsertPermutes(s[..|s| - 1], x);
      assert s == s[..|s| - 1] + [s[|s| - 1]];
    }
  }

  lemma {:induction false} SortPermutes<P, C>(s: seq<DriverPos<P, C>>)
    ensures multiset(SortByDist(s)) == multiset(s)
    decreases |s|
  {
    if s != [] {
      SortPermutes(s[..|s| - 1]);
      InsertPermutes(SortByDist(s[..|s| - 1]), s[|s| - 1]);
      assert s == s[..|s| - 1] + [s[|s| - 1]];
    }
  }

  lemma {:induction false} SortKeepsTies<P, C>(s: seq<DriverPos<P, C>>, k: real)
    ensures Tied(SortByDist(s), k) == Tied(s, k)
    decreases |s|
  {
    if s != [] {
      SortKeepsTies(s[..|s| - 1], k);
      InsertKeepsTies(SortByDist(s[..|s| - 1]), s[|s| - 1], k);
    }
  }

  lemma {:induction false} SortKeepsDistinct<P(!new), C(!new)>(s: seq<DriverPos<P, C>>)
    requires DistinctIds(s)
    ensures DistinctIds(SortByDist(s))
    decreases |s|
  {
    if s != [] {
      var front, last := s[..|s| - 1], s[|s| - 1];
      var r := SortByDist(front);
      SortAscends(front);
      SortKeepsDistinct(front);
      forall i | 0 <= i < |r| ensures r[i].id != last.id {
        assert r[i] in r;
        var m :| 0 <= m < |front| && front[m] == r[i];
        assert s[m].id != s[|front|].id;
      }
      InsertKeepsDistinct(r, last);
    }
  }

  lemma TiedDropLast<P, C>(s: seq<DriverPos<P, C>>, k: real)
    requires s != []
    ensures s[|s| - 1].distM != k ==> Tied(s[..|s| - 1], k) == Tied(s, k)
    ensures s[|s| - 1].distM == k ==> Tied(s, k) == Tied(s[..|s| - 1], k) + [s[|s| - 1]]
  {}

  lemma {:induction false} TiedAtMost<P, C>(s: seq<DriverPos<P, C>>, k: real)
    requires Ascending(s) && s != [] && Tied(s, k) != []
    ensures k <= s[|s| - 1].distM
    decreases |s|
  {
    if s[|s| - 1].distM != k && |s| > 1 { TiedAtMost(s[..|s| - 1], k); }
  }

  lemma LastsAgree<P, C>(r: seq<DriverPos<P, C>>, t: seq<DriverPos<P, C>>)
    requires Ascending(r) && Ascending(t) && r != [] && t != []
    requires Tied(r, r[|r| - 1].distM) == Tied(t, r[|r| - 1].distM)
    requires Tied(r, t[|t| - 1].distM) == Tied(t, t[|t| - 1].distM)
    ensures r[|r| - 1] == t[|t| - 1]
  {
    var x, y := r[|r| - 1], t[|t| - 1];
    assert Tied(t, x.distM) != [] by { TiedDropLast(r, x.distM); }
    assert Tied(r, y.distM) != [] by { TiedDropLast(t, y.distM); }
    assert x.distM == y.distM by {
      TiedAtMost(t, x.distM);
      TiedAtMost(r, y.distM);
    }
    TiedDropLast(r, x.distM);
    TiedDropLast(t, x.distM);
    SameLast(Tied(r[..|r| - 1], x.distM), x, Tied(t[..|t| - 1], x.distM), y);
  }

  lemma SameLast<T>(a: seq<T>, x: T, b: seq<T>, y: T)
    requires a + [x] == b + [y]
    ensures a == b && x == y
  {
    assert (a + [x])[|a|] == x && (b + [y])[|b|] == y;
    assert a == (a + [x])[..|a|] && b == (b + [y])[..|b|];
  }

  lemma FrontsTied<P, C>(r: seq<DriverPos<P, C>>, t: seq<DriverPos<P, C>>, k: real)
    requires r != [] && t != [] && r[|r| - 1] == t[|t| - 1] && Tied(r, k) == Tied(t, k)
    ensures Tied(r[..|r| - 1], k) == Tied(t[..|t| - 1], k)
  {
    TiedDropLast(r, k);
    TiedDropLast(t, k);
    if r[|r| - 1].distM == k {
      SameLast(Tied(r[..|r| - 1], k), r[|r| - 1], Tied(t[..|t| - 1], k), t[|t| - 1]);
    }
  }

  ghost predicate SameTies<P(!new), C(!new)>(r: seq<DriverPos<P, C>>, t: seq<DriverPos<P, C>>) {
    forall k :: Tied(r, k) == Tied(t, k)
  }

  lemma SameTiesLast<P(!new), C(!new)>(r: seq<DriverPos<P, C>>, t: seq<DriverPos<P, C>>)
    requires Ascending(r) && Ascending(t) && SameTies(r, t)
    ensures r == [] <==> t == []
    ensures r != [] ==> r[|r| - 1] == t[|t| - 1]
  {
    if r != [] { TiedDropLast(r, r[|r| - 1].distM); }
    if t != [] { TiedDropLast(t, t[|t| - 1].distM); }
    if r != [] && t != [] { LastsAgree(r, t); }
  }

  lemma SameTiesFront<P(!new), C(!new)>(r: seq<DriverPos<P, C>>, t: seq<DriverPos<P, C>>)
    requires SameTies(r, t) && r != [] && t != [] && r[|r| - 1] == t[|t| - 1]
    ensures SameTies(r[..|r| - 1], t[..|t| - 1])
  {
    var front, front' := r[..|r| - 1], t[..|t| - 1];
    forall k ensures Tied(front, k) == Tied(front', k) { FrontsTied(r, t, k); }
  }

  /** Distance order and the order of ties leave no freedom: there is one stable sort. */
  lemma {:induction false} StableSortUnique<P(!new), C(!new)>(r: seq<DriverPos<P, C>>, t: seq<DriverPos<P, C>>)
    requires Ascending(r) && Ascending(t) && SameTies(r, t)
    ensures r == t
    decreases |r|
  {
    SameTiesLast(r, t);
    if r != [] {
      SameTiesFront(r, t);
      StableSortUnique(r[..|r| - 1], t[..|t| - 1]);
      assert r == r[..|r| - 1] + [r[|r| - 1]] && t == t[..|t| - 1] + [t[|t| - 1]];
    }
  }

  // ---------- the visit ----------

  lemma {:induction false} VisitReaches<P(!new), C(!new)>(snap: Snapshot<P, C>, cells: seq<C>)
    ensures forall d :: d in Visit(snap, cells) <==> exists i :: 0 <= i < |cells| && d in Reply(snap, cells[i])
    decreases |cells|
  {
    if cells != [] {
      var front := cells[..|cells| - 1];
      VisitReaches(snap, front);
      forall d ensures d in Visit(snap, cells) <==> exists i :: 0 <= i < |cells| && d in Reply(snap, cells[i]) {
        if d in Visit(snap, front) {
          var i :| 0 <= i < |front| && d in Reply(snap, front[i]);
          assert d in Reply(snap, cells[i]);
        }
        if i :| 0 <= i < |cells| && d in Reply(snap, cells[i]) {
          if i < |front| { assert d in Reply(snap, front[i]); }
        }
      }
    }
  }

  lemma {:induction false} FirstsAreDistinct(ids: seq<string>)
    ensures forall d :: d in Firsts(ids) <==> d in ids
    ensures forall i, j :: 0 <= i < j < |Firsts(ids)| ==> Firsts(ids)[i] != Firsts(ids)[j]
    decreases |ids|
  {
    if ids != [] {
      FirstsAreDistinct(ids[..|ids| - 1]);
      assert ids == ids[..|ids| - 1] + [ids[|ids| - 1]];
    }
  }

  lemma {:induction false} HitsAreScanned<P(!new), C(!new)>(
    geo: Geo<P, C>, snap: Snapshot<P, C>, at: P, radiusM: real, ids: seq<string>)
    ensures forall e :: e in Hits(geo, snap, at, radiusM, ids) <==>
                        e.id in ids && InScan(geo, snap, at, radiusM, e.id) && e == Record(geo, snap, at, e.id)
    ensures (forall i, j :: 0 <= i < j < |ids| ==> ids[i] != ids[j]) ==> DistinctIds(Hits(geo, snap, at, radiusM, ids))
    decreases |ids|
  {
    if ids != [] {
      var front, last := ids[..|ids| - 1], ids[|ids| - 1];
      assert ids == front + [last];
      HitsAreScanned(geo, snap, at, radiusM, front);
      if forall i, j :: 0 <= i < j < |ids| ==> ids[i] != ids[j] {
        var h := Hits(geo, snap, at, radiusM, front);
        forall i | 0 <= i < |h| ensures h[i].id != last {
          assert h[i] in h;
          var m :| 0 <= m < |front| && front[m] == h[i].id;
          assert ids[m] != ids[|front|];
        }
      }
    }
  }

  // ---------- the index answers like a scan ----------

  /** The snapshot shows the index: each SMEMBERS reply lists its set. */
  ghost predicate Shows<P(!new), C(!new)>(snap: Snapshot<P, C>, ix: Index<P, C>) {
    && snap.loc == ix.loc
    && forall c, d :: d in Reply(snap, c) <==> d in Members(ix, c)
  }

  /** The planned cells contain the cell of every point within the radius. */
  ghost predicate PlanCovers<P(!new), C(!new)>(geo: Geo<P, C>, at: P, radiusM: real) {
    && Plan(geo, at, radiusM).Some?
    && forall q, c :: geo.cellOf(q) == Some(c) && geo.dist(at, q) <= radiusM ==> c in Plan(geo, at, radiusM).value
  }

  /** The entry carries the driver's own recorded position, cell and rating, and its distance from the pickup. */
  predicate Faithful<P(==), C>(geo: Geo<P, C>, snap: Snapshot<P, C>, at: P, e: DriverPos<P, C>) {
    && e.id in snap.loc && e.at == snap.loc[e.id].at && e.cell == snap.loc[e.id].cell
    && e.distM == geo.dist(at, snap.loc[e.id].at)
    && (e.id in snap.rating ==> e.rating == snap.rating[e.id])
    && (e.id !in snap.rating ==> e.rating == 0.0)
  }

  /** Exactly the scan's drivers, each once and with its own data, by distance, ties as visited. */
  ghost predicate AnswersScan<P(!new), C(!new)>(
    geo: Geo<P, C>, snap: Snapshot<P, C>, at: P, radiusM: real, out: seq<DriverPos<P, C>>)
    requires Plan(geo, at, radiusM).Some?
  {
    && (forall i :: 0 <= i < |out| ==> Faithful(geo, snap, at, out[i]))
    && (forall d :: (exists i :: 0 <= i < |out| && out[i].id == d) <==>
                    d in snap.state && snap.state[d] == AVAILABLE &&
                    d in snap.loc && geo.dist(at, snap.loc[d].at) <= radiusM)
    && DistinctIds(out)
    && Ascending(out)
    && SameTies(out, Hits(geo, snap, at, radiusM, Firsts(Visit(snap, Plan(geo, at, radiusM).value))))
  }

  lemma ScannedIsVisited<P(!new), C(!new)>(
    geo: Geo<P, C>, ix: Index<P, C>, snap: Snapshot<P, C>, at: P, radiusM: real, d: string)
    requires NeverLost(geo.cellOf, ix) && Shows(snap, ix) && PlanCovers(geo, at, radiusM)
    requires InScan(geo, snap, at, radiusM, d)
    ensures d in Visit(snap, Plan(geo, at, radiusM).value)
  {
    var cells := Plan(geo, at, radiusM).value;
    VisitReaches(snap, cells);
    var c := ix.loc[d].cell;
    assert Filed(geo.cellOf, ix, d);
    assert geo.cellOf(ix.loc[d].at) == Some(c) && d in Members(ix, c);
    assert d in Reply(snap, c) && c in cells;
    var i :| 0 <= i < |cells| && cells[i] == c;
    assert d in Reply(snap, cells[i]);
  }

  /** The hits over the visited drivers, in any order, are the scan's drivers. */
  lemma HitsAreScan<P(!new), C(!new)>(
    geo: Geo<P, C>, ix: Index<P, C>, snap: Snapshot<P, C>, at: P, radiusM: real, out: seq<DriverPos<P, C>>, d: string)
    requires NeverLost(geo.cellOf, ix) && Shows(snap, ix) && PlanCovers(geo, at, radiusM)
    requires var hits := Hits(geo, snap, at, radiusM, Firsts(Visit(snap, Plan(geo, at, radiusM).value)));
             forall e :: e in out <==> e in hits
    ensures (exists i :: 0 <= i < |out| && out[i].id == d) <==>
            d in snap.state && snap.state[d] == AVAILABLE &&
            d in snap.loc && geo.dist(at, snap.loc[d].at) <= radiusM
  {
    var ids := Visit(snap, Plan(geo, at, radiusM).value);
    FirstsAreDistinct(ids);
    HitsAreScanned(geo, snap, at, radiusM, Firsts(ids));
    if InScan(geo, snap, at, radiusM, d) {
      ScannedIsVisited(geo, ix, snap, at, radiusM, d);
      assert Record(geo, snap, at, d) in out;
    }
    if i :| 0 <= i < |out| && out[i].id == d {
      assert out[i] in out;
    }
  }

  lemma {:induction false} IndexRefinesScan<P(!new), C(!new)>(
    geo: Geo<P, C>, ix: Index<P, C>, snap: Snapshot<P, C>, at: P, radiusM: real)
    requires NeverLost(geo.cellOf, ix) && Shows(snap, ix) && PlanCovers(geo, at, radiusM)
    ensures Search(geo, snap, at, radiusM).Panicked? || Search(geo, snap, at, radiusM).Found?
    ensures Search(geo, snap, at, radiusM).Found? ==>
              AnswersScan(geo, snap, at, radiusM, Search(geo, snap, at, radiusM).out)
  {
    var ids := Visit(snap, Plan(geo, at, radiusM).value);
    var hits := Hits(geo, snap, at, radiusM, Firsts(ids));
    var out := SortByDist(hits);
    FirstsAreDistinct(ids);
    HitsAreScanned(geo, snap, at, radiusM, Firsts(ids));
    SortAscends(hits);
    SortKeepsDistinct(hits);
    forall k ensures Tied(out, k) == Tied(hits, k) { SortKeepsTies(hits, k); }
    forall i | 0 <= i < |out| ensures Faithful(geo, snap, at, out[i]) { assert out[i] in out; }
    forall d
      ensures (exists i :: 0 <= i < |out| && out[i].id == d) <==>
              d in snap.state && snap.state[d] == AVAILABLE &&
              d in snap.loc && geo.dist(at, snap.loc[d].at) <= radiusM
    {
      HitsAreScan(geo, ix, snap, at, radiusM, out, d);
    }
  }

  /** The search fails exactly when a planned cell lists an AVAILABLE driver whose position hash is gone. */
  lemma PanicsIff<P(!new), C(!new)>(geo: Geo<P, C>, ix: Index<P, C>, snap: Snapshot<P, C>, at: P, radiusM: real)
    requires Shows(snap, ix) && Plan(geo, at, radiusM).Some?
    ensures Search(geo, snap, at, radiusM) == Panicked <==>
            exists c, d ::
              && c in Plan(geo, at, radiusM).value && d in Members(ix, c)
              && d in snap.state && snap.state[d] == AVAILABLE && d !in ix.loc
  {
    var cells := Plan(geo, at, radiusM).value;
    var ids := Visit(snap, cells);
    VisitReaches(snap, cells);
    if i :| 0 <= i < |ids| && Panics(snap, ids[i]) {
      assert ids[i] in ids;
      var j :| 0 <= j < |cells| && ids[i] in Reply(snap, cells[j]);
      assert cells[j] in cells && ids[i] in Members(ix, cells[j]);
    }
    if c, d :| c in cells && d in Members(ix, c) && IsAvailable(snap, d) && d !in ix.loc {
      var j :| 0 <= j < |cells| && cells[j] == c;
      assert d in Reply(snap, cells[j]);
      assert d in ids;
    }
  }

  /** Two minutes without an update are enough: the hash expires, the cell set keeps the driver, the search panics. */
  lemma ExpiredPositionPanics<P(!new), C(!new)>(geo: Geo<P, C>, snap: Snapshot<P, C>, d: string, at: P, radiusM: real)
    requires PlanCovers(geo, at, radiusM) && geo.cellOf(at).Some? && geo.dist(at, at) <= radiusM
    requires IsAvailable(snap, d)
    requires Shows(snap, Run(geo.cellOf, Index(map[], map[], map[], map[]), [Register(d, at, 0), ExpireLoc(d)]))
    ensures Search(geo, snap, at, radiusM) == Panicked
  {
    var steps := [Register(d, at, 0), ExpireLoc(d)];
    var e: Index<P, C> := Index(map[], map[], map[], map[]);
    var a := Next(geo.cellOf, e, steps[0]);
    assert steps[1..] == [steps[1]] && steps[1..][1..] == [];
    var ix := Run(geo.cellOf, e, steps);
    assert ix == Run(geo.cellOf, a, steps[1..]) == Next(geo.cellOf, a, steps[1]);
    var c := geo.cellOf(at).value;
    assert d in Members(ix, c) && d !in ix.loc;
    PanicsIff(geo, ix, snap, at, radiusM);
  }

  /** The search fails to plan exactly when the pickup has no cell or the grid has no disk around it; otherwise, unless
      it panics, it reports how many cells it scanned. */
  lemma SearchReportsPlan<P, C>(geo: Geo<P, C>, snap: Snapshot<P, C>, at: P, radiusM: real)
    ensures Search(geo, snap, at, radiusM) == PlanFailed <==>
            geo.cellOf(at) == None || geo.disk(geo.cellOf(at).value, HexGrid.RingForRadius(radiusM)) == None
    ensures Search(geo, snap, at, radiusM).Found? ==>
              Search(geo, snap, at, radiusM).cellCount ==
              |geo.disk(geo.cellOf(at).value, HexGrid.RingForRadius(radiusM)).value|
  {}

  // ---------- on the ideal hexagon plane ----------

  /** Hexagons of circumradius c, disks by hop count, Euclidean distance. */
  ghost predicate Planar(geo: Geo<HexGrid.Point, HexGrid.Hex>, c: real) {
    && (forall p :: geo.cellOf(p).Some? && HexGrid.Inside(p, geo.cellOf(p).value))
    && (forall o, k: int :: k >= 1 ==>
          geo.disk(o, k).Some? && forall h :: HexGrid.InDisk(o, h, k) ==> h in geo.disk(o, k).value)
    && (forall p, q :: geo.dist(p, q) >= 0.0 && geo.dist(p, q) * geo.dist(p, q) == HexGrid.Dist2(c, p, q))
  }

  lemma {:induction false} PlanarPlanCovers(
    geo: Geo<HexGrid.Point, HexGrid.Hex>, c: real, at: HexGrid.Point, radiusM: real)
    requires Planar(geo, c) && c > 400.0
    ensures PlanCovers(geo, at, radiusM)
  {
    HexGrid.RingCoversIff(c);
    var k := HexGrid.RingForRadius(radiusM);
    var o := geo.cellOf(at).value;
    assert Plan(geo, at, radiusM) == geo.disk(o, k);
    forall q, h | geo.cellOf(q) == Some(h) && geo.dist(at, q) <= radiusM ensures h in Plan(geo, at, radiusM).value {
      HexGrid.SquareOrder(geo.dist(at, q), radiusM);
      assert HexGrid.Within(c, at, q, radiusM) && HexGrid.Inside(at, o) && HexGrid.Inside(q, h);
      assert HexGrid.InDisk(o, h, k);
    }
  }

  /** End to end: after any run of registrations, updates with arbitrarily stale reads, and expiries, a search of any
      radius at any point of the plane either panics on an expired position or answers exactly like a full scan. */
  lemma {:induction false} PlanarSearchIsScan(
    geo: Geo<HexGrid.Point, HexGrid.Hex>, c: real, steps: seq<Step<HexGrid.Point, HexGrid.Hex>>,
    snap: Snapshot<HexGrid.Point, HexGrid.Hex>, at: HexGrid.Point, radiusM: real)
    requires Planar(geo, c) && c > 400.0
    requires Shows(snap, Run(geo.cellOf, Index(map[], map[], map[], map[]), steps))
    ensures Search(geo, snap, at, radiusM).Panicked? || Search(geo, snap, at, radiusM).Found?
    ensures Search(geo, snap, at, radiusM).Found? ==>
              AnswersScan(geo, snap, at, radiusM, Search(geo, snap, at, radiusM).out)
  {
    var ix := Run(geo.cellOf, Index(map[], map[], map[], map[]), steps);
    IndexNeverLosesDriver(geo.cellOf, Index(map[], map[], map[], map[]), steps);
    PlanarPlanCovers(geo, c, at, radiusM);
    IndexRefinesScan(geo, ix, snap, at, radiusM);
  }

  /** GridDisk lists each cell within k hops once and no other. */
  ghost predicate ExactDisks(geo: Geo<HexGrid.Point, HexGrid.Hex>) {
    forall o, k: nat :: geo.disk(o, k).Some? && HexGrid.Lists(geo.disk(o, k).value, o, k)
  }

  /** The work of a search does not depend on the fleet: for every radius it scans 3k(k+1) + 1 cells, k being the
      planned ring. */
  lemma CellsScanned(
    geo: Geo<HexGrid.Point, HexGrid.Hex>, c: real, snap: Snapshot<HexGrid.Point, HexGrid.Hex>, at: HexGrid.Point,
    radiusM: real)
    requires Planar(geo, c) && ExactDisks(geo)
    ensures var k := HexGrid.RingForRadius(radiusM);
            Search(geo, snap, at, radiusM).Found? ==> Search(geo, snap, at, radiusM).cellCount == 3 * k * (k + 1) + 1
  {
    var k, o := HexGrid.RingForRadius(radiusM), geo.cellOf(at).value;
    SearchReportsPlan(geo, snap, at, radiusM);
    HexGrid.DiskSize(geo.disk(o, k).value, o, k);
  }
}
