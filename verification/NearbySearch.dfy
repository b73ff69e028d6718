/** Store.SearchNearby (internal/redis/store.go) with PlanSearch (internal/geospatial/h3.go), on one snapshot of Redis,
    and its agreement with a plain scan of all driver positions. */
module NearbySearch {
  import opened Common
  import opened LocationIndex
  import HexGrid

  /** The foreign geometry: cell of a point, disk of cells around a cell, and distance. None stands for an error. */
  datatype Geo<!P, !C> = Geo(cellOf: P -> Option<C>, disk: (C, int) -> Option<seq<C>>, dist: (P, P) -> real)

  /** What the reads of one search return; `members` holds each SMEMBERS reply in the order Redis gave it. */
  datatype Snapshot<P, C(==)> = Snapshot(members: map<C, seq<string>>, loc: map<string, Pos<P, C>>,
                                         state: map<string, DriverState>, rating: map<string, real>)

  datatype DriverPos<P, C> = DriverPos(id: string, at: P, cell: C, rating: real, distM: real)

  /** Panicked: the type assertion on a missing "lat" field, HMGET having returned three empty slots. */
  datatype Outcome<P, C> = PlanFailed | Panicked | Found(out: seq<DriverPos<P, C>>, cellCount: nat)

  // ---------- the specification ----------

  function Plan<P, C>(geo: Geo<P, C>, at: P, radiusM: real): Option<seq<C>> {
    match geo.cellOf(at)
    case None => None
    case Some(origin) => geo.disk(origin, HexGrid.RingForRadius(radiusM))
  }

  function Reply<P, C>(snap: Snapshot<P, C>, c: C): seq<string> {
    if c in snap.members then snap.members[c] else []
  }

  /** All members of the cells, cell by cell. */
  function Visit<P, C>(snap: Snapshot<P, C>, cells: seq<C>): seq<string> {
    if cells == [] then [] else Visit(snap, cells[..|cells| - 1]) + Reply(snap, cells[|cells| - 1])
  }

  function IdSet(ids: seq<string>): set<string> { set d | d in ids }

  /** First occurrences only. */
  function Firsts(ids: seq<string>): seq<string> {
    if ids == [] then []
    else
      var (front, last) := (ids[..|ids| - 1], ids[|ids| - 1]);
      if last in front then Firsts(front) else Firsts(front) + [last]
  }

  predicate IsAvailable<P, C>(snap: Snapshot<P, C>, d: string) {
    d in snap.state && snap.state[d] == AVAILABLE
  }

  predicate Panics<P, C>(snap: Snapshot<P, C>, d: string) {
    IsAvailable(snap, d) && d !in snap.loc
  }

  /** What a full scan selects: AVAILABLE, with a position, within the radius. */
  predicate InScan<P, C>(geo: Geo<P, C>, snap: Snapshot<P, C>, at: P, radiusM: real, d: string) {
    IsAvailable(snap, d) && d in snap.loc && geo.dist(at, snap.loc[d].at) <= radiusM
  }

  function Record<P, C>(geo: Geo<P, C>, snap: Snapshot<P, C>, at: P, d: string): DriverPos<P, C>
    requires d in snap.loc
  {
    var p := snap.loc[d];
    DriverPos(d, p.at, p.cell, if d in snap.rating then snap.rating[d] else 0.0, geo.dist(at, p.at))
  }

  function Hits<P, C>(
    geo: Geo<P, C>, snap: Snapshot<P, C>, at: P, radiusM: real, ids: seq<string>): seq<DriverPos<P, C>> {
    if ids == [] then []
    else
      var last := ids[|ids| - 1];
      Hits(geo, snap, at, radiusM, ids[..|ids| - 1]) +
      if InScan(geo, snap, at, radiusM, last) then [Record(geo, snap, at, last)] else []
  }

  /** The loop moves x leftwards past strictly farther elements. */
  function Insert<P, C>(s: seq<DriverPos<P, C>>, x: DriverPos<P, C>): seq<DriverPos<P, C>> {
    if s == [] || s[|s| - 1].distM <= x.distM then s + [x] else Insert(s[..|s| - 1], x) + [s[|s| - 1]]
  }

  function SortByDist<P, C>(s: seq<DriverPos<P, C>>): seq<DriverPos<P, C>> {
    if s == [] then [] else Insert(SortByDist(s[..|s| - 1]), s[|s| - 1])
  }

  function Search<P, C>(geo: Geo<P, C>, snap: Snapshot<P, C>, at: P, radiusM: real): Outcome<P, C> {
    match Plan(geo, at, radiusM)
    case None => PlanFailed
    case Some(cells) =>
      var ids := Visit(snap, cells);
      if exists i :: 0 <= i < |ids| && Panics(snap, ids[i]) then Panicked
      else Found(SortByDist(Hits(geo, snap, at, radiusM, Firsts(ids))), |cells|)
  }

  // ---------- the code ----------

  lemma {:induction false} InsertAt<P, C>(s: seq<DriverPos<P, C>>, x: DriverPos<P, C>, j: nat)
    requires j <= |s| && (forall k :: j <= k < |s| ==> x.distM < s[k].distM)
    requires j == 0 || s[j - 1].distM <= x.distM
    ensures Insert(s, x) == s[..j] + [x] + s[j..]
    decreases |s|
  {
    if j < |s| {
      var front := s[..|s| - 1];
      InsertAt(front, x, j);
      assert front[..j] == s[..j] && front[j..] + [s[|s| - 1]] == s[j..];
    }
  }

  /** The inner loop of the insertion sort, for element i. */
  method SiftLeft<P, C>(a: array<DriverPos<P, C>>, i: nat)
    requires i < a.Length
    modifies a
    ensures a[..i + 1] == Insert(old(a[..i]), old(a[i])) && a[i + 1..] == old(a[i + 1..])
  {
    ghost var p, x := a[..i], a[i];
    var j := i;
    while j > 0 && a[j].distM < a[j - 1].distM
      invariant 0 <= j <= i && a[j] == x
      invariant forall k :: 0 <= k < j ==> a[k] == p[k]
      invariant forall k :: j < k <= i ==> a[k] == p[k - 1]
      invariant forall k :: j <= k < i ==> x.distM < p[k].distM
      invariant a[i + 1..] == old(a[i + 1..])
    {
      a[j], a[j - 1] := a[j - 1], a[j];
      j := j - 1;
    }
    InsertAt(p, x, j);
    assert a[..i + 1] == p[..j] + [x] + p[j..];
  }

  method InsertionSort<P, C>(a: array<DriverPos<P, C>>)
    modifies a
    ensures a[..] == SortByDist(old(a[..]))
  {
    ghost var was := a[..];
    var i := 0;
    while i < a.Length
      invariant 0 <= i <= a.Length && |was| == a.Length
      invariant a[..i] == SortByDist(was[..i]) && a[i..] == was[i..]
    {
      assert a[i] == a[i..][0] == was[i];
      assert a[i + 1..] == a[i..][1..] && was[i + 1..] == was[i..][1..];
      SiftLeft(a, i);
      assert was[..i + 1][..i] == was[..i];
      i := i + 1;
    }
    assert a[..] == a[..i] && was[..i] == was;
  }

  method Sorted<P, C>(out: seq<DriverPos<P, C>>) returns (r: seq<DriverPos<P, C>>)
    ensures r == SortByDist(out)
  {
    var a := new DriverPos<P, C>[|out|](k requires 0 <= k < |out| => out[k]);
    assert a[..] == out;
    InsertionSort(a);
    r := a[..];
  }

  lemma VisitMore<P, C>(snap: Snapshot<P, C>, cells: seq<C>, i: nat)
    requires i < |cells|
    ensures Visit(snap, cells[..i + 1]) == Visit(snap, cells[..i]) + Reply(snap, cells[i])
  {
    assert cells[..i + 1][..i] == cells[..i];
  }

  lemma {:induction false} VisitPrefix<P, C>(snap: Snapshot<P, C>, cells: seq<C>, i: nat)
    requires i <= |cells|
    ensures Visit(snap, cells[..i]) <= Visit(snap, cells)
    decreases |cells| - i
  {
    if i == |cells| {
      assert cells[..i] == cells;
    } else {
      VisitMore(snap, cells, i);
      VisitPrefix(snap, cells, i + 1);
    }
  }

  lemma PanicSeen<P, C>(snap: Snapshot<P, C>, cells: seq<C>, i: nat, j: nat)
    requires i < |cells| && j < |Reply(snap, cells[i])| && Panics(snap, Reply(snap, cells[i])[j])
    ensures exists k :: 0 <= k < |Visit(snap, cells)| && Panics(snap, Visit(snap, cells)[k])
  {
    VisitMore(snap, cells, i);
    VisitPrefix(snap, cells, i + 1);
    var k := |Visit(snap, cells[..i])| + j;
    assert Visit(snap, cells)[k] == Visit(snap, cells[..i + 1])[k] == Reply(snap, cells[i])[j];
  }

  lemma IdSetMore(ids: seq<string>, d: string)
    ensures IdSet(ids + [d]) == IdSet(ids) + {d}
    ensures d in IdSet(ids) <==> d in ids
  {}

  lemma HitsMore<P, C>(geo: Geo<P, C>, snap: Snapshot<P, C>, at: P, radiusM: real, ids: seq<string>, d: string)
    ensures Hits(geo, snap, at, radiusM, Firsts(ids + [d])) ==
            Hits(geo, snap, at, radiusM, Firsts(ids)) +
            if d !in ids && InScan(geo, snap, at, radiusM, d) then [Record(geo, snap, at, d)] else []
  {
    assert (ids + [d])[..|ids|] == ids;
    assert (Firsts(ids) + [d])[..|Firsts(ids)|] == Firsts(ids);
  }

  /** The reads and filters for one driver id. */
  method Examine<P, C>(geo: Geo<P, C>, snap: Snapshot<P, C>, at: P, radiusM: real, d: string)
    returns (hit: seq<DriverPos<P, C>>, panicked: bool)
    ensures panicked == Panics(snap, d)
    ensures hit == if InScan(geo, snap, at, radiusM, d) then [Record(geo, snap, at, d)] else []
  {
    hit, panicked := [], false;
    if d !in snap.state || snap.state[d] != AVAILABLE { return; }
    if d !in snap.loc { panicked := true; return; }
    var p := snap.loc[d];
    var dist := geo.dist(at, p.at);
    if dist > radiusM { return; }
    var rating := if d in snap.rating then snap.rating[d] else 0.0;
    hit := [DriverPos(d, p.at, p.cell, rating, dist)];
  }

  /** The inner loop of SearchNearby: the members of one cell, `before` being the ids visited so far. */
  method ScanCell<P, C>(
    geo: Geo<P, C>, snap: Snapshot<P, C>, at: P, radiusM: real, ids: seq<string>, ghost before: seq<string>,
    seen0: set<string>, out0: seq<DriverPos<P, C>>)
    returns (seen: set<string>, out: seq<DriverPos<P, C>>, panicked: bool)
    requires seen0 == IdSet(before)
    requires forall d :: d in seen0 ==> !Panics(snap, d)
    requires out0 == Hits(geo, snap, at, radiusM, Firsts(before))
    ensures panicked ==> exists j :: 0 <= j < |ids| && Panics(snap, ids[j])
    ensures !panicked ==> forall d :: d in seen ==> !Panics(snap, d)
    ensures !panicked ==> seen == IdSet(before + ids)
    ensures !panicked ==> out == Hits(geo, snap, at, radiusM, Firsts(before + ids))
  {
    seen, out, panicked := seen0, out0, false;
    ghost var done := before;
    var j := 0;
    while j < |ids|
      invariant 0 <= j <= |ids| && done == before + ids[..j]
      invariant seen == IdSet(done)
      invariant forall d :: d in seen ==> !Panics(snap, d)
      invariant out == Hits(geo, snap, at, radiusM, Firsts(done))
    {
      var d := ids[j];
      HitsMore(geo, snap, at, radiusM, done, d);
      IdSetMore(done, d);
      if d !in seen {
        seen := seen + {d};
        var hit, bad := Examine(geo, snap, at, radiusM, d);
        if bad {
          panicked := true;
          return;
        }
        out := out + hit;
      }
      done := done + [d];
      j := j + 1;
    }
    assert done == before + ids;
  }

  method SearchNearby<P, C>(geo: Geo<P, C>, snap: Snapshot<P, C>, at: P, radiusM: real) returns (r: Outcome<P, C>)
    ensures r == Search(geo, snap, at, radiusM)
  {
    var plan := Plan(geo, at, radiusM);
    if plan.None? { return PlanFailed; }
    var cells := plan.value;
    var seen: set<string> := {};
    var out: seq<DriverPos<P, C>> := [];
    var i := 0;
    while i < |cells|
      invariant 0 <= i <= |cells|
      invariant seen == IdSet(Visit(snap, cells[..i]))
      invariant forall d :: d in seen ==> !Panics(snap, d)
      invariant out == Hits(geo, snap, at, radiusM, Firsts(Visit(snap, cells[..i])))
    {
      var ids := Reply(snap, cells[i]);
      VisitMore(snap, cells, i);
      var seen', out', panicked := ScanCell(geo, snap, at, radiusM, ids, Visit(snap, cells[..i]), seen, out);
      if panicked {
        ghost var j :| 0 <= j < |ids| && Panics(snap, ids[j]);
        PanicSeen(snap, cells, i, j);
        return Panicked;
      }
      seen, out := seen', out';
      i := i + 1;
    }
    assert cells[..|cells|] == cells;
    assert forall k :: 0 <= k < |Visit(snap, cells)| ==> Visit(snap, cells)[k] in seen;
    out := Sorted(out);
    return Found(out, |cells|);
  }
}
