/** The driver position index: applyLocationScript (internal/redis/scripts.go), Store.InitDriver and
    Store.ApplyLocation (internal/redis/store.go). P is the type of coordinates, C the type of cells; the cell of a
    point is an arbitrary partial function, as H3 rejects some coordinates. */
module LocationIndex {
  import opened Common

  /** The hash driver:{id}:loc. */
  datatype Pos<P, C> = Pos(at: P, cell: C, sequence: int, ts: int)

  /** Position hashes, cell sets, the geo zset and the sequence guards. */
  datatype Index<P, C(==)> = Index(loc: map<string, Pos<P, C>>, cells: map<C, set<string>>,
                                   geo: map<string, P>, seqs: map<string, int>)

  function Members<P, C>(ix: Index<P, C>, c: C): set<string> {
    if c in ix.cells then ix.cells[c] else {}
  }

  function SetAdd<C>(cells: map<C, set<string>>, c: C, d: string): map<C, set<string>> {
    cells[c := (if c in cells then cells[c] else {}) + {d}]
  }

  function SetRemove<C>(cells: map<C, set<string>>, c: C, d: string): map<C, set<string>> {
    if c in cells then cells[c := cells[c] - {d}] else cells
  }

  function ApplyScript<P, C>(ix: Index<P, C>, d: string, p: Pos<P, C>, oldCell: C): (Index<P, C>, bool) {
    if d in ix.seqs && ix.seqs[d] >= p.sequence then (ix, false)
    else
      var left := if oldCell != p.cell then SetRemove(ix.cells, oldCell, d) else ix.cells;
      (Index(ix.loc[d := p], SetAdd(left, p.cell, d), ix.geo[d := p.at], ix.seqs[d := p.sequence]), true)
  }

  /** InitDriver writes the position with sequence 0, joins the new cell and leaves any old one as it was. */
  function InitScript<P, C>(ix: Index<P, C>, d: string, at: P, cell: C, ts: int): Index<P, C> {
    ix.(loc := ix.loc[d := Pos(at, cell, 0, ts)], cells := SetAdd(ix.cells, cell, d), geo := ix.geo[d := at])
  }

  // ---------- runs ----------

  /** `oldCell` of an update is whatever the caller read before the script ran: any cell at all, however stale.
      None means the read found no position and the new cell was used. */
  datatype Step<P, C> =
    | Register(d: string, at: P, ts: int)
    | Update(d: string, at: P, sequence: int, ts: int, oldCell: Option<C>)
    | ExpireLoc(d: string)
    | ExpireSeq(d: string)

  function Serial<P, C>(
    cellOf: P -> Option<C>, ix: Index<P, C>, d: string, at: P, sequence: int, ts: int): (s: Step<P, C>)
    ensures s.Update? && (cellOf(at).Some? ==> s.oldCell.Some?)
  {
    Update(d, at, sequence, ts, if d in ix.loc then Some(ix.loc[d].cell) else cellOf(at))
  }

  function Next<P, C>(cellOf: P -> Option<C>, ix: Index<P, C>, s: Step<P, C>): Index<P, C> {
    match s
    case Register(d, at, ts) =>
      (match cellOf(at)
       case None => ix
       case Some(cell) => InitScript(ix, d, at, cell, ts))
    case Update(d, at, sequence, ts, oldCell) =>
      (match cellOf(at)
       case None => ix
       case Some(cell) =>
         ApplyScript(ix, d, Pos(at, cell, sequence, ts), if oldCell.Some? then oldCell.value else cell).0)
    case ExpireLoc(d) => ix.(loc := ix.loc - {d})
    case ExpireSeq(d) => ix.(seqs := ix.seqs - {d})
  }

  function Run<P, C>(cellOf: P -> Option<C>, ix: Index<P, C>, steps: seq<Step<P, C>>): Index<P, C>
    decreases |steps|
  {
    if steps == [] then ix else Run(cellOf, Next(cellOf, ix, steps[0]), steps[1..])
  }

  // ---------- the code ----------

  class LocationStore<P, C(==)> {
    var loc: map<string, Pos<P, C>>
    var cells: map<C, set<string>>
    var geo: map<string, P>
    var seqs: map<string, int>

    ghost function View(): Index<P, C>
      reads this
    {
      Index(loc, cells, geo, seqs)
    }

    /** None is the error of geospatial.CellKey. */
    method InitDriver(cellOf: P -> Option<C>, d: string, at: P, ts: int) returns (ok: bool)
      modifies this
      ensures ok == cellOf(at).Some?
      ensures View() == if ok then InitScript(old(View()), d, at, cellOf(at).value, ts) else old(View())
    {
      var cell := cellOf(at);
      if cell == None { return false; }
      loc := loc[d := Pos(at, cell.value, 0, ts)];
      cells := SetAdd(cells, cell.value, d);
      geo := geo[d := at];
      return true;
    }

    method ApplyLocation(
      cellOf: P -> Option<C>, d: string, at: P, sequence: int, ts: int) returns (applied: Option<bool>)
      modifies this
      ensures View() == Next(cellOf, old(View()), Serial(cellOf, old(View()), d, at, sequence, ts))
      ensures applied == if cellOf(at) == None then None
                         else Some(ApplyScript(old(View()), d, Pos(at, cellOf(at).value, sequence, ts),
                                               Serial(cellOf, old(View()), d, at, sequence, ts).oldCell.value).1)
    {
      var oldCell: Option<C> := if d in loc then Some(loc[d].cell) else None;
      var newCell := cellOf(at);
      if newCell == None { return None; }
      if oldCell == None { oldCell := newCell; }
      // the script
      if d in seqs && seqs[d] >= sequence { return Some(false); }
      seqs := seqs[d := sequence];
      loc := loc[d := Pos(at, newCell.value, sequence, ts)];
      if oldCell != newCell { cells := SetRemove(cells, oldCell.value, d); }
      cells := SetAdd(cells, newCell.value, d);
      geo := geo[d := at];
      return Some(true);
    }
  }

  // ---------- the index never loses a driver ----------

  /** A recorded position is in the set of its cell, that cell is the cell of its coordinates, and the geo entry
      agrees. */
  ghost predicate Filed<P(!new), C(!new)>(cellOf: P -> Option<C>, ix: Index<P, C>, d: string) {
    d in ix.loc ==>
      && cellOf(ix.loc[d].at) == Some(ix.loc[d].cell)
      && d in Members(ix, ix.loc[d].cell)
      && d in ix.geo && ix.geo[d] == ix.loc[d].at
  }

  ghost predicate NeverLost<P(!new), C(!new)>(cellOf: P -> Option<C>, ix: Index<P, C>) {
    forall d {:trigger Filed(cellOf, ix, d)} {:trigger d in ix.loc} :: Filed(cellOf, ix, d)
  }

  lemma ApplyKeepsFiled<P(!new), C(!new)>(
    cellOf: P -> Option<C>, ix: Index<P, C>, x: string, p: Pos<P, C>, oldCell: C, d: string)
    requires Filed(cellOf, ix, d) && cellOf(p.at) == Some(p.cell)
    ensures Filed(cellOf, ApplyScript(ix, x, p, oldCell).0, d)
  {}

  lemma StepNeverLoses<P(!new), C(!new)>(cellOf: P -> Option<C>, ix: Index<P, C>, s: Step<P, C>)
    requires NeverLost(cellOf, ix)
    ensures NeverLost(cellOf, Next(cellOf, ix, s))
  {
    forall d ensures Filed(cellOf, Next(cellOf, ix, s), d) {
      assert Filed(cellOf, ix, d);
      if s.Update? && cellOf(s.at).Some? {
        var cell := cellOf(s.at).value;
        var oldCell := if s.oldCell.Some? then s.oldCell.value else cell;
        ApplyKeepsFiled(cellOf, ix, s.d, Pos(s.at, cell, s.sequence, s.ts), oldCell, d);
      }
    }
  }

  /** Every interleaving of registrations, updates with arbitrarily stale reads, and expiries keeps each recorded
      position in the set of its own cell and in the geo index. */
  lemma {:induction false} IndexNeverLosesDriver<P(!new), C(!new)>(
    cellOf: P -> Option<C>, ix: Index<P, C>, steps: seq<Step<P, C>>)
    requires NeverLost(cellOf, ix)
    ensures NeverLost(cellOf, Run(cellOf, ix, steps))
    decreases |steps|
  {
    if steps != [] {
      StepNeverLoses(cellOf, ix, steps[0]);
      IndexNeverLosesDriver(cellOf, Next(cellOf, ix, steps[0]), steps[1..]);
    }
  }

  // ---------- what is on record ----------

  /** Nothing about driver d differs: record, geo entry, guard, cell memberships. */
  ghost predicate SameInIndex<P(!new), C(!new)>(a: Index<P, C>, b: Index<P, C>, d: string) {
    && (d in a.loc <==> d in b.loc) && (d in a.loc ==> a.loc[d] == b.loc[d])
    && (d in a.geo <==> d in b.geo) && (d in a.geo ==> a.geo[d] == b.geo[d])
    && (d in a.seqs <==> d in b.seqs) && (d in a.seqs ==> a.seqs[d] == b.seqs[d])
    && forall c :: d in Members(a, c) <==> d in Members(b, c)
  }

  /** A registration, the first or a repeated one, puts the new point on record with sequence 0, keeps the guard, and
      adds the new cell to whatever cells the driver was in. Without a cell, and for all other drivers, nothing
      changes. */
  lemma RegistrationRecords<P(!new), C(!new)>(cellOf: P -> Option<C>, ix: Index<P, C>, d: string, at: P, ts: int)
    ensures var ix' := Next(cellOf, ix, Register(d, at, ts));
            && (forall x :: x != d ==> SameInIndex(ix, ix', x))
            && (cellOf(at).None? ==> ix' == ix)
            && (cellOf(at).Some? ==>
                  && d in ix'.loc && ix'.loc[d] == Pos(at, cellOf(at).value, 0, ts)
                  && d in ix'.geo && ix'.geo[d] == at
                  && (forall c :: d in Members(ix', c) <==> c == cellOf(at).value || d in Members(ix, c))
                  && ix'.seqs == ix.seqs)
  {}

  /** Step s, taken on ix, puts a new position of d on record: a registration always, an update when its sequence is
      above the guard. */
  predicate Records<P, C>(cellOf: P -> Option<C>, ix: Index<P, C>, s: Step<P, C>, d: string) {
    && (s.Register? || s.Update?) && s.d == d && cellOf(s.at).Some?
    && (s.Update? && d in ix.seqs ==> ix.seqs[d] < s.sequence)
  }

  /** The record that such a step stands for. */
  predicate OnRecord<P(==), C>(cellOf: P -> Option<C>, ix: Index<P, C>, s: Step<P, C>, d: string)
    requires (s.Register? || s.Update?) && cellOf(s.at).Some?
  {
    && d in ix.loc
    && ix.loc[d] == Pos(s.at, cellOf(s.at).value, if s.Update? then s.sequence else 0, s.ts)
    && d in ix.geo && ix.geo[d] == s.at
  }

  predicate SamePosition<P(==), C(==)>(a: Index<P, C>, b: Index<P, C>, d: string) {
    && (d in a.loc <==> d in b.loc) && (d in a.loc ==> a.loc[d] == b.loc[d])
    && (d in a.geo <==> d in b.geo) && (d in a.geo ==> a.geo[d] == b.geo[d])
  }

  lemma StepRecordsOrNot<P(!new), C(!new)>(cellOf: P -> Option<C>, ix: Index<P, C>, s: Step<P, C>, d: string)
    ensures Records(cellOf, ix, s, d) ==> OnRecord(cellOf, Next(cellOf, ix, s), s, d)
    ensures !Records(cellOf, ix, s, d) && s != ExpireLoc(d) ==> SamePosition(ix, Next(cellOf, ix, s), d)
  {}

  /** From step i of the run on, nothing is recorded for d and its position does not expire. */
  predicate QuietFrom<P(==), C(==)>(
    cellOf: P -> Option<C>, ix: Index<P, C>, steps: seq<Step<P, C>>, i: nat, d: string)
  {
    forall j :: i <= j < |steps| ==>
      !Records(cellOf, Run(cellOf, ix, steps[..j]), steps[j], d) && steps[j] != ExpireLoc(d)
  }

  lemma {:induction false} RunSnoc<P, C>(cellOf: P -> Option<C>, ix: Index<P, C>, steps: seq<Step<P, C>>, s: Step<P, C>)
    ensures Run(cellOf, ix, steps + [s]) == Next(cellOf, Run(cellOf, ix, steps), s)
    decreases |steps|
  {
    if steps == [] {
      assert (steps + [s])[1..] == [];
    } else {
      assert (steps + [s])[1..] == steps[1..] + [s];
      RunSnoc(cellOf, Next(cellOf, ix, steps[0]), steps[1..], s);
    }
  }

  lemma {:induction false} QuietKeepsPosition<P(!new), C(!new)>(
    cellOf: P -> Option<C>, ix: Index<P, C>, steps: seq<Step<P, C>>, i: nat, n: nat, d: string)
    requires i <= n <= |steps| && QuietFrom(cellOf, ix, steps, i, d)
    ensures SamePosition(Run(cellOf, ix, steps[..i]), Run(cellOf, ix, steps[..n]), d)
    decreases n
  {
    if i < n {
      QuietKeepsPosition(cellOf, ix, steps, i, n - 1, d);
      assert steps[..n] == steps[..n - 1] + [steps[n - 1]];
      RunSnoc(cellOf, ix, steps[..n - 1], steps[n - 1]);
      StepRecordsOrNot(cellOf, Run(cellOf, ix, steps[..n - 1]), steps[n - 1], d);
    }
  }

  /** The position on record is that of the later of the driver's last registration and its last applied update, along
      every run with any stale reads and expired guards; a driver with neither keeps what it had. */
  lemma {:induction false} LatestIsOnRecord<P(!new), C(!new)>(
    cellOf: P -> Option<C>, ix: Index<P, C>, steps: seq<Step<P, C>>, d: string)
    ensures QuietFrom(cellOf, ix, steps, 0, d) ==> SamePosition(ix, Run(cellOf, ix, steps), d)
    ensures forall i :: 0 <= i < |steps| && Records(cellOf, Run(cellOf, ix, steps[..i]), steps[i], d) &&
                        QuietFrom(cellOf, ix, steps, i + 1, d) ==>
              OnRecord(cellOf, Run(cellOf, ix, steps), steps[i], d)
  {
    assert steps[..|steps|] == steps && steps[..0] == [];
    if QuietFrom(cellOf, ix, steps, 0, d) { QuietKeepsPosition(cellOf, ix, steps, 0, |steps|, d); }
    forall i | 0 <= i < |steps| && Records(cellOf, Run(cellOf, ix, steps[..i]), steps[i], d) &&
               QuietFrom(cellOf, ix, steps, i + 1, d)
      ensures OnRecord(cellOf, Run(cellOf, ix, steps), steps[i], d)
    {
      assert steps[..i + 1] == steps[..i] + [steps[i]];
      RunSnoc(cellOf, ix, steps[..i], steps[i]);
      StepRecordsOrNot(cellOf, Run(cellOf, ix, steps[..i]), steps[i], d);
      QuietKeepsPosition(cellOf, ix, steps, i + 1, |steps|, d);
    }
  }

  // ---------- exactly one cell ----------

  /** What an applied update does to a driver's memberships: it leaves the cell it was told about, and only that one. */
  lemma MembershipAfterUpdate<P(!new), C(!new)>(ix: Index<P, C>, d: string, p: Pos<P, C>, oldCell: C)
    requires ApplyScript(ix, d, p, oldCell).1
    ensures var ix' := ApplyScript(ix, d, p, oldCell).0;
            && (forall c :: d in Members(ix', c) <==> c == p.cell || (c != oldCell && d in Members(ix, c)))
            && ((forall c :: d in Members(ix', c) <==> c == p.cell) <==>
                (forall c :: d in Members(ix, c) ==> c == oldCell || c == p.cell))
  {
    var ix' := ApplyScript(ix, d, p, oldCell).0;
    forall c ensures d in Members(ix', c) <==> c == p.cell || (c != oldCell && d in Members(ix, c)) {}
  }

  ghost predicate OneCell<P(!new), C(!new)>(ix: Index<P, C>) {
    forall c, d :: d in Members(ix, c) ==> d in ix.loc && ix.loc[d].cell == c
  }

  /** No expiry, each driver registered at most once, and every update's read directly before its script. */
  predicate Serialised<P(==), C>(cellOf: P -> Option<C>, ix: Index<P, C>, s: Step<P, C>) {
    match s
    case Register(d, _, _) => d !in ix.loc
    case Update(d, at, sequence, ts, _) => s == Serial(cellOf, ix, d, at, sequence, ts)
    case _ => false
  }

  predicate AllSerialised<P(==), C>(cellOf: P -> Option<C>, ix: Index<P, C>, steps: seq<Step<P, C>>)
    decreases |steps|
  {
    steps == [] || (Serialised(cellOf, ix, steps[0]) && AllSerialised(cellOf, Next(cellOf, ix, steps[0]), steps[1..]))
  }

  lemma SerialisedStepKeepsOneCell<P(!new), C(!new)>(cellOf: P -> Option<C>, ix: Index<P, C>, s: Step<P, C>)
    requires OneCell(ix) && Serialised(cellOf, ix, s)
    ensures OneCell(Next(cellOf, ix, s))
  {
    var ix' := Next(cellOf, ix, s);
    forall c, d | d in Members(ix', c) ensures d in ix'.loc && ix'.loc[d].cell == c {
      if d == s.d && cellOf(s.at).Some? {
        assert c != cellOf(s.at).value ==> d in Members(ix, c);
      } else {
        assert d in Members(ix, c);
      }
    }
  }

  /** In serialised runs a driver is in the set of its recorded cell and in no other. */
  lemma {:induction false} SerialisedRunsKeepOneCell<P(!new), C(!new)>(
    cellOf: P -> Option<C>, ix: Index<P, C>, steps: seq<Step<P, C>>)
    requires NeverLost(cellOf, ix) && OneCell(ix) && AllSerialised(cellOf, ix, steps)
    ensures forall c, d :: d in Members(Run(cellOf, ix, steps), c) <==>
                           d in Run(cellOf, ix, steps).loc && Run(cellOf, ix, steps).loc[d].cell == c
    decreases |steps|
  {
    if steps != [] {
      var ix' := Next(cellOf, ix, steps[0]);
      StepNeverLoses(cellOf, ix, steps[0]);
      SerialisedStepKeepsOneCell(cellOf, ix, steps[0]);
      SerialisedRunsKeepOneCell(cellOf, ix', steps[1..]);
    }
  }

  /** Two overlapping updates that both read the first cell leave the driver in the set of a cell it has left. */
  lemma StaleReadLeavesGhost() returns (steps: seq<Step<int, int>>)
    ensures |steps| == 3 && steps[0].Register? && steps[1].Update? && steps[2].Update?
    ensures steps[1].oldCell == Some(steps[0].at) == steps[2].oldCell
    ensures var ix := Run((x: int) => Some(x), Index(map[], map[], map[], map[]), steps);
            "d" in ix.loc && exists c :: c != ix.loc["d"].cell && "d" in Members(ix, c)
  {
    var cellOf := (x: int) => Some(x);
    var e: Index<int, int> := Index(map[], map[], map[], map[]);
    steps := [Register("d", 0, 0), Update("d", 1, 1, 0, Some(0)), Update("d", 2, 2, 0, Some(0))];
    var a := Next(cellOf, e, steps[0]);
    var b := Next(cellOf, a, steps[1]);
    var c := Next(cellOf, b, steps[2]);
    assert steps[1..][1..] == [steps[2]] && steps[1..][1..][1..] == [];
    assert Run(cellOf, e, steps) == Run(cellOf, a, steps[1..]) == Run(cellOf, b, steps[1..][1..]) == c;
    assert "d" in Members(c, 1) && c.loc["d"].cell == 2;
  }

  // ---------- order independence ----------

  predicate Counts<P, C>(cellOf: P -> Option<C>, s: Step<P, C>, d: string) {
    s.Update? && s.d == d && cellOf(s.at).Some?
  }

  /** Everything recorded about d, its timestamp aside, comes from update u. */
  predicate Wrote<P(==), C>(cellOf: P -> Option<C>, ix: Index<P, C>, u: Step<P, C>, d: string) {
    && Counts(cellOf, u, d)
    && d in ix.seqs && ix.seqs[d] == u.sequence
    && d in ix.loc && ix.loc[d] == Pos(u.at, cellOf(u.at).value, u.sequence, ix.loc[d].ts)
    && d in ix.geo && ix.geo[d] == u.at
  }

  predicate SameRecord<P(==), C>(a: Index<P, C>, b: Index<P, C>, d: string) {
    && (d in a.seqs <==> d in b.seqs) && (d in a.seqs ==> a.seqs[d] == b.seqs[d])
    && (d in a.loc <==> d in b.loc) && (d in a.loc ==> a.loc[d].(ts := 0) == b.loc[d].(ts := 0))
    && (d in a.geo <==> d in b.geo) && (d in a.geo ==> a.geo[d] == b.geo[d])
  }

  predicate Above(g: Option<int>, v: int) { g.Some? ==> g.value < v }

  function Guard<P, C>(ix: Index<P, C>, d: string): Option<int> {
    if d in ix.seqs then Some(ix.seqs[d]) else None
  }

  /** One update either writes the whole record of d and raises its guard, or leaves d alone and was not newer. */
  lemma UpdateWritesOrNot<P(!new), C(!new)>(cellOf: P -> Option<C>, ix: Index<P, C>, u: Step<P, C>, d: string)
    requires u.Update?
    ensures var ix' := Next(cellOf, ix, u);
            if Counts(cellOf, u, d) && Above(Guard(ix, d), u.sequence)
            then Wrote(cellOf, ix', u, d) && ix'.loc[d].ts == u.ts
            else SameRecord(ix, ix', d)
  {}

  /** After any run of updates the guard of d is the largest sequence seen, and the record is either untouched or
      written by an update carrying that sequence. */
  lemma {:induction false} NewestWins<P(!new), C(!new)>(
    cellOf: P -> Option<C>, ix: Index<P, C>, us: seq<Step<P, C>>, d: string)
    requires forall u :: u in us ==> u.Update?
    ensures var end := Run(cellOf, ix, us);
            && (d in ix.seqs ==> d in end.seqs && ix.seqs[d] <= end.seqs[d])
            && (forall u :: u in us && Counts(cellOf, u, d) ==> d in end.seqs && u.sequence <= end.seqs[d])
            && (SameRecord(ix, end, d) ||
                exists u :: u in us && Wrote(cellOf, end, u, d) && Above(Guard(ix, d), u.sequence))
    decreases |us|
  {
    if us != [] {
      var ix' := Next(cellOf, ix, us[0]);
      var end := Run(cellOf, ix', us[1..]);
      UpdateWritesOrNot(cellOf, ix, us[0], d);
      NewestWins(cellOf, ix', us[1..], d);
      assert us == [us[0]] + us[1..];
      if !SameRecord(ix', end, d) {
        var u :| u in us[1..] && Wrote(cellOf, end, u, d) && Above(Guard(ix', d), u.sequence);
        assert u in us;
      } else if Counts(cellOf, us[0], d) && Above(Guard(ix, d), us[0].sequence) {
        assert us[0] in us && Wrote(cellOf, end, us[0], d);
      }
    }
  }

  /** The updates as the driver sent them: reading times and stale reads are not part of them. */
  function Payloads<P(==), C>(us: seq<Step<P, C>>): set<(string, int, P)> {
    set i | 0 <= i < |us| && us[i].Update? :: (us[i].d, us[i].sequence, us[i].at)
  }

  lemma Matching<P(!new), C(!new)>(us: seq<Step<P, C>>, ws: seq<Step<P, C>>, u: Step<P, C>) returns (w: Step<P, C>)
    requires u in us && u.Update? && Payloads(us) <= Payloads(ws)
    ensures w in ws && w.Update? && w.d == u.d && w.sequence == u.sequence && w.at == u.at
  {
    assert (u.d, u.sequence, u.at) in Payloads(us);
    var i :| 0 <= i < |ws| && ws[i].Update? && (ws[i].d, ws[i].sequence, ws[i].at) == (u.d, u.sequence, u.at);
    w := ws[i];
  }

  /** The run of ws, which has all payloads of us, ends at least as new on d, and leaves d alone only if us does. */
  lemma {:induction false} AtLeastAsNew<P(!new), C(!new)>(
    cellOf: P -> Option<C>, ix: Index<P, C>, us: seq<Step<P, C>>, ws: seq<Step<P, C>>, d: string)
    requires (forall u :: u in us ==> u.Update?) && (forall w :: w in ws ==> w.Update?)
    requires Payloads(us) <= Payloads(ws)
    ensures var a, b := Run(cellOf, ix, us), Run(cellOf, ix, ws);
            && (d in a.seqs ==> d in b.seqs && a.seqs[d] <= b.seqs[d])
            && (SameRecord(ix, b, d) ==> SameRecord(ix, a, d))
  {
    NewestWins(cellOf, ix, us, d);
    NewestWins(cellOf, ix, ws, d);
    var a := Run(cellOf, ix, us);
    if !SameRecord(ix, a, d) {
      var u :| u in us && Wrote(cellOf, a, u, d) && Above(Guard(ix, d), u.sequence);
      var w := Matching(us, ws, u);
      assert Counts(cellOf, w, d);
    }
  }

  /** Any two delivery orders of the same updates, with any repetitions, end with the same record of every driver. */
  lemma {:induction false} OrderIndependent<P(!new), C(!new)>(
    cellOf: P -> Option<C>, ix: Index<P, C>, us: seq<Step<P, C>>, ws: seq<Step<P, C>>, d: string)
    requires (forall u :: u in us ==> u.Update?) && (forall w :: w in ws ==> w.Update?)
    requires Payloads(us) == Payloads(ws)
    requires forall u, v :: u in us && v in us && u.d == v.d && u.sequence == v.sequence ==> u.at == v.at
    ensures SameRecord(Run(cellOf, ix, us), Run(cellOf, ix, ws), d)
  {
    AtLeastAsNew(cellOf, ix, us, ws, d);
    AtLeastAsNew(cellOf, ix, ws, us, d);
    var a, b := Run(cellOf, ix, us), Run(cellOf, ix, ws);
    if !SameRecord(ix, a, d) {
      NewestWins(cellOf, ix, us, d);
      NewestWins(cellOf, ix, ws, d);
      var u :| u in us && Wrote(cellOf, a, u, d);
      var w :| w in ws && Wrote(cellOf, b, w, d);
      var v := Matching(ws, us, w);
      assert u.at == v.at;
    }
  }

  /** The sequences applied to d, in the order of their application. */
  function AppliedSeqs<P, C>(cellOf: P -> Option<C>, ix: Index<P, C>, us: seq<Step<P, C>>, d: string): seq<int>
    decreases |us|
  {
    if us == [] then []
    else
      (if Counts(cellOf, us[0], d) && Above(Guard(ix, d), us[0].sequence) then [us[0].sequence] else [])
      + AppliedSeqs(cellOf, Next(cellOf, ix, us[0]), us[1..], d)
  }

  predicate IncreasingAbove(low: Option<int>, a: seq<int>) {
    && (forall i, j :: 0 <= i < j < |a| ==> a[i] < a[j])
    && (forall i :: 0 <= i < |a| ==> Above(low, a[i]))
  }

  lemma IncreasingCons(low: Option<int>, x: int, a: seq<int>)
    requires IncreasingAbove(Some(x), a) && Above(low, x)
    ensures IncreasingAbove(low, [x] + a)
  {
    assert forall i :: 0 <= i < |a| ==> Above(Some(x), a[i]);
  }

  /** Whatever the order of delivery, and across re-registrations and expired positions, the sequences that get applied
      rise strictly from above the stored guard, as long as the guard key itself does not expire. */
  lemma {:induction false} AppliedStrictlyIncreasing<P(!new), C(!new)>(
    cellOf: P -> Option<C>, ix: Index<P, C>, us: seq<Step<P, C>>, d: string)
    requires forall i :: 0 <= i < |us| ==> !us[i].ExpireSeq?
    ensures IncreasingAbove(Guard(ix, d), AppliedSeqs(cellOf, ix, us, d))
    decreases |us|
  {
    if us != [] {
      var ix' := Next(cellOf, ix, us[0]);
      var rest := AppliedSeqs(cellOf, ix', us[1..], d);
      if us[0].Update? { UpdateWritesOrNot(cellOf, ix, us[0], d); }
      AppliedStrictlyIncreasing(cellOf, ix', us[1..], d);
      if Counts(cellOf, us[0], d) && Above(Guard(ix, d), us[0].sequence) {
        IncreasingCons(Guard(ix, d), us[0].sequence, rest);
      } else {
        assert AppliedSeqs(cellOf, ix, us, d) == rest && Guard(ix', d) == Guard(ix, d);
      }
    }
  }
}
