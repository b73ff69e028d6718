/** GPS ingestion: Service.apply and Service.BatchUpdateLocation (internal/location/service.go) over the location
    store. */
module BatchIngest {
  import opened Common
  import opened LocationIndex

  datatype Request<P> = Request(driver: string, at: P, sequence: int)

  /** The checks around a batch: ValidateLatLng, and the cell lookup inside the store. */
  datatype Checks<!P, !C> = Checks(valid: P -> bool, cellOf: P -> Option<C>)

  /** The request gets past validation, so a missing sequence is stamped. */
  predicate Admitted<P, C>(ch: Checks<P, C>, r: Request<P>) {
    r.driver != "" && ch.valid(r.at)
  }

  predicate Stored<P, C>(ch: Checks<P, C>, r: Request<P>) {
    Admitted(ch, r) && ch.cellOf(r.at).Some?
  }

  /** The service counter after the first k requests. */
  function Counter<P, C>(ch: Checks<P, C>, rs: seq<Request<P>>, start: nat, k: nat): nat
    requires k <= |rs|
  {
    if k == 0 then start
    else Counter(ch, rs, start, k - 1) + if Admitted(ch, rs[k - 1]) && rs[k - 1].sequence <= 0 then 1 else 0
  }

  /** The sequence request i carries to the store: its own, or the server's when it brought none. */
  function Stamp<P, C>(ch: Checks<P, C>, rs: seq<Request<P>>, start: nat, i: nat): int
    requires i < |rs|
  {
    if rs[i].sequence > 0 then rs[i].sequence else Counter(ch, rs, start, i + 1)
  }

  /** v exceeds the stored guard of d and every stamp that the first k requests sent to the store for d. */
  predicate Exceeds<P, C>(
    ch: Checks<P, C>, guards: map<string, int>, rs: seq<Request<P>>, start: nat, k: nat, d: string, v: int)
    requires k <= |rs|
  {
    && (d in guards ==> guards[d] < v)
    && forall j :: 0 <= j < k && Stored(ch, rs[j]) && rs[j].driver == d ==> Stamp(ch, rs, start, j) < v
  }

  lemma ExceedsMore<P, C>(
    ch: Checks<P, C>, guards: map<string, int>, rs: seq<Request<P>>, start: nat, k: nat, d: string, v: int)
    requires k < |rs|
    ensures Exceeds(ch, guards, rs, start, k + 1, d, v) <==>
            Exceeds(ch, guards, rs, start, k, d, v) &&
            (Stored(ch, rs[k]) && rs[k].driver == d ==> Stamp(ch, rs, start, k) < v)
  {}

  /** Request i sets a new high for its driver. */
  predicate NewHigh<P, C>(ch: Checks<P, C>, guards: map<string, int>, rs: seq<Request<P>>, start: nat, i: nat)
    requires i < |rs|
  {
    Stored(ch, rs[i]) && Exceeds(ch, guards, rs, start, i, rs[i].driver, Stamp(ch, rs, start, i))
  }

  function HighCount<P, C>(ch: Checks<P, C>, guards: map<string, int>, rs: seq<Request<P>>, start: nat, k: nat): nat
    requires k <= |rs|
  {
    if k == 0 then 0
    else HighCount(ch, guards, rs, start, k - 1) + if NewHigh(ch, guards, rs, start, k - 1) then 1 else 0
  }

  datatype Response = Accepted | Rejected | Invalid

  class LocationService<P, C(==)> {
    const store: LocationStore<P, C>
    var counter: nat

    constructor (store: LocationStore<P, C>)
      ensures this.store == store && counter == 0
    {
      this.store, counter := store, 0;
    }

    /** apply without the event publication; Invalid is the error return for an empty driver id. */
    method Apply(ch: Checks<P, C>, r: Request<P>) returns (resp: Response)
      modifies this, store
      ensures counter == old(counter) + if Admitted(ch, r) && r.sequence <= 0 then 1 else 0
      ensures var stamp := if r.sequence > 0 then r.sequence else counter;
              && (resp == Accepted <==>
                  Stored(ch, r) && (r.driver in old(store.seqs) ==> old(store.seqs)[r.driver] < stamp))
              && store.seqs == (if resp == Accepted then old(store.seqs)[r.driver := stamp] else old(store.seqs))
              && (resp == Accepted ==>
                    var pos := Pos(r.at, ch.cellOf(r.at).value, stamp, 0);
                    && store.loc == old(store.loc)[r.driver := pos] && store.geo == old(store.geo)[r.driver := r.at]
                    && r.driver in Members(store.View(), pos.cell))
      ensures resp != Accepted ==> store.View() == old(store.View())
      ensures resp == Invalid <==> r.driver == ""
    {
      if r.driver == "" { return Invalid; }
      if !ch.valid(r.at) { return Rejected; }
      var stamp := r.sequence;
      if stamp <= 0 {
        counter := counter + 1;
        stamp := counter;
      }
      var applied := store.ApplyLocation(ch.cellOf, r.driver, r.at, stamp, 0);
      return if applied == Some(true) then Accepted else Rejected;
    }

    /** accepted counts exactly the requests that raise their driver's highest sequence, and nothing is uncounted. */
    method BatchUpdateLocation(ch: Checks<P, C>, rs: seq<Request<P>>) returns (accepted: nat, rejected: nat)
      modifies this, store
      ensures accepted == HighCount(ch, old(store.seqs), rs, old(counter), |rs|)
      ensures accepted + rejected == |rs|
      ensures counter == Counter(ch, rs, old(counter), |rs|)
      ensures forall d, v :: (d in store.seqs ==> store.seqs[d] < v) <==>
                             Exceeds(ch, old(store.seqs), rs, old(counter), |rs|, d, v)
    {
      accepted, rejected := 0, 0;
      ghost var guards, start := store.seqs, counter;
      for k := 0 to |rs|
        invariant accepted == HighCount(ch, guards, rs, start, k) && accepted + rejected == k
        invariant counter == Counter(ch, rs, start, k)
        invariant forall d, v :: (d in store.seqs ==> store.seqs[d] < v) <==> Exceeds(ch, guards, rs, start, k, d, v)
      {
        ghost var before := store.seqs;
        var resp := Apply(ch, rs[k]);
        if resp == Accepted { accepted := accepted + 1; } else { rejected := rejected + 1; }
        assert Stored(ch, rs[k]) ==> Admitted(ch, rs[k]);
        ghost var next := k + 1;
        forall d, v
          ensures (d in store.seqs ==> store.seqs[d] < v) <==> Exceeds(ch, guards, rs, start, next, d, v)
        {
          ExceedsMore(ch, guards, rs, start, k, d, v);
          assert (d in before ==> before[d] < v) <==> Exceeds(ch, guards, rs, start, k, d, v);
        }
      }
    }
  }
}
