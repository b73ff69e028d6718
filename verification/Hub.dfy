/** The WebSocket hub (internal/gateway/hub.go): the Run loop, subscriptions, and the bounded send channels. */
module Hub {
  datatype Message = Message(kind: string, payload: string)

  const SEND_BUFFER: nat := 256

  /** Client ids stand for *client pointers. `queue` and `closed` are the send channels; a client has a channel from
      the moment it registers, and keeps it after leaving `clients`. */
  datatype State = State(clients: set<nat>, user: map<nat, string>, queue: map<nat, seq<Message>>, closed: set<nat>,
                         subs: map<string, set<string>>)

  datatype Step =
    | Register(c: nat, user: string)
    | Unregister(c: nat)
    | Broadcast(m: Message)
    | Dequeue(c: nat)
    | SetSubs(user: string, kinds: set<string>)

  predicate Subscribed(h: State, user: string, kind: string) {
    user in h.subs ==> h.subs[user] == {} || kind in h.subs[user]
  }

  predicate Offered(h: State, c: nat, m: Message) {
    c in h.clients && c in h.user && c in h.queue && Subscribed(h, h.user[c], m.kind)
  }

  /** The queue of c after m went round: a full queue drops it. */
  function QueueAfter(h: State, c: nat, m: Message): seq<Message>
    requires c in h.queue
  {
    if Offered(h, c, m) && |h.queue[c]| < SEND_BUFFER then h.queue[c] + [m] else h.queue[c]
  }

  function Next(h: State, s: Step): State {
    match s
    case Register(c, user) => h.(clients := h.clients + {c}, user := h.user[c := user], queue := h.queue[c := []])
    case Unregister(c) => if c in h.clients then h.(clients := h.clients - {c}, closed := h.closed + {c}) else h
    case Broadcast(m) => h.(queue := map c | c in h.queue :: QueueAfter(h, c, m))
    case Dequeue(c) => if c in h.queue && h.queue[c] != [] then h.(queue := h.queue[c := h.queue[c][1..]]) else h
    case SetSubs(user, kinds) => h.(subs := h.subs[user := kinds])
  }

  /** ServeWS makes a new client for every connection and registers it once. */
  predicate Enabled(h: State, s: Step) {
    s.Register? ==> s.c !in h.queue
  }

  predicate Legal(h: State, steps: seq<Step>)
    decreases |steps|
  {
    steps == [] || (Enabled(h, steps[0]) && Legal(Next(h, steps[0]), steps[1..]))
  }

  function Run(h: State, steps: seq<Step>): State
    decreases |steps|
  {
    if steps == [] then h else Run(Next(h, steps[0]), steps[1..])
  }

  const EMPTY := State({}, map[], map[], {}, map[])

  /** What every step keeps: client queues are open and within their buffer. */
  predicate Safe(h: State) {
    && h.clients <= h.queue.Keys && h.clients <= h.user.Keys && h.closed <= h.queue.Keys
    && h.clients !! h.closed
    && forall c :: c in h.queue ==> |h.queue[c]| <= SEND_BUFFER
  }

  // ---------- the imperative loop ----------

  class Loop {
    var clients: set<nat>
    var user: map<nat, string>
    var queue: map<nat, seq<Message>>
    var closed: set<nat>
    var subs: map<string, set<string>>

    ghost function View(): State
      reads this
    {
      State(clients, user, queue, closed, subs)
    }

    method HandleRegister(c: nat, u: string)
      modifies this
      ensures View() == Next(old(View()), Register(c, u))
      ensures clients == old(clients) + {c} && user == old(user)[c := u] && queue == old(queue)[c := []]
    {
      clients, user, queue := clients + {c}, user[c := u], queue[c := []];
    }

    /** close(c.send): closing twice would panic, hence the precondition. */
    method Close(c: nat)
      requires c !in closed
      modifies this`closed
      ensures closed == old(closed) + {c}
    {
      closed := closed + {c};
    }

    method HandleUnregister(c: nat)
      requires Safe(View())
      modifies this
      ensures View() == Next(old(View()), Unregister(c)) && Safe(View())
      ensures clients == old(clients) - {c} && closed == old(closed) + if c in old(clients) then {c} else {}
    {
      if c in clients {
        clients := clients - {c};
        Close(c);
      }
    }

    method SetUserSubs(u: string, kinds: seq<string>)
      modifies this
      ensures View() == Next(old(View()), SetSubs(u, set k | k in kinds))
      ensures subs == old(subs)[u := set k | k in kinds]
    {
      var wanted: set<string> := {};
      for i := 0 to |kinds|
        invariant wanted == set k | k in kinds[..i]
      {
        wanted := wanted + {kinds[i]};
      }
      assert kinds[..|kinds|] == kinds;
      subs := subs[u := wanted];
    }

    /** c.send <- m with a default case: sending on a closed channel would panic, hence the precondition. */
    method TrySend(c: nat, m: Message)
      requires c in queue && c !in closed
      modifies this`queue
      ensures queue == old(queue)[c := if |old(queue)[c]| < SEND_BUFFER then old(queue)[c] + [m] else old(queue)[c]]
    {
      if |queue[c]| < SEND_BUFFER { queue := queue[c := queue[c] + [m]]; }
    }

    method HandleBroadcast(m: Message)
      requires Safe(View())
      modifies this
      ensures View() == Next(old(View()), Broadcast(m)) && Safe(View())
    {
      ghost var h := View();
      var todo := clients;
      while todo != {}
        invariant todo <= clients && View() == h.(queue := queue) && queue.Keys == h.queue.Keys
        invariant forall c :: c in queue ==> queue[c] == if c in todo then h.queue[c] else QueueAfter(h, c, m)
        decreases todo
      {
        var c :| c in todo;
        todo := todo - {c};
        if user[c] !in subs || subs[user[c]] == {} || m.kind in subs[user[c]] {
          TrySend(c, m);
        }
      }
      assert queue == Next(h, Broadcast(m)).queue;
    }
  }

  // ---------- safety ----------

  /** The step sends on a closed channel or closes one a second time. */
  predicate Faults(h: State, s: Step) {
    match s
    case Unregister(c) => c in h.clients && c in h.closed
    case Broadcast(m) => exists c :: c in h.clients && c in h.closed && Offered(h, c, m)
    case _ => false
  }

  lemma {:induction false} RunStaysSafe(h: State, steps: seq<Step>)
    requires Safe(h) && Legal(h, steps)
    ensures Safe(Run(h, steps))
    decreases |steps|
  {
    if steps != [] {
      assert Safe(Next(h, steps[0]));
      RunStaysSafe(Next(h, steps[0]), steps[1..]);
    }
  }

  /** From the empty hub no legal run ever faults, and no queue outgrows its buffer. */
  lemma NoFault(steps: seq<Step>, s: Step)
    requires Legal(EMPTY, steps) && Enabled(Run(EMPTY, steps), s)
    ensures !Faults(Run(EMPTY, steps), s)
    ensures forall c :: c in Run(EMPTY, steps).queue ==> |Run(EMPTY, steps).queue[c]| <= SEND_BUFFER
  {
    RunStaysSafe(EMPTY, steps);
  }

  // ---------- who gets a broadcast ----------

  /** A broadcast adds its message to exactly the queues of connected clients with room for it, 256 waiting messages
      being too many, whose user has no subscriptions or subscribed to that kind. */
  lemma BroadcastReaches(h: State, m: Message, c: nat)
    requires Safe(h) && c in h.queue
    ensures var h' := Next(h, Broadcast(m));
            && c in h'.queue
            && h'.queue[c] ==
               if c in h.clients && |h.queue[c]| < 256 &&
                  (h.user[c] !in h.subs || h.subs[h.user[c]] == {} || m.kind in h.subs[h.user[c]])
               then h.queue[c] + [m] else h.queue[c]
  {}

  /** What steps other than a new choice of subscriptions leave alone. */
  lemma {:induction false} SubscriptionsLast(h: State, steps: seq<Step>, u: string)
    requires forall i :: 0 <= i < |steps| ==> !(steps[i].SetSubs? && steps[i].user == u)
    ensures u in Run(h, steps).subs <==> u in h.subs
    ensures u in h.subs ==> Run(h, steps).subs[u] == h.subs[u]
    decreases |steps|
  {
    if steps != [] { SubscriptionsLast(Next(h, steps[0]), steps[1..], u); }
  }

  /** After a user has chosen a set of kinds, and until it chooses again, no connection of that user, present or future,
      is offered any other kind, unless the set is empty, which means everything. */
  lemma ChoiceDecides(h: State, u: string, kinds: set<string>, steps: seq<Step>, c: nat, m: Message)
    requires forall i :: 0 <= i < |steps| ==> !(steps[i].SetSubs? && steps[i].user == u)
    ensures var end := Run(Next(h, SetSubs(u, kinds)), steps);
            c in end.clients && c in end.queue && c in end.user && end.user[c] == u ==>
              (Offered(end, c, m) <==> kinds == {} || m.kind in kinds)
  {
    SubscriptionsLast(Next(h, SetSubs(u, kinds)), steps, u);
  }

  // ---------- delivery ----------

  /** A broadcast that reached c's turn with c's subscription admitting it, and whether the queue had room. */
  datatype Offer = Offer(m: Message, room: bool)

  function StepOffers(h: State, s: Step, c: nat): seq<Offer> {
    if s.Broadcast? && Offered(h, c, s.m) then [Offer(s.m, |h.queue[c]| < SEND_BUFFER)] else []
  }

  function OffersTo(h: State, steps: seq<Step>, c: nat): seq<Offer>
    decreases |steps|
  {
    if steps == [] then [] else StepOffers(h, steps[0], c) + OffersTo(Next(h, steps[0]), steps[1..], c)
  }

  function StepReceived(h: State, s: Step, c: nat): seq<Message> {
    if s == Dequeue(c) && c in h.queue && h.queue[c] != [] then [h.queue[c][0]] else []
  }

  function ReceivedBy(h: State, steps: seq<Step>, c: nat): seq<Message>
    decreases |steps|
  {
    if steps == [] then [] else StepReceived(h, steps[0], c) + ReceivedBy(Next(h, steps[0]), steps[1..], c)
  }

  /** The offers that found room, in order. */
  function Kept(os: seq<Offer>): seq<Message> {
    if os == [] then [] else (if os[0].room then [os[0].m] else []) + Kept(os[1..])
  }

  function QueueOf(h: State, c: nat): seq<Message> {
    if c in h.queue then h.queue[c] else []
  }

  lemma KeptCons(a: seq<Offer>, b: seq<Offer>)
    requires |a| <= 1
    ensures Kept(a + b) == Kept(a) + Kept(b)
  {
    if a == [] {
      assert a + b == b;
    } else {
      assert (a + b)[1..] == b && a[1..] == [];
    }
  }

  lemma StepConserves(h: State, s: Step, c: nat)
    requires Enabled(h, s)
    ensures QueueOf(h, c) + Kept(StepOffers(h, s, c)) == StepReceived(h, s, c) + QueueOf(Next(h, s), c)
  {
    if s.Broadcast? && Offered(h, c, s.m) {
      var o := Offer(s.m, |h.queue[c]| < SEND_BUFFER);
      assert [o][1..] == [] && Kept([o]) == if o.room then [s.m] else [];
    }
  }

  lemma Regroup<T>(q: seq<T>, k: seq<T>, k': seq<T>, r: seq<T>, q': seq<T>, r': seq<T>, q'': seq<T>)
    requires q + k == r + q' && q' + k' == r' + q''
    ensures q + (k + k') == (r + r') + q''
  {
    assert q + (k + k') == (q + k) + k' == r + (q' + k') == (r + r') + q'';
  }

  /** Nothing is lost but drops at a full queue, nothing is invented, duplicated or reordered: what c received followed
      by what still waits is what waited at first followed by every admitted broadcast that found room. */
  lemma {:induction false} DeliveryInOrder(h: State, steps: seq<Step>, c: nat)
    requires Legal(h, steps)
    ensures QueueOf(h, c) + Kept(OffersTo(h, steps, c)) == ReceivedBy(h, steps, c) + QueueOf(Run(h, steps), c)
    decreases |steps|
  {
    if steps != [] {
      var s, h', rest := steps[0], Next(h, steps[0]), steps[1..];
      StepConserves(h, s, c);
      DeliveryInOrder(h', rest, c);
      KeptCons(StepOffers(h, s, c), OffersTo(h', rest, c));
      Regroup(QueueOf(h, c), Kept(StepOffers(h, s, c)), Kept(OffersTo(h', rest, c)), StepReceived(h, s, c),
              QueueOf(h', c), ReceivedBy(h', rest, c), QueueOf(Run(h', rest), c));
    }
  }

  lemma {:induction false} GoneStaysGone(h: State, c: nat, steps: seq<Step>)
    requires c in h.closed && c !in h.clients && c in h.queue && Legal(h, steps)
    ensures c in Run(h, steps).closed && c !in Run(h, steps).clients
    ensures OffersTo(h, steps, c) == []
    decreases |steps|
  {
    if steps != [] { GoneStaysGone(Next(h, steps[0]), c, steps[1..]); }
  }

  /** A connection that has ended is closed for good: it gets no broadcast of any later run, and what was waiting is
      only read off. */
  lemma {:induction false} NothingAfterUnregister(h: State, c: nat, steps: seq<Step>)
    requires Safe(h) && c in h.clients && Legal(Next(h, Unregister(c)), steps)
    ensures var gone := Next(h, Unregister(c));
            && c in Run(gone, steps).closed && c !in Run(gone, steps).clients
            && OffersTo(gone, steps, c) == []
  {
    GoneStaysGone(Next(h, Unregister(c)), c, steps);
  }
}
