/**
 The routing path as a whole: messages and frames arrive on any channel and the router runs, in any order. Whatever the
 order, what arrives on a channel leads to the deliveries that its routings ask for, each once and in order.
 */
module Gateway {
  import opened Results
  import opened Bytes
  import opened SizeT
  import opened BlobFormat
  import opened BlobReader
  import opened RoutingTable
  import opened Channels
  import opened Records
  import opened TableReader
  import opened RoundTrip
  import opened Ecu
  import opened EndToEnd
  import opened Outgoing
  import opened LegacyTx
  import opened Flatten
  import opened Frame = Frames
  import opened Reception
  import R = Router

  // ----- Runs -----

  /** The Rx adapter of a channel, by what it is made of; a channel may have none. */
  datatype Adapter = NoAdapter | Adapter(kind: Kind, table: RxAdapterTable, bufferSize: nat)

  ghost predicate Shaped(adapters: seq<Adapter>) {
    forall c :: 0 <= c < |adapters| && adapters[c].Adapter? ==> RxShape(adapters[c].table)
  }

  /** A gateway: its routing table, and what is connected to it. The router numbers its channels by a byte. */
  datatype Setup = Setup(target: Target, table: PduRoutingTable, writers: seq<R.Writer>, adapters: seq<Adapter>)
  {
    ghost predicate Valid() {
      && R.RoutingShape(table) && Shaped(adapters) && R.WritersValid(target, writers)
      && |writers| == |adapters| <= 0xFF
    }
  }

  /** Either a message or frame arrives, or run() is called. */
  datatype Event = Arrives(channel: nat, span: Span) | Runs

  /** What comes of spans that arrive on channel c. */
  function FutureAt(g: Setup, c: nat, spans: seq<Span>): (f: Future)
    requires Shaped(g.adapters) && c < |g.adapters|
  {
    match g.adapters[c]
    case NoAdapter => NOTHING
    case Adapter(kind, table, bufferSize) => AllFuture(kind, g.target, table, bufferSize, spans)
  }

  /** A reset is the end. */
  function AfterEvent(g: Setup, s: R.Snapshot, e: Event): (s': R.Snapshot)
    requires g.Valid() && s.Valid() && |s.queues| == |g.adapters|
    ensures s'.Valid() && |s'.queues| == |g.adapters|
  {
    if s.reset then s
    else
      match e
      case Runs =>
        R.AfterCall(g.table, g.writers, s)
      case Arrives(c, span) =>
        if c >= |g.adapters| then s
        else s.(queues := s.queues[c := Then(s.queues[c], FutureAt(g, c, [span]))])
  }

  function AfterEvents(g: Setup, s: R.Snapshot, events: seq<Event>): (s': R.Snapshot)
    requires g.Valid() && s.Valid() && |s.queues| == |g.adapters|
    ensures s'.Valid() && |s'.queues| == |g.adapters|
    decreases |events|
  {
    if events == [] then s else AfterEvents(g, AfterEvent(g, s, events[0]), events[1..])
  }

  /** What arrived on channel c, in order. */
  function Arrived(events: seq<Event>, c: nat): (spans: seq<Span>) {
    if events == [] then []
    else
      (if events[0].Arrives? && events[0].channel == c then [events[0].span] else []) + Arrived(events[1..], c)
  }

  function AdapterOf(reader: R.Reader): (a: Adapter) {
    match reader
    case NoReader => NoAdapter
    case MessageReader(a) => Adapter(Messages, a.table, a.bufferSize)
    case FrameReader(a) => Adapter(Frames, a.table, a.bufferSize)
  }

  /** The setup of a router whose adapters are built for its target. */
  function SetupOf(router: R.Router): (g: Setup) {
    Setup(router.target, router.table, router.writers,
          seq(|router.readers|, c requires 0 <= c < |router.readers| => AdapterOf(router.readers[c])))
  }

  predicate BuiltFor(reader: R.Reader, target: Target) {
    match reader
    case NoReader => true
    case MessageReader(a) => a.target == target
    case FrameReader(a) => a.target == target
  }

  /**
   A message or frame arrives at the reader of channel c: no other queue changes. `Router.Run` is the other event; it
   says that it resets the ECU instead of promising a state.
   */
  method Arrive(router: R.Router, c: nat, span: Span)
    requires router.Valid() && |router.writers| == |router.readers| <= 0xFF
    requires c < |router.readers| && !router.readers[c].NoReader? && BuiltFor(router.readers[c], router.target)
    requires span.bytes != []
    modifies router.readers[c].Footprint()
    ensures router.Valid() && SetupOf(router).Valid()
    ensures router.Now() == AfterEvent(SetupOf(router), old(router.Now()), Arrives(c, span))
  {
    ShapedSetup(router);
    IncomingAt(router, c, span);
    EventAtReader(SetupOf(router), router.Now(), c, span);
    hide *;
    ReceiveAt(router, c, span);
  }

  lemma {:induction false} EventAtReader(g: Setup, s: R.Snapshot, c: nat, span: Span)
    requires g.Valid() && s.Valid() && c < |s.queues| == |g.adapters| && !s.reset
    ensures AfterEvent(g, s, Arrives(c, span))
         == R.Snapshot(s.log, s.queues[c := Then(s.queues[c], FutureAt(g, c, [span]))], s.current, false)
  {
    hide FutureAt, R.RoutingShape, Shaped;
  }

  method ReceiveAt(router: R.Router, c: nat, span: Span)
    requires router.Valid() && c < |router.readers| && span.bytes != []
    modifies router.readers[c].Footprint()
    ensures router.Valid()
    ensures router.Now() == R.Snapshot(old(router.Now()).log,
      old(router.Queues())[c := Then(old(router.Queues()[c]),
                                     old(router.readers[c].Incoming(router.target, span.bytes)))],
      old(router.Now()).current, false)
  {
    hide R.Reader.Valid, R.Reader.Pending, R.Reader.Incoming, R.RoutingShape, Then;
    router.readers[c].Receive(router.target, span);
  }

  lemma {:induction false} IncomingAt(router: R.Router, c: nat, span: Span)
    requires router.Valid() && c < |router.readers| && Shaped(SetupOf(router).adapters)
    requires BuiltFor(router.readers[c], router.target)
    ensures router.readers[c].Incoming(router.target, span.bytes) == FutureAt(SetupOf(router), c, [span])
    ensures SetupOf(router).table == router.table && SetupOf(router).writers == router.writers
    ensures |SetupOf(router).adapters| == |router.readers|
  {
    hide SpanFuture, AllFuture, R.RoutingShape;
    assert router.readers[c].Valid(router.target);
    match router.readers[c]
    case NoReader =>
    case MessageReader(a) => AllFutureOne(Messages, router.target, a.table, a.bufferSize, span);
    case FrameReader(a) => AllFutureOne(Frames, router.target, a.table, a.bufferSize, span);
  }

  lemma {:induction false} ShapedSetup(router: R.Router)
    requires router.Valid()
    ensures Shaped(SetupOf(router).adapters)
  {
    forall c | 0 <= c < |router.readers| && AdapterOf(router.readers[c]).Adapter?
      ensures RxShape(AdapterOf(router.readers[c]).table)
    {
      assert router.readers[c].Valid(router.target);
    }
  }

  // ----- Conservation -----

  /** What a future of channel k leads to. */
  function Led(g: Setup, k: nat, f: Future): (p: R.Prospect)
    requires R.RoutingShape(g.table)
  {
    R.Led(g.table, g.writers, k, f)
  }

  lemma {:induction false} LedThen(g: Setup, k: nat, a: Future, b: Future)
    requires R.RoutingShape(g.table)
    ensures Led(g, k, Then(a, b)) == R.Plus(Led(g, k, a), Led(g, k, b))
    ensures Led(g, k, NOTHING) == R.NO_DELIVERY
  {
    hide R.Led, R.RoutingShape;
    R.LedThen(g.table, g.writers, k, a, b);
  }

  /** The outlook of a channel on a reset is that of its queue. */
  lemma {:induction false} OutlookParts(g: Setup, s: R.Snapshot, k: nat)
    requires R.RoutingShape(g.table) && k < |s.queues|
    ensures R.Outlook(g.table, g.writers, s, k)
         == R.Plus(R.Prospect(R.From(s.log, k), false), Led(g, k, s.queues[k]))
    ensures R.Outlook(g.table, g.writers, s, k).reset == Led(g, k, s.queues[k]).reset
  {
    hide R.Led, R.RoutingShape, R.From;
  }

  lemma {:induction false} FutureAtAppend(g: Setup, c: nat, a: seq<Span>, b: seq<Span>)
    requires Shaped(g.adapters) && c < |g.adapters|
    ensures FutureAt(g, c, a + b) == Then(FutureAt(g, c, a), FutureAt(g, c, b))
    ensures FutureAt(g, c, []) == NOTHING
  {
    hide RxShape, SpanFuture;
    match g.adapters[c]
    case NoAdapter =>
    case Adapter(kind, table, bufferSize) =>
      AllFutureAppend(kind, g.target, table, bufferSize, a, b);
  }

  lemma {:induction false} ArrivedOne(e: Event, k: nat)
    ensures Arrived([e], k) == if e.Arrives? && e.channel == k then [e.span] else []
  {
    assert [e][1..] == [];
  }

  lemma {:induction false} ArrivedCons(events: seq<Event>, k: nat)
    requires events != []
    ensures Arrived(events, k) == Arrived([events[0]], k) + Arrived(events[1..], k)
  {
    ArrivedOne(events[0], k);
  }

  lemma {:induction false} CallConserves(g: Setup, s: R.Snapshot, k: nat)
    requires g.Valid() && s.Valid() && |s.queues| == |g.adapters| && k < |g.adapters|
    ensures R.AfterCall(g.table, g.writers, s).Valid() && |R.AfterCall(g.table, g.writers, s).queues| == |s.queues|
    ensures R.Outlook(g.table, g.writers, R.AfterCall(g.table, g.writers, s), k) == R.Outlook(g.table, g.writers, s, k)
  {
    hide R.AfterRun, R.Outlook, R.RoutingShape, Shaped;
    R.RunConserves(g.table, g.writers, s, k);
  }

  /** What is known of channel k grows by what arrives there, and by nothing else. */
  lemma {:induction false} EventConserves(g: Setup, s: R.Snapshot, e: Event, k: nat)
    requires g.Valid() && s.Valid() && |s.queues| == |g.adapters| && k < |g.adapters| && !s.reset
    ensures R.Outlook(g.table, g.writers, AfterEvent(g, s, e), k)
         == R.Plus(R.Outlook(g.table, g.writers, s, k), Led(g, k, FutureAt(g, k, Arrived([e], k))))
  {
    ArrivedOne(e, k);
    FutureAtAppend(g, k, [], []);
    var was := R.Outlook(g.table, g.writers, s, k);
    hide R.RoutingShape, R.From, R.AfterCall, FutureAt, Shaped, R.WritersValid, R.Outlook, Led;
    R.PlusLaws(was, was, was);
    OutlookParts(g, s, k);
    OutlookParts(g, AfterEvent(g, s, e), k);
    if e.Arrives? && e.channel == k {
      LedThen(g, k, s.queues[k], FutureAt(g, k, [e.span]));
      R.PlusLaws(R.Prospect(R.From(s.log, k), false), Led(g, k, s.queues[k]), Led(g, k, FutureAt(g, k, [e.span])));
    } else {
      LedThen(g, k, NOTHING, NOTHING);
      if e.Runs? {
        CallConserves(g, s, k);
      }
    }
  }

  /**
   Conservation over any interleaving: as long as the ECU is not reset, what has been delivered from channel k, followed
   by what its queue will lead to, is what it was at the start, followed by what all that arrived on k leads to.
   */
  lemma {:induction false} EventsConserve(g: Setup, s: R.Snapshot, events: seq<Event>, k: nat)
    requires g.Valid() && s.Valid() && |s.queues| == |g.adapters| && k < |g.adapters|
    requires !AfterEvents(g, s, events).reset
    ensures R.Outlook(g.table, g.writers, AfterEvents(g, s, events), k)
         == R.Plus(R.Outlook(g.table, g.writers, s, k), Led(g, k, FutureAt(g, k, Arrived(events, k))))
    decreases |events|
  {
    ResetStays(g, s, events);
    FutureAtAppend(g, k, [], []);
    LedThen(g, k, NOTHING, NOTHING);
    hide R.RoutingShape, R.Outlook, AfterEvent, FutureAt, Shaped, Led;
    var was := R.Outlook(g.table, g.writers, s, k);
    if events == [] {
      R.PlusLaws(was, was, was);
    } else {
      var e, rest := events[0], events[1..];
      EventConserves(g, s, e, k);
      EventsConserve(g, AfterEvent(g, s, e), rest, k);
      ArrivedCons(events, k);
      var now, later := FutureAt(g, k, Arrived([e], k)), FutureAt(g, k, Arrived(rest, k));
      FutureAtAppend(g, k, Arrived([e], k), Arrived(rest, k));
      LedThen(g, k, now, later);
      R.PlusLaws(was, Led(g, k, now), Led(g, k, later));
    }
  }

  lemma {:induction false} ResetStays(g: Setup, s: R.Snapshot, events: seq<Event>)
    requires g.Valid() && s.Valid() && |s.queues| == |g.adapters|
    ensures s.reset ==> AfterEvents(g, s, events) == s
    decreases |events|
  {
    hide R.AfterCall, Shaped, R.RoutingShape, FutureAt;
    if events != [] && s.reset {
      ResetStays(g, s, events[1..]);
    }
  }

  // ----- Every queue runs empty -----

  /** The number of PDUs that wait. */
  function Waiting(qs: seq<Future>): (n: nat) {
    if qs == [] then 0 else |qs[0].pdus| + Waiting(qs[1..])
  }

  lemma {:induction false} FewerWaiting(qs: seq<Future>, qs': seq<Future>)
    requires |qs| == |qs'| && forall c :: 0 <= c < |qs| ==> |qs'[c].pdus| <= |qs[c].pdus|
    ensures Waiting(qs') <= Waiting(qs)
    ensures (exists c :: 0 <= c < |qs| && |qs'[c].pdus| < |qs[c].pdus|) ==> Waiting(qs') < Waiting(qs)
  {
    if qs != [] {
      FewerWaiting(qs[1..], qs'[1..]);
      forall c | 0 < c < |qs| && |qs'[c].pdus| < |qs[c].pdus| ensures Waiting(qs') < Waiting(qs) {
        assert |qs'[1..][c - 1].pdus| < |qs[1..][c - 1].pdus|;
      }
    }
  }

  ghost predicate AllEmpty(qs: seq<Future>) {
    forall c :: 0 <= c < |qs| ==> qs[c].pdus == []
  }

  lemma {:induction false} NobodyWaiting(qs: seq<Future>)
    ensures Waiting(qs) == 0 <==> AllEmpty(qs)
  {
    if qs != [] {
      NobodyWaiting(qs[1..]);
      assert forall c :: 0 < c < |qs| ==> qs[c] == qs[1..][c - 1];
    }
  }

  /** A run without a reset takes nothing but the PDU in front from each queue it asks. */
  lemma {:induction false} RunTakes(rt: PduRoutingTable, writers: seq<R.Writer>, s: R.Snapshot, c: nat)
    requires R.RoutingShape(rt) && s.Valid() && c < |s.queues| && !R.AfterRun(rt, writers, s).reset
    ensures var qs, j := s.queues, R.FirstStop(rt, s.queues, s.current, 0);
      && |R.AfterRun(rt, writers, s).queues| == |qs|
      && R.AfterRun(rt, writers, s).queues[c]
         == if R.Distance(s.current, c, |qs|) <= j then R.Behind(qs[c]) else qs[c]
  {
    hide R.RoutingShape, R.Served, R.Known, R.Stops;
    R.FirstStopIsFirst(rt, s.queues, s.current, 0, c);
  }

  /** A run takes at least one PDU from the queues, if there is one. */
  lemma {:induction false} RunTakesOne(rt: PduRoutingTable, writers: seq<R.Writer>, s: R.Snapshot)
    requires R.RoutingShape(rt) && s.Valid() && !s.reset
    ensures var s' := R.AfterRun(rt, writers, s);
      && s'.Valid() && |s'.queues| == |s.queues|
      && (s'.reset || (Waiting(s'.queues) <= Waiting(s.queues)
                       && (Waiting(s.queues) > 0 ==> Waiting(s'.queues) < Waiting(s.queues))))
  {
    var qs, s' := s.queues, R.AfterRun(rt, writers, s);
    RunIsValid(rt, writers, s);
    hide R.RoutingShape, R.Served, R.Known, R.AfterRun, R.Turn;
    NobodyWaiting(qs);
    if qs != [] && !s'.reset {
      var j := R.FirstStop(rt, qs, s.current, 0);
      forall c: nat | c < |qs|
        ensures s'.queues[c] == if R.Distance(s.current, c, |qs|) <= j then R.Behind(qs[c]) else qs[c]
      {
        RunTakes(rt, writers, s, c);
      }
      if Waiting(qs) > 0 {
        var c :| 0 <= c < |qs| && qs[c].pdus != [];
        R.FirstStopIsFirst(rt, qs, s.current, 0, c);
        var d := if R.Distance(s.current, c, |qs|) <= j then c else StopOf(rt, writers, s);
        assert |s'.queues[d].pdus| < |qs[d].pdus|;
      }
      FewerWaiting(qs, s'.queues);
    }
  }

  /** The channel at which a run stops. */
  function StopOf(rt: PduRoutingTable, writers: seq<R.Writer>, s: R.Snapshot): (c: nat)
    requires R.RoutingShape(rt) && s.Valid() && !s.reset && !R.AfterRun(rt, writers, s).reset
    requires s.queues != [] && R.FirstStop(rt, s.queues, s.current, 0) < |s.queues|
    ensures c < |s.queues| && s.queues[c].pdus != []
    ensures R.Distance(s.current, c, |s.queues|) == R.FirstStop(rt, s.queues, s.current, 0)
  {
    var c := R.Turn(s.current, R.FirstStop(rt, s.queues, s.current, 0), |s.queues|);
    R.FirstStopIsFirst(rt, s.queues, s.current, 0, c);
    c
  }

  lemma {:induction false} RunIsValid(rt: PduRoutingTable, writers: seq<R.Writer>, s: R.Snapshot)
    requires R.RoutingShape(rt) && s.Valid()
    ensures R.AfterRun(rt, writers, s).Valid() && |R.AfterRun(rt, writers, s).queues| == |s.queues|
  {
    hide R.RoutingShape, R.Served, R.Known;
  }

  /** If nothing waits and a reset is due at some channel, the next run is the last. */
  lemma {:induction false} DueResetHappens(rt: PduRoutingTable, writers: seq<R.Writer>, s: R.Snapshot, k: nat)
    requires R.RoutingShape(rt) && s.Valid() && k < |s.queues| && s.queues[k].reset && AllEmpty(s.queues)
    ensures R.AfterRun(rt, writers, s).reset
  {
    hide R.RoutingShape, R.Served, R.Known;
    if !s.reset {
      assert s.queues[k] == RESET;
      R.FirstStopIsFirst(rt, s.queues, s.current, 0, k);
      var j := R.FirstStop(rt, s.queues, s.current, 0);
      var c := R.Turn(s.current, j, |s.queues|);
      R.FirstStopIsFirst(rt, s.queues, s.current, 0, c);
      assert s.queues[c].pdus == [];
    }
  }

  function AllRuns(n: nat): (events: seq<Event>)
    ensures |events| == n
  {
    if n == 0 then [] else [Runs] + AllRuns(n - 1)
  }

  lemma {:induction false} FirstOfRuns(g: Setup, s: R.Snapshot, n: nat)
    requires g.Valid() && s.Valid() && |s.queues| == |g.adapters| && n > 0 && R.Initialized(g.table) && !s.reset
    ensures var s' := R.AfterRun(g.table, g.writers, s);
      && s'.Valid() && |s'.queues| == |g.adapters|
      && AfterEvents(g, s, AllRuns(n)) == AfterEvents(g, s', AllRuns(n - 1))
    ensures forall k :: 0 <= k < |s.queues| ==>
      Led(g, k, R.AfterRun(g.table, g.writers, s).queues[k]).reset == Led(g, k, s.queues[k]).reset
  {
    assert AllRuns(n)[0] == Runs && AllRuns(n)[1..] == AllRuns(n - 1);
    assert AfterEvent(g, s, Runs) == R.AfterRun(g.table, g.writers, s);
    hide R.AfterRun, R.RoutingShape, Shaped, R.WritersValid, R.Initialized, R.Outlook, Led;
    forall k | 0 <= k < |s.queues|
      ensures Led(g, k, R.AfterRun(g.table, g.writers, s).queues[k]).reset == Led(g, k, s.queues[k]).reset
    {
      R.RunConserves(g.table, g.writers, s, k);
      OutlookParts(g, s, k);
      OutlookParts(g, R.AfterRun(g.table, g.writers, s), k);
    }
  }

  /** An empty queue leads to a reset only if that is what it has in store. */
  lemma {:induction false} EmptyQueueLeads(g: Setup, k: nat, f: Future)
    requires R.RoutingShape(g.table) && f.pdus == []
    ensures Led(g, k, f) == R.Prospect([], f.reset)
  {
    LedThen(g, k, NOTHING, NOTHING);
    R.LedThen(g.table, g.writers, k, NOTHING, NOTHING);
    hide R.Led, R.RoutingShape;
    assert f == if f.reset then RESET else NOTHING;
  }

  /** As many runs as PDUs are waiting leave every queue of an initialized router empty, unless the ECU is reset. */
  lemma {:induction false} QueuesRunEmpty(g: Setup, s: R.Snapshot, n: nat)
    requires g.Valid() && s.Valid() && |s.queues| == |g.adapters| && R.Initialized(g.table) && n >= Waiting(s.queues)
    ensures var s' := AfterEvents(g, s, AllRuns(n)); s'.reset || AllEmpty(s'.queues)
    decreases n
  {
    ResetStays(g, s, AllRuns(n));
    NobodyWaiting(s.queues);
    hide R.RoutingShape, Shaped, R.WritersValid, R.AfterRun, R.Initialized, AllEmpty, Led;
    if !s.reset && n > 0 {
      RunTakesOne(g.table, g.writers, s);
      FirstOfRuns(g, s, n);
      var s' := R.AfterRun(g.table, g.writers, s);
      ResetStays(g, s', AllRuns(n - 1));
      if !s'.reset {
        QueuesRunEmpty(g, s', n - 1);
      }
    }
  }

  /** One run more brings about a reset that some queue has in store. */
  lemma {:induction false} StoredResetHappens(g: Setup, s: R.Snapshot, n: nat, k: nat)
    requires g.Valid() && s.Valid() && |s.queues| == |g.adapters| && R.Initialized(g.table) && n > Waiting(s.queues)
    requires k < |s.queues| && Led(g, k, s.queues[k]).reset
    ensures AfterEvents(g, s, AllRuns(n)).reset
    decreases n
  {
    ResetStays(g, s, AllRuns(n));
    NobodyWaiting(s.queues);
    hide R.RoutingShape, Shaped, R.WritersValid, R.AfterRun, R.Initialized, AllEmpty, Led;
    if !s.reset {
      RunTakesOne(g.table, g.writers, s);
      FirstOfRuns(g, s, n);
      var s' := R.AfterRun(g.table, g.writers, s);
      ResetStays(g, s', AllRuns(n - 1));
      if Waiting(s.queues) == 0 {
        EmptyQueueLeads(g, k, s.queues[k]);
        DueResetHappens(g.table, g.writers, s, k);
      } else if !s'.reset {
        StoredResetHappens(g, s', n - 1, k);
      }
    }
  }

  // ----- Resets -----

  /** A run that resets the ECU finds a channel whose queue leads there. */
  lemma {:induction false} RunResetHasCause(g: Setup, s: R.Snapshot) returns (k: nat)
    requires R.RoutingShape(g.table) && s.Valid() && !s.reset && R.AfterRun(g.table, g.writers, s).reset
    ensures k < |s.queues| && Led(g, k, s.queues[k]).reset
  {
    hide R.RoutingShape, R.Served, R.Led;
    k := R.Turn(s.current, R.FirstStop(g.table, s.queues, s.current, 0), |s.queues|);
    R.LedFront(g.table, g.writers, k, s.queues[k]);
    R.LedThen(g.table, g.writers, k, NOTHING, NOTHING);
  }

  /** A reset of the ECU was in store at the start, or arrived on some channel. */
  lemma {:induction false} ResetHasCause(g: Setup, s: R.Snapshot, events: seq<Event>) returns (k: nat)
    requires g.Valid() && s.Valid() && |s.queues| == |g.adapters| && !s.reset && AfterEvents(g, s, events).reset
    ensures R.Initialized(g.table) && k < |g.adapters|
    ensures Led(g, k, s.queues[k]).reset || Led(g, k, FutureAt(g, k, Arrived(events, k))).reset
    decreases |events|
  {
    hide R.RoutingShape, Shaped, R.WritersValid, R.Initialized, FutureAt, AfterEvent, Led, R.Outlook;
    var e, rest := events[0], events[1..];
    var s' := AfterEvent(g, s, e);
    if s'.reset {
      k := EventResetHasCause(g, s, e);
    } else {
      k := ResetHasCause(g, s', rest);
      EventConserves(g, s, e, k);
      OutlookParts(g, s, k);
      OutlookParts(g, s', k);
      ArrivedCons(events, k);
      FutureAtAppend(g, k, Arrived([e], k), Arrived(rest, k));
      LedThen(g, k, FutureAt(g, k, Arrived([e], k)), FutureAt(g, k, Arrived(rest, k)));
    }
  }

  lemma {:induction false} EventResetHasCause(g: Setup, s: R.Snapshot, e: Event) returns (k: nat)
    requires g.Valid() && s.Valid() && |s.queues| == |g.adapters| && !s.reset && AfterEvent(g, s, e).reset
    ensures k < |g.adapters| && Led(g, k, s.queues[k]).reset && R.Initialized(g.table)
  {
    hide R.AfterRun, R.RoutingShape, Shaped, R.WritersValid, R.Initialized, FutureAt, Led;
    k := RunResetHasCause(g, s);
  }

  // ----- The gateway -----

  /** A router at its start, with nothing to do. */
  function Idle(n: nat): (s: R.Snapshot)
    ensures s.Valid() && |s.queues| == n && s.log == [] && !s.reset
    ensures forall k :: 0 <= k < n ==> s.queues[k] == NOTHING
  {
    R.Snapshot([], seq(n, c requires 0 <= c < n => NOTHING), 0, false)
  }

  /** The end of a day: anything arrives and the router runs in between; then it runs n times. */
  function Finally(g: Setup, events: seq<Event>, n: nat): (s: R.Snapshot)
    requires g.Valid()
    ensures s.Valid() && |s.queues| == |g.adapters|
  {
    AfterEvents(g, AfterEvents(g, Idle(|g.adapters|), events), AllRuns(n))
  }

  ghost predicate EnoughRuns(g: Setup, events: seq<Event>, n: nat)
    requires g.Valid()
  {
    n > Waiting(AfterEvents(g, Idle(|g.adapters|), events).queues)
  }

  /**
   What has arrived on channel k leads to a reset: in extract() or lookup(), or in commit(), because of a PDU that goes
   to a legacy channel whose first Tx entry for the output's message id does not fit the target.
   */
  ghost predicate ResetArrived(g: Setup, events: seq<Event>, k: nat)
    requires g.Valid() && k < |g.adapters|
  {
    var f := FutureAt(g, k, Arrived(events, k));
    f.reset || exists pdu :: pdu in f.pdus && R.PduResets(g.table, g.writers, pdu)
  }

  lemma {:induction false} ArrivedLeads(g: Setup, events: seq<Event>, k: nat)
    requires g.Valid() && k < |g.adapters|
    ensures var p := Led(g, k, FutureAt(g, k, Arrived(events, k)));
      && (p.reset <==> ResetArrived(g, events, k))
      && (!p.reset ==>
            p.deliveries == R.AllRouted(g.table, g.writers, k, FutureAt(g, k, Arrived(events, k)).pdus))
  {
    hide R.Led, R.RoutingShape, Shaped, R.WritersValid, FutureAt, R.PduResets, R.AllRouted;
    R.LedToReset(g.table, g.writers, k, FutureAt(g, k, Arrived(events, k)));
  }

  lemma {:induction false} IdleOutlook(g: Setup, k: nat)
    requires g.Valid() && k < |g.adapters|
    ensures R.Outlook(g.table, g.writers, Idle(|g.adapters|), k) == R.NO_DELIVERY
  {
    OutlookParts(g, Idle(|g.adapters|), k);
    LedThen(g, k, NOTHING, NOTHING);
    hide Led, R.Outlook, R.RoutingShape;
    assert R.From([], k) == [];
  }

  lemma {:induction false} OutlookOfIdle(g: Setup, k: nat)
    requires g.Valid() && k < |g.adapters|
    ensures forall p :: R.Plus(R.Outlook(g.table, g.writers, Idle(|g.adapters|), k), p) == p
  {
    IdleOutlook(g, k);
    forall p: R.Prospect ensures R.Plus(R.NO_DELIVERY, p) == p {
      R.PlusLaws(p, p, p);
    }
  }

  lemma {:induction false} NothingArrives(n: nat, k: nat)
    ensures Arrived(AllRuns(n), k) == []
  {
    if n > 0 {
      NothingArrives(n - 1, k);
      assert AllRuns(n)[1..] == AllRuns(n - 1);
    }
  }

  /** Runs do not change what is known of a channel. */
  lemma {:induction false} RunsConserve(g: Setup, s: R.Snapshot, n: nat, k: nat)
    requires g.Valid() && s.Valid() && |s.queues| == |g.adapters| && k < |g.adapters|
    requires !AfterEvents(g, s, AllRuns(n)).reset
    ensures R.Outlook(g.table, g.writers, AfterEvents(g, s, AllRuns(n)), k) == R.Outlook(g.table, g.writers, s, k)
  {
    hide R.RoutingShape, R.Outlook, FutureAt, Shaped, Led, AfterEvents;
    EventsConserve(g, s, AllRuns(n), k);
    NothingArrives(n, k);
    FutureAtAppend(g, k, [], []);
    LedThen(g, k, NOTHING, NOTHING);
    var was := R.Outlook(g.table, g.writers, s, k);
    R.PlusLaws(was, was, was);
  }

  /** What waits on channel k leads where what arrived there leads, unless the ECU has been reset. */
  lemma {:induction false} WaitingLeads(g: Setup, events: seq<Event>, k: nat)
    requires g.Valid() && k < |g.adapters| && !AfterEvents(g, Idle(|g.adapters|), events).reset
    ensures var s := AfterEvents(g, Idle(|g.adapters|), events);
      && R.Outlook(g.table, g.writers, s, k) == Led(g, k, FutureAt(g, k, Arrived(events, k)))
      && (Led(g, k, s.queues[k]).reset <==> ResetArrived(g, events, k))
  {
    hide R.RoutingShape, Shaped, R.WritersValid, FutureAt, AfterEvents, Led, R.Outlook, ResetArrived;
    EventsConserve(g, Idle(|g.adapters|), events, k);
    OutlookOfIdle(g, k);
    ArrivedLeads(g, events, k);
    OutlookParts(g, AfterEvents(g, Idle(|g.adapters|), events), k);
  }

  /** The ECU is reset exactly if the router is initialized and what has arrived on some channel leads to a reset. */
  lemma {:induction false} ResetsExactly(g: Setup, events: seq<Event>, n: nat)
    requires g.Valid() && EnoughRuns(g, events, n)
    ensures Finally(g, events, n).reset
       <==> R.Initialized(g.table) && exists k: nat :: k < |g.adapters| && ResetArrived(g, events, k)
  {
    var start := Idle(|g.adapters|);
    var s := AfterEvents(g, start, events);
    hide R.RoutingShape, Shaped, R.WritersValid, R.Initialized, FutureAt, AfterEvents, Waiting, Led, ResetArrived;
    if s.reset {
      ResetStays(g, s, AllRuns(n));
      var k := ResetHasCause(g, start, events);
      LedThen(g, k, NOTHING, NOTHING);
      ArrivedLeads(g, events, k);
    } else {
      if R.Initialized(g.table) && exists k: nat :: k < |g.adapters| && ResetArrived(g, events, k) {
        var k: nat :| k < |g.adapters| && ResetArrived(g, events, k);
        WaitingLeads(g, events, k);
        StoredResetHappens(g, s, n, k);
      }
      if AfterEvents(g, s, AllRuns(n)).reset {
        var k := ResetHasCause(g, s, AllRuns(n));
        NothingArrives(n, k);
        FutureAtAppend(g, k, [], []);
        LedThen(g, k, NOTHING, NOTHING);
        WaitingLeads(g, events, k);
      }
    }
  }

  /** A router that is not initialized delivers nothing, and its table leads to no deliveries. */
  lemma {:induction false} OffDeliversNothing(g: Setup, s: R.Snapshot, events: seq<Event>)
    requires g.Valid() && s.Valid() && |s.queues| == |g.adapters| && !R.Initialized(g.table)
    ensures AfterEvents(g, s, events).log == s.log
    decreases |events|
  {
    hide R.RoutingShape, Shaped, R.Initialized, FutureAt;
    if events != [] {
      OffDeliversNothing(g, AfterEvent(g, s, events[0]), events[1..]);
    }
  }

  lemma {:induction false} OffRoutesNothing(rt: PduRoutingTable, writers: seq<R.Writer>, k: nat, pdus: seq<Pdu>)
    requires R.RoutingShape(rt) && !R.Initialized(rt)
    ensures R.AllRouted(rt, writers, k, pdus) == []
  {
    if pdus != [] {
      OffRoutesNothing(rt, writers, k, pdus[1..]);
      if R.Known(rt, pdus[0]) {
        assert R.DestinationsInRange(rt, pdus[0].id);
        assert rt.destinations == [];
      }
    }
  }

  /** Short of a reset, what came from channel k is exactly what all that arrived there leads to. */
  lemma {:induction false} AllIsDelivered(g: Setup, events: seq<Event>, n: nat, k: nat)
    requires g.Valid() && EnoughRuns(g, events, n) && k < |g.adapters| && !Finally(g, events, n).reset
    ensures R.From(Finally(g, events, n).log, k)
         == R.AllRouted(g.table, g.writers, k, FutureAt(g, k, Arrived(events, k)).pdus)
  {
    var s := AfterEvents(g, Idle(|g.adapters|), events);
    var s' := AfterEvents(g, s, AllRuns(n));
    ResetStays(g, s, AllRuns(n));
    assert R.From([], k) == [];
    hide R.RoutingShape, Shaped, R.WritersValid, FutureAt, AfterEvents, Waiting, R.From, R.AllRouted, R.Initialized,
      Led, R.Outlook, ResetArrived;
    if R.Initialized(g.table) {
      ResetsExactly(g, events, n);
      WaitingLeads(g, events, k);
      ArrivedLeads(g, events, k);
      RunsConserve(g, s, n, k);
      QueuesRunEmpty(g, s, n);
      OutlookParts(g, s', k);
      EmptyQueueLeads(g, k, s'.queues[k]);
      assert R.From(s'.log, k) + [] == R.From(s'.log, k);
    } else {
      OffDeliversNothing(g, Idle(|g.adapters|), events);
      OffDeliversNothing(g, s, AllRuns(n));
      OffRoutesNothing(g.table, g.writers, k, FutureAt(g, k, Arrived(events, k)).pdus);
    }
  }

  /** The gateway runs on the tables that the blob holds: its routing table, and the adapter of channel c. */
  ghost predicate Connected(blob: seq<byte>, g: Setup, c: byte, bufferSize: nat) {
    var t, kind := LoadRx(FindConfigFor(blob, RX_ADAPTER, c).data), KindIn(blob, c);
    && LoadRouting(FindConfig(blob, ROUTING).data) == Some(g.table)
    && c < |g.adapters| && t.Some? && kind.Some? && g.adapters[c] == Adapter(kind.value, t.value, bufferSize)
  }

  /** The gateway handles channel c as these rows ask for. */
  ghost predicate Handles(g: Setup, kind: Kind, c: byte, bufferSize: nat, rows: seq<Row>, events: seq<Event>, n: nat)
    requires g.Valid()
  {
    && c < |g.adapters| && g.adapters[c].Adapter? && g.adapters[c].kind == kind
    && (NeverResets(kind, g.target, g.adapters[c].table, bufferSize) <==> RowsFit(kind, g.target, rows))
    && (EnoughRuns(g, events, n) && AllPlain(kind, g.target, Arrived(events, c)) && !Finally(g, events, n).reset ==>
          R.From(Finally(g, events, n).log, c)
          == Deliveries(kind, g.writers, c, bufferSize, Arrived(events, c), rows))
  }

  lemma {:induction false} HandlesIfDelivers(blob: seq<byte>, g: Setup, kind: Kind, c: byte, bufferSize: nat,
      rows: seq<Row>, events: seq<Event>, n: nat)
    requires g.Valid() && Connected(blob, g, c, bufferSize)
    requires Delivers(kind, g.target, blob, c, g.writers, bufferSize, Arrived(events, c), rows)
    ensures Handles(g, kind, c, bufferSize, rows, events, n)
  {
    hide R.RoutingShape, Shaped, NeverResets, RowsFit, AllPlain, Deliveries, R.From, R.AllRouted, AllFuture, EnoughRuns,
      Finally, KindIn, LoadRx, LoadRouting, FindConfig, FindConfigFor, RxShape, AllSpanPdus, R.Initialized;
    if EnoughRuns(g, events, n) && AllPlain(kind, g.target, Arrived(events, c)) && !Finally(g, events, n).reset {
      var f := FutureAt(g, c, Arrived(events, c));
      AllIsDelivered(g, events, n, c);
      FutureNotReset(g, events, n, c);
      if !R.Initialized(g.table) {
        OffRoutesNothing(g.table, g.writers, c, f.pdus);
        OffRoutesNothing(g.table, g.writers, c,
                         AllSpanPdus(kind, g.adapters[c].table, bufferSize, Arrived(events, c)));
      }
    }
  }

  lemma {:induction false} FutureNotReset(g: Setup, events: seq<Event>, n: nat, c: nat)
    requires g.Valid() && EnoughRuns(g, events, n) && c < |g.adapters| && !Finally(g, events, n).reset
    ensures FutureAt(g, c, Arrived(events, c)).reset ==> !R.Initialized(g.table)
  {
    hide R.RoutingShape, Shaped, R.WritersValid, FutureAt, EnoughRuns, Finally, R.Initialized;
    ResetsExactly(g, events, n);
    assert FutureAt(g, c, Arrived(events, c)).reset ==> ResetArrived(g, events, c);
  }

  /**
   The main result for the whole path, from the routing list to the writers. Let a routing list and at most 256
   distinctly named channels compile, and let a gateway be connected to the blob. Messages and frames arrive on all
   channels while the router runs, in any interleaving; then it runs until nothing is waiting. Short of a reset, what
   has been delivered from a channel is then exactly, and in order, what the last routing of every key asks for what
   arrived there. `ResetsExactly` says when the ECU is reset.
   */
  lemma {:induction false} GatewayDelivers(crc: seq<byte> -> u32, routings: seq<Routing>, channels: seq<Channel>,
      meta: Option<seq<string>>, g: Setup, i: nat, rows: seq<Row>, bufferSize: nat, events: seq<Event>, n: nat)
    returns (k: Compilation, id: byte)
    requires DistinctNames(channels) && |channels| <= 0x100 && i < |channels|
    requires Compile(crc, routings, channels, meta).Ok? && g.Valid()
    ensures Compiled(crc, routings, channels, k) && Compile(crc, routings, channels, meta) == Ok(k.blob)
    ensures NumberedOrAbove(k.entries) && AllNamed(IdMap(k.entries), channels)
    ensures id == IdMap(k.entries)[channels[i].name] < |channels|
    ensures RowsHoldLast(rows, k.rs, id) && Connected(k.blob, g, id, bufferSize) ==>
      Handles(g, KindOf(channels[i].channelType), id, bufferSize, rows, events, n)
  {
    hide *;
    k, id := CompiledBlobWorks(g.target, crc, routings, channels, meta, [], i, rows, g.writers, bufferSize, []);
    if RowsHoldLast(rows, k.rs, id) && Connected(k.blob, g, id, bufferSize) {
      BlobDelivers(g.target, crc, routings, channels, k, i, id, rows, g.writers, bufferSize, Arrived(events, id));
      HandlesIfDelivers(k.blob, g, KindOf(channels[i].channelType), id, bufferSize, rows, events, n);
    }
  }

  /** No PDU resets the ECU when it is written: the first Tx entry for every message id fits the target. */
  ghost predicate NeverResetsOnCommit(writer: R.Writer) {
    forall id: u32 :: !writer.Resets(id)
  }

  /** Plain spans on tables that never reset the ECU, neither on the way in nor on the way out: it is not reset. */
  lemma {:induction false} GatewaySurvives(g: Setup, events: seq<Event>, n: nat)
    requires g.Valid() && EnoughRuns(g, events, n)
    requires forall c :: 0 <= c < |g.adapters| && g.adapters[c].Adapter? ==>
      && NeverResets(g.adapters[c].kind, g.target, g.adapters[c].table, g.adapters[c].bufferSize)
      && AllPlain(g.adapters[c].kind, g.target, Arrived(events, c))
    requires forall c :: 0 <= c < |g.writers| ==> NeverResetsOnCommit(g.writers[c])
    ensures !Finally(g, events, n).reset
  {
    ResetsExactly(g, events, n);
    hide R.RoutingShape, NeverResets, AllPlain, AllFuture, RxShape, Finally, EnoughRuns, R.Initialized, R.Writer.Resets;
    forall c: nat | c < |g.adapters| ensures !ResetArrived(g, events, c) {
      match g.adapters[c]
      case NoAdapter =>
      case Adapter(kind, t, bufferSize) => AllSurvive(kind, g.target, t, bufferSize, Arrived(events, c));
    }
  }

  /**
   A legacy writer that runs on the Tx table in the compiled blob is no danger, if and only if the first output to its
   channel for each message id fits the target; sendable outputs do.
   */
  lemma {:induction false} WriterSurvivesExactly(target: Target, crc: seq<byte> -> u32, routings: seq<Routing>,
      channels: seq<Channel>, k: Compilation, i: nat, c: byte, maxSize: nat) returns (t: TxAdapterTable)
    requires Compiled(crc, routings, channels, k) && maxSize <= target.Max()
    requires i < |channels| && FirstWithByte(TxIds(TxVectorList(k.table, IdMap(k.entries), channels)), i, c)
    ensures LoadTx(FindConfigFor(k.blob, TX_ADAPTER, c).data) == Some(t)
    ensures var w := R.LegacyWriter(maxSize, target, t);
      var mine := OutputsTo(OutputsOf(AllRows(k.table)), IdMap(k.entries)[channels[i].name]);
      && w.Valid(target) && (NeverResetsOnCommit(w) <==> FirstOutputsFit(target, mine))
      && (Sendable(target, mine) ==> NeverResetsOnCommit(w))
  {
    hide FindConfigFor, LoadTx, FirstWithByte, OutputsTo, OutputsOf, AllRows, ResetsFor, FirstOutputsFit, Sendable,
      IsTableOf, Compiled;
    t := BlobCommitsExactly(target, crc, routings, channels, k, i, c);
    var w := R.LegacyWriter(maxSize, target, t);
    assert forall id: u32 :: w.Resets(id) <==> ResetsFor(target, t, id);
  }

  /** With 32 bits, one row can reset the whole gateway: an offset of 0xFFFFFFFF and a length of 9. */
  lemma {:induction false} OneRowResetsAll(g: Setup, c: nat, bufferSize: nat, message: Span, n: nat)
    requires g.Valid() && c < |g.adapters| && g.target == Bits32 && R.Initialized(g.table)
    requires g.adapters[c]
          == Adapter(Messages, RxAdapterTable(0, [7], [], [0, 1], [9], [0xFFFF_FFFF]), bufferSize)
    requires |message.bytes| == 16 && message.bytes[..8] == Be32(7) + Be32(8)
    requires EnoughRuns(g, [Arrives(c, message)], n)
    ensures Finally(g, [Arrives(c, message)], n).reset
  {
    var events := [Arrives(c, message)];
    ResetsExactly(g, events, n);
    ArrivedOne(events[0], c);
    var t := RxAdapterTable(0, [7], [], [0, 1], [9], [0xFFFF_FFFF]);
    assert RxShape(t);
    hide R.RoutingShape, Finally, EnoughRuns, R.Initialized, RxShape;
    AllFutureOne(Messages, Bits32, t, bufferSize, message);
    OneRowResets(bufferSize, message.bytes);
    assert ResetArrived(g, events, c);
  }

  lemma {:induction false} OneRowResets(bufferSize: nat, message: seq<byte>)
    requires |message| == 16 && message[..8] == Be32(7) + Be32(8)
    ensures var t := RxAdapterTable(0, [7], [], [0, 1], [9], [0xFFFF_FFFF]);
      RxShape(t) && SpanFuture(Messages, Bits32, t, bufferSize, message).reset
  {
    var t := RxAdapterTable(0, [7], [], [0, 1], [9], [0xFFFF_FFFF]);
    Be32RoundTrip(7);
    Be32RoundTrip(8);
    assert message[..4] == message[..8][..4] == Be32(7) && message[4..8] == message[..8][4..8] == Be32(8);
    assert IndexOf([7], 7) == Some(0);
    assert Lookup(t, message) == Some(0);
    assert message[..|message|] == message;
    LargeOffsetResets(bufferSize, message);
    assert GroupInRange(t, 0);
    ExtractFutureAgrees(Bits32, t, bufferSize, message, 0, 1);
  }

  /** With 32 bits, one output can do it as well: for a message length of 0xFFFFFFF8, commit() has no message size. */
  lemma {:induction false} OneOutputResetsAll(g: Setup, maxSize: nat, bufferSize: nat, message: Span, n: nat)
    requires g == Setup(Bits32, PduRoutingTable([0, 1], [7], [0]),
                        [R.LegacyWriter(maxSize, Bits32, TxAdapterTable([7], [0xFFFF_FFF8], [0]))],
                        [Adapter(Messages, RxAdapterTable(0, [7], [], [0, 1], [8], [0]), bufferSize)])
    requires 16 <= maxSize <= Bits32.Max() && 16 <= bufferSize && n > 1
    requires |message.bytes| == 16 && message.bytes[..8] == Be32(7) + Be32(8)
    ensures g.Valid() && Finally(g, [Arrives(0, message)], n).reset
  {
    var pdu := Pdu(0, message.bytes[8..]);
    OneOutputSetup(g, maxSize, bufferSize, message, pdu);
    hide R.PduResets, Shaped, R.WritersValid, R.RoutingShape, FutureAt, Finally, AfterEvents, AfterEvent, R.Initialized;
    var events := [Arrives(0, message)];
    ArrivedOne(events[0], 0);
    AfterOneArrival(g, message);
    ThenNothing(Future([pdu], false));
    var queues := AfterEvents(g, Idle(1), events).queues;
    assert queues[1..] == [] && Waiting(queues) == 1;
    ResetsExactly(g, events, n);
    assert pdu in FutureAt(g, 0, Arrived(events, 0)).pdus;
    assert ResetArrived(g, events, 0);
  }

  lemma {:induction false} AfterOneArrival(g: Setup, message: Span)
    requires g.Valid() && |g.adapters| == 1
    ensures AfterEvents(g, Idle(1), [Arrives(0, message)]).queues == [Then(NOTHING, FutureAt(g, 0, [message]))]
  {
    hide R.RoutingShape, Shaped, R.WritersValid, FutureAt, Then;
    var events := [Arrives(0, message)];
    assert events[1..] == [];
    assert AfterEvents(g, AfterEvent(g, Idle(1), events[0]), []) == AfterEvent(g, Idle(1), events[0]);
  }

  lemma {:induction false} OneOutputSetup(g: Setup, maxSize: nat, bufferSize: nat, message: Span, pdu: Pdu)
    requires g == Setup(Bits32, PduRoutingTable([0, 1], [7], [0]),
                        [R.LegacyWriter(maxSize, Bits32, TxAdapterTable([7], [0xFFFF_FFF8], [0]))],
                        [Adapter(Messages, RxAdapterTable(0, [7], [], [0, 1], [8], [0]), bufferSize)])
    requires 16 <= maxSize <= Bits32.Max() && 16 <= bufferSize
    requires |message.bytes| == 16 && message.bytes[..8] == Be32(7) + Be32(8) && pdu == Pdu(0, message.bytes[8..])
    ensures g.Valid() && R.Initialized(g.table)
    ensures FutureAt(g, 0, [message]) == Future([pdu], false)
    ensures R.PduResets(g.table, g.writers, pdu)
  {
    OneRowExtracts(bufferSize, message.bytes);
    assert R.DestinationsInRange(g.table, 0) && R.WriteResets(g.table, g.writers, pdu.payload, 0);
    hide SpanFuture;
    AllFutureOne(Messages, Bits32, RxAdapterTable(0, [7], [], [0, 1], [8], [0]), bufferSize, message);
  }

  lemma {:induction false} OneRowExtracts(bufferSize: nat, message: seq<byte>)
    requires 16 <= bufferSize && |message| == 16 && message[..8] == Be32(7) + Be32(8)
    ensures var t := RxAdapterTable(0, [7], [], [0, 1], [8], [0]);
      RxShape(t) && SpanFuture(Messages, Bits32, t, bufferSize, message) == Future([Pdu(0, message[8..])], false)
  {
    var t := RxAdapterTable(0, [7], [], [0, 1], [8], [0]);
    Be32RoundTrip(7);
    Be32RoundTrip(8);
    assert message[..4] == message[..8][..4] == Be32(7) && message[4..8] == message[..8][4..8] == Be32(8);
    assert IndexOf([7], 7) == Some(0);
    assert Lookup(t, message) == Some(0);
    assert message[..|message|] == message && message[8..][0..] == message[8..];
    var pdu := Pdu(0, message[8..]);
    assert ExtractOn(Bits32, t, bufferSize, message, 0) == Extracted(pdu);
    ThenNothing(Future([pdu], false));
    assert ExtractFuture(Bits32, t, bufferSize, message, 1, 1) == NOTHING;
    assert GroupInRange(t, 0);
    assert GroupFuture(Bits32, t, bufferSize, message, 0) == Future([pdu], false);
    assert message[|message|..] == [];
  }

  // ----- Which channels are served -----

  /**
   A router with as many readers and writers as there are channels has a place for every one of them, if and only if
   there are at most 255.
   */
  lemma {:induction false} AllServedExactly(table: Table, entries: seq<Entry>, channels: seq<Channel>)
    requires DistinctNames(channels) && IsNumbering(entries, channels) && AllNamed(IdMap(entries), channels)
    ensures var ids := RxIds(RxVectorList(table, IdMap(entries), channels));
      (forall i :: 0 <= i < |ids| ==> ids[i] < R.Min(0xFF, |channels|)) <==> |channels| <= 0xFF
  {
    RxIdsDistinct(table, entries, channels);
    var ids := RxIds(RxVectorList(table, IdMap(entries), channels));
    hide IdMap, IsNumbering, AllNamed, RxVectorList;
    if forall i :: 0 <= i < |ids| ==> ids[i] < R.Min(0xFF, |channels|) {
      DistinctBelow(ids, R.Min(0xFF, |channels|));
    }
  }

  /** A delivery to some destination of the table, with the message id given there, to a writer with room for it. */
  ghost predicate Made(t: PduRoutingTable, writers: seq<R.Writer>, d: R.Delivery)
    requires |t.destinations| == |t.outputMessageIds|
  {
    && |d.payload| <= MAX_U32
    && exists i: nat :: i < |t.destinations| && R.Output(t, writers, d.source, d.payload, i) == [d]
  }

  ghost predicate AllMade(t: PduRoutingTable, writers: seq<R.Writer>, source: nat, ds: seq<R.Delivery>)
    requires |t.destinations| == |t.outputMessageIds|
  {
    forall d :: d in ds ==> d.source == source && Made(t, writers, d)
  }

  /** All deliveries come from a reader and go to a destination of the table. */
  ghost predicate InPlace(g: Setup, log: seq<R.Delivery>)
    requires R.RoutingShape(g.table)
  {
    forall d :: d in log ==> d.source < |g.adapters| && Made(g.table, g.writers, d)
  }

  lemma {:induction false} WriteMade(t: PduRoutingTable, writers: seq<R.Writer>, source: nat, payload: Payload,
      i: nat)
    requires i < |t.destinations| == |t.outputMessageIds|
    ensures AllMade(t, writers, source, R.Write(t, writers, source, payload, i).deliveries)
  {
    hide R.Accepts, R.WriteResets;
    forall d | d in R.Write(t, writers, source, payload, i).deliveries
      ensures d.source == source && Made(t, writers, d)
    {
      assert R.Output(t, writers, d.source, d.payload, i) == [d];
    }
  }

  lemma {:induction false} WritesMade(t: PduRoutingTable, writers: seq<R.Writer>, source: nat, payload: Payload,
      i: nat, end: nat)
    requires i <= end <= |t.destinations| == |t.outputMessageIds|
    ensures AllMade(t, writers, source, R.Writes(t, writers, source, payload, i, end).deliveries)
    decreases end - i
  {
    hide R.Write, Made;
    if i < end {
      WriteMade(t, writers, source, payload, i);
      WritesMade(t, writers, source, payload, i + 1, end);
    }
  }

  lemma {:induction false} ServedMade(t: PduRoutingTable, writers: seq<R.Writer>, source: nat, f: Future)
    requires R.RoutingShape(t)
    ensures AllMade(t, writers, source, R.Served(t, writers, source, f).deliveries)
  {
    hide Made, R.Writes;
    if f.pdus != [] && R.Known(t, f.pdus[0]) {
      var g := f.pdus[0].id;
      assert R.DestinationsInRange(t, g);
      WritesMade(t, writers, source, f.pdus[0].payload, t.destinationOffsets[g], t.destinationOffsets[g + 1]);
    }
  }

  lemma {:induction false} EventInPlace(g: Setup, s: R.Snapshot, e: Event)
    requires g.Valid() && s.Valid() && |s.queues| == |g.adapters| && InPlace(g, s.log)
    ensures InPlace(g, AfterEvent(g, s, e).log)
  {
    hide R.RoutingShape, R.Served, FutureAt, Shaped, R.WritersValid, Made;
    if e.Runs? && s.queues != [] && !s.reset {
      var j := R.FirstStop(g.table, s.queues, s.current, 0);
      var c := R.Turn(s.current, j, |s.queues|);
      ServedMade(g.table, g.writers, c, s.queues[c]);
    }
  }

  lemma {:induction false} EventsInPlace(g: Setup, s: R.Snapshot, events: seq<Event>)
    requires g.Valid() && s.Valid() && |s.queues| == |g.adapters| && InPlace(g, s.log)
    ensures InPlace(g, AfterEvents(g, s, events).log)
    decreases |events|
  {
    hide R.RoutingShape, AfterEvent, Shaped, R.WritersValid, InPlace;
    if events != [] {
      EventInPlace(g, s, events[0]);
      EventsInPlace(g, AfterEvent(g, s, events[0]), events[1..]);
    }
  }

  /** Channel 255 compiles as the last of 256, and is never served, nor is anything delivered to it. */
  lemma {:induction false} Channel255IsNotServed(g: Setup, events: seq<Event>)
    requires g.Valid()
    ensures forall d :: d in AfterEvents(g, Idle(|g.adapters|), events).log ==> d.source != 255 && d.channel != 255
  {
    hide R.RoutingShape, Shaped, AfterEvents;
    EventsInPlace(g, Idle(|g.adapters|), events);
  }
}
