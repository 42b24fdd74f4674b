/** The worker process: it decodes the Manager's stream, takes its time base from
    the sync message and passes every query to `send_query`, now or by timer. */
module Client {
  import opened Common
  import opened Bytes
  import opened Framing
  import opened Messages
  import opened Timing

  const ULLONG_MAX: nat := 0xFFFF_FFFF_FFFF_FFFF

  /** The wall clock is an oracle: `clock(k)` is the k-th reading. */
  datatype Conf = Conf(nonWait: bool, clock: nat -> TimeVal)

  /** An armed timer event: the query, the clock reading it was armed at and the
      delay handed to `evtimer_add`. */
  datatype Timer = Timer(msg: DNSMsg, armedAt: TimeVal, delay: TimeVal)

  datatype State = State(
    startTrace: TimeVal, startReal: TimeVal, ticks: nat,
    numQuery: nat, numTimer: nat, numNotimer: nat,
    numPending: nat, numPendingMax: nat,
    pending: seq<Timer>, passed: seq<DNSMsg>, aborted: bool)

  const INITIAL := State(ZERO, ZERO, 0, 0, 0, 0, 0, 0, [], [], false)

  function Stamp(m: DNSMsg): TimeVal { TimeVal(m.seconds, m.microseconds) }

  function OnSync(conf: Conf, st: State, m: DNSMsg): State
  {
    if IsSet(st.startTrace) then st.(aborted := true)
    else st.(startTrace := Stamp(m), startReal := conf.clock(st.ticks), ticks := st.ticks + 1)
  }

  /** The query is passed on or gets a timer, as `Decide` has it for the next two
      readings of the clock. */
  function Scheduled(conf: Conf, st: State, m: DNSMsg): State
  {
    var now1, now2 := conf.clock(st.ticks), conf.clock(st.ticks + 1);
    match Decide(conf.nonWait, Stamp(m), st.startTrace, st.startReal, now1, now2)
    case SendNow =>
      var once := conf.nonWait || Delay(Stamp(m), st.startTrace, st.startReal, now1).sec < 0;
      st.(ticks := st.ticks + (if once then 1 else 2),
          numNotimer := st.numNotimer + 1,
          passed := st.passed + [m])
    case Arm(delay) =>
      st.(ticks := st.ticks + 2,
          numTimer := st.numTimer + 1,
          numPending := st.numPending + 1,
          numPendingMax := if st.numPending + 1 > st.numPendingMax then st.numPending + 1 else st.numPendingMax,
          pending := st.pending + [Timer(m, now2, delay)])
  }

  function OnQuery(conf: Conf, st: State, m: DNSMsg): State
  {
    if !IsSet(st.startTrace) then st.(aborted := true)
    else Scheduled(conf, st.(numQuery := (if st.numQuery == ULLONG_MAX then 0 else st.numQuery) + 1), m)
  }

  /** One turn of the decode loop. An abort ends the process. */
  function OnMessage(conf: Conf, st: State, m: DNSMsg): State
  {
    if st.aborted then st
    else if m.syncTime then OnSync(conf, st, m)
    else OnQuery(conf, st, m)
  }

  function Turn(conf: Conf): (State, DNSMsg) -> State
  {
    (st, m) => OnMessage(conf, st, m)
  }

  /** Timer `i` expires: `send_query_helper`. */
  function OnFire(st: State, i: nat): State
    requires i < |st.pending| && st.numPending > 0
  {
    st.(pending := st.pending[..i] + st.pending[i + 1..],
        numPending := st.numPending - 1,
        passed := st.passed + [st.pending[i].msg])
  }

  // ----- accounting over every run ----------------------------------------

  function Queries(ms: seq<DNSMsg>): seq<DNSMsg>
  {
    if ms == [] then []
    else
      var last := ms[|ms| - 1];
      Queries(ms[..|ms| - 1]) + (if last.syncTime then [] else [last])
  }

  /** The queries of a stream are its messages without the sync flag, each once, in their order. */
  lemma {:induction false} QueriesIsFilter(ms: seq<DNSMsg>, keep: DNSMsg -> bool) returns (ks: seq<nat>)
    requires forall m :: keep(m) <==> !m.syncTime
    ensures Filters(ms, Queries(ms), ks, keep)
  {
    hide Filters;
    if ms == [] {
      ks := [];
      FiltersNone(keep);
    } else {
      var n := |ms| - 1;
      assert ms == ms[..n] + [ms[n]];
      ks := QueriesIsFilter(ms[..n], keep);
      if !ms[n].syncTime {
        FiltersKeep(ms[..n], Queries(ms[..n]), ks, keep, ms[n]);
        ks := ks + [n];
      } else {
        assert Queries(ms) == Queries(ms[..n]);
        FiltersSkip(ms[..n], Queries(ms[..n]), ks, keep, ms[n]);
      }
    }
  }

  function Msgs(ts: seq<Timer>): (ms: seq<DNSMsg>)
    ensures |ms| == |ts|
    ensures forall i | 0 <= i < |ts| :: ms[i] == ts[i].msg
  {
    seq(|ts|, i requires 0 <= i < |ts| => ts[i].msg)
  }

  /** Every query decoded so far is either pending under exactly one timer or has
      been passed to `send_query` exactly once, and the counters agree. */
  ghost predicate Accounted(st: State, handled: seq<DNSMsg>)
  {
    && multiset(st.passed) + multiset(Msgs(st.pending)) == multiset(Queries(handled))
    && st.numTimer + st.numNotimer == |Queries(handled)|
    && st.numPending == |st.pending| <= st.numPendingMax
    && |st.pending| <= st.numTimer
    && st.numQuery == Cycled(|Queries(handled)|)
  }

  /** A count in 64 bits that goes from its largest value to 1. */
  function Cycled(n: nat): nat
  {
    if n == 0 then 0 else (n - 1) % ULLONG_MAX + 1
  }

  lemma CycledNext(n: nat)
    ensures Cycled(n + 1) == (if Cycled(n) == ULLONG_MAX then 0 else Cycled(n)) + 1
  {
  }

  /** Every armed timer expires on the target of its query. */
  ghost predicate TimersOnTarget(st: State)
  {
    forall i | 0 <= i < |st.pending| ::
      var t := st.pending[i];
      Micros(t.armedAt) + Micros(t.delay) == Target(Stamp(t.msg), st.startTrace, st.startReal)
  }

  lemma {:induction false} OnMessageAccounts(conf: Conf, st: State, handled: seq<DNSMsg>, m: DNSMsg)
    requires Accounted(st, handled) && TimersOnTarget(st) && !st.aborted
    requires IsSet(st.startTrace) || st.pending == []
    ensures var st' := OnMessage(conf, st, m);
            !st'.aborted ==>
              && Accounted(st', handled + [m])
              && TimersOnTarget(st')
              && (IsSet(st'.startTrace) || st'.pending == [])
  {
    hide Decide, Accounted, Queries, Delay;
    var st' := OnMessage(conf, st, m);
    QueriesSnoc(handled, m);
    if m.syncTime {
      SyncAccounts(st, st', handled, handled + [m]);
    } else if !st'.aborted {
      ArmedOnTarget(conf, st, m);
      if st'.numTimer == st.numTimer {
        PassAccounts(st, st', handled, handled + [m], m);
      } else {
        ArmAccounts(st, st', handled, handled + [m], st'.pending[|st.pending|]);
      }
    }
  }

  lemma QueriesSnoc(handled: seq<DNSMsg>, m: DNSMsg)
    ensures Queries(handled + [m]) == Queries(handled) + if m.syncTime then [] else [m]
  {
    assert (handled + [m])[..|handled|] == handled;
  }

  lemma SyncAccounts(st: State, st': State, handled: seq<DNSMsg>, now: seq<DNSMsg>)
    requires Accounted(st, handled) && Queries(now) == Queries(handled)
    requires st' == st.(startTrace := st'.startTrace, startReal := st'.startReal, ticks := st'.ticks, aborted := st'.aborted)
    ensures Accounted(st', now)
  {
  }

  lemma PassAccounts(st: State, st': State, handled: seq<DNSMsg>, now: seq<DNSMsg>, m: DNSMsg)
    requires Accounted(st, handled) && Queries(now) == Queries(handled) + [m]
    requires st'.numTimer == st.numTimer && st'.numNotimer == st.numNotimer + 1
    requires st'.numPending == st.numPending && st'.numPendingMax == st.numPendingMax
    requires st'.pending == st.pending && st'.passed == st.passed + [m]
    requires st'.numQuery == (if st.numQuery == ULLONG_MAX then 0 else st.numQuery) + 1
    ensures Accounted(st', now)
  {
    hide Cycled, Queries;
    CycledNext(|Queries(handled)|);
  }

  lemma ArmAccounts(st: State, st': State, handled: seq<DNSMsg>, now: seq<DNSMsg>, t: Timer)
    requires Accounted(st, handled) && Queries(now) == Queries(handled) + [t.msg]
    requires st'.numTimer == st.numTimer + 1 && st'.numNotimer == st.numNotimer
    requires st'.numPending == st.numPending + 1 <= st'.numPendingMax
    requires st'.pending == st.pending + [t] && st'.passed == st.passed
    requires st'.numQuery == (if st.numQuery == ULLONG_MAX then 0 else st.numQuery) + 1
    ensures Accounted(st', now)
  {
    hide Queries, Cycled;
    CycledNext(|Queries(handled)|);
    assert Msgs(st'.pending) == Msgs(st.pending) + [t.msg];
    assert multiset(Msgs(st.pending) + [t.msg]) == multiset(Msgs(st.pending)) + multiset{t.msg};
  }

  lemma ArmedOnTarget(conf: Conf, st: State, m: DNSMsg)
    requires IsSet(st.startTrace)
    ensures var now1, now2 := conf.clock(st.ticks), conf.clock(st.ticks + 1);
            var d := Decide(conf.nonWait, Stamp(m), st.startTrace, st.startReal, now1, now2);
            d.Arm? ==> Micros(now2) + Micros(d.delay) == Target(Stamp(m), st.startTrace, st.startReal)
  {
    DelayIsExact(Stamp(m), st.startTrace, st.startReal, conf.clock(st.ticks + 1));
  }

  lemma ScheduledOnTarget(conf: Conf, st: State, m: DNSMsg)
    ensures var now1, now2 := conf.clock(st.ticks), conf.clock(st.ticks + 1);
            var target := Target(Stamp(m), st.startTrace, st.startReal);
            var d := Decide(conf.nonWait, Stamp(m), st.startTrace, st.startReal, now1, now2);
            && (d.Arm? ==> Micros(now2) + Micros(d.delay) == target)
            && (Normalised(Stamp(m)) && Normalised(st.startTrace) && Normalised(st.startReal)
                && Normalised(now1) && Normalised(now2) ==>
                  (d.SendNow? <==> conf.nonWait || target < Micros(now1) || target < Micros(now2)))
  {
    var now1, now2 := conf.clock(st.ticks), conf.clock(st.ticks + 1);
    DelayIsExact(Stamp(m), st.startTrace, st.startReal, now2);
    if Normalised(Stamp(m)) && Normalised(st.startTrace) && Normalised(st.startReal)
       && Normalised(now1) && Normalised(now2) {
      DecisionIsExact(conf.nonWait, Stamp(m), st.startTrace, st.startReal, now1, now2);
    }
  }

  lemma {:induction false} OnFireAccounts(st: State, handled: seq<DNSMsg>, i: nat)
    requires Accounted(st, handled) && TimersOnTarget(st) && i < |st.pending|
    ensures Accounted(OnFire(st, i), handled) && TimersOnTarget(OnFire(st, i))
  {
    OnFireOnTarget(st, i) by { hide Accounted; }
    hide TimersOnTarget, Queries;
    var st' := OnFire(st, i);
    var ms := Msgs(st.pending);
    assert Msgs(st'.pending) == ms[..i] + ms[i + 1..];
    TakeOut(ms, i);
  }

  lemma OnFireOnTarget(st: State, i: nat)
    requires TimersOnTarget(st) && i < |st.pending| && st.numPending > 0
    ensures TimersOnTarget(OnFire(st, i))
  {
    hide Target, Micros;
  }

  lemma TakeOut(ms: seq<DNSMsg>, i: nat)
    requires i < |ms|
    ensures multiset(ms) == multiset(ms[..i] + ms[i + 1..]) + multiset{ms[i]}
  {
    assert ms == ms[..i] + [ms[i]] + ms[i + 1..];
  }

  /** The clock has reached the instant that a timer was set for. */
  predicate Expired(t: Timer, now: TimeVal)
  {
    Micros(now) >= Micros(t.armedAt) + Micros(t.delay)
  }

  /** A timer is dispatched at `now`, at its instant or later. */
  datatype Event = Decoded(msg: DNSMsg) | Fired(i: nat, now: TimeVal)

  /** The worker handles one message or one expired timer. */
  ghost predicate Step(conf: Conf, st: State, e: Event, st': State)
  {
    match e
    case Decoded(m) => st' == OnMessage(conf, st, m)
    case Fired(i, now) =>
      !st.aborted && i < |st.pending| && st.numPending > 0 && Expired(st.pending[i], now) && st' == OnFire(st, i)
  }

  /** A run of the worker: messages as they are decoded, interleaved with timers
      as they expire. */
  ghost predicate Run(conf: Conf, states: seq<State>, events: seq<Event>)
  {
    && |states| == |events| + 1
    && states[0] == INITIAL
    && forall k | 0 <= k < |events| :: Step(conf, states[k], events[k], states[k + 1])
  }

  function DecodedIn(events: seq<Event>): seq<DNSMsg>
  {
    if events == [] then []
    else
      var last := events[|events| - 1];
      DecodedIn(events[..|events| - 1]) + (if last.Decoded? then [last.msg] else [])
  }

  ghost predicate Good(st: State, handled: seq<DNSMsg>)
  {
    && Accounted(st, handled)
    && TimersOnTarget(st)
    && (IsSet(st.startTrace) || st.pending == [])
  }

  /** In every run that has not aborted: timers plus immediate sends count the
      decoded queries, the pending count is the armed and unexpired timers, and
      each decoded query is pending or sent, once. */
  lemma {:induction false} EveryRunAccounts(conf: Conf, states: seq<State>, events: seq<Event>, k: nat)
    requires Run(conf, states, events) && k <= |events|
    ensures states[k].aborted || Good(states[k], DecodedIn(events[..k]))
  {
    hide Step, Good;
    if k == 0 {
      InitiallyGood(states[0], DecodedIn(events[..0]));
    } else {
      EveryRunAccounts(conf, states, events, k - 1);
      var upTo := events[..k];
      assert upTo[..k - 1] == events[..k - 1] && upTo[k - 1] == events[k - 1];
      assert Step(conf, states[k - 1], events[k - 1], states[k]);
      StepAccounts(conf, states[k - 1], DecodedIn(events[..k - 1]), events[k - 1], states[k]);
    }
  }

  lemma InitiallyGood(st: State, handled: seq<DNSMsg>)
    requires st == INITIAL && handled == []
    ensures Good(st, handled)
  {
    assert Msgs(st.pending) == [];
  }

  lemma {:induction false} StepAccounts(conf: Conf, st: State, handled: seq<DNSMsg>, e: Event, st': State)
    requires st.aborted || Good(st, handled)
    requires Step(conf, st, e, st')
    ensures st'.aborted || Good(st', handled + (if e.Decoded? then [e.msg] else []))
  {
    if !st.aborted {
      match e
      case Decoded(m) => OnMessageAccounts(conf, st, handled, m);
      case Fired(i, _) =>
        OnFireAccounts(st, handled, i);
        assert handled + [] == handled;
    }
  }

  /** The time base, over every run: the first sync message with a stamp other than 0.0 fixes it for
      good, to that stamp and to the clock as it was read then. */
  lemma {:induction false} BaseIsFixed(conf: Conf, states: seq<State>, events: seq<Event>, k: nat, l: nat)
    requires Run(conf, states, events) && k < l < |states| && !states[l].aborted
    requires events[k].Decoded? && events[k].msg.syncTime && !IsSet(states[k].startTrace)
    requires events[k].msg.seconds != 0 || events[k].msg.microseconds != 0
    ensures !states[k].aborted
    ensures states[l].startTrace == TimeVal(events[k].msg.seconds, events[k].msg.microseconds)
    ensures states[l].startReal == conf.clock(states[k].ticks)
    decreases l
  {
    hide Scheduled;
    assert Step(conf, states[l - 1], events[l - 1], states[l]);
    if l - 1 > k {
      BaseAfter(conf, states[l - 1], events[l - 1], states[l]);
      BaseIsFixed(conf, states, events, k, l - 1);
    }
  }

  lemma BaseAfter(conf: Conf, st: State, e: Event, st': State)
    requires Step(conf, st, e, st') && !st'.aborted
    ensures !st.aborted
    ensures IsSet(st.startTrace) ==> st'.startTrace == st.startTrace && st'.startReal == st.startReal
    ensures !IsSet(st.startTrace) && st.pending == [] ==> e.Decoded? && e.msg.syncTime && st'.passed == st.passed && st'.pending == []
    ensures !IsSet(st.startTrace) ==> (e.Decoded? && e.msg.syncTime ==> st'.ticks == st.ticks + 1)
  {
    hide Decide, Delay;
  }

  /** A worker that has not aborted has decoded a sync message first; if its stamp is not 0.0, the base
      is that stamp and the first reading of the clock. */
  lemma {:induction false} BaseIsFirst(conf: Conf, states: seq<State>, events: seq<Event>, l: nat)
    requires Run(conf, states, events) && 0 < l < |states| && !states[l].aborted
    ensures events[0].Decoded? && events[0].msg.syncTime
    ensures (events[0].msg.seconds != 0 || events[0].msg.microseconds != 0) ==>
              && states[l].startTrace == TimeVal(events[0].msg.seconds, events[0].msg.microseconds)
              && states[l].startReal == conf.clock(0)
  {
    hide Scheduled, OnQuery;
    assert Step(conf, states[0], events[0], states[1]);
    if l > 1 {
      assert Step(conf, states[l - 1], events[l - 1], states[l]);
      BaseAfter(conf, states[l - 1], events[l - 1], states[l]);
      BaseIsFirst(conf, states, events, l - 1);
    } else {
      BaseAfter(conf, states[0], events[0], states[1]);
    }
    if events[0].msg.seconds != 0 || events[0].msg.microseconds != 0 {
      BaseIsFixed(conf, states, events, 0, l);
    }
  }

  /** `num_pending_event_max` is the largest number of timers that were pending at once. */
  lemma {:induction false} PendingMaxIsExact(conf: Conf, states: seq<State>, events: seq<Event>, k: nat)
    requires Run(conf, states, events) && k < |states| && !states[k].aborted
    ensures forall j | 0 <= j <= k :: |states[j].pending| <= states[k].numPendingMax
    ensures exists j :: 0 <= j <= k && |states[j].pending| == states[k].numPendingMax
  {
    hide Step, Good;
    if k > 0 {
      assert Step(conf, states[k - 1], events[k - 1], states[k]);
      BaseAfter(conf, states[k - 1], events[k - 1], states[k]);
      PendingMaxIsExact(conf, states, events, k - 1);
      EveryRunAccounts(conf, states, events, k - 1);
      PendingCounted(states[k - 1], DecodedIn(events[..k - 1]));
      MaxAfter(conf, states[k - 1], events[k - 1], states[k]);
      var j :| 0 <= j <= k - 1 && |states[j].pending| == states[k - 1].numPendingMax;
      var best := if |states[k].pending| > states[k - 1].numPendingMax then k else j;
      assert |states[best].pending| == states[k].numPendingMax;
    } else {
      assert |states[0].pending| == states[0].numPendingMax;
    }
  }

  lemma PendingCounted(st: State, handled: seq<DNSMsg>)
    requires Good(st, handled)
    ensures st.numPending == |st.pending| <= st.numPendingMax
  {
  }

  function Firings(events: seq<Event>): nat
  {
    if events == [] then 0 else Firings(events[..|events| - 1]) + if events[|events| - 1].Fired? then 1 else 0
  }

  /** `num_timer` counts the timers armed, fired or not, and `num_notimer` the queries passed on without
      one. */
  lemma {:induction false} CountersAreExact(conf: Conf, states: seq<State>, events: seq<Event>, k: nat)
    requires Run(conf, states, events) && k < |states| && !states[k].aborted
    ensures states[k].numTimer == |states[k].pending| + Firings(events[..k])
    ensures states[k].numNotimer + Firings(events[..k]) == |states[k].passed|
  {
    hide Scheduled;
    if k > 0 {
      assert Step(conf, states[k - 1], events[k - 1], states[k]);
      BaseAfter(conf, states[k - 1], events[k - 1], states[k]);
      CountersAreExact(conf, states, events, k - 1);
      CountersAfter(conf, states[k - 1], events[k - 1], states[k]);
      assert events[..k][..k - 1] == events[..k - 1] && events[..k][k - 1] == events[k - 1];
    }
  }

  lemma CountersAfter(conf: Conf, st: State, e: Event, st': State)
    requires Step(conf, st, e, st') && !st'.aborted
    ensures st'.numTimer - |st'.pending| == st.numTimer - |st.pending| + if e.Fired? then 1 else 0
    ensures |st'.passed| - st'.numNotimer == |st.passed| - st.numNotimer + if e.Fired? then 1 else 0
  {
    hide Decide, Delay;
  }

  lemma MaxAfter(conf: Conf, st: State, e: Event, st': State)
    requires Step(conf, st, e, st') && st.numPending == |st.pending| <= st.numPendingMax
    ensures st'.numPendingMax == if |st'.pending| > st.numPendingMax then |st'.pending| else st.numPendingMax
  {
    hide Decide, Delay;
  }

  // ----- the process -------------------------------------------------------

  class DNSClient {
    const codec: Codec
    const conf: Conf
    var msgBuffer: seq<byte>
    var startTraceTs: TimeVal
    var startRealTs: TimeVal
    var clockReads: nat
    var numQuery: nat
    var numTimer: nat
    var numNotimer: nat
    var numPendingEvent: nat
    var numPendingEventMax: nat
    var timers: seq<Timer>
    var sentQueries: seq<DNSMsg>
    var aborted: bool

    constructor (codec: Codec, conf: Conf)
      ensures this.codec == codec && this.conf == conf
      ensures msgBuffer == [] && Abs() == INITIAL
    {
      this.codec, this.conf := codec, conf;
      msgBuffer := [];
      startTraceTs, startRealTs := ZERO, ZERO;
      clockReads, numQuery, numTimer, numNotimer := 0, 0, 0, 0;
      numPendingEvent, numPendingEventMax := 0, 0;
      timers, sentQueries, aborted := [], [], false;
    }

    ghost function Abs(): State
      reads this
    {
      State(startTraceTs, startRealTs, clockReads, numQuery, numTimer, numNotimer,
            numPendingEvent, numPendingEventMax, timers, sentQueries, aborted)
    }

    method ReadClock() returns (now: TimeVal)
      modifies this`clockReads
      ensures now == conf.clock(old(clockReads)) && clockReads == old(clockReads) + 1
    {
      now := conf.clock(clockReads);
      clockReads := clockReads + 1;
    }

    /** `manager_read_cb`: appends what arrived and handles every whole message.
        An abort leaves the rest of the buffer unread. */
    method ManagerRead(data: seq<byte>)
      requires !aborted
      modifies this
      ensures var d := Drain(PREFIX, old(msgBuffer) + data);
              && Abs() == Fold(Turn(conf), old(Abs()), Parsed(codec, d.payloads))
              && (!aborted ==> msgBuffer == d.rest)
    {
      hide OnQuery, OnSync, FromBE, Pow256, Scheduled, Drain;
      msgBuffer := msgBuffer + data;
      ghost var all := msgBuffer;
      ghost var start := Abs();
      ghost var done: seq<Payload> := [];
      while |msgBuffer| > PREFIX
        invariant !aborted
        invariant Drain(PREFIX, all).payloads == done + Drain(PREFIX, msgBuffer).payloads
        invariant Drain(PREFIX, all).rest == Drain(PREFIX, msgBuffer).rest
        invariant Abs() == Fold(Turn(conf), start, Parsed(codec, done))
        decreases |msgBuffer|
      {
        DrainTurn(PREFIX, msgBuffer, done);
        var sz := HeadLen(PREFIX, msgBuffer);
        var left := Left(PREFIX, msgBuffer);
        if sz > left {
          break;
        }
        var payload := msgBuffer[PREFIX..PREFIX + sz];
        var msg := codec.parse(payload);
        ghost var rest := Drain(PREFIX, AfterHead(PREFIX, msgBuffer)).payloads;
        msgBuffer := msgBuffer[sz + PREFIX..];
        Handle(msg);
        FoldSnoc(Turn(conf), start, Parsed(codec, done), msg);
        ParsedSnoc(codec, done, payload);
        done := done + [payload];
        if aborted {
          FoldEnded(codec, Turn(conf), start, done, rest);
          return;
        }
      }
      DrainTurn(PREFIX, msgBuffer, done);
      assert Drain(PREFIX, all).payloads == done;
    }

    /** The body of the decode loop for one message. */
    method Handle(msg: DNSMsg)
      requires !aborted
      modifies this
      ensures Abs() == OnMessage(conf, old(Abs()), msg)
      ensures msgBuffer == old(msgBuffer)
    {
      if msg.syncTime {
        if IsSet(startTraceTs) {
          aborted := true;
          return;
        }
        startTraceTs := TimeVal(msg.seconds, msg.microseconds);
        startRealTs := ReadClock();
        return;
      }
      if !IsSet(startTraceTs) {
        aborted := true;
        return;
      }
      if numQuery == ULLONG_MAX {
        numQuery := 0;
      }
      numQuery := numQuery + 1;
      Schedule(msg);
    }

    /** Passes the query on now or arms its timer. A new timer is always on target;
        with normalised stamps and clock readings the query is passed on exactly
        when waiting is off or its target had passed at one of the readings. */
    method Schedule(msg: DNSMsg)
      modifies this
      ensures Abs() == Scheduled(conf, old(Abs()), msg)
      ensures var target := startRealTs.sec * 1000000 + startRealTs.usec
                            + (msg.seconds - startTraceTs.sec) * 1000000 + (msg.microseconds - startTraceTs.usec);
              var now1, now2 := conf.clock(old(clockReads)), conf.clock(old(clockReads) + 1);
              var at1, at2 := now1.sec * 1000000 + now1.usec, now2.sec * 1000000 + now2.usec;
              && (if |timers| == |old(timers)| then timers == old(timers) && sentQueries == old(sentQueries) + [msg]
                  else
                    && sentQueries == old(sentQueries) && |timers| == |old(timers)| + 1
                    && timers[..|timers| - 1] == old(timers)
                    && var t := timers[|timers| - 1];
                       t.msg == msg && t.armedAt == now2 && at2 + t.delay.sec * 1000000 + t.delay.usec == target)
              && (Normalised(Stamp(msg)) && Normalised(startTraceTs) && Normalised(startRealTs)
                  && Normalised(now1) && Normalised(now2) ==>
                    (timers == old(timers) <==> conf.nonWait || target < at1 || target < at2))
      ensures msgBuffer == old(msgBuffer)
    {
      hide Normalised, Decide, Delay;
      ScheduledOnTarget(conf, Abs(), msg);
      Dispatch(msg);
    }

    method Dispatch(msg: DNSMsg)
      modifies this
      ensures Abs() == Scheduled(conf, old(Abs()), msg) && msgBuffer == old(msgBuffer)
    {
      hide Sub;
      var diffTime := Sub(TimeVal(msg.seconds, msg.microseconds), startTraceTs);
      var now := ReadClock();
      var tv := Sub(diffTime, Sub(now, startRealTs));
      if conf.nonWait || tv.sec < 0 {
        PassNow(msg);
        return;
      }
      now := ReadClock();
      tv := Sub(diffTime, Sub(now, startRealTs));
      if tv.sec < 0 {
        PassNow(msg);
        return;
      }
      ArmTimer(Timer(msg, now, tv));
    }

    method PassNow(msg: DNSMsg)
      modifies this`sentQueries, this`numNotimer
      ensures sentQueries == old(sentQueries) + [msg] && numNotimer == old(numNotimer) + 1
    {
      sentQueries := sentQueries + [msg];
      numNotimer := numNotimer + 1;
    }

    method ArmTimer(timer: Timer)
      modifies this`timers, this`numTimer, this`numPendingEvent, this`numPendingEventMax
      ensures timers == old(timers) + [timer] && numTimer == old(numTimer) + 1
      ensures numPendingEvent == old(numPendingEvent) + 1
      ensures numPendingEventMax == if numPendingEvent > old(numPendingEventMax) then numPendingEvent else old(numPendingEventMax)
    {
      timers := timers + [timer];
      numTimer := numTimer + 1;
      numPendingEvent := numPendingEvent + 1;
      if numPendingEvent > numPendingEventMax {
        numPendingEventMax := numPendingEvent;
      }
    }

    /** `send_query_helper` for the i-th armed timer. */
    method Fire(i: nat)
      requires i < |timers| && numPendingEvent > 0
      modifies this
      ensures Abs() == OnFire(old(Abs()), i) && msgBuffer == old(msgBuffer)
    {
      var msg := timers[i].msg;
      timers := timers[..i] + timers[i + 1..];
      numPendingEvent := numPendingEvent - 1;
      sentQueries := sentQueries + [msg];
    }
  }
}
