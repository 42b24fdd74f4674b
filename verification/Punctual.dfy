/** When a worker passes its queries on: never before their targets, and in what order. */
module Punctual {
  import opened Messages
  import opened Timing
  import opened Client

  /** The clock only gives normalised readings. */
  ghost predicate ClockOk(conf: Conf) { forall k: nat :: Normalised(conf.clock(k)) }

  /** Step `k` of a run passes a query on. */
  ghost predicate Passes(states: seq<State>, k: nat)
    requires k + 1 < |states|
  {
    |states[k + 1].passed| > |states[k].passed|
  }

  lemma {:induction false} RealStartNormalised(conf: Conf, states: seq<State>, events: seq<Event>, k: nat)
    requires Client.Run(conf, states, events) && k < |states| && ClockOk(conf)
    ensures Normalised(states[k].startReal)
    ensures states[k].passed != [] || states[k].pending != [] ==> states[k].ticks > 0
  {
    if k > 0 {
      RealStartNormalised(conf, states, events, k - 1);
      assert Client.Step(conf, states[k - 1], events[k - 1], states[k]);
      StartAfter(conf, states[k - 1], events[k - 1], states[k]);
    }
  }

  lemma StartAfter(conf: Conf, st: State, e: Event, st': State)
    requires Client.Step(conf, st, e, st') && ClockOk(conf)
    ensures Normalised(st.startReal) ==> Normalised(st'.startReal)
    ensures (st.passed != [] || st.pending != [] ==> st.ticks > 0) ==>
              (st'.passed != [] || st'.pending != [] ==> st'.ticks > 0)
  {
    hide Decide, Delay;
  }

  /** The query of step `k` and whether its stamp is one the sign test judges rightly. */
  ghost predicate Sane(states: seq<State>, k: nat, q: DNSMsg)
    requires k < |states|
  {
    -MILLION - 1 <= q.microseconds - states[k].startTrace.usec < MILLION
  }

  lemma PassedAtOnce(conf: Conf, st: State, m: DNSMsg, st': State)
    requires st' == Scheduled(conf, st, m) && !conf.nonWait && |st'.passed| > |st.passed|
    requires Normalised(st.startReal) && Normalised(conf.clock(st.ticks)) && Normalised(conf.clock(st.ticks + 1))
    requires SignTestRight(Client.Stamp(m), st.startTrace)
    ensures st'.passed == st.passed + [m] && st'.ticks > 0
    ensures Target(Client.Stamp(m), st.startTrace, st.startReal) <= Micros(conf.clock(st'.ticks - 1))
  {
    hide Delay, Target, Micros;
  }

  /** Every armed timer expires at the first reading of the clock plus the distance of its query from the
      sync message, to the microsecond. */
  lemma TimersOnTime(conf: Conf, states: seq<State>, events: seq<Event>, l: nat, i: nat)
    requires Client.Run(conf, states, events) && 0 < l < |states| && !states[l].aborted && i < |states[l].pending|
    requires events[0].Decoded? ==> events[0].msg.seconds != 0 || events[0].msg.microseconds != 0
    ensures events[0].Decoded?
    ensures var t, first, base := states[l].pending[i], events[0].msg, conf.clock(0);
            t.armedAt.sec * 1000000 + t.armedAt.usec + t.delay.sec * 1000000 + t.delay.usec
            == base.sec * 1000000 + base.usec
               + (t.msg.seconds - first.seconds) * 1000000 + (t.msg.microseconds - first.microseconds)
  {
    hide Accounted, Client.Step;
    EveryRunAccounts(conf, states, events, l);
    BaseIsFirst(conf, states, events, l);
  }

  /** Unless waiting is off, no query is passed on before its target, whether at once, judged by the last
      reading of the clock, or by its timer. */
  lemma NeverEarly(conf: Conf, states: seq<State>, events: seq<Event>, k: nat)
    requires Client.Run(conf, states, events) && k < |events| && !conf.nonWait && ClockOk(conf)
    requires Passes(states, k)
    requires events[k].Decoded? ==> Sane(states, k, events[k].msg)
    requires events[0].Decoded? ==> events[0].msg.seconds != 0 || events[0].msg.microseconds != 0
    ensures states[k + 1].ticks > 0 && events[0].Decoded?
    ensures var m, first, base := states[k + 1].passed[|states[k + 1].passed| - 1], events[0].msg, conf.clock(0);
            var now := if events[k].Decoded? then conf.clock(states[k + 1].ticks - 1) else events[k].now;
            base.sec * 1000000 + base.usec + (m.seconds - first.seconds) * 1000000 + (m.microseconds - first.microseconds)
            <= now.sec * 1000000 + now.usec
  {
    hide Decide, Delay, Scheduled, Accounted;
    var st, st', e := states[k], states[k + 1], events[k];
    assert Client.Step(conf, st, e, st');
    SameStart(conf, st, e, st');
    EveryRunAccounts(conf, states, events, k);
    RealStartNormalised(conf, states, events, k);
    RealStartNormalised(conf, states, events, k + 1);
    BaseIsFirst(conf, states, events, k + 1);
    match e
    case Decoded(m) =>
      SignTestRightIff(Client.Stamp(m), st.startTrace);
      var counted := st.(numQuery := (if st.numQuery == ULLONG_MAX then 0 else st.numQuery) + 1);
      assert st' == Scheduled(conf, counted, m);
      PassedAtOnce(conf, counted, m, st');
    case Fired(i, now) =>
      assert st'.passed[|st'.passed| - 1] == st.pending[i].msg;
  }

  /** A query can overtake an earlier one of the trace only while the other's timer is due but not yet
      dispatched. */
  lemma OvertakenWasDue(conf: Conf, states: seq<State>, events: seq<Event>, k: nat, i: nat)
    requires Client.Run(conf, states, events) && k < |events| && !conf.nonWait && ClockOk(conf)
    requires Passes(states, k) && i < |states[k + 1].pending|
    requires events[k].Decoded? ==> Sane(states, k, events[k].msg)
    requires events[0].Decoded? ==> events[0].msg.seconds != 0 || events[0].msg.microseconds != 0
    requires var m, other := states[k + 1].passed[|states[k + 1].passed| - 1], states[k + 1].pending[i].msg;
             other.seconds * 1000000 + other.microseconds <= m.seconds * 1000000 + m.microseconds
    ensures states[k + 1].ticks > 0
    ensures var t := states[k + 1].pending[i];
            var now := if events[k].Decoded? then conf.clock(states[k + 1].ticks - 1) else events[k].now;
            t.armedAt.sec * 1000000 + t.armedAt.usec + t.delay.sec * 1000000 + t.delay.usec <= now.sec * 1000000 + now.usec
  {
    hide Client.Step, Sane;
    NeverEarly(conf, states, events, k);
    assert Client.Step(conf, states[k], events[k], states[k + 1]);
    SameStart(conf, states[k], events[k], states[k + 1]);
    TimersOnTime(conf, states, events, k + 1, i);
  }

  lemma SameStart(conf: Conf, st: State, e: Event, st': State)
    requires Client.Step(conf, st, e, st') && |st'.passed| > |st.passed|
    ensures st'.startTrace == st.startTrace && st'.startReal == st.startReal && !st'.aborted
  {
    hide Decide, Delay;
  }

  /** Without waiting, a worker passes its queries on in the order it decodes them. */
  lemma {:induction false} NonWaitKeepsOrder(conf: Conf, states: seq<State>, events: seq<Event>, k: nat)
    requires Client.Run(conf, states, events) && k < |states| && conf.nonWait
    ensures states[k].aborted || (states[k].pending == [] && states[k].passed == Queries(DecodedIn(events[..k])))
  {
    if k > 0 {
      NonWaitKeepsOrder(conf, states, events, k - 1);
      var upTo := events[..k];
      assert upTo[..k - 1] == events[..k - 1] && upTo[k - 1] == events[k - 1];
      assert Client.Step(conf, states[k - 1], events[k - 1], states[k]);
      NonWaitStep(conf, states[k - 1], DecodedIn(events[..k - 1]), events[k - 1], states[k]);
    }
  }

  lemma NonWaitStep(conf: Conf, st: State, done: seq<DNSMsg>, e: Event, st': State)
    requires Client.Step(conf, st, e, st') && conf.nonWait
    requires st.aborted || (st.pending == [] && st.passed == Queries(done))
    ensures st'.aborted || (st'.pending == [] && st'.passed == Queries(done + if e.Decoded? then [e.msg] else []))
  {
    if e.Decoded? {
      QueriesSnoc(done, e.msg);
    }
  }

  /** A run in which it happens: the earlier query waits for its timer while the later one, decoded when
      both are due, is passed on at once. */
  lemma OvertakingHappens(m: DNSMsg) returns (conf: Conf, states: seq<State>, events: seq<Event>)
    ensures Client.Run(conf, states, events) && |events| == 3 && !conf.nonWait && ClockOk(conf)
    ensures var last := states[3];
            && last.pending != [] && last.passed != []
            && last.pending[0].msg.seconds < last.passed[0].seconds
  {
    conf := Conf(false, (k: nat) => if k < 3 then TimeVal(1, 0) else TimeVal(10, 0));
    var sync := m.(syncTime := true).(seconds := 1, microseconds := 0);
    var early := m.(syncTime := false).(seconds := 3, microseconds := 0);
    var late := m.(syncTime := false).(seconds := 4, microseconds := 0);
    events := [Decoded(sync), Decoded(early), Decoded(late)];
    var s0 := INITIAL;
    var s1 := OnMessage(conf, s0, sync);
    var s2 := OnMessage(conf, s1, early);
    var s3 := OnMessage(conf, s2, late);
    states := [s0, s1, s2, s3];
    assert s1 == s0.(startTrace := TimeVal(1, 0), startReal := TimeVal(1, 0), ticks := 1);
    ArmedEarly(conf, s1, early);
    PassedLate(conf, s2, late);
    forall k | 0 <= k < 3 ensures Client.Step(conf, states[k], events[k], states[k + 1]) {
      if k == 0 { } else if k == 1 { } else { assert k == 2; }
    }
  }

  lemma ArmedEarly(conf: Conf, st: State, m: DNSMsg)
    requires !st.aborted && !m.syncTime && !conf.nonWait && Client.Stamp(m) == TimeVal(3, 0)
    requires st.startTrace == TimeVal(1, 0) && st.startReal == TimeVal(1, 0) && st.ticks == 1
    requires conf.clock(1) == TimeVal(1, 0) && conf.clock(2) == TimeVal(1, 0)
    ensures var st' := OnMessage(conf, st, m);
            && !st'.aborted && st'.startTrace == st.startTrace && st'.startReal == st.startReal && st'.ticks == 3
            && st'.pending == st.pending + [Timer(m, TimeVal(1, 0), TimeVal(2, 0))] && st'.passed == st.passed
  {
    hide Decide, Delay;
    DecidedEarly();
  }

  lemma DecidedEarly()
    ensures Decide(false, TimeVal(3, 0), TimeVal(1, 0), TimeVal(1, 0), TimeVal(1, 0), TimeVal(1, 0)) == Arm(TimeVal(2, 0))
  {
    assert Delay(TimeVal(3, 0), TimeVal(1, 0), TimeVal(1, 0), TimeVal(1, 0)) == TimeVal(2, 0);
  }

  lemma PassedLate(conf: Conf, st: State, m: DNSMsg)
    requires !st.aborted && !m.syncTime && Client.Stamp(m) == TimeVal(4, 0)
    requires st.startTrace == TimeVal(1, 0) && st.startReal == TimeVal(1, 0) && st.ticks == 3
    requires conf.clock(3) == TimeVal(10, 0)
    ensures var st' := OnMessage(conf, st, m); st'.pending == st.pending && st'.passed == st.passed + [m]
  {
    assert Delay(TimeVal(4, 0), TimeVal(1, 0), TimeVal(1, 0), TimeVal(10, 0)) == TimeVal(-6, 0);
  }
}
