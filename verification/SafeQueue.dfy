/**
 * The blocking queue between the thread that reads the tunnel and the threads that
 * rewrite packets (safe_queue.cc), as a state machine over the steps that threads
 * can take: one producer calls push, `|consumers|` consumers call pop, one mutex and one
 * condition variable are shared by all of them.
 *
 * Each step is what a thread does between two points where another thread can
 * interfere.  A wait releases the mutex and falls asleep in one step; a woken thread
 * must take the mutex again before it re-tests its loop condition; the notification
 * comes after the mutex has been released, and it may pick any sleeping thread, the
 * producer included; sleeping threads may also wake up for no reason.
 */
module SafeQueue {
  import opened Common

  datatype Phase =
    | Idle       // outside push and pop
    | Holding    // owns the mutex, about to test its loop condition
    | Asleep     // in cv.wait, mutex released
    | Woken      // notified, waiting for the mutex
    | Notifying  // has released the mutex, notify_one still to come

  datatype State<T> = State(
    producer: Phase,
    consumers: seq<Phase>,
    q: seq<T>,
    pushed: seq<T>,          // everything pushed so far, oldest first
    popped: seq<(nat, T)>    // which consumer popped what, in lock order
  )

  datatype Thread = Producer | Consumer(index: nat)

  datatype Event<T> =
    | Enter(t: Thread)
    | Wait(t: Thread)
    | Push(item: T)
    | Pop(c: nat)
    | Notify(t: Thread, sleeper: Option<Thread>)
    | Spurious(t: Thread)
    | Resume(t: Thread)

  function Start<T>(n: nat): State<T> {
    State(Idle, seq(n, _ => Idle), [], [], [])
  }

  // The constructor takes a signed int and stores it in an unsigned field.
  function MaxLen(m: int): (r: nat) {
    m % 0x1_0000_0000
  }

  function At<T>(s: State<T>, t: Thread): Option<Phase> {
    match t
    case Producer => Some(s.producer)
    case Consumer(i) => if i < |s.consumers| then Some(s.consumers[i]) else None
  }

  function Put<T>(s: State<T>, t: Thread, p: Phase): State<T>
    requires At(s, t).Some?
  {
    match t
    case Producer => s.(producer := p)
    case Consumer(i) => s.(consumers := s.consumers[i := p])
  }

  predicate Unlocked<T>(s: State<T>) {
    s.producer != Holding && Holding !in s.consumers
  }

  predicate Sleeping<T>(s: State<T>) {
    s.producer == Asleep || Asleep in s.consumers
  }

  // The loop condition of push, respectively pop.
  predicate Blocked<T>(maxLen: nat, s: State<T>, t: Thread) {
    if t.Producer? then |s.q| >= maxLen else s.q == []
  }

  function Step<T>(maxLen: nat, s: State<T>, e: Event<T>): Option<State<T>> {
    match e
    case Enter(t) =>
      if At(s, t) == Some(Idle) && Unlocked(s) then Some(Put(s, t, Holding)) else None
    case Resume(t) =>
      if At(s, t) == Some(Woken) && Unlocked(s) then Some(Put(s, t, Holding)) else None
    case Wait(t) =>
      if At(s, t) == Some(Holding) && Blocked(maxLen, s, t) then Some(Put(s, t, Asleep)) else None
    case Spurious(t) =>
      if At(s, t) == Some(Asleep) then Some(Put(s, t, Woken)) else None
    case Push(x) =>
      if s.producer == Holding && !Blocked(maxLen, s, Producer)
      then Some(s.(producer := Notifying, q := s.q + [x], pushed := s.pushed + [x]))
      else None
    case Pop(c) =>
      if At(s, Consumer(c)) == Some(Holding) && !Blocked(maxLen, s, Consumer(c))
      then Some(Put(s, Consumer(c), Notifying).(q := s.q[1..], popped := s.popped + [(c, s.q[0])]))
      else None
    case Notify(t, w) =>
      if At(s, t) != Some(Notifying) then None
      else match w
        case None => if Sleeping(s) then None else Some(Put(s, t, Idle))
        case Some(u) => if At(s, u) == Some(Asleep) then Some(Put(Put(s, t, Idle), u, Woken)) else None
  }

  function Run<T>(maxLen: nat, s: State<T>, es: seq<Event<T>>): Option<State<T>>
    decreases |es|
  {
    if es == [] then Some(s)
    else
      match Step(maxLen, s, es[0])
      case None => None
      case Some(s') => Run(maxLen, s', es[1..])
  }

  // ---- Counting consumers by phase ----

  function Count(ps: seq<Phase>, p: Phase): (k: nat) {
    if ps == [] then 0 else (if ps[0] == p then 1 else 0) + Count(ps[1..], p)
  }

  lemma {:induction false} CountUpdate(ps: seq<Phase>, i: nat, p: Phase, x: Phase)
    requires i < |ps|
    ensures Count(ps[i := p], x)
         == Count(ps, x) - (if ps[i] == x then 1 else 0) + (if p == x then 1 else 0)
  {
    if i == 0 {
      assert ps[i := p][1..] == ps[1..];
    } else {
      assert ps[i := p][1..] == ps[1..][i - 1 := p];
      CountUpdate(ps[1..], i - 1, p, x);
    }
  }

  lemma {:induction false} CountBounds(ps: seq<Phase>, x: Phase, y: Phase)
    requires x != y
    ensures Count(ps, x) + Count(ps, y) <= |ps|
    ensures Count(ps, x) > 0 <==> x in ps
  {
    if ps != [] {
      CountBounds(ps[1..], x, y);
      assert ps == [ps[0]] + ps[1..];
    }
  }

  // ---- First in, first out, and mutual exclusion ----

  function Items<T>(popped: seq<(nat, T)>): (items: seq<T>)
    ensures |items| == |popped|
    ensures forall i :: 0 <= i < |items| ==> items[i] == popped[i].1
  {
    seq(|popped|, i requires 0 <= i < |popped| => popped[i].1)
  }

  ghost predicate Fifo<T>(s: State<T>) {
    s.pushed == Items(s.popped) + s.q
  }

  ghost predicate Exclusive<T>(s: State<T>) {
    (if s.producer == Holding then 1 else 0) + Count(s.consumers, Holding) <= 1
  }

  lemma StepFifo<T>(maxLen: nat, s: State<T>, e: Event<T>)
    requires Fifo(s) && Step(maxLen, s, e).Some?
    ensures Fifo(Step(maxLen, s, e).value)
  {
    var s' := Step(maxLen, s, e).value;
    match e {
      case Pop(c) =>
        assert s.q == [s.q[0]] + s.q[1..];
        assert Items(s'.popped) == Items(s.popped) + [s.q[0]];
        assert Items(s'.popped) + s'.q == Items(s.popped) + ([s.q[0]] + s.q[1..]);
      case Push(x) =>
        assert Items(s.popped) + s'.q == (Items(s.popped) + s.q) + [x];
      case _ =>
    }
  }

  lemma StepExclusive<T>(maxLen: nat, s: State<T>, e: Event<T>)
    requires Exclusive(s) && Step(maxLen, s, e).Some?
    ensures Exclusive(Step(maxLen, s, e).value)
  {
    CountBounds(s.consumers, Holding, Idle);
    match e {
      case Enter(Consumer(i)) => CountUpdate(s.consumers, i, Holding, Holding);
      case Resume(Consumer(i)) => CountUpdate(s.consumers, i, Holding, Holding);
      case Wait(Consumer(i)) => CountUpdate(s.consumers, i, Asleep, Holding);
      case Spurious(Consumer(i)) => CountUpdate(s.consumers, i, Woken, Holding);
      case Pop(i) => CountUpdate(s.consumers, i, Notifying, Holding);
      case Notify(Consumer(i), Some(Consumer(j))) =>
        CountUpdate(s.consumers, i, Idle, Holding);
        CountUpdate(s.consumers[i := Idle], j, Woken, Holding);
      case Notify(Consumer(i), _) => CountUpdate(s.consumers, i, Idle, Holding);
      case Notify(_, Some(Consumer(j))) => CountUpdate(s.consumers, j, Woken, Holding);
      case _ =>
    }
  }

  // ---- Wake-ups that consumers cannot lose, whatever the capacity ----

  ghost predicate AllAsleep<T>(s: State<T>) {
    forall p :: p in s.consumers ==> p == Asleep
  }

  ghost predicate EnoughAwake<T>(s: State<T>) {
    Asleep in s.consumers ==>
      |s.q| + Count(s.consumers, Asleep) <= |s.consumers| + (if s.producer == Notifying then 1 else 0)
  }

  /**
   * While something is queued and every consumer sleeps, the producer's notification
   * is still to come; and the consumers that are awake number at least the queued items,
   * short of that one notification, unless nobody sleeps.
   */
  ghost predicate ConsumersServed<T>(s: State<T>) {
    && (s.q != [] && AllAsleep(s) ==> s.producer == Notifying)
    && EnoughAwake(s)
  }

  lemma StepKeepsNotice<T>(maxLen: nat, s: State<T>, e: Event<T>)
    requires |s.consumers| > 0
    requires s.q != [] && AllAsleep(s) ==> s.producer == Notifying
    requires Step(maxLen, s, e).Some?
    ensures var s' := Step(maxLen, s, e).value;
            s'.q != [] && AllAsleep(s') ==> s'.producer == Notifying
  {
    var s' := Step(maxLen, s, e).value;
    assert s.consumers[0] in s.consumers;
    match e {
      case Enter(Consumer(i)) => assert s'.consumers[i] == Holding && s'.consumers[i] in s'.consumers;
      case Resume(Consumer(i)) => assert s'.consumers[i] == Holding && s'.consumers[i] in s'.consumers;
      case Spurious(Consumer(i)) => assert s'.consumers[i] == Woken && s'.consumers[i] in s'.consumers;
      case Pop(i) => assert s'.consumers[i] == Notifying && s'.consumers[i] in s'.consumers;
      case Notify(_, Some(Consumer(j))) => assert s'.consumers[j] == Woken && s'.consumers[j] in s'.consumers;
      case Notify(Consumer(i), _) => assert s'.consumers[i] == Idle && s'.consumers[i] in s'.consumers;
      case _ =>
    }
  }

  lemma StepKeepsEnoughAwake<T>(maxLen: nat, s: State<T>, e: Event<T>)
    requires EnoughAwake(s) && Step(maxLen, s, e).Some?
    ensures EnoughAwake(Step(maxLen, s, e).value)
  {
    var s' := Step(maxLen, s, e).value;
    CountBounds(s.consumers, Asleep, Idle);
    CountBounds(s'.consumers, Asleep, Idle);
    match e {
      case Enter(Consumer(i)) => CountUpdate(s.consumers, i, Holding, Asleep);
      case Resume(Consumer(i)) => CountUpdate(s.consumers, i, Holding, Asleep);
      case Wait(Consumer(i)) => CountUpdate(s.consumers, i, Asleep, Asleep);
      case Spurious(Consumer(i)) => CountUpdate(s.consumers, i, Woken, Asleep);
      case Pop(i) => CountUpdate(s.consumers, i, Notifying, Asleep);
      case Notify(Consumer(i), Some(Consumer(j))) =>
        CountUpdate(s.consumers, i, Idle, Asleep);
        CountUpdate(s.consumers[i := Idle], j, Woken, Asleep);
      case Notify(Consumer(i), _) => CountUpdate(s.consumers, i, Idle, Asleep);
      case Notify(_, Some(Consumer(j))) => CountUpdate(s.consumers, j, Woken, Asleep);
      case _ =>
    }
  }

  // ---- Wake-ups of the producer: safe up to `maxLen` consumers ----

  /**
   * With at most `maxLen` consumers: while the producer sleeps no consumer does, and
   * every free place in the queue is owed a notification by its own consumer.
   */
  ghost predicate ProducerServed<T>(maxLen: nat, s: State<T>) {
    && |s.q| <= maxLen
    && (s.producer == Asleep ==>
          && Asleep !in s.consumers
          && maxLen - |s.q| <= Count(s.consumers, Notifying))
  }

  lemma StepServesProducer<T>(maxLen: nat, s: State<T>, e: Event<T>)
    requires 0 < |s.consumers| <= maxLen
    requires ConsumersServed(s) && ProducerServed(maxLen, s) && Step(maxLen, s, e).Some?
    ensures ProducerServed(maxLen, Step(maxLen, s, e).value)
  {
    var s' := Step(maxLen, s, e).value;
    CountBounds(s.consumers, Asleep, Notifying);
    match e {
      case Wait(Consumer(i)) =>
        if s.producer == Asleep {
          CountBounds(s.consumers, Notifying, Holding);
          CountBounds(s.consumers, Holding, Notifying);
        }
      case Enter(Consumer(i)) => CountUpdate(s.consumers, i, Holding, Notifying);
      case Resume(Consumer(i)) => CountUpdate(s.consumers, i, Holding, Notifying);
      case Spurious(Consumer(i)) => CountUpdate(s.consumers, i, Woken, Notifying);
      case Pop(i) => CountUpdate(s.consumers, i, Notifying, Notifying);
      case _ =>
    }
  }

  // ---- Every run ----

  ghost predicate Good<T>(maxLen: nat, s: State<T>) {
    && |s.consumers| > 0
    && Fifo(s) && Exclusive(s) && ConsumersServed(s)
    && (|s.consumers| <= maxLen ==> ProducerServed(maxLen, s))
  }

  lemma StepGood<T>(maxLen: nat, s: State<T>, e: Event<T>)
    requires Good(maxLen, s) && Step(maxLen, s, e).Some?
    ensures Good(maxLen, Step(maxLen, s, e).value)
    ensures |Step(maxLen, s, e).value.consumers| == |s.consumers|
  {
    StepFifo(maxLen, s, e);
    StepExclusive(maxLen, s, e);
    StepKeepsNotice(maxLen, s, e);
    StepKeepsEnoughAwake(maxLen, s, e);
    if |s.consumers| <= maxLen { StepServesProducer(maxLen, s, e); }
  }

  lemma {:induction false} RunGood<T>(maxLen: nat, s: State<T>, es: seq<Event<T>>)
    requires Good(maxLen, s) && Run(maxLen, s, es).Some?
    ensures Good(maxLen, Run(maxLen, s, es).value)
    ensures |Run(maxLen, s, es).value.consumers| == |s.consumers|
    decreases |es|
  {
    if es != [] {
      StepGood(maxLen, s, es[0]);
      RunGood(maxLen, Step(maxLen, s, es[0]).value, es[1..]);
    }
  }

  lemma StartGood<T>(maxLen: nat, n: nat)
    requires n > 0
    ensures Good(maxLen, Start<T>(n))
  {
    CountBounds(Start<T>(n).consumers, Asleep, Idle);
    CountBounds(Start<T>(n).consumers, Holding, Idle);
  }

  lemma EveryRunIsFifo<T>(maxLen: nat, n: nat, es: seq<Event<T>>)
    requires n > 0 && Run(maxLen, Start(n), es).Some?
    ensures var s := Run(maxLen, Start(n), es).value;
            && s.pushed == Items(s.popped) + s.q
            && (if s.producer == Holding then 1 else 0) + Count(s.consumers, Holding) <= 1
  {
    StartGood<T>(maxLen, n);
    RunGood(maxLen, Start(n), es);
  }

  lemma NoLostWakeup<T>(maxLen: nat, n: nat, es: seq<Event<T>>)
    requires n > 0 && Run(maxLen, Start(n), es).Some?
    ensures var s := Run(maxLen, Start(n), es).value;
            s.q != [] && (forall p :: p in s.consumers ==> p == Asleep) ==> s.producer == Notifying
  {
    StartGood<T>(maxLen, n);
    RunGood(maxLen, Start(n), es);
  }

  // ---- The queue drains ----

  function Weight(p: Phase): nat {
    match p
    case Asleep => 0
    case Holding => 1
    case Woken => 2
    case Idle => 2
    case Notifying => 5
  }

  function Weights(ps: seq<Phase>): nat {
    if ps == [] then 0 else Weight(ps[0]) + Weights(ps[1..])
  }

  function Budget<T>(s: State<T>): nat {
    5 * |s.q| + Weight(s.producer) + Weights(s.consumers)
  }

  lemma {:induction false} WeightsUpdate(ps: seq<Phase>, i: nat, p: Phase)
    requires i < |ps|
    ensures Weights(ps[i := p]) == Weights(ps) - Weight(ps[i]) + Weight(p)
  {
    if i == 0 {
      assert ps[i := p][1..] == ps[1..];
    } else {
      assert ps[i := p][1..] == ps[1..][i - 1 := p];
      WeightsUpdate(ps[1..], i - 1, p);
    }
  }

  // Steps other than a push and an unprompted wake-up.
  predicate Ordinary<T>(e: Event<T>) {
    !e.Push? && !e.Spurious?
  }

  lemma StepSpends<T>(maxLen: nat, s: State<T>, e: Event<T>)
    requires Ordinary(e) && Step(maxLen, s, e).Some?
    ensures Budget(Step(maxLen, s, e).value) < Budget(s)
  {
    match e {
      case Enter(Consumer(i)) => WeightsUpdate(s.consumers, i, Holding);
      case Resume(Consumer(i)) => WeightsUpdate(s.consumers, i, Holding);
      case Wait(Consumer(i)) => WeightsUpdate(s.consumers, i, Asleep);
      case Pop(i) => WeightsUpdate(s.consumers, i, Notifying);
      case Notify(Consumer(i), Some(Consumer(j))) =>
        WeightsUpdate(s.consumers, i, Idle);
        WeightsUpdate(s.consumers[i := Idle], j, Woken);
      case Notify(Consumer(i), _) => WeightsUpdate(s.consumers, i, Idle);
      case Notify(_, Some(Consumer(j))) => WeightsUpdate(s.consumers, j, Woken);
      case _ =>
    }
  }

  lemma {:induction false} OrdinaryRunsAreShort<T>(maxLen: nat, s: State<T>, es: seq<Event<T>>)
    requires forall e :: e in es ==> Ordinary(e)
    requires Run(maxLen, s, es).Some?
    ensures |es| + Budget(Run(maxLen, s, es).value) <= Budget(s)
    decreases |es|
  {
    if es != [] {
      StepSpends(maxLen, s, es[0]);
      OrdinaryRunsAreShort(maxLen, Step(maxLen, s, es[0]).value, es[1..]);
    }
  }

  // An ordinary step of some thread that is not asleep, if the mutex is free.
  lemma SomeoneMoves<T>(maxLen: nat, s: State<T>) returns (e: Event<T>)
    requires Good(maxLen, s)
    requires s.q != []
    requires !(s.producer == Holding && |s.q| < maxLen)
    ensures Ordinary(e) && Step(maxLen, s, e).Some?
  {
    if s.producer == Holding {
      e := Wait(Producer);
    } else if Holding in s.consumers {
      var c :| 0 <= c < |s.consumers| && s.consumers[c] == Holding;
      e := Pop(c);
    } else {
      var t: Thread := Producer;
      if !AllAsleep(s) {
        var c :| 0 <= c < |s.consumers| && s.consumers[c] != Asleep;
        t := Consumer(c);
      }
      e := Moves(maxLen, s, t);
    }
  }

  lemma Moves<T>(maxLen: nat, s: State<T>, t: Thread) returns (e: Event<T>)
    requires Unlocked(s) && At(s, t).Some? && At(s, t) != Some(Asleep)
    ensures Ordinary(e) && Step(maxLen, s, e).Some?
  {
    assert t.Consumer? ==> s.consumers[t.index] in s.consumers;
    var p := At(s, t).value;
    assert p.Idle? || p.Woken? || p.Notifying?;
    if p == Idle {
      e := Enter(t);
    } else if p == Woken {
      e := Resume(t);
    } else if s.producer == Asleep {
      e := Notify(t, Some(Producer));
    } else if Asleep in s.consumers {
      var c :| 0 <= c < |s.consumers| && s.consumers[c] == Asleep;
      e := Notify(t, Some(Consumer(c)));
    } else {
      e := Notify(t, None);
    }
  }

  /**
   * Liveness without any fairness assumption: after any run, let the threads take
   * ordinary steps in any order at all.  They can take only boundedly many, and when
   * none is left the queue is empty, or the producer is about to push another item.
   */
  lemma QueueDrains<T>(maxLen: nat, n: nat, es: seq<Event<T>>, more: seq<Event<T>>)
    requires n > 0 && Run(maxLen, Start(n), es).Some?
    requires forall e :: e in more ==> Ordinary(e)
    requires Run(maxLen, Run(maxLen, Start(n), es).value, more).Some?
    ensures |more| <= Budget(Run(maxLen, Start(n), es).value)
    ensures var s := Run(maxLen, Run(maxLen, Start(n), es).value, more).value;
            (forall e :: Ordinary(e) ==> Step(maxLen, s, e).None?) ==>
              s.q == [] || (s.producer == Holding && |s.q| < maxLen)
  {
    StartGood<T>(maxLen, n);
    RunGood(maxLen, Start(n), es);
    var m := Run(maxLen, Start(n), es).value;
    OrdinaryRunsAreShort(maxLen, m, more);
    RunGood(maxLen, m, more);
    var s := Run(maxLen, m, more).value;
    if s.q != [] && !(s.producer == Holding && |s.q| < maxLen) {
      var e := SomeoneMoves(maxLen, s);
    }
  }

  // ---- The producer never sleeps in the repository's configuration ----

  lemma {:induction false} BelowLimitProducerAwake<T>(maxLen: nat, s: State<T>, es: seq<Event<T>>)
    requires s.producer != Asleep && s.producer != Woken
    requires Run(maxLen, s, es).Some?
    requires forall k :: 0 <= k <= |es| && Run(maxLen, s, es[..k]).Some? ==>
               |Run(maxLen, s, es[..k]).value.q| < maxLen
    ensures Run(maxLen, s, es).value.producer != Asleep
    decreases |es|
  {
    if es != [] {
      assert Run(maxLen, s, es[..0]) == Some(s);
      var s' := Step(maxLen, s, es[0]).value;
      forall k | 0 <= k <= |es[1..]| && Run(maxLen, s', es[1..][..k]).Some?
        ensures |Run(maxLen, s', es[1..][..k]).value.q| < maxLen
      {
        assert es[..k + 1][1..] == es[1..][..k];
        assert Run(maxLen, s, es[..k + 1]) == Run(maxLen, s', es[1..][..k]);
      }
      BelowLimitProducerAwake(maxLen, s', es[1..]);
    }
  }

  // ---- Exactly when everybody can fall asleep for good ----

  ghost predicate Stuck<T>(s: State<T>) {
    s.producer == Asleep && AllAsleep(s)
  }

  lemma {:induction false} RunConcat<T>(maxLen: nat, s: State<T>, a: seq<Event<T>>, b: seq<Event<T>>)
    requires Run(maxLen, s, a).Some?
    ensures Run(maxLen, s, a + b) == Run(maxLen, Run(maxLen, s, a).value, b)
    decreases |a|
  {
    if a == [] {
      assert a + b == b;
    } else {
      assert (a + b)[0] == a[0] && (a + b)[1..] == a[1..] + b;
      RunConcat(maxLen, Step(maxLen, s, a[0]).value, a[1..], b);
    }
  }

  // Phases of `n` consumers: `a` for those below `i`, `b` for those below `j`, then `c`.
  function Blocks(n: nat, i: nat, a: Phase, j: nat, b: Phase, c: Phase): (ps: seq<Phase>)
    ensures |ps| == n
    ensures forall k :: 0 <= k < n ==> ps[k] == if k < i then a else if k < j then b else c
  {
    seq(n, k => if k < i then a else if k < j then b else c)
  }

  lemma {:induction false} Fill<T>(maxLen: nat, n: nat, k: nat, x: T) returns (es: seq<Event<T>>, s: State<T>)
    requires k <= maxLen
    ensures Run(maxLen, Start(n), es) == Some(s)
    ensures s.producer == Idle && s.consumers == Blocks(n, 0, Idle, 0, Idle, Idle) && |s.q| == k
  {
    if k == 0 {
      es, s := [], Start(n);
    } else {
      var es0, s0 := Fill(maxLen, n, k - 1, x);
      var tail := [Enter(Producer), Push(x), Notify(Producer, None)];
      var s1 := s0.(producer := Holding);
      var s2 := s1.(producer := Notifying, q := s1.q + [x], pushed := s1.pushed + [x]);
      Three(maxLen, s0, tail, s1, s2, s2.(producer := Idle));
      RunConcat(maxLen, Start(n), es0, tail);
      es, s := es0 + tail, s2.(producer := Idle);
    }
  }

  lemma Three<T>(maxLen: nat, s0: State<T>, es: seq<Event<T>>, s1: State<T>, s2: State<T>, s3: State<T>)
    requires |es| == 3
    requires Step(maxLen, s0, es[0]) == Some(s1)
    requires Step(maxLen, s1, es[1]) == Some(s2)
    requires Step(maxLen, s2, es[2]) == Some(s3)
    ensures Run(maxLen, s0, es) == Some(s3)
  {
    Two(maxLen, s1, es[1..], s2, s3);
  }

  lemma Two<T>(maxLen: nat, s0: State<T>, es: seq<Event<T>>, s1: State<T>, s2: State<T>)
    requires |es| == 2
    requires Step(maxLen, s0, es[0]) == Some(s1)
    requires Step(maxLen, s1, es[1]) == Some(s2)
    ensures Run(maxLen, s0, es) == Some(s2)
  {
    assert es == [es[0], es[1]];
    assert es[1..][1..] == [];
    assert Run(maxLen, s2, es[1..][1..]) == Some(s2);
    assert Run(maxLen, s1, es[1..]) == Some(s2);
  }

  // The producer meets a full queue; then consumers 0, 1, .. each pop, notifications pending.
  lemma {:induction false} Empty<T>(maxLen: nat, n: nat, k: nat, x: T) returns (es: seq<Event<T>>, s: State<T>)
    requires k <= maxLen <= n
    ensures Run(maxLen, Start(n), es) == Some(s)
    ensures s.producer == Asleep && s.consumers == Blocks(n, k, Notifying, k, Idle, Idle) && |s.q| == maxLen - k
  {
    if k == 0 {
      var es0, s0 := Fill(maxLen, n, maxLen, x);
      var tail := [Enter(Producer), Wait(Producer)];
      Two(maxLen, s0, tail, s0.(producer := Holding), s0.(producer := Asleep));
      RunConcat(maxLen, Start(n), es0, tail);
      es, s := es0 + tail, s0.(producer := Asleep);
    } else {
      var es0, s0 := Empty(maxLen, n, k - 1, x);
      var c := Consumer(k - 1);
      var tail := [Enter(c), Pop(k - 1)];
      var s1 := Put(s0, c, Holding);
      var s2 := Step(maxLen, s1, Pop(k - 1)).value;
      Two(maxLen, s0, tail, s1, s2);
      RunConcat(maxLen, Start(n), es0, tail);
      assert s2.consumers == Blocks(n, k, Notifying, k, Idle, Idle);
      es, s := es0 + tail, s2;
    }
  }

  // The remaining consumers meet an empty queue.
  lemma {:induction false} Rest<T>(maxLen: nat, n: nat, k: nat, x: T) returns (es: seq<Event<T>>, s: State<T>)
    requires maxLen <= k <= n
    ensures Run(maxLen, Start(n), es) == Some(s)
    ensures s.producer == Asleep && s.consumers == Blocks(n, maxLen, Notifying, k, Asleep, Idle) && s.q == []
  {
    if k == maxLen {
      es, s := Empty(maxLen, n, maxLen, x);
    } else {
      var es0, s0 := Rest(maxLen, n, k - 1, x);
      var c := Consumer(k - 1);
      var tail := [Enter(c), Wait(c)];
      var s1 := Put(s0, c, Holding);
      var s2 := Put(s1, c, Asleep);
      Two(maxLen, s0, tail, s1, s2);
      RunConcat(maxLen, Start(n), es0, tail);
      assert s2.consumers == Blocks(n, maxLen, Notifying, k, Asleep, Idle);
      es, s := es0 + tail, s2;
    }
  }

  // Each pending notification goes to a consumer, which finds nothing and sleeps again.
  lemma {:induction false} Waste<T>(maxLen: nat, n: nat, k: nat, x: T) returns (es: seq<Event<T>>, s: State<T>)
    requires k <= maxLen < n
    ensures Run(maxLen, Start(n), es) == Some(s)
    ensures s.producer == Asleep && s.consumers == Blocks(n, k, Asleep, maxLen, Notifying, Asleep) && s.q == []
  {
    if k == 0 {
      es, s := Rest(maxLen, n, n, x);
    } else {
      var es0, s0 := Waste(maxLen, n, k - 1, x);
      var c, d := Consumer(k - 1), Consumer(maxLen);
      var first := [Notify(c, Some(d)), Resume(d), Wait(d)];
      var s1 := Put(Put(s0, c, Idle), d, Woken);
      var s2 := Put(s1, d, Holding);
      var s3 := Put(s2, d, Asleep);
      Three(maxLen, s0, first, s1, s2, s3);
      RunConcat(maxLen, Start(n), es0, first);
      var second := [Enter(c), Wait(c)];
      var s4 := Put(s3, c, Holding);
      var s5 := Put(s4, c, Asleep);
      Two(maxLen, s3, second, s4, s5);
      RunConcat(maxLen, Start(n), es0 + first, second);
      assert s5.consumers == Blocks(n, k, Asleep, maxLen, Notifying, Asleep);
      es, s := es0 + first + second, s5;
    }
  }

  /**
   * One condition variable shared by both sides is safe exactly up to `maxLen`
   * consumers: with more, some run puts every thread to sleep; with no more, none does.
   */
  lemma StuckIffMoreConsumersThanPlaces<T>(maxLen: nat, n: nat, x: T)
    requires n > 0
    ensures (exists es: seq<Event<T>> ::
               Run(maxLen, Start(n), es).Some? && Stuck(Run(maxLen, Start(n), es).value))
            <==> n > maxLen
  {
    if n > maxLen {
      var es, s := Waste(maxLen, n, maxLen, x);
    } else {
      forall es: seq<Event<T>> | Run(maxLen, Start(n), es).Some?
        ensures !Stuck(Run(maxLen, Start(n), es).value)
      {
        ProducerReachable(maxLen, n, es);
      }
    }
  }

  /**
   * The proxy's queue, built with -1: whenever there is room, a sleeping producer has a
   * notification on its way that can go to nobody else.
   */
  lemma UnlimitedQueueNeverStuck<T>(maxLen: nat, n: nat, es: seq<Event<T>>)
    requires maxLen == MaxLen(-1)
    requires 0 < n < 0x1_0000_0000
    requires Run(maxLen, Start(n), es).Some?
    ensures var s := Run(maxLen, Start(n), es).value;
            && !Stuck(s)
            && (s.producer == Asleep && |s.q| < maxLen ==>
                  Notifying in s.consumers && Asleep !in s.consumers)
  {
    ProducerReachable(maxLen, n, es);
  }

  lemma ProducerReachable<T>(maxLen: nat, n: nat, es: seq<Event<T>>)
    requires 0 < n <= maxLen
    requires Run(maxLen, Start(n), es).Some?
    ensures var s := Run(maxLen, Start(n), es).value;
            && !Stuck(s)
            && (s.producer == Asleep && |s.q| < maxLen ==>
                  Notifying in s.consumers && Asleep !in s.consumers)
  {
    StartGood<T>(maxLen, n);
    RunGood(maxLen, Start(n), es);
    var s := Run(maxLen, Start(n), es).value;
    CountBounds(s.consumers, Notifying, Asleep);
    assert s.consumers[0] in s.consumers;
  }
}
