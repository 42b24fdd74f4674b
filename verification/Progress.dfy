/** The replay chain gets done: steps other than a new connection are bounded in number, in
    any order, and when none is left every query has been sent. */
module Progress {
  import opened Bytes
  import opened Framing
  import opened Messages
  import opened Routing
  import opened Streams
  import opened Links
  import opened Timing
  import opened Nodes
  import opened Distribution
  import Postman
  import Manager
  import Client

  // ----- sums over the nodes --------------------------------------------------

  ghost function Total<K>(m: map<K, nat>): nat
  {
    if m == map[] then 0
    else
      var k :| k in m;
      m[k] + Total(m - {k})
  }

  lemma {:induction false} TotalTake<K>(m: map<K, nat>, k: K)
    requires k in m
    ensures Total(m) == m[k] + Total(m - {k})
    decreases |m|
  {
    var j :| j in m && Total(m) == m[j] + Total(m - {j});
    if j != k {
      TotalTake(m - {j}, k);
      TotalTake(m - {k}, j);
      assert (m - {j}) - {k} == (m - {k}) - {j};
    }
  }

  lemma TotalUpdate<K>(m: map<K, nat>, k: K, v: nat)
    requires k in m
    ensures Total(m[k := v]) == Total(m) - m[k] + v
  {
    TotalTake(m, k);
    TotalTake(m[k := v], k);
    assert m[k := v] - {k} == m - {k};
  }

  // ----- the budget -------------------------------------------------------------

  function Minus(a: nat, b: nat): nat { if a >= b then a - b else 0 }

  /** Bytes still to take, messages still to decode, timers still to expire. */
  ghost function WorkerBudget(net: Net, ms: seq<DNSMsg>, wk: WorkerNode): nat
  {
    Minus(|OnWire(net.codec, ms)|, |Taken(wk.got, wk.buf)|) + Minus(|ms|, |wk.got|) + |wk.st.pending|
  }

  ghost function WorkerBudgets(net: Net, home: seq<int>, f: int, conf: Manager.Conf, workers: map<int, WorkerNode>): map<int, nat>
    requires Sound(net) && Home(net, home) && Manager.Sound(conf)
  {
    map w | w in workers :: WorkerBudget(net, ToWorker(net, home, f, conf, w), workers[w])
  }

  ghost function ManagerBudget(net: Net, home: seq<int>, f: int, mg: ManagerNode): nat
    requires Sound(net) && Home(net, home)
  {
    if !Manager.Sound(mg.conf) then 0
    else
      Minus(|OnWire(net.codec, ToClient(net, home, f))|, |Taken(mg.got, mg.buf)|)
      + Total(WorkerBudgets(net, home, f, mg.conf, mg.workers))
  }

  ghost function ManagerBudgets(net: Net, home: seq<int>, managers: map<int, ManagerNode>): map<int, nat>
    requires Sound(net) && Home(net, home)
  {
    map f | f in managers :: ManagerBudget(net, home, f, managers[f])
  }

  ghost function Budget(net: Net, home: seq<int>, s: System): nat
    requires Sound(net) && Home(net, home)
  {
    Minus(|net.input|, s.pos)
    + Minus(|OnWire(net.codec, Trace(net))|, |Taken(s.postman.got, s.postman.buf)|)
    + Total(ManagerBudgets(net, home, s.managers))
  }

  // ----- every step spends --------------------------------------------------------

  lemma TakenGrows(got: seq<Payload>, buf: seq<byte>, chunk: seq<byte>)
    ensures var d := Drain(PREFIX, buf + chunk); Taken(got + d.payloads, d.rest) == Taken(got, buf) + chunk
  {
    DrainExtends(PREFIX, got, buf, chunk);
  }

  lemma TakenFits(got: seq<Payload>, buf: seq<byte>, wire: seq<byte>, codec: Codec, ms: seq<DNSMsg>)
    requires LinkOk(got, buf, wire, Serialised(codec, ms))
    ensures |Taken(got, buf)| <= |OnWire(codec, ms)| && |got| <= |ms|
  {
    CutIsPrefix(Serialised(codec, ms), wire);
  }

  lemma ManagerSpends(net: Net, home: seq<int>, s: System, s': System, f: int, mg: ManagerNode)
    requires Sound(net) && Home(net, home) && f in s.managers
    requires s' == s.(managers := s.managers[f := mg])
    requires ManagerBudget(net, home, f, mg) < ManagerBudget(net, home, f, s.managers[f])
    ensures Budget(net, home, s') < Budget(net, home, s)
  {
    hide ManagerBudget, OnWire, Taken;
    var before, after := ManagerBudgets(net, home, s.managers), ManagerBudgets(net, home, s'.managers);
    assert after == before[f := ManagerBudget(net, home, f, mg)];
    TotalUpdate(before, f, ManagerBudget(net, home, f, mg));
  }

  lemma WorkerSpends(net: Net, home: seq<int>, s: System, s': System, f: int, w: int, wk: WorkerNode)
    requires Sound(net) && Home(net, home) && WorkerMoves(s, s', f, w, wk) && Manager.Sound(s.managers[f].conf)
    requires var ms := ToWorker(net, home, f, s.managers[f].conf, w);
             WorkerBudget(net, ms, wk) < WorkerBudget(net, ms, s.managers[f].workers[w])
    ensures Budget(net, home, s') < Budget(net, home, s)
  {
    hide WorkerBudget, OnWire, Taken, PostmanOut, ManagerOut, Budget;
    var mg := s.managers[f];
    var mg' := mg.(workers := mg.workers[w := wk]);
    var ms := ToWorker(net, home, f, mg.conf, w);
    var before, after := WorkerBudgets(net, home, f, mg.conf, mg.workers), WorkerBudgets(net, home, f, mg.conf, mg'.workers);
    assert after == before[w := WorkerBudget(net, ms, wk)];
    TotalUpdate(before, w, WorkerBudget(net, ms, wk));
    ManagerSpends(net, home, s, s', f, mg');
  }

  lemma {:induction false} PendingBounded(conf: Client.Conf, st: Client.State, ms: seq<DNSMsg>)
    ensures |Fold(Client.Turn(conf), st, ms).pending| <= |st.pending| + |ms|
    decreases |ms|
  {
    if ms != [] {
      PendingBounded(conf, Client.OnMessage(conf, st, ms[0]), ms[1..]);
    }
  }

  lemma PostmanStepSpends(net: Net, home: seq<int>, s: System, s': System, chunk: seq<byte>)
    requires Sound(net) && Home(net, home) && Inv(net, home, s) && Inv(net, home, s') && PostmanReads(net, s, s', chunk)
    ensures Budget(net, home, s') < Budget(net, home, s)
  {
    hide PostmanAt, ManagersOk, ReaderOk, ManagerBudgets, Drain, Postman.DrainDo, Fold, OnWire, LinkOk, Total, Trace;
    var pm, pm' := s.postman, s'.postman;
    var full := Serialised(net.codec, Trace(net));
    PostmanTakes(net, s.readerWire, pm, chunk);
    TakenFits(pm'.got, pm'.buf, s.readerWire, net.codec, Trace(net));
  }

  lemma PostmanTakes(net: Net, up: seq<byte>, pm: PostmanNode, chunk: seq<byte>)
    requires Sound(net) && LinkOk(pm.got, pm.buf, up, Serialised(net.codec, Trace(net)))
    requires MayRead(pm.got, pm.buf, up, chunk)
    ensures var pm' := if |pm.buf + chunk| < PREFIX then pm.(buf := pm.buf + chunk, dead := true) else ReadByPostman(net, pm, chunk);
            Taken(pm'.got, pm'.buf) == Taken(pm.got, pm.buf) + chunk
  {
    hide Drain, Fold, LinkOk, Trace, Frames, MayRead, Postman.DrainDo;
    if |pm.buf + chunk| < PREFIX {
      ConcatAssociates(Frames(PREFIX, pm.got), pm.buf, chunk);
    } else {
      TraceFits(net);
      NoLoneEmptyFrame(pm.got, pm.buf, up, Serialised(net.codec, Trace(net)), chunk);
      Postman.DrainDoAgrees(pm.buf + chunk);
      TakenGrows(pm.got, pm.buf, chunk);
    }
  }

  lemma ManagerStepSpends(net: Net, home: seq<int>, s: System, s': System, f: int, chunk: seq<byte>)
    requires Sound(net) && Home(net, home) && Inv(net, home, s) && Inv(net, home, s') && ManagerReads(net, s, s', f, chunk)
    ensures Budget(net, home, s') < Budget(net, home, s)
  {
    hide PostmanAt, ReaderOk, Drain, Fold, OnWire, LinkOk, Total, WorkerBudgets, PostmanOut, ManagerAt, WorkersOk, Budget;
    var mg, mg' := s.managers[f], s'.managers[f];
    assert ManagerOk(net, home, f, s'.postman.st.wire[f], mg');
    TakenGrows(mg.got, mg.buf, chunk);
    TakenFits(mg'.got, mg'.buf, s'.postman.st.wire[f], net.codec, ToClient(net, home, f));
    ManagerSpends(net, home, s, s', f, mg');
  }

  lemma WorkerStepSpends(net: Net, home: seq<int>, s: System, s': System, f: int, w: int, chunk: seq<byte>)
    requires Sound(net) && Home(net, home) && Inv(net, home, s) && Inv(net, home, s') && WorkerReads(net, s, s', f, w, chunk)
    ensures Budget(net, home, s') < Budget(net, home, s)
  {
    hide PostmanAt, ReaderOk, Drain, Fold, OnWire, LinkOk, PostmanOut, ManagerOut, ManagerAt, WorkerAt, Budget;
    var mg, mg' := s.managers[f], s'.managers[f];
    var wk, wk' := mg.workers[w], mg'.workers[w];
    var ms := ToWorker(net, home, f, mg.conf, w);
    assert ManagerOk(net, home, f, s'.postman.st.wire[f], mg');
    assert WorkerOk(net, ms, mg'.st.wire[w], wk');
    TakenGrows(wk.got, wk.buf, chunk);
    TakenFits(wk'.got, wk'.buf, mg'.st.wire[w], net.codec, ms);
    PendingBounded(wk.conf, wk.st, Parsed(net.codec, Drain(PREFIX, wk.buf + chunk).payloads));
    WorkerSpends(net, home, s, s', f, w, wk');
  }

  lemma TimerStepSpends(net: Net, home: seq<int>, s: System, s': System, f: int, w: int, i: nat, now: TimeVal)
    requires Sound(net) && Home(net, home) && Inv(net, home, s) && TimerFires(s, s', f, w, i, now)
    ensures Budget(net, home, s') < Budget(net, home, s)
  {
    hide PostmanAt, ReaderOk, OnWire, LinkOk, PostmanOut, ManagerOut, ManagerAt, Budget, WorkersOk;
    var mg := s.managers[f];
    var wk := mg.workers[w];
    assert ManagerOk(net, home, f, s.postman.st.wire[f], mg);
    WorkerSpends(net, home, s, s', f, w, wk.(st := Client.OnFire(wk.st, i)));
  }

  lemma ReadStepSpends(net: Net, home: seq<int>, s: System, s': System)
    requires Sound(net) && Home(net, home) && ReadInput(net, s, s')
    ensures Budget(net, home, s') < Budget(net, home, s)
  {
  }

  lemma StepSpends(net: Net, home: seq<int>, s: System, a: Action, s': System)
    requires Sound(net) && Home(net, home) && Inv(net, home, s) && Inv(net, home, s')
    requires Next(net, s, a, s') && !a.DoAccept?
    ensures Budget(net, home, s') < Budget(net, home, s)
  {
    hide Inv, Budget, PostmanReads, ManagerReads, WorkerReads, TimerFires, ReadInput, Accept, Sound;
    match a
    case DoRead => ReadStepSpends(net, home, s, s');
    case DoPostman(chunk) => PostmanStepSpends(net, home, s, s', chunk);
    case DoManager(f, chunk) => ManagerStepSpends(net, home, s, s', f, chunk);
    case DoWorker(f, w, chunk) => WorkerStepSpends(net, home, s, s', f, w, chunk);
    case DoTimer(f, w, i, now) => TimerStepSpends(net, home, s, s', f, w, i, now);
  }

  // ----- something can always be done -----------------------------------------------

  /** A receiver that has not taken everything has at least the rest of a whole frame in
      flight, and room for one more byte. */
  lemma InFlight(got: seq<Payload>, buf: seq<byte>, wire: seq<byte>, full: seq<Payload>)
    requires LinkOk(got, buf, wire, full) && WellSized(full) && Taken(got, buf) != wire
    ensures |wire| > |Taken(got, buf)|
    ensures |buf| + (|wire| - |Taken(got, buf)|) > PREFIX
    ensures |buf| + 1 < Pow256(PREFIX) + PREFIX
  {
    hide Frame, Pow256, Complete;
    var k: nat :| IsCut(full, wire, k);
    var sent := full[..k];
    assert Sized(PREFIX, got) && Sized(PREFIX, sent) && NonEmpty(sent);
    FramesPrefixUnique(PREFIX, got, buf, sent);
    var next := sent[|got|..];
    assert sent == got + next;
    FramesConcat(PREFIX, got, next);
    IncompleteIsProperPrefix(PREFIX, buf, next);
    assert next == [] ==> Frames(PREFIX, next) == [];
    assert next != [];
    FirstFrame(next);
    assert next[0] == full[|got|];
  }

  lemma FirstFrame(next: seq<Payload>)
    requires next != []
    ensures |Frames(PREFIX, next)| >= |Frame(PREFIX, next[0])| == PREFIX + |next[0]|
  {
  }

  /** The next bytes in flight make a chunk that may be read. */
  function NextBytes(taken: seq<byte>, wire: seq<byte>, n: nat): seq<byte>
    requires taken <= wire && n <= |wire| - |taken|
  {
    wire[|taken|..|taken| + n]
  }

  lemma MayReadNext(got: seq<Payload>, buf: seq<byte>, wire: seq<byte>, n: nat)
    requires Taken(got, buf) <= wire && 0 < n <= |wire| - |Taken(got, buf)|
    requires |buf| + n < Pow256(PREFIX) + PREFIX
    ensures MayRead(got, buf, wire, NextBytes(Taken(got, buf), wire, n))
  {
    hide Taken, Pow256;
    var taken := Taken(got, buf);
    assert taken + wire[|taken|..|taken| + n] == wire[..|taken| + n];
  }

  lemma PostmanCanRead(net: Net, home: seq<int>, s: System) returns (a: Action, s': System)
    requires Sound(net) && Home(net, home) && Inv(net, home, s) && !s.postman.dead
    requires Taken(s.postman.got, s.postman.buf) != s.readerWire
    ensures !a.DoAccept? && Next(net, s, a, s')
  {
    hide PostmanAt, ManagersOk, ReaderOk, Taken, ReadByPostman;
    var pm := s.postman;
    TraceFits(net);
    InFlight(pm.got, pm.buf, s.readerWire, Serialised(net.codec, Trace(net)));
    Pow256Values();
    var n := if |pm.buf| >= 3 then 1 else PREFIX - |pm.buf|;
    MayReadNext(pm.got, pm.buf, s.readerWire, n);
    var chunk := NextBytes(Taken(pm.got, pm.buf), s.readerWire, n);
    assert |pm.buf + chunk| >= PREFIX;
    a := DoPostman(chunk);
    s' := s.(postman := ReadByPostman(net, pm, chunk));
    assert PostmanReads(net, s, s', chunk);
  }

  lemma ManagerCanRead(net: Net, home: seq<int>, s: System, f: int) returns (a: Action, s': System)
    requires Sound(net) && Home(net, home) && Inv(net, home, s) && f in s.managers && f in s.postman.st.wire
    requires Taken(s.managers[f].got, s.managers[f].buf) != s.postman.st.wire[f]
    ensures !a.DoAccept? && Next(net, s, a, s')
  {
    hide PostmanAt, ReaderOk, Taken, PostmanOut, WorkersOk, ManagerAt, ReadByManager;
    var mg, up := s.managers[f], s.postman.st.wire[f];
    assert ManagerOk(net, home, f, up, mg);
    ClientStreamFits(net, home, f);
    InFlight(mg.got, mg.buf, up, Serialised(net.codec, ToClient(net, home, f)));
    MayReadNext(mg.got, mg.buf, up, 1);
    var chunk := NextBytes(Taken(mg.got, mg.buf), up, 1);
    a := DoManager(f, chunk);
    s' := s.(managers := s.managers[f := ReadByManager(net, mg, chunk)]);
    assert ManagerReads(net, s, s', f, chunk);
  }

  lemma WorkerCanRead(net: Net, home: seq<int>, s: System, f: int, w: int) returns (a: Action, s': System)
    requires Sound(net) && Home(net, home) && Inv(net, home, s) && f in s.managers && w in s.managers[f].workers && w in s.managers[f].st.wire
    requires Taken(s.managers[f].workers[w].got, s.managers[f].workers[w].buf) != s.managers[f].st.wire[w]
    requires !s.managers[f].workers[w].st.aborted
    ensures !a.DoAccept? && Next(net, s, a, s')
  {
    hide PostmanAt, ReaderOk, Taken, PostmanOut, ManagerOut, ManagerAt, WorkerAt, ReadByWorker;
    var mg, up := s.managers[f], s.managers[f].st.wire[w];
    var wk, ms := mg.workers[w], ToWorker(net, home, f, mg.conf, w);
    assert ManagerOk(net, home, f, s.postman.st.wire[f], mg);
    assert WorkerOk(net, ms, up, wk);
    WorkerStreamFits(net, home, f, mg.conf, w);
    InFlight(wk.got, wk.buf, up, Serialised(net.codec, ms));
    MayReadNext(wk.got, wk.buf, up, 1);
    var chunk := NextBytes(Taken(wk.got, wk.buf), up, 1);
    a := DoWorker(f, w, chunk);
    s' := s.(managers := s.managers[f := mg.(workers := mg.workers[w := ReadByWorker(net, wk, chunk)])]);
    assert WorkerReads(net, s, s', f, w, chunk);
  }

  lemma TimerCanFire(net: Net, home: seq<int>, s: System, f: int, w: int) returns (a: Action, s': System)
    requires Sound(net) && Home(net, home) && Inv(net, home, s) && f in s.managers && w in s.managers[f].workers
    requires s.managers[f].workers[w].st.pending != [] && !s.managers[f].workers[w].st.aborted
    ensures !a.DoAccept? && Next(net, s, a, s')
  {
    hide PostmanAt, ReaderOk, PostmanOut, ManagerOut, ManagerAt, LinkOk, Client.TimersOnTarget, Client.Queries;
    var mg := s.managers[f];
    var wk := mg.workers[w];
    assert ManagerOk(net, home, f, s.postman.st.wire[f], mg);
    assert WorkerOk(net, ToWorker(net, home, f, mg.conf, w), mg.st.wire[w], wk);
    var t := wk.st.pending[0];
    var now := TimeVal(0, Micros(t.armedAt) + Micros(t.delay));
    a := DoTimer(f, w, 0, now);
    var wk' := wk.(st := Client.OnFire(wk.st, 0));
    s' := s.(managers := s.managers[f := mg.(workers := mg.workers[w := wk'])]);
    assert TimerFires(s, s', f, w, 0, now);
  }

  // ----- the chain gets done ------------------------------------------------------------

  ghost predicate AllFired(s: System)
  {
    forall f, w | f in s.managers && w in s.managers[f].workers :: s.managers[f].workers[w].st.pending == []
  }

  /** No process can do anything; only new clients could still connect. */
  ghost predicate Finished(net: Net, s: System)
  {
    forall a, s' :: Next(net, s, a, s') ==> a.DoAccept?
  }

  /** No worker gives up: the trace does not start at 0.0. */
  predicate Startable(net: Net) { Trace(net) == [] || IsSet(Client.Stamp(Trace(net)[0])) }

  lemma NobodyAborts(net: Net, states: seq<System>, actions: seq<Action>, k: nat, f: int, w: int)
    requires Sound(net) && Run(net, states, actions) && k < |states| && Startable(net)
    requires f in states[k].managers && w in states[k].managers[f].workers
    ensures !states[k].managers[f].workers[w].st.aborted
  {
    hide Run, Trace, Sound;
    EveryRunDelivers(net, states, actions, k, f, w);
  }

  /** With all awaited clients connected, the chain has a step to take until it is quiet and
      every timer has fired. */
  lemma FinishedMeansQuiet(net: Net, states: seq<System>, actions: seq<Action>, k: nat)
    requires Sound(net) && Run(net, states, actions) && k < |states| && Startable(net)
    requires |states[k].postman.st.fds| >= net.numClients && !states[k].postman.dead
    requires Finished(net, states[k])
    ensures Quiet(net, states[k]) && AllFired(states[k])
  {
    hide Run, Next, Trace, Taken, Inv, Sound, Startable;
    var s, home := states[k], HomeOf(net, states[|states| - 1]);
    EveryRunInv(net, states, actions, k);
    if s.pos != |net.input| {
      var a, s' := ReaderCanRead(net, home, s);
      assert false;
    }
    if Taken(s.postman.got, s.postman.buf) != s.readerWire {
      var a, s' := PostmanCanRead(net, home, s);
      assert false;
    }
    forall f | f in s.managers && f in s.postman.st.wire ensures ClientQuiet(s.postman.st.wire[f], s.managers[f]) {
      if Taken(s.managers[f].got, s.managers[f].buf) != s.postman.st.wire[f] {
        var a, s' := ManagerCanRead(net, home, s, f);
        assert false;
      }
      var mg := s.managers[f];
      forall w | w in mg.workers && w in mg.st.wire ensures Taken(mg.workers[w].got, mg.workers[w].buf) == mg.st.wire[w] {
        if Taken(mg.workers[w].got, mg.workers[w].buf) != mg.st.wire[w] {
          NobodyAborts(net, states, actions, k, f, w);
          var a, s' := WorkerCanRead(net, home, s, f, w);
          assert false;
        }
      }
    }
    forall f, w | f in s.managers && w in s.managers[f].workers ensures s.managers[f].workers[w].st.pending == [] {
      if s.managers[f].workers[w].st.pending != [] {
        NobodyAborts(net, states, actions, k, f, w);
        var a, s' := TimerCanFire(net, home, s, f, w);
        assert false;
      }
    }
  }

  lemma ReaderCanRead(net: Net, home: seq<int>, s: System) returns (a: Action, s': System)
    requires Sound(net) && Home(net, home) && Inv(net, home, s) && |s.postman.st.fds| >= net.numClients && s.pos != |net.input|
    ensures !a.DoAccept? && Next(net, s, a, s')
  {
    hide PostmanAt, ManagersOk, LinkOk;
    var m := net.input[s.pos];
    a := DoRead;
    s' := s.(pos := s.pos + 1,
             readerWire := if Usable(m) then s.readerWire + Frame(PREFIX, net.codec.ser(m)) else s.readerWire);
    assert ReadInput(net, s, s');
  }

  /** After any run, let the processes take steps in any order at all, with any chunks: they can
      take only boundedly many before a new client has to connect. */
  lemma {:induction false} RunsAreBounded(net: Net, states: seq<System>, actions: seq<Action>, k: nat, l: nat)
    requires Sound(net) && Run(net, states, actions) && k <= l < |states|
    requires forall j | k <= j < l :: !actions[j].DoAccept?
    ensures var home := HomeOf(net, states[|states| - 1]);
            l - k + Budget(net, home, states[l]) <= Budget(net, home, states[k])
    decreases l
  {
    hide Next, Budget, Inv, Sound, Init;
    if k < l {
      var home := HomeOf(net, states[|states| - 1]);
      RunsAreBounded(net, states, actions, k, l - 1);
      assert Next(net, states[l - 1], actions[l - 1], states[l]);
      EveryRunInv(net, states, actions, l - 1);
      EveryRunInv(net, states, actions, l);
      StepSpends(net, home, states[l - 1], actions[l - 1], states[l]);
    }
  }

  /** And when no step is left, every worker of an awaited client has passed exactly its share
      of the trace to `send_query`. */
  lemma FinishedMeansSent(net: Net, states: seq<System>, actions: seq<Action>, k: nat, f: int, w: int)
    requires Sound(net) && Run(net, states, actions) && k < |states|
    requires Trace(net) != [] && IsSet(Client.Stamp(Trace(net)[0]))
    requires |states[k].postman.st.fds| >= net.numClients && !states[k].postman.dead
    requires Finished(net, states[k])
    requires f in states[k].managers && w in states[k].managers[f].workers
    requires f in HomeOf(net, states[|states| - 1])
    ensures var mg := states[k].managers[f];
            && Manager.Sound(mg.conf)
            && multiset(mg.workers[w].st.passed)
               == multiset(Share(PolicyOf(net, HomeOf(net, states[|states| - 1])), mg.conf, f, w, Trace(net)))
  {
    hide Run, Next, Trace, Quiet, Sound, Finished, Share;
    FinishedMeansQuiet(net, states, actions, k);
    QuietMeansSent(net, states, actions, k, f, w);
  }
}
