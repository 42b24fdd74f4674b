/** The whole replay chain as a step system: Reader, Postman, any number of
    Managers and their workers, joined by FIFO byte connections. Chunks arrive in
    any sizes, processes run in any order, clients connect at any time; no client
    disconnects. */
module Distribution {
  import opened Bytes
  import opened Framing
  import opened Messages
  import opened Routing
  import opened Streams
  import opened Links
  import opened Timing
  import opened Nodes
  import Postman
  import Manager
  import Client

  /** `dead`: the process has crashed on a buffer of fewer than four bytes. */
  datatype PostmanNode = PostmanNode(buf: seq<byte>, got: seq<Payload>, st: Postman.State, dead: bool)
  datatype WorkerNode = WorkerNode(conf: Client.Conf, buf: seq<byte>, got: seq<Payload>, st: Client.State)
  datatype ManagerNode = ManagerNode(conf: Manager.Conf, buf: seq<byte>, got: seq<Payload>, st: Manager.State,
                                     workers: map<int, WorkerNode>)

  /** `pos` counts the input messages the Reader has read, `gate` is the Postman's
      flag that lets it start. */
  datatype System = System(pos: nat, readerWire: seq<byte>, gate: bool,
                           postman: PostmanNode, managers: map<int, ManagerNode>)

  ghost predicate Init(s: System)
  {
    s == System(0, [], false, PostmanNode([], [], Postman.INITIAL, false), map[])
  }

  // ----- steps -------------------------------------------------------------

  ghost function NewManager(conf: Manager.Conf, workers: map<int, Client.Conf>): ManagerNode
  {
    ManagerNode(conf, [], [], Manager.Initial(conf),
                map w | w in workers :: WorkerNode(workers[w], [], [], Client.INITIAL))
  }

  /** A replay client connects on a new descriptor `f`. */
  ghost predicate Accept(net: Net, s: System, s': System, f: int, conf: Manager.Conf, workers: map<int, Client.Conf>)
  {
    && f >= 0 && f !in s.postman.st.live && !s.postman.dead
    && Manager.Sound(conf) && workers.Keys == (set w | w in conf.home)
    && s' == s.(gate := s.gate || |s.postman.st.live| + 1 == net.numClients,
                postman := s.postman.(st := Postman.Joined(s.postman.st, f)),
                managers := s.managers[f := NewManager(conf, workers)])
  }

  ghost predicate ReadInput(net: Net, s: System, s': System)
  {
    && s.gate && s.pos < |net.input|
    && var m := net.input[s.pos];
       s' == s.(pos := s.pos + 1,
                readerWire := if Usable(m) then s.readerWire + Frame(PREFIX, net.codec.ser(m)) else s.readerWire)
  }

  /** `skt_read_cb`. Its first turn is unguarded: with fewer than four bytes buffered the
      process dies. */
  ghost predicate PostmanReads(net: Net, s: System, s': System, chunk: seq<byte>)
  {
    var pm := s.postman;
    && !pm.dead
    && MayRead(pm.got, pm.buf, s.readerWire, chunk)
    && s' == s.(postman := if |pm.buf + chunk| < PREFIX then pm.(buf := pm.buf + chunk, dead := true)
                           else ReadByPostman(net, pm, chunk))
  }

  ghost function ReadByPostman(net: Net, pm: PostmanNode, chunk: seq<byte>): PostmanNode
    requires |pm.buf + chunk| >= PREFIX
  {
    var d := Postman.DrainDo(pm.buf + chunk);
    pm.(buf := d.rest, got := pm.got + d.payloads,
        st := Fold(Postman.Turn(net.codec, net.pick), pm.st, Parsed(net.codec, d.payloads)))
  }

  ghost predicate ManagerReads(net: Net, s: System, s': System, f: int, chunk: seq<byte>)
  {
    && f in s.managers && f in s.postman.st.wire
    && var mg := s.managers[f];
       && Manager.Sound(mg.conf)
       && MayRead(mg.got, mg.buf, s.postman.st.wire[f], chunk)
       && s' == s.(managers := s.managers[f := ReadByManager(net, mg, chunk)])
  }

  ghost function ReadByManager(net: Net, mg: ManagerNode, chunk: seq<byte>): ManagerNode
    requires Manager.Sound(mg.conf)
  {
    var d := Drain(PREFIX, mg.buf + chunk);
    mg.(buf := d.rest, got := mg.got + d.payloads,
        st := Fold(Manager.Turn(net.codec, mg.conf), mg.st, d.payloads))
  }

  /** A step of one worker of client `f`. */
  ghost predicate WorkerMoves(s: System, s': System, f: int, w: int, wk: WorkerNode)
  {
    && f in s.managers && w in s.managers[f].workers
    && s' == s.(managers := s.managers[f := s.managers[f].(workers := s.managers[f].workers[w := wk])])
  }

  ghost predicate WorkerReads(net: Net, s: System, s': System, f: int, w: int, chunk: seq<byte>)
  {
    && f in s.managers && w in s.managers[f].workers && w in s.managers[f].st.wire
    && var wk := s.managers[f].workers[w];
       && !wk.st.aborted
       && MayRead(wk.got, wk.buf, s.managers[f].st.wire[w], chunk)
       && WorkerMoves(s, s', f, w, ReadByWorker(net, wk, chunk))
  }

  ghost function ReadByWorker(net: Net, wk: WorkerNode, chunk: seq<byte>): WorkerNode
  {
    var d := Drain(PREFIX, wk.buf + chunk);
    wk.(buf := d.rest, got := wk.got + d.payloads,
        st := Fold(Client.Turn(wk.conf), wk.st, Parsed(net.codec, d.payloads)))
  }

  ghost predicate TimerFires(s: System, s': System, f: int, w: int, i: nat, now: TimeVal)
  {
    && f in s.managers && w in s.managers[f].workers
    && var wk := s.managers[f].workers[w];
       && !wk.st.aborted && i < |wk.st.pending| && wk.st.numPending > 0 && Client.Expired(wk.st.pending[i], now)
       && WorkerMoves(s, s', f, w, wk.(st := Client.OnFire(wk.st, i)))
  }

  datatype Action =
    | DoAccept(f: int, conf: Manager.Conf, workers: map<int, Client.Conf>)
    | DoRead
    | DoPostman(chunk: seq<byte>)
    | DoManager(f: int, chunk: seq<byte>)
    | DoWorker(f: int, w: int, chunk: seq<byte>)
    | DoTimer(f: int, w: int, i: nat, now: TimeVal)

  ghost predicate Next(net: Net, s: System, a: Action, s': System)
  {
    match a
    case DoAccept(f, conf, workers) => Accept(net, s, s', f, conf, workers)
    case DoRead => ReadInput(net, s, s')
    case DoPostman(chunk) => PostmanReads(net, s, s', chunk)
    case DoManager(f, chunk) => ManagerReads(net, s, s', f, chunk)
    case DoWorker(f, w, chunk) => WorkerReads(net, s, s', f, w, chunk)
    case DoTimer(f, w, i, now) => TimerFires(s, s', f, w, i, now)
  }

  ghost predicate Run(net: Net, states: seq<System>, actions: seq<Action>)
  {
    && |states| == |actions| + 1
    && Init(states[0])
    && forall k | 0 <= k < |actions| :: Next(net, states[k], actions[k], states[k + 1])
  }

  // ----- the invariant -----------------------------------------------------

  ghost predicate WorkerOk(net: Net, ms: seq<DNSMsg>, up: seq<byte>, wk: WorkerNode)
  {
    && LinkOk(wk.got, wk.buf, up, Serialised(net.codec, ms))
    && WorkerAt(wk.conf, ms, wk.st, |wk.got|)
  }

  ghost predicate ManagerOk(net: Net, home: seq<int>, f: int, up: seq<byte>, mg: ManagerNode)
    requires Sound(net) && Home(net, home)
  {
    && Manager.Sound(mg.conf)
    && LinkOk(mg.got, mg.buf, up, Serialised(net.codec, ToClient(net, home, f)))
    && ManagerAt(net.codec, mg.conf, ToClient(net, home, f), mg.st, |mg.got|)
    && WorkersOk(net, home, f, mg.conf, mg.st.wire, mg.workers)
  }

  ghost predicate WorkersOk(net: Net, home: seq<int>, f: int, conf: Manager.Conf,
                            wires: map<int, seq<byte>>, workers: map<int, WorkerNode>)
    requires Sound(net) && Home(net, home) && Manager.Sound(conf)
  {
    && workers.Keys == wires.Keys
    && forall w | w in workers :: WorkerOk(net, ToWorker(net, home, f, conf, w), wires[w], workers[w])
  }

  ghost predicate ManagersOk(net: Net, home: seq<int>, wires: map<int, seq<byte>>, managers: map<int, ManagerNode>)
    requires Sound(net) && Home(net, home)
  {
    && managers.Keys == wires.Keys
    && forall f | f in managers :: ManagerOk(net, home, f, wires[f], managers[f])
  }

  lemma WorkersUpdate(net: Net, home: seq<int>, f: int, conf: Manager.Conf, wires: map<int, seq<byte>>,
                      workers: map<int, WorkerNode>, w: int, wk: WorkerNode)
    requires Sound(net) && Home(net, home) && Manager.Sound(conf)
    requires WorkersOk(net, home, f, conf, wires, workers) && w in workers
    requires WorkerOk(net, ToWorker(net, home, f, conf, w), wires[w], wk)
    ensures WorkersOk(net, home, f, conf, wires, workers[w := wk])
  {
  }

  lemma ManagersUpdate(net: Net, home: seq<int>, wires: map<int, seq<byte>>, managers: map<int, ManagerNode>,
                       f: int, up: seq<byte>, mg: ManagerNode)
    requires Sound(net) && Home(net, home)
    requires ManagersOk(net, home, wires, managers)
    requires ManagerOk(net, home, f, up, mg)
    ensures ManagersOk(net, home, wires[f := up], managers[f := mg])
  {
  }

  lemma ManagersReplace(net: Net, home: seq<int>, wires: map<int, seq<byte>>, managers: map<int, ManagerNode>,
                        f: int, mg: ManagerNode)
    requires Sound(net) && Home(net, home)
    requires ManagersOk(net, home, wires, managers) && f in managers
    requires ManagerOk(net, home, f, wires[f], mg)
    ensures ManagersOk(net, home, wires, managers[f := mg])
  {
  }

  ghost predicate ReaderOk(net: Net, s: System)
  {
    && s.pos <= |net.input|
    && s.readerWire == OnWire(net.codec, UsableOf(net.input[..s.pos]))
    && (s.gate <==> |s.postman.st.fds| >= net.numClients)
    && (!s.gate ==> s.pos == 0)
  }

  /** `home` are the first `numClients` connections, the ones that will be sent
      queries. */
  ghost predicate Inv(net: Net, home: seq<int>, s: System)
    requires Sound(net)
  {
    && ReaderOk(net, s)
    && LinkOk(s.postman.got, s.postman.buf, s.readerWire, Serialised(net.codec, Trace(net)))
    && PostmanAt(net, home, s.postman.st, |s.postman.got|)
    && ManagersOk(net, home, s.postman.st.wire, s.managers)
  }

  lemma InitInv(net: Net, home: seq<int>, s: System)
    requires Sound(net) && Home(net, home) && Init(s)
    ensures Inv(net, home, s)
  {
    LinkFresh(Serialised(net.codec, Trace(net)));
    assert net.input[..0] == [];
    assert Sources(Trace(net)[..0]) == [];
  }

  lemma DistinctCount(fds: seq<int>)
    requires forall i, j | 0 <= i < j < |fds| :: fds[i] != fds[j]
    ensures |set f | f in fds| == |fds|
  {
    if fds != [] {
      var n := |fds| - 1;
      DistinctCount(fds[..n]);
      assert (set f | f in fds) == (set f | f in fds[..n]) + {fds[n]};
    }
  }

  lemma AcceptKeeps(net: Net, home: seq<int>, s: System, s': System, f: int, conf: Manager.Conf, workers: map<int, Client.Conf>)
    requires Sound(net) && Inv(net, home, s) && Accept(net, s, s', f, conf, workers)
    requires Roster(net, home, s'.postman.st.fds)
    ensures Inv(net, home, s')
  {
    DistinctCount(s.postman.st.fds);
    JoinKeeps(net, home, s.postman.st, f, |s.postman.got|);
    FreshManagerOk(net, home, f, conf, workers);
    ManagersUpdate(net, home, s.postman.st.wire, s.managers, f, [], NewManager(conf, workers));
  }

  lemma JoinKeeps(net: Net, home: seq<int>, st: Postman.State, f: int, g: nat)
    requires Sound(net) && PostmanAt(net, home, st, g) && f !in st.live
    requires Roster(net, home, st.fds + [f])
    ensures PostmanAt(net, home, Postman.Joined(st, f), g)
  {
    var st' := Postman.Joined(st, f);
    forall e | e in st'.fds ensures ClientWire(net, home, st'.wire[e], e, g) {
      if e == f {
        if g > 0 {
          assert home <= st.fds;
          assert f !in home;
        } else {
          assert Trace(net)[..0] == [];
        }
      } else {
        assert ClientWire(net, home, st.wire[e], e, g);
      }
    }
  }

  lemma FreshManagerOk(net: Net, home: seq<int>, f: int, conf: Manager.Conf, workers: map<int, Client.Conf>)
    requires Sound(net) && Home(net, home) && Manager.Sound(conf) && workers.Keys == (set w | w in conf.home)
    ensures ManagerOk(net, home, f, [], NewManager(conf, workers))
  {
    var mg := NewManager(conf, workers);
    LinkFresh(Serialised(net.codec, ToClient(net, home, f)));
    ManagerStarts(net.codec, conf, ToClient(net, home, f), mg.st);
    FreshWorkersOk(net, home, f, mg, workers);
  }

  lemma FreshWorkersOk(net: Net, home: seq<int>, f: int, mg: ManagerNode, workers: map<int, Client.Conf>)
    requires Sound(net) && Home(net, home) && Manager.Sound(mg.conf)
    requires workers.Keys == (set w | w in mg.conf.home) && mg == NewManager(mg.conf, workers)
    ensures WorkersOk(net, home, f, mg.conf, mg.st.wire, mg.workers)
  {
    hide PostmanOut, ManagerOut, WorkerOk;
    forall w | w in mg.workers
      ensures WorkerOk(net, ToWorker(net, home, f, mg.conf, w), mg.st.wire[w], mg.workers[w])
    {
      FreshWorkerOk(net, ToWorker(net, home, f, mg.conf, w), mg.workers[w]);
    }
  }

  lemma FreshWorkerOk(net: Net, ms: seq<DNSMsg>, wk: WorkerNode)
    requires wk.buf == [] && wk.got == [] && wk.st == Client.INITIAL
    ensures WorkerOk(net, ms, [], wk)
  {
    hide WorkerAt, LinkOk;
    LinkFresh(Serialised(net.codec, ms));
    WorkerStarts(wk.conf, ms, wk.st);
  }

  lemma ReadInputKeeps(net: Net, home: seq<int>, s: System, s': System)
    requires Sound(net) && Inv(net, home, s) && ReadInput(net, s, s')
    ensures Inv(net, home, s')
  {
    ReadInputExtends(net, s.pos);
    LinkGrows(s.postman.got, s.postman.buf, s.readerWire, s'.readerWire, Serialised(net.codec, Trace(net)));
  }

  lemma ReadInputExtends(net: Net, pos: nat)
    requires pos < |net.input|
    ensures var m, before := net.input[pos], OnWire(net.codec, UsableOf(net.input[..pos]));
            var after := OnWire(net.codec, UsableOf(net.input[..pos + 1]));
            && after == (if Usable(m) then before + Frame(PREFIX, net.codec.ser(m)) else before)
            && Cut(Serialised(net.codec, Trace(net)), after)
  {
    var m, before := net.input[pos], UsableOf(net.input[..pos]);
    var upTo := net.input[..pos + 1];
    assert upTo[..pos] == net.input[..pos] && upTo[pos] == m;
    OnWireSnoc(net.codec, before, m);
    assert before + [] == before;
    UsableOfGrows(net.input, pos + 1);
    OnWireCut(net.codec, UsableOf(upTo), Trace(net));
  }

  /** The messages behind newly decoded payloads. */
  lemma NewlyDecoded(codec: Codec, ms: seq<DNSMsg>, got: seq<Payload>, more: seq<Payload>)
    requires Faithful(codec) && got + more <= Serialised(codec, ms)
    ensures var j, j' := |got|, |got| + |more|;
            && more == Serialised(codec, ms[j..j'])
            && Parsed(codec, more) == ms[j..j']
  {
    var full := Serialised(codec, ms);
    var j := |got|;
    forall i | 0 <= i < |more| ensures more[i] == codec.ser(ms[j + i]) {
      assert more[i] == (got + more)[j + i] == full[j + i];
    }
  }

  lemma PostmanReadsKeeps(net: Net, home: seq<int>, s: System, s': System, chunk: seq<byte>)
    requires Sound(net) && Inv(net, home, s) && PostmanReads(net, s, s', chunk)
    ensures Inv(net, home, s')
  {
    if |s.postman.buf + chunk| < PREFIX {
      TooLittleKeepsLink(s.postman, s.readerWire, Serialised(net.codec, Trace(net)), chunk) by { TraceFits(net); }
    } else {
      NothingBeforeGate(net, s);
      ReadByPostmanAt(net, home, s.readerWire, s.postman, chunk);
      ManagersFollow(net, home, s.postman.st.wire, s'.postman.st, s.managers, |s'.postman.got|);
    }
  }

  lemma TooLittleKeepsLink(pm: PostmanNode, up: seq<byte>, full: seq<Payload>, chunk: seq<byte>)
    requires WellSized(full) && LinkOk(pm.got, pm.buf, up, full) && MayRead(pm.got, pm.buf, up, chunk)
    requires |pm.buf + chunk| < PREFIX
    ensures LinkOk(pm.got, pm.buf + chunk, up, full)
  {
    hide LinkOk, MayRead;
    LinkRead(pm.got, pm.buf, up, full, chunk);
    assert pm.got + [] == pm.got;
  }

  lemma ReadByPostmanAt(net: Net, home: seq<int>, up: seq<byte>, pm: PostmanNode, chunk: seq<byte>)
    requires Sound(net) && PostmanAt(net, home, pm.st, |pm.got|) && home <= pm.st.fds
    requires LinkOk(pm.got, pm.buf, up, Serialised(net.codec, Trace(net)))
    requires MayRead(pm.got, pm.buf, up, chunk) && |pm.buf + chunk| >= PREFIX
    ensures var pm' := ReadByPostman(net, pm, chunk);
            && PostmanAt(net, home, pm'.st, |pm'.got|) && pm'.st.fds == pm.st.fds
            && LinkOk(pm'.got, pm'.buf, up, Serialised(net.codec, Trace(net)))
            && Extends(pm.st.wire, pm'.st.wire)
  {
    hide Drain, Postman.DrainDo, Fold, PostmanAt, Extends, Taken, MayRead;
    var full := Serialised(net.codec, Trace(net));
    TraceFits(net);
    NoLoneEmptyFrame(pm.got, pm.buf, up, full, chunk);
    Postman.DrainDoAgrees(pm.buf + chunk);
    LinkRead(pm.got, pm.buf, up, full, chunk);
    var more := Drain(PREFIX, pm.buf + chunk).payloads;
    NewlyDecoded(net.codec, Trace(net), pm.got, more);
    PostmanFolds(net, home, pm.st, |pm.got|, |pm.got| + |more|);
    PostmanAppends(net.codec, net.pick, pm.st, Parsed(net.codec, more));
  }

  /** More written on the clients' connections does not disturb the Managers. */
  lemma ManagersFollow(net: Net, home: seq<int>, wires: map<int, seq<byte>>, st: Postman.State,
                       managers: map<int, ManagerNode>, g: nat)
    requires Sound(net) && PostmanAt(net, home, st, g) && ManagersOk(net, home, wires, managers)
    requires Extends(wires, st.wire) && st.wire.Keys == wires.Keys
    ensures ManagersOk(net, home, st.wire, managers)
  {
    forall f | f in managers ensures ManagerOk(net, home, f, st.wire[f], managers[f]) {
      ClientWireCut(net, home, st.wire[f], f, g);
      var mg := managers[f];
      LinkGrows(mg.got, mg.buf, wires[f], st.wire[f], Serialised(net.codec, ToClient(net, home, f)));
    }
  }

  /** Bytes in flight mean that the gate is open, so all of `home` is connected. */
  lemma NothingBeforeGate(net: Net, s: System)
    requires ReaderOk(net, s) && s.readerWire != []
    ensures |s.postman.st.fds| >= net.numClients
  {
    assert net.input[..0] == [];
    assert OnWire(net.codec, UsableOf([])) == [];
  }

  lemma ClientWireCut(net: Net, home: seq<int>, wire: seq<byte>, f: int, g: nat)
    requires Sound(net) && Home(net, home) && g <= |Trace(net)| && ClientWire(net, home, wire, f, g)
    ensures Cut(Serialised(net.codec, ToClient(net, home, f)), wire)
  {
    var all := ToClient(net, home, f);
    PostmanOutGrows(PolicyOf(net, home), f, Trace(net), g);
    OnWireCut(net.codec, PostmanOut(PolicyOf(net, home), f, Trace(net)[..g]), all);
    OnWireCut(net.codec, [], all);
  }

  lemma ManagerReadsKeeps(net: Net, home: seq<int>, s: System, s': System, f: int, chunk: seq<byte>)
    requires Sound(net) && Inv(net, home, s) && ManagerReads(net, s, s', f, chunk)
    ensures Inv(net, home, s')
  {
    var mg, up := s.managers[f], s.postman.st.wire[f];
    ReadByManagerOk(net, home, f, up, mg, chunk);
    ManagersReplace(net, home, s.postman.st.wire, s.managers, f, ReadByManager(net, mg, chunk));
  }

  lemma ReadByManagerOk(net: Net, home: seq<int>, f: int, up: seq<byte>, mg: ManagerNode, chunk: seq<byte>)
    requires Sound(net) && Home(net, home) && ManagerOk(net, home, f, up, mg) && MayRead(mg.got, mg.buf, up, chunk)
    ensures ManagerOk(net, home, f, up, ReadByManager(net, mg, chunk))
  {
    var mg' := ReadByManager(net, mg, chunk);
    ClientStreamFits(net, home, f);
    PostmanOutSyncFirst(PolicyOf(net, home), f, Trace(net));
    ReadByManagerAt(net, ToClient(net, home, f), up, mg, chunk);
    WorkersFollow(net, home, f, mg.conf, mg.st.wire, mg'.st.wire, mg.workers, |mg'.got|);
  }

  lemma ReadByManagerAt(net: Net, ms: seq<DNSMsg>, up: seq<byte>, mg: ManagerNode, chunk: seq<byte>)
    requires Faithful(net.codec) && Manager.Sound(mg.conf) && SyncFirst(ms) && WellSized(Serialised(net.codec, ms))
    requires MayRead(mg.got, mg.buf, up, chunk) && LinkOk(mg.got, mg.buf, up, Serialised(net.codec, ms))
    requires ManagerAt(net.codec, mg.conf, ms, mg.st, |mg.got|)
    ensures var mg' := ReadByManager(net, mg, chunk);
            && LinkOk(mg'.got, mg'.buf, up, Serialised(net.codec, ms))
            && ManagerAt(net.codec, mg.conf, ms, mg'.st, |mg'.got|)
            && Extends(mg.st.wire, mg'.st.wire)
  {
    hide Drain, Fold, ManagerAt, Extends, Taken, MayRead;
    LinkRead(mg.got, mg.buf, up, Serialised(net.codec, ms), chunk);
    var more := Drain(PREFIX, mg.buf + chunk).payloads;
    NewlyDecoded(net.codec, ms, mg.got, more);
    ManagerFolds(net.codec, mg.conf, ms, mg.st, |mg.got|, |mg.got| + |more|);
    ManagerAppends(net.codec, mg.conf, mg.st, more);
  }

  /** More written on the workers' connections does not disturb the workers. */
  lemma WorkersFollow(net: Net, home: seq<int>, f: int, conf: Manager.Conf, wires: map<int, seq<byte>>,
                      wires': map<int, seq<byte>>, workers: map<int, WorkerNode>, h: nat)
    requires Sound(net) && Home(net, home) && Manager.Sound(conf) && h <= |ToClient(net, home, f)|
    requires WorkersOk(net, home, f, conf, wires, workers)
    requires Extends(wires, wires') && wires'.Keys == wires.Keys
    requires forall w | w in wires' :: WorkerWire(net.codec, conf, ToClient(net, home, f), wires'[w], w, h)
    ensures WorkersOk(net, home, f, conf, wires', workers)
  {
    forall w | w in workers ensures WorkerOk(net, ToWorker(net, home, f, conf, w), wires'[w], workers[w]) {
      WorkerWireCut(net, home, f, conf, wires'[w], w, h);
      var wk := workers[w];
      LinkGrows(wk.got, wk.buf, wires[w], wires'[w], Serialised(net.codec, ToWorker(net, home, f, conf, w)));
    }
  }

  lemma WorkerWireCut(net: Net, home: seq<int>, f: int, conf: Manager.Conf, wire: seq<byte>, w: int, h: nat)
    requires Sound(net) && Home(net, home) && Manager.Sound(conf) && h <= |ToClient(net, home, f)|
    requires WorkerWire(net.codec, conf, ToClient(net, home, f), wire, w, h)
    ensures Cut(Serialised(net.codec, ToWorker(net, home, f, conf, w)), wire)
  {
    var ms := ToClient(net, home, f);
    ManagerOutGrows(conf, w, ms, h);
    OnWireCut(net.codec, ManagerOut(conf, w, ms[..h]), ToWorker(net, home, f, conf, w));
  }

  lemma WorkerSyncFirst(net: Net, home: seq<int>, f: int, conf: Manager.Conf, w: int)
    requires Sound(net) && Home(net, home) && Manager.Sound(conf)
    ensures SyncFirst(ToWorker(net, home, f, conf, w))
  {
    PostmanOutSyncFirst(PolicyOf(net, home), f, Trace(net));
    ManagerOutSyncFirst(conf, w, ToClient(net, home, f));
  }

  lemma WorkerMovesKeeps(net: Net, home: seq<int>, s: System, s': System, f: int, w: int, wk: WorkerNode)
    requires Sound(net) && Inv(net, home, s) && WorkerMoves(s, s', f, w, wk)
    requires ManagerOk(net, home, f, s.postman.st.wire[f], s.managers[f])
    requires WorkerOk(net, ToWorker(net, home, f, s.managers[f].conf, w), s.managers[f].st.wire[w], wk)
    ensures Inv(net, home, s')
  {
    var mg, up := s.managers[f], s.postman.st.wire[f];
    WorkerUpdate(net, home, f, up, mg, w, wk);
    ManagersReplace(net, home, s.postman.st.wire, s.managers, f, mg.(workers := mg.workers[w := wk]));
  }

  lemma WorkerUpdate(net: Net, home: seq<int>, f: int, up: seq<byte>, mg: ManagerNode, w: int, wk: WorkerNode)
    requires Sound(net) && Home(net, home) && ManagerOk(net, home, f, up, mg) && w in mg.workers
    requires WorkerOk(net, ToWorker(net, home, f, mg.conf, w), mg.st.wire[w], wk)
    ensures ManagerOk(net, home, f, up, mg.(workers := mg.workers[w := wk]))
  {
    WorkersUpdate(net, home, f, mg.conf, mg.st.wire, mg.workers, w, wk);
  }

  lemma WorkerReadsKeeps(net: Net, home: seq<int>, s: System, s': System, f: int, w: int, chunk: seq<byte>)
    requires Sound(net) && Inv(net, home, s) && WorkerReads(net, s, s', f, w, chunk)
    ensures Inv(net, home, s')
  {
    var mg := s.managers[f];
    var wk, ms := mg.workers[w], ToWorker(net, home, f, mg.conf, w);
    WorkerStreamFits(net, home, f, mg.conf, w);
    WorkerSyncFirst(net, home, f, mg.conf, w);
    LinkRead(wk.got, wk.buf, mg.st.wire[w], Serialised(net.codec, ms), chunk);
    var more := Drain(PREFIX, wk.buf + chunk).payloads;
    NewlyDecoded(net.codec, ms, wk.got, more);
    WorkerFolds(wk.conf, ms, wk.st, |wk.got|, |wk.got| + |more|);
    WorkerMovesKeeps(net, home, s, s', f, w, ReadByWorker(net, wk, chunk));
  }

  lemma TimerFiresKeeps(net: Net, home: seq<int>, s: System, s': System, f: int, w: int, i: nat, now: TimeVal)
    requires Sound(net) && Inv(net, home, s) && TimerFires(s, s', f, w, i, now)
    ensures Inv(net, home, s')
  {
    var mg := s.managers[f];
    var wk := mg.workers[w];
    WorkerFires(wk.conf, ToWorker(net, home, f, mg.conf, w), wk.st, |wk.got|, i);
    WorkerMovesKeeps(net, home, s, s', f, w, wk.(st := Client.OnFire(wk.st, i)));
  }

  lemma NextKeeps(net: Net, home: seq<int>, s: System, a: Action, s': System)
    requires Sound(net) && Inv(net, home, s) && Next(net, s, a, s')
    requires Roster(net, home, s'.postman.st.fds)
    ensures Inv(net, home, s')
  {
    hide Inv, Sound, PostmanReads, ManagerReads, WorkerReads, TimerFires, Accept, ReadInput, Roster;
    match a
    case DoAccept(f, conf, workers) => AcceptKeeps(net, home, s, s', f, conf, workers);
    case DoRead => ReadInputKeeps(net, home, s, s');
    case DoPostman(chunk) => PostmanReadsKeeps(net, home, s, s', chunk);
    case DoManager(f, chunk) => ManagerReadsKeeps(net, home, s, s', f, chunk);
    case DoWorker(f, w, chunk) => WorkerReadsKeeps(net, home, s, s', f, w, chunk);
    case DoTimer(f, w, i, now) => TimerFiresKeeps(net, home, s, s', f, w, i, now);
  }

  // ----- every run ---------------------------------------------------------

  lemma FdsGrow(net: Net, states: seq<System>, actions: seq<Action>, k: nat, l: nat)
    requires Run(net, states, actions) && k <= l < |states|
    ensures states[k].postman.st.fds <= states[l].postman.st.fds
    decreases l - k
  {
    if k < l {
      FdsGrow(net, states, actions, k, l - 1);
      assert Next(net, states[l - 1], actions[l - 1], states[l]);
      FdsGrowOnce(net, states[l - 1], actions[l - 1], states[l]);
    }
  }

  lemma FdsGrowOnce(net: Net, s: System, a: Action, s': System)
    requires Next(net, s, a, s')
    ensures s.postman.st.fds <= s'.postman.st.fds
  {
    match a
    case DoPostman(chunk) =>
      if |s.postman.buf + chunk| >= PREFIX {
        PostmanKeepsFds(net.codec, net.pick, s.postman.st,
                        Parsed(net.codec, Postman.DrainDo(s.postman.buf + chunk).payloads));
      }
    case _ =>
  }

  lemma {:induction false} PostmanKeepsFds(codec: Codec, pick: nat -> int, st: Postman.State, ms: seq<DNSMsg>)
    ensures Fold(Postman.Turn(codec, pick), st, ms).fds == st.fds
    decreases |ms|
  {
    if ms != [] {
      PostmanKeepsFds(codec, pick, Postman.OnMessage(codec, pick, st, ms[0]), ms[1..]);
    }
  }

  /** The clients that will be sent queries: the first to connect, as the run has
      it at the end. Places still empty are filled with descriptors that never
      occur. */
  ghost function HomeOf(net: Net, s: System): (home: seq<int>)
    ensures |home| == net.numClients
  {
    var fds := s.postman.st.fds;
    if |fds| >= net.numClients then fds[..net.numClients]
    else fds + seq(net.numClients - |fds|, _ => -1)
  }

  lemma HomeIsRoster(net: Net, fds: seq<int>, last: System)
    requires fds <= last.postman.st.fds
    requires forall i, j | 0 <= i < j < |fds| :: fds[i] != fds[j]
    ensures Roster(net, HomeOf(net, last), fds)
  {
  }

  lemma DistinctAfter(net: Net, home: seq<int>, s: System, a: Action, s': System)
    requires Sound(net) && Inv(net, home, s) && Next(net, s, a, s')
    ensures forall i, j | 0 <= i < j < |s'.postman.st.fds| :: s'.postman.st.fds[i] != s'.postman.st.fds[j]
  {
    hide ManagersOk, LinkOk, ReaderOk, Fold, TableAfter, ClientWire;
    match a
    case DoPostman(chunk) =>
      if |s.postman.buf + chunk| >= PREFIX {
        PostmanKeepsFds(net.codec, net.pick, s.postman.st,
                        Parsed(net.codec, Postman.DrainDo(s.postman.buf + chunk).payloads));
      }
    case _ =>
  }

  /** The invariant holds in every state of every run. */
  lemma {:induction false} EveryRunInv(net: Net, states: seq<System>, actions: seq<Action>, k: nat)
    requires Sound(net) && Run(net, states, actions) && k < |states|
    ensures Inv(net, HomeOf(net, states[|states| - 1]), states[k])
  {
    hide Inv, Next, Init, Sound;
    var last := |states| - 1;
    var home := HomeOf(net, states[last]);
    if k == 0 {
      InitInv(net, home, states[0]);
    } else {
      EveryRunInv(net, states, actions, k - 1);
      assert Next(net, states[k - 1], actions[k - 1], states[k]);
      DistinctAfter(net, home, states[k - 1], actions[k - 1], states[k]);
      FdsGrow(net, states, actions, k, last);
      HomeIsRoster(net, states[k].postman.st.fds, states[last]);
      NextKeeps(net, home, states[k - 1], actions[k - 1], states[k]);
    }
  }

  ghost function Decoded(net: Net, wk: WorkerNode): seq<DNSMsg>
  {
    Parsed(net.codec, wk.got)
  }

  /** The stream that worker `w` of client `f` is due: nothing for an empty trace,
      else the sync message and then its share of the queries. */
  ghost function Due(net: Net, home: seq<int>, f: int, conf: Manager.Conf, w: int): seq<DNSMsg>
    requires Sound(net) && Home(net, home) && Manager.Sound(conf)
  {
    if Trace(net) == [] then []
    else [Trace(net)[0].(syncTime := true)] + Share(PolicyOf(net, home), conf, f, w, Trace(net))
  }

  lemma DueIsStream(net: Net, home: seq<int>, f: int, conf: Manager.Conf, w: int)
    requires Sound(net) && Home(net, home) && Manager.Sound(conf)
    ensures ToWorker(net, home, f, conf, w) == Due(net, home, f, conf, w)
  {
    if Trace(net) != [] {
      WorkerStreamIsShare(PolicyOf(net, home), conf, f, w, Trace(net));
    }
  }

  lemma PayloadsBack(codec: Codec, ms: seq<DNSMsg>, got: seq<Payload>)
    requires Faithful(codec) && got <= Serialised(codec, ms)
    ensures Parsed(codec, got) == ms[..|got|]
  {
    forall i | 0 <= i < |got| ensures codec.parse(got[i]) == ms[i] {
      assert got[i] == Serialised(codec, ms)[i];
    }
  }

  /** Safety of every run, in every state and for every worker. What it has decoded
      is a prefix of its due stream, so there is at most one sync message, it comes
      first, and the queries are its own, in trace order. It aborts exactly when it
      has met a query under a sync stamp of 0.0. Otherwise every query it decoded
      is pending or passed on, once, and every timer expires at the first reading of
      the worker's clock plus the distance of its query from the first of the trace. The Postman never aborts. */
  lemma EveryRunDelivers(net: Net, states: seq<System>, actions: seq<Action>, k: nat, f: int, w: int)
    requires Sound(net) && Run(net, states, actions) && k < |states|
    requires f in states[k].managers && w in states[k].managers[f].workers
    ensures !states[k].postman.st.aborted
    ensures var mg := states[k].managers[f];
            var wk := mg.workers[w];
            var home := HomeOf(net, states[|states| - 1]);
            && Manager.Sound(mg.conf)
            && Decoded(net, wk) <= Due(net, home, f, mg.conf, w)
            && (wk.st.aborted <==>
                  |Decoded(net, wk)| >= 2 && Trace(net)[0].seconds == 0 && Trace(net)[0].microseconds == 0)
            && (!wk.st.aborted ==> Client.Accounted(wk.st, Decoded(net, wk)) && Client.TimersOnTarget(wk.st))
            && (Decoded(net, wk) != [] ==> Decoded(net, wk)[0] == Trace(net)[0].(syncTime := true))
            && (!wk.st.aborted && Decoded(net, wk) != [] ==>
                  forall i | 0 <= i < |wk.st.pending| ::
                    var t, first, base := wk.st.pending[i], Trace(net)[0], wk.conf.clock(0);
                    t.armedAt.sec * 1000000 + t.armedAt.usec + t.delay.sec * 1000000 + t.delay.usec
                    == base.sec * 1000000 + base.usec
                       + (t.msg.seconds - first.seconds) * 1000000 + (t.msg.microseconds - first.microseconds))
  {
    EveryRunInv(net, states, actions, k);
    var home := HomeOf(net, states[|states| - 1]);
    var mg := states[k].managers[f];
    assert ManagerOk(net, home, f, states[k].postman.st.wire[f], mg);
    assert WorkerOk(net, ToWorker(net, home, f, mg.conf, w), mg.st.wire[w], mg.workers[w]);
    WorkerDelivers(net, home, f, mg.conf, w, mg.st.wire[w], mg.workers[w]);
  }

  lemma WorkerDelivers(net: Net, home: seq<int>, f: int, conf: Manager.Conf, w: int, up: seq<byte>, wk: WorkerNode)
    requires Sound(net) && Home(net, home) && Manager.Sound(conf)
    requires WorkerOk(net, ToWorker(net, home, f, conf, w), up, wk)
    ensures Decoded(net, wk) <= Due(net, home, f, conf, w)
    ensures wk.st.aborted <==> |Decoded(net, wk)| >= 2 && !IsSet(Client.Stamp(Trace(net)[0]))
    ensures !wk.st.aborted ==> Client.Accounted(wk.st, Decoded(net, wk)) && Client.TimersOnTarget(wk.st)
    ensures Decoded(net, wk) != [] ==> Decoded(net, wk)[0] == Trace(net)[0].(syncTime := true)
    ensures !wk.st.aborted && Decoded(net, wk) != [] ==>
              wk.st.startTrace == Client.Stamp(Trace(net)[0]) && wk.st.startReal == wk.conf.clock(0)
  {
    var ms := ToWorker(net, home, f, conf, w);
    DueIsStream(net, home, f, conf, w);
    PayloadsBack(net.codec, ms, wk.got);
    if |wk.got| >= 1 {
      assert ms[0] == Trace(net)[0].(syncTime := true);
    }
  }

  /** Nothing is left to read or in flight anywhere. */
  ghost predicate Quiet(net: Net, s: System)
  {
    && s.pos == |net.input|
    && Taken(s.postman.got, s.postman.buf) == s.readerWire
    && forall f | f in s.managers && f in s.postman.st.wire :: ClientQuiet(s.postman.st.wire[f], s.managers[f])
  }

  ghost predicate ClientQuiet(up: seq<byte>, mg: ManagerNode)
  {
    && Taken(mg.got, mg.buf) == up
    && forall w | w in mg.workers && w in mg.st.wire :: Taken(mg.workers[w].got, mg.workers[w].buf) == mg.st.wire[w]
  }

  lemma PostmanQuiet(net: Net, home: seq<int>, s: System)
    requires Sound(net) && Inv(net, home, s) && Quiet(net, s)
    ensures |s.postman.got| == |Trace(net)|
  {
    assert net.input[..|net.input|] == net.input;
    OnWireCut(net.codec, Trace(net), Trace(net));
    TraceFits(net);
    LinkDrained(s.postman.got, s.postman.buf, s.readerWire, Serialised(net.codec, Trace(net)), |Trace(net)|);
  }

  lemma ManagerQuiet(net: Net, home: seq<int>, f: int, up: seq<byte>, mg: ManagerNode)
    requires Sound(net) && Home(net, home) && ManagerOk(net, home, f, up, mg) && ClientQuiet(up, mg)
    requires up == OnWire(net.codec, ToClient(net, home, f))
    ensures forall w | w in mg.workers :: mg.st.wire[w] == OnWire(net.codec, ToWorker(net, home, f, mg.conf, w))
  {
    hide PostmanOut, LinkOk, WorkerOk;
    var ms := ToClient(net, home, f);
    OnWireCut(net.codec, ms, ms);
    ClientStreamFits(net, home, f);
    LinkDrained(mg.got, mg.buf, up, Serialised(net.codec, ms), |ms|);
    assert |mg.got| == |ms| && ms[..|ms|] == ms;
  }

  lemma WorkerQuiet(net: Net, home: seq<int>, f: int, conf: Manager.Conf, w: int, up: seq<byte>, wk: WorkerNode)
    requires Sound(net) && Home(net, home) && Manager.Sound(conf)
    requires WorkerOk(net, ToWorker(net, home, f, conf, w), up, wk)
    requires Taken(wk.got, wk.buf) == up == OnWire(net.codec, ToWorker(net, home, f, conf, w))
    ensures Decoded(net, wk) == Due(net, home, f, conf, w)
  {
    var ms := ToWorker(net, home, f, conf, w);
    OnWireCut(net.codec, ms, ms);
    WorkerStreamFits(net, home, f, conf, w);
    LinkDrained(wk.got, wk.buf, up, Serialised(net.codec, ms), |ms|);
    PayloadsBack(net.codec, ms, wk.got);
    DueIsStream(net, home, f, conf, w);
    assert ms[..|ms|] == ms;
  }

  /** Completeness: once the chain is quiet, every worker behind the first
      `numClients` clients has decoded its whole due stream. */
  lemma QuietMeansDelivered(net: Net, states: seq<System>, actions: seq<Action>, k: nat, f: int, w: int)
    requires Sound(net) && Run(net, states, actions) && k < |states| && Quiet(net, states[k])
    requires f in states[k].managers && w in states[k].managers[f].workers
    requires f in HomeOf(net, states[|states| - 1])
    ensures var mg := states[k].managers[f];
            && Manager.Sound(mg.conf)
            && Decoded(net, mg.workers[w]) == Due(net, HomeOf(net, states[|states| - 1]), f, mg.conf, w)
  {
    var s, home := states[k], HomeOf(net, states[|states| - 1]);
    EveryRunInv(net, states, actions, k);
    hide PostmanOut, ManagerOut, LinkOk, WorkerAt, ManagerAt;
    PostmanQuiet(net, home, s);
    var mg, up := s.managers[f], s.postman.st.wire[f];
    assert ClientQuiet(up, mg);
    assert ClientWire(net, home, up, f, |Trace(net)|);
    assert Trace(net)[..|Trace(net)|] == Trace(net);
    ManagerQuiet(net, home, f, up, mg);
    WorkerQuiet(net, home, f, mg.conf, w, mg.st.wire[w], mg.workers[w]);
  }

  lemma {:induction false} QueriesOfDue(first: DNSMsg, rest: seq<DNSMsg>)
    requires first.syncTime && forall i | 0 <= i < |rest| :: !rest[i].syncTime
    ensures Client.Queries([first] + rest) == rest
  {
    if rest == [] {
      assert ([first] + rest)[..0] == [];
    } else {
      var n := |rest| - 1;
      QueriesOfDue(first, rest[..n]);
      assert ([first] + rest)[..n + 1] == [first] + rest[..n];
      assert rest == rest[..n] + [rest[n]];
    }
  }

  /** Conservation down to the sockets: once the chain is quiet and the timers have
      fired, the queries a worker has passed to `send_query` are its share of the
      trace, each exactly once. */
  lemma QuietMeansSent(net: Net, states: seq<System>, actions: seq<Action>, k: nat, f: int, w: int)
    requires Sound(net) && Run(net, states, actions) && k < |states| && Quiet(net, states[k])
    requires Trace(net) != [] && IsSet(Client.Stamp(Trace(net)[0]))
    requires f in states[k].managers && w in states[k].managers[f].workers
    requires f in HomeOf(net, states[|states| - 1])
    requires states[k].managers[f].workers[w].st.pending == []
    ensures var mg := states[k].managers[f];
            && Manager.Sound(mg.conf)
            && multiset(mg.workers[w].st.passed)
               == multiset(Share(PolicyOf(net, HomeOf(net, states[|states| - 1])), mg.conf, f, w, Trace(net)))
  {
    EveryRunDelivers(net, states, actions, k, f, w);
    QuietMeansDelivered(net, states, actions, k, f, w);
    var mg := states[k].managers[f];
    var share := Share(PolicyOf(net, HomeOf(net, states[|states| - 1])), mg.conf, f, w, Trace(net));
    QueriesOfDue(Trace(net)[0].(syncTime := true), share);
    assert Client.Msgs(mg.workers[w].st.pending) == [];
  }

  ghost function Confs(managers: map<int, ManagerNode>): map<int, Manager.Conf>
  {
    map f | f in managers :: managers[f].conf
  }

  /** Exactly once, end to end: once the chain is quiet, query `q` of the trace sits
      in the decoded stream of exactly one worker, at the position its rank among
      that worker's queries gives it. */
  lemma EachQueryReachesOneWorker(net: Net, states: seq<System>, actions: seq<Action>, k: nat, q: nat)
      returns (f: int, w: int, i: nat)
    requires Sound(net) && Run(net, states, actions) && k < |states| && Quiet(net, states[k])
    requires q < |Trace(net)|
    ensures var s, p := states[k], PolicyOf(net, HomeOf(net, states[|states| - 1]));
            && f in s.managers && w in s.managers[f].workers
            && (forall g | g in s.managers :: Manager.Sound(s.managers[g].conf))
            && Owns(p, s.managers[f].conf, f, w, Trace(net), q)
            && (forall g, v | g in s.managers && Owns(p, s.managers[g].conf, g, v, Trace(net), q) :: g == f && v == w)
            && var ks := Selected(Ownership(p, s.managers[f].conf, f, w, Trace(net)), |Trace(net)|);
               && i < |ks| && ks[i] == q
               && i + 1 < |Decoded(net, s.managers[f].workers[w])|
               && Decoded(net, s.managers[f].workers[w])[i + 1] == Trace(net)[q].(syncTime := false)
  {
    hide Owns, Share, Selected, Ownership, Quiet, Run, Inv, Trace, Owned;
    var s, home := states[k], HomeOf(net, states[|states| - 1]);
    EveryRunInv(net, states, actions, k);
    f, w := OwnerConnected(net, home, s, q);
    OwnedMeans(net, home, s, f, w, q);
    QuietMeansDelivered(net, states, actions, k, f, w);
    i := RankOf(PolicyOf(net, home), s.managers[f].conf, f, w, Trace(net), q);
  }

  /** In state `s`, query `q` belongs to worker `w` of client `f`, both connected, and to
      no other. */
  ghost predicate Owned(net: Net, home: seq<int>, s: System, f: int, w: int, q: nat)
    requires Sound(net) && Home(net, home)
  {
    && f in s.managers && f in home && w in s.managers[f].workers
    && (forall g | g in s.managers :: Manager.Sound(s.managers[g].conf))
    && Owns(PolicyOf(net, home), s.managers[f].conf, f, w, Trace(net), q)
    && (forall g, v | g in s.managers && Owns(PolicyOf(net, home), s.managers[g].conf, g, v, Trace(net), q) :: g == f && v == w)
  }

  lemma OwnedMeans(net: Net, home: seq<int>, s: System, f: int, w: int, q: nat)
    requires Sound(net) && Home(net, home) && Owned(net, home, s, f, w, q)
    ensures f in s.managers && f in home && w in s.managers[f].workers
    ensures forall g | g in s.managers :: Manager.Sound(s.managers[g].conf)
    ensures Owns(PolicyOf(net, home), s.managers[f].conf, f, w, Trace(net), q)
    ensures forall g, v | g in s.managers && Owns(PolicyOf(net, home), s.managers[g].conf, g, v, Trace(net), q) :: g == f && v == w
  {
  }

  lemma OwnerConnected(net: Net, home: seq<int>, s: System, q: nat) returns (f: int, w: int)
    requires Sound(net) && Home(net, home) && Inv(net, home, s) && Quiet(net, s) && q < |Trace(net)|
    ensures Owned(net, home, s, f, w, q)
  {
    hide PostmanOut, ManagerOut, LinkOk, ManagerAt, WorkerOk, PostmanAt, Owns, Quiet, Trace;
    HomeConnected(net, home, s);
    forall g | g in s.managers
      ensures Manager.Sound(s.managers[g].conf)
      ensures s.managers[g].workers.Keys == (set v | v in s.managers[g].conf.home)
    {
      WorkersAreHome(net, home, g, s.postman.st.wire[g], s.managers[g]);
    }
    var confs := Confs(s.managers);
    f, w := ExactlyOneOwner(PolicyOf(net, home), confs, Trace(net), q);
    assert f in s.managers && f in home;
    assert w in s.managers[f].workers;
    assert Owns(PolicyOf(net, home), s.managers[f].conf, f, w, Trace(net), q);
    forall g, v | g in s.managers && Owns(PolicyOf(net, home), s.managers[g].conf, g, v, Trace(net), q)
      ensures g == f && v == w
    {
      assert g in confs && confs[g] == s.managers[g].conf;
    }
  }

  /** Sticky and ordered, end to end: when the clients map by source, two queries of
      one source are decoded by one worker, in trace order. */
  lemma OneSourceOneWorker(net: Net, states: seq<System>, actions: seq<Action>, k: nat, q: nat, r: nat)
      returns (f: int, w: int, i: nat, j: nat)
    requires Sound(net) && Run(net, states, actions) && k < |states| && Quiet(net, states[k])
    requires q < r < |Trace(net)| && Trace(net)[q].srcIp == Trace(net)[r].srcIp
    requires forall g | g in states[k].managers :: !states[k].managers[g].conf.disableMapping
    ensures var s := states[k];
            && f in s.managers && w in s.managers[f].workers
            && i < j && j + 1 < |Decoded(net, s.managers[f].workers[w])|
            && Decoded(net, s.managers[f].workers[w])[i + 1] == Trace(net)[q].(syncTime := false)
            && Decoded(net, s.managers[f].workers[w])[j + 1] == Trace(net)[r].(syncTime := false)
  {
    hide Owns, Selected, Quiet, Run, Decoded, Ownership;
    f, w, i := EachQueryReachesOneWorker(net, states, actions, k, q);
    var g, v;
    g, v, j := EachQueryReachesOneWorker(net, states, actions, k, r);
    var p := PolicyOf(net, HomeOf(net, states[|states| - 1]));
    var conf := states[k].managers[f].conf;
    SameSourceSameOwner(p, conf, f, w, Trace(net), q, r);
    SelectedIsExact(Ownership(p, conf, f, w, Trace(net)), |Trace(net)|);
  }

  /** Safety of routing, in every state of every run: the i-th query a worker decodes is the
      i-th that it owns, and no query of a source that one worker has served is ever
      decoded by another, or out of trace order. */
  lemma DecodedArePositions(net: Net, states: seq<System>, actions: seq<Action>, k: nat, f: int, w: int, i: nat)
      returns (q: nat)
    requires Sound(net) && Run(net, states, actions) && k < |states|
    requires f in states[k].managers && w in states[k].managers[f].workers
    requires i + 1 < |Decoded(net, states[k].managers[f].workers[w])|
    ensures var mg, p := states[k].managers[f], PolicyOf(net, HomeOf(net, states[|states| - 1]));
            && Manager.Sound(mg.conf) && q < |Trace(net)|
            && Owns(p, mg.conf, f, w, Trace(net), q)
            && Decoded(net, mg.workers[w])[i + 1] == Trace(net)[q].(syncTime := false)
            && var ks := Selected(Ownership(p, mg.conf, f, w, Trace(net)), |Trace(net)|);
               i < |ks| && ks[i] == q
  {
    hide Owns, Run, Decoded, Trace, Selected, Due;
    DecodedIsPrefix(net, states, actions, k, f, w);
    var mg, home := states[k].managers[f], HomeOf(net, states[|states| - 1]);
    q := DueAt(net, home, f, mg.conf, w, i);
  }

  lemma DecodedIsPrefix(net: Net, states: seq<System>, actions: seq<Action>, k: nat, f: int, w: int)
    requires Sound(net) && Run(net, states, actions) && k < |states|
    requires f in states[k].managers && w in states[k].managers[f].workers
    ensures var mg := states[k].managers[f];
            && Manager.Sound(mg.conf)
            && Decoded(net, mg.workers[w]) <= Due(net, HomeOf(net, states[|states| - 1]), f, mg.conf, w)
  {
    hide Run, Decoded, Due, Client.Accounted, Client.TimersOnTarget;
    EveryRunDelivers(net, states, actions, k, f, w);
  }

  lemma DueAt(net: Net, home: seq<int>, f: int, conf: Manager.Conf, w: int, i: nat) returns (q: nat)
    requires Sound(net) && Home(net, home) && Manager.Sound(conf) && i + 1 < |Due(net, home, f, conf, w)|
    ensures q < |Trace(net)| && Owns(PolicyOf(net, home), conf, f, w, Trace(net), q)
    ensures Due(net, home, f, conf, w)[i + 1] == Trace(net)[q].(syncTime := false)
    ensures var ks := Selected(Ownership(PolicyOf(net, home), conf, f, w, Trace(net)), |Trace(net)|);
            i < |ks| && ks[i] == q
  {
    hide Owns, Trace, Selected;
    var own := Ownership(PolicyOf(net, home), conf, f, w, Trace(net));
    SelectedIsExact(own, |Trace(net)|);
    q := Selected(own, |Trace(net)|)[i];
    assert q in Selected(own, |Trace(net)|);
    assert own(q);
  }

  /** The client of a decoded query is the one that the controller drew for its source: clients count in
      the order they connected, draws one for every distinct source before the first query `first`
      of that source. */
  lemma ClientIsDrawn(net: Net, states: seq<System>, actions: seq<Action>, k: nat, f: int, w: int, i: nat, first: nat)
      returns (q: nat)
    requires Sound(net) && Run(net, states, actions) && k < |states|
    requires f in states[k].managers && w in states[k].managers[f].workers
    requires i + 1 < |Decoded(net, states[k].managers[f].workers[w])|
    requires first < |Trace(net)|
    requires Trace(net)[first].srcIp == Decoded(net, states[k].managers[f].workers[w])[i + 1].srcIp
    requires Trace(net)[first].srcIp !in Sources(Trace(net)[..first])
    ensures q < |Trace(net)| && Decoded(net, states[k].managers[f].workers[w])[i + 1] == Trace(net)[q].(syncTime := false)
    ensures var fds, draw := states[|states| - 1].postman.st.fds, net.pick(|set s | s in Sources(Trace(net)[..first])|);
            |fds| >= net.numClients ==> 0 <= draw < |fds| && fds[draw] == f
  {
    hide Run, Decoded, Trace, Selected, Ownership, Owns;
    q := DecodedArePositions(net, states, actions, k, f, w, i);
    var home := HomeOf(net, states[|states| - 1]);
    OwnedByDraw(net, home, states[k].managers[f].conf, f, w, q, first);
  }

  lemma EarlierIsListed(ms: seq<DNSMsg>, first: nat)
    requires first <= |ms|
    ensures forall q | 0 <= q < first :: ms[q].srcIp in Sources(ms[..first])
  {
    forall q | 0 <= q < first ensures ms[q].srcIp in Sources(ms[..first]) {
      assert Sources(ms[..first])[q] == ms[q].srcIp;
    }
  }

  lemma OwnedByDraw(net: Net, home: seq<int>, conf: Manager.Conf, f: int, w: int, q: nat, first: nat)
    requires Sound(net) && Home(net, home) && Manager.Sound(conf) && q < |Trace(net)| && first < |Trace(net)|
    requires Owns(PolicyOf(net, home), conf, f, w, Trace(net), q)
    requires Trace(net)[first].srcIp == Trace(net)[q].srcIp && Trace(net)[first].srcIp !in Sources(Trace(net)[..first])
    ensures var draw := net.pick(|set s | s in Sources(Trace(net)[..first])|); 0 <= draw < |home| && home[draw] == f
  {
    hide Trace, Receiver, PostmanOut;
    var ms := Trace(net);
    var srcs := Sources(ms[..q + 1]);
    EarlierIsListed(ms, first);
    assert first <= q;
    assert srcs[..first] == Sources(ms[..first]);
    assert srcs[|srcs| - 1] == ms[q].srcIp && srcs[first] == ms[first].srcIp;
    ReceiverIsDrawn(PolicyOf(net, home), srcs, first);
  }

  lemma OneSourceNeverSplits(net: Net, states: seq<System>, actions: seq<Action>, k: nat,
                             f: int, w: int, i: nat, g: int, v: int, j: nat)
    requires Sound(net) && Run(net, states, actions) && k < |states|
    requires f in states[k].managers && w in states[k].managers[f].workers && !states[k].managers[f].conf.disableMapping
    requires g in states[k].managers && v in states[k].managers[g].workers
    requires i + 1 < |Decoded(net, states[k].managers[f].workers[w])|
    requires j + 1 < |Decoded(net, states[k].managers[g].workers[v])|
    requires Decoded(net, states[k].managers[f].workers[w])[i + 1].srcIp == Decoded(net, states[k].managers[g].workers[v])[j + 1].srcIp
    ensures f == g && w == v
  {
    hide Owns, Run, Decoded, Trace, Selected, Ownership;
    var q := DecodedArePositions(net, states, actions, k, f, w, i);
    var r := DecodedArePositions(net, states, actions, k, g, v, j);
    var p := PolicyOf(net, HomeOf(net, states[|states| - 1]));
    SameSourceSameOwner(p, states[k].managers[f].conf, f, w, Trace(net), q, r);
    OneOwner(p, states[k].managers[f].conf, f, w, states[k].managers[g].conf, g, v, Trace(net), r);
  }

  lemma OneOwner(p: Policy, conf: Manager.Conf, f: int, w: int, conf': Manager.Conf, g: int, v: int, ms: seq<DNSMsg>, q: nat)
    requires InRange(p) && Manager.Sound(conf) && Manager.Sound(conf') && (f == g ==> conf == conf')
    requires Owns(p, conf, f, w, ms, q) && Owns(p, conf', g, v, ms, q)
    ensures f == g && w == v
  {
  }

  /** An owned query sits in its owner's stream at its rank. */
  lemma RankOf(p: Policy, conf: Manager.Conf, f: int, w: int, ms: seq<DNSMsg>, q: nat) returns (i: nat)
    requires InRange(p) && Manager.Sound(conf) && Owns(p, conf, f, w, ms, q)
    ensures var ks := Selected(Ownership(p, conf, f, w, ms), |ms|);
            && i < |ks| == |Share(p, conf, f, w, ms)| && ks[i] == q
            && Share(p, conf, f, w, ms)[i] == ms[q].(syncTime := false)
  {
    hide Owns, Selected;
    var own := Ownership(p, conf, f, w, ms);
    SelectedIsExact(own, |ms|);
    assert q < |ms| by { OwnsInTrace(p, conf, f, w, ms, q); }
    assert own(q);
    i :| 0 <= i < |Selected(own, |ms|)| && Selected(own, |ms|)[i] == q;
  }

  lemma OwnsInTrace(p: Policy, conf: Manager.Conf, f: int, w: int, ms: seq<DNSMsg>, q: nat)
    requires InRange(p) && Manager.Sound(conf) && Owns(p, conf, f, w, ms, q)
    ensures q < |ms|
  {
  }

  lemma WorkersAreHome(net: Net, home: seq<int>, f: int, up: seq<byte>, mg: ManagerNode)
    requires Sound(net) && Home(net, home) && ManagerOk(net, home, f, up, mg)
    ensures Manager.Sound(mg.conf) && mg.workers.Keys == (set w | w in mg.conf.home)
  {
  }

  /** A non-empty trace that has been read means all of `home` is connected. */
  lemma HomeConnected(net: Net, home: seq<int>, s: System)
    requires Sound(net) && Inv(net, home, s) && Quiet(net, s) && Trace(net) != []
    ensures forall f | f in home :: f in s.managers
  {
    PostmanQuiet(net, home, s);
  }
}
