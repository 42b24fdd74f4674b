/** Each process of the chain, after any number of messages, is in the state that
    the closed form of its streams prescribes. */
module Nodes {
  import opened Bytes
  import opened Framing
  import opened Messages
  import opened Routing
  import opened Streams
  import opened Links
  import opened Timing
  import Filter
  import Postman
  import Manager
  import Client

  /** A replay: the trace, the number of clients the controller waits for and the
      index drawn for each new source. */
  datatype Net = Net(codec: Codec, input: seq<DNSMsg>, numClients: nat, pick: nat -> int)

  ghost predicate Sound(net: Net)
  {
    && Faithful(net.codec)
    && net.numClients > 0
    && (forall k: nat :: 0 <= net.pick(k) < net.numClients)
    && forall m | m in net.input && Usable(m) ::
         Framable(net.codec, m) && Framable(net.codec, m.(syncTime := true)) && Framable(net.codec, m.(syncTime := false))
  }

  function Trace(net: Net): seq<DNSMsg> { UsableOf(net.input) }

  ghost predicate Home(net: Net, home: seq<int>) { |home| == net.numClients }

  ghost function PolicyOf(net: Net, home: seq<int>): (p: Policy)
    requires Sound(net) && Home(net, home)
    ensures InRange(p) && p.sticky
  {
    Policy(home, net.pick, true)
  }

  ghost function ToClient(net: Net, home: seq<int>, f: int): seq<DNSMsg>
    requires Sound(net) && Home(net, home)
  {
    PostmanOut(PolicyOf(net, home), f, Trace(net))
  }

  ghost function ToWorker(net: Net, home: seq<int>, f: int, conf: Manager.Conf, w: int): seq<DNSMsg>
    requires Sound(net) && Home(net, home) && Manager.Sound(conf)
  {
    ManagerOut(conf, w, ToClient(net, home, f))
  }

  /** The controller's own chooser meets the assumption on the draws, for every accepted filter and
      without one. */
  lemma ChooserIsSound(codec: Codec, input: seq<DNSMsg>, n: nat, filterSet: bool, fields: seq<int>,
                       uniformFilter: nat -> int, uniformClient: nat -> int)
    requires n > 0 && (filterSet ==> Filter.Accepted(n, fields))
    requires forall k: nat :: 0 <= uniformFilter(k) < Filter.TOTAL && 0 <= uniformClient(k) < n
    requires Faithful(codec)
    requires forall m | m in input && Usable(m) ::
               Framable(codec, m) && Framable(codec, m.(syncTime := true)) && Framable(codec, m.(syncTime := false))
    ensures var table := if filterSet then Filter.TableOf(Filter.Weights(n, fields)) else [];
            Sound(Net(codec, input, n, Filter.Chooser(filterSet, table, uniformFilter, uniformClient)))
  {
    var table := if filterSet then Filter.TableOf(Filter.Weights(n, fields)) else [];
    var pick := Filter.Chooser(filterSet, table, uniformFilter, uniformClient);
    forall k: nat ensures 0 <= pick(k) < n {
      Filter.ChooserInRange(n, fields, table, filterSet, uniformFilter, uniformClient, k);
    }
  }

  // ----- payload sizes -----------------------------------------------------

  lemma TraceFits(net: Net)
    requires Sound(net)
    ensures WellSized(Serialised(net.codec, Trace(net)))
  {
    Pow256Values();
    var full := Serialised(net.codec, Trace(net));
    forall i | 0 <= i < |full| ensures |full[i]| < Pow256(PREFIX) && full[i] != [] {
      UsableOfContents(net.input);
      assert Trace(net)[i] in Trace(net);
    }
  }

  lemma ClientStreamFits(net: Net, home: seq<int>, f: int)
    requires Sound(net) && Home(net, home)
    ensures WellSized(Serialised(net.codec, ToClient(net, home, f)))
    ensures forall m | m in ToClient(net, home, f) :: Framable(net.codec, m)
  {
    var ms := ToClient(net, home, f);
    forall m | m in ms ensures Framable(net.codec, m) {
      PostmanOutContents(PolicyOf(net, home), f, Trace(net));
      UsableOfContents(net.input);
      var q :| q in Trace(net) && (m == q.(syncTime := true) || m == q.(syncTime := false));
    }
    FramableFits(net.codec, ms);
  }

  lemma WorkerStreamFits(net: Net, home: seq<int>, f: int, conf: Manager.Conf, w: int)
    requires Sound(net) && Home(net, home) && Manager.Sound(conf)
    ensures WellSized(Serialised(net.codec, ToWorker(net, home, f, conf, w)))
  {
    ClientStreamFits(net, home, f);
    ManagerOutContents(conf, w, ToClient(net, home, f));
    FramableFits(net.codec, ToWorker(net, home, f, conf, w));
  }

  lemma FramableFits(codec: Codec, ms: seq<DNSMsg>)
    requires forall m | m in ms :: Framable(codec, m)
    ensures WellSized(Serialised(codec, ms))
  {
    Pow256Values();
    forall i | 0 <= i < |ms| ensures 0 < |codec.ser(ms[i])| < Pow256(PREFIX) {
      assert ms[i] in ms;
    }
  }

  /** The bytes of a growing list of messages. */
  function OnWire(codec: Codec, ms: seq<DNSMsg>): seq<byte>
  {
    Frames(PREFIX, Serialised(codec, ms))
  }

  lemma OnWireSnoc(codec: Codec, ms: seq<DNSMsg>, m: DNSMsg)
    ensures OnWire(codec, ms + [m]) == OnWire(codec, ms) + Frame(PREFIX, codec.ser(m))
  {
    assert Serialised(codec, ms + [m]) == Serialised(codec, ms) + [codec.ser(m)];
    FramesSnoc(PREFIX, Serialised(codec, ms), codec.ser(m));
  }

  lemma OnWireCut(codec: Codec, ms: seq<DNSMsg>, all: seq<DNSMsg>)
    requires ms <= all
    ensures IsCut(Serialised(codec, all), OnWire(codec, ms), |ms|)
    ensures Cut(Serialised(codec, all), OnWire(codec, ms))
  {
    assert Serialised(codec, all)[..|ms|] == Serialised(codec, ms);
    assert IsCut(Serialised(codec, all), OnWire(codec, ms), |ms|);
  }

  // ----- the Postman -------------------------------------------------------

  /** The clients that connected first are the ones queries go to. */
  ghost predicate Roster(net: Net, home: seq<int>, fds: seq<int>)
  {
    && Home(net, home)
    && (fds <= home || home <= fds)
    && forall i, j | 0 <= i < j < |fds| :: fds[i] != fds[j]
  }

  /** The Postman after `g` queries. A client that connected late may have missed
      the sync message; it will never be sent a query. */
  ghost predicate PostmanAt(net: Net, home: seq<int>, st: Postman.State, g: nat)
    requires Sound(net)
  {
    && Roster(net, home, st.fds)
    && g <= |Trace(net)|
    && !st.aborted
    && st.live == (set f | f in st.fds) == st.wire.Keys
    && (g > 0 ==> home <= st.fds)
    && (st.synced <==> g > 0)
    && st.table == TableAfter(PolicyOf(net, home), Sources(Trace(net)[..g]))
    && forall f | f in st.fds :: ClientWire(net, home, st.wire[f], f, g)
  }

  ghost predicate ClientWire(net: Net, home: seq<int>, wire: seq<byte>, f: int, g: nat)
    requires Sound(net) && Home(net, home) && g <= |Trace(net)|
  {
    || wire == OnWire(net.codec, PostmanOut(PolicyOf(net, home), f, Trace(net)[..g]))
    || (f !in home && wire == [])
  }

  /** Routing the next query yields the receiver the closed form names. */
  lemma PostmanRoutes(net: Net, home: seq<int>, st: Postman.State, g: nat)
    requires Sound(net) && PostmanAt(net, home, st, g) && g < |Trace(net)| && home <= st.fds
    ensures var m, p := Trace(net)[g], PolicyOf(net, home);
            var srcs := Sources(Trace(net)[..g + 1]);
            && Postman.Routable(net.pick, st, m.srcIp)
            && Postman.RouteOne(net.pick, st, m.srcIp) == (TableAfter(p, srcs), Receiver(p, srcs))
            && Receiver(p, srcs) in home
  {
    var ms, p := Trace(net), PolicyOf(net, home);
    var srcs := Sources(ms[..g + 1]);
    assert srcs[..g] == Sources(ms[..g]);
    TableInHome(p, Sources(ms[..g]));
    ReceiverInHome(p, srcs);
    assert forall f | f in home :: f in st.fds;
    assert home[net.pick(st.table.drawn)] == st.fds[net.pick(st.table.drawn)];
  }

  /** The next query extends every client's wire as the closed form says. */
  lemma ClientWireAdvances(net: Net, home: seq<int>, wire: seq<byte>, f: int, g: nat)
    requires Sound(net) && Home(net, home) && g < |Trace(net)| && ClientWire(net, home, wire, f, g)
    ensures var m, p := Trace(net)[g], PolicyOf(net, home);
            var synced := if g == 0 then wire + Frame(PREFIX, net.codec.ser(m.(syncTime := true))) else wire;
            var last := Receiver(p, Sources(Trace(net)[..g + 1])) == f;
            ClientWire(net, home, if last then synced + Frame(PREFIX, net.codec.ser(m.(syncTime := false))) else synced, f, g + 1)
  {
    hide PostmanOut, OnWire, Receiver, InRange;
    var ms, p := Trace(net), PolicyOf(net, home);
    var upTo := ms[..g + 1];
    var before := PostmanOut(p, f, ms[..g]);
    ReceiverInHome(p, Sources(upTo));
    NothingYet(net.codec, p, f, ms);
    PostmanOutNext(p, f, ms, g);
    var mid := before + (if g == 0 then [ms[g].(syncTime := true)] else []);
    OnWireSnoc(net.codec, before, ms[g].(syncTime := true));
    OnWireSnoc(net.codec, mid, ms[g].(syncTime := false));
    assert g > 0 ==> mid == before;
  }

  lemma NothingYet(codec: Codec, p: Policy, f: int, ms: seq<DNSMsg>)
    requires InRange(p)
    ensures PostmanOut(p, f, ms[..0]) == [] && OnWire(codec, []) == []
  {
    assert Serialised(codec, []) == [];
  }

  lemma PostmanOutNext(p: Policy, f: int, ms: seq<DNSMsg>, g: nat)
    requires InRange(p) && g < |ms|
    ensures var mid := PostmanOut(p, f, ms[..g]) + (if g == 0 then [ms[g].(syncTime := true)] else []);
            PostmanOut(p, f, ms[..g + 1]) == if Receiver(p, Sources(ms[..g + 1])) == f then mid + [ms[g].(syncTime := false)] else mid
  {
    hide Receiver;
    var upTo := ms[..g + 1];
    assert upTo[..g] == ms[..g] && upTo[g] == ms[g] && upTo[0] == ms[0];
    var mid := PostmanOut(p, f, ms[..g]) + (if g == 0 then [ms[g].(syncTime := true)] else []);
    assert mid + [] == mid;
  }

  /** What one usable query does to a Postman that can route it. */
  lemma PostmanTurn(codec: Codec, pick: nat -> int, st: Postman.State, m: DNSMsg)
    requires Usable(m) && !st.aborted && st.live == st.wire.Keys
    requires Postman.Routable(pick, st, m.srcIp)
    ensures var st' := Postman.OnMessage(codec, pick, st, m);
            var (table, fd) := Postman.RouteOne(pick, st, m.srcIp);
            && st'.fds == st.fds && st'.live == st.live && st'.wire.Keys == st.wire.Keys
            && st'.table == table && st'.synced && !st'.aborted
            && forall f | f in st.wire ::
                 st'.wire[f] ==
                 var synced := if st.synced then st.wire[f] else st.wire[f] + Frame(PREFIX, codec.ser(m.(syncTime := true)));
                 if f == fd then synced + Frame(PREFIX, codec.ser(m.(syncTime := false))) else synced
  {
    var ready := Postman.Synced(codec, st, m);
    assert ready.wire.Keys == st.wire.Keys;
    var st' := Postman.OnMessage(codec, pick, st, m);
    assert Postman.RouteOne(pick, ready, m.srcIp) == Postman.RouteOne(pick, st, m.srcIp);
    var fd := Postman.RouteOne(pick, st, m.srcIp).1;
    assert st'.wire == ready.wire[fd := ready.wire[fd] + Frame(PREFIX, codec.ser(m.(syncTime := false)))];
  }

  lemma PostmanAdvances(net: Net, home: seq<int>, st: Postman.State, g: nat)
    requires Sound(net) && PostmanAt(net, home, st, g) && g < |Trace(net)| && home <= st.fds
    ensures var st' := Postman.OnMessage(net.codec, net.pick, st, Trace(net)[g]);
            && PostmanAt(net, home, st', g + 1)
            && st'.fds == st.fds
  {
    var m := Trace(net)[g];
    assert m in Trace(net);
    UsableOfContents(net.input);
    PostmanRoutes(net, home, st, g);
    PostmanTurn(net.codec, net.pick, st, m);
    var st' := Postman.OnMessage(net.codec, net.pick, st, m);
    forall f | f in st'.fds ensures ClientWire(net, home, st'.wire[f], f, g + 1) {
      ClientWireAdvances(net, home, st.wire[f], f, g);
    }
  }

  lemma {:induction false} PostmanFolds(net: Net, home: seq<int>, st: Postman.State, g: nat, g': nat)
    requires Sound(net) && PostmanAt(net, home, st, g) && g <= g' <= |Trace(net)|
    requires g < g' ==> home <= st.fds
    ensures var st' := Fold(Postman.Turn(net.codec, net.pick), st, Trace(net)[g..g']);
            && PostmanAt(net, home, st', g')
            && st'.fds == st.fds
    decreases g' - g
  {
    hide PostmanAt, Postman.OnMessage, UsableOf, Sound;
    var ms := Trace(net);
    if g < g' {
      var next := Postman.OnMessage(net.codec, net.pick, st, ms[g]);
      PostmanAdvances(net, home, st, g);
      PostmanFolds(net, home, next, g + 1, g');
      FoldCons(Postman.Turn(net.codec, net.pick), st, ms[g], ms[g + 1..g']);
      assert ms[g..g'] == [ms[g]] + ms[g + 1..g'];
    } else {
      assert ms[g..g'] == [];
    }
  }

  /** Connections are append-only. */
  ghost predicate Extends(wire: map<int, seq<byte>>, wire': map<int, seq<byte>>)
  {
    forall f | f in wire :: f in wire' && wire[f] <= wire'[f]
  }

  lemma {:induction false} PostmanAppends(codec: Codec, pick: nat -> int, st: Postman.State, ms: seq<DNSMsg>)
    ensures Extends(st.wire, Fold(Postman.Turn(codec, pick), st, ms).wire)
    decreases |ms|
  {
    if ms != [] {
      var next := Postman.OnMessage(codec, pick, st, ms[0]);
      assert Extends(st.wire, next.wire);
      PostmanAppends(codec, pick, next, ms[1..]);
    }
  }

  // ----- a Manager ---------------------------------------------------------

  /** The Manager behind a stream `ms` after its first `h` messages. */
  ghost predicate ManagerAt(codec: Codec, conf: Manager.Conf, ms: seq<DNSMsg>, st: Manager.State, h: nat)
    requires Manager.Sound(conf)
  {
    && h <= |ms|
    && (st.synced <==> h > 0)
    && st.wire.Keys == (set w | w in conf.home)
    && st.table == TableAt(conf, ms, h)
    && forall w | w in conf.home :: WorkerWire(codec, conf, ms, st.wire[w], w, h)
  }

  ghost function TableAt(conf: Manager.Conf, ms: seq<DNSMsg>, h: nat): Table
    requires Manager.Sound(conf) && h <= |ms|
  {
    if h == 0 then EMPTY else TableAfter(Manager.PolicyOf(conf), Sources(ms[1..h]))
  }

  lemma TableAtStart(conf: Manager.Conf, ms: seq<DNSMsg>)
    requires Manager.Sound(conf) && ms != []
    ensures TableAt(conf, ms, 0) == TableAt(conf, ms, 1)
  {
    assert Sources(ms[1..1]) == [];
  }

  ghost predicate WorkerWire(codec: Codec, conf: Manager.Conf, ms: seq<DNSMsg>, wire: seq<byte>, w: int, h: nat)
    requires Manager.Sound(conf) && h <= |ms|
  {
    wire == OnWire(codec, ManagerOut(conf, w, ms[..h]))
  }

  lemma WorkerWireAdvances(codec: Codec, conf: Manager.Conf, ms: seq<DNSMsg>, wire: seq<byte>, w: int, h: nat)
    requires Manager.Sound(conf) && h < |ms| && WorkerWire(codec, conf, ms, wire, w, h)
    ensures h == 0 || Receiver(Manager.PolicyOf(conf), Sources(ms[1..h + 1])) == w
            ==> WorkerWire(codec, conf, ms, wire + Frame(PREFIX, codec.ser(ms[h])), w, h + 1)
    ensures !(h == 0 || Receiver(Manager.PolicyOf(conf), Sources(ms[1..h + 1])) == w)
            ==> WorkerWire(codec, conf, ms, wire, w, h + 1)
  {
    var upTo := ms[..h + 1];
    assert upTo[..h] == ms[..h] && upTo[1..] == ms[1..h + 1];
    var before := ManagerOut(conf, w, ms[..h]);
    OnWireSnoc(codec, before, ms[h]);
    assert before + [] == before;
  }

  lemma ManagerRoutes(conf: Manager.Conf, ms: seq<DNSMsg>, h: nat)
    requires Manager.Sound(conf) && 1 <= h < |ms|
    ensures var p := Manager.PolicyOf(conf);
            var srcs := Sources(ms[1..h + 1]);
            && Route(p, TableAt(conf, ms, h), ms[h].srcIp) == (TableAt(conf, ms, h + 1), Receiver(p, srcs))
            && Receiver(p, srcs) in conf.home
  {
    var srcs := Sources(ms[1..h + 1]);
    assert srcs[..h - 1] == Sources(ms[1..h]);
    ReceiverInHome(Manager.PolicyOf(conf), srcs);
  }

  lemma ManagerStarts(codec: Codec, conf: Manager.Conf, ms: seq<DNSMsg>, st: Manager.State)
    requires Manager.Sound(conf) && st == Manager.Initial(conf)
    ensures ManagerAt(codec, conf, ms, st, 0)
  {
    assert ms[..0] == [];
    assert OnWire(codec, []) == [];
  }

  lemma ManagerAdvances(codec: Codec, conf: Manager.Conf, ms: seq<DNSMsg>, st: Manager.State, h: nat)
    requires Faithful(codec) && Manager.Sound(conf) && SyncFirst(ms) && ManagerAt(codec, conf, ms, st, h) && h < |ms|
    ensures ManagerAt(codec, conf, ms, Manager.OnPayload(codec, conf, st, codec.ser(ms[h])), h + 1)
  {
    hide ManagerOut, TableAt, TableAfter, Receiver, WorkerWire, Route, Frame, OnWire;
    var p := codec.ser(ms[h]);
    assert codec.parse(p) == ms[h];
    var st' := Manager.OnPayload(codec, conf, st, p);
    if h == 0 {
      Manager.AppendAllReaches(st.wire, conf.home, p);
      TableAtStart(conf, ms);
    } else {
      ManagerRoutes(conf, ms, h);
    }
    forall w | w in conf.home ensures WorkerWire(codec, conf, ms, st'.wire[w], w, h + 1) {
      WorkerWireAdvances(codec, conf, ms, st.wire[w], w, h);
    }
  }

  lemma {:induction false} ManagerFolds(codec: Codec, conf: Manager.Conf, ms: seq<DNSMsg>, st: Manager.State, h: nat, h': nat)
    requires Faithful(codec) && Manager.Sound(conf) && SyncFirst(ms) && ManagerAt(codec, conf, ms, st, h) && h <= h' <= |ms|
    ensures ManagerAt(codec, conf, ms, Fold(Manager.Turn(codec, conf), st, Serialised(codec, ms[h..h'])), h')
    decreases h' - h
  {
    hide ManagerAt, Manager.OnPayload, SyncFirst, Faithful;
    if h < h' {
      var next := Manager.OnPayload(codec, conf, st, codec.ser(ms[h]));
      ManagerAdvances(codec, conf, ms, st, h);
      ManagerFolds(codec, conf, ms, next, h + 1, h');
      FoldCons(Manager.Turn(codec, conf), st, codec.ser(ms[h]), Serialised(codec, ms[h + 1..h']));
      assert Serialised(codec, ms[h..h']) == [codec.ser(ms[h])] + Serialised(codec, ms[h + 1..h']);
    } else {
      assert Serialised(codec, ms[h..h']) == [];
    }
  }

  lemma {:induction false} ManagerAppends(codec: Codec, conf: Manager.Conf, st: Manager.State, ps: seq<Payload>)
    requires Manager.Sound(conf)
    ensures Extends(st.wire, Fold(Manager.Turn(codec, conf), st, ps).wire)
    decreases |ps|
  {
    if ps != [] {
      var next := Manager.OnPayload(codec, conf, st, ps[0]);
      Manager.AppendAllReaches(st.wire, conf.home, ps[0]);
      assert Extends(st.wire, next.wire);
      ManagerAppends(codec, conf, next, ps[1..]);
    }
  }

  // ----- a worker ----------------------------------------------------------

  /** The worker behind a stream `ms` after its first `j` messages. It dies on its
      first query exactly when the sync message carries the stamp 0.0. Its time base is
      the sync message's stamp and the first reading of its clock. */
  ghost predicate WorkerAt(conf: Client.Conf, ms: seq<DNSMsg>, st: Client.State, j: nat)
  {
    && j <= |ms|
    && (st.aborted <==> j >= 2 && !IsSet(Client.Stamp(ms[0])))
    && (!st.aborted ==>
          && Client.Good(st, ms[..j])
          && (j == 0 ==> st.startTrace == ZERO && st.ticks == 0)
          && (j > 0 ==> st.startTrace == Client.Stamp(ms[0]) && st.startReal == conf.clock(0)))
  }

  lemma WorkerStarts(conf: Client.Conf, ms: seq<DNSMsg>, st: Client.State)
    requires st == Client.INITIAL
    ensures WorkerAt(conf, ms, st, 0)
  {
    Client.InitiallyGood(st, ms[..0]);
  }

  lemma WorkerAdvances(conf: Client.Conf, ms: seq<DNSMsg>, st: Client.State, j: nat)
    requires SyncFirst(ms) && WorkerAt(conf, ms, st, j) && j < |ms|
    ensures WorkerAt(conf, ms, Client.OnMessage(conf, st, ms[j]), j + 1)
  {
    hide Client.Accounted, Client.TimersOnTarget, Client.Scheduled;
    assert ms[..j + 1] == ms[..j] + [ms[j]];
    if !st.aborted {
      Client.OnMessageAccounts(conf, st, ms[..j], ms[j]);
      if j > 0 { KeepsBase(conf, st, ms[j]); }
    }
  }

  lemma KeepsBase(conf: Client.Conf, st: Client.State, m: DNSMsg)
    requires !st.aborted && !m.syncTime
    ensures var st' := Client.OnMessage(conf, st, m);
            st'.startTrace == st.startTrace && st'.startReal == st.startReal && (IsSet(st.startTrace) ==> !st'.aborted)
  {
    hide Decide, Delay;
  }

  lemma {:induction false} WorkerFolds(conf: Client.Conf, ms: seq<DNSMsg>, st: Client.State, j: nat, j': nat)
    requires SyncFirst(ms) && WorkerAt(conf, ms, st, j) && j <= j' <= |ms|
    ensures WorkerAt(conf, ms, Fold(Client.Turn(conf), st, ms[j..j']), j')
    decreases j' - j
  {
    hide WorkerAt, Client.OnMessage, SyncFirst;
    if j < j' {
      var next := Client.OnMessage(conf, st, ms[j]);
      WorkerAdvances(conf, ms, st, j);
      WorkerFolds(conf, ms, next, j + 1, j');
      FoldCons(Client.Turn(conf), st, ms[j], ms[j + 1..j']);
      assert ms[j..j'] == [ms[j]] + ms[j + 1..j'];
    } else {
      assert ms[j..j'] == [];
    }
  }

  lemma WorkerFires(conf: Client.Conf, ms: seq<DNSMsg>, st: Client.State, j: nat, i: nat)
    requires WorkerAt(conf, ms, st, j) && !st.aborted && i < |st.pending|
    ensures WorkerAt(conf, ms, Client.OnFire(st, i), j)
  {
    Client.OnFireAccounts(st, ms[..j], i);
  }
}
