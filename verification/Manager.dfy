/** The Manager of a replay client: the second routing hop, from the controller's
    stream (or a local input file) to the worker processes. */
module Manager {
  import opened Pacing
  import opened Bytes
  import opened Framing
  import opened Messages
  import opened Routing

  /** `home` are the workers' sockets, `rand` the values of `rand()`. */
  datatype Conf = Conf(home: seq<int>, rand: nat -> nat, disableMapping: bool)

  /** What `main` sets up: one socket pair per worker, at least one worker. */
  predicate Sound(conf: Conf)
  {
    && conf.home != []
    && forall i, j | 0 <= i < j < |conf.home| :: conf.home[i] != conf.home[j]
  }

  function PolicyOf(conf: Conf): (p: Policy)
    requires Sound(conf)
    ensures InRange(p)
  {
    Policy(conf.home, (k: nat) => conf.rand(k) % |conf.home|, !conf.disableMapping)
  }

  datatype State = State(table: Table, synced: bool, wire: map<int, seq<byte>>)

  function Initial(conf: Conf): State
  {
    State(EMPTY, false, map fd | fd in conf.home :: [])
  }

  function Append(wire: map<int, seq<byte>>, fd: int, p: Payload): map<int, seq<byte>>
  {
    wire[fd := (if fd in wire then wire[fd] else []) + Frame(PREFIX, p)]
  }

  /** The same frame on each of `fds` in turn. */
  function AppendAll(wire: map<int, seq<byte>>, fds: seq<int>, p: Payload): map<int, seq<byte>>
  {
    if fds == [] then wire
    else Append(AppendAll(wire, fds[..|fds| - 1], p), fds[|fds| - 1], p)
  }

  /** The first sync message is forwarded to every worker; any other message goes
      to one. The payload is passed on as it came. */
  function OnPayload(codec: Codec, conf: Conf, st: State, p: Payload): State
    requires Sound(conf)
  {
    var m := codec.parse(p);
    if !st.synced && m.syncTime then
      st.(synced := true, wire := AppendAll(st.wire, conf.home, p))
    else
      var (table, fd) := Route(PolicyOf(conf), st.table, m.srcIp);
      st.(table := table, wire := Append(st.wire, fd, p))
  }

  function Turn(codec: Codec, conf: Conf): (State, Payload) -> State
    requires Sound(conf)
  {
    (st, p) => OnPayload(codec, conf, st, p)
  }

  lemma {:induction false} AppendAllReaches(wire: map<int, seq<byte>>, fds: seq<int>, p: Payload)
    requires forall i, j | 0 <= i < j < |fds| :: fds[i] != fds[j]
    ensures AppendAll(wire, fds, p).Keys == wire.Keys + (set fd | fd in fds)
    ensures forall fd | fd in AppendAll(wire, fds, p) ::
              AppendAll(wire, fds, p)[fd]
              == if fd in fds then (if fd in wire then wire[fd] else []) + Frame(PREFIX, p) else wire[fd]
  {
    if fds != [] {
      var n := |fds| - 1;
      AppendAllReaches(wire, fds[..n], p);
      assert fds == fds[..n] + [fds[n]];
      assert fds[n] !in fds[..n];
    }
  }

  /** The payloads that a Manager in distributed mode receives for the usable
      queries `ms`: the sync message, then every query. */
  function AsReceived(codec: Codec, ms: seq<DNSMsg>): seq<Payload>
  {
    if ms == [] then []
    else [codec.ser(ms[0].(syncTime := true))] + PlainPayloads(codec, ms)
  }

  function PlainPayloads(codec: Codec, ms: seq<DNSMsg>): (ps: seq<Payload>)
    ensures |ps| == |ms|
  {
    if ms == [] then []
    else PlainPayloads(codec, ms[..|ms| - 1]) + [codec.ser(ms[|ms| - 1].(syncTime := false))]
  }

  /** Local mode, query by query. */
  function Local(codec: Codec, conf: Conf, ms: seq<DNSMsg>): State
    requires Sound(conf)
  {
    if ms == [] then Initial(conf)
    else
      var m := ms[|ms| - 1];
      var st := Local(codec, conf, ms[..|ms| - 1]);
      var ready := if |ms| == 1 then OnPayload(codec, conf, st, codec.ser(m.(syncTime := true))) else st;
      OnPayload(codec, conf, ready, codec.ser(m.(syncTime := false)))
  }

  // ----- which worker gets a query ---------------------------------------------

  ghost predicate IsStream(codec: Codec, sync: Payload, qs: seq<Payload>)
  {
    codec.parse(sync).syncTime && forall q | q in qs :: !codec.parse(q).syncTime
  }

  lemma {:induction false} AfterStream(codec: Codec, conf: Conf, sync: Payload, qs: seq<Payload>)
    requires Sound(conf) && IsStream(codec, sync, qs)
    ensures var st := Fold(Turn(codec, conf), Initial(conf), [sync] + qs);
            && st.synced && st.wire.Keys == (set fd | fd in conf.home)
            && st.table == TableAfter(PolicyOf(conf), Sources(Parsed(codec, qs)))
  {
    hide Route, PolicyOf, AppendAll;
    var turn := Turn(codec, conf);
    if qs == [] {
      assert [sync] + qs == [] + [sync];
      FoldSnoc(turn, Initial(conf), [], sync);
      AppendAllReaches(Initial(conf).wire, conf.home, sync);
    } else {
      var n := |qs| - 1;
      ShorterStream(codec, sync, qs);
      AfterStream(codec, conf, sync, qs[..n]);
      LastTurn(codec, conf, sync, qs);
      var srcs := Sources(Parsed(codec, qs));
      assert srcs[..n] == Sources(Parsed(codec, qs[..n]));
      NextQuery(codec, conf, Fold(turn, Initial(conf), [sync] + qs[..n]), qs[n], srcs);
    }
  }

  /** One query in a state that has followed the stream so far. */
  lemma NextQuery(codec: Codec, conf: Conf, st: State, q: Payload, srcs: seq<string>)
    requires Sound(conf) && !codec.parse(q).syncTime && srcs != [] && srcs[|srcs| - 1] == codec.parse(q).srcIp
    requires st.table == TableAfter(PolicyOf(conf), srcs[..|srcs| - 1]) && st.wire.Keys == (set fd | fd in conf.home)
    ensures var st' := OnPayload(codec, conf, st, q);
            var fd := Receiver(PolicyOf(conf), srcs);
            && fd in st.wire && fd in conf.home
            && st'.synced == st.synced && st'.table == TableAfter(PolicyOf(conf), srcs)
            && st'.wire == st.wire[fd := st.wire[fd] + Frame(PREFIX, q)]
  {
    hide Route;
    ReceiverInHome(PolicyOf(conf), srcs);
    HomeOfPolicy(conf);
  }

  lemma HomeOfPolicy(conf: Conf)
    requires Sound(conf)
    ensures PolicyOf(conf).home == conf.home
  {
  }

  /** The sync message is written once to every worker. */
  lemma SyncReachesAll(codec: Codec, conf: Conf, sync: Payload)
    requires Sound(conf) && codec.parse(sync).syncTime
    ensures var st := Fold(Turn(codec, conf), Initial(conf), [sync]);
            forall fd | fd in conf.home :: fd in st.wire && st.wire[fd] == Frame(PREFIX, sync)
  {
    hide AppendAll;
    FoldSnoc(Turn(codec, conf), Initial(conf), [], sync);
    assert [] + [sync] == [sync];
    AppendAllReaches(Initial(conf).wire, conf.home, sync);
  }

  /** Behind the sync message, the last query `q` of a stream is written to the worker that
      `rand()` chose: by the draw of its own position if mapping is disabled, and otherwise
      by the draw of the first query of its source, query `k`, which is the number of distinct sources
      before that one. No other worker is written to. */
  lemma WorkerIsDrawn(codec: Codec, conf: Conf, sync: Payload, qs: seq<Payload>, k: nat)
    requires Sound(conf) && IsStream(codec, sync, qs) && k < |qs|
    requires codec.parse(qs[k]).srcIp == codec.parse(qs[|qs| - 1]).srcIp
    requires codec.parse(qs[k]).srcIp !in Sources(Parsed(codec, qs[..k]))
    ensures var n := |qs| - 1;
            var before := Fold(Turn(codec, conf), Initial(conf), [sync] + qs[..n]);
            var after := Fold(Turn(codec, conf), Initial(conf), [sync] + qs);
            var draw := if conf.disableMapping then n else |set s | s in Sources(Parsed(codec, qs[..k]))|;
            var fd := conf.home[conf.rand(draw) % |conf.home|];
            fd in before.wire && after.wire == before.wire[fd := before.wire[fd] + Frame(PREFIX, qs[n])]
  {
    hide IsStream, Fold, Turn, PolicyOf, Receiver, Sound;
    var srcs := Sources(Parsed(codec, qs));
    assert srcs[..k] == Sources(Parsed(codec, qs[..k]));
    assert srcs[k] == codec.parse(qs[k]).srcIp && srcs[|srcs| - 1] == codec.parse(qs[|qs| - 1]).srcIp;
    LastIsWritten(codec, conf, sync, qs);
    DrawnWorker(conf, srcs, k);
  }

  lemma LastIsWritten(codec: Codec, conf: Conf, sync: Payload, qs: seq<Payload>)
    requires Sound(conf) && IsStream(codec, sync, qs) && qs != []
    ensures var n := |qs| - 1;
            var before := Fold(Turn(codec, conf), Initial(conf), [sync] + qs[..n]);
            var after := Fold(Turn(codec, conf), Initial(conf), [sync] + qs);
            var fd := Receiver(PolicyOf(conf), Sources(Parsed(codec, qs)));
            fd in before.wire && after.wire == before.wire[fd := before.wire[fd] + Frame(PREFIX, qs[n])]
  {
    hide Receiver, OnPayload, TableAfter, PolicyOf, Fold, Turn, IsStream, Initial;
    var n := |qs| - 1;
    var srcs := Sources(Parsed(codec, qs));
    ShorterStream(codec, sync, qs);
    AfterStream(codec, conf, sync, qs[..n]);
    LastTurn(codec, conf, sync, qs);
    assert srcs[..n] == Sources(Parsed(codec, qs[..n]));
    NextQuery(codec, conf, Fold(Turn(codec, conf), Initial(conf), [sync] + qs[..n]), qs[n], srcs);
  }

  lemma ShorterStream(codec: Codec, sync: Payload, qs: seq<Payload>)
    requires IsStream(codec, sync, qs) && qs != []
    ensures IsStream(codec, sync, qs[..|qs| - 1]) && !codec.parse(qs[|qs| - 1]).syncTime
  {
    assert qs[|qs| - 1] in qs;
  }

  lemma LastTurn(codec: Codec, conf: Conf, sync: Payload, qs: seq<Payload>)
    requires Sound(conf) && qs != []
    ensures var n := |qs| - 1;
            Fold(Turn(codec, conf), Initial(conf), [sync] + qs)
            == OnPayload(codec, conf, Fold(Turn(codec, conf), Initial(conf), [sync] + qs[..n]), qs[n])
  {
    hide Fold, OnPayload;
    var n := |qs| - 1;
    FoldSnoc(Turn(codec, conf), Initial(conf), [sync] + qs[..n], qs[n]);
    assert [sync] + qs == ([sync] + qs[..n]) + [qs[n]];
  }

  lemma DrawnWorker(conf: Conf, srcs: seq<string>, k: nat)
    requires Sound(conf) && k < |srcs| && srcs[k] == srcs[|srcs| - 1] && srcs[k] !in srcs[..k]
    ensures Receiver(PolicyOf(conf), srcs) ==
      conf.home[conf.rand(if conf.disableMapping then |srcs| - 1 else |set s | s in srcs[..k]|) % |conf.home|]
  {
    hide Receiver;
    ReceiverIsDrawn(PolicyOf(conf), srcs, k);
  }

  class ManagerProcess {
    const codec: Codec
    const conf: Conf
    var comMsgBuffer: seq<byte>
    var doneSyncTime: bool
    var clientSrc2fd: map<string, int>
    var drawn: nat
    var wire: map<int, seq<byte>>
    const queryPace: real
    var queryPaceTs: real

    constructor (codec: Codec, conf: Conf, pace: real)
      requires Sound(conf)
      ensures this.codec == codec && this.conf == conf && queryPace == pace
      ensures comMsgBuffer == [] && Abs() == Initial(conf)
      ensures pace > 0.0 ==> queryPaceTs == At(pace, 0)
    {
      this.codec, this.conf, queryPace := codec, conf, pace;
      queryPaceTs := if pace > 0.0 then FAKE_START else 0.0;
      comMsgBuffer, doneSyncTime, clientSrc2fd, drawn := [], false, map[], 0;
      wire := map fd | fd in conf.home :: [];
    }

    ghost function Abs(): State
      reads this
    {
      State(Table(clientSrc2fd, drawn), doneSyncTime, wire)
    }

    /** `rand_client_fd` */
    method RandClientFd(src: string) returns (fd: int)
      requires Sound(conf)
      modifies this`clientSrc2fd, this`drawn
      ensures (Table(clientSrc2fd, drawn), fd) == Route(PolicyOf(conf), old(Abs()).table, src)
      ensures conf.disableMapping || src !in old(clientSrc2fd) ==>
                fd == conf.home[conf.rand(old(drawn)) % |conf.home|] && drawn == old(drawn) + 1
      ensures !conf.disableMapping ==> src in clientSrc2fd && clientSrc2fd[src] == fd
    {
      if conf.disableMapping {
        fd := conf.home[conf.rand(drawn) % |conf.home|];
        drawn := drawn + 1;
      } else if src !in clientSrc2fd {
        fd := conf.home[conf.rand(drawn) % |conf.home|];
        clientSrc2fd := clientSrc2fd[src := fd];
        drawn := drawn + 1;
      } else {
        fd := clientSrc2fd[src];
      }
    }

    /** Two `write` calls: the length, then the data. */
    method WriteTo(fd: int, p: Payload)
      modifies this`wire
      ensures wire == Append(old(wire), fd, p)
    {
      var before := if fd in wire then wire[fd] else [];
      ConcatAssociates(before, ToBE(|p|, PREFIX), p);
      wire := wire[fd := before + ToBE(|p|, PREFIX)];
      wire := wire[fd := wire[fd] + p];
    }

    method WriteAll(p: Payload)
      modifies this`wire
      ensures wire == AppendAll(old(wire), conf.home, p)
    {
      for i := 0 to |conf.home|
        invariant wire == AppendAll(old(wire), conf.home[..i], p)
        modifies this`wire
      {
        assert conf.home[..i + 1][..i] == conf.home[..i];
        WriteTo(conf.home[i], p);
      }
      assert conf.home[..|conf.home|] == conf.home;
    }

    /** The body of the decode loop for one message. */
    method Handle(p: Payload)
      requires Sound(conf)
      modifies this`doneSyncTime, this`wire, this`clientSrc2fd, this`drawn
      ensures Abs() == OnPayload(codec, conf, old(Abs()), p)
    {
      var msg := codec.parse(p);
      if !doneSyncTime && msg.syncTime {
        doneSyncTime := true;
        WriteAll(p);
      } else {
        var fd := RandClientFd(msg.srcIp);
        WriteTo(fd, p);
      }
    }

    /** `com_read_cb` */
    method ComRead(data: seq<byte>)
      requires Sound(conf)
      modifies this
      ensures var d := Drain(PREFIX, old(comMsgBuffer) + data);
              comMsgBuffer == d.rest && Abs() == Fold(Turn(codec, conf), old(Abs()), d.payloads)
    {
      hide OnPayload, FromBE, Pow256, Drain;
      comMsgBuffer := comMsgBuffer + data;
      ghost var all := Drain(PREFIX, comMsgBuffer);
      ghost var start := Abs();
      ghost var done: seq<Payload> := [];
      while |comMsgBuffer| > PREFIX
        invariant all.payloads == done + Drain(PREFIX, comMsgBuffer).payloads
        invariant all.rest == Drain(PREFIX, comMsgBuffer).rest
        invariant Abs() == Fold(Turn(codec, conf), start, done)
        decreases |comMsgBuffer|
      {
        DrainTurn(PREFIX, comMsgBuffer, done);
        var sz := HeadLen(PREFIX, comMsgBuffer);
        var left := Left(PREFIX, comMsgBuffer);
        if sz > left {
          break;
        }
        var d := comMsgBuffer[PREFIX..PREFIX + sz];
        FoldSnoc(Turn(codec, conf), start, done, d);
        Handle(d);
        done := done + [d];
        comMsgBuffer := comMsgBuffer[sz + PREFIX..];
      }
      DrainTurn(PREFIX, comMsgBuffer, done);
      assert all.payloads == done;
    }

    /** `read_input_file`: the usable queries, restamped if a pace is set. */
    method ReadInputFile(input: seq<DNSMsg>)
      requires Sound(conf) && Faithful(codec)
      requires Abs() == Initial(conf) && (queryPace > 0.0 ==> queryPaceTs == At(queryPace, 0))
      modifies this`doneSyncTime, this`wire, this`clientSrc2fd, this`drawn, this`queryPaceTs
      ensures Abs() == Local(codec, conf, PacedAll(queryPace, UsableOf(input)))
    {
      hide OnPayload, Faithful, Paced;
      ghost var usable: seq<DNSMsg> := [];
      assert PacedAll(queryPace, usable) == [];
      for i := 0 to |input|
        invariant usable == UsableOf(input[..i])
        invariant Abs() == Local(codec, conf, PacedAll(queryPace, usable))
        invariant doneSyncTime <==> usable != []
        invariant queryPace > 0.0 ==> queryPaceTs == At(queryPace, |usable|)
        modifies this`doneSyncTime, this`wire, this`clientSrc2fd, this`drawn, this`queryPaceTs
      {
        assert input[..i + 1][..i] == input[..i];
        var msg := input[i];
        if |msg.raw| == 0 {
          continue;
        }
        ghost var before := PacedAll(queryPace, usable);
        PacedAllSnoc(queryPace, usable, msg);
        msg := Restamp(msg, |usable|);
        ReadOne(msg);
        assert (before + [msg])[..|before|] == before;
        usable := usable + [input[i]];
      }
      assert input[..|input|] == input;
    }

    method Restamp(msg: DNSMsg, ghost k: nat) returns (r: DNSMsg)
      requires queryPace > 0.0 ==> queryPaceTs == At(queryPace, k)
      modifies this`queryPaceTs
      ensures r == Paced(queryPace, k, msg)
      ensures queryPace > 0.0 ==> queryPaceTs == At(queryPace, k + 1)
    {
      hide Rounded;
      r := msg;
      if queryPace > 0.0 { AtIsLate(queryPace, k); }
      if queryPace > 0.0 && queryPaceTs > 0.0 {
        var sec := queryPaceTs.Floor;
        r := r.(seconds := sec, microseconds := ((queryPaceTs - sec as real) * 1000000.0).Floor);
        queryPaceTs := Rounded(queryPaceTs + queryPace);
      }
    }

    /** One usable query from the file: sync first if nothing was sent yet, then
        the query itself. */
    method ReadOne(msg: DNSMsg)
      requires Sound(conf) && Faithful(codec)
      modifies this`doneSyncTime, this`wire, this`clientSrc2fd, this`drawn
      ensures doneSyncTime
      ensures Abs() == var st := if old(doneSyncTime) then old(Abs())
                                 else OnPayload(codec, conf, old(Abs()), codec.ser(msg.(syncTime := true)));
                       OnPayload(codec, conf, st, codec.ser(msg.(syncTime := false)))
    {
      if !doneSyncTime {
        var p := codec.ser(msg.(syncTime := true));
        doneSyncTime := true;
        WriteAll(p);
      }
      var q := codec.ser(msg.(syncTime := false));
      var fd := RandClientFd(msg.srcIp);
      WriteTo(fd, q);
    }
  }

  /** One more usable query adds its payload, after the sync message if it is the
      first. */
  lemma AsReceivedSnoc(codec: Codec, conf: Conf, ms: seq<DNSMsg>, m: DNSMsg)
    requires Sound(conf)
    ensures var turn := Turn(codec, conf);
            Fold(turn, Initial(conf), AsReceived(codec, ms + [m])) ==
            var st := Fold(turn, Initial(conf), AsReceived(codec, ms));
            turn(if ms == [] then turn(st, codec.ser(m.(syncTime := true))) else st, codec.ser(m.(syncTime := false)))
  {
    var turn := Turn(codec, conf);
    var all := ms + [m];
    assert all[..|all| - 1] == ms;
    var p := codec.ser(m.(syncTime := false));
    if ms == [] {
      assert all == [m];
      assert PlainPayloads(codec, [m]) == PlainPayloads(codec, ms) + [p] == [p];
      assert AsReceived(codec, all) == [codec.ser(m.(syncTime := true))] + [p];
      FoldSnoc(turn, Initial(conf), [codec.ser(m.(syncTime := true))], p);
      FoldSnoc(turn, Initial(conf), [], codec.ser(m.(syncTime := true)));
      assert [] + [codec.ser(m.(syncTime := true))] == [codec.ser(m.(syncTime := true))];
    } else {
      assert AsReceived(codec, all) == AsReceived(codec, ms) + [p];
      FoldSnoc(turn, Initial(conf), AsReceived(codec, ms), p);
    }
  }

  /** The payloads, one by one. */
  lemma {:induction false} AsReceivedIs(codec: Codec, ms: seq<DNSMsg>, i: nat)
    requires i < |ms|
    ensures |AsReceived(codec, ms)| == |ms| + 1
    ensures AsReceived(codec, ms)[0] == codec.ser(ms[0].(syncTime := true))
    ensures AsReceived(codec, ms)[i + 1] == codec.ser(ms[i].(syncTime := false))
  {
    PlainPayloadAt(codec, ms, i);
  }

  lemma {:induction false} PlainPayloadAt(codec: Codec, ms: seq<DNSMsg>, i: nat)
    requires i < |ms|
    ensures PlainPayloads(codec, ms)[i] == codec.ser(ms[i].(syncTime := false))
  {
    if i < |ms| - 1 { PlainPayloadAt(codec, ms[..|ms| - 1], i); }
  }

  /** Local mode writes to its workers exactly what distributed mode would write
      on receiving the sync message and the same queries. */
  lemma {:induction false} LocalIsDistributed(codec: Codec, conf: Conf, ms: seq<DNSMsg>)
    requires Sound(conf)
    ensures Local(codec, conf, ms) == Fold(Turn(codec, conf), Initial(conf), AsReceived(codec, ms))
  {
    hide OnPayload, PlainPayloads, Initial;
    if ms != [] {
      var n := |ms| - 1;
      LocalIsDistributed(codec, conf, ms[..n]);
      AsReceivedSnoc(codec, conf, ms[..n], ms[n]);
      assert ms[..n] + [ms[n]] == ms;
    }
  }
}
