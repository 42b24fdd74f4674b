/** The controller's Postman: it reassembles the Reader's stream, broadcasts one
    sync message and then routes every query to a connected client. */
module Postman {
  import opened Bytes
  import opened Framing
  import opened Messages
  import opened Routing
  import opened Common

  /** What the Postman knows, with the bytes written so far on each client's
      connection. `fds` is the accept order, `live` the clients still connected. */
  datatype State = State(fds: seq<int>, live: set<int>, table: Table, synced: bool,
                         wire: map<int, seq<byte>>, aborted: bool)

  const INITIAL := State([], {}, EMPTY, false, map[], false)

  /** A client has connected; nothing is written on its connection yet. */
  function Joined(st: State, fd: int): State
  {
    st.(fds := st.fds + [fd], live := st.live + {fd}, wire := st.wire[fd := []])
  }

  /** One more frame on each connection of `fds`. */
  function Spread(wire: map<int, seq<byte>>, fds: set<int>, p: Payload): map<int, seq<byte>>
  {
    map fd | fd in wire :: if fd in fds then wire[fd] + Frame(PREFIX, p) else wire[fd]
  }

  lemma SpreadOneMore(wire: map<int, seq<byte>>, all: set<int>, todo: set<int>, fd: int, p: Payload)
    requires fd in wire && fd in todo && todo <= all
    ensures fd in Spread(wire, all - todo, p)
    ensures Spread(wire, all - todo, p)[fd := Spread(wire, all - todo, p)[fd] + Frame(PREFIX, p)]
         == Spread(wire, all - (todo - {fd}), p)
  {
  }

  lemma SpreadNone(wire: map<int, seq<byte>>, all: set<int>, p: Payload)
    ensures Spread(wire, all - all, p) == wire
    ensures Spread(wire, all - {}, p) == Spread(wire, all, p)
  {
    assert all - {} == all;
  }

  function Broadcast(st: State, p: Payload): State
  {
    st.(synced := true, wire := Spread(st.wire, st.live, p))
  }

  function Write(st: State, fd: int, p: Payload): State
  {
    st.(wire := st.wire[fd := (if fd in st.wire then st.wire[fd] else []) + Frame(PREFIX, p)])
  }

  /** `rand_client` names a receiver, or the process exits: no client left, index
      out of range, or a receiver that has closed (its buffer event is null). */
  predicate Routable(pick: nat -> int, st: State, src: string)
  {
    if src in st.table.src2fd then st.table.src2fd[src] in st.live
    else
      var idx := pick(st.table.drawn);
      st.live != {} && 0 <= idx < |st.fds| && st.fds[idx] in st.live
  }

  function RouteOne(pick: nat -> int, st: State, src: string): (r: (Table, int))
    requires Routable(pick, st, src)
    ensures r.1 in st.live
  {
    if src in st.table.src2fd then (st.table, st.table.src2fd[src])
    else Route(Policy(st.fds, pick, true), st.table, src)
  }

  /** The first usable message is sent to every client to set its time base. */
  function Synced(codec: Codec, st: State, m: DNSMsg): State
  {
    if st.synced then st else Broadcast(st, codec.ser(m.(syncTime := true)))
  }

  function Delivered(codec: Codec, pick: nat -> int, st: State, m: DNSMsg): State
  {
    if !Routable(pick, st, m.srcIp) then st.(aborted := true)
    else
      var (table, fd) := RouteOne(pick, st, m.srcIp);
      Write(st.(table := table), fd, codec.ser(m.(syncTime := false)))
  }

  /** One turn of the decode loop. */
  function OnMessage(codec: Codec, pick: nat -> int, st: State, m: DNSMsg): State
  {
    if st.aborted || !Usable(m) then st
    else Delivered(codec, pick, Synced(codec, st, m), m)
  }

  function Turn(codec: Codec, pick: nat -> int): (State, DNSMsg) -> State
  {
    (st, m) => OnMessage(codec, pick, st, m)
  }

  /** The do-while loop: its first turn is not guarded by a size test, so it also
      takes an empty frame that fills the buffer exactly. */
  function DrainDo(buf: seq<byte>): Drained
    requires |buf| >= PREFIX
  {
    if HeadLen(PREFIX, buf) <= Left(PREFIX, buf) then
      var d := Drain(PREFIX, AfterHead(PREFIX, buf));
      Drained([HeadPayload(PREFIX, buf)] + d.payloads, d.rest)
    else
      Drained([], buf)
  }

  function Prepend(done: seq<Payload>, d: Drained): Drained
  {
    Drained(done + d.payloads, d.rest)
  }

  /** One turn of the loop moves the frame at the front to the decoded ones and
      goes on with what follows, if that is long enough. */
  lemma DrainDoTurn(buf: seq<byte>, done: seq<Payload>)
    requires |buf| >= PREFIX && HeadLen(PREFIX, buf) <= Left(PREFIX, buf)
    ensures var rest, done' := AfterHead(PREFIX, buf), done + [HeadPayload(PREFIX, buf)];
            && Prepend(done, DrainDo(buf)) == Prepend(done', Drain(PREFIX, rest))
            && Prepend(done', Drain(PREFIX, rest)) ==
                 if |rest| > PREFIX then Prepend(done', DrainDo(rest)) else Drained(done', rest)
  {
  }

  /** It agrees with the guarded loop of the other receivers except on a lone
      empty frame. */
  lemma DrainDoAgrees(buf: seq<byte>)
    requires |buf| >= PREFIX
    ensures DrainDo(buf) == Drain(PREFIX, buf) <==> !(|buf| == PREFIX && HeadLen(PREFIX, buf) == 0)
  {
  }

  /** Equal, or both ended: nothing can be observed of a process that exits. */
  ghost predicate Same(a: State, b: State)
  {
    a.aborted == b.aborted && (!a.aborted ==> a == b)
  }

  /** A length that is read across the end of the string never exceeds the wrapped
      `left`, so the callback goes on to cut off more than there is. */
  lemma TooFewAreFatal(buf: seq<byte>, behind: seq<byte>)
    requires |buf| < PREFIX && |behind| >= PREFIX && behind[0] == 0
    ensures FromBE((buf + behind)[..PREFIX]) <= Pow256(PREFIX) + |buf| - PREFIX
  {
    var b := (buf + behind)[..PREFIX];
    Pow256Values();
    FourOctets(b);
    assert b[|buf|] == 0;
  }

  // ----- index consistency -------------------------------------------------

  predicate NoDuplicates(ss: seq<string>)
  {
    forall i, j | 0 <= i < j < |ss| :: ss[i] != ss[j]
  }

  /** `client_src2fd` and `client_fd2src` describe one relation: a source is
      listed under a descriptor exactly when it is mapped to it, once. */
  ghost predicate Inverse(src2fd: map<string, int>, fd2src: map<int, seq<string>>)
  {
    && (forall s | s in src2fd :: src2fd[s] in fd2src && s in fd2src[src2fd[s]])
    && (forall fd, s | fd in fd2src && s in fd2src[fd] :: s in src2fd && src2fd[s] == fd)
    && (forall fd | fd in fd2src :: NoDuplicates(fd2src[fd]))
  }

  lemma InverseAssign(src2fd: map<string, int>, fd2src: map<int, seq<string>>, src: string, fd: int)
    requires Inverse(src2fd, fd2src) && src !in src2fd
    ensures var listed := if fd in fd2src then fd2src[fd] else [];
            Inverse(src2fd[src := fd], fd2src[fd := listed + [src]])
  {
  }

  lemma InverseClose(src2fd: map<string, int>, fd2src: map<int, seq<string>>, fd: int)
    requires Inverse(src2fd, fd2src) && fd in fd2src
    ensures Inverse(Without(src2fd, fd2src[fd]), fd2src - {fd})
    ensures forall s :: s in Without(src2fd, fd2src[fd]) <==> s in src2fd && src2fd[s] != fd
  {
    var kept, lists := Without(src2fd, fd2src[fd]), fd2src - {fd};
    forall s | s in src2fd ensures src2fd[s] == fd <==> s in fd2src[fd] {
      assert s in fd2src[src2fd[s]];
    }
    forall s | s in kept ensures kept[s] in lists && s in lists[kept[s]] {
      assert s in src2fd;
    }
    forall g, s | g in lists && s in lists[g] ensures s in kept && kept[s] == g {
      assert g in fd2src && s in fd2src[g];
    }
    forall g | g in lists ensures NoDuplicates(lists[g]) {
      assert g in fd2src;
    }
  }

  function Without(src2fd: map<string, int>, gone: seq<string>): map<string, int>
  {
    map s | s in src2fd && s !in gone :: src2fd[s]
  }

  lemma WithoutNone(src2fd: map<string, int>, listed: seq<string>)
    ensures Without(src2fd, listed[..0]) == src2fd
  {
  }

  lemma WithoutOneMore(src2fd: map<string, int>, listed: seq<string>, i: nat)
    requires i < |listed|
    ensures Without(src2fd, listed[..i]) - {listed[i]} == Without(src2fd, listed[..i + 1])
  {
    assert listed[..i + 1] == listed[..i] + [listed[i]];
  }

  lemma InverseAccept(src2fd: map<string, int>, fd2src: map<int, seq<string>>, fd: int)
    requires Inverse(src2fd, fd2src) && fd !in fd2src
    ensures Inverse(src2fd, fd2src[fd := []])
  {
  }

  /** The client indexes as they stand between two callbacks. */
  datatype Index = Index(live: set<int>, fd2src: map<int, seq<string>>, src2fd: map<string, int>)

  datatype IndexEvent = Accepted(fd: int) | Closed(fd: int) | Routed(src: string, fd: int)

  ghost predicate IndexStep(x: Index, e: IndexEvent, x': Index)
  {
    match e
    case Accepted(fd) =>
      fd !in x.live && x' == Index(x.live + {fd}, x.fd2src[fd := []], x.src2fd)
    case Closed(fd) =>
      fd in x.live && fd in x.fd2src
      && x' == Index(x.live - {fd}, x.fd2src - {fd}, Without(x.src2fd, x.fd2src[fd]))
    case Routed(src, fd) =>
      fd in x.live && fd in x.fd2src
      && if src in x.src2fd then fd == x.src2fd[src] && x' == x
         else x' == Index(x.live, x.fd2src[fd := x.fd2src[fd] + [src]], x.src2fd[src := fd])
  }

  ghost predicate Consistent(x: Index)
  {
    x.fd2src.Keys == x.live && Inverse(x.src2fd, x.fd2src)
  }

  lemma IndexStepConsistent(x: Index, e: IndexEvent, x': Index)
    requires Consistent(x) && IndexStep(x, e, x')
    ensures Consistent(x')
    ensures forall s | s in x.src2fd && e != Closed(x.src2fd[s]) :: s in x'.src2fd && x'.src2fd[s] == x.src2fd[s]
  {
    match e
    case Accepted(fd) => InverseAccept(x.src2fd, x.fd2src, fd);
    case Closed(fd) => InverseClose(x.src2fd, x.fd2src, fd);
    case Routed(src, fd) =>
      if src !in x.src2fd {
        InverseAssign(x.src2fd, x.fd2src, src, fd);
      }
  }

  ghost predicate IndexRun(xs: seq<Index>, es: seq<IndexEvent>)
  {
    && |xs| == |es| + 1
    && xs[0] == Index({}, map[], map[])
    && forall k | 0 <= k < |es| :: IndexStep(xs[k], es[k], xs[k + 1])
  }

  lemma {:induction false} EveryIndexRunConsistent(xs: seq<Index>, es: seq<IndexEvent>, k: nat)
    requires IndexRun(xs, es) && k <= |es|
    ensures Consistent(xs[k])
  {
    if k > 0 {
      EveryIndexRunConsistent(xs, es, k - 1);
      assert IndexStep(xs[k - 1], es[k - 1], xs[k]);
      IndexStepConsistent(xs[k - 1], es[k - 1], xs[k]);
    }
  }

  /** Over every sequence of accepts, closes and routings, a source keeps its
      client until that client closes. */
  lemma {:induction false} SourceKeepsClient(xs: seq<Index>, es: seq<IndexEvent>, i: nat, j: nat, src: string)
    requires IndexRun(xs, es) && i <= j <= |es|
    requires src in xs[i].src2fd
    requires forall k | i <= k < j :: es[k] != Closed(xs[i].src2fd[src])
    ensures src in xs[j].src2fd && xs[j].src2fd[src] == xs[i].src2fd[src]
    decreases j - i
  {
    if i < j {
      SourceKeepsClient(xs, es, i, j - 1, src);
      EveryIndexRunConsistent(xs, es, j - 1);
      assert IndexStep(xs[j - 1], es[j - 1], xs[j]);
      IndexStepConsistent(xs[j - 1], es[j - 1], xs[j]);
    }
  }

  // ----- the process -------------------------------------------------------

  /** A buffer event; 0 is the null pointer. */
  type Bev = nat

  class PostmanProcess {
    const codec: Codec
    const pick: nat -> int
    const numClients: nat
    var sktBuffer: seq<byte>
    var doneSyncTime: bool
    var startReadInput: bool
    var clientFds: seq<int>
    var clientFd2bev: map<int, Bev>
    var clientFd2src: map<int, seq<string>>
    var clientSrc2fd: map<string, int>
    var drawn: nat
    var wire: map<int, seq<byte>>
    var aborted: bool

    /** The three indexes agree, and only a dying process holds a null event. */
    ghost predicate IndexOk()
      reads `clientFd2bev, `clientFd2src, `clientSrc2fd, `aborted
    {
      && clientFd2src.Keys == clientFd2bev.Keys
      && Inverse(clientSrc2fd, clientFd2src)
      && (!aborted ==> forall fd | fd in clientFd2bev :: clientFd2bev[fd] != 0)
    }

    ghost predicate Valid()
      reads `clientFd2bev, `clientFd2src, `clientSrc2fd, `aborted, `wire
    {
      IndexOk() && (!aborted ==> clientFd2bev.Keys <= wire.Keys)
    }

    ghost function Abs(): State
      reads this
    {
      State(clientFds, clientFd2bev.Keys, Table(clientSrc2fd, drawn), doneSyncTime, wire, aborted)
    }

    ghost function Indexes(): Index
      reads `clientFd2bev, `clientFd2src, `clientSrc2fd
    {
      Index(clientFd2bev.Keys, clientFd2src, clientSrc2fd)
    }

    constructor (codec: Codec, pick: nat -> int, numClients: nat)
      ensures this.codec == codec && this.pick == pick && this.numClients == numClients
      ensures Valid() && Abs() == INITIAL && sktBuffer == [] && !startReadInput
    {
      this.codec, this.pick, this.numClients := codec, pick, numClients;
      sktBuffer, doneSyncTime, startReadInput := [], false, false;
      clientFds, clientFd2bev, clientFd2src, clientSrc2fd := [], map[], map[], map[];
      drawn, wire, aborted := 0, map[], false;
    }

    /** `accept_conn_cb`: the operating system hands out a descriptor that is not
        open. The Reader's gate opens when the configured number is first
        reached. */
    method Accept(fd: int, bev: Bev) returns (unblockReader: bool)
      requires Valid() && !aborted && fd !in clientFd2bev && bev != 0
      modifies this
      ensures Valid() && Abs() == Joined(old(Abs()), fd)
      ensures sktBuffer == old(sktBuffer)
      ensures unblockReader <==> !old(startReadInput) && |old(clientFd2bev)| + 1 == numClients
      ensures startReadInput <==> old(startReadInput) || unblockReader
      ensures IndexStep(old(Indexes()), Accepted(fd), Indexes())
    {
      hide Inverse;
      ghost var keys := clientFd2bev.Keys;
      Record(fd, bev);
      assert clientFd2bev.Keys == keys + {fd};
      unblockReader := !startReadInput && |clientFd2bev| == numClients;
      startReadInput := startReadInput || unblockReader;
    }

    /** Enters the connection in the indexes, with nothing written on it. */
    method Record(fd: int, bev: Bev)
      requires Valid() && !aborted && fd !in clientFd2bev && bev != 0
      modifies this`clientFd2bev, this`clientFd2src, this`clientFds, this`wire
      ensures Valid()
      ensures clientFd2bev == old(clientFd2bev)[fd := bev]
      ensures clientFd2src == old(clientFd2src)[fd := []]
      ensures clientFds == old(clientFds) + [fd] && wire == old(wire)[fd := []]
    {
      InverseAccept(clientSrc2fd, clientFd2src, fd);
      clientFd2bev := clientFd2bev[fd := bev];
      clientFd2src := clientFd2src[fd := []];
      clientFds := clientFds + [fd];
      wire := wire[fd := []];
    }

    /** `client_bevent_cb`: forgets the client and the sources mapped to it. The
        accept list keeps the stale descriptor. */
    method Close(fd: int)
      requires Valid() && !aborted
      modifies this
      ensures Valid()
      ensures aborted <==> fd !in old(clientFd2bev)
      ensures !aborted ==> IndexStep(old(Indexes()), Closed(fd), Indexes())
      ensures clientFds == old(clientFds) && wire == old(wire) && doneSyncTime == old(doneSyncTime)
    {
      if fd !in clientFd2bev {
        aborted := true;
        return;
      }
      InverseClose(clientSrc2fd, clientFd2src, fd);
      hide Inverse, Without;
      ghost var src2fd := clientSrc2fd;
      WithoutNone(src2fd, clientFd2src[fd]);
      var listed := clientFd2src[fd];
      clientFd2bev := clientFd2bev - {fd};
      var i := 0;
      while i < |listed|
        invariant 0 <= i <= |listed|
        invariant clientSrc2fd == Without(src2fd, listed[..i])
        modifies this`clientSrc2fd
      {
        WithoutOneMore(src2fd, listed, i);
        clientSrc2fd := clientSrc2fd - {listed[i]};
        i := i + 1;
      }
      assert listed[..i] == listed;
      clientFd2src := clientFd2src - {fd};
    }

    /** `rand_client`: a mapped source keeps its client; a new one is mapped and
        listed. A stale descriptor yields a null event, on which the caller's
        assertion fails. */
    method RandClient(src: string) returns (fd: int)
      requires Valid() && !aborted
      modifies this`clientSrc2fd, this`clientFd2src, this`clientFd2bev, this`drawn, this`aborted
      ensures Valid()
      ensures aborted <==> !Routable(pick, old(Abs()), src)
      ensures !aborted ==>
                && Abs() == old(Abs()).(table := RouteOne(pick, old(Abs()), src).0)
                && fd == RouteOne(pick, old(Abs()), src).1 && fd in wire
                && clientSrc2fd == old(clientSrc2fd)[src := fd]
                && (src in old(clientSrc2fd) ==> fd == old(clientSrc2fd)[src] && drawn == old(drawn))
                && (src !in old(clientSrc2fd) ==>
                      0 <= pick(old(drawn)) < |clientFds| && fd == clientFds[pick(old(drawn))] && drawn == old(drawn) + 1)
                && IndexStep(old(Indexes()), Routed(src, fd), Indexes())
    {
      hide NoDuplicates;
      fd := -1;
      if src !in clientSrc2fd {
        if |clientFd2bev| == 0 {
          aborted := true;
          return;
        }
        var idx := pick(drawn);
        if idx < 0 || idx >= |clientFds| {
          aborted := true;
          return;
        }
        Assign(src, clientFds[idx]);
        if aborted {
          return;
        }
      }
      fd := clientSrc2fd[src];
    }

    /** Maps and lists a new source, then looks up the event of its client. */
    method Assign(src: string, fd: int)
      requires Valid() && !aborted && src !in clientSrc2fd
      modifies this`clientSrc2fd, this`clientFd2src, this`clientFd2bev, this`drawn, this`aborted
      ensures Valid()
      ensures clientSrc2fd == old(clientSrc2fd)[src := fd] && drawn == old(drawn) + 1
      ensures aborted <==> fd !in old(clientFd2bev)
      ensures !aborted ==> IndexStep(old(Indexes()), Routed(src, fd), Indexes())
    {
      hide Inverse;
      InverseAssign(clientSrc2fd, clientFd2src, src, fd);
      clientSrc2fd := clientSrc2fd[src := fd];
      clientFd2src := clientFd2src[fd := (if fd in clientFd2src then clientFd2src[fd] else []) + [src]];
      drawn := drawn + 1;
      if fd !in clientFd2bev {
        clientFd2bev := clientFd2bev[fd := 0];
        aborted := true;
      }
    }

    /** `bufferevent_write` of the length and then of the data. */
    method WriteTo(fd: int, p: Payload)
      requires fd in wire
      modifies this`wire
      ensures wire == old(wire)[fd := old(wire)[fd] + Frame(PREFIX, p)]
    {
      ConcatAssociates(wire[fd], ToBE(|p|, PREFIX), p);
      wire := wire[fd := wire[fd] + ToBE(|p|, PREFIX)];
      wire := wire[fd := wire[fd] + p];
    }

    /** The sync message goes to every connected client. */
    method BroadcastSync(p: Payload)
      requires clientFd2bev.Keys <= wire.Keys
      modifies this`wire, this`doneSyncTime
      ensures doneSyncTime && wire == Spread(old(wire), clientFd2bev.Keys, p)
    {
      doneSyncTime := true;
      var todo: set<int> := clientFd2bev.Keys;
      ghost var all := todo;
      SpreadNone(wire, all, p);
      while todo != {}
        invariant todo <= all
        invariant wire == Spread(old(wire), all - todo, p)
        modifies this`wire
        decreases |todo|
      {
        var fd := AnyOf(todo);
        SpreadOneMore(old(wire), all, todo, fd, p);
        WriteTo(fd, p);
        todo := todo - {fd};
      }
    }

    method SyncOnce(msg: DNSMsg)
      requires Valid() && !aborted
      modifies this`wire, this`doneSyncTime
      ensures Valid() && Abs() == Synced(codec, old(Abs()), msg)
    {
      if !doneSyncTime {
        BroadcastSync(codec.ser(msg.(syncTime := true)));
      }
    }

    method Deliver(msg: DNSMsg)
      requires Valid() && !aborted
      modifies this`clientSrc2fd, this`clientFd2src, this`clientFd2bev, this`drawn, this`aborted, this`wire
      ensures Valid() && Same(Abs(), Delivered(codec, pick, old(Abs()), msg))
    {
      var fd := RandClient(msg.srcIp);
      if !aborted {
        ghost var routed := Abs();
        WriteTo(fd, codec.ser(msg.(syncTime := false)));
        assert Abs() == Write(routed, fd, codec.ser(msg.(syncTime := false)));
      }
    }

    /** The body of the decode loop for one message. */
    method Handle(msg: DNSMsg)
      requires Valid() && !aborted
      modifies this`clientSrc2fd, this`clientFd2src, this`clientFd2bev, this`drawn, this`aborted, this`wire, this`doneSyncTime
      ensures Valid() && Same(Abs(), OnMessage(codec, pick, old(Abs()), msg))
    {
      if |msg.raw| == 0 {
        return;
      }
      SyncOnce(msg);
      Deliver(msg);
    }

    /** `skt_read_cb`. With four or more bytes buffered, the callback handles exactly the
        frames of the do-while loop. With fewer, the unguarded first turn reads the
        length out of the memory `behind` the string, which starts with its
        terminating zero, and always dies. */
    method SktRead(data: seq<byte>, behind: seq<byte>)
      requires Valid() && !aborted && |behind| >= PREFIX && behind[0] == 0
      modifies this`sktBuffer, this`clientSrc2fd, this`clientFd2src, this`clientFd2bev, this`drawn, this`aborted, this`wire, this`doneSyncTime
      ensures Valid()
      ensures var buf := old(sktBuffer) + data;
              if |buf| < PREFIX then
                aborted && Abs().(aborted := false) == old(Abs()) && sktBuffer == buf
              else
                && Same(Abs(), Fold(Turn(codec, pick), old(Abs()), Parsed(codec, DrainDo(buf).payloads)))
                && (!aborted ==> sktBuffer == DrainDo(buf).rest)
    {
      sktBuffer := sktBuffer + data;
      if |sktBuffer| < PREFIX {
        var sz := FromBE((sktBuffer + behind)[..PREFIX]);
        var left := Pow256(PREFIX) + |sktBuffer| - PREFIX;
        TooFewAreFatal(sktBuffer, behind);
        aborted := sz <= left;
        return;
      }
      DecodeLoop();
    }

    method DecodeLoop()
      requires Valid() && !aborted && |sktBuffer| >= PREFIX
      modifies this`sktBuffer, this`clientSrc2fd, this`clientFd2src, this`clientFd2bev, this`drawn, this`aborted, this`wire, this`doneSyncTime
      ensures Valid()
      ensures Same(Abs(), Fold(Turn(codec, pick), old(Abs()), Parsed(codec, DrainDo(old(sktBuffer)).payloads)))
      ensures !aborted ==> sktBuffer == DrainDo(old(sktBuffer)).rest
    {
      ghost var all := DrainDo(sktBuffer);
      ghost var start := Abs();
      ghost var done: seq<Payload> := [];
      var again := true;
      while again
        invariant Valid() && !aborted
        invariant again ==> |sktBuffer| >= PREFIX
        invariant again ==> all == Prepend(done, DrainDo(sktBuffer))
        invariant !again ==> all == Drained(done, sktBuffer)
        invariant Abs() == Fold(Turn(codec, pick), start, Parsed(codec, done))
        decreases |sktBuffer|
      {
        if HeadLen(PREFIX, sktBuffer) > Left(PREFIX, sktBuffer) {
          break;
        }
        DrainDoTurn(sktBuffer, done);
        ghost var payload := HeadPayload(PREFIX, sktBuffer);
        FoldSnoc(Turn(codec, pick), start, Parsed(codec, done), codec.parse(payload));
        ParsedSnoc(codec, done, payload);
        DecodeOne();
        done := done + [payload];
        if aborted {
          FoldEnded(codec, Turn(codec, pick), start, done, Drain(PREFIX, sktBuffer).payloads);
          return;
        }
        again := |sktBuffer| > PREFIX;
      }
      assert all.payloads == done;
    }

    /** Takes the frame at the front off the buffer and handles it. */
    method DecodeOne()
      requires Valid() && !aborted && Complete(PREFIX, sktBuffer)
      modifies this`sktBuffer, this`clientSrc2fd, this`clientFd2src, this`clientFd2bev, this`drawn, this`aborted, this`wire, this`doneSyncTime
      ensures Valid() && sktBuffer == AfterHead(PREFIX, old(sktBuffer))
      ensures Same(Abs(), OnMessage(codec, pick, old(Abs()), codec.parse(HeadPayload(PREFIX, old(sktBuffer)))))
    {
      var sz := HeadLen(PREFIX, sktBuffer);
      var msg := codec.parse(sktBuffer[PREFIX..PREFIX + sz]);
      sktBuffer := sktBuffer[sz + PREFIX..];
      Handle(msg);
    }
  }
}
