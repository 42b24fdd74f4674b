/** The worker's sockets towards the server under test: one UDP socket and one TCP
    connection per source address, their reverse indexes, and the reassembly of
    TCP responses. */
module Sockets {
  import opened Bytes
  import opened Framing
  import opened Common

  /** DNS over TCP prefixes a message with two length octets. */
  const TCP_PREFIX: nat := 2

  /** A buffer event (or event) by identity. */
  type Handle = nat

  /** Two maps are mutually inverse. */
  ghost predicate Inverse<A, B>(there: map<A, B>, back: map<B, A>)
  {
    && (forall a | a in there :: there[a] in back && back[there[a]] == a)
    && (forall b | b in back :: back[b] in there && there[back[b]] == b)
  }

  lemma InverseAdd<A, B>(there: map<A, B>, back: map<B, A>, a: A, b: B)
    requires Inverse(there, back) && a !in there && b !in back
    ensures Inverse(there[a := b], back[b := a])
  {
  }

  lemma InverseDrop<A, B>(there: map<A, B>, back: map<B, A>, a: A, b: B)
    requires Inverse(there, back) && a in there && there[a] == b
    ensures Inverse(there - {a}, back - {b})
  {
  }

  lemma AddThenDrop<A, B>(m: map<A, B>, a: A, b: B)
    requires a !in m
    ensures m[a := b] - {a} == m
  {
  }

  /** Distinct sources never share a live socket. */
  lemma NoSharing<A, B>(there: map<A, B>, back: map<B, A>, a: A, b: A)
    requires Inverse(there, back) && a in there && b in there && a != b
    ensures there[a] != there[b]
  {
    assert back[there[a]] == a && back[there[b]] == b;
  }

  // ----- what is sent for a query --------------------------------------------

  datatype Prepared =
    | Skipped               // nothing to send
    | Overrun               // a buffer is written past its end
    | Ready(query: seq<byte>)

  /** `uint16_t raw_len = raw.size()`, a copy of that many octets, and `set_random_id`
      on its first two. */
  function Prepare(raw: seq<byte>, id: seq<byte>): Prepared
    requires |id| == 2
  {
    var rawLen := |raw| % 65536;
    if rawLen == 0 then Skipped
    else if rawLen == 1 then Overrun
    else Ready(id + raw[2..rawLen])
  }

  /** For TCP, a buffer of `uint16_t tcp_raw_len = raw_len + 2` octets takes the length
      and the query. */
  function PrepareTcp(raw: seq<byte>, id: seq<byte>): Prepared
    requires |id| == 2
  {
    var p := Prepare(raw, id);
    if p.Ready? && |p.query| + 2 >= 65536 then Overrun
    else if p.Ready? then Ready(Frame(TCP_PREFIX, p.query))
    else p
  }

  /** The whole query, but for its id, is handed to `send`, or behind its length to the
      connection, exactly for these sizes. */
  lemma HandedWholeIff(raw: seq<byte>, id: seq<byte>)
    requires |id| == 2
    ensures |raw| >= 2 && Prepare(raw, id) == Ready(id + raw[2..]) <==> 2 <= |raw| < 65536
    ensures |raw| >= 2 && PrepareTcp(raw, id) == Ready(Frame(TCP_PREFIX, id + raw[2..])) <==> 2 <= |raw| < 65534
  {
    if |raw| >= 2 {
      var rawLen := |raw| % 65536;
      var whole := id + raw[2..];
      if |raw| < 65536 {
        assert raw[2..rawLen] == raw[2..];
      } else if rawLen >= 2 {
        assert |id + raw[2..rawLen]| < |whole|;
      }
      assert |Frame(TCP_PREFIX, whole)| == 2 + |whole|;
    }
  }

  /** A query of 65536 bytes or more loses its end, in whole multiples of that. */
  lemma LongerLosesItsEnd(raw: seq<byte>, id: seq<byte>)
    requires |id| == 2 && Prepare(raw, id).Ready?
    ensures var q := Prepare(raw, id).query;
            |q| <= |raw| && (|raw| - |q|) % 65536 == 0 && |q| < 65536 && q[..2] == id && q[2..] == raw[2..|q|]
  {
    var rawLen := |raw| % 65536;
    assert (id + raw[2..rawLen])[2..] == raw[2..rawLen];
  }

  /** The largest payload of a UDP datagram over IPv4. */
  const MAX_DATAGRAM: nat := 65507

  // ----- UDP sockets ---------------------------------------------------------

  /** A write event: the query of `src` waits for descriptor `fd`. */
  datatype Write = Write(fd: int, src: string, query: seq<byte>)

  datatype UdpState = UdpState(src2fd: map<string, int>, fd2src: map<int, string>, readEvent: set<int>, open: set<int>,
                               pending: seq<Write>)

  ghost predicate UdpOk(u: UdpState)
  {
    && Inverse(u.src2fd, u.fd2src)
    && u.readEvent == u.fd2src.Keys
    && u.fd2src.Keys <= u.open
    && forall fd | fd in u.fd2src :: fd >= 0
  }

  datatype UdpEvent =
    | Queried(src: string, fd: int, query: seq<byte>)   // `send_query_udp`
    | TimedOut(fd: int)                                  // `server_udp_read_timeout_cb`
    | Wrote(i: nat)                                      // `server_udp_write_cb`

  ghost predicate UdpStep(u: UdpState, e: UdpEvent, u': UdpState)
  {
    match e
    case Queried(src, fd, query) =>
      var more := u.pending + [Write(fd, src, query)];
      if src in u.src2fd then fd == u.src2fd[src] && u' == u.(pending := more)
      else
        && fd !in u.open && fd >= 0
        && u' == UdpState(u.src2fd[src := fd], u.fd2src[fd := src], u.readEvent + {fd}, u.open + {fd}, more)
    case TimedOut(fd) =>
      && fd in u.fd2src
      && u' == UdpState(u.src2fd - {u.fd2src[fd]}, u.fd2src - {fd}, u.readEvent - {fd}, u.open - {fd}, u.pending)
    case Wrote(i) =>
      i < |u.pending| && u' == u.(pending := u.pending[..i] + u.pending[i + 1..])
  }

  class UdpSockets {
    const unified: bool
    const unifiedFd: int
    var src2udpfd: map<string, int>
    var udpfd2src: map<int, string>
    var udpReadEvent: map<int, Handle>
    var writes: seq<Write>
    /** The descriptors the operating system has handed out and not got back. */
    ghost var open: set<int>

    ghost predicate Valid()
      reads this
    {
      UdpOk(Abs())
    }

    ghost function Abs(): UdpState
      reads this
    {
      UdpState(src2udpfd, udpfd2src, udpReadEvent.Keys, open, writes)
    }

    constructor (unified: bool, unifiedFd: int)
      ensures Valid() && this.unified == unified && this.unifiedFd == unifiedFd
      ensures src2udpfd == map[] && udpfd2src == map[] && writes == []
    {
      this.unified, this.unifiedFd := unified, unifiedFd;
      src2udpfd, udpfd2src, udpReadEvent, writes := map[], map[], map[], [];
      open := if unified then {unifiedFd} else {};
    }

    /** `send_query_udp`: schedules the write on the source's socket. `newFd` is what
        `socket()` would return, a descriptor not in use. */
    method SendQuery(src: string, raw: seq<byte>, id: seq<byte>, newFd: int, event: Handle) returns (p: Prepared, fd: int)
      requires Valid() && newFd !in open && newFd >= 0 && |id| == 2
      modifies this
      ensures Valid()
      ensures p == Prepare(raw, id)
      ensures !p.Ready? ==> Abs() == old(Abs())
      ensures p.Ready? && unified ==> Abs() == old(Abs()).(pending := old(writes) + [Write(unifiedFd, src, p.query)])
      ensures p.Ready? && !unified ==>
                && UdpStep(old(Abs()), Queried(src, fd, p.query), Abs())
                && fd == if src in old(src2udpfd) then old(src2udpfd)[src] else newFd
    {
      fd := -1;
      p := Prepare(raw, id);
      if !p.Ready? {
        return;
      }
      hide Inverse;
      if unified {
        fd := unifiedFd;
      } else if src in src2udpfd {
        fd := src2udpfd[src];
      } else {
        fd := newFd;
        InverseAdd(src2udpfd, udpfd2src, src, fd);
        open := open + {fd};
        src2udpfd := src2udpfd[src := fd];
        udpfd2src := udpfd2src[fd := src];
        udpReadEvent := udpReadEvent[fd := event];
      }
      writes := writes + [Write(fd, src, p.query)];
    }

    /** `server_udp_read_timeout_cb` */
    method ReadTimeout(fd: int)
      requires Valid()
      modifies this
      ensures Valid()
      ensures fd !in old(udpfd2src) ==> Abs() == old(Abs())
      ensures fd in old(udpfd2src) ==> UdpStep(old(Abs()), TimedOut(fd), Abs())
    {
      if fd < 0 {
        return;
      }
      if fd !in udpReadEvent {
        return;
      }
      open := open - {fd};
      udpReadEvent := udpReadEvent - {fd};
      if fd !in udpfd2src {
        return;
      }
      InverseDrop(src2udpfd, udpfd2src, udpfd2src[fd], fd);
      hide Inverse;
      src2udpfd := src2udpfd - {udpfd2src[fd]};
      udpfd2src := udpfd2src - {fd};
    }

    /** `server_udp_write_cb` for the i-th write event: the query goes out on the
        descriptor it was scheduled on, whoever owns that descriptor now. The process
        exits when the descriptor is closed or the datagram too long. */
    method WriteReady(i: nat, alive: bool) returns (query: seq<byte>, owner: Option<string>, exits: bool)
      requires Valid() && i < |writes| && (alive <==> writes[i].fd in open)
      modifies this`writes
      ensures Valid() && UdpStep(old(Abs()), Wrote(i), Abs())
      ensures query == old(writes)[i].query && owner == Owner(old(Abs()), old(writes)[i].fd)
      ensures exits <==> old(writes)[i].fd !in open || |query| > MAX_DATAGRAM
      ensures owner.Some? ==> (exits <==> |query| > MAX_DATAGRAM)
    {
      var w := writes[i];
      query := w.query;
      owner := if w.fd in udpfd2src then Some(udpfd2src[w.fd]) else None;
      exits := !alive || |query| > MAX_DATAGRAM;
      writes := writes[..i] + writes[i + 1..];
    }
  }

  class TcpConnections {
    var src2bev: map<string, Handle>
    var bev2src: map<Handle, string>
    var serverMsgBuffer: map<Handle, seq<byte>>
    /** The bytes handed to each connection. */
    var written: map<Handle, seq<byte>>

    ghost predicate Valid()
      reads this
    {
      TcpOk(Abs()) && bev2src.Keys <= written.Keys
    }

    ghost function Abs(): TcpState
      reads this
    {
      TcpState(src2bev, bev2src, serverMsgBuffer.Keys)
    }

    constructor ()
      ensures Valid() && src2bev == map[] && written == map[]
    {
      src2bev, bev2src, serverMsgBuffer, written := map[], map[], map[], map[];
    }

    /** `send_query_tcp`: one frame on the source's connection. `newBev` is a freshly
        allocated buffer event; a failed connect ends the process after the entries
        are taken out again. */
    method SendQuery(src: string, raw: seq<byte>, id: seq<byte>, newBev: Handle, connects: bool)
        returns (p: Prepared, sent: bool, bev: Handle)
      requires Valid() && newBev !in bev2src && |id| == 2
      modifies this
      ensures Valid()
      ensures p == PrepareTcp(raw, id)
      ensures sent <==> p.Ready? && (src in old(src2bev) || connects)
      ensures !sent ==> Abs() == old(Abs()) && serverMsgBuffer == old(serverMsgBuffer) && written == old(written)
      ensures sent ==>
                && (if src in old(src2bev) then Abs() == old(Abs()) && serverMsgBuffer == old(serverMsgBuffer)
                    else
                      && TcpStep(old(Abs()), Connected(src, newBev), Abs())
                      && serverMsgBuffer == old(serverMsgBuffer)[newBev := []])
                && src in src2bev && src2bev[src] == bev
                && var before := if src in old(src2bev) then old(written)[bev] else [];
                   written == old(written)[bev := before + p.query]
    {
      bev := newBev;
      p := PrepareTcp(raw, id);
      sent := false;
      if !p.Ready? {
        return;
      }
      if src in src2bev {
        bev := src2bev[src];
        assert bev in bev2src;
        written := written[bev := written[bev] + p.query];
        sent := true;
        return;
      }
      hide Inverse;
      AddThenDrop(src2bev, src, newBev);
      AddThenDrop(bev2src, newBev, src);
      AddThenDrop(serverMsgBuffer, newBev, []);
      InverseAdd(src2bev, bev2src, src, newBev);
      src2bev := src2bev[src := newBev];
      bev2src := bev2src[newBev := src];
      serverMsgBuffer := serverMsgBuffer[newBev := []];
      if !connects {
        src2bev := src2bev - {src};
        bev2src := bev2src - {newBev};
        serverMsgBuffer := serverMsgBuffer - {newBev};
        return;
      }
      assert [] + p.query == p.query;
      written := written[newBev := p.query];
      sent := true;
    }

    /** `server_event_cb` with an end-of-file, an error or a timeout. The lookup of
        an event that is not registered yields the empty source, so the indexes
        survive unless that source happens to own a connection. */
    method Drop(bev: Handle)
      requires Valid()
      modifies this
      ensures Valid() <==> bev in old(bev2src) || "" !in old(src2bev)
      ensures bev in old(bev2src) ==>
                TcpStep(old(Abs()), Closed(bev), Abs()) && serverMsgBuffer == old(serverMsgBuffer) - {bev}
    {
      var ip := if bev in bev2src then bev2src[bev] else "";
      ghost var registered := bev in bev2src;
      if registered {
        InverseDrop(src2bev, bev2src, ip, bev);
      }
      ghost var s2b, b2s := src2bev, bev2src;
      src2bev := src2bev - {ip};
      bev2src := bev2src - {bev};
      serverMsgBuffer := serverMsgBuffer - {bev};
      if !registered {
        assert bev2src == b2s;
        if "" in s2b {
          assert bev2src[s2b[""]] == "";
        } else {
          assert src2bev == s2b;
        }
      }
    }

    /** `server_read_cb` when timing is recorded: the whole messages that are
        reported, in order. */
    method ServerRead(bev: Handle, data: seq<byte>) returns (reported: seq<seq<byte>>)
      requires Valid() && bev in bev2src
      modifies this`serverMsgBuffer
      ensures Valid()
      ensures var d := Drain(TCP_PREFIX, old(serverMsgBuffer)[bev] + data);
              reported == d.payloads && serverMsgBuffer == old(serverMsgBuffer)[bev := d.rest]
    {
      hide FromBE, Pow256, Drain, Inverse;
      serverMsgBuffer := serverMsgBuffer[bev := serverMsgBuffer[bev] + data];
      ghost var all := Drain(TCP_PREFIX, serverMsgBuffer[bev]);
      reported := [];
      while |serverMsgBuffer[bev]| > TCP_PREFIX
        invariant serverMsgBuffer.Keys == old(serverMsgBuffer).Keys
        invariant serverMsgBuffer == old(serverMsgBuffer)[bev := serverMsgBuffer[bev]]
        invariant all.payloads == reported + Drain(TCP_PREFIX, serverMsgBuffer[bev]).payloads
        invariant all.rest == Drain(TCP_PREFIX, serverMsgBuffer[bev]).rest
        modifies this`serverMsgBuffer
        decreases |serverMsgBuffer[bev]|
      {
        var buf := serverMsgBuffer[bev];
        DrainTurn(TCP_PREFIX, buf, reported);
        var sz := HeadLen(TCP_PREFIX, buf);
        var left := Left(TCP_PREFIX, buf);
        if sz > left {
          break;
        }
        reported := reported + [buf[TCP_PREFIX..TCP_PREFIX + sz]];
        serverMsgBuffer := serverMsgBuffer[bev := buf[sz + TCP_PREFIX..]];
      }
      DrainTurn(TCP_PREFIX, serverMsgBuffer[bev], reported);
      assert all.payloads == reported;
    }
  }

  // ----- every run of the UDP side ----------------------------------------

  ghost predicate UdpRun(us: seq<UdpState>, es: seq<UdpEvent>)
  {
    && |us| == |es| + 1 && us[0] == UdpState(map[], map[], {}, {}, [])
    && forall k | 0 <= k < |es| :: UdpStep(us[k], es[k], us[k + 1])
  }

  lemma UdpStepConsistent(u: UdpState, e: UdpEvent, u': UdpState)
    requires UdpOk(u) && UdpStep(u, e, u')
    ensures UdpOk(u')
  {
    match e
    case Queried(src, fd, _) => if src !in u.src2fd { InverseAdd(u.src2fd, u.fd2src, src, fd); }
    case TimedOut(fd) => InverseDrop(u.src2fd, u.fd2src, u.fd2src[fd], fd);
    case Wrote(_) =>
  }

  /** In every run the indexes stay inverse and no two sources share a socket,
      although descriptors are reused after a timeout. */
  lemma {:induction false} EveryUdpRunConsistent(us: seq<UdpState>, es: seq<UdpEvent>, k: nat)
    requires UdpRun(us, es) && k <= |es|
    ensures UdpOk(us[k])
    ensures forall a, b | a in us[k].src2fd && b in us[k].src2fd && a != b :: us[k].src2fd[a] != us[k].src2fd[b]
  {
    if k > 0 {
      EveryUdpRunConsistent(us, es, k - 1);
      UdpStepConsistent(us[k - 1], es[k - 1], us[k]);
    }
    forall a, b | a in us[k].src2fd && b in us[k].src2fd && a != b ensures us[k].src2fd[a] != us[k].src2fd[b] {
      NoSharing(us[k].src2fd, us[k].fd2src, a, b);
    }
  }

  // ----- no query is lost or sent twice --------------------------------------

  /** The writes that the queries of a run ask for. */
  function Asked(es: seq<UdpEvent>): seq<Write>
  {
    if es == [] then []
    else
      var e := es[|es| - 1];
      Asked(es[..|es| - 1]) + if e.Queried? then [Write(e.fd, e.src, e.query)] else []
  }

  /** The writes that have been made. */
  ghost function Made(us: seq<UdpState>, es: seq<UdpEvent>, k: nat): seq<Write>
    requires UdpRun(us, es) && k <= |es|
  {
    if k == 0 then []
    else
      assert UdpStep(us[k - 1], es[k - 1], us[k]);
      Made(us, es, k - 1) + match es[k - 1]
                            case Wrote(i) => [us[k - 1].pending[i]]
                            case _ => []
  }

  /** Over every run the writes made and the writes pending are, as a multiset, those asked for. */
  lemma {:induction false} EveryUdpRunConserves(us: seq<UdpState>, es: seq<UdpEvent>, k: nat)
    requires UdpRun(us, es) && k <= |es|
    ensures multiset(Made(us, es, k)) + multiset(us[k].pending) == multiset(Asked(es[..k]))
  {
    hide UdpStep, Made, Asked;
    if k == 0 {
      NothingMade(us, es);
      assert es[..0] == [];
    } else {
      EveryUdpRunConserves(us, es, k - 1);
      OneMoreEvent(us, es, k);
      assert UdpStep(us[k - 1], es[k - 1], us[k]);
      PendingAfter(us[k - 1], es[k - 1], us[k]);
    }
  }

  lemma NothingMade(us: seq<UdpState>, es: seq<UdpEvent>)
    requires UdpRun(us, es)
    ensures Made(us, es, 0) == [] && Asked([]) == []
  {
  }

  lemma OneMoreEvent(us: seq<UdpState>, es: seq<UdpEvent>, k: nat)
    requires UdpRun(us, es) && 0 < k <= |es|
    ensures match es[k - 1]
            case Queried(src, fd, query) =>
              Made(us, es, k) == Made(us, es, k - 1) && Asked(es[..k]) == Asked(es[..k - 1]) + [Write(fd, src, query)]
            case TimedOut(_) =>
              Made(us, es, k) == Made(us, es, k - 1) && Asked(es[..k]) == Asked(es[..k - 1])
            case Wrote(i) =>
              && i < |us[k - 1].pending| && Made(us, es, k) == Made(us, es, k - 1) + [us[k - 1].pending[i]]
              && Asked(es[..k]) == Asked(es[..k - 1])
  {
    assert UdpStep(us[k - 1], es[k - 1], us[k]);
    assert es[..k][..k - 1] == es[..k - 1] && es[..k][k - 1] == es[k - 1];
  }

  lemma PendingAfter(u: UdpState, e: UdpEvent, u': UdpState)
    requires UdpStep(u, e, u')
    ensures match e
            case Queried(src, fd, query) => multiset(u'.pending) == multiset(u.pending) + multiset{Write(fd, src, query)}
            case TimedOut(_) => u'.pending == u.pending
            case Wrote(i) => multiset(u.pending) == multiset(u'.pending) + multiset{u.pending[i]}
  {
    if e.Wrote? {
      assert u.pending == u.pending[..e.i] + [u.pending[e.i]] + u.pending[e.i + 1..];
    }
  }

  // ----- whose socket a query leaves on ---------------------------------------

  function Owner(u: UdpState, fd: int): Option<string>
  {
    if fd in u.fd2src then Some(u.fd2src[fd]) else None
  }

  /** What the last event that names `fd` leaves it as. */
  function Latest(es: seq<UdpEvent>, fd: int): Option<string>
  {
    if es == [] then None
    else
      var e := es[|es| - 1];
      if e.Queried? && e.fd == fd then Some(e.src)
      else if e == TimedOut(fd) then None
      else Latest(es[..|es| - 1], fd)
  }

  lemma {:induction false} OwnerIsLatest(us: seq<UdpState>, es: seq<UdpEvent>, k: nat, fd: int)
    requires UdpRun(us, es) && k <= |es|
    ensures Owner(us[k], fd) == Latest(es[..k], fd)
  {
    if k > 0 {
      EveryUdpRunConsistent(us, es, k - 1);
      OwnerIsLatest(us, es, k - 1, fd);
      assert UdpStep(us[k - 1], es[k - 1], us[k]);
      assert es[..k][..k - 1] == es[..k - 1];
    }
  }

  /** A query is scheduled and written later, and a timeout may come in between. It leaves
      on the socket of its own source exactly when no event since has given the
      descriptor up or away: the last event that names the descriptor is a query of
      that source. */
  lemma LeavesOnOwnSocketIff(us: seq<UdpState>, es: seq<UdpEvent>, k: nat, i: nat)
    requires UdpRun(us, es) && k < |es| && es[k] == Wrote(i)
    ensures i < |us[k].pending|
    ensures var w := us[k].pending[i]; Owner(us[k], w.fd) == Some(w.src) <==> Latest(es[..k], w.fd) == Some(w.src)
  {
    assert UdpStep(us[k], es[k], us[k + 1]);
    OwnerIsLatest(us, es, k, us[k].pending[i].fd);
  }

  /** In particular when its socket does not time out before the write. */
  lemma {:induction false} LeavesOnOwnSocketIfNoTimeout(us: seq<UdpState>, es: seq<UdpEvent>, j: nat, k: nat)
    requires UdpRun(us, es) && j < k <= |es| && es[j].Queried?
    requires forall m | j < m < k :: es[m] != TimedOut(es[j].fd)
    ensures Owner(us[k], es[j].fd) == Some(es[j].src)
    decreases k
  {
    EveryUdpRunConsistent(us, es, k - 1);
    assert UdpStep(us[k - 1], es[k - 1], us[k]);
    if k - 1 > j {
      LeavesOnOwnSocketIfNoTimeout(us, es, j, k - 1);
    }
  }

  /** A run in which a query of one source leaves on the socket of another. */
  lemma ReusedSocketMisattributes(a: string, b: string, q: seq<byte>) returns (us: seq<UdpState>, es: seq<UdpEvent>)
    requires a != b
    ensures UdpRun(us, es) && |es| == 4 && es[3] == Wrote(0)
    ensures |us[3].pending| > 0 && us[3].pending[0].src == a && Owner(us[3], us[3].pending[0].fd) == Some(b)
  {
    var wa, wb := Write(5, a, q), Write(5, b, q);
    es := [Queried(a, 5, q), TimedOut(5), Queried(b, 5, q), Wrote(0)];
    var u0 := UdpState(map[], map[], {}, {}, []);
    var u1 := UdpState(map[a := 5], map[5 := a], {5}, {5}, [wa]);
    var u2 := UdpState(map[], map[], {}, {}, [wa]);
    var u3 := UdpState(map[b := 5], map[5 := b], {5}, {5}, [wa, wb]);
    var u4 := u3.(pending := [wb]);
    us := [u0, u1, u2, u3, u4];
    assert UdpStep(u0, es[0], u1);
    assert UdpStep(u1, es[1], u2);
    assert UdpStep(u2, es[2], u3);
    assert u3.pending[..0] + u3.pending[1..] == [wb];
    assert UdpStep(u3, es[3], u4);
    forall k | 0 <= k < 4 ensures UdpStep(us[k], es[k], us[k + 1]) {
      if k == 0 { } else if k == 1 { } else if k == 2 { } else { assert k == 3; }
    }
  }

  // ----- every run of the TCP side ----------------------------------------

  datatype TcpState = TcpState(src2bev: map<string, Handle>, bev2src: map<Handle, string>, buffered: set<Handle>)

  ghost predicate TcpOk(t: TcpState)
  {
    Inverse(t.src2bev, t.bev2src) && t.buffered == t.bev2src.Keys
  }

  /** A connection is set up, or is closed, fails or times out. */
  datatype TcpEvent = Connected(src: string, bev: Handle) | Closed(bev: Handle)

  /** What `SendQuery` and `Drop` do to the indexes when they change them. */
  ghost predicate TcpStep(t: TcpState, e: TcpEvent, t': TcpState)
  {
    match e
    case Connected(src, bev) =>
      bev !in t.bev2src && src !in t.src2bev
      && t' == TcpState(t.src2bev[src := bev], t.bev2src[bev := src], t.buffered + {bev})
    case Closed(bev) =>
      bev in t.bev2src
      && t' == TcpState(t.src2bev - {t.bev2src[bev]}, t.bev2src - {bev}, t.buffered - {bev})
  }

  ghost predicate TcpRun(ts: seq<TcpState>, es: seq<TcpEvent>)
  {
    && |ts| == |es| + 1 && TcpOk(ts[0])
    && forall k | 0 <= k < |es| :: TcpStep(ts[k], es[k], ts[k + 1])
  }

  /** In every run the indexes stay inverse, every connection has one reassembly
      buffer, and no two sources share a connection. */
  lemma {:induction false} EveryTcpRunConsistent(ts: seq<TcpState>, es: seq<TcpEvent>, k: nat)
    requires TcpRun(ts, es) && k <= |es|
    ensures TcpOk(ts[k])
    ensures forall a, b | a in ts[k].src2bev && b in ts[k].src2bev && a != b :: ts[k].src2bev[a] != ts[k].src2bev[b]
  {
    if k > 0 {
      EveryTcpRunConsistent(ts, es, k - 1);
      assert TcpStep(ts[k - 1], es[k - 1], ts[k]);
      match es[k - 1]
      case Connected(src, bev) => InverseAdd(ts[k - 1].src2bev, ts[k - 1].bev2src, src, bev);
      case Closed(bev) => InverseDrop(ts[k - 1].src2bev, ts[k - 1].bev2src, ts[k - 1].bev2src[bev], bev);
    }
    forall a, b | a in ts[k].src2bev && b in ts[k].src2bev && a != b ensures ts[k].src2bev[a] != ts[k].src2bev[b] {
      NoSharing(ts[k].src2bev, ts[k].bev2src, a, b);
    }
  }

  // ----- TCP response reassembly ------------------------------------------

  /** Under any chunking of a response stream, what has been reported is a prefix
      of the messages, nothing is lost or repeated, and while the buffer stays
      under 65538 bytes no complete non-empty message is left waiting. */
  lemma ResponsesReassemble(chunks: seq<seq<byte>>, responses: seq<seq<byte>>)
    requires Sized(TCP_PREFIX, responses) && Flatten(chunks) <= Frames(TCP_PREFIX, responses)
    ensures var r := Receive(TCP_PREFIX, chunks);
            && r.payloads <= responses
            && Frames(TCP_PREFIX, r.payloads) + r.rest == Flatten(chunks)
            && (|r.rest| < 65538 && Complete(TCP_PREFIX, r.rest) ==> HeadLen(TCP_PREFIX, r.rest) == 0)
  {
    Pow256Values();
    var r := Receive(TCP_PREFIX, chunks);
    ReceiveConserves(TCP_PREFIX, chunks);
    FramesPrefixUnique(TCP_PREFIX, r.payloads, r.rest, responses);
    if chunks != [] {
      var last := |chunks| - 1;
      LeftoverWraps(TCP_PREFIX, Receive(TCP_PREFIX, chunks[..last]).rest + chunks[last]);
    }
  }

  /** At 65538 buffered bytes the 16-bit `left` is zero and a one-byte message is
      not taken, although it is complete. */
  lemma BufferOf65538Stalls(buf: seq<byte>)
    requires |buf| == 65538 && buf[0] == 0 && buf[1] == 1
    ensures Complete(TCP_PREFIX, buf) && HeadLen(TCP_PREFIX, buf) == 1
    ensures Drain(TCP_PREFIX, buf) == Drained([], buf)
  {
    Pow256Values();
    assert buf[..2] == [0, 1];
    assert [0, 1][..1] == [0] && [0][..0] == [];
    assert FromBE([0]) == 0;
    assert FromBE([0, 1]) == 1;
  }
}
