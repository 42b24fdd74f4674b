/** What each connection of the replay chain carries, as a function of the trace
    alone. The chain turns out to be deterministic: given the random draws, the
    contents of every stream do not depend on chunking or scheduling. */
module Streams {
  import opened Messages
  import opened Routing
  import Manager

  /** The messages the Postman writes to client `f` for the queries `msgs`: the
      sync message when the first query arrives, and its share of the queries. */
  ghost function PostmanOut(p: Policy, f: int, msgs: seq<DNSMsg>): seq<DNSMsg>
    requires InRange(p)
  {
    if msgs == [] then []
    else
      var n := |msgs| - 1;
      PostmanOut(p, f, msgs[..n])
      + (if n == 0 then [msgs[0].(syncTime := true)] else [])
      + (if Receiver(p, Sources(msgs)) == f then [msgs[n].(syncTime := false)] else [])
  }

  /** The messages a Manager writes to worker `w` for what it received: the first
      message goes to all, the others are routed. */
  ghost function ManagerOut(conf: Manager.Conf, w: int, msgs: seq<DNSMsg>): seq<DNSMsg>
    requires Manager.Sound(conf)
  {
    if msgs == [] then []
    else
      var n := |msgs| - 1;
      ManagerOut(conf, w, msgs[..n])
      + (if n == 0 then [msgs[0]]
         else if Receiver(Manager.PolicyOf(conf), Sources(msgs[1..])) == w then [msgs[n]]
         else [])
  }

  lemma PostmanOutLonger(p: Policy, f: int, msgs: seq<DNSMsg>)
    requires InRange(p) && msgs != []
    ensures PostmanOut(p, f, msgs[..|msgs| - 1]) <= PostmanOut(p, f, msgs)
  {
    hide Receiver, InRange;
  }

  lemma ManagerOutLonger(conf: Manager.Conf, w: int, msgs: seq<DNSMsg>)
    requires Manager.Sound(conf) && msgs != []
    ensures ManagerOut(conf, w, msgs[..|msgs| - 1]) <= ManagerOut(conf, w, msgs)
  {
    hide Receiver, Manager.Sound, Manager.PolicyOf;
  }

  lemma {:induction false} PostmanOutGrows(p: Policy, f: int, msgs: seq<DNSMsg>, k: nat)
    requires InRange(p) && k <= |msgs|
    ensures PostmanOut(p, f, msgs[..k]) <= PostmanOut(p, f, msgs)
  {
    hide PostmanOut, InRange;
    if k < |msgs| {
      var n := |msgs| - 1;
      PostmanOutGrows(p, f, msgs[..n], k);
      PostmanOutLonger(p, f, msgs);
      assert msgs[..n][..k] == msgs[..k];
    } else {
      assert msgs[..k] == msgs;
    }
  }

  lemma {:induction false} ManagerOutGrows(conf: Manager.Conf, w: int, msgs: seq<DNSMsg>, k: nat)
    requires Manager.Sound(conf) && k <= |msgs|
    ensures ManagerOut(conf, w, msgs[..k]) <= ManagerOut(conf, w, msgs)
  {
    hide ManagerOut, Manager.Sound;
    if k < |msgs| {
      var n := |msgs| - 1;
      ManagerOutGrows(conf, w, msgs[..n], k);
      ManagerOutLonger(conf, w, msgs);
      assert msgs[..n][..k] == msgs[..k];
    } else {
      assert msgs[..k] == msgs;
    }
  }

  /** One sync message, first, then only queries. */
  predicate SyncFirst(ms: seq<DNSMsg>)
  {
    && (ms != [] ==> ms[0].syncTime)
    && forall i | 1 <= i < |ms| :: !ms[i].syncTime
  }

  lemma {:induction false} PostmanOutSyncFirst(p: Policy, f: int, msgs: seq<DNSMsg>)
    requires InRange(p)
    ensures SyncFirst(PostmanOut(p, f, msgs))
    ensures msgs != [] ==> PostmanOut(p, f, msgs) != [] && PostmanOut(p, f, msgs)[0] == msgs[0].(syncTime := true)
  {
    if msgs != [] {
      PostmanOutSyncFirst(p, f, msgs[..|msgs| - 1]);
    }
  }

  lemma {:induction false} ManagerOutSyncFirst(conf: Manager.Conf, w: int, msgs: seq<DNSMsg>)
    requires Manager.Sound(conf) && SyncFirst(msgs)
    ensures SyncFirst(ManagerOut(conf, w, msgs))
    ensures msgs != [] ==> ManagerOut(conf, w, msgs) != [] && ManagerOut(conf, w, msgs)[0] == msgs[0]
  {
    if msgs != [] {
      ManagerOutSyncFirst(conf, w, msgs[..|msgs| - 1]);
    }
  }

  /** Every message on a stream is the sync or the plain form of a query. */
  lemma {:induction false} PostmanOutContents(p: Policy, f: int, msgs: seq<DNSMsg>)
    requires InRange(p)
    ensures forall m | m in PostmanOut(p, f, msgs) :: exists q :: q in msgs && (m == q.(syncTime := true) || m == q.(syncTime := false))
  {
    if msgs != [] {
      var n := |msgs| - 1;
      PostmanOutContents(p, f, msgs[..n]);
      forall m | m in PostmanOut(p, f, msgs) ensures exists q :: q in msgs && (m == q.(syncTime := true) || m == q.(syncTime := false)) {
        if m in PostmanOut(p, f, msgs[..n]) {
          var q :| q in msgs[..n] && (m == q.(syncTime := true) || m == q.(syncTime := false));
          assert q in msgs;
        } else {
          assert m == msgs[0].(syncTime := true) || m == msgs[n].(syncTime := false);
        }
      }
    }
  }

  lemma {:induction false} ManagerOutContents(conf: Manager.Conf, w: int, msgs: seq<DNSMsg>)
    requires Manager.Sound(conf)
    ensures forall m | m in ManagerOut(conf, w, msgs) :: m in msgs
  {
    if msgs != [] {
      ManagerOutContents(conf, w, msgs[..|msgs| - 1]);
    }
  }

  // ----- who gets what -----------------------------------------------------

  /** The worker stream behind client `f`. */
  ghost function WorkerStream(p: Policy, conf: Manager.Conf, f: int, w: int, msgs: seq<DNSMsg>): seq<DNSMsg>
    requires InRange(p) && Manager.Sound(conf)
  {
    ManagerOut(conf, w, PostmanOut(p, f, msgs))
  }

  /** The last query of `msgs` goes through client `f` to its worker `w`. */
  ghost predicate OwnsLast(p: Policy, conf: Manager.Conf, f: int, w: int, msgs: seq<DNSMsg>)
    requires InRange(p) && Manager.Sound(conf) && msgs != []
  {
    && Receiver(p, Sources(msgs)) == f
    && |PostmanOut(p, f, msgs)| >= 2
    && Receiver(Manager.PolicyOf(conf), Sources(PostmanOut(p, f, msgs)[1..])) == w
  }

  /** Query `k` of the trace belongs to (f, w). The choice depends on the trace up
      to `k` only. */
  ghost predicate Owns(p: Policy, conf: Manager.Conf, f: int, w: int, msgs: seq<DNSMsg>, k: nat)
    requires InRange(p) && Manager.Sound(conf)
  {
    k < |msgs| && OwnsLast(p, conf, f, w, msgs[..k + 1])
  }

  /** The positions below `n` that `own` selects, in increasing order. */
  function Selected(own: nat -> bool, n: nat): seq<nat>
  {
    if n == 0 then [] else Selected(own, n - 1) + (if own(n - 1) then [n - 1] else [])
  }

  lemma {:induction false} SelectedIsExact(own: nat -> bool, n: nat)
    ensures var ks := Selected(own, n);
            && (forall i, j | 0 <= i < j < |ks| :: ks[i] < ks[j])
            && (forall i | 0 <= i < |ks| :: ks[i] < n)
            && (forall k: nat | k < n :: k in ks <==> own(k))
  {
    if n > 0 {
      SelectedIsExact(own, n - 1);
    }
  }

  lemma {:induction false} SelectedAgrees(a: nat -> bool, b: nat -> bool, n: nat)
    requires forall k: nat | k < n :: a(k) == b(k)
    ensures Selected(a, n) == Selected(b, n)
  {
    if n > 0 {
      SelectedAgrees(a, b, n - 1);
    }
  }

  ghost function Ownership(p: Policy, conf: Manager.Conf, f: int, w: int, msgs: seq<DNSMsg>): nat -> bool
    requires InRange(p) && Manager.Sound(conf)
  {
    (k: nat) => Owns(p, conf, f, w, msgs, k)
  }

  /** The queries at positions `ks`, as they travel. */
  function Chosen(msgs: seq<DNSMsg>, ks: seq<nat>): (ms: seq<DNSMsg>)
    requires forall i | 0 <= i < |ks| :: ks[i] < |msgs|
    ensures |ms| == |ks|
    ensures forall i | 0 <= i < |ks| :: ms[i] == msgs[ks[i]].(syncTime := false)
  {
    seq(|ks|, i requires 0 <= i < |ks| => msgs[ks[i]].(syncTime := false))
  }

  ghost function Share(p: Policy, conf: Manager.Conf, f: int, w: int, msgs: seq<DNSMsg>): seq<DNSMsg>
    requires InRange(p) && Manager.Sound(conf)
  {
    var own := Ownership(p, conf, f, w, msgs);
    SelectedIsExact(own, |msgs|);
    Chosen(msgs, Selected(own, |msgs|))
  }

  /** One more query extends the streams of its owner only. */
  lemma {:induction false} WorkerStreamSnoc(p: Policy, conf: Manager.Conf, f: int, w: int, msgs: seq<DNSMsg>)
    requires InRange(p) && Manager.Sound(conf) && msgs != []
    ensures var n := |msgs| - 1;
            WorkerStream(p, conf, f, w, msgs)
            == (if n == 0 then [msgs[0].(syncTime := true)] else WorkerStream(p, conf, f, w, msgs[..n]))
               + (if OwnsLast(p, conf, f, w, msgs) then [msgs[n].(syncTime := false)] else [])
  {
    var n := |msgs| - 1;
    var sofar := PostmanOut(p, f, msgs[..n]) + (if n == 0 then [msgs[0].(syncTime := true)] else []);
    PostmanOutSyncFirst(p, f, msgs[..n]);
    assert n == 0 ==> sofar == [msgs[0].(syncTime := true)];
    assert n > 0 ==> sofar == PostmanOut(p, f, msgs[..n]);
    assert ManagerOut(conf, w, [msgs[0].(syncTime := true)]) == [msgs[0].(syncTime := true)] by {
      assert [msgs[0].(syncTime := true)][..0] == [];
    }
    if Receiver(p, Sources(msgs)) == f {
      var out := sofar + [msgs[n].(syncTime := false)];
      assert PostmanOut(p, f, msgs) == out;
      assert out[..|out| - 1] == sofar;
    } else {
      assert PostmanOut(p, f, msgs) == sofar;
    }
  }

  lemma {:induction false} ShareSnoc(p: Policy, conf: Manager.Conf, f: int, w: int, msgs: seq<DNSMsg>)
    requires InRange(p) && Manager.Sound(conf) && msgs != []
    ensures var n := |msgs| - 1;
            Share(p, conf, f, w, msgs)
            == Share(p, conf, f, w, msgs[..n]) + (if OwnsLast(p, conf, f, w, msgs) then [msgs[n].(syncTime := false)] else [])
  {
    var n := |msgs| - 1;
    var own, own' := Ownership(p, conf, f, w, msgs), Ownership(p, conf, f, w, msgs[..n]);
    forall k: nat | k < n ensures own(k) == own'(k) {
      assert msgs[..n][..k + 1] == msgs[..k + 1];
    }
    SelectedAgrees(own, own', n);
    assert own(n) == OwnsLast(p, conf, f, w, msgs) by {
      assert msgs[..n + 1] == msgs;
    }
    SelectedIsExact(own, n);
    SelectedIsExact(own, n + 1);
    ChosenSnoc(msgs, Selected(own, n), own(n));
  }

  lemma ChosenSnoc(msgs: seq<DNSMsg>, ks: seq<nat>, more: bool)
    requires msgs != [] && forall i | 0 <= i < |ks| :: ks[i] < |msgs| - 1
    ensures var n := |msgs| - 1;
            && (forall i | 0 <= i < |ks| :: ks[i] < |msgs[..n]|)
            && Chosen(msgs, ks + (if more then [n] else []))
               == Chosen(msgs[..n], ks) + (if more then [msgs[n].(syncTime := false)] else [])
  {
  }

  /** A worker's stream is the sync message followed by precisely the queries it
      owns, in trace order. */
  lemma {:induction false} WorkerStreamIsShare(p: Policy, conf: Manager.Conf, f: int, w: int, msgs: seq<DNSMsg>)
    requires InRange(p) && Manager.Sound(conf) && msgs != []
    ensures WorkerStream(p, conf, f, w, msgs) == [msgs[0].(syncTime := true)] + Share(p, conf, f, w, msgs)
  {
    hide WorkerStream, OwnsLast;
    var n := |msgs| - 1;
    WorkerStreamSnoc(p, conf, f, w, msgs);
    ShareSnoc(p, conf, f, w, msgs);
    if n == 0 {
      assert Share(p, conf, f, w, msgs[..n]) == [];
    } else {
      WorkerStreamIsShare(p, conf, f, w, msgs[..n]);
    }
  }

  /** Exactly once: every query has one client and, there, one worker, whatever
      the Managers' configurations. */
  lemma ExactlyOneOwner(p: Policy, confs: map<int, Manager.Conf>, msgs: seq<DNSMsg>, k: nat)
      returns (f: int, w: int)
    requires InRange(p) && k < |msgs|
    requires (forall g | g in p.home :: g in confs) && (forall g | g in confs :: Manager.Sound(confs[g]))
    ensures f in p.home && f in confs && w in confs[f].home && Owns(p, confs[f], f, w, msgs, k)
    ensures forall g, v | g in confs && Owns(p, confs[g], g, v, msgs, k) :: g == f && v == w
  {
    var upTo := msgs[..k + 1];
    f := Receiver(p, Sources(upTo));
    ReceiverInHome(p, Sources(upTo));
    PostmanOutEnds(p, f, upTo);
    var srcs := Sources(PostmanOut(p, f, upTo)[1..]);
    w := Receiver(Manager.PolicyOf(confs[f]), srcs);
    ReceiverInHome(Manager.PolicyOf(confs[f]), srcs);
  }

  /** Sticky end to end: with mapping enabled, two queries of one source have one
      owner. */
  lemma SameSourceSameOwner(p: Policy, conf: Manager.Conf, f: int, w: int, msgs: seq<DNSMsg>, k: nat, l: nat)
    requires InRange(p) && p.sticky && Manager.Sound(conf) && !conf.disableMapping
    requires k < |msgs| && l < |msgs| && msgs[k].srcIp == msgs[l].srcIp
    requires Owns(p, conf, f, w, msgs, k)
    ensures Owns(p, conf, f, w, msgs, l)
  {
    SameSourceSameClient(p, f, msgs, k, l);
    var a := EndsAt(p, f, msgs, k);
    var b := EndsAt(p, f, msgs, l);
    SameSourceSameWorker(Manager.PolicyOf(conf), PostmanOut(p, f, msgs), a, b);
  }

  lemma SameSourceSameClient(p: Policy, f: int, msgs: seq<DNSMsg>, k: nat, l: nat)
    requires InRange(p) && p.sticky && k < |msgs| && l < |msgs| && msgs[k].srcIp == msgs[l].srcIp
    requires Receiver(p, Sources(msgs[..k + 1])) == f
    ensures Receiver(p, Sources(msgs[..l + 1])) == f
  {
    var srcs := Sources(msgs);
    assert Sources(msgs[..k + 1]) == srcs[..k + 1] && Sources(msgs[..l + 1]) == srcs[..l + 1];
    SameSourceSameReceiver(p, srcs, k, l);
  }

  lemma SameSourceSameWorker(p: Policy, out: seq<DNSMsg>, a: nat, b: nat)
    requires InRange(p) && p.sticky && 1 <= a < |out| && 1 <= b < |out| && out[a].srcIp == out[b].srcIp
    ensures Receiver(p, Sources(out[..a + 1][1..])) == Receiver(p, Sources(out[..b + 1][1..]))
  {
    var sub := Sources(out[1..]);
    assert Sources(out[..a + 1][1..]) == sub[..a];
    assert Sources(out[..b + 1][1..]) == sub[..b];
    SameSourceSameReceiver(p, sub, a - 1, b - 1);
  }

  /** Query `k`, if client `f` receives it, sits at some position of that
      client's stream. */
  lemma EndsAt(p: Policy, f: int, msgs: seq<DNSMsg>, k: nat) returns (a: nat)
    requires InRange(p) && k < |msgs| && Receiver(p, Sources(msgs[..k + 1])) == f
    ensures 1 <= a < |PostmanOut(p, f, msgs)|
    ensures PostmanOut(p, f, msgs[..k + 1]) == PostmanOut(p, f, msgs)[..a + 1]
    ensures PostmanOut(p, f, msgs)[a] == msgs[k].(syncTime := false)
  {
    PostmanOutGrows(p, f, msgs, k + 1);
    PostmanOutEnds(p, f, msgs[..k + 1]);
    a := |PostmanOut(p, f, msgs[..k + 1])| - 1;
  }

  lemma {:induction false} PostmanOutEnds(p: Policy, f: int, msgs: seq<DNSMsg>)
    requires InRange(p) && msgs != [] && Receiver(p, Sources(msgs)) == f
    ensures var out := PostmanOut(p, f, msgs); |out| >= 2 && out[|out| - 1] == msgs[|msgs| - 1].(syncTime := false)
  {
    PostmanOutSyncFirst(p, f, msgs[..|msgs| - 1]);
  }
}
