/** The choice of a receiver for a query, as both routing hops make it: a source
    address seen before keeps its receiver, a new one gets a random receiver.
    Randomness is an oracle `pick`, whose k-th value is the k-th draw; every
    statement holds for every oracle. */
module Routing {

  /** `home` lists the receivers' descriptors, `sticky` is false when the Manager
      runs with mapping disabled. */
  datatype Policy = Policy(home: seq<int>, pick: nat -> int, sticky: bool)

  ghost predicate InRange(p: Policy)
  {
    forall k: nat :: 0 <= p.pick(k) < |p.home|
  }

  datatype Table = Table(src2fd: map<string, int>, drawn: nat)

  const EMPTY := Table(map[], 0)

  /** The table after routing one more query, and the receiver chosen. */
  function Route(p: Policy, t: Table, src: string): (r: (Table, int))
    requires 0 <= p.pick(t.drawn) < |p.home|
  {
    if !p.sticky then
      (t.(drawn := t.drawn + 1), p.home[p.pick(t.drawn)])
    else if src in t.src2fd then
      (t, t.src2fd[src])
    else
      var fd := p.home[p.pick(t.drawn)];
      (Table(t.src2fd[src := fd], t.drawn + 1), fd)
  }

  ghost function TableAfter(p: Policy, srcs: seq<string>): Table
    requires InRange(p)
  {
    if srcs == [] then EMPTY
    else Route(p, TableAfter(p, srcs[..|srcs| - 1]), srcs[|srcs| - 1]).0
  }

  /** The receiver of the last of a series of queries. */
  ghost function Receiver(p: Policy, srcs: seq<string>): int
    requires InRange(p) && srcs != []
  {
    Route(p, TableAfter(p, srcs[..|srcs| - 1]), srcs[|srcs| - 1]).1
  }

  /** Once a source is mapped it stays mapped to the same receiver. */
  lemma {:induction false} TableGrows(p: Policy, srcs: seq<string>, k: nat)
    requires InRange(p) && k <= |srcs|
    ensures var early, late := TableAfter(p, srcs[..k]).src2fd, TableAfter(p, srcs).src2fd;
            forall s | s in early :: s in late && late[s] == early[s]
    decreases |srcs|
  {
    if k == |srcs| {
      assert srcs[..k] == srcs;
    } else {
      TableGrows(p, srcs[..|srcs| - 1], k);
      assert srcs[..|srcs| - 1][..k] == srcs[..k];
    }
  }

  lemma {:induction false} TableInHome(p: Policy, srcs: seq<string>)
    requires InRange(p)
    ensures forall s | s in TableAfter(p, srcs).src2fd :: TableAfter(p, srcs).src2fd[s] in p.home
  {
    if srcs != [] {
      TableInHome(p, srcs[..|srcs| - 1]);
    }
  }

  lemma ReceiverInHome(p: Policy, srcs: seq<string>)
    requires InRange(p) && srcs != []
    ensures Receiver(p, srcs) in p.home
  {
    TableInHome(p, srcs[..|srcs| - 1]);
  }

  /** The k-th query's receiver is what the table holds for its source from then
      on. */
  lemma {:induction false} ReceiverIsTabled(p: Policy, srcs: seq<string>, k: nat)
    requires InRange(p) && p.sticky && k < |srcs|
    ensures var t := TableAfter(p, srcs).src2fd;
            srcs[k] in t && t[srcs[k]] == Receiver(p, srcs[..k + 1])
  {
    var upTo := srcs[..k + 1];
    assert upTo[|upTo| - 1] == srcs[k];
    TableGrows(p, srcs, k + 1);
    assert TableAfter(p, upTo) == Route(p, TableAfter(p, upTo[..k]), srcs[k]).0;
  }

  /** Stickiness: two queries of one source go to one receiver, whatever came
      before, between and after them. */
  lemma SameSourceSameReceiver(p: Policy, srcs: seq<string>, k: nat, l: nat)
    requires InRange(p) && p.sticky && k < |srcs| && l < |srcs|
    requires srcs[k] == srcs[l]
    ensures Receiver(p, srcs[..k + 1]) == Receiver(p, srcs[..l + 1])
  {
    ReceiverIsTabled(p, srcs, k);
    ReceiverIsTabled(p, srcs, l);
  }

  // ----- which draw decides ---------------------------------------------------

  function Distinct(srcs: seq<string>): set<string> { set s | s in srcs }

  lemma DistinctSnoc(srcs: seq<string>)
    requires srcs != []
    ensures var n := |srcs| - 1; Distinct(srcs) == Distinct(srcs[..n]) + {srcs[n]}
  {
    assert srcs == srcs[..|srcs| - 1] + [srcs[|srcs| - 1]];
  }

  lemma {:induction false} EveryQueryDraws(p: Policy, srcs: seq<string>)
    requires InRange(p) && !p.sticky
    ensures TableAfter(p, srcs).drawn == |srcs|
  {
    hide InRange;
    if srcs != [] { EveryQueryDraws(p, srcs[..|srcs| - 1]); }
  }

  /** With a sticky policy draws are used up one for every new source. */
  lemma {:induction false} EverySourceDraws(p: Policy, srcs: seq<string>)
    requires InRange(p) && p.sticky
    ensures var t := TableAfter(p, srcs); t.drawn == |Distinct(srcs)| && t.src2fd.Keys == Distinct(srcs)
  {
    hide Distinct, InRange;
    if srcs == [] {
      NoneDistinct();
    } else {
      var n := |srcs| - 1;
      EverySourceDraws(p, srcs[..n]);
      DistinctSnoc(srcs);
      var known := Distinct(srcs[..n]);
      if srcs[n] in known { assert known + {srcs[n]} == known; }
    }
  }

  lemma NoneDistinct()
    ensures Distinct([]) == {}
  {
  }

  /** The receiver of the last query is the one its own draw names or, with a sticky policy, the draw
      of the first query of its source, query `k`: one draw for every distinct source before it. */
  lemma ReceiverIsDrawn(p: Policy, srcs: seq<string>, k: nat)
    requires InRange(p) && k < |srcs| && srcs[k] == srcs[|srcs| - 1]
    requires srcs[k] !in srcs[..k]
    ensures Receiver(p, srcs) == p.home[p.pick(if p.sticky then |set s | s in srcs[..k]| else |srcs| - 1)]
  {
    hide TableAfter, InRange;
    if p.sticky {
      var upTo := srcs[..k + 1];
      EverySourceDraws(p, srcs[..k]);
      assert upTo[..k] == srcs[..k] && upTo[k] == srcs[k];
      assert srcs[..|srcs| - 1 + 1] == srcs;
      SameSourceSameReceiver(p, srcs, k, |srcs| - 1);
    } else {
      EveryQueryDraws(p, srcs[..|srcs| - 1]);
    }
  }
}
