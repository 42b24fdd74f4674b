/** When the Postman dies: the unguarded first turn of its decode loop cannot cope with fewer
    than four buffered bytes, so everything depends on how the Reader's stream is cut
    into reads. */
module Crash {
  import opened Bytes
  import opened Framing
  import opened Messages
  import opened Links
  import opened Nodes
  import opened Distribution
  import opened Progress
  import Postman
  import Manager
  import Client

  /** Where the frame of query `g` starts in the Reader's stream. */
  function StartOf(net: Net, g: nat): nat
    requires g <= |Trace(net)|
  {
    |OnWire(net.codec, Trace(net)[..g])|
  }

  /** The `n` bytes from position `t` of the stream lie inside one length prefix: they end before its
      last byte. */
  ghost predicate InsidePrefix(net: Net, t: nat, n: nat)
  {
    exists g: nat :: g <= |Trace(net)| && StartOf(net, g) <= t && t + n < StartOf(net, g) + PREFIX
  }

  /** Frames follow one another without a gap, from the start of the stream. */
  lemma StartsAreSums(net: Net, g: nat)
    requires g < |Trace(net)|
    ensures StartOf(net, 0) == 0
    ensures StartOf(net, g + 1) == StartOf(net, g) + 4 + |net.codec.ser(Trace(net)[g])|
  {
    hide Trace;
    var ms := Trace(net);
    assert ms[..0] == [] && Serialised(net.codec, ms[..0]) == [];
    assert ms[..g + 1] == ms[..g] + [ms[g]];
    OnWireSnoc(net.codec, ms[..g], ms[g]);
  }

  lemma StartsAreApart(net: Net, g: nat, g': nat)
    requires Sound(net) && g < g' <= |Trace(net)|
    ensures StartOf(net, g') >= StartOf(net, g) + PREFIX + |net.codec.ser(Trace(net)[g])|
    ensures |net.codec.ser(Trace(net)[g])| > 0
  {
    hide Sound, Frames, Trace;
    var ms := Trace(net);
    TraceFits(net);
    var a, b := Serialised(net.codec, ms[..g]), Serialised(net.codec, ms[g..g']);
    assert ms[..g'] == ms[..g] + ms[g..g'];
    assert Serialised(net.codec, ms[..g']) == a + b;
    FramesConcat(PREFIX, a, b);
    FirstFrame(b);
    assert b[0] == Serialised(net.codec, ms)[g];
  }

  /** A read leaves fewer than four bytes exactly if all it delivers lies inside one length
      prefix. */
  lemma TooFewIff(net: Net, home: seq<int>, s: System, chunk: seq<byte>)
    requires Sound(net) && Inv(net, home, s)
    ensures |s.postman.buf + chunk| < PREFIX <==> InsidePrefix(net, |Taken(s.postman.got, s.postman.buf)|, |chunk|)
  {
    hide Sound, PostmanAt, ManagersOk, ReaderOk, Frames, Trace, Complete, StartOf, Frame;
    var pm, ms := s.postman, Trace(net);
    var n, t := |pm.got|, |Taken(pm.got, pm.buf)|;
    PositionOf(net, pm.got, pm.buf, s.readerWire);
    if |pm.buf + chunk| >= PREFIX {
      forall g: nat | g <= |ms| ensures !(StartOf(net, g) <= t && t + |chunk| < StartOf(net, g) + PREFIX) {
        if g < n {
          StartsAreApart(net, g, n);
        } else if g > n {
          StartsAreApart(net, n, n + 1);
          if g > n + 1 { StartsAreApart(net, n + 1, g); }
        }
      }
    }
  }

  /** What has been decoded ends where the next frame starts, and the buffer ends before the one
      after that. */
  lemma PositionOf(net: Net, got: seq<Payload>, buf: seq<byte>, wire: seq<byte>)
    requires Sound(net) && LinkOk(got, buf, wire, Serialised(net.codec, Trace(net)))
    ensures |got| <= |Trace(net)|
    ensures |Taken(got, buf)| == StartOf(net, |got|) + |buf|
    ensures |got| < |Trace(net)| ==> |buf| < PREFIX + |net.codec.ser(Trace(net)[|got|])|
    ensures |got| == |Trace(net)| ==> buf == []
  {
    hide Sound, Trace, Frame, Complete;
    var ms := Trace(net);
    var full := Serialised(net.codec, ms);
    TraceFits(net);
    CutIsPrefix(full, wire);
    assert got == Serialised(net.codec, ms[..|got|]);
    assert Sized(PREFIX, got) by {
      forall i | 0 <= i < |got| ensures |got[i]| < Pow256(PREFIX) { assert got[i] == full[i]; }
    }
    FramesPrefixUnique(PREFIX, got, buf, full);
    var next := full[|got|..];
    IncompleteIsProperPrefix(PREFIX, buf, next);
    if next != [] { FirstFrame(next); }
  }

  // ----- over runs ---------------------------------------------------------------

  /** How much the Postman's reads have delivered. */
  function BytesRead(actions: seq<Action>): nat
  {
    if actions == [] then 0
    else
      var a := actions[|actions| - 1];
      BytesRead(actions[..|actions| - 1]) + if a.DoPostman? then |a.chunk| else 0
  }

  lemma {:induction false} TakenIsRead(net: Net, states: seq<System>, actions: seq<Action>, k: nat)
    requires Sound(net) && Run(net, states, actions) && k < |states|
    ensures |Taken(states[k].postman.got, states[k].postman.buf)| == BytesRead(actions[..k])
  {
    hide Sound, Next, Inv, Taken;
    if k == 0 {
      NothingTaken(states[0]);
    } else {
      var upTo := actions[..k];
      TakenIsRead(net, states, actions, k - 1);
      EveryRunInv(net, states, actions, k - 1);
      assert Next(net, states[k - 1], actions[k - 1], states[k]);
      TakenAfter(net, HomeOf(net, states[|states| - 1]), states[k - 1], actions[k - 1], states[k]);
      assert upTo[..k - 1] == actions[..k - 1] && upTo[k - 1] == actions[k - 1];
    }
  }

  lemma NothingTaken(s: System)
    requires Init(s)
    ensures |Taken(s.postman.got, s.postman.buf)| == 0
  {
  }

  lemma TakenAfter(net: Net, home: seq<int>, s: System, a: Action, s': System)
    requires Sound(net) && Inv(net, home, s) && Next(net, s, a, s')
    ensures |Taken(s'.postman.got, s'.postman.buf)|
         == |Taken(s.postman.got, s.postman.buf)| + if a.DoPostman? then |a.chunk| else 0
    ensures s'.postman.dead <==> s.postman.dead || (a.DoPostman? && |s.postman.buf + a.chunk| < PREFIX)
  {
    hide Sound, Taken, PostmanAt, ManagersOk, ReaderOk, LinkOk, MayRead, ReadByManager, ReadByWorker;
    if a.DoPostman? {
      PostmanTakes(net, s.readerWire, s.postman, a.chunk);
    }
  }

  /** Read `j` of the run dies. */
  ghost predicate Fatal(net: Net, actions: seq<Action>, j: nat)
    requires j < |actions|
  {
    actions[j].DoPostman? && InsidePrefix(net, BytesRead(actions[..j]), |actions[j].chunk|)
  }

  /** The Postman is dead exactly if one of its reads began and ended inside one length prefix of the
      Reader's stream. The trace and the sizes of the reads decide. */
  lemma {:induction false} PostmanDeadIff(net: Net, states: seq<System>, actions: seq<Action>, k: nat)
    requires Sound(net) && Run(net, states, actions) && k < |states|
    ensures states[k].postman.dead <==> exists j :: 0 <= j < k && Fatal(net, actions, j)
  {
    hide Sound, Next, Inv, InsidePrefix, Taken;
    if k > 0 {
      var home := HomeOf(net, states[|states| - 1]);
      PostmanDeadIff(net, states, actions, k - 1);
      EveryRunInv(net, states, actions, k - 1);
      assert Next(net, states[k - 1], actions[k - 1], states[k]);
      TakenAfter(net, home, states[k - 1], actions[k - 1], states[k]);
      TakenIsRead(net, states, actions, k - 1);
      if actions[k - 1].DoPostman? {
        TooFewIff(net, home, states[k - 1], actions[k - 1].chunk);
      }
      assert states[k].postman.dead <==> states[k - 1].postman.dead || Fatal(net, actions, k - 1);
    }
  }

  /** With one client and a usable first query, a read of a single byte ends the replay. */
  lemma OneByteKills(net: Net, worker: Client.Conf) returns (states: seq<System>, actions: seq<Action>)
    requires Sound(net) && net.numClients == 1 && net.input != [] && Usable(net.input[0])
    ensures Run(net, states, actions) && |actions| == 3
    ensures states[3].postman.dead && actions[2].DoPostman? && |actions[2].chunk| == 1
  {
    hide Sound, Accept, ReadInput, PostmanReads;
    var conf := Manager.Conf([0], (k: nat) => 0, false);
    var workers := map[0 := worker];
    var s0 := System(0, [], false, PostmanNode([], [], Postman.INITIAL, false), map[]);
    var s1 := FirstClient(net, s0, conf, workers);
    var s2 := FirstQuery(net, s1);
    var s3, chunk := FirstByte(net, s2);
    states, actions := [s0, s1, s2, s3], [DoAccept(7, conf, workers), DoRead, DoPostman(chunk)];
    forall k | 0 <= k < 3 ensures Next(net, states[k], actions[k], states[k + 1]) {
      if k == 0 { } else if k == 1 { } else { assert k == 2; }
    }
  }

  lemma FirstClient(net: Net, s: System, conf: Manager.Conf, workers: map<int, Client.Conf>) returns (s': System)
    requires net.numClients == 1 && Init(s) && conf.home == [0] && workers.Keys == {0}
    ensures Accept(net, s, s', 7, conf, workers)
    ensures s'.gate && s'.pos == 0 && s'.readerWire == [] && !s'.postman.dead && s'.postman.buf == [] && s'.postman.got == []
  {
    assert {0} == set w | w in conf.home;
    s' := s.(gate := true, postman := s.postman.(st := Postman.Joined(s.postman.st, 7)),
             managers := s.managers[7 := NewManager(conf, workers)]);
  }

  lemma FirstQuery(net: Net, s: System) returns (s': System)
    requires s.gate && s.pos == 0 && s.readerWire == [] && net.input != [] && Usable(net.input[0])
    ensures ReadInput(net, s, s') && s'.postman == s.postman && |s'.readerWire| >= PREFIX
  {
    s' := s.(pos := 1, readerWire := s.readerWire + Frame(PREFIX, net.codec.ser(net.input[0])));
  }

  lemma FirstByte(net: Net, s: System) returns (s': System, chunk: seq<byte>)
    requires !s.postman.dead && s.postman.buf == [] && s.postman.got == [] && |s.readerWire| >= PREFIX
    ensures PostmanReads(net, s, s', chunk) && |chunk| == 1 && s'.postman.dead
  {
    hide ReadByPostman;
    Pow256Values();
    chunk := s.readerWire[..1];
    assert Taken(s.postman.got, s.postman.buf) == [];
    assert [] + chunk == chunk;
    s' := s.(postman := s.postman.(buf := s.postman.buf + chunk, dead := true));
  }
}
