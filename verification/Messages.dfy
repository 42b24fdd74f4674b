/** The message that travels between the replay processes, and the serialiser
    that turns it into a payload. */
module Messages {
  import opened Common
  import opened Bytes
  import opened Framing

  /** The width of the length prefix between processes: `sizeof(uint32_t)`. */
  const PREFIX: nat := 4

  datatype DNSMsg = DNSMsg(seconds: int, microseconds: int, tcp: bool, ipv4: bool,
                           srcIp: string, dstIp: string, raw: seq<byte>, syncTime: bool)

  type Payload = seq<byte>

  /** `SerializeToString` and `ParseFromArray`. Their internals are the protocol
      buffer library's; all that the replay chain relies on is `Faithful`. */
  datatype Codec = Codec(ser: DNSMsg -> Payload, parse: Payload -> DNSMsg)

  ghost predicate Faithful(codec: Codec)
  {
    forall m :: codec.parse(codec.ser(m)) == m
  }

  /** The sizes for which the senders' `assert(msg_str.size() > 0)` and the
      `int` length of the parser both hold. */
  predicate Framable(codec: Codec, m: DNSMsg)
  {
    0 < |codec.ser(m)| < 0x8000_0000
  }

  /** A usable query: the Reader and the Postman both skip a message without raw
      data. */
  predicate Usable(m: DNSMsg) { m.raw != [] }

  function UsableOf(ms: seq<DNSMsg>): seq<DNSMsg>
  {
    if ms == [] then []
    else
      var last := ms[|ms| - 1];
      UsableOf(ms[..|ms| - 1]) + (if Usable(last) then [last] else [])
  }

  lemma {:induction false} UsableOfGrows(ms: seq<DNSMsg>, k: nat)
    requires k <= |ms|
    ensures UsableOf(ms[..k]) <= UsableOf(ms)
  {
    if k < |ms| {
      var n := |ms| - 1;
      UsableOfGrows(ms[..n], k);
      assert ms[..n][..k] == ms[..k];
    } else {
      assert ms[..k] == ms;
    }
  }

  lemma {:induction false} UsableOfContents(ms: seq<DNSMsg>)
    ensures forall m :: m in UsableOf(ms) <==> m in ms && Usable(m)
  {
    if ms != [] {
      var n := |ms| - 1;
      UsableOfContents(ms[..n]);
      assert ms == ms[..n] + [ms[n]];
    }
  }

  /** The usable messages are those with raw data, each once, in their order. */
  lemma {:induction false} UsableIsFilter(ms: seq<DNSMsg>, keep: DNSMsg -> bool) returns (ks: seq<nat>)
    requires forall m :: keep(m) <==> m.raw != []
    ensures Filters(ms, UsableOf(ms), ks, keep)
  {
    hide Filters;
    if ms == [] {
      ks := [];
      FiltersNone(keep);
    } else {
      var n := |ms| - 1;
      assert ms == ms[..n] + [ms[n]];
      ks := UsableIsFilter(ms[..n], keep);
      if ms[n].raw != [] {
        FiltersKeep(ms[..n], UsableOf(ms[..n]), ks, keep, ms[n]);
        ks := ks + [n];
      } else {
        assert UsableOf(ms) == UsableOf(ms[..n]);
        FiltersSkip(ms[..n], UsableOf(ms[..n]), ks, keep, ms[n]);
      }
    }
  }

  function Serialised(codec: Codec, ms: seq<DNSMsg>): (ps: seq<Payload>)
    ensures |ps| == |ms|
    ensures forall i | 0 <= i < |ms| :: ps[i] == codec.ser(ms[i])
  {
    seq(|ms|, i requires 0 <= i < |ms| => codec.ser(ms[i]))
  }

  function Parsed(codec: Codec, ps: seq<Payload>): (ms: seq<DNSMsg>)
    ensures |ms| == |ps|
    ensures forall i | 0 <= i < |ps| :: ms[i] == codec.parse(ps[i])
  {
    seq(|ps|, i requires 0 <= i < |ps| => codec.parse(ps[i]))
  }

  function Sources(ms: seq<DNSMsg>): (ss: seq<string>)
    ensures |ss| == |ms|
    ensures forall i | 0 <= i < |ms| :: ss[i] == ms[i].srcIp
  {
    seq(|ms|, i requires 0 <= i < |ms| => ms[i].srcIp)
  }

  lemma ParsedSerialised(codec: Codec, ms: seq<DNSMsg>)
    requires Faithful(codec)
    ensures Parsed(codec, Serialised(codec, ms)) == ms
  {
  }

  lemma ParsedSnoc(codec: Codec, ps: seq<Payload>, p: Payload)
    ensures Parsed(codec, ps + [p]) == Parsed(codec, ps) + [codec.parse(p)]
  {
  }

  // ----- processing message by message -------------------------------------

  /** A process that handles what it decodes in order. */
  function Fold<S, E>(turn: (S, E) -> S, st: S, es: seq<E>): S
    decreases |es|
  {
    if es == [] then st else Fold(turn, turn(st, es[0]), es[1..])
  }

  lemma {:induction false} FoldConcat<S, E>(turn: (S, E) -> S, st: S, a: seq<E>, b: seq<E>)
    ensures Fold(turn, st, a + b) == Fold(turn, Fold(turn, st, a), b)
    decreases |a|
  {
    if a == [] {
      assert a + b == b;
    } else {
      assert (a + b)[1..] == a[1..] + b;
      FoldConcat(turn, turn(st, a[0]), a[1..], b);
    }
  }

  lemma FoldCons<S, E>(turn: (S, E) -> S, st: S, e: E, es: seq<E>)
    ensures Fold(turn, st, [e] + es) == Fold(turn, turn(st, e), es)
  {
    assert ([e] + es)[1..] == es;
  }

  lemma FoldSnoc<S, E>(turn: (S, E) -> S, st: S, es: seq<E>, e: E)
    ensures Fold(turn, st, es + [e]) == turn(Fold(turn, st, es), e)
  {
    FoldConcat(turn, st, es, [e]);
    var mid := Fold(turn, st, es);
    assert Fold(turn, mid, [e]) == Fold(turn, turn(mid, e), []);
  }

  /** A state that nothing changes any more. */
  lemma {:induction false} FoldStuck<S, E(!new)>(turn: (S, E) -> S, st: S, es: seq<E>)
    requires forall e :: turn(st, e) == st
    ensures Fold(turn, st, es) == st
    decreases |es|
  {
    if es != [] {
      FoldStuck(turn, st, es[1..]);
    }
  }

  /** Handling the payloads decoded so far, `done`, has ended the process; those
      still in the buffer change nothing. */
  lemma FoldEnded<S>(codec: Codec, turn: (S, DNSMsg) -> S, st: S, done: seq<Payload>, rest: seq<Payload>)
    requires var end := Fold(turn, st, Parsed(codec, done)); forall m :: turn(end, m) == end
    ensures Fold(turn, st, Parsed(codec, done + rest)) == Fold(turn, st, Parsed(codec, done))
  {
    assert Parsed(codec, done + rest) == Parsed(codec, done) + Parsed(codec, rest);
    FoldConcat(turn, st, Parsed(codec, done), Parsed(codec, rest));
    FoldStuck(turn, Fold(turn, st, Parsed(codec, done)), Parsed(codec, rest));
  }
}
