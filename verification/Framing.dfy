/** Length-prefixed streams. Every hop of the replay chain writes a message as
    an `h`-octet big-endian length followed by the payload (h = 4 between the
    processes, h = 2 for DNS over TCP), and every receiver appends whatever
    bytes have arrived to a buffer and peels whole frames off its front. */
module Framing {
  import opened Bytes

  function Frame(h: nat, payload: seq<byte>): seq<byte>
  {
    ToBE(|payload|, h) + payload
  }

  function Frames(h: nat, payloads: seq<seq<byte>>): seq<byte>
  {
    if payloads == [] then [] else Frame(h, payloads[0]) + Frames(h, payloads[1..])
  }

  /** The payload length fits the prefix. */
  predicate Sized(h: nat, payloads: seq<seq<byte>>)
  {
    forall i | 0 <= i < |payloads| :: |payloads[i]| < Pow256(h)
  }

  predicate NonEmpty(payloads: seq<seq<byte>>)
  {
    forall i | 0 <= i < |payloads| :: payloads[i] != []
  }

  function HeadLen(h: nat, buf: seq<byte>): nat
    requires |buf| >= h
  {
    FromBE(buf[..h])
  }

  /** The bytes after the prefix, as the unsigned variable `left` holds them:
      truncated to the width of the prefix. */
  function Left(h: nat, buf: seq<byte>): (n: nat)
    requires |buf| >= h
    ensures n <= |buf| - h
    ensures |buf| - h < Pow256(h) ==> n == |buf| - h
  {
    TruncationShrinks(|buf| - h, Pow256(h));
    (|buf| - h) % Pow256(h)
  }

  lemma TruncationShrinks(a: nat, m: nat)
    requires m >= 1
    ensures 0 <= a % m <= a
    ensures a < m ==> a % m == a
  {
    if a >= m {
      assert a % m < m;
    }
  }

  /** The loop test of a receiver together with its `sz > left` exit. */
  predicate Ready(h: nat, buf: seq<byte>)
  {
    |buf| > h && HeadLen(h, buf) <= Left(h, buf)
  }

  function HeadPayload(h: nat, buf: seq<byte>): seq<byte>
    requires |buf| >= h && HeadLen(h, buf) <= |buf| - h
  {
    buf[h..h + HeadLen(h, buf)]
  }

  function AfterHead(h: nat, buf: seq<byte>): (rest: seq<byte>)
    requires |buf| >= h && HeadLen(h, buf) <= |buf| - h
    ensures |rest| <= |buf| - h
  {
    buf[h + HeadLen(h, buf)..]
  }

  datatype Drained = Drained(payloads: seq<seq<byte>>, rest: seq<byte>)

  /** What one read callback takes off the buffer, and what it leaves. */
  function Drain(h: nat, buf: seq<byte>): (d: Drained)
    requires h >= 1
    decreases |buf|
  {
    if Ready(h, buf) then
      var d := Drain(h, AfterHead(h, buf));
      Drained([HeadPayload(h, buf)] + d.payloads, d.rest)
    else
      Drained([], buf)
  }

  /** A complete frame sits at the front of the buffer. */
  predicate Complete(h: nat, buf: seq<byte>)
  {
    |buf| >= h && HeadLen(h, buf) <= |buf| - h
  }

  lemma {:induction false} SplitHead(h: nat, buf: seq<byte>)
    requires Complete(h, buf)
    ensures buf == Frame(h, HeadPayload(h, buf)) + AfterHead(h, buf)
    ensures |HeadPayload(h, buf)| < Pow256(h)
  {
    ToFromBE(buf[..h]);
    assert buf == buf[..h] + HeadPayload(h, buf) + AfterHead(h, buf);
  }

  lemma {:induction false} FrameAtFront(h: nat, payload: seq<byte>, tail: seq<byte>)
    requires |payload| < Pow256(h)
    ensures Complete(h, Frame(h, payload) + tail)
    ensures HeadPayload(h, Frame(h, payload) + tail) == payload
    ensures AfterHead(h, Frame(h, payload) + tail) == tail
  {
    var buf := Frame(h, payload) + tail;
    assert buf[..h] == ToBE(|payload|, h);
    FromToBE(|payload|, h);
    assert HeadLen(h, buf) == |payload|;
  }

  lemma {:induction false} FramesConcat(h: nat, a: seq<seq<byte>>, b: seq<seq<byte>>)
    ensures Frames(h, a + b) == Frames(h, a) + Frames(h, b)
  {
    if a == [] {
      assert a + b == b;
    } else {
      FramesConcat(h, a[1..], b);
      assert (a + b)[1..] == a[1..] + b;
      assert (a + b)[0] == a[0];
      ConcatAssociates(Frame(h, a[0]), Frames(h, a[1..]), Frames(h, b));
    }
  }

  lemma {:induction false} FramesSnoc(h: nat, ps: seq<seq<byte>>, p: seq<byte>)
    ensures Frames(h, ps + [p]) == Frames(h, ps) + Frame(h, p)
  {
    FramesConcat(h, ps, [p]);
    var none: seq<seq<byte>> := [p][1..];
    assert Frames(h, [p]) == Frame(h, p) + Frames(h, none);
  }

  /** One turn of the loop: the frame at the front moves to the decoded ones, or the
      loop ends. */
  lemma DrainTurn(h: nat, buf: seq<byte>, done: seq<seq<byte>>)
    requires h >= 1
    ensures Ready(h, buf) ==>
              var d, d' := Drain(h, buf), Drain(h, AfterHead(h, buf));
              done + d.payloads == (done + [HeadPayload(h, buf)]) + d'.payloads && d.rest == d'.rest
    ensures !Ready(h, buf) ==> Drain(h, buf) == Drained([], buf)
  {
    hide HeadLen, Left, HeadPayload;
  }

  /** No byte is lost, repeated or reordered by a callback, even when `left`
      wraps: re-framing the payloads and appending the leftover gives back the
      buffer. The callback stops exactly where the loop test fails. */
  lemma {:induction false} DrainConserves(h: nat, buf: seq<byte>)
    requires h >= 1
    ensures Frames(h, Drain(h, buf).payloads) + Drain(h, buf).rest == buf
    ensures Sized(h, Drain(h, buf).payloads)
    ensures !Ready(h, Drain(h, buf).rest)
    decreases |buf|
  {
    if Ready(h, buf) {
      var tail := AfterHead(h, buf);
      var d := Drain(h, tail);
      DrainConserves(h, tail);
      SplitHead(h, buf);
      var all := [HeadPayload(h, buf)] + d.payloads;
      assert all[1..] == d.payloads;
      ConcatAssociates(Frame(h, all[0]), Frames(h, d.payloads), d.rest);
    }
  }

  lemma {:induction false} FrameHeadUnique(h: nat, p: seq<byte>, s: seq<byte>, q: seq<byte>, t: seq<byte>)
    requires |p| < Pow256(h) && |q| < Pow256(h)
    requires Frame(h, p) + s == Frame(h, q) + t
    ensures p == q && s == t
  {
    FrameAtFront(h, p, s);
    FrameAtFront(h, q, t);
  }

  lemma {:induction false} FramesUnique(h: nat, a: seq<seq<byte>>, rest: seq<byte>, b: seq<seq<byte>>)
    requires h >= 1
    requires Sized(h, a) && Sized(h, b)
    requires Frames(h, a) + rest == Frames(h, b)
    ensures a <= b
    ensures rest == Frames(h, b[|a|..])
  {
    if a == [] {
      assert Frames(h, a) + rest == rest;
      assert b[|a|..] == b;
    } else {
      ConcatAssociates(Frame(h, a[0]), Frames(h, a[1..]), rest);
      assert |Frames(h, b)| >= |Frame(h, a[0])| >= h;
      assert b != [];
      FrameHeadUnique(h, a[0], Frames(h, a[1..]) + rest, b[0], Frames(h, b[1..]));
      FramesUnique(h, a[1..], rest, b[1..]);
      assert a == [a[0]] + a[1..] && b == [b[0]] + b[1..];
      assert b[1..][|a[1..]|..] == b[|a|..];
    }
  }

  /** Framing is a prefix code: a byte string that starts with the frames `a`
      and is itself a prefix of the frames `b` can only have been cut from `b`
      frame by frame. */
  lemma {:induction false} FramesPrefixUnique(h: nat, a: seq<seq<byte>>, rest: seq<byte>, b: seq<seq<byte>>)
    requires h >= 1
    requires Sized(h, a) && Sized(h, b)
    requires Frames(h, a) + rest <= Frames(h, b)
    ensures a <= b
    ensures rest <= Frames(h, b[|a|..])
  {
    var spill := Frames(h, b)[|Frames(h, a) + rest|..];
    assert Frames(h, a) + (rest + spill) == (Frames(h, a) + rest) + spill == Frames(h, b);
    FramesUnique(h, a, rest + spill, b);
  }

  /** While the buffer fits the width of `left`, a callback leaves either too
      few bytes for a prefix and one payload byte, or an incomplete frame. */
  lemma {:induction false} DrainFinishes(h: nat, buf: seq<byte>)
    requires h >= 1
    requires |buf| < Pow256(h) + h
    ensures |Drain(h, buf).rest| <= h || !Complete(h, Drain(h, buf).rest)
  {
    DrainConserves(h, buf);
    var rest := Drain(h, buf).rest;
    assert |rest| <= |buf|;
  }

  /** What is left can start with a complete frame only if `left` has wrapped. */
  lemma LeftoverWraps(h: nat, buf: seq<byte>)
    requires h >= 1
    ensures var rest := Drain(h, buf).rest;
            (Complete(h, rest) && HeadLen(h, rest) > 0)
            <==> (|rest| >= Pow256(h) + h
                  && (|rest| - h) % Pow256(h) < HeadLen(h, rest))
  {
    hide Pow256, FromBE, Drain;
    DrainConserves(h, buf);
    var rest := Drain(h, buf).rest;
    if |rest| >= h {
      ToFromBE(rest[..h]);
      assert HeadLen(h, rest) < Pow256(h);
      TruncationShrinks(|rest| - h, Pow256(h));
    }
  }

  // ----- which buffers stall ------------------------------------------------

  /** The truncated `left` in front of frame `k` of `ps`, with `tail` behind them, is
      not below its length. */
  predicate Passes(h: nat, ps: seq<seq<byte>>, tail: seq<byte>, k: nat)
    requires k < |ps|
  {
    |ps[k]| <= (|Frames(h, ps[k..])| + |tail| - h) % Pow256(h)
  }

  lemma PassesIsReady(h: nat, ps: seq<seq<byte>>, tail: seq<byte>)
    requires h >= 1 && Sized(h, ps) && NonEmpty(ps) && ps != []
    ensures var buf := Frames(h, ps) + tail;
            && Complete(h, buf) && (Ready(h, buf) <==> Passes(h, ps, tail, 0))
            && HeadPayload(h, buf) == ps[0] && AfterHead(h, buf) == Frames(h, ps[1..]) + tail
  {
    hide Complete, HeadPayload, AfterHead, Pow256;
    var rest := Frames(h, ps[1..]) + tail;
    ConcatAssociates(Frame(h, ps[0]), Frames(h, ps[1..]), tail);
    FrameAtFront(h, ps[0], rest);
    HeadLenIs(h, Frame(h, ps[0]) + rest, ps[0]);
    assert ps[0..] == ps;
  }

  lemma HeadLenIs(h: nat, buf: seq<byte>, p: seq<byte>)
    requires Complete(h, buf) && HeadPayload(h, buf) == p
    ensures HeadLen(h, buf) == |p|
  {
  }

  /** A callback that gets whole frames and an incomplete tail takes the frames up to
      the first that does not pass, and leaves everything from there on. */
  lemma {:induction false} DrainStopsAt(h: nat, ps: seq<seq<byte>>, tail: seq<byte>, k: nat)
    requires h >= 1 && Sized(h, ps) && NonEmpty(ps)
    requires |tail| <= h || !Complete(h, tail)
    requires k <= |ps| && (forall j | 0 <= j < k :: Passes(h, ps, tail, j))
    requires k < |ps| ==> !Passes(h, ps, tail, k)
    ensures Drain(h, Frames(h, ps) + tail) == Drained(ps[..k], Frames(h, ps[k..]) + tail)
    decreases |ps|
  {
    hide Frames, HeadPayload, AfterHead, Passes;
    if ps == [] {
      FramesNothing(h);
      assert Frames(h, ps) + tail == tail && ps[k..] == ps;
    } else {
      PassesIsReady(h, ps, tail);
      if k == 0 {
        assert ps[k..] == ps && ps[..k] == [];
      } else {
        forall j | 0 <= j < |ps| - 1 ensures Passes(h, ps[1..], tail, j) <==> Passes(h, ps, tail, j + 1) {
          PassesShift(h, ps, tail, j);
        }
        DrainStopsAt(h, ps[1..], tail, k - 1);
        assert ps[1..][k - 1..] == ps[k..];
        assert ps[..k] == [ps[0]] + ps[1..][..k - 1];
      }
    }
  }

  lemma FramesNothing(h: nat)
    ensures Frames(h, []) == []
  {
  }

  lemma PassesShift(h: nat, ps: seq<seq<byte>>, tail: seq<byte>, j: nat)
    requires j + 1 < |ps|
    ensures Passes(h, ps[1..], tail, j) <==> Passes(h, ps, tail, j + 1)
  {
    assert ps[1..][j..] == ps[j + 1..];
  }

  /** Which buffers a callback empties of whole messages: exactly those in which every
      message passes the truncated length test. */
  lemma DecodesAllIff(h: nat, ps: seq<seq<byte>>, tail: seq<byte>)
    requires h >= 1 && Sized(h, ps) && NonEmpty(ps)
    requires |tail| <= h || !Complete(h, tail)
    ensures Drain(h, Frames(h, ps) + tail).payloads == ps <==> forall k | 0 <= k < |ps| :: Passes(h, ps, tail, k)
  {
    hide Passes, Frames, Complete;
    var k := FirstStall(h, ps, tail);
    DrainStopsAt(h, ps, tail, k);
    if k < |ps| {
      assert |ps[..k]| == k;
    } else {
      assert ps[..k] == ps;
    }
  }

  lemma FirstStall(h: nat, ps: seq<seq<byte>>, tail: seq<byte>) returns (k: nat)
    ensures k <= |ps| && (forall j | 0 <= j < k :: Passes(h, ps, tail, j))
    ensures k < |ps| ==> !Passes(h, ps, tail, k)
  {
    hide Passes;
    k := 0;
    while k < |ps| && Passes(h, ps, tail, k)
      invariant k <= |ps| && forall j | 0 <= j < k :: Passes(h, ps, tail, j)
    {
      k := k + 1;
    }
  }

  // ----- any chunking -----------------------------------------------------

  function Flatten(chunks: seq<seq<byte>>): seq<byte>
  {
    if chunks == [] then [] else Flatten(chunks[..|chunks| - 1]) + chunks[|chunks| - 1]
  }

  /** The state of a receiver after a series of callbacks: everything decoded
      so far, and the buffer it carries to the next callback. */
  function Receive(h: nat, chunks: seq<seq<byte>>): Drained
    requires h >= 1
  {
    if chunks == [] then Drained([], [])
    else
      var before := Receive(h, chunks[..|chunks| - 1]);
      var d := Drain(h, before.rest + chunks[|chunks| - 1]);
      Drained(before.payloads + d.payloads, d.rest)
  }

  /** One callback moves bytes from the stream into frames and leftover. */
  lemma {:induction false} DrainExtends(h: nat, done: seq<seq<byte>>, buf: seq<byte>, chunk: seq<byte>)
    requires h >= 1
    ensures var d := Drain(h, buf + chunk);
            Frames(h, done + d.payloads) + d.rest == (Frames(h, done) + buf) + chunk
  {
    var d := Drain(h, buf + chunk);
    DrainConserves(h, buf + chunk);
    FramesConcat(h, done, d.payloads);
    ConcatAssociates(Frames(h, done), Frames(h, d.payloads), d.rest);
    ConcatAssociates(Frames(h, done), buf, chunk);
  }

  lemma ConcatAssociates(a: seq<byte>, b: seq<byte>, c: seq<byte>)
    ensures (a + b) + c == a + (b + c)
  {
  }

  lemma {:induction false} ReceiveConserves(h: nat, chunks: seq<seq<byte>>)
    requires h >= 1
    ensures var r := Receive(h, chunks);
            && Frames(h, r.payloads) + r.rest == Flatten(chunks)
            && Sized(h, r.payloads)
  {
    if chunks != [] {
      var before := Receive(h, chunks[..|chunks| - 1]);
      var last := chunks[|chunks| - 1];
      ReceiveConserves(h, chunks[..|chunks| - 1]);
      DrainConserves(h, before.rest + last);
      DrainExtends(h, before.payloads, before.rest, last);
    }
  }

  /** The buffer of every callback fits the width of `left`. */
  predicate Fits(h: nat, chunks: seq<seq<byte>>)
    requires h >= 1
  {
    forall i {:trigger chunks[..i]} | 0 <= i < |chunks| ::
      |Receive(h, chunks[..i]).rest| + |chunks[i]| < Pow256(h) + h
  }

  /** Reassembly does not depend on chunking. However the bytes of `written`
      are cut up, what has been decoded is a prefix of the messages written and
      the buffer is cut from what follows. If no buffer outgrows `left`, the
      buffer is a proper prefix of the next frame, so nothing complete waits. */
  lemma {:induction false} ChunkingIndependence(h: nat, chunks: seq<seq<byte>>, written: seq<seq<byte>>)
    requires h >= 1
    requires Sized(h, written) && NonEmpty(written)
    requires Flatten(chunks) <= Frames(h, written)
    ensures var r := Receive(h, chunks);
            && r.payloads <= written
            && r.rest <= Frames(h, written[|r.payloads|..])
            && (Fits(h, chunks) ==>
                  if |r.payloads| == |written| then r.rest == []
                  else r.rest < Frame(h, written[|r.payloads|]))
  {
    var r := Receive(h, chunks);
    ReceiveConserves(h, chunks);
    FramesPrefixUnique(h, r.payloads, r.rest, written);
    if Fits(h, chunks) {
      ReceiveFinishes(h, chunks);
      IncompleteIsProperPrefix(h, r.rest, written[|r.payloads|..]);
    }
  }

  lemma {:induction false} ReceiveFinishes(h: nat, chunks: seq<seq<byte>>)
    requires h >= 1 && Fits(h, chunks)
    ensures var rest := Receive(h, chunks).rest; |rest| <= h || !Complete(h, rest)
  {
    if chunks != [] {
      var last := |chunks| - 1;
      assert |Receive(h, chunks[..last]).rest| + |chunks[last]| < Pow256(h) + h;
      DrainFinishes(h, Receive(h, chunks[..last]).rest + chunks[last]);
    }
  }

  /** A buffer with no complete frame that is cut from a stream of non-empty
      frames is a proper prefix of the first of them. */
  lemma {:induction false} IncompleteIsProperPrefix(h: nat, buf: seq<byte>, next: seq<seq<byte>>)
    requires h >= 1
    requires Sized(h, next) && NonEmpty(next)
    requires buf <= Frames(h, next)
    requires |buf| <= h || !Complete(h, buf)
    ensures if next == [] then buf == [] else buf < Frame(h, next[0])
  {
    if next != [] {
      var first := Frame(h, next[0]);
      if |buf| >= |first| {
        assert Frames(h, next) == first + Frames(h, next[1..]);
        assert buf == first + buf[|first|..];
        FrameAtFront(h, next[0], buf[|first|..]);
        assert false;
      }
      assert Frames(h, next)[..|first|] == first;
      assert buf == Frames(h, next)[..|buf|] == first[..|buf|];
    }
  }

  /** Two chunkings of the same bytes that keep every buffer within `left`
      decode to the same messages and the same leftover. */
  lemma SameBytesSameMessages(h: nat, x: seq<seq<byte>>, y: seq<seq<byte>>, written: seq<seq<byte>>)
    requires h >= 1
    requires Sized(h, written) && NonEmpty(written)
    requires Flatten(x) == Flatten(y) <= Frames(h, written)
    requires Fits(h, x) && Fits(h, y)
    ensures Receive(h, x) == Receive(h, y)
  {
    ChunkingIndependence(h, x, written);
    ChunkingIndependence(h, y, written);
    var a, b := Receive(h, x), Receive(h, y);
    ReceiveConserves(h, x);
    ReceiveConserves(h, y);
    if |a.payloads| < |b.payloads| {
      NextFrameReaches(h, a, b, written);
      assert false;
    } else if |b.payloads| < |a.payloads| {
      NextFrameReaches(h, b, a, written);
      assert false;
    }
    assert a.payloads == written[..|a.payloads|] == b.payloads;
    assert a.rest == Flatten(x)[|Frames(h, a.payloads)|..];
    assert b.rest == Flatten(y)[|Frames(h, b.payloads)|..];
  }

  /** A receiver with more messages has seen strictly more bytes than one that
      still waits for the next frame. */
  lemma {:induction false} NextFrameReaches(h: nat, a: Drained, b: Drained, written: seq<seq<byte>>)
    requires a.payloads <= written && b.payloads <= written
    requires |a.payloads| < |b.payloads|
    requires a.rest < Frame(h, written[|a.payloads|])
    ensures |Frames(h, a.payloads) + a.rest| < |Frames(h, b.payloads)|
  {
    var n := |a.payloads|;
    assert b.payloads == b.payloads[..n] + b.payloads[n..];
    assert a.payloads == written[..n] == b.payloads[..n];
    FramesConcat(h, a.payloads, b.payloads[n..]);
    assert b.payloads[n..][0] == b.payloads[n] == written[n];
  }
}
