/**
 * The query mutator's raw format: a file of length-prefixed serialised messages, written by
 * write_raw (mutator.cc) and read back by get_from_raw (input_stream.cc), and the loop of the
 * mutator between the two.
 */
module RawFile {
  import opened Common
  import opened Bytes
  import opened Framing
  import opened Messages

  // The size of the buffer on the stack that a payload is read into.
  const BUF_SIZE: nat := 4096

  datatype Read =
    | Message(payload: Payload)
    | End        // end of file, or the file stops in the middle of a message
    | Overflow   // more bytes were read than the buffer holds

  // The outcome of one call and the unread rest of the file.
  function Get(file: seq<byte>): (Read, seq<byte>)
  {
    if |file| < PREFIX then (End, [])
    else
      var sz := HeadLen(PREFIX, file);
      var there := |file| - PREFIX;
      if sz > BUF_SIZE && there > BUF_SIZE then (Overflow, [])
      else if there < sz then (End, [])
      else (Message(HeadPayload(PREFIX, file)), AfterHead(PREFIX, file))
  }

  datatype Contents = Contents(payloads: seq<Payload>, overflow: bool)

  // Everything a caller gets until it is told to stop.
  function ReadAll(file: seq<byte>): Contents
    decreases |file|
  {
    match Get(file)
    case (End, _) => Contents([], false)
    case (Overflow, _) => Contents([], true)
    case (Message(p), rest) =>
      var more := ReadAll(rest);
      Contents([p] + more.payloads, more.overflow)
  }

  class InputStream {
    var rest: seq<byte>

    constructor (file: seq<byte>)
      ensures rest == file
    {
      rest := file;
    }

    method ReadBytes(n: nat) returns (ok: bool, bytes: seq<byte>)
      modifies this
      ensures ok <==> n <= |old(rest)|
      ensures ok ==> bytes == old(rest)[..n] && rest == old(rest)[n..]
      ensures !ok ==> bytes == old(rest) && rest == []
    {
      if |rest| < n {
        ok, bytes, rest := false, rest, [];
      } else {
        ok, bytes, rest := true, rest[..n], rest[n..];
      }
    }

    method GetFromRaw() returns (r: Read)
      modifies this
      ensures (r, rest) == Get(old(rest))
    {
      var ok, head := ReadBytes(PREFIX);
      if !ok { return End; }
      var sz := FromBE(head);
      var body;
      ok, body := ReadBytes(sz);
      if |body| > BUF_SIZE { rest := []; return Overflow; }
      if !ok { return End; }
      assert body == HeadPayload(PREFIX, old(rest));
      return Message(body);
    }
  }

  // ---- What was written is read back ----

  predicate Small(ps: seq<Payload>) {
    forall p :: p in ps ==> |p| <= 4096
  }

  // The payloads before the first that does not fit the buffer.
  function Fitting(ps: seq<Payload>): (r: seq<Payload>)
    ensures r <= ps && Small(r)
    ensures r == ps <==> Small(ps)
    ensures |r| < |ps| ==> |ps[|r|]| > BUF_SIZE
  {
    if ps == [] || |ps[0]| > BUF_SIZE then [] else [ps[0]] + Fitting(ps[1..])
  }

  lemma {:induction false} ReadAllOfFrames(ps: seq<Payload>)
    requires Sized(PREFIX, ps)
    ensures ReadAll(Frames(PREFIX, ps)) == Contents(Fitting(ps), !Small(ps))
    decreases |ps|
  {
    hide Frame, HeadLen, HeadPayload, AfterHead;
    if ps != [] {
      var p, tail := ps[0], Frames(PREFIX, ps[1..]);
      HeadOfFile(p, tail);
      ReadAllOfFrames(ps[1..]);
      assert ps == [p] + ps[1..];
      assert Small(ps) <==> |p| <= BUF_SIZE && Small(ps[1..]);
    }
  }

  lemma HeadOfFile(p: Payload, tail: seq<byte>)
    requires |p| < Pow256(PREFIX)
    ensures Get(Frame(PREFIX, p) + tail) == if |p| <= BUF_SIZE then (Message(p), tail) else (Overflow, [])
  {
    var file := Frame(PREFIX, p) + tail;
    FrameAtFront(PREFIX, p, tail);
    assert |file| == PREFIX + |p| + |tail|;
    assert |HeadPayload(PREFIX, file)| == HeadLen(PREFIX, file);
  }

  /** The file gives back exactly what was written iff every message fits the read buffer. */
  lemma RawRoundTripIff(codec: Codec, ms: seq<DNSMsg>)
    requires Faithful(codec) && Sized(PREFIX, Serialised(codec, ms))
    ensures var c := ReadAll(Frames(PREFIX, Serialised(codec, ms)));
            (!c.overflow && Parsed(codec, c.payloads) == ms) <==> Small(Serialised(codec, ms))
  {
    ReadAllOfFrames(Serialised(codec, ms));
    ParsedSerialised(codec, ms);
  }

  /** A file cut short at any byte gives the messages that are whole, and no other. */
  lemma {:induction false} TruncatedFile(ps: seq<Payload>, n: nat) returns (k: nat)
    requires Sized(PREFIX, ps) && Small(ps)
    requires n <= |Frames(PREFIX, ps)|
    ensures k <= |ps| && |Frames(PREFIX, ps[..k])| <= n
    ensures k < |ps| ==> n < |Frames(PREFIX, ps[..k + 1])|
    ensures ReadAll(Frames(PREFIX, ps)[..n]) == Contents(ps[..k], false)
    decreases |ps|
  {
    hide Get, Frame, Frames, ReadAll;
    if ps == [] {
      k := 0;
      FramesNone();
      assert Frames(PREFIX, ps) == [] && ps[..0] == [];
      EmptyFile();
      ReadAllEnd(Frames(PREFIX, ps)[..n]);
    } else {
      var p, tail := ps[0], Frames(PREFIX, ps[1..]);
      assert ps[..|ps|] == ps && ps[1..][..|ps| - 1] == ps[1..];
      FramesHead(ps, |ps|);
      var f := |Frame(PREFIX, p)|;
      if n < f {
        k := 0;
        FramesNone();
        assert ps[..1] == [p] && ps[..0] == [];
        OneFrame(p);
        CutHead(p, tail, n);
        ReadAllEnd((Frame(PREFIX, p) + tail)[..n]);
      } else {
        var j := TruncatedFile(ps[1..], n - f);
        k := j + 1;
        assert (Frame(PREFIX, p) + tail)[..n] == Frame(PREFIX, p) + tail[..n - f];
        HeadOfFile(p, tail[..n - f]);
        ReadAllMore(Frame(PREFIX, p) + tail[..n - f], p, tail[..n - f]);
        FramesHead(ps, k);
        if k < |ps| { FramesHead(ps, k + 1); }
        assert ps[..k] == [p] + ps[1..][..j];
      }
    }
  }

  lemma ReadAllEnd(file: seq<byte>)
    requires Get(file) == (End, [])
    ensures ReadAll(file) == Contents([], false)
  {
  }

  lemma ReadAllMore(file: seq<byte>, p: Payload, rest: seq<byte>)
    requires Get(file) == (Message(p), rest)
    ensures ReadAll(file) == Contents([p] + ReadAll(rest).payloads, ReadAll(rest).overflow)
  {
  }

  lemma EmptyFile()
    ensures Get([]) == (End, [])
  {
  }

  lemma OneFrame(p: Payload)
    ensures Frames(PREFIX, [p]) == Frame(PREFIX, p)
  {
    assert [p][1..] == [];
    assert Frames(PREFIX, [p]) == Frame(PREFIX, p) + Frames(PREFIX, []);
  }

  lemma FramesHead(ps: seq<Payload>, k: nat)
    requires 1 <= k <= |ps|
    ensures Frames(PREFIX, ps[..k]) == Frame(PREFIX, ps[0]) + Frames(PREFIX, ps[1..][..k - 1])
  {
    assert ps[..k][1..] == ps[1..][..k - 1];
  }

  lemma CutHead(p: Payload, tail: seq<byte>, n: nat)
    requires |p| < Pow256(PREFIX) && |p| <= BUF_SIZE && n < |Frame(PREFIX, p)|
    ensures Get((Frame(PREFIX, p) + tail)[..n]) == (End, [])
  {
    var file := Frame(PREFIX, p) + tail;
    if n >= PREFIX {
      FrameAtFront(PREFIX, p, tail);
      assert file[..n][..PREFIX] == file[..PREFIX];
      assert HeadLen(PREFIX, file[..n]) == HeadLen(PREFIX, file);
      assert |HeadPayload(PREFIX, file)| == HeadLen(PREFIX, file);
    }
  }

  // ---- The mutator's loop ----

  // What is written: messages with raw data before and after the mutation.
  function Kept(mutate: (nat, DNSMsg) -> DNSMsg, ms: seq<DNSMsg>): seq<DNSMsg> {
    if ms == [] then []
    else
      var n := |ms| - 1;
      var m := mutate(n, ms[n]);
      Kept(mutate, ms[..n]) + if Usable(ms[n]) && Usable(m) then [m] else []
  }

  /** start, for a finite run from a raw file to a raw file. */
  method Start(ins: InputStream, codec: Codec, mutate: (nat, DNSMsg) -> DNSMsg) returns (out: seq<byte>, overflow: bool)
    modifies ins
    ensures var c := ReadAll(old(ins.rest));
            && overflow == c.overflow
            && out == Frames(PREFIX, Serialised(codec, Kept(mutate, Parsed(codec, c.payloads))))
  {
    hide Get, Frames;
    out := [];
    ghost var done: seq<Payload> := [];
    ghost var whole := ReadAll(ins.rest);
    var count := 0;
    FramesNone();
    assert done + whole.payloads == whole.payloads;
    assert Parsed(codec, done) == [];
    assert Serialised(codec, []) == [];
    while true
      invariant count == |done|
      invariant out == Frames(PREFIX, Serialised(codec, Kept(mutate, Parsed(codec, done))))
      invariant whole.payloads == done + ReadAll(ins.rest).payloads
      invariant whole.overflow == ReadAll(ins.rest).overflow
      decreases |ins.rest|
    {
      ghost var before := ins.rest;
      GetShrinks(before);
      var r := ins.GetFromRaw();
      if r.End? {
        assert whole.payloads == done;
        return out, false;
      }
      if r.Overflow? {
        assert whole.payloads == done;
        return out, true;
      }
      var m := codec.parse(r.payload);
      ghost var rest := ReadAll(ins.rest).payloads;
      assert done + ([r.payload] + rest) == done + [r.payload] + rest;
      ParsedSnoc(codec, done, r.payload);
      KeptSnoc(codec, mutate, Parsed(codec, done), m);
      done := done + [r.payload];
      if Usable(m) {
        var changed := mutate(count, m);
        if Usable(changed) {
          out := out + Frame(PREFIX, codec.ser(changed));
        }
      }
      count := count + 1;
    }
  }

  lemma GetShrinks(file: seq<byte>)
    ensures Get(file).0.Message? ==> |Get(file).1| < |file|
  {
  }

  lemma FramesNone()
    ensures Frames(PREFIX, []) == []
  {
  }

  lemma KeptSnoc(codec: Codec, mutate: (nat, DNSMsg) -> DNSMsg, ms: seq<DNSMsg>, m: DNSMsg)
    ensures var m' := mutate(|ms|, m);
            Frames(PREFIX, Serialised(codec, Kept(mutate, ms + [m]))) ==
            Frames(PREFIX, Serialised(codec, Kept(mutate, ms))) +
            if Usable(m) && Usable(m') then Frame(PREFIX, codec.ser(m')) else []
  {
    hide Frames, Frame, Serialised, Kept, Usable;
    var kept, m' := Kept(mutate, ms), mutate(|ms|, m);
    KeptOneMore(mutate, ms, m);
    FramedOneMore(codec, kept, m');
  }

  lemma KeptOneMore(mutate: (nat, DNSMsg) -> DNSMsg, ms: seq<DNSMsg>, m: DNSMsg)
    ensures var m' := mutate(|ms|, m);
            Kept(mutate, ms + [m]) == if Usable(m) && Usable(m') then Kept(mutate, ms) + [m'] else Kept(mutate, ms)
  {
    assert (ms + [m])[..|ms|] == ms;
    assert Kept(mutate, ms) + [] == Kept(mutate, ms);
  }

  lemma FramedOneMore(codec: Codec, kept: seq<DNSMsg>, m: DNSMsg)
    ensures Frames(PREFIX, Serialised(codec, kept + [m])) == Frames(PREFIX, Serialised(codec, kept)) + Frame(PREFIX, codec.ser(m))
  {
    hide Frames, Frame;
    assert Serialised(codec, kept + [m]) == Serialised(codec, kept) + [codec.ser(m)];
    FramesSnoc(PREFIX, Serialised(codec, kept), codec.ser(m));
  }

  /** Every message beside what the mutation makes of it. */
  function Pairs(mutate: (nat, DNSMsg) -> DNSMsg, ms: seq<DNSMsg>): (r: seq<(DNSMsg, DNSMsg)>)
    ensures |r| == |ms| && forall k | 0 <= k < |ms| :: r[k] == (ms[k], mutate(k, ms[k]))
  {
    seq(|ms|, k requires 0 <= k < |ms| => (ms[k], mutate(k, ms[k])))
  }

  /** What is written are the mutated forms, in order, of exactly the messages that have raw data before
      and after. */
  lemma {:induction false} KeptIsFilter(mutate: (nat, DNSMsg) -> DNSMsg, ms: seq<DNSMsg>, keep: ((DNSMsg, DNSMsg)) -> bool)
      returns (ks: seq<nat>, part: seq<(DNSMsg, DNSMsg)>)
    requires forall x :: keep(x) <==> x.0.raw != [] && x.1.raw != []
    ensures Filters(Pairs(mutate, ms), part, ks, keep)
    ensures |Kept(mutate, ms)| == |part| && forall i | 0 <= i < |part| :: Kept(mutate, ms)[i] == part[i].1
  {
    hide Filters;
    if ms == [] {
      ks, part := [], [];
      FiltersNone(keep);
      assert Pairs(mutate, ms) == [];
    } else {
      var n := |ms| - 1;
      var x := (ms[n], mutate(n, ms[n]));
      assert Pairs(mutate, ms) == Pairs(mutate, ms[..n]) + [x];
      ks, part := KeptIsFilter(mutate, ms[..n], keep);
      if keep(x) {
        FiltersKeep(Pairs(mutate, ms[..n]), part, ks, keep, x);
        ks, part := ks + [n], part + [x];
      } else {
        FiltersSkip(Pairs(mutate, ms[..n]), part, ks, keep, x);
      }
    }
  }

  lemma {:induction false} KeptUnchanged(mutate: (nat, DNSMsg) -> DNSMsg, ms: seq<DNSMsg>)
    requires forall n, m :: mutate(n, m) == m
    ensures Kept(mutate, ms) == UsableOf(ms)
  {
    if ms != [] { KeptUnchanged(mutate, ms[..|ms| - 1]); }
  }

  /**
   * A raw file written from `ms`, run through the mutator without options and read again, holds the usable
   * messages of `ms`.
   */
  lemma CopyKeepsUsable(codec: Codec, mutate: (nat, DNSMsg) -> DNSMsg, ms: seq<DNSMsg>)
    requires Faithful(codec) && (forall n, m :: mutate(n, m) == m)
    requires Sized(PREFIX, Serialised(codec, ms)) && Small(Serialised(codec, ms))
    ensures var c := ReadAll(Frames(PREFIX, Serialised(codec, ms)));
            var out := Frames(PREFIX, Serialised(codec, Kept(mutate, Parsed(codec, c.payloads))));
            ReadAll(out) == Contents(Serialised(codec, UsableOf(ms)), false)
  {
    hide Frames, ReadAll, UsableOf, Kept;
    ReadAllOfFrames(Serialised(codec, ms));
    ParsedSerialised(codec, ms);
    KeptUnchanged(mutate, ms);
    UsableOfContents(ms);
    var us := UsableOf(ms);
    forall i | 0 <= i < |us|
      ensures |codec.ser(us[i])| < Pow256(PREFIX) && |codec.ser(us[i])| <= BUF_SIZE
    {
      assert us[i] in us;
      var j :| 0 <= j < |ms| && ms[j] == us[i];
      assert Serialised(codec, ms)[j] in Serialised(codec, ms);
    }
    ReadAllOfFrames(Serialised(codec, us));
  }
}
