/** One FIFO byte connection of the replay chain: what the receiver has decoded,
    what it buffers and what the sender has written. */
module Links {
  import opened Bytes
  import opened Framing
  import opened Messages

  /** The sender has written the frames of a prefix of `full`. */
  ghost predicate Cut(full: seq<Payload>, wire: seq<byte>)
  {
    exists k: nat :: IsCut(full, wire, k)
  }

  ghost predicate IsCut(full: seq<Payload>, wire: seq<byte>, k: nat)
  {
    k <= |full| && wire == Frames(PREFIX, full[..k])
  }

  predicate Idle(buf: seq<byte>)
  {
    |buf| <= PREFIX || !Complete(PREFIX, buf)
  }

  predicate WellSized(full: seq<Payload>)
  {
    Sized(PREFIX, full) && NonEmpty(full)
  }

  /** The bytes a receiver has taken off the connection. */
  function Taken(got: seq<Payload>, buf: seq<byte>): seq<byte>
  {
    Frames(PREFIX, got) + buf
  }

  /** The receiver has decoded a prefix of what the sender will ever write, and
      holds no complete frame. */
  ghost predicate LinkOk(got: seq<Payload>, buf: seq<byte>, wire: seq<byte>, full: seq<Payload>)
  {
    got <= full && Taken(got, buf) <= wire && Cut(full, wire) && Idle(buf)
  }

  /** A read callback may run with any non-empty piece of what is in flight. Its
      buffer stays within the 32 bits of `left`. */
  predicate MayRead(got: seq<Payload>, buf: seq<byte>, wire: seq<byte>, chunk: seq<byte>)
  {
    && chunk != []
    && Taken(got, buf) + chunk <= wire
    && |buf| + |chunk| < Pow256(PREFIX) + PREFIX
  }

  lemma CutIsPrefix(full: seq<Payload>, wire: seq<byte>)
    requires Cut(full, wire)
    ensures wire <= Frames(PREFIX, full)
  {
    var k: nat :| IsCut(full, wire, k);
    assert full == full[..k] + full[k..];
    FramesConcat(PREFIX, full[..k], full[k..]);
  }

  lemma LinkFresh(full: seq<Payload>)
    ensures LinkOk([], [], [], full)
  {
    assert full[..0] == [];
    assert IsCut(full, [], 0);
  }

  /** Whatever the chunk, the link stays in order. */
  lemma LinkRead(got: seq<Payload>, buf: seq<byte>, wire: seq<byte>, full: seq<Payload>, chunk: seq<byte>)
    requires LinkOk(got, buf, wire, full) && WellSized(full) && MayRead(got, buf, wire, chunk)
    ensures var d := Drain(PREFIX, buf + chunk); LinkOk(got + d.payloads, d.rest, wire, full)
  {
    var d := Drain(PREFIX, buf + chunk);
    DrainExtends(PREFIX, got, buf, chunk);
    DrainConserves(PREFIX, buf + chunk);
    DrainFinishes(PREFIX, buf + chunk);
    CutIsPrefix(full, wire);
    var got' := got + d.payloads;
    assert Sized(PREFIX, got') by {
      forall i | 0 <= i < |got'| ensures |got'[i]| < Pow256(PREFIX) {
        if i < |got| {
          assert got[i] == full[i];
        }
      }
    }
    assert Taken(got', d.rest) == Taken(got, buf) + chunk;
    FramesPrefixUnique(PREFIX, got', d.rest, full);
  }

  /** The sender may write more. */
  lemma LinkGrows(got: seq<Payload>, buf: seq<byte>, wire: seq<byte>, wire': seq<byte>, full: seq<Payload>)
    requires LinkOk(got, buf, wire, full) && wire <= wire' && Cut(full, wire')
    ensures LinkOk(got, buf, wire', full)
  {
  }

  /** When everything written has been taken, everything written is decoded. */
  lemma LinkDrained(got: seq<Payload>, buf: seq<byte>, wire: seq<byte>, full: seq<Payload>, k: nat)
    requires LinkOk(got, buf, wire, full) && WellSized(full)
    requires Taken(got, buf) == wire && IsCut(full, wire, k)
    ensures buf == [] && got == full[..k]
  {
    var sent := full[..k];
    FramesUnique(PREFIX, got, buf, sent) by {
      assert Sized(PREFIX, got) by {
        forall i | 0 <= i < |got| ensures |got[i]| < Pow256(PREFIX) {
          assert got[i] == full[i];
        }
      }
    }
    var next := sent[|got|..];
    assert buf == Frames(PREFIX, next);
    IncompleteIsProperPrefix(PREFIX, buf, next);
    if next != [] {
      assert false;
    }
  }

  /** A buffer cut from non-empty frames is never a lone empty frame. */
  lemma NoLoneEmptyFrame(got: seq<Payload>, buf: seq<byte>, wire: seq<byte>, full: seq<Payload>, chunk: seq<byte>)
    requires LinkOk(got, buf, wire, full) && WellSized(full) && MayRead(got, buf, wire, chunk)
    ensures var b := buf + chunk; !(|b| == PREFIX && HeadLen(PREFIX, b) == 0)
  {
    var b := buf + chunk;
    CutIsPrefix(full, wire);
    ConcatAssociates(Frames(PREFIX, got), buf, chunk);
    assert Sized(PREFIX, got) by {
      forall i | 0 <= i < |got| ensures |got[i]| < Pow256(PREFIX) {
        assert got[i] == full[i];
      }
    }
    FramesPrefixUnique(PREFIX, got, b, full);
    var next := full[|got|..];
    if |b| == PREFIX {
      assert next != [];
      assert Frames(PREFIX, next) == Frame(PREFIX, next[0]) + Frames(PREFIX, next[1..]);
      assert b == Frames(PREFIX, next)[..PREFIX] == ToBE(|next[0]|, PREFIX);
      FromToBE(|next[0]|, PREFIX);
      assert next[0] == full[|got|];
      assert b[..PREFIX] == b;
    }
  }
}
