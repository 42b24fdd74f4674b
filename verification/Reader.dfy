/** The controller's Reader: it waits for the Postman's flag and then writes every
    usable query of the input as one frame. */
module Reader {
  import opened Bytes
  import opened Framing
  import opened Messages

  class ReaderProcess {
    const codec: Codec
    const flag: string
    var wire: seq<byte>

    constructor (codec: Codec, flag: string)
      ensures this.codec == codec && this.flag == flag && wire == []
    {
      this.codec, this.flag, wire := codec, flag, [];
    }

    /** `unblock`: the event loop ends at the first read that matches the flag, or
        on a signal, after `flags`. */
    method Unblock(flags: seq<string>) returns (go: bool)
      requires flag != ""
      ensures go <==> flag in flags
    {
      for i := 0 to |flags|
        invariant flag !in flags[..i]
      {
        assert flags[..i + 1] == flags[..i] + [flags[i]];
        if flags[i] == flag {
          return true;
        }
      }
      assert flags[..|flags|] == flags;
      return false;
    }

    /** `read_input`; the preload limit only delays it. */
    method ReadInput(input: seq<DNSMsg>)
      modifies this`wire
      ensures wire == old(wire) + Frames(PREFIX, Serialised(codec, UsableOf(input)))
    {
      ghost var done: seq<Payload> := [];
      for i := 0 to |input|
        invariant done == Serialised(codec, UsableOf(input[..i]))
        invariant wire == old(wire) + Frames(PREFIX, done)
      {
        assert input[..i + 1][..i] == input[..i];
        var msg := input[i];
        if |msg.raw| == 0 {
          continue;
        }
        var msgStr := codec.ser(msg);
        FramesSnoc(PREFIX, done, msgStr);
        ConcatAssociates(old(wire), Frames(PREFIX, done), Frame(PREFIX, msgStr));
        ConcatAssociates(wire, ToBE(|msgStr|, PREFIX), msgStr);
        wire := wire + ToBE(|msgStr|, PREFIX);
        wire := wire + msgStr;
        done := done + [msgStr];
      }
      assert input[..|input|] == input;
    }
  }
}
