/** The socket primitives that the protocol code calls: POSIX `recv` and
    `send` on the device, and Python's `socket.recv` / `socket.sendall` on
    the host.  The peer and the kernel are not modelled; instead a socket
    carries a script of what they will do:

    - `incoming`: the segments the peer's bytes arrive in, or a receive
      error.  A `recv` asking for `want` bytes returns at most `want` bytes
      of the first segment; whatever it does not take stays first in line.
      A zero-length segment is a `recv` that returns 0 (orderly close).
    - `grants`: for each `send`, how many bytes the kernel takes, or a send
      error.

    A call made after its script is used up would wait for ever; it returns
    `Blocked` here, which stands for "the call never returns". */
module Transport {

  import opened Bytes

  datatype Segment = Data(bytes: seq<byte>) | RecvError

  datatype Grant = Accept(room: nat) | SendError

  /** The result of an external call: the value it returns, or `Blocked`
      when it never returns. */
  datatype Call = Returned(value: int) | Blocked

  /** The bytes a stream of segments carries, in order (errors carry none). */
  function Stream(script: seq<Segment>): seq<byte>
  {
    if script == [] then []
    else (if script[0].Data? then script[0].bytes else []) + Stream(script[1..])
  }

  lemma {:induction false} StreamAppend(a: seq<Segment>, b: seq<Segment>)
    ensures Stream(a + b) == Stream(a) + Stream(b)
  {
    if a == [] {
      assert a + b == b;
    } else {
      assert (a + b)[1..] == a[1..] + b;
      StreamAppend(a[1..], b);
    }
  }

  /** A measure that every `recv` call strictly decreases. */
  function Volume(script: seq<Segment>): nat
  {
    if script == [] then 0
    else (if script[0].Data? then |script[0].bytes| + 1 else 1) + Volume(script[1..])
  }

  /** What one `recv(fd, buf, want, 0)` returns, the bytes it delivers
      and what is left of the script. */
  datatype RecvReply = RecvReply(result: Call, bytes: seq<byte>, rest: seq<Segment>) {
    /** The call returned a count of bytes, not an error. */
    predicate Delivered() { result.Returned? && result.value >= 0 }
  }

  function RecvStep(script: seq<Segment>, want: nat): (r: RecvReply)
    requires want > 0
    ensures r.result == Blocked <==> script == []
    ensures r.result.Returned? ==> r.result.value == -1 || 0 <= r.result.value <= want
    ensures r.Delivered() ==> |r.bytes| == r.result.value
    ensures !r.Delivered() ==> r.bytes == []
  {
    if script == [] then RecvReply(Blocked, [], [])
    else match script[0]
      case RecvError => RecvReply(Returned(-1), [], script[1..])
      case Data(d) =>
        if |d| <= want then RecvReply(Returned(|d|), d, script[1..])
        else RecvReply(Returned(want), d[..want], [Data(d[want..])] + script[1..])
  }

  /** Every `recv` on a script that is not used up consumes part of it. */
  lemma RecvStepShrinks(script: seq<Segment>, want: nat)
    requires script != [] && want > 0
    ensures Volume(RecvStep(script, want).rest) < Volume(script)
  {
    var r := RecvStep(script, want);
    if script[0].Data? && |script[0].bytes| > want {
      assert r.rest[1..] == script[1..];
    }
  }

  /** One `recv` takes the next bytes of the stream, and consumes part of
      the script. */
  lemma RecvStepTakesStream(script: seq<Segment>, want: nat)
    requires script != [] && want > 0
    ensures var r := RecvStep(script, want);
      Stream(script) == r.bytes + Stream(r.rest) && Volume(r.rest) < Volume(script)
  {
    var r := RecvStep(script, want);
    if script[0].Data? && |script[0].bytes| > want {
      var d := script[0].bytes;
      assert r.rest[1..] == script[1..];
      assert d == d[..want] + d[want..];
      Associate(d[..want], d[want..], Stream(script[1..]));
    }
  }

  /** What one `send(fd, buf, want, 0)` returns: how many bytes the
      kernel takes, or -1 on error. */
  function SendStep(grants: seq<Grant>, want: nat): (r: Call)
    ensures r == Blocked <==> grants == []
    ensures r.Returned? ==> r.value == -1 || 0 <= r.value <= want
  {
    if grants == [] then Blocked
    else match grants[0]
      case SendError => Returned(-1)
      case Accept(room) => Returned(Min(room, want))
  }

  /** The bytes one `send` hands to the peer. */
  function SentBytes(r: Call, buf: seq<byte>, off: nat): seq<byte>
    requires r.Returned? && r.value >= 0 ==> off + r.value <= |buf|
  {
    if r.Returned? && r.value >= 0 then buf[off..off + r.value] else []
  }

  class Socket {
    var incoming: seq<Segment>
    var grants: seq<Grant>
    /** Every byte the peer has been sent, in order. */
    var sent: seq<byte>
    /** How many times `close` was called on this socket. */
    var closeCount: nat

    constructor (incoming: seq<Segment>, grants: seq<Grant>)
      ensures this.incoming == incoming && this.grants == grants
      ensures sent == [] && closeCount == 0
    {
      this.incoming := incoming;
      this.grants := grants;
      sent := [];
      closeCount := 0;
    }

    /** `recv(fd, buf + off, want, 0)`: writes the received bytes at `off`. */
    method Recv(buf: array<byte>, off: nat, want: nat) returns (r: Call)
      requires 0 < want && off + want <= buf.Length
      modifies this`incoming, buf
      ensures var step := RecvStep(old(incoming), want);
        && r == step.result
        && incoming == step.rest
        && buf[..] == old(buf[..])[..off] + step.bytes + old(buf[..])[off + |step.bytes|..]
      ensures Volume(incoming) <= Volume(old(incoming))
      ensures old(incoming) != [] ==> Volume(incoming) < Volume(old(incoming))
    {
      var step := RecvStep(incoming, want);
      if incoming != [] {
        RecvStepShrinks(incoming, want);
      }
      forall i | 0 <= i < |step.bytes| {
        buf[off + i] := step.bytes[i];
      }
      assert buf[..] == old(buf[..])[..off] + step.bytes + old(buf[..])[off + |step.bytes|..];
      incoming := step.rest;
      r := step.result;
    }

    /** Python `sock.recv(want)`: the bytes received; a receive error
        raises, which is a negative count here. */
    method RecvBytes(want: nat) returns (r: Call, data: seq<byte>)
      requires 0 < want
      modifies this`incoming
      ensures var step := RecvStep(old(incoming), want);
        r == step.result && data == step.bytes && incoming == step.rest
      ensures Volume(incoming) <= Volume(old(incoming))
      ensures old(incoming) != [] ==> Volume(incoming) < Volume(old(incoming))
    {
      var step := RecvStep(incoming, want);
      if incoming != [] {
        RecvStepShrinks(incoming, want);
      }
      incoming := step.rest;
      r, data := step.result, step.bytes;
    }

    /** `send(fd, buf + off, want, 0)`. */
    method Send(buf: seq<byte>, off: nat, want: nat) returns (r: Call)
      requires off + want <= |buf|
      modifies this`grants, this`sent
      ensures r == SendStep(old(grants), want)
      ensures grants == if old(grants) == [] then [] else old(grants)[1..]
      ensures sent == old(sent) + SentBytes(r, buf, off)
    {
      r := SendStep(grants, want);
      sent := sent + SentBytes(r, buf, off);
      if grants != [] {
        grants := grants[1..];
      }
    }

    /** `close(fd)`. */
    method Close()
      modifies this`closeCount
      ensures closeCount == old(closeCount) + 1
    {
      closeCount := closeCount + 1;
    }
  }
}
