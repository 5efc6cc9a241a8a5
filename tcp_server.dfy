/** `tcp_server_receive` and `tcp_server_send` (main/src/tcp_server.c):
    full-buffer transfers that call `recv` / `send` until `buffer_size`
    bytes have moved, and give up with -1 on the first negative result.
    A `recv` that returns 0 (peer closed) is not an error: it adds nothing
    and the loop goes on, so over a finite script it ends `Stalled`, the
    call that never returns. */
module TcpServer {

  import opened Bytes
  import opened Transport

  datatype Status = Complete | Failed | Stalled

  /** How a full-buffer receive ends, the bytes it wrote at the start of the
      buffer, and what is left of the script. */
  datatype Received = Received(status: Status, bytes: seq<byte>, rest: seq<Segment>)

  /** The reference behaviour of `tcp_server_receive(fd, buf, want)`. */
  function ReceiveAll(script: seq<Segment>, want: nat): (t: Received)
    ensures |t.bytes| <= want
    ensures t.status == Complete <==> |t.bytes| == want
    decreases Volume(script)
  {
    if want == 0 then Received(Complete, [], script)
    else
      var r := RecvStep(script, want);
      match r.result
      case Blocked => Received(Stalled, [], [])
      case Returned(n) =>
        if n < 0 then Received(Failed, [], r.rest)
        else
          RecvStepShrinks(script, want);
          var t := ReceiveAll(r.rest, want - n);
          Received(t.status, r.bytes + t.bytes, t.rest)
  }

  /** The receive takes the next bytes of the stream, in order: what it
      writes followed by what is left is everything the peer sent. */
  lemma {:induction false} ReceiveAllTakesStreamPrefix(script: seq<Segment>, want: nat)
    ensures var t := ReceiveAll(script, want); Stream(script) == t.bytes + Stream(t.rest)
    decreases Volume(script)
  {
    if want > 0 && script != [] {
      var r := RecvStep(script, want);
      if r.Delivered() {
        RecvStepShrinks(script, want);
        ReceiveAllTakesStreamPrefix(r.rest, want - r.result.value);
      }
      ReceiveAllStreamStep(script, want);
    }
  }

  /** The stream property for one more `recv`, given it for the rest of the
      receive. */
  lemma ReceiveAllStreamStep(script: seq<Segment>, want: nat)
    requires want > 0 && script != []
    requires var r := RecvStep(script, want);
      r.Delivered() ==>
        var t := ReceiveAll(r.rest, want - r.result.value); Stream(r.rest) == t.bytes + Stream(t.rest)
    ensures var t := ReceiveAll(script, want); Stream(script) == t.bytes + Stream(t.rest)
  {
    var r := RecvStep(script, want);
    RecvStepTakesStream(script, want);
    if r.Delivered() {
      var t := ReceiveAll(r.rest, want - r.result.value);
      assert ReceiveAll(script, want) == Prepend(r.bytes, t);
      Associate(r.bytes, t.bytes, Stream(t.rest));
    } else {
      ReceiveAllEnds(script, want);
    }
  }

  /** The receive consumes at least one segment whenever it calls `recv`. */
  lemma {:induction false} ReceiveAllShrinks(script: seq<Segment>, want: nat)
    ensures var t := ReceiveAll(script, want);
      && Volume(t.rest) <= Volume(script)
      && (want > 0 && script != [] ==> Volume(t.rest) < Volume(script))
    decreases Volume(script)
  {
    if want > 0 && script != [] {
      var r := RecvStep(script, want);
      RecvStepTakesStream(script, want);
      if r.Delivered() {
        ReceiveAllShrinks(r.rest, want - r.result.value);
      }
    }
  }

  /** The value `tcp_server_receive` returns, if it returns. */
  function ReceiveResult(t: Received, want: nat): Call
  {
    match t.status
    case Complete => Returned(want)
    case Failed => Returned(-1)
    case Stalled => Blocked
  }

  predicate NoRecvError(script: seq<Segment>)
  {
    forall i :: 0 <= i < |script| ==> script[i].Data?
  }

  lemma NoRecvErrorAfterStep(script: seq<Segment>, want: nat)
    requires want > 0 && script != [] && NoRecvError(script)
    ensures RecvStep(script, want).Delivered() && NoRecvError(RecvStep(script, want).rest)
  {
    var r := RecvStep(script, want);
    assert script[0].Data?;
    if |script[0].bytes| > want {
      forall i | 0 <= i < |r.rest| ensures r.rest[i].Data? {
        if i > 0 { assert r.rest[i] == script[i]; }
      }
    } else {
      forall i | 0 <= i < |r.rest| ensures r.rest[i].Data? {
        assert r.rest[i] == script[i + 1];
      }
    }
  }

  /** When no `recv` fails, the receive returns `want` exactly when the peer
      sends at least `want` bytes, and the buffer then holds the first `want`
      bytes of the stream in order (chunk k lands right after chunks 0..k-1);
      when the peer sends fewer, it never returns. */
  lemma {:induction false} ReceiveAllWithoutErrors(script: seq<Segment>, want: nat)
    requires NoRecvError(script)
    ensures var t := ReceiveAll(script, want);
      && (t.status == Complete <==> |Stream(script)| >= want)
      && (t.status == Complete ==> t.bytes == Stream(script)[..want])
      && (t.status != Complete ==> t.status == Stalled && t.bytes == Stream(script))
    decreases Volume(script)
  {
    if want > 0 && script != [] {
      var r := RecvStep(script, want);
      NoRecvErrorAfterStep(script, want);
      RecvStepTakesStream(script, want);
      ReceiveAllWithoutErrors(r.rest, want - r.result.value);
    } else if want > 0 {
      assert Stream(script) == [];
    }
  }

  /** What an error-free script leaves is error-free. */
  lemma {:induction false} ReceiveAllKeepsNoRecvError(script: seq<Segment>, want: nat)
    requires NoRecvError(script)
    ensures NoRecvError(ReceiveAll(script, want).rest)
    decreases Volume(script)
  {
    if want > 0 && script != [] {
      var r := RecvStep(script, want);
      NoRecvErrorAfterStep(script, want);
      RecvStepTakesStream(script, want);
      ReceiveAllKeepsNoRecvError(r.rest, want - r.result.value);
    }
  }

  /** A negative `recv` ends the receive at once with -1: the bytes before
      it stay written, and nothing after the failing call is consumed. */
  lemma {:induction false} ReceiveAllStopsAtFirstError(pre: seq<Segment>, post: seq<Segment>, want: nat)
    requires NoRecvError(pre) && |Stream(pre)| < want
    ensures ReceiveAll(pre + [RecvError] + post, want) == Received(Failed, Stream(pre), post)
    decreases Volume(pre)
  {
    var script := pre + [RecvError] + post;
    if pre == [] {
      assert script[1..] == post;
    } else {
      assert script[0] == pre[0];
      var r := RecvStep(script, want);
      assert r.result == Returned(|pre[0].bytes|) && r.bytes == pre[0].bytes by {
        assert pre[0].Data?;
      }
      assert r.rest == pre[1..] + [RecvError] + post by {
        assert script[1..] == pre[1..] + [RecvError] + post;
      }
      assert Stream(pre) == pre[0].bytes + Stream(pre[1..]);
      assert NoRecvError(pre[1..]) by {
        forall i | 0 <= i < |pre[1..]| ensures pre[1..][i].Data? {
          assert pre[1..][i] == pre[i + 1];
        }
      }
      ReceiveAllStopsAtFirstError(pre[1..], post, want - |pre[0].bytes|);
    }
  }

  /** A `recv` that returns 0 changes nothing but the script. */
  lemma ZeroRecvIsNotAnError(script: seq<Segment>, want: nat)
    requires want > 0
    ensures ReceiveAll([Data([])] + script, want) == ReceiveAll(script, want)
  {
    assert ([Data([])] + script)[1..] == script;
  }

  /** `t` with `p` written in front of its bytes. */
  function Prepend(p: seq<byte>, t: Received): Received
  {
    Received(t.status, p + t.bytes, t.rest)
  }

  /** One successful `recv` inside the receive loop: what the loop has
      collected grows by the bytes received and the rest of the receive
      starts from what is left of the script. */
  lemma ReceiveLoopStep(t0: Received, got: seq<byte>, script: seq<Segment>, want: nat, r: RecvReply)
    requires want > 0 && r == RecvStep(script, want) && r.Delivered()
    requires t0 == Prepend(got, ReceiveAll(script, want))
    ensures t0 == Prepend(got + r.bytes, ReceiveAll(r.rest, want - r.result.value))
  {
    var t := ReceiveAll(r.rest, want - r.result.value);
    assert ReceiveAll(script, want) == Prepend(r.bytes, t);
    assert got + (r.bytes + t.bytes) == (got + r.bytes) + t.bytes;
  }

  /** Writing `bytes` just after the `got` prefix of a buffer. */
  lemma Splice(contents: seq<byte>, got: seq<byte>, tail: seq<byte>, bytes: seq<byte>)
    requires contents == got + tail && |bytes| <= |tail|
    ensures contents[..|got|] + bytes + contents[|got| + |bytes|..] == (got + bytes) + tail[|bytes|..]
  {
    assert contents[..|got|] == got;
    assert contents[|got| + |bytes|..] == tail[|bytes|..];
  }

  /** A `recv` that blocks or fails ends the receive with nothing written. */
  lemma ReceiveAllEnds(script: seq<Segment>, want: nat)
    requires want > 0 && !RecvStep(script, want).Delivered()
    ensures ReceiveAll(script, want)
      == Received(if script == [] then Stalled else Failed, [], RecvStep(script, want).rest)
  {
  }

  /** The receive loop before a `recv`: `t0` is the whole receive, `got`
      what the loop has collected so far and `buffer` the buffer's contents,
      `got` in front of the initial contents of the rest. */
  ghost predicate LoopState(t0: Received, got: seq<byte>, initial: seq<byte>, buffer: seq<byte>, script: seq<Segment>, size: nat)
  {
    && |got| <= size <= |initial|
    && t0 == Prepend(got, ReceiveAll(script, size - |got|))
    && buffer == got + initial[|got|..]
  }

  /** A `recv` that delivers bytes keeps the loop's state. */
  lemma ReceiveStepKeeps(t0: Received, got: seq<byte>, initial: seq<byte>, contents: seq<byte>, script: seq<Segment>,
                         size: nat, off: nat, step: RecvReply, after: seq<byte>)
    requires LoopState(t0, got, initial, contents, script, size) && off == |got| < size
    requires step == RecvStep(script, size - off) && step.Delivered()
    requires after == contents[..off] + step.bytes + contents[off + |step.bytes|..]
    ensures LoopState(t0, got + step.bytes, initial, after, step.rest, size)
  {
    var more := got + step.bytes;
    assert |more| == off + step.result.value <= size;
    assert t0 == Prepend(more, ReceiveAll(step.rest, size - |more|)) by {
      ReceiveLoopStep(t0, got, script, size - off, step);
    }
    assert after == more + initial[|more|..] by {
      Splice(contents, got, initial[off..], step.bytes);
      assert initial[off..][|step.bytes|..] == initial[|more|..];
    }
  }

  /** A `recv` that blocks or fails ends the receive: the loop's state is
      then the whole receive's outcome. */
  lemma ReceiveStepEnds(t0: Received, got: seq<byte>, initial: seq<byte>, contents: seq<byte>, script: seq<Segment>,
                        size: nat, off: nat, step: RecvReply, after: seq<byte>)
    requires LoopState(t0, got, initial, contents, script, size) && off == |got| < size
    requires step == RecvStep(script, size - off) && !step.Delivered()
    requires after == contents[..off] + step.bytes + contents[off + |step.bytes|..]
    ensures ReceiveResult(t0, size) == step.result && t0.rest == step.rest
    ensures after == t0.bytes + initial[|t0.bytes|..]
  {
    ReceiveAllEnds(script, size - |got|);
    assert contents == contents[..|got|] + contents[|got|..];
  }

  /** One `recv` of the receive loop: bytes delivered keep the loop's
      state, anything else ends the receive. */
  lemma ReceiveStep(t0: Received, got: seq<byte>, initial: seq<byte>, contents: seq<byte>, script: seq<Segment>,
                    size: nat, off: nat, step: RecvReply, after: seq<byte>)
    requires LoopState(t0, got, initial, contents, script, size) && off == |got| < size
    requires step == RecvStep(script, size - off)
    requires after == contents[..off] + step.bytes + contents[off + |step.bytes|..]
    ensures step.Delivered() ==> LoopState(t0, got + step.bytes, initial, after, step.rest, size)
    ensures !step.Delivered() ==>
      && ReceiveResult(t0, size) == step.result && t0.rest == step.rest
      && after == t0.bytes + initial[|t0.bytes|..]
  {
    if step.Delivered() {
      ReceiveStepKeeps(t0, got, initial, contents, script, size, off, step, after);
    } else {
      ReceiveStepEnds(t0, got, initial, contents, script, size, off, step, after);
    }
  }

  /** A loop that has collected `size` bytes has completed the receive. */
  lemma ReceiveDone(t0: Received, got: seq<byte>, initial: seq<byte>, contents: seq<byte>, script: seq<Segment>, size: nat)
    requires LoopState(t0, got, initial, contents, script, size) && |got| == size
    ensures ReceiveResult(t0, size) == Returned(size) && t0.rest == script
    ensures contents == t0.bytes + initial[|t0.bytes|..]
  {
  }

  /** One turn of the receive loop: a `recv` of the `size - total` bytes
      still wanted, written into the buffer at `total`. */
  method ReceiveTurn(sock: Socket, buffer: array<byte>, size: nat, total: nat,
                     ghost t0: Received, ghost got: seq<byte>, ghost initial: seq<byte>)
    returns (res: Call, ghost more: seq<byte>)
    requires LoopState(t0, got, initial, buffer[..], sock.incoming, size) && total == |got| < size
    modifies sock`incoming, buffer
    ensures res.Returned? && res.value >= 0 ==>
      && |more| == res.value
      && LoopState(t0, got + more, initial, buffer[..], sock.incoming, size)
      && Volume(sock.incoming) < Volume(old(sock.incoming))
    ensures !(res.Returned? && res.value >= 0) ==>
      && ReceiveResult(t0, size) == res && t0.rest == sock.incoming
      && buffer[..] == t0.bytes + initial[|t0.bytes|..]
  {
    ghost var contents := buffer[..];
    ghost var step := RecvStep(sock.incoming, size - total);
    ghost var script := sock.incoming;
    res := sock.Recv(buffer, total, size - total);
    ReceiveStep(t0, got, initial, contents, script, size, total, step, buffer[..]);
    more := step.bytes;
  }

  /** `tcp_server_receive(client_socket, buffer, buffer_size)`. */
  method Receive(sock: Socket, buffer: array<byte>, size: nat) returns (r: Call)
    requires size <= buffer.Length
    modifies sock`incoming, buffer
    ensures var t := ReceiveAll(old(sock.incoming), size);
      && r == ReceiveResult(t, size)
      && sock.incoming == t.rest
      && buffer[..] == t.bytes + old(buffer[..])[|t.bytes|..]
  {
    ghost var t0 := ReceiveAll(sock.incoming, size);
    ghost var initial := buffer[..];
    ghost var got: seq<byte> := [];
    var total: nat := 0;
    assert initial[0..] == initial;
    while total < size
      invariant total == |got|
      invariant LoopState(t0, got, initial, buffer[..], sock.incoming, size)
      decreases Volume(sock.incoming)
    {
      var res;
      ghost var more;
      res, more := ReceiveTurn(sock, buffer, size, total, t0, got, initial);
      if res.Blocked? || res.value < 0 {
        // a `recv` that never returns, or one that fails and makes the loop return -1
        return res;
      }
      got := got + more;
      total := total + res.value;
    }
    ReceiveDone(t0, got, initial, buffer[..], sock.incoming, size);
    r := Returned(total);
  }

  /** How a full-buffer send ends, how many bytes the peer was handed (the
      first `count` bytes of the buffer), and what is left of the script. */
  datatype Sent = Sent(status: Status, count: nat, rest: seq<Grant>)

  /** The reference behaviour of `tcp_server_send(fd, buf, want)`. */
  function SendAll(grants: seq<Grant>, want: nat): (t: Sent)
    ensures t.count <= want
    ensures t.status == Complete <==> t.count == want
    decreases |grants|
  {
    if want == 0 then Sent(Complete, 0, grants)
    else match SendStep(grants, want)
      case Blocked => Sent(Stalled, 0, [])
      case Returned(n) =>
        if n < 0 then Sent(Failed, 0, grants[1..])
        else
          var t := SendAll(grants[1..], want - n);
          Sent(t.status, n + t.count, t.rest)
  }

  /** The value `tcp_server_send` returns, if it returns. */
  function SendResult(t: Sent, want: nat): Call
  {
    match t.status
    case Complete => Returned(want)
    case Failed => Returned(-1)
    case Stalled => Blocked
  }

  /** An empty buffer moves nothing: both loops return 0 at once, with
      no `recv` or `send` call and nothing consumed. */
  lemma EmptyBufferMovesNothing(script: seq<Segment>, grants: seq<Grant>)
    ensures ReceiveAll(script, 0) == Received(Complete, [], script)
    ensures ReceiveResult(ReceiveAll(script, 0), 0) == Returned(0)
    ensures SendAll(grants, 0) == Sent(Complete, 0, grants)
    ensures SendResult(SendAll(grants, 0), 0) == Returned(0)
  {
  }

  predicate NoSendError(grants: seq<Grant>)
  {
    forall i :: 0 <= i < |grants| ==> grants[i].Accept?
  }

  /** How many bytes the kernel would take over all the grants. */
  function Room(grants: seq<Grant>): nat
  {
    if grants == [] then 0
    else (if grants[0].Accept? then grants[0].room else 0) + Room(grants[1..])
  }

  /** When no `send` fails, the send returns `want` exactly when the kernel
      takes at least `want` bytes over its calls; the peer is then handed the
      whole buffer, and otherwise everything the kernel takes. */
  lemma {:induction false} SendAllWithoutErrors(grants: seq<Grant>, want: nat)
    requires NoSendError(grants)
    ensures var t := SendAll(grants, want);
      && (t.status == Complete <==> Room(grants) >= want)
      && t.count == Min(Room(grants), want)
      && (t.status != Complete ==> t.status == Stalled)
    decreases |grants|
  {
    if want > 0 && grants != [] {
      assert grants[0].Accept?;
      assert NoSendError(grants[1..]) by {
        forall i | 0 <= i < |grants[1..]| ensures grants[1..][i].Accept? {
          assert grants[1..][i] == grants[i + 1];
        }
      }
      SendAllWithoutErrors(grants[1..], want - Min(grants[0].room, want));
    }
  }

  /** A negative `send` ends the send at once with -1; nothing after the
      failing call is consumed. */
  lemma {:induction false} SendAllStopsAtFirstError(pre: seq<Grant>, post: seq<Grant>, want: nat)
    requires NoSendError(pre) && Room(pre) < want
    ensures SendAll(pre + [SendError] + post, want) == Sent(Failed, Room(pre), post)
    decreases |pre|
  {
    var grants := pre + [SendError] + post;
    if pre == [] {
      assert grants[1..] == post;
    } else {
      assert grants[0] == pre[0] && pre[0].Accept?;
      assert grants[1..] == pre[1..] + [SendError] + post;
      assert NoSendError(pre[1..]) by {
        forall i | 0 <= i < |pre[1..]| ensures pre[1..][i].Accept? {
          assert pre[1..][i] == pre[i + 1];
        }
      }
      SendAllStopsAtFirstError(pre[1..], post, want - pre[0].room);
    }
  }

  /** `t` with `n` more bytes counted as handed to the peer. */
  function Advance(n: nat, t: Sent): Sent
  {
    Sent(t.status, n + t.count, t.rest)
  }

  /** The send loop before a `send`: `total` bytes counted of the whole
      send `t0` of `want` bytes, the rest to come from `grants`. */
  ghost predicate SendState(t0: Sent, total: nat, want: nat, grants: seq<Grant>)
  {
    total <= want && t0 == Advance(total, SendAll(grants, want - total))
  }

  /** A `send` that the kernel accepts moves the send loop on by the bytes
      it took. */
  lemma SendStepKeeps(t0: Sent, total: nat, want: nat, grants: seq<Grant>, r: Call)
    requires SendState(t0, total, want, grants) && total < want
    requires r == SendStep(grants, want - total) && r.Returned? && r.value >= 0
    ensures SendState(t0, total + r.value, want, grants[1..])
  {
  }

  /** A `send` that blocks or fails ends the send with what was counted so
      far. */
  lemma SendStepEnds(t0: Sent, total: nat, want: nat, grants: seq<Grant>, r: Call)
    requires SendState(t0, total, want, grants) && total < want
    requires r == SendStep(grants, want - total) && !(r.Returned? && r.value >= 0)
    ensures SendResult(t0, want) == r && t0.count == total
    ensures t0.rest == if grants == [] then [] else grants[1..]
  {
  }

  /** A loop that has counted `want` bytes has completed the send. */
  lemma SendDone(t0: Sent, want: nat, grants: seq<Grant>)
    requires SendState(t0, want, want, grants)
    ensures SendResult(t0, want) == Returned(want) && t0.count == want && t0.rest == grants
  {
  }

  /** A `send` the kernel accepts extends what the peer has by the next
      bytes of the buffer. */
  lemma SentGrows(sent0: seq<byte>, sent: seq<byte>, buffer: seq<byte>, total: nat, r: Call)
    requires r.Returned? && 0 <= r.value && total + r.value <= |buffer|
    requires sent == sent0 + buffer[..total] + SentBytes(r, buffer, total)
    ensures sent == sent0 + buffer[..total + r.value]
  {
    Associate(sent0, buffer[..total], buffer[total..total + r.value]);
    assert buffer[..total] + buffer[total..total + r.value] == buffer[..total + r.value];
  }

  /** `tcp_server_send(client_socket, buffer, buffer_size)`, the buffer being
      the `buffer_size` bytes at `buffer`. */
  method Send(sock: Socket, buffer: seq<byte>) returns (r: Call)
    modifies sock`grants, sock`sent
    ensures var t := SendAll(old(sock.grants), |buffer|);
      && r == SendResult(t, |buffer|)
      && sock.grants == t.rest
      && sock.sent == old(sock.sent) + buffer[..t.count]
  {
    ghost var t0 := SendAll(sock.grants, |buffer|);
    ghost var sent0 := sock.sent;
    var total: nat := 0;
    while total < |buffer|
      invariant SendState(t0, total, |buffer|, sock.grants)
      invariant sock.sent == sent0 + buffer[..total]
      decreases |sock.grants|
    {
      ghost var before := sock.grants;
      var res := sock.Send(buffer, total, |buffer| - total);
      if res.Blocked? {
        SendStepEnds(t0, total, |buffer|, before, res);
        return Blocked;
      }
      if res.value < 0 {
        SendStepEnds(t0, total, |buffer|, before, res);
        return Returned(-1);
      }
      SendStepKeeps(t0, total, |buffer|, before, res);
      SentGrows(sent0, sock.sent, buffer, total, res);
      total := total + res.value;
    }
    SendDone(t0, total, sock.grants);
    r := Returned(total);
  }
}
