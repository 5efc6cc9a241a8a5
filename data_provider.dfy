/** `DataProvider::Read`: the request frame of the inference protocol, one
    opcode byte that must be 0x01 followed by exactly as many raw bytes as
    the model's input tensor holds, copied into the tensor verbatim. */
module DataProvider {

  import opened Bytes
  import opened Transport
  import opened TcpServer

  /** The opcode of an inference request. */
  const REQUEST_OPCODE: byte := 0x01

  /** How a read of one request ends: the value `Read` returns (or
      `Blocked`), the bytes written at the front of the input tensor, and
      what is left of the socket's script. */
  datatype Request = Request(result: Call, written: seq<byte>, rest: seq<Segment>)

  /** The reference behaviour of `Read` on a tensor of `size` bytes. */
  function ReadRequest(script: seq<Segment>, size: nat): (q: Request)
    ensures |q.written| <= size
    ensures q.result.Returned? ==> q.result.value == 0 || q.result.value == 1
  {
    var op := ReceiveAll(script, 1);
    match ReceiveResult(op, 1)
    case Blocked => Request(Blocked, [], op.rest)
    case Returned(e) =>
      if e <= 0 || op.bytes[0] != REQUEST_OPCODE then Request(Returned(1), [], op.rest)
      else
        var t := ReceiveAll(op.rest, size);
        match ReceiveResult(t, size)
        case Blocked => Request(Blocked, t.bytes, t.rest)
        case Returned(e') => Request(Returned(if e' <= 0 then 1 else 0), t.bytes, t.rest)
  }

  /** `Read` returns 0 exactly when the opcode receive delivers the request
      opcode and a non-empty payload of `size` bytes is then received in
      full. */
  lemma ReadRequestSucceeds(script: seq<Segment>, size: nat)
    ensures var op := ReceiveAll(script, 1);
      ReadRequest(script, size).result == Returned(0) <==>
        && op.status == Complete && op.bytes == [REQUEST_OPCODE]
        && size > 0 && ReceiveAll(op.rest, size).status == Complete
  {
    var op := ReceiveAll(script, 1);
    if op.status == Complete {
      assert op.bytes == [op.bytes[0]];
    }
  }

  /** On success the tensor holds exactly the `size` bytes that follow the
      opcode in the stream, and nothing past them has been consumed. */
  lemma ReadRequestTakesStream(script: seq<Segment>, size: nat)
    requires ReadRequest(script, size).result == Returned(0)
    ensures var q := ReadRequest(script, size);
      |q.written| == size && Stream(script) == [REQUEST_OPCODE] + q.written + Stream(q.rest)
  {
    var op := ReceiveAll(script, 1);
    ReadRequestSucceeds(script, size);
    ReceiveAllTakesStreamPrefix(script, 1);
    ReceiveAllTakesStreamPrefix(op.rest, size);
  }

  /** A failed opcode receive or a wrong opcode makes `Read` return 1 without
      touching the input tensor; the payload is never asked for. */
  lemma ReadRequestRejects(script: seq<Segment>, size: nat)
    requires var op := ReceiveAll(script, 1);
      op.status == Failed || (op.status == Complete && op.bytes[0] != REQUEST_OPCODE)
    ensures ReadRequest(script, size) == Request(Returned(1), [], ReceiveAll(script, 1).rest)
  {
  }

  /** From an error-free peer: `Read` returns 0 exactly when the peer sends
      the opcode and at least `size` more bytes (with `size > 0`), and the
      tensor receives them in order; an empty payload is refused. */
  lemma {:induction false} ReadRequestWithoutErrors(script: seq<Segment>, size: nat)
    requires NoRecvError(script)
    ensures var q := ReadRequest(script, size);
      && (q.result == Returned(0) <==>
            |Stream(script)| >= 1 + size && Stream(script)[0] == REQUEST_OPCODE && size > 0)
      && (q.result == Returned(0) ==> q.written == Stream(script)[1..1 + size])
  {
    var op := ReceiveAll(script, 1);
    assert && (op.status == Complete <==> |Stream(script)| >= 1)
           && (op.status == Complete ==> op.bytes == Stream(script)[..1])
           && (op.status != Complete ==> op.status == Stalled)
           && Stream(script) == op.bytes + Stream(op.rest)
           && NoRecvError(op.rest) by {
      ReceiveAllWithoutErrors(script, 1);
      ReceiveAllTakesStreamPrefix(script, 1);
      ReceiveAllKeepsNoRecvError(script, 1);
    }
    if op.status == Complete {
      var t := ReceiveAll(op.rest, size);
      ReceiveAllWithoutErrors(op.rest, size);
      assert Stream(op.rest) == Stream(script)[1..];
    }
  }

  /** A request with an empty payload is never accepted: the payload
      receive then returns 0, which `Read` treats as a failure. */
  lemma EmptyTensorIsRefused(script: seq<Segment>)
    ensures ReadRequest(script, 0).result != Returned(0)
  {
  }

  /** `DataProvider::Read(client_socket, modelInput)`, `input` being the
      tensor's raw buffer of `modelInput->bytes` bytes. */
  method Read(sock: Socket, input: array<byte>) returns (r: Call)
    modifies sock`incoming, input
    ensures var q := ReadRequest(old(sock.incoming), input.Length);
      && r == q.result
      && sock.incoming == q.rest
      && input[..] == q.written + old(input[..])[|q.written|..]
  {
    var requestByte := new byte[1];
    requestByte[0] := 0x00;
    var err := Receive(sock, requestByte, 1);
    if err.Blocked? {
      return Blocked;
    }
    if err.value <= 0 {
      return Returned(1);
    }
    if requestByte[0] != REQUEST_OPCODE {
      return Returned(1);
    }
    err := Receive(sock, input, input.Length);
    if err.Blocked? {
      return Blocked;
    }
    if err.value <= 0 {
      return Returned(1);
    }
    return Returned(0);
  }
}
