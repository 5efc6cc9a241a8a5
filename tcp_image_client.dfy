/** The host-side test client (scripts/tcp_image_client.py): it picks the
    test images whose file names carry a class label, then sends them to
    the device one after another, each as an inference request, and reads
    back the ten scores and the inference time.  The directory listing and
    the file contents are given as values; the socket is the scripted
    socket of `Transport`, with `recv` for `sock.recv` and the full-buffer
    send loop for `sock.sendall`. */
module TcpImageClient {

  import opened Bytes
  import opened Transport
  import opened TcpServer
  import DataProvider
  import PredictionHandler

  /** The class names, in the order of the model's output. */
  const LABELS: seq<string> := ["Tshirt_top", "Trouser", "Pullover", "Dress", "Coat",
                                "Sandal", "Shirt", "Sneaker", "Bag", "Ankle_boot"]

  /** The bytes of one response's score block: a `float` per label. */
  const SCORE_BYTES: nat := 4 * |LABELS|

  /** The bytes of one response's inference time (`int64_t`). */
  const TIME_BYTES: nat := 8

  // ---------------------------------------------------------------- recv_all

  /** How `recv_all` ends: with the bytes asked for, with `EOFError` (a
      `recv` returned nothing), with the exception a failing `recv` raises,
      or never (a `recv` that does not return). */
  datatype Outcome = Fetched | EndOfStream | Raised | Stuck

  /** The end of a `recv_all`, the bytes gathered and what is left of the
      script. */
  datatype Fetch = Fetch(outcome: Outcome, bytes: seq<byte>, rest: seq<Segment>)

  /** The reference behaviour of `recv_all(sock, want)`. */
  function ClientReceive(script: seq<Segment>, want: nat): (t: Fetch)
    ensures |t.bytes| <= want
    ensures t.outcome == Fetched <==> |t.bytes| == want
    decreases Volume(script)
  {
    if want == 0 then Fetch(Fetched, [], script)
    else
      var r := RecvStep(script, want);
      match r.result
      case Blocked => Fetch(Stuck, [], [])
      case Returned(n) =>
        if n < 0 then Fetch(Raised, [], r.rest)
        else if n == 0 then Fetch(EndOfStream, [], r.rest)
        else
          RecvStepShrinks(script, want);
          var t := ClientReceive(r.rest, want - n);
          Fetch(t.outcome, r.bytes + t.bytes, t.rest)
  }

  /** The gathered bytes are the next bytes of the stream, in arrival
      order. */
  lemma {:induction false} ClientReceiveTakesStream(script: seq<Segment>, want: nat)
    ensures var t := ClientReceive(script, want); Stream(script) == t.bytes + Stream(t.rest)
    decreases Volume(script)
  {
    if want > 0 && script != [] {
      var r := RecvStep(script, want);
      RecvStepTakesStream(script, want);
      if r.Delivered() && r.result.value > 0 {
        ClientReceiveTakesStream(r.rest, want - r.result.value);
      }
      ClientReceiveStep(script, want);
    }
  }

  /** One `recv` of `recv_all`: the stream up to what is left after the
      call is what the call delivered, then what the rest of the loop
      gathers. */
  lemma ClientReceiveStep(script: seq<Segment>, want: nat)
    requires want > 0 && script != []
    requires var r := RecvStep(script, want);
      && Stream(script) == r.bytes + Stream(r.rest)
      && (r.Delivered() && r.result.value > 0 ==>
            var t := ClientReceive(r.rest, want - r.result.value); Stream(r.rest) == t.bytes + Stream(t.rest))
    ensures var t := ClientReceive(script, want); Stream(script) == t.bytes + Stream(t.rest)
  {
    var r := RecvStep(script, want);
    var whole := ClientReceive(script, want);
    if r.Delivered() && r.result.value > 0 {
      var t := ClientReceive(r.rest, want - r.result.value);
      assert whole.bytes == r.bytes + t.bytes && whole.rest == t.rest by {
        assert whole == Fetch(t.outcome, r.bytes + t.bytes, t.rest);
      }
      Associate(r.bytes, t.bytes, Stream(t.rest));
    } else {
      assert whole.bytes == r.bytes && whole.rest == r.rest by {
        var e := if r.result.value < 0 then Raised else EndOfStream;
        assert whole == Fetch(e, [], r.rest);
        assert r.bytes == [];
      }
    }
  }

  /** Every `recv_all` that makes a call consumes part of the script. */
  lemma {:induction false} ClientReceiveShrinks(script: seq<Segment>, want: nat)
    ensures var t := ClientReceive(script, want);
      && Volume(t.rest) <= Volume(script)
      && (want > 0 && script != [] ==> Volume(t.rest) < Volume(script))
    decreases Volume(script)
  {
    if want > 0 && script != [] {
      var r := RecvStep(script, want);
      RecvStepTakesStream(script, want);
      if r.Delivered() && r.result.value > 0 {
        ClientReceiveShrinks(r.rest, want - r.result.value);
      }
    }
  }

  /** A peer that keeps sending: every segment carries at least one byte. */
  predicate Flowing(script: seq<Segment>)
  {
    forall i :: 0 <= i < |script| ==> script[i].Data? && script[i].bytes != []
  }

  lemma FlowingAfterStep(script: seq<Segment>, want: nat)
    requires want > 0 && script != [] && Flowing(script)
    ensures var r := RecvStep(script, want);
      r.Delivered() && r.result.value > 0 && Flowing(r.rest)
  {
    var r := RecvStep(script, want);
    assert script[0].Data? && script[0].bytes != [];
    if |script[0].bytes| > want {
      forall i | 0 <= i < |r.rest| ensures r.rest[i].Data? && r.rest[i].bytes != [] {
        if i > 0 { assert r.rest[i] == script[i]; }
      }
    } else {
      forall i | 0 <= i < |r.rest| ensures r.rest[i].Data? && r.rest[i].bytes != [] {
        assert r.rest[i] == script[i + 1];
      }
    }
  }

  /** From a peer that keeps sending, `recv_all` returns exactly `want`
      bytes, the first `want` of the stream, when the peer sends that many,
      and otherwise waits for ever; what it leaves still keeps sending. */
  lemma {:induction false} ClientReceiveFlowing(script: seq<Segment>, want: nat)
    requires Flowing(script)
    ensures var t := ClientReceive(script, want);
      && (t.outcome == Fetched <==> |Stream(script)| >= want)
      && (t.outcome == Fetched ==> t.bytes == Stream(script)[..want])
      && (t.outcome != Fetched ==> t.outcome == Stuck && t.bytes == Stream(script))
      && Flowing(t.rest)
    decreases Volume(script)
  {
    if want > 0 && script != [] {
      var r := RecvStep(script, want);
      FlowingAfterStep(script, want);
      RecvStepTakesStream(script, want);
      ClientReceiveFlowing(r.rest, want - r.result.value);
    } else if want > 0 {
      assert Stream(script) == [];
    }
  }

  /** An empty `recv` before `want` bytes have arrived raises `EOFError`, and
      a failing `recv` raises its error, at once: the bytes before it are the
      ones gathered and nothing after the call is consumed. */
  lemma {:induction false} ClientReceiveStops(pre: seq<Segment>, stop: Segment, post: seq<Segment>, want: nat)
    requires stop == Data([]) || stop == RecvError
    requires Flowing(pre) && |Stream(pre)| < want
    ensures ClientReceive(pre + [stop] + post, want)
      == Fetch(if stop == RecvError then Raised else EndOfStream, Stream(pre), post)
    decreases Volume(pre)
  {
    var script := pre + [stop] + post;
    if pre == [] {
      assert script[1..] == post;
    } else {
      assert script[0] == pre[0];
      var r := RecvStep(script, want);
      assert r.result == Returned(|pre[0].bytes|) && r.bytes == pre[0].bytes by {
        assert pre[0].Data?;
      }
      assert r.rest == pre[1..] + [stop] + post by {
        assert script[1..] == pre[1..] + [stop] + post;
      }
      assert Stream(pre) == pre[0].bytes + Stream(pre[1..]);
      assert Flowing(pre[1..]) by {
        forall i | 0 <= i < |pre[1..]| ensures pre[1..][i].Data? && pre[1..][i].bytes != [] {
          assert pre[1..][i] == pre[i + 1];
        }
      }
      ClientReceiveStops(pre[1..], stop, post, want - |pre[0].bytes|);
    }
  }

  /** Where the client and the device part ways: the device's receive loop
      skips an empty `recv`, the client's raises `EOFError`. */
  lemma EmptyRecvEndsTheClient(script: seq<Segment>, want: nat)
    requires want > 0
    ensures ClientReceive([Data([])] + script, want) == Fetch(EndOfStream, [], script)
    ensures ReceiveAll([Data([])] + script, want) == ReceiveAll(script, want)
  {
    assert ([Data([])] + script)[1..] == script;
  }

  /** `t` with `p` in front of its bytes. */
  function Gathered(p: seq<byte>, t: Fetch): Fetch
  {
    Fetch(t.outcome, p + t.bytes, t.rest)
  }

  lemma ClientLoopStep(t0: Fetch, got: seq<byte>, script: seq<Segment>, want: nat)
    requires want > 0 && RecvStep(script, want).Delivered() && RecvStep(script, want).result.value > 0
    requires t0 == Gathered(got, ClientReceive(script, want))
    ensures var r := RecvStep(script, want);
      t0 == Gathered(got + r.bytes, ClientReceive(r.rest, want - r.result.value))
  {
    var r := RecvStep(script, want);
    var t := ClientReceive(r.rest, want - r.result.value);
    assert ClientReceive(script, want) == Gathered(r.bytes, t);
    assert got + (r.bytes + t.bytes) == (got + r.bytes) + t.bytes;
  }

  /** `recv_all(sock, length)`. */
  method RecvAll(sock: Socket, length: nat) returns (outcome: Outcome, data: seq<byte>)
    modifies sock`incoming
    ensures ClientReceive(old(sock.incoming), length) == Fetch(outcome, data, sock.incoming)
  {
    ghost var t0 := ClientReceive(sock.incoming, length);
    data := [];
    while |data| < length
      invariant |data| <= length
      invariant t0 == Gathered(data, ClientReceive(sock.incoming, length - |data|))
      decreases Volume(sock.incoming)
    {
      ghost var before := sock.incoming;
      var r, more := sock.RecvBytes(length - |data|);
      if r.Blocked? {
        return Stuck, data;
      }
      if r.value < 0 {
        return Raised, data;
      }
      if |more| == 0 {
        return EndOfStream, data;
      }
      ClientLoopStep(t0, data, before, length - |data|);
      data := data + more;
    }
    assert t0 == Fetch(Fetched, data, sock.incoming);
    outcome := Fetched;
  }

  // ------------------------------------------------------------- load_images

  /** `sub` is found in `s` starting at position `i`. */
  predicate OccursAt(sub: string, s: string, i: int)
  {
    0 <= i && i + |sub| <= |s| && s[i..i + |sub|] == sub
  }

  /** `sub in s` on strings. */
  predicate Occurs(sub: string, s: string)
  {
    exists i :: 0 <= i <= |s| && OccursAt(sub, s, i)
  }

  /** The first label at position `from` or later that occurs in `name`,
      or -1. */
  function FirstLabel(name: string, from: nat): int
    decreases |LABELS| - from
  {
    if from >= |LABELS| then -1
    else if Occurs(LABELS[from], name) then from
    else FirstLabel(name, from + 1)
  }

  /** A file gets the position of the first label, in list order, that
      occurs in its name, and -1 when no label does. */
  lemma {:induction false} FirstLabelIsFirstMatch(name: string, from: nat)
    ensures var l := FirstLabel(name, from);
      && (l == -1 <==> forall k :: from <= k < |LABELS| ==> !Occurs(LABELS[k], name))
      && (l != -1 ==> from <= l < |LABELS| && Occurs(LABELS[l], name)
                      && forall k :: from <= k < l ==> !Occurs(LABELS[k], name))
    decreases |LABELS| - from
  {
    if from < |LABELS| && !Occurs(LABELS[from], name) {
      FirstLabelIsFirstMatch(name, from + 1);
    }
  }

  /** The label search of `load_images` for one file name. */
  method LabelIndex(name: string) returns (index: int)
    ensures index == FirstLabel(name, 0)
  {
    index := -1;
    var i := 0;
    while i < |LABELS|
      invariant 0 <= i <= |LABELS|
      invariant FirstLabel(name, 0) == FirstLabel(name, i)
    {
      if Occurs(LABELS[i], name) {
        index := i;
        break;
      }
      i := i + 1;
    }
  }

  /** A directory entry: its name and its contents. */
  datatype File = File(name: string, contents: seq<byte>)

  /** A test image: the position of its label and its bytes. */
  datatype Image = Image(labelIndex: nat, data: seq<byte>)

  /** The images `load_images` collects from the sorted listing. */
  function Images(listing: seq<File>): (images: seq<Image>)
    ensures |images| <= |listing|
    ensures forall j :: 0 <= j < |images| ==> images[j].labelIndex < |LABELS|
  {
    if listing == [] then []
    else
      var front := Images(listing[..|listing| - 1]);
      var f := listing[|listing| - 1];
      var l := FirstLabel(f.name, 0);
      FirstLabelIsFirstMatch(f.name, 0);
      if l == -1 then front else front + [Image(l, f.contents)]
  }

  /** The selection works file by file: the images of a listing are those of
      its first part followed by those of the rest, so the kept files stay
      in listing order. */
  lemma {:induction false} ImagesAppend(a: seq<File>, b: seq<File>)
    ensures Images(a + b) == Images(a) + Images(b)
    decreases |b|
  {
    if b == [] {
      assert a + b == a;
    } else {
      var b' := b[..|b| - 1];
      assert (a + b)[..|a + b| - 1] == a + b';
      assert (a + b)[|a + b| - 1] == b[|b| - 1];
      ImagesAppend(a, b');
    }
  }

  /** `load_images` over the sorted listing of the image directory. */
  method LoadImages(listing: seq<File>) returns (images: seq<Image>)
    ensures images == Images(listing)
  {
    images := [];
    for k := 0 to |listing|
      invariant images == Images(listing[..k])
    {
      assert listing[..k + 1][..k] == listing[..k];
      var labelIndex := LabelIndex(listing[k].name);
      if labelIndex == -1 {
        continue;
      }
      images := images + [Image(labelIndex, listing[k].contents)];
    }
    assert listing[..|listing|] == listing;
  }

  // -------------------------------------------------------------------- main

  /** The request frame for one image: the opcode, then the image bytes. */
  function Frame(image: Image): seq<byte>
  {
    [DataProvider.REQUEST_OPCODE] + image.data
  }

  /** The `n` floats `struct.unpack` reads from `4*n` bytes. */
  function Unpack(decodeFloat: Word32 -> real, bs: seq<byte>, n: nat): (xs: seq<real>)
    requires |bs| == 4 * n
    ensures |xs| == n
  {
    seq(n, i requires 0 <= i < n => decodeFloat(bs[4 * i .. 4 * i + 4]))
  }

  /** What the client prints about one response: which image it sent (its
      label), the scores and the inference time it read back. */
  datatype Reply = Reply(labelIndex: nat, scores: seq<real>, time: int64)

  /** Everything the client's loop reads or changes: its socket's scripts,
      what it has sent, the image index and the replies so far. */
  datatype Client = Client(incoming: seq<Segment>, grants: seq<Grant>, sent: seq<byte>, index: nat, log: seq<Reply>)

  /** How `main` ends: no image found (before connecting), an exception (the
      socket is then closed in `finally`), or a call that never returns. */
  datatype Exit = NoImages | Caught | Hung

  datatype Turn = Next(c: Client) | End(exit: Exit, c: Client)

  function SendExit(s: Status): Exit
  {
    if s == Stalled then Hung else Caught
  }

  function FetchExit(o: Outcome): Exit
  {
    if o == Stuck then Hung else Caught
  }

  /** The image sent after image `index`. */
  function NextIndex(index: nat, count: nat): (i: nat)
    requires count > 0
    ensures i < count
  {
    (index + 1) % count
  }

  /** One pass of the `while True` loop of `main`. */
  function Round(images: seq<Image>, decodeFloat: Word32 -> real, c: Client): Turn
    requires c.index < |images|
  {
    var op := [DataProvider.REQUEST_OPCODE];
    var a := SendAll(c.grants, 1);
    var c1 := c.(grants := a.rest, sent := c.sent + op[..a.count]);
    if a.status != Complete then End(SendExit(a.status), c1)
    else
      var image := images[c.index];
      var b := SendAll(a.rest, |image.data|);
      var c2 := c1.(grants := b.rest, sent := c1.sent + image.data[..b.count]);
      if b.status != Complete then End(SendExit(b.status), c2)
      else
        var s := ClientReceive(c.incoming, SCORE_BYTES);
        var c3 := c2.(incoming := s.rest);
        if s.outcome != Fetched then End(FetchExit(s.outcome), c3)
        else
          var t := ClientReceive(s.rest, TIME_BYTES);
          var c4 := c3.(incoming := t.rest);
          if t.outcome != Fetched then End(FetchExit(t.outcome), c4)
          else
            var reply := Reply(image.labelIndex, Unpack(decodeFloat, s.bytes, |LABELS|), DecodeInt64(t.bytes));
            Next(c4.(index := NextIndex(c.index, |images|), log := c.log + [reply]))
  }

  /** A pass that goes round again sent the frame of the current image,
      read exactly 40 score bytes and 8 time bytes off the stream, logged
      them against that image's label and moved on to the next image. */
  lemma RoundExchanges(images: seq<Image>, decodeFloat: Word32 -> real, c: Client)
    requires c.index < |images| && Round(images, decodeFloat, c).Next?
    ensures var c' := Round(images, decodeFloat, c).c;
      && c'.sent == c.sent + Frame(images[c.index])
      && c'.index == NextIndex(c.index, |images|)
      && exists scores: seq<byte>, time: seq<byte> ::
           && |scores| == SCORE_BYTES && |time| == TIME_BYTES
           && Stream(c.incoming) == scores + time + Stream(c'.incoming)
           && c'.log == c.log + [Reply(images[c.index].labelIndex, Unpack(decodeFloat, scores, |LABELS|), DecodeInt64(time))]
    ensures Volume(Round(images, decodeFloat, c).c.incoming) < Volume(c.incoming)
  {
    var a := SendAll(c.grants, 1);
    var b := SendAll(a.rest, |images[c.index].data|);
    var s := ClientReceive(c.incoming, SCORE_BYTES);
    var t := ClientReceive(s.rest, TIME_BYTES);
    var image := images[c.index];
    assert a.status == Complete && b.status == Complete && s.outcome == Fetched && t.outcome == Fetched;
    var reply := Reply(image.labelIndex, Unpack(decodeFloat, s.bytes, |LABELS|), DecodeInt64(t.bytes));
    assert Round(images, decodeFloat, c) == Next(Client(t.rest, b.rest,
      c.sent + [DataProvider.REQUEST_OPCODE][..1] + image.data[..|image.data|],
      NextIndex(c.index, |images|), c.log + [reply]));
    ClientReceiveTakesStream(c.incoming, SCORE_BYTES);
    ClientReceiveTakesStream(s.rest, TIME_BYTES);
    ClientReceiveShrinks(c.incoming, SCORE_BYTES);
    ClientReceiveShrinks(s.rest, TIME_BYTES);
    assert c.incoming != [];
    assert Stream(c.incoming) == s.bytes + t.bytes + Stream(t.rest);
  }

  /** The loop of `main`, from `c` on, over finite scripts. */
  function Session(images: seq<Image>, decodeFloat: Word32 -> real, c: Client): (Exit, Client)
    requires c.index < |images|
    decreases Volume(c.incoming)
  {
    var t := Round(images, decodeFloat, c);
    match t
    case End(e, c') => (e, c')
    case Next(c') =>
      RoundExchanges(images, decodeFloat, c);
      Session(images, decodeFloat, c')
  }

  /** The images are sent round and round: the k-th reply the client logs is
      about image `k mod count`, and the index always names the image the
      next reply is about. */
  predicate Cycling(images: seq<Image>, c: Client)
  {
    && c.index < |images|
    && c.index == |c.log| % |images|
    && forall k :: 0 <= k < |c.log| ==> c.log[k].labelIndex == images[k % |images|].labelIndex
  }

  lemma {:induction false} SessionCycles(images: seq<Image>, decodeFloat: Word32 -> real, c: Client)
    requires Cycling(images, c)
    ensures Cycling(images, Session(images, decodeFloat, c).1)
    decreases Volume(c.incoming)
  {
    var t := Round(images, decodeFloat, c);
    if t.Next? {
      RoundExchanges(images, decodeFloat, c);
      RoundAdvances(images, decodeFloat, c);
      CyclingStep(images, c, t.c);
      SessionCycles(images, decodeFloat, t.c);
      assert Session(images, decodeFloat, c) == Session(images, decodeFloat, t.c);
    }
  }

  /** Logging one reply about the current image and moving to the next
      image keeps the client cycling. */
  lemma CyclingStep(images: seq<Image>, c: Client, c': Client)
    requires Cycling(images, c)
    requires c'.index == NextIndex(c.index, |images|)
    requires |c'.log| == |c.log| + 1 && c'.log[..|c.log|] == c.log
    requires c'.log[|c.log|].labelIndex == images[c.index].labelIndex
    ensures Cycling(images, c')
  {
    ModSuccessor(|c.log|, |images|);
    assert forall k :: 0 <= k < |c.log| ==> c'.log[k] == c.log[k];
  }

  /** A pass that goes round again appends one reply, about the current
      image, and moves the index on. */
  lemma RoundAdvances(images: seq<Image>, decodeFloat: Word32 -> real, c: Client)
    requires c.index < |images| && Round(images, decodeFloat, c).Next?
    ensures var c' := Round(images, decodeFloat, c).c;
      && c'.index == NextIndex(c.index, |images|)
      && |c'.log| == |c.log| + 1 && c'.log[..|c.log|] == c.log
      && c'.log[|c.log|].labelIndex == images[c.index].labelIndex
  {
  }

  lemma MulBound(d: int, n: int)
    requires n > 0
    ensures d >= 1 ==> d * n >= n
    ensures d <= -1 ==> d * n <= -n
  {
    if d >= 1 {
      assert d * n == (d - 1) * n + n;
    } else if d <= -1 {
      assert d * n == (d + 1) * n - n;
    }
  }

  /** The remainder is determined by any division with a small remainder. */
  lemma ModUnique(a: int, n: int, q: int, r: int)
    requires n > 0 && 0 <= r < n && a == q * n + r
    ensures a % n == r
  {
    var q2, r2 := a / n, a % n;
    assert a == q2 * n + r2;
    assert (q - q2) * n == r2 - r;
    MulBound(q - q2, n);
  }

  lemma ModSuccessor(a: nat, n: nat)
    requires n > 0
    ensures (a % n + 1) % n == (a + 1) % n
  {
    var q, r := a / n, a % n;
    assert a == q * n + r;
    if r + 1 < n {
      ModUnique(a + 1, n, q, r + 1);
      ModUnique(r + 1, n, 0, r + 1);
    } else {
      ModUnique(a + 1, n, q + 1, 0);
      ModUnique(r + 1, n, 1, 0);
    }
  }

  /** A session ends only with an exception or a call that never
      returns. */
  lemma {:induction false} SessionNeverFinds(images: seq<Image>, decodeFloat: Word32 -> real, c: Client)
    requires c.index < |images|
    ensures Session(images, decodeFloat, c).0 != NoImages
    decreases Volume(c.incoming)
  {
    if Round(images, decodeFloat, c).Next? {
      RoundExchanges(images, decodeFloat, c);
      SessionNeverFinds(images, decodeFloat, Round(images, decodeFloat, c).c);
    }
  }

  /** The device reads a client's frame as one request for exactly that
      image, and consumes nothing past it. */
  lemma FrameIsOneRequest(image: Image, post: seq<Segment>)
    requires |image.data| > 0
    ensures DataProvider.ReadRequest([Data(Frame(image))] + post, |image.data|)
      == DataProvider.Request(Returned(0), image.data, post)
  {
    var script := [Data(Frame(image))] + post;
    assert Frame(image)[..1] == [DataProvider.REQUEST_OPCODE];
    assert Frame(image)[1..] == image.data;
    assert script[1..] == post;
    assert RecvStep(script, 1) == RecvReply(Returned(1), [DataProvider.REQUEST_OPCODE], [Data(image.data)] + post);
    assert ReceiveAll(script, 1) == Received(Complete, [DataProvider.REQUEST_OPCODE], [Data(image.data)] + post);
    assert ([Data(image.data)] + post)[1..] == post;
    assert RecvStep([Data(image.data)] + post, |image.data|) == RecvReply(Returned(|image.data|), image.data, post);
    assert ReceiveAll([Data(image.data)] + post, |image.data|) == Received(Complete, image.data, post) by {
      assert image.data + [] == image.data;
    }
  }

  /** When the device sends ten scores, the client reads the device's
      response back exactly: the scores it decodes are the device's (given
      that the float layout round-trips them) and the time is the device's
      time, however the peer splits the bytes into segments. */
  lemma ClientReadsDeviceReply(encodeFloat: real -> Word32, decodeFloat: Word32 -> real,
                               predictions: seq<real>, time: int64,
                               script: seq<Segment>, more: seq<byte>)
    requires |predictions| == |LABELS|
    requires forall i :: 0 <= i < |predictions| ==> decodeFloat(encodeFloat(predictions[i])) == predictions[i]
    requires Flowing(script)
    requires Stream(script) == PredictionHandler.ScoreBytes(encodeFloat, predictions) + EncodeInt64(time) + more
    ensures var s := ClientReceive(script, SCORE_BYTES);
      && s.outcome == Fetched
      && Unpack(decodeFloat, s.bytes, |LABELS|) == predictions
      && var t := ClientReceive(s.rest, TIME_BYTES);
      && t.outcome == Fetched
      && DecodeInt64(t.bytes) == time
      && Stream(t.rest) == more
  {
    var scores := PredictionHandler.ScoreBytes(encodeFloat, predictions);
    var timeBytes := EncodeInt64(time);
    var s := ClientReceive(script, SCORE_BYTES);
    assert s.outcome == Fetched && s.bytes == scores && Stream(s.rest) == timeBytes + more && Flowing(s.rest) by {
      ClientReceiveFlowing(script, SCORE_BYTES);
      ClientReceiveTakesStream(script, SCORE_BYTES);
      Associate(scores, timeBytes, more);
      SplitAt(Stream(script), s.bytes, Stream(s.rest), scores, timeBytes + more);
    }
    assert Unpack(decodeFloat, s.bytes, |LABELS|) == predictions by {
      forall i | 0 <= i < |LABELS|
        ensures Unpack(decodeFloat, s.bytes, |LABELS|)[i] == predictions[i]
      {
        PredictionHandler.ScoreBytesSlice(encodeFloat, predictions, i);
      }
    }
    var t := ClientReceive(s.rest, TIME_BYTES);
    assert t.outcome == Fetched && t.bytes == timeBytes && Stream(t.rest) == more by {
      ClientReceiveFlowing(s.rest, TIME_BYTES);
      ClientReceiveTakesStream(s.rest, TIME_BYTES);
      SplitAt(Stream(s.rest), t.bytes, Stream(t.rest), timeBytes, more);
    }
    DecodeEncodeInt64(time);
  }

  /** One pass of the loop on the real socket. */
  method Exchange(sock: Socket, images: seq<Image>, decodeFloat: Word32 -> real, index: nat, log: seq<Reply>)
    returns (stop: bool, exit: Exit, index': nat, log': seq<Reply>)
    requires index < |images|
    modifies sock`incoming, sock`grants, sock`sent
    ensures var t := Round(images, decodeFloat, Client(old(sock.incoming), old(sock.grants), old(sock.sent), index, log));
      var c := Client(sock.incoming, sock.grants, sock.sent, index', log');
      if stop then t == End(exit, c) else t == Next(c)
  {
    ghost var c0 := Client(sock.incoming, sock.grants, sock.sent, index, log);
    var r := Send(sock, [DataProvider.REQUEST_OPCODE]);
    if !r.Returned? || r.value < 0 {
      return true, if r.Blocked? then Hung else Caught, index, log;
    }
    var image := images[index];
    r := Send(sock, image.data);
    if !r.Returned? || r.value < 0 {
      return true, if r.Blocked? then Hung else Caught, index, log;
    }
    var outcome, scoresData := RecvAll(sock, SCORE_BYTES);
    if outcome != Fetched {
      return true, FetchExit(outcome), index, log;
    }
    var timeData;
    outcome, timeData := RecvAll(sock, TIME_BYTES);
    if outcome != Fetched {
      return true, FetchExit(outcome), index, log;
    }
    var scores := Unpack(decodeFloat, scoresData, |LABELS|);
    var inferenceTime := DecodeInt64(timeData);
    return false, Caught, NextIndex(index, |images|), log + [Reply(image.labelIndex, scores, inferenceTime)];
  }

  /** `main()`, from the loaded images on: the replies the client logs and
      the index it stops at are returned. */
  method Run(sock: Socket, images: seq<Image>, decodeFloat: Word32 -> real)
    returns (exit: Exit, index: nat, log: seq<Reply>)
    modifies sock
    ensures |images| == 0 ==> exit == NoImages && index == 0 && log == []
    ensures |images| == 0 ==>
      sock.incoming == old(sock.incoming) && sock.grants == old(sock.grants) && sock.sent == old(sock.sent)
    ensures |images| > 0 ==>
      Session(images, decodeFloat, Client(old(sock.incoming), old(sock.grants), old(sock.sent), 0, []))
        == (exit, Client(sock.incoming, sock.grants, sock.sent, index, log))
    ensures sock.closeCount == old(sock.closeCount) + (if exit == Caught then 1 else 0)
  {
    index, log := 0, [];
    if |images| == 0 {
      return NoImages, index, log;
    }
    ghost var goal := Session(images, decodeFloat, Client(sock.incoming, sock.grants, sock.sent, 0, []));
    SessionNeverFinds(images, decodeFloat, Client(sock.incoming, sock.grants, sock.sent, 0, []));
    while true
      invariant index < |images|
      invariant Session(images, decodeFloat, Client(sock.incoming, sock.grants, sock.sent, index, log)) == goal
      invariant sock.closeCount == old(sock.closeCount)
      decreases Volume(sock.incoming)
    {
      ghost var c := Client(sock.incoming, sock.grants, sock.sent, index, log);
      var stop;
      stop, exit, index, log := Exchange(sock, images, decodeFloat, index, log);
      if stop {
        if exit == Caught {
          sock.Close();
        }
        return;
      }
      RoundExchanges(images, decodeFloat, c);
    }
  }
}
