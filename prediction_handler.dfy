/** `PredictionHandler::Update`: the response frame, the memory of the
    score vector (4 bytes per `float`) followed by the 8-byte inference
    time. */
module PredictionHandler {

  import opened Bytes
  import opened Transport
  import opened TcpServer

  /** The memory of a `std::vector<float>`: the scores' encodings one after
      another. */
  function ScoreBytes(encodeFloat: real -> Word32, predictions: seq<real>): (bs: seq<byte>)
    ensures |bs| == 4 * |predictions|
  {
    var blocks := seq(|predictions|, i requires 0 <= i < |predictions| => encodeFloat(predictions[i]));
    FlattenLength(blocks, 4);
    Flatten(blocks)
  }

  /** Score `i` occupies bytes `4*i` to `4*i + 4` of the frame. */
  lemma ScoreBytesSlice(encodeFloat: real -> Word32, predictions: seq<real>, i: nat)
    requires i < |predictions|
    ensures ScoreBytes(encodeFloat, predictions)[4 * i .. 4 * i + 4] == encodeFloat(predictions[i])
  {
    var blocks := seq(|predictions|, i requires 0 <= i < |predictions| => encodeFloat(predictions[i]));
    FlattenSlice(blocks, 4, i);
    assert i * 4 == 4 * i;
  }

  /** How an `Update` ends: the value it returns (or `Blocked`), every byte
      it hands to the peer, and what is left of the send script. */
  datatype Response = Response(result: Call, sent: seq<byte>, rest: seq<Grant>)

  /** The reference behaviour of `Update(client_socket, predictions,
      inference_time)`. */
  function Respond(grants: seq<Grant>, scores: seq<byte>, time: int64): (q: Response)
    ensures q.result.Returned? ==> q.result.value == 0 || q.result.value == 1
  {
    var a := SendAll(grants, |scores|);
    var sentScores := scores[..a.count];
    match SendResult(a, |scores|)
    case Blocked => Response(Blocked, sentScores, a.rest)
    case Returned(n) =>
      if n != |scores| then Response(Returned(1), sentScores, a.rest)
      else
        var b := SendAll(a.rest, 8);
        var sentTime := EncodeInt64(time)[..b.count];
        match SendResult(b, 8)
        case Blocked => Response(Blocked, scores + sentTime, b.rest)
        case Returned(m) => Response(Returned(if m != 8 then 1 else 0), scores + sentTime, b.rest)
  }

  /** `Update` returns 0 exactly when both sends complete; the peer has then
      been handed the scores followed by the 8-byte time, `4*n + 8` bytes,
      from which it reads back exactly that time. */
  lemma RespondSucceeds(grants: seq<Grant>, scores: seq<byte>, time: int64)
    ensures var q := Respond(grants, scores, time);
      var a := SendAll(grants, |scores|);
      q.result == Returned(0) <==> a.status == Complete && SendAll(a.rest, 8).status == Complete
    ensures var q := Respond(grants, scores, time);
      q.result == Returned(0) ==>
        && q.sent == scores + EncodeInt64(time)
        && |q.sent| == |scores| + 8
        && DecodeInt64(q.sent[|scores|..]) == time
  {
    var q := Respond(grants, scores, time);
    if q.result == Returned(0) {
      assert q.sent[|scores|..] == EncodeInt64(time);
      DecodeEncodeInt64(time);
    }
  }

  /** When the score send falls short, `Update` gives up: nothing of the
      time is sent and the peer holds only a proper prefix of the scores. */
  lemma RespondStopsAfterShortScores(grants: seq<Grant>, scores: seq<byte>, time: int64)
    requires SendAll(grants, |scores|).status != Complete
    ensures var q := Respond(grants, scores, time);
      && q.result != Returned(0)
      && |q.sent| < |scores|
      && q.sent == scores[..|q.sent|]
  {
  }

  /** When the time send falls short, `Update` returns 1 (or never returns)
      after the whole score block and a proper prefix of the time. */
  lemma RespondShortTime(grants: seq<Grant>, scores: seq<byte>, time: int64)
    requires SendAll(grants, |scores|).status == Complete
    requires SendAll(SendAll(grants, |scores|).rest, 8).status != Complete
    ensures var q := Respond(grants, scores, time);
      && q.result != Returned(0)
      && |scores| <= |q.sent| < |scores| + 8
      && q.sent == (scores + EncodeInt64(time))[..|q.sent|]
  {
    var q := Respond(grants, scores, time);
    var b := SendAll(SendAll(grants, |scores|).rest, 8);
    assert (scores + EncodeInt64(time))[..|scores| + b.count] == scores + EncodeInt64(time)[..b.count];
  }

  /** An empty prediction vector sends just the 8-byte time. */
  lemma RespondWithoutScores(grants: seq<Grant>, time: int64)
    ensures var q := Respond(grants, [], time);
      q.result == Returned(0) <==> SendAll(grants, 8).status == Complete
    ensures var q := Respond(grants, [], time);
      q.result == Returned(0) ==> q.sent == EncodeInt64(time)
  {
  }

  /** `PredictionHandler::Update(client_socket, predictions,
      inference_time)`. */
  method Update(sock: Socket, encodeFloat: real -> Word32, predictions: seq<real>, time: int64)
    returns (r: Call)
    modifies sock`grants, sock`sent
    ensures var q := Respond(old(sock.grants), ScoreBytes(encodeFloat, predictions), time);
      && r == q.result
      && sock.grants == q.rest
      && sock.sent == old(sock.sent) + q.sent
  {
    var scores := ScoreBytes(encodeFloat, predictions);
    var bytesToSend := |scores|;
    var bytesSent := Send(sock, scores);
    if bytesSent.Blocked? {
      return Blocked;
    }
    if bytesSent.value != bytesToSend {
      return Returned(1);
    }
    ghost var sent1 := sock.sent;
    assert sent1 == old(sock.sent) + scores by {
      assert scores[..SendAll(old(sock.grants), |scores|).count] == scores;
    }
    bytesSent := Send(sock, EncodeInt64(time));
    Associate(old(sock.sent), scores, sock.sent[|sent1|..]);
    if bytesSent.Blocked? {
      return Blocked;
    }
    if bytesSent.value != 8 {
      return Returned(1);
    }
    return Returned(0);
  }
}
