# Inference protocol of the ESP32 image classifier, in Dafny

This project models the request/response protocol of the fmnist-esp-ota
firmware, the host tools around it, and proves properties of both.

On the device:

- `handle_client` serves one TCP connection. For each request it runs
  `DataProvider::Read`, then `interpreter->Invoke()` between two timer
  readings, then `PredictionInterpreter::GetResult(output, 0.0)`, then
  `PredictionHandler::Update`. It leaves the loop at the first step that
  fails.
- The full-buffer loops `tcp_server_receive` and `tcp_server_send` carry every
  byte it moves.
- The listener `loop` hands each accepted socket to a new worker.
- `PerformWarmup` runs the model on an input of ones before the server starts.

On the host:

- `scripts/tcp_image_client.py` selects the labelled test images. It sends
  each one as a request frame (`0x01` followed by the image) and reads back the
  ten `float` scores and the `int64` time.
- `scripts/esp32_model_deploy_helper.py` prepares a build. Its pure parts are
  modelled:
  - reading the partition table and growing the model partition;
  - turning TFLite op names into `MicroMutableOpResolver` method names;
  - writing `micro_ops.cpp` and `micro_ops.h`;
  - the checks in `main` that stop the run.

How the outside world is represented:

- **Sockets.** A socket (`Transport.Socket`) carries a script:
  - the segments the peer's bytes arrive in, or receive errors;
  - for each `send`, how many bytes the kernel takes, or a send error.

  A call made after its script is used up never returns. The model writes
  that outcome as `Blocked`. Because every `recv` consumes part of its script,
  the loops terminate, even where the C loop would spin on a peer that has
  gone quiet.
- **Interpreter and timer.** The TFLite interpreter and the microsecond timer
  are functions of the invocation or reading number:
  - `engine(k, input)` says whether the k-th `Invoke()` succeeds and what it
    writes to the output tensor;
  - `clock(k)` is the k-th timer reading.
- **Watchdog.** Watchdog reconfigurations are recorded with their timeouts.
- **Floats.** The `float` byte layout is a pair of functions (`encodeFloat`,
  `decodeFloat`); scores are reals.
- **Integers.** `int8`, `int16`, `int32` and `int64` use explicit
  little-endian two's-complement layouts.

Modules follow the source files:

| module | source |
|---|---|
| `Bytes` | byte layouts shared by the others |
| `Transport` | the socket calls |
| `TcpServer` | `tcp_server.c` |
| `DataProvider` | `DataProvider.cpp` |
| `PredictionInterpreter` | `PredictionInterpreter.cpp` |
| `PredictionHandler` | `PredictionHandler.cpp` |
| `MainFunctions` | `main_functions.cpp` |
| `TcpImageClient` | `tcp_image_client.py` |
| `DeployStrings` | the deploy helper: Python's `strip`, `split`, `join`, `upper`, `capitalize` |
| `DeployNumbers` | the deploy helper: `int(s, 16)` and the `{:X}` / `{}` formats |
| `DeployPartitions` | the deploy helper: the partition table |
| `DeployOps` | the deploy helper: the op table and method names |
| `DeployResolver` | the deploy helper: the generated sources |
| `DeployMain` | the deploy helper: `main` |

Each imperative routine is a method, proved against a reference function of
its inputs. For example, `TcpServer.Receive` is proved against
`TcpServer.ReceiveAll`, and `MainFunctions.Device.HandleClient` against
`MainFunctions.Session`. The properties are lemmas about those functions.

A few behaviours of the code are worth stating plainly, since the model
follows them:

- **Zero-byte `recv`.** A `recv` that returns 0 is not an error on the device:
  `tcp_server_receive` adds nothing and loops on
  (`TcpServer.ZeroRecvIsNotAnError`). Only the host client raises `EOFError`.
- **Input.** `DataProvider::Read` copies the payload into the input tensor
  byte for byte; there is no quantisation step on the way in.
- **Zero scale.** A zero scale on a quantised output makes `Dequantize` call
  `vTaskDelete(NULL)`, which ends only the calling worker task.
- **No lock.** The workers share the interpreter and its tensors without a
  lock.

## Model

| member | source | states |
|---|---|---|
| Transport.RecvStep | main/src/tcp_server.c:61 | one `recv` blocks exactly when the script is used up, returns -1 or a count of at most the bytes asked for, and delivers exactly that many bytes |
| Transport.RecvStepTakesStream | main/src/tcp_server.c:61 | one `recv` takes the next bytes of the peer's stream, in order, and consumes part of the script |
| Transport.SendStep | main/src/tcp_server.c:74 | one `send` blocks exactly when the script is used up, and otherwise returns -1 or at most the bytes offered |
| Transport.Socket.Recv | main/src/tcp_server.c:61 | `recv(fd, buf + off, want, 0)` writes the received bytes at `off` and leaves the rest of the buffer as it was |
| Transport.Socket.RecvBytes | scripts/tcp_image_client.py:26 | Python's `sock.recv(want)` returns the bytes of one `recv` step and consumes what that step consumes |
| Transport.Socket.Send | main/src/tcp_server.c:74 | `send` hands the peer the bytes the kernel takes and uses one grant |
| Transport.Socket.Close | main/src/main_functions.cpp:276 | `close` is counted |
| TcpServer.ReceiveAll | main/src/tcp_server.c:58-69 | the receive never writes more than the buffer size, and completes exactly when it has written the whole buffer |
| TcpServer.ReceiveAllTakesStreamPrefix | main/src/tcp_server.c:58-69 | the bytes written, followed by what is left, are the peer's whole stream: chunk k lands right after chunks 0..k-1 |
| TcpServer.ReceiveAllShrinks | main/src/tcp_server.c:60-67 | a receive that calls `recv` consumes part of the script |
| TcpServer.ReceiveAllWithoutErrors | main/src/tcp_server.c:58-69 | with no failing `recv`, the receive returns `buffer_size` exactly when the peer sends that many bytes, and then holds the first `buffer_size` bytes of the stream; otherwise it never returns |
| TcpServer.ReceiveAllKeepsNoRecvError | main/src/tcp_server.c:58-69 | what an error-free receive leaves of the script is error-free |
| TcpServer.ReceiveAllStopsAtFirstError | main/src/tcp_server.c:62-65 | a negative `recv` ends the receive at once with -1; the earlier bytes stay written and nothing after the failing call is consumed |
| TcpServer.ZeroRecvIsNotAnError | main/src/tcp_server.c:60-66 | a `recv` that returns 0 changes nothing but the script, and the loop carries on |
| TcpServer.EmptyBufferMovesNothing | main/src/tcp_server.c:58-82 | a zero-byte buffer makes both loops return 0 without a `recv` or `send` call |
| TcpServer.Receive | main/src/tcp_server.c:58-69 | `tcp_server_receive` returns what `ReceiveAll` says, consumes what it consumes, and writes its bytes at the start of the buffer, leaving the rest untouched |
| TcpServer.SendAll | main/src/tcp_server.c:71-82 | the send never counts more than the buffer size, and completes exactly when it has counted the whole buffer |
| TcpServer.SendAllWithoutErrors | main/src/tcp_server.c:71-82 | with no failing `send`, the send returns `buffer_size` exactly when the kernel would take that many bytes over its calls, and it always counts the smaller of the two; a short send is left waiting, never failed |
| TcpServer.SendAllStopsAtFirstError | main/src/tcp_server.c:75-78 | a negative `send` ends the send at once with -1, and no later grant is used |
| TcpServer.Send | main/src/tcp_server.c:71-82 | `tcp_server_send` returns what `SendAll` says and hands the peer the first `count` bytes of the buffer |
| DataProvider.ReadRequest | main/src/DataProvider.cpp:11-35 | `Read` writes at most the tensor's size and returns 0 or 1 when it returns |
| DataProvider.ReadRequestSucceeds | main/src/DataProvider.cpp:15-34 | `Read` returns 0 exactly when the opcode receive delivers `0x01` and a non-empty payload is received in full |
| DataProvider.ReadRequestTakesStream | main/src/DataProvider.cpp:28 | on success the tensor holds exactly the `bytes` bytes that follow the opcode, copied verbatim, and nothing past them is consumed |
| DataProvider.ReadRequestRejects | main/src/DataProvider.cpp:15-25 | a failed opcode receive or an opcode other than `0x01` returns 1, leaves the tensor untouched and never asks for the payload |
| DataProvider.ReadRequestWithoutErrors | main/src/DataProvider.cpp:11-35 | from an error-free peer, `Read` returns 0 exactly when the stream starts with `0x01` followed by at least `bytes > 0` bytes, and the tensor then holds them |
| DataProvider.EmptyTensorIsRefused | main/src/DataProvider.cpp:28-32 | a zero-byte tensor is never accepted, because the payload receive returns 0 |
| DataProvider.Read | main/src/DataProvider.cpp:11-35 | `DataProvider::Read` returns what `ReadRequest` says, consumes what it consumes, and writes its payload at the start of the tensor buffer |
| PredictionInterpreter.GetTypeSize | main/src/PredictionInterpreter.cpp:111-130 | the size table succeeds exactly on the six supported types |
| PredictionInterpreter.GetTypeSizeTable | main/src/PredictionInterpreter.cpp:111-130 | the sizes are 4/1/1/2/4/1 for float32/uint8/int8/int16/int32/bool, and every other type deletes the worker task |
| PredictionInterpreter.Width | main/src/PredictionInterpreter.cpp:41-103 | every supported element is stored in 1 to 4 bytes |
| PredictionInterpreter.IntegerValueOfBlock | main/src/PredictionInterpreter.cpp:48-96 | reading an element of an integer tensor gives back the value stored in it, for every value in the range of its C type |
| PredictionInterpreter.Scores | main/src/PredictionInterpreter.cpp:29-109 | dequantisation completes exactly when the tensor is not fatal (a declared quantization with zero scale, or an unknown type), and then yields `bytes / GetTypeSize(type)` scores |
| PredictionInterpreter.ScoresOfIntegers | main/src/PredictionInterpreter.cpp:48-96 | an integer tensor holding `vs` yields `(vs[i] - zero_point) * scale` for quantised uint8/int8/int16, `vs[i]` for unquantised ones, and `vs[i]` for int32 in either case |
| PredictionInterpreter.ScoresOfFloats | main/src/PredictionInterpreter.cpp:41-47 | a float32 tensor yields its values unchanged |
| PredictionInterpreter.ScoresOfBools | main/src/PredictionInterpreter.cpp:97-103 | a bool tensor yields 1.0 for each non-zero byte and 0.0 for each zero byte |
| PredictionInterpreter.Dequantize | main/src/PredictionInterpreter.cpp:29-109 | `Dequantize` fills the vector with `Scores`, or deletes the worker task before writing any element exactly when the tensor is fatal |
| PredictionInterpreter.FilterIsSubsequence | main/src/PredictionInterpreter.cpp:18-25 | the filter is the subsequence of the scores at increasing positions, and those are exactly the positions whose score is at or above the threshold |
| PredictionInterpreter.FilterMultiset | main/src/PredictionInterpreter.cpp:18-25 | the filter keeps every copy of a score at or above the threshold and no copy of the others |
| PredictionInterpreter.FilterKeepsAll | main/src/PredictionInterpreter.cpp:18-25 | a threshold no greater than every score leaves the scores unchanged |
| PredictionInterpreter.FilterDropsAll | main/src/PredictionInterpreter.cpp:18-25 | a threshold above every score leaves nothing |
| PredictionInterpreter.EraseBelow | main/src/PredictionInterpreter.cpp:18-25 | the in-place erase loop leaves exactly the filtered scores |
| PredictionInterpreter.GetResult | main/src/PredictionInterpreter.cpp:11-27 | `GetResult` deletes the worker task when dequantisation does, and otherwise returns the dequantised scores filtered at the threshold |
| PredictionHandler.ScoreBytes | main/src/PredictionHandler.cpp:13-14 | the score block is `4 * n` bytes |
| PredictionHandler.ScoreBytesSlice | main/src/PredictionHandler.cpp:14 | score i occupies bytes `4*i` to `4*i + 4` of the block |
| PredictionHandler.Respond | main/src/PredictionHandler.cpp:12-28 | `Update` returns 0 or 1 when it returns |
| PredictionHandler.RespondSucceeds | main/src/PredictionHandler.cpp:12-28 | `Update` returns 0 exactly when both sends complete; the peer then has the scores followed by the 8-byte time, `4*n + 8` bytes, and the time reads back unchanged |
| PredictionHandler.RespondStopsAfterShortScores | main/src/PredictionHandler.cpp:16-19 | a short score send ends `Update` unsuccessfully: none of the time is sent, and the peer holds a proper prefix of the scores |
| PredictionHandler.RespondShortTime | main/src/PredictionHandler.cpp:21-25 | a short time send ends `Update` unsuccessfully, after the whole score block and a proper prefix of the time |
| PredictionHandler.RespondWithoutScores | main/src/PredictionHandler.cpp:13-27 | an empty prediction vector sends just the 8-byte time |
| PredictionHandler.Update | main/src/PredictionHandler.cpp:12-28 | `PredictionHandler::Update` returns what `Respond` says and hands the peer exactly its bytes |
| Bytes.DecodeEncodeInt64 | scripts/tcp_image_client.py:68-69 | the 8 bytes of the device's `long long`, unpacked with `'q'`, give the same time back |
| Bytes.EncodeDecodeInt64 | scripts/tcp_image_client.py:68-69 | every 8-byte block is the encoding of the value it unpacks to |
| Bytes.FlattenLength | main/src/PredictionHandler.cpp:13-14 | `n` values of `w` bytes take `n * w` bytes |
| Bytes.CountOfBlocks | main/src/PredictionInterpreter.cpp:12 | a tensor of `n` elements of `w` bytes sizes the result vector for exactly `n` scores |
| Bytes.FlattenSlice | main/src/PredictionHandler.cpp:13-14 | block i of a layout of w-byte blocks sits at bytes `i*w` to `i*w + w` |
| MainFunctions.RoundStages | main/src/main_functions.cpp:244-270 | one pass runs Read, Invoke, GetResult and Update in that order and stops at the first failure: all four when it goes round again; Read alone, Read and Invoke, or all four when it breaks; the first three when the worker task is deleted; Read alone or all four when a call never returns |
| MainFunctions.RoundShrinks | main/src/main_functions.cpp:244-270 | a pass that goes round again has consumed part of the request stream |
| MainFunctions.SessionTrace | main/src/main_functions.cpp:244-270 | over a whole session, the steps run are Read, Invoke, GetResult, Update, Read, ... with nothing skipped, ending where a failing step ends it |
| MainFunctions.RefusedRequestEndsSilently | main/src/main_functions.cpp:246-248 | a refused request ends the session with nothing sent, no inference and no timer reading |
| MainFunctions.RoundResponds | main/src/main_functions.cpp:246-267 | a pass that goes round again ran exactly one inference on the received payload. It sent its scores at or above 0.0, then the time between the two timer readings around `Invoke`, which is never negative on a clock that never goes backwards |
| MainFunctions.InferFails | main/src/main_functions.cpp:251-257 | a failed `Invoke` breaks the loop after one timer reading and sends nothing |
| MainFunctions.ReplyResponds | main/src/main_functions.cpp:262-267 | a reply that lets the loop go round again sent the whole frame for the filtered scores and the time |
| MainFunctions.AcceptedExactly | main/src/main_functions.cpp:284-292 | every non-negative accept result gets exactly one worker and a failed accept gets none |
| MainFunctions.AcceptedAll | main/src/main_functions.cpp:284-292 | when no accept fails, every socket gets a worker, in accept order |
| MainFunctions.WarmupStopsAtFirstFailure | main/src/main_functions.cpp:78-85 | the warm-up completes exactly when every one of its invocations succeeds; otherwise it stops at the first failing one |
| MainFunctions.WarmupStep | main/src/main_functions.cpp:78-83 | a failed run stops the warm-up after that run; a successful one leaves the remaining runs |
| MainFunctions.Device.Invoke | main/src/main_functions.cpp:253 | `Invoke()` is the next invocation of the engine on the input bytes, and writes the output tensor only when it succeeds |
| MainFunctions.Device.Now | main/src/main_functions.cpp:251 | `esp_timer_get_time()` is the next clock reading |
| MainFunctions.Device.ReconfigureWatchdog | main/src/main_functions.cpp:242 | each watchdog reconfiguration is appended to the device's effect log with its timeout |
| MainFunctions.Device.CloseClient | main/src/main_functions.cpp:276 | `close(client_socket)` closes the socket once and is appended to the effect log after everything before it |
| MainFunctions.Device.ServeRequest | main/src/main_functions.cpp:244-270 | one pass of the loop on the device's state does what `Round` says |
| MainFunctions.Device.InferStep | main/src/main_functions.cpp:251-262 | the timed inference of a pass does what `Infer` says |
| MainFunctions.Device.ReplyStep | main/src/main_functions.cpp:262-267 | the interpretation and response of a pass do what `Reply` says |
| MainFunctions.Device.HandleClient | main/src/main_functions.cpp:232-278 | `handle_client` runs the session `Session` describes. In the device's ordered effect log, the watchdog is raised to 20000 ms first; when the loop breaks, it is restored to 5000 ms, and only after that is the socket closed, exactly once. When the worker task is deleted or a call never returns, neither happens |
| MainFunctions.Device.Listen | main/src/main_functions.cpp:280-294 | the listener spawns one worker per accepted socket, in order, and none for a failed accept |
| MainFunctions.Device.PerformWarmup | main/src/main_functions.cpp:65-91 | the warm-up fills the input with ones, runs the invocations `WarmupRuns` says and raises the watchdog to 20000 ms. It restores 5000 ms only when every run succeeded |
| MainFunctions.Device.WarmupLoop | main/src/main_functions.cpp:78-85 | the `for` loop runs the invocations `WarmupRuns` says and reports whether it completed |
| TcpImageClient.ClientReceive | scripts/tcp_image_client.py:24-31 | `recv_all` never gathers more than `length` bytes, and fetches exactly when it gathered `length` |
| TcpImageClient.ClientReceiveTakesStream | scripts/tcp_image_client.py:24-31 | the gathered bytes are the next bytes of the stream, in arrival order |
| TcpImageClient.ClientReceiveShrinks | scripts/tcp_image_client.py:26-27 | a `recv_all` that calls `recv` consumes part of the script |
| TcpImageClient.ClientReceiveFlowing | scripts/tcp_image_client.py:24-31 | from a peer that keeps sending, `recv_all` returns exactly the first `length` bytes of the stream when there are that many, and otherwise waits for ever |
| TcpImageClient.ClientReceiveStops | scripts/tcp_image_client.py:27-29 | an empty `recv` before `length` bytes raises `EOFError` at once, and a failing `recv` raises its error at once; nothing after the call is consumed |
| TcpImageClient.EmptyRecvEndsTheClient | scripts/tcp_image_client.py:27-29 | an empty `recv` ends the client's receive, while the device's receive skips it |
| TcpImageClient.RecvAll | scripts/tcp_image_client.py:24-31 | `recv_all` on the socket does what `ClientReceive` says |
| TcpImageClient.FirstLabelIsFirstMatch | scripts/tcp_image_client.py:13-17 | a file gets the first label, in list order, that occurs in its name, and -1 when none does |
| TcpImageClient.LabelIndex | scripts/tcp_image_client.py:13-17 | the label search loop returns `FirstLabel` |
| TcpImageClient.Images | scripts/tcp_image_client.py:10-22 | every kept image has a valid label index, and no more images are kept than files listed |
| TcpImageClient.ImagesAppend | scripts/tcp_image_client.py:12-21 | selection works file by file, so kept files stay in listing order |
| TcpImageClient.LoadImages | scripts/tcp_image_client.py:10-22 | `load_images` returns `Images` of the sorted listing |
| TcpImageClient.NextIndex | scripts/tcp_image_client.py:78 | the next image index stays below the image count |
| TcpImageClient.RoundExchanges | scripts/tcp_image_client.py:55-78 | a pass that goes round again sent `0x01` and the current image, and read exactly 40 score bytes and 8 time bytes off the stream. It logged them against that image's label and moved on to the next image |
| TcpImageClient.SessionCycles | scripts/tcp_image_client.py:55-78 | the k-th reply logged is about image `k mod count`, and the index always names the next image |
| TcpImageClient.SessionNeverFinds | scripts/tcp_image_client.py:54-92 | the client loop ends only through an exception or a call that never returns |
| TcpImageClient.FrameIsOneRequest | scripts/tcp_image_client.py:57-62 | the device reads the client's frame as one request for exactly that image, and consumes nothing past it |
| TcpImageClient.ClientReadsDeviceReply | scripts/tcp_image_client.py:64-69 | for ten predictions, the client reads back exactly the device's scores and time, however the bytes are split into segments |
| TcpImageClient.Unpack | scripts/tcp_image_client.py:67 | `struct.unpack` of `4*n` bytes gives `n` floats |
| TcpImageClient.Exchange | scripts/tcp_image_client.py:55-83 | one pass of the loop on the socket does what `Round` says |
| TcpImageClient.Run | scripts/tcp_image_client.py:33-92 | with no images, `main` returns before using the socket. Otherwise it runs the session `Session` describes and closes the socket exactly once after an exception |
| DeployStrings.TrimLeftShape | scripts/esp32_model_deploy_helper.py:31 | `lstrip()` drops the leading whitespace and no more |
| DeployStrings.TrimRightShape | scripts/esp32_model_deploy_helper.py:31 | `rstrip()` drops the trailing whitespace and no more |
| DeployStrings.StripPads | scripts/esp32_model_deploy_helper.py:31 | a text is its `strip()` padded with whitespace on both sides |
| DeployStrings.StripEnds | scripts/esp32_model_deploy_helper.py:31 | the result of `strip()` neither starts nor ends with whitespace |
| DeployStrings.StripPadded | scripts/esp32_model_deploy_helper.py:32 | whitespace around a text does not change what it strips to |
| DeployStrings.StripKeepsPrefix | scripts/esp32_model_deploy_helper.py:31 | a line that begins with a name without surrounding whitespace still begins with it after `strip()` |
| DeployStrings.StripIdempotent | scripts/esp32_model_deploy_helper.py:32 | stripping twice is stripping once |
| DeployStrings.SplitPartsFree | scripts/esp32_model_deploy_helper.py:32 | no part of `split(sep)` holds the separator |
| DeployStrings.JoinSplit | scripts/esp32_model_deploy_helper.py:32 | joining the parts of a split with the separator gives the text back |
| DeployStrings.SplitJoin | scripts/esp32_model_deploy_helper.py:46 | splitting a join of separator-free parts gives the parts back |
| DeployStrings.FieldsIgnoreOuterStrip | scripts/esp32_model_deploy_helper.py:32 | the outer `strip()` of the field list makes no difference |
| DeployStrings.FieldsAreClean | scripts/esp32_model_deploy_helper.py:32 | every field read from a line is comma-free and stripped |
| DeployStrings.StripAllSplitJoin | scripts/esp32_model_deploy_helper.py:46 | comma-free parts joined with `", "`, with whitespace around the whole, split at commas and strip back to the stripped parts |
| DeployStrings.FieldsOfJoin | scripts/esp32_model_deploy_helper.py:46 | a line written as clean fields joined with `", "` plus a newline reads back as those fields |
| DeployStrings.UpperOfCapitalize | scripts/esp32_model_deploy_helper.py:87 | `capitalize()` changes only the case of a word |
| DeployNumbers.ParseHexAccepts | scripts/esp32_model_deploy_helper.py:33-34 | `int(s, 16)` accepts exactly the well-formed literals (an optional sign, an optional `0x`, and digits with single underscores between them); an unsigned literal means the value of its digits |
| DeployNumbers.ParseHexOfHex | scripts/esp32_model_deploy_helper.py:45 | the size the helper writes, `0x{n:X}`, reads back as `n` |
| DeployNumbers.DigitChar | scripts/esp32_model_deploy_helper.py:45 | `{:X}` writes each digit as a decimal digit or an upper-case letter that reads back as that digit |
| DeployNumbers.DigitsOfPlain | scripts/esp32_model_deploy_helper.py:33-34 | a literal without underscores keeps all its digits |
| DeployNumbers.ValueOfNumeral | scripts/esp32_model_deploy_helper.py:45 | reading a `{:X}` or `{}` numeral back gives the number |
| DeployNumbers.NumeralDigits | scripts/esp32_model_deploy_helper.py:45 | every character of a numeral is a digit of its base, letters in upper case |
| DeployNumbers.NumeralLeading | scripts/esp32_model_deploy_helper.py:45 | only zero is written with a leading `0` |
| DeployNumbers.HexIsPlain | scripts/esp32_model_deploy_helper.py:45 | a written size has no whitespace, comma or underscore |
| DeployPartitions.ParsePartitionsAt | scripts/esp32_model_deploy_helper.py:30-35 | the result is the parse of the first line whose stripped text starts with `tflite_model` |
| DeployPartitions.ParsePartitionsFinds | scripts/esp32_model_deploy_helper.py:24-37 | `RuntimeError` is raised exactly when no line matches; otherwise the first matching line decides |
| DeployPartitions.ParseLineRaisesNoRuntimeError | scripts/esp32_model_deploy_helper.py:32-34 | reading a matching line fails only with `IndexError` or `ValueError` |
| DeployPartitions.ParsePartitionsCsv | scripts/esp32_model_deploy_helper.py:24-37 | the loop of `parse_partitions_csv` returns `ParsePartitions` |
| DeployPartitions.UpdateLinesFailureSticks | scripts/esp32_model_deploy_helper.py:42-48 | once a line fails, the whole rewrite fails the same way |
| DeployPartitions.UpdateLinesLineByLine | scripts/esp32_model_deploy_helper.py:41-48 | the rewrite succeeds when every line does, and then line i of the result is the rewrite of line i |
| DeployPartitions.UpdatePartitionsCsv | scripts/esp32_model_deploy_helper.py:40-50 | the loop of `update_partitions_csv` returns `UpdateLines` |
| DeployPartitions.FirstFieldNamed | scripts/esp32_model_deploy_helper.py:31-32 | the first field of a matching line starts with the partition name |
| DeployPartitions.SizeFieldIsClean | scripts/esp32_model_deploy_helper.py:45 | the written size field is comma-free and stripped |
| DeployPartitions.RewrittenLine | scripts/esp32_model_deploy_helper.py:43-46 | a rewritten line is its fields, with the size replaced, joined with `", "` plus a newline; it still matches and reads back as those fields |
| DeployPartitions.UpdateLinesMeaning | scripts/esp32_model_deploy_helper.py:40-50 | the rewrite fails exactly when a matching line has fewer than five fields. Otherwise it keeps the line count and every other line byte for byte, and gives each matching line field 4 `0x` plus the new size in upper-case hex |
| DeployPartitions.ParseRewrittenLine | scripts/esp32_model_deploy_helper.py:43-46 | reading a rewritten line gives its old offset and the new size |
| DeployPartitions.ParseAfterUpdate | scripts/esp32_model_deploy_helper.py:40-50 | reading the rewritten table back gives the same offset and the new size |
| DeployOps.WordRunIsLongest | scripts/esp32_model_deploy_helper.py:81 | `\w+` takes the longest run of word characters |
| DeployOps.SearchFindsNothing | scripts/esp32_model_deploy_helper.py:83 | the search finds nothing exactly when no position matches |
| DeployOps.SearchIsLeftmost | scripts/esp32_model_deploy_helper.py:83 | the search returns the leftmost match |
| DeployOps.CaptureIsWord | scripts/esp32_model_deploy_helper.py:81-85 | every captured op name is a non-empty run of word characters |
| DeployOps.ConcatSplit | scripts/esp32_model_deploy_helper.py:88 | the words of `split('_')` laid end to end are the name without underscores |
| DeployOps.CapWordCase | scripts/esp32_model_deploy_helper.py:87 | capitalising a word changes only its case |
| DeployOps.CapWordsMeaning | scripts/esp32_model_deploy_helper.py:86-89 | the words fail exactly when one is empty; otherwise they are the words laid end to end, up to case |
| DeployOps.MethodNameMeaning | scripts/esp32_model_deploy_helper.py:86-89 | the method name is `Add` and the op name without underscores, up to case. It fails exactly when the name has an empty word |
| DeployOps.DepthwiseConv2D | scripts/esp32_model_deploy_helper.py:86-89 | `DEPTHWISE_CONV_2D` maps to `AddDepthwiseConv2D` |
| DeployOps.DigitWord | scripts/esp32_model_deploy_helper.py:87 | a word that starts with a digit keeps the digit and capitalises the rest, so `2D` stays `2D` |
| DeployOps.CapitalizedWord | scripts/esp32_model_deploy_helper.py:87 | a letter-initial word becomes its first letter followed by the rest in lower case |
| DeployOps.ParseMicroOpsHeader | scripts/esp32_model_deploy_helper.py:80-90 | the header loop returns `OpMap` |
| DeployOps.OpMapFailureSticks | scripts/esp32_model_deploy_helper.py:82-90 | once a line fails, the whole table fails the same way |
| DeployOps.OpMapFails | scripts/esp32_model_deploy_helper.py:82-90 | the table fails exactly when some declared op name has an empty word |
| DeployOps.OpMapKeys | scripts/esp32_model_deploy_helper.py:90 | the keys are exactly the declared op names, upper-cased |
| DeployOps.OpMapKeyDeclared | scripts/esp32_model_deploy_helper.py:90 | every key comes from a declaring line |
| DeployOps.OpMapDeclaredKey | scripts/esp32_model_deploy_helper.py:90 | every declaring line's op is a key |
| DeployOps.OpMapLastWins | scripts/esp32_model_deploy_helper.py:90 | a key's method is the one from the last line declaring it |
| DeployResolver.OpBlocks | scripts/esp32_model_deploy_helper.py:131-136 | the op blocks take five lines per op |
| DeployResolver.OpBlocksSlice | scripts/esp32_model_deploy_helper.py:131-136 | block k adds op k |
| DeployResolver.GenerateMicroOpsCpp | scripts/esp32_model_deploy_helper.py:113-142 | the line-building loop writes `CppLines` joined with newlines |
| DeployResolver.CppLayout | scripts/esp32_model_deploy_helper.py:117-139 | `micro_ops.cpp` has eleven preamble lines, sized with `len(ops)` in decimal, then five lines per op in input order, then `return resolver;` and `}` |
| DeployResolver.HeaderDeclaresDefinition | scripts/esp32_model_deploy_helper.py:113-159 | the header declares the same resolver signature the source file defines |
| DeployMain.UnresolvedMeaning | scripts/esp32_model_deploy_helper.py:210 | the unresolved ops are exactly the model's ops whose upper-case name the table lacks |
| DeployMain.TableRewrittenOnlyWhenLarger | scripts/esp32_model_deploy_helper.py:172-199 | the partition table is rewritten exactly in partition mode, with a model and a port, when the table reads, the model is larger than the partition and the rewrite succeeds. The new table gives the partition the model's size at the same offset |
| DeployMain.GeneratedOnlyWhenResolved | scripts/esp32_model_deploy_helper.py:162-219 | the resolver sources are generated exactly when the earlier checks pass and every model op is in the table, and they add the mapped methods in order |
| DeployMain.UnresolvedOpStops | scripts/esp32_model_deploy_helper.py:210-213 | an op outside the table stops the run with `exit(1)` before anything is generated |
| DeployMain.ReportListsUnresolved | scripts/esp32_model_deploy_helper.py:210-213 | the corrected report lists the unresolved ops, one per line, and nothing else |
| DeployMain.Deploy | scripts/esp32_model_deploy_helper.py:162-219 | `main` as written: a missing model stops the run first and a missing port second, both before the partition table is read. The table is only rewritten in partition mode, and the sources are only generated when every model op is in the table |
| DeployMain.DeployCorrected | scripts/esp32_model_deploy_helper.py:162-219 | `main` with the corrected message: it rewrites the same table and ends the same way as `main` as written. The one difference is the unsupported-ops message, which lists the unresolved ops instead of every model op |
| DeployMain.AsWrittenReportListsSupportedOps | scripts/esp32_model_deploy_helper.py:210-213 | as written, with `ADD` in the table and `FOO` not, `main` exits with a message naming both. The corrected `main` names only `FOO` |

## Left out

- Concurrency. `loop` spawns workers that share the interpreter and tensors without a lock; the model runs one worker at a time and records the spawned sockets.
- `vTaskDelay`, the `ESP_LOG*` and `error_reporter` logging, and the client's prints and `stdout` redirection. They change nothing the protocol depends on.
- The TFLite interpreter (`Invoke` internals, `AllocateTensors`, `GetModel`), `setup`, `allocate_tensor_arena`, `load_model_from_partition`, `tcp_server_init` and `tcp_server_accept`. They are external or plumbing. `Invoke` and the accept results are inputs.
- The endless outer loops. `loop` is modelled over a finite list of accept results. `handle_client` and the client's `while True` run over finite scripts and stop where a call would never return.
- IEEE-754 arithmetic. Scores are reals and the `float` layout is a parameter, so `(data[i] - zero_point) * scale` is exact and the results of `static_cast<float>` are not rounded.
- The C `int` and `ssize_t` widths of byte counts. The model's counts are unbounded.
- File, network, subprocess and environment I/O in the deploy helper: reading and writing files and `env.sh`, `requests`, `json`, `argparse`, `os.getenv`, `os.stat`, `sys.exit`. Their results are inputs (`DeployMain.Inputs`) and their effects appear as returned values.
- `generate_cpp_array` and `write_model_to_partition`. The first is a shell-out to `xxd` plus regex renames; the second is commented out in `main`.
- `load_ops_mapping`. The op table is an input, loaded from the JSON or built by `OpMap`.
- `get_model_operations`. The model's ops are an input sequence, in the order the set is iterated.
- The directory listing and its sort. The sorted listing is an input.
- Reading the files. The header is given as the list of lines `splitlines()` returns. The partition table is given as the list `readlines()` returns, line ends included.
- `\w`, `isdigit`, `upper`, `lower`, `capitalize` and the digits of `int(text, 16)`, which are modelled on ASCII only.
- `int(text, 16)`, which is modelled on text without surrounding whitespace. The fields it reads are stripped already.
- ParseHexAccepts: accepts ASCII digits only. CPython's `int(text, 16)` also reads non-ASCII decimal digits, such as `'٣'` as 3, which `ParseHex` rejects.
- The client's `connect`. `TcpImageClient.Run` starts from a connected socket. A failing `connect` at `scripts/tcp_image_client.py:45-46` raises before the `try`, so no request is sent and `close` is never called; the model does not cover that path.
- A zero-length `sendall` on the host, which sends nothing.
- The client's sorted printing of the scores. The log keeps the scores in label order.
- Bytes.CountOfBlocks: stated for element widths 1 to 4, the widths of the supported tensor types.
- TcpImageClient.ClientReadsDeviceReply: requires exactly ten predictions. The client always reads 40 score bytes, so another count leaves the stream out of step.

## Findings

| source | as written | input that shows it | evidently intended | confidence | as-written member | corrected member |
|---|---|---|---|---|---|---|
| scripts/esp32_model_deploy_helper.py:212 | the "Unsupported ops detected" message joins `model_ops`, every op of the model | model ops `ADD` and `FOO`, with only `ADD` in the op table: the message names `ADD` and `FOO` | join `unresolved_ops`, so the message lists only the ops with no resolver method | medium, not executed | DeployMain.Deploy, DeployMain.ResolveAsWritten, DeployMain.AsWrittenReportListsSupportedOps | DeployMain.DeployCorrected, DeployMain.Resolve, DeployMain.ReportListsUnresolved |
