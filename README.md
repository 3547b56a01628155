# Streaming speech-recognition client: request pacer and response handler

This project models the two pieces of sequential logic in `grpc_client.py`, a
command-line client that streams a PCM audio file to a speech-recognition
service over one duplex `StreamingRecognize` call and logs the transcripts it
gets back.

- **Pacer** (`pacer.dfy`, the `generate_message` generator). It sends the
  streaming configuration request first. It then walks an `offset` through
  the audio buffer and sends slices of `ChunkSize(sampleRate)` bytes, which is
  40 ms of 16-bit mono audio (1280 bytes at 16 kHz). It stops when the buffer
  is used up, or when the termination flag `eos_found` is up at the top of an
  iteration. The flag is written by the other side of the stream, so here it
  is an input: `eos[k]` is the value the generator sees when it resumes after
  sending `k` audio chunks, and a reading past the end of `eos` is false.
  `GenerateMessages` is the loop. `PacedRequests` is its specification in
  closed form: the configuration request followed by the first
  `StopPoint(eos, n)` entries of the unstopped chunk list `Chunks`.
- **Response handler** (`response_handler.dfy`, the `for response in ...`
  loop of `run`). The flag starts false. A response with a non-zero error
  code logs its message, raises the flag and ends the loop. Any other
  response is dispatched on its speech event type:
  - 0 logs a partial result;
  - 1 logs a speech end and raises the flag, but the loop carries on;
  - 2 logs a final result;
  - 3 and unknown types do nothing.

  Each log happens only when the transcript is non-empty.
  `HandleResponses` is the loop. `Dispatch`, `FirstError`, `Logs` and
  `Handle` are its specification.

A response is reduced to the four values the loop reads: error code, error
message, speech event type, and the transcript of the first alternative of the
first result. A log line is a `LogEntry` value; the logger's timestamp and
level formatting are not modelled.

END_OF_SINGLE_UTTERANCE does not end the response loop. The code only raises
the flag and goes on handling the responses that follow (lines 86-90), and
`HandlingContinues` states this. The code comment "Send audio data per 10ms"
(line 29) contradicts `interval = 40`; the model follows the code.

## Model

| member | source | states |
|---|---|---|
| `Pacer.ChunkSize` | grpc_client.py:16-17 | The chunk size is the number of bytes in 40 ms of 16-bit mono audio, rounded down: `n * 1000 <= sampleRate * 80 < (n + 1) * 1000`. |
| `Pacer.ChunkSizeAt16kHz` | grpc_client.py:16-17 | At 16000 Hz a chunk is 1280 bytes. |
| `Pacer.ChunkSizePositive` | grpc_client.py:17 | The chunk size is positive exactly for sample rates of 13 Hz or more, which is the precondition under which the offset advances. |
| `Pacer.Chunks` | grpc_client.py:18-30 | The slices the offset walk produces when nothing stops it. There are none exactly when the buffer is empty, whatever the size. Each slice has between 1 and `size` bytes. |
| `Pacer.AudioRequests` | grpc_client.py:26-28 | One audio request per slice, in order, each carrying exactly its slice. |
| `Pacer.StopPoint` | grpc_client.py:19 | The number of chunks sent is the first iteration at which the flag reads true, or all of them; the flag read false before every chunk that was sent. |
| `Pacer.PacedRequests` | grpc_client.py:14-30 | The configuration request is the first message, and every later message is an audio request. |
| `Pacer.GenerateMessages` | grpc_client.py:14-34 | The generator loop sends exactly the paced messages. The closing "quit sending audio" notice is logged exactly when the flag was up as the loop ended. |
| `Pacer.EmptyBufferSendsConfigOnly` | grpc_client.py:18-25 | An empty buffer sends the configuration request and no audio, whatever the sample rate and whatever the flag does. |
| `Pacer.ChunksConcat` | grpc_client.py:18-30 | The unstopped slices, joined in order, give back the whole buffer: no gaps and no overlaps. |
| `Pacer.ChunksCount` | grpc_client.py:20-25 | The buffer yields ceil(\|audio\| / size) slices, so an empty buffer yields none. |
| `Pacer.ChunkAt` | grpc_client.py:20-27 | Slice `i` starts inside the buffer and equals the bytes from `i*size` up to `min((i+1)*size, \|audio\|)`. |
| `Pacer.ChunksShape` | grpc_client.py:20-25 | Every slice but the last has exactly `size` bytes. |
| `Pacer.ConcatPrefix` | grpc_client.py:18-30 | The first `k` slices, joined, are the first `min(k*size, \|audio\|)` bytes of the buffer. |
| `Pacer.FullCoverage` | grpc_client.py:18-30 | With the flag never up: one configuration request and then exactly ceil(\|audio\|/size) chunks; every chunk is non-empty and at most `size` bytes, and only the last may be shorter; the audio sent is the buffer exactly. |
| `Pacer.FullCoverageSlices` | grpc_client.py:20-30 | With the flag never up, audio message `i+1` carries the bytes from `i*size` up to `min((i+1)*size, \|audio\|)`. |
| `Pacer.EarlyStopPrefix` | grpc_client.py:19 | Whatever the flag does, the messages sent are a prefix of the unstopped ones, and the audio sent is a prefix of the buffer. A flag up after `k` chunks means at most `k` chunks are sent. |
| `ResponseHandler.RaisesEos` | grpc_client.py:73-90 | A response raises the flag if it is an error (line 74), or an end-of-utterance event whether or not its transcript is logged (line 90). No other type raises it. A logged error or speech end always comes with the flag raised. |
| `ResponseHandler.Dispatch` | grpc_client.py:73-96 | An error logs only its message. Otherwise there is at most one line, logged exactly when the transcript is non-empty and the type is 0, 1 or 2. The line carries the transcript and is a partial result, speech end or final result for type 0, 1 or 2 respectively. |
| `ResponseHandler.FirstError` | grpc_client.py:73-76 | The index of the first response with a non-zero error code, or the length of the stream when there is none. |
| `ResponseHandler.HandledCount` | grpc_client.py:71-76 | The number of responses the loop consumes. Every response before the last one consumed is error-free. Stopping before the end of the stream happens only at an error, which is the last one consumed. |
| `ResponseHandler.Logs` | grpc_client.py:71-96 | The log produced by handling responses in turn has at most one line per response, and every line was written by handling some response. |
| `ResponseHandler.Handle` | grpc_client.py:69-96 | Handling a stream writes at most one line per consumed response. A stream with an error ends with the flag up, and its last line is the first error's message. A stream without errors is handled to its end. |
| `ResponseHandler.HandleResponses` | grpc_client.py:69-96 | The response loop, with the flag reset to false at its start, leaves exactly the log and the final flag that `Handle` specifies. |
| `ResponseHandler.HandleAppend` | grpc_client.py:71-96 | For two streams in a row: an error in the first means the second is never handled; otherwise the second is handled as if alone, and its lines follow those of the first. |
| `ResponseHandler.ErrorEndsSession` | grpc_client.py:73-76 | The first error response logs its message and nothing else, and the flag ends true. Nothing after the error is handled, whatever follows. |
| `ResponseHandler.HandlingContinues` | grpc_client.py:82-96 | A response without an error never ends the loop, an END_OF_SINGLE_UTTERANCE (type 1) included. It adds its own lines, raises the flag only for type 1, and the responses after it are still handled. |
| `ResponseHandler.EosIffRaised` | grpc_client.py:70-90 | The flag ends true exactly when some response is an error or a type 1 event. Types 0, 2, 3 and unknown values never raise it. |
| `ResponseHandler.HandlePrefix` | grpc_client.py:70-96 | Once raised the flag never returns to false, and a longer stream only extends the log. |
| `ResponseHandler.NoErrorHandlesAll` | grpc_client.py:71-96 | A stream with no error is handled to its end, and every response contributes its own lines. |
| `ResponseHandler.ExampleBadAudio` | grpc_client.py:73-76 | An error with code 5 and message "bad audio" logs that message and sets the flag, and the response after it is not handled. |
| `ResponseHandler.ExampleHelloWorld` | grpc_client.py:82-90 | A partial "hello" then an end-of-utterance "hello world" log a partial result and then a speech end, and leave the flag true. |
| `ResponseHandler.ExampleEmptyPartial` | grpc_client.py:82-85 | A partial result with an empty transcript logs nothing and leaves the flag false. |

## Left out

- Channel creation, the 10-second readiness wait and the `exit` on timeout (lines 38-43): these are network I/O in a foreign library.
- Reading the audio file (lines 44-45) and the command-line wiring (lines 97-123): these are I/O and argument parsing. The buffer and the sample rate are parameters.
- Building the protobuf configuration (lines 46-68): the schema is foreign. `StreamingConfig` is carried through unchanged as the first request, and how its fields are filled is not modelled.
- The `time.sleep` pacing (line 31) and the logger's format: these are clock and I/O, with no effect on what is sent or logged.
- The concurrency between the generator, which the RPC library drains on its own thread, and the response loop. The flag readings are an input `eos`, one per iteration. The re-read of the flag after the loop (line 32) is assumed to see the same value as the last check at the top of the loop, since nothing is yielded in between.
- Floating point in `int(sample_rate / 1000 * 2 * interval)` (line 17): `ChunkSize` is the exact integer `sampleRate * 80 / 1000`, rounded down. For sample rates where the float product is not exact, this can differ from the float truncation.
- GenerateMessages: requires a positive chunk size or an empty buffer, so it does not model a chunk size of 0 (sample rates below 13 Hz) with a non-empty buffer. There the source sends empty slices until the flag is raised, and forever if it never is, so the loop has no termination measure. `PacedRequests` and `Chunks` carry the same precondition. With an empty buffer the source breaks at once, and `EmptyBufferSendsConfigOnly` states that for every sample rate.
- Negative sample rates: the parameter is a natural number. In the source a negative chunk size would make Python slice from the end of the buffer.
- Indexing `results[0].alternatives[0]` (lines 83, 87, 92), which raises an exception when a response has no result: a response carries its top transcript directly, so that failure is not modelled.
- The lazy, interleaved nature of the generator: `GenerateMessages` returns the whole message sequence that the generator yields.
