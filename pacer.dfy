/** The outbound side of the streaming recognition client: the request
    generator that sends the session configuration first and then paces the
    audio buffer out in fixed 40 ms slices, stopping early once the
    termination flag has been raised by the response handler.

    The flag is written by the other side of the duplex stream; here it is an
    input: `eos[k]` is the value the generator sees when it resumes after
    having sent `k` audio chunks (a reading past the end of `eos` is false). */
module Pacer {

  newtype byte = b: int | 0 <= b < 256

  /** The streaming configuration the client sends first. Its fields are
      carried through unchanged; how they are filled from the command line is
      not modelled. */
  datatype StreamingConfig = StreamingConfig(
    sampleRate: nat,
    contextWords: seq<string>,
    disableItn: bool,
    continuousDecoding: bool,
    endpointDetection: bool)

  /** An outbound message of the stream: the streaming configuration or one
      slice of audio content. */
  datatype Request = ConfigRequest(config: StreamingConfig) | AudioRequest(audioContent: seq<byte>)

  function Min(a: int, b: int): int { if a <= b then a else b }

  /** Number of audio bytes sent per 40 ms interval: sample rate / 1000
      samples per millisecond, two bytes (16-bit mono) per sample. */
  function ChunkSize(sampleRate: nat): (n: nat)
    ensures n * 1000 <= sampleRate * 80 < n * 1000 + 1000
  {
    sampleRate * 2 * 40 / 1000
  }

  lemma ChunkSizeAt16kHz()
    ensures ChunkSize(16000) == 1280
  {
  }

  lemma ChunkSizePositive(sampleRate: nat)
    ensures ChunkSize(sampleRate) > 0 <==> sampleRate >= 13
  {
  }

  /** The flag reading the generator sees after `k` audio chunks. */
  predicate EosAt(eos: seq<bool>, k: nat) { k < |eos| && eos[k] }

  /** The slices the generator walks through when nothing stops it: from each
      offset, up to `size` bytes or to the end of the buffer. An empty buffer
      has no slices, whatever the size. */
  function Chunks(audio: seq<byte>, size: nat): (r: seq<seq<byte>>)
    requires size > 0 || audio == []
    ensures r == [] <==> audio == []
    ensures forall j :: 0 <= j < |r| ==> 0 < |r[j]| <= size
    decreases |audio|
  {
    if |audio| == 0 then []
    else
      var end := Min(size, |audio|);
      [audio[..end]] + Chunks(audio[end..], size)
  }

  /** Concatenation of a list of slices. */
  function Concat(chunks: seq<seq<byte>>): seq<byte> {
    if chunks == [] then [] else chunks[0] + Concat(chunks[1..])
  }

  /** The audio messages carrying the given slices, in order. */
  function AudioRequests(chunks: seq<seq<byte>>): (r: seq<Request>)
    ensures |r| == |chunks|
    ensures forall j :: 0 <= j < |r| ==> r[j] == AudioRequest(chunks[j])
  {
    if chunks == [] then [] else [AudioRequest(chunks[0])] + AudioRequests(chunks[1..])
  }

  lemma AudioRequestsSnoc(chunks: seq<seq<byte>>, chunk: seq<byte>)
    ensures AudioRequests(chunks + [chunk]) == AudioRequests(chunks) + [AudioRequest(chunk)]
  {
  }

  /** The audio bytes carried by a sequence of messages, in order; the
      configuration message carries none. */
  function SentAudio(requests: seq<Request>): seq<byte> {
    if requests == [] then []
    else
      (match requests[0]
       case ConfigRequest(_) => []
       case AudioRequest(content) => content)
      + SentAudio(requests[1..])
  }

  /** How many of `n` available chunks are sent before the flag stops the
      generator: the first `k` at which the flag reads true, or `n`. */
  function StopPoint(eos: seq<bool>, n: nat): (k: nat)
    ensures k <= n
    ensures forall j :: 0 <= j < k ==> !EosAt(eos, j)
    ensures k < n ==> EosAt(eos, k)
  {
    if n == 0 then 0
    else
      var k := StopPoint(eos, n - 1);
      if k < n - 1 || EosAt(eos, n - 1) then k else n
  }

  /** The configuration request followed by the audio requests of `chunks`. */
  function RequestsFor(config: StreamingConfig, chunks: seq<seq<byte>>): seq<Request> {
    [ConfigRequest(config)] + AudioRequests(chunks)
  }

  /** The message sequence the generator yields. */
  function PacedRequests(config: StreamingConfig, sampleRate: nat, audio: seq<byte>, eos: seq<bool>): (r: seq<Request>)
    requires ChunkSize(sampleRate) > 0 || audio == []
    ensures |r| >= 1 && r[0] == ConfigRequest(config)
    ensures forall j :: 1 <= j < |r| ==> r[j].AudioRequest?
  {
    var chunks := Chunks(audio, ChunkSize(sampleRate));
    RequestsFor(config, chunks[..StopPoint(eos, |chunks|)])
  }

  /** The stop point is the only count meeting its three conditions. */
  lemma {:induction false} StopPointUnique(eos: seq<bool>, n: nat, k: nat)
    requires k <= n
    requires forall j :: 0 <= j < k ==> !EosAt(eos, j)
    requires k < n ==> EosAt(eos, k)
    ensures StopPoint(eos, n) == k
  {
  }

  /** The unstopped chunk list from `offset`: one slice, then the rest. */
  lemma {:induction false} ChunksFrom(audio: seq<byte>, size: nat, offset: nat)
    requires size > 0 && offset < |audio|
    ensures Chunks(audio[offset..], size)
      == [audio[offset..Min(offset + size, |audio|)]] + Chunks(audio[Min(offset + size, |audio|)..], size)
  {
    var rest := audio[offset..];
    assert rest[..Min(size, |rest|)] == audio[offset..Min(offset + size, |audio|)];
    assert rest[Min(size, |rest|)..] == audio[Min(offset + size, |audio|)..];
  }

  /** When the chunks sent so far are followed by the rest of the chunk list
      and the generator stops from flag or exhaustion, it has sent exactly
      the paced messages. */
  lemma {:induction false} GeneratedPrefix(config: StreamingConfig, sampleRate: nat, audio: seq<byte>, eos: seq<bool>,
                                           done: seq<seq<byte>>, rest: seq<seq<byte>>)
    requires ChunkSize(sampleRate) > 0 || audio == []
    requires Chunks(audio, ChunkSize(sampleRate)) == done + rest
    requires StopPoint(eos, |done|) == |done|
    requires rest == [] || EosAt(eos, |done|)
    ensures PacedRequests(config, sampleRate, audio, eos) == RequestsFor(config, done)
  {
    var all := done + rest;
    assert all[..|done|] == done;
    StopPointUnique(eos, |all|, |done|);
  }

  /** One iteration of the generator: the next slice moves from the rest of
      the chunk list to the chunks sent, and its request is appended. */
  lemma {:induction false} SendStep(config: StreamingConfig, audio: seq<byte>, size: nat, offset: nat, done: seq<seq<byte>>)
    requires size > 0 && offset < |audio|
    requires Chunks(audio, size) == done + Chunks(audio[offset..], size)
    ensures Chunks(audio, size)
      == (done + [audio[offset..Min(offset + size, |audio|)]]) + Chunks(audio[Min(offset + size, |audio|)..], size)
    ensures RequestsFor(config, done + [audio[offset..Min(offset + size, |audio|)]])
      == RequestsFor(config, done) + [AudioRequest(audio[offset..Min(offset + size, |audio|)])]
  {
    var chunk := audio[offset..Min(offset + size, |audio|)];
    ChunksFrom(audio, size, offset);
    assert done + ([chunk] + Chunks(audio[Min(offset + size, |audio|)..], size))
      == (done + [chunk]) + Chunks(audio[Min(offset + size, |audio|)..], size);
    AudioRequestsSnoc(done, chunk);
  }

  /** The generator: yields the configuration request, then walks `offset`
      through the buffer, checking the flag at the top of every iteration.
      `quitNotice` is whether the closing "quit sending audio" notice is
      logged, i.e. whether the flag was up when the loop ended. */
  method GenerateMessages(config: StreamingConfig, sampleRate: nat, audio: seq<byte>, eos: seq<bool>)
    returns (requests: seq<Request>, quitNotice: bool)
    requires ChunkSize(sampleRate) > 0 || audio == []
    ensures requests == PacedRequests(config, sampleRate, audio, eos)
    ensures quitNotice == EosAt(eos, |requests| - 1)
  {
    requests := [ConfigRequest(config)];
    var size := ChunkSize(sampleRate);
    var offset := 0;
    var sent := 0;
    ghost var done: seq<seq<byte>> := [];
    assert audio[offset..] == audio;
    assert requests == RequestsFor(config, done);
    while !EosAt(eos, sent)
      invariant 0 <= offset <= |audio|
      invariant sent == |done| && StopPoint(eos, sent) == sent
      invariant Chunks(audio, size) == done + Chunks(audio[offset..], size)
      invariant requests == RequestsFor(config, done)
      decreases |audio| - offset
    {
      var start := offset;
      var end := offset + size;
      if end >= |audio| {
        end := |audio|;
      }
      if start >= |audio| {
        break;
      }
      var chunk := audio[start..end];
      SendStep(config, audio, size, offset, done);
      requests := requests + [AudioRequest(chunk)];
      done := done + [chunk];
      offset := end;
      sent := sent + 1;
    }
    assert offset == |audio| ==> audio[offset..] == [];
    GeneratedPrefix(config, sampleRate, audio, eos, done, Chunks(audio[offset..], size));
    quitNotice := EosAt(eos, sent);
  }

  /** An empty buffer: the first iteration finds the offset at the end and
      breaks, so only the configuration is sent, whatever the sample rate
      and whatever the flag does. */
  lemma EmptyBufferSendsConfigOnly(config: StreamingConfig, sampleRate: nat, eos: seq<bool>)
    ensures PacedRequests(config, sampleRate, [], eos) == [ConfigRequest(config)]
    ensures SentAudio(PacedRequests(config, sampleRate, [], eos)) == []
  {
  }

  /** Reassembling the unstopped chunk list gives back the buffer. */
  lemma {:induction false} ChunksConcat(audio: seq<byte>, size: nat)
    requires size > 0
    ensures Concat(Chunks(audio, size)) == audio
    decreases |audio|
  {
    if |audio| > 0 {
      var end := Min(size, |audio|);
      ChunksConcat(audio[end..], size);
      assert ([audio[..end]] + Chunks(audio[end..], size))[1..] == Chunks(audio[end..], size);
      assert audio[..end] + audio[end..] == audio;
    }
  }

  lemma ProductBetween(t: int, d: int)
    requires d > 0 && -d < t * d < d
    ensures t == 0
  {
  }

  lemma DivUnique(x: int, d: int, q: int)
    requires d > 0 && q * d <= x < (q + 1) * d
    ensures x / d == q
  {
    var r := x / d;
    var m := x % d;
    assert x == r * d + m && 0 <= m < d;
    assert (r - q) * d == r * d - q * d;
    assert (q + 1) * d == q * d + d;
    ProductBetween(r - q, d);
  }

  lemma CeilEmpty(size: nat)
    requires size > 0
    ensures (size - 1) / size == 0
  {
    DivUnique(size - 1, size, 0);
  }

  lemma CeilShort(n: nat, size: nat)
    requires 0 < n <= size
    ensures (n + size - 1) / size == 1
  {
    DivUnique(n + size - 1, size, 1);
  }

  lemma CeilStep(n: nat, size: nat)
    requires 0 < size < n
    ensures (n + size - 1) / size == 1 + (n - 1) / size
  {
    var q := (n - 1) / size;
    var m := (n - 1) % size;
    assert n - 1 == q * size + m && 0 <= m < size;
    assert (q + 1) * size == q * size + size;
    assert (q + 2) * size == q * size + 2 * size;
    DivUnique(n + size - 1, size, q + 1);
  }

  /** The generator sends ceil(|audio| / size) chunks; none for an empty buffer. */
  lemma {:induction false} ChunksCount(audio: seq<byte>, size: nat)
    requires size > 0
    ensures |Chunks(audio, size)| == (|audio| + size - 1) / size
    decreases |audio|
  {
    if |audio| == 0 {
      CeilEmpty(size);
    } else if |audio| <= size {
      assert Chunks(audio[|audio|..], size) == [];
      CeilShort(|audio|, size);
    } else {
      assert Chunks(audio, size) == [audio[..size]] + Chunks(audio[size..], size);
      ChunksCount(audio[size..], size);
      CeilStep(|audio|, size);
    }
  }

  lemma PredMul(i: nat, size: nat)
    requires i > 0
    ensures (i - 1 + 1) * size == i * size && (i - 1) * size + size == i * size
  {
  }

  lemma SliceShift(audio: seq<byte>, d: nat, lo: nat, hi: nat)
    requires d + hi <= |audio| && lo <= hi
    ensures audio[d..][lo..hi] == audio[d + lo .. d + hi]
  {
  }

  /** Chunk `i` is the slice `[i * size, min((i + 1) * size, |audio|))`. */
  lemma {:induction false} ChunkAt(audio: seq<byte>, size: nat, i: nat)
    requires size > 0 && i < |Chunks(audio, size)|
    ensures i * size < |audio|
    ensures Chunks(audio, size)[i] == audio[i * size .. Min((i + 1) * size, |audio|)]
    decreases |audio|
  {
    var end := Min(size, |audio|);
    var tail := audio[end..];
    assert Chunks(audio, size) == [audio[..end]] + Chunks(tail, size);
    if i > 0 {
      ChunkAt(tail, size, i - 1);
      var lo, mid, hi := (i - 1) * size, i * size, (i + 1) * size;
      PredMul(i, size);
      PredMul(i + 1, size);
      assert lo + size == mid && mid + size == hi;
      assert end == size;
      SliceShift(audio, size, lo, Min(mid, |tail|));
    }
  }

  /** Only the last chunk may be shorter than `size`. */
  lemma {:induction false} ChunksShape(audio: seq<byte>, size: nat)
    requires size > 0
    ensures forall i :: 0 <= i < |Chunks(audio, size)| - 1 ==> |Chunks(audio, size)[i]| == size
    decreases |audio|
  {
    if |audio| > 0 {
      var end := Min(size, |audio|);
      ChunksShape(audio[end..], size);
      if |audio| <= size {
        assert Chunks(audio[end..], size) == [];
      }
    }
  }

  lemma PrefixJoin(audio: seq<byte>, size: nat, k: nat)
    requires size > 0 && k > 0
    ensures audio[..Min(size, |audio|)] + audio[Min(size, |audio|)..][..Min((k - 1) * size, |audio| - Min(size, |audio|))]
      == audio[..Min(k * size, |audio|)]
  {
    assert (k - 1) * size + size == k * size;
  }

  lemma {:induction false} ConcatPrefix(audio: seq<byte>, size: nat, k: nat)
    requires size > 0 && k <= |Chunks(audio, size)|
    ensures Concat(Chunks(audio, size)[..k]) == audio[..Min(k * size, |audio|)]
    decreases |audio|
  {
    var chunks := Chunks(audio, size);
    if k > 0 {
      var end := Min(size, |audio|);
      var tail := Chunks(audio[end..], size);
      if |audio| <= size {
        assert tail == [];
      }
      ConcatPrefix(audio[end..], size, k - 1);
      assert chunks[..k][1..] == tail[..k - 1];
      PrefixJoin(audio, size, k);
    }
  }

  lemma {:induction false} SentAudioOfChunks(chunks: seq<seq<byte>>)
    ensures SentAudio(AudioRequests(chunks)) == Concat(chunks)
    decreases |chunks|
  {
    if chunks != [] {
      SentAudioOfChunks(chunks[1..]);
      assert AudioRequests(chunks)[1..] == AudioRequests(chunks[1..]);
    }
  }

  lemma {:induction false} SentAudioAfterConfig(config: StreamingConfig, rest: seq<Request>)
    ensures SentAudio([ConfigRequest(config)] + rest) == SentAudio(rest)
  {
    assert ([ConfigRequest(config)] + rest)[1..] == rest;
  }

  /** With the flag never raised, the generator sends the whole chunk list. */
  lemma {:induction false} Unstopped(config: StreamingConfig, sampleRate: nat, audio: seq<byte>, eos: seq<bool>)
    requires ChunkSize(sampleRate) > 0
    requires forall j :: 0 <= j < |eos| ==> !eos[j]
    ensures PacedRequests(config, sampleRate, audio, eos)
      == [ConfigRequest(config)] + AudioRequests(Chunks(audio, ChunkSize(sampleRate)))
  {
    var chunks := Chunks(audio, ChunkSize(sampleRate));
    StopPointUnique(eos, |chunks|, |chunks|);
    assert chunks[..|chunks|] == chunks;
  }

  /** With the flag never raised, the generator sends exactly
      ceil(|audio| / size) chunks after the configuration, every chunk is
      non-empty and at most `size` bytes, only the last is shorter, and the
      audio sent is the whole buffer. */
  lemma {:induction false} FullCoverage(config: StreamingConfig, sampleRate: nat, audio: seq<byte>, eos: seq<bool>, r: seq<Request>, size: nat)
    requires size == ChunkSize(sampleRate) > 0
    requires forall j :: 0 <= j < |eos| ==> !eos[j]
    requires r == PacedRequests(config, sampleRate, audio, eos)
    ensures |r| == 1 + (|audio| + size - 1) / size
    ensures forall i :: 1 <= i < |r| ==> 0 < |r[i].audioContent| <= size
    ensures forall i :: 1 <= i < |r| - 1 ==> |r[i].audioContent| == size
    ensures SentAudio(r) == audio
  {
    var chunks := Chunks(audio, size);
    Unstopped(config, sampleRate, audio, eos);
    ChunksCount(audio, size);
    ChunksShape(audio, size);
    assert forall i :: 1 <= i < |r| ==> r[i].audioContent == chunks[i - 1];
    ChunksConcat(audio, size);
    SentAudioAfterConfig(config, AudioRequests(chunks));
    SentAudioOfChunks(chunks);
  }

  /** With the flag never raised, audio message `i + 1` carries the slice
      `[i * size, min((i + 1) * size, |audio|))`. */
  lemma {:induction false} FullCoverageSlices(config: StreamingConfig, sampleRate: nat, audio: seq<byte>, eos: seq<bool>, r: seq<Request>, size: nat)
    requires size == ChunkSize(sampleRate) > 0
    requires forall j :: 0 <= j < |eos| ==> !eos[j]
    requires r == PacedRequests(config, sampleRate, audio, eos)
    ensures forall i :: 0 <= i < |r| - 1 ==>
      i * size < |audio| && r[i + 1] == AudioRequest(audio[i * size .. Min((i + 1) * size, |audio|)])
  {
    var chunks := Chunks(audio, size);
    Unstopped(config, sampleRate, audio, eos);
    forall i | 0 <= i < |r| - 1
      ensures i * size < |audio| && r[i + 1] == AudioRequest(audio[i * size .. Min((i + 1) * size, |audio|)])
    {
      ChunkAt(audio, size, i);
    }
  }

  /** Whatever the flag does, the messages sent are a prefix of those sent
      when it is never raised, the audio sent is the first
      `min(k * size, |audio|)` bytes for the number `k` of chunks sent, and a
      flag up after `k` chunks caps the chunks at `k`. */
  lemma {:induction false} EarlyStopPrefix(config: StreamingConfig, sampleRate: nat, audio: seq<byte>, eos: seq<bool>, k: nat)
    requires ChunkSize(sampleRate) > 0
    ensures var r := PacedRequests(config, sampleRate, audio, eos);
      && r <= PacedRequests(config, sampleRate, audio, [])
      && SentAudio(r) == audio[..Min((|r| - 1) * ChunkSize(sampleRate), |audio|)]
      && (EosAt(eos, k) ==> |r| <= k + 1)
  {
    var size := ChunkSize(sampleRate);
    var chunks := Chunks(audio, size);
    var n := StopPoint(eos, |chunks|);
    var r := PacedRequests(config, sampleRate, audio, eos);
    var full := PacedRequests(config, sampleRate, audio, []);
    assert StopPoint([], |chunks|) == |chunks|;
    assert chunks[..|chunks|] == chunks;
    assert |r| == n + 1;
    forall i | 0 <= i < |r| ensures r[i] == full[i] {
      if i > 0 {
        assert r[i] == AudioRequest(chunks[..n][i - 1]);
      }
    }
    SentAudioAfterConfig(config, AudioRequests(chunks[..n]));
    SentAudioOfChunks(chunks[..n]);
    ConcatPrefix(audio, size, n);
  }
}
