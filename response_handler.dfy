/** The inbound side of the streaming recognition client: the loop that
    consumes the server's responses, logs transcripts and raises the
    termination flag (`eos_found`) that the request generator polls.

    Each response is reduced to what the loop reads: the error code and
    message, the speech event type and the transcript of the top alternative
    of the first result. A log line is a `LogEntry`; the timestamp and level
    formatting of the logger are not modelled. */
module ResponseHandler {

  /** Speech event type codes. */
  const SpeechEventUnspecified: int := 0
  const EndOfSingleUtterance: int := 1
  const ContinuousDecodingEndOfUtterance: int := 2
  const SteadySpeechDetected: int := 3

  datatype Response = Response(
    errorCode: int,
    errorMessage: string,
    speechEventType: int,
    topTranscript: string)

  /** One log line: an error (logged at error level) or a transcript (info). */
  datatype LogEntry =
    | ErrorFound(message: string)
    | PartialResult(transcript: string)
    | SpeechEnd(transcript: string)
    | FinalResult(transcript: string)

  /** The log lines written while handling one response. */
  function Dispatch(r: Response): (logged: seq<LogEntry>)
    ensures |logged| <= 1
    ensures r.errorCode != 0 ==> logged == [ErrorFound(r.errorMessage)]
    ensures r.errorCode == 0 ==>
      (logged == [] <==> r.topTranscript == "" || r.speechEventType !in {0, 1, 2})
    ensures r.errorCode == 0 && logged != [] ==>
      && !logged[0].ErrorFound?
      && logged[0].transcript == r.topTranscript
      && (logged[0].PartialResult? <==> r.speechEventType == SpeechEventUnspecified)
      && (logged[0].SpeechEnd? <==> r.speechEventType == EndOfSingleUtterance)
      && (logged[0].FinalResult? <==> r.speechEventType == ContinuousDecodingEndOfUtterance)
  {
    if r.errorCode != 0 then [ErrorFound(r.errorMessage)]
    else if |r.topTranscript| == 0 then []
    else if r.speechEventType == SpeechEventUnspecified then [PartialResult(r.topTranscript)]
    else if r.speechEventType == EndOfSingleUtterance then [SpeechEnd(r.topTranscript)]
    else if r.speechEventType == ContinuousDecodingEndOfUtterance then [FinalResult(r.topTranscript)]
    else []
  }

  /** Whether handling this response raises the termination flag: an error
      does, and an end-of-utterance event does whether or not its transcript
      is logged; no other event type does. Every logged error or speech end
      comes with the flag raised, and a raised flag is logged, if at all, as
      an error or a speech end. */
  function RaisesEos(r: Response): (raised: bool)
    ensures r.errorCode != 0 ==> raised
    ensures r.errorCode == 0 ==> (raised <==> r.speechEventType == EndOfSingleUtterance)
    ensures Dispatch(r) != [] && (Dispatch(r)[0].ErrorFound? || Dispatch(r)[0].SpeechEnd?) ==> raised
    ensures raised && Dispatch(r) != [] ==> Dispatch(r)[0].ErrorFound? || Dispatch(r)[0].SpeechEnd?
  {
    r.errorCode != 0 || r.speechEventType == EndOfSingleUtterance
  }

  /** The index of the first response carrying an error, or `|rs|`. */
  function FirstError(rs: seq<Response>): (k: nat)
    ensures k <= |rs|
    ensures forall j :: 0 <= j < k ==> rs[j].errorCode == 0
    ensures k < |rs| ==> rs[k].errorCode != 0
  {
    if rs == [] then 0
    else if rs[0].errorCode != 0 then 0
    else 1 + FirstError(rs[1..])
  }

  /** How many responses the loop handles: up to and including the first
      error, or all of them. */
  function HandledCount(rs: seq<Response>): (n: nat)
    ensures n <= |rs|
    ensures forall j :: 0 <= j < n - 1 ==> rs[j].errorCode == 0
    ensures n < |rs| ==> 0 < n && rs[n - 1].errorCode != 0
  {
    if FirstError(rs) < |rs| then FirstError(rs) + 1 else |rs|
  }

  /** The log lines of a sequence of responses, each handled in turn: at most
      one per response, and each one written by some response. */
  function Logs(rs: seq<Response>): (log: seq<LogEntry>)
    ensures |log| <= |rs|
    ensures forall e :: e in log ==> exists j :: 0 <= j < |rs| && e in Dispatch(rs[j])
  {
    if rs == [] then []
    else
      var init := rs[..|rs| - 1];
      assert forall j :: 0 <= j < |init| ==> init[j] == rs[j];
      Logs(init) + Dispatch(rs[|rs| - 1])
  }

  /** Whether some response of the sequence raises the flag. */
  function AnyRaisesEos(rs: seq<Response>): bool {
    rs != [] && (AnyRaisesEos(rs[..|rs| - 1]) || RaisesEos(rs[|rs| - 1]))
  }

  datatype Outcome = Outcome(log: seq<LogEntry>, eosFound: bool)

  /** What handling a whole response stream leaves behind: the log and the
      final value of the termination flag. */
  function Handle(rs: seq<Response>): (o: Outcome)
    ensures |o.log| <= HandledCount(rs)
    ensures FirstError(rs) < |rs| ==>
      o.eosFound && o.log != [] && o.log[|o.log| - 1] == ErrorFound(rs[FirstError(rs)].errorMessage)
    ensures FirstError(rs) == |rs| ==> o == Outcome(Logs(rs), AnyRaisesEos(rs))
  {
    var handled := rs[..HandledCount(rs)];
    assert rs[..|rs|] == rs;
    Outcome(Logs(handled), AnyRaisesEos(handled))
  }

  /** The response loop of a session: the flag starts false; an error logs its
      message, raises the flag and ends the loop; otherwise the response is
      dispatched on its event type, and an end-of-utterance event raises the
      flag without ending the loop. */
  method HandleResponses(responses: seq<Response>) returns (log: seq<LogEntry>, eosFound: bool)
    ensures log == Handle(responses).log
    ensures eosFound == Handle(responses).eosFound
  {
    eosFound := false;
    log := [];
    var i := 0;
    while i < |responses|
      invariant 0 <= i <= |responses|
      invariant i <= FirstError(responses)
      invariant log == Logs(responses[..i])
      invariant eosFound == AnyRaisesEos(responses[..i])
    {
      var response := responses[i];
      assert responses[..i + 1][..i] == responses[..i];
      if response.errorCode != 0 {
        eosFound := true;
        log := log + [ErrorFound(response.errorMessage)];
        assert HandledCount(responses) == i + 1;
        return;
      }
      var resultText := response.topTranscript;
      if response.speechEventType == SpeechEventUnspecified {
        if |resultText| > 0 {
          log := log + [PartialResult(resultText)];
        }
      } else if response.speechEventType == EndOfSingleUtterance {
        if |resultText| > 0 {
          log := log + [SpeechEnd(resultText)];
        }
        eosFound := true;
      } else if response.speechEventType == ContinuousDecodingEndOfUtterance {
        if |resultText| > 0 {
          log := log + [FinalResult(resultText)];
        }
      } else if response.speechEventType == SteadySpeechDetected {
      }
      i := i + 1;
    }
    assert responses[..|responses|] == responses;
  }

  lemma {:induction false} LogsAppend(p: seq<Response>, q: seq<Response>)
    ensures Logs(p + q) == Logs(p) + Logs(q)
    decreases |q|
  {
    if q == [] {
      assert p + q == p;
    } else {
      var q' := q[..|q| - 1];
      assert (p + q)[..|p + q| - 1] == p + q';
      LogsAppend(p, q');
    }
  }

  lemma {:induction false} AnyRaisesEosAppend(p: seq<Response>, q: seq<Response>)
    ensures AnyRaisesEos(p + q) == (AnyRaisesEos(p) || AnyRaisesEos(q))
    decreases |q|
  {
    if q == [] {
      assert p + q == p;
    } else {
      var q' := q[..|q| - 1];
      assert (p + q)[..|p + q| - 1] == p + q';
      AnyRaisesEosAppend(p, q');
    }
  }

  lemma {:induction false} AnyRaisesEosIff(rs: seq<Response>)
    ensures AnyRaisesEos(rs) <==> exists j :: 0 <= j < |rs| && RaisesEos(rs[j])
    decreases |rs|
  {
    if rs != [] {
      var init := rs[..|rs| - 1];
      AnyRaisesEosIff(init);
      if AnyRaisesEos(init) {
        var j :| 0 <= j < |init| && RaisesEos(init[j]);
        assert rs[j] == init[j];
      }
      forall j | 0 <= j < |init| && RaisesEos(rs[j]) ensures AnyRaisesEos(init) {
        assert init[j] == rs[j];
      }
    }
  }

  lemma {:induction false} FirstErrorUnique(rs: seq<Response>, k: nat)
    requires k <= |rs|
    requires forall j :: 0 <= j < k ==> rs[j].errorCode == 0
    requires k < |rs| ==> rs[k].errorCode != 0
    ensures FirstError(rs) == k
  {
  }

  lemma {:induction false} HandleSnoc(init: seq<Response>, r: Response)
    ensures Logs(init + [r]) == Logs(init) + Dispatch(r)
    ensures AnyRaisesEos(init + [r]) == (AnyRaisesEos(init) || RaisesEos(r))
  {
    assert (init + [r])[..|init|] == init;
  }

  /** Handling two streams one after the other: an error in the first ends
      the session there; otherwise the second is handled as if on its own,
      its log lines following those of the first. */
  lemma {:induction false} HandleAppend(p: seq<Response>, q: seq<Response>)
    ensures FirstError(p) < |p| ==> Handle(p + q) == Handle(p)
    ensures FirstError(p) == |p| ==>
      Handle(p + q) == Outcome(Logs(p) + Handle(q).log, AnyRaisesEos(p) || Handle(q).eosFound)
  {
    var pq := p + q;
    var k := FirstError(p);
    assert forall j :: 0 <= j < |p| ==> pq[j] == p[j];
    if k < |p| {
      FirstErrorUnique(pq, k);
      assert pq[..k + 1] == p[..k + 1];
    } else {
      var m := FirstError(q);
      assert forall j :: |p| <= j < |pq| ==> pq[j] == q[j - |p|];
      FirstErrorUnique(pq, |p| + m);
      var n := HandledCount(q);
      assert pq[..HandledCount(pq)] == p + q[..n];
      assert p[..|p|] == p;
      LogsAppend(p, q[..n]);
      AnyRaisesEosAppend(p, q[..n]);
    }
  }

  /** An error response, reached with no error before it, ends the session:
      its only log line is its message, the flag ends true, and nothing after
      it is handled, whatever follows. */
  lemma {:induction false} ErrorEndsSession(before: seq<Response>, r: Response, after: seq<Response>)
    requires forall j :: 0 <= j < |before| ==> before[j].errorCode == 0
    requires r.errorCode != 0
    ensures Handle(before + [r] + after).log == Logs(before) + [ErrorFound(r.errorMessage)]
    ensures Handle(before + [r] + after).eosFound
  {
    var p := before + [r];
    assert p[|before|] == r;
    assert forall j :: 0 <= j < |before| ==> p[j] == before[j];
    FirstErrorUnique(p, |before|);
    HandleAppend(p, after);
    assert p[..|p|] == p;
    HandleSnoc(before, r);
  }

  /** A response without an error never ends the loop, whatever its event
      type (an end-of-utterance included): it adds its own log lines and the
      responses after it are still handled. */
  lemma {:induction false} HandlingContinues(r: Response, after: seq<Response>)
    requires r.errorCode == 0
    ensures Handle([r] + after).log == Dispatch(r) + Handle(after).log
    ensures Handle([r] + after).eosFound == (RaisesEos(r) || Handle(after).eosFound)
  {
    FirstErrorUnique([r], 1);
    HandleAppend([r], after);
    HandleSnoc([], r);
    assert [] + [r] == [r];
  }

  /** The flag ends true exactly when some response of the stream is an
      error or an end-of-utterance event; it can be raised by nothing else. */
  lemma {:induction false} EosIffRaised(rs: seq<Response>)
    ensures Handle(rs).eosFound <==> exists j :: 0 <= j < |rs| && RaisesEos(rs[j])
  {
    var n := HandledCount(rs);
    AnyRaisesEosIff(rs[..n]);
    if n < |rs| {
      assert RaisesEos(rs[..n][n - 1]);
    } else {
      assert rs[..n] == rs;
    }
  }

  /** Once raised, the flag stays raised and the log only grows: handling a
      longer stream keeps the outcome of its prefix. */
  lemma {:induction false} HandlePrefix(p: seq<Response>, q: seq<Response>)
    ensures Handle(p).eosFound ==> Handle(p + q).eosFound
    ensures Handle(p).log <= Handle(p + q).log
  {
    HandleAppend(p, q);
    assert p[..|p|] == p;
  }

  /** A stream without errors is handled to its end, every response adding
      its own log lines. */
  lemma {:induction false} NoErrorHandlesAll(rs: seq<Response>)
    requires forall j :: 0 <= j < |rs| ==> rs[j].errorCode == 0
    ensures Handle(rs).log == Logs(rs)
  {
    assert rs[..|rs|] == rs;
  }

  /** A response with error code 5 and message "bad audio" is logged and ends
      the session; the response after it is never handled. */
  lemma ExampleBadAudio()
    ensures Handle([Response(5, "bad audio", 0, ""), Response(0, "", 0, "late")])
      == Outcome([ErrorFound("bad audio")], true)
  {
    ErrorEndsSession([], Response(5, "bad audio", 0, ""), [Response(0, "", 0, "late")]);
  }

  /** A partial result "hello" then an end-of-utterance "hello world" log a
      partial result and a speech end, and raise the flag. */
  lemma ExampleHelloWorld()
    ensures Handle([Response(0, "", 0, "hello"), Response(0, "", 1, "hello world")])
      == Outcome([PartialResult("hello"), SpeechEnd("hello world")], true)
  {
    var a, b := Response(0, "", 0, "hello"), Response(0, "", 1, "hello world");
    HandlingContinues(a, [b]);
    HandlingContinues(b, []);
    assert [a, b] == [a] + [b] && [b] == [b] + [];
  }

  /** A partial result with an empty transcript logs nothing and leaves the
      flag down. */
  lemma ExampleEmptyPartial()
    ensures Handle([Response(0, "", 0, "")]) == Outcome([], false)
  {
    HandlingContinues(Response(0, "", 0, ""), []);
    assert [Response(0, "", 0, "")] == [Response(0, "", 0, "")] + [];
  }
}
