/** The request handler `Text2ImgService.GenerateImages` (`server.py`
    lines 21-109): each prompt of a batch is stripped, validated, and, if
    valid, sent to the backend; exactly one response is produced per prompt,
    in input order. */
module Service {
  import opened Optional
  import opened Decimal
  import opened Text
  import opened Messages
  import opened Paths
  import opened Outcomes
  import opened Backend

  const MaxPromptLength := 500

  /** The backend as seen by one batch: the `k`-th request of the batch
      (counting from 0), carrying `payload`, is answered by `env(k, payload)`. */
  type Env = (nat, Payload) -> World

  /** A stripped prompt that passes both checks of lines 33-46. */
  predicate Accepted(prompt: string) {
    prompt != [] && |prompt| <= MaxPromptLength
  }

  /** The outcome for one prompt and the payload sent for it, if any. */
  datatype Step = Step(outcome: Outcome, request: Option<Payload>) {
    /** The step as a batch of one prompt. */
    function Single(): Run {
      Run([outcome], if request.Some? then [request.value] else [])
    }
  }

  /** Outcomes of a batch and the payloads sent to the backend, in order. */
  datatype Run = Run(outcomes: seq<Outcome>, requests: seq<Payload>) {
    function Then(next: Run): Run {
      Run(outcomes + next.outcomes, requests + next.requests)
    }
  }

  /** One iteration of the loop of lines 29-106, as the `call`-th backend
      request of the batch if the prompt is sent at all. */
  function HandlePrompt(raw: string, call: nat, env: Env): (st: Step)
    ensures st.outcome.Valid()
    ensures st.request.Some? <==> Accepted(Strip(raw))
    ensures st.request.None? ==> st.outcome in {EmptyPrompt, PromptTooLong}
    ensures st.request.Some? ==>
      && st.request.value == Payload(Strip(raw), Steps)
      && st.outcome == Generate(env(call, st.request.value)).outcome
  {
    var prompt := Strip(raw);
    if prompt == [] then Step(EmptyPrompt, None)
    else if |prompt| > MaxPromptLength then Step(PromptTooLong, None)
    else
      var payload := Payload(prompt, Steps);
      Step(Generate(env(call, payload)).outcome, Some(payload))
  }

  /** An empty or all-whitespace prompt, of any length, gets the
      empty-prompt error and no backend request. */
  lemma BlankPromptRejected(raw: string, call: nat, env: Env)
    requires AllSpace(raw)
    ensures HandlePrompt(raw, call, env) == Step(EmptyPrompt, None)
    ensures Render(HandlePrompt(raw, call, env).outcome) == ImageResponse("400", EmptyPromptMessage)
  {
    StripEmptyIff(raw);
  }

  /** A prompt whose text between the surrounding whitespace is longer than
      500 characters gets the length error and no backend request. */
  lemma OverlongPromptRejected(front: string, text: string, back: string, call: nat, env: Env)
    requires AllSpace(front) && AllSpace(back) && Tight(text)
    requires |text| > MaxPromptLength
    ensures HandlePrompt(front + text + back, call, env) == Step(PromptTooLong, None)
    ensures Render(HandlePrompt(front + text + back, call, env).outcome) == ImageResponse("400", TooLongMessage)
  {
    StripPadded(front, text, back);
  }

  /** A prompt whose text between the surrounding whitespace has 1 to 500
      characters (500 included) is sent with that text, without the
      whitespace, and `steps = 20`; the backend's answer decides the outcome. */
  lemma PaddedPromptForwarded(front: string, text: string, back: string, call: nat, env: Env)
    requires AllSpace(front) && AllSpace(back) && Tight(text)
    requires 0 < |text| <= MaxPromptLength
    ensures
      var st := HandlePrompt(front + text + back, call, env);
      && st.request == Some(Payload(text, Steps))
      && st.outcome == Generate(env(call, Payload(text, Steps))).outcome
  {
    StripPadded(front, text, back);
  }

  /** A valid prompt whose backend request is answered with a status other
      than 200 gets that status as its code, and the status-code error
      naming it, whatever the body. */
  lemma StatusErrorReported(raw: string, call: nat, env: Env, n: int, b: Body)
    requires Accepted(Strip(raw))
    requires env(call, Payload(Strip(raw), Steps)).reply == Answered(n, b) && n != 200
    ensures Render(HandlePrompt(raw, call, env).outcome)
         == ImageResponse(IntToString(n), StatusPrefix + IntToString(n))
  {
  }

  /** A valid prompt whose backend request is answered 200 with `images`
      absent or empty gets ("500", "Error: No image returned by the model."). */
  lemma NoImageReported(raw: string, call: nat, env: Env)
    requires Accepted(Strip(raw))
    requires
      var reply := env(call, Payload(Strip(raw), Steps)).reply;
      reply == Answered(200, Json(None)) || reply == Answered(200, Json(Some([])))
    ensures Render(HandlePrompt(raw, call, env).outcome) == ImageResponse("500", NoImageMessage)
  {
  }

  /** Code "200" is given exactly when the prompt is valid, the backend
      returned an image, and the image was written; the location is then
      the saved path. */
  lemma SuccessCodeOnlyOnSave(raw: string, call: nat, env: Env)
    ensures
      var w := env(call, Payload(Strip(raw), Steps));
      var r := Render(HandlePrompt(raw, call, env).outcome);
      && ((r.successCode == "200") <==> Accepted(Strip(raw)) && Succeeds(w))
      && (r.successCode == "200" ==> r.imagePath == ImagePath(w.clockMs))
  {
  }

  /** Number of prompts of the batch that pass validation. */
  function CountAccepted(prompts: seq<PromptRequest>): nat {
    if prompts == [] then 0
    else
      var n := |prompts| - 1;
      CountAccepted(prompts[..n]) + if Accepted(Strip(prompts[n].prompt)) then 1 else 0
  }

  /** The payloads of the valid prompts, in order: the stripped text with
      `steps = 20`. */
  function AcceptedPayloads(prompts: seq<PromptRequest>): seq<Payload> {
    if prompts == [] then []
    else
      var n := |prompts| - 1;
      var prompt := Strip(prompts[n].prompt);
      AcceptedPayloads(prompts[..n]) + if Accepted(prompt) then [Payload(prompt, Steps)] else []
  }

  /** The per-prompt step, given the prompt text and the number of backend
      requests already made. */
  type Handler = (string, nat) -> Step

  /** The step `GenerateImages` takes for each prompt against `env`. */
  function Handle(env: Env): Handler {
    (raw: string, call: nat) => HandlePrompt(raw, call, env)
  }

  /** The batch loop for any per-prompt step: the prompts before the last
      one are handled first, then the last one, numbered after the requests
      already made. Every prompt yields exactly one outcome. */
  function Serve(prompts: seq<PromptRequest>, handle: Handler): (run: Run)
    ensures |run.outcomes| == |prompts|
    ensures |run.requests| <= |prompts|
  {
    if prompts == [] then Run([], [])
    else
      var n := |prompts| - 1;
      var before := Serve(prompts[..n], handle);
      before.Then(handle(prompts[n].prompt, |before.requests|).Single())
  }

  /** Outcome `i` belongs to prompt `i`: it is what the step gives for that
      prompt alone, numbered after the requests of the prompts before it. */
  lemma {:induction false} ServeAt(prompts: seq<PromptRequest>, handle: Handler, i: nat)
    requires i < |prompts|
    ensures Serve(prompts, handle).outcomes[i]
         == handle(prompts[i].prompt, |Serve(prompts[..i], handle).requests|).outcome
  {
    var n := |prompts| - 1;
    var init := prompts[..n];
    if i == n {
      assert init == prompts[..i];
    } else {
      ServeAt(init, handle, i);
      assert init[..i] == prompts[..i];
      assert init[i] == prompts[i];
    }
  }

  /** One backend request is made per valid prompt, and none otherwise. */
  lemma {:induction false} SentCount(prompts: seq<PromptRequest>, env: Env)
    ensures |Serve(prompts, Handle(env)).requests| == CountAccepted(prompts)
  {
    if prompts != [] {
      SentCount(prompts[..|prompts| - 1], env);
    }
  }

  /** The payloads sent are exactly those of the valid prompts, stripped,
      in input order: nothing is sent for a rejected prompt. */
  lemma {:induction false} ServeRequests(prompts: seq<PromptRequest>, env: Env)
    ensures Serve(prompts, Handle(env)).requests == AcceptedPayloads(prompts)
  {
    if prompts != [] {
      ServeRequests(prompts[..|prompts| - 1], env);
    }
  }

  /** Outcome `i` of a batch is what prompt `i` alone gives, as the backend
      request numbered by the valid prompts before it. */
  lemma BatchOutcomeAt(prompts: seq<PromptRequest>, env: Env, i: nat)
    requires i < |prompts|
    ensures Serve(prompts, Handle(env)).outcomes[i]
         == HandlePrompt(prompts[i].prompt, CountAccepted(prompts[..i]), env).outcome
  {
    ServeAt(prompts, Handle(env), i);
    SentCount(prompts[..i], env);
  }

  /** A longer prefix of a batch holds at least as many valid prompts. */
  lemma {:induction false} CountAcceptedGrows(prompts: seq<PromptRequest>, i: nat, j: nat)
    requires i <= j <= |prompts|
    ensures CountAccepted(prompts[..i]) <= CountAccepted(prompts[..j])
    decreases j - i
  {
    if i < j {
      CountAcceptedGrows(prompts, i, j - 1);
      assert prompts[..j][..j - 1] == prompts[..j - 1];
    }
  }

  /** A valid prompt takes a request number no later prompt can take. */
  lemma CallNumbersIncrease(prompts: seq<PromptRequest>, i: nat, j: nat)
    requires i < j <= |prompts|
    requires Accepted(Strip(prompts[i].prompt))
    ensures CountAccepted(prompts[..i]) < CountAccepted(prompts[..j])
  {
    CountAcceptedGrows(prompts, i + 1, j);
    assert prompts[..i + 1][..i] == prompts[..i];
    assert prompts[..i + 1][i] == prompts[i];
  }

  /** Code "200" appears at position `i` of a batch exactly when prompt `i`
      is valid and its backend request returned an image that was written. */
  lemma BatchSuccessOnlyOnSave(prompts: seq<PromptRequest>, env: Env, i: nat)
    requires i < |prompts|
    ensures
      var prompt := Strip(prompts[i].prompt);
      var r := Render(Serve(prompts, Handle(env)).outcomes[i]);
      (r.successCode == "200")
        <==> Accepted(prompt) && Succeeds(env(CountAccepted(prompts[..i]), Payload(prompt, Steps)))
  {
    BatchOutcomeAt(prompts, env, i);
    SuccessCodeOnlyOnSave(prompts[i].prompt, CountAccepted(prompts[..i]), env);
  }

  /** The half-second pause after each saved image: every later backend
      request of the batch reads the clock later than the request whose
      image was saved. This holds only while the wall clock does not step
      back, so it is an assumption about the clock, not a consequence of
      the handler. */
  ghost predicate PauseAfterSave(env: Env) {
    forall j: nat, k: nat, p: Payload, q: Payload ::
      j < k && Generate(env(j, p)).outcome.Saved? ==> env(j, p).clockMs < env(k, q).clockMs
  }

  /** If the clock has moved on after each save, which is what the pause
      after a saved image ensures, the images of a batch are saved in
      increasing clock order, so no two of them share a path. */
  lemma DistinctSavePaths(prompts: seq<PromptRequest>, env: Env)
    requires PauseAfterSave(env)
    ensures
      var os := Serve(prompts, Handle(env)).outcomes;
      forall i, j :: 0 <= i < j < |os| && os[i].Saved? && os[j].Saved?
        ==> os[i].clockMs < os[j].clockMs && ImagePath(os[i].clockMs) != ImagePath(os[j].clockMs)
  {
    var os := Serve(prompts, Handle(env)).outcomes;
    forall i, j | 0 <= i < j < |os| && os[i].Saved? && os[j].Saved?
      ensures os[i].clockMs < os[j].clockMs
      ensures ImagePath(os[i].clockMs) != ImagePath(os[j].clockMs)
    {
      SavedAtDistinctCalls(prompts, env, i, j);
      if ImagePath(os[i].clockMs) == ImagePath(os[j].clockMs) {
        ImagePathInjective(os[i].clockMs, os[j].clockMs);
      }
    }
  }

  /** Two saved outcomes of a batch come from two backend requests, the
      earlier prompt's first, and carry those requests' clock readings. */
  lemma SavedAtDistinctCalls(prompts: seq<PromptRequest>, env: Env, i: nat, j: nat)
    requires i < j < |prompts|
    requires
      var os := Serve(prompts, Handle(env)).outcomes;
      os[i].Saved? && os[j].Saved?
    ensures
      var os := Serve(prompts, Handle(env)).outcomes;
      var ci, cj := CountAccepted(prompts[..i]), CountAccepted(prompts[..j]);
      var pi := Payload(Strip(prompts[i].prompt), Steps);
      && ci < cj
      && os[i] == Generate(env(ci, pi)).outcome
      && os[i].clockMs == env(ci, pi).clockMs
      && os[j].clockMs == env(cj, Payload(Strip(prompts[j].prompt), Steps)).clockMs
  {
    var ci, cj := CountAccepted(prompts[..i]), CountAccepted(prompts[..j]);
    BatchOutcomeAt(prompts, env, i);
    BatchOutcomeAt(prompts, env, j);
    SavedMeansSent(prompts[i].prompt, ci, env);
    SavedMeansSent(prompts[j].prompt, cj, env);
    CallNumbersIncrease(prompts, i, j);
  }

  /** A saved outcome comes from a prompt that was sent: the backend's
      answer to it returned an image, and the outcome carries that answer's
      clock reading. */
  lemma SavedMeansSent(raw: string, call: nat, env: Env)
    requires HandlePrompt(raw, call, env).outcome.Saved?
    ensures
      var w := env(call, Payload(Strip(raw), Steps));
      && Accepted(Strip(raw))
      && HandlePrompt(raw, call, env).outcome == Generate(w).outcome
      && Succeeds(w)
      && HandlePrompt(raw, call, env).outcome.clockMs == w.clockMs
  {
  }

  /** The 501-character prompt of `ExampleBatch`. */
  const LongExample := "a dog that " + seq(490, _ => 'x')

  /** A prompt of 501 characters with no surrounding whitespace is
      rejected as too long, whatever request number it would take. */
  lemma LongExampleRejected(call: nat, env: Env)
    ensures HandlePrompt(LongExample, call, env) == Step(PromptTooLong, None)
  {
    var long := LongExample;
    assert |long| == 501 && long[0] == 'a' && long[500] == 'x';
    StripPadded([], long, []);
    assert [] + long + [] == long;
  }

  /** A batch of a short prompt, an empty prompt and a 501-character prompt:
      one backend request, for the first prompt only, and the two errors. */
  lemma ExampleBatch(env: Env)
    ensures
      var run := Serve([PromptRequest("a cat"), PromptRequest(""), PromptRequest(LongExample)], Handle(env));
      && run.requests == [Payload("a cat", 20)]
      && run.outcomes == [Generate(env(0, Payload("a cat", 20))).outcome, EmptyPrompt, PromptTooLong]
  {
    var h := Handle(env);
    var batch := [PromptRequest("a cat"), PromptRequest(""), PromptRequest(LongExample)];
    var payload := Payload("a cat", 20);
    var s1 := Step(Generate(env(0, payload)).outcome, Some(payload));
    assert h("a cat", 0) == s1 by {
      StripPadded([], "a cat", []);
      assert [] + "a cat" + [] == "a cat";
    }
    var r1 := Serve(batch[..1], h);
    assert batch[..1][..0] == [];
    assert r1 == Run([], []).Then(s1.Single());
    assert h("", 1) == Step(EmptyPrompt, None);
    var r2 := Serve(batch[..2], h);
    assert batch[..2][..1] == batch[..1];
    assert r2 == r1.Then(Step(EmptyPrompt, None).Single());
    LongExampleRejected(1, env);
    assert batch[..2] == batch[..|batch| - 1];
    assert Serve(batch, h) == r2.Then(Step(PromptTooLong, None).Single());
  }

  /** Handling one more prompt of a batch appends that prompt's step,
      numbered after the requests already made. */
  lemma ServeNext(prompts: seq<PromptRequest>, i: nat, env: Env)
    requires i < |prompts|
    ensures
      var before := Serve(prompts[..i], Handle(env));
      Serve(prompts[..i + 1], Handle(env))
        == before.Then(HandlePrompt(prompts[i].prompt, |before.requests|, env).Single())
  {
    assert prompts[..i + 1][..i] == prompts[..i];
  }

  /** `responses` and `requests` are what the batch loop gives for
      `prompts` against `env`: one rendered outcome per prompt, in order,
      and the payloads sent. */
  predicate Answers(prompts: seq<PromptRequest>, env: Env, responses: seq<ImageResponse>, requests: seq<Payload>) {
    var run := Serve(prompts, Handle(env));
    requests == run.requests && RendersAll(responses, run.outcomes)
  }

  /** `GenerateImages`: the loop of lines 29-106 over the batch, numbering
      each backend request by the payloads sent so far. Returns the
      responses and the payloads sent. */
  method GenerateImages(request: seq<PromptRequest>, env: Env)
    returns (responses: seq<ImageResponse>, requests: seq<Payload>)
    ensures |responses| == |request|
    ensures Answers(request, env, responses, requests)
  {
    ghost var outcomes: seq<Outcome> := [];
    responses, requests := [], [];
    for i := 0 to |request|
      invariant Run(outcomes, requests) == Serve(request[..i], Handle(env))
      invariant RendersAll(responses, outcomes)
    {
      ServeNext(request, i, env);
      var st := HandlePrompt(request[i].prompt, |requests|, env);
      if st.request.Some? {
        requests := requests + [st.request.value];
      }
      RendersAllSnoc(responses, outcomes, st.outcome);
      outcomes := outcomes + [st.outcome];
      responses := responses + [Render(st.outcome)];
    }
    assert request[..|request|] == request;
    assert Run(outcomes, requests) == Serve(request, Handle(env));
  }
}
