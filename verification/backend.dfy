/** One call to the image-generation backend for a prompt that passed
    validation (`server.py` lines 48-106): build the payload, POST it,
    classify the reply, and save the first returned image. The HTTP call,
    the JSON parser, the clock and the file write are not modelled; what
    they answer is a `World` value given to `Generate`; the endpoint
    `http://127.0.0.1:7860/sdapi/v1/txt2img` plays no part in the model. */
module Backend {
  import opened Optional
  import opened Outcomes

  /** The fixed `steps` value of every payload. */
  const Steps := 20

  /** The JSON body of the POST: `{"prompt": ..., "steps": ...}`. */
  datatype Payload = Payload(prompt: string, steps: int)

  /** An exception, with the text `str(e)` gives for it. `NetworkFault` is a
      `requests.exceptions.RequestException`; `OtherFault` is anything else. */
  datatype Fault = NetworkFault(detail: string) | OtherFault(detail: string)

  /** What `response.json()` gives: the `images` field if the body parses to
      an object (`None` when the field is absent), or the exception raised
      while parsing the body or looking the field up. */
  datatype Body = Json(images: Option<seq<string>>) | Malformed(fault: Fault)

  /** What `requests.post` does: raise, or answer with a status and a body. */
  datatype Reply = Raised(fault: Fault) | Answered(status: int, body: Body)

  /** Outcome of opening the image file and writing the decoded image. */
  datatype Store = Stored | StoreFailed(detail: string)

  /** Everything outside the process that one backend call observes: the
      reply, the wall clock in whole milliseconds, and the file write. */
  datatype World = World(reply: Reply, clockMs: int, store: Store)

  /** A file write: the file `ImagePath(clockMs)` and the base64 text
      decoded into it. */
  datatype ImageFile = ImageFile(clockMs: int, base64: string)

  /** The result of one call: its outcome and the write attempted, if any. */
  datatype Attempt = Attempt(outcome: Outcome, written: Option<ImageFile>)

  /** The outcome of an exception caught around the call: a network fault
      is reported as "503", any other as "500", each with the exception's
      text after the fixed message. */
  function Caught(fault: Fault): (o: Outcome)
    ensures Render(o).successCode == if fault.NetworkFault? then "503" else "500"
    ensures Render(o).imagePath
         == (if fault.NetworkFault? then UnavailablePrefix else UnexpectedPrefix) + fault.detail
  {
    match fault
    case NetworkFault(d) => Unavailable(d)
    case OtherFault(d) => Unexpected(d)
  }

  /** The backend answered 200 with at least one image. */
  predicate HasImage(w: World) {
    && w.reply.Answered? && w.reply.status == 200
    && w.reply.body.Json? && w.reply.body.images.Some?
    && 0 < |w.reply.body.images.value|
  }

  /** The backend returned an image and it was written to disk. */
  predicate Succeeds(w: World) {
    HasImage(w) && w.store.Stored?
  }

  /** The `try` block of lines 54-106 for one payload, answered by `w`.
      The checks run in a fixed order: exception from the POST, status,
      body, `images`, file write. */
  function Generate(w: World): (a: Attempt)
    ensures a.outcome.Valid()
    ensures w.reply.Raised? ==> a == Attempt(Caught(w.reply.fault), None)
    ensures w.reply.Answered? && w.reply.status != 200 ==> a == Attempt(HttpError(w.reply.status), None)
    ensures w.reply == Answered(200, Json(None)) || w.reply == Answered(200, Json(Some([])))
        ==> a == Attempt(NoImage, None)
    ensures w.reply.Answered? && w.reply.status == 200 && w.reply.body.Malformed?
        ==> a == Attempt(Caught(w.reply.body.fault), None)
    ensures HasImage(w) && w.store.StoreFailed? ==> a.outcome == Unexpected(w.store.detail)
    ensures a.outcome.Saved? <==> Succeeds(w)
    ensures Succeeds(w) ==> a.outcome == Saved(w.clockMs)
    ensures a.written.Some? <==> HasImage(w)
    ensures HasImage(w) ==>
      a.written == Some(ImageFile(w.clockMs, w.reply.body.images.value[0]))
  {
    match w.reply
    case Raised(fault) => Attempt(Caught(fault), None)
    case Answered(status, body) =>
      if status != 200 then Attempt(HttpError(status), None)
      else
        match body
        case Malformed(fault) => Attempt(Caught(fault), None)
        case Json(images) =>
          if images.None? || |images.value| == 0 then Attempt(NoImage, None)
          else
            var file := Some(ImageFile(w.clockMs, images.value[0]));
            match w.store
            case StoreFailed(d) => Attempt(Unexpected(d), file)
            case Stored => Attempt(Saved(w.clockMs), file)
  }

  /** Only `images[0]` matters: the rest of the list changes nothing. */
  lemma OnlyFirstImageUsed(w: World, rest: seq<string>)
    requires HasImage(w)
    ensures
      var imgs := w.reply.body.images.value;
      var w' := w.(reply := Answered(200, Json(Some([imgs[0]] + rest))));
      Generate(w') == Generate(w)
  {
  }
}
