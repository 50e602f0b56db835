/** The ways one prompt can end, and the `ImageResponse` each one is
    reported as (`server.py` lines 33-106). Every branch of the handler
    appends exactly one response; `Render` gives its code and text, and
    `Decode` reads the outcome back from the text. */
module Outcomes {
  import opened Optional
  import opened Decimal
  import opened Messages
  import opened Paths

  /** The messages are assembled from short pieces only to keep proofs
      about their characters cheap; each equals the text the handler emits. */
  const ErrorTag := "Error: "
  const EmptyPromptMessage := ErrorTag + "Prompt cannot be empty."
  const TooLongMessage := ErrorTag + "Prompt exceeds " + "maximum allowed length (500 characters)."
  const StatusPrefix := ErrorTag + "Failed to generate image. Status code "
  const NoImageMessage := ErrorTag + "No image returned by the model."
  const UnavailablePrefix := ErrorTag + "Model server unavailable. "
  const UnexpectedPrefix := ErrorTag + "Unexpected server error. "

  datatype Outcome =
    | EmptyPrompt                      // nothing left after stripping
    | PromptTooLong                    // more than 500 characters left
    | HttpError(status: int)           // the backend answered a status other than 200
    | NoImage                          // 200, but `images` absent or empty
    | Unavailable(detail: string)      // a `RequestException` was raised
    | Unexpected(detail: string)       // any other exception was raised
    | Saved(clockMs: int)              // the image was written at `ImagePath(clockMs)`
  {
    /** `HttpError` is only reached for a status other than 200. */
    predicate Valid() {
      !(HttpError? && status == 200)
    }
  }

  /** The response appended for an outcome. */
  function Render(o: Outcome): (r: ImageResponse)
    ensures o.Valid() ==> (r.successCode == "200" <==> o.Saved?)
    ensures o.Saved? ==> r.imagePath == ImagePath(o.clockMs)
    ensures !o.Saved? <==> ErrorTag <= r.imagePath
  {
    match o
    case EmptyPrompt => ImageResponse("400", EmptyPromptMessage)
    case PromptTooLong => ImageResponse("400", TooLongMessage)
    case HttpError(status) =>
      var code := IntToString(status);
      assert o.Valid() ==> code != "200" by {
        if o.Valid() && code == "200" {
          assert IntToString(200) == "200";
          IntToStringInjective(status, 200);
        }
      }
      ImageResponse(code, StatusPrefix + code)
    case NoImage => ImageResponse("500", NoImageMessage)
    case Unavailable(d) => ImageResponse("503", UnavailablePrefix + d)
    case Unexpected(d) => ImageResponse("500", UnexpectedPrefix + d)
    case Saved(ms) =>
      var path := ImagePath(ms);
      ImagePathShape(ms);
      assert path[0] == path[..|SaveDir| + 1][0] == '.';
      ImageResponse("200", path)
  }

  /** `responses` answers `outcomes` one for one, in order. */
  predicate RendersAll(responses: seq<ImageResponse>, outcomes: seq<Outcome>) {
    && |responses| == |outcomes|
    && forall k :: 0 <= k < |outcomes| ==> responses[k] == Render(outcomes[k])
  }

  /** Rendering one more outcome extends the answer by its response. */
  lemma RendersAllSnoc(responses: seq<ImageResponse>, outcomes: seq<Outcome>, o: Outcome)
    requires RendersAll(responses, outcomes)
    ensures RendersAll(responses + [Render(o)], outcomes + [o])
  {
  }

  /** Reads the outcome back from a response's text. */
  function Decode(r: ImageResponse): Option<Outcome> {
    var loc := r.imagePath;
    if loc == EmptyPromptMessage then Some(EmptyPrompt)
    else if loc == TooLongMessage then Some(PromptTooLong)
    else if loc == NoImageMessage then Some(NoImage)
    else if StatusPrefix <= loc then
      match ParseInt(loc[|StatusPrefix|..])
      case Some(n) => Some(HttpError(n))
      case None => None
    else if UnavailablePrefix <= loc then Some(Unavailable(loc[|UnavailablePrefix|..]))
    else if UnexpectedPrefix <= loc then Some(Unexpected(loc[|UnexpectedPrefix|..]))
    else if SaveDir + "/" <= loc && |SaveDir| + 1 <= |loc| - 4 && loc[|loc| - 4..] == ".png" then
      match ParseInt(loc[|SaveDir| + 1..|loc| - 4])
      case Some(ms) => Some(Saved(ms))
      case None => None
    else None
  }

  /** A string whose character `k` differs from that of `p` does not start
      with `p`. */
  lemma NotPrefixAt(p: string, s: string, k: nat)
    requires k < |p| && k < |s| && p[k] != s[k]
    ensures !(p <= s)
  {
  }

  /** Every response names its outcome unambiguously: the text alone tells
      which branch produced it, with its status, exception text or clock. */
  lemma RenderDecode(o: Outcome)
    ensures Decode(Render(o)) == Some(o)
  {
    match o
    case EmptyPrompt =>
    case PromptTooLong =>
    case NoImage =>
    case HttpError(n) => DecodeHttpError(n);
    case Unavailable(d) => DecodeUnavailable(d);
    case Unexpected(d) => DecodeUnexpected(d);
    case Saved(ms) => DecodeSaved(ms);
  }

  lemma DecodeHttpError(n: int)
    ensures Decode(Render(HttpError(n))) == Some(HttpError(n))
  {
    var loc := Render(HttpError(n)).imagePath;
    assert loc == StatusPrefix + IntToString(n);
    assert loc[7] == 'F';
    assert loc != EmptyPromptMessage && loc != TooLongMessage && loc != NoImageMessage;
    assert loc[|StatusPrefix|..] == IntToString(n);
    IntRoundTrip(n);
  }

  lemma DecodeUnavailable(d: string)
    ensures Decode(Render(Unavailable(d))) == Some(Unavailable(d))
  {
    var loc := Render(Unavailable(d)).imagePath;
    assert loc == UnavailablePrefix + d;
    assert loc[7] == 'M';
    assert loc != EmptyPromptMessage && loc != TooLongMessage && loc != NoImageMessage;
    NotPrefixAt(StatusPrefix, loc, 7);
    assert loc[|UnavailablePrefix|..] == d;
  }

  lemma DecodeUnexpected(d: string)
    ensures Decode(Render(Unexpected(d))) == Some(Unexpected(d))
  {
    var loc := Render(Unexpected(d)).imagePath;
    assert loc == UnexpectedPrefix + d;
    assert loc[7] == 'U';
    assert loc != EmptyPromptMessage && loc != TooLongMessage && loc != NoImageMessage;
    NotPrefixAt(StatusPrefix, loc, 7);
    NotPrefixAt(UnavailablePrefix, loc, 7);
    assert loc[|UnexpectedPrefix|..] == d;
  }

  lemma DecodeSaved(ms: int)
    ensures Decode(Render(Saved(ms))) == Some(Saved(ms))
  {
    var loc := Render(Saved(ms)).imagePath;
    ImagePathShape(ms);
    assert loc[0] == '.';
    assert loc != EmptyPromptMessage && loc != TooLongMessage && loc != NoImageMessage;
    NotPrefixAt(StatusPrefix, loc, 0);
    NotPrefixAt(UnavailablePrefix, loc, 0);
    NotPrefixAt(UnexpectedPrefix, loc, 0);
    assert loc[|SaveDir| + 1..|loc| - 4] == IntToString(ms);
    IntRoundTrip(ms);
  }

  /** Different outcomes are reported differently. */
  lemma RenderInjective(o1: Outcome, o2: Outcome)
    requires Render(o1) == Render(o2)
    ensures o1 == o2
  {
    RenderDecode(o1);
    RenderDecode(o2);
  }
}
