# Text-To-Image request handler

A model of `Text2ImgService.GenerateImages`, the gRPC handler of the
Text-To-Image server. It receives a batch of prompts and answers one
`ImageResponse` per prompt, in input order. For each prompt it:

- strips the prompt of surrounding whitespace;
- rejects it with code "400" if nothing is left or more than 500 characters are left;
- otherwise posts `{"prompt": <stripped>, "steps": 20}` to the image backend;
- classifies the reply as an HTTP error, "no image", a network fault or another fault;
- on success saves `images[0]` under `./generated_images/<milliseconds>.png` and answers code "200" with that path.

The model is split into modules that follow this structure:

- `Text`: Python's `str.strip()` and the `str.isspace()` character set.
- `Decimal`: Python's `str(int)`, with a decimal parser used only to prove that the text can be read back.
- `Paths`: `os.path.join` (POSIX) and the saved image's path.
- `Messages`: the protocol messages `PromptRequest` and `ImageResponse`.
- `Outcomes`: the seven ways a prompt can end. `Render` gives the response for each, and `Decode` reads the outcome back from the response text.
- `Backend`: one backend call for a valid prompt.
- `Service`: the per-prompt step, the batch loop and the handler method.

Everything outside the process is a parameter, not a computation:

- the backend reply (status and body, or the exception raised);
- the clock reading;
- whether the image file was written.

A batch sees the backend as `Env = (nat, Payload) -> World`: the `k`-th request of the batch, with its payload, is answered by `env(k, payload)`. The payloads a batch sends are recorded, so "no backend request" is a statement about that record.

## Model

| member | source | states |
|---|---|---|
| Text.IsSpace | Text-To-Image-main/server.py:30 | The whitespace that `strip()` removes: exactly the 29 code points Python's `str.isspace()` accepts. These are the tab-to-carriage-return and file-to-unit separator controls, NEL, the Unicode space separators, and the line and paragraph separators. |
| Text.Strip | Text-To-Image-main/server.py:30 | `str.strip()`. Its contract is stated by `Text.StripMeetsSpec` and `Text.StripUnique`: the result is the one slice of the prompt with only whitespace around it and no whitespace at either end. |
| Text.StripMeetsSpec | Text-To-Image-main/server.py:30 | The stripped prompt is a slice of the raw prompt; only whitespace lies before and after it, and it neither starts nor ends with whitespace. |
| Text.StripUnique | Text-To-Image-main/server.py:30 | At most one string meets that description, so it fully determines what `strip()` returns. |
| Text.StripLeftSpec | Text-To-Image-main/server.py:30 | Left stripping removes a whitespace prefix and stops at the first non-whitespace character. |
| Text.StripRightSpec | Text-To-Image-main/server.py:30 | Right stripping removes a whitespace suffix and stops at the last non-whitespace character. |
| Text.EmptyStripMeansAllSpace | Text-To-Image-main/server.py:30-33 | A strip result is empty exactly when the whole prompt is whitespace. |
| Text.StripEmptyIff | Text-To-Image-main/server.py:30-33 | `strip()` gives the empty string if and only if every character of the prompt is whitespace. |
| Text.StripPadded | Text-To-Image-main/server.py:30 | Whitespace around a text that neither starts nor ends with whitespace is removed, and the text itself is kept unchanged. |
| Text.StripIdempotent | Text-To-Image-main/server.py:30 | Stripping an already stripped prompt changes nothing. |
| Decimal.DigitChar | Text-To-Image-main/server.py:61 | A digit value below 10 maps to the decimal digit character of that value. |
| Decimal.NatToString | Text-To-Image-main/server.py:61 | `str` of a natural number is a non-empty digit string with no leading zero, except "0" itself. |
| Decimal.IntToString | Text-To-Image-main/server.py:61 | `str` of an integer is non-empty; it starts with '-' exactly for negative numbers and otherwise with a digit. |
| Decimal.NatRoundTrip | Text-To-Image-main/server.py:61 | The digits of `str(n)` read back as `n`. |
| Decimal.IntRoundTrip | Text-To-Image-main/server.py:61-62 | Parsing `str(i)` gives back `i`, negative numbers included. |
| Decimal.IntToStringInjective | Text-To-Image-main/server.py:61 | Two integers with the same decimal text are equal, so the status code text identifies the status. |
| Paths.JoinPath | Text-To-Image-main/server.py:80 | The joined path always ends with the file name. |
| Paths.ImagePath | Text-To-Image-main/server.py:79-80 | The path an image is saved under, `os.path.join(SAVE_DIR, f"{ms}.png")`. Its contract is stated by `Paths.ImagePathShape` and `Paths.ImagePathInjective`. |
| Paths.ImagePathShape | Text-To-Image-main/server.py:79-80 | A saved image's path is `./generated_images/`, then the millisecond timestamp in decimal, then `.png`. |
| Paths.ImagePathInjective | Text-To-Image-main/server.py:79-80 | Different timestamps give different paths, so two saves at different milliseconds never share a file. |
| Outcomes.Render | Text-To-Image-main/server.py:33-106 | Code "200" is given exactly for a saved image, and then the text is that image's path. Every other outcome's text begins with "Error: ", and a saved path never does. |
| Outcomes.RenderDecode | Text-To-Image-main/server.py:33-106 | Reading a response text back gives the outcome it was produced from, so no two outcomes share a response. |
| Outcomes.DecodeHttpError | Text-To-Image-main/server.py:59-63 | The status-code error text reads back as that status, whatever its sign or number of digits. |
| Outcomes.DecodeUnavailable | Text-To-Image-main/server.py:95-99 | The network-fault text reads back with the exception detail unchanged. |
| Outcomes.DecodeUnexpected | Text-To-Image-main/server.py:102-106 | The other-fault text reads back with the exception detail unchanged. |
| Outcomes.DecodeSaved | Text-To-Image-main/server.py:79-90 | A saved image's path reads back as the timestamp it was named after. |
| Outcomes.RenderInjective | Text-To-Image-main/server.py:33-106 | Two outcomes with the same response are the same outcome. |
| Backend.Generate | Text-To-Image-main/server.py:54-106 | Each fault, status and body case has a fixed outcome. An exception from the POST is caught as 503 or 500 by its kind, and no file is written. A status other than 200 gives that status's error, whatever the body. A 200 whose body fails to parse is caught by the parse exception's kind, and no file is written. A 200 with `images` absent or empty gives "no image". A failed decode or write of the first image gives the unexpected-error outcome with the exception's text. An image is saved exactly when a 200 reply carries at least one image and the write succeeds; the saved outcome carries the clock reading. The only file written is `images[0]`, under the clock's name. |
| Backend.Caught | Text-To-Image-main/server.py:95-106 | A `RequestException` is answered "503" with "Error: Model server unavailable. " and the exception's text. Any other exception is answered "500" with "Error: Unexpected server error. " and its text. |
| Backend.OnlyFirstImageUsed | Text-To-Image-main/server.py:78-84 | Images after the first in the reply change nothing. |
| Service.Accepted | Text-To-Image-main/server.py:33-46 | A stripped prompt passes validation when it is non-empty and at most 500 characters long. `Service.HandlePrompt` states that a request is sent exactly for such prompts. `Service.BlankPromptRejected`, `Service.OverlongPromptRejected` and `Service.PaddedPromptForwarded` state each side of the boundaries. |
| Service.HandlePrompt | Text-To-Image-main/server.py:29-106 | A request is sent exactly when the stripped prompt is non-empty and at most 500 characters. A rejected prompt ends with one of the two validation errors. A sent request carries the stripped prompt with `steps = 20`, and the backend's answer to it decides the outcome. |
| Service.BlankPromptRejected | Text-To-Image-main/server.py:30-38 | An empty or all-whitespace prompt of any length gets ("400", "Error: Prompt cannot be empty.") and sends nothing. |
| Service.OverlongPromptRejected | Text-To-Image-main/server.py:30-46 | A prompt of more than 500 characters after stripping, with any whitespace around it, gets the length error with code "400" and sends nothing. |
| Service.PaddedPromptForwarded | Text-To-Image-main/server.py:30-56 | A prompt of 1 to 500 characters after stripping is sent with the whitespace removed and `steps = 20`, and it is judged by the backend's answer. Exactly 500 characters is accepted. |
| Service.StatusErrorReported | Text-To-Image-main/server.py:54-64 | A valid prompt whose backend request is answered with a status `n` other than 200 gets exactly (`str(n)`, "Error: Failed to generate image. Status code " followed by `str(n)`), whatever the body. |
| Service.NoImageReported | Text-To-Image-main/server.py:66-75 | A valid prompt whose backend request is answered 200 with `images` absent or empty gets exactly ("500", "Error: No image returned by the model."). |
| Service.SuccessCodeOnlyOnSave | Text-To-Image-main/server.py:59-90 | Code "200" is answered exactly when the prompt is valid, the backend returned an image and the image was written. The text is then the saved path. |
| Service.Serve | Text-To-Image-main/server.py:22-109 | A batch gives exactly one outcome per prompt and at most one request per prompt. |
| Service.ServeAt | Text-To-Image-main/server.py:29-109 | Prompts are handled independently and in order. Outcome `i` of a batch is what prompt `i` gives on its own, numbered after the requests of the prompts before it. |
| Service.SentCount | Text-To-Image-main/server.py:33-56 | A batch makes exactly as many backend requests as it has valid prompts. |
| Service.ServeRequests | Text-To-Image-main/server.py:30-56 | The payloads sent are exactly the stripped valid prompts with `steps = 20`, in input order; nothing is sent for a rejected prompt. |
| Service.BatchOutcomeAt | Text-To-Image-main/server.py:29-106 | Response `i` belongs to prompt `i`: it is what that prompt alone gives as the request numbered by the valid prompts before it. |
| Service.CountAcceptedGrows | Text-To-Image-main/server.py:29-46 | A longer prefix of a batch never holds fewer valid prompts. |
| Service.CallNumbersIncrease | Text-To-Image-main/server.py:29-56 | A valid prompt's request comes strictly before the request of any later prompt. |
| Service.BatchSuccessOnlyOnSave | Text-To-Image-main/server.py:29-90 | Within a batch, response `i` has code "200" exactly when prompt `i` is valid and its own backend request returned an image that was written. |
| Service.SavedMeansSent | Text-To-Image-main/server.py:48-90 | A saved outcome comes only from a valid prompt that was sent, and whose backend answer returned an image that was written. The outcome carries that answer's clock reading. |
| Service.SavedAtDistinctCalls | Text-To-Image-main/server.py:79-92 | Two saved images of one batch come from two backend requests, the earlier prompt's request first, and carry those requests' clock readings. |
| Service.DistinctSavePaths | Text-To-Image-main/server.py:79-92 | Assume every request made after a saved image reads the clock later than that save did. The pause at line 92 provides this as long as the wall clock does not step back. Then the images of a batch are saved in increasing clock order, and no two of them share a path. |
| Service.ServeNext | Text-To-Image-main/server.py:29-106 | Handling one more prompt appends exactly that prompt's outcome and, if it was sent, its payload, numbered after the requests already made. |
| Service.LongExampleRejected | Text-To-Image-main/server.py:41-46 | A 501-character prompt with no surrounding whitespace is rejected as too long, and nothing is sent for it. |
| Service.ExampleBatch | Text-To-Image-main/server.py:29-56 | The batch ["a cat", "", a 501-character prompt] sends one request, `{"prompt": "a cat", "steps": 20}`, and ends with the backend's outcome, then the empty-prompt error, then the length error. |
| Service.GenerateImages | Text-To-Image-main/server.py:21-109 | The handler answers one response per prompt, and response `i` is the rendering of prompt `i`'s outcome in the batch. The requests it sends are the batch's requests, one per valid prompt, in order. |

## Left out

- The gRPC server `serve()` (lines 113-132) is process wiring: the thread pool, port binding and the start-up message.
- Creating the save directory (lines 25-26) is left out. Whether the directory exists decides whether `open` at line 83 succeeds, and so whether a prompt gets "200" or "500". That effect is folded into the `Store` parameter. If creating the directory fails, the exception escapes the handler.
- The half-second pause after a save (line 92) is not modelled as time. Its effect, that later requests read the clock later than a save did, is the hypothesis `Service.PauseAfterSave` of `Service.DistinctSavePaths`. That hypothesis also assumes the wall clock never steps back.
- The HTTP call itself, its URL and its timeout (line 56) are replaced by the `Env` parameter.
- Base64 decoding and the file write (lines 83-84) are replaced by a `Store` value: written, or failed with the exception text. A failure there is caught as an unexpected error with code "500".
- The clock is given in whole milliseconds. The float product `time.time() * 1000` and its truncation are not modelled, nor are negative readings; `IntToString` still covers negative integers.
- Only `images` lists of strings are modelled. A JSON body that is not an object, or an `images` value that is a non-empty non-list, is not.
- Exception texts are free strings. What `str(e)` prints for each exception class is not modelled.
- `Body.Malformed` covers a 200 reply whose body fails to parse. Under `requests` 2.27 and later, `response.json()` then raises `JSONDecodeError`, which is a `RequestException` and so gives code "503". Older versions raise a plain `ValueError`, which gives "500". The model lets the fault carry either kind.
- Lone surrogate code points cannot occur in a Dafny `char`, so prompts holding them are not modelled.
- `Service.SuccessCodeOnlyOnSave`, `Service.BatchSuccessOnlyOnSave`, `Service.SavedMeansSent` and `Backend.OnlyFirstImageUsed` follow directly from the contracts of `Render`, `HandlePrompt`, `BatchOutcomeAt` and `Generate`. They restate those contracts as the promises the handler makes.
