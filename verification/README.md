# Invoice extraction: reply clean-up, MIME inference and the response envelope

The repository sends an invoice image to a multimodal model and turns the
model's free-form reply into JSON. It has two entry points. `local.py` reads
the image from a path typed at a prompt. `OCR.py` is a serverless handler
that takes a base64 image from a request body and answers with a
`{statusCode, headers, body}` envelope. Almost everything else is glue around
the model client. This project models the three pieces of real logic in that
glue:

- **Reply clean-up** (module `Reply`, shared by both entry points). The reply
  is stripped of surrounding whitespace. If it then starts with "```json", the
  regular expression `^```json\n|```$` is replaced by "". A reply that still
  does not decode becomes a `ValueError` whose message carries the cleaned
  text. The substitution is modelled as `re.sub`'s own left-to-right scan
  (`Reply.SubFrom`), with Python's `$`, which matches at the end and also just
  before a final newline. On any text that does not end in a newline, which
  every stripped text is, it is proved equal to a closed form: "drop a leading
  ```json\n, then one trailing ```".
- **MIME inference from a path** (modules `PathLib` and `Local`). `PathLib`
  models POSIX `pathlib`: the anchor, the kept components (empty and "." are
  dropped), `name`, `suffix` and `str(Path)`. The lower-cased suffix is looked
  up in a four-entry table, with "image/jpeg" as the default. The filesystem
  is a set of existing paths in their `str(Path)` form, plus a read function.
- **The serverless decision table** (module `Ocr`). The outcome depends on the
  event's `body` key, whether the body decodes, whether the result is an
  object, the truthiness of `image_data`, whether `mime_type` is present, and
  how `process_invoice` ends. Python's exception classes are modelled with
  their base classes (`PyExc`), so routing by `except` clause is exact. A
  `ValueError` from an unparseable reply is not a `JSONDecodeError`, so it
  becomes a 500.

The external calls are parameters of the model, not code in it. These are
`json.loads` (a value or the decoder's message), `base64.b64decode`, the
model's `generate_content` (an image part in, text or a failure message out),
and reading a file's bytes. Python's `str.strip`, `str.lower` and truthiness
are modelled in `PyStr` and `JsonValue`.

Three behaviours of the code a reader might not expect:

- A reply laid out as ```json, newline, `{"a":1}`, newline, ``` cleans to
  `{"a":1}` followed by a newline, not to `{"a":1}` exactly. The `$`
  alternative removes only the backticks (`Reply.CleanReplyWrappedOnLines`).
- A request body that is valid JSON but not an object (`[]`, `null`, `"x"`)
  gives a 500, not a 400, because `body.get` raises `AttributeError`
  (`Ocr.HandleNonObjectBody`).
- The 400 for an event with no `body` key says "Request body must contain an
  'image_data' field." The `KeyError` comes from `event['body']`, not from
  the image field (`Ocr.HandleMissingBody`).

## Model

| member | source | states |
|---|---|---|
| PyStr.Strip | local.py:148 | the stripped text has no whitespace at either end and is no longer than the input |
| PyStr.StripIsStripOf | local.py:148 | `strip()` removes only a whitespace prefix and a whitespace suffix: the result is a trimmed slice of the input with only whitespace around it |
| PyStr.StripPadded | local.py:148 | whitespace added around a trimmed text is exactly what `strip()` removes |
| PyStr.StripKeepsFirst | local.py:148 | a text that starts with a visible character keeps that character in front |
| PyStr.StripUnique | local.py:148 | any trimmed slice with only whitespace around it is exactly what `strip()` returns, so the characterisation determines the result |
| PyStr.StripIdempotent | local.py:148 | stripping a stripped text changes nothing |
| Reply.RegexSubNoFinalNewline | local.py:150 | on a text that does not end in a newline, the scan of `^```json\n\|```$` deletes exactly a leading "```json\n" and one trailing "```", and the two matches can never overlap |
| Reply.SubFromTail | local.py:150 | after the start of the text, the scan deletes only a "```" that ends the text and copies everything else |
| Reply.CleanReply | local.py:147-150 | an unfenced reply becomes the stripped reply; a reply starting with "```json" becomes the stripped reply without the "```json\n" prefix and without one "```" suffix |
| Reply.CleanReplyWrapped | local.py:149-150 | "```json\n" + j + "```" cleans to exactly j, for every j |
| Reply.CleanReplyWrappedOnLines | OCR.py:95-96 | "```json\n" + j + "\n```" cleans to j followed by a newline: the newline before the closing fence is kept |
| Reply.CleanReplyKeepsLooseOpening | local.py:149-150 | when "```json" is not followed directly by a newline (a space, "\r\n", the content), the opening fence stays and only a trailing "```" goes |
| Reply.CleanReplyUnfencedIdempotent | local.py:148-149 | a reply that does not start with "```json" after stripping cleans to the stripped reply, and cleaning that again changes nothing |
| Reply.CleanReplyPlain | OCR.py:94-95 | already-stripped, unfenced text is returned unchanged |
| Reply.CleanReplyPlainStart | OCR.py:94-96 | a reply whose first character is visible and not a backtick is only stripped |
| Reply.CleanReplyPadded | OCR.py:94 | whitespace around a reply does not change the cleaned text |
| Reply.CleanReplyTrimmedFenced | OCR.py:95-96 | a trimmed reply that starts with "```json" loses exactly the two fences |
| Reply.CleanReplyNotIdempotent | local.py:148-150 | cleaning is not idempotent on fenced text: a second pass strips the newline the first pass kept |
| Reply.CleanReplyExampleFenced | OCR.py:93-96 | the fenced `{"a":1}` on its own lines cleans to `{"a":1}` plus a newline |
| Reply.CleanReplyLooseFence | local.py:149-150 | "```json" followed by anything but a newline (the content itself, a space, "\r\n") keeps its opening fence; only the closing "```" is removed |
| Reply.ParseFailureMessage | local.py:156 | the parse-failure message starts with "Failed to parse Gemini response." and ends with "\nResponse:\n" and the cleaned reply, with " Error: " and the decoder's detail right after the prefix |
| Reply.ParseReply | local.py:152-156 | the result decodes the cleaned reply; a decode failure becomes a `ValueError` carrying the decoder's detail and the cleaned text, not the raw reply |
| Reply.ParseReplyShowsReply | OCR.py:98-102 | an unparseable plain reply appears verbatim at the end of the `ValueError` message |
| PyExc.CatchClauses | OCR.py:127-144 | `except json.JSONDecodeError` catches only `JSONDecodeError`, not a plain `ValueError`; `except KeyError` catches only `KeyError`; `except Exception` catches every class raised here |
| PathLib.Suffix | local.py:66 | the suffix is empty or a dot followed by dot-free text, ends the final component, and is shorter than it |
| PathLib.SuffixExists | local.py:66 | a suffix exists exactly when the final component has a dot after its first character and does not end with a dot |
| PathLib.SuffixOfName | local.py:66 | a final component "stem.ext" with a non-empty stem and a dot-free ext has suffix ".ext" |
| PathLib.HiddenNameHasNoSuffix | local.py:66 | a final component whose only dot is its first character has no suffix |
| PathLib.TrailingSepIgnored | local.py:61-62 | a trailing "/" changes neither the components, the name, nor the string form of a path |
| PathLib.PlainName | local.py:63 | a relative name without "/" (other than "" and ".") is its own name and its own string form |
| PathLib.JoinSplit | local.py:61 | splitting a path on "/" and joining the pieces gives the path back |
| PathLib.PathStr | local.py:63 | the string form of a path is never empty; a path with no components prints as its anchor or "." |
| Local.MimeForExtension | local.py:67-74 | the result is one of three MIME types; "image/png" exactly for ".png", "image/webp" exactly for ".webp", "image/jpeg" for every other extension, "" included |
| Local.MimeFor | local.py:66-74 | the MIME type of any path is one of "image/jpeg", "image/png" and "image/webp" |
| Local.MimeForUpperCase | local.py:66 | a file named "stem.PNG" is a PNG image: the lookup is on the lower-cased suffix |
| Local.MimeForJpeg | local.py:67-69 | ".jpg" and ".jpeg", in any letter case, give "image/jpeg" |
| Local.MimeForHiddenFile | local.py:66-74 | a file named ".png" has no suffix and is taken for "image/jpeg" |
| Local.MimeForTrailingSlash | local.py:61-74 | "stem.PNG/" names the file "stem.PNG" and is a PNG image |
| Local.ImageFormat | local.py:59-82 | `FileNotFoundError` is raised exactly when the path does not exist, with "Could not find image: " and the normalised path; on success the image part carries the inferred MIME type and the bytes read |
| Local.ImageFormatMissingReadsNothing | local.py:61-63 | a missing path fails whatever the file contents would be: nothing is read |
| Local.GeminiOutput | local.py:84-92 | never raises: a missing file gives "Error processing image: Could not find image: <path>", any failure gives text starting "Error processing image: ", success gives the model's text |
| Local.ProcessInvoice | local.py:95-156 | prints the path and the raw reply; the only exception that escapes is the `ValueError` of a failed parse, whose message ends with the cleaned reply |
| Local.ProcessInvoiceIgnoresOutputFile | local.py:95 | the output file name never changes what `process_invoice` prints or returns |
| Local.ProcessInvoiceMissingFile | local.py:86-92 | with a missing file, the error text itself is what gets parsed, and a failed parse shows it |
| Local.OutputFileChoice | local.py:174-180 | an output file is chosen exactly when the stripped answer is "y" or "Y"; a blank name becomes "invoice_data.txt", otherwise the stripped name is used |
| Local.Main | local.py:166-184 | a missing path prints "Error: Image file not found at <path>" and stops; otherwise the output file is chosen, `process_invoice` runs on the stripped path, its three lines are printed first, and a successful run prints nothing more |
| Local.MainReportsFailure | local.py:183-186 | an exception from `process_invoice` is printed as "Error processing invoice: " and its message, after the three lines it printed |
| Local.MainMissingPathCallsNothing | local.py:169-171 | with a missing path the outcome does not depend on the model or the parser: neither is called |
| Ocr.B64Decode | OCR.py:30 | image data that is not a string is refused; a string is handed to the decoder |
| Ocr.GeminiOutput | OCR.py:35-43 | a decode or model failure is re-raised as `Exception` with "Error processing image with Gemini: " and the cause; success is the model's text for the image part built from the given MIME object |
| Ocr.ProcessInvoice | OCR.py:91-102 | what escapes is an `Exception` from the model call or a `ValueError` from the parse, never a `JSONDecodeError` or `KeyError` |
| Ocr.LoadsBody | OCR.py:109 | `JSONDecodeError` exactly for a body string that does not decode; a non-string body raises `TypeError` with Python's message; a decodable string gives the decoded value |
| Ocr.Catch | OCR.py:127-144 | `JSONDecodeError` gives 400 "Invalid JSON in request body.", `KeyError` gives 400 with the 'image_data' message, any other class, a plain `ValueError` included, gives 500 "Internal server error: " and the message |
| Ocr.Handle | OCR.py:104-144 | every response has headers {Content-Type: application/json} and a status of 200, 400 or 500 |
| Ocr.HandleClassification | OCR.py:106-126 | `process_invoice` runs exactly when the body decodes to an object with truthy image data; the status is 400 exactly for a missing body key, an undecodable body string, or falsy image data; it is 200 exactly when `process_invoice` returns |
| Ocr.HandleMissingBody | OCR.py:133-138 | an event without "body" gives 400 "Request body must contain an 'image_data' field." and no call |
| Ocr.HandleInvalidJson | OCR.py:127-132 | a body string that is not JSON gives 400 "Invalid JSON in request body." and no call |
| Ocr.HandleNonStringBody | OCR.py:109 | a body that is not a string gives 500 with the `TypeError` message of `json.loads` |
| Ocr.HandleNonObjectBody | OCR.py:110 | a body that decodes to a non-object gives 500 with "'<type>' object has no attribute 'get'" and no call |
| Ocr.HandleNoImageData | OCR.py:113-118 | falsy image data (absent, null, "", 0, false, empty list or object) gives 400 "No image_data provided in the request body.", and the decoder and the model are never consulted |
| Ocr.HandleReached | OCR.py:120-126 | once reached, `process_invoice`'s result is the 200 body, and its exception gives a 500 with "Internal server error: " and the message |
| Ocr.HandleMimeType | OCR.py:110-111 | the image data is passed on as sent; the MIME type is "image/jpeg" only when the key is absent, and otherwise is passed on as sent, null included |
| Ocr.HandleSuccess | OCR.py:120-126 | when decoding, the model call with the request's MIME object and the parse of the cleaned reply all succeed, the response is 200 with the parsed reply |
| Ocr.HandleUnparseableReply | OCR.py:98-102 | an unparseable cleaned reply gives 500 "Internal server error: Failed to parse Gemini response. ..." carrying the cleaned reply, never 400 |
| Ocr.HandleUpstreamFailure | OCR.py:37-43 | a failed decode or model call gives 500 "Internal server error: Error processing image with Gemini: " and the cause |

## Left out

- The model client: `genai.configure`, `GenerativeModel`, `generate_content` and `list_models`. The call is a parameter that maps an image part to text or a failure message. At the start of `main`, `list_available_models()` queries the model service through `list_models` outside any `try`; it can raise before the path prompt, and it runs even when the path is missing. `Local.Main` models `main` from the path prompt on, assuming the listing returned.
- The two prompt strings sent with the image. They are fixed text and do not affect any decision. The model parameter sees only the image part.
- `MODEL_CONFIG` and the safety-settings table (static configuration with a float temperature). The module-level model construction in `OCR.py` is also left out: it uses names that file never defines.
- Loading `.env` and the API key.
- The internals of `json.loads`, `json.dumps` and `base64.b64decode`. Decoding is a parameter. A response body is the JSON value that `json.dumps` would serialise.
- Ocr.LoadsBody, Reply.ParseReply: the decoder parameter fails only with a message, which the model raises as `JSONDecodeError`. `json.loads` can also raise other exceptions on a string, for example `RecursionError` on very deeply nested brackets, or a plain `ValueError` on an integer literal longer than the interpreter's digit limit (Python 3.11 and later). Those are not modelled. A request body like that would reach `except Exception` and give a 500, and a model reply like that would escape `process_invoice` without the "Failed to parse Gemini response." wrapper. The "exactly" in the `Ocr.LoadsBody`, `Ocr.HandleClassification` and `Local.ProcessInvoice` rows is about decode failures the decoder reports as `JSONDecodeError`.
- JSON numbers are integers only. Floats, and the falsiness of `0.0`, are not modelled. Objects are maps, so key order is not modelled. A repeated key keeps its last value, as in a Python dict.
- `str.lower()` is modelled on ASCII letters only. No other character lowercases to a letter of the four table keys or to "y", so the table lookup and the save prompt decide the same way.
- `Path.exists()` raising instead of answering (for example `PermissionError` on an unreadable directory). The file changing between the existence check and the read is also left out.
- The suffix rule is the one used before Python 3.14: a dot that is the last character of the name gives no suffix.
- Interactive `input()` and `print`. The typed lines are a `Console` value. Only the lines `main` and the local `process_invoice` print are recorded, as a sequence of strings.
- The Lambda `context` argument, which the handler never reads.
