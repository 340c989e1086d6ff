# Image recognition front end: the detected-objects extractor

The repository is a single-page Streamlit tool. It sends an image and an optional
question to an object-detection webhook and lists the objects the webhook reports.
The only piece with logic worth stating is `extract_detected_objects`, which turns
the webhook's decoded JSON response into the list of detected objects. This project
models that function and proves how it behaves on every input.

The extractor's steps, as modelled:

- The response must be a non-empty JSON array; only element 0 is read.
- Element 0 must be an object. Its `output` field (the empty string when missing) must be a string.
- The regular expression ```` ```json\n(.*?)\n``` ```` with DOTALL looks for a fenced block in that string.
  If one is found, only its body is decoded. Otherwise the whole string is decoded.
- The decoded value must be an object. Its `detected_objects` field is returned as is, or `[]` when the field is missing.

Each exception the Python code can raise becomes an explicit branch. Those caught by
the outer `except Exception` give `[]` and set a `reported` flag, which stands for the
`st.error` call. The one caught by the inner bare `except` (whole-string decoding) gives
`[]` without the flag.

Modules:

- `Wrappers` holds `Option`.
- `Json` holds the JSON value datatype (null, bool, number, string, array, object as a map) and `dict.get`.
- `Fence` holds the regular-expression search. `FindCloser` and `SearchFrom` scan the way the
  regex engine does. Their contracts tie them to `LeftmostShortest`, a declarative statement
  of what the match is: the leftmost start, then the shortest body.
- `Extractor` holds `ExtractDetectedObjects` and the lemmas about it.

`json.loads` is not implemented. The extractor takes it as a parameter
`parse: string -> Option<Json>`, where `None` means decoding raised. Every lemma
holds for every such decoder.

## Model

| member | source | states |
|---|---|---|
| `Fence.FindCloser` | Image_Recognise.py:108 | the lazy `(.*?)` stops at the first closer (newline + three backticks) at or after the body's start; no closer means no match from that start |
| `Fence.SearchFrom` | Image_Recognise.py:108 | `re.search` scanning start positions from `from` onward: the result is a match with the shortest body for its start, and no earlier start matches at all; `None` means no start matches |
| `Fence.FenceMatch` | Image_Recognise.py:108 | the match found is the leftmost-start, shortest-body one; there is none exactly when no opener is followed by a closer |
| `Fence.FindFence` | Image_Recognise.py:108-110 | `group(1)` exists exactly when some opener is followed by a closer |
| `Fence.CaptureHasNoCloser` | Image_Recognise.py:108 | a captured body never contains newline + three backticks |
| `Fence.MatchStartsAtFirstOpener` | Image_Recognise.py:108 | when the first opener is followed by a closer, the match starts at that first opener, not at a later one |
| `Fence.FenceRoundTrip` | Image_Recognise.py:108-110 | for any text before the fence with no opener, any body without a closer (newlines allowed) and any text after, the captured body is exactly the body |
| `Fence.VariantTagFindsNoFence` | Image_Recognise.py:108 | an opener spelled with an upper-case tag, a space before the newline or a carriage return before it matches nothing |
| `Extractor.ExtractDetectedObjects` | Image_Recognise.py:101-123 | never fails; a reported diagnostic always comes with `[]`; any other result is the `detected_objects` field of some decoded object, from a response whose element 0 is an object |
| `Extractor.MalformedResponseYieldsEmpty` | Image_Recognise.py:103-105 | a non-list or empty list gives `[]` silently; a non-object element 0 or a non-string `output` gives `[]` with a diagnostic |
| `Extractor.OnlyFirstElementExamined` | Image_Recognise.py:104-105 | two non-empty lists with the same element 0 give the same result |
| `Extractor.MissingOutputReadsAsEmpty` | Image_Recognise.py:105 | a missing `output` behaves exactly as `output == ""`, which holds no fence |
| `Extractor.FencedPath` | Image_Recognise.py:109-112 | with a fence found: a body that does not decode, or decodes to a non-object, gives `[]` with a diagnostic; an object gives its `detected_objects` unchanged, or `[]` when absent |
| `Extractor.FencedIgnoresWholeText` | Image_Recognise.py:109-112 | with a fence found the result depends only on how the body decodes, never on how the whole output would decode |
| `Extractor.UnfencedPath` | Image_Recognise.py:113-119 | with no fence the whole output is decoded; failure or a non-object gives `[]` without a diagnostic; an object gives its `detected_objects` unchanged, or `[]` when absent |
| `Extractor.FencedOutputRoundTrip` | Image_Recognise.py:104-112 | an `output` that wraps a decodable body in a fence yields that body's `detected_objects`, whatever surrounds the fence and whatever follows element 0 |
| `Extractor.VariantTagTakesWholeTextPath` | Image_Recognise.py:108-119 | an output opened by a variant tag is decoded whole: its result is that of decoding the entire string |

## Left out

- The Streamlit page (`st.set_page_config`, the CSS, `display_detected_objects`, `main`): presentation only.
- `call_n8n_api`: a single HTTP POST with a 30-second timeout. Network I/O is outside the model.
- `encode_image_to_base64`: Pillow mode conversion, compositing on white and JPEG encoding are foreign library calls. Base64 is the standard library's.
- `json.loads` itself: it is a parameter of the extractor, so no JSON grammar is modelled. JSON numbers are one `real` case; Python's split into `int` and `float` plays no part in the extractor.
- The text of the `st.error` diagnostic: only the fact that it is shown is modelled.
- The extractor's result is whatever value `detected_objects` holds, not a checked list of objects with `name` and `confidence`. The code does not check the shape either.
- A wrong-typed `output` is not read as the empty string. The code calls `re.search` on it, which raises `TypeError`; the handler then gives `[]` with a diagnostic, and the model follows the code.
