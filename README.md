# PDF invoice to JSON: a Dafny model of the extraction pipeline

The Streamlit app in `PDFtoExcel_Invoice/streamlit_app.py` runs a short text
pipeline. It joins the text of a PDF invoice's pages. It puts that text into a
fixed Spanish prompt for a chat model. It cuts a JSON object out of the model's
reply with the regular expression `\{[\s\S]*\}` and parses it with `json.loads`.
Every failure gives `None`.

This project models that pipeline in Dafny and proves what each step does:

- `wrappers.dfy`: the `Option` datatype (`None` is Python's `None`).
- `read_pdf.dfy` (module `PdfReader`): the page loop of `read_pdf`, written as
  a method with a loop. It is proved against `Concat`, the in-order
  concatenation of the page texts.
- `extract_json.dfy` (module `JsonExtract`): `extract_json_from_text`, written
  as the greedy regex behaves. The result runs from the first `{` to the last
  `}`. The lemmas characterise it as the leftmost-longest match of the pattern.
Python's engine is backtracking and leftmost-first. For this pattern that is
the same thing, because the greedy `[\s\S]*` is followed by a single `\}`.
- `strip.dfy` (module `PyStrip`): `str.strip()` over Python's `str.isspace()`
  character set.
- `prompt.dfy` (module `Prompt`): the f-string prompt as a template with one
  hole. The template's prefix and suffix are the exact text of the source.
  `Fill` puts text into the hole and `ContentOf` reads it back.
- `pipeline.dfy` (module `Pipeline`): the control flow of
  `generate_json_from_pdf`. The chat completion is a parameter
  `complete: string -> Option<string>`. `json.loads` is a parameter
  `parse: string -> Option<J>`. `HandleReply` is everything after the call.

The regex is greedy. A brace-depth scan would stop at the end of the first
balanced object, but the code does not scan that way. The model follows the
code as written, and every failure gives `None` rather than a distinct error
kind. `JsonExtract.GreedyExample` shows what this means on one input: trailing
prose that contains braces is swallowed into the candidate.

## Model

| member | source | states |
|---|---|---|
| `PdfReader.ReadPdf` | PDFtoExcel_Invoice/streamlit_app.py:31-34 | the loop's text is the concatenation of all page texts in order (the empty string for no pages) |
| `PdfReader.ConcatAppend` | PDFtoExcel_Invoice/streamlit_app.py:33 | `text += page` on the pages so far gives the concatenation of the pages so far plus that page |
| `PdfReader.ConcatSplit` | PDFtoExcel_Invoice/streamlit_app.py:31-34 | page k sits between the text of the pages before it and the text of the pages after it: order is kept and no separator is added |
| `PdfReader.ConcatLength` | PDFtoExcel_Invoice/streamlit_app.py:31-34 | the joined text is exactly as long as all pages together |
| `JsonExtract.ExtractJson` | PDFtoExcel_Invoice/streamlit_app.py:36-40 | a returned string is at least two characters long, opens with `{` and closes with `}` |
| `JsonExtract.HasBracePairIff` | PDFtoExcel_Invoice/streamlit_app.py:37 | the pattern matches somewhere exactly when there are positions i < j with `{` at i and `}` at j |
| `JsonExtract.ExtractNoneIff` | PDFtoExcel_Invoice/streamlit_app.py:37-40 | `None` is returned exactly when the pattern matches nowhere, that is when no `}` comes after a `{` |
| `JsonExtract.ExtractIsSlice` | PDFtoExcel_Invoice/streamlit_app.py:37-39 | the result is a contiguous piece of the text with no `{` before it (it starts at the first `{`) and no `}` after it (it ends at the last `}`) |
| `JsonExtract.ExtractIsLeftmostLongest` | PDFtoExcel_Invoice/streamlit_app.py:37 | a result is the match of `\{[\s\S]*\}` that starts furthest left and, among those, ends furthest right |
| `JsonExtract.LeftmostLongestIsExtracted` | PDFtoExcel_Invoice/streamlit_app.py:37-39 | conversely, the leftmost-longest match of the pattern, whenever there is one, is what is returned |
| `JsonExtract.ExtractWhole` | PDFtoExcel_Invoice/streamlit_app.py:37-39 | a text that opens with `{` and closes with `}` is returned whole |
| `JsonExtract.ExtractIdempotent` | PDFtoExcel_Invoice/streamlit_app.py:37-39 | extracting again from a returned string gives that same string |
| `JsonExtract.ExtractIgnoresBraceFreeContext` | PDFtoExcel_Invoice/streamlit_app.py:37 | adding text without `{` in front of the input, or text without `}` behind it, does not change the result |
| `JsonExtract.GreedyExample` | PDFtoExcel_Invoice/streamlit_app.py:37 | on `ok {"a":1} see {x}.` the result is `{"a":1} see {x}`: trailing braces are swallowed, not cut at the first balanced object |
| `JsonExtract.MultiLineExample` | PDFtoExcel_Invoice/streamlit_app.py:37 | `[\s\S]` matches line breaks: an object inside a fenced, multi-line reply is returned with its line breaks |
| `PyStrip.Strip` | PDFtoExcel_Invoice/streamlit_app.py:70 | the stripped reply neither starts nor ends with a whitespace character |
| `PyStrip.StripRemovesOnlySpace` | PDFtoExcel_Invoice/streamlit_app.py:70 | the reply is whitespace, then the stripped reply, then whitespace |
| `PyStrip.StripIsUnique` | PDFtoExcel_Invoice/streamlit_app.py:70 | any split into whitespace, a middle that does not start or end with whitespace, and whitespace has `Strip` give that middle |
| `Prompt.Fill` | PDFtoExcel_Invoice/streamlit_app.py:43-58 | a filled template is its prefix, then the content verbatim, then its suffix, and its length is the sum of the three |
| `Prompt.ContentOfFill` | PDFtoExcel_Invoice/streamlit_app.py:43-58 | the content can be read back from the filled template |
| `Prompt.FillOfContentOf` | PDFtoExcel_Invoice/streamlit_app.py:43-58 | every string that starts with the prefix and ends with the suffix is the template filled with the text between them |
| `Prompt.BuildPrompt` | PDFtoExcel_Invoice/streamlit_app.py:43-58 | the prompt holds the PDF text verbatim between the fixed prefix and suffix of the invoice prompt |
| `Pipeline.StripKeepsExtraction` | PDFtoExcel_Invoice/streamlit_app.py:70-73 | stripping the reply never changes the extracted candidate, because braces are not whitespace |
| `Pipeline.HandleReply` | PDFtoExcel_Invoice/streamlit_app.py:70-88 | a failed completion gives `None`; a reply without a candidate gives `None`; otherwise the result is the parse of the reply's candidate, so a failed parse gives `None` |
| `Pipeline.GenerateJsonFromPdf` | PDFtoExcel_Invoice/streamlit_app.py:42-88 | for the reply to the prompt built from the PDF text: a failed call gives `None`; a reply without a candidate gives `None`; otherwise the result is the parse of that reply's candidate |
| `Pipeline.NoCandidateNoParse` | PDFtoExcel_Invoice/streamlit_app.py:73-76 | when the reply has no `}` after a `{`, the result is `None` whatever the parser does |
| `Pipeline.ParsesOnlyTheCandidate` | PDFtoExcel_Invoice/streamlit_app.py:73-84 | two parsers that agree on the extracted candidate give the same result: nothing else is parsed |
| `Pipeline.ResultComesFromReplySlice` | PDFtoExcel_Invoice/streamlit_app.py:73-80 | a non-`None` result is the parse of a slice of the reply running from its first `{` to its last `}` |

## Left out

- The OpenAI client and chat-completion call (streamlit_app.py:27, 61-68) are network I/O. They are the parameter `complete`. `None` stands for any exception raised by the call or by reading `choices[0].message.content`. It also stands for a reply whose `content` is `None`: then `.strip()` at line 70 raises `AttributeError`, and the outer handler returns `None`. The model name, temperature and system message are not modelled.
- `pypdf.PdfReader` and `page.extract_text()` (streamlit_app.py:30, 33) are a foreign library. The pages are given as a sequence of page texts, so an unreadable PDF is not modelled.
- `json.loads` (streamlit_app.py:79) is not written out. It is the parameter `parse`, where `None` stands for `JSONDecodeError`. Any other exception from it is caught by the outer handler and also gives `None`.
- `PyStrip.IsSpace`: lists the characters for which `str.isspace()` holds in current Python releases. A different Unicode database could differ. Only `{` and `}` being non-space matters to the pipeline.
- Logging, including `StreamlitHandler` (streamlit_app.py:13-24, 71, 75, 82-83, 86-87), is a side-effect sink and is left out.
- The Streamlit page, CSS, tool grid, upload and buttons, and footer (streamlit_app.py:92-230) are UI and are left out. The file never calls `generate_json_from_pdf`. It calls `read_pdf` at line 214 and then shows a hard-coded stub result. The stray `]` at line 196 makes the file invalid Python.
- No spreadsheet export exists in this file, so none is modelled.
- `PDFtoExcel_Invoice V1.0/app/gpt_query.py` and `read_PDF.py` are an earlier version. They are not part of this model.
