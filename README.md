# Cover letter generator: the generate handler in Dafny

This project models the one piece of logic the cover letter generator owns:
the `POST /api/generate` request handler of its Node.js server. The handler
takes the applicant's form fields (name, job role, company, optional skills)
and an optional uploaded resume. It proceeds in this order:

1. It refuses any upload whose declared media type is not exactly
   `application/pdf`.
2. It runs the PDF parser and cleans the text the parser returns: runs of
   line feeds become one space, the ends are trimmed, and the text is cut to
   3000 characters.
3. It assembles a prompt from a base sentence, an optional skills clause, an
   optional quoted resume clause and a fixed list of requirements.
4. It sends the prompt to the language model and answers 200 with the
   model's text, or 400/500 with an error message.

Modules, one per component:

- `Wrappers`: `Option` and `Result`.
- `JsStrings`: the ECMAScript string built-ins the handler calls
  (`replace(/\n+/g, ' ')`, `trim()`, `substring(0, n)`), with the whitespace
  table of the ECMAScript grammar.
- `ResumeText`: the cleanup of the extracted text and its bounds.
- `Prompt`: the prompt's clauses, their order, and a decoder that reads a
  prompt back into its parts. The decoder is the prompt's inverse: the
  clauses present and the quoted text can be read back from the prompt.
- `GenerateHandler`: the handler as a method with the source's local
  variables and early returns. It returns the response and the list of
  foreign calls it made.

The PDF parser and the model are foreign code. Each one becomes an input to
the handler:

- `parsed` is what `pdf(buffer)` yields: the text, or the message of the
  error it throws.
- `generate` maps a prompt to the model's text, or to a failure when
  `generateContent`, `response` or `text()` throws.

Because the handler also returns its list of foreign calls, "the parser and
the model are not consulted" can be stated and proved.

The form's text fields are optional strings. A template substitution
`${field}` renders an absent field as the word `undefined`, as JavaScript
does; the handler does not validate the fields. `if (skills)` holds when
`skills` is present and non-empty.

## Model

| member | source | states |
|---|---|---|
| `JsStrings.CollapseNewlines` | server.js:64 | `replace(/\n+/g, ' ')` leaves no line feed, never lengthens the text, is empty only for empty input, and leaves text without line feeds unchanged |
| `JsStrings.CollapseRun` | server.js:64 | a maximal run of one or more line feeds becomes exactly one space |
| `JsStrings.CollapseAppend` | server.js:64 | collapsing works piecewise on any split that does not cut a run of line feeds, so each run is replaced independently of the rest |
| `JsStrings.CollapseBlank` | server.js:64 | collapsing keeps a text blank (all whitespace) exactly when it was blank |
| `JsStrings.TrimStart` | server.js:64 | drops a whitespace prefix, and what remains is empty or starts with non-whitespace |
| `JsStrings.TrimEnd` | server.js:64 | drops a whitespace suffix, and what remains is empty or ends with non-whitespace |
| `JsStrings.TrimIsCore` | server.js:64 | `trim()` is the slice of the input between its longest whitespace prefix and suffix, and a non-empty result starts and ends with non-whitespace |
| `JsStrings.TrimEmptyIffBlank` | server.js:57 | `trim()` returns "" exactly when the text is all whitespace |
| `JsStrings.TrimIdempotent` | server.js:64 | trimming a trimmed text changes nothing |
| `JsStrings.Substring` | server.js:64 | `substring(0, n)` is a prefix of length min(length, n) |
| `ResumeText.Normalise` | server.js:64 | the cleaned resume text has no line feed, has at most 3000 characters, is a prefix of trim(collapse(raw)), equals all of it when that fits in 3000 characters and has exactly 3000 characters otherwise, and does not start with whitespace |
| `ResumeText.NormaliseEmptyIffBlank` | server.js:64-81 | the cleaned text is "", so the prompt gets no resume clause, exactly when the extracted text is all whitespace |
| `ResumeText.BlankWarningIffNoResumeText` | server.js:57-81 | the "parsed PDF text is empty" warning condition holds exactly when the cleaned text is "": blank text is a warning that drops the resume clause, not an error |
| `ResumeText.NormaliseFixedPoint` | server.js:64 | cleanup leaves a text unchanged exactly when it has at most 3000 characters, no line feed and no whitespace at either end |
| `Prompt.PromptFrame` | server.js:73-83 | every prompt starts with the base sentence naming applicant, role and company, and ends with the fixed requirements block |
| `Prompt.DecodeSkillsPartOf` | server.js:75-77 | after the base sentence, the skills clause is found exactly when `skills` is truthy (present and non-empty) |
| `Prompt.SkillsClauseNotPrefix` | server.js:75-81 | a skills clause is never a prefix of a resume clause or of the empty string, so the decoder cannot mistake one for the other |
| `Prompt.DecodeResumePartIff` | server.js:79-81 | the resume clause is read back to exactly the text it quotes, and its absence to "" |
| `Prompt.DecodeAssembleInverse` | server.js:73-83 | a prompt and its parts determine each other: decoding yields the skills-clause flag (equal to the truthiness of `skills`) and the quoted resume text verbatim exactly when the string is the prompt built from them, in the order base, skills, resume, requirements |
| `GenerateHandler.PromptSizeBound` | server.js:64-83 | whatever text the PDF yields, the resume adds at most 3000 characters plus its fixed framing to the prompt |
| `GenerateHandler.BuildPrompt` | server.js:72-83 | the prompt grown by successive appends is the assembled prompt, whose parts `DecodeAssembleInverse` reads back |
| `GenerateHandler.HandleGenerate` | server.js:40-97 | a non-PDF upload gives 400 with the fixed message and calls nothing. A parser failure gives 500 with `"Failed to parse resume PDF: " + message` after only the parser call. Without a file, the model alone is called, with a prompt that has no resume clause. With a PDF that parses, the parser and then the model are called, the prompt quoting the cleaned text. Once the model is called, its text is the `coverLetter` verbatim with 200, and any failure is 500 with the fixed generic message. The status is always 200, 400 or 500, and only 200 carries a cover letter |

## Left out

- Express, cors, multer and static-file middleware, `app.listen` and the
  `/api/health` route (server.js:1-18, 36-38, 99-102): framework wiring.
- Loading `.env` and checking or logging the API key (server.js:20-33):
  configuration and console output. A missing key shows up here only as a
  failing `generate`.
- All `console` logging, including the empty-text warning itself. Its
  condition is modelled as `ResumeText.ParsedTextIsBlank`.
- The internals of `pdf-parse` and of the Gemini client: each is an input
  (`parsed`, `generate`). The model assumes the parser returns a string.
  A parser result whose `text` is undefined would make `replace` throw.
  The inner catch would then report a parse failure; that path is not modelled.
- Interleaving of concurrent requests: the handler shares no state between
  requests.
- The request body is assumed to be an object. Absent fields are modelled
  as `None`. A missing body would make the destructuring throw, which the
  outer catch would turn into the generic 500; that path is not modelled.
- JsStrings.Substring: a `char` stands for one UTF-16 code unit. Surrogate
  pairs are not modelled.
- ResumeText.Normalise: the cut at 3000 code units may split a surrogate
  pair in the source; that is not modelled.
- `JsStrings.IsWs` lists the ECMAScript WhiteSpace and LineTerminator code
  points, taking the Unicode "Zs" category as of Unicode 15. It is a
  fixed table, not a lookup in the runtime's Unicode data.
- The browser front end (public/script.js) and the model-probing script
  (test-models.js): UI and a network probe, not part of the handler.
