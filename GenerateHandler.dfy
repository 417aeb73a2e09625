/** The `POST /api/generate` handler (server.js, lines 40-97): validate the
    upload, extract and clean the resume text, assemble the prompt, call
    the language model and shape the HTTP response.

    The two foreign calls are inputs: `parsed` is what `pdf(buffer)`
    yields for the uploaded bytes (its text, or the message of the error
    it throws), and `generate` maps a prompt to the model's text, or to a
    failure when `generateContent`, `response` or `text()` throws. The
    handler returns, beside the response, the foreign calls it made. */
module GenerateHandler {
  import opened Wrappers
  import ResumeText
  import opened Prompt

  /** The uploaded file as the handler sees it: its declared media type.
      Its name and size are only logged, and its bytes only reach the
      parser, whose outcome is the `parsed` input. */
  datatype Upload = Upload(mimetype: string)

  datatype ForeignCall = ParsePdf | GenerateContent(prompt: string)

  /** The JSON body: `{coverLetter: ...}` or `{error: ...}`. */
  datatype Body = CoverLetter(coverLetter: string) | Error(error: string)

  datatype Response = Response(status: int, body: Body)

  const PdfMimeType: string := "application/pdf"
  const InvalidTypeMessage: string := "Invalid file type. Please upload a PDF."
  const ParseFailurePrefix: string := "Failed to parse resume PDF: "
  const GenerationFailureMessage: string := "Failed to generate cover letter. Ensure API Key is set and valid."

  /** An upload whose declared media type is not exactly the PDF type. */
  predicate IsRejectedUpload(file: Option<Upload>)
  {
    file.Some? && file.value.mimetype != PdfMimeType
  }

  /** The request gets past validation and parsing to the model. */
  predicate ReachesModel(file: Option<Upload>, parsed: Result<string, string>)
  {
    file.None? || (!IsRejectedUpload(file) && parsed.Success?)
  }

  /** Whatever the PDF yields, the prompt is bounded: the resume adds at
      most 3000 characters of text plus its fixed framing. */
  lemma PromptSizeBound(form: Form, raw: string)
    ensures |AssemblePrompt(form, ResumeText.Normalise(raw))|
            <= |BaseSentence(form)| + |SkillsPart(form)| + |ResumeIntro| + ResumeText.MaxResumeChars + 1 + |Requirements|
  {
  }

  method HandleGenerate(form: Form, file: Option<Upload>, parsed: Result<string, string>,
                        generate: string -> Result<string, string>)
    returns (res: Response, calls: seq<ForeignCall>)
    // A non-PDF upload is refused before the parser or the model is called.
    ensures IsRejectedUpload(file) ==>
              res == Response(400, Error(InvalidTypeMessage)) && calls == []
    // A parser failure is reported with the parser's message, and the
    // model is not called.
    ensures file.Some? && !IsRejectedUpload(file) && parsed.Failure? ==>
              res == Response(500, Error(ParseFailurePrefix + parsed.error)) && calls == [ParsePdf]
    // Without a file the model is called once, with a prompt that has no
    // resume clause.
    ensures file.None? ==> calls == [GenerateContent(AssemblePrompt(form, []))]
    // With a PDF that parses, the parser and then the model are called,
    // the prompt quoting the cleaned text.
    ensures file.Some? && !IsRejectedUpload(file) && parsed.Success? ==>
              calls == [ParsePdf, GenerateContent(AssemblePrompt(form, ResumeText.Normalise(parsed.value)))]
    // Whenever the model is called, its text is the cover letter verbatim,
    // and any failure of it is the generic 500.
    ensures ReachesModel(file, parsed) ==>
              && |calls| > 0 && calls[|calls| - 1].GenerateContent?
              && var outcome := generate(calls[|calls| - 1].prompt);
                 && (outcome.Success? ==> res == Response(200, CoverLetter(outcome.value)))
                 && (outcome.Failure? ==> res == Response(500, Error(GenerationFailureMessage)))
    // Exactly one of four outcomes, and only a 200 carries a cover letter.
    ensures res.status in {200, 400, 500}
    ensures res.status == 200 <==> res.body.CoverLetter?
  {
    var resumeText := "";
    calls := [];
    if file.Some? {
      if file.value.mimetype != PdfMimeType {
        return Response(400, Error(InvalidTypeMessage)), [];
      }
      calls := calls + [ParsePdf];
      match parsed {
        case Failure(message) =>
          return Response(500, Error(ParseFailurePrefix + message)), calls;
        case Success(text) =>
          resumeText := text;
          resumeText := ResumeText.Normalise(resumeText);
      }
    }

    var prompt := BuildPrompt(form, resumeText);

    calls := calls + [GenerateContent(prompt)];
    match generate(prompt) {
      case Success(text) =>
        res := Response(200, CoverLetter(text));
      case Failure(_) =>
        res := Response(500, Error(GenerationFailureMessage));
    }
  }

  /** Step 2 of the handler: the prompt grown clause by clause. */
  method BuildPrompt(form: Form, resumeText: string) returns (prompt: string)
    ensures prompt == AssemblePrompt(form, resumeText)
  {
    prompt := BaseSentence(form);
    if Truthy(form.skills) {
      prompt := prompt + SkillsClause(form.skills.value);
    }
    assert prompt == BaseSentence(form) + SkillsPart(form);
    if resumeText != [] {
      prompt := prompt + ResumeClause(resumeText);
    }
    assert prompt == BaseSentence(form) + SkillsPart(form) + ResumePart(resumeText);
    prompt := prompt + Requirements;
  }
}
