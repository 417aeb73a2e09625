/** Cleanup of the text extracted from an uploaded resume (server.js,
    line 64): `text.replace(/\n+/g, ' ').trim().substring(0, 3000)`. */
module ResumeText {
  import opened JsStrings

  /** The most resume characters quoted into a prompt. */
  const MaxResumeChars: nat := 3000

  /** Line feeds collapsed and the ends trimmed, before truncation. */
  function Cleaned(raw: string): string
  {
    Trim(CollapseNewlines(raw))
  }

  /** The resume text the prompt quotes: a prefix of the cleaned text of at
      most 3000 characters, all of it when it fits, with no line feed and
      no leading whitespace. */
  function Normalise(raw: string): (r: string)
    ensures NoNewline(r)
    ensures |r| <= MaxResumeChars
    ensures r <= Cleaned(raw)
    ensures |Cleaned(raw)| <= MaxResumeChars ==> r == Cleaned(raw)
    ensures |Cleaned(raw)| > MaxResumeChars ==> |r| == MaxResumeChars
    ensures r == [] || !IsWs(r[0])
  {
    TrimIsCore(CollapseNewlines(raw));
    Substring(Cleaned(raw), MaxResumeChars)
  }

  /** The condition under which the handler warns that the parsed PDF text
      is empty (line 57): `!resumeText || resumeText.trim().length === 0`. */
  predicate ParsedTextIsBlank(text: string)
  {
    text == [] || |Trim(text)| == 0
  }

  /** Normalisation yields the empty string, and so the prompt gets no
      resume clause, exactly when the extracted text is blank. */
  lemma NormaliseEmptyIffBlank(raw: string)
    ensures Normalise(raw) == [] <==> AllWs(raw)
  {
    CollapseBlank(raw);
    TrimEmptyIffBlank(CollapseNewlines(raw));
  }

  /** The empty-text warning is raised exactly for the texts that leave no
      resume clause in the prompt: it is a warning and not an error. */
  lemma BlankWarningIffNoResumeText(raw: string)
    ensures ParsedTextIsBlank(raw) <==> Normalise(raw) == []
  {
    NormaliseEmptyIffBlank(raw);
    TrimEmptyIffBlank(raw);
  }

  /** A text of at most 3000 characters, with no line feed and no
      whitespace at either end. */
  predicate IsClean(text: string)
  {
    && |text| <= MaxResumeChars
    && NoNewline(text)
    && (text == [] || (!IsWs(text[0]) && !IsWs(text[|text| - 1])))
  }

  /** The texts normalisation leaves unchanged are exactly the clean ones. */
  lemma NormaliseFixedPoint(raw: string)
    ensures Normalise(raw) == raw <==> IsClean(raw)
  {
    if IsClean(raw) {
      NormaliseKeepsClean(raw);
    }
    if Normalise(raw) == raw {
      FixedPointIsClean(raw);
    }
  }

  lemma NormaliseKeepsClean(raw: string)
    requires IsClean(raw)
    ensures Normalise(raw) == raw
  {
    assert CollapseNewlines(raw) == raw;
    if raw != [] {
      assert TrimStart(raw) == raw;
      assert TrimEnd(raw) == raw;
    }
  }

  lemma FixedPointIsClean(raw: string)
    requires Normalise(raw) == raw
    ensures IsClean(raw)
  {
    TrimIsCore(CollapseNewlines(raw));
    assert |Cleaned(raw)| <= |raw|;
  }
}
