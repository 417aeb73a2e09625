/** The prompt the generate handler sends to the language model
    (server.js, lines 73-83), and a decoder that reads its parts back. */
module Prompt {
  import opened Wrappers

  /** The text fields of the multipart form. A field the client did not
      send is absent. */
  datatype Form = Form(name: Option<string>, jobRole: Option<string>, company: Option<string>, skills: Option<string>)

  /** A template-literal substitution `${field}`: an absent field renders
      as the word "undefined". */
  function Render(field: Option<string>): string
  {
    match field
    case Some(v) => v
    case None => "undefined"
  }

  /** JavaScript truthiness of a form field: present and non-empty. */
  predicate Truthy(field: Option<string>)
  {
    field.Some? && field.value != []
  }

  function BaseSentence(form: Form): string
  {
    "Write a professional cover letter for " + Render(form.name)
    + " applying to the position of " + Render(form.jobRole)
    + " at " + Render(form.company) + "."
  }

  function SkillsClause(skills: string): string
  {
    "\nThey have the following key skills: " + skills + "."
  }

  const ResumeIntro: string := "\n\n" + "Here is their resume text for reference to make it more personalized:\n\""

  function ResumeClause(text: string): string
  {
    ResumeIntro + text + "\""
  }

  const Requirements: string :=
    "\n\nRequirements:\n"
    + "1. Keep it professional, engaging, and concise (under 400 words).\n"
    + "2. Highlight how the skills match the role.\n"
    + "3. Format with proper paragraph breaks.\n"
    + "4. Do NOT include placeholders like [Date] or [Address] unless necessary, try to keep it ready-to-send."

  /** The optional skills clause: present only when `skills` is truthy. */
  function SkillsPart(form: Form): string
  {
    if Truthy(form.skills) then SkillsClause(form.skills.value) else []
  }

  /** The optional resume clause: present only when the text is non-empty. */
  function ResumePart(resumeText: string): string
  {
    if resumeText != [] then ResumeClause(resumeText) else []
  }

  /** The prompt, clauses in their fixed order: base sentence, skills,
      resume, requirements. */
  function AssemblePrompt(form: Form, resumeText: string): string
  {
    BaseSentence(form) + SkillsPart(form) + ResumePart(resumeText) + Requirements
  }

  /** What a prompt says beyond the form's base sentence: whether it has
      the skills clause, and the resume text it quotes ("" for none). */
  datatype PromptParts = PromptParts(hasSkills: bool, resumeText: string)

  /** `s` without the prefix `pre`; None when `s` does not start with it. */
  function StripPrefix(s: string, pre: string): Option<string>
  {
    if pre <= s then Some(s[|pre|..]) else None
  }

  /** `s` without the suffix `suf`; None when `s` does not end with it. */
  function StripSuffix(s: string, suf: string): Option<string>
  {
    if |suf| <= |s| && s[|s| - |suf|..] == suf then Some(s[..|s| - |suf|]) else None
  }

  lemma StripPrefixIff(s: string, pre: string, rest: string)
    ensures StripPrefix(s, pre) == Some(rest) <==> s == pre + rest
  {
    if s == pre + rest {
      assert s[..|pre|] == pre && s[|pre|..] == rest;
    }
  }

  lemma StripSuffixIff(s: string, suf: string, rest: string)
    ensures StripSuffix(s, suf) == Some(rest) <==> s == rest + suf
  {
    if s == rest + suf {
      assert s[..|rest|] == rest && s[|rest|..] == suf;
    }
  }

  /** Reads the resume clause, or its absence, back into the quoted text. */
  function DecodeResumePart(rest: string): Option<string>
  {
    if rest == [] then Some([])
    else match StripPrefix(rest, ResumeIntro)
      case None => None
      case Some(quoted) =>
        match StripSuffix(quoted, "\"")
        case None => None
        case Some(text) => if text != [] then Some(text) else None
  }

  lemma DecodeResumePartIff(rest: string, text: string)
    ensures DecodeResumePart(rest) == Some(text) <==> rest == ResumePart(text)
  {
    if rest != [] && rest == ResumePart(text) {
      Associate3(ResumeIntro, text, "\"");
      StripPrefixIff(rest, ResumeIntro, text + "\"");
      StripSuffixIff(text + "\"", "\"", text);
    }
    if rest != [] && DecodeResumePart(rest) == Some(text) {
      var quoted := StripPrefix(rest, ResumeIntro).value;
      StripPrefixIff(rest, ResumeIntro, quoted);
      StripSuffixIff(quoted, "\"", text);
      Associate3(ResumeIntro, text, "\"");
    }
  }

  /** Reads the skills clause off the front of what follows the base
      sentence: whether it is there, and what comes after it. */
  function DecodeSkillsPart(mid: string, form: Form): (bool, string)
  {
    if form.skills.None? then (false, mid)
    else match StripPrefix(mid, SkillsClause(form.skills.value))
      case Some(rest) => (true, rest)
      case None => (false, mid)
  }

  /** Reads a prompt for `form` back into its parts; None when `p` is not
      shaped like a prompt for that form. */
  function DecodePrompt(p: string, form: Form): Option<PromptParts>
  {
    match StripPrefix(p, BaseSentence(form))
    case None => None
    case Some(afterBase) =>
      match StripSuffix(afterBase, Requirements)
      case None => None
      case Some(mid) =>
        var (hasSkills, rest) := DecodeSkillsPart(mid, form);
        match DecodeResumePart(rest)
        case None => None
        case Some(text) => Some(PromptParts(hasSkills, text))
  }

  /** A skills clause never starts a resume clause or the empty string:
      their second characters differ. */
  lemma SkillsClauseNotPrefix(skills: string, text: string)
    ensures !(SkillsClause(skills) <= ResumePart(text))
  {
    var sc := SkillsClause(skills);
    assert sc[1] == 'T';
    if text != [] {
      assert ResumeIntro[1] == '\n';
      assert (ResumeIntro + text + "\"")[1] == ResumeIntro[1];
    }
  }

  lemma DecodeSkillsPartOf(form: Form, text: string)
    ensures DecodeSkillsPart(SkillsPart(form) + ResumePart(text), form)
            == (Truthy(form.skills), ResumePart(text))
  {
    var mid := SkillsPart(form) + ResumePart(text);
    if Truthy(form.skills) {
      StripPrefixIff(mid, SkillsClause(form.skills.value), ResumePart(text));
    } else if form.skills.Some? {
      assert SkillsPart(form) == [];
      assert mid == ResumePart(text);
      SkillsClauseNotPrefix(form.skills.value, text);
      assert StripPrefix(mid, SkillsClause(form.skills.value)) == None;
    }
  }

  /** Every prompt starts with the base sentence naming applicant, role and
      company, and ends with the fixed requirements. */
  lemma PromptFrame(form: Form, resumeText: string)
    ensures var p := AssemblePrompt(form, resumeText);
            && BaseSentence(form) <= p
            && |p| >= |BaseSentence(form)| + |Requirements|
            && p[|p| - |Requirements|..] == Requirements
  {
    var p := AssemblePrompt(form, resumeText);
    Associate(BaseSentence(form), SkillsPart(form), ResumePart(resumeText), Requirements);
    StripPrefixIff(p, BaseSentence(form), SkillsPart(form) + ResumePart(resumeText) + Requirements);
    StripSuffixIff(p, Requirements, BaseSentence(form) + SkillsPart(form) + ResumePart(resumeText));
  }

  /** The prompt and its parts determine each other: decoding a prompt
      gives back whether the skills clause is there (exactly when `skills`
      is truthy) and the quoted resume text verbatim, and a string that
      decodes to those parts is that prompt. */
  lemma DecodeAssembleInverse(form: Form, resumeText: string, p: string)
    ensures DecodePrompt(p, form) == Some(PromptParts(Truthy(form.skills), resumeText))
            <==> p == AssemblePrompt(form, resumeText)
  {
    var base := BaseSentence(form);
    var mid := SkillsPart(form) + ResumePart(resumeText);
    Associate(base, SkillsPart(form), ResumePart(resumeText), Requirements);
    if p == AssemblePrompt(form, resumeText) {
      StripPrefixIff(p, base, mid + Requirements);
      StripSuffixIff(mid + Requirements, Requirements, mid);
      DecodeSkillsPartOf(form, resumeText);
      DecodeResumePartIff(ResumePart(resumeText), resumeText);
    }
    if DecodePrompt(p, form) == Some(PromptParts(Truthy(form.skills), resumeText)) {
      var afterBase := StripPrefix(p, base).value;
      var m := StripSuffix(afterBase, Requirements).value;
      StripPrefixIff(p, base, afterBase);
      StripSuffixIff(afterBase, Requirements, m);
      var rest := DecodeSkillsPart(m, form).1;
      DecodeResumePartIff(rest, resumeText);
      if Truthy(form.skills) {
        StripPrefixIff(m, SkillsClause(form.skills.value), rest);
      }
      assert m == mid;
    }
  }

  lemma Associate(a: string, b: string, c: string, d: string)
    ensures a + b + c + d == a + (b + c + d)
  {
  }

  lemma Associate3(a: string, b: string, c: string)
    ensures a + b + c == a + (b + c)
  {
  }
}
