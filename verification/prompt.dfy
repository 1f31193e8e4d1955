/** The evaluation prompt the backend sends to the model service
    (backend/index.js:61-80): a fixed instruction template with the quoted rule
    list and a bounded prefix of the document text spliced in. The template text
    is reproduced character for character, template-literal indentation included. */
module Prompt {
  import opened Basics
  import opened JsText

  /** The character budget for the document text (`substring(0, 15000)`). */
  const MaxDocumentChars: nat := 15000

  /** Template text up to the rule list. */
  const RulesIntro: string :=
    "\n        You are a highly analytical document checker. \n"
    + "        Your task is to analyze the provided PDF text against a list of specific rules.\n"
    + "        For each rule, you must provide a definitive \"PASS\" or \"FAIL\" status.\n"
    + "        \n"
    + "        The rules to check are: "

  /** Template text between the rule list and the document text. */
  const Instructions: string :=
    ".\n\n"
    + "        For each rule, follow these steps strictly:\n"
    + "        1. Determine the **status**: \"pass\" or \"fail\".\n"
    + "        2. Find a single **evidence** sentence (max 20 words) from the PDF text that best supports your status. If status is \"fail\", use \"N/A\".\n"
    + "        3. Provide a brief, objective **reasoning** (max 15 words).\n"
    + "        4. Give a **confidence** score (0-100) for your finding.\n\n"
    + "        Output your results as a single JSON array that strictly adheres to the provided JSON Schema. Do not include any extra text or markdown outside of the JSON block.\n\n"
    + "        --- DOCUMENT TEXT TO ANALYZE ---\n"
    + "        "

  /** The warning that the document text may have been cut. */
  const TruncationNote: string :=
    "Note: The document text might be truncated. Analyze based on the text provided."

  /** Template text between the document text and the note. */
  const NoteLead: string := " \n        \n        "

  /** Template text after the document text. */
  const Closing: string := NoteLead + TruncationNote + "\n    "

  /** `"${r}"`: a rule wrapped in double quotes, with nothing escaped. */
  function Quote(rule: string): (q: string)
    ensures |q| == |rule| + 2
  {
    "\"" + rule + "\""
  }

  /** The rule text sits verbatim between the two quotes. */
  lemma QuoteUnwraps(rule: string)
    ensures var q := Quote(rule);
            q[0] == '"' && q[|q| - 1] == '"' && q[1..|q| - 1] == rule
  {
  }

  function Quoted(rules: seq<string>): (qs: seq<string>)
    ensures |qs| == |rules|
    ensures forall i :: 0 <= i < |rules| ==> qs[i] == Quote(rules[i])
  {
    seq(|rules|, i requires 0 <= i < |rules| => Quote(rules[i]))
  }

  /** `ruleList.map(r => `"${r}"`).join(', ')`. */
  function RuleSection(rules: seq<string>): string
  {
    Join(", ", Quoted(rules))
  }

  /** The fixed text around the two spliced-in parts. */
  datatype Template = Template(intro: string, instructions: string, closing: string)

  /** The template of backend/index.js:61-80. */
  const SourceTemplate: Template := Template(RulesIntro, Instructions, Closing)

  /** A prompt from any template: the lemmas below hold for every template,
      the source's one included. */
  function Render(t: Template, rules: seq<string>, pdfText: string): string
  {
    t.intro + RuleSection(rules) + t.instructions + Truncate(pdfText, MaxDocumentChars) + t.closing
  }

  /** The full prompt for a rule list and the extracted document text. */
  function BuildPrompt(rules: seq<string>, pdfText: string): string
  {
    Render(SourceTemplate, rules, pdfText)
  }

  /** Where the document text starts inside the prompt. */
  function DocumentOffset(t: Template, rules: seq<string>): nat
  {
    |t.intro| + |RuleSection(rules)| + |t.instructions|
  }

  /** Where the quoted rule `i` starts inside the prompt. */
  function RuleOffset(t: Template, rules: seq<string>, i: nat): nat
    requires i < |rules|
  {
    |t.intro| + Offset(", ", Quoted(rules), i)
  }

  /** A piece of the middle part of a concatenation, found at its shifted position. */
  lemma SliceWithin(p: string, intro: string, section: string, rest: string, lo: nat, hi: nat)
    requires p == intro + section + rest
    requires lo <= hi <= |section|
    ensures |intro| + hi <= |p| && p[|intro| + lo..|intro| + hi] == section[lo..hi]
  {
    assert p == intro + (section + rest);
    SliceOfConcat(intro, section + rest, lo, hi);
    assert (section + rest)[lo..hi] == section[lo..hi];
  }

  lemma SectionElement(rules: seq<string>, i: nat)
    requires i < |rules|
    ensures var s, o := RuleSection(rules), Offset(", ", Quoted(rules), i);
            o + |rules[i]| + 2 <= |s| && s[o..o + |rules[i]| + 2] == Quote(rules[i])
  {
    var qs := Quoted(rules);
    JoinElement(", ", qs, i);
    assert qs[i] == Quote(rules[i]);
  }

  /** The source's closing text carries the truncation note right after its lead. */
  lemma ClosingCarriesNote()
    ensures SourceTemplate.closing == NoteLead + TruncationNote + "\n    "
    ensures |NoteLead| + |TruncationNote| <= |SourceTemplate.closing|
    ensures SourceTemplate.closing[|NoteLead|..|NoteLead| + |TruncationNote|] == TruncationNote
  {
    SliceOfConcat(NoteLead, TruncationNote + "\n    ", 0, |TruncationNote|);
    assert Closing == NoteLead + (TruncationNote + "\n    ");
  }

  /** The document text in the prompt is exactly the first
      min(|pdfText|, 15000) characters of `pdfText`, followed by the template's
      closing text and by nothing else. */
  lemma PromptEmbedsPrefix(t: Template, rules: seq<string>, pdfText: string)
    ensures var p, k, m := Render(t, rules, pdfText), DocumentOffset(t, rules),
                           Min(|pdfText|, MaxDocumentChars);
            && |p| == k + m + |t.closing|
            && p[k..k + m] == pdfText[..m]
            && p[k + m..] == t.closing
  {
    var head := t.intro + RuleSection(rules) + t.instructions;
    var doc := Truncate(pdfText, MaxDocumentChars);
    var p := Render(t, rules, pdfText);
    assert p == head + (doc + t.closing);
    SliceOfConcat(head, doc + t.closing, 0, |doc|);
    assert (doc + t.closing)[..|doc|] == doc;
  }

  /** With the backend's closing text, as `SourceTemplate` has it, the
      document prefix is followed by the truncation note. */
  lemma PromptNotesTruncation(t: Template, rules: seq<string>, pdfText: string)
    requires t.closing == Closing
    ensures var p, e := Render(t, rules, pdfText),
                        DocumentOffset(t, rules) + Min(|pdfText|, MaxDocumentChars) + |NoteLead|;
            e + |TruncationNote| <= |p| && p[e..e + |TruncationNote|] == TruncationNote
  {
    PromptEmbedsPrefix(t, rules, pdfText);
    ClosingCarriesNote();
    var p, k := Render(t, rules, pdfText), DocumentOffset(t, rules) + Min(|pdfText|, MaxDocumentChars);
    assert p[k + |NoteLead|..k + |NoteLead| + |TruncationNote|]
        == p[k..][|NoteLead|..|NoteLead| + |TruncationNote|];
  }

  /** Every rule of the list appears in the prompt, wrapped in quotes, at its
      offset, whatever the document text; exactly ", " lies between
      neighbouring quoted rules, so the rules appear in list order. */
  lemma PromptNamesEveryRule(t: Template, rules: seq<string>, pdfText: string, i: nat)
    requires i < |rules|
    ensures var p, o := Render(t, rules, pdfText), RuleOffset(t, rules, i);
            o + |rules[i]| + 2 <= |p| && p[o..o + |rules[i]| + 2] == Quote(rules[i])
    ensures i + 1 < |rules| ==>
              && RuleOffset(t, rules, i + 1) == RuleOffset(t, rules, i) + |rules[i]| + 4
              && RuleOffset(t, rules, i + 1) <= |Render(t, rules, pdfText)|
              && Render(t, rules, pdfText)[RuleOffset(t, rules, i) + |rules[i]| + 2..RuleOffset(t, rules, i + 1)]
                 == ", "
  {
    var section := RuleSection(rules);
    var rest := t.instructions + Truncate(pdfText, MaxDocumentChars) + t.closing;
    var o := Offset(", ", Quoted(rules), i);
    SectionElement(rules, i);
    assert Render(t, rules, pdfText) == t.intro + section + rest;
    SliceWithin(Render(t, rules, pdfText), t.intro, section, rest, o, o + |rules[i]| + 2);
    if i + 1 < |rules| {
      var next := Offset(", ", Quoted(rules), i + 1);
      assert next == o + |rules[i]| + 4;
      JoinSeparator(", ", Quoted(rules), i);
      SliceWithin(Render(t, rules, pdfText), t.intro, section, rest, o + |rules[i]| + 2, next);
    }
  }

  /** Characters past the budget never reach the model: two documents that
      agree on their first 15000 characters give the same prompt. */
  lemma PromptSeesOnlyPrefix(t: Template, rules: seq<string>, a: string, b: string)
    requires |a| >= MaxDocumentChars && |b| >= MaxDocumentChars
    requires a[..MaxDocumentChars] == b[..MaxDocumentChars]
    ensures Render(t, rules, a) == Render(t, rules, b)
  {
    assert Truncate(a, MaxDocumentChars) == Truncate(b, MaxDocumentChars);
  }

  /** However long the document, the prompt never carries more than the budget. */
  lemma PromptBounded(t: Template, rules: seq<string>, pdfText: string)
    ensures |Render(t, rules, pdfText)| <= DocumentOffset(t, rules) + MaxDocumentChars + |t.closing|
  {
    PromptEmbedsPrefix(t, rules, pdfText);
  }
}
