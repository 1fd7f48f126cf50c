/** Code generation through the LLM: the prompt sent for a user request, and the
    extraction of the Python code block from the model's reply. The API call
    itself is passed in as `gemini`, from prompt text to reply. */
module Gemini {

  import opened Base
  import opened Text

  /** The fixed instructions and worked example that precede the user request,
      ending with the opening quote the request is placed after. */
  const PromptHead: string :=
    "Generate Manim Python code based on this request.\n"
    + "\n"
    + "Instructions:\n"
    + "- Provide ONLY valid, runnable Manim Python code.\n"
    + "- No explanations, external comments, or extra text.\n"
    + "- Code must be self-contained in a class inheriting from 'Scene'.\n"
    + "- Use 'self.play()' for animations and 'self.wait()' for pauses.\n"
    + "- For complex/unclear requests, output a simple default animation.\n"
    + "\n"
    + "Example Input: \"Animate a blue circle fading in.\"\n"
    + "Example Output:\n"
    + "\nfrom manim import *\n\nclass MyAnimation(Scene):\n    def construct(self):\n"
    + "        circle = Circle(color=BLUE)\n        self.play(FadeIn(circle))\n        self.wait(1)\n"
    + "\n\nUser request: \""

  /** The full prompt: the template with the user's request inserted verbatim
      between the final pair of double quotes. */
  function FullPrompt(userPrompt: string): (r: string)
    ensures |r| == |PromptHead| + |userPrompt| + 1
    ensures r[..|PromptHead|] == PromptHead
    ensures r[|PromptHead|..|r| - 1] == userPrompt
    ensures r[|r| - 1] == '"'
  {
    PromptHead + userPrompt + "\""
  }

  /** Different requests give different prompts: nothing of the request is lost. */
  lemma FullPromptInjective(a: string, b: string)
    requires FullPrompt(a) == FullPrompt(b)
    ensures a == b
  {
    var r := FullPrompt(a);
    assert a == r[|PromptHead|..|r| - 1];
  }

  /** One part of a candidate's content, as `%v` renders it. */
  datatype Part = Part(formatted: string)

  datatype Content = Content(parts: seq<Part>)

  datatype Candidate = Candidate(content: Option<Content>)

  /** The model's answer to one `GenerateContent` call. */
  datatype GeminiReply = CallFailed(detail: string) | Replied(candidates: seq<Candidate>)

  datatype CodeGenError =
    | GenerationFailed(detail: string)
    | NoValidContent
    | NoStartMarker
    | NoEndMarker

  /** The text of the first part of the first candidate, or "none" when there
      is no candidate, the first has no content, or that content has no parts. */
  function FirstPartText(candidates: seq<Candidate>): (r: Option<string>)
    ensures r.None? <==>
      |candidates| == 0 || candidates[0].content.None? || |candidates[0].content.value.parts| == 0
    ensures r.Some? ==> r.value == candidates[0].content.value.parts[0].formatted
  {
    if |candidates| == 0 then None
    else match candidates[0].content
      case None => None
      case Some(c) => if |c.parts| == 0 then None else Some(c.parts[0].formatted)
  }

  const CodeBlockStart: string := "```python\n"
  const CodeBlockEnd: string := "```"

  /** Where the code starts: just after the first opening marker. */
  function CodeStart(text: string): int
  {
    IndexOf(text, CodeBlockStart) + |CodeBlockStart|
  }

  /** The code between the first opening marker and the last closing fence,
      trimmed of white space. */
  function ExtractCode(text: string): (r: Result<string, CodeGenError>)
    ensures r == Err(NoStartMarker) <==> !Contains(text, CodeBlockStart)
    ensures r == Err(NoEndMarker) <==>
      Contains(text, CodeBlockStart) && forall j :: j >= CodeStart(text) ==> !OccursAt(text, CodeBlockEnd, j)
    ensures r.Ok? ==>
      var e := LastIndexOf(text, CodeBlockEnd);
      && 0 <= CodeStart(text) <= e <= |text|
      && r.value == TrimSpace(text[CodeStart(text)..e])
    ensures r.Ok? || r == Err(NoStartMarker) || r == Err(NoEndMarker)
  {
    var startIndex := IndexOf(text, CodeBlockStart);
    if startIndex == -1 then Err(NoStartMarker)
    else
      var codeStart := startIndex + |CodeBlockStart|;
      var endIndex := LastIndexOf(text, CodeBlockEnd);
      if endIndex == -1 || endIndex < codeStart then Err(NoEndMarker)
      else Ok(TrimSpace(text[codeStart..endIndex]))
  }

  /** `GenerateManimCode`: send the full prompt, take the first part's text, and
      extract the code block from it. */
  function GenerateCode(userPrompt: string, gemini: string -> GeminiReply): (r: Result<string, CodeGenError>)
    ensures gemini(FullPrompt(userPrompt)).CallFailed? ==> r == Err(GenerationFailed(gemini(FullPrompt(userPrompt)).detail))
    ensures r == Err(NoValidContent) <==>
      gemini(FullPrompt(userPrompt)).Replied? && FirstPartText(gemini(FullPrompt(userPrompt)).candidates).None?
    ensures r.Ok? ==>
      var reply := gemini(FullPrompt(userPrompt));
      reply.Replied? && FirstPartText(reply.candidates).Some?
      && ExtractCode(FirstPartText(reply.candidates).value) == r
    ensures var reply := gemini(FullPrompt(userPrompt));
      reply.Replied? && FirstPartText(reply.candidates).Some? ==> r == ExtractCode(FirstPartText(reply.candidates).value)
  {
    match gemini(FullPrompt(userPrompt))
    case CallFailed(detail) => Err(GenerationFailed(detail))
    case Replied(candidates) =>
      match FirstPartText(candidates)
      case None => Err(NoValidContent)
      case Some(text) => ExtractCode(text)
  }

  predicate NoBacktick(s: string)
  {
    '`' !in s
  }

  /** A fence cannot start inside a backtick-free prefix. */
  lemma NoFenceBefore(text: string, pat: string, k: nat)
    requires |pat| > 0 && pat[0] == '`'
    requires k <= |text| && NoBacktick(text[..k])
    ensures forall j :: j < k ==> !OccursAt(text, pat, j)
  {
    forall j | 0 <= j < k
      ensures !OccursAt(text, pat, j)
    {
      assert text[j] == text[..k][j];
    }
  }

  /** A closing fence needs its third backtick at or after `k`, so none starts
      from `k - 2` on when `text[k..]` holds no backtick. */
  lemma NoClosingFenceFrom(text: string, k: nat)
    requires k <= |text| && NoBacktick(text[k..])
    ensures forall j :: j >= k - 2 ==> !OccursAt(text, CodeBlockEnd, j)
  {
    forall j | j >= k - 2 && 0 <= j && j + 3 <= |text|
      ensures !OccursAt(text, CodeBlockEnd, j)
    {
      assert text[j + 2] == text[k..][j + 2 - k];
    }
  }

  /** In a fenced reply with backtick-free text around the fences, the opening
      marker is found where `before` ends and the closing fence just after the
      code's final newline. */
  lemma FencePositions(before: string, code: string, after: string, text: string, cs: int, e: int)
    requires NoBacktick(before) && NoBacktick(after)
    requires text == before + CodeBlockStart + code + "\n" + CodeBlockEnd + after
    requires cs == |before| + |CodeBlockStart| && e == cs + |code| + 1
    ensures IndexOf(text, CodeBlockStart) == |before|
    ensures LastIndexOf(text, CodeBlockEnd) == e
  {
    var s := |before|;
    assert text[..s] == before;
    assert text[s..cs] == CodeBlockStart;
    NoFenceBefore(text, CodeBlockStart, s);
    assert OccursAt(text, CodeBlockStart, s);
    assert text[e..e + 3] == CodeBlockEnd;
    assert OccursAt(text, CodeBlockEnd, e);
    assert text[e + 3..] == after;
    NoClosingFenceFrom(text, e + 3);
  }

  /** With the opening marker ending at `cs` and the last fence at `e` after
      it, the code is the trimmed text between them. */
  lemma ExtractBetween(text: string, cs: int, e: int)
    requires IndexOf(text, CodeBlockStart) >= 0
    requires IndexOf(text, CodeBlockStart) + |CodeBlockStart| == cs <= e == LastIndexOf(text, CodeBlockEnd)
    ensures 0 <= cs <= e <= |text|
    ensures ExtractCode(text) == Ok(TrimSpace(text[cs..e]))
  {
  }

  /** The round trip the prompt asks the model for: a trimmed piece of code
      fenced as a Python block, with free text around the fences that holds no
      backtick, is extracted exactly. */
  lemma ExtractFenced(before: string, code: string, after: string)
    requires NoBacktick(before) && NoBacktick(after) && Trimmed(code)
    ensures ExtractCode(before + CodeBlockStart + code + "\n" + CodeBlockEnd + after) == Ok(code)
  {
    ExtractFencedText(before, code, after, before + CodeBlockStart + code + "\n" + CodeBlockEnd + after);
  }

  /** The round trip, for a reply already named `text`. */
  lemma ExtractFencedText(before: string, code: string, after: string, text: string)
    requires NoBacktick(before) && NoBacktick(after) && Trimmed(code)
    requires text == before + CodeBlockStart + code + "\n" + CodeBlockEnd + after
    ensures ExtractCode(text) == Ok(code)
  {
    var cs := |before| + |CodeBlockStart|;
    var e := cs + |code| + 1;
    FencedFacts(before, code, after, text, cs, e);
    ExtractKnown(text, cs, e, code);
  }

  /** The facts `ExtractKnown` needs, for a fenced reply. */
  lemma FencedFacts(before: string, code: string, after: string, text: string, cs: int, e: int)
    requires NoBacktick(before) && NoBacktick(after) && Trimmed(code)
    requires text == before + CodeBlockStart + code + "\n" + CodeBlockEnd + after
    requires cs == |before| + |CodeBlockStart| && e == cs + |code| + 1
    ensures IndexOf(text, CodeBlockStart) >= 0
    ensures IndexOf(text, CodeBlockStart) + |CodeBlockStart| == cs <= e == LastIndexOf(text, CodeBlockEnd)
    ensures e <= |text| && TrimSpace(text[cs..e]) == code
  {
    FencePositions(before, code, after, text, cs, e);
    FencedBody(before, code, after, text, cs, e);
    TrimTrailingNewline(code);
  }

  /** Once the fence positions and the trimmed body are known, the extraction
      follows. */
  lemma ExtractKnown(text: string, cs: int, e: int, code: string)
    requires IndexOf(text, CodeBlockStart) >= 0
    requires IndexOf(text, CodeBlockStart) + |CodeBlockStart| == cs <= e == LastIndexOf(text, CodeBlockEnd)
    requires e <= |text| && TrimSpace(text[cs..e]) == code
    ensures ExtractCode(text) == Ok(code)
  {
    ExtractBetween(text, cs, e);
  }

  /** The text between the fences of a fenced reply is the code and its newline. */
  lemma FencedBody(before: string, code: string, after: string, text: string, cs: int, e: int)
    requires text == before + CodeBlockStart + code + "\n" + CodeBlockEnd + after
    requires cs == |before| + |CodeBlockStart| && e == cs + |code| + 1
    ensures e <= |text| && text[cs..e] == code + "\n"
  {
  }

  /** Trimming a trimmed string followed by a newline gives the string back. */
  lemma TrimTrailingNewline(code: string)
    requires Trimmed(code)
    ensures TrimSpace(code + "\n") == code
  {
    assert AllSpace("\n");
    TrimSpaceOfPadded("", code, "\n");
    assert "" + code + "\n" == code + "\n";
  }

  /** A reply whose only fence is the opening marker has no closing fence: the
      last fence lies before the code start. */
  lemma OpeningMarkerOnly(before: string, after: string)
    requires NoBacktick(before) && NoBacktick(after)
    ensures ExtractCode(before + CodeBlockStart + after) == Err(NoEndMarker)
  {
    var text := before + CodeBlockStart + after;
    var s := |before|;
    assert text[..s] == before;
    assert text[s..s + |CodeBlockStart|] == CodeBlockStart;
    NoFenceBefore(text, CodeBlockStart, s);
    assert OccursAt(text, CodeBlockStart, s);
    assert text[s + 3..] == CodeBlockStart[3..] + after;
    NoClosingFenceFrom(text, s + 3);
  }

  /** An empty code block yields empty code, not an error. */
  lemma EmptyBlockExtracted()
    ensures ExtractCode("```python\n```") == Ok("")
  {
    assert "```python\n```" == "" + CodeBlockStart + "" + CodeBlockEnd + "";
    var text := "```python\n```";
    assert OccursAt(text, CodeBlockStart, 0);
    assert OccursAt(text, CodeBlockEnd, 10);
    assert TrimSpace("") == "";
  }
}
