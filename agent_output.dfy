/**
 * `parseAgentOutput`: the text shown for the output of a single-shot agent (the fragment
 * title and the response text). Only the first output message is looked at.
 */
module AgentOutput {
  import opened Wrappers
  import opened Strings

  /** One text part of an array-valued message content. */
  datatype TextContent = TextContent(text: string)

  /** A text message's content: a string, or an array of text parts. */
  datatype Content = Plain(s: string) | Parts(parts: seq<TextContent>)

  /** An agent output message: a text message, or another kind (a tool call or tool result). */
  datatype AgentMessage = TextMessage(content: Content) | OtherMessage

  /** What JavaScript's `join` makes of a plain object. */
  const ObjectText: string := "[object Object]"

  /** The fallback text for a first message that is not text. */
  function Fallback(isFragment: bool): string {
    if isFragment then "Fragment" else "Here you go!"
  }

  /** The texts of the parts, in order. */
  function Texts(parts: seq<TextContent>): (ts: seq<string>)
    ensures |ts| == |parts|
    ensures forall k :: 0 <= k < |parts| ==> ts[k] == parts[k].text
  {
    if parts == [] then [] else [parts[0].text] + Texts(parts[1..])
  }

  /** `n` copies of `s`, concatenated. */
  function Repeat(s: string, n: nat): (r: string)
    ensures |r| == |s| * n
    ensures n > 0 ==> r[..|s|] == s
  {
    if n == 0 then "" else
      assert |s| * n == |s| + |s| * (n - 1);
      s + Repeat(s, n - 1)
  }

  /** `parseAgentOutput` as written: array content goes through `.map((txt) => txt).join("")`,
      which turns each part object into "[object Object]". An empty output has no first
      message and reading its `type` throws (`None`). */
  function ParseAgentOutputAsWritten(input: seq<AgentMessage>, isFragment: bool): (r: Option<string>)
    ensures r.None? <==> input == []
    ensures input != [] && input[0].OtherMessage? ==> r == Some(Fallback(isFragment))
    ensures input != [] && input[0].TextMessage? && input[0].content.Plain? ==> r == Some(input[0].content.s)
    ensures input != [] && input[0].TextMessage? && input[0].content.Parts? ==>
      var n := |input[0].content.parts|;
      |r.value| == |ObjectText| * n && (n > 0 ==> r.value[..|ObjectText|] == ObjectText)
  {
    if input == [] then None
    else match input[0]
      case OtherMessage => Some(Fallback(isFragment))
      case TextMessage(Plain(s)) => Some(s)
      case TextMessage(Parts(ps)) => Some(Repeat(ObjectText, |ps|))
  }

  /** As written, a text split into parts loses its text: two parts of any text come out
      as two "[object Object]" strings, which differs from the same text given as a string. */
  lemma AsWrittenLosesPartText(isFragment: bool)
    ensures ParseAgentOutputAsWritten([TextMessage(Parts([TextContent("Hello"), TextContent(" world")]))], isFragment)
         == Some("[object Object][object Object]")
    ensures ParseAgentOutputAsWritten([TextMessage(Parts([TextContent("Hello"), TextContent(" world")]))], isFragment)
         != ParseAgentOutputAsWritten([TextMessage(Plain("Hello world"))], isFragment)
  {
    var parts := [TextContent("Hello"), TextContent(" world")];
    assert |parts| == 2;
    assert Repeat(ObjectText, 1) == ObjectText + "";
    assert Repeat(ObjectText, 2) == ObjectText + ObjectText == "[object Object][object Object]";
    assert ObjectText + ObjectText != "Hello world" by {
      assert (ObjectText + ObjectText)[0] == '[';
    }
  }

  /** `parseAgentOutput` with the parts' texts concatenated. The empty output still has
      no first message (`None`: the call throws). */
  function ParseAgentOutput(input: seq<AgentMessage>, isFragment: bool): (r: Option<string>)
    ensures r.None? <==> input == []
    ensures input != [] && input[0].OtherMessage? ==> r == Some(Fallback(isFragment))
    ensures input != [] && input[0].TextMessage? && input[0].content.Plain? ==> r == Some(input[0].content.s)
    ensures input != [] && input[0].TextMessage? && input[0].content.Parts? ==>
      r == Some(Concat(Texts(input[0].content.parts)))
  {
    if input == [] then None
    else match input[0]
      case OtherMessage => Some(Fallback(isFragment))
      case TextMessage(Plain(s)) => Some(s)
      case TextMessage(Parts(ps)) => Some(Concat(Texts(ps)))
  }

  /** Only the first message matters: later messages never change the result. */
  lemma FirstMessageOnly(first: AgentMessage, rest: seq<AgentMessage>, isFragment: bool)
    ensures ParseAgentOutput([first] + rest, isFragment) == ParseAgentOutput([first], isFragment)
  {
  }

  /** Splitting a text content into parts anywhere does not change the parsed text: the
      parts of an array content are concatenated in order. */
  lemma {:induction false} PartsConcatenate(a: seq<TextContent>, b: seq<TextContent>, isFragment: bool)
    ensures var whole := ParseAgentOutput([TextMessage(Parts(a + b))], isFragment);
      && whole.Some?
      && whole.value == ParseAgentOutput([TextMessage(Parts(a))], isFragment).value
                        + ParseAgentOutput([TextMessage(Parts(b))], isFragment).value
  {
    PartsParse(a + b, isFragment);
    PartsParse(a, isFragment);
    PartsParse(b, isFragment);
    TextsAppend(a, b);
    ConcatAppend(Texts(a), Texts(b));
  }

  /** A lone text message with array content reads as its parts' texts concatenated. */
  lemma PartsParse(parts: seq<TextContent>, isFragment: bool)
    ensures ParseAgentOutput([TextMessage(Parts(parts))], isFragment) == Some(Concat(Texts(parts)))
  {
  }

  /** The texts of joined part lists are the joined texts. */
  lemma TextsAppend(a: seq<TextContent>, b: seq<TextContent>)
    ensures Texts(a + b) == Texts(a) + Texts(b)
  {
    var l, r := Texts(a + b), Texts(a) + Texts(b);
    assert |l| == |r|;
    forall k | 0 <= k < |l| ensures l[k] == r[k] {
      if k < |a| {
        assert (a + b)[k] == a[k];
      } else {
        assert (a + b)[k] == b[k - |a|];
      }
    }
  }

  /** A single text part reads exactly as the same text given as a string. */
  lemma OnePartIsPlain(t: string, isFragment: bool)
    ensures ParseAgentOutput([TextMessage(Parts([TextContent(t)]))], isFragment)
         == ParseAgentOutput([TextMessage(Plain(t))], isFragment)
  {
    assert Texts([TextContent(t)]) == [t];
    assert [t][1..] == [];
    assert Concat([t]) == t + Concat([]) == t;
  }

  /** The written and the corrected parse differ only on array content: the fallback, the
      string case and the empty output are the same. */
  lemma AsWrittenAgreesOffParts(input: seq<AgentMessage>, isFragment: bool)
    requires input == [] || !(input[0].TextMessage? && input[0].content.Parts?)
    ensures ParseAgentOutputAsWritten(input, isFragment) == ParseAgentOutput(input, isFragment)
  {
  }
}
