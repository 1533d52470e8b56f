/** Choosing and flattening the assistant's reply from the thread's message
    list, which the service returns newest first. */
module Reply {
  import opened Wrappers
  import opened Text

  const ASSISTANT := "assistant"
  const TEXT := "text"
  /** Returned when there is no assistant message or it has no content parts. */
  const NO_REPLY := "(No reply content)"
  /** Returned when the assistant's text parts strip to nothing. */
  const EMPTY_REPLY := "(Empty reply)"

  /** One content part of a message: its type tag and, for a part tagged
      "text", its text value (ignored for any other tag). */
  datatype Part = Part(kind: string, text: string)

  datatype Message = Message(role: string, content: seq<Part>)

  /** The position of the first assistant message of `page`, if there is one. */
  function FirstAssistant(page: seq<Message>): (r: Option<nat>)
    ensures r.Some? ==> r.value < |page| && page[r.value].role == ASSISTANT
    ensures r.Some? ==> forall j :: 0 <= j < r.value ==> page[j].role != ASSISTANT
    ensures r.None? ==> forall j :: 0 <= j < |page| ==> page[j].role != ASSISTANT
  {
    if page == [] then None
    else if page[0].role == ASSISTANT then Some(0)
    else
      match FirstAssistant(page[1..])
      case None => None
      case Some(i) => Some(i + 1)
  }

  /** The text values of the parts tagged "text", in their order. Every value
      comes from such a part, and every such part contributes its value. */
  function TextValues(content: seq<Part>): (r: seq<string>)
    ensures |r| <= |content|
    ensures forall k :: 0 <= k < |content| && content[k].kind == TEXT ==> content[k].text in r
    ensures forall x :: x in r ==> exists k :: 0 <= k < |content| && content[k].kind == TEXT && content[k].text == x
  {
    if content == [] then []
    else
      var rest := TextValues(content[1..]);
      assert forall k :: 1 <= k < |content| ==> content[k] == content[1..][k - 1];
      if content[0].kind == TEXT then [content[0].text] + rest else rest
  }

  /** Extraction distributes over concatenation, so the order of the parts is
      kept and the parts of one half never affect the other's. */
  lemma {:induction false} TextValuesAppend(a: seq<Part>, b: seq<Part>)
    ensures TextValues(a + b) == TextValues(a) + TextValues(b)
    decreases |a|
  {
    if a != [] {
      assert (a + b)[1..] == a[1..] + b;
      TextValuesAppend(a[1..], b);
    } else {
      assert a + b == b;
    }
  }

  /** A part whose tag is not "text" contributes nothing, wherever it stands. */
  lemma TextValuesIgnoresOtherParts(a: seq<Part>, p: Part, b: seq<Part>)
    requires p.kind != TEXT
    ensures TextValues(a + [p] + b) == TextValues(a + b)
  {
    TextValuesAppend(a, [p]);
    TextValuesAppend(a + [p], b);
    TextValuesAppend(a, b);
  }

  /** The source's loop that appends each text part's value to `parts`. */
  method CollectTextParts(content: seq<Part>) returns (parts: seq<string>)
    ensures parts == TextValues(content)
  {
    parts := [];
    for i := 0 to |content|
      invariant parts == TextValues(content[..i])
    {
      if content[i].kind == TEXT {
        parts := parts + [content[i].text];
      }
      assert content[..i + 1] == content[..i] + [content[i]];
      TextValuesAppend(content[..i], [content[i]]);
    }
    assert content[..|content|] == content;
  }

  /** `"\n".join(parts).strip() or "(Empty reply)"`: never empty; the sentinel
      when the joined text is all whitespace, else that text stripped. */
  function FinishReply(parts: seq<string>): (r: string)
    ensures r != ""
    ensures AllWhitespace(Join(parts, "\n")) ==> r == EMPTY_REPLY
    ensures !AllWhitespace(Join(parts, "\n")) ==> r == Strip(Join(parts, "\n"))
  {
    var stripped := Strip(Join(parts, "\n"));
    if stripped == "" then EMPTY_REPLY else stripped
  }

  /** The reply drawn from the assistant message `m` once it is found: the
      no-content sentinel when it has no parts, else its text parts finished. */
  function ReplyOf(m: Message): (r: string)
    ensures r != ""
    ensures r == NO_REPLY || r == EMPTY_REPLY || IsStripped(r)
    ensures m.content == [] ==> r == NO_REPLY
    ensures m.content != [] ==> r == FinishReply(TextValues(m.content))
  {
    if m.content == [] then NO_REPLY else FinishReply(TextValues(m.content))
  }

  /** The reply `ask_agent` returns for the listed messages `page`. It is never
      empty: it is one of the two sentinels or a non-empty stripped text, and
      only the first assistant message is consulted. */
  function ExtractReply(page: seq<Message>): (r: string)
    ensures r != ""
    ensures r == NO_REPLY || r == EMPTY_REPLY || IsStripped(r)
    ensures FirstAssistant(page).None? ==> r == NO_REPLY
    ensures FirstAssistant(page).Some? ==> r == ReplyOf(page[FirstAssistant(page).value])
  {
    match FirstAssistant(page)
    case None => NO_REPLY
    case Some(i) => ReplyOf(page[i])
  }

  /** Prefixing messages that are not the assistant's shifts the position of
      the first assistant message and changes nothing else. */
  lemma {:induction false} FirstAssistantSkips(before: seq<Message>, rest: seq<Message>)
    requires forall j :: 0 <= j < |before| ==> before[j].role != ASSISTANT
    ensures FirstAssistant(before + rest).None? <==> FirstAssistant(rest).None?
    ensures FirstAssistant(rest).Some? ==>
              FirstAssistant(before + rest) == Some(|before| + FirstAssistant(rest).value)
    decreases |before|
  {
    if before == [] {
      assert before + rest == rest;
    } else {
      assert (before + rest)[1..] == before[1..] + rest;
      FirstAssistantSkips(before[1..], rest);
    }
  }

  /** Messages before the first assistant message do not affect the reply. */
  lemma ReplySkipsNonAssistant(before: seq<Message>, rest: seq<Message>)
    requires forall j :: 0 <= j < |before| ==> before[j].role != ASSISTANT
    ensures ExtractReply(before + rest) == ExtractReply(rest)
  {
    FirstAssistantSkips(before, rest);
    if FirstAssistant(rest).Some? {
      var i := FirstAssistant(rest).value;
      assert (before + rest)[|before| + i] == rest[i];
    }
  }

  /** Once an assistant message is found, the messages after it (older ones,
      including older assistant messages) are not consulted. */
  lemma ReplyIgnoresLater(m: Message, later: seq<Message>)
    requires m.role == ASSISTANT
    ensures ExtractReply([m] + later) == ReplyOf(m)
  {
  }

  /** Text that is already stripped and non-empty comes back unchanged. */
  lemma FinishKeepsStrippedText(parts: seq<string>)
    requires Join(parts, "\n") != "" && IsStripped(Join(parts, "\n"))
    ensures FinishReply(parts) == Join(parts, "\n")
  {
    var j := Join(parts, "\n");
    assert j == [] + j + [];
    StripUnique([], j, []);
  }

  /** Two text parts "A" and "B" in the newest assistant message give "A\nB". */
  lemma TwoTextPartsReply(older: seq<Message>)
    ensures ExtractReply([Message(ASSISTANT, [Part(TEXT, "A"), Part(TEXT, "B")])] + older) == "A\nB"
  {
    var m := Message(ASSISTANT, [Part(TEXT, "A"), Part(TEXT, "B")]);
    assert TextValues(m.content) == ["A", "B"];
    assert Join(["A", "B"], "\n") == "A\nB";
    FinishKeepsStrippedText(["A", "B"]);
  }
}
