/** The text handling of `ask_chatbot` and of the answer view in app.py: the
    retrieved documents joined into one context block, the fixed prompt
    template the context and the question are placed into, and the shortened
    preview of each reference shown under the answer. The vector search and
    the language-model call are not modelled; the documents the search returned
    are an input here. */
module Chatbot {
  import opened Sequences

  datatype Option<T> = None | Some(value: T)

  /** The separator placed between retrieved documents. */
  const Separator := "\n\n---\n\n"

  /** The context block: the retrieved documents joined by `Separator`. */
  function Context(documents: seq<string>): (r: string)
    ensures r == "" <==> documents == [] || documents == [""]
  {
    Join(Separator, documents)
  }

  /** Each document appears whole in the context, at its offset, in retrieval
      order, with one separator between neighbours and nothing after the last. */
  lemma ContextAt(documents: seq<string>, i: nat)
    requires i < |documents|
    ensures var c, start := Context(documents), Offset(Separator, documents, i);
      var end := start + |documents[i]|;
      end <= |c| && c[start..end] == documents[i]
      && (i + 1 < |documents| ==> end + |Separator| <= |c| && c[end..end + |Separator|] == Separator)
      && (i + 1 == |documents| ==> end == |c|)
  {
    JoinAt(Separator, documents, i);
  }

  /** The fixed text of the prompt before the context. */
  const PromptHead := "당신은 산업안전보건법 전문 상담사입니다.\n"
    + "아래 제공된 법령 조문을 참고하여 질문에 답변해주세요.\n"
    + "\n"
    + "## 참고 법령 조문:\n"

  /** The fixed text between the context and the question. */
  const PromptMiddle := "\n\n## 질문:\n"

  /** The fixed instructions after the question. */
  const PromptTail := "\n\n## 답변 지침:\n"
    + "1. 반드시 위 조문 내용을 근거로 답변하세요\n"
    + "2. 관련 조문 번호를 명시하세요 (예: 제29조에 따르면...)\n"
    + "3. 조문에 없는 내용은 \"해당 내용은 제공된 조문에서 찾지 못했습니다\"라고 답하세요\n"
    + "4. 쉽고 친절하게 설명하세요\n"
    + "5. 마지막에 면책조항을 추가하세요: \"※ 본 답변은 참고용이며, 정확한 법률 해석은 전문가와 상담하시기 바랍니다.\"\n"
    + "\n"
    + "## 답변:"

  /** The prompt sent to the language model. */
  function Prompt(context: string, question: string): string
  {
    PromptHead + context + PromptMiddle + question + PromptTail
  }

  /** The context a prompt carries, given the question it was built for: what
      lies between the fixed head and the fixed text around the question. */
  function ContextOfPrompt(prompt: string, question: string): Option<string>
  {
    var closing := PromptMiddle + question + PromptTail;
    if |PromptHead| + |closing| <= |prompt|
       && prompt[..|PromptHead|] == PromptHead
       && prompt[|prompt| - |closing|..] == closing
    then Some(prompt[|PromptHead|..|prompt| - |closing|])
    else None
  }

  /** The context and the question sit unchanged in the fixed template: the
      context can be read back out of the prompt. */
  lemma PromptRoundTrip(context: string, question: string)
    ensures ContextOfPrompt(Prompt(context, question), question) == Some(context)
  {
    var p := Prompt(context, question);
    var closing := PromptMiddle + question + PromptTail;
    assert p == PromptHead + context + closing;
    assert p[..|PromptHead|] == PromptHead;
    assert p[|p| - |closing|..] == closing;
    assert p[|PromptHead|..|p| - |closing|] == context;
  }

  /** With no retrieved documents the context section of the prompt is empty:
      the head is followed directly by the text before the question. */
  lemma PromptWithoutDocuments(question: string)
    ensures Prompt(Context([]), question) == PromptHead + PromptMiddle + question + PromptTail
  {
    assert PromptHead + "" == PromptHead;
  }

  /** What `ask_chatbot` hands over: the prompt, and the retrieved documents
      returned as the references. */
  datatype ChatRequest = ChatRequest(prompt: string, references: seq<string>)

  function Compose(question: string, documents: seq<string>): ChatRequest
  {
    ChatRequest(Prompt(Context(documents), question), documents)
  }

  /** The composed prompt carries exactly the joined documents as its context,
      and the references are the documents themselves, untruncated. */
  lemma ComposeCarriesDocuments(question: string, documents: seq<string>)
    ensures ContextOfPrompt(Compose(question, documents).prompt, question) == Some(Context(documents))
    ensures Compose(question, documents).references == documents
  {
    PromptRoundTrip(Context(documents), question);
  }

  /** Number of characters of a reference shown before it is cut. */
  const PreviewLimit := 500

  /** Marker appended to a cut reference. */
  const Ellipsis := "..."

  /** The text shown for one reference under the answer. */
  function Preview(reference: string): (r: string)
    ensures |r| <= PreviewLimit + |Ellipsis|
    ensures |reference| <= PreviewLimit ==> r == reference
    ensures |reference| > PreviewLimit ==>
      |r| == PreviewLimit + |Ellipsis| && r[..PreviewLimit] == reference[..PreviewLimit]
      && r[PreviewLimit..] == Ellipsis
  {
    if |reference| > PreviewLimit then reference[..PreviewLimit] + Ellipsis else reference
  }

  /** A preview previewed again is unchanged. */
  lemma PreviewIdempotent(reference: string)
    ensures Preview(Preview(reference)) == Preview(reference)
  {
    var r := Preview(reference);
    if |reference| > PreviewLimit {
      assert r[..PreviewLimit] + Ellipsis == r;
    }
  }
}
