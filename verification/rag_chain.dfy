/** The conversation logic of the chatbot (models/rag_chain.py): the keyword crisis
    detector, the retrieval-context formatter, the normaliser that maps free classifier
    text onto the seven labels, the reply composer's prompt window, and the per-turn
    state machine `chat`. The language model is an oracle that answers a prompt or fails;
    retrieval goes through the document store model. */
module RagChain {
  import opened Common
  import opened Seqs
  import opened Strings
  import opened VectorStore

  /** One turn of the conversation as the caller supplies it. */
  datatype ChatMessage = ChatMessage(role: string, content: string)

  /** The seven classification labels, in the order the normaliser tries them. */
  datatype Label = Anxiety | Depression | Stress | Bipolar | PersonalityDisorder | Suicidal | Normal

  function LabelName(l: Label): string
  {
    match l
    case Anxiety => "Anxiety"
    case Depression => "Depression"
    case Stress => "Stress"
    case Bipolar => "Bipolar"
    case PersonalityDisorder => "Personality Disorder"
    case Suicidal => "Suicidal"
    case Normal => "Normal"
  }

  const Labels: seq<Label> := [Anxiety, Depression, Stress, Bipolar, PersonalityDisorder, Suicidal, Normal]

  /** The position of a label in `Labels`. */
  function LabelIndex(l: Label): (i: nat)
    ensures i < |Labels| && Labels[i] == l
  {
    match l
    case Anxiety => 0
    case Depression => 1
    case Stress => 2
    case Bipolar => 3
    case PersonalityDisorder => 4
    case Suicidal => 5
    case Normal => 6
  }

  /** What the language model is asked: a classification of the user's messages, or a
      reply (in gathering or in summary mode) to the given turns. */
  datatype Prompt =
    | ClassifyPrompt(userMessages: seq<string>)
    | ReplyPrompt(gathering: bool, turns: seq<ChatMessage>)

  /** The language model's answer: its text, or a failure of the call. */
  datatype Completion = Failed | Completed(text: string)

  type Llm = Prompt -> Completion

  /** The chain's collaborators: the document store, its backend, the language model and
      the number of documents retrieved per turn. */
  datatype Chain = Chain(store: Store, backend: Backend, llm: Llm, retrievalTopK: int)

  /** The result of one turn. */
  datatype RagResponse = RagResponse(
    answer: string,
    classification: Option<Label>,
    confidence: real,
    retrievedContext: seq<Hit>,
    isCrisis: bool,
    isFinalAnalysis: bool,
    messageCount: nat)

  const MinMessagesForAnalysis := 5

  // ---------------------------------------------------------------------------
  // Crisis detection

  const CrisisKeywords: seq<string> := [
    "suicide", "kill myself", "end my life", "want to die",
    "self-harm", "hurt myself", "cutting", "overdose",
    "no reason to live", "better off dead", "ending it all"]

  /** `_check_crisis`: some keyword occurs in the lower-cased message. */
  function CheckCrisis(text: string): (r: bool)
    ensures r <==> exists k | k in CrisisKeywords :: IsSubstring(Lower(text), k)
  {
    var lowered := Lower(text);
    forall k | k in CrisisKeywords ensures Contains(lowered, k) <==> IsSubstring(lowered, k) {
      ContainsIffSubstring(lowered, k);
    }
    exists k | k in CrisisKeywords :: Contains(lowered, k)
  }

  /** The detector ignores letter case: messages that lower-case alike are flagged alike. */
  lemma CrisisIgnoresCase(a: string, b: string)
    requires Lower(a) == Lower(b)
    ensures CheckCrisis(a) == CheckCrisis(b)
  {
  }

  /** A flagged message stays flagged whatever text surrounds it. */
  lemma CrisisInContext(before: string, text: string, after: string)
    requires CheckCrisis(text)
    ensures CheckCrisis(before + text + after)
  {
    var k :| k in CrisisKeywords && Contains(Lower(text), k);
    LowerConcat(before, text);
    LowerConcat(before + text, after);
    ContainsInContext(Lower(before), Lower(text), Lower(after), k);
  }

  /** A keyword written in lower case anywhere in the message flags it. */
  lemma KeywordFlags(text: string, i: nat, k: nat)
    requires k < |CrisisKeywords| && i + |CrisisKeywords[k]| <= |text|
    requires text[i..i + |CrisisKeywords[k]|] == CrisisKeywords[k]
    ensures CheckCrisis(text)
  {
    var kw := CrisisKeywords[k];
    LowerSlice(text, i, i + |kw|);
    KeywordsAreLowerCase(k);
    assert OccursAt(Lower(text), kw, i);
    assert IsSubstring(Lower(text), kw);
    assert kw in CrisisKeywords;
  }

  lemma KeywordsAreLowerCase(k: nat)
    requires k < |CrisisKeywords|
    ensures Lower(CrisisKeywords[k]) == CrisisKeywords[k]
  {
    var kw := CrisisKeywords[k];
    forall c | 0 <= c < |kw| ensures !('A' <= kw[c] <= 'Z') {
    }
    LowerNoCapitals(kw);
  }

  /** The crisis messages of the API tests are flagged. */
  lemma CrisisExamples()
    ensures CheckCrisis("I want to end my life")
    ensures CheckCrisis("I've been thinking about suicide")
  {
    var a := "I want to end my life";
    assert a[10..21] == CrisisKeywords[2];
    KeywordFlags(a, 10, 2);
    var b := "I've been thinking about suicide";
    assert b[25..32] == CrisisKeywords[0];
    KeywordFlags(b, 25, 0);
  }

  /** A greeting is not flagged: every keyword is longer than it. */
  lemma GreetingIsNotCrisis()
    ensures !CheckCrisis("Hello")
  {
    assert |Lower("Hello")| == 5;
    forall k | k in CrisisKeywords ensures !IsSubstring(Lower("Hello"), k) {
      NotContainsLonger(Lower("Hello"), k);
      ContainsIffSubstring(Lower("Hello"), k);
    }
  }

  // ---------------------------------------------------------------------------
  // Context formatting

  /** The line for the `i`-th retrieved document, counted from 1. */
  function ContextLine(i: nat, content: string): string
  {
    "[" + NatToString(i) + "] " + content
  }

  function ContextLines(docs: seq<Hit>): (r: seq<string>)
    ensures |r| == |docs| && forall j | 0 <= j < |docs| :: r[j] == ContextLine(j + 1, docs[j].content)
  {
    seq(|docs|, j requires 0 <= j < |docs| => ContextLine(j + 1, docs[j].content))
  }

  /** `_format_context`: empty for no documents, otherwise one numbered line per
      document in retrieval order, joined by newlines. */
  function FormatContext(docs: seq<Hit>): (r: string)
    ensures r == "" <==> |docs| == 0
    ensures |docs| > 0 ==> StartsWith(r, ContextLine(1, docs[0].content))
    ensures |docs| == 1 ==> r == ContextLine(1, docs[0].content)
  {
    if |docs| == 0 then ""
    else
      var lines := ContextLines(docs);
      JoinStartsWithFirst(lines, "\n");
      assert |docs| == 1 ==> lines == [ContextLine(1, docs[0].content)];
      Join(lines, "\n")
  }

  /** One more document adds one more numbered line at the end. */
  lemma FormatContextAppend(docs: seq<Hit>, d: Hit)
    requires |docs| > 0
    ensures FormatContext(docs + [d]) == FormatContext(docs) + "\n" + ContextLine(|docs| + 1, d.content)
  {
    var lines := ContextLines(docs + [d]);
    assert lines[..|lines| - 1] == ContextLines(docs);
  }

  // ---------------------------------------------------------------------------
  // Label normalisation

  /** Index of the first label from `i` on whose name is exactly `c`. */
  function ExactFrom(c: string, i: nat): (r: Option<nat>)
    requires i <= |Labels|
    ensures r.Some? ==> i <= r.value < |Labels| && LabelName(Labels[r.value]) == c
    ensures r.None? ==> forall j | i <= j < |Labels| :: LabelName(Labels[j]) != c
    decreases |Labels| - i
  {
    if i == |Labels| then None
    else if LabelName(Labels[i]) == c then Some(i)
    else ExactFrom(c, i + 1)
  }

  /** The lower-cased name of the `j`-th label. */
  function LowerName(j: nat): string
    requires j < |Labels|
  {
    Lower(LabelName(Labels[j]))
  }

  /** Index of the first label from `i` on whose lower-cased name occurs in `lowered`. */
  function FirstContainedFrom(lowered: string, i: nat): (r: Option<nat>)
    requires i <= |Labels|
    ensures r.Some? ==> i <= r.value < |Labels| && IsSubstring(lowered, LowerName(r.value))
    ensures r.Some? ==> forall j | i <= j < r.value :: !IsSubstring(lowered, LowerName(j))
    ensures r.None? ==> forall j | i <= j < |Labels| :: !IsSubstring(lowered, LowerName(j))
    decreases |Labels| - i
  {
    if i == |Labels| then None
    else if MentionsLabel(lowered, i) then Some(i)
    else FirstContainedFrom(lowered, i + 1)
  }

  /** `name.lower() in lowered` for the `j`-th label, by the scanning `in`. */
  function MentionsLabel(lowered: string, j: nat): (b: bool)
    requires j < |Labels|
    ensures b <==> IsSubstring(lowered, LowerName(j))
  {
    ContainsIffSubstring(lowered, LowerName(j));
    Contains(lowered, LowerName(j))
  }

  /** The validation step of `_analyze_conversation`: the stripped reply when it is a
      label name; otherwise the first label, in list order, whose lower-cased name occurs
      in the lower-cased reply; otherwise `Normal`. */
  function NormaliseLabel(reply: string): (l: Label)
    ensures (exists j | 0 <= j < |Labels| :: LabelName(Labels[j]) == Strip(reply)) ==> LabelName(l) == Strip(reply)
    ensures (forall j | 0 <= j < |Labels| :: LabelName(Labels[j]) != Strip(reply)) ==>
      && (l == Normal || IsSubstring(Lower(Strip(reply)), LowerName(LabelIndex(l))))
      && (forall j | 0 <= j < LabelIndex(l) :: !IsSubstring(Lower(Strip(reply)), LowerName(j)))
  {
    var c := Strip(reply);
    match ExactFrom(c, 0)
    case Some(j) => Labels[j]
    case None =>
      match FirstContainedFrom(Lower(c), 0)
      case Some(j) => LabelIndexOf(j); Labels[j]
      case None => Normal
  }

  /** `LabelIndex` inverts indexing into `Labels`. */
  lemma LabelIndexOf(j: nat)
    requires j < |Labels|
    ensures LabelIndex(Labels[j]) == j
  {
  }

  /** A reply that is a label name, possibly padded with whitespace, keeps that label. */
  lemma NormaliseKeepsLabel(pre: string, l: Label, post: string)
    requires forall i | 0 <= i < |pre| :: IsSpace(pre[i])
    requires forall i | 0 <= i < |post| :: IsSpace(post[i])
    ensures NormaliseLabel(pre + LabelName(l) + post) == l
  {
    var name := LabelName(l);
    LabelNameShape(l);
    StripPadded(pre, name, post);
    assert LabelName(Labels[LabelIndex(l)]) == Strip(pre + name + post);
    LabelNameInjective(NormaliseLabel(pre + name + post), l);
  }

  /** Label names are non-empty and have no surrounding whitespace. */
  lemma LabelNameShape(l: Label)
    ensures var name := LabelName(l); |name| > 0 && !IsSpace(name[0]) && !IsSpace(name[|name| - 1])
  {
    match l
    case Anxiety =>
    case Depression =>
    case Stress =>
    case Bipolar =>
    case PersonalityDisorder =>
    case Suicidal =>
    case Normal =>
  }

  /** Distinct labels have distinct names. */
  lemma LabelNameInjective(a: Label, b: Label)
    requires LabelName(a) == LabelName(b)
    ensures a == b
  {
    var name := LabelName(a);
    assert name[0] == LabelName(b)[0];
    assert |name| == |LabelName(b)|;
  }

  /** Normalising a normalised label changes nothing. */
  lemma NormaliseIdempotent(reply: string)
    ensures NormaliseLabel(LabelName(NormaliseLabel(reply))) == NormaliseLabel(reply)
  {
    var l := NormaliseLabel(reply);
    NormaliseKeepsLabel("", l, "");
    assert "" + LabelName(l) + "" == LabelName(l);
  }

  /** An empty reply falls back to `Normal`. */
  lemma NormaliseEmptyReply()
    ensures NormaliseLabel("") == Normal
  {
    assert Strip("") == "";
    forall j | 0 <= j < |Labels| ensures !IsSubstring(Lower(""), Lower(LabelName(Labels[j]))) {
      ContainsIffSubstring("", Lower(LabelName(Labels[j])));
      NotContainsLonger("", Lower(LabelName(Labels[j])));
    }
  }

  // ---------------------------------------------------------------------------
  // Conversation analysis

  /** The contents of the user's turns, in order. */
  function UserContents(history: seq<ChatMessage>): (r: seq<string>)
    ensures |r| <= |history|
  {
    if |history| == 0 then []
    else
      var last := history[|history| - 1];
      UserContents(history[..|history| - 1]) + (if last.role == "user" then [last.content] else [])
  }

  /** Counting user turns distributes over concatenation of histories. */
  lemma {:induction false} UserContentsConcat(a: seq<ChatMessage>, b: seq<ChatMessage>)
    ensures UserContents(a + b) == UserContents(a) + UserContents(b)
    decreases |b|
  {
    if |b| == 0 {
      assert a + b == a;
    } else {
      var init := b[..|b| - 1];
      assert (a + b)[..|a + b| - 1] == a + init;
      assert (a + b)[|a + b| - 1] == b[|b| - 1];
      UserContentsConcat(a, init);
    }
  }

  /** An assistant turn adds no user message; a user turn adds exactly its content. */
  lemma UserContentsStep(history: seq<ChatMessage>, m: ChatMessage)
    ensures m.role == "user" ==> UserContents(history + [m]) == UserContents(history) + [m.content]
    ensures m.role != "user" ==> UserContents(history + [m]) == UserContents(history)
  {
    assert (history + [m])[..|history|] == history;
  }

  /** The classifier's verdict on the conversation. */
  datatype Analysis = Analysis(category: Label, confidence: real)

  /** `_analyze_conversation`: the classifier sees every user message and the current one;
      its reply is normalised, and a failed call gives `Normal` with confidence 0.5. */
  function Analyze(history: seq<ChatMessage>, current: string, llm: Llm): (a: Analysis)
    ensures llm(ClassifyPrompt(UserContents(history) + [current])).Failed? <==> a.confidence == 0.5
    ensures a.confidence == 0.75 <==> a.category != Normal
    ensures a.confidence in {0.5, 0.6, 0.75}
    ensures a.confidence == 0.5 ==> a.category == Normal
    ensures llm(ClassifyPrompt(UserContents(history) + [current])).Completed? ==>
      a.category == NormaliseLabel(llm(ClassifyPrompt(UserContents(history) + [current])).text)
  {
    match llm(ClassifyPrompt(UserContents(history) + [current]))
    case Failed => Analysis(Normal, 0.5)
    case Completed(text) =>
      var l := NormaliseLabel(text);
      Analysis(l, if l != Normal then 0.75 else 0.6)
  }

  // ---------------------------------------------------------------------------
  // Reply composition

  const HistoryWindow := 6
  const ReferenceLimit := 500
  const ReferenceOpen := "\n\n[Reference info: "
  const Fallback := "I'm here to listen. Could you tell me more about how you're feeling?"

  /** The current user turn: the message, followed by at most the first 500 characters
      of the context when there is any. */
  function UserTurn(message: string, context: string): (r: string)
    ensures context == "" ==> r == message
    ensures context != "" ==>
      && StartsWith(r, message + ReferenceOpen)
      && |r| == |message| + |ReferenceOpen| + Min(|context|, ReferenceLimit) + 1
      && StartsWith(context, r[|message| + |ReferenceOpen|..|r| - 1])
      && r[|r| - 1] == ']'
  {
    if context != "" then
      var shown := context[..Min(|context|, ReferenceLimit)];
      var r := message + ReferenceOpen + shown + "]";
      assert r[|message| + |ReferenceOpen|..|r| - 1] == shown;
      assert r[..|message + ReferenceOpen|] == message + ReferenceOpen;
      r
    else message
  }

  /** The turns sent to the composer: at most the last six history turns, in order,
      then the current user turn. */
  function ReplyTurns(message: string, context: string, history: seq<ChatMessage>): (r: seq<ChatMessage>)
    ensures |r| == Min(|history|, HistoryWindow) + 1
    ensures r[..|r| - 1] == history[|history| - (|r| - 1)..]
    ensures r[|r| - 1] == ChatMessage("user", UserTurn(message, context))
  {
    var recent := SliceFrom(history, -HistoryWindow);
    var r := recent + [ChatMessage("user", UserTurn(message, context))];
    assert r[..|r| - 1] == recent;
    r
  }

  /** `_generate_response`: the model's reply, or the fixed fallback when the call fails. */
  function Compose(message: string, context: string, history: seq<ChatMessage>, gathering: bool, llm: Llm): (r: string)
    ensures llm(ReplyPrompt(gathering, ReplyTurns(message, context, history))).Failed? ==> r == Fallback
    ensures llm(ReplyPrompt(gathering, ReplyTurns(message, context, history))).Completed? ==>
      r == llm(ReplyPrompt(gathering, ReplyTurns(message, context, history))).text
  {
    match llm(ReplyPrompt(gathering, ReplyTurns(message, context, history)))
    case Failed => Fallback
    case Completed(text) => text
  }

  /** The composer only ever sees the last six history turns: histories that end alike
      get the same reply. */
  lemma ComposeSeesRecentHistory(message: string, context: string, h1: seq<ChatMessage>, h2: seq<ChatMessage>,
                                 gathering: bool, llm: Llm)
    requires |h1| >= HistoryWindow && |h2| >= HistoryWindow
    requires h1[|h1| - HistoryWindow..] == h2[|h2| - HistoryWindow..]
    ensures Compose(message, context, h1, gathering, llm) == Compose(message, context, h2, gathering, llm)
  {
    var r1 := ReplyTurns(message, context, h1);
    var r2 := ReplyTurns(message, context, h2);
    assert r1 == r1[..|r1| - 1] + [r1[|r1| - 1]];
    assert r2 == r2[..|r2| - 1] + [r2[|r2| - 1]];
  }

  // ---------------------------------------------------------------------------
  // The turn

  const AnalysisIntro := "Based on our conversation, I've noticed some signs that suggest you may be experiencing **"
  const Disclaimer := "\n\nRemember: This is not a diagnosis. Please consider speaking with a mental health professional for proper support."

  /** The opening of an analysis answer, naming the label. */
  function Preamble(l: Label): string
  {
    AnalysisIntro + LabelName(l) + "**.\n\n"
  }

  /** The answer of an analysis turn: the summary reply between the preamble naming the
      label and the disclaimer. */
  function AnalysisAnswer(l: Label, reply: string): (a: string)
    ensures StartsWith(a, Preamble(l)) && EndsWith(a, Disclaimer)
    ensures |a| == |Preamble(l)| + |reply| + |Disclaimer|
    ensures a[|Preamble(l)|..|a| - |Disclaimer|] == reply
  {
    var a := Preamble(l) + reply + Disclaimer;
    assert a[..|Preamble(l)|] == Preamble(l);
    assert a[|a| - |Disclaimer|..] == Disclaimer;
    assert a[|Preamble(l)|..|a| - |Disclaimer|] == reply;
    a
  }

  /** `chat`: counts the user's turns, checks for a crisis and retrieves context; before
      the fifth user message and without a crisis it only listens, otherwise it classifies
      the conversation (a crisis forcing `Suicidal` with full confidence) and wraps the
      summary reply between the preamble and the disclaimer. */
  function Chat(chain: Chain, message: string, history: Option<seq<ChatMessage>>): (r: RagResponse)
    ensures var h := history.GetOr([]);
      && r.messageCount == |UserContents(h)| + 1
      && r.isCrisis == CheckCrisis(message)
      && r.retrievedContext == Search(chain.store, message, chain.retrievalTopK, None, 0.0, chain.backend)
      && (r.isFinalAnalysis <==> r.messageCount >= MinMessagesForAnalysis || r.isCrisis)
      && (!r.isFinalAnalysis ==> r.classification.None? && r.confidence == 0.0)
      && (r.isFinalAnalysis ==> r.classification.Some? && StartsWith(r.answer, Preamble(r.classification.value)))
      && (r.isCrisis ==> r.classification == Some(Suicidal) && r.confidence == 1.0)
      && 0.0 <= r.confidence <= 1.0
  {
    var h := history.GetOr([]);
    var count := |UserContents(h)| + 1;
    var crisis := CheckCrisis(message);
    var retrieved := Search(chain.store, message, chain.retrievalTopK, None, 0.0, chain.backend);
    var context := FormatContext(retrieved);
    var gathering := count < MinMessagesForAnalysis;
    if gathering && !crisis then
      var answer := Compose(message, context, h, true, chain.llm);
      RagResponse(answer, None, 0.0, retrieved, crisis, false, count)
    else
      var analysis := Analyze(h, message, chain.llm);
      var verdict := if crisis then Suicidal else analysis.category;
      var confidence := if crisis then 1.0 else analysis.confidence;
      var reply := Compose(message, context, h, false, chain.llm);
      RagResponse(AnalysisAnswer(verdict, reply), Some(verdict), confidence, retrieved, crisis, true, count)
  }

  /** While gathering, the answer is the composer's gathering-mode reply to the message,
      the retrieved context and the history. */
  lemma GatheringTurn(chain: Chain, message: string, history: seq<ChatMessage>)
    requires |UserContents(history)| + 1 < MinMessagesForAnalysis && !CheckCrisis(message)
    ensures var r := Chat(chain, message, Some(history));
      && !r.isFinalAnalysis
      && r.retrievedContext == Search(chain.store, message, chain.retrievalTopK, None, 0.0, chain.backend)
      && r.answer == Compose(message, FormatContext(r.retrievedContext), history, true, chain.llm)
  {
  }

  /** From the fifth user message on, without a crisis, the turn reports the analyzer's
      label and confidence and the retrieved context, and its answer is the composer's
      summary-mode reply to that context between the preamble and the disclaimer. */
  lemma AnalysisTurn(chain: Chain, message: string, history: seq<ChatMessage>)
    requires |UserContents(history)| + 1 >= MinMessagesForAnalysis && !CheckCrisis(message)
    ensures var r := Chat(chain, message, Some(history));
      var a := Analyze(history, message, chain.llm);
      && r.isFinalAnalysis
      && r.classification == Some(a.category) && r.confidence == a.confidence
      && r.retrievedContext == Search(chain.store, message, chain.retrievalTopK, None, 0.0, chain.backend)
      && r.answer == AnalysisAnswer(a.category, Compose(message, FormatContext(r.retrievedContext), history, false, chain.llm))
      && EndsWith(r.answer, Disclaimer)
  {
  }

  /** On a crisis the turn is determined without the classifier: `Suicidal` with full
      confidence, around the composer's summary-mode reply. */
  lemma CrisisTurn(chain: Chain, message: string, history: Option<seq<ChatMessage>>)
    requires CheckCrisis(message)
    ensures var h := history.GetOr([]);
      var retrieved := Search(chain.store, message, chain.retrievalTopK, None, 0.0, chain.backend);
      var reply := Compose(message, FormatContext(retrieved), h, false, chain.llm);
      Chat(chain, message, history)
        == RagResponse(AnalysisAnswer(Suicidal, reply), Some(Suicidal), 1.0, retrieved, true, true, |UserContents(h)| + 1)
  {
  }

  /** On a crisis the classifier's verdict is irrelevant: two language models that give
      the same replies produce the same turn whatever they classify. */
  lemma CrisisOverridesClassifier(chain: Chain, llm2: Llm, message: string, history: Option<seq<ChatMessage>>)
    requires CheckCrisis(message)
    requires forall g: bool, turns: seq<ChatMessage> :: chain.llm(ReplyPrompt(g, turns)) == llm2(ReplyPrompt(g, turns))
    ensures Chat(chain, message, history) == Chat(chain.(llm := llm2), message, history)
  {
    var h := history.GetOr([]);
    var ctx := FormatContext(Search(chain.store, message, chain.retrievalTopK, None, 0.0, chain.backend));
    ComposeAgrees(message, ctx, h, false, chain.llm, llm2);
    CrisisTurn(chain, message, history);
    CrisisTurn(chain.(llm := llm2), message, history);
  }

  /** Language models that answer the reply prompt alike compose the same reply. */
  lemma ComposeAgrees(message: string, context: string, history: seq<ChatMessage>, gathering: bool, llm1: Llm, llm2: Llm)
    requires llm1(ReplyPrompt(gathering, ReplyTurns(message, context, history)))
          == llm2(ReplyPrompt(gathering, ReplyTurns(message, context, history)))
    ensures Compose(message, context, history, gathering, llm1) == Compose(message, context, history, gathering, llm2)
  {
  }

  /** Every confidence a turn reports is one of the five values the code produces. */
  lemma ConfidenceValues(chain: Chain, message: string, history: Option<seq<ChatMessage>>)
    ensures Chat(chain, message, history).confidence in {0.0, 0.5, 0.6, 0.75, 1.0}
  {
  }

  /** `s.endswith(suffix)`. */
  predicate EndsWith(s: string, suffix: string)
  {
    |suffix| <= |s| && s[|s| - |suffix|..] == suffix
  }
}
