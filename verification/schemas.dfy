/** The field constraints of the API's request and response schemas (app/schemas.py),
    as validity predicates and as constructors that accept exactly the valid field
    values, filling in the declared defaults. */
module Schemas {
  import opened Common
  import opened RagChain

  const MessageMinLength := 1
  const MessageMaxLength := 5000
  const RatingMin := 1
  const RatingMax := 5
  const FeedbackTextMaxLength := 1000

  /** A field that failed validation. */
  datatype Field = MessageField | RatingField | FeedbackTextField | ConfidenceField | RoleField

  // ---------------------------------------------------------------------------
  // ChatRequest

  datatype ChatRequest = ChatRequest(message: string, sessionId: Option<string>, includeContext: bool)

  predicate ValidChatRequest(r: ChatRequest)
  {
    MessageMinLength <= |r.message| <= MessageMaxLength
  }

  /** Builds a chat request: the message must have between 1 and 5000 characters; the
      session id is optional and `include_context` defaults to false. */
  function MakeChatRequest(message: string, sessionId: Option<string>, includeContext: Option<bool>): (r: Result<ChatRequest, set<Field>>)
    ensures r.Success? <==> 1 <= |message| <= 5000
    ensures r.Success? ==>
      && ValidChatRequest(r.value) && r.value.message == message
      && r.value.sessionId == sessionId && r.value.includeContext == includeContext.GetOr(false)
    ensures r.Failure? ==> r.error == {MessageField}
  {
    var req := ChatRequest(message, sessionId, includeContext.GetOr(false));
    if ValidChatRequest(req) then Success(req) else Failure({MessageField})
  }

  /** The two rejections the API tests expect: an empty message and a 6000-character one. */
  lemma ChatRequestTests(sessionId: Option<string>)
    ensures MakeChatRequest("", sessionId, None).Failure?
    ensures MakeChatRequest(seq(6000, _ => 'a'), sessionId, None).Failure?
    ensures MakeChatRequest("Hello", sessionId, None) == Success(ChatRequest("Hello", sessionId, false))
  {
  }

  // ---------------------------------------------------------------------------
  // FeedbackRequest

  datatype FeedbackRequest = FeedbackRequest(sessionId: string, messageId: string, rating: int, feedbackText: Option<string>)

  /** The fields of a feedback request that break their constraint. */
  function FeedbackErrors(rating: int, feedbackText: Option<string>): (errs: set<Field>)
    ensures RatingField in errs <==> !(RatingMin <= rating <= RatingMax)
    ensures FeedbackTextField in errs <==> feedbackText.Some? && |feedbackText.value| > FeedbackTextMaxLength
    ensures errs <= {RatingField, FeedbackTextField}
  {
    (if RatingMin <= rating <= RatingMax then {} else {RatingField})
    + (if feedbackText.Some? && |feedbackText.value| > FeedbackTextMaxLength then {FeedbackTextField} else {})
  }

  predicate ValidFeedbackRequest(r: FeedbackRequest)
  {
    && RatingMin <= r.rating <= RatingMax
    && (r.feedbackText.Some? ==> |r.feedbackText.value| <= FeedbackTextMaxLength)
  }

  /** Builds a feedback request, reporting every field that breaks its constraint. */
  function MakeFeedbackRequest(sessionId: string, messageId: string, rating: int, feedbackText: Option<string>): (r: Result<FeedbackRequest, set<Field>>)
    ensures r.Success? <==> 1 <= rating <= 5 && (feedbackText.Some? ==> |feedbackText.value| <= 1000)
    ensures r.Success? ==> ValidFeedbackRequest(r.value) && r.value == FeedbackRequest(sessionId, messageId, rating, feedbackText)
    ensures r.Failure? ==> r.error != {} && r.error == FeedbackErrors(rating, feedbackText)
  {
    var errs := FeedbackErrors(rating, feedbackText);
    if errs == {} then Success(FeedbackRequest(sessionId, messageId, rating, feedbackText))
    else
      assert RatingField in errs || FeedbackTextField in errs;
      Failure(errs)
  }

  // ---------------------------------------------------------------------------
  // ChatResponse

  datatype ChatResponse = ChatResponse(
    messageId: string,
    response: string,
    classification: Option<string>,
    confidence: real,
    isCrisis: bool,
    isFinalAnalysis: bool,
    messageCount: int,
    messagesUntilAnalysis: int)

  predicate ValidChatResponse(r: ChatResponse)
  {
    0.0 <= r.confidence <= 1.0
  }

  /** Builds a chat response: the confidence must lie in [0, 1]. */
  function MakeChatResponse(messageId: string, response: string, classification: Option<string>, confidence: real,
                            isCrisis: bool, isFinalAnalysis: bool, messageCount: int, messagesUntilAnalysis: int): (r: Result<ChatResponse, set<Field>>)
    ensures r.Success? <==> 0.0 <= confidence <= 1.0
    ensures r.Success? ==> ValidChatResponse(r.value)
    ensures r.Success? ==> r.value == ChatResponse(messageId, response, classification, confidence, isCrisis,
                                                   isFinalAnalysis, messageCount, messagesUntilAnalysis)
    ensures r.Failure? ==> r.error == {ConfidenceField}
  {
    var resp := ChatResponse(messageId, response, classification, confidence, isCrisis, isFinalAnalysis,
                             messageCount, messagesUntilAnalysis);
    if ValidChatResponse(resp) then Success(resp) else Failure({ConfidenceField})
  }

  /** `max(0, 5 - message_count)`: the user turns left before the analysis. */
  function MessagesUntilAnalysis(messageCount: int): (n: nat)
    ensures messageCount >= MinMessagesForAnalysis <==> n == 0
    ensures messageCount < MinMessagesForAnalysis ==> messageCount + n == MinMessagesForAnalysis
  {
    if messageCount >= MinMessagesForAnalysis then 0 else MinMessagesForAnalysis - messageCount
  }

  /** The `ChatResponse` a turn of the chain fills in: its answer, the name of its
      label, its flags and counts, and the countdown to the analysis. */
  function ResponseOf(messageId: string, t: RagResponse): Result<ChatResponse, set<Field>>
  {
    MakeChatResponse(messageId, t.answer,
                     if t.classification.Some? then Some(LabelName(t.classification.value)) else None,
                     t.confidence, t.isCrisis, t.isFinalAnalysis, t.messageCount,
                     MessagesUntilAnalysis(t.messageCount))
  }

  /** Every turn of the chain fills in a `ChatResponse` that passes validation; the countdown is
      zero exactly from the fifth user message on, and a classification is reported
      exactly on analysis turns. */
  lemma TurnsMakeValidResponses(chain: Chain, messageId: string, message: string, history: Option<seq<ChatMessage>>)
    ensures var t := Chat(chain, message, history);
      var r := ResponseOf(messageId, t);
      && r.Success?
      && ValidChatResponse(r.value)
      && (r.value.messagesUntilAnalysis == 0 <==> t.messageCount >= MinMessagesForAnalysis)
      && (r.value.classification.None? <==> !t.isFinalAnalysis)
  {
  }

  // ---------------------------------------------------------------------------
  // Message

  datatype Message = Message(role: string, content: string, classification: Option<string>, isCrisis: bool)

  /** `^(user|assistant)$`: the role is exactly one of the two words. */
  predicate ValidRole(role: string)
  {
    role == "user" || role == "assistant"
  }

  /** Builds a message: the role must be `user` or `assistant`; `is_crisis` defaults to
      false. */
  function MakeMessage(role: string, content: string, classification: Option<string>, isCrisis: Option<bool>): (r: Result<Message, set<Field>>)
    ensures r.Success? <==> role in {"user", "assistant"}
    ensures r.Success? ==> r.value == Message(role, content, classification, isCrisis.GetOr(false))
    ensures r.Failure? ==> r.error == {RoleField}
  {
    if ValidRole(role) then Success(Message(role, content, classification, isCrisis.GetOr(false)))
    else Failure({RoleField})
  }

  /** A role with anything around the word is rejected: the pattern is anchored. */
  lemma RoleIsAnchored()
    ensures MakeMessage("user ", "", None, None).Failure?
    ensures MakeMessage("User", "", None, None).Failure?
    ensures MakeMessage("system", "", None, None).Failure?
    ensures MakeMessage("assistant", "hi", None, None) == Success(Message("assistant", "hi", None, false))
  {
  }
}
