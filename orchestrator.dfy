/**
 * One user turn of the chat page: make sure the message history exists, and
 * for a non-empty question replay the history into the context map, record
 * the question, call the answer chain, show the deduplicated citations and
 * record the answer.
 */
module Orchestrator {
  import opened ChatTypes
  import opened Citations
  import opened Context

  /** What the turn shows below the question. */
  datatype TurnOutput =
    | Skipped                                                  // no question was asked
    | Replied(answer: string, citations: seq<string>)          // answer and citation lines shown
    | AnswerFailed                                             // the answer call raised
    | CitationAborted(answer: string, citations: seq<string>)  // a document without source_url raised KeyError

  /** The whole effect of one turn: the new history, the replayed context map and what is shown. */
  datatype Turn = Turn(history: seq<Message>, context: map<Role, string>, output: TurnOutput)

  /** The chat input counts as a question when it is present and not empty (Python truthiness). */
  predicate IsQuestion(input: Option<string>)
  {
    input.Some? && input.value != ""
  }

  /** The answer call went through and the citation loop reached its end. */
  predicate Completes(input: Option<string>, qa: string -> Reply)
  {
    IsQuestion(input) && qa(input.value).Answered? && AllCited(qa(input.value).answer.sourceDocuments)
  }

  /**
   * One turn on history `h`, with `qa` standing for the answer chain. The
   * history only grows: by nothing without a question, by the question alone
   * when the call or the citation loop raises, and by the question followed by
   * the answer otherwise. The context map is the replay of the history as it
   * was before the question, and the answer chain never receives it.
   */
  function TakeTurn(h: seq<Message>, input: Option<string>, qa: string -> Reply): (t: Turn)
    ensures |h| <= |t.history| <= |h| + 2 && t.history[..|h|] == h
    ensures |t.history| > |h| <==> IsQuestion(input)
    ensures t.output.Skipped? <==> !IsQuestion(input)
    ensures !IsQuestion(input) ==> t.context == map[]
    ensures IsQuestion(input) ==> t.history[|h|] == Message(User, input.value) && t.context == LastByRole(h)
    ensures |t.history| == |h| + 2 <==> Completes(input, qa)
    ensures t.output.Replied? <==> Completes(input, qa)
    ensures t.output.AnswerFailed? <==> IsQuestion(input) && qa(input.value).ServiceError?
    ensures Completes(input, qa) ==>
      t.history[|h| + 1] == Message(Assistant, qa(input.value).answer.result)
    ensures t.output.Replied? || t.output.CitationAborted? ==>
      IsQuestion(input) && qa(input.value).Answered? &&
      t.output.answer == qa(input.value).answer.result &&
      t.output.citations == CitationLines(CitedUrls(qa(input.value).answer.sourceDocuments))
  {
    if !IsQuestion(input) then Turn(h, map[], Skipped)
    else
      var question := input.value;
      var asked := h + [Message(User, question)];
      match qa(question)
      case ServiceError => Turn(asked, LastByRole(h), AnswerFailed)
      case Answered(a) =>
        var lines := CitationLines(CitedUrls(a.sourceDocuments));
        if AllCited(a.sourceDocuments) then
          Turn(asked + [Message(Assistant, a.result)], LastByRole(h), Replied(a.result, lines))
        else
          Turn(asked, LastByRole(h), CitationAborted(a.result, lines))
  }

  /** Every assistant message comes right after a user message. */
  predicate AssistantFollowsUser(h: seq<Message>)
  {
    forall i :: 0 <= i < |h| && h[i].role == Assistant ==> 0 < i && h[i - 1].role == User
  }

  lemma TurnKeepsAssistantAfterUser(h: seq<Message>, input: Option<string>, qa: string -> Reply)
    requires AssistantFollowsUser(h)
    ensures AssistantFollowsUser(TakeTurn(h, input, qa).history)
  {
    var t := TakeTurn(h, input, qa);
    forall i | 0 <= i < |t.history| && t.history[i].role == Assistant
      ensures 0 < i && t.history[i - 1].role == User
    {
      if i < |h| {
        assert t.history[i] == h[i] && t.history[i - 1] == h[i - 1];
      }
    }
  }

  function Count(h: seq<Message>, r: Role): (n: nat)
    ensures n <= |h|
  {
    if h == [] then 0
    else Count(h[..|h| - 1], r) + (if h[|h| - 1].role == r then 1 else 0)
  }

  /** Under that invariant there are never more answers than questions in the history. */
  lemma {:induction false} AnswersNeverOutnumberQuestions(h: seq<Message>)
    requires AssistantFollowsUser(h)
    ensures Count(h, Assistant) <= Count(h, User)
  {
    if h != [] {
      var p := h[..|h| - 1];
      assert AssistantFollowsUser(p) by {
        assert forall i :: 0 <= i < |p| ==> p[i] == h[i];
      }
      if h[|h| - 1].role == Assistant {
        var q := p[..|p| - 1];
        assert AssistantFollowsUser(q) by {
          assert forall i :: 0 <= i < |q| ==> q[i] == h[i];
        }
        AnswersNeverOutnumberQuestions(q);
        assert p[|p| - 1] == h[|h| - 2];
      } else {
        AnswersNeverOutnumberQuestions(p);
      }
    }
  }

  /**
   * What the turn shows and appends does not depend on the earlier history.
   * This is a data-flow fact fixed by the type of `qa`, which receives only
   * the question; the lemma records it.
   */
  lemma AnswerIgnoresHistory(h1: seq<Message>, h2: seq<Message>, input: Option<string>, qa: string -> Reply)
    ensures TakeTurn(h1, input, qa).output == TakeTurn(h2, input, qa).output
    ensures TakeTurn(h1, input, qa).history[|h1|..] == TakeTurn(h2, input, qa).history[|h2|..]
  {
  }

  /** st.session_state.messages, when it exists. */
  function ExistingHistory(messages: Option<seq<Message>>): seq<Message>
  {
    if messages.None? then [] else messages.value
  }

  /** The per-session state that survives from one rerun of the page to the next. */
  class Session {
    var messages: Option<seq<Message>>

    ghost predicate Valid()
      reads this
    {
      messages.Some? ==> AssistantFollowsUser(messages.value)
    }

    /** What the invariant buys: the history never has more answers than questions. */
    lemma AnswersBalanced()
      requires Valid() && messages.Some?
      ensures Count(messages.value, Assistant) <= Count(messages.value, User)
    {
      AnswersNeverOutnumberQuestions(messages.value);
    }

    /** A fresh session has no message history yet. */
    constructor ()
      ensures Valid() && messages == None
    {
      messages := None;
    }

    /** The history is created empty when absent and left alone otherwise. */
    method InitHistory()
      requires Valid()
      modifies this
      ensures Valid()
      ensures messages == if old(messages).None? then Some([]) else old(messages)
    {
      if messages.None? {
        messages := Some([]);
      }
    }

    /** One turn on an existing history. */
    method HandleInput(input: Option<string>, qa: string -> Reply) returns (context: map<Role, string>, output: TurnOutput)
      requires Valid() && messages.Some?
      modifies this
      ensures Valid()
      ensures messages == Some(TakeTurn(old(messages.value), input, qa).history)
      ensures context == TakeTurn(old(messages.value), input, qa).context
      ensures output == TakeTurn(old(messages.value), input, qa).output
    {
      TurnKeepsAssistantAfterUser(messages.value, input, qa);
      context := map[];
      if input.None? || input.value == "" {
        output := Skipped;
        return;
      }
      var question := input.value;
      var h := messages.value;
      context := Replay(h);
      messages := Some(h + [Message(User, question)]);
      var reply := qa(question);
      match reply
      case ServiceError =>
        output := AnswerFailed;
      case Answered(a) =>
        var urls, lines, missing := Cite(a.sourceDocuments);
        if missing {
          output := CitationAborted(a.result, lines);
        } else {
          messages := Some(messages.value + [Message(Assistant, a.result)]);
          output := Replied(a.result, lines);
        }
    }

    /** One rerun of the page: create the history if needed, then handle the chat input. */
    method Rerun(input: Option<string>, qa: string -> Reply) returns (context: map<Role, string>, output: TurnOutput)
      requires Valid()
      modifies this
      ensures Valid()
      ensures messages == Some(TakeTurn(ExistingHistory(old(messages)), input, qa).history)
      ensures context == TakeTurn(ExistingHistory(old(messages)), input, qa).context
      ensures output == TakeTurn(ExistingHistory(old(messages)), input, qa).output
    {
      InitHistory();
      context, output := HandleInput(input, qa);
    }
  }
}
