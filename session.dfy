/**
 * The session state `main` (app.py) keeps in `st.session_state` across
 * reruns, and what one run of `main` does to it: "Clear chat", then
 * "Process documents", then the question in the text box, in that order.
 *
 * The chain built from the pages (splitter, embeddings, vector index, chat
 * model) is a value here: the pages it was built from, the settings it was
 * built with, and its conversation memory. Whether a library call raises,
 * and what the chain answers, are inputs of a run.
 */
module Session {
  import opened Optional
  import opened Extraction
  import opened Citations
  import opened ChatExport

  /** The sidebar's retrieval and model settings that are forwarded to the chain. */
  datatype Settings = Settings(chunkSize: int, chunkOverlap: int, topK: int, model: string)

  /** The conversational retrieval chain: its source pages, its settings and its memory. */
  datatype Chain = Chain(pages: seq<PageDoc>, settings: Settings, memory: seq<Message>)

  /** The four session-state entries. */
  datatype State = State(
    conversation: Option<Chain>,
    chatHistory: seq<Message>,
    vectorReady: bool,
    lastSources: seq<SourceChunk>)

  /** What pressing "Process documents" leads to. */
  datatype ProcessOutcome =
    | NoUploads                        // "Please upload at least one PDF before processing."
    | MissingKey                       // "Missing GOOGLE_API_KEY. ..."
    | ReadFailed                       // `PdfReader` raised while reading an upload
    | NoText                           // "No extractable text found in the uploaded PDFs."
    | IndexFailed                      // chunking, embedding or building the chain raised
    | Indexed(files: nat, pages: nat)  // "Indexed {files} file(s), {pages} page(s) ..."

  /** What the question in the text box leads to. */
  datatype AskOutcome =
    | NoQuestion       // the text box is empty
    | NeedsProcessing  // "Upload & process PDFs first (left sidebar)."
    | InvokeFailed     // `conversation.invoke` raised
    | Answered

  /** The dictionary `conversation.invoke` returns; a missing key is `None`. */
  datatype Reply = Reply(chatHistory: Option<seq<Message>>, sourceDocuments: Option<seq<SourceChunk>>)

  /**
   * Everything one run of `main` depends on: the two buttons, the uploads,
   * the API key, the settings, whether reading or indexing raises, the text
   * box, and what the chain does with a question (`None` when `invoke`
   * raises) together with its memory afterwards.
   */
  datatype RunInput = RunInput(
    clear: bool,
    process: bool,
    uploads: seq<PreparedPdf>,
    key: Option<string>,
    settings: Settings,
    readRaises: bool,
    buildRaises: bool,
    question: string,
    reply: Option<Reply>,
    memoryAfter: seq<Message>)

  const PlaceholderKey: string := "your-key-here"

  /** `os.getenv("GOOGLE_API_KEY") not in (None, "", "your-key-here")`. */
  predicate KeyConfigured(key: Option<string>) {
    key.Some? && key.value != "" && key.value != PlaceholderKey
  }

  /**
   * A conversation exists exactly when the vectors are ready, and it was
   * built from a non-empty set of well-formed pages.
   */
  ghost predicate Consistent(s: State) {
    && s.vectorReady == s.conversation.Some?
    && (s.conversation.Some? ==>
          && s.conversation.value.pages != []
          && forall p :: p in s.conversation.value.pages ==> WellFormedPage(p))
  }

  /** The defaults `main` installs on a session's first run. */
  function Initial(): State {
    State(None, [], false, [])
  }

  /** "Clear chat": the shown history and the chain's memory are emptied. */
  function AfterClear(s: State): State {
    s.(chatHistory := [],
       conversation := if s.conversation.Some? then Some(s.conversation.value.(memory := [])) else None)
  }

  /** The outcome of "Process documents", checked in the source's order. */
  function ProcessOutcomeOf(uploads: seq<PreparedPdf>, key: Option<string>, readRaises: bool, buildRaises: bool): ProcessOutcome {
    if uploads == [] then NoUploads
    else if !KeyConfigured(key) then MissingKey
    else if readRaises then ReadFailed
    else if Extracted(uploads) == [] then NoText
    else if buildRaises then IndexFailed
    else Indexed(|uploads|, TotalPages(uploads))
  }

  /** "Process documents": a fresh chain over the extracted pages on success, no change otherwise. */
  function AfterProcess(s: State, uploads: seq<PreparedPdf>, key: Option<string>, settings: Settings,
                        readRaises: bool, buildRaises: bool): State {
    if ProcessOutcomeOf(uploads, key, readRaises, buildRaises).Indexed? then
      s.(conversation := Some(Chain(Extracted(uploads), settings, [])), vectorReady := true)
    else s
  }

  /** The outcome of the question in the text box. */
  function AskOutcomeOf(s: State, question: string, reply: Option<Reply>): AskOutcome {
    if question == "" then NoQuestion
    else if s.conversation.None? then NeedsProcessing
    else if reply.None? then InvokeFailed
    else Answered
  }

  /** Asking: history and sources become the reply's, and the chain keeps its new memory. */
  function AfterAsk(s: State, question: string, reply: Option<Reply>, memoryAfter: seq<Message>): State {
    if AskOutcomeOf(s, question, reply) == Answered then
      s.(conversation := Some(s.conversation.value.(memory := memoryAfter)),
         chatHistory := reply.value.chatHistory.GetOr([]),
         lastSources := reply.value.sourceDocuments.GetOr([]))
    else s
  }

  /** The state after the clear step of a run. */
  function ClearStep(s: State, e: RunInput): State {
    if e.clear then AfterClear(s) else s
  }

  /** The state after the clear and process steps of a run. */
  function ProcessStep(s: State, e: RunInput): State {
    var c := ClearStep(s, e);
    if e.process then AfterProcess(c, e.uploads, e.key, e.settings, e.readRaises, e.buildRaises) else c
  }

  /**
   * Processing ran and raised: the exception leaves `main`, so the rest of
   * the run, the text box included, does not happen.
   */
  predicate ProcessRaised(e: RunInput) {
    && e.process
    && (var outcome := ProcessOutcomeOf(e.uploads, e.key, e.readRaises, e.buildRaises);
        outcome.ReadFailed? || outcome.IndexFailed?)
  }

  /** One run of `main`: clear, then process, then the question unless processing raised. */
  function AfterRun(s: State, e: RunInput): State {
    if ProcessRaised(e) then ProcessStep(s, e)
    else AfterAsk(ProcessStep(s, e), e.question, e.reply, e.memoryAfter)
  }

  lemma InitialConsistent()
    ensures Consistent(Initial())
    ensures Initial().chatHistory == [] && Initial().lastSources == [] && !Initial().vectorReady
  {
  }

  /** Clearing keeps the invariant, empties history and memory, and leaves readiness and sources alone. */
  lemma ClearKeepsConsistent(s: State)
    requires Consistent(s)
    ensures Consistent(AfterClear(s))
    ensures AfterClear(s).chatHistory == []
    ensures AfterClear(s).conversation.Some? <==> s.conversation.Some?
    ensures AfterClear(s).conversation.Some? ==>
      AfterClear(s).conversation.value == s.conversation.value.(memory := [])
    ensures AfterClear(s).vectorReady == s.vectorReady && AfterClear(s).lastSources == s.lastSources
  {
  }

  /**
   * Processing indexes exactly when there are uploads, the key is set and is
   * not the placeholder, reading and indexing do not raise, and some page of
   * some upload has text; the page count it reports includes the pages
   * without text.
   */
  lemma ProcessSucceedsIff(uploads: seq<PreparedPdf>, key: Option<string>, readRaises: bool, buildRaises: bool)
    ensures ProcessOutcomeOf(uploads, key, readRaises, buildRaises).Indexed? <==>
      uploads != [] && KeyConfigured(key) && !readRaises && !buildRaises && HasText(uploads, Normalize)
    ensures ProcessOutcomeOf(uploads, key, readRaises, buildRaises).Indexed? ==>
      && ProcessOutcomeOf(uploads, key, readRaises, buildRaises).files == |uploads|
      && 1 <= |Extracted(uploads)| <= ProcessOutcomeOf(uploads, key, readRaises, buildRaises).pages
  {
    ExtractedEmptyIff(uploads, Normalize);
    ExtractedCount(uploads, Normalize);
  }

  /**
   * Processing keeps the invariant; a success installs a chain over
   * non-empty, well-formed pages with empty memory, a failure changes
   * nothing, and the history and sources are never touched.
   */
  lemma ProcessKeepsConsistent(s: State, uploads: seq<PreparedPdf>, key: Option<string>, settings: Settings,
                               readRaises: bool, buildRaises: bool)
    requires Consistent(s)
    ensures var t := AfterProcess(s, uploads, key, settings, readRaises, buildRaises);
      && Consistent(t)
      && t.chatHistory == s.chatHistory && t.lastSources == s.lastSources
      && (ProcessOutcomeOf(uploads, key, readRaises, buildRaises).Indexed? ==>
            t.vectorReady && t.conversation.Some? && t.conversation.value.memory == []
            && t.conversation.value.pages == Extracted(uploads))
      && (!ProcessOutcomeOf(uploads, key, readRaises, buildRaises).Indexed? ==> t == s)
  {
    if ProcessOutcomeOf(uploads, key, readRaises, buildRaises).Indexed? {
      ExtractedWellFormed(uploads);
    }
  }

  /**
   * Asking keeps the invariant; only an answered question changes anything,
   * and then the history and sources are the reply's (empty when absent).
   */
  lemma AskKeepsConsistent(s: State, question: string, reply: Option<Reply>, memoryAfter: seq<Message>)
    requires Consistent(s)
    ensures var t := AfterAsk(s, question, reply, memoryAfter);
      && Consistent(t)
      && t.vectorReady == s.vectorReady
      && (AskOutcomeOf(s, question, reply) == Answered <==> question != "" && s.conversation.Some? && reply.Some?)
      && (AskOutcomeOf(s, question, reply) != Answered ==> t == s)
      && (AskOutcomeOf(s, question, reply) == Answered ==>
            && t.chatHistory == reply.value.chatHistory.GetOr([])
            && t.lastSources == reply.value.sourceDocuments.GetOr([])
            && t.conversation == Some(s.conversation.value.(memory := memoryAfter)))
  {
  }

  /** A whole run keeps the invariant. */
  lemma RunKeepsConsistent(s: State, e: RunInput)
    requires Consistent(s)
    ensures Consistent(AfterRun(s, e))
  {
    var c := ClearStep(s, e);
    ClearKeepsConsistent(s);
    ProcessKeepsConsistent(c, e.uploads, e.key, e.settings, e.readRaises, e.buildRaises);
    AskKeepsConsistent(ProcessStep(s, e), e.question, e.reply, e.memoryAfter);
  }

  /**
   * "Clear chat" with an empty text box leaves an empty history and, if
   * there is a conversation, an empty memory, even when processing runs in
   * the same pass.
   */
  lemma ClearWithoutQuestion(s: State, e: RunInput)
    requires e.clear && e.question == ""
    ensures AfterRun(s, e).chatHistory == []
    ensures AfterRun(s, e).conversation.Some? ==> AfterRun(s, e).conversation.value.memory == []
    ensures AfterRun(s, e).lastSources == s.lastSources
  {
  }

  /**
   * A raise while processing ends the run: only the clear step has taken
   * effect, whatever the text box holds.
   */
  lemma RaiseEndsRun(s: State, e: RunInput)
    requires ProcessRaised(e)
    ensures AfterRun(s, e) == ClearStep(s, e)
    ensures AfterRun(s, e).lastSources == s.lastSources
    ensures !e.clear ==> AfterRun(s, e) == s
  {
  }

  /**
   * A question left in the text box is asked again on every run that gets
   * that far: whenever processing did not raise, there is a conversation and
   * the chain answers, the history and sources end as the reply's, whether
   * or not "Clear chat" was pressed in the same run.
   */
  lemma PendingQuestionIsAskedAgain(s: State, e: RunInput)
    requires !ProcessRaised(e)
    requires e.question != "" && s.conversation.Some? && e.reply.Some?
    ensures AfterRun(s, e).chatHistory == e.reply.value.chatHistory.GetOr([])
    ensures AfterRun(s, e).lastSources == e.reply.value.sourceDocuments.GetOr([])
    ensures AfterRun(s, e).conversation.Some? && AfterRun(s, e).conversation.value.memory == e.memoryAfter
  {
    assert ProcessStep(s, e).conversation.Some?;
  }

  /** `st.session_state` as `main` uses it. */
  class SessionState {
    var conversation: Option<Chain>
    var chatHistory: seq<Message>
    var vectorReady: bool
    var lastSources: seq<SourceChunk>

    /** The four entries as a value. */
    function Current(): State
      reads this
    {
      State(conversation, chatHistory, vectorReady, lastSources)
    }

    ghost predicate Valid()
      reads this
    {
      Consistent(Current())
    }

    /** The defaults `main` installs on a session's first run. */
    constructor ()
      ensures Valid()
      ensures Current() == Initial()
    {
      conversation := None;
      chatHistory := [];
      vectorReady := false;
      lastSources := [];
    }

    /** "Clear chat": empty the shown history and the chain's memory; nothing else changes. */
    method ClearChat()
      requires Valid()
      modifies this
      ensures Valid()
      ensures Current() == AfterClear(old(Current()))
    {
      ClearKeepsConsistent(Current());
      chatHistory := [];
      if conversation.Some? {
        conversation := Some(conversation.value.(memory := []));
      }
    }

    /**
     * "Process documents": with uploads, a configured key, readable PDFs,
     * some page text and an index that builds, install a fresh chain over
     * the extracted pages and mark the vectors ready; otherwise report the
     * error and change nothing.
     */
    method Process(uploads: seq<PreparedPdf>, key: Option<string>, settings: Settings,
                   readRaises: bool, buildRaises: bool)
      returns (outcome: ProcessOutcome)
      requires Valid()
      modifies this
      ensures Valid()
      ensures outcome == ProcessOutcomeOf(uploads, key, readRaises, buildRaises)
      ensures Current() == AfterProcess(old(Current()), uploads, key, settings, readRaises, buildRaises)
    {
      ProcessKeepsConsistent(Current(), uploads, key, settings, readRaises, buildRaises);
      if uploads == [] {
        return NoUploads;
      }
      if !KeyConfigured(key) {
        return MissingKey;
      }
      if readRaises {
        return ReadFailed;
      }
      var pageDocs, totalPages, progress := ExtractDocuments(uploads);
      if pageDocs == [] {
        return NoText;
      }
      if buildRaises {
        return IndexFailed;
      }
      conversation := Some(Chain(pageDocs, settings, []));
      vectorReady := true;
      outcome := Indexed(|uploads|, totalPages);
    }

    /**
     * The question in the text box: with an empty box nothing happens;
     * without a conversation the user is told to process first; when the
     * chain raises nothing changes; otherwise the history and sources become
     * what the chain replied (an absent key reads as an empty list) and the
     * chain keeps its new memory.
     */
    method Ask(question: string, reply: Option<Reply>, memoryAfter: seq<Message>) returns (outcome: AskOutcome)
      requires Valid()
      modifies this
      ensures Valid()
      ensures outcome == AskOutcomeOf(old(Current()), question, reply)
      ensures Current() == AfterAsk(old(Current()), question, reply, memoryAfter)
    {
      AskKeepsConsistent(Current(), question, reply, memoryAfter);
      if question == "" {
        return NoQuestion;
      }
      if conversation.None? {
        return NeedsProcessing;
      }
      if reply.None? {
        return InvokeFailed;
      }
      conversation := Some(conversation.value.(memory := memoryAfter));
      chatHistory := reply.value.chatHistory.GetOr([]);
      lastSources := reply.value.sourceDocuments.GetOr([]);
      outcome := Answered;
    }

    /**
     * One run of `main`: the clear button, the process button, then the text
     * box; a raise while processing ends the run before the text box.
     */
    method Run(e: RunInput) returns (processed: Option<ProcessOutcome>, asked: Option<AskOutcome>)
      requires Valid()
      modifies this
      ensures Valid()
      ensures processed.Some? <==> e.process
      ensures processed.Some? ==> processed.value == ProcessOutcomeOf(e.uploads, e.key, e.readRaises, e.buildRaises)
      ensures asked.None? <==> ProcessRaised(e)
      ensures asked.Some? ==> asked.value == AskOutcomeOf(ProcessStep(old(Current()), e), e.question, e.reply)
      ensures Current() == AfterRun(old(Current()), e)
    {
      if e.clear {
        ClearChat();
      }
      processed := None;
      if e.process {
        var outcome := Process(e.uploads, e.key, e.settings, e.readRaises, e.buildRaises);
        processed := Some(outcome);
        if outcome.ReadFailed? || outcome.IndexFailed? {
          return processed, None;
        }
      }
      var outcome := Ask(e.question, e.reply, e.memoryAfter);
      asked := Some(outcome);
    }
  }
}
