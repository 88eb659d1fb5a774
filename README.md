# PDF chat: a Dafny model of page extraction, citation chips, chat export and session state

The application (`app.py`) is a Streamlit page: the user uploads PDFs, they
are read page by page into LangChain documents, chunked, embedded into a FAISS
index and wrapped in a conversational retrieval chain over a Gemini model.
The user then asks questions, and each answer is shown with the deduplicated
"chips" that cite the source pages. The chat can be cleared and exported as
Markdown.

This project models the logic the application itself owns:

- **Extraction** (`extraction.dfy`, `text.dfy`). `extract_documents` first
  counts all pages, then walks every upload page by page. It removes NUL
  characters, strips Python whitespace, keeps the non-empty pages as records
  `(content, source, page, digest)` and emits one progress report per page.
  A PDF is modelled by its file name, its digest and the list of what
  `extract_text()` returned for each page, `None` included. The loops are
  methods that are proved equal to the recursive specifications `Extracted`,
  `TotalPages` and `ProgressTrace`. Lemmas then prove what those
  specifications promise:
  - every record comes from a real page of its upload and is well formed;
  - every page with text appears, in ascending page order;
  - there are at most as many records as pages;
  - there are no records exactly when no page has text;
  - every progress report stays within bounds.
- **Citation chips** (`citations.dfy`). `render_sources` formats a chip per
  source chunk, with `"PDF"` and `"?"` as the defaults. It then keeps the
  first occurrence of each chip label, in order. The dedup loop is proved
  equal to `FirstOccurrences`. Lemmas prove that this list:
  - is duplicate-free;
  - covers every label;
  - consists of the first occurrences, in order;
  - leaves an already distinct list unchanged.

  Two chunks collapse into one chip exactly when they name the same source
  and the same page.
- **Transcript and export** (`chat_export.dfy`). A history message is shown
  as the user's when its type is `"human"` or `"user"`, otherwise as the
  bot's. The export joins one `**You:** `/`**Assistant:** ` block per message
  with a blank line between blocks. This model proves:
  - where each block lies in the exported text;
  - that appending a message appends one block;
  - that each block's label agrees with the role in the transcript and reads
    back as that role and text.
- **Session** (`session.dfy`). `st.session_state` is a class with four
  fields: `conversation`, `chat_history`, `vector_ready` and `last_sources`.
  Its constructor installs the defaults. The four fields are also a `State`
  value, and pure functions give the state after each action:
  - "Clear chat";
  - "Process documents";
  - the question in the text box;
  - a whole run of `main`, which does those three steps in that order.

  The class methods `ClearChat`, `Process`, `Ask` and `Run` are proved to
  produce exactly those states. Every step keeps the invariant that a
  conversation exists exactly when the vectors are ready, and that it was
  built from non-empty, well-formed pages. Whether reading a PDF, building
  the index or asking the chain raises is an input. The source catches no
  exception. A raise changes no session field, and it ends the run: after a
  raise while processing, the text box is not handled in that run.
  Processing succeeds exactly when all of these hold:
  - there are uploads;
  - the API key is set and is not the placeholder;
  - reading and indexing do not raise;
  - some page has text.

  The text box keeps its value across runs, so a question left in it is
  asked again on every run that gets that far, that is every run in which
  processing did not raise. That includes the run in which "Clear chat" was
  pressed.

## Model

| member | source | states |
|---|---|---|
| Text.RemoveNul | app.py:51 | the result contains no NUL and is no longer than the input |
| Text.RemoveNulKeepsOthers | app.py:51 | every non-NUL character survives exactly as often as it occurs (multiset equality), the length drops by the number of NULs, and NUL-free text is unchanged |
| Text.RemoveNulAppend | app.py:51 | NUL removal works piece by piece on a concatenation, so the surviving characters keep their order |
| Text.IsSpace | app.py:51 | the character set of Python's `str.isspace()`, the characters `strip()` removes (a predicate with no contract) |
| Text.TrimStart | app.py:51 | `lstrip()`: the input from its first non-whitespace character on (a function with no contract; `Strip`'s contract and `StripIsSlice` state its effect) |
| Text.TrimEnd | app.py:51 | `rstrip()`: the input up to its last non-whitespace character (a function with no contract; `Strip`'s contract and `StripIsSlice` state its effect) |
| Text.Strip | app.py:51 | the stripped text is empty or starts and ends with a non-whitespace character (Python's `str.isspace` set) |
| Text.StripIsSlice | app.py:51 | the stripped text is a contiguous slice of the input with only whitespace cut off on either side; it is empty exactly when the input is all whitespace |
| Text.StripIdempotent | app.py:51 | stripping twice is stripping once |
| Text.NatToString | app.py:109 | the decimal rendering of a page number is a non-empty string of digits that starts with `0` only for 0, so it has no leading zero, as `str(n)` does |
| Text.ParseNatToString | app.py:109 | the decimal rendering reads back as the same number |
| Text.NatToStringInjective | app.py:109 | two page numbers render alike exactly when they are equal |
| Extraction.AtLeastOne | app.py:60 | `max(total_pages, 1)` is at least 1 and at least the total, equals any positive total, and is 1 for a total of 0 |
| Extraction.Normalize | app.py:50-51 | a page's text after `or ""`, NUL removal and `strip()` has no NUL and no outer whitespace |
| Extraction.NormalizeEmptyIff | app.py:50-52 | a page is dropped exactly when its extracted text is missing or consists only of NULs and whitespace |
| Extraction.DocPages | app.py:49-58 | the records the inner loop emits for the first n pages of an upload (a specification function; its lemmas below state its properties) |
| Extraction.ExtractedBy | app.py:46-58 | the records of all uploads in upload order, for a given page normaliser (a specification function; its lemmas below state its properties) |
| Extraction.Extracted | app.py:36-62 | the `docs` list `extract_documents` returns, that is `ExtractedBy` with `Normalize` (a specification function) |
| Extraction.TotalPages | app.py:38-42 | the `total_pages` count, every page of every upload (a specification function) |
| Extraction.DocReports | app.py:59-60 | the progress reports of one upload's pages (a specification function; `DocReportsFacts` states its properties) |
| Extraction.ProgressTrace | app.py:44-60 | every progress report of a run (a specification function; `ProgressTraceFacts` states its properties) |
| Extraction.ExtractDocuments | app.py:36-62 | returns exactly the specified page records and page total; emits one progress report per page, with `seen` counting 1, 2, ..., never above the total, the denominator `max(total, 1)` and a page number within its document |
| Extraction.ReadPages | app.py:47-60 | one upload's loop yields the records of its pages with text, in page order, and one report per page |
| Extraction.DocReportsFacts | app.py:59-60 | one upload's reports count on from the pages seen before, name the upload, and number its pages 1..n of n |
| Extraction.ProgressTraceFacts | app.py:44-60 | over all uploads there is one report per page, `seen` runs 1..total in order, and every report is within bounds |
| Extraction.TotalPagesPrefix | app.py:38-42 | the pages of the first uploads never exceed the total page count |
| Extraction.DocPagesFromDocument | app.py:49-58 | every record of an upload carries that upload's name and digest, a page number in range, and that page's normalised non-empty text |
| Extraction.ExtractedProvenance | app.py:46-58 | every record has non-empty content and comes from some page of some upload |
| Extraction.ExtractedWellFormed | app.py:50-58 | every record's content is non-empty, NUL-free and has no leading or trailing whitespace |
| Extraction.DocPagesComplete | app.py:49-58 | every page of an upload that has text yields its record |
| Extraction.ExtractedComplete | app.py:46-58 | every page with text, in any upload, yields its record with the right name, page number and digest |
| Extraction.ExtractedAppend | app.py:46-58 | the records of two batches of uploads are the records of the first followed by those of the second |
| Extraction.DocPagesAscending | app.py:49-58 | within an upload, records come in strictly ascending page order |
| Extraction.DocPagesCount | app.py:49-58 | an upload yields at most one record per page |
| Extraction.ExtractedCount | app.py:38-58 | there are never more records than pages in total |
| Extraction.DocPagesEmptyIff | app.py:49-58 | an upload yields no record exactly when none of its pages has text |
| Extraction.ExtractedEmptyIff | app.py:46-58 | extraction returns no records exactly when no page of any upload has text |
| Citations.SourceOf | app.py:106-107 | the chunk's `source` metadata, `"PDF"` when the metadata or the key is missing (a function with no contract; `ChipCollapse` uses it) |
| Citations.PageOf | app.py:106-108 | the chunk's `page` metadata, absent when the metadata or the key is missing (a function with no contract) |
| Citations.PageText | app.py:107-109 | the page part of a chip never contains a double quote |
| Citations.ChipLabel | app.py:109 | the chip f-string for a source and a page text (a function with no contract; `ChipLabelLayout` and `ChipLabelInjective` state its properties) |
| Citations.ChipOf | app.py:105-109 | the chip of one chunk (a function with no contract; `ChipCollapse` states when two chunks give the same chip) |
| Citations.FirstOccurrences | app.py:110-113 | the list with only the first occurrence of each element, in order (a specification function; the lemmas below state its properties) |
| Citations.Chips | app.py:104-109 | one chip per source chunk, in order, each formatted from that chunk's metadata |
| Citations.RenderSources | app.py:101-114 | nothing is rendered for an empty source list; otherwise the chips shown are the first occurrences of the chunks' chip labels |
| Citations.KeepFirst | app.py:110-113 | the seen-set loop keeps exactly the first occurrence of every label, in order |
| Citations.FirstOccurrencesDistinct | app.py:110-113 | the deduplicated chips are pairwise distinct |
| Citations.FirstOccurrencesCovers | app.py:110-113 | a label is shown exactly when some chunk produced it |
| Citations.FirstOccurrencesAreFirst | app.py:110-113 | each kept chip is the first occurrence of its label, and the kept chips keep the order of the originals |
| Citations.FirstOccurrencesOfDistinct | app.py:110-113 | a list without repeats comes through unchanged |
| Citations.ChipLabelLayout | app.py:109 | a chip's title attribute holds the page text right after `title="Page `, closed by a quote |
| Citations.ChipLabelInjective | app.py:109 | for quote-free page text, two chip labels are equal exactly when their source and page text are equal |
| Citations.ChipCollapse | app.py:105-113 | two chunks give the same chip, and so collapse into one, exactly when their source and their page (defaults included) are the same |
| ChatExport.FromUser | app.py:239 | `m.type in ("human", "user")`, the test the transcript and the export share (a predicate with no contract) |
| ChatExport.RoleOf | app.py:239 | the role the transcript renders a message with (a function with no contract; `BlockLabelIff` ties it to the export) |
| ChatExport.Block | app.py:266 | one exported block, the speaker's label and the text (a function with no contract; `BlockLabelIff` and `ParseBlockRoundTrip` state its properties) |
| ChatExport.Join | app.py:264 | Python's `sep.join(parts)` (a specification function; `JoinLength`, `JoinPartAt`, `JoinSeparatorBefore` and `JoinLast` state its layout) |
| ChatExport.Export | app.py:264-268 | the exported Markdown (a specification function; `ExportLayout` and `ExportAppend` state its layout) |
| ChatExport.Blocks | app.py:265-268 | one export block per history message |
| ChatExport.BlocksAt | app.py:265-268 | block k is the labelled text of message k |
| ChatExport.ExportChat | app.py:261-269 | the export exists exactly when the history is non-empty |
| ChatExport.PartStartPrefix | app.py:264 | where a part starts in the joined text depends only on the parts before it |
| ChatExport.JoinLength | app.py:264 | `sep.join(parts)` is as long as the parts plus one separator between each pair |
| ChatExport.JoinPartAt | app.py:264 | every part appears verbatim at its offset in the joined text |
| ChatExport.JoinSeparatorBefore | app.py:264 | every part but the first is preceded by the separator |
| ChatExport.JoinLast | app.py:264 | the joined text ends with a separator and the last part |
| ChatExport.ExportLayout | app.py:264-268 | the exported Markdown holds every message's block, in history order, each but the first after a blank line |
| ChatExport.ExportAppend | app.py:264-268 | appending a message to a non-empty history appends a blank line and that message's block |
| ChatExport.BlockLabelIff | app.py:266 | a block starts with `**You:** ` exactly when the message is from the user, and with `**Assistant:** ` exactly when it is not; this is the same test the transcript uses at line 239, so both show the same role |
| ChatExport.ParseBlockRoundTrip | app.py:266 | every exported block reads back as the role the transcript shows and the message text |
| Session.KeyConfigured | app.py:196 | the key is present, non-empty and not `"your-key-here"` (a predicate with no contract) |
| Session.ProcessOutcomeOf | app.py:192-213 | the outcome of "Process documents" in the source's order: no uploads, missing key, a read error, no text, an indexing error, success (a function with no contract; `ProcessSucceedsIff` states its properties) |
| Session.AfterClear | app.py:186-189 | the state after "Clear chat" (a function with no contract; `ClearKeepsConsistent` states its properties) |
| Session.AfterProcess | app.py:192-214 | the state after "Process documents" (a function with no contract; `ProcessKeepsConsistent` states its properties) |
| Session.AskOutcomeOf | app.py:226-233 | the outcome of the text box: empty, no conversation, `invoke` raised, answered (a function with no contract; `AskKeepsConsistent` states its properties) |
| Session.AfterAsk | app.py:226-230 | the state after the text box is handled (a function with no contract; `AskKeepsConsistent` states its properties) |
| Session.ProcessRaised | app.py:199-207 | processing ran in this run and reading or indexing raised, so the exception leaves `main` (a predicate with no contract) |
| Session.AfterRun | app.py:186-233 | one run of `main`: clear, then process, then the question unless processing raised, each when triggered (a function with no contract; `RunKeepsConsistent`, `RaiseEndsRun`, `ClearWithoutQuestion` and `PendingQuestionIsAskedAgain` state its properties) |
| Session.InitialConsistent | app.py:143-150 | the first-run defaults satisfy the session invariant, with empty history and sources and no vectors |
| Session.ClearKeepsConsistent | app.py:186-189 | clearing keeps the invariant, empties the history and the chain's memory, and leaves the conversation's presence, readiness and sources unchanged |
| Session.ProcessSucceedsIff | app.py:192-213 | processing indexes exactly when there are uploads, the API key is set and is not the placeholder, reading and indexing do not raise, and some page has text; it then reports the file count and a page count that is at least the number of records |
| Session.ProcessKeepsConsistent | app.py:192-214 | processing keeps the invariant; success installs a chain over the extracted pages with empty memory and marks the vectors ready; any failure changes nothing; history and sources are never touched |
| Session.AskKeepsConsistent | app.py:226-233 | asking keeps the invariant and never changes readiness; a question is answered exactly when the box is non-empty, a conversation exists and `invoke` does not raise; otherwise nothing changes; an answer sets history and sources to the reply's (empty when absent) and the chain's memory to its new memory |
| Session.RunKeepsConsistent | app.py:186-233 | a whole run of `main` keeps the session invariant |
| Session.ClearWithoutQuestion | app.py:186-233 | a run with "Clear chat" pressed and an empty text box ends with an empty history, an empty chain memory and unchanged sources, even if processing runs in the same pass |
| Session.RaiseEndsRun | app.py:199-233 | a raise while processing ends the run after the clear step: the question is not asked, the sources are unchanged, and without "Clear chat" the whole state is unchanged |
| Session.PendingQuestionIsAskedAgain | app.py:220-230 | when processing did not raise, a question in the box with a conversation and an answering chain ends the run with the reply's history and sources and the chain's new memory, whether or not "Clear chat" was pressed |
| Session.SessionState.constructor | app.py:143-150 | a new session holds the first-run defaults and satisfies the invariant |
| Session.SessionState.ClearChat | app.py:186-190 | the new state is `AfterClear` of the old, and the invariant holds |
| Session.SessionState.Process | app.py:192-214 | the outcome is `ProcessOutcomeOf`, the new state is `AfterProcess` of the old, and the invariant holds |
| Session.SessionState.Ask | app.py:226-233 | the outcome is `AskOutcomeOf`, the new state is `AfterAsk` of the old, and the invariant holds |
| Session.SessionState.Run | app.py:186-233 | a run reports a process outcome exactly when the button was pressed, and a text-box outcome exactly when processing did not raise; it ends in `AfterRun` of the old state, keeping the invariant |

## Left out

- The PDF reader (PyPDF2), the SHA-1 digest (`file_digest`) and `prepare_pdfs` are not modelled. An upload is its name, its digest and the list of per-page `extract_text()` results.
- Chunking (`chunk_documents`), embeddings and FAISS (`build_vectorstore`) and the Gemini chain (`build_chain`) call into libraries whose code is not part of this model. The chain is a value holding its pages, settings and memory. What a question makes it answer, and its memory afterwards, are inputs of `Ask`. Whether `PdfReader`, the index build or `invoke` raises is a boolean or `None` input, not derived from the uploads or the key.
- Session.SessionState.Process: the chunk count in the success message is not modelled, because it depends on the chunker.
- Session.SessionState.Ask: it does not state that each answered question adds two turns to the history. The history is whatever the chain returns (line 229), and how LangChain's buffer memory grows is not part of this model.
- Session.SessionState.Process: a read error is taken as raised before any page is extracted. The progress bar left behind by an error half-way through an upload is not modelled.
- Temperature and the progress bar's float fraction are not modelled. A progress report carries the numerator `seen` and the denominator `max(total, 1)` as integers.
- Rendering (`st.markdown`, `render_message`, the CSS and HTML templates), the spinner, balloons, `load_dotenv` and page configuration are presentation only. The API key arrives as a parameter.
- Extraction.ReadPages and Citations.KeepFirst are separate methods carrying the inner loops of `extract_documents` and `render_sources`. The source has them inline.
- Citations.PageText: page metadata is modelled as an optional natural number. That is all `extract_documents` ever writes; other metadata values are not modelled.
- The export's UTF-8 encoding is not modelled. The export is the Markdown text.
- Re-processing keeps the chat history (lines 209-210 assign only the conversation and the ready flag).
- "Clear chat" also clears the chain's memory (lines 188-189), and it never resets `vector_ready`.
