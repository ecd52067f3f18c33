# IIT JEE AI tutor: a verified model of its pipeline, cache, chunker and chat front

This project models three parts of the tutoring backend and proves properties of them.

- **The tutor pipeline** (`IIT_Teacher` in `src/ai_iit_teacher.py`):
  - `teach` looks the question up in a response cache keyed by `(subject, question.strip().lower())`.
  - On a miss it runs a graph of four stages: classify, analyze-and-identify, explain-with-analogy and finalize.
  - One conditional edge after classify ends the run for a casual message.
  - Each stage makes one language-model call and reads the reply with a small string rule.
  - The cache is a class attribute, so every teacher shares it.
- **Textbook chunking** (`src/rag_engine.py`):
  - `chunk_text` cuts the whitespace-separated words of a text into windows of `chunk_size` words.
  - `add_pdf_file` picks the pages by file extension and builds one record per chunk of each page, numbering pages from 1.
- **The chat handler** (`chat` in `app.py`):
  - it rejects a blank message;
  - it lower-cases the subject, falling back to "maths";
  - it builds a fresh teacher per request;
  - its `except Exception` turns every failure into one generic 500.

## How the model is built

The modules follow the program:

| module | file | contents |
|---|---|---|
| `Wrappers` | `wrappers.dfy` | `Option` and `Result`. |
| `PyStr` | `pystr.dfy` | The Python `str` operations the code relies on (see below). |
| `Tutor` | `tutor.dfy` | `ai_iit_teacher.py`. |
| `Rag` | `rag.dfy` | `rag_engine.py`. |
| `App` | `app.dfy` | `app.py`. |

`PyStr` defines `isspace`, `strip`, `lower`, `startswith`, `endswith`, `find`, `in`, `split(sep)`, `split(sep, 1)`, `join`, `replace` and `split()`. Each is written from Python's documented behaviour and comes with lemmas that characterise it. For example:

- `find` returns the first occurrence;
- joining a split gives the string back;
- `replace` is the join of the split;
- `split()` loses only whitespace.

**The language model** is an oracle, the class `LanguageModel`:

- It holds a queue of canned replies, consumed one per call, and a log of every request it received.
- A call with no reply left raises, the way a failing remote call does.
- So the number of calls a run makes is the growth of the log.

**Stage logic.** Each stage's effect on the state is a pure function (`Classified`, `Analyzed`, `Explained`, `Finalized`). The graph is:

- an explicit `Stage` enumeration;
- `RouteFromClassify` and `Next` for its edges;
- a pure specification `RunFrom` that runs the graph over a queue of replies.

**The imperative parts keep the source's form:**

- `Teacher` is a class whose node methods call the model.
- `ScanTopic` is the line scan loop.
- `InvokeGraph` drives the stages.
- `Teach` updates the shared `ResponseCache` object in place.
- `ChunkText` and `AddPdfFile` are the loops of `rag_engine.py`.

Each of them is proved equal to its pure specification, and the properties are lemmas about those specifications.

**Where the design documentation of the system and the code disagree, the model follows the code:**

- **Explain stage without both markers.** The explanation is the whole reply *stripped*, not verbatim (`src/ai_iit_teacher.py:208`).
- **Splitting on `Analogy:`.** The reply is split on *every* `Analogy:` (`src/ai_iit_teacher.py:204`), not once. So the analogy is the text between the first and the second marker, and anything after the second is lost.
- **The analysis note.** It is the last non-empty line that is *not* a `Topic:` line (`src/ai_iit_teacher.py:169-172`, the `elif`), not simply the last non-empty line.
- **Number of calls.** A subject question takes four model calls, not three.
- **Empty question.**
  - `teach` does not reject an empty or blank question itself: it is classified like any other.
  - The blank check lives in `app.py`, and it ends in a 500, not an "invalid input" outcome.
- **Streaming.** There is no streaming path in the code, so none is modelled.

## Model

| member | source | states |
|---|---|---|
| `Tutor.LanguageModel.Invoke` | src/ai_iit_teacher.py:128-131 | One call appends its request to the log and answers with the next canned reply, consuming it; with no reply left it raises and consumes nothing. |
| `Tutor.ResponseCache.constructor` | src/ai_iit_teacher.py:59 | The class-level cache starts empty. |
| `Tutor.Teacher.constructor` | src/ai_iit_teacher.py:73 | The teacher's subject is the given subject lower-cased; the model client and the shared cache are the ones given. |
| `Tutor.CasualSplitsAfterPrefix` | src/ai_iit_teacher.py:133-135 | In a reply starting with the casual prefix, splitting once on the bar cuts at the bar that ends the prefix, so the second piece is everything after the prefix, later bars included. |
| `Tutor.Classified` | src/ai_iit_teacher.py:132-142 | A stripped reply starting with the casual prefix (`casual` and a bar) makes the question casual and the rest of the reply after the prefix, stripped, the final response. Any other reply, one with the subject prefix or an unrecognised one, makes it a subject question and changes nothing else. |
| `Tutor.Teacher.ClassifyQuestion` | src/ai_iit_teacher.py:121-142 | The node sends the persona and the classify prompt; its new state is the classify step on the next reply, or the model's exception. |
| `Tutor.TopicIsLastTopicLine` | src/ai_iit_teacher.py:164-170 | The topic is the stripped text of the last line whose stripped form starts with `Topic:`. It is `""` exactly when no line does. |
| `Tutor.AnalysisIsLastOtherLine` | src/ai_iit_teacher.py:168-172 | The analysis note is the stripped text of the last non-blank line that is not a `Topic:` line. It is `""` exactly when there is none. |
| `Tutor.ScanTopic` | src/ai_iit_teacher.py:164-172 | The loop over `content.split("\n")` ends holding the topic and the analysis note of all the lines. |
| `Tutor.Teacher.AnalyzeAndIdentify` | src/ai_iit_teacher.py:145-177 | The node sends the persona and the analyze prompt. It stores the request and the reply as the messages, and the scanned topic and analysis note; or it raises. |
| `Tutor.SplitExplanation` | src/ai_iit_teacher.py:200-208 | Unless the reply contains both `Explanation:` and `Analogy:`, the explanation is the whole reply stripped and the analogy is empty. |
| `Tutor.ExplanationBeforeFirstAnalogy` | src/ai_iit_teacher.py:203-205 | With both markers present, the explanation is the text before the first `Analogy:` with every `Explanation:` removed, stripped. |
| `Tutor.AnalogyBetweenFirstTwoMarkers` | src/ai_iit_teacher.py:203-206 | With both markers present, the analogy is the text between the first `Analogy:` and the next one (or the end), stripped. |
| `Tutor.Teacher.ExplainWithAnalogy` | src/ai_iit_teacher.py:180-211 | The node sends the persona and the explain prompt built from question and topic, and stores the split of the reply; or it raises. |
| `Tutor.Finalized` | src/ai_iit_teacher.py:227 | The final response is the finalize reply unmodified; question, topic, explanation and analogy are unchanged. |
| `Tutor.Teacher.FinalizeResponse` | src/ai_iit_teacher.py:214-228 | The node sends the prompt built from question, topic, explanation and analogy. The reply, unstripped, becomes the final response; or the node raises. |
| `Tutor.RoutingIsByQuestionType` | src/ai_iit_teacher.py:100-115 | After classify the run ends exactly when the question is casual and otherwise goes to analyze. No other edge depends on the state, and every edge moves strictly forward. |
| `Tutor.RunFromStep` | src/ai_iit_teacher.py:100-115 | A stage sends its request first and the run continues from its effect along the edge; a stage that finds no reply raises with its request sent. |
| `Tutor.CasualRunMakesOneCall` | src/ai_iit_teacher.py:103-107 | A casual classification ends the run after exactly one call, with the reply after the casual prefix as final response and the topic, explanation and analogy left empty. |
| `Tutor.SubjectRunMakesFourCalls` | src/ai_iit_teacher.py:110-115 | Any other classification runs analyze, explain and finalize in that order: exactly four calls, the finalize reply as final response. |
| `Tutor.RunFailsExactlyWhenRepliesRunOut` | src/ai_iit_teacher.py:265 | A run raises exactly when the model runs out of replies: none at all, or fewer than four for a subject question. It then has sent one request more than there were replies. |
| `Tutor.RunKeepsQuestion` | src/ai_iit_teacher.py:249-256 | The graph never changes the question: the state carries the question exactly as `teach` received it, unstripped. |
| `Tutor.ClassifyRoutes` | src/ai_iit_teacher.py:100-110 | Classify sends its request; a casual classification ends the run there with the classified state, any other continues into analysis from the classified state with the replies left. |
| `Tutor.Teacher.InvokeGraph` | src/ai_iit_teacher.py:265 | Invoking the graph gives the result, the requests and the replies left of the specification run from classify. |
| `Tutor.Teacher.SubjectStages` | src/ai_iit_teacher.py:113-115 | The analyze, explain, finalize chain is the specification run from analyze. |
| `Tutor.Teacher.ExplainStages` | src/ai_iit_teacher.py:114-115 | The explain, finalize chain is the specification run from explain. |
| `Tutor.StoreTouchesOnlyKey` | src/ai_iit_teacher.py:267-270 | After a miss, a successful run adds exactly its key with the final response and keeps every other entry; a raising run stores nothing. |
| `Tutor.CacheHitOrStore` | src/ai_iit_teacher.py:244-246 | On a hit `teach` returns the stored answer with no call and no change. On a miss the answer is stored under exactly the question's key, no other entry changing. |
| `Tutor.RepeatedQuestionIsCached` | src/ai_iit_teacher.py:244 | After a successful answer, any spelling of the question with the same stripped lower-case form gets the same answer with no call. |
| `Tutor.CasualReplyIsCached` | src/ai_iit_teacher.py:133-136 | A casual reply on a miss is returned after one call and cached under the question's key. |
| `Tutor.SubjectAnswerIsCached` | src/ai_iit_teacher.py:265-270 | A subject question on a miss makes four calls, returns the finalize reply and caches it under the question's key. |
| `Tutor.Teacher.Teach` | src/ai_iit_teacher.py:232-270 | `teach` returns and stores exactly what the cache-then-graph specification gives, and sends exactly its requests. |
| `Tutor.FreshTeacherSeesCache` | src/ai_iit_teacher.py:59 | A second, freshly built teacher of the same subject answers a question the first answered from the shared cache, without any call. |
| `PyStr.StripIsSlice` | src/ai_iit_teacher.py:132 | `strip()` keeps the slice between a whitespace-only prefix and a whitespace-only suffix. |
| `PyStr.StripEnds` | src/ai_iit_teacher.py:170 | Neither end of a stripped string is whitespace. |
| `PyStr.BlankIffAllSpace` | app.py:60 | A string strips to `""` exactly when it is all whitespace. |
| `PyStr.Lower` | src/ai_iit_teacher.py:244 | `lower()` keeps the length, maps each upper-case ASCII letter to its lower-case form, and leaves every other character alone. |
| `PyStr.LowerOfLower` | app.py:64 | A string without upper-case letters is its own `lower()`, so lowering twice changes nothing. |
| `PyStr.FindIsFirstOccurrence` | src/ai_iit_teacher.py:203 | `find` gives the first occurrence, and nothing when there is none, which is what `in` tests. |
| `PyStr.SplitOnceRejoins` | src/ai_iit_teacher.py:135 | The pieces of `split(sep, 1)` joined by `sep` give the string back, and the first piece holds no `sep`. |
| `PyStr.JoinSplit` | src/ai_iit_teacher.py:165 | The pieces of `split(sep)` joined by `sep` give the string back. |
| `PyStr.SplitPiecesFree` | src/ai_iit_teacher.py:204 | No piece of `split(sep)` contains `sep`. |
| `PyStr.SecondPieceUpTo` | src/ai_iit_teacher.py:206 | The second piece of `split(sep)` runs from the end of the first `sep` to the next one, or to the end. |
| `PyStr.ReplaceIsJoinOfSplit` | src/ai_iit_teacher.py:205 | `replace(pat, with)` replaces every occurrence: it is `with.join(split(pat))`. |
| `PyStr.WordsKeepEveryNonSpace` | src/rag_engine.py:56 | The words of `split()`, concatenated, are exactly the non-whitespace characters of the text. |
| `PyStr.WordsEmptyIffBlank` | src/rag_engine.py:56 | `split()` gives no word exactly when the text is empty or all whitespace. |
| `PyStr.WordsOfJoin` | src/rag_engine.py:59 | Splitting the single-space join of a word list gives the word list back. |
| `PyStr.JoinIsSingleSpaced` | src/rag_engine.py:59 | The single-space join of a non-empty word list has no whitespace at either end and only lone spaces inside. |
| `Rag.ChunkText` | src/rag_engine.py:54-61 | For a positive size the loop returns the specification chunks: each window of the words joined by spaces. Size 0 raises `ValueError`, as `range` does; a negative size gives no chunk. |
| `Rag.WindowsShape` | src/rag_engine.py:58-59 | The windows cover the words in order, each holding 1 to `n` words and all but the last exactly `n`. |
| `Rag.WindowsCount` | src/rag_engine.py:58 | There are `(len(words) + n - 1) // n` windows. |
| `Rag.ChunkWordsAreWindows` | src/rag_engine.py:59 | Splitting a chunk gives back exactly its window of words. |
| `Rag.ChunksKeepWords` | src/rag_engine.py:56-61 | The chunks' words, in order, are exactly `text.split()`. |
| `Rag.ChunkSizes` | src/rag_engine.py:58-60 | Every chunk has between 1 and `chunk_size` words, and every chunk but the last exactly `chunk_size`. |
| `Rag.ChunkCount` | src/rag_engine.py:56-61 | The number of chunks is the word count divided by `chunk_size`, rounded up; empty or all-whitespace text gives no chunk. |
| `Rag.ChunkShape` | src/rag_engine.py:59 | Every chunk is non-empty, has no whitespace at either end, and separates its words by single spaces. |
| `Rag.AddPdfFile` | src/rag_engine.py:64-82 | A lower-cased path ending in `.pdf` makes records of the PDF's pages. Otherwise one ending in `.txt` makes records of the file's text as a single page. Anything else raises `ValueError("Unsupported file type. Use PDF or TXT.")`. The nested loop builds exactly the specification records. |
| `Rag.AppendPage` | src/rag_engine.py:75-81 | One pass of the page loop appends exactly the page's chunk records, in chunk order, each carrying the book, the page number and the source. |
| `Rag.EndsWithIgnoringCase` | src/rag_engine.py:66-69 | `path.lower().endswith(ext)` for a lower-case `ext` holds exactly when the last characters of the path spell `ext` ignoring ASCII case. |
| `Rag.RecordFields` | src/rag_engine.py:74-82 | Every record copies the book and the source unchanged, carries a page number from 1 to the page count, and holds a chunk of that page. |
| `Rag.RecordsInPageOrder` | src/rag_engine.py:74-76 | Records come in page order. |
| `Rag.TextsOfPageRecords` | src/rag_engine.py:75-81 | The records built for one page hold its chunks, one each, in chunk order. |
| `Rag.RecordsPerPage` | src/rag_engine.py:74-82 | Page number `k + 1` has exactly one record per chunk of the page at index `k`, in chunk order; no other page number occurs. |
| `App.MakeChatRequest` | app.py:29-31 | The message is the one sent; an omitted subject is "maths" and a given one is kept. |
| `App.DefaultSubjectIsMaths` | app.py:31 | An omitted subject defaults to "maths". |
| `App.NormalizeSubject` | app.py:64-66 | The subject used is always one of maths, physics, chemistry. |
| `App.SubjectFallback` | app.py:64-66 | A subject that lower-cases to one of the three is used lower-cased. Anything else, "mathematics" included, becomes "maths". Normalising twice changes nothing. |
| `App.HandleException` | app.py:77-79 | Whatever was raised, the caller gets status 500 with "Sorry, I encountered an error. Please try again.". |
| `App.Chat` | app.py:56-79 | The handler returns, caches and calls exactly what the chat specification gives for the shared cache and the model's replies. |
| `App.BlankMessageIsGeneric500` | app.py:59-61 | A message that is empty or all whitespace gets the generic 500, not the 400 raised for it, before any teacher exists: no call is made and the cache is unchanged. |
| `App.EveryFailureIsGeneric500` | app.py:77-79 | The caller never sees a 400: every failure is the generic 500. |
| `App.InvalidSubjectServedAsMaths` | app.py:64-66 | A request whose subject is not one of the three is served exactly like the same request for "maths". |
| `App.ChatIsTeach` | app.py:69-79 | For a non-blank message and a valid subject, the handler is `teach` on a teacher of the lower-cased subject. It succeeds exactly when `teach` does, with `teach`'s answer and status "success"; a raising `teach` gives the generic 500. The cache and the calls are `teach`'s. |

## Left out

- **Language-model calls** (`init_chat_model`, `llm.invoke`) are a foreign network service: they are replaced by the `LanguageModel` oracle of canned replies. Model identity, temperature and the API key are not modelled.
- **Prompt text** (`src/prompts.py`, the f-strings of the analyze and explain stages, the system prompt's capitalised subject) is not part of this model. Prompts are opaque values carrying the fields filled into them.
- **`TOPIC_EXAMPLES`.** `src/subject_data.py` is not part of this model, so the examples the analyze prompt appends are not represented.
- **LangGraph's `StateGraph`/`compile`** is library machinery: the graph is modelled directly as the `Stage` enumeration with `Next` and `RouteFromClassify`.
- **Mutating the state in place.** The nodes mutate the state dictionary in place; the model threads a state value instead. The dictionary is created in `teach` and only passed along the graph, so no aliasing is observable.
- **The class-level cache.** It is modelled as one `ResponseCache` object handed to every teacher; Python's class attribute lookup is not modelled.
- **Concurrency on the shared cache** is not modelled; calls are sequential.
- **`lower()`** is modelled for ASCII letters only; Unicode case mapping is out of scope. `isspace()` uses the Unicode whitespace set.
- **`rag_engine.py` I/O:** PDF extraction, file reading, SentenceTransformer embeddings, ChromaDB `collection.add`/`query`, `retrieve_relevant_chunks`, `add_textbook` and the `hash()`-based ids are I/O or process-randomised. The pages a PDF yields and the text a `.txt` file holds are parameters of `AddPdfFile`, and the records are its result rather than being indexed.
- Rag.AddPdfFile: an unreadable file, a failing PDF extraction and an embedding failure raise in the source; the model has no such path because reading is a parameter.
- **The rest of `app.py`:** FastAPI routing, CORS, static files, the index page, the health endpoint, the API-key check and the debug `print` are framework or I/O.
- **HTTP errors as values.** The `HTTPException` of the handler is a returned value, not an exception.
- **`main()`** in `src/ai_iit_teacher.py`, its console loop and its own subject mapping are console I/O.
- **`static/script.js`, `src/memory.py` and `src/langsmith_debug.py`** are not part of this model: they are UI, a library wrapper and environment configuration.
