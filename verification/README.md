# Smart Librarian — a Dafny model of its selection, lookup and formatting logic

Smart Librarian (Chatbot_BookStar) is a book-recommendation chatbot. It works in four steps:

1. A query is normalised and sent to a vector store of book summaries (retrieval-augmented generation, RAG).
2. The closest title becomes a candidate for a chat model.
3. The chat model is encouraged to call the tool `get_summary_by_title`. That tool looks up a detailed summary in a local catalog.
4. Past the blocklist gate, the final answer always contains a "📖 Rezumat detaliat" section. An offensive query gets a fixed apology instead.

Around that pipeline sit several other pieces:

- a `/recommend` endpoint that grades how confident retrieval was;
- the catalog loaders that build the vector store and the seeding script that writes the catalog;
- cover and scene image generation, content moderation, configuration checks, speech-to-text dispatch;
- two helpers of the Streamlit page.

This project models the deterministic part of all of that as pure Dafny functions over strings, sequences and maps. Everything that talks to OpenAI, ChromaDB, the file system or audio libraries is an oracle: a function-typed parameter, or a datatype describing what the call returned or raised.

The modules follow the repository:

| module | file | what it holds |
|---|---|---|
| `Wrappers` | — | `Option`, `Result`, and Python's `s or fallback` for optional strings |
| `Text` | — | Python string primitives: `isspace`, ASCII `lower`, `strip`, `rstrip`, `split`, `join`, `find`, `in`, the comma rule for theme strings, and the two normalisers |
| `Normalise` | — | the two normalisers agree, produce canonical lower-case keys, and are idempotent |
| `Numerals` | — | `str(n)` and reading a digit string back |
| `Order` | — | Python's `str` ordering and `sorted(..., key=...)` for elements with distinct keys |
| `Dict` | — | Python's insertion-ordered `dict` with string keys |
| `Yaml` | — | what `yaml.safe_load` hands the catalog readers |
| `Retriever` | rag/retriever.py | query normalisation, snippet window, the three store readers |
| `Api` | api/main.py | confidence classifier, `top_k` clamp, `/recommend` assembly |
| `SummaryTool` | tools/summary_tool.py | exact-key lookup, suggestions, not-found message |
| `Chatbot` | chatbot.py | blocklist gate, messages, tool loop, repair and fallback |
| `EmbedStore` | rag/embed_store.py | title key, id slug, row filter, documents, rebuild decision |
| `SeedBooks` | scripts/seed_books.py | keyed merge with override, sort, numeric-string quoting rule |
| `ImageGen` | img/ai_gen.py | file slug, size and quality choice, prompts, 512→1024 retry |
| `Moderation` | safety/moderation.py | error shape of `moderate_text`, `explain_categories` |
| `Config` | config.py | validation order, defaults, `_as_int` |
| `Transcribe` | stt/transcribe.py | language argument, engine dispatch, "gibberish" fallback |
| `Ui` | ui/app_streamlit.py | `fmt_seconds`, known-title stage of `guess_title_from_answer` |

How the tool title is chosen: `chat` looks up the tool call's own `title` argument (chatbot.py:75). It falls back to the retrieval candidate only when that argument is missing, null or empty, and then to `""`. `Chatbot.ToolArgumentWins` pins this down.

## Model

| member | source | states |
|---|---|---|
| Api.ConfidenceFromPairs | api/main.py:63-76 | no pairs give (Low, ∞, 0.0); `d1` is the first pair's distance and the gap is the second minus the first, or ∞ with one pair; High iff d1 < 1.00 and gap ≥ 0.12, Medium iff not High and d1 < 1.10 and gap ≥ 0.08, Low otherwise, so the three labels are exclusive and exhaustive |
| Api.SingleCandidate | api/main.py:67-75 | with one candidate only `d1` decides: High below 1.00, Medium on [1.00, 1.10), Low from 1.10 on |
| Api.OnlyFirstTwoMatter | api/main.py:67-69 | the verdict depends on the first two pairs only |
| Api.UnsortedIsLow | api/main.py:67-75 | the pairs are not re-sorted: a second pair closer than the first gives a negative gap and Low |
| Api.HighMeetsMedium | api/main.py:70-73 | every High verdict also meets the Medium thresholds |
| Api.ClearWinner | api/main.py:64-76 | distances 0.05 then 0.40 are High with gap 0.35 |
| Api.ClampTopK | api/main.py:82 | the effective k is always in [1, 8], equals `top_k` inside that range, and is 1 below it and 8 above it |
| Api.SerializeGap | api/main.py:108 | an infinite gap is reported as 1e9 and a finite gap unchanged |
| Api.ChosenTitle | api/main.py:99 | there is a title exactly when there are pairs, and it is the first pair's title |
| Api.Recommend | api/main.py:80-109 | the reply's ranking, evidence, answer and confidence come from the stripped query, with k clamped; the title is that of the first ranked pair; `d1` is the classifier's first distance, and `gap` is its gap with an infinite gap serialised as 1e9 |
| Api.TitleIndependentOfAnswer | api/main.py:93-99 | two different chat answers give replies that differ only in the answer text; the title is the first ranked candidate |
| Api.EmptyQuery | api/main.py:81-108 | a blank query gets no title, no candidates, no evidence, Low, an infinite d1 and a gap of 0 |
| Retriever.LongWords | rag/retriever.py:19 | exactly the query tokens longer than two characters are kept |
| Retriever.FirstHit | rag/retriever.py:21-23 | the earliest position where any query word occurs, with no occurrence of any word before it; none exactly when no word occurs |
| Retriever.QueryWords | rag/retriever.py:18-19 | every word used to place the snippet is longer than two characters |
| Retriever.BestSnippet | rag/retriever.py:15-25 | the snippet never exceeds `max_len`, and an empty document gives "" |
| Retriever.WindowAtFacts | rag/retriever.py:21-23 | the window opens at 0 when no word occurs; otherwise at or before 40 characters ahead of each word's first occurrence, and exactly 40 before some occurrence when it is not 0 |
| Retriever.WindowNoHit | rag/retriever.py:21-23 | when no query word occurs in the lowered text, the window opens at 0 |
| Retriever.WindowBound | rag/retriever.py:21-23 | for every query word that occurs, the window opens no later than 40 characters before its first occurrence, clamped at 0 |
| Retriever.WindowHit | rag/retriever.py:21-23 | a window start past 0 lies exactly 40 characters before an occurrence of some query word |
| Retriever.SnippetWindow | rag/retriever.py:18-24 | the snippet is the stripped slice, from the window start, of the document with newlines turned into spaces, and the start obeys the window rule |
| Retriever.NormQueryShape | rag/retriever.py:10-13 | the normalised query is trimmed, single-spaced and lower-case, and equals the summary tool's title key |
| Retriever.ZipPairs | rag/retriever.py:37-43 | as many pairs as the shorter of the two arrays, each in store order, with a missing title read as "" |
| Retriever.DebugCandidates | rag/retriever.py:28-43 | a blank normalised query gives [] without using the store's answer; otherwise the store's titles and distances, paired in order and truncated to the shorter array |
| Retriever.ZipItems | rag/retriever.py:54-64 | as many items as the shortest array, each with its title, distance and the snippet located for the query |
| Retriever.SemanticSearch | rag/retriever.py:45-65 | a blank normalised query gives []; otherwise the store's items in order, truncated to the shortest array, each snippet within 220 characters |
| Retriever.EmptyQueryShortCircuit | rag/retriever.py:28-48 | a blank query never reaches the store: both readers return [] whatever the store would answer |
| Retriever.AutoSearchBooks | rag/retriever.py:67-78 | the candidates keep the items' order; the best title, distance and snippet are those of the first item, or None, None and "" when there is none |
| Retriever.BestIsFirst | rag/retriever.py:69-72 | there is a best title exactly when there are candidates, and it is the first candidate's title |
| Normalise.NormQueryIsNorm | rag/retriever.py:10-13 | the retriever's regex normaliser and the split-join normaliser of the catalogs are the same function |
| Normalise.NormCanonical | tools/summary_tool.py:69-70 | every normalised key is trimmed, single-spaced and free of upper-case letters |
| Normalise.NormIdempotent | tools/summary_tool.py:69-70 | normalising a key again changes nothing |
| SummaryTool.ListTitles | tools/summary_tool.py:75-77 | every catalog title, in declaration order |
| SummaryTool.IndexGet | tools/summary_tool.py:73 | the index finds a key exactly when some title normalises to it, and then at the last such title, since later entries of the comprehension overwrite earlier ones |
| SummaryTool.ContainingFrom | tools/summary_tool.py:90 | exactly the positions whose key contains the query key, in increasing order |
| SummaryTool.LookupTitle | tools/summary_tool.py:84-97 | no contract of its own: the exact, suggest or missing decision that `ExactHit`, `NoExactHit` and `BlankQuery` state |
| SummaryTool.Render | tools/summary_tool.py:86-97 | no contract of its own: the reply text of each decision, stated by `GetSummaryByTitle` |
| SummaryTool.GetSummaryByTitle | tools/summary_tool.py:79-97 | an exact hit returns the stored summary, a miss without candidates the fixed not-found text, and a suggestion reply is the fixed prefix, the suggested titles joined by ", ", and the " ?" suffix |
| SummaryTool.ExactHit | tools/summary_tool.py:84-87 | a title whose key matches a catalog title's key returns that entry's summary verbatim |
| SummaryTool.SameKeySameAnswer | tools/summary_tool.py:84-85 | two queries with the same normalised key get identical replies |
| SummaryTool.NormalFormSameAnswer | tools/summary_tool.py:69-85 | a query and its own normal form get identical replies |
| SummaryTool.NoExactHit | tools/summary_tool.py:89-97 | without an exact hit, the reply suggests at most five titles, in declaration order, each of whose keys contains the query key; with none, it is the not-found text |
| SummaryTool.BlankQuery | tools/summary_tool.py:84-96 | a blank title is never an exact hit; as every key contains it, it yields the first five titles as suggestions |
| SummaryTool.BlankKey | tools/summary_tool.py:69-70 | a blank title normalises to the empty key |
| Chatbot.OffensiveIgnoresCase | chatbot.py:14-17 | the gate compares the lower-cased text, so a query and its lower-case form are offensive alike |
| Chatbot.OffensiveInContext | chatbot.py:14-17 | the test is a substring test: any text around an offensive query leaves it offensive |
| Chatbot.OffensiveExample | chatbot.py:14-17 | "te urăsc, ești prost" is offensive |
| Chatbot.IsOffensive | chatbot.py:14-17 | no contract of its own: the blocklist predicate that `OffensiveIgnoresCase`, `OffensiveInContext` and `OffensiveExample` are about |
| Chatbot.LookupTitle | chatbot.py:75 | no contract of its own: the tool argument, else the candidate, else ""; `ToolArgumentWins` states it |
| Chatbot.Chat | chatbot.py:42-112 | no contract of its own: the gate, then `Respond`; `OffensiveShortCircuits`, `ToolPath` and `NoToolFallback` state what it does |
| Chatbot.Respond | chatbot.py:48-112 | no contract of its own: `RespondSteps`, `ToolPathMarker`, `RepairKeepsSummary` and `NoToolFallback` state what it does |
| Chatbot.OffensiveShortCircuits | chatbot.py:43-45 | an offensive query gets the fixed apology, with no retrieval, model call or lookup |
| Chatbot.BuildMessages | chatbot.py:19-33 | exactly three messages: the system prompt, the candidate line with "None" for a missing or empty candidate, and the stripped user text |
| Chatbot.ExtractToolTitle | chatbot.py:35-40 | the "title" of a JSON object argument; None for arguments that are not JSON or not an object |
| Chatbot.SummaryCalls | chatbot.py:72-73 | every kept call is named `get_summary_by_title` and is one of the calls, and every such call is kept |
| Chatbot.SummaryCallsAppend | chatbot.py:72-73 | the kept calls of a concatenation are those of each part, in order, so the calls keep their order and multiplicity |
| Chatbot.SummaryCallsOne | chatbot.py:73 | a single call is kept exactly when it is named `get_summary_by_title` |
| Chatbot.RunTools | chatbot.py:71-83 | one tool message per summary call, in order, each holding the tool's answer for the title that call used, which is its own argument, else the candidate, else "" |
| Chatbot.ToolPath | chatbot.py:48-104 | on the tool path: retrieval, then the first model call on the built messages, then one lookup per summary call with that call's title, then the second model call on the second request; a second answer that has the heading is returned verbatim |
| Chatbot.RespondSteps | chatbot.py:51-91 | the same call sequence past the gate, for any opening messages |
| Chatbot.RespondLastStep | chatbot.py:62-91 | the last call of the tool branch is the second model call, on the opening messages, the echoed first reply and the tool messages |
| Chatbot.ToolBranchSteps | chatbot.py:51-91 | the calls of the tool branch are retrieval, the first model call, the lookups in order, and the second model call |
| Chatbot.RespondKeepsAnswer | chatbot.py:92-104 | a second answer that already holds the "📖 Rezumat detaliat" heading is returned verbatim |
| Chatbot.SecondRequest | chatbot.py:62-83 | no contract of its own: the conversation of the second model call; `SecondRequestShape` states it |
| Chatbot.SecondRequestShape | chatbot.py:62-83 | the second request keeps the opening messages, echoes the first reply as an assistant message with its tool calls, then holds one tool message per summary call, in order, with its call id and the summary of the title that call used |
| Chatbot.ToolPathMarker | chatbot.py:86-104 | on the tool path the answer always carries the "📖 Rezumat detaliat" heading |
| Chatbot.RepairKeepsSummary | chatbot.py:94-103 | a second answer without the heading becomes the template naming the last looked-up title, and it holds the last lookup's summary verbatim |
| Chatbot.RepairCarries | chatbot.py:99-103 | the repair template holds the heading and the tool text |
| Chatbot.FallbackCarries | chatbot.py:107-112 | the fallback template holds the heading and the summary |
| Chatbot.NoToolFallback | chatbot.py:106-112 | with no summary call: one model call, one lookup of the candidate (or ""), no second model call, and the answer holds the heading and that summary |
| Chatbot.ToolArgumentWins | chatbot.py:75 | the tool's own title argument is looked up, not the candidate; a missing argument falls back to the candidate, and a bad one with no candidate to "" |
| EmbedStore.NormTitle | rag/embed_store.py:11-12 | None and "" give ""; every key is trimmed, single-spaced and lower-case |
| EmbedStore.DashRuns | rag/embed_store.py:16 | only `a-z`, `0-9` and `-` remain, no two dashes in a row, and the first character is kept or becomes a dash |
| EmbedStore.TrimDashes | rag/embed_store.py:16 | stripping dashes leaves no dash at either end and keeps the alphabet and the single dashes |
| EmbedStore.Slug | rag/embed_store.py:14-16 | an id slug holds only `a-z`, `0-9` and `-`, never a dash at either end, never two in a row |
| EmbedStore.SlugIdempotent | rag/embed_store.py:14-16 | a slug is its own slug |
| EmbedStore.SlugFixed | rag/embed_store.py:14-16 | any string already in slug form is left unchanged |
| EmbedStore.Filter | rag/embed_store.py:23-36 | every kept row has a title and a summary or full summary, and no more rows come out than went in |
| EmbedStore.LoadSummaries | rag/embed_store.py:18-37 | a missing file or a non-list document gives []; every loaded row is kept by the filter and has stripped text fields |
| EmbedStore.FilterFailsIff | rag/embed_store.py:23-24 | loading fails exactly when some list item is not a mapping |
| EmbedStore.KeptAt | rag/embed_store.py:23-36 | increasing positions, each of a mapping whose row passes the filter |
| EmbedStore.FilterInOrder | rag/embed_store.py:23-36 | the filter's output is the rows at those positions, one each, in that order |
| EmbedStore.LoadInOrder | rag/embed_store.py:18-37 | a loaded document lists the kept items' rows in input order, each once, and every mapping whose row passes the filter is among them |
| EmbedStore.LoadExactly | rag/embed_store.py:18-37 | loading fails iff an item is not a mapping; otherwise every item passing the filter is loaded, and nothing else is |
| EmbedStore.Parts | rag/embed_store.py:86-89 | at most three non-empty parts, none when the row has no text and no themes; the summary and the full summary are among them exactly when non-empty, in that order and first; a themes line is present when the row has themes, and comes last |
| EmbedStore.DocText | rag/embed_store.py:86-90 | no contract of its own: the stripped join of `Parts`; `DocTextHoldsParts` and `KeptRowHasText` state what it holds |
| EmbedStore.DocTextHoldsParts | rag/embed_store.py:86-90 | a loaded row's document opens with its summary, or its full summary when there is none, holds both texts, and is exactly the parts joined by blank lines unless the themes line ends in whitespace |
| EmbedStore.DocTextSplits | rag/embed_store.py:86-90 | before stripping, the document is the text parts joined by a blank line, then a blank line and the themes line when there are themes |
| EmbedStore.DocTextHeadThenTail | rag/embed_store.py:90 | the strip leaves the text parts whole and trims only the end of the themes line |
| EmbedStore.KeptRowHasText | rag/embed_store.py:86-92 | a row that passed the loader always yields a non-empty document |
| EmbedStore.Indexed | rag/embed_store.py:85-92 | exactly the rows with a non-empty document are indexed |
| EmbedStore.BuildBatch | rag/embed_store.py:84-99 | ids, documents and metadata are aligned index for index; each id is "id:" plus the title's slug, each document is non-empty, and each metadata entry holds the title and `themes_txt`, the themes joined by ", " or "" when there are none |
| EmbedStore.MetaThemesReadBack | rag/embed_store.py:96-99 | `themes_txt` reads back under the comma rule as the row's themes, when each theme is non-empty, unpadded and comma-free |
| EmbedStore.ThemeTextStable | rag/embed_store.py:27-29 | themes read from a string, joined as `themes_txt` and read again, are unchanged |
| EmbedStore.LoadedRowsAllIndexed | rag/embed_store.py:85-92 | after the loader no row is skipped for an empty document |
| EmbedStore.Fingerprint | rag/embed_store.py:39-52 | the fingerprint is the digest of an arrangement of the rows sorted by lower-cased title |
| EmbedStore.FingerprintIgnoresOrder | rag/embed_store.py:41-52 | reordering the catalog does not change the fingerprint when no two titles are equal ignoring case |
| EmbedStore.InitVectorStore | rag/embed_store.py:55-104 | a rebuild happens iff the collection is unavailable, no fingerprint file exists, or the stripped stored fingerprint differs; a rebuild records the new fingerprint and the batch of the rows |
| EmbedStore.RebuildThenReuse | rag/embed_store.py:57-104 | once a rebuild has written its fingerprint, the same rows against an available collection are reused |
| Yaml.ThemesOf | rag/embed_store.py:27-29 | a theme string is read by the comma rule `CommaList`, so every theme is non-empty, unpadded and comma-free; a list is kept; a missing or null value gives [] |
| Text.SplitJoin | rag/embed_store.py:29 | joining the pieces of `s.split(sep)` back with `sep` gives `s`, so splitting loses no character and keeps the pieces in order |
| Text.StrippedAppend | rag/embed_store.py:29 | the strip-and-drop comprehension treats pieces one by one, in order: its result on `a + b` is its result on `a` followed by its result on `b` |
| Text.StrippedOne | rag/embed_store.py:29 | a single piece contributes its stripped text, or nothing when it is all whitespace |
| Text.CommaListEmpty | rag/embed_store.py:27-29 | the empty theme string has no themes |
| Text.CommaListJoin | rag/embed_store.py:29 | non-empty, unpadded, comma-free themes joined by ", " read back by the comma rule as the same list |
| Text.StripKeepsHead | rag/embed_store.py:90 | `.strip()` of a text that opens with an unpadded, non-empty part keeps that part whole and trims only the end of the rest |
| SeedBooks.ToStr | scripts/seed_books.py:9-10 | None reads as "", anything else as its text |
| SeedBooks.NormTitleShape | scripts/seed_books.py:12-13 | merge keys are trimmed, single-spaced and lower-case |
| SeedBooks.Represent | scripts/seed_books.py:19-22 | a string is double-quoted exactly when it looks numeric |
| SeedBooks.NumericLikeIff | scripts/seed_books.py:20 | the left-to-right scan accepts exactly the strings of the form optional sign, digits, optional dot and digits |
| SeedBooks.NineteenEightyFour | scripts/seed_books.py:19-22 | "1984" is written quoted and "1984a" plain |
| SeedBooks.Existing | scripts/seed_books.py:300-310 | a non-list document gives no records; exactly the list items that are mappings with a "title" key are indexed |
| SeedBooks.Coerce | scripts/seed_books.py:313-319 | every built-in field goes through `_to_str`, and the themes through the comma rule |
| SeedBooks.Index | scripts/seed_books.py:307-320 | the index after all writes has distinct keys |
| SeedBooks.Merge | scripts/seed_books.py:307-323 | the output is sorted by normalised title and is a permutation of the index's values |
| SeedBooks.MergeContents | scripts/seed_books.py:307-322 | no two output records share a normalised title, and a record is output iff it is the last one written under its title |
| SeedBooks.LastIsBuiltIn | scripts/seed_books.py:312-320 | a built-in book with no later built-in of the same key is the last write under its key |
| SeedBooks.BuiltInWins | scripts/seed_books.py:312-320 | such a built-in book is in the output, and no existing record with its title survives |
| Dict.Assign | scripts/seed_books.py:310 | `d[k] = v` keeps the keys distinct, makes `k` read `v`, and adds a slot only for a new key |
| Dict.AssignOthers | scripts/seed_books.py:320 | assigning one key leaves every other key's value as it was |
| Dict.AssignAllGet | scripts/seed_books.py:307-320 | after a run of assignments each key holds the last value assigned to it, or its old value |
| Dict.ArrangedValues | scripts/seed_books.py:322-323 | any rearrangement of the values of a dict keyed by its values has distinct keys and holds exactly the values stored under their own key |
| Order.SortBy | scripts/seed_books.py:323 | the output is sorted by the key and is a permutation of the input |
| Order.SortForgetsOrder | rag/embed_store.py:49 | two orderings of the same elements sort to the same sequence when no two elements share a key |
| ImageGen.Sanitize | img/ai_gen.py:14 | every character that is not alphanumeric or one of `-_.` becomes `_`, and the others are kept in place |
| ImageGen.TrimUnderscores | img/ai_gen.py:14 | no underscore remains at either end, and the result is empty exactly when the input was all underscores |
| ImageGen.Slug | img/ai_gen.py:13-15 | the file slug is never empty, holds only alphanumerics and `-_.`, and has no underscore at either end |
| ImageGen.SlugFallback | img/ai_gen.py:15 | a title with nothing usable gives "img" |
| ImageGen.SlugIdempotent | img/ai_gen.py:13-15 | a slug is its own slug |
| ImageGen.ChooseSize | img/ai_gen.py:96-99 | the four allowed sizes are kept and anything else becomes 1024x1024 |
| ImageGen.ChooseQuality | img/ai_gen.py:101-106 | None and "" give "low"; an allowed quality in any case is lower-cased; anything else gives "low" |
| ImageGen.ChoicesIdempotent | img/ai_gen.py:96-106 | choosing a size or a quality twice changes nothing |
| ImageGen.Filename | img/ai_gen.py:108-110 | no contract of its own: slug, kind and size joined by "_" with ".png"; `FilenameKeepsRequestedSize` states which size it names |
| ImageGen.BuildCoverPrompt | img/ai_gen.py:17-24 | the fixed opening, the title in single quotes, " Themes: ..." exactly when the stripped themes are non-empty, and the fixed closing |
| ImageGen.BuildScenePrompt | img/ai_gen.py:26-33 | the fixed opening with the quoted title, the scene text, "(themes: ...)" exactly when the stripped themes are non-empty, and the fixed closing |
| ImageGen.CoverThemesClause | img/ai_gen.py:17-24 | the cover prompt has a "Themes:" clause exactly when the stripped themes are non-empty |
| ImageGen.CoverNamesTitle | img/ai_gen.py:21 | the cover prompt names the title in single quotes |
| ImageGen.SceneText | img/ai_gen.py:27 | the scene is the stripped scene, or the default scene when that is empty |
| ImageGen.BlankSceneDefault | img/ai_gen.py:26-33 | a blank scene gives the same prompt as the default scene, and that prompt contains the default scene |
| ImageGen.CallWithRetry | img/ai_gen.py:115-123 | a 512x512 call that raises is retried once at 1024x1024; any other outcome stands, a decoding failure included |
| ImageGen.GenerateImageBytes | img/ai_gen.py:112-131 | the bytes are non-empty on success; a failed call, a reply without an item, an item without data and a failed decoding each give their own error |
| ImageGen.DecodeFailureNotRetried | img/ai_gen.py:81-131 | a 512x512 answer whose data cannot be decoded fails with that error and is not retried at 1024x1024 |
| ImageGen.GenerateBytes | img/ai_gen.py:135-156 | succeeds exactly when the generation does, with its bytes and the file name built from the chosen size |
| ImageGen.FilenameKeepsRequestedSize | img/ai_gen.py:113-144 | when 512x512 is refused and the retry succeeds, the bytes are the retry's but the file name still says 512x512 |
| Moderation.ModerateText | safety/moderation.py:8-20 | no error exactly when the endpoint answered with a result, and then the first result's fields; any failure gives not flagged, no categories or scores, and an error message |
| Moderation.Label | safety/moderation.py:25 | a label is its key with each underscore turned into a space |
| Moderation.LabelsAreFlaggedKeys | safety/moderation.py:25 | the labels are those of the truthy categories, one per category, in mapping order |
| Moderation.LabelsMembership | safety/moderation.py:25 | a category's label is listed exactly when the category is flagged |
| Moderation.LabelsHaveNoUnderscore | safety/moderation.py:25 | no label keeps an underscore |
| Moderation.ExplainCategories | safety/moderation.py:22-26 | no contract of its own: `NothingFlagged`, `OneFlagged`, `TwoFlagged` and `LabelsMembership` state what it lists |
| Moderation.NothingFlagged | safety/moderation.py:22-26 | an empty mapping, or one with nothing flagged, explains as "" |
| Moderation.OneFlagged | safety/moderation.py:22-26 | one flagged category explains as its own label |
| Moderation.TwoFlagged | safety/moderation.py:25-26 | labels are joined by ", " in mapping order |
| Config.GetEnv | config.py:10 | a set variable wins over the default even when it is empty |
| Config.ParseInt | config.py:41 | `int()` succeeds exactly on an optionally signed run of digits with single inner underscores and surrounding whitespace |
| Config.ParseShowInt | config.py:41 | the numeral of any integer reads back as that integer |
| Config.AsInt | config.py:39-43 | a parsable variable gives its value and an unparsable one the default |
| Config.AsIntUnset | config.py:39-43 | an unset variable gives the default |
| Config.Load | config.py:8-37 | no contract of its own: the validation that `FirstFailureReported`, `LoadedSettingsValid`, `Defaults` and `CaseRules` state |
| Config.FirstFailureReported | config.py:10-37 | loading succeeds iff all four checks pass, and reports the first failing one, in the order chat model, API key, TTS mode, TTS format |
| Config.LoadedSettingsValid | config.py:8-37 | loaded settings have an allowed model, a non-empty key, and a lower-case mode and format from their allowed sets |
| Config.Defaults | config.py:10-51 | with only the key set, every other setting takes its default |
| Config.CaseRules | config.py:10-37 | the model check is case-sensitive; the TTS mode and format are lower-cased before their check |
| Transcribe.LangArg | stt/transcribe.py:127 | None or "auto" in any case means detection; any other code is lower-cased |
| Transcribe.LangArgIdempotent | stt/transcribe.py:127 | normalising the language twice changes nothing |
| Transcribe.LangArgCases | stt/transcribe.py:69 | "AUTO" and "Auto" mean detection and "RO" becomes "ro" |
| Transcribe.OfflineText | stt/transcribe.py:90-102 | the stripped non-empty segment texts joined by single spaces; the final strip changes nothing, and the text is empty exactly when every segment is blank |
| Transcribe.JoinEdges | stt/transcribe.py:102 | joining non-empty unpadded parts with spaces leaves no edge space, and is empty only for no parts |
| Transcribe.Online | stt/transcribe.py:118-152 | the first call's text when it answers, else the retry with "whisper-1"; the result fails exactly when both raise, and its text is stripped |
| Transcribe.Bad | stt/transcribe.py:179 | no contract of its own: the "gibberish" test that `BadIsFewWords` reduces to a word count |
| Transcribe.IsOffline | stt/transcribe.py:171 | no contract of its own: the engine test that `EngineNames` exercises |
| Transcribe.BadIsFewWords | stt/transcribe.py:179 | a result is "bad" exactly when it has at most two words |
| Transcribe.TranscribeFile | stt/transcribe.py:156-191 | the online engine needs a client and otherwise is the online call; the duration is the file's |
| Transcribe.OfflineKept | stt/transcribe.py:171-184 | a good offline result, or a bad one with no client, is returned as it is |
| Transcribe.FallbackUsed | stt/transcribe.py:178-182 | a bad offline result with a client fails only if the online call does, and takes the online text unless that is empty |
| Transcribe.OfflineMissing | stt/transcribe.py:54-57 | a missing offline decoder is an error whatever the client |
| Transcribe.EngineNames | stt/transcribe.py:171 | "OFFLINE" and "off" select the offline engine and "openai" does not |
| Ui.Pad2 | ui/app_streamlit.py:106 | a field of digits, at least two long, exactly two below 100 |
| Ui.Pad2Value | ui/app_streamlit.py:106 | the padded field reads back as its number |
| Ui.FmtSecondsRoundTrip | ui/app_streamlit.py:103-106 | the clock is a minutes field of at least two digits, a colon and a two-digit seconds field below 60, and minutes · 60 + seconds is the input |
| Ui.FmtSeconds | ui/app_streamlit.py:103-106 | no contract of its own: the clock that `FmtSecondsRoundTrip` reads back |
| Ui.FmtSecondsExample | ui/app_streamlit.py:103-106 | 3725 seconds show as "62:05" |
| Ui.FirstWhere | ui/app_streamlit.py:88-90 | a title found is in the list and passes the test |
| Ui.FirstWhereNone | ui/app_streamlit.py:88-92 | nothing is found exactly when no title passes |
| Ui.DescFirstLongest | ui/app_streamlit.py:87-90 | the first hit in longest-first order is a longest passing title |
| Ui.DescPick | ui/app_streamlit.py:87-90 | the first hit in longest-first order is the earliest of the longest passing titles |
| Ui.GuessTitle | ui/app_streamlit.py:61-92 | no contract of its own: the corrected function that `GuessStages`, `KnownTitleSound` and `KnownTitleTieBreak` are about |
| Ui.GuessStages | ui/app_streamlit.py:69-82 | with the fourth pattern's alternation grouped, an empty answer gives None and a pattern hit gives its stripped group whatever the known titles are |
| Ui.GuessTitleAsWritten | ui/app_streamlit.py:61-92 | the patterns as written: the function raises exactly when the answer is non-empty and the match has no group 1; otherwise it agrees with the corrected `GuessTitle` |
| Ui.AutorRaises | ui/app_streamlit.py:75-82 | an answer with no `*` and no quotes that mentions "autor" makes the function as written raise, whatever the known titles |
| Ui.AutorExample | ui/app_streamlit.py:75-82 | "Un autor român" is such an answer |
| Ui.PlainAnswerUsesKnownTitles | ui/app_streamlit.py:75-92 | with the alternation grouped, an answer with no `*` and no quotes reaches the known-titles stage: a non-empty one gives a listed title it mentions with no longer mentioned title, or None exactly when it mentions none; an empty one gives None |
| Ui.KnownTitleSound | ui/app_streamlit.py:84-92 | the known-title stage returns a listed title the lower-cased answer contains, no mentioned title is longer, and it returns None exactly when no title is mentioned |
| Ui.KnownTitleTieBreak | ui/app_streamlit.py:86-90 | among mentioned titles of the greatest length, the earliest in the list wins, because the sort is stable |
| Ui.LongerTitlePreferred | ui/app_streamlit.py:86-90 | "It Ends" wins over "It" when the answer mentions both |

## Left out

- OpenAI chat completions, images, moderations, transcriptions and speech, the ChromaDB client and its embedding function, and `requests.get` are oracles. The model passes in what they return and does not describe their behaviour. Where the source catches a failure (the image, moderation and transcription calls, an unavailable collection), the oracle's outcome includes that failure; elsewhere only the successful return is modelled.
- `search_books` (imported by chatbot.py) is not part of this model. It is an oracle returning the optional candidate title.
- These are left out as I/O:
  - reading and writing YAML;
  - the fingerprint file, directory creation and audio clean-up;
  - `.env` loading in config.py.

  Files appear only as the values they hold: a `Document`, an optional fingerprint text, an environment map.
- The SHA-1 digest and the JSON dump inside `_fingerprint` are one uninterpreted function of the sorted rows.
- The following are presentation and plumbing:
  - FastAPI routing, CORS and the static mount;
  - Streamlit rendering, session state, `bootstrap_collection`, `run_recommendation` and the TTS helpers of ui/app_streamlit.py;
  - the main.py REPL and the scripts/doctor_config.py printout.
- These are foreign libraries with float timing:
  - audio conversion and duration measurement (pydub);
  - faster-whisper decoding;
  - the `avg_logprob` and info dictionaries of the transcribers.
- The SDK-signature cascade of `_images_generate_any` and the base64 and URL decoding of `_bytes_from_item` are left out. Their combined outcome is the `Reply` of one endpoint call.
- The `TOOL_SPEC` schema of tools/summary_tool.py is left out. It is data handed to the chat endpoint.
- Unicode text is not modelled:
  - NFKC normalisation is the identity.
  - `lower()` and `isalnum()` cover ASCII letters and digits only.
  - `\d` in the numeric-string rule and `int()` accept ASCII digits only.

  Python accepts many more letters and digits; lowering stays length-preserving, which the snippet locator relies on.
- `_as_float` and `TTS_VOLUME` (config.py:45-52) are left out as floating point.
- Distances are exact reals, not IEEE floats. Python's `float("inf")` is the constructor `Inf`.
- The regular-expression stage of `guess_title_from_answer` is an oracle. The model states only what the patterns must do on an answer with no `*` and no quotes; a full regex engine is not modelled. A missing `known_titles` list is the empty list, which behaves alike. The fourth pattern's group-less match is recorded under "## Findings".
- Ui.FmtSecondsRoundTrip: takes already rounded, non-negative whole seconds, because `int(round(s))` on a float (banker's rounding) is floating point.
- Transcribe.TranscribeFile: both engines measure the same converted file, so the online and offline durations are one parameter. The rule "online duration if non-zero, else offline duration" is present in the body but cannot show a difference.
- Transcribe.Online: does not model the `engine`, `model` and `language` info dictionary or the prompt hint sent with the call.
- Retriever.DebugCandidates: a metadata entry whose "title" is explicitly null is read as "", where Python would yield None.
- Retriever.SemanticSearch: the same reading applies to its titles, and its contract bounds each snippet's length. `Retriever.ZipItems` states each snippet exactly.
- Chatbot.ExtractToolTitle: a JSON "title" that is not a string (a number, a list) is not modelled.
- Chatbot.ToolPath: records each external call and the messages sent. It does not record the model name, temperature or tool-choice arguments.
- Chatbot.Chat: the two chat completions and `search_books` are modelled by their successful returns. A raising completion, an empty `choices` list (IndexError at chatbot.py:59 or :92) and a raising retrieval propagate out of `chat` uncaught, and are not modelled.
- EmbedStore.LoadSummaries: a scalar field arrives as its `str()` text. Two cases are not modelled: a falsy non-string `full_summary` (0, false), which Python reads as "", and `themes` values that are neither a string nor a list.
- EmbedStore.BuildBatch: theme items are strings. `load_summaries` keeps a YAML themes list as it is (rag/embed_store.py:26-29), so a list with a non-string item, such as `themes: [1984, war]`, makes `", ".join` raise TypeError at rag/embed_store.py:89. That raise is not modelled.
- Moderation.ModerateText: the text is a string. Python's `text or ""` for a `None` text is not modelled.
- EmbedStore.BuildBatch: Chroma's rejection of duplicate ids, when two titles share a slug, is left out. It happens inside the collection client.
- EmbedStore.InitVectorStore: the collection handle it returns is not modelled; the model returns the rebuild-or-reuse plan.

## Findings

| source | as written | input that shows it | evidently intended | confidence | as-written member | corrected member |
|---|---|---|---|---|---|---|
| ui/app_streamlit.py:75-82 | The fourth pattern ends in `\(.*?rezumat\|.*?autor`. The top-level `\|` makes `.*?autor` a whole alternative with no group 1, so `m.group(1).strip()` raises AttributeError, and the call site at ui/app_streamlit.py:371 does not catch it | the answer "Un autor român": no `**` and no quotes, so only the bare alternative can match | the alternation sits inside the parenthesis, `\((?:.*?rezumat\|.*?autor)`, so every match has a group 1 and such an answer goes on to the known-titles stage | high, not executed | Ui.AutorExample | Ui.PlainAnswerUsesKnownTitles |
