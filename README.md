# LinguaBridge document session and processing core, in Dafny

LinguaBridge lets a signed-in user upload a PDF, an image or an audio recording in Nepali or
Sinhala. The backend extracts the native text (OCR or transcription), translates it, and stores
per-page translation records. The user can then view the original and the translation and chat
about the document. This project models the logic that decides what the user sees and what the
backend keeps:

- `session.dfy`: the front-end page coordinator (`linguabridge/src/app/page.js`) as a class `Session`.
  - Modelled: its React state, the upload-start and upload-complete handlers with their
    `temp-` placeholder ids, document selection, the delayed clearing of the switching flag,
    the metadata and document-list replies, and document deletion.
  - Two scenario methods connect the handlers: a whole upload, and two selections whose metadata
    replies arrive out of order.
- `pdfview.dfy`: which pane the viewer (`PDFViewer.js`) renders for its props, as a pure function.
- `chat.dfy`: the chat panel (`ChatPanel.js`) as a class `Chat`. It models history loading,
  sending, and the reply that fills the "Thinking..." placeholder.
- `pager.dfy`: the page counter of `ViewerPane.js`: the Prev/Next clamps, the label, and the
  reset on a new asset.
- `vectorstore.dfy`: the local vector store (`backend/embeddings.py`): `add_document`
  (replace by id) and `query` (scan, stable descending sort, `top_k` cut).
- `backend.dfy`: from `backend/app.py`:
  - the upload whitelist (`allowed_file`, `is_audio_file`);
  - the `file_url` recorded for an upload and the extension `/metadata` reports back;
  - the `/file` fallback chain;
  - feedback validation;
  - the `"\n\n"` join of page texts in `/metadata`.
- `ocr.dfy`: from `backend/app.py`:
  - the OCR clean-up pipeline (`remove_repeated_characters`, `clean_ocr_text`,
    `is_reasonable_ocr_output`);
  - the candidate-selection loops of `extract_text_from_image` and
    `detect_document_language`.
- `text.dfy`, `wrappers.dfy`: the string operations the sources lean on, plus `Option`. These
  are Python's `split`, `strip`, `split()`, `join` and `lower`, and JavaScript's
  `split('.').pop()`.

Conventions of the model:

- I/O and external services are parameters:
  - tesseract is a function from (language string, config) to `Option<string>`;
  - the file system is an existence predicate;
  - the similarity score is a function of the chunk embedding;
  - the clock and random digits are plain values;
  - replies from the backend are datatypes, one constructor per outcome.
- Python's `\w` and `str.isalpha` are parameters (`word`, `alpha`), because their Unicode
  tables are not reproduced. Whitespace is the ASCII set plus the separators Python (`IsPySpace`)
  or JavaScript (`IsJsSpace`) strip.
- A React handler is a method on the class. Each `await` is split into:
  - the requests the handler issues, returned as values;
  - a separate method that commits the reply.

## Model

| member | source | states |
|---|---|---|
| DocumentIds.PlaceholderId | linguabridge/src/app/page.js:143 | the minted id starts with `temp-` and passes the usable-id guard |
| DocumentIds.DigitsPrefixEqual | linguabridge/src/app/page.js:143 | two ids `digits-rest` that are equal have equal digit prefixes |
| DocumentIds.PlaceholderIdsDiffer | linguabridge/src/app/page.js:143 | placeholders minted at different clock readings differ whatever the random part |
| DocumentSession.ExtensionOfName | linguabridge/src/app/page.js:149 | the extension is non-empty and dot-free; a non-empty name without a dot is its own extension |
| DocumentSession.ExtensionOfNameMeaning | linguabridge/src/app/page.js:149 | a name that does not end in a dot yields exactly the text after its last dot (the whole name when it has none); an empty name or a trailing dot yields "pdf" |
| DocumentSession.CompletionId | linguabridge/src/app/page.js:154 | the first truthy of `documentId`, `id`, otherwise `name` as it is; truthy iff one of the three is |
| DocumentSession.UndefinedKeyRejects | linguabridge/src/app/page.js:154-157 | a `documentId` of "undefined" wins the key choice and makes the reply unusable whatever `id` holds |
| DocumentSession.MetadataFetch | linguabridge/src/app/page.js:34-41 | a metadata request is issued iff the id is truthy and not "undefined", and it names that id |
| DocumentSession.DocumentsFetch | linguabridge/src/app/page.js:61-65 | a list request is issued iff a user id is present, for that user |
| DocumentSession.PrunePlaceholders | linguabridge/src/app/page.js:159-168 | the new set is exactly the old ids that do not start with `temp-` |
| DocumentSession.Session.constructor | linguabridge/src/app/page.js:18-29 | the initial state: no document, ext "pdf", empty texts, page 1, zoom 1, no processing ids |
| DocumentSession.Session.OnUploadStart | linguabridge/src/app/page.js:141-152 | a fresh placeholder is added to the processing set and made active with the file's name and extension; texts cleared; the invariant "processing ids are placeholders" kept |
| DocumentSession.Session.OnUploadComplete | linguabridge/src/app/page.js:153-194 | every placeholder is dropped on both paths; a usable id becomes active with page 1, zoom 1 and its ext/filename fallbacks, then metadata and list requests follow in order; an unusable id changes nothing else |
| DocumentSession.Session.OnDocumentSelect | linguabridge/src/app/page.js:203-220 | the switching flag is set, texts cleared, the document made active at page 1 and zoom 1, and its metadata fetched unless it is a placeholder |
| DocumentSession.Session.OnSwitchTimerFired | linguabridge/src/app/page.js:222-224 | the switching flag is cleared and nothing else changes |
| DocumentSession.Session.ReceiveMetadata | linguabridge/src/app/page.js:42-57 | an ok reply sets ext, native and translated text with their fallbacks; a failed or thrown one leaves them as they were |
| DocumentSession.Session.ReceiveDocuments | linguabridge/src/app/page.js:66-74 | an ok reply replaces the list (empty when absent); otherwise the list is kept |
| DocumentSession.Session.DeleteUserDocument | linguabridge/src/app/page.js:78-105 | no user: early return; ok: the list is refetched and, only if the deleted one is active, the view is cleared; not ok or thrown: the error is rethrown with its fallback message and nothing changes |
| DocumentSession.StaleReplyOverwrites | linguabridge/src/app/page.js:203-219 | selecting A then B, with A's reply arriving last, leaves B active while A's texts are shown |
| DocumentSession.UploadLifecycle | linguabridge/src/app/page.js:141-194 | during upload the processing set is just the placeholder and afterwards it is empty; a usable id ends active with metadata then list requests; an unusable one leaves the placeholder active on the processing pane |
| PdfView.SelectPane | linguabridge/src/components/PDFViewer.js:19-146 | no document iff no pane; switching wins, then a placeholder shows "processing"; image, audio or PDF panes are chosen iff the lower-cased extension is listed, each with the right URL and text fallbacks |
| PdfView.ExtensionCaseInsensitive | linguabridge/src/components/PDFViewer.js:26-27 | the image and audio tests give the same answer for an extension and its lower-cased form |
| PdfView.ImageAndAudioDisjoint | linguabridge/src/components/PDFViewer.js:26-27 | no extension is both an image and an audio extension |
| PdfView.PlaceholderShowsNoContent | linguabridge/src/components/PDFViewer.js:40-55 | a `temp-` id never reaches a pane that loads a file or shows document text |
| ChatPanel.FormatHistory | linguabridge/src/components/ChatPanel.js:33-37 | one message per stored row, in order, with its role and content, and its id or the fallback id when the id is falsy; missing rows give [] |
| ChatPanel.ReplaceContent | linguabridge/src/components/ChatPanel.js:116-120 | same length; a message with that id gets the new content and keeps its id and role; every other message is unchanged |
| ChatPanel.ReplaceKeepsOthers | linguabridge/src/components/ChatPanel.js:116-120 | a message with another id is left exactly as it was |
| ChatPanel.ReplaceAbsent | linguabridge/src/components/ChatPanel.js:116-120 | replacing an id no message carries is the identity |
| ChatPanel.ReplaceAppend | linguabridge/src/components/ChatPanel.js:116-120 | the replacement distributes over concatenation |
| ChatPanel.AnswerLandsOnPlaceholder | linguabridge/src/components/ChatPanel.js:84-91 | when no loaded row and not the user message carry the placeholder's id, the reply changes the placeholder only |
| ChatPanel.ReplacePair | linguabridge/src/components/ChatPanel.js:88-91 | in a question and its placeholder, replacing the placeholder's id changes the placeholder only |
| ChatPanel.ReplaceTwice | linguabridge/src/components/ChatPanel.js:96-100 | a later replacement under the same id overrides an earlier one |
| ChatPanel.ReplyText | linguabridge/src/components/ChatPanel.js:114-135 | an ok reply with a truthy `reply` gives that text; otherwise the error text or the trouble apology; a thrown fetch gives the connection apology; never empty |
| ChatPanel.Chat.constructor | linguabridge/src/components/ChatPanel.js:14-16 | no messages, empty input, not loading |
| ChatPanel.Chat.SetInput | linguabridge/src/components/ChatPanel.js:15 | the input becomes the typed text |
| ChatPanel.Chat.LoadChatHistory | linguabridge/src/components/ChatPanel.js:22-49 | without a document or user the list empties; otherwise loading ends false and the list is the formatted history, or [] on a failed load |
| ChatPanel.Chat.HandleSend | linguabridge/src/components/ChatPanel.js:72-101 | blank input: nothing changes; no document: one upload prompt is appended; otherwise question and placeholder are appended and the input cleared, then either the login prompt fills the placeholder or the request is returned |
| ChatPanel.Chat.ReceiveChatReply | linguabridge/src/components/ChatPanel.js:114-135 | only messages with the placeholder's id receive the reply text |
| ChatPanel.AskAboutDocument | linguabridge/src/components/ChatPanel.js:72-137 | load, send and reply leave the history, the question, and the answer in that order, with the input cleared |
| Pager.PrevPage | linguabridge/src/components/ViewerPane.js:66 | at least 1; one less above page 1 |
| Pager.NextPage | linguabridge/src/components/ViewerPane.js:69 | at most `numPages ?? 1`; one more below it |
| Pager.StepsStayInRange | linguabridge/src/components/ViewerPane.js:66-69 | Prev and Next keep a page in range in range |
| Pager.StepsAreInverse | linguabridge/src/components/ViewerPane.js:66-69 | Next undoes Prev above page 1; Prev undoes Next below the last page |
| Pager.ZeroPagesBreakNext | linguabridge/src/components/ViewerPane.js:69 | with a reported count of 0, Next sets page 0 |
| Pager.Label | linguabridge/src/components/ViewerPane.js:63 | "p of n" for a truthy count; "—" for a PDF still loading; "" otherwise |
| Pager.Pane.constructor | linguabridge/src/components/ViewerPane.js:14-15 | page 1 of an unknown count, in range |
| Pager.Pane.AssetChanged | linguabridge/src/components/ViewerPane.js:18-21 | back to page 1 of an unknown count |
| Pager.Pane.LoadSuccess | linguabridge/src/components/ViewerPane.js:36 | the count is recorded and the page is left alone; it stays in range when the page fits the count |
| Pager.Pane.Prev | linguabridge/src/components/ViewerPane.js:66 | the page steps by PrevPage and stays in range |
| Pager.Pane.Next | linguabridge/src/components/ViewerPane.js:69 | the page steps by NextPage and stays in range |
| VectorStore.WithoutId | backend/embeddings.py:40 | no kept document has the id, and a document is kept iff it was present with another id |
| VectorStore.WithoutIdAppend | backend/embeddings.py:40 | the filter keeps relative order (it distributes over concatenation) |
| VectorStore.Added | backend/embeddings.py:40-46 | the new document is last and is the only one with its id; other-id documents are kept exactly |
| VectorStore.AddedTwice | backend/embeddings.py:34-47 | adding twice under the same id equals adding the second version once |
| VectorStore.WithoutIdAbsent | backend/embeddings.py:40 | filtering a list without that id is the identity |
| VectorStore.AddedKeepsOrder | backend/embeddings.py:40-46 | adding a new id appends it after the earlier documents, in order |
| VectorStore.ScanChunks | backend/embeddings.py:61-71 | at most one hit per chunk |
| VectorStore.ScanChunksMeaning | backend/embeddings.py:61-71 | hits carry the document's id and name; each is a scored chunk with an embedding, and every such chunk yields one |
| VectorStore.ScanMeaning | backend/embeddings.py:58-71 | a truthy `document_id` restricts hits to it; every hit comes from a selected document's embedded chunk, and every such chunk is hit |
| VectorStore.Insert | backend/embeddings.py:72 | insertion adds one element and its head is the new one or the old head |
| VectorStore.InsertSorted | backend/embeddings.py:72 | inserting into a descending list keeps it descending |
| VectorStore.InsertPermutes | backend/embeddings.py:72 | insertion adds exactly the new element to the multiset |
| VectorStore.SortByScore | backend/embeddings.py:72 | the result is sorted by descending score and is a permutation of the input |
| VectorStore.InsertWithScore | backend/embeddings.py:72 | insertion keeps equal-score hits in their order, the new one first |
| VectorStore.SortIsStable | backend/embeddings.py:72 | hits of equal score keep their scan order |
| VectorStore.PyPrefix | backend/embeddings.py:73 | `results[:top_k]` is a prefix of length `min(k, n)`, or `n + k` clamped at 0 for negative k |
| VectorStore.PrefixSorted | backend/embeddings.py:73 | a prefix of a sorted list is sorted |
| VectorStore.QueryResultProperties | backend/embeddings.py:55-73 | at most `top_k` results, sorted by score, each a scanned hit, restricted to the named document |
| VectorStore.ScoreChunks | backend/embeddings.py:61-71 | the chunk loop computes the scan of that document |
| VectorStore.Store.constructor | backend/embeddings.py:16-19 | a new store holds no documents |
| VectorStore.Store.AddDocument | backend/embeddings.py:34-47 | the documents become `Added` of the old ones |
| VectorStore.Store.Query | backend/embeddings.py:55-73 | the loops compute the sorted, cut scan `QueryResult` |
| Backend.LastExtension | backend/app.py:46 | dot-free, and the lower-cased text after some dot with no dot after it |
| Backend.LastExtensionUnique | backend/app.py:46 | the lower-cased text after the last dot is that extension |
| Backend.AllowedFile | backend/app.py:45-46 | an allowed name has a dot and a non-empty extension after its last dot |
| Backend.IsAudioFile | backend/app.py:355-358 | every audio file is also an allowed upload |
| Backend.AllowedFileMeaning | backend/app.py:45-46 | allowed iff the name has a dot and the text after its last dot lowers to a listed extension |
| Backend.AudioFilesAreAllowed | backend/app.py:355-358 | every audio file passes the upload whitelist |
| Backend.NoDotRefused | backend/app.py:45-46 | a name without a dot is neither allowed nor audio |
| Backend.FileUrl | backend/app.py:557-562 | the recorded url starts with the document id, and the text after its last dot is the upload's own extension for an image and "pdf" for audio (its transcript) and for everything else |
| Backend.MetadataExt | backend/app.py:715 | dot-free; the lower-cased name when it has no dot |
| Backend.MetadataExtOfUpload | backend/app.py:557-562 | /metadata reports an image upload's own extension, and "pdf" for audio and PDF uploads |
| Backend.AudioUploadViewedAsPdf | backend/app.py:557-558 | once metadata arrives, an audio upload is shown as a PDF pane, not the audio player |
| Backend.DistinctPaths | backend/app.py:587-599 | the image and original paths differ from the translated-PDF path |
| Backend.FirstImage | backend/app.py:585-589 | the first listed extension whose image exists, or none iff none exists |
| Backend.GetFile | backend/app.py:580-607 | the first existing image wins and is served as "image/" + its extension; otherwise "native" serves the original PDF or 404; any other language serves the translated PDF, else the original, else 404; only existing files are served |
| Backend.TranslationPreferred | backend/app.py:597-601 | a non-native request with a translated PDF and no image gets the translation |
| Backend.ValidateFeedback | backend/app.py:620-627 | accepted iff user and text are truthy, the stripped text has at least 10 characters, and a truthy rating lies in 1..5; the accepted text is the stripped one; a missing user or text is refused as missing fields |
| Backend.ZeroRatingAccepted | backend/app.py:626 | a rating of 0 is falsy and skips the range check |
| Backend.PageTexts | backend/app.py:700-701 | only truthy page texts are kept, in record order |
| Backend.JoinedText | backend/app.py:700-701 | the joined text is empty iff no record has a truthy text |
| Backend.PageTextsAppend | backend/app.py:700-701 | the selection distributes over concatenation of records |
| Backend.JoinedTextAppend | backend/app.py:700-701 | one more record appends its truthy text after a blank line, or starts the text |
| Ocr.ScriptOf | backend/app.py:230-283 | "nep"/"nepali" select Devanagari and "sin"/"sinhala" select Sinhala |
| Ocr.MaxCharCount | backend/app.py:201-205 | no character occurs more often than the result, and some character occurs that often |
| Ocr.DominatedByMax | backend/app.py:205-207 | the `max_count / len > 0.6` test decides whether one character dominates the line |
| Ocr.KeepLine | backend/app.py:194-211 | a line shorter than 4 characters that mentions no noise word is always kept: the run and dominance tests only reject longer lines |
| Ocr.KeptLines | backend/app.py:194-213 | every kept line passes the three tests and came from the input |
| Ocr.KeptLinesAppend | backend/app.py:194-213 | the line filter keeps relative order |
| Ocr.RemoveRepeatedCharacters | backend/app.py:187-215 | the result is the newline-join of the kept lines |
| Ocr.RemovedLinesReadBack | backend/app.py:215 | when a line survives, splitting the result on newlines gives back exactly the kept lines |
| Ocr.FilterChars | backend/app.py:227 | exactly the input's characters of the kept class: each output character is one of the input's kept ones, and every kept character of the input appears |
| Ocr.FilterCharsAppend | backend/app.py:227 | the character filter distributes over concatenation, so it keeps order and multiplicity |
| Ocr.FilterCharsIdempotent | backend/app.py:227 | filtering twice equals filtering once |
| Ocr.KeepWord | backend/app.py:246-275 | a word with a character of the script, or with no ASCII letter, is always kept; an English-only word of at most 3 characters never is |
| Ocr.KeptWords | backend/app.py:244-275 | every kept word passes the word tests and came from the line, and every word of the line that passes is kept |
| Ocr.KeptWordsAppend | backend/app.py:244-275 | the word filter distributes over concatenation, so it keeps order and multiplicity |
| Ocr.CleanLine | backend/app.py:236-279 | a kept line is non-blank, newline-free, and splits into exactly the kept words; the line is dropped iff it is short and has no script character, or no word survives |
| Ocr.CleanLineKeepsWords | backend/app.py:236-279 | a kept line is non-blank, newline-free, and every word of it passes the word tests |
| Ocr.JoinedKeptWords | backend/app.py:277 | the space-joined kept words have no newline and split back into the kept words |
| Ocr.ScriptLines | backend/app.py:232-281 | every output line is non-blank and newline-free, and every word in it passes the word tests |
| Ocr.FilterWords | backend/app.py:244-275 | the word loop computes the kept words |
| Ocr.CleanOcrText | backend/app.py:218-321 | the loops compute `CleanedText`: line filter, character filter, then the script branch |
| Ocr.CleanedText | backend/app.py:218-321 | without a Nepali or Sinhala target, every character of the output is of the kept class |
| Ocr.ScriptOutputShape | backend/app.py:232-281 | for Nepali or Sinhala, every line of a non-empty output is a kept line: non-blank, newline-free, all words passing |
| Ocr.NoBlankLines | backend/app.py:278-281 | for Nepali or Sinhala, no line of a non-empty output is blank |
| Ocr.KeptWordsAreClean | backend/app.py:246-275 | for Nepali or Sinhala, every word of the output passes the word tests |
| Ocr.SinhalaNoiseIsShort | backend/app.py:306-311 | every Sinhala noise word is short enough to be dropped anyway |
| Ocr.IsReasonable | backend/app.py:324-337 | Nepali needs a Devanagari character, Sinhala a Sinhala one, anything else passes |
| Ocr.FirstMax | backend/app.py:93-95 | none iff all scores are 0; otherwise the index of the first positive maximal score |
| Ocr.FirstMaxStep | backend/app.py:93-95 | one more score moves the choice exactly when it beats the best so far |
| Ocr.Runs | backend/app.py:163-166 | two runs per language string |
| Ocr.Outcomes | backend/app.py:143-166 | fourteen runs for the seven candidates and two configs |
| Ocr.RunAt | backend/app.py:163-166 | run `j` of language string `i` sits at position `2i + j` |
| Ocr.CandidateScores | backend/app.py:167-172 | one score per run: the stripped length of reasonable text, else 0 |
| Ocr.BestCandidate | backend/app.py:160-172 | the chosen text is "" or the output of one of the runs |
| Ocr.BestCandidateChoice | backend/app.py:160-172 | "" iff no run scores; otherwise a run's reasonable text, longest once stripped, and the first such |
| Ocr.BestCandidateStep | backend/app.py:170-172 | one more run takes over exactly when its score beats the best so far |
| Ocr.ConsiderRun | backend/app.py:167-172 | the loop body carries the best text and length from n runs to n + 1 |
| Ocr.ExtractText | backend/app.py:143-184 | the nested loops return the best candidate of all runs for `lang or "nep"` |
| Ocr.MeaningfulChars | backend/app.py:92 | at most the text's length; 0 iff no character is a letter or a space; the whole length iff every character is |
| Ocr.MeaningfulCharsAppend | backend/app.py:92 | the count is additive over concatenation |
| Ocr.LanguageScores | backend/app.py:86-92 | one score per language pair, from its `--psm 6` run |
| Ocr.DetectedLanguage | backend/app.py:83-95 | one of nep/sin/eng; the code of the first strictly best positive score wins whichever language it is; a result other than "nep" is such a code; "nep" comes back only when nothing scores or nep's run is the best |
| Ocr.ConsiderLanguage | backend/app.py:90-95 | a run whose score (the meaningful-character count of a non-blank text, else 0) beats the best so far takes over with that score; any other run leaves the best language and count unchanged |
| Ocr.DetectLanguage | backend/app.py:77-95 | the loop returns `DetectedLanguage` of the scores |
| Text.AfterLast | linguabridge/src/app/page.js:149 | the dot-free suffix after the last separator, or the whole string |
| Text.Split | backend/app.py:191 | at least one part, none holding the separator |
| Text.Join | backend/app.py:215 | the empty list joins to ""; otherwise the length is the parts' total plus one separator between each pair |
| Text.JoinSplit | backend/app.py:191 | joining the split parts restores the text |
| Text.SplitJoin | backend/app.py:215 | splitting a join of separator-free parts gives them back |
| Text.Trim | backend/app.py:200 | empty iff all whitespace; otherwise begins and ends with non-whitespace; it is a slice of the input with only whitespace before and after it |
| Text.Words | backend/app.py:244 | every word is non-empty and whitespace-free |
| Text.WordsJoin | backend/app.py:277 | splitting the space-join of words gives the words back |
| Text.Lower | backend/app.py:46 | same length; no upper-case ASCII letter remains; each upper-case ASCII letter becomes its lower-case form and every other character is unchanged |
| Text.LowerIdempotent | backend/app.py:46 | lowering twice equals lowering once |
| Text.Decimal | linguabridge/src/components/ViewerPane.js:63 | a non-empty string of digits, with a leading "0" iff the number is 0 |
| Text.DecimalRoundTrip | linguabridge/src/components/ViewerPane.js:63 | reading the digits back gives the number |

## Left out

- Text.Lower: lower-cases ASCII letters only; Python's and JavaScript's Unicode case mapping is not reproduced.
- Ocr.Dominated: `max_count / len > 0.6` is taken as the exact rational comparison `5 * max > 3 * len`. The float division is not modelled.
- Python's `\w` and `str.isalpha` are parameters of the OCR functions, not Unicode tables.
- tesseract is a parameter. An exception and an absent output are both `None`. The image preprocessing (grayscale, contrast, scaling) before OCR is not modelled.
- detect_document_language: only the scoring loop is modelled. The PDF-to-image conversion, its early returns, and the temporary files are not.
- DocumentSession.Session: each async handler is split into the requests it issues and the methods that commit replies. Interleavings are modelled only as the scenarios above.
- The 100 ms `setTimeout` is the separate method `OnSwitchTimerFired`.
- DocumentSession.Session.DeleteUserDocument compares the deleted id against the current `documentId`. The source compares against the value its closure captured at render time.
- The upload dialog, top bar, sidebar, login redirects and the auto-scroll effect are not modelled. Console logging is not modelled either.
- Backend.FileUrl: the contract states the id prefix and the extension after the last dot, which is what `/metadata` and the viewer read; the `_native`/`_original` tag in between is fixed by the body only.
- `secure_filename` is not modelled: the upload extension is taken from the name as given.
- JSON values are strings or absent; non-string JSON types in replies (numbers, objects where strings are expected) are not modelled.
- File system, Supabase, OpenAI embeddings and chat, Whisper transcription, PDF rendering and translation are outside the model or given as parameters.
- VectorStore: `_cosine` is a parameter (`score`), and `_load_store`/`_save_store` are the `documents` field of `Store`. The JSON file and its concurrent access are not modelled.
- Zoom in `ViewerPane.js` and `page.js` is kept only as a value reset to 1; its clamps and float rounding are not modelled.
- `Date.now()` and `Math.random()` are parameters. The random suffix of a placeholder id is an arbitrary string.
