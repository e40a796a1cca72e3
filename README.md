# Pin IT-support chat backend, modelled in Dafny

This project models the deterministic core of Pin, an IT-support chat backend.
A user's message passes through these stages in one `/chat` turn:

1. A keyword classifier picks a support *flow*: vpn, email, wifi or fallback.
2. The flow's required *slots* are filled from the request context, from
   `key: value` lines and from guesses about the OS and MFA.
3. A missing-field gate asks for the first slot that is still missing.
4. Retrieval from a knowledge base gives citations and a best similarity score.
5. The escalation policy decides whether to open a ticket instead of answering.
6. A guardrail check screens the generated answer. A rejected answer is
   replaced by a ticket.
7. A ticket is rendered as fixed-order plain text.

The project also models two more parts:
- Retrieval post-processing: snippet shaping, citation assembly and the best score.
- The knowledge-base text tools: the `---` front-matter splitter, the `## `
  section chunker, section selection for YAML files, the Markdown-to-YAML
  converter's record, and the overlapping fixed-width character chunker used
  for indexing.

Modules, one per component:

| module | file | models |
|---|---|---|
| `Engine` | engine.dfy | flows, the flow registry (a class), `classify`, `get`, `next_missing_field`, `question_for` |
| `Guardrails` | guardrails.dfy | the banned phrases, `check_response`, `should_escalate` |
| `FieldExtractor` | field_extractor.dfy | `_extract_kv`, `_heuristic_field_guess`, the three passes of `_merge_collected` |
| `TicketBuilder` | ticket_builder.dfy | `_render_ticket` and the two tickets built in `chat` |
| `ChatTurn` | chat_turn.dfy | the `/chat` handler: the transcript and ticket log, and the turn as a function plus methods |
| `Session` | session.dfy | `SessionState` and the session table as an in-memory map, with `new_session`, `load_session` and `save_session` |
| `VecStore` | vec_store.dfy | `fetch_citations` and `retrieve_with_scores` |
| `Ingest` | ingest.dfy | `_split_front_matter`, `_chunk_markdown_by_h2` and `load_kb_file` |
| `ConvertKb` | convert_kb.dfy | `convert_file` of the Markdown-to-YAML converter |
| `IngestKb` | ingest_kb.dfy | `chunk_text` |
| `Schemas`, `Config` | schemas.dfy, config.dfy | request, response and ticket shapes; the thresholds |
| `Text`, `Dicts`, `Options`, `Seqs` | text.dfy, dicts.dfy, options.dfy, seqs.dfy | Python's `str` methods, insertion-ordered `dict`, `Optional`, and a flat-map helper |
| `StrRepr` | str_repr.dfy | Python's `repr` of a string, which `str()` of a list applies to its items |

Modelling choices:
- A Python `dict` whose order shows in the output is a `Dict<V>`, a sequence of
  key/value pairs. This covers `collected`, the ticket's `user`, `device` and
  `diagnostics`, and `_extract_kv`'s result. `Put` overwrites a key in place and
  otherwise appends, like item assignment. `SetDefault` is `dict.setdefault`.
- The loops that build a result step by step are methods with a `for` or
  `while` loop: `ExtractKv`, the three merge passes, the registry
  constructor, `RenderTicket`'s appends, `FetchCitations`,
  `RetrieveWithScores`, `ChunkMarkdownByH2`, `SelectSections` and `ChunkText`.
  Each is proved equal to a specification function, and the properties are
  proved about that function. Two early-return searches are recursive
  functions instead: `check_response`'s banned-phrase scan
  (`Guardrails.FirstBanned`) and `next_missing_field` (`Engine.FirstMissing`).
  The converter's `sections` comprehension is a function
  (`ConvertKb.WrittenSections`).
- A turn can fail in two ways. An `LLMError` raised inside the `try` around
  the model call answers 502. An exception that escapes the handler answers
  500. Two kinds escape: any other failure of the model call, and a ticket
  whose truthy `summary` is not a string, which pydantic's `summary: str`
  refuses. Either way only the user's message has been logged, and the
  session is not saved.
- Objects the source mutates are classes:
  - the flow registry;
  - a session's state;
  - the session table;
  - the message and ticket log.
- The `/chat` handler is the method `ChatTurn.Chat`. Its postcondition ties the
  final store, log and outcome to the pure function `ChatTurn.Step`, and the
  turn properties are proved as lemmas about `Step`.
- Foreign calls are parameters of the model:
  - the language model (`complete`);
  - retrieval (`retrieve`; the nearest-neighbour `matches` and the joined chunk
    `table` for `VecStore`);
  - the YAML parser (`parse`);
  - the uuid of a fresh session (`freshId`);
  - the sha1 path hash (`FileInfo.pathHash`);
  - float formatting (`fmt`).
- The converter's own copies of `_split_front_matter` and
  `_chunk_markdown_by_h2` (scripts/convert_kb_to_yaml.py:45-81) are textually
  the loader's. They are modelled once, by `Ingest.SplitFrontMatter` and
  `Ingest.Chunked`.

Where the specification and the code differ, the model follows the code:
- Request context keys are stored as given. Only keys parsed from the message
  are lower-cased (app/main.py:38, 67-70).
- The guardrail ticket's `user` holds only `org_id` and `user_id`. The
  escalation ticket also copies the `user_` context fields (app/main.py:181, 239).
- An unknown session id creates and saves a fresh session under that id
  (app/core/session.py:54-58).
- `if missing:` treats an empty field name as "nothing missing"
  (app/main.py:153).

Two calls in `chat` do not match their callees. The turn is modelled as evidently intended:
- `new_session(org_id=..., user_id=...)` is called, but `new_session` takes no
  arguments.
- `retrieve(index, query)` is called, but `retrieve` is an async function of
  the query alone.

So a new session is fresh and stored under `freshId`, and retrieval is the
function `retrieve(message, collected)`, which returns the citations and the
best score.

## Model

| member | source | states |
|---|---|---|
| Engine.FlowFrom | app/flows/engine.py:36-51 | a flow built from its config keeps its key, and its required fields and step limit fall back to `[]` and 6 when absent |
| Engine.FlowsOfKeys | app/flows/engine.py:34-42 | the registry holds a flow for exactly the configured category keys, each under its own key |
| Engine.FlowRegistry.constructor | app/flows/engine.py:22-51 | the registry holds the configured categories and the fallback flow built from the `fallback` config |
| Engine.FlowRegistry.Classify | app/flows/engine.py:53-66 | the result is always one of vpn, email, wifi, fallback |
| Engine.ClassifyFirstGroupWins | app/flows/engine.py:59-66 | the lower-cased message is tested against the vpn, email and wifi keyword groups in that order; the first group with a hit wins, otherwise "fallback" |
| Engine.VpnBeatsEmail | app/flows/engine.py:60-63 | a message naming both VPN and Outlook ("VPN and Outlook down") is classified "vpn", since the vpn group is tested first |
| Engine.FlowRegistry.Get | app/flows/engine.py:68-69 | a registered key gives its flow, and any other key gives the fallback flow; the result never fails |
| Engine.FirstMissing | app/flows/engine.py:76-80 | a returned field is required and absent, None or blank; None means every required field is present |
| Engine.NextMissingField | app/flows/engine.py:75-80 | a returned field is an element of the flow's required fields |
| Engine.FirstMissingIsFirst | app/flows/engine.py:76-79 | the returned field is the first missing one in declared order, and None is returned iff no required field is missing |
| Engine.NextMissingFieldIsFirst | app/flows/engine.py:75-80 | every required field before the returned one is present, and None means all are present and not blank |
| Engine.NonStringFills | app/flows/engine.py:78 | a non-string value such as 0 or False fills a slot |
| Engine.QuestionFor | app/flows/engine.py:83-84 | the configured question for the field, else "Please provide: " + field |
| Guardrails.FirstBanned | app/policies/guardrails.py:27-29 | a returned phrase is a banned phrase found in the text, and None iff no phrase occurs |
| Guardrails.FirstBannedIsEarliest | app/policies/guardrails.py:27-29 | the phrase reported is the first in list order that occurs |
| Guardrails.CheckResponse | app/policies/guardrails.py:25-32 | a result is ok iff it has no reason, and ok iff no banned phrase occurs in the lower-cased text and the text has at most 5000 characters |
| Guardrails.BannedPhraseReported | app/policies/guardrails.py:14-29 | the first banned phrase present is reported as "Banned phrase detected: <phrase>", before any length check |
| Guardrails.LengthLimit | app/policies/guardrails.py:30-32 | with no banned phrase, more than 5000 characters fails with "Response too long" and up to 5000 passes |
| Guardrails.BannedPhraseExample | app/policies/guardrails.py:26-29 | "Try to BYPASS the proxy" fails on "bypass" after lower-casing |
| Guardrails.TooLongExample | app/policies/guardrails.py:30-31 | 6000 characters without a banned phrase fail as too long |
| Guardrails.PassingExample | app/policies/guardrails.py:32 | an ordinary short answer passes |
| Guardrails.ShouldEscalate | app/policies/guardrails.py:35-40 | escalates iff turns reach the limit or the score is below the minimum; the turn limit reason takes precedence, and there is a reason iff it escalates |
| Guardrails.EscalationExamples | app/policies/guardrails.py:35-40 | with the default settings, 6 turns escalate with "Exceeded max turns (6)", score 0.05 escalates for low confidence, and score 0.5 at turn 1 does not escalate |
| FieldExtractor.WordRun | app/main.py:36 | the length of the leading `[a-zA-Z0-9_]` run, maximal |
| FieldExtractor.MatchKvShaped | app/main.py:36-38 | an accepted line gives a lower-case key of 2 to 41 word characters that starts with a letter or `_`, and a stripped value |
| FieldExtractor.MatchKvNeedsSeparator | app/main.py:36 | an accepted line contains `:` or `=` |
| FieldExtractor.MatchKvRoundTrip | app/main.py:36-38 | a line built from a key, padding, a separator and a stripped non-empty value parses back to the lower-cased key and that value |
| FieldExtractor.NoSeparatorIgnored | app/main.py:36-37 | a line without `:` or `=` is ignored |
| FieldExtractor.ColonExample | app/main.py:31 | "os: Windows 11" parses to ("os", "Windows 11") |
| FieldExtractor.EqualsExample | app/main.py:32 | "error_message = 809" parses to ("error_message", "809") |
| FieldExtractor.Parses | app/main.py:35-36 | one parse result per line, in line order |
| FieldExtractor.ExtractKv | app/main.py:27-39 | the loop's dictionary is the specification `KvOf` of the message's lines |
| FieldExtractor.KvOfWellFormed | app/main.py:34-39 | the extracted dictionary has distinct keys, each of the stored key shape, and stripped values |
| FieldExtractor.CollectLastWins | app/main.py:38 | a key maps to v iff the last line that sets that key sets it to v |
| FieldExtractor.KvOfLastWins | app/main.py:35-38 | over the message's lines, a later line with the same key overwrites an earlier one |
| FieldExtractor.OsGuess | app/main.py:45-54 | an OS guess is one of Windows, macOS, Android, iOS, Linux |
| FieldExtractor.GuessesSpec | app/main.py:44-62 | the guesses contain `os` only when an OS was found, and `mfa_working` is "no" when the no-pattern matches, else "yes" when the yes-pattern matches |
| FieldExtractor.HeuristicFieldGuessSpec | app/main.py:42-62 | the guesser on a message is the guesses of its lower-cased text |
| FieldExtractor.OsPrecedence | app/main.py:45-48 | "windows" wins over every other OS keyword, and macOS over the rest |
| FieldExtractor.MfaNoWins | app/main.py:57-60 | "MFA works but 2FA fails" gives `mfa_working` = "no": the no-pattern is applied last |
| FieldExtractor.FillContextGet | app/main.py:67-70 | after the context pass, a key keeps its collected value if it had one, else takes the non-None context value |
| FieldExtractor.OverwriteGet | app/main.py:73-75 | after the parsed pass, a parsed key takes the parsed value, and every other key is unchanged |
| FieldExtractor.FillGuessesGet | app/main.py:78-80 | after the guess pass, a guessed key takes the guess only if it was absent |
| FieldExtractor.MergedGet | app/main.py:65-80 | after the merge, each key's value is the parsed value if any, else the earlier value, else the context value, else the guess |
| FieldExtractor.MergedExtends | app/main.py:65-80 | merging never removes a collected key and keeps the existing key order |
| FieldExtractor.FillFromContext | app/main.py:67-70 | the loop's result is the specification `FillContext` |
| FieldExtractor.OverwriteParsed | app/main.py:73-75 | the loop's result is the specification `Overwrite` |
| FieldExtractor.FillFromGuesses | app/main.py:78-80 | the loop's result is the specification `FillGuesses` |
| FieldExtractor.MergeCollected | app/main.py:65-80 | the session's collected map becomes `Merged` of the old map and the request |
| TicketBuilder.EntryLines | app/main.py:90-98 | one `  - k: v` line per entry |
| TicketBuilder.StepLines | app/main.py:106-107 | one line per attempted step |
| TicketBuilder.SourceLines | app/main.py:113-114 | one line per citation |
| TicketBuilder.UserPart | app/main.py:85-91 | the header's five lines, then one line per user field |
| TicketBuilder.DevicePart | app/main.py:92-94 | the user part, "Device:", then one line per device field |
| TicketBuilder.DiagnosticsPart | app/main.py:95-98 | the device part, a blank line, "Diagnostics:", then one line per diagnostic |
| TicketBuilder.AppendEntries | app/main.py:90-98 | the loop appends exactly the entry lines |
| TicketBuilder.AppendSteps | app/main.py:106-107 | the loop appends exactly the step lines |
| TicketBuilder.AppendSources | app/main.py:113-114 | the loop appends exactly the source lines |
| TicketBuilder.AppendOptionalBlocks | app/main.py:99-108 | appends the error block and the steps block when present, then a blank line |
| TicketBuilder.RenderTicket | app/main.py:83-115 | the rendered text equals the specification `Rendered` |
| TicketBuilder.UserLayout | app/main.py:85-91 | the summary, category and impact/urgency header, a blank line and "User:", then each user field in order |
| TicketBuilder.DeviceLayout | app/main.py:92-94 | the device block follows the user block under its heading |
| TicketBuilder.DiagnosticsLayout | app/main.py:95-98 | the diagnostics block follows after a blank line and its heading |
| TicketBuilder.BodyLayout | app/main.py:99-108 | the error block appears exactly when there is an error text, the steps block exactly when steps were attempted, then a blank line |
| TicketBuilder.TicketLinesLayout | app/main.py:109-114 | the escalation reason line always follows, then the sources block exactly when there are citations |
| TicketBuilder.RenderedShape | app/main.py:115 | the rendering starts with the laid-out lines up to "Escalation reason:", starts with "Summary: " and the summary, and ends with one newline after a visible character |
| TicketBuilder.JoinThroughReason | app/main.py:108-115 | the joined lines begin with the joined body, a newline and the reason line |
| TicketBuilder.DefaultTicketLines | app/main.py:83-115 | a ticket with only its required fields renders its headers, empty sections, a blank line and the reason |
| TicketBuilder.SummaryOf | app/main.py:179 | a truthy collected string summary is kept; a missing or falsy one gives the stripped message cut to 120 characters; a truthy summary that is not a string is refused, as pydantic's `summary: str` (app/models/schemas.py:31-32) refuses it |
| TicketBuilder.SummaryTypeMatters | app/main.py:179 | a context summary of 5 makes the ticket unbuildable, while a summary "5" is kept |
| TicketBuilder.CategoryOf | app/main.py:180 | the session category when non-empty, else "unknown"; never empty |
| TicketBuilder.ErrorTextOf | app/main.py:185 | an error text exists iff the collected `error_message` is truthy, and it is its string form |
| TicketBuilder.WithPrefix | app/main.py:181-182 | the filtered context keeps only keys with the prefix |
| TicketBuilder.WithPrefixLast | app/main.py:181-182 | a key with the prefix keeps its context value, and a key without it is dropped |
| TicketBuilder.EscalationUserGet | app/main.py:181 | `org_id` and `user_id` come first and keys stay distinct; a `user_` context field is copied, and a context `user_id` replaces the request's in place |
| TicketBuilder.EscalationReasonOf | app/main.py:186 | the policy's reason, or "Escalated" when it gave none; never empty |
| TicketBuilder.TicketsShareFields | app/main.py:177-188 | each ticket is refused exactly when the summary is; a built pair carry medium impact and urgency, the collected fields, the steps, the citations and the `device_` fields; an error section appears iff `error_message` is truthy; the guardrail ticket's user is only the org and user ids (lines 236-246) |
| Session.Fresh | app/core/session.py:42 | a new session has zero turns, no category, nothing collected and no steps |
| Session.Upsert | app/core/session.py:69-89 | saving stores the record under its id, adds only that key and leaves every other session as it was |
| Session.Lookup | app/core/session.py:47-66 | a stored id gives its record and changes nothing; an unknown id gives a fresh record, which is saved under that id |
| Session.LoadAfterSave | app/core/session.py:47-89 | loading a session just saved gives back what was saved |
| Session.SaveIsolation | app/core/session.py:69-89 | saving one session does not change what any other id loads |
| Session.LoadIdempotent | app/core/session.py:47-66 | a second load of the same id gives the same record and table |
| Session.SessionState.constructor | app/core/session.py:13-19 | the state holds the given id and record |
| Session.SessionStore.constructor | app/core/session.py:26-34 | the table starts empty |
| Session.SessionStore.NewSession | app/core/session.py:40-44 | a fresh state under the new id, saved to the table |
| Session.SessionStore.LoadSession | app/core/session.py:47-66 | the loaded state and the new table are those of `Lookup` |
| Session.SessionStore.SaveSession | app/core/session.py:69-89 | the table becomes `Upsert` of the state's record |
| Schemas.TruthyTextNonEmpty | app/main.py:185 | a truthy value has a non-empty string form |
| Schemas.LevelNames | app/models/schemas.py:34-35 | an impact or urgency level is named low, medium or high, and "medium" is the default |
| Schemas.TicketDefaults | app/models/schemas.py:31-42 | a ticket built from its required fields has medium impact and urgency, empty sections, no error text and no citations |
| Schemas.ResponseType | app/models/schemas.py:23-52 | a chat response is tagged "answer" iff it is an answer, else "ticket" |
| ChatTurn.Transcript.constructor | app/main.py:149 | the message and ticket log starts empty |
| ChatTurn.Transcript.InsertMessage | app/main.py:149 | appends one message and no ticket |
| ChatTurn.Transcript.InsertTicket | app/main.py:190-203 | appends one ticket row and no message |
| ChatTurn.Opened | app/main.py:136 | the session the request names (loaded or created), else a fresh one; either way it is stored |
| ChatTurn.Prepared | app/main.py:137-146 | after the bookkeeping the session has a non-empty category |
| ChatTurn.Gate | app/main.py:152-153 | the gate asks only for a non-empty field name |
| ChatTurn.Reply | app/main.py:149-268 | every turn logs the user's message first and keeps the prepared state |
| ChatTurn.Retrieved | app/main.py:176-268 | the same for every branch after retrieval |
| ChatTurn.Chat | app/main.py:129-268 | the outcome, the saved session table and the appended messages and tickets are those of `Step` on the opened session |
| ChatTurn.Begin | app/main.py:135-146 | opens the session, counts the turn, sets the category once and merges the fields, as `Prepared` |
| ChatTurn.Respond | app/main.py:151-173 | the gate, then retrieval, as `Reply` |
| ChatTurn.Decide | app/main.py:176-268 | escalation, the model call (502 on an `LLMError`, 500 on any other failure), the guardrail check and the answer, as `Retrieved`; a ticket that cannot be built gives 500 |
| ChatTurn.OpenTicket | app/main.py:189-206 | renders, stores the ticket, logs the rendering, saves the session |
| ChatTurn.TurnBookkeeping | app/main.py:136-149 | a turn counts exactly one more turn; the category is assigned only when there is none and otherwise kept; the fields are merged; the user's message is logged first |
| ChatTurn.GateAsksFirstMissing | app/main.py:152-163 | with a required field missing, the reply is its question, the session is saved, no ticket is opened, and retrieval and the model have no effect |
| ChatTurn.TurnLimitEscalates | app/main.py:176-206 | with all fields present, reaching the turn limit opens a ticket with the turn-limit reason, whatever the model would say; if the summary is refused, the turn answers 500 and saves nothing |
| ChatTurn.LowConfidenceEscalates | app/main.py:176-206 | below the turn limit, a best score under the minimum opens a low-confidence ticket carrying the retrieved citations, or answers 500 if the summary is refused |
| ChatTurn.AnswerPassedGuardrails | app/main.py:234-268 | an answer that is not a question passed the gate, was not escalated, is the model's text, passed the guardrails and carries the citations |
| ChatTurn.GuardrailRedirects | app/main.py:234-264 | a rejected answer becomes a ticket whose reason is "Guardrail blocked response: " + the guardrail's reason, or answers 500 if the summary is refused |
| ChatTurn.FailureSavesNothing | app/main.py:178-268 | a failed turn answers 502 or 500, saves nothing, opens no ticket and logs only the user's message; only a failure leaves the session unsaved |
| ChatTurn.FailureCauses | app/main.py:178-268 | 502, with the error's message, exactly when the model call raised an `LLMError` inside the `try` (lines 226-232); 500 exactly when the model call failed otherwise (`get_llm` at line 225, transport and JSON errors) or a due ticket's summary was refused |
| ChatTurn.TicketReplyStored | app/main.py:189-206 | a ticket reply is the stored ticket row and the logged assistant message, with the same rendering, and the session is saved; no ticket is stored without a ticket reply |
| ChatTurn.NextTurnContinues | app/main.py:136-143 | the next turn on a saved session starts from the saved state, counts on from it and keeps its category |
| VecStore.NormalizeSnippet | app/rag/vec_store.py:140 | the snippet is no longer than the text and has no newline |
| VecStore.ShapeSnippet | app/rag/vec_store.py:140-142 | at most 243 characters; kept as is up to 240, else a prefix of the normalised text followed by "..." |
| VecStore.ShapeSnippetOneLine | app/rag/vec_store.py:140-142 | a shaped snippet has no newline |
| VecStore.ShortSnippetKept | app/rag/vec_store.py:140-141 | a short snippet is the stripped text with newlines as spaces |
| VecStore.CitationForShape | app/rag/vec_store.py:143-148 | the citation's source id is `source_path#section_title`, its title `doc_title — section_title`, its snippet shaped |
| VecStore.Present | app/rag/vec_store.py:136-139 | the ids with a row, in order |
| VecStore.Citations | app/rag/vec_store.py:135-150 | one citation per id with a row, never more than the ids |
| VecStore.FetchCitations | app/rag/vec_store.py:108-150 | the loop's citations are the specification `Citations` |
| VecStore.CitationsInOrder | app/rag/vec_store.py:135-150 | the citations are those of the present ids, in the ids' order |
| VecStore.AllPresentCitations | app/rag/vec_store.py:135-150 | when every id has a row, citation i is that of id i |
| VecStore.Score | app/rag/vec_store.py:165 | the score is `max(0, 1 - distance)` |
| VecStore.BestScore | app/rag/vec_store.py:160-165 | non-negative, and 0 without matches |
| VecStore.BestScoreIsMax | app/rag/vec_store.py:159-165 | for matches sorted by distance, the first match's score is the largest score |
| VecStore.BestScoreBounded | app/rag/vec_store.py:156-165 | for cosine distances, which lie in [0, 2], the best score lies in [0, 1] |
| VecStore.Ids | app/rag/vec_store.py:163 | the ids of the matches, in order |
| VecStore.LabelledAsWritten | app/rag/vec_store.py:169-170 | as written, one label per citation |
| VecStore.RetrieveWithScoresAsWritten | app/rag/vec_store.py:153-172 | as written: no matches give `([], 0)`; otherwise one label per citation found, never more than the matches, and the best score |
| VecStore.AsWrittenMislabels | app/rag/vec_store.py:169-170 | when the nearest match has no row, the only citation (the second match's) is labelled with the first match's score |
| VecStore.PresentMatches | app/rag/vec_store.py:136-139 | the matches with a row, in order |
| VecStore.LabelledCitations | app/rag/vec_store.py:167-170 | at most one labelled citation per match |
| VecStore.RetrieveWithScores | app/rag/vec_store.py:153-172 | the citations are the labelled citations and the score is the best score; no matches give no citations and 0 |
| VecStore.LabelledCitationsOwnScore | app/rag/vec_store.py:167-170 | the corrected labelling keeps `fetch_citations`'s citations in order, each labelled with the score of the match it came from |
| VecStore.CorrectedLabelsOwnScore | app/rag/vec_store.py:169-170 | on the mislabelling input, each corrected citation carries its own match's score |
| Ingest.YamlText | app/rag/ingest.py:73-75 | `str()` of a list starts with `[`; its string items are written by `StrRepr.Repr` |
| Ingest.ListTextOne | app/rag/ingest.py:73-75 | a one-item list of a string is written as the item's `repr` in brackets, so `["it's"]` keeps its double quotes |
| StrRepr.Quote | app/rag/ingest.py:73-75 | `repr` quotes with `"` exactly when the string holds a `'` and no `"`, otherwise with `'` |
| StrRepr.EscapeChar | app/rag/ingest.py:73-75 | a character is written with a backslash exactly when it is a backslash, the quote, a tab, newline or return, or a character `repr` writes as `\xhh` |
| StrRepr.Repr | app/rag/ingest.py:73-75 | the literal is at least two longer than the string and starts and ends with the chosen quote |
| StrRepr.ReprRoundTrip | app/rag/ingest.py:73-75 | reading the inside of the literal back as a Python string literal gives the string |
| StrRepr.ReprPlain | app/rag/ingest.py:73-75 | a string without a `'`, a backslash or a character needing an escape is written as itself in single quotes |
| StrRepr.ReprExamples | app/rag/ingest.py:73-75 | `it's` is written in double quotes, and a backslash is doubled |
| Ingest.TextOr | app/rag/ingest.py:73-75 | `str(x or default)` is the default or non-empty |
| Ingest.YamlTextNonEmpty | app/rag/ingest.py:73-75 | the string form of a truthy YAML value is non-empty |
| Ingest.FindFrom | app/rag/ingest.py:34 | the first occurrence at or after the start, with none earlier |
| Ingest.SplitFrontMatter | app/rag/ingest.py:31-42 | the text comes back unchanged iff it has no front matter |
| Ingest.FrontMatterAbsent | app/rag/ingest.py:32-36 | text not starting with `---`, or without a second `---`, gives no metadata and the whole text |
| Ingest.FrontMatterRoundTrip | app/rag/ingest.py:34-42 | `---fm---rest` with no `---` in fm gives the parse of fm (or nothing) and rest without leading newlines |
| Ingest.HeadingTitle | app/rag/ingest.py:61 | the title after `## `, stripped, or "Section" when empty |
| Ingest.Emit | app/rag/ingest.py:51-56 | a flush emits at most one section, only with a non-empty stripped body |
| Ingest.Flush | app/rag/ingest.py:51-56 | the method appends exactly what `Emit` gives |
| Ingest.ChunkMarkdownByH2 | app/rag/ingest.py:45-67 | the loop's sections are the specification `Chunked` |
| Ingest.ScanIsGrouping | app/rag/ingest.py:58-66 | the line scan equals the grouping of lines by `## ` headings |
| Ingest.ChunkedIsGrouping | app/rag/ingest.py:45-67 | the sections are the "Overview" group, then one group per `## ` heading, each flushed |
| Ingest.GroupsShape | app/rag/ingest.py:58-66 | no body line of a group is a `## ` heading |
| Ingest.GroupsCount | app/rag/ingest.py:58-66 | there is one group more than the number of `## ` lines |
| Ingest.ChunkedShape | app/rag/ingest.py:45-67 | every section has a title and a non-empty, stripped body, and there is at most one section per group |
| Ingest.NoHeadingsOneSection | app/rag/ingest.py:45-67 | text without `## ` headings is at most one "Overview" section |
| Ingest.SelectSections | app/rag/ingest.py:87-96 | the loop's sections are the specification `SelectedSections` |
| Ingest.KeptShape | app/rag/ingest.py:88-92 | each kept section has its heading or "Section" and a stripped, non-empty body |
| Ingest.KeptEmpty | app/rag/ingest.py:88-93 | no section is kept iff every raw body is blank |
| Ingest.KeptCount | app/rag/ingest.py:88-92 | one section is kept per raw section with a non-blank body |
| Ingest.KeptConcat | app/rag/ingest.py:88-92 | selection distributes over concatenation |
| Ingest.KeptSingle | app/rag/ingest.py:89-92 | a single raw section is kept, with its heading or "Section", iff its body is not blank |
| Ingest.SelectedShape | app/rag/ingest.py:87-96 | the sections are empty iff every raw body and the top-level body are blank; otherwise the top-level body is used only when no section was kept |
| Ingest.TagList | app/rag/ingest.py:77 | missing or falsy tags give `[]`, and a list gives its items |
| Ingest.MetaOf | app/rag/ingest.py:101-113 | the metadata exists iff the tags can be listed; it has a non-empty doc id and the file's path, one tag per listed item, and a service exactly when the front matter's service is truthy, then non-empty |
| Ingest.LoadMarkdownFile | app/rag/ingest.py:99-114 | a Markdown file loads iff its metadata can be built, and every section it gives has a title and a trimmed, non-empty body |
| Ingest.LoadYamlFile | app/rag/ingest.py:71-97 | a YAML file loads iff its metadata can be built; it has no sections exactly when every section body and the top-level body are blank; every section has a title and a trimmed, non-empty body |
| Ingest.MetaDefaults | app/rag/ingest.py:101-113 | empty front matter gives id "KB-" + hash, the stem with `_` as spaces, the parent directory as category, no service, no tags |
| ConvertKb.ConvertFile | scripts/convert_kb_to_yaml.py:84-102 | a file converts iff it loads as Markdown; the record has a non-empty doc id and titled, trimmed, non-empty sections |
| ConvertKb.RecordOf | scripts/convert_kb_to_yaml.py:88-102 | the record exists iff the metadata can be built, with the same shape |
| ConvertKb.RecordData | scripts/convert_kb_to_yaml.py:92-97 | the mapping read back from the written file, taking `safe_load` to invert `safe_dump`: the five keys, distinct, in the written order |
| ConvertKb.ReadBackAll | scripts/convert_kb_to_yaml.py:98-101 | written sections with titles and trimmed non-empty bodies are selected back unchanged by the loader |
| ConvertKb.SectionsReread | scripts/convert_kb_to_yaml.py:98-101 | the loader's section selection on a written record gives the converter's sections |
| ConvertKb.RecordDataGets | scripts/convert_kb_to_yaml.py:92-97 | the written mapping holds doc_id, title, category, service (null when absent) and tags |
| ConvertKb.MetaReread | scripts/convert_kb_to_yaml.py:88-97 | the metadata read back from the written record is the Markdown file's, at the new path |
| ConvertKb.RecordLoadsAlike | scripts/convert_kb_to_yaml.py:84-102 | the record exists iff the metadata can be built, and loading it back gives that metadata and the chunker's sections |
| ConvertKb.ConvertedFileLoadsAlike | scripts/convert_kb_to_yaml.py:84-108 | converting a Markdown file and loading the YAML file gives what loading the Markdown file gives, with only the source path changed |
| IngestKb.NormalizeStripped | scripts/ingest_kb.py:27 | the normalised text is already stripped |
| IngestKb.WindowEnd | scripts/ingest_kb.py:33 | a window ends at the text's end or after exactly `max_chars` characters, and past its start |
| IngestKb.NextStart | scripts/ingest_kb.py:36-38 | the next window starts `overlap` before the end, clamped at 0 |
| IngestKb.Spans | scripts/ingest_kb.py:31-40 | the first window starts at the start and ends at `WindowEnd` |
| IngestKb.ChunkText | scripts/ingest_kb.py:19-41 | the loop's chunks are the specification `Chunks` of the text |
| IngestKb.ChunkNormalized | scripts/ingest_kb.py:30-41 | the loop over normalised text gives `ChunksOf` |
| IngestKb.SpanAt | scripts/ingest_kb.py:31-40 | every window lies inside the text, is non-empty and ends at `WindowEnd` |
| IngestKb.SpansLink | scripts/ingest_kb.py:36-40 | every window but the last ends before the text's end, and the next starts `overlap` before that end |
| IngestKb.SpansReachEnd | scripts/ingest_kb.py:39-40 | with a non-negative overlap, the last window ends at the text's end |
| IngestKb.SpansCover | scripts/ingest_kb.py:31-40 | every position of the text lies in some window |
| IngestKb.ChunksEmpty | scripts/ingest_kb.py:28-29 | there are no chunks iff the normalised text is empty |
| IngestKb.ChunkIsWindow | scripts/ingest_kb.py:33-35 | chunk k is the text between its window's bounds |
| IngestKb.ChunkLength | scripts/ingest_kb.py:33-35 | every chunk has 1 to `max_chars` characters, and every chunk but the last exactly `max_chars` |
| IngestKb.ChunksOverlap | scripts/ingest_kb.py:33-38 | consecutive chunks share exactly `overlap` characters: the last `overlap` of one are the first of the next |
| IngestKb.ChunksEnds | scripts/ingest_kb.py:31-40 | the first chunk starts the text and the last chunk ends it |
| IngestKb.ChunksCover | scripts/ingest_kb.py:31-40 | every character of the text is in some chunk |
| IngestKb.ShortTextOneChunk | scripts/ingest_kb.py:31-40 | a non-empty text of at most `max_chars` is one chunk, itself |
| IngestKb.GlueChunks | scripts/ingest_kb.py:31-40 | dropping the first `overlap` characters of every chunk but the first and concatenating gives the text back |
| IngestKb.ChunkTextRoundTrip | scripts/ingest_kb.py:19-41 | `chunk_text` is empty iff the normalised text is, and gluing its chunks gives the normalised text |
| Text.StripIdempotent | app/rag/ingest.py:53 | stripping twice is stripping once |
| Text.StripEmpty | app/rag/ingest.py:53-54 | a stripped text is empty iff every character is whitespace |
| Text.SplitLines | app/main.py:35 | no line contains a line break, and there are no lines iff the text is empty |
| Text.Lower | app/flows/engine.py:59 | same length, each character lower-cased |
| Dicts.Put | app/main.py:75 | the key maps to the value, every other key is unchanged, and an existing key keeps its place |
| Dicts.SetDefault | app/main.py:70 | an existing key is left alone, and a new key is added |
| Dicts.LastForDistinct | app/main.py:38 | with distinct keys, the last entry for a key is its value |
| Dicts.PutAllGet | app/main.py:74-75 | after assigning a sequence of entries, a key has its last assigned value, else its old one |

## Left out

- Text.Lower: lower-cases ASCII letters only. Python's `str.lower` also folds other letters, and `\b` word boundaries are taken over ASCII word characters.
- The text composition in `chat` is left out: the retrieval query (app/main.py:172) and the prompt (app/main.py:209-223). Retrieval and the model are parameters, so their inputs are not modelled.
- `load_index` failing with status 500 (app/main.py:166-169) is not modelled. Retrieval is a total parameter.
- `ensure_org` and `ensure_user` (app/main.py:132-133) are database side effects with no effect on the reply. They are left out.
- Concurrency and `async` are not modelled. A turn is one atomic step.
- Floating point is modelled with `real`. The two-decimal score label is a `fmt` parameter.
- YAML parsing is a `parse` parameter. A front matter that is not a mapping, nested values and the exact text `yaml.safe_dump` writes are not modelled.
- sha1 `_stable_id` is the `pathHash` input, and `uuid.uuid4` is the `freshId` input.
- File reading and writing, output paths, `load_index`, the database upserts (`_upsert_documents_and_chunks`, `ingest_kb_dir`) and the TF-IDF index builder's `main` are left out. These are I/O and embeddings.
- The `knn` SQL query is an input list of matches. `BestScoreIsMax` assumes the matches are sorted by distance, as its `ORDER BY distance ASC` promises.
- IngestKb.ChunkText: requires `0 < max_chars` and `overlap < max_chars`, which the only caller's defaults (1600 and 200) meet. With `0 < max_chars <= overlap` the source loop never ends once the text is longer than `max_chars`. Other values, such as `max_chars <= 0` with its negative slice indices, are outside the model.
- StrRepr.Repr: characters above U+00FF are taken to be printable. Python's `repr` writes the non-printable ones as `\uXXXX` or `\UXXXXXXXX`, which needs the Unicode database.
- ChatTurn.Decide: the model call's failures are two outcomes, an `LLMError` caught inside the `try` (502) and any other failure (500). The exception types and their messages in the 500 case are not modelled.
- Config: settings read from the environment are a `Settings` value. Only the defaults used here are modelled: top_k 5, minimum score 0.12, maximum turns 6.
- Values in `collected` and the context are strings, integers, booleans or None. Nested JSON values and floats are not modelled.

## Findings

| source | as written | input that shows it | evidently intended | confidence | as-written member | corrected member |
|---|---|---|---|---|---|---|
| app/rag/vec_store.py:169-170 | `zip(citations, distances)` pairs the i-th citation with the i-th match's distance, but a match whose chunk has no row yields no citation, so every later label shifts | two matches, at distances 0.1 and 0.5, where the first chunk id has no row: the only citation (the second chunk's) is labelled with score 0.9 instead of 0.5 | each citation labelled with the score of the match it came from | not executed | VecStore.AsWrittenMislabels | VecStore.LabelledCitationsOwnScore |
