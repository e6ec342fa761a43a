# Tax RAG backend in Dafny

This project models the deterministic core of a small retrieval-augmented
calculation service. The service keeps its rules in a plain text file, where each
rule is introduced by a `Rule_ID: <n>` marker. It copies the rules into a
vector-store collection, looks up the rule closest to a user's query, and asks a
language model to do the calculation.

The model covers these parts:

- Python's `re.finditer(r"Rule_ID:\s*(\d+)", text)` on ASCII text, in module `Markers`.
  - `Matches` is a declarative reference that says what an occurrence of the pattern is.
  - `Scan` and `FindAll` are the left-to-right scanner.
- `str.strip()` and `str(n)` / `int(digits)`, in module `Text`.
- The rule corpus and the collection of `backend/rag.py`, in module `Rag`.
  - The durable state is the class `RuleBase`. It holds the corpus file's contents and the collection's rows, each `None` while absent.
  - `ParseRules` (a loop over the matches) is proved against the function `ParsedRules`.
  - `Ingest` and `AddRule` are the state-changing operations. `GetTaxCalculation` reads the state.
  - Next-id computation, the appended block format and the prompt text are also modelled.
- The HTTP layer of `backend/main.py`, in module `Api`.
  - `Normalize` models `calculate_endpoint`'s handling of the reply: an error dictionary is wrapped, any other dictionary is passed through, and a reply string is cut from the first `{` to the last `}` and parsed.
  - The ingest and add-rule endpoints return fixed messages.
  - The three endpoints are modelled over `RuleBase`.
- `Json.Value` stands for Python's JSON values. `Wrappers` holds `Option` and `Result`.
  - A `Failure` stands for an exception that the endpoint turns into HTTP 500.

Some collaborators are parameters instead of code:

- The vector search is a function `Search`, from the rows and the query to at most one row.
- The language model is a function `Generate`, from the prompt to the reply text.
- `json.loads` is a function `Parse` that returns `None` when it raises.
- `SearchSound` and `ParserSound` state the only facts the proofs assume about these parameters.
  - A search returns one of its rows.
  - The empty string does not parse, and a document starting with `{` parses to an object if it parses at all.

In these places the code does something other than what its comments or its structure suggest. The model follows the code:

- **The stored content includes the marker.** A parsed record's content starts with `Rule_ID: <n>`, because the span begins at `match.start()`. The comment at `backend/rag.py:142-145` says the marker is excluded. By contrast, `add_rule` stores the caller's text unstripped and without the marker (`Rag.RuleBase.AddRule`).
- **Ingest without reset duplicates rows.** `ingest_rules` without a reset inserts every parsed rule again, so rows that `add_rule` already inserted appear twice, and so does every rule ingested earlier (`Rag.RuleBase.Ingest`: old rows followed by all parsed records). Only a reset leaves one row per record.
- **No error dictionary reaches the frontend unwrapped.** The no-hit answer is `{"error": ...}` from `get_tax_calculation`. `calculate_endpoint` wraps it into the three-field record.
- **A successful parse is returned as is.** The endpoint returns the parsed value without checking its fields.

## Model

| member | source | states |
|---|---|---|
| Text.Strip | backend/rag.py:78 | The result is a slice of the input with no whitespace at either end; it is never longer than the input |
| Text.StripUnique | backend/rag.py:78 | Any cut that leaves only whitespace outside and non-whitespace at both ends of the kept part is exactly `strip()` |
| Text.StripIgnoresTrailingSpaces | backend/rag.py:78 | Whitespace appended after a text does not change its `strip()` |
| Text.StripKeepsPrefix | backend/rag.py:78 | Stripping keeps every prefix that starts and ends with non-whitespace |
| Text.NatToString | backend/rag.py:132 | `str(n)` is a non-empty digit string whose decimal value is `n`, with no leading zero except for `"0"` itself |
| Markers.MatchAt | backend/rag.py:69 | A match found at position p starts at p and ends inside the text |
| Markers.MatchAtSound | backend/rag.py:69 | Whatever the matcher finds is an occurrence of `Rule_ID:\s*(\d+)` with the longest whitespace and digit runs, and its id is the digits' decimal value |
| Markers.MatchAtFinds | backend/rag.py:69 | Every occurrence of the pattern starting at a position is what the matcher returns there |
| Markers.FindAll | backend/rag.py:69 | The matches lie inside the text and are in text order without overlap |
| Markers.FindAllExact | backend/rag.py:69 | A match is in `finditer`'s list if and only if it is an occurrence of the pattern; the list is in text order |
| Markers.ScanComplete | backend/rag.py:69 | The scan from a position finds every occurrence that starts at or after it |
| Markers.FindAllAppend | backend/rag.py:69 | A suffix that starts with whitespace and does not continue a digit run leaves the matches of the prefix in place |
| Rag.ParsedRules | backend/rag.py:56-81 | One record per match; record i is match i's id with the stripped span from match i to the next match or the end of the text |
| Rag.ParseRules | backend/rag.py:67-81 | The loop over the matches returns exactly `ParsedRules` of the file's text |
| Rag.RecordPerMarker | backend/rag.py:69-81 | Records and matches correspond one to one, in text order. A match is exactly an occurrence of the pattern, and each record's id is its digits' value. No marker means no record |
| Rag.ContentStartsWithMarker | backend/rag.py:72-78 | A record's content begins with its whole marker, `Rule_ID:` and the digits included, and has no whitespace at either end |
| Rag.SpansTile | backend/rag.py:72-76 | The raw spans from record i onwards, laid end to end, are exactly the text from record i's marker to the end |
| Rag.MaxId | backend/rag.py:121-122 | The result is one of the ids and no id exceeds it |
| Rag.NextRuleId | backend/rag.py:114-124 | The next id is 1 for a missing file or a file without markers. Otherwise it is one more than an id in the file and greater than every id there |
| Rag.FormatRule | backend/rag.py:132 | The appended block starts with a blank line and ends with the stripped rule text; its length is the marker line's plus the text's |
| Rag.BlockLayout | backend/rag.py:132 | The appended block is two newlines, `Rule_ID:`, a space, the id, a newline and the stripped text |
| Rag.FindAllAfterAdd | backend/rag.py:132-136 | Appending the block to any corpus keeps the corpus's matches and adds exactly the block's marker, when the stripped text holds no marker |
| Rag.BlockContent | backend/rag.py:72-78 | The record an appended block parses to starts with `Rule_ID: ` and the id, and ends with the stripped text when there is any |
| Rag.BlockContentIsStrip | backend/rag.py:72-78 | The record parsed from an appended block is its marker line, followed by the stripped text on the next line when that text is not empty |
| Rag.RuleKept | backend/rag.py:71-79 | Appending the block leaves every earlier record's id and content unchanged; the last one only gains the block's leading newlines, which strip removes |
| Rag.ParsedRulesAfterAdd | backend/rag.py:126-136 | Re-parsing after an append gives the old records followed by one record for the new id |
| Rag.NextIdAfterAdd | backend/rag.py:128-136 | After an append with the next id, the next id advances by exactly one |
| Rag.Prompt | backend/rag.py:186-205 | The prompt starts with the fixed introduction and ends with the fixed instructions, and is exactly as long as its five parts |
| Rag.PromptHoldsContextAndQuery | backend/rag.py:186-205 | The prompt holds the retrieved content and the query verbatim at their places |
| Rag.CollectColumns | backend/rag.py:94-104 | The loop over the records yields exactly their `rule_id` column and their `content` column |
| Rag.ColumnsRoundTrip | backend/rag.py:94-106 | Collecting the records' `rule_id` and `content` columns and inserting them gives back exactly the records, in order |
| Rag.RowsColumns | backend/rag.py:94-106 | Inserting two columns and reading the columns back gives the same columns |
| Rag.OpenedRows | backend/rag.py:84-90 | The collection after the drop and re-creation holds no rows after a reset or when it was missing, and otherwise exactly its old rows |
| Rag.RuleBase.Ingest | backend/rag.py:83-112 | The file is unchanged. A missing file fails after the collection exists. Otherwise it returns the parsed count and appends the parsed records to the kept rows, or to none after a reset. Without records nothing is inserted |
| Rag.RuleBase.AddRule | backend/rag.py:126-159 | The block for the next id is appended to the file (which is created if missing). Then a missing collection fails, or one row holding the unstripped text is appended and the id is returned |
| Rag.RuleBase.GetTaxCalculation | backend/rag.py:161-213 | A missing collection fails. No hit gives `{"error": "No relevant rule found"}`. A hit gives the model's reply to the prompt built from the hit's content and the query |
| Rag.RuleBase.NoRowsNoRule | backend/rag.py:172-181 | With a sound search and an empty collection, the answer is the error dictionary whatever the query |
| Rag.RuleBase.ReplyFromStoredRule | backend/rag.py:172-192 | With a sound search, a model reply always comes from the prompt of a rule held in the collection |
| Api.FindFrom | backend/main.py:72 | `find` gives the first index holding the character, or -1 when there is none |
| Api.RFindBefore | backend/main.py:73 | `rfind` gives the last index holding the character, or -1 when there is none |
| Api.Slice | backend/main.py:75 | Python slicing yields `s[a..b]` for bounds inside the string, clamps an end past the string to its length, gives the empty string when the start is not before the end, and never yields more than the string |
| Api.Candidate | backend/main.py:72-75 | A candidate exists exactly when the reply holds a `{`; it is never longer than the reply and, unless empty, starts with `{` |
| Api.Normalize | backend/main.py:54-86 | A dictionary reply gives an object, and one without `error` is returned unchanged. A reply text gives what its candidate parses to or the fallback record, and the fallback whenever there is no candidate |
| Api.ErrorDictWrapped | backend/main.py:60-65 | An error dictionary becomes exactly the three fields, with the error in `result` and `explanation` and 0 in `calculated_value` |
| Api.OtherDictUnchanged | backend/main.py:66 | Any other dictionary is returned unchanged |
| Api.CandidateIsBraced | backend/main.py:72-75 | The candidate is the text from the first `{` through the last `}`. It starts with `{` and ends with `}` |
| Api.EndGuardVacuous | backend/main.py:73-74 | `end` is never -1, so that guard never rejects anything |
| Api.NoBraceFallback | backend/main.py:72-86 | A reply without `{` yields the fallback record with the raw text |
| Api.UnclosedBraceFallback | backend/main.py:73-86 | A `{` that no `}` follows yields an empty candidate and the fallback record |
| Api.ParsedReturnedExactly | backend/main.py:76-77 | A candidate that parses is returned exactly as parsed; with a sound parser it is an object |
| Api.NormalizeTotal | backend/main.py:70-86 | With a sound parser, every reply string yields an object |
| Api.AddRuleMessage | backend/main.py:32 | The add-rule message is the fixed prefix followed by the decimal id |
| Api.IngestMessage | backend/main.py:41-42 | The ingest message starts with `Resetted and ingested` after a reset and with `Ingested` otherwise, and ends with ` rules.` |
| Api.SuccessBody | backend/main.py:32-42 | A success body has exactly the keys `status` and `message`, with `success` and the message |
| Api.AddRuleMessageReadBack | backend/main.py:32 | The add-rule message determines the id it reports |
| Api.IngestMessageReadBack | backend/main.py:41-42 | The ingest message determines the reset flag and the rule count |
| Api.AddRuleEndpoint | backend/main.py:28-35 | The file always gains the block for the next id. A missing collection stays missing and the answer is a server error. Otherwise the collection gains the row and the answer is the success message for the new id |
| Api.IngestEndpoint | backend/main.py:37-45 | The file is unchanged. A missing file still leaves the collection re-created, and emptied after a reset, and the answer is a server error. Otherwise the parsed records are appended to the re-created rows and the answer is the ingest message for their count |
| Api.CalculateEndpoint | backend/main.py:47-90 | The endpoint answers with a server error exactly when the collection is missing |
| Api.CalculateWithoutHit | backend/main.py:52-65 | Without a hit, the endpoint answers with the three-field record carrying "No relevant rule found" |

## Left out

- Embeddings: the Ollama embedding and chat calls, and the cosine index and top-1 search, are left out. They are external services over floating-point vectors. Search and generation are function parameters instead.
- Milvus internals are left out: connecting, the collection schema, the IVF_FLAT index, `load`, `flush`, and the 5000-character limit of the content field. They are foreign library calls, and a failed connection is not modelled.
- File I/O is left out. The corpus is one string held in `RuleBase.corpus`, and the fixed file paths are not modelled. Python's newline translation on reading and writing is assumed to be the identity.
- `json.loads` internals are reduced to the `Parse` parameter.
- JSON numbers are `Json.Value.Int` and `Json.Value.Float`, and floats are not reasoned about. Dictionary key order is not modelled, because a `map` has none.
- Unicode is left out. Whitespace is the ASCII set for which Python's `str.isspace()` holds, and digits are `0`-`9`.
- Concurrent requests, FastAPI, CORS, logging and uvicorn are left out. HTTP 500 is `Api.Response.ServerError` carrying the error. The text of the exception is not modelled.
- Rag.ParsedRulesAfterAdd: proved only when the stripped rule text contains no complete `Rule_ID: <digits>` occurrence. Otherwise re-parsing splits the new block into several records.
- Rag.NextIdAfterAdd: proved under the same no-marker condition on the rule text. A text carrying a larger id would make the next id jump past it.
- The `/ingest` default `reset=True` (`backend/main.py:38`) is left out: `Api.IngestEndpoint` takes the flag as an argument, so a request without the query parameter is the call with `true`.
- Api.CalculateEndpoint: its contract states only when it fails. The body returned on success is `Normalize` of the reply, whose behaviour the `Api` lemmas state.
