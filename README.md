# NeurIPS Data Annotator, modelled in Dafny

The repository holds two batch scripts that label research papers (PDF files)
with the help of a remote generative-language model.

- `annotator.py` picks one category per paper from a fixed list of ten
  labels or "Other". It filters a pool of API keys and rotates through it on
  every physical request, with a budget of three requests per key. It waits
  60 seconds once when rate limits use up that budget. It gives up with an
  error category on any other failure, except one: an exception whose first
  argument is not a string makes the deadline test itself raise, and the
  script stops (see Findings). Each result is appended to a CSV file, and
  the script pauses one second after each paper.
- `annotateToDb.py` asks the model for three free-form labels per paper,
  sending the first 4000 characters of its text. It makes at most five
  attempts: an empty response waits 10 seconds, a rate limit waits 60, and a
  safety block gives up. It then upserts the paper into a table keyed by its
  unique path and pauses two seconds.

The model has one module per concern.

| module | file | what it models |
|---|---|---|
| `Text` | text.dfy | `str.strip`, ASCII `lower`, substring tests, `endswith(".pdf")`, slicing, and the removal of markdown code fences |
| `Service` | service.dfy | the remote model as an oracle `reply: nat -> Reply` (the reply to the n-th request of the run), a ghost trace of requests and sleeps, and round-robin key use |
| `KeyPool` | key_pool.dfy | filtering the configured keys, and the exit when none is left |
| `Categorizer` | categorizer.dfy | the vocabulary check, the error dispatch, and the rotating retry loop of `categorize_pdf_with_gemini`; `Rotation` is its reference definition |
| `CsvSink` | csv_sink.dfy | `save_category_to_csv_append` and the header flag |
| `Annotator` | annotator.dfy | the folder loop of annotator.py; class `Annotator` holds the key cursor, the categories dictionary and the header flag, and runs the retry loop as a `while` loop proved against `Rotation` |
| `Labeler` | labeler.dfy | `call_gemini_api`; `LabelLoop` is its reference definition, and class `Labeler` runs the five-attempt loop against the service |
| `PaperStore` | paper_store.dfy | the `papers` table as a map from the unique `pdf_path` to its row, and the upsert |
| `Ingest` | ingest.dfy | `extract_metadata_from_pdf`, `extract_text_from_pdf` and the folder loop of annotateToDb.py |

The environment enters the model as parameters.

- The folder listing is a sequence `names`.
- What a file holds is a function: `extract` for annotator.py, `files` (a
  `PdfFile`) for annotateToDb.py.
- The configured key variables are `raw: seq<Option<string>>`.
- `json.loads` is a function `parse` from text to a `Parsed` value.
- The oracle's replies are `NoResponse`, an `Answer(text)`, an exception
  `Raised(e)` from `generate_content`, or an exception `Unreadable(e)` raised
  when `.text` is read.
- An exception carries `str(e)`, its first argument (none, a string, or
  another value together with its `str`), and whether it is an
  `AttributeError`, the one class `hasattr` catches.
- Sleeps are recorded in the trace instead of being taken.

Two behaviours of annotator.py are easy to misread; the model follows the
code in both.

- annotator.py writes one CSV header per run, even into a file that already
  exists, because the first save passes `write_header=True`
  (annotator.py:156). The docstring at annotator.py:169 says the header is
  written only when `write_header` is true; the test at annotator.py:174
  also writes it when the file is missing.
- annotator.py makes no further sweep of the keys after its 60-second
  back-off, although the log line at annotator.py:118 announces the wait as
  coming "before retrying key cycle": the `while` guard has already failed
  when the sleep happens, so the function returns the exhausted-retries
  category (annotator.py:94-122).

## Model

| member | source | states |
|---|---|---|
| Text.Strip | annotator.py:100 | the result is empty, or it starts and it ends with something other than whitespace |
| Text.StripLeft | annotator.py:100 | the result is a suffix of the input; everything removed is whitespace; the result does not start with whitespace |
| Text.StripRight | annotator.py:100 | the result is a prefix of the input; everything removed is whitespace; the result does not end with whitespace |
| Text.StripEmptyIffBlank | annotateToDb.py:80 | text strips to nothing exactly when every character is whitespace |
| Text.StripIdempotent | annotateToDb.py:106 | stripping twice gives the same as stripping once |
| Text.Lower | annotator.py:102 | lower-casing keeps the length and lower-cases each character on its own |
| Text.ContainsAt | annotator.py:108 | `sub in s` holds whenever `sub` occurs at some index of `s` |
| Text.ContainsOccurrence | annotator.py:108 | when `sub in s` holds, `sub` occurs at some index of `s` (the converse of ContainsAt) |
| Text.NoSubstring | annotateToDb.py:120-124 | a text that lacks the first character of `sub` does not contain `sub` |
| Text.Take | annotateToDb.py:87 | `s[:n]` is a prefix of `s` of length min(len(s), n) |
| Text.TakeIdentityIffShort | annotateToDb.py:87 | the slice leaves the text whole exactly when it is at most n long |
| Text.StripFencesNoBacktick | annotateToDb.py:106 | removing the fences changes nothing in a text without a backtick |
| Text.StripFencesRemovesAll | annotateToDb.py:106 | once the fences are removed, no three-backtick fence is left anywhere |
| Service.Environment.GenerateContent | annotator.py:99 | the reply is the oracle's reply to this request's number; one request with this key and prompt is recorded |
| Service.Environment.Sleep | annotator.py:120 | one sleep of the given length is recorded; no request is made |
| Service.RoundRobinAppend | annotator.py:46 | two stretches of round-robin key use, the second starting where the first stopped, join into one |
| KeyPool.UsableKeys | annotator.py:37 | no pool entry is empty; every configured non-empty key is in the pool; the pool is no longer than the configured list |
| KeyPool.UsableKeysAppend | annotator.py:37 | filtering distributes over concatenation, so configured order is kept |
| KeyPool.UsableKeysFromRaw | annotator.py:37 | every pool entry is one of the configured values |
| KeyPool.UsableKeysEmptyIff | annotator.py:37-42 | the pool is empty exactly when no configured key is usable |
| KeyPool.LoadPool | annotator.py:37-42 | startup stops exactly when no key is usable; otherwise the pool is non-empty and holds the usable keys |
| Categorizer.Validate | annotator.py:100-105 | the result is a vocabulary word (matched ignoring case) or "Uncategorized" |
| Categorizer.ValidateIff | annotator.py:100-105 | "Uncategorized" is returned exactly when the stripped answer is outside the vocabulary; an accepted answer is returned stripped but with the model's own letter case |
| Categorizer.SentinelsOutsideVocabulary | annotator.py:102-137 | none of the four sentinel results can be mistaken for a vocabulary word |
| Categorizer.OutsideByShape | annotator.py:102 | a word whose length (and first letter, for two lengths) matches no label's is outside the vocabulary |
| Categorizer.RateLimitFirst | annotator.py:108-124 | a message containing "429" is a rate limit even if it mentions a deadline too |
| Categorizer.ClassifyCorrects | annotator.py:108-133 | wherever the clause as written does not raise, the corrected dispatch gives the same result; for a non-string first argument it tests that argument's text for "deadline" |
| Categorizer.IntArgCrashes | annotator.py:124 | `Exception(500)` makes the clause as written raise, where the corrected one judges it fatal |
| Categorizer.DecideRetries | annotator.py:99-133 | an attempt counts and the loop goes on exactly for a rate limit or a deadline, with the rate-limit flag telling them apart; otherwise an answer gives its validated category and anything else gives "API Error" (with the deadline test corrected, see Findings) |
| Categorizer.DecideCategory | annotator.py:100-133 | an iteration that ends the loop gives a vocabulary word, "Uncategorized" or "API Error" |
| Categorizer.VerdictsSound | annotator.py:100-133 | the same holds for every reply of any oracle |
| Categorizer.EmptyTextNoCall | annotator.py:68-69 | empty text gives "No Text Extracted" with no request and no sleep |
| Categorizer.StopsAtOnce | annotator.py:96-133 | a reply that ends the loop costs exactly one request and yields its category |
| Categorizer.TransientContinues | annotator.py:108-129 | a counted error costs one request, then the optional back-off, then the rest of the loop with the next key |
| Categorizer.Spent | annotator.py:94-137 | once the budget of len(keys) × 3 attempts is used, the loop returns the exhausted-retries category without another request |
| Categorizer.RotationCallBound | annotator.py:94-99 | every request uses a key and sends the same prompt; at most len(keys) × 3 requests are made |
| Categorizer.RotationKeys | annotator.py:94-96 | the i-th request uses keys[(cursor + i) mod len(keys)] |
| Categorizer.RotationPrompts | annotator.py:71-99 | every request carries this document's text |
| Categorizer.RotationBackoff | annotator.py:115-122 | at most one 60-second sleep happens; it comes last, only when the budget has just been used up, and the result is then the exhausted-retries category |
| Categorizer.BackoffAfterRateLimit | annotator.py:108-129 | a sleep happens only right after a rate limit; a deadline that ends the budget never sleeps |
| Categorizer.RotationAllRetry | annotator.py:94-137 | when every attempt is a counted error, the whole budget is used, the exhausted-retries category is returned, and one sleep happens exactly when the last error was a rate limit |
| Categorizer.AllTransientGivesUp | annotator.py:94-137 | the same over the replies themselves: len(keys) × 3 counted errors in a row exhaust the budget |
| Categorizer.RotationResult | annotator.py:100-137 | the loop returns a vocabulary word, "Uncategorized", "API Error" or the exhausted-retries category |
| Annotator.PdfNamesFilter | annotator.py:143-144 | a name is processed exactly when it is listed and ends in ".pdf" in any letter case |
| Annotator.DocumentCalls | annotator.py:147-154 | a document uses keys round-robin from the cursor, with at most len(keys) × 3 requests, and none when no text was extracted |
| Annotator.DocumentCategory | annotator.py:147-154 | a document's category is "Text Extraction Failed" without text, and a result of the retry loop with text |
| Annotator.CategoryForIff | annotator.py:147-154 | "Text Extraction Failed" is recorded exactly when no text was extracted |
| Annotator.FolderEntries | annotator.py:143-158 | one entry is saved per PDF name, in listing order, and none for other names |
| Annotator.FolderFit | annotator.py:147-154 | every entry's category fits what was extracted from its file |
| Annotator.FolderCategories | annotator.py:147-154 | the same over the replies themselves, entry by entry |
| Annotator.FolderRoundRobin | annotator.py:143-162 | the single key cycle carries on across documents: the i-th request of the run uses keys[(cursor + i) mod len(keys)] |
| Annotator.FolderCallBound | annotator.py:143-162 | a folder run makes at most len(keys) × 3 requests per saved entry |
| Annotator.RecordKeys | annotator.py:150-153 | the dictionary's keys are its old keys plus the processed names |
| Annotator.RecordEntries | annotator.py:150-153 | with distinct names, each processed name maps to its own category |
| Annotator.RecordSkips | annotator.py:150-153 | a name not processed in this run keeps its old category |
| Annotator.Annotator.NextKey | annotator.py:96 | `next(api_key_cycle)`: the key at the cursor, and the cursor advances by one |
| Annotator.Annotator.Judge | annotator.py:100-133 | the verdict on one reply: retried exactly for a counted error, flagged as a rate limit exactly for "429", otherwise the validated answer or "API Error" (with the deadline test corrected, see Findings) |
| Annotator.Annotator.Consult | annotator.py:96-133 | one request with the given key, judged as its reply calls for |
| Annotator.Annotator.Backoff | annotator.py:115-122 | the trace grows by exactly the pause the reference loop prescribes, and the sleep only happens on the last attempt |
| Annotator.Annotator.Attempt | annotator.py:95-133 | one iteration of the `while` loop keeps the loop invariant, or ends with the reference loop's result |
| Annotator.Annotator.Attempts | annotator.py:91-137 | the `while` loop gives `Rotation`'s category, trace, request count and cursor advance |
| Annotator.Annotator.Categorize | annotator.py:65-137 | `categorize_pdf_with_gemini` gives the reference category, trace and request count |
| Annotator.Annotator.CategorizeText | annotator.py:147-154 | a document's category, its requests and its cursor advance |
| Annotator.Annotator.ProcessDocument | annotator.py:145-162 | one PDF: the dictionary, the CSV rows, the header flag, the trace with its one-second pause, and the cursor |
| Annotator.Annotator.Visit | annotator.py:143-164 | one listed name keeps the folder loop's invariant |
| Annotator.Annotator.VisitPdf | annotator.py:144-162 | one PDF name keeps the folder loop's invariant |
| Annotator.Annotator.ProcessFolder | annotator.py:140-165 | the returned dictionary, the CSV rows, the header flag, the trace and the request count are those of the reference folder run |
| Annotator.Run | annotator.py:37-192 | no key leaves the service, the CSV file and the trace untouched; otherwise a fresh key cycle and an empty dictionary run the folder once |
| CsvSink.SavedRows | annotator.py:170-178 | a save appends two rows (header, data) when asked to or when the file is missing, and one data row otherwise |
| CsvSink.CsvFile.Save | annotator.py:168-178 | the file exists afterwards and has gained exactly the saved rows |
| CsvSink.NoHeaderAfterFirst | annotator.py:156-158 | once the flag is set and the file exists, no later save in the run writes a header |
| CsvSink.HeaderOncePerRun | annotator.py:156-174 | a run writes exactly one header, first, when it saves anything and the flag was clear or the file missing; otherwise none |
| CsvSink.OneDataRowPerEntry | annotator.py:156-178 | the data rows of a run are exactly its entries, in order |
| Labeler.Excerpt | annotateToDb.py:87 | the prompt carries a prefix of the text, 4000 characters long or the whole text when shorter |
| Labeler.CleanWithoutBackticks | annotateToDb.py:106 | an answer without backticks is only stripped |
| Labeler.AssessUnreadable | annotateToDb.py:99-103 | a response whose `.text` raises AttributeError is an empty response, because `hasattr` is false; any other exception from `.text` is handled by the except clause |
| Labeler.AssessBlank | annotateToDb.py:100-103 | a blank answer counts as empty however it would parse |
| Labeler.AssessAnswer | annotateToDb.py:106-116 | an answer is accepted exactly when it is not blank and decodes to a list of exactly three, and then as that list |
| Labeler.QuotaFirst | annotateToDb.py:120-126 | a message containing "429" is a quota error even if it also reports a safety block |
| Labeler.LabelStops | annotateToDb.py:110-129 | an attempt that returns or breaks costs one request and no sleep |
| Labeler.LabelRetries | annotateToDb.py:100-123 | an attempt that goes on costs one request and the sleep its step calls for, then the next attempt |
| Labeler.LabelCalls | annotateToDb.py:95-97 | at most five requests, each carrying the excerpt |
| Labeler.LabelPrompts | annotateToDb.py:84-97 | every request carries the same excerpt |
| Labeler.LabelLast | annotateToDb.py:110-126 | labels come from the last request's step; a return without labels follows a safety block on the last request |
| Labeler.AcceptedAnswer | annotateToDb.py:100-112 | an accepted step comes from an answer that decodes to exactly its three labels |
| Labeler.LabelSourceFor | annotateToDb.py:95-132 | the same for any steps that come from answers |
| Labeler.LabelSource | annotateToDb.py:95-132 | returned labels are the decoded list of the last answer, exactly three long, neither truncated nor padded |
| Labeler.LabelThree | annotateToDb.py:82-132 | `call_gemini_api` returns None or a list of exactly three |
| Labeler.LabelExhausted | annotateToDb.py:95-123 | five retried steps in a row, in any mix of empty responses, unusable answers and rate limits, use all five attempts and return no labels; there is one 10-second sleep per empty response, one 60-second sleep per rate limit, and no other event than the requests |
| Labeler.ExhaustedSleeps | annotateToDb.py:100-123 | five empty responses sleep 10 seconds five times; five quota errors sleep 60 seconds five times |
| Labeler.AfterLoopNoLabels | annotateToDb.py:129-132 | leaving the loop gives no labels, and labels only come from a return inside it |
| Labeler.FirstErrorCrashes | annotateToDb.py:129-131 | a first request that raises an error that is neither a rate limit nor a safety block crashes the function as written; the corrected function returns None |
| Labeler.Error500Fails | annotateToDb.py:118-129 | an error whose message is "500" is neither a rate limit nor a safety block, so the loop breaks on it |
| Labeler.Labeler.Ask | annotateToDb.py:97 | one request with the configured key, assessed as the reference steps say |
| Labeler.Labeler.Examine | annotateToDb.py:99-126 | the step for one reply, with an AttributeError from `.text` taken as an empty response; an accepted step holds exactly three labels |
| Labeler.Labeler.Wait | annotateToDb.py:100-123 | the trace grows by exactly the sleep the step calls for |
| Labeler.Labeler.Attempt | annotateToDb.py:96-129 | one iteration of the `for` loop keeps the invariant, returns, or breaks, as the reference loop does |
| Labeler.Labeler.CallGemini | annotateToDb.py:82-132 | the labels, the trace and the request count of the reference loop, with None after the loop |
| PaperStore.UpsertedRows | annotateToDb.py:141-146 | a new path gets the whole row; a duplicate path gets only new labels; every other row stays |
| PaperStore.UpsertIdempotent | annotateToDb.py:141-146 | upserting the same paper twice leaves the table as upserting it once |
| PaperStore.UpsertKeepsMetadata | annotateToDb.py:141-146 | a present row keeps its title, author and date whatever is inserted |
| PaperStore.UpsertsCommute | annotateToDb.py:141-146 | upserts of different paths commute |
| PaperStore.PaperTable.Upsert | annotateToDb.py:134-149 | the table becomes the upserted map |
| Ingest.TextOfBlank | annotateToDb.py:74-80 | a file's text is None exactly when the joined page text is blank, and is the joined text otherwise |
| Ingest.JoinedAppend | annotateToDb.py:77-78 | joining pages distributes over concatenating them |
| Ingest.ExtractText | annotateToDb.py:66-80 | the `for` loop over the pages gives the reference text, or None |
| Ingest.ReadIff | annotateToDb.py:155-167 | a file reaches labelling exactly when its name ends in ".pdf", the file opens and its pages' joined text is not all whitespace; it then carries the file's metadata and exactly that text |
| Ingest.ReadFile | annotateToDb.py:155-167 | the checks, in the script's order, let through exactly the ".pdf" files that open and whose text is not all whitespace, with their metadata and text |
| Ingest.IngestInserts | annotateToDb.py:154-175 | exactly the readable PDFs are inserted, once each, in listing order, with their own metadata; a labelling failure still inserts |
| Ingest.IngestRows | annotateToDb.py:151-175 | a run creates rows only for listed PDF names; every row it creates holds its file's title, author and creationDate, each "Unknown …" when the metadata lacks that key, and labels that are NULL or a list of exactly three, never an empty list; every row already present keeps its title, author and date |
| Ingest.IngestLabels | annotateToDb.py:169-175 | every inserted paper carries three labels or none |
| Ingest.IngestCallBound | annotateToDb.py:154-178 | at most five requests per inserted paper, and none for a skipped file |
| Ingest.IngestFolder | annotateToDb.py:151-178 | the table, the trace and the request count are those of the reference folder run |

## Left out

- Categorizer.Limit: `max_retries_per_key = 3` is written as the literal 3.
- Annotator.Annotator.Attempts: the `keys_exhausted_delay_occurred` flag is kept as `delayed`. It never changes the outcome, because the sleep can only happen on the last attempt of the budget.
- Categorizer.Validate: `lower()` is modelled on ASCII letters only. Unicode case mapping is not modelled.
- Labeler.Assess: `json.loads` is the parameter `parse`. JSON syntax and the element types of the list are not modelled.
- PaperStore.StoredLabels: `json.dumps` is modelled as storing the list itself.
- In annotator.py any exception raised by reading `.text` reaches the except clause (annotator.py:100). In annotateToDb.py an AttributeError from `.text` makes `hasattr` false, so the response counts as empty, and any other exception reaches the except clause (annotateToDb.py:100). A response's `.text` is taken to behave the same each time it is read.
- Categorizer.Classify: a first argument of type `bytes` is not modelled. It has a `lower()` method, so the deadline test as written does not raise for it.
- Categorizer.DecideRetries: states the corrected deadline test. The raise of the test as written, for a non-string first argument, is stated by Categorizer.ClassifyAsWritten and Categorizer.IntArgCrashes instead.
- Annotator.Annotator.Judge: follows the corrected deadline test, as Categorizer.DecideRetries does. The run that stops on the raise as written is not modelled as a run; the Findings row describes it.
- Ingest.ExtractText: `fitz.open` at annotateToDb.py:74 has no `try`. In the folder loop the metadata step opens the same file first and skips it when that fails, so the model treats a file that opens once as opening again. A file that changes between the two opens is not modelled.
- Ingest: the auto-increment id, the MySQL connection, `CREATE TABLE` and `commit` are not modelled. The table is a map keyed by the unique path.
- PaperStore.Upserted: keys are compared as exact strings, not under the collation of the `pdf_path` column. The column declares none (annotateToDb.py:35), and the usual server defaults ignore letter case and, in MySQL 8, accents. Under such a collation, "Müller.pdf" and "Muller.pdf" share one row, and the second insert overwrites the first one's labels. `Ingest.IngestRows` and `Ingest.IngestInserts` hold only for names that are distinct under the collation.
- PaperStore.Upserted: the VARCHAR widths (200 for `pdf_path`, 255 for title and author, 50 for the date) are not modelled. A strict-mode server rejects a longer value, and `insert_paper_into_db` then raises with no `try`. A non-strict server truncates it, and two truncated paths can collide.
- The prompt's wording is not modelled. A request carries the text (annotator.py) or the 4000-character excerpt (annotateToDb.py).
- Console output, timestamps and the key index in log lines are not modelled.
- `genai.configure`, `GenerativeModel` and the client library are not modelled. The service is an oracle numbered by request.
- PDF parsing (PyPDF2 text extraction in annotator.py, PyMuPDF in annotateToDb.py), `os.listdir` and `os.path.exists` are inputs to the model.
- The SIGINT handler, reading environment variables and the module-level globals are not modelled as such. The globals are fields of `Annotator.Annotator`.
- CsvSink.CsvFile.Save: the gap between `os.path.exists` and `open` is not modelled. The file is one object with a `present` flag.
- `time.sleep` is recorded in the trace. Time does not pass.

## Findings

| source | as written | input that shows it | evidently intended | confidence | as-written member | corrected member |
|---|---|---|---|---|---|---|
| annotateToDb.py:131 | after the loop the message reads `response.text if response else 'No Response'`; `response` is unbound when every request raised inside `generate_content`, and `.text` raises again when the last response's text could not be read | the first request raises an error whose message is "500": the loop breaks and the print raises UnboundLocalError, so the script stops instead of storing the paper without labels | print a message and return None | not executed | Labeler.CallGeminiAsWritten | Labeler.Labeler.CallGemini |
| annotator.py:124 | the deadline test reads `str(e.args[0].lower())`, calling `lower()` on the first argument before `str()` | an exception raised with an int argument, such as `Exception(500)` (str(e) is "500"): `(500).lower()` raises AttributeError inside the except clause; neither process_pdfs_in_folder nor the top level catches it, so the script stops before saving that PDF's row and never processes the remaining PDFs | `str(e.args[0]).lower()`: the first argument's text is tested for "deadline", so this error is fatal, the PDF gets "API Error" and the run goes on | not executed | Categorizer.ClassifyAsWritten | Categorizer.Classify |

For the annotateToDb.py:131 row, `Labeler.FirstErrorCrashes` proves the
as-written function crashes whenever the first request raises an error that
is neither a rate limit nor a safety block, and `Labeler.Error500Fails`
shows that "500" is such an error. The same lemma proves that the corrected
function returns None there.
`Labeler.AfterLoopNoLabels` proves the corrected function returns no labels
whenever it leaves the loop. The rest of the model, including
`Ingest.IngestFolder`, uses the corrected function.

For the annotator.py:124 row, `Categorizer.IntArgCrashes` proves that the
test as written raises on that input and that the corrected test judges it fatal.
`Categorizer.ClassifyCorrects` proves that the corrected test gives the
result of the test as written wherever that one does not raise. The rest of
the model, including `Categorizer.DecideRetries` and
`Annotator.Annotator.Judge`, uses the corrected test.
