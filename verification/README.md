# gr4_project: the CRUD stores, check runner and report mailer, in Dafny

This project models the sequential logic of a small student project: a notes
and eleves (students) back end that keeps id-keyed records in JSON files, a
script that runs the project's static checks and writes a JSON report, a
script that mails the commit author a reformulated summary when that report
failed, the back end's offline reformulation fallback, and the spreadsheet
profile table. Everything is written as pure functions over sequences, maps
and strings; files, processes, HTTP and SMTP become parameters.

Modules, one per source file plus two shared ones:

- `Common` (common.dfy): `Option` and `Result`.
- `Text` (text.dfy): the parts of Python's `str` the code uses: `strip`, `lower` (ASCII), finding `"<"`, `join`, slicing, `str(int)`.
- `Store` (store.dfy): the record store both back ends share. A store is `seq<Rec<P>>`; each operation returns the sequence it would write, and returns its input unchanged when the source does not write the file.
- `Notes` (notes.dfy) and `Eleves` (eleves.dfy): `backend/notes.py` and `backend/eleves.py` on top of `Store`.
- `Checks` (checks.dfy): `scripts/run_checks.py`. A command's fate is an `Outcome` (completed with code and streams, timed out, raised); `run` maps each command line to its outcome.
- `Formatter` (formatter.dfy): `backend/ai_formatter.py`. The remote call is a `Remote` value (reply text or request failure).
- `Profiles` (profiles.dfy): `backend/utils.py`. A spreadsheet is `Option<seq<Row>>`, `None` when the file does not exist, a row a map from column to cell.
- `Mailer` (mailer.dfy): `scripts/send_report.py`. The remote model is a function from the prompt's profile and summary to an `AiReply`; the result is a `Decision` (nothing to send, or one `Mail`) or the exception that stops the script.

## Model

| member | source | states |
|---|---|---|
| Store.MaxId | backend/notes.py:32 | the greatest id of a non-empty store: no stored id exceeds it and some record carries it |
| Store.NextId | backend/notes.py:29-32 | 1 for an empty store; otherwise one more than an id present in the store, and above every stored id |
| Store.FindIndex | backend/notes.py:44-46 | the index of the first record with the id; `None` exactly when no record has it |
| Store.Add | backend/notes.py:34-40 | appends one record carrying the data, earlier records untouched; its id is 1 on an empty store, otherwise one more than the greatest stored id |
| Store.Get | backend/notes.py:42-47 | the first record with the id, or `None` exactly when no record has it |
| Store.Update | backend/notes.py:49-56 | replaces only the first record with the id, at the same index and under the same id; every record keeps its id; `None` and no change when the id is absent |
| Store.Without | backend/notes.py:60 | a subsequence of the store, in its order, that drops exactly the records with the id: none of them is left, every other record is kept, and the length falls by the number of records with the id |
| Store.Delete | backend/notes.py:58-64 | `false` exactly when no record had the id, and then the store is unchanged; otherwise the store written is the in-order filter `Without`; afterwards no record has the id |
| Store.GetAfterAdd | backend/notes.py:34-47 | the record `Add` appended is what `Get` finds under its id |
| Store.GetAfterDelete | tests/test_notes.py:26-27 | after a delete, `Get` on that id is `None` |
| Store.GetAfterUpdate | backend/notes.py:49-56 | after a successful update, `Get` returns the record the update returned |
| Store.AddKeepsUniqueIds | backend/notes.py:34-40 | an append keeps ids unique |
| Store.UpdateKeepsUniqueIds | backend/notes.py:49-56 | an update keeps ids unique |
| Store.WithoutKeepsUniqueIds | backend/notes.py:60 | filtering keeps ids unique |
| Store.DeleteKeepsUniqueIds | backend/notes.py:58-64 | a delete keeps ids unique |
| Store.WithoutRemovesOne | backend/notes.py:60-61 | with unique ids, filtering out a present id removes exactly one record |
| Store.DeleteRemovesOne | backend/notes.py:58-64 | with unique ids, a successful delete shortens the store by one |
| Notes.AddNote | backend/notes.py:29-40 | the new note `{id, title, content}` is appended last; its id is 1 on an empty store, otherwise one more than the greatest stored id |
| Notes.GetNote | backend/notes.py:42-47 | the first note with the id, or `None` exactly when there is none |
| Notes.UpdateNote | backend/notes.py:49-56 | only the first matching note is replaced in place with the same id; `None` and no write when absent |
| Notes.DeleteNote | backend/notes.py:58-64 | `false` exactly when no note had the id, and then nothing changes; otherwise the store written is the in-order filter `Store.Without`; afterwards `GetNote` finds nothing under the id |
| Notes.OperationsKeepUniqueIds | backend/notes.py:29-64 | add, update and delete all keep note ids unique |
| Notes.CrudScenario | tests/test_notes.py:12-33 | from an empty store: ids 1 then 2, read back, update, delete then unreadable, unknown ids refused |
| Eleves.AddEleve | backend/eleves.py:30-36 | appends one eleve under `max(ids, default 0) + 1`, level "beginner" when none is given, earlier records untouched |
| Eleves.AddEleveDefaultLevel | backend/eleves.py:30 | leaving the level out is the same as passing "beginner" |
| Eleves.GetEleve | backend/eleves.py:38-42 | the first eleve with the id, or `None` exactly when there is none |
| Eleves.UpdateEleve | backend/eleves.py:44-51 | only the first matching eleve is replaced in place, keeping its id; `None` and no write when absent |
| Eleves.DeleteEleve | backend/eleves.py:53-59 | `false` exactly when filtering keeps the length, and then nothing changes; otherwise the store written is the in-order filter `Store.Without`, in which no eleve has the id |
| Eleves.OperationsKeepUniqueIds | backend/eleves.py:30-59 | add, update and delete all keep eleve ids unique |
| Checks.KeepNamed | scripts/run_checks.py:53 | a check is kept exactly when its name is listed; the kept checks are a subsequence, in catalogue order |
| Checks.SelectChecks | scripts/run_checks.py:51-53 | no names or an empty list selects the whole catalogue; otherwise exactly the catalogue entries whose names are listed, in catalogue order, unknown names ignored |
| Checks.RunCmd | scripts/run_checks.py:25-35 | completed: its code, stdout then stderr with missing streams as ""; timeout: 124 and a line naming the command; other exception: 1 and a line naming the command |
| Checks.RunCmdFailsUnlessZero | scripts/run_checks.py:30-35 | the return code is 0 exactly when the process completed with code 0 |
| Checks.RunCmdNamesUnfinished | scripts/run_checks.py:32-35 | a timed-out or failed command names itself in its output |
| Checks.Truncate | scripts/run_checks.py:59 | the stored output is the prefix of length min(len, limit) of the output |
| Checks.LastAuthor | scripts/run_checks.py:37-43 | "unknown" when the identity lookup fails, else the output with whitespace stripped from both ends |
| Checks.LastAuthorKeepsCleanIdentity | scripts/run_checks.py:40 | an identity without surrounding whitespace is reported unchanged, and stripping a reported author again changes nothing |
| Checks.EntryFor | scripts/run_checks.py:58-59 | the entry carries the check's name, the command's return code (0 only for a process that finished with 0) and the command's output cut to its first 200000 characters |
| Checks.Entries | scripts/run_checks.py:57-60 | one entry per executed check, in order, carrying its name, return code and truncated output |
| Checks.ExitCode | scripts/run_checks.py:69 | the exit status is 1 exactly when the report failed, else 0 |
| Checks.RunAll | scripts/run_checks.py:57-62 | the loop leaves one entry per check in execution order with name and code copied, and `failed` exactly when some entry has a non-zero code |
| Checks.RunChecks | scripts/run_checks.py:45-69 | the report of `main`: author, one entry per selected check, `failed` iff some code is non-zero, and the matching exit status |
| Checks.BuildReport | scripts/run_checks.py:51-62 | one entry per selected check in selection order, each the `EntryFor` of that check's own outcome, the author from the identity lookup, and `failed` exactly when some entry's code is not 0 |
| Checks.NothingRunPasses | scripts/run_checks.py:55-62 | for every selection that runs no check, the report is not failed and the exit status is 0 |
| Checks.UnknownNamesSelectNothing | scripts/run_checks.py:53 | a non-empty list naming no known check selects no check |
| Checks.FailedIffSomeCommandFailed | scripts/run_checks.py:55-62 | the report fails exactly when some selected command did not complete with code 0 |
| Formatter.RegisterOf | backend/ai_formatter.py:10-15 | "beginner" picks the pedagogic register, "advanced" the terse one, anything else the neutral one |
| Formatter.LocalFallback | backend/ai_formatter.py:7-16 | the summary is an unchanged suffix behind the prefix of the level's register (level "intermediate" when the key is missing); the text starts with "Bonjour," or "Salut,", the latter exactly for "advanced" |
| Formatter.PrefixesExclusive | backend/ai_formatter.py:10-15 | a fallback text starts with its own prefix and with no other |
| Formatter.DecodeLocalFallback | backend/ai_formatter.py:7-16 | the register and the summary can be read back from the fallback text |
| Formatter.LocalFallbackInjective | backend/ai_formatter.py:7-16 | equal fallback texts come from the same summary in the same register |
| Formatter.AiRephrase | backend/ai_formatter.py:18-45 | no key: the local fallback; key and reply: the remote text unchanged; `None` exactly when a key is set and the request failed |
| Formatter.NoKeyKeepsSummary | backend/ai_formatter.py:20-21 | without a key the result is never `None` and ends with the summary |
| Profiles.ProfileOf | backend/utils.py:20-24 | level "intermediate", tone "neutral" and name "" stand in for missing columns |
| Profiles.Insert | backend/utils.py:17-24 | a row with an empty trimmed email is skipped; otherwise its profile is filed under its trimmed lower-cased email, replacing any earlier one, other keys untouched |
| Profiles.Fold | backend/utils.py:15-25 | every key of the table is non-empty, trimmed and lower-case |
| Profiles.LoadProfiles | backend/utils.py:6-25 | the empty table when the file does not exist; otherwise exactly the fold of its rows (characterised by `FoldKeys` and `FoldValues`), every key normalised |
| Profiles.FoldKeys | backend/utils.py:16-24 | a key is present exactly when some row with a non-empty email normalises to it |
| Profiles.FoldValues | backend/utils.py:16-24 | the profile under a key comes from the last row that normalises to it |
| Profiles.LaterRowWins | backend/utils.py:20 | of two rows with the same normalised email, the later one is kept |
| Profiles.BlankRowSkipped | backend/utils.py:17-19 | a row whose trimmed email is empty leaves the table unchanged |
| Profiles.FindProfileForEmail | backend/utils.py:27-29 | the entry under the lower-cased query, or `None` when there is none |
| Profiles.UntrimmedQueryMisses | backend/utils.py:27-29 | the query is not trimmed: one with whitespace at either end finds nothing |
| Profiles.FindsLastMatchingRow | backend/utils.py:27-29 | a query normalising to a row's key finds the last such row's profile |
| Mailer.ParseAuthor | scripts/send_report.py:70-72 | no "<": whole author as name and email "unknown"; one "<": the name is the text before it and the email the text after it with ">" and then whitespace stripped from both ends, "unknown" when nothing follows; more than one: the unpack fails |
| Mailer.ParseGitIdentity | scripts/send_report.py:70-72 | "name<email>" with a clean email splits back into exactly that name and email |
| Mailer.FirstMatch | scripts/send_report.py:78-80 | the first row whose email equals the author's email ignoring case; `None` exactly when no row matches |
| Mailer.ChooseProfile | scripts/send_report.py:75-81 | the default `{intermediate, neutral}` unless the sheet exists and a row matches; then the first matching row's level and tone |
| Mailer.Summary | scripts/send_report.py:84 | "" for no checks, the single rendering for one check, and otherwise ends with the last check's rendering |
| Mailer.SummaryShape | scripts/send_report.py:84 | the summary is "" for no checks, the single rendering for one, grows by a blank line and one rendering per check appended, and ends with the last output |
| Mailer.Rephrase | scripts/send_report.py:16-38 | the remote text when it answered; on any exception exactly "Error with AI: ", the message, "\nRaw report: " and the raw summary (fixed by its start, its end and its length) |
| Mailer.RephraseErrorKeepsBoth | scripts/send_report.py:38 | the error message and the raw summary can both be sliced back out of the error text |
| Mailer.Body | scripts/send_report.py:93 | starts with the greeting and the reformulation, ends with the "Rapport brut:" marker and the raw summary |
| Mailer.BodyKeepsBoth | scripts/send_report.py:93 | the reformulation and the raw summary can both be read back from the body |
| Mailer.Recipient | scripts/send_report.py:88-90 | the author's email unless it is "unknown"; the administrator when the sheet exists and no row matched |
| Mailer.RecipientAsWritten | scripts/send_report.py:88-90 | stops on the unbound `found` exactly when the sheet is missing, otherwise agrees with the intended rule |
| Mailer.Compose | scripts/send_report.py:84-95 | one mail to the given address with the fixed subject, whose body is exactly `Body` of the reformulation written for the chosen profile and the raw summary: greeting and reformulation, then the marker and the raw summary, nothing in between |
| Mailer.SendReport | scripts/send_report.py:58-96 | nothing is sent exactly when `failed` is absent or false; otherwise the author split is the only failure, and the mail has the fixed subject, a body that is exactly `Body` of the reformulation written for the profile `ChooseProfile` picks and the raw summary, and goes where the recipient rule says |
| Mailer.SendReportAsWritten | scripts/send_report.py:58-96 | agrees with `SendReport` when the sheet exists; a report that did not fail sends nothing and an author with two "<" stops the unpack, with or without the sheet; it stops on the unbound `found` exactly when the sheet is missing for a failed report whose author splits |
| Mailer.MissingSheetStopsScript | scripts/send_report.py:76-90 | a failed report whose author has a known email and no sheet stops the script as written, where the intended rule mails that email |
| Mailer.MissingSheetExample | scripts/send_report.py:76-90 | the concrete input: author "Ann <ann@example.org>" and no sheet stops the script as written; the intended rule mails ann@example.org |
| Mailer.SampleAuthorSplits | scripts/send_report.py:70-72 | "Ann <ann@example.org>" splits into name "Ann " and email "ann@example.org" |
| Mailer.PassingRunSendsNothing | scripts/send_report.py:66-68 | a check run with exit status 0 leads to no mail |
| Mailer.FailingRunSendsRawReport | scripts/send_report.py:66-95 | under the intended recipient rule (`SendReport`), a check run with exit status 1 leads to one mail carrying the raw summary when the author splits; as written, the script instead stops on the unbound `found` when there is no profile sheet |
| Mailer.UnknownAuthorGoesToAdmin | scripts/send_report.py:70-90 | under the intended recipient rule (`SendReport`), an "unknown" author with no sheet gets the mail composed to the administrator; as written, the script instead stops on the unbound `found` for this input |

## Findings

| source | as written | input that shows it | evidently intended | confidence | as-written member | corrected member |
|---|---|---|---|---|---|---|
| scripts/send_report.py:89 | `found.empty` is evaluated before `os.path.exists("profiles.xlsx")`, and `found` is only assigned inside the branch for an existing sheet, so the script raises `UnboundLocalError` (a `NameError`) | a failed report with author "Ann <ann@example.org>" and no profiles.xlsx | mail the author (or the administrator when the email is "unknown"); fall back to the administrator only when the sheet exists and has no matching row | not executed; high, the control flow is unambiguous | Mailer.SendReportAsWritten (shown by Mailer.MissingSheetExample) | Mailer.SendReport (with Mailer.Recipient) |

## Left out

- JSON file persistence: `_load_store`/`_save_store` and `_load`/`_save`, including the "missing or corrupt file gives []" recovery. The store is the sequence itself; `get_all_notes` and `list_eleves` return it unchanged and have no member.
- Records with keys other than the modelled fields, and ids that are not integers: the JSON files are assumed to hold what the functions write.
- Subprocess execution, `shlex.split` and the `git log` call in scripts/run_checks.py: replaced by the `Outcome` of each command and the optional identity text. Console output is not modelled.
- Checks.LastAuthor: the identity is a free parameter. Read as written (not executed), scripts/run_checks.py:39 splits `--pretty=format:%an <%ae>` into two arguments, so git receives `<%ae>` as a revision or path and normally fails; `get_last_author` then returns "unknown", and the `Some` branch of `LastAuthor` and the lemmas about an author with an email are reached only if that git call succeeds.
- The `--output` argument and the writing of the report file: `Mailer.Stored` is the report as read back.
- HTTP calls to the remote model: the prompt text built from the profile is not modelled, only its inputs reach the oracle. In backend/ai_formatter.py an error other than `RequestException` propagates uncaught and is not modelled: a reply that parses as JSON but lacks `choices[0]["message"]["content"]` raises a `KeyError`, `IndexError` or `TypeError`. An unparsable body raises `requests.JSONDecodeError`, a `RequestException` with requests 2.27 or later, and gives `None` like a failed request.
- SMTP sending (`send_mail`, backend/email_sender.py): network I/O; the model stops at the `Mail` to send.
- Spreadsheet reading with pandas: rows are maps from column to text. NaN cells (which `str()` turns into "nan" and which never match an email) and a sheet with no "email" column at all (a `KeyError` in send_report.py) are not modelled.
- Text.Lower: lower-cases ASCII letters only; Python's `str.lower` also folds other Unicode letters.
- Values of the wrong JSON type in the report (a non-boolean `failed`, a `null` author): `failed` is modelled as an optional boolean and the author as an optional string.
- An unset `ADMIN_EMAIL` (Python `None` as the recipient or Cc): the administrator address is a string parameter.
- .github/scripts/analyze_code.py is not modelled.
- backend/app.py (Flask routing), frontend/script.js (DOM and fetch code), eslint.config.js and test_env.py: glue and configuration outside this model.
