# Growth Mindset Hub — a Dafny model

The Growth Mindset Hub is a one-page Streamlit app (`app.py`). Its state is a
single document, `{"challenges": [...], "journal": [...]}`, kept in the file
`data.json`. Each section of the page reads that document and may append to it.
This project models the logic behind the page:

- **Store** (`store.dfy`): the document and its backing file. The file is an
  abstract cell, `Option<Document>`, where `None` means the file does not exist.
  `load_data` gives the stored document, or the empty default when there is no
  file. `save_data` overwrites the whole file.
- **Hub** (`hub.dfy`): the class `GrowthHub` stands for the script's global
  `data` dictionary. It holds the two lists as `seq` fields and the file cell as
  a third field. Its methods are the two sections that change state, Daily
  Challenge and Journal. Each appends in place, then saves.
- **DailyChallenge** (`challenge.dfy`): the five fixed prompts, the random
  pick, and the appended `{challenge, response}` pair.
- **Quiz** (`quiz.dfy`): the two fixed questions and the scoring loop. The
  score is the number of questions whose selection equals the answer.
- **Journal** (`journal.dfy`): an entry that `strip()`s to nothing is refused;
  any other entry is appended verbatim. The listing shows entries newest first,
  each numbered from the oldest.
- **Converter** (`converter.dfy`): the choice between the CSV parser and the
  spreadsheet parser, made from the lower-cased file-name extension.
- **Tracker** (`tracker.dfy`): the growth-tracker snapshot, which maps each of
  the five areas to the level picked for it.
- **Text** (`text.dfy`): the Python string primitives the page relies on.
  `str.strip()` follows CPython's scan and Python's whitespace set.
  `os.path.splitext` follows the POSIX rule: the leading dots of a file name do
  not start an extension. `str.lower()` is modelled for ASCII letters.

Widget values are method parameters: the text areas, the radio buttons, the
select boxes, whether a button was pressed, and the uploaded file's name.
`random.choice` is an index parameter `draw` below the length of the prompt
list.

## Model

| member | source | states |
|---|---|---|
| `Store.LoadData` | app.py:9-13 | With no backing file the document has both `challenges` and `journal`, both empty; otherwise it is the stored document unchanged. |
| `Store.SaveData` | app.py:15-17 | After a save the file exists, and loading it gives back exactly the saved document, whatever it held before. |
| `Text.IsSpace` | app.py:85 | The characters `str.strip()` removes: Python's whitespace set (ASCII 0x09-0x0D, 0x1C-0x1F, the space, and the Unicode space, line and paragraph separators). It has no contract of its own; `Text.Strip` and `Text.StripEmptyIffBlank` state what stripping does with it. |
| `Text.Strip` | app.py:85 | `strip()` gives a contiguous piece of the input. Everything cut from either end is whitespace, and a non-empty result neither starts nor ends with whitespace. |
| `Text.StripEmptyIffBlank` | app.py:85 | `entry.strip()` is empty exactly when the entry is empty or all whitespace (both directions). |
| `Text.Lower` | app.py:101 | The result has the input's length and no capital 'A'-'Z' left. Every other character stays where it was, and each capital becomes the small letter with the same place in the alphabet. |
| `Text.LowerIdempotent` | app.py:101 | Lower-casing twice gives the same as lower-casing once. |
| `Text.LowerEqualIffSameIgnoringCase` | app.py:101 | Two strings lower-case to the same string if and only if they have the same length and agree position by position up to the case of ASCII letters. |
| `Text.SplitExt` | app.py:101 | Stem and extension concatenate back to the name. The extension is empty or starts with its only dot, and it contains no slash. |
| `Text.SplitExtFindsExtension` | app.py:101 | The extension is non-empty exactly when the last path component has a dot with a character other than a dot before it. A non-empty extension is the suffix from the last dot of the name. |
| `DailyChallenge.PickPrompt` | app.py:46-53 | The drawn prompt is always one of the five fixed prompts. |
| `DailyChallenge.EveryPromptSelectable` | app.py:46-53 | Each of the five prompts is produced by some draw. |
| `DailyChallenge.AddResponse` | app.py:58 | A submit adds exactly one `{challenge, response}` pair, at the end. Earlier pairs and the journal are unchanged. |
| `DailyChallenge.SubmitKeepsPromptsKnown` | app.py:46-58 | If every stored pair answers a fixed prompt, that stays true after submitting a drawn prompt. |
| `Quiz.CountCorrect` | app.py:69-74 | The score never exceeds the number of questions. |
| `Quiz.CountIsCorrectAnswers` | app.py:69-74 | The score equals the number of question indices whose selection equals that question's answer. |
| `Quiz.Score` | app.py:69-74 | The `score += 1` loop computes exactly `CountCorrect`, so 0 <= score <= number of questions. |
| `Quiz.AllCorrectScoresTotal` | app.py:69-74 | Selecting every answer scores the full total. |
| `Quiz.NoneCorrectScoresZero` | app.py:69-74 | Selecting no answer scores 0. |
| `Quiz.QuizExamples` | app.py:65-74 | "Continuous learning" and "Use it to grow" score 2. "Fixed abilities" and "Ignore it" score 0. |
| `Quiz.QuizPage` | app.py:69-77 | A score is shown only when "Submit Quiz" is pressed. It is shown as `score/2`, with score at most 2, and equals the number of correct answers. |
| `Journal.Submit` | app.py:84-90 | An entry is refused exactly when it is blank. Otherwise the journal grows by one: earlier entries keep their order and content, the new last entry is the raw text, and `challenges` is untouched. |
| `Journal.AfterSubmit` | app.py:84-90 | One press of "Save Journal Entry" leaves the document unchanged for a blank entry and appends the raw entry otherwise. |
| `Journal.SubmitAll` | app.py:84-87 | A run of presses appends exactly the non-blank entries, in submission order, after the existing journal, and never changes `challenges`. |
| `Journal.NonBlank` | app.py:85 | Filtering out blank entries never makes the list longer. |
| `Journal.NonBlankKeepsExactlyNonBlank` | app.py:85 | What the filter keeps: no kept entry is blank, every non-blank entry is kept as often as it occurs, and every blank one is dropped. |
| `Journal.NonBlankOfConcat` | app.py:84-87 | The filter keeps the order: filtering two runs of entries one after the other gives the two filtered runs one after the other. |
| `Journal.NonBlankKeepsAll` | app.py:85 | A list with no blank entry passes the filter unchanged. |
| `Journal.NonBlankSubmissionsAllKept` | app.py:84-87 | N presses with non-blank text add exactly those N entries, oldest first. |
| `Journal.NewestFirstLabelsFromOldest` | app.py:93-94 | In the newest-first listing, journal entry j is labelled j+1. Labels run from the entry count down to 1 and strictly decrease. |
| `Journal.ListEntries` | app.py:93-94 | The reversed `enumerate` loop yields one line per entry. The k-th line is `journal[len-1-k]` with label `len-k`. |
| `Converter.LowerIsCsv` | app.py:101-102 | An extension lower-cases to ".csv" exactly when it is ".csv" in any mix of cases. |
| `Converter.ChooseParser` | app.py:101-102 | The CSV parser is chosen if and only if the name has a ".csv" extension in any case (after a last component that is not only dots). Every other name goes to the spreadsheet parser. |
| `Converter.CsvTestOnlyForCsvExtension` | app.py:101 | A name that passes the `splitext(...)[-1].lower() == ".csv"` test ends in ".csv" in some case, and the last component before that ending is not only dots. |
| `Converter.CsvExtensionPassesCsvTest` | app.py:101 | Every such name passes the test. |
| `Converter.CsvNameSeparators` | app.py:101 | In a name ending in ".csv", the last dot is the one before "csv", and the last slash comes before the stem's last real character. |
| `Converter.CsvTestIsCsvExtension` | app.py:101 | The test holds if and only if the name has a ".csv" extension in any case. |
| `Converter.CsvNameWith` | app.py:101-102 | A stem ending in a character other than '.' or '/', followed by ".csv" in any case, picks the CSV parser. |
| `Converter.CsvNamesPickCsvParser` | app.py:101-102 | "data.csv" and "Report.CSV" pick the CSV parser. |
| `Converter.OtherNamesPickSpreadsheetParser` | app.py:101-102 | "book.xlsx", "notes" and a bare ".csv" pick the spreadsheet parser. |
| `Tracker.SnapshotOf` | app.py:119 | The dict comprehension over a table of areas. It has no contract of its own: `Tracker.SnapshotKeys` and `Tracker.SnapshotPicks` state its keys and values. |
| `Tracker.SnapshotKeys` | app.py:119 | The comprehension has exactly one key per area name. |
| `Tracker.SnapshotPicks` | app.py:119 | Each area whose name no later area repeats is mapped to the level picked for it, which is one of its levels. |
| `Tracker.ProgressAreaNamesDistinct` | app.py:112-118 | The five area names are pairwise distinct. |
| `Tracker.ProgressAreaNames` | app.py:112-118 | The area names are exactly the five fixed categories. |
| `Tracker.Snapshot` | app.py:112-120 | The snapshot's keys are exactly the five areas. Each area maps to the level picked for it. |
| `Tracker.DefaultSnapshotIsLowest` | app.py:112-119 | With every select box at its first option, every area is at its lowest level. |
| `Hub.GrowthHub.constructor` | app.py:9-19 | At start-up `data` is what `load_data` gives for the current file. |
| `Hub.GrowthHub.Reload` | app.py:19 | A rerun of the script reloads `data` from the file and leaves the file alone. |
| `Hub.GrowthHub.Save` | app.py:15-17 | The file is overwritten with the whole in-memory document, and loading it gives that document back. |
| `Hub.GrowthHub.DailyChallengePage` | app.py:44-60 | The shown prompt is a fixed prompt. On submit, one pair is appended at the end of `challenges` and the document is saved. `journal` is never touched, and nothing changes without a submit. |
| `Hub.GrowthHub.JournalPage` | app.py:80-94 | Status: no press; refused exactly when the entry is blank; saved otherwise. A save appends the raw entry and writes the file. A refusal changes neither the lists nor the file. The listing that follows is newest first over the up-to-date journal. |
| `Hub.SavedEntrySurvivesRerun` | app.py:9-19 | A saved journal entry is still there after the script reruns, including after a challenge submit in between. |

## Left out

- All Streamlit rendering: page configuration, titles, images, the sidebar, the
  navigation radio, success and error banners, and the creator panel. Widget
  values are parameters. A success or error banner is a status value.
- JSON encoding and file I/O in `load_data`/`save_data`. The file is an abstract
  cell holding a well-formed document, so two cases are not modelled: a file
  that exists but does not parse, where `json.load` raises; and a file that
  parses to another shape, such as a dict without "challenges" or "journal",
  or a list, where the later `.append` at app.py:58 or app.py:86 raises. JSON
  round-trip fidelity belongs to the `json` library.
- Script reruns: Streamlit reruns the whole script on every interaction, and
  pressing "Submit Response" is itself a rerun that draws a new prompt. The
  model covers one run of a section. The prompt saved is the one drawn in that
  run, which may differ from the one shown in the previous run.
  `Hub.GrowthHub.Reload` stands for the `load_data()` at the top of each rerun.
- `random.choice`'s randomness: the model takes the drawn index as a parameter,
  so uniformity is not modelled.
- pandas parsing and CSV output (`read_csv`, `read_excel`, `head`, `to_csv`),
  `BytesIO` and the download button. These are library calls with no visible
  logic; the model covers only the parser choice. The uploader's extension
  filter (`type=["csv", "xlsx"]`) is Streamlit's and is not modelled.
- `Text.Lower`: models `str.lower()` on ASCII letters only. No non-ASCII
  character lower-cases to '.', 'c', 's' or 'v', so the CSV dispatch is
  unaffected.
- `Text.SplitExt`: models `posixpath.splitext`. The Windows variant, which also
  splits at backslashes, is not modelled.
- `Tracker.Snapshot`: a Python dict keeps insertion order, which decides the row
  order of `st.table`. A Dafny `map` has no order.
- Concurrent sessions writing the shared document and file: the source has no
  concurrency logic.
