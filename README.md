# Number-recognition experiment: trial engine model

A Dafny model of the trial engine behind the number-recognition experiment
in `app.py`. A participant gives a name and age and presses Start. The
experiment then shows a digit 0-9 in one of three colours. The participant
types the digit, and each answer becomes a record: the participant, the
digit and colour shown, the answer, whether it was correct, the reaction
time and a timestamp. The record is saved to a remote spreadsheet, or to
the local file `data/results.csv` as a fallback. After 30 answers the
experiment is complete and can be started over.

The model has five modules:

- `Wrappers`: `Option`, standing for Python's `None` or a value.
- `Stimulus`: `get_random_number_and_color`. Its rejection loop is a method
  over a supply of rolls, proved against a reference definition of the first
  roll that differs from the digit on screen.
- `Records`: the trial record, `str(digit)` and its inverse, and the row of
  cells that both sinks append.
- `Sinks`: the CSV file and the remote sheet as classes updated in place.
  Also `save_to_csv` and `save_to_google_sheets` as methods. Each method is
  proved against a function on the rows, and the lemmas state the header,
  return-value and fallback rules.
- `Engine`: the session keys as the `Session` class. Each method is proved
  to move the snapshot `SessionState` as a transition function says. These
  are consent, start, stimulus refresh, typing, `process_input` and Start
  Over. Each transition function keeps the engine invariant `Inv`:
  - `len(user_data) == trials`;
  - the experiment is complete exactly at 30 or more trials;
  - every record is copied from the session and correctly marked;
  - among the first 30 records, no two consecutive records show the same digit.

Inputs that come from outside the program are parameters:
- the values `random.randint(0, 9)` would return (`rolls`) and the palette
  index `random.choice` would pick (`pick`);
- the clock readings (`now`, `timestamp`);
- how the spreadsheet service behaves on a save (`Remote`: available, no
  credentials, sheet not found, or the remote call that raises).

The model follows the code as written:
- The answer guard checks only that the input has length one (app.py:94).
  Any single character is accepted, not just a digit.
- `process_input` does not check `experiment_complete` (app.py:89-124). The
  answer input is rendered at app.py:244, before the completion check at
  app.py:252. So an answer typed after completion is recorded and the count
  passes 30. The last digit stays on screen, because `last_key` is not set
  at the limit (app.py:118-120). See `Engine.AnswerAfterCompletionIsRecorded`
  and `Engine.CompletionKeepsStimulus`.
- A missing spreadsheet returns false without saving to the file
  (app.py:52-54). Only missing credentials (app.py:68-71) and exceptions
  (app.py:72-76) fall back to the file.
- The reaction time is the difference of two wall-clock readings
  (app.py:95-96). It is not claimed to be non-negative.
- If the final `append_row` raises on an empty sheet, the header stays on the
  sheet with no data row, and the record goes to the file (app.py:60-66,
  72-76). `SheetAfter` models this, and the header still appears exactly
  once.
- The answer input is rendered only after the stimulus refresh on the same
  page (app.py:170-174 come before app.py:244). The refresh removes
  `last_key`, so an answer is never taken while `last_key` is present. The
  model states this as `AwaitingAnswer`, which is required by typing and by
  `process_input`.

## Model

| member | source | states |
|---|---|---|
| Stimulus.FirstDifferentIndex | app.py:24-27 | the index where the rejection loop stops: its roll differs from the current digit and every earlier roll equals it |
| Stimulus.Draw | app.py:24-27 | the drawn digit is one of the rolls, is in 0..9 and differs from the digit on screen |
| Stimulus.DrawStimulus | app.py:22-33 | the loop returns the first roll that differs from the current digit (so a digit in 0..9 different from it), and the colour is the palette entry at `pick`, one of red, green, blue |
| Stimulus.FirstTrialTakesFirstRoll | app.py:24-27 | with no digit on screen (`None`), the first roll is always accepted |
| Records.DigitString | app.py:106 | `str(n)` of a digit is one character and reads back as `n` |
| Records.ParseDigit | app.py:106 | a text reads back as a digit only if it is one character spelling that digit |
| Records.DigitSpelling | app.py:106 | `s == str(n)` holds exactly when `s` reads back as the digit `n` |
| Records.MakeRecord | app.py:99-108 | `is_correct` holds exactly when the answer reads back as the digit shown; name, age, digit, colour, answer, reaction time and timestamp are copied unchanged |
| Records.ValuesRow | app.py:65 | the values row has one cell per header column and is never equal to the header row |
| Records.ValuesRowRoundTrip | app.py:65 | the values row in key order loses nothing: it reads back as its record, and the header reads back as no record |
| Sinks.CsvAfter | app.py:78-87 | one save puts the record's row at the end and keeps earlier rows; a new file starts with the header, and a file with one header keeps exactly one |
| Sinks.SaveToCsv | app.py:78-87 | the file afterwards is `CsvAfter` of the file before: a missing file is created with the header then the data row, an existing file gets only the data row |
| Sinks.CsvAppendsInOrder | app.py:86-87 | saves to an existing file append the data rows in call order and change nothing else |
| Sinks.CsvLogFromNoFile | app.py:83-87 | after n saves from no file, the file is one header row followed by the n data rows in call order, and the header appears exactly once |
| Sinks.Sheet.AppendRow | app.py:66 | appending puts the row at the end of the sheet |
| Sinks.SheetAfter | app.py:35-76 | rows already on the sheet are never changed or removed, and a save that returns true never also writes the file |
| Sinks.SaveToGoogleSheets | app.py:35-76 | new sheet rows, return value and file contents are those `SheetAfter` gives for the service's behaviour |
| Sinks.SavedIffRowReachedSheet | app.py:64-67 | the save returns true exactly when the record's values row became the sheet's last row |
| Sinks.SavedOnlyWhenEveryCallSucceeds | app.py:37-76 | true is returned only when every remote call made succeeds |
| Sinks.FallbackRule | app.py:68-76 | the file is written exactly when the sheet save failed for a reason other than a missing sheet; with remote calls that either succeed or write nothing, the record then lands in exactly one sink |
| Sinks.NotFoundWritesNothing | app.py:50-54 | a missing sheet returns false and writes to neither the sheet nor the file |
| Sinks.SheetHeaderWrittenOnce | app.py:56-62 | a header is added only to an empty sheet and only at its top, so a sheet with at most one leading header keeps that shape whatever the remote calls do |
| Sinks.SheetLogWhenAvailable | app.py:64-66 | with the service available, saves to a sheet that already has rows append the values rows in call order |
| Sinks.SheetLogFromEmpty | app.py:56-66 | with the service available, n saves to an empty sheet leave the header then the n values rows |
| Engine.Initial | app.py:14-20 | the initial session has no trials, no records, no participant and no stimulus, satisfies the engine invariant, and shows nothing |
| Engine.Consent | app.py:136-137 | submitting consent keeps the engine invariant |
| Engine.Start | app.py:161-162 | pressing Start sets `experiment_started`, changes nothing else and keeps the invariant |
| Engine.Refresh | app.py:169-174 | from a started session the refresh keeps the invariant and leaves a digit on screen with `last_key` consumed, ready for an answer |
| Engine.Type | app.py:244-249 | the typed text is stored under the current trial's key, nothing else changes, and the invariant is kept |
| Engine.Accepts | app.py:90-94 | an input passes the guard exactly when the current trial's key holds a value of length one, digit or not |
| Engine.NewRecord | app.py:95-108 | the record copies the participant, the digit and colour on screen and the answer, holds the clock difference, and is correct exactly when the answer reads back as the digit shown |
| Engine.Respond | app.py:89-124 | `process_input` keeps `len(user_data) == trials`, completion exactly at 30 or more trials, every record copied from the participant and correctly marked, and no repeated digit between consecutive records among the first 30 |
| Engine.ConsentNeedsName | app.py:136-137 | `user_info` is set exactly when the submitted name is non-empty, to that name and age, and nothing else changes |
| Engine.RejectedInputChangesNothing | app.py:90-94 | an input the guard rejects leaves the whole session unchanged |
| Engine.AcceptedInputAppendsOneRecord | app.py:95-115 | an accepted input appends exactly one record, keeps the earlier ones, and counts exactly one trial; the record copies name, age, digit and colour, holds the answer, the clock difference and the timestamp given, and is correct exactly when the answer reads as the digit shown; the stimulus, clock start, participant, started flag and inputs are left as they were |
| Engine.CompletionThreshold | app.py:117-124 | after an accepted input the experiment is complete exactly when the new count is at least 30, and `last_key` is set exactly when it is below 30 |
| Engine.SecondResponseIsNoop | app.py:90-91 | once an answer is taken and the next page drawn, a repeated delivery is ignored until something is typed under the next trial's key |
| Engine.AnswerAfterCompletionIsRecorded | app.py:244-252 | after completion a one-character answer is still recorded, taking the count past 30 |
| Engine.RefreshDrawsOnlyWhenNeeded | app.py:169-174 | a stimulus is drawn and the clock restarted only when no digit is shown or `last_key` is present; the new digit differs from the old one, `last_key` is consumed, and nothing else changes; otherwise nothing changes |
| Engine.NextDigitDiffersFromAnswered | app.py:170-174 | below the limit, the digit shown after an answer differs from the digit that was just answered |
| Engine.ConsecutiveRecordsDiffer | app.py:118-124 | in any session satisfying `Inv`, which every transition keeps, no two consecutive records among the first 30 show the same digit |
| Engine.CompletionKeepsStimulus | app.py:118-120 | the answer at the limit leaves the digit and colour on screen unchanged, and the refresh after it draws nothing, so the last digit stays on screen |
| Engine.Session.constructor | app.py:14-20 | a new session is the initial state and is valid |
| Engine.Session.SubmitConsent | app.py:130-139 | the session moves as `Consent` says and stays valid |
| Engine.Session.StartExperiment | app.py:142-164 | the session moves as `Start` says and stays valid |
| Engine.Session.RefreshStimulus | app.py:169-174 | the session moves as `Refresh` says, stays valid and is ready for an answer |
| Engine.Session.TypeAnswer | app.py:244-249 | the value typed is stored under the current trial's key, as `Type` says |
| Engine.Session.ProcessInput | app.py:89-124 | the session moves as `Respond` says, and an accepted record reaches the sheet and the file as `SheetAfter` and `CsvAfter` say; a rejected input writes nothing |
| Engine.Session.RecordTrial | app.py:110-124 | the record is appended, saved through the sinks as `SheetAfter` and `CsvAfter` say, and counted; completion is marked at 30 or more, `last_key` below; nothing else changes |
| Engine.Session.StartOver | app.py:261-263 | every key is cleared and the session is back to its initial state |

## Left out

- Streamlit rendering: titles, forms, markdown, the trial counter text, `st.error`, balloons and the download button of `user_data` (app.py:126-264 apart from the transitions above). These are presentation only.
- The rerun execution model and `st.rerun`. Each transition is a separate method. Beyond `AwaitingAnswer`, the model does not fix the order in which Streamlit calls them.
- The embedded JavaScript for focus and key capture (app.py:146-158, 191-242). It runs in the browser.
- Authentication and network calls of the spreadsheet client, the contents of `st.secrets` and the sheet name (app.py:39-51). These are foreign calls, replaced by the `Remote` outcome value.
- pandas serialisation (quoting, number formatting) and `os.makedirs` (app.py:11, 80-87). The file is modelled as a sequence of rows.
- The actual randomness of `random.randint` and `random.choice`. They are inputs. A supply of rolls in which no roll differs from the digit on screen is excluded, because the source loop would never end on it.
- Records.MakeRecord: the reaction time is the integer difference `now - start` of two abstract clock readings. It is not the float rounded to three decimals, and the timestamp is an opaque string rather than a formatted `datetime`.
- Sinks.SaveToCsv: writing the file never fails in the model. In the code, `to_csv` can raise, for example when the file is not writable (app.py:80-87). A raise during the fallback at app.py:70 is caught at app.py:72 and the write is tried again at app.py:75. A raise at app.py:75 is not caught.
- Engine.Session.ProcessInput: because file writes never fail, the model has no exception escaping `process_input`. In the code, a raise at app.py:75 escapes after `user_data.append` (app.py:111) and before `trials += 1` (app.py:115). That leaves `len(user_data) == trials + 1`, and the next accepted answer adds a second record for the same trial. `Engine.Inv` holds only for sessions in which every file write succeeds.
- Sinks.SheetAfter: a remote call that raises is assumed to have written nothing. An `append_row` that commits on the server and then raises would put the record on the sheet and also in the file, so "exactly one sink" (`Sinks.FallbackRule`) holds only under that assumption.
- Sinks.CsvAfter, Sinks.SheetAfter: saves from different participants' sessions are assumed not to interleave. The file and the sheet are shared by all sessions, which Streamlit runs in parallel. The check for a file then write at app.py:84-85 can race: two sessions both find no file and both write in mode `'w'`, and the second truncates the first's row. The read then append at app.py:57-62 can race too, and both sessions append a header. "Header exactly once" and "rows in call order" (`Sinks.CsvLogFromNoFile`, `Sinks.SheetHeaderWrittenOnce`, `Sinks.SheetLogFromEmpty`) hold only for saves that do not overlap.
