/**
 * The trial engine: the session state initialised at app.py:14-20, the
 * response step `process_input` (app.py:89-124) and the state transitions
 * `main` makes on each rerun (consent, start, stimulus refresh, Start Over).
 *
 * `SessionState` is a snapshot of the session's keys and the functions over
 * it say what each step does; the `Session` class holds the same keys as
 * fields and its methods update them in place, each proved to move the
 * snapshot as the matching function says.
 */
module Engine {
  import opened Wrappers
  import opened Stimulus
  import opened Records
  import opened Sinks

  /** Number of answered trials after which the experiment is complete. */
  const TrialLimit: nat := 30

  /**
   * The session keys. A flag the source stores only when set (`experiment_started`,
   * `last_key`, `experiment_complete`) is false while the key is absent.
   * `inputs[n]` is the text-input widget's value under key `input_n`.
   */
  datatype SessionState = SessionState(
    trials: nat,
    currentNumber: Option<int>,
    currentColor: Option<Color>,
    startTime: Option<int>,
    userData: seq<TrialRecord>,
    userInfo: Option<Participant>,
    experimentStarted: bool,
    lastKey: bool,
    experimentComplete: bool,
    inputs: map<nat, string>)

  /** A record as the engine produces it for participant `who`. */
  ghost predicate RecordOf(r: TrialRecord, who: Participant)
  {
    && r.name == who.name && r.age == who.age
    && IsDigit(r.displayedNumber)
    && |r.userInput| == 1
    && (r.isCorrect <==> ParseDigit(r.userInput) == Some(r.displayedNumber))
  }

  /**
   * What every session reachable through the steps below satisfies (given
   * that writing the fallback file never raises; see README).
   *
   * Below the limit, `last_key` is present exactly when the digit on screen
   * is the one last answered; so the records of the first 30 trials never
   * show the same digit twice in a row.
   */
  ghost predicate Inv(s: SessionState)
  {
    && |s.userData| == s.trials
    && (s.experimentComplete <==> s.trials >= TrialLimit)
    && (s.currentNumber.Some? ==> IsDigit(s.currentNumber.value))
    && s.currentColor.Some? == s.currentNumber.Some?
    && s.startTime.Some? == s.currentNumber.Some?
    && (s.currentNumber.Some? ==> s.experimentStarted)
    && (s.lastKey ==> s.currentNumber.Some?)
    && (s.experimentStarted ==> s.userInfo.Some?)
    && (s.userInfo.Some? ==> s.userInfo.value.name != "" && 5 <= s.userInfo.value.age <= 120)
    && (s.userData != [] ==> s.userInfo.Some? && s.currentNumber.Some?)
    && (forall i :: 0 <= i < |s.userData| ==> s.userInfo.Some? && RecordOf(s.userData[i], s.userInfo.value))
    && (s.userData != [] && s.trials < TrialLimit ==>
          (s.lastKey <==> s.currentNumber == Some(s.userData[|s.userData| - 1].displayedNumber)))
    && (forall i :: 0 <= i && i + 1 < |s.userData| && i + 1 < TrialLimit ==>
          s.userData[i].displayedNumber != s.userData[i + 1].displayedNumber)
  }

  /** A digit is on screen (the trial page has been drawn). */
  predicate Presenting(s: SessionState)
  {
    && s.userInfo.Some?
    && s.experimentStarted
    && s.currentNumber.Some?
    && s.currentColor.Some?
    && s.startTime.Some?
  }

  /**
   * The answer input is on screen: the page was drawn, and the refresh that
   * comes before the input on that page has consumed `last_key`.
   */
  predicate AwaitingAnswer(s: SessionState)
  {
    Presenting(s) && !s.lastKey
  }

  /** The state right after initialisation, and again after Start Over. */
  function Initial(): (s: SessionState)
    ensures Inv(s) && !Presenting(s)
    ensures s.trials == 0 && s.userData == [] && s.userInfo.None? && s.currentNumber.None?
  {
    SessionState(0, None, None, None, [], None, false, false, false, map[])
  }

  // ---------------------------------------------------------- consent, start

  /** Consent form submitted: `user_info` is set only when the name is non-empty. */
  function Consent(s: SessionState, name: string, age: int): (r: SessionState)
    requires s.userInfo.None?
    ensures Inv(s) && 5 <= age <= 120 ==> Inv(r)
  {
    if name != "" then s.(userInfo := Some(Participant(name, age))) else s
  }

  /** Start button: sets `experiment_started`. */
  function Start(s: SessionState): (r: SessionState)
    requires s.userInfo.Some? && !s.experimentStarted
    ensures r.experimentStarted && r.(experimentStarted := false) == s
    ensures Inv(s) ==> Inv(r)
  {
    s.(experimentStarted := true)
  }

  // --------------------------------------------------------- stimulus refresh

  /** A new stimulus is drawn on the first trial, or after an answer was taken. */
  predicate NeedsDraw(s: SessionState)
  {
    s.currentNumber.None? || s.lastKey
  }

  /**
   * The refresh `main` makes before showing the digit: when a draw is needed,
   * draw a new stimulus, restart the clock and consume `last_key`; otherwise
   * keep everything. From a started session it always leaves the answer
   * input ready.
   */
  function Refresh(s: SessionState, rolls: seq<int>, pick: nat, now: int): (r: SessionState)
    requires NeedsDraw(s) ==> DrawPossible(rolls, s.currentNumber)
    requires pick < |Palette|
    ensures Inv(s) && s.userInfo.Some? && s.experimentStarted ==> Inv(r) && AwaitingAnswer(r)
  {
    if NeedsDraw(s) then
      s.(currentNumber := Some(Draw(rolls, s.currentNumber)),
         currentColor := Some(Palette[pick]),
         startTime := Some(now),
         lastKey := false)
    else s
  }

  // ---------------------------------------------------------------- response

  /** The participant types `text` into the input rendered under key `input_{trials}`. */
  function Type(s: SessionState, text: string): (r: SessionState)
    ensures s.trials in r.inputs && r.inputs[s.trials] == text && r.(inputs := s.inputs) == s
    ensures Inv(s) ==> Inv(r)
    ensures AwaitingAnswer(s) ==> AwaitingAnswer(r)
  {
    s.(inputs := s.inputs[s.trials := text])
  }

  /**
   * The guard of `process_input`: the current key holds a non-empty value of
   * length one. Any single character passes, digit or not.
   */
  predicate Accepts(s: SessionState): (b: bool)
    ensures b <==> s.trials in s.inputs && |s.inputs[s.trials]| == 1
  {
    s.trials in s.inputs && s.inputs[s.trials] != "" && |s.inputs[s.trials]| == 1
  }

  /**
   * The record `process_input` builds: the participant, the digit and colour
   * on screen, the answer and the clock difference, and correct exactly when
   * the answer reads back as the digit shown.
   */
  function NewRecord(s: SessionState, now: int, timestamp: string): (r: TrialRecord)
    requires Inv(s) && Presenting(s) && Accepts(s)
    ensures RecordOf(r, s.userInfo.value)
    ensures r.displayedNumber == s.currentNumber.value && r.displayedColor == s.currentColor.value
    ensures r.userInput == s.inputs[s.trials] && r.reactionTime == now - s.startTime.value
    ensures r.isCorrect <==> ParseDigit(s.inputs[s.trials]) == Some(s.currentNumber.value)
  {
    MakeRecord(timestamp, s.userInfo.value, s.currentNumber.value, s.currentColor.value,
               s.inputs[s.trials], now - s.startTime.value)
  }

  /**
   * `process_input`: on an accepted input append the record and count the
   * trial; at the limit mark the experiment complete, below it set `last_key`
   * so that a new stimulus is drawn. It keeps the invariant, in particular
   * `len(user_data) == trials` and no repeated digit among the first 30 records.
   */
  function Respond(s: SessionState, now: int, timestamp: string): (r: SessionState)
    requires Inv(s) && AwaitingAnswer(s)
    ensures Inv(r) && Presenting(r)
  {
    if !Accepts(s) then s
    else
      var t := s.trials + 1;
      var data := s.userData + [NewRecord(s, now, timestamp)];
      assert data[|data| - 1].displayedNumber == s.currentNumber.value;
      assert forall i :: 0 <= i < |s.userData| ==> data[i] == s.userData[i];
      if t >= TrialLimit then s.(userData := data, trials := t, experimentComplete := true)
      else s.(userData := data, trials := t, lastKey := true)
  }

  // ----------------------------------------------------------- consent, start

  /** `user_info` is set exactly when the submitted name is non-empty, and nothing else changes. */
  lemma ConsentNeedsName(s: SessionState, name: string, age: int)
    requires s.userInfo.None?
    ensures Consent(s, name, age).userInfo.Some? <==> name != ""
    ensures Consent(s, name, age).userInfo.Some? ==> Consent(s, name, age).userInfo.value == Participant(name, age)
    ensures Consent(s, name, age).(userInfo := None) == s
  {
  }

  // -------------------------------------------------------------- the guard

  /** An input the guard rejects changes nothing. */
  lemma RejectedInputChangesNothing(s: SessionState, now: int, timestamp: string)
    requires Inv(s) && AwaitingAnswer(s) && !Accepts(s)
    ensures Respond(s, now, timestamp) == s
  {
  }

  /**
   * An accepted input appends exactly one record and counts exactly one
   * trial; the record copies the session's participant, digit and colour,
   * holds the answer, the clock difference and the timestamp given, and is
   * correct exactly when the answer reads back as the digit shown. Only the
   * records, the count, the completion flag and `last_key` change.
   */
  lemma AcceptedInputAppendsOneRecord(s: SessionState, now: int, timestamp: string)
    requires Inv(s) && AwaitingAnswer(s) && Accepts(s)
    ensures var r := Respond(s, now, timestamp);
      && r.trials == s.trials + 1
      && |r.userData| == |s.userData| + 1
      && r.userData[..|s.userData|] == s.userData
      && var rec := r.userData[|s.userData|];
      && rec.name == s.userInfo.value.name && rec.age == s.userInfo.value.age
      && rec.displayedNumber == s.currentNumber.value && rec.displayedColor == s.currentColor.value
      && rec.userInput == s.inputs[s.trials]
      && rec.reactionTime == now - s.startTime.value
      && rec.timestamp == timestamp
      && (rec.isCorrect <==> ParseDigit(s.inputs[s.trials]) == Some(s.currentNumber.value))
      && r.(userData := s.userData, trials := s.trials, experimentComplete := s.experimentComplete, lastKey := s.lastKey) == s
  {
  }

  /**
   * After an accepted input the experiment is complete exactly when the new
   * trial count reaches the limit; below the limit `last_key` is set, at or
   * above it `last_key` stays absent.
   */
  lemma CompletionThreshold(s: SessionState, now: int, timestamp: string)
    requires Inv(s) && AwaitingAnswer(s) && Accepts(s)
    ensures var r := Respond(s, now, timestamp);
      && (r.experimentComplete <==> s.trials + 1 >= TrialLimit)
      && (r.lastKey <==> r.trials < TrialLimit)
  {
  }

  /**
   * A second delivery of the same answer is a no-op: once one answer is
   * taken, the guard looks under the next trial's key, which holds nothing
   * until the participant types again, so on the next page the answer is
   * ignored.
   */
  lemma SecondResponseIsNoop(s: SessionState, now: int, timestamp: string,
                             rolls: seq<int>, pick: nat, now': int, now'': int, timestamp'': string)
    requires Inv(s) && AwaitingAnswer(s) && Accepts(s)
    requires s.trials + 1 !in s.inputs
    requires DrawPossible(rolls, s.currentNumber) && pick < |Palette|
    ensures var q := Refresh(Respond(s, now, timestamp), rolls, pick, now');
      && Inv(q) && AwaitingAnswer(q)
      && !Accepts(q)
      && Respond(q, now'', timestamp'') == q
  {
  }

  /**
   * As written, the guard does not look at `experiment_complete` and the
   * input stays on screen after completion: an answer typed then is still
   * recorded, taking the count past the limit.
   */
  lemma AnswerAfterCompletionIsRecorded(s: SessionState, text: string, now: int, timestamp: string)
    requires Inv(s) && AwaitingAnswer(s) && s.experimentComplete && |text| == 1
    ensures var r := Respond(Type(s, text), now, timestamp);
      r.trials == s.trials + 1 > TrialLimit && |r.userData| == |s.userData| + 1
  {
  }

  // ------------------------------------------------------ stimulus sequence

  /**
   * A refresh draws a new stimulus, and restarts the clock, only when no
   * digit is shown yet or `last_key` is present; the new digit differs from
   * the one before and `last_key` is consumed. Otherwise nothing changes.
   */
  lemma RefreshDrawsOnlyWhenNeeded(s: SessionState, rolls: seq<int>, pick: nat, now: int)
    requires NeedsDraw(s) ==> DrawPossible(rolls, s.currentNumber)
    requires pick < |Palette|
    ensures var r := Refresh(s, rolls, pick, now);
      if NeedsDraw(s) then
        && r.currentNumber.Some? && IsDigit(r.currentNumber.value)
        && r.currentNumber != s.currentNumber
        && r.currentColor == Some(Palette[pick])
        && r.startTime == Some(now)
        && !r.lastKey
        && r.(currentNumber := s.currentNumber, currentColor := s.currentColor,
              startTime := s.startTime, lastKey := s.lastKey) == s
      else r == s
  {
  }

  /**
   * Below the limit, the digit shown after an answer differs from the digit
   * that was just answered.
   */
  lemma NextDigitDiffersFromAnswered(s: SessionState, now: int, timestamp: string,
                                     rolls: seq<int>, pick: nat, now': int)
    requires Inv(s) && AwaitingAnswer(s) && Accepts(s) && s.trials + 1 < TrialLimit
    requires DrawPossible(rolls, s.currentNumber)
    requires pick < |Palette|
    ensures var r := Respond(s, now, timestamp);
      && r.userData[|r.userData| - 1].displayedNumber == s.currentNumber.value
      && NeedsDraw(r)
      && Refresh(r, rolls, pick, now').currentNumber.value != s.currentNumber.value
  {
  }

  /**
   * Over a whole session, among the first 30 records no two consecutive
   * records show the same digit. The fact is a clause of `Inv`; the proof is
   * that every transition (`Initial`, `Consent`, `Start`, `Refresh`, `Type`,
   * `Respond`) ensures `Inv` of its result and that `Session.Valid()` wraps
   * `Inv`, so this lemma only reads the clause back for a reachable session.
   */
  lemma ConsecutiveRecordsDiffer(s: SessionState, i: nat)
    requires Inv(s) && i + 1 < |s.userData| && i + 1 < TrialLimit
    ensures s.userData[i].displayedNumber != s.userData[i + 1].displayedNumber
  {
  }

  /**
   * At the limit no new stimulus is drawn: the last digit stays on screen,
   * so an answer after completion is recorded against the same digit.
   */
  lemma CompletionKeepsStimulus(s: SessionState, now: int, timestamp: string, rolls: seq<int>, pick: nat, now': int)
    requires Inv(s) && AwaitingAnswer(s) && Accepts(s) && s.trials + 1 >= TrialLimit
    requires pick < |Palette|
    ensures var r := Respond(s, now, timestamp);
      && r.currentNumber == s.currentNumber && r.currentColor == s.currentColor
      && !NeedsDraw(r) && Refresh(r, rolls, pick, now') == r
  {
  }

  // ------------------------------------------------------------ the session

  /** `st.session_state`, updated in place by the engine's steps. */
  class Session {
    var trials: nat
    var currentNumber: Option<int>
    var currentColor: Option<Color>
    var startTime: Option<int>
    var userData: seq<TrialRecord>
    var userInfo: Option<Participant>
    var experimentStarted: bool
    var lastKey: bool
    var experimentComplete: bool
    var inputs: map<nat, string>

    function State(): SessionState
      reads this
    {
      SessionState(trials, currentNumber, currentColor, startTime, userData, userInfo,
                   experimentStarted, lastKey, experimentComplete, inputs)
    }

    ghost predicate Valid()
      reads this
    {
      Inv(State())
    }

    /** Session initialisation. */
    constructor ()
      ensures Valid() && State() == Initial()
    {
      trials := 0;
      currentNumber, currentColor, startTime := None, None, None;
      userData := [];
      userInfo := None;
      experimentStarted, lastKey, experimentComplete := false, false, false;
      inputs := map[];
    }

    /** The consent form is submitted with `name` and `age` (the age widget keeps it in 5..120). */
    method SubmitConsent(name: string, age: int)
      requires Valid() && userInfo.None? && 5 <= age <= 120
      modifies this
      ensures Valid() && State() == Consent(old(State()), name, age)
    {
      if name != "" {
        userInfo := Some(Participant(name, age));
      }
    }

    /** The start button is pressed. */
    method StartExperiment()
      requires Valid() && userInfo.Some? && !experimentStarted
      modifies this
      ensures Valid() && State() == Start(old(State()))
    {
      experimentStarted := true;
    }

    /** The stimulus refresh at the top of a trial page; `now` is the clock reading. */
    method RefreshStimulus(rolls: seq<int>, pick: nat, now: int)
      requires Valid() && userInfo.Some? && experimentStarted
      requires NeedsDraw(State()) ==> DrawPossible(rolls, currentNumber)
      requires pick < |Palette|
      modifies this
      ensures Valid() && AwaitingAnswer(State())
      ensures State() == Refresh(old(State()), rolls, pick, now)
    {
      if currentNumber.None? || lastKey {
        var number, color := DrawStimulus(rolls, currentNumber, pick);
        currentNumber, currentColor := Some(number), Some(color);
        startTime := Some(now);
        if lastKey {
          lastKey := false;
        }
      }
    }

    /** The participant types `text` into the answer input. */
    method TypeAnswer(text: string)
      requires Valid() && AwaitingAnswer(State())
      modifies this
      ensures Valid() && AwaitingAnswer(State())
      ensures State() == Type(old(State()), text)
    {
      inputs := inputs[trials := text];
    }

    /**
     * `process_input`, run when the answer input changes; `now` and
     * `timestamp` are the clock readings and `remote` how the spreadsheet
     * service behaves. An accepted record is saved through the sinks.
     */
    method ProcessInput(now: int, timestamp: string, remote: Remote, sheet: Sheet, csv: CsvFile)
      requires Valid() && AwaitingAnswer(State())
      modifies this, sheet, csv
      ensures Valid() && Presenting(State())
      ensures State() == Respond(old(State()), now, timestamp)
      ensures if Accepts(old(State())) then
          var res := SheetAfter(old(sheet.rows), remote, NewRecord(old(State()), now, timestamp));
          && sheet.rows == res.rows
          && csv.rows == (if res.fellBack then CsvAfter(old(csv.rows), NewRecord(old(State()), now, timestamp)) else old(csv.rows))
        else sheet.rows == old(sheet.rows) && csv.rows == old(csv.rows)
    {
      ghost var before := State();
      ghost var after := Respond(before, now, timestamp);
      if trials in inputs && inputs[trials] != "" {
        var answer := inputs[trials];
        if answer != "" && |answer| == 1 {
          var record := MakeRecord(timestamp, userInfo.value, currentNumber.value,
                                   currentColor.value, answer, now - startTime.value);
          assert Accepts(before) && record == NewRecord(before, now, timestamp);
          RecordTrial(record, remote, sheet, csv);
          assert State() == after;
        }
      }
    }

    /**
     * The accepted-answer part of `process_input`: append the record, save
     * it through the sinks, count the trial, then mark completion at the
     * limit or set `last_key` below it.
     */
    method RecordTrial(record: TrialRecord, remote: Remote, sheet: Sheet, csv: CsvFile)
      modifies this, sheet, csv
      ensures userData == old(userData) + [record] && trials == old(trials) + 1
      ensures experimentComplete == (old(experimentComplete) || trials >= TrialLimit)
      ensures lastKey == (old(lastKey) || trials < TrialLimit)
      ensures currentNumber == old(currentNumber) && currentColor == old(currentColor)
      ensures startTime == old(startTime) && userInfo == old(userInfo)
      ensures experimentStarted == old(experimentStarted) && inputs == old(inputs)
      ensures var res := SheetAfter(old(sheet.rows), remote, record);
        && sheet.rows == res.rows
        && csv.rows == (if res.fellBack then CsvAfter(old(csv.rows), record) else old(csv.rows))
    {
      userData := userData + [record];
      var _ := SaveToGoogleSheets(record, remote, sheet, csv);
      trials := trials + 1;
      if trials >= TrialLimit {
        experimentComplete := true;
      } else {
        lastKey := true;
      }
    }

    /** The Start Over button, shown once the experiment is complete: every key is cleared and re-initialised. */
    method StartOver()
      requires Valid() && Presenting(State()) && experimentComplete
      modifies this
      ensures Valid() && State() == Initial()
    {
      trials := 0;
      currentNumber, currentColor, startTime := None, None, None;
      userData := [];
      userInfo := None;
      experimentStarted, lastKey, experimentComplete := false, false, false;
      inputs := map[];
      assert State() == Initial();
    }
  }
}
