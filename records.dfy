/**
 * One trial's record (the dictionary built in app.py:99-108) and its
 * encoding as a row of cells, which both result sinks append.
 */
module Records {
  import opened Wrappers
  import opened Stimulus

  /** `user_info`: the consent form's name and age. */
  datatype Participant = Participant(name: string, age: int)

  /**
   * The record of one answered trial, field for field in the source's key
   * order. `reactionTime` is the abstract difference of two clock readings.
   */
  datatype TrialRecord = TrialRecord(
    timestamp: string,
    name: string,
    age: int,
    displayedNumber: int,
    displayedColor: Color,
    userInput: string,
    isCorrect: bool,
    reactionTime: int)

  /** `str(n)` for a digit. */
  function DigitString(n: int): (s: string)
    requires IsDigit(n)
    ensures |s| == 1 && ParseDigit(s) == Some(n)
  {
    [('0' as int + n) as char]
  }

  /** Reads a one-character decimal digit back; `None` for any other text. */
  function ParseDigit(s: string): (r: Option<int>)
    ensures r.Some? ==> |s| == 1 && IsDigit(r.value)
    ensures r.Some? ==> s == [('0' as int + r.value) as char]
  {
    if |s| == 1 && '0' <= s[0] <= '9' then Some(s[0] as int - '0' as int) else None
  }

  /** A digit has exactly one spelling: `s == str(n)` iff `s` reads back as `n`. */
  lemma DigitSpelling(n: int, s: string)
    requires IsDigit(n)
    ensures s == DigitString(n) <==> ParseDigit(s) == Some(n)
  {
  }

  /**
   * Builds the record of an answered trial: name, age, digit and colour are
   * copied from the session, and the answer is correct exactly when it reads
   * back as the digit shown.
   */
  function MakeRecord(timestamp: string, who: Participant, number: int, color: Color,
                      answer: string, reactionTime: int): (r: TrialRecord)
    requires IsDigit(number)
    ensures r.isCorrect <==> ParseDigit(answer) == Some(number)
    ensures r.name == who.name && r.age == who.age
    ensures r.displayedNumber == number && r.displayedColor == color
    ensures r.userInput == answer && r.reactionTime == reactionTime && r.timestamp == timestamp
  {
    TrialRecord(timestamp, who.name, who.age, number, color, answer,
                answer == DigitString(number), reactionTime)
  }

  /** One cell of a spreadsheet or CSV row. */
  datatype Cell = Text(text: string) | Number(value: int) | Flag(flag: bool)

  type Row = seq<Cell>

  /** The record's keys, in the order the source inserts them. */
  const HeaderRow: Row := [
    Text("timestamp"), Text("name"), Text("age"), Text("displayed_number"),
    Text("displayed_color"), Text("user_input"), Text("is_correct"),
    Text("reaction_time_seconds")]

  /**
   * The record's values, in key order: one cell per header column, and never
   * equal to the header (the age column holds a number, not a name).
   */
  function ValuesRow(r: TrialRecord): (v: Row)
    ensures |v| == |HeaderRow|
    ensures v != HeaderRow
  {
    assert Number(r.age) != HeaderRow[2];

    [Text(r.timestamp), Text(r.name), Number(r.age), Number(r.displayedNumber),
     Text(ColorName(r.displayedColor)), Text(r.userInput), Flag(r.isCorrect),
     Number(r.reactionTime)]
  }

  function ColorOfName(s: string): Option<Color>
  {
    if s == "red" then Some(Red)
    else if s == "green" then Some(Green)
    else if s == "blue" then Some(Blue)
    else None
  }

  /** Reads a data row back into a record; `None` for a row of any other shape. */
  function RecordOfRow(row: Row): Option<TrialRecord>
  {
    if |row| == 8 && row[0].Text? && row[1].Text? && row[2].Number? && row[3].Number?
       && row[4].Text? && ColorOfName(row[4].text).Some? && row[5].Text? && row[6].Flag?
       && row[7].Number?
    then Some(TrialRecord(row[0].text, row[1].text, row[2].value, row[3].value,
                          ColorOfName(row[4].text).value, row[5].text, row[6].flag, row[7].value))
    else None
  }

  /**
   * A data row loses nothing: it reads back as the record it was made from,
   * while the header reads back as no record.
   */
  lemma ValuesRowRoundTrip(r: TrialRecord)
    ensures RecordOfRow(ValuesRow(r)) == Some(r)
    ensures RecordOfRow(HeaderRow) == None
  {
  }
}
