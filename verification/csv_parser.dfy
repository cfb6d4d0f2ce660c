/** Turning the rows the CSV library produced into chat messages: every
    required column must be non-empty, the first failing row is reported by
    its 1-based line number, and every message starts with every label
    category set to the empty string. */
module CsvParser {
  import opened ChatTypes

  /** What the CSV library hands to the completion callback: its error
      messages and the data rows, each keyed by header name. */
  datatype ParseResults = ParseResults(errors: seq<string>, data: seq<map<string, string>>)

  /** Why a load failed: the library reported an error, or a data row lacks
      a required field (`row` counts the header as line 1). */
  datatype LoadError = ParserError(message: string) | MissingFields(row: int)

  /** A field that is present and non-empty, so `!row.field` is false. */
  predicate Present(row: map<string, string>, field: string)
  {
    field in row && row[field] != ""
  }

  /** All seven required columns are present and non-empty. The values of
      `sender` and `website_image` are not checked against any list. */
  predicate RowComplete(row: map<string, string>)
  {
    && Present(row, "advertiser_id")
    && Present(row, "conversation_id")
    && Present(row, "account_segment")
    && Present(row, "message_time")
    && Present(row, "website_image")
    && Present(row, "sender")
    && Present(row, "text")
  }

  /** The label map every loaded message starts with: each advertiser and
      each bot category, set to the unset sentinel. */
  function InitialLabels(advCats: seq<string>, botCats: seq<string>): (m: map<string, LabelValue>)
    ensures forall k :: k in m <==> k in advCats || k in botCats
    ensures forall k :: k in m ==> m[k] == Unset
  {
    map k | k in advCats + botCats :: Unset
  }

  /** One row as a message: each column goes to its field, `text` to the
      message text. */
  function RowToMessage(row: map<string, string>, labels: map<string, LabelValue>): Message
    requires RowComplete(row)
  {
    Message(
      row["advertiser_id"], row["conversation_id"], row["account_segment"],
      row["message_time"], row["website_image"], row["sender"], row["text"],
      labels)
  }

  /** Mapping the rows in order, `first` being the data index of `rows[0]`;
      the first incomplete row aborts the whole mapping. */
  function MapRows(rows: seq<map<string, string>>, first: nat, labels: map<string, LabelValue>)
    : (r: Result<seq<Message>, LoadError>)
    ensures r.Success? <==> forall i :: 0 <= i < |rows| ==> RowComplete(rows[i])
    ensures r.Success? ==>
              |r.value| == |rows| &&
              forall i :: 0 <= i < |rows| ==> RowComplete(rows[i]) && r.value[i] == RowToMessage(rows[i], labels)
    ensures r.Failure? ==>
              && r.error.MissingFields?
              && first + 2 <= r.error.row < first + 2 + |rows|
              && !RowComplete(rows[r.error.row - first - 2])
              && forall j :: 0 <= j < r.error.row - first - 2 ==> RowComplete(rows[j])
    decreases |rows|
  {
    if rows == [] then Success([])
    else if !RowComplete(rows[0]) then Failure(MissingFields(first + 2))
    else match MapRows(rows[1..], first + 1, labels)
      case Failure(e) => Failure(e)
      case Success(rest) => Success([RowToMessage(rows[0], labels)] + rest)
  }

  /** The completion callback of `parseCSV`. */
  function ParseCsv(results: ParseResults, advCats: seq<string>, botCats: seq<string>)
    : (r: Result<seq<Message>, LoadError>)
    ensures |results.errors| > 0 ==> r == Failure(ParserError("Error parsing CSV: " + results.errors[0]))
    ensures results.errors == [] ==>
              (r.Success? <==> forall i :: 0 <= i < |results.data| ==> RowComplete(results.data[i]))
    ensures r.Success? ==>
              && |r.value| == |results.data|
              && forall i :: 0 <= i < |results.data| ==>
                   && RowComplete(results.data[i])
                   && r.value[i].advertiserId == results.data[i]["advertiser_id"]
                   && r.value[i].conversationId == results.data[i]["conversation_id"]
                   && r.value[i].accountSegment == results.data[i]["account_segment"]
                   && r.value[i].messageTime == results.data[i]["message_time"]
                   && r.value[i].websiteImage == results.data[i]["website_image"]
                   && r.value[i].sender == results.data[i]["sender"]
                   && r.value[i].messageText == results.data[i]["text"]
                   && r.value[i].labels == InitialLabels(advCats, botCats)
    ensures results.errors == [] && r.Failure? ==>
              && r.error.MissingFields?
              && 2 <= r.error.row < |results.data| + 2
              && !RowComplete(results.data[r.error.row - 2])
              && forall j :: 0 <= j < r.error.row - 2 ==> RowComplete(results.data[j])
  {
    if |results.errors| > 0 then Failure(ParserError("Error parsing CSV: " + results.errors[0]))
    else MapRows(results.data, 0, InitialLabels(advCats, botCats))
  }

  /** Every loaded message carries every advertiser and bot category, unset,
      whatever its sender. */
  lemma LoadedLabelsComplete(results: ParseResults, advCats: seq<string>, botCats: seq<string>, i: int)
    requires ParseCsv(results, advCats, botCats).Success?
    requires 0 <= i < |ParseCsv(results, advCats, botCats).value|
    ensures var m := ParseCsv(results, advCats, botCats).value[i];
            && (forall k :: k in m.labels <==> k in advCats || k in botCats)
            && (forall k :: k in m.labels ==> m.labels[k] == Unset)
  {
  }

  /** Decimal digits of `n`, as template literals print a number: no
      leading zero, at least one digit. */
  function DecimalString(n: nat): (r: string)
    ensures |r| >= 1 && (|r| > 1 ==> r[0] != '0')
    ensures forall i :: 0 <= i < |r| ==> '0' <= r[i] <= '9'
  {
    var digit := ['0' + (n % 10) as char];
    if n < 10 then digit else DecimalString(n / 10) + digit
  }

  /** The number a string of decimal digits denotes. */
  function DecimalValue(s: string): nat
    requires forall i :: 0 <= i < |s| ==> '0' <= s[i] <= '9'
  {
    if s == [] then 0
    else DecimalValue(s[..|s| - 1]) * 10 + (s[|s| - 1] as int - '0' as int)
  }

  /** Reading back the printed row number gives the row number. */
  lemma {:induction false} DecimalRoundTrip(n: nat)
    ensures DecimalValue(DecimalString(n)) == n
  {
    if n >= 10 {
      DecimalRoundTrip(n / 10);
      var r := DecimalString(n);
      assert r[..|r| - 1] == DecimalString(n / 10);
    }
  }

  /** The text shown to the reviewer when a load fails: the library's message
      as it is, or the row sentence with the 1-based line number. */
  function ErrorText(e: LoadError): (t: string)
    ensures e.ParserError? ==> t == e.message
    ensures e.MissingFields? && e.row >= 0 ==>
              t == "Row " + DecimalString(e.row) + " is missing required fields"
    ensures e.MissingFields? ==>
              |t| > 30 && t[..4] == "Row " && t[|t| - 27..] == " is missing required fields"
  {
    match e
    case ParserError(message) => message
    case MissingFields(row) =>
      "Row " + (if row < 0 then "-" + DecimalString(-row) else DecimalString(row)) + " is missing required fields"
  }
}
