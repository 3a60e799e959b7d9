/** main: parse the start and end dates, count the rows, render the
    result.  The rows stand for the opened CSV file. */
module Pipeline {
  import opened Outcomes
  import opened Dates
  import opened Complaints
  import opened Report

  /** The printed lines of a completed run: the header, then each counted
      key in order of first appearance with the number of rows in range
      that carry it. */
  ghost predicate Summarises(lines: seq<string>, rows: seq<Row>, start: Date, end: Date) {
    var keys := AdmittedKeys(rows, start, end);
    var distinct := FirstOccurrences(keys);
    && |lines| == |distinct| + 1
    && lines[0] == Header
    && forall i :: 0 <= i < |distinct| ==> lines[i + 1] == Line(distinct[i], multiset(keys)[distinct[i]])
  }

  method Run(startText: string, endText: string, rows: seq<Row>) returns (r: Result<seq<string>>)
    ensures ParseDate(startText).Failure? ==> r == Failure(BadDate(startText))
    ensures ParseDate(startText).Success? && ParseDate(endText).Failure? ==> r == Failure(BadDate(endText))
    ensures ParseDate(startText).Success? && ParseDate(endText).Success? ==>
      var start, end := ParseDate(startText).value, ParseDate(endText).value;
      && (r.Failure? <==> Tallied(rows, start, end).Failure?)
      && (r.Failure? ==> r.error == Tallied(rows, start, end).error)
      && (r.Success? ==> Summarises(r.value, rows, start, end))
      && (r.Success? && (rows == [] || !Le(start, end)) ==> r.value == [Header])
  {
    var parsedStart := ParseDate(startText);
    if parsedStart.Failure? {
      return Failure(parsedStart.error);
    }
    var parsedEnd := ParseDate(endText);
    if parsedEnd.Failure? {
      return Failure(parsedEnd.error);
    }
    var start, end := parsedStart.value, parsedEnd.value;
    var counter := ProcessComplaints(rows, start, end);
    if counter.Failure? {
      return Failure(counter.error);
    }
    var c := counter.value;
    TalliedCounts(rows, start, end);
    TalliedOrder(rows, start, end);
    if rows == [] || !Le(start, end) {
      NothingCounted(rows, start, end);
    }
    var lines := OutputResults(c);
    r := Success(lines);
  }
}
