/** The standard-output branch of output_results: a header line, then one
    line per counter entry in the counter's iteration order. */
module Report {
  import opened Digits
  import opened Complaints

  const Header := "complaint type, borough, count"

  /** f"{complaint_type}, {borough}, {count}" */
  function Line(k: Key, n: nat): string {
    k.complaintType + ", " + k.borough + ", " + Decimal(n)
  }

  /** The last field of a data line reads back as the count it was written
      from: it is a run of digits, with nothing after it. */
  lemma LineCountReadsBack(k: Key, n: nat)
    ensures var line := Line(k, n);
      exists p :: 2 <= p < |line| && line[p - 2..p] == ", " && AllDigits(line[p..]) && FromDigits(line[p..]) == n
  {
    var prefix := k.complaintType + ", " + k.borough + ", ";
    var line := Line(k, n);
    var p := |prefix|;
    assert line == prefix + Decimal(n);
    assert line[p..] == Decimal(n);
    assert line[p - 2..p] == prefix[p - 2..p] == ", ";
  }

  /** The lines output_results prints for counter c. */
  method OutputResults(c: Counter) returns (lines: seq<string>)
    ensures |lines| == |c.order| + 1
    ensures lines[0] == Header
    ensures forall i :: 0 <= i < |c.order| ==> lines[i + 1] == Line(c.order[i], Count(c, c.order[i]))
  {
    lines := [Header];
    for i := 0 to |c.order|
      invariant |lines| == i + 1 && lines[0] == Header
      invariant forall j :: 0 <= j < i ==> lines[j + 1] == Line(c.order[j], Count(c, c.order[j]))
    {
      var key := c.order[i];
      lines := lines + [Line(key, Count(c, key))];
    }
  }
}
