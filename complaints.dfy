/** The counting loop of process_complaints: every row is read for its
    creation date, borough and complaint type; rows dated within the range
    bump a Counter keyed by (complaint type, borough). */
module Complaints {
  import opened Outcomes
  import opened Dates

  /** One row of the input, as the CSV reader hands it over. */
  type Row = map<string, string>

  const CreationDate := "creation_date"
  const Borough := "borough"
  const ComplaintType := "complaint_type"

  /** The tuple (complaint_type, borough) the counter is keyed by. */
  datatype Key = Key(complaintType: string, borough: string)

  predicate HasFields(row: Row) {
    CreationDate in row && Borough in row && ComplaintType in row
  }

  /** is_within_date_range: parse the row's date, then `start <= d <= end`. */
  function IsWithinDateRange(complaintDate: string, start: Date, end: Date): (r: Result<bool>)
    ensures r.Failure? <==> ParseDate(complaintDate).Failure?
    ensures r.Failure? ==> r.error == BadDate(complaintDate)
  {
    match ParseDate(complaintDate)
    case Failure(e) => Failure(e)
    case Success(d) => Success(InRange(d, start, end))
  }

  /** With a valid range, a row is in range exactly when its day number lies
      between the day numbers of start and end, both included. */
  lemma WithinRangeByOrdinal(complaintDate: string, start: Date, end: Date)
    requires Valid(start) && Valid(end)
    requires IsWithinDateRange(complaintDate, start, end).Success?
    ensures var d := ParseDate(complaintDate).value;
      IsWithinDateRange(complaintDate, start, end).value <==> Ordinal(start) <= Ordinal(d) <= Ordinal(end)
  {
    var d := ParseDate(complaintDate).value;
    OrdinalOrder(start, d);
    OrdinalOrder(d, end);
  }

  /** The first and the last day of a range are inside it. */
  lemma RangeEndsAdmitted(start: Date, end: Date)
    requires Valid(start) && Valid(end) && Le(start, end)
    ensures IsWithinDateRange(IsoFormat(start), start, end) == Success(true)
    ensures IsWithinDateRange(IsoFormat(end), start, end) == Success(true)
  {
    ParseSpelling(start, true, TwoDigits);
    ParseSpelling(end, true, TwoDigits);
  }

  /** When start is after end, no date is in range. */
  lemma InvertedRangeAdmitsNothing(complaintDate: string, start: Date, end: Date)
    requires !Le(start, end)
    ensures IsWithinDateRange(complaintDate, start, end) != Success(true)
  {
  }

  /** The body of the loop up to the counter update: the three field reads
      in the source's order (the first missing one is the KeyError), then
      the range test.  Some(key) when the row is to be counted. */
  function Classify(row: Row, start: Date, end: Date): (r: Result<Option<Key>>)
    ensures CreationDate !in row ==> r == Failure(MissingField(CreationDate))
    ensures CreationDate in row && Borough !in row ==> r == Failure(MissingField(Borough))
    ensures CreationDate in row && Borough in row && ComplaintType !in row ==> r == Failure(MissingField(ComplaintType))
    ensures HasFields(row) ==> (r.Failure? <==> ParseDate(row[CreationDate]).Failure?)
    ensures HasFields(row) && r.Failure? ==> r.error == BadDate(row[CreationDate])
    ensures r.Success? ==> HasFields(row) && (r.value.Some? <==> InRange(ParseDate(row[CreationDate]).value, start, end))
    ensures r.Success? && r.value.Some? ==> r.value.value == Key(row[ComplaintType], row[Borough])
  {
    if CreationDate !in row then Failure(MissingField(CreationDate))
    else if Borough !in row then Failure(MissingField(Borough))
    else if ComplaintType !in row then Failure(MissingField(ComplaintType))
    else
      match IsWithinDateRange(row[CreationDate], start, end)
      case Failure(e) => Failure(e)
      case Success(within) =>
        if within then Success(Some(Key(row[ComplaintType], row[Borough]))) else Success(None)
  }

  // ---------------------------------------------------------------------
  // The Counter: counts per key, and the keys in first-insertion order.

  datatype Counter = Counter(counts: map<Key, nat>, order: seq<Key>)

  const Empty := Counter(map[], [])

  predicate NoDuplicates(s: seq<Key>) {
    forall i, j :: 0 <= i < j < |s| ==> s[i] != s[j]
  }

  /** Every key is listed once in the order, and every stored count is at
      least 1 (a key enters the Counter only by being incremented). */
  ghost predicate WellFormed(c: Counter) {
    && NoDuplicates(c.order)
    && (forall k :: k in c.counts <==> k in c.order)
    && (forall k :: k in c.counts ==> c.counts[k] >= 1)
  }

  /** counter[key]: a missing key reads as 0. */
  function Count(c: Counter, k: Key): nat {
    if k in c.counts then c.counts[k] else 0
  }

  /** counter[key] += 1: a new key goes to the end of the order. */
  function Record(c: Counter, k: Key): (r: Counter)
    ensures Count(r, k) == Count(c, k) + 1
    ensures forall j :: j != k ==> Count(r, j) == Count(c, j)
    ensures WellFormed(c) ==> WellFormed(r)
    ensures r.order == if k in c.counts then c.order else c.order + [k]
  {
    Counter(c.counts[k := Count(c, k) + 1], if k in c.counts then c.order else c.order + [k])
  }

  lemma RecordFields(c: Counter, k: Key)
    ensures Record(c, k) == Counter(c.counts[k := Count(c, k) + 1], if k in c.counts then c.order else c.order + [k])
  {
  }

  function SumCounts(keys: seq<Key>, c: Counter): nat {
    if keys == [] then 0 else SumCounts(keys[..|keys| - 1], c) + Count(c, keys[|keys| - 1])
  }

  /** sum(counter.values()) */
  function Total(c: Counter): nat {
    SumCounts(c.order, c)
  }

  lemma {:induction false} SumCountsBump(keys: seq<Key>, c: Counter, c': Counter, k: Key)
    requires NoDuplicates(keys)
    requires Count(c', k) == Count(c, k) + 1
    requires forall j :: j != k ==> Count(c', j) == Count(c, j)
    ensures SumCounts(keys, c') == SumCounts(keys, c) + (if k in keys then 1 else 0)
  {
    if keys != [] {
      var init := keys[..|keys| - 1];
      assert NoDuplicates(init);
      SumCountsBump(init, c, c', k);
      assert k in keys <==> k in init || k == keys[|keys| - 1];
      assert k == keys[|keys| - 1] ==> k !in init;
    }
  }

  /** Each increment adds exactly one to the sum of the counts. */
  lemma RecordTotal(c: Counter, k: Key)
    requires WellFormed(c)
    ensures Total(Record(c, k)) == Total(c) + 1
  {
    var r := Record(c, k);
    if k in c.counts {
      SumCountsBump(c.order, c, r, k);
    } else {
      SumCountsBump(c.order, c, r, k);
      assert r.order[..|r.order| - 1] == c.order;
    }
  }

  // ---------------------------------------------------------------------
  // The loop as a fold over what the loop body decides for each row.

  /** What the loop body decides about one row: the exception it raises,
      Some(key) to count the row, or None to skip it. */
  type Verdict = Result<Option<Key>>

  /** Classify applied to every row, in input order. */
  function Verdicts(rows: seq<Row>, start: Date, end: Date): (vs: seq<Verdict>)
    ensures |vs| == |rows|
    decreases |rows|
  {
    if rows == [] then [] else [Classify(rows[0], start, end)] + Verdicts(rows[1..], start, end)
  }

  lemma {:induction false} VerdictAt(rows: seq<Row>, start: Date, end: Date, i: nat)
    requires i < |rows|
    ensures Verdicts(rows, start, end)[i] == Classify(rows[i], start, end)
    decreases i
  {
    if i > 0 {
      VerdictAt(rows[1..], start, end, i - 1);
    }
  }

  lemma {:induction false} VerdictsAppend(a: seq<Row>, b: seq<Row>, start: Date, end: Date)
    ensures Verdicts(a + b, start, end) == Verdicts(a, start, end) + Verdicts(b, start, end)
    decreases |a|
  {
    if a == [] {
      assert a + b == b;
    } else {
      assert (a + b)[0] == a[0] && (a + b)[1..] == a[1..] + b;
      VerdictsAppend(a[1..], b, start, end);
    }
  }

  /** One iteration of the loop, on a row with verdict v. */
  function Step(c: Counter, v: Verdict): Result<Counter> {
    match v
    case Failure(e) => Failure(e)
    case Success(None) => Success(c)
    case Success(Some(k)) => Success(Record(c, k))
  }

  /** What one row does to the Counter: an error for a missing field or a
      bad date, nothing for a row out of range, and exactly one more for its
      own key (and no change to any other key) for a row in range. */
  lemma RowEffect(c: Counter, row: Row, start: Date, end: Date)
    ensures !HasFields(row) ==> Step(c, Classify(row, start, end)).Failure?
    ensures HasFields(row) && ParseDate(row[CreationDate]).Failure? ==>
      Step(c, Classify(row, start, end)) == Failure(BadDate(row[CreationDate]))
    ensures HasFields(row) && IsWithinDateRange(row[CreationDate], start, end) == Success(false) ==>
      Step(c, Classify(row, start, end)) == Success(c)
    ensures HasFields(row) && IsWithinDateRange(row[CreationDate], start, end) == Success(true) ==>
      var k := Key(row[ComplaintType], row[Borough]);
      && Step(c, Classify(row, start, end)).Success?
      && Count(Step(c, Classify(row, start, end)).value, k) == Count(c, k) + 1
      && forall j :: j != k ==> Count(Step(c, Classify(row, start, end)).value, j) == Count(c, j)
  {
  }

  /** The loop run over the remaining rows from counter c; the first error
      ends it. */
  function Fold(c: Counter, vs: seq<Verdict>): Result<Counter>
    decreases |vs|
  {
    if vs == [] then Success(c)
    else
      match Step(c, vs[0])
      case Failure(e) => Failure(e)
      case Success(c') => Fold(c', vs[1..])
  }

  /** The keys of the rows the loop counts, in input order. */
  function Counted(vs: seq<Verdict>): seq<Key>
    decreases |vs|
  {
    if vs == [] then []
    else (if vs[0].Success? && vs[0].value.Some? then [vs[0].value.value] else []) + Counted(vs[1..])
  }

  /** What process_complaints returns for the rows, or the exception it raises. */
  function Tallied(rows: seq<Row>, start: Date, end: Date): Result<Counter> {
    Fold(Empty, Verdicts(rows, start, end))
  }

  /** The reference tally: the key of every row in range, in input order. */
  function AdmittedKeys(rows: seq<Row>, start: Date, end: Date): seq<Key> {
    Counted(Verdicts(rows, start, end))
  }

  /** The fold from position i takes one step on the verdict at i. */
  lemma FoldAt(c: Counter, vs: seq<Verdict>, i: nat)
    requires i < |vs|
    ensures Step(c, vs[i]).Failure? ==> Fold(c, vs[i..]) == Failure(Step(c, vs[i]).error)
    ensures Step(c, vs[i]).Success? ==> Fold(c, vs[i..]) == Fold(Step(c, vs[i]).value, vs[i + 1..])
  {
    assert vs[i..][0] == vs[i] && vs[i..][1..] == vs[i + 1..];
  }

  /** process_complaints: the loop over the rows, updating the counts and the
      key order in place. */
  method ProcessComplaints(rows: seq<Row>, start: Date, end: Date) returns (r: Result<Counter>)
    ensures r == Tallied(rows, start, end)
  {
    ghost var vs := Verdicts(rows, start, end);
    var counts: map<Key, nat> := map[];
    var order: seq<Key> := [];
    var i := 0;
    while i < |rows|
      invariant 0 <= i <= |rows|
      invariant Fold(Counter(counts, order), vs[i..]) == Tallied(rows, start, end)
    {
      ghost var before := Counter(counts, order);
      FoldAt(before, vs, i);
      VerdictAt(rows, start, end, i);
      var row := rows[i];
      if CreationDate !in row {
        return Failure(MissingField(CreationDate));
      }
      var complaintDate := row[CreationDate];
      if Borough !in row {
        return Failure(MissingField(Borough));
      }
      var borough := row[Borough];
      if ComplaintType !in row {
        return Failure(MissingField(ComplaintType));
      }
      var complaintType := row[ComplaintType];
      var within := IsWithinDateRange(complaintDate, start, end);
      if within.Failure? {
        return Failure(within.error);
      }
      if within.value {
        var key := Key(complaintType, borough);
        var n := if key in counts then counts[key] else 0;
        RecordFields(before, key);
        if key !in counts {
          order := order + [key];
        }
        counts := counts[key := n + 1];
      }
      assert Step(before, vs[i]) == Success(Counter(counts, order));
      i := i + 1;
    }
    r := Success(Counter(counts, order));
  }

  /** The position of the first occurrence of x in s. */
  function FirstIndex(s: seq<Key>, x: Key): (i: nat)
    requires x in s
    ensures i < |s| && s[i] == x
    ensures forall j :: 0 <= j < i ==> s[j] != x
  {
    if s[0] == x then 0 else 1 + FirstIndex(s[1..], x)
  }

  /** An occurrence with no earlier one is the first occurrence. */
  lemma FirstIndexIs(s: seq<Key>, x: Key, k: nat)
    requires k < |s| && s[k] == x
    requires forall j :: 0 <= j < k ==> s[j] != x
    ensures FirstIndex(s, x) == k
  {
    var i := FirstIndex(s, x);
    assert !(i < k) && !(k < i);
  }

  /** Dropping the last element keeps the first occurrences before it. */
  lemma FirstIndexInit(s: seq<Key>)
    requires s != []
    ensures forall y :: y in s[..|s| - 1] ==> FirstIndex(s, y) == FirstIndex(s[..|s| - 1], y)
  {
    var init := s[..|s| - 1];
    forall y | y in init ensures FirstIndex(s, y) == FirstIndex(init, y) {
      FirstIndexIs(s, y, FirstIndex(init, y));
    }
  }

  /** The distinct elements of s, each where it first occurs: no element is
      repeated, the members are those of s, and they are listed in the order
      of their first occurrences in s. */
  function FirstOccurrences(s: seq<Key>): (r: seq<Key>)
    ensures NoDuplicates(r)
    ensures forall x :: x in r <==> x in s
    ensures forall i, j :: 0 <= i < j < |r| ==> FirstIndex(s, r[i]) < FirstIndex(s, r[j])
  {
    if s == [] then []
    else
      var init := s[..|s| - 1];
      var p := FirstOccurrences(init);
      var x := s[|s| - 1];
      assert forall y :: y in s <==> y in init || y == x;
      FirstIndexInit(s);
      if x in p then p
      else
        assert FirstIndex(s, x) == |s| - 1 by {
          FirstIndexIs(s, x, |s| - 1);
        }
        p + [x]
  }

  /** The fold completes exactly when every verdict is a success, and
      otherwise ends with the error of the first verdict that is not. */
  lemma {:induction false} FoldOutcome(c: Counter, vs: seq<Verdict>)
    ensures Fold(c, vs).Success? <==> forall i :: 0 <= i < |vs| ==> vs[i].Success?
    ensures Fold(c, vs).Failure? ==>
      exists i :: 0 <= i < |vs| && vs[i] == Failure(Fold(c, vs).error)
        && forall j :: 0 <= j < i ==> vs[j].Success?
    decreases |vs|
  {
    if vs != [] {
      match Step(c, vs[0])
      case Failure(e) =>
        assert vs[0] == Failure(e);
      case Success(c') =>
        FoldOutcome(c', vs[1..]);
        assert forall i :: 1 <= i < |vs| ==> vs[i] == vs[1..][i - 1];
        if Fold(c, vs).Failure? {
          var i :| 0 <= i < |vs[1..]| && vs[1..][i] == Failure(Fold(c, vs).error)
            && forall j :: 0 <= j < i ==> vs[1..][j].Success?;
          assert vs[i + 1] == Failure(Fold(c, vs).error);
          assert forall j :: 0 <= j < i + 1 ==> vs[j].Success? by {
            forall j | 0 <= j < i + 1 ensures vs[j].Success? {
              if j > 0 {
                assert vs[j] == vs[1..][j - 1];
              }
            }
          }
        }
    }
  }

  /** One iteration of a fold that completes: the verdict is a success, and
      the counter and the counted keys advance together. */
  lemma FoldUnfold(c: Counter, vs: seq<Verdict>)
    requires vs != [] && Fold(c, vs).Success?
    ensures vs[0].Success?
    ensures var v := vs[0].value;
      var c1 := if v.Some? then Record(c, v.value) else c;
      && Fold(c, vs) == Fold(c1, vs[1..])
      && Counted(vs) == (if v.Some? then [v.value] else []) + Counted(vs[1..])
  {
  }

  /** A completed fold keeps the Counter well formed. */
  lemma {:induction false} FoldWellFormed(c: Counter, vs: seq<Verdict>)
    requires WellFormed(c)
    requires Fold(c, vs).Success?
    ensures WellFormed(Fold(c, vs).value)
    decreases |vs|
  {
    if vs != [] {
      FoldUnfold(c, vs);
      var v := vs[0].value;
      if v.Some? {
        FoldWellFormed(Record(c, v.value), vs[1..]);
      } else {
        FoldWellFormed(c, vs[1..]);
      }
    }
  }

  /** A completed fold adds to every key's count the number of counted rows
      that carry it. */
  lemma {:induction false} FoldCounts(c: Counter, vs: seq<Verdict>)
    requires Fold(c, vs).Success?
    ensures forall k :: Count(Fold(c, vs).value, k) == Count(c, k) + multiset(Counted(vs))[k]
    decreases |vs|
  {
    if vs != [] {
      FoldUnfold(c, vs);
      var v := vs[0].value;
      var rest := Counted(vs[1..]);
      if v.Some? {
        var k := v.value;
        FoldCounts(Record(c, k), vs[1..]);
        assert multiset([k] + rest) == multiset([k]) + multiset(rest);
      } else {
        FoldCounts(c, vs[1..]);
        assert [] + rest == rest;
      }
    }
  }

  /** A completed fold adds the number of counted rows to the total. */
  lemma {:induction false} FoldTotal(c: Counter, vs: seq<Verdict>)
    requires WellFormed(c)
    requires Fold(c, vs).Success?
    ensures Total(Fold(c, vs).value) == Total(c) + |Counted(vs)|
    decreases |vs|
  {
    if vs != [] {
      FoldUnfold(c, vs);
      var v := vs[0].value;
      if v.Some? {
        RecordTotal(c, v.value);
        FoldTotal(Record(c, v.value), vs[1..]);
      } else {
        FoldTotal(c, vs[1..]);
      }
    }
  }

  /** An increment keeps the key order equal to the first occurrences of
      the keys counted so far. */
  lemma RecordOrder(c: Counter, k: Key, seen: seq<Key>)
    requires WellFormed(c) && c.order == FirstOccurrences(seen)
    ensures Record(c, k).order == FirstOccurrences(seen + [k])
  {
    assert (seen + [k])[..|seen|] == seen;
  }

  lemma SeqShift(a: seq<Key>, x: Key, b: seq<Key>)
    ensures (a + [x]) + b == a + ([x] + b)
  {
  }

  lemma {:induction false} FoldOrder(c: Counter, vs: seq<Verdict>, seen: seq<Key>)
    requires WellFormed(c)
    requires c.order == FirstOccurrences(seen)
    requires Fold(c, vs).Success?
    ensures Fold(c, vs).value.order == FirstOccurrences(seen + Counted(vs))
    decreases |vs|
  {
    if vs == [] {
      assert seen + [] == seen;
    } else {
      FoldUnfold(c, vs);
      var v := vs[0].value;
      var rest := Counted(vs[1..]);
      if v.Some? {
        var k := v.value;
        var c1 := Record(c, k);
        assert WellFormed(c1);
        RecordOrder(c, k, seen);
        FoldOrder(c1, vs[1..], seen + [k]);
        SeqShift(seen, k, rest);
      } else {
        FoldOrder(c, vs[1..], seen);
        assert [] + rest == rest;
      }
    }
  }

  /** A run that completes counts, for every key, exactly the rows in range
      that carry it; every stored count is at least 1. */
  lemma TalliedCounts(rows: seq<Row>, start: Date, end: Date)
    requires Tallied(rows, start, end).Success?
    ensures var c := Tallied(rows, start, end).value;
      && WellFormed(c)
      && forall k :: Count(c, k) == multiset(AdmittedKeys(rows, start, end))[k]
  {
    FoldWellFormed(Empty, Verdicts(rows, start, end));
    FoldCounts(Empty, Verdicts(rows, start, end));
  }

  /** Count conservation: the counts sum to the number of rows in range. */
  lemma TalliedTotal(rows: seq<Row>, start: Date, end: Date)
    requires Tallied(rows, start, end).Success?
    ensures Total(Tallied(rows, start, end).value) == |AdmittedKeys(rows, start, end)|
  {
    FoldTotal(Empty, Verdicts(rows, start, end));
  }

  /** Keys are ordered by the first row in range that carries them. */
  lemma TalliedOrder(rows: seq<Row>, start: Date, end: Date)
    requires Tallied(rows, start, end).Success?
    ensures Tallied(rows, start, end).value.order == FirstOccurrences(AdmittedKeys(rows, start, end))
  {
    FoldOrder(Empty, Verdicts(rows, start, end), []);
    assert [] + AdmittedKeys(rows, start, end) == AdmittedKeys(rows, start, end);
  }

  /** Fail-fast: a missing field or a malformed date in any row ends the
      whole run with that row's error; no row is skipped. */
  lemma TalliedFailsFast(rows: seq<Row>, start: Date, end: Date)
    ensures Tallied(rows, start, end).Success? <==>
      forall i :: 0 <= i < |rows| ==> Classify(rows[i], start, end).Success?
    ensures Tallied(rows, start, end).Failure? ==>
      exists i :: 0 <= i < |rows| && Classify(rows[i], start, end) == Failure(Tallied(rows, start, end).error)
        && forall j :: 0 <= j < i ==> Classify(rows[j], start, end).Success?
  {
    var vs := Verdicts(rows, start, end);
    FoldOutcome(Empty, vs);
    forall i | 0 <= i < |rows| ensures vs[i] == Classify(rows[i], start, end) {
      VerdictAt(rows, start, end, i);
    }
    if Tallied(rows, start, end).Failure? {
      var i :| 0 <= i < |vs| && vs[i] == Failure(Tallied(rows, start, end).error)
        && forall j :: 0 <= j < i ==> vs[j].Success?;
      assert Classify(rows[i], start, end) == Failure(Tallied(rows, start, end).error);
    }
  }

  lemma {:induction false} CountedAppend(a: seq<Verdict>, b: seq<Verdict>)
    ensures Counted(a + b) == Counted(a) + Counted(b)
    decreases |a|
  {
    if a == [] {
      assert a + b == b;
    } else {
      assert (a + b)[0] == a[0] && (a + b)[1..] == a[1..] + b;
      CountedAppend(a[1..], b);
    }
  }

  lemma AdmittedKeysAppend(a: seq<Row>, b: seq<Row>, start: Date, end: Date)
    ensures AdmittedKeys(a + b, start, end) == AdmittedKeys(a, start, end) + AdmittedKeys(b, start, end)
  {
    VerdictsAppend(a, b, start, end);
    CountedAppend(Verdicts(a, start, end), Verdicts(b, start, end));
  }

  /** Taking the same row out of two permutations leaves permutations. */
  lemma RemoveBoth(rows1: seq<Row>, rows2: seq<Row>, j: nat)
    requires multiset(rows1) == multiset(rows2)
    requires rows1 != [] && j < |rows2| && rows2[j] == rows1[0]
    ensures multiset(rows1[1..]) == multiset(rows2[..j] + rows2[j + 1..])
  {
    var x, before, after := rows1[0], rows2[..j], rows2[j + 1..];
    assert rows1 == [x] + rows1[1..];
    assert rows2 == before + ([x] + after);
    assert multiset(rows1) == multiset([x]) + multiset(rows1[1..]);
    assert multiset(rows2) == multiset(before) + multiset([x]) + multiset(after);
    assert multiset(rows1[1..]) == multiset(rows1) - multiset([x]);
    assert multiset(before + after) == multiset(before) + multiset(after);
  }

  /** Reordering the rows reorders the counted keys and nothing more. */
  lemma {:induction false} AdmittedKeysPermutation(rows1: seq<Row>, rows2: seq<Row>, start: Date, end: Date)
    requires multiset(rows1) == multiset(rows2)
    ensures multiset(AdmittedKeys(rows1, start, end)) == multiset(AdmittedKeys(rows2, start, end))
    decreases |rows1|
  {
    if rows1 == [] {
      assert rows2 == [] by {
        assert |rows2| == |multiset(rows2)| == 0;
      }
    } else {
      var x := rows1[0];
      assert rows1 == [x] + rows1[1..];
      assert x in multiset(rows2);
      var j :| 0 <= j < |rows2| && rows2[j] == x;
      var before, after := rows2[..j], rows2[j + 1..];
      assert rows2 == before + ([x] + after);
      RemoveBoth(rows1, rows2, j);
      AdmittedKeysPermutation(rows1[1..], before + after, start, end);
      AdmittedKeysAppend([x], rows1[1..], start, end);
      AdmittedKeysAppend(before, [x] + after, start, end);
      AdmittedKeysAppend([x], after, start, end);
      AdmittedKeysAppend(before, after, start, end);
    }
  }

  /** Two runs over the same rows in any order both complete or both fail. */
  lemma PermutationOutcome(rows1: seq<Row>, rows2: seq<Row>, start: Date, end: Date)
    requires multiset(rows1) == multiset(rows2)
    ensures Tallied(rows1, start, end).Success? <==> Tallied(rows2, start, end).Success?
  {
    TalliedFailsFast(rows1, start, end);
    TalliedFailsFast(rows2, start, end);
    forall j | 0 <= j < |rows2| ensures exists i :: 0 <= i < |rows1| && rows1[i] == rows2[j] {
      assert rows2[j] in multiset(rows1);
    }
    forall i | 0 <= i < |rows1| ensures exists j :: 0 <= j < |rows2| && rows2[j] == rows1[i] {
      assert rows1[i] in multiset(rows2);
    }
  }

  /** Well-formed counters that agree on every count hold the same map. */
  lemma SameCountsSameMap(c1: Counter, c2: Counter)
    requires WellFormed(c1) && WellFormed(c2)
    requires forall k :: Count(c1, k) == Count(c2, k)
    ensures c1.counts == c2.counts
  {
    assert c1.counts.Keys == c2.counts.Keys by {
      forall k ensures k in c1.counts <==> k in c2.counts {
        assert Count(c1, k) == Count(c2, k);
      }
    }
    forall k | k in c1.counts ensures c1.counts[k] == c2.counts[k] {
      assert Count(c1, k) == Count(c2, k);
    }
  }

  /** Permuting the rows changes neither whether the run completes nor any
      count; only the order of the keys may change. */
  lemma TalliedPermutation(rows1: seq<Row>, rows2: seq<Row>, start: Date, end: Date)
    requires multiset(rows1) == multiset(rows2)
    ensures Tallied(rows1, start, end).Success? <==> Tallied(rows2, start, end).Success?
    ensures Tallied(rows1, start, end).Success? ==>
      Tallied(rows1, start, end).value.counts == Tallied(rows2, start, end).value.counts
  {
    PermutationOutcome(rows1, rows2, start, end);
    if Tallied(rows1, start, end).Success? {
      var c1, c2 := Tallied(rows1, start, end).value, Tallied(rows2, start, end).value;
      TalliedCounts(rows1, start, end);
      TalliedCounts(rows2, start, end);
      AdmittedKeysPermutation(rows1, rows2, start, end);
      SameCountsSameMap(c1, c2);
    }
  }

  /** Verdicts none of which counts a row count nothing. */
  lemma {:induction false} NoneCounted(vs: seq<Verdict>)
    requires forall i :: 0 <= i < |vs| ==> vs[i] != Success(None) ==> vs[i].Failure?
    ensures Counted(vs) == []
    decreases |vs|
  {
    if vs != [] {
      assert forall i :: 0 <= i < |vs[1..]| ==> vs[1..][i] == vs[i + 1];
      NoneCounted(vs[1..]);
    }
  }

  /** A range whose start is after its end admits no row. */
  lemma InvertedRangeCountsNothing(rows: seq<Row>, start: Date, end: Date)
    requires !Le(start, end)
    ensures AdmittedKeys(rows, start, end) == []
  {
    var vs := Verdicts(rows, start, end);
    forall i | 0 <= i < |vs| ensures vs[i] != Success(None) ==> vs[i].Failure? {
      VerdictAt(rows, start, end, i);
      if HasFields(rows[i]) {
        InvertedRangeAdmitsNothing(rows[i][CreationDate], start, end);
      }
    }
    NoneCounted(vs);
  }

  /** With no rows, or with an inverted range, a completed run leaves the
      Counter empty. */
  lemma NothingCounted(rows: seq<Row>, start: Date, end: Date)
    requires rows == [] || !Le(start, end)
    requires Tallied(rows, start, end).Success?
    ensures Tallied(rows, start, end).value == Empty
  {
    if rows != [] {
      InvertedRangeCountsNothing(rows, start, end);
    }
    var c := Tallied(rows, start, end).value;
    TalliedCounts(rows, start, end);
    TalliedOrder(rows, start, end);
    assert c.order == [];
    assert c.counts.Keys == {} by {
      forall k ensures k !in c.counts {
        assert k !in c.order;
      }
    }
  }
}
