/**
 * Corpus assembly, src/dataIngestion.py: tag each source's rows with its
 * label, concatenate true-then-fake, parse the dates and drop the rows whose
 * date does not parse, encode the labels as 0/1, and split 80/20 into train
 * and test.
 *
 * The date parser (pandas' mixed-format, day-first `to_datetime`) is a
 * parameter, and so is the shuffle that `train_test_split` draws from its
 * seeded random generator: the split is proved for every permutation.
 */
module Ingestion {
  import opened Wrappers

  /** The `date` column: text as read from the CSV, a parsed timestamp, or NaT. */
  datatype DateCell = Raw(text: string) | Parsed(stamp: int) | NaT

  /** The `label` column: absent, a source tag ("fake"/"true") or its 0/1 code. */
  datatype LabelCell = NoLabel | Tag(name: string) | Code(value: int)

  /** The tags the script gives the rows of the two sources. */
  const FakeTag: LabelCell := Tag("fake")
  const TrueTag: LabelCell := Tag("true")

  /** One article. */
  datatype Row = Row(title: string, text: string, subject: string, date: DateCell, verdict: LabelCell)

  // ---------------------------------------------------------------------
  // Column operations
  // ---------------------------------------------------------------------

  /** `to_datetime(..., errors='coerce')` on one cell: unparseable text becomes NaT. */
  function ParseDate(parse: string -> Option<int>, d: DateCell): DateCell {
    match d
    case Raw(t) => if parse(t).Some? then Parsed(parse(t).value) else NaT
    case _ => d
  }

  /** Whether a cell holds a date after parsing. */
  predicate DateParses(parse: string -> Option<int>, d: DateCell) {
    match d
    case Raw(t) => parse(t).Some?
    case Parsed(_) => true
    case NaT => false
  }

  /** `replace({"fake": 0, "true": 1})` on one cell: other values are left alone. */
  function EncodeLabel(l: LabelCell): LabelCell {
    if l == FakeTag then Code(0)
    else if l == TrueTag then Code(1)
    else l
  }

  /** `df["label"] = tag` on a whole table. */
  function Tagged(rows: seq<Row>, tag: LabelCell): seq<Row> {
    seq(|rows|, i requires 0 <= i < |rows| => rows[i].(verdict := tag))
  }

  /** The date column parsed, the other columns as they were. */
  function ParseAll(parse: string -> Option<int>, rows: seq<Row>): seq<Row> {
    seq(|rows|, i requires 0 <= i < |rows| => rows[i].(date := ParseDate(parse, rows[i].date)))
  }

  /** The label column encoded, the other columns as they were. */
  function EncodeAll(rows: seq<Row>): seq<Row> {
    seq(|rows|, i requires 0 <= i < |rows| => rows[i].(verdict := EncodeLabel(rows[i].verdict)))
  }

  /** `dropna(subset=['date'])`: keep the rows whose date is not NaT, in order. */
  function DropNaT(rows: seq<Row>): seq<Row> {
    if rows == [] then []
    else (if rows[0].date.NaT? then [] else [rows[0]]) + DropNaT(rows[1..])
  }

  /** Number of rows carrying label l. */
  function LabelCount(rows: seq<Row>, l: LabelCell): nat {
    if rows == [] then 0 else (if rows[0].verdict == l then 1 else 0) + LabelCount(rows[1..], l)
  }

  /** Number of rows whose date parses. */
  function ParsingCount(parse: string -> Option<int>, rows: seq<Row>): nat {
    if rows == [] then 0 else (if DateParses(parse, rows[0].date) then 1 else 0) + ParsingCount(parse, rows[1..])
  }

  /**
   * A table, its rows in order. The script's steps that change a table in
   * place (adding the label column, overwriting the date and label columns)
   * are its methods.
   */
  class Table {
    var rows: seq<Row>

    constructor (rows: seq<Row>)
      ensures this.rows == rows
    {
      this.rows := rows;
    }

    /** `df["label"] = tag`: every row gets the tag, nothing else changes. */
    method SetLabel(tag: LabelCell)
      modifies this
      ensures |rows| == |old(rows)|
      ensures rows == Tagged(old(rows), tag)
    {
      for i := 0 to |rows|
        invariant |rows| == |old(rows)|
        invariant forall k :: 0 <= k < i ==> rows[k] == old(rows)[k].(verdict := tag)
        invariant forall k :: i <= k < |rows| ==> rows[k] == old(rows)[k]
      {
        rows := rows[i := rows[i].(verdict := tag)];
      }
    }

    /** `df["date"] = pd.to_datetime(df["date"], errors='coerce', ...)`. */
    method ParseDates(parse: string -> Option<int>)
      modifies this
      ensures |rows| == |old(rows)|
      ensures rows == ParseAll(parse, old(rows))
    {
      for i := 0 to |rows|
        invariant |rows| == |old(rows)|
        invariant forall k :: 0 <= k < i ==> rows[k] == old(rows)[k].(date := ParseDate(parse, old(rows)[k].date))
        invariant forall k :: i <= k < |rows| ==> rows[k] == old(rows)[k]
      {
        rows := rows[i := rows[i].(date := ParseDate(parse, rows[i].date))];
      }
    }

    /** `df["label"].replace({"fake": 0, "true": 1}, inplace=True)`. */
    method EncodeLabels()
      modifies this
      ensures |rows| == |old(rows)|
      ensures rows == EncodeAll(old(rows))
    {
      for i := 0 to |rows|
        invariant |rows| == |old(rows)|
        invariant forall k :: 0 <= k < i ==> rows[k] == old(rows)[k].(verdict := EncodeLabel(old(rows)[k].verdict))
        invariant forall k :: i <= k < |rows| ==> rows[k] == old(rows)[k]
      {
        rows := rows[i := rows[i].(verdict := EncodeLabel(rows[i].verdict))];
      }
    }
  }

  // ---------------------------------------------------------------------
  // Properties of the date filter and the label encoding
  // ---------------------------------------------------------------------

  /** The filter distributes over concatenation: it keeps the relative order of rows. */
  lemma {:induction false} DropNaTAppend(a: seq<Row>, b: seq<Row>)
    ensures DropNaT(a + b) == DropNaT(a) + DropNaT(b)
  {
    if a == [] {
      assert a + b == b;
    } else {
      assert (a + b)[1..] == a[1..] + b;
      DropNaTAppend(a[1..], b);
    }
  }

  /**
   * The filter drops exactly the NaT rows: no row left has a NaT date, and
   * every other row is kept as often as it occurs.
   */
  lemma {:induction false} DropNaTKeeps(rows: seq<Row>)
    ensures forall r :: r in DropNaT(rows) ==> !r.date.NaT?
    ensures forall r :: multiset(DropNaT(rows))[r] == if r.date.NaT? then 0 else multiset(rows)[r]
  {
    if rows != [] {
      DropNaTKeeps(rows[1..]);
      assert rows == [rows[0]] + rows[1..];
      assert multiset(rows) == multiset{rows[0]} + multiset(rows[1..]);
    }
  }

  lemma {:induction false} LabelCountAppend(a: seq<Row>, b: seq<Row>, l: LabelCell)
    ensures LabelCount(a + b, l) == LabelCount(a, l) + LabelCount(b, l)
  {
    if a == [] {
      assert a + b == b;
    } else {
      assert (a + b)[1..] == a[1..] + b;
      LabelCountAppend(a[1..], b, l);
    }
  }

  /** A position of x in b. */
  lemma Find<T>(b: seq<T>, x: T) returns (k: nat)
    requires x in multiset(b)
    ensures k < |b| && b[k] == x
  {
    assert x in b;
    k :| 0 <= k < |b| && b[k] == x;
  }

  /** The rows without position k: one row fewer, and one fewer of its label. */
  lemma RemoveRow(s: seq<Row>, k: nat, l: LabelCell) returns (s': seq<Row>)
    requires k < |s|
    ensures |s'| == |s| - 1
    ensures multiset(s') == multiset(s) - multiset{s[k]}
    ensures LabelCount(s, l) == LabelCount(s', l) + if s[k].verdict == l then 1 else 0
  {
    s' := s[..k] + s[k + 1..];
    assert s == (s[..k] + [s[k]]) + s[k + 1..];
    LabelCountAppend(s[..k] + [s[k]], s[k + 1..], l);
    LabelCountAppend(s[..k], [s[k]], l);
    LabelCountAppend(s[..k], s[k + 1..], l);
    assert [s[k]][1..] == [];
  }

  /** Rows with the same multiset of values have the same number of rows per label. */
  lemma {:induction false} LabelCountMultiset(a: seq<Row>, b: seq<Row>, l: LabelCell)
    requires multiset(a) == multiset(b)
    ensures LabelCount(a, l) == LabelCount(b, l)
    decreases |a|
  {
    if a == [] {
      assert b == [] by {
        assert |b| == |multiset(b)|;
      }
    } else {
      var k := Find(b, a[0]);
      var a' := RemoveRow(a, 0, l);
      var b' := RemoveRow(b, k, l);
      LabelCountMultiset(a', b', l);
    }
  }

  /**
   * Encoding moves the "fake" rows to code 0 and the "true" rows to code 1
   * and changes no count otherwise.
   */
  lemma {:induction false} EncodingCounts(before: seq<Row>, after: seq<Row>)
    requires |after| == |before|
    requires forall i :: 0 <= i < |before| ==> after[i] == before[i].(verdict := EncodeLabel(before[i].verdict))
    ensures LabelCount(after, Code(0)) == LabelCount(before, FakeTag) + LabelCount(before, Code(0))
    ensures LabelCount(after, Code(1)) == LabelCount(before, TrueTag) + LabelCount(before, Code(1))
    ensures forall l :: l != FakeTag && l != TrueTag && l != Code(0) && l != Code(1) ==>
      LabelCount(after, l) == LabelCount(before, l)
  {
    if before != [] {
      EncodingCounts(before[1..], after[1..]);
    }
  }

  /**
   * One source's rows after tagging, parsing and filtering: exactly the rows
   * whose date parses survive, each with a parsed date and the source's tag.
   */
  lemma {:induction false} SourceSurvivors(parse: string -> Option<int>, raw: seq<Row>, tagged: seq<Row>, tag: LabelCell)
    requires |tagged| == |raw|
    requires forall i :: 0 <= i < |raw| ==> tagged[i] == raw[i].(verdict := tag, date := ParseDate(parse, raw[i].date))
    ensures |DropNaT(tagged)| == ParsingCount(parse, raw)
    ensures forall r :: r in DropNaT(tagged) ==> r.date.Parsed? && r.verdict == tag
    ensures LabelCount(DropNaT(tagged), tag) == |DropNaT(tagged)|
    ensures forall l :: l != tag ==> LabelCount(DropNaT(tagged), l) == 0
  {
    if raw != [] {
      SourceSurvivors(parse, raw[1..], tagged[1..], tag);
      var kept, rest := DropNaT(tagged), DropNaT(tagged[1..]);
      if tagged[0].date.NaT? {
        assert kept == rest;
      } else {
        assert kept == [tagged[0]] + rest;
        assert kept[0] == tagged[0] && kept[1..] == rest;
      }
    }
  }

  // ---------------------------------------------------------------------
  // The split: `train_test_split(df, stratify=df["label"], test_size=0.2)`
  // ---------------------------------------------------------------------

  /** ceil(0.2 n), the number of test rows for `test_size=0.2`. */
  function TestCount(n: nat): (k: nat)
    ensures 5 * k >= n
    ensures 5 * (k - 1) < n
  {
    (n + 4) / 5
  }

  /** The distinct label values of a table (the classes of `stratify`). */
  function Classes(rows: seq<Row>): set<LabelCell> {
    set r | r in rows :: r.verdict
  }

  /** The ValueErrors of `train_test_split` with a stratified float test size. */
  datatype SplitError =
    | EmptyTrainSet          // n - ceil(0.2 n) == 0, that is at most one row
    | SingletonClass         // the least populated class has one member
    | TrainSmallerThanClasses
    | TestSmallerThanClasses

  /** The error the split raises, if any, in the order scikit-learn checks. */
  function SplitFailure(rows: seq<Row>): Option<SplitError> {
    var nTest := TestCount(|rows|);
    var nTrain := |rows| - nTest;
    if nTrain == 0 then Some(EmptyTrainSet)
    else if exists l :: l in Classes(rows) && LabelCount(rows, l) < 2 then Some(SingletonClass)
    else if nTrain < |Classes(rows)| then Some(TrainSmallerThanClasses)
    else if nTest < |Classes(rows)| then Some(TestSmallerThanClasses)
    else None
  }

  /** 0, 1, ..., n-1. */
  function Indices(n: nat): (s: seq<nat>)
    ensures |s| == n
    ensures forall i :: 0 <= i < n ==> s[i] == i
  {
    seq(n, i requires 0 <= i < n => i)
  }

  /** A shuffle of the row positions 0..n-1. */
  predicate IsPermutation(perm: seq<nat>, n: nat) {
    multiset(perm) == multiset(Indices(n))
  }

  /** Every position of idx is a row position of a table of n rows. */
  predicate InRange(idx: seq<nat>, n: nat) {
    forall k :: 0 <= k < |idx| ==> idx[k] < n
  }

  /** The rows at the given positions, in that order (`df.iloc[idx]`). */
  function Pick(rows: seq<Row>, idx: seq<nat>): seq<Row>
    requires InRange(idx, |rows|)
  {
    seq(|idx|, k requires 0 <= k < |idx| => rows[idx[k]])
  }

  /** The two tables of the split, with the original positions of their rows. */
  datatype Partition = Partition(train: seq<Row>, test: seq<Row>, trainIndex: seq<nat>, testIndex: seq<nat>)

  /**
   * The split for a given shuffle perm: the first n - ceil(0.2 n) positions
   * of perm are train, the rest test. Stratification constrains which
   * shuffles scikit-learn draws; the facts proved below hold for all of them.
   */
  function Split(rows: seq<Row>, perm: seq<nat>): Result<Partition, SplitError>
    requires IsPermutation(perm, |rows|)
  {
    if SplitFailure(rows).Some? then Failure(SplitFailure(rows).value)
    else
      var nTrain := |rows| - TestCount(|rows|);
      PermutationBounds(perm, |rows|);
      Success(Partition(Pick(rows, perm[..nTrain]), Pick(rows, perm[nTrain..]), perm[..nTrain], perm[nTrain..]))
  }

  lemma {:induction false} IndicesCount(n: nat, i: int)
    ensures multiset(Indices(n))[i] == if 0 <= i < n then 1 else 0
  {
    if n > 0 {
      assert Indices(n) == Indices(n - 1) + [n - 1];
      IndicesCount(n - 1, i);
    } else {
      assert Indices(n) == [];
    }
  }

  lemma PermutationBounds(perm: seq<nat>, n: nat)
    requires IsPermutation(perm, n)
    ensures |perm| == n
    ensures InRange(perm, n)
  {
    assert |perm| == |multiset(perm)| == |multiset(Indices(n))| == n;
    forall k | 0 <= k < |perm|
      ensures perm[k] < n
    {
      assert perm[k] in multiset(perm);
      IndicesCount(n, perm[k]);
    }
  }

  lemma PickAppend(rows: seq<Row>, a: seq<nat>, b: seq<nat>)
    requires InRange(a, |rows|) && InRange(b, |rows|)
    ensures InRange(a + b, |rows|)
    ensures Pick(rows, a + b) == Pick(rows, a) + Pick(rows, b)
  {
  }

  /** The position list without its k-th entry: one fewer of that entry's row. */
  lemma RemovePosition(rows: seq<Row>, q: seq<nat>, k: nat) returns (q': seq<nat>)
    requires InRange(q, |rows|)
    requires k < |q|
    ensures |q'| == |q| - 1
    ensures multiset(q') == multiset(q) - multiset{q[k]}
    ensures InRange(q', |rows|)
    ensures multiset(Pick(rows, q)) == multiset(Pick(rows, q')) + multiset{rows[q[k]]}
  {
    var front, back := q[..k], q[k + 1..];
    assert q == front + [q[k]] + back;
    q' := front + back;
    PickWithout(rows, front, q[k], back);
  }

  lemma PickWithout(rows: seq<Row>, front: seq<nat>, x: nat, back: seq<nat>)
    requires InRange(front, |rows|) && InRange(back, |rows|) && x < |rows|
    ensures InRange(front + back, |rows|) && InRange(front + [x] + back, |rows|)
    ensures multiset(front + [x] + back) == multiset(front + back) + multiset{x}
    ensures multiset(Pick(rows, front + [x] + back)) == multiset(Pick(rows, front + back)) + multiset{rows[x]}
  {
    PickAppend(rows, front, [x]);
    PickAppend(rows, front + [x], back);
    PickAppend(rows, front, back);
  }

  /** Picking by two position lists with the same multiset gives the same multiset of rows. */
  lemma {:induction false} PickMultiset(rows: seq<Row>, p: seq<nat>, q: seq<nat>)
    requires InRange(p, |rows|) && InRange(q, |rows|)
    requires multiset(p) == multiset(q)
    ensures multiset(Pick(rows, p)) == multiset(Pick(rows, q))
    decreases |p|
  {
    if p == [] {
      assert q == [] by {
        assert |q| == |multiset(q)|;
      }
    } else {
      var k := Find(q, p[0]);
      var p' := RemovePosition(rows, p, 0);
      var q' := RemovePosition(rows, q, k);
      PickMultiset(rows, p', q');
    }
  }

  /** Train and test together hold every row exactly once. */
  lemma SplitConserves(rows: seq<Row>, perm: seq<nat>)
    requires IsPermutation(perm, |rows|)
    requires Split(rows, perm).Success?
    ensures multiset(Split(rows, perm).value.train) + multiset(Split(rows, perm).value.test) == multiset(rows)
  {
    var p := Split(rows, perm).value;
    PermutationBounds(perm, |rows|);
    var nTrain := |rows| - TestCount(|rows|);
    assert perm == p.trainIndex + p.testIndex;
    PickAppend(rows, p.trainIndex, p.testIndex);
    PickMultiset(rows, perm, Indices(|rows|));
    assert Pick(rows, Indices(|rows|)) == rows;
  }

  /**
   * A table labelled only 0 and 1, with at least two rows of each, splits
   * exactly when it has at least 6 rows; with 4 or 5 rows the single test
   * row cannot hold both classes.
   */
  lemma TwoClassSplit(rows: seq<Row>, perm: seq<nat>)
    requires IsPermutation(perm, |rows|)
    requires forall r :: r in rows ==> r.verdict == Code(0) || r.verdict == Code(1)
    requires LabelCount(rows, Code(0)) >= 2 && LabelCount(rows, Code(1)) >= 2
    ensures Split(rows, perm).Success? <==> |rows| >= 6
    ensures Split(rows, perm).Failure? ==> Split(rows, perm).error == TestSmallerThanClasses
  {
    LabelCountPair(rows, Code(0), Code(1));
    var n, k := |rows|, TestCount(|rows|);
    assert n >= 6 ==> k >= 2 && n - k >= 2;
    assert n < 6 ==> k == 1;
    TwoClasses(rows);
    assert !exists l :: l in Classes(rows) && LabelCount(rows, l) < 2;
  }

  /** A table labelled only 0 and 1, with rows of both, has exactly two classes. */
  lemma TwoClasses(rows: seq<Row>)
    requires forall r :: r in rows ==> r.verdict == Code(0) || r.verdict == Code(1)
    requires LabelCount(rows, Code(0)) > 0 && LabelCount(rows, Code(1)) > 0
    ensures Classes(rows) == {Code(0), Code(1)}
    ensures |Classes(rows)| == 2
  {
    LabelCountPositive(rows, Code(0));
    LabelCountPositive(rows, Code(1));
    var r0 :| r0 in rows && r0.verdict == Code(0);
    var r1 :| r1 in rows && r1.verdict == Code(1);
    assert Code(0) in Classes(rows) && Code(1) in Classes(rows);
    assert Classes(rows) == {Code(0), Code(1)};
  }

  /** A label with a positive count is carried by some row. */
  lemma {:induction false} LabelCountPositive(rows: seq<Row>, l: LabelCell)
    requires LabelCount(rows, l) > 0
    ensures exists r :: r in rows && r.verdict == l
  {
    if rows[0].verdict != l {
      LabelCountPositive(rows[1..], l);
      var r :| r in rows[1..] && r.verdict == l;
      assert r in rows;
    }
  }

  /** Two different labels together count at most every row. */
  lemma {:induction false} LabelCountPair(rows: seq<Row>, a: LabelCell, b: LabelCell)
    requires a != b
    ensures LabelCount(rows, a) + LabelCount(rows, b) <= |rows|
  {
    if rows != [] {
      LabelCountPair(rows[1..], a, b);
    }
  }

  /**
   * Test gets ceil(0.2 n) rows and train the rest, each row being the row at
   * its recorded position.
   */
  lemma SplitSizes(rows: seq<Row>, perm: seq<nat>)
    requires IsPermutation(perm, |rows|)
    requires Split(rows, perm).Success?
    ensures var p := Split(rows, perm).value;
      && |p.test| == |p.testIndex| == TestCount(|rows|)
      && |p.train| == |p.trainIndex| == |rows| - TestCount(|rows|)
      && InRange(p.trainIndex, |rows|) && InRange(p.testIndex, |rows|)
      && p.train == Pick(rows, p.trainIndex) && p.test == Pick(rows, p.testIndex)
  {
    PermutationBounds(perm, |rows|);
  }

  /** The train and test positions are disjoint and cover 0..n-1, each exactly once. */
  lemma SplitIndicesPartition(rows: seq<Row>, perm: seq<nat>)
    requires IsPermutation(perm, |rows|)
    requires Split(rows, perm).Success?
    ensures var p := Split(rows, perm).value;
      forall i :: multiset(p.trainIndex)[i] + multiset(p.testIndex)[i] == if 0 <= i < |rows| then 1 else 0
  {
    var p := Split(rows, perm).value;
    var nTrain := |rows| - TestCount(|rows|);
    PermutationBounds(perm, |rows|);
    assert p.trainIndex == perm[..nTrain] && p.testIndex == perm[nTrain..];
    assert perm == p.trainIndex + p.testIndex;
    forall i
      ensures multiset(p.trainIndex)[i] + multiset(p.testIndex)[i] == if 0 <= i < |rows| then 1 else 0
    {
      IndicesCount(|rows|, i);
    }
  }

  /** Per label, the train count plus the test count is the table's count. */
  lemma SplitLabelCounts(rows: seq<Row>, perm: seq<nat>, l: LabelCell)
    requires IsPermutation(perm, |rows|)
    requires Split(rows, perm).Success?
    ensures LabelCount(Split(rows, perm).value.train, l) + LabelCount(Split(rows, perm).value.test, l) == LabelCount(rows, l)
  {
    var p := Split(rows, perm).value;
    SplitConserves(rows, perm);
    LabelCountAppend(p.train, p.test, l);
    LabelCountMultiset(p.train + p.test, rows, l);
  }

  // ---------------------------------------------------------------------
  // The script
  // ---------------------------------------------------------------------

  /**
   * The whole of src/dataIngestion.py between reading and writing the CSVs.
   * `shuffle(n)` stands for the permutation of n rows that the seeded random
   * generator yields. Returns the filtered, encoded table and its split.
   */
  method Ingest(fakeRows: seq<Row>, trueRows: seq<Row>, parse: string -> Option<int>, shuffle: nat -> seq<nat>)
    returns (df: seq<Row>, r: Result<Partition, SplitError>)
    requires forall n: nat :: IsPermutation(shuffle(n), n)
    ensures |df| == ParsingCount(parse, trueRows) + ParsingCount(parse, fakeRows)
    ensures LabelCount(df, Code(1)) == ParsingCount(parse, trueRows)
    ensures LabelCount(df, Code(0)) == ParsingCount(parse, fakeRows)
    ensures forall x :: x in df ==> x.date.Parsed? && (x.verdict == Code(0) || x.verdict == Code(1))
    ensures forall i :: 0 <= i < |df| ==> df[i].verdict == if i < ParsingCount(parse, trueRows) then Code(1) else Code(0)
    ensures df == EncodeAll(DropNaT(ParseAll(parse, Tagged(trueRows, TrueTag) + Tagged(fakeRows, FakeTag))))
    ensures df == EncodeAll(DropNaT(ParseAll(parse, Tagged(trueRows, TrueTag))))
               + EncodeAll(DropNaT(ParseAll(parse, Tagged(fakeRows, FakeTag))))
    ensures r == Split(df, shuffle(|df|))
  {
    var fake := new Table(fakeRows);
    fake.SetLabel(FakeTag);
    var truth := new Table(trueRows);
    truth.SetLabel(TrueTag);
    var combined := new Table(truth.rows + fake.rows);
    combined.ParseDates(parse);
    var filtered := new Table(DropNaT(combined.rows));
    filtered.EncodeLabels();
    df := filtered.rows;
    IngestedTable(parse, trueRows, fakeRows, df);
    r := Split(df, shuffle(|df|));
  }

  /** The table the script's steps before the split make of the two sources. */
  lemma IngestedTable(parse: string -> Option<int>, trueRows: seq<Row>, fakeRows: seq<Row>, df: seq<Row>)
    requires df == EncodeAll(DropNaT(ParseAll(parse, Tagged(trueRows, TrueTag) + Tagged(fakeRows, FakeTag))))
    ensures |df| == ParsingCount(parse, trueRows) + ParsingCount(parse, fakeRows)
    ensures LabelCount(df, Code(1)) == ParsingCount(parse, trueRows)
    ensures LabelCount(df, Code(0)) == ParsingCount(parse, fakeRows)
    ensures forall x :: x in df ==> x.date.Parsed? && (x.verdict == Code(0) || x.verdict == Code(1))
    ensures forall i :: 0 <= i < |df| ==> df[i].verdict == if i < ParsingCount(parse, trueRows) then Code(1) else Code(0)
    ensures df == EncodeAll(DropNaT(ParseAll(parse, Tagged(trueRows, TrueTag))))
               + EncodeAll(DropNaT(ParseAll(parse, Tagged(fakeRows, FakeTag))))
  {
    var parsed := ParseAll(parse, Tagged(trueRows, TrueTag) + Tagged(fakeRows, FakeTag));
    ParsedSources(parse, trueRows, fakeRows);
    IngestedRows(parse, trueRows, fakeRows, parsed, df);
    IngestedOrder(parse, trueRows, fakeRows, parsed, df);
    SourceOrder(parse, Tagged(trueRows, TrueTag), Tagged(fakeRows, FakeTag));
  }

  /** The tagged, concatenated and parsed table, row by row: the true rows, then the fake rows. */
  lemma ParsedSources(parse: string -> Option<int>, trueRows: seq<Row>, fakeRows: seq<Row>)
    ensures |ParseAll(parse, Tagged(trueRows, TrueTag) + Tagged(fakeRows, FakeTag))| == |trueRows| + |fakeRows|
    ensures forall i :: 0 <= i < |trueRows| ==>
      ParseAll(parse, Tagged(trueRows, TrueTag) + Tagged(fakeRows, FakeTag))[i]
        == trueRows[i].(verdict := TrueTag, date := ParseDate(parse, trueRows[i].date))
    ensures forall i :: 0 <= i < |fakeRows| ==>
      ParseAll(parse, Tagged(trueRows, TrueTag) + Tagged(fakeRows, FakeTag))[|trueRows| + i]
        == fakeRows[i].(verdict := FakeTag, date := ParseDate(parse, fakeRows[i].date))
  {
    var combined := Tagged(trueRows, TrueTag) + Tagged(fakeRows, FakeTag);
    forall i | 0 <= i < |fakeRows| ensures combined[|trueRows| + i] == fakeRows[i].(verdict := FakeTag) {
      assert combined[|trueRows| + i] == Tagged(fakeRows, FakeTag)[i];
    }
  }

  /** What the script's steps before the split make of the two sources. */
  lemma IngestedRows(parse: string -> Option<int>, trueRows: seq<Row>, fakeRows: seq<Row>, parsed: seq<Row>, df: seq<Row>)
    requires |parsed| == |trueRows| + |fakeRows|
    requires forall i :: 0 <= i < |trueRows| ==>
      parsed[i] == trueRows[i].(verdict := TrueTag, date := ParseDate(parse, trueRows[i].date))
    requires forall i :: 0 <= i < |fakeRows| ==>
      parsed[|trueRows| + i] == fakeRows[i].(verdict := FakeTag, date := ParseDate(parse, fakeRows[i].date))
    requires |df| == |DropNaT(parsed)|
    requires forall i :: 0 <= i < |df| ==> df[i] == DropNaT(parsed)[i].(verdict := EncodeLabel(DropNaT(parsed)[i].verdict))
    ensures |df| == ParsingCount(parse, trueRows) + ParsingCount(parse, fakeRows)
    ensures LabelCount(df, Code(1)) == ParsingCount(parse, trueRows)
    ensures LabelCount(df, Code(0)) == ParsingCount(parse, fakeRows)
    ensures forall x :: x in df ==> x.date.Parsed? && (x.verdict == Code(0) || x.verdict == Code(1))
  {
    CombinedSurvivors(parse, trueRows, fakeRows, parsed);
    EncodingCounts(DropNaT(parsed), df);
    EncodingBinary(DropNaT(parsed), df);
  }

  /**
   * The tagged, concatenated and parsed table, once filtered: the rows of
   * each source whose date parses, with parsed dates and their source's tag.
   */
  lemma CombinedSurvivors(parse: string -> Option<int>, trueRows: seq<Row>, fakeRows: seq<Row>, parsed: seq<Row>)
    requires |parsed| == |trueRows| + |fakeRows|
    requires forall i :: 0 <= i < |trueRows| ==>
      parsed[i] == trueRows[i].(verdict := TrueTag, date := ParseDate(parse, trueRows[i].date))
    requires forall i :: 0 <= i < |fakeRows| ==>
      parsed[|trueRows| + i] == fakeRows[i].(verdict := FakeTag, date := ParseDate(parse, fakeRows[i].date))
    ensures |DropNaT(parsed)| == ParsingCount(parse, trueRows) + ParsingCount(parse, fakeRows)
    ensures LabelCount(DropNaT(parsed), TrueTag) == ParsingCount(parse, trueRows)
    ensures LabelCount(DropNaT(parsed), FakeTag) == ParsingCount(parse, fakeRows)
    ensures LabelCount(DropNaT(parsed), Code(0)) == 0 && LabelCount(DropNaT(parsed), Code(1)) == 0
    ensures forall x :: x in DropNaT(parsed) ==> x.date.Parsed? && (x.verdict == TrueTag || x.verdict == FakeTag)
  {
    assert TrueTag != FakeTag by {
      assert TrueTag.name[0] != FakeTag.name[0];
    }
    var front, back := SplitAt(parsed, |trueRows|);
    DropNaTAppend(front, back);
    SourceSurvivors(parse, trueRows, front, TrueTag);
    SourceSurvivors(parse, fakeRows, back, FakeTag);
    var keptTrue, keptFake := DropNaT(front), DropNaT(back);
    LabelCountAppend(keptTrue, keptFake, TrueTag);
    LabelCountAppend(keptTrue, keptFake, FakeTag);
    LabelCountAppend(keptTrue, keptFake, Code(0));
    LabelCountAppend(keptTrue, keptFake, Code(1));
  }

  /** The surviving true rows come first, then the surviving fake rows. */
  lemma IngestedOrder(parse: string -> Option<int>, trueRows: seq<Row>, fakeRows: seq<Row>, parsed: seq<Row>, df: seq<Row>)
    requires |parsed| == |trueRows| + |fakeRows|
    requires forall i :: 0 <= i < |trueRows| ==>
      parsed[i] == trueRows[i].(verdict := TrueTag, date := ParseDate(parse, trueRows[i].date))
    requires forall i :: 0 <= i < |fakeRows| ==>
      parsed[|trueRows| + i] == fakeRows[i].(verdict := FakeTag, date := ParseDate(parse, fakeRows[i].date))
    requires |df| == |DropNaT(parsed)|
    requires forall i :: 0 <= i < |df| ==> df[i] == DropNaT(parsed)[i].(verdict := EncodeLabel(DropNaT(parsed)[i].verdict))
    ensures forall i :: 0 <= i < |df| ==> df[i].verdict == if i < ParsingCount(parse, trueRows) then Code(1) else Code(0)
  {
    assert TrueTag != FakeTag by {
      assert TrueTag.name[0] != FakeTag.name[0];
    }
    var front, back := SplitAt(parsed, |trueRows|);
    DropNaTAppend(front, back);
    SourceSurvivors(parse, trueRows, front, TrueTag);
    SourceSurvivors(parse, fakeRows, back, FakeTag);
    var keptTrue, keptFake := DropNaT(front), DropNaT(back);
    forall i | 0 <= i < |df|
      ensures df[i].verdict == if i < ParsingCount(parse, trueRows) then Code(1) else Code(0)
    {
      if i < |keptTrue| {
        assert DropNaT(parsed)[i] == keptTrue[i];
        assert keptTrue[i] in keptTrue;
      } else {
        assert DropNaT(parsed)[i] == keptFake[i - |keptTrue|];
        assert keptFake[i - |keptTrue|] in keptFake;
      }
    }
  }

  /**
   * Parsing, filtering and encoding the concatenation of two tables gives
   * the result for the first followed by the result for the second.
   */
  lemma SourceOrder(parse: string -> Option<int>, a: seq<Row>, b: seq<Row>)
    ensures EncodeAll(DropNaT(ParseAll(parse, a + b))) == EncodeAll(DropNaT(ParseAll(parse, a))) + EncodeAll(DropNaT(ParseAll(parse, b)))
  {
    assert ParseAll(parse, a + b) == ParseAll(parse, a) + ParseAll(parse, b);
    DropNaTAppend(ParseAll(parse, a), ParseAll(parse, b));
    var x, y := DropNaT(ParseAll(parse, a)), DropNaT(ParseAll(parse, b));
    assert EncodeAll(x + y) == EncodeAll(x) + EncodeAll(y);
  }

  /** A table cut at row m into the rows before and from m. */
  lemma SplitAt(rows: seq<Row>, m: nat) returns (front: seq<Row>, back: seq<Row>)
    requires m <= |rows|
    ensures rows == front + back && |front| == m
    ensures forall i :: 0 <= i < m ==> front[i] == rows[i]
    ensures forall i :: 0 <= i < |rows| - m ==> back[i] == rows[m + i]
  {
    front, back := rows[..m], rows[m..];
  }

  /** After encoding rows tagged "fake" or "true", every label is code 0 or 1 and the dates are untouched. */
  lemma EncodingBinary(before: seq<Row>, after: seq<Row>)
    requires |after| == |before|
    requires forall i :: 0 <= i < |before| ==> after[i] == before[i].(verdict := EncodeLabel(before[i].verdict))
    requires forall x :: x in before ==> x.verdict == TrueTag || x.verdict == FakeTag
    ensures forall x :: x in after ==> x.verdict == Code(0) || x.verdict == Code(1)
    ensures forall i :: 0 <= i < |before| ==> after[i].date == before[i].date
  {
    forall x | x in after
      ensures x.verdict == Code(0) || x.verdict == Code(1)
    {
      var i :| 0 <= i < |after| && after[i] == x;
      assert before[i] in before;
    }
  }
}
