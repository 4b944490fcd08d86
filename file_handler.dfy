/**
 * The file helpers: the sorted list of distinct category names of a set of
 * rows, and the purchase log, a text file that records are appended to one
 * line at a time and read back line by line.
 */
module FileHandler {
  import opened Text
  import opened TicketClasses

  // ---------------------------------------------------------------------------
  // get_unique_categories
  // ---------------------------------------------------------------------------

  /** The values of the "Category" column over the rows that have one. */
  ghost function CategoryValues(rows: seq<Row>): set<string> {
    set i | 0 <= i < |rows| && "Category" in rows[i] :: rows[i]["Category"]
  }

  predicate StrictlySorted(s: seq<string>) {
    forall i, j :: 0 <= i < j < |s| ==> LexLess(s[i], s[j])
  }

  /** A strictly ascending list holds no name twice. */
  lemma StrictlySortedDistinct(s: seq<string>, i: int, j: int)
    requires StrictlySorted(s) && 0 <= i < j < |s|
    ensures s[i] != s[j]
  {
    LexIrreflexive(s[i]);
  }

  /** The smallest of a non-empty set of names, as min() finds it. */
  method MinString(names: set<string>) returns (m: string)
    requires names != {}
    ensures m in names
    ensures forall x :: x in names && x != m ==> LexLess(m, x)
  {
    m :| m in names;
    var todo := names - {m};
    while todo != {}
      invariant todo <= names && m in names && m !in todo
      invariant forall x :: x in names - todo && x != m ==> LexLess(m, x)
      decreases |todo|
    {
      var x :| x in todo;
      if LexLess(x, m) {
        forall y | y in names - todo && y != m
          ensures LexLess(x, y)
        {
          LexTransitive(x, m, y);
        }
        m := x;
      } else {
        LexTotal(m, x);
      }
      todo := todo - {x};
    }
  }

  /** sorted() of a set of names: every name once, in ascending order. */
  method SortNames(names: set<string>) returns (r: seq<string>)
    ensures StrictlySorted(r)
    ensures forall x :: x in r <==> x in names
  {
    r := [];
    var rest := names;
    while rest != {}
      invariant rest <= names
      invariant forall x :: x in names <==> x in rest || x in r
      invariant StrictlySorted(r)
      invariant forall i, y :: 0 <= i < |r| && y in rest ==> LexLess(r[i], y)
      decreases |rest|
    {
      var m := MinString(rest);
      r := r + [m];
      rest := rest - {m};
    }
  }

  /**
   * get_unique_categories(rows): the distinct values of the "Category"
   * column, ascending; rows without that column are passed over.
   */
  method GetUniqueCategories(rows: seq<Row>) returns (names: seq<string>)
    ensures StrictlySorted(names)
    ensures forall n :: n in names <==>
      exists i :: 0 <= i < |rows| && "Category" in rows[i] && rows[i]["Category"] == n
  {
    var seen: set<string> := {};
    for i := 0 to |rows|
      invariant seen == CategoryValues(rows[..i])
    {
      assert rows[..i + 1][..i] == rows[..i];
      if "Category" in rows[i] {
        seen := seen + {rows[i]["Category"]};
      }
    }
    assert rows[..|rows|] == rows;
    names := SortNames(seen);
  }

  // ---------------------------------------------------------------------------
  // The purchase log
  // ---------------------------------------------------------------------------

  /** The characters that end a line when a text file is read with universal newlines. */
  predicate IsBreak(c: char) {
    c == '\n' || c == '\r'
  }

  predicate NoBreak(s: string) {
    forall i :: 0 <= i < |s| ==> !IsBreak(s[i])
  }

  function FirstBreak(t: string): (k: nat)
    ensures k <= |t| && forall i :: 0 <= i < k ==> !IsBreak(t[i])
    ensures k < |t| ==> IsBreak(t[k])
  {
    if t == [] || IsBreak(t[0]) then 0 else 1 + FirstBreak(t[1..])
  }

  /**
   * The lines `for line in file` yields, without their terminators: a line
   * ends at "\n", "\r" or "\r\n", and a last line without a terminator is
   * yielded too.
   */
  function Lines(t: string): seq<string>
    decreases |t|
  {
    if t == [] then []
    else
      var k := FirstBreak(t);
      if k == |t| then [t]
      else
        [t[..k]] + Lines(t[AfterBreak(t, k)..])
  }

  function StripAll(ls: seq<string>): (r: seq<string>)
    ensures |r| == |ls| && forall i :: 0 <= i < |ls| ==> r[i] == Strip(ls[i])
  {
    if ls == [] then [] else [Strip(ls[0])] + StripAll(ls[1..])
  }

  /** The records load_purchases returns for a log holding text: each line, stripped, in file order. */
  function StoredRecords(text: string): seq<string> {
    StripAll(Lines(text))
  }

  /** A text that is empty or ends with "\n" holds only complete lines. */
  predicate Terminated(text: string) {
    text == [] || text[|text| - 1] == '\n'
  }

  /** The position just past the line break at k, taking "\r\n" as one break. */
  function AfterBreak(t: string, k: nat): (n: nat)
    requires k < |t|
    ensures k < n <= |t|
  {
    if t[k] == '\r' && k + 1 < |t| && t[k + 1] == '\n' then k + 2 else k + 1
  }

  lemma LinesUnfold(t: string)
    requires FirstBreak(t) < |t|
    ensures Lines(t) == [t[..FirstBreak(t)]] + Lines(t[AfterBreak(t, FirstBreak(t))..])
  {
  }

  /** Text that already holds a break has the same first line and break whatever follows it. */
  lemma FirstBreakOfAppend(a: string, b: string)
    requires FirstBreak(a) < |a|
    ensures FirstBreak(a + b) == FirstBreak(a)
    ensures AfterBreak(a + b, FirstBreak(a)) == AfterBreak(a, FirstBreak(a)) || (a[FirstBreak(a)] == '\r' && FirstBreak(a) == |a| - 1)
  {
    var k := FirstBreak(a);
    assert forall i :: 0 <= i <= k ==> (a + b)[i] == a[i];
  }

  lemma TerminatedSuffix(a: string, n: nat)
    requires Terminated(a) && n <= |a|
    ensures Terminated(a[n..])
  {
    if n < |a| {
      assert a[n..][|a| - n - 1] == a[|a| - 1];
    }
  }

  /** The first line of complete lines followed by more text is the first line of the complete part. */
  lemma LinesAppendStep(a: string, b: string)
    requires Terminated(a) && a != []
    ensures FirstBreak(a) < |a|
    ensures Lines(a + b) == [a[..FirstBreak(a)]] + Lines(a[AfterBreak(a, FirstBreak(a))..] + b)
    ensures Lines(a) == [a[..FirstBreak(a)]] + Lines(a[AfterBreak(a, FirstBreak(a))..])
    ensures Terminated(a[AfterBreak(a, FirstBreak(a))..])
  {
    var k := FirstBreak(a);
    assert k < |a|;
    FirstBreakOfAppend(a, b);
    var next := AfterBreak(a, k);
    assert a == a[..next] + a[next..];
    assert a + b == a[..next] + (a[next..] + b);
    assert (a + b)[next..] == a[next..] + b;
    assert (a + b)[..k] == a[..k];
    assert AfterBreak(a + b, k) == next;
    LinesUnfold(a);
    LinesUnfold(a + b);
    TerminatedSuffix(a, next);
  }

  /** Lines of complete lines followed by more text: the lines of each part, one after the other. */
  lemma {:induction false} LinesAppend(a: string, b: string)
    requires Terminated(a)
    ensures Lines(a + b) == Lines(a) + Lines(b)
    decreases |a|
  {
    if a == [] {
      assert a + b == b;
    } else {
      LinesAppendStep(a, b);
      var rest := a[AfterBreak(a, FirstBreak(a))..];
      LinesAppend(rest, b);
      ConsAssociates(a[..FirstBreak(a)], Lines(rest), Lines(b));
    }
  }

  lemma ConsAssociates(x: string, l1: seq<string>, l2: seq<string>)
    ensures [x] + (l1 + l2) == ([x] + l1) + l2
  {
  }

  class Ledger {
    /** The contents of the purchase log; "" also stands for a log that does not exist yet. */
    var text: string

    constructor ()
      ensures text == ""
    {
      text := "";
    }

    /**
     * save_purchase(record): appends the record and a newline after what is
     * there and reports True; when the write fails (`writeFails`, standing
     * for the operating system's answer) it reports False and the log is as
     * it was.
     */
    method SavePurchase(record: string, writeFails: bool) returns (ok: bool)
      modifies this
      ensures ok == !writeFails
      ensures text == if ok then old(text) + record + "\n" else old(text)
    {
      if writeFails {
        ok := false;
      } else {
        text := text + record + "\n";
        ok := true;
      }
    }

    /** load_purchases(): every line of the log, stripped, in file order; an empty or missing log gives []. */
    method LoadPurchases() returns (records: seq<string>)
      ensures records == StoredRecords(text)
    {
      var lines := Lines(text);
      records := [];
      for i := 0 to |lines|
        invariant |records| == i
        invariant forall j :: 0 <= j < i ==> records[j] == Strip(lines[j])
      {
        records := records + [Strip(lines[i])];
      }
    }
  }

  /** A record without a line break, then "\n", is one line. */
  lemma OneLine(record: string)
    requires NoBreak(record)
    ensures Lines(record + "\n") == [record]
  {
    var line := record + "\n";
    assert forall i :: 0 <= i < |record| ==> line[i] == record[i];
    assert line[|record|] == '\n';
    assert FirstBreak(line) == |record|;
    assert AfterBreak(line, |record|) == |record| + 1;
    assert line[..|record|] == record;
    assert line[|record| + 1..] == [];
  }

  /**
   * Saving a record that holds no line break to a log written by
   * save_purchase, then loading, gives the earlier records followed by the
   * new one, stripped.
   */
  lemma SaveThenLoad(text: string, record: string)
    requires Terminated(text) && NoBreak(record)
    ensures Terminated(text + record + "\n")
    ensures StoredRecords(text + record + "\n") == StoredRecords(text) + [Strip(record)]
  {
    var line := record + "\n";
    assert text + record + "\n" == text + line;
    LinesAppend(text, line);
    OneLine(record);
    assert StripAll(Lines(text) + [record]) == StripAll(Lines(text)) + [Strip(record)];
  }
}
