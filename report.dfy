/**
 * The summary block and the download name of the exported report
 * (lib/pdfExport.tsx).
 */
module Report {
  import opened Wrappers
  import opened Counters
  import Text

  function TotalCount(cs: seq<Counter>): int {
    if cs == [] then 0 else cs[0].count + TotalCount(cs[1..])
  }

  /** `Math.max(...counters.map(c => c.count))` for a non-empty list. */
  function MaxCount(cs: seq<Counter>): (r: int)
    requires cs != []
    ensures exists i :: 0 <= i < |cs| && cs[i].count == r
    ensures forall i :: 0 <= i < |cs| ==> cs[i].count <= r
  {
    if |cs| == 1 then cs[0].count
    else
      var m := MaxCount(cs[1..]);
      assert forall i :: 1 <= i < |cs| ==> cs[i] == cs[1..][i - 1];
      if cs[0].count >= m then cs[0].count else m
  }

  /** `Math.min(...counters.map(c => c.count))` for a non-empty list. */
  function MinCount(cs: seq<Counter>): (r: int)
    requires cs != []
    ensures exists i :: 0 <= i < |cs| && cs[i].count == r
    ensures forall i :: 0 <= i < |cs| ==> r <= cs[i].count
  {
    if |cs| == 1 then cs[0].count
    else
      var m := MinCount(cs[1..]);
      assert forall i :: 1 <= i < |cs| ==> cs[i] == cs[1..][i - 1];
      if cs[0].count <= m then cs[0].count else m
  }

  /** The average line: the literal "0" for an empty list, otherwise the quotient
      that `toFixed(2)` formats. */
  datatype Average = Literal(text: string) | Quotient(total: int, counters: nat)

  datatype Summary = Summary(totalCounters: nat, totalCount: int, average: Average, maxCount: int, minCount: int)

  /** The values shown in the report's summary block. */
  function Summarize(cs: seq<Counter>): (r: Summary)
    ensures r.totalCounters == |cs| && r.totalCount == TotalCount(cs)
    ensures cs == [] ==> r.totalCount == 0 && r.maxCount == 0 && r.minCount == 0 && r.average == Literal("0")
    ensures cs != [] ==> r.average == Quotient(r.totalCount, r.totalCounters)
    ensures cs != [] ==> (exists i :: 0 <= i < |cs| && cs[i].count == r.maxCount)
                         && (forall i :: 0 <= i < |cs| ==> cs[i].count <= r.maxCount)
    ensures cs != [] ==> (exists i :: 0 <= i < |cs| && cs[i].count == r.minCount)
                         && (forall i :: 0 <= i < |cs| ==> r.minCount <= cs[i].count)
  {
    var n := |cs|;
    var total := TotalCount(cs);
    Summary(n, total,
            if n > 0 then Quotient(total, n) else Literal("0"),
            if n > 0 then MaxCount(cs) else 0,
            if n > 0 then MinCount(cs) else 0)
  }

  /** The sum lies between n times the minimum and n times the maximum. */
  lemma {:induction false} TotalBetweenBounds(cs: seq<Counter>, lo: int, hi: int)
    requires forall i :: 0 <= i < |cs| ==> lo <= cs[i].count <= hi
    ensures |cs| * lo <= TotalCount(cs) <= |cs| * hi
  {
    if cs != [] {
      assert forall i :: 0 <= i < |cs| - 1 ==> cs[1..][i] == cs[i + 1];
      TotalBetweenBounds(cs[1..], lo, hi);
    }
  }

  /** For a non-empty list: min <= max and n * min <= total <= n * max. */
  lemma SummaryBounds(cs: seq<Counter>)
    requires cs != []
    ensures var s := Summarize(cs);
      s.minCount <= s.maxCount
      && s.totalCounters * s.minCount <= s.totalCount <= s.totalCounters * s.maxCount
  {
    var s := Summarize(cs);
    TotalBetweenBounds(cs, s.minCount, s.maxCount);
  }

  /** The sum is additive over concatenation. */
  lemma {:induction false} TotalAppend(a: seq<Counter>, b: seq<Counter>)
    ensures TotalCount(a + b) == TotalCount(a) + TotalCount(b)
  {
    if a != [] {
      assert (a + b)[0] == a[0] && (a + b)[1..] == a[1..] + b;
      TotalAppend(a[1..], b);
    } else {
      assert a + b == b;
    }
  }

  /** After `resetAllCounts` the report's sum is 0. */
  lemma {:induction false} ResetZeroesTotal(cs: seq<Counter>)
    ensures TotalCount(ResetAllCounts(Some(cs))) == 0
  {
    if cs != [] {
      var r := ResetAllCounts(Some(cs));
      assert r[1..] == ResetAllCounts(Some(cs[1..]));
      ResetZeroesTotal(cs[1..]);
    }
  }

  /** Adding a counter raises the count of counters by one and leaves the sum unchanged. */
  lemma AddKeepsTotal(cs: seq<Counter>, freshId: string)
    ensures var s := Summarize(AddCounter(Some(cs), freshId));
      s.totalCounters == |cs| + 1 && s.totalCount == TotalCount(cs)
  {
    var r := AddCounter(Some(cs), freshId);
    assert r == cs + [r[|cs|]];
    TotalAppend(cs, [r[|cs|]]);
  }

  /** `${title}-counters-${isoTimestamp.split("T")[0]}.pdf`. */
  function DownloadName(title: string, isoTimestamp: string): (r: string)
    ensures |r| >= |title| + 14 && r[..|title|] == title && r[|r| - 4..] == ".pdf"
    ensures r[|title|..|title| + 10] == "-counters-"
    ensures var date := r[|title| + 10..|r| - 4];
      |date| <= |isoTimestamp| && 'T' !in date && date == isoTimestamp[..|date|]
      && (|date| < |isoTimestamp| ==> isoTimestamp[|date|] == 'T')
  {
    var date := Text.BeforeFirst(isoTimestamp, 'T');
    var r := title + "-counters-" + date + ".pdf";
    assert r[|title| + 10..|r| - 4] == date;
    r
  }

  /** For an ISO-8601 timestamp `YYYY-MM-DDTHH:mm:ss.sssZ` the date part is its first ten characters. */
  lemma DownloadNameOfIsoTimestamp(title: string, iso: string)
    requires |iso| > 10 && iso[10] == 'T' && 'T' !in iso[..10]
    ensures DownloadName(title, iso) == title + "-counters-" + iso[..10] + ".pdf"
  {
    var r := DownloadName(title, iso);
    var date := r[|title| + 10..|r| - 4];
    assert |date| == 10;
    assert r == r[..|title|] + r[|title|..|title| + 10] + date + r[|r| - 4..];
  }

  /** The worked example: counters with counts 3 and 5. */
  lemma SummaryExample()
    ensures Summarize([Counter("a", "A", 3), Counter("b", "B", 5)])
         == Summary(2, 8, Quotient(8, 2), 5, 3)
  {
    var cs := [Counter("a", "A", 3), Counter("b", "B", 5)];
    assert cs[1..] == [Counter("b", "B", 5)];
  }
}
