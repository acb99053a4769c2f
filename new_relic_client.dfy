/**
 * The New Relic Insights client: it builds the NRQL trace queries, sends each
 * one with at most two attempts, and merges the facet counts of the answers
 * into one map from metric name to hit count.
 *
 * The HTTP client is an oracle (class Transport): a script of per-attempt
 * outcomes that it plays back, and a log of the requests it was given. The
 * JSON body of a response is given already parsed (datatype Body).
 */
module NewRelicClient {
  import opened Wrappers
  import opened JavaText
  import opened FormEncoding
  import opened IsoDate

  // ---------------------------------------------------------------------------
  // URLs and query templates

  const ApiUrlPrefix := "https://insights-api.newrelic.com/v1/accounts/"
  const InsightsUrlPrefix := "https://insights.newrelic.com/accounts/"
  const InsightsUrlSuffix := "/query?query="
  const QueryGlue := "/query?nrql="
  const CustomPrefix := "WebTransaction/Custom/"

  /** Both templates up to the application name ("%%" prints as one '%'). */
  const QueryHead := "SELECT count(*) FROM Transaction WHERE name LIKE 'WebTransaction/Custom/%' AND appName = '"
  const QueryTail := " FACET name LIMIT 1000"

  /** The base URL of the Insights query API for an account. */
  function GetApiUrl(accountId: string): (url: string)
    ensures |url| == |ApiUrlPrefix| + |accountId|
    ensures url[..|ApiUrlPrefix|] == ApiUrlPrefix && url[|ApiUrlPrefix|..] == accountId
  {
    ApiUrlPrefix + accountId
  }

  /** The Insights query page for an account, still missing its query text. */
  function GetInsightsUrl(accountId: string): (url: string)
    ensures |url| == |InsightsUrlPrefix| + |accountId| + |InsightsUrlSuffix|
    ensures url[..|InsightsUrlPrefix|] == InsightsUrlPrefix
    ensures url[|InsightsUrlPrefix|..|url| - |InsightsUrlSuffix|] == accountId
    ensures url[|url| - |InsightsUrlSuffix|..] == InsightsUrlSuffix
  {
    var url := InsightsUrlPrefix + accountId + InsightsUrlSuffix;
    assert url[|InsightsUrlPrefix|..|url| - |InsightsUrlSuffix|] == accountId;
    url
  }

  /** Distinct accounts get distinct API URLs. */
  lemma ApiUrlInjective(a: string, b: string)
    requires GetApiUrl(a) == GetApiUrl(b)
    ensures a == b
  {
    assert a == GetApiUrl(a)[|ApiUrlPrefix|..];
  }

  /** The shape both templates share: custom web transactions of one
      application, faceted by name, at most 1000 facets. */
  predicate IsTraceQuery(q: string, appName: string) {
    var head := QueryHead + appName + "'";
    |q| >= |head| + |QueryTail| && q[..|head|] == head && q[|q| - |QueryTail|..] == QueryTail
  }

  /** The query for the last numDays days; numDays is inserted as text. */
  function DefaultTraceQuery(appName: string, numDays: string): string {
    QueryHead + appName + "'" + " SINCE " + numDays + " days ago" + QueryTail
  }

  /** The query for the window from since to until. */
  function DateRangeTraceQuery(appName: string, since: string, until: string): string {
    QueryHead + appName + "'" + " SINCE '" + since + "' UNTIL '" + until + "'" + QueryTail
  }

  /** The default query is a trace query for the application, and the text of
      numDays follows " SINCE " verbatim, unparsed. */
  lemma DefaultTraceQueryShape(appName: string, numDays: string)
    ensures IsTraceQuery(DefaultTraceQuery(appName, numDays), appName)
    ensures var q := DefaultTraceQuery(appName, numDays);
            var at := |QueryHead + appName + "'"|;
            q[at..at + |" SINCE " + numDays + " days ago"|] == " SINCE " + numDays + " days ago"
  {
    var head := QueryHead + appName + "'";
    var q := DefaultTraceQuery(appName, numDays);
    assert q == head + (" SINCE " + numDays + " days ago") + QueryTail;
    assert q[..|head|] == head;
  }

  /** A one-day query is a trace query for the application, and its window
      bounds can be read back out of it. */
  lemma DateRangeTraceQueryShape(appName: string, since: string, until: string)
    ensures IsTraceQuery(DateRangeTraceQuery(appName, since, until), appName)
    ensures var q := DateRangeTraceQuery(appName, since, until);
            var at := |QueryHead + appName + "'" + " SINCE '"|;
            && q[at..at + |since|] == since
            && q[at + |since| + |"' UNTIL '"|..|q| - |QueryTail| - 1] == until
  {
    var head := QueryHead + appName + "'";
    var q := DateRangeTraceQuery(appName, since, until);
    var at := |head + " SINCE '"|;
    assert q == (head + " SINCE '") + since + "' UNTIL '" + until + "'" + QueryTail;
    assert q[..|head|] == head;
    assert q[at..at + |since|] == since;
    assert q[at + |since| + |"' UNTIL '"|..|q| - |QueryTail| - 1] == until;
  }

  // ---------------------------------------------------------------------------
  // The query list

  /** Queries put in front of a list still being built, unless building it
      threw. */
  function Prefixed(prefix: seq<string>, r: Result<seq<string>, JavaException>): Result<seq<string>, JavaException> {
    if r.Err? then r else Ok(prefix + r.value)
  }

  lemma PrefixedAppend(a: seq<string>, b: seq<string>, r: Result<seq<string>, JavaException>)
    ensures Prefixed(a, Prefixed(b, r)) == Prefixed(a + b, r)
    ensures Prefixed([], r) == r
  {
    if r.Ok? {
      assert a + (b + r.value) == (a + b) + r.value;
      assert [] + r.value == r.value;
    }
  }

  /** The loop of query() from a given point on: k more one-day windows,
      walking back from the day end whose printed form is endText. Each
      window runs from the day before its end to its end, and its start is
      the next window's end. Stepping below LocalDate.MIN throws. */
  function Walk(appName: string, endText: string, end: Date, k: nat): Result<seq<string>, JavaException>
    requires IsValid(end)
    decreases k
  {
    if k == 0 then Ok([])
    else
      var prev := PrevDay(end);
      if !InRange(prev) then Err(DateTimeException)
      else
        var prevText := FormatIsoDate(prev);
        var rest := Walk(appName, prevText, prev, k - 1);
        if rest.Err? then rest else Ok([DateRangeTraceQuery(appName, prevText, endText)] + rest.value)
  }

  /** One pass of the loop: the window ending at end, then the walk from the
      day before. */
  lemma WalkStep(appName: string, endText: string, end: Date, k: nat)
    requires IsValid(end) && k > 0
    ensures var prev := PrevDay(end);
            Walk(appName, endText, end, k) ==
              if !InRange(prev) then Err(DateTimeException)
              else Prefixed([DateRangeTraceQuery(appName, FormatIsoDate(prev), endText)], Walk(appName, FormatIsoDate(prev), prev, k - 1))
  {
  }

  /** Every window of the walk is a trace query for the application. */
  lemma {:induction false} WalkShape(appName: string, endText: string, end: Date, k: nat)
    requires IsValid(end)
    ensures Walk(appName, endText, end, k).Ok? ==>
              forall q :: q in Walk(appName, endText, end, k).value ==> IsTraceQuery(q, appName)
    decreases k
  {
    if k > 0 {
      var prev := PrevDay(end);
      var prevText := FormatIsoDate(prev);
      WalkShape(appName, prevText, prev, k - 1);
      DateRangeTraceQueryShape(appName, prevText, endText);
    }
  }

  lemma {:induction false} WalkLength(appName: string, endText: string, end: Date, k: nat)
    requires IsValid(end)
    ensures Walk(appName, endText, end, k).Ok? ==> |Walk(appName, endText, end, k).value| == k
    decreases k
  {
    if k > 0 {
      var prev := PrevDay(end);
      WalkLength(appName, FormatIsoDate(prev), prev, k - 1);
    }
  }

  /** The walk throws exactly when its last day falls below LocalDate.MIN. */
  lemma {:induction false} WalkOkIffInRange(appName: string, endText: string, end: Date, k: nat)
    requires IsValid(end) && InRange(end)
    ensures Walk(appName, endText, end, k).Ok? <==> InRange(DaysBefore(end, k))
    decreases k
  {
    if k > 0 {
      var prev := PrevDay(end);
      DaysBeforeShift(end, k - 1);
      DaysBeforeYearsDecrease(end, 1, k);
      if InRange(prev) {
        WalkOkIffInRange(appName, FormatIsoDate(prev), prev, k - 1);
      }
    }
  }

  /** The UNTIL text of window i: the configured date itself for the first
      window, then the printed form of the day the previous window started. */
  function EndText(untilDate: string, d: Date, i: nat): string
    requires IsValid(d)
  {
    if i == 0 then untilDate else FormatIsoDate(DaysBefore(d, i))
  }

  /** Element i of the walk is the window that starts i + 1 days and ends
      i days before its first end; only the first window's UNTIL is the
      given text. */
  lemma {:induction false} WalkIndex(appName: string, endText: string, end: Date, k: nat, i: nat)
    requires IsValid(end) && i < k
    requires Walk(appName, endText, end, k).Ok?
    ensures |Walk(appName, endText, end, k).value| == k
    ensures Walk(appName, endText, end, k).value[i] ==
              DateRangeTraceQuery(appName, FormatIsoDate(DaysBefore(end, i + 1)), EndText(endText, end, i))
    decreases i
  {
    WalkLength(appName, endText, end, k);
    var prev := PrevDay(end);
    var prevText := FormatIsoDate(prev);
    var rest := Walk(appName, prevText, prev, k - 1);
    assert Walk(appName, endText, end, k).value == [DateRangeTraceQuery(appName, prevText, endText)] + rest.value;
    assert DaysBefore(end, 1) == prev;
    if i > 0 {
      WalkIndex(appName, prevText, prev, k - 1, i - 1);
      DaysBeforeShift(end, i);
      DaysBeforeShift(end, i - 1);
      assert EndText(prevText, prev, i - 1) == EndText(endText, end, i);
    }
  }

  /** The queries query() builds before sending any, or the exception it
      throws while building them. With a blank until date: one query over the
      last numDays days. Otherwise numDays is parsed; a count <= 0 gives no
      query at all; else the until date is parsed and one query is built per
      day, walking back one day at a time. */
  function TraceQueries(appName: string, numDays: string, untilDate: Option<string>): Result<seq<string>, JavaException> {
    if IsBlank(untilDate) then Ok([DefaultTraceQuery(appName, numDays)])
    else
      var n := ParseInt(numDays);
      if n.None? then Err(NumberFormatException)
      else if n.value <= 0 then Ok([])
      else
        var d := ParseIsoDate(untilDate.value);
        if d.None? then Err(DateTimeParseException)
        else Walk(appName, untilDate.value, d.value, n.value)
  }

  /** When building the list throws, and with what: NumberFormatException
      when numDays is not an integer, DateTimeParseException when there is a
      window to build and the until date is not an ISO date, and
      DateTimeException exactly when the last window would start below
      LocalDate.MIN. A blank until date never throws. */
  lemma TraceQueriesErrors(appName: string, numDays: string, untilDate: Option<string>)
    ensures IsBlank(untilDate) ==> TraceQueries(appName, numDays, untilDate).Ok?
    ensures !IsBlank(untilDate) && ParseInt(numDays).None? ==>
              TraceQueries(appName, numDays, untilDate) == Err(NumberFormatException)
    ensures !IsBlank(untilDate) && ParseInt(numDays).Some? && ParseInt(numDays).value > 0 ==>
              && (ParseIsoDate(untilDate.value).None? ==> TraceQueries(appName, numDays, untilDate) == Err(DateTimeParseException))
              && (ParseIsoDate(untilDate.value).Some? ==>
                    (TraceQueries(appName, numDays, untilDate).Ok? <==>
                       InRange(DaysBefore(ParseIsoDate(untilDate.value).value, ParseInt(numDays).value))))
    ensures !IsBlank(untilDate) && ParseInt(numDays).Some? && ParseInt(numDays).value <= 0 ==>
              TraceQueries(appName, numDays, untilDate) == Ok([])
    ensures TraceQueries(appName, numDays, untilDate).Err? ==>
              TraceQueries(appName, numDays, untilDate).error in {NumberFormatException, DateTimeParseException, DateTimeException}
  {
    if !IsBlank(untilDate) && ParseInt(numDays).Some? && ParseInt(numDays).value > 0 && ParseIsoDate(untilDate.value).Some? {
      var d := ParseIsoDate(untilDate.value).value;
      WalkOkIffInRange(appName, untilDate.value, d, ParseInt(numDays).value);
      WalkErrors(appName, untilDate.value, d, ParseInt(numDays).value);
    }
  }

  lemma {:induction false} WalkErrors(appName: string, endText: string, end: Date, k: nat)
    requires IsValid(end)
    ensures Walk(appName, endText, end, k).Err? ==> Walk(appName, endText, end, k).error == DateTimeException
    decreases k
  {
    if k > 0 {
      var prev := PrevDay(end);
      WalkErrors(appName, FormatIsoDate(prev), prev, k - 1);
    }
  }

  /** Every query built is a trace query for the configured application. */
  lemma TraceQueriesShape(appName: string, numDays: string, untilDate: Option<string>)
    requires TraceQueries(appName, numDays, untilDate).Ok?
    ensures forall q :: q in TraceQueries(appName, numDays, untilDate).value ==> IsTraceQuery(q, appName)
  {
    if IsBlank(untilDate) {
      DefaultTraceQueryShape(appName, numDays);
    } else if ParseInt(numDays).value > 0 {
      WalkShape(appName, untilDate.value, ParseIsoDate(untilDate.value).value, ParseInt(numDays).value);
    }
  }

  /** With a blank until date there is exactly one query: the default one. */
  lemma BlankUntilDateOneQuery(appName: string, numDays: string, untilDate: Option<string>)
    requires IsBlank(untilDate)
    ensures TraceQueries(appName, numDays, untilDate) == Ok([DefaultTraceQuery(appName, numDays)])
  {
  }

  /** With an until date the query count is the parsed numDays (none when it
      is not positive). */
  lemma UntilDateQueryCount(appName: string, numDays: string, untilDate: Option<string>)
    requires !IsBlank(untilDate)
    requires TraceQueries(appName, numDays, untilDate).Ok?
    ensures ParseInt(numDays).Some?
    ensures |TraceQueries(appName, numDays, untilDate).value| == if ParseInt(numDays).value <= 0 then 0 else ParseInt(numDays).value
  {
    var n := ParseInt(numDays).value;
    if n > 0 {
      WalkLength(appName, untilDate.value, ParseIsoDate(untilDate.value).value, n);
    }
  }

  /** Window i of a walk covers exactly one day: its UNTIL text denotes the
      end date minus i days, its SINCE text the day before that, and its
      SINCE is the UNTIL of window i + 1. */
  lemma WalkWindows(appName: string, endText: string, end: Date, k: nat, i: nat)
    requires IsValid(end) && InRange(end) && ParseIsoDate(endText) == Some(end)
    requires Walk(appName, endText, end, k).Ok? && i < k
    ensures var qs := Walk(appName, endText, end, k).value;
            && |qs| == k
            && qs[i] == DateRangeTraceQuery(appName, FormatIsoDate(DaysBefore(end, i + 1)), EndText(endText, end, i))
            && ParseIsoDate(FormatIsoDate(DaysBefore(end, i + 1))) == Some(DaysBefore(end, i + 1))
            && ParseIsoDate(EndText(endText, end, i)) == Some(DaysBefore(end, i))
            && (i + 1 < k ==> EndText(endText, end, i + 1) == FormatIsoDate(DaysBefore(end, i + 1)))
  {
    WalkIndex(appName, endText, end, k, i);
    WalkOkIffInRange(appName, endText, end, k);
    DaysBeforeYearsDecrease(end, i + 1, k);
    DaysBeforeYearsDecrease(end, i, i + 1);
    ParseFormatIsoDate(DaysBefore(end, i + 1));
    if i > 0 {
      ParseFormatIsoDate(DaysBefore(end, i));
    }
  }

  /** Query i of an until-date run covers exactly one day, and consecutive
      windows share an endpoint. */
  lemma UntilDateWindows(appName: string, numDays: string, untilDate: Option<string>, i: nat)
    requires !IsBlank(untilDate)
    requires TraceQueries(appName, numDays, untilDate).Ok?
    requires i < |TraceQueries(appName, numDays, untilDate).value|
    ensures ParseIsoDate(untilDate.value).Some?
    ensures var d := ParseIsoDate(untilDate.value).value;
            var qs := TraceQueries(appName, numDays, untilDate).value;
            && qs[i] == DateRangeTraceQuery(appName, FormatIsoDate(DaysBefore(d, i + 1)), EndText(untilDate.value, d, i))
            && ParseIsoDate(FormatIsoDate(DaysBefore(d, i + 1))) == Some(DaysBefore(d, i + 1))
            && ParseIsoDate(EndText(untilDate.value, d, i)) == Some(DaysBefore(d, i))
            && (i + 1 < |qs| ==> EndText(untilDate.value, d, i + 1) == FormatIsoDate(DaysBefore(d, i + 1)))
  {
    UntilDateQueryCount(appName, numDays, untilDate);
    WalkWindows(appName, untilDate.value, ParseIsoDate(untilDate.value).value, ParseInt(numDays).value, i);
  }

  /** Windows never overlap: every later window ends no later than an
      earlier one starts. */
  lemma UntilDateWindowsDisjoint(d: Date, i: nat, j: nat)
    requires IsValid(d) && i < j
    ensures DaysBefore(d, j) == DaysBefore(d, i + 1) || Before(DaysBefore(d, j), DaysBefore(d, i + 1))
  {
    if i + 1 < j {
      DaysBeforeStrictlyEarlier(d, i + 1, j);
    }
  }

  // ---------------------------------------------------------------------------
  // Responses and the facet merge

  /** One element of the "facets" array: its "name" and the "count" of its
      first result; None where the field (or the first result) is missing. */
  datatype Facet = Facet(name: Option<string>, count: Option<int>)

  /** A response body: text the JSON reader rejects, or a JSON object whose
      "facets" field may be missing. */
  datatype Body = Unreadable | Json(facets: Option<seq<Facet>>)

  /** What one call of the HTTP client does: throw an IOException, or answer. */
  datatype Outcome = IoFailure | Response(status: int, body: Body)

  /** The GET request of one attempt: its URI and its X-Query-Key header. */
  datatype Request = Request(uri: string, queryKey: string)

  /** The result of a run of queries: the counts or the exception, what is
      left of the transport's script, and the requests sent. */
  datatype Exchange = Exchange(counts: Result<map<string, int>, JavaException>, script: seq<Outcome>, sent: seq<Request>)

  /** The metric name a facet counts for: the facet name with every
      occurrence of the custom-transaction prefix removed. */
  function MetricName(name: string): string {
    RemoveAll(name, CustomPrefix)
  }

  /** The count a map holds for a key, 0 when it has none. */
  function Get(m: map<string, int>, k: string): int {
    if k in m then m[k] else 0
  }

  /** Map.merge(key, count, Long::sum). */
  function Merge(m: map<string, int>, k: string, c: int): (r: map<string, int>)
    ensures r.Keys == m.Keys + {k}
    ensures Get(r, k) == Get(m, k) + c
    ensures forall j :: j != k ==> Get(r, j) == Get(m, j)
  {
    if k in m then m[k := m[k] + c] else m[k := c]
  }

  /** The loop over the facets array, as a function: facets merged in order,
      a NullPointerException at the first facet without a name or a count. */
  function AbsorbFacets(m: map<string, int>, fs: seq<Facet>): Result<map<string, int>, JavaException>
    decreases |fs|
  {
    if fs == [] then Ok(m)
    else
      var prior := AbsorbFacets(m, fs[..|fs| - 1]);
      var f := fs[|fs| - 1];
      if prior.Err? then prior
      else if f.name.None? || f.count.None? then Err(NullPointerException)
      else Ok(Merge(prior.value, MetricName(f.name.value), f.count.value))
  }

  predicate WellFormed(fs: seq<Facet>) {
    forall i :: 0 <= i < |fs| ==> fs[i].name.Some? && fs[i].count.Some?
  }

  /** The metric names the facets count for. */
  function Names(fs: seq<Facet>): set<string> {
    set i | 0 <= i < |fs| && fs[i].name.Some? :: MetricName(fs[i].name.value)
  }

  /** The total count the facets give one metric name. */
  function SumFor(fs: seq<Facet>, k: string): int
    decreases |fs|
  {
    if fs == [] then 0
    else
      var f := fs[|fs| - 1];
      SumFor(fs[..|fs| - 1], k) + (if f.name.Some? && f.count.Some? && MetricName(f.name.value) == k then f.count.value else 0)
  }

  /** The merge in closed form: it fails exactly when a facet lacks a name or
      a count; otherwise every key keeps its entry and gains the total count
      of its facets, and the new keys are the facets' metric names. */
  lemma {:induction false} AbsorbFacetsClosedForm(m: map<string, int>, fs: seq<Facet>)
    ensures AbsorbFacets(m, fs).Ok? <==> WellFormed(fs)
    ensures !WellFormed(fs) ==> AbsorbFacets(m, fs) == Err(NullPointerException)
    ensures AbsorbFacets(m, fs).Ok? ==>
              && AbsorbFacets(m, fs).value.Keys == m.Keys + Names(fs)
              && forall k :: Get(AbsorbFacets(m, fs).value, k) == Get(m, k) + SumFor(fs, k)
    decreases |fs|
  {
    if fs != [] {
      var init := fs[..|fs| - 1];
      var f := fs[|fs| - 1];
      AbsorbFacetsClosedForm(m, init);
      assert fs == init + [f];
      WellFormedAppend(init, [f]);
      NamesAppend(init, [f]);
      assert WellFormed([f]) <==> f.name.Some? && f.count.Some?;
      if WellFormed(fs) {
        assert Names([f]) == {MetricName(f.name.value)};
      }
    }
  }

  lemma WellFormedAppend(fs: seq<Facet>, gs: seq<Facet>)
    ensures WellFormed(fs + gs) <==> WellFormed(fs) && WellFormed(gs)
  {
    if WellFormed(fs + gs) {
      forall i | 0 <= i < |fs| ensures fs[i].name.Some? && fs[i].count.Some? {
        assert (fs + gs)[i] == fs[i];
      }
      forall i | 0 <= i < |gs| ensures gs[i].name.Some? && gs[i].count.Some? {
        assert (fs + gs)[|fs| + i] == gs[i];
      }
    }
    if WellFormed(fs) && WellFormed(gs) {
      forall i | 0 <= i < |fs + gs| ensures (fs + gs)[i].name.Some? && (fs + gs)[i].count.Some? {
        if i >= |fs| {
          assert (fs + gs)[i] == gs[i - |fs|];
        }
      }
    }
  }

  lemma {:induction false} SumForAppend(fs: seq<Facet>, gs: seq<Facet>, k: string)
    ensures SumFor(fs + gs, k) == SumFor(fs, k) + SumFor(gs, k)
    decreases |gs|
  {
    if gs == [] {
      assert fs + gs == fs;
    } else {
      assert (fs + gs)[..|fs + gs| - 1] == fs + gs[..|gs| - 1];
      SumForAppend(fs, gs[..|gs| - 1], k);
    }
  }

  lemma NamesAppend(fs: seq<Facet>, gs: seq<Facet>)
    ensures Names(fs + gs) == Names(fs) + Names(gs)
  {
    forall x | x in Names(fs + gs) ensures x in Names(fs) + Names(gs) {
      var i :| 0 <= i < |fs + gs| && (fs + gs)[i].name.Some? && x == MetricName((fs + gs)[i].name.value);
      if i >= |fs| {
        assert gs[i - |fs|] == (fs + gs)[i];
      }
    }
    forall x | x in Names(fs) ensures x in Names(fs + gs) {
      var i :| 0 <= i < |fs| && fs[i].name.Some? && x == MetricName(fs[i].name.value);
      assert (fs + gs)[i] == fs[i];
    }
    forall x | x in Names(gs) ensures x in Names(fs + gs) {
      var i :| 0 <= i < |gs| && gs[i].name.Some? && x == MetricName(gs[i].name.value);
      assert (fs + gs)[|fs| + i] == gs[i];
    }
  }

  /** The order of the facets does not matter: the merge is a sum. */
  lemma AbsorbFacetsOrderIrrelevant(m: map<string, int>, fs: seq<Facet>, gs: seq<Facet>)
    ensures AbsorbFacets(m, fs + gs) == AbsorbFacets(m, gs + fs)
  {
    AbsorbFacetsClosedForm(m, fs + gs);
    AbsorbFacetsClosedForm(m, gs + fs);
    WellFormedAppend(fs, gs);
    WellFormedAppend(gs, fs);
    if WellFormed(fs + gs) {
      NamesAppend(fs, gs);
      NamesAppend(gs, fs);
      var r1 := AbsorbFacets(m, fs + gs).value;
      var r2 := AbsorbFacets(m, gs + fs).value;
      assert r1.Keys == r2.Keys;
      forall k | k in r1 ensures r1[k] == r2[k] {
        SumForAppend(fs, gs, k);
        SumForAppend(gs, fs, k);
        assert Get(r1, k) == Get(r2, k);
      }
      assert r1 == r2;
    }
  }

  /** The loop over the facets array of one response: it merges into the
      counts in place and stops at the first facet it cannot read. */
  method MergeFacets(counts: map<string, int>, facets: seq<Facet>) returns (r: Result<map<string, int>, JavaException>)
    ensures r == AbsorbFacets(counts, facets)
  {
    var merged := counts;
    var i := 0;
    while i < |facets|
      invariant 0 <= i <= |facets|
      invariant AbsorbFacets(counts, facets[..i]) == Ok(merged)
    {
      var element := facets[i];
      assert facets[..i + 1][..i] == facets[..i];
      if element.name.None? || element.count.None? {
        AbsorbErrorPersists(counts, facets, i + 1);
        return Err(NullPointerException);
      }
      merged := Merge(merged, MetricName(element.name.value), element.count.value);
      i := i + 1;
    }
    assert facets[..i] == facets;
    return Ok(merged);
  }

  /** Once the merge has failed on a prefix it fails on the whole array. */
  lemma {:induction false} AbsorbErrorPersists(m: map<string, int>, fs: seq<Facet>, j: nat)
    requires j <= |fs|
    requires AbsorbFacets(m, fs[..j]) == Err(NullPointerException)
    ensures AbsorbFacets(m, fs) == Err(NullPointerException)
    decreases |fs| - j
  {
    if j < |fs| {
      assert fs[..j + 1][..j] == fs[..j];
      AbsorbErrorPersists(m, fs, j + 1);
    } else {
      assert fs[..j] == fs;
    }
  }

  // ---------------------------------------------------------------------------
  // Attempts and the retry loop

  /** The outcome of attempt k (0-based); a script that has run out stands
      for a network that keeps failing. */
  function AttemptAt(script: seq<Outcome>, k: nat): Outcome {
    if k < |script| then script[k] else IoFailure
  }

  function Drop(script: seq<Outcome>, k: nat): seq<Outcome> {
    if k <= |script| then script[k..] else []
  }

  predicate IsOk(o: Outcome) {
    o.Response? && o.status == 200
  }

  /** How many attempts one query makes: a second one unless the first got
      status 200. */
  function Tries(script: seq<Outcome>): nat {
    if IsOk(AttemptAt(script, 0)) then 1 else 2
  }

  /** What one attempt does to the counts. Only a 200 response is read; a
      body the JSON reader rejects raises an IOException, which is caught;
      a JSON object without "facets" raises a NullPointerException. */
  function AttemptEffect(m: map<string, int>, o: Outcome): Result<map<string, int>, JavaException> {
    if !IsOk(o) then Ok(m)
    else match o.body
      case Unreadable => Ok(m)
      case Json(facets) => if facets.None? then Err(NullPointerException) else AbsorbFacets(m, facets.value)
  }

  /** What queryAndCount does to the counts: only its last attempt can have
      an effect, since an attempt with an effect ends the loop. */
  function QueryAndCountEffect(m: map<string, int>, script: seq<Outcome>): Result<map<string, int>, JavaException> {
    AttemptEffect(m, LastAttempt(script))
  }

  /** The retry rule stated the other way round: the counts change by the
      first 200 among the first two attempts, and by nothing if neither is a
      200; a 200 on the first attempt means exactly one request. */
  lemma RetryRule(m: map<string, int>, script: seq<Outcome>)
    ensures 1 <= Tries(script) <= 2
    ensures Tries(script) == 1 <==> IsOk(AttemptAt(script, 0))
    ensures QueryAndCountEffect(m, script) ==
              if IsOk(AttemptAt(script, 0)) then AttemptEffect(m, AttemptAt(script, 0))
              else if IsOk(AttemptAt(script, 1)) then AttemptEffect(m, AttemptAt(script, 1))
              else Ok(m)
  {
  }

  function Repeat(r: Request, n: nat): (rs: seq<Request>)
    ensures |rs| == n && forall i :: 0 <= i < n ==> rs[i] == r
  {
    seq(n, _ => r)
  }

  /** The request for one query: the base URL, "/query?nrql=", the query in
      application/x-www-form-urlencoded form over UTF-8, and the API key. */
  function RequestFor(nrUrl: string, apiKey: string, query: string): Request {
    Request(nrUrl + QueryGlue + FormEncode(Utf8, query), apiKey)
  }

  /** The server can read the query back out of the request URI: the text
      after the base URL and "/query?nrql=" decodes to the query. */
  lemma RequestCarriesQuery(nrUrl: string, apiKey: string, query: string)
    ensures var r := RequestFor(nrUrl, apiKey, query);
            var at := |nrUrl + QueryGlue|;
            && r.queryKey == apiKey
            && r.uri[..at] == nrUrl + QueryGlue
            && FormDecode(r.uri[at..]).Some?
            && Utf8Decode(FormDecode(r.uri[at..]).value) == Some(query)
  {
    var r := RequestFor(nrUrl, apiKey, query);
    assert r.uri[|nrUrl + QueryGlue|..] == FormEncode(Utf8, query);
    FormEncodeUtf8RoundTrip(query);
  }

  /** The queries run one after the other, each with its own retry loop; an
      exception ends the run. */
  function RunQueries(nrUrl: string, apiKey: string, m: map<string, int>, qs: seq<string>, script: seq<Outcome>): Exchange
    decreases |qs|
  {
    if qs == [] then Exchange(Ok(m), script, [])
    else
      var t := Tries(script);
      var here := Repeat(RequestFor(nrUrl, apiKey, qs[0]), t);
      var first := QueryAndCountEffect(m, script);
      if first.Err? then Exchange(first, Drop(script, t), here)
      else
        var rest := RunQueries(nrUrl, apiKey, first.value, qs[1..], Drop(script, t));
        Exchange(rest.counts, rest.script, here + rest.sent)
  }

  /** One step of the run: the first query's attempts, then the rest. */
  lemma RunQueriesStep(nrUrl: string, apiKey: string, m: map<string, int>, qs: seq<string>, script: seq<Outcome>)
    requires qs != []
    ensures var t := Tries(script);
            var here := Repeat(RequestFor(nrUrl, apiKey, qs[0]), t);
            var first := QueryAndCountEffect(m, script);
            RunQueries(nrUrl, apiKey, m, qs, script) ==
              if first.Err? then Exchange(first, Drop(script, t), here)
              else var rest := RunQueries(nrUrl, apiKey, first.value, qs[1..], Drop(script, t));
                   Exchange(rest.counts, rest.script, here + rest.sent)
  {
  }

  /** What is left of a run: the rest of the queries, run from the current
      counts and script, finish the whole run `total`. */
  ghost predicate Pending(nrUrl: string, apiKey: string, total: Exchange, base: seq<Request>, m: map<string, int>, qs: seq<string>, script: seq<Outcome>, sent: seq<Request>) {
    var rest := RunQueries(nrUrl, apiKey, m, qs, script);
    && total.counts == rest.counts
    && total.script == rest.script
    && base + total.sent == sent + rest.sent
  }

  lemma PendingStep(nrUrl: string, apiKey: string, total: Exchange, base: seq<Request>, m: map<string, int>, qs: seq<string>, script: seq<Outcome>, sent: seq<Request>)
    requires qs != []
    requires Pending(nrUrl, apiKey, total, base, m, qs, script, sent)
    ensures var t := Tries(script);
            var first := QueryAndCountEffect(m, script);
            var sent1 := sent + Repeat(RequestFor(nrUrl, apiKey, qs[0]), t);
            && (first.Err? ==> total.counts == first && total.script == Drop(script, t) && base + total.sent == sent1)
            && (first.Ok? ==> Pending(nrUrl, apiKey, total, base, first.value, qs[1..], Drop(script, t), sent1))
  {
    RunQueriesStep(nrUrl, apiKey, m, qs, script);
    var t := Tries(script);
    var here := Repeat(RequestFor(nrUrl, apiKey, qs[0]), t);
    var first := QueryAndCountEffect(m, script);
    if first.Ok? {
      var rest := RunQueries(nrUrl, apiKey, first.value, qs[1..], Drop(script, t));
      assert sent + (here + rest.sent) == (sent + here) + rest.sent;
    } else {
      assert sent + here + [] == sent + here;
    }
  }

  lemma PendingDone(nrUrl: string, apiKey: string, total: Exchange, base: seq<Request>, m: map<string, int>, qs: seq<string>, script: seq<Outcome>, sent: seq<Request>)
    requires qs == []
    requires Pending(nrUrl, apiKey, total, base, m, qs, script, sent)
    ensures total.counts == Ok(m) && total.script == script && base + total.sent == sent
  {
    assert sent + [] == sent;
  }

  /** The attempt whose outcome decides what a query contributes. */
  function LastAttempt(script: seq<Outcome>): Outcome {
    AttemptAt(script, Tries(script) - 1)
  }

  /** The facets an attempt merges: those of a 200 whose JSON has them. */
  function Contribution(o: Outcome): seq<Facet> {
    if IsOk(o) && o.body.Json? && o.body.facets.Some? then o.body.facets.value else []
  }

  /** An attempt that reads a 200 JSON answer without "facets". */
  predicate LacksFacets(o: Outcome) {
    IsOk(o) && o.body == Json(None)
  }

  lemma AttemptEffectForm(m: map<string, int>, o: Outcome)
    ensures AttemptEffect(m, o) == if LacksFacets(o) then Err(NullPointerException) else AbsorbFacets(m, Contribution(o))
  {
  }

  /** The facets merged by n queries in a row, in order. */
  function MergedFacets(n: nat, script: seq<Outcome>): seq<Facet> {
    if n == 0 then [] else Contribution(LastAttempt(script)) + MergedFacets(n - 1, Drop(script, Tries(script)))
  }

  /** None of n queries in a row got a 200 whose JSON lacks "facets". */
  predicate FacetsPresent(n: nat, script: seq<Outcome>) {
    n == 0 || (!LacksFacets(LastAttempt(script)) && FacetsPresent(n - 1, Drop(script, Tries(script))))
  }

  /** Counts added in two rounds add up to the counts of both rounds. */
  lemma SumsCompose(m: map<string, int>, m1: map<string, int>, r: map<string, int>, fs: seq<Facet>, gs: seq<Facet>)
    requires forall k :: Get(m1, k) == Get(m, k) + SumFor(fs, k)
    requires forall k :: Get(r, k) == Get(m1, k) + SumFor(gs, k)
    ensures forall k :: Get(r, k) == Get(m, k) + SumFor(fs + gs, k)
  {
    forall k {
      SumForAppend(fs, gs, k);
    }
  }

  /** The final map is the sum of every facet merged over all queries: the run
      succeeds exactly when every response read has its facets and every facet
      its name and count, and then each metric name holds its starting count
      plus the total of its facets, and no key is ever removed. */
  lemma {:induction false} RunQueriesClosedForm(nrUrl: string, apiKey: string, m: map<string, int>, qs: seq<string>, script: seq<Outcome>)
    ensures var e := RunQueries(nrUrl, apiKey, m, qs, script);
            e.counts.Ok? <==> FacetsPresent(|qs|, script) && WellFormed(MergedFacets(|qs|, script))
    ensures var e := RunQueries(nrUrl, apiKey, m, qs, script);
            var fs := MergedFacets(|qs|, script);
            e.counts.Ok? ==>
              && e.counts.value.Keys == m.Keys + Names(fs)
              && forall k :: Get(e.counts.value, k) == Get(m, k) + SumFor(fs, k)
    decreases |qs|
  {
    if qs != [] {
      var t := Tries(script);
      var o := LastAttempt(script);
      var here := Contribution(o);
      var n := |qs| - 1;
      var tail := MergedFacets(n, Drop(script, t));
      var e := RunQueries(nrUrl, apiKey, m, qs, script);
      RunQueriesStep(nrUrl, apiKey, m, qs, script);
      assert MergedFacets(|qs|, script) == here + tail;
      assert FacetsPresent(|qs|, script) <==> !LacksFacets(o) && FacetsPresent(n, Drop(script, t));
      WellFormedAppend(here, tail);
      AbsorbFacetsClosedForm(m, here);
      AttemptEffectForm(m, o);
      var first := QueryAndCountEffect(m, script);
      if first.Ok? {
        assert !LacksFacets(o) && WellFormed(here);
        var m1 := first.value;
        var e1 := RunQueries(nrUrl, apiKey, m1, qs[1..], Drop(script, t));
        assert e.counts == e1.counts;
        RunQueriesClosedForm(nrUrl, apiKey, m1, qs[1..], Drop(script, t));
        if e.counts.Ok? {
          NamesAppend(here, tail);
          SumsCompose(m, m1, e.counts.value, here, tail);
        }
      } else {
        assert e.counts.Err?;
        assert LacksFacets(o) || !WellFormed(here);
      }
    }
  }

  // ---------------------------------------------------------------------------
  // The HTTP client oracle and the client

  /** The HTTP client: it answers each request with the next scripted
      outcome and records the request. */
  class Transport {
    var script: seq<Outcome>
    var sent: seq<Request>

    constructor(script: seq<Outcome>)
      ensures this.script == script && sent == []
    {
      this.script := script;
      sent := [];
    }

    /** CloseableHttpClient.execute. */
    method Execute(request: Request) returns (outcome: Outcome)
      modifies this
      ensures outcome == AttemptAt(old(script), 0)
      ensures script == Drop(old(script), 1)
      ensures sent == old(sent) + [request]
    {
      outcome := AttemptAt(script, 0);
      script := Drop(script, 1);
      sent := sent + [request];
    }
  }

  /** The whole query() call in terms of the transport's script. */
  function QueryExchange(apiKey: string, nrUrl: string, appName: string, numDays: string, untilDate: Option<string>, script: seq<Outcome>): Exchange {
    var qs := TraceQueries(appName, numDays, untilDate);
    if qs.Err? then Exchange(Err(qs.error), script, [])
    else RunQueries(nrUrl, apiKey, map[], qs.value, script)
  }

  class Client {
    const apiKey: string
    const nrUrl: string
    const appName: string
    const numDays: string
    const untilDate: Option<string>
    const httpClient: Transport

    /** The constructor that takes its HTTP client as an argument. */
    constructor(apiKey: string, nrUrl: string, appName: string, numDays: string, untilDate: Option<string>, httpClient: Transport)
      ensures this.apiKey == apiKey && this.nrUrl == nrUrl && this.appName == appName
      ensures this.numDays == numDays && this.untilDate == untilDate && this.httpClient == httpClient
    {
      this.apiKey := apiKey;
      this.nrUrl := nrUrl;
      this.appName := appName;
      this.numDays := numDays;
      this.untilDate := untilDate;
      this.httpClient := httpClient;
    }

    /** The first half of query(): the query list. The loop condition parses
      numDays on every pass; the text never changes, so it is parsed once
      here. */
    method BuildTraceQueries() returns (r: Result<seq<string>, JavaException>)
      ensures r == TraceQueries(appName, numDays, untilDate)
    {
      if IsBlank(untilDate) {
        return Ok([DefaultTraceQuery(appName, numDays)]);
      }
      var n := ParseInt(numDays);
      if n.None? {
        return Err(NumberFormatException);
      }
      if n.value <= 0 {
        return Ok([]);
      }
      r := BuildWindows(untilDate.value, n.value);
    }

    /** The loop of query() for a positive day count: every pass parses the
      current end date, steps back one day, and adds the window between. */
    method BuildWindows(untilText: string, n: nat) returns (r: Result<seq<string>, JavaException>)
      requires n > 0
      ensures r == match ParseIsoDate(untilText)
                   case None => Err(DateTimeParseException)
                   case Some(d) => Walk(appName, untilText, d, n)
    {
      var traceQueries: seq<string> := [];
      var endDate := untilText;
      var i := 0;
      ghost var start := ParseIsoDate(untilText);
      ghost var cur := if start.Some? then start.value else Date(1970, 1, 1);
      if start.Some? {
        PrefixedAppend([], [], Walk(appName, endDate, cur, n));
      }
      while i < n
        invariant 0 <= i <= n
        invariant start.None? ==> i == 0 && endDate == untilText
        invariant start.Some? ==>
          && IsValid(cur) && ParseIsoDate(endDate) == Some(cur)
          && Walk(appName, untilText, start.value, n) == Prefixed(traceQueries, Walk(appName, endDate, cur, n - i))
      {
        var parsed := ParseIsoDate(endDate);
        if parsed.None? {
          return Err(DateTimeParseException);
        }
        var prev := PrevDay(parsed.value);
        ghost var here := Walk(appName, endDate, cur, n - i);
        WalkStep(appName, endDate, cur, n - i);
        if !InRange(prev) {
          assert here == Err(DateTimeException);
          return Err(DateTimeException);
        }
        var prevDate := FormatIsoDate(prev);
        ParseFormatIsoDate(prev);
        var q := DateRangeTraceQuery(appName, prevDate, endDate);
        ghost var rest := Walk(appName, prevDate, prev, n - (i + 1));
        assert here == Prefixed([q], rest);
        PrefixedAppend(traceQueries, [q], rest);
        traceQueries := traceQueries + [q];
        endDate := prevDate;
        cur := prev;
        i := i + 1;
      }
      assert Walk(appName, endDate, cur, 0) == Ok([]);
      assert traceQueries + [] == traceQueries;
      return Ok(traceQueries);
    }

    /** queryAndCount: up to two attempts at one query, stopping at the first
      200, whose facets are merged into the counts. */
    method QueryAndCount(counts: map<string, int>, traceQuery: string) returns (r: Result<map<string, int>, JavaException>)
      modifies httpClient
      ensures r == QueryAndCountEffect(counts, old(httpClient.script))
      ensures httpClient.script == Drop(old(httpClient.script), Tries(old(httpClient.script)))
      ensures httpClient.sent == old(httpClient.sent) + Repeat(RequestFor(nrUrl, apiKey, traceQuery), Tries(old(httpClient.script)))
    {
      var request := RequestFor(nrUrl, apiKey, traceQuery);
      ghost var script0 := httpClient.script;
      var merged := counts;
      var responseCode := 0;
      var tries := 0;
      while responseCode != 200 && tries < 2
        invariant 0 <= tries <= 2
        invariant httpClient.script == Drop(script0, tries)
        invariant httpClient.sent == old(httpClient.sent) + Repeat(request, tries)
        invariant tries == 0 ==> responseCode == 0
        invariant tries > 0 ==> (responseCode == 200 <==> IsOk(AttemptAt(script0, tries - 1)))
        invariant tries == 2 ==> !IsOk(AttemptAt(script0, 0))
        invariant responseCode != 200 ==> merged == counts
        invariant tries > 0 ==> AttemptEffect(counts, AttemptAt(script0, tries - 1)) == Ok(merged)
        decreases 2 - tries
      {
        tries := tries + 1;
        assert AttemptAt(httpClient.script, 0) == AttemptAt(script0, tries - 1);
        assert Drop(httpClient.script, 1) == Drop(script0, tries);
        var outcome := httpClient.Execute(request);
        if outcome.Response? {
          responseCode := outcome.status;
          if responseCode == 200 && outcome.body.Json? {
            if outcome.body.facets.None? {
              return Err(NullPointerException);
            }
            var absorbed := MergeFacets(merged, outcome.body.facets.value);
            if absorbed.Err? {
              return absorbed;
            }
            merged := absorbed.value;
          }
        }
      }
      return Ok(merged);
    }

    /** query: build the query list, then run every query in turn against one
      map of counts. */
    method Query() returns (r: Result<map<string, int>, JavaException>)
      modifies httpClient
      ensures var e := QueryExchange(apiKey, nrUrl, appName, numDays, untilDate, old(httpClient.script));
              && r == e.counts
              && httpClient.script == e.script
              && httpClient.sent == old(httpClient.sent) + e.sent
    {
      var built := BuildTraceQueries();
      if built.Err? {
        return Err(built.error);
      }
      r := RunAll(built.value);
    }

    /** The second half of query(): the loop over the query list, each query
      counted into the same map; the first exception ends it. */
    method RunAll(traceQueries: seq<string>) returns (r: Result<map<string, int>, JavaException>)
      modifies httpClient
      ensures var e := RunQueries(nrUrl, apiKey, map[], traceQueries, old(httpClient.script));
              && r == e.counts
              && httpClient.script == e.script
              && httpClient.sent == old(httpClient.sent) + e.sent
    {
      ghost var total := RunQueries(nrUrl, apiKey, map[], traceQueries, httpClient.script);
      assert old(httpClient.sent) + total.sent == httpClient.sent + total.sent;
      var countsByName: map<string, int> := map[];
      var i := 0;
      while i < |traceQueries|
        invariant 0 <= i <= |traceQueries|
        invariant Pending(nrUrl, apiKey, total, old(httpClient.sent), countsByName, traceQueries[i..], httpClient.script, httpClient.sent)
      {
        var q := traceQueries[i];
        ghost var script0 := httpClient.script;
        ghost var sent0 := httpClient.sent;
        PendingStep(nrUrl, apiKey, total, old(httpClient.sent), countsByName, traceQueries[i..], script0, sent0);
        var counted := QueryAndCount(countsByName, q);
        if counted.Err? {
          return counted;
        }
        assert traceQueries[i..][1..] == traceQueries[i + 1..];
        countsByName := counted.value;
        i := i + 1;
      }
      PendingDone(nrUrl, apiKey, total, old(httpClient.sent), countsByName, traceQueries[i..], httpClient.script, httpClient.sent);
      return Ok(countsByName);
    }
  }

  // ---------------------------------------------------------------------------
  // The behaviour the client's unit tests pin down, for the default query

  /** Two IOExceptions: two requests and nothing counted. */
  lemma RetryOnceAfterIoFailure(apiKey: string, nrUrl: string, appName: string, numDays: string, script: seq<Outcome>)
    requires AttemptAt(script, 0) == IoFailure && AttemptAt(script, 1) == IoFailure
    ensures var e := QueryExchange(apiKey, nrUrl, appName, numDays, None, script);
            e.counts == Ok(map[]) && |e.sent| == 2
  {
    DefaultRunsOnce(apiKey, nrUrl, appName, numDays, script);
  }

  /** Two answers other than 200: two requests and nothing counted. */
  lemma RetryOnceAfterNon200(apiKey: string, nrUrl: string, appName: string, numDays: string, script: seq<Outcome>)
    requires AttemptAt(script, 0).Response? && AttemptAt(script, 0).status != 200
    requires AttemptAt(script, 1).Response? && AttemptAt(script, 1).status != 200
    ensures var e := QueryExchange(apiKey, nrUrl, appName, numDays, None, script);
            e.counts == Ok(map[]) && |e.sent| == 2
  {
    DefaultRunsOnce(apiKey, nrUrl, appName, numDays, script);
  }

  /** A first answer 200 with one facet "this" counting 5: one request, and
      "this" maps to 5. */
  lemma NoRetryAfterSuccess(apiKey: string, nrUrl: string, appName: string, numDays: string, script: seq<Outcome>)
    requires AttemptAt(script, 0) == Response(200, Json(Some([Facet(Some("this"), Some(5))])))
    ensures var e := QueryExchange(apiKey, nrUrl, appName, numDays, None, script);
            e.counts == Ok(map["this" := 5]) && |e.sent| == 1
  {
    DefaultRunsOnce(apiKey, nrUrl, appName, numDays, script);
    var fs := [Facet(Some("this"), Some(5))];
    assert MetricName("this") == "this";
    assert fs[..|fs| - 1] == [];
    assert AbsorbFacets(map[], fs) == Ok(map["this" := 5]);
  }

  /** With no until date, query() runs the default query once. */
  lemma DefaultRunsOnce(apiKey: string, nrUrl: string, appName: string, numDays: string, script: seq<Outcome>)
    ensures var e := QueryExchange(apiKey, nrUrl, appName, numDays, None, script);
            && e.counts == QueryAndCountEffect(map[], script)
            && e.sent == Repeat(RequestFor(nrUrl, apiKey, DefaultTraceQuery(appName, numDays)), Tries(script))
  {
    var q := DefaultTraceQuery(appName, numDays);
    assert TraceQueries(appName, numDays, None) == Ok([q]);
    RunQueriesStep(nrUrl, apiKey, map[], [q], script);
    assert [q][1..] == [];
    var here := Repeat(RequestFor(nrUrl, apiKey, q), Tries(script));
    assert here + [] == here;
  }
}
