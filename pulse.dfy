/**
 * The analytics side of the backend (backend/pulse_analytics.py): each chat query is
 * stored with the business process and sentiment an LLM detected in it, and a
 * "pulse" over the stored queries of one namespace counts queries per process and per
 * sentiment, lists a sample of them, and asks an LLM for a summary snapshot.
 */
module Pulse {
  import opened Wrappers
  import opened PyStr

  // ---------------------------------------------------------------------------
  // Rows
  // ---------------------------------------------------------------------------

  /** A column value as the database client hands it back: a string, or None for NULL. */
  datatype Value = Null | Text(text: string)

  /** A row of `user_queries` as the dict the client returns: column name to value. */
  type Row = map<string, Value>

  /** `row.get(column, default)`: the default applies only when the column is absent. */
  function Get(row: Row, column: string, default: Value): Value {
    if column in row then row[column] else default
  }

  /** `f"{v}"`. */
  function Render(v: Value): string {
    match v
    case Null => "None"
    case Text(s) => s
  }

  const UnknownProcess: Value := Text("Unknown")
  const NeutralSentiment: Value := Text("Neutral")

  /** The process a row is counted under. */
  function ProcessOf(row: Row): Value {
    Get(row, "detected_process", UnknownProcess)
  }

  /** The sentiment a row is counted under. */
  function SentimentOf(row: Row): Value {
    Get(row, "user_sentiment", NeutralSentiment)
  }

  function Processes(rows: seq<Row>): seq<Value> {
    seq(|rows|, i requires 0 <= i < |rows| => ProcessOf(rows[i]))
  }

  function Sentiments(rows: seq<Row>): seq<Value> {
    seq(|rows|, i requires 0 <= i < |rows| => SentimentOf(rows[i]))
  }

  // ---------------------------------------------------------------------------
  // Tallies: a counting dict, keys kept in insertion order
  // ---------------------------------------------------------------------------

  /** A dict from value to count; `keys` is its iteration (insertion) order. */
  datatype Tally = Tally(keys: seq<Value>, counts: map<Value, nat>)

  predicate NoDuplicates(s: seq<Value>) {
    forall i, j :: 0 <= i < j < |s| ==> s[i] != s[j]
  }

  /** The shape every Python dict has: its order lists each of its keys exactly once. */
  predicate WellFormed(t: Tally) {
    && NoDuplicates(t.keys)
    && (forall v :: v in t.keys ==> v in t.counts)
    && (forall v :: v in t.counts ==> v in t.keys)
  }

  /** How many times `v` occurs in `vs`. */
  function Occurrences(vs: seq<Value>, v: Value): nat {
    if vs == [] then 0
    else Occurrences(vs[..|vs| - 1], v) + (if vs[|vs| - 1] == v then 1 else 0)
  }

  /** The values of `vs`, each once, in order of first occurrence. */
  function Distinct(vs: seq<Value>): seq<Value> {
    if vs == [] then []
    else
      var d := Distinct(vs[..|vs| - 1]);
      if vs[|vs| - 1] in d then d else d + [vs[|vs| - 1]]
  }

  /** Each value of `vs` mapped to how many times it occurs. */
  function Counts(vs: seq<Value>): map<Value, nat> {
    map v | v in vs :: Occurrences(vs, v)
  }

  /** The counting dict a histogram of `vs` should be. */
  function TallyOf(vs: seq<Value>): Tally {
    Tally(Distinct(vs), Counts(vs))
  }

  /** The sum of the counts, in key order: `sum(d.values())`. */
  function SumCounts(keys: seq<Value>, counts: map<Value, nat>): nat
    requires forall v :: v in keys ==> v in counts
  {
    if keys == [] then 0 else SumCounts(keys[..|keys| - 1], counts) + counts[keys[|keys| - 1]]
  }

  function Total(t: Tally): nat
    requires WellFormed(t)
  {
    SumCounts(t.keys, t.counts)
  }

  /** Counting by recursion agrees with the multiset of the values. */
  lemma {:induction false} OccurrencesIsMultiplicity(vs: seq<Value>, v: Value)
    ensures Occurrences(vs, v) == multiset(vs)[v]
  {
    if vs != [] {
      OccurrencesIsMultiplicity(vs[..|vs| - 1], v);
      assert vs == vs[..|vs| - 1] + [vs[|vs| - 1]];
    }
  }

  lemma {:induction false} DistinctMembers(vs: seq<Value>)
    ensures NoDuplicates(Distinct(vs))
    ensures forall v :: v in Distinct(vs) <==> v in vs
  {
    if vs != [] {
      var front := vs[..|vs| - 1];
      DistinctMembers(front);
      assert vs == front + [vs[|vs| - 1]];
    }
  }

  lemma TallyOfWellFormed(vs: seq<Value>)
    ensures WellFormed(TallyOf(vs))
  {
    DistinctMembers(vs);
  }

  /** `d[x] = d.get(x, 0) + 1`: a new key goes last, an old one keeps its place. */
  function Bump(t: Tally, x: Value): Tally {
    var c := if x in t.counts then t.counts[x] else 0;
    Tally(if x in t.counts then t.keys else t.keys + [x], t.counts[x := c + 1])
  }

  /** One more value appends it to the distinct values unless it is already among them. */
  lemma TallyOfSnocKeys(vs: seq<Value>, x: Value)
    ensures Distinct(vs + [x]) == if x in vs then Distinct(vs) else Distinct(vs) + [x]
  {
    var ws := vs + [x];
    assert ws[..|ws| - 1] == vs;
    DistinctMembers(vs);
  }

  lemma OccurrencesSnoc(vs: seq<Value>, x: Value, v: Value)
    ensures Occurrences(vs + [x], v) == Occurrences(vs, v) + (if x == v then 1 else 0)
  {
    var ws := vs + [x];
    assert ws[..|ws| - 1] == vs;
  }

  lemma CountsSnocKeys(vs: seq<Value>, x: Value)
    ensures Counts(vs + [x]).Keys == Counts(vs).Keys + {x}
  {
    var ws := vs + [x];
    forall v ensures v in ws <==> v in vs || v == x {
    }
  }

  lemma CountsSnocValue(vs: seq<Value>, x: Value, v: Value)
    requires v in vs + [x]
    ensures Counts(vs + [x])[v] == if v == x then Occurrences(vs, x) + 1 else Counts(vs)[v]
  {
    OccurrencesSnoc(vs, x, v);
    if v != x {
      assert v in vs;
    }
  }

  /** One more value adds one to its own count and to no other. */
  lemma TallyOfSnocCounts(vs: seq<Value>, x: Value)
    ensures Counts(vs + [x]) == Counts(vs)[x := Occurrences(vs, x) + 1]
  {
    var m := Counts(vs)[x := Occurrences(vs, x) + 1];
    var m' := Counts(vs + [x]);
    CountsSnocKeys(vs, x);
    assert m'.Keys == m.Keys;
    forall v | v in m' ensures m'[v] == m[v] {
      CountsSnocValue(vs, x, v);
    }
  }

  /** One more value changes the histogram as one more dict update does. */
  lemma TallyOfSnoc(vs: seq<Value>, x: Value)
    ensures TallyOf(vs + [x]) == Bump(TallyOf(vs), x)
  {
    TallyOfSnocKeys(vs, x);
    TallyOfSnocCounts(vs, x);
    OccurrencesIsMultiplicity(vs, x);
    assert x in TallyOf(vs).counts <==> x in vs;
  }

  /** Every key of the histogram occurs in the values, and at least once. */
  lemma TallyOfCounts(vs: seq<Value>, v: Value)
    ensures v in TallyOf(vs).counts <==> v in vs
    ensures v in TallyOf(vs).counts ==> TallyOf(vs).counts[v] == multiset(vs)[v] >= 1
  {
    OccurrencesIsMultiplicity(vs, v);
  }

  /** Changing the count of a value that is not a key does not change the sum. */
  lemma {:induction false} SumCountsOtherKey(keys: seq<Value>, counts: map<Value, nat>, x: Value, c: nat)
    requires forall v :: v in keys ==> v in counts
    requires x !in keys
    ensures SumCounts(keys, counts[x := c]) == SumCounts(keys, counts)
  {
    if keys != [] {
      SumCountsOtherKey(keys[..|keys| - 1], counts, x, c);
    }
  }

  /** Adding one to the count of a key adds one to the sum. */
  lemma {:induction false} SumCountsBump(keys: seq<Value>, counts: map<Value, nat>, x: Value)
    requires forall v :: v in keys ==> v in counts
    requires NoDuplicates(keys) && x in keys
    ensures SumCounts(keys, counts[x := counts[x] + 1]) == SumCounts(keys, counts) + 1
  {
    var front := keys[..|keys| - 1];
    if keys[|keys| - 1] == x {
      assert x !in front;
      SumCountsOtherKey(front, counts, x, counts[x] + 1);
    } else {
      assert x in front;
      SumCountsBump(front, counts, x);
    }
  }

  /** Conservation: the counts of a histogram add up to the number of values. */
  lemma {:induction false} TallyOfTotal(vs: seq<Value>)
    ensures WellFormed(TallyOf(vs))
    ensures Total(TallyOf(vs)) == |vs|
  {
    TallyOfWellFormed(vs);
    if vs != [] {
      var front := vs[..|vs| - 1];
      var x := vs[|vs| - 1];
      assert vs == front + [x];
      TallyOfTotal(front);
      TallyOfSnoc(front, x);
      var t := TallyOf(front);
      if x in front {
        TallyOfCounts(front, x);
        SumCountsBump(t.keys, t.counts, x);
      } else {
        TallyOfCounts(front, x);
        SumCountsOtherKey(t.keys, t.counts, x, 1);
        assert (t.keys + [x])[..|t.keys|] == t.keys;
      }
    }
  }

  /** Dict order is first-occurrence order: a key listed before another has occurred before every occurrence of it. */
  lemma {:induction false} DistinctFirstOccurrence(vs: seq<Value>, i: nat, j: nat, p: nat)
    requires i < j < |Distinct(vs)|
    requires p < |vs| && vs[p] == Distinct(vs)[j]
    ensures Distinct(vs)[i] in vs[..p]
  {
    var front := vs[..|vs| - 1];
    var x := vs[|vs| - 1];
    DistinctMembers(front);
    DistinctMembers(vs);
    var d := Distinct(front);
    if x in d {
      if p < |front| {
        DistinctFirstOccurrence(front, i, j, p);
        assert front[..p] == vs[..p];
      } else {
        assert d[i] in front;
        assert vs[..p] == front;
      }
    } else {
      if j < |d| {
        if p < |front| {
          DistinctFirstOccurrence(front, i, j, p);
          assert front[..p] == vs[..p];
        } else {
          assert false;
        }
      } else {
        assert x !in front;
        assert forall q :: 0 <= q < |front| ==> vs[q] == front[q] != x;
        assert p == |front|;
        assert d[i] in front;
        assert vs[..p] == front;
      }
    }
  }

  // ---------------------------------------------------------------------------
  // The aggregation loop of generate_pulse
  // ---------------------------------------------------------------------------

  /**
   * `process_counts` and `sentiment_counts`: one pass over the rows, each row adding one
   * to the count of its (defaulted) process and of its (defaulted) sentiment.
   */
  method Aggregate(queries: seq<Row>) returns (process: Tally, sentiment: Tally)
    ensures process == TallyOf(Processes(queries))
    ensures sentiment == TallyOf(Sentiments(queries))
  {
    process, sentiment := Tally([], map[]), Tally([], map[]);
    var i := 0;
    while i < |queries|
      invariant 0 <= i <= |queries|
      invariant process == TallyOf(Processes(queries)[..i])
      invariant sentiment == TallyOf(Sentiments(queries)[..i])
    {
      var p := Get(queries[i], "detected_process", UnknownProcess);
      var m := Get(queries[i], "user_sentiment", NeutralSentiment);
      assert Processes(queries)[..i + 1] == Processes(queries)[..i] + [p];
      assert Sentiments(queries)[..i + 1] == Sentiments(queries)[..i] + [m];
      TallyOfSnoc(Processes(queries)[..i], p);
      TallyOfSnoc(Sentiments(queries)[..i], m);
      process := Bump(process, p);
      sentiment := Bump(sentiment, m);
      i := i + 1;
    }
    assert Processes(queries)[..i] == Processes(queries);
    assert Sentiments(queries)[..i] == Sentiments(queries);
  }

  /** A row without `detected_process` is counted under "Unknown". */
  lemma MissingProcessIsUnknown(queries: seq<Row>, i: nat)
    requires i < |queries| && "detected_process" !in queries[i]
    ensures UnknownProcess in TallyOf(Processes(queries)).counts
    ensures TallyOf(Processes(queries)).counts[UnknownProcess] >= 1
  {
    assert Processes(queries)[i] == UnknownProcess;
    TallyOfCounts(Processes(queries), UnknownProcess);
  }

  /** A row without `user_sentiment` is counted under "Neutral". */
  lemma MissingSentimentIsNeutral(queries: seq<Row>, i: nat)
    requires i < |queries| && "user_sentiment" !in queries[i]
    ensures NeutralSentiment in TallyOf(Sentiments(queries)).counts
    ensures TallyOf(Sentiments(queries)).counts[NeutralSentiment] >= 1
  {
    assert Sentiments(queries)[i] == NeutralSentiment;
    TallyOfCounts(Sentiments(queries), NeutralSentiment);
  }

  /** The positions of `vs` that hold `v`. */
  function Positions(vs: seq<Value>, v: Value): set<nat> {
    set i: nat | i < |vs| && vs[i] == v
  }

  /** The positions of `v` in a sequence: those in its front, and the last one if it holds `v`. */
  lemma PositionsSnoc(vs: seq<Value>, v: Value)
    requires vs != []
    ensures Positions(vs, v)
         == Positions(vs[..|vs| - 1], v) + (if vs[|vs| - 1] == v then {|vs| - 1} else {})
  {
    var n := |vs| - 1;
    forall i: nat ensures i in Positions(vs, v) <==> i in Positions(vs[..n], v) || (i == n && vs[n] == v) {
      if i < n {
        assert vs[..n][i] == vs[i];
      }
    }
  }

  /** Occurrences counted as a set of positions. */
  lemma {:induction false} OccurrencesIsPositions(vs: seq<Value>, v: Value)
    ensures Occurrences(vs, v) == |Positions(vs, v)|
  {
    if vs == [] {
      assert Positions(vs, v) == {};
    } else {
      var n := |vs| - 1;
      OccurrencesIsPositions(vs[..n], v);
      PositionsSnoc(vs, v);
      assert n !in Positions(vs[..n], v);
    }
  }

  /** The count of a process is the number of rows counted under it. */
  lemma ProcessCountIsRowCount(queries: seq<Row>, v: Value)
    requires v in TallyOf(Processes(queries)).counts
    ensures TallyOf(Processes(queries)).counts[v] == |set i: nat | i < |queries| && ProcessOf(queries[i]) == v|
  {
    OccurrencesIsPositions(Processes(queries), v);
    assert Positions(Processes(queries), v) == set i: nat | i < |queries| && ProcessOf(queries[i]) == v;
  }

  // ---------------------------------------------------------------------------
  // The data context handed to the LLM
  // ---------------------------------------------------------------------------

  /** `f"- {k}: {v}"`. */
  function BreakdownLine(key: Value, count: nat): string {
    "- " + Render(key) + ": " + NatToString(count)
  }

  /** `[f"- {k}: {v}" for k, v in d.items()]`. */
  function BreakdownLines(t: Tally): (lines: seq<string>)
    requires WellFormed(t)
  {
    seq(|t.keys|, i requires 0 <= i < |t.keys| => BreakdownLine(t.keys[i], t.counts[t.keys[i]]))
  }

  /** The breakdown of a histogram: one line per distinct value, in first-occurrence order, with its multiplicity. */
  lemma BreakdownLinesOfTally(vs: seq<Value>)
    ensures WellFormed(TallyOf(vs))
    ensures |BreakdownLines(TallyOf(vs))| == |Distinct(vs)|
    ensures forall i :: 0 <= i < |Distinct(vs)| ==>
      && Distinct(vs)[i] in vs
      && BreakdownLines(TallyOf(vs))[i] == BreakdownLine(Distinct(vs)[i], multiset(vs)[Distinct(vs)[i]])
  {
    TallyOfWellFormed(vs);
    DistinctMembers(vs);
    forall i | 0 <= i < |Distinct(vs)|
      ensures BreakdownLines(TallyOf(vs))[i] == BreakdownLine(Distinct(vs)[i], multiset(vs)[Distinct(vs)[i]])
    {
      TallyOfCounts(vs, Distinct(vs)[i]);
    }
  }

  /** Each value occurring in `vs` has the breakdown line that reports its multiplicity. */
  lemma BreakdownReportsValue(vs: seq<Value>, v: Value)
    requires v in vs
    ensures WellFormed(TallyOf(vs))
    ensures BreakdownLine(v, multiset(vs)[v]) in BreakdownLines(TallyOf(vs))
  {
    BreakdownLinesOfTally(vs);
    DistinctMembers(vs);
    var i :| 0 <= i < |Distinct(vs)| && Distinct(vs)[i] == v;
    assert BreakdownLines(TallyOf(vs))[i] == BreakdownLine(v, multiset(vs)[v]);
  }

  /** `[f"- {q.get('query_text')}" for q in queries[:10]]`. */
  function SampleLines(queries: seq<Row>): (lines: seq<string>)
    ensures |lines| == if |queries| < 10 then |queries| else 10
    ensures forall i :: 0 <= i < |lines| ==>
      lines[i] == "- " + Render(Get(queries[i], "query_text", Null))
  {
    var n := if |queries| < 10 then |queries| else 10;
    seq(n, i requires 0 <= i < n => "- " + Render(Get(queries[i], "query_text", Null)))
  }

  /** Later rows only ever extend the sample, and once there are ten rows they never change it. */
  lemma SampleLinesPrefix(queries: seq<Row>, later: seq<Row>)
    ensures SampleLines(queries) <= SampleLines(queries + later)
    ensures |queries| >= 10 ==> SampleLines(queries + later) == SampleLines(queries)
  {
    var a, b := SampleLines(queries), SampleLines(queries + later);
    assert forall i :: 0 <= i < |a| ==> (queries + later)[i] == queries[i];
    assert b[..|a|] == a;
  }

  const TotalHeading: string := "Total Queries: "
  const ProcessHeading: string := "Process Breakdown:\n"
  const SentimentHeading: string := "Sentiment Breakdown:\n"
  const SampleHeading: string := "Sample Queries:\n"

  /** A heading followed by lines joined with newlines. */
  function Section(heading: string, lines: seq<string>): string {
    heading + Join(lines, "\n")
  }

  /** `data_context`: totals, both breakdowns in dict order, and the first ten queries. */
  function RenderContext(queries: seq<Row>, process: Tally, sentiment: Tally): string
    requires WellFormed(process) && WellFormed(sentiment)
  {
    TotalHeading + NatToString(|queries|) + "\n"
    + Section(ProcessHeading, BreakdownLines(process)) + "\n"
    + Section(SentimentHeading, BreakdownLines(sentiment)) + "\n"
    + Section(SampleHeading, SampleLines(queries))
  }

  /** The data context of a list of rows, from the histograms it should hold. */
  function PulseContext(queries: seq<Row>): string {
    TallyOfWellFormed(Processes(queries));
    TallyOfWellFormed(Sentiments(queries));
    RenderContext(queries, TallyOf(Processes(queries)), TallyOf(Sentiments(queries)))
  }

  /**
   * The layout of the context: it opens with the query count, holds each breakdown
   * under its heading, and closes with the sample.
   */
  lemma RenderContextLayout(queries: seq<Row>, process: Tally, sentiment: Tally)
    requires WellFormed(process) && WellFormed(sentiment)
    ensures StartsWith(RenderContext(queries, process, sentiment), TotalHeading + NatToString(|queries|) + "\n")
    ensures Contains(RenderContext(queries, process, sentiment), Section(ProcessHeading, BreakdownLines(process)))
    ensures Contains(RenderContext(queries, process, sentiment), Section(SentimentHeading, BreakdownLines(sentiment)))
    ensures EndsWith(RenderContext(queries, process, sentiment), Section(SampleHeading, SampleLines(queries)))
  {
    var total := TotalHeading + NatToString(|queries|) + "\n";
    var p := Section(ProcessHeading, BreakdownLines(process));
    var m := Section(SentimentHeading, BreakdownLines(sentiment));
    var e := Section(SampleHeading, SampleLines(queries));
    var ctx := RenderContext(queries, process, sentiment);
    assert ctx == total + p + "\n" + m + "\n" + e;
    LayoutOfFive(ctx, total, p, m, e);
  }

  /** The positions of five pieces glued with two newlines. */
  lemma LayoutOfFive(ctx: string, total: string, p: string, m: string, e: string)
    requires ctx == total + p + "\n" + m + "\n" + e
    ensures StartsWith(ctx, total) && Contains(ctx, p) && Contains(ctx, m) && EndsWith(ctx, e)
  {
    assert ctx == total + p + ("\n" + m + "\n" + e);
    assert ctx == (total + p + "\n") + m + ("\n" + e);
    assert ctx == (total + p + "\n" + m + "\n") + e;
    assert ctx[..|total|] == total;
    ContainsInfix(total, p, "\n" + m + "\n" + e);
    ContainsInfix(total + p + "\n", m, "\n" + e);
  }

  /** Every process and every sentiment that occurs is reported in the context with its count. */
  lemma PulseContextReportsCounts(queries: seq<Row>, v: Value)
    ensures v in Processes(queries) ==>
      Contains(PulseContext(queries), BreakdownLine(v, multiset(Processes(queries))[v]))
    ensures v in Sentiments(queries) ==>
      Contains(PulseContext(queries), BreakdownLine(v, multiset(Sentiments(queries))[v]))
  {
    var ps, ms := Processes(queries), Sentiments(queries);
    TallyOfWellFormed(ps);
    TallyOfWellFormed(ms);
    RenderContextLayout(queries, TallyOf(ps), TallyOf(ms));
    if v in ps {
      ReportedInSection(PulseContext(queries), ProcessHeading, ps, v);
    }
    if v in ms {
      ReportedInSection(PulseContext(queries), SentimentHeading, ms, v);
    }
  }

  /** A breakdown line inside a section that the context contains is contained in the context. */
  lemma ReportedInSection(ctx: string, heading: string, vs: seq<Value>, v: Value)
    requires v in vs
    requires WellFormed(TallyOf(vs)) && Contains(ctx, Section(heading, BreakdownLines(TallyOf(vs))))
    ensures Contains(ctx, BreakdownLine(v, multiset(vs)[v]))
  {
    BreakdownReportsValue(vs, v);
    var lines := BreakdownLines(TallyOf(vs));
    var i :| 0 <= i < |lines| && lines[i] == BreakdownLine(v, multiset(vs)[v]);
    JoinContainsPart(lines, "\n", i);
    ContainsExtend(heading, Join(lines, "\n"), [], lines[i]);
    assert heading + Join(lines, "\n") + [] == heading + Join(lines, "\n");
    ContainsTransitive(ctx, heading + Join(lines, "\n"), lines[i]);
  }

  /** Both breakdowns account for every row exactly once. */
  lemma CountsConserved(queries: seq<Row>)
    ensures WellFormed(TallyOf(Processes(queries))) && WellFormed(TallyOf(Sentiments(queries)))
    ensures Total(TallyOf(Processes(queries))) == |queries|
    ensures Total(TallyOf(Sentiments(queries))) == |queries|
  {
    TallyOfTotal(Processes(queries));
    TallyOfTotal(Sentiments(queries));
  }

  // ---------------------------------------------------------------------------
  // Cleaning the LLM's reply before json.loads
  // ---------------------------------------------------------------------------

  const Fence: string := "```json"
  const Ticks: string := "```"

  /** `re.sub(r"^```json\n?", "", s)`: a leading fence, with its newline if there is one. */
  function DropFence(s: string): (r: string)
    ensures |r| <= |s|
  {
    if StartsWith(s, Fence + "\n") then s[|Fence| + 1..]
    else if StartsWith(s, Fence) then s[|Fence|..]
    else s
  }

  /** `raw.strip()`, the fence removed, `.strip().rstrip("`").strip()`. */
  function CleanReply(text: string): (r: string)
    ensures |r| <= |text|
    ensures Trimmed(r)
  {
    Strip(TrimTicks(DropFence(Strip(text))))
  }

  /** `.strip().rstrip("`")`. */
  function TrimTicks(s: string): (r: string)
    ensures |r| <= |s|
  {
    RStrip(Strip(s), Backtick)
  }

  lemma StripFenced(body: string)
    ensures Strip(Fence + "\n" + body + "\n" + Ticks) == Fence + "\n" + body + "\n" + Ticks
  {
    var fenced := Fence + "\n" + body + "\n" + Ticks;
    assert fenced[0] == '`';
    assert fenced[|fenced| - 1] == '`';
    StripOfStripped(fenced);
  }

  lemma DropFenceOfFenced(body: string)
    ensures DropFence(Fence + "\n" + body + "\n" + Ticks) == body + "\n" + Ticks
  {
    var fenced := Fence + "\n" + body + "\n" + Ticks;
    assert fenced[..|Fence| + 1] == Fence + "\n";
    assert fenced[|Fence| + 1..] == body + "\n" + Ticks;
  }

  lemma StripBodyTicks(body: string)
    requires body != [] && !IsSpace(body[0]) && !IsSpace(body[|body| - 1]) && body[|body| - 1] != '`'
    ensures Strip(RStrip(Strip(body + "\n" + Ticks), Backtick)) == body
  {
    StripTicked(body);
    RStripTicks(body);
    StripNewline(body);
  }

  lemma StripTicked(body: string)
    requires body != [] && !IsSpace(body[0])
    ensures Strip(body + "\n" + Ticks) == body + "\n" + Ticks
  {
    var t := body + "\n" + Ticks;
    assert t[0] == body[0] && t[|t| - 1] == '`';
    StripOfStripped(t);
  }

  lemma RStripTicks(body: string)
    ensures RStrip(body + "\n" + Ticks, Backtick) == body + "\n"
  {
    RStripDroppedSuffix(body + "\n", Ticks, Backtick);
  }

  lemma StripNewline(body: string)
    requires body != [] && !IsSpace(body[0]) && !IsSpace(body[|body| - 1])
    ensures Strip(body + "\n") == body
  {
    assert (body + "\n")[0] == body[0];
    assert LStrip(body + "\n", Whitespace) == body + "\n";
    RStripDroppedSuffix(body, "\n", Whitespace);
  }

  /** A reply wrapped in a json code fence is reduced to what the fence holds. */
  lemma CleanReplyFenced(body: string)
    requires body != [] && !IsSpace(body[0]) && !IsSpace(body[|body| - 1]) && body[|body| - 1] != '`'
    ensures CleanReply(Fence + "\n" + body + "\n" + Ticks) == body
  {
    StripFenced(body);
    DropFenceOfFenced(body);
    StripBodyTicks(body);
    CleanReplySteps(Fence + "\n" + body + "\n" + Ticks, body + "\n" + Ticks, body);
  }

  lemma CleanReplySteps(reply: string, unfenced: string, body: string)
    requires Strip(reply) == reply && DropFence(reply) == unfenced
    requires Strip(RStrip(Strip(unfenced), Backtick)) == body
    ensures CleanReply(reply) == body
  {
  }

  /** A reply that is already bare JSON, with no backticks and no surrounding blanks, is left as it is. */
  lemma CleanReplyBare(body: string)
    requires '`' !in body
    requires body == [] || (!IsSpace(body[0]) && !IsSpace(body[|body| - 1]))
    ensures CleanReply(body) == body
  {
    StripOfStripped(body);
    assert body != [] ==> body[0] != '`';
    assert DropFence(body) == body;
    assert RStrip(body, Backtick) == body;
  }

  // ---------------------------------------------------------------------------
  // analyze_and_store_query
  // ---------------------------------------------------------------------------

  /**
   * The row `analyze_and_store_query` hands to the insert, or None when it stops
   * earlier: no database client, no API key, or a failure of the LLM call or of
   * json.loads (`analysis` is None) inside its try block.
   */
  function StoredQuery(clientConfigured: bool, apiKey: string, queryText: string, techId: string,
                       analysis: Option<map<string, Value>>): (row: Option<Row>)
    ensures row.Some? <==> clientConfigured && apiKey != "" && analysis.Some?
    ensures row.Some? ==> Get(row.value, "query_text", Null) == Text(queryText)
    ensures row.Some? ==> Get(row.value, "tech_id", Null) == Text(techId)
    ensures row.Some? ==> ProcessOf(row.value) == Get(analysis.value, "detected_process", UnknownProcess)
    ensures row.Some? ==> SentimentOf(row.value) == Get(analysis.value, "user_sentiment", NeutralSentiment)
  {
    if !clientConfigured || apiKey == "" then None
    else match analysis
      case None => None
      case Some(a) =>
        Some(map[
          "tech_id" := Text(techId),
          "query_text" := Text(queryText),
          "detected_process" := Get(a, "detected_process", UnknownProcess),
          "user_sentiment" := Get(a, "user_sentiment", NeutralSentiment)])
  }

  /** When the LLM's JSON lacks both keys, the stored row says "Unknown" and "Neutral". */
  lemma StoredQueryDefaults(queryText: string, techId: string, analysis: map<string, Value>)
    requires "detected_process" !in analysis && "user_sentiment" !in analysis
    ensures var row := StoredQuery(true, "key", queryText, techId, Some(analysis));
      row.Some? && ProcessOf(row.value) == UnknownProcess && SentimentOf(row.value) == NeutralSentiment
  {
  }

  /** A fetched row holds every column of `payload` with the same value, and possibly more (`id`, `created_at`). */
  predicate Extends(row: Row, payload: Row) {
    forall c :: c in payload ==> c in row && row[c] == payload[c]
  }

  /** A stored row, fetched back with its extra columns, is counted under the process and sentiment the LLM reported for it. */
  lemma StoredQueryCounted(rows: seq<Row>, i: nat, apiKey: string, queryText: string, techId: string,
                           analysis: map<string, Value>)
    requires apiKey != "" && i < |rows|
    requires Extends(rows[i], StoredQuery(true, apiKey, queryText, techId, Some(analysis)).value)
    ensures Get(analysis, "detected_process", UnknownProcess) in TallyOf(Processes(rows)).counts
    ensures Get(analysis, "user_sentiment", NeutralSentiment) in TallyOf(Sentiments(rows)).counts
  {
    var payload := StoredQuery(true, apiKey, queryText, techId, Some(analysis)).value;
    assert "detected_process" in payload && "user_sentiment" in payload;
    assert Processes(rows)[i] == Get(analysis, "detected_process", UnknownProcess);
    assert Sentiments(rows)[i] == Get(analysis, "user_sentiment", NeutralSentiment);
    TallyOfCounts(Processes(rows), Processes(rows)[i]);
    TallyOfCounts(Sentiments(rows), Sentiments(rows)[i]);
  }

  // ---------------------------------------------------------------------------
  // generate_pulse
  // ---------------------------------------------------------------------------

  /** An HTTPException: status code and detail text. */
  datatype HttpError = HttpError(status: nat, detail: string)

  /** The snapshot stored and returned; `J` stands for whatever JSON value the LLM gave. */
  datatype Snapshot<J> = Snapshot(techId: string, summary: J, takeaways: J, trending: J)

  /** The handler's catch-all: any exception in the LLM block becomes a 500. */
  function LlmFailure(message: string): HttpError {
    HttpError(500, "LLM Generation failed: " + message)
  }

  /** `str(KeyError(key))`, the message of a missing key. */
  function KeyErrorText(key: string): string {
    "'" + key + "'"
  }

  /** The snapshot payload, or the KeyError of the first of its three keys the analysis lacks. */
  function SnapshotOf<J>(techId: string, analysis: map<string, J>): (r: Result<Snapshot<J>, HttpError>)
    ensures r.Ok? <==> "summary_text" in analysis && "key_takeaways" in analysis && "trending_processes" in analysis
    ensures r.Ok? ==> r.value == Snapshot(techId, analysis["summary_text"], analysis["key_takeaways"], analysis["trending_processes"])
    ensures "summary_text" !in analysis ==> r == Err(LlmFailure(KeyErrorText("summary_text")))
    ensures "summary_text" in analysis && "key_takeaways" !in analysis ==>
      r == Err(LlmFailure(KeyErrorText("key_takeaways")))
    ensures "summary_text" in analysis && "key_takeaways" in analysis && "trending_processes" !in analysis ==>
      r == Err(LlmFailure(KeyErrorText("trending_processes")))
  {
    if "summary_text" !in analysis then Err(LlmFailure(KeyErrorText("summary_text")))
    else if "key_takeaways" !in analysis then Err(LlmFailure(KeyErrorText("key_takeaways")))
    else if "trending_processes" !in analysis then Err(LlmFailure(KeyErrorText("trending_processes")))
    else Ok(Snapshot(techId, analysis["summary_text"], analysis["key_takeaways"], analysis["trending_processes"]))
  }

  const SupabaseMissing: HttpError := HttpError(500, "Supabase not configured in backend.")
  const NotEnoughData: HttpError := HttpError(400, "Not enough data to generate pulse.")
  const ApiKeyMissing: HttpError := HttpError(500, "GOOGLE_API_KEY not configured.")

  /** The 500 of a failed fetch. */
  function FetchFailure(message: string): HttpError {
    HttpError(500, "Database fetch failed: " + message)
  }

  /** The 500 of a reply json.loads rejects, quoting the cleaned reply. */
  function InvalidJson(cleaned: string): HttpError {
    HttpError(500, "Gemini returned invalid JSON. " + cleaned)
  }

  /** `namespace or "sap-pack"`: the namespace the snapshot is stored under. */
  function TechIdOf(namespace: Option<string>): string {
    if namespace.Some? then namespace.value else "sap-pack"
  }

  /** The rows were fetched and there is at least one: the context is built. */
  predicate HasData(clientConfigured: bool, fetched: Result<seq<Row>, string>) {
    clientConfigured && fetched.Ok? && fetched.value != []
  }

  /**
   * `generate_pulse`. The database, the LLM and json.loads are parameters: `fetched` is the
   * fetched rows or the fetch's error text, `reply` the LLM's text or the error it raised,
   * `analysis` what json.loads makes of the cleaned reply (None if it is not valid JSON),
   * `insertError` the error the snapshot insert raised, if any. `context` is the data
   * context the prompt carries, when the handler gets that far.
   */
  method GeneratePulse<J>(namespace: Option<string>, clientConfigured: bool, fetched: Result<seq<Row>, string>,
                          apiKey: string, reply: Result<string, string>, analysis: Option<map<string, J>>,
                          insertError: Option<string>)
    returns (response: Result<Snapshot<J>, HttpError>, context: Option<string>)
    ensures !clientConfigured ==> response == Err(SupabaseMissing)
    ensures clientConfigured && fetched.Err? ==> response == Err(FetchFailure(fetched.error))
    ensures clientConfigured && fetched == Ok([]) ==> response == Err(NotEnoughData)
    ensures context.Some? <==> HasData(clientConfigured, fetched)
    ensures HasData(clientConfigured, fetched) ==> context == Some(PulseContext(fetched.value))
    ensures HasData(clientConfigured, fetched) && apiKey == "" ==>
      response == Err(ApiKeyMissing)
    ensures HasData(clientConfigured, fetched) && apiKey != "" && reply.Err? ==>
      response == Err(LlmFailure(reply.error))
    ensures HasData(clientConfigured, fetched) && apiKey != "" && reply.Ok? && analysis.None? ==>
      response == Err(InvalidJson(CleanReply(reply.value)))
    ensures response.Ok? ==>
      HasData(clientConfigured, fetched) && apiKey != "" && reply.Ok? && analysis.Some? && insertError.None?
    ensures HasData(clientConfigured, fetched) && apiKey != "" && reply.Ok? && analysis.Some? ==>
      response == match SnapshotOf(TechIdOf(namespace), analysis.value)
        case Err(e) => Err(e)
        case Ok(snapshot) => if insertError.Some? then Err(LlmFailure(insertError.value)) else Ok(snapshot)
  {
    var techId := TechIdOf(namespace);
    context := None;
    if !clientConfigured {
      return Err(SupabaseMissing), context;
    }
    if fetched.Err? {
      return Err(FetchFailure(fetched.error)), context;
    }
    var queries := fetched.value;
    if queries == [] {
      return Err(NotEnoughData), context;
    }
    var process, sentiment := Aggregate(queries);
    TallyOfWellFormed(Processes(queries));
    TallyOfWellFormed(Sentiments(queries));
    context := Some(RenderContext(queries, process, sentiment));
    if apiKey == "" {
      return Err(ApiKeyMissing), context;
    }
    if reply.Err? {
      return Err(LlmFailure(reply.error)), context;
    }
    var raw := CleanReply(reply.value);
    if analysis.None? {
      return Err(InvalidJson(raw)), context;
    }
    var snapshot := SnapshotOf(techId, analysis.value);
    if snapshot.Err? {
      return Err(snapshot.error), context;
    }
    if insertError.Some? {
      return Err(LlmFailure(insertError.value)), context;
    }
    response := snapshot;
  }
}
