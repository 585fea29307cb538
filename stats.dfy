/**
 * The `!stats` moderator command of discord_gemini_bot.py: a scan of the interaction log
 * that counts the lines that parse as JSON and averages the latency of the records whose
 * two timestamps both parse.
 *
 * A log line is abstracted to what the scan can see in it. Timestamps are already-parsed
 * integers on one time scale; a timestamp that is absent, empty or not ISO-formatted is
 * `None`. A line that parses as JSON but is not an object is `Parsed(None, None)`: it is
 * counted (the count is taken before the fields are read) and has no latency.
 */
module Stats {
  import opened Wrappers

  datatype LogLine = Malformed | Parsed(sentAt: Option<int>, receivedAt: Option<int>)

  /** A line whose two timestamps both parse contributes a latency. */
  predicate HasLatency(line: LogLine) {
    line.Parsed? && line.sentAt.Some? && line.receivedAt.Some?
  }

  function Latency(line: LogLine): int
    requires HasLatency(line)
  {
    line.receivedAt.value - line.sentAt.value
  }

  /** The number of lines that parse. */
  function ParsedCount(lines: seq<LogLine>): (n: nat)
    ensures n <= |lines|
  {
    if |lines| == 0 then 0
    else ParsedCount(lines[..|lines| - 1]) + (if lines[|lines| - 1].Parsed? then 1 else 0)
  }

  /** The latencies, in log order. */
  function Latencies(lines: seq<LogLine>): (r: seq<int>)
    ensures |r| <= ParsedCount(lines)
  {
    if |lines| == 0 then []
    else
      var last := lines[|lines| - 1];
      Latencies(lines[..|lines| - 1]) + (if HasLatency(last) then [Latency(last)] else [])
  }

  function Sum(xs: seq<int>): int {
    if |xs| == 0 then 0 else Sum(xs[..|xs| - 1]) + xs[|xs| - 1]
  }

  /** The arithmetic mean, or 0 for no values. */
  function Mean(xs: seq<int>): (r: real)
    ensures |xs| == 0 ==> r == 0.0
    ensures |xs| > 0 ==> r * (|xs| as real) == Sum(xs) as real
  {
    if |xs| == 0 then 0.0 else Sum(xs) as real / |xs| as real
  }

  /** The log file's lines; a missing file has none. */
  function LogLines(file: Option<seq<LogLine>>): seq<LogLine> {
    file.GetOr([])
  }

  /** The scan the command performs, one line at a time. */
  method ComputeStats(file: Option<seq<LogLine>>) returns (total: nat, average: real)
    ensures total == ParsedCount(LogLines(file))
    ensures average == Mean(Latencies(LogLines(file)))
  {
    total := 0;
    var latencies: seq<int> := [];
    if file.Some? {
      var lines := file.value;
      var i := 0;
      while i < |lines|
        invariant 0 <= i <= |lines|
        invariant total == ParsedCount(lines[..i])
        invariant latencies == Latencies(lines[..i])
      {
        assert lines[..i + 1][..i] == lines[..i];
        var line := lines[i];
        if line.Parsed? {
          total := total + 1;
          if line.sentAt.Some? && line.receivedAt.Some? {
            latencies := latencies + [line.receivedAt.value - line.sentAt.value];
          }
        }
        i := i + 1;
      }
      assert lines[..i] == lines;
    }
    average := if |latencies| > 0 then Sum(latencies) as real / |latencies| as real else 0.0;
  }

  /** Appending a line counts it exactly when it parses. */
  lemma ParsedCountAppend(lines: seq<LogLine>, line: LogLine)
    ensures ParsedCount(lines + [line]) == ParsedCount(lines) + (if line.Parsed? then 1 else 0)
  {
    assert (lines + [line])[..|lines|] == lines;
  }

  /** Appending a line adds its latency exactly when it has one. */
  lemma LatenciesAppend(lines: seq<LogLine>, line: LogLine)
    ensures Latencies(lines + [line]) == Latencies(lines) + (if HasLatency(line) then [Latency(line)] else [])
  {
    assert (lines + [line])[..|lines|] == lines;
  }

  /** A log that gained a record with both timestamps counts one more line and has one more latency. */
  lemma AppendTimed(file: Option<seq<LogLine>>, grown: Option<seq<LogLine>>, sentAt: int, receivedAt: int)
    requires grown == Some(LogLines(file) + [Parsed(Some(sentAt), Some(receivedAt))])
    ensures ParsedCount(LogLines(grown)) == ParsedCount(LogLines(file)) + 1
    ensures Latencies(LogLines(grown)) == Latencies(LogLines(file)) + [receivedAt - sentAt]
  {
    ParsedCountAppend(LogLines(file), Parsed(Some(sentAt), Some(receivedAt)));
    LatenciesAppend(LogLines(file), Parsed(Some(sentAt), Some(receivedAt)));
  }

  /** The count over a concatenation of logs is the sum of the counts. */
  lemma {:induction false} ParsedCountConcat(a: seq<LogLine>, b: seq<LogLine>)
    ensures ParsedCount(a + b) == ParsedCount(a) + ParsedCount(b)
    decreases |b|
  {
    if |b| == 0 {
      assert a + b == a;
    } else {
      var b0 := b[..|b| - 1];
      assert a + b == (a + b0) + [b[|b| - 1]];
      assert b == b0 + [b[|b| - 1]];
      ParsedCountConcat(a, b0);
      ParsedCountAppend(a + b0, b[|b| - 1]);
      ParsedCountAppend(b0, b[|b| - 1]);
    }
  }

  function MalformedCount(lines: seq<LogLine>): nat {
    if |lines| == 0 then 0
    else MalformedCount(lines[..|lines| - 1]) + (if lines[|lines| - 1].Malformed? then 1 else 0)
  }

  /** Malformed lines are skipped, not fatal: every line is either counted or malformed. */
  lemma {:induction false} EveryLineAccounted(lines: seq<LogLine>)
    ensures ParsedCount(lines) + MalformedCount(lines) == |lines|
  {
    if |lines| > 0 {
      EveryLineAccounted(lines[..|lines| - 1]);
    }
  }

  /** A malformed line anywhere in the log changes neither the count nor the latencies. */
  lemma MalformedSkipped(a: seq<LogLine>, b: seq<LogLine>)
    ensures ParsedCount(a + [Malformed] + b) == ParsedCount(a + b)
    ensures Latencies(a + [Malformed] + b) == Latencies(a + b)
  {
    ParsedCountConcat(a + [Malformed], b);
    ParsedCountConcat(a, b);
    ParsedCountAppend(a, Malformed);
    LatenciesConcat(a + [Malformed], b);
    LatenciesConcat(a, b);
    LatenciesAppend(a, Malformed);
  }

  /** The latencies of a concatenation are the concatenation of the latencies. */
  lemma {:induction false} LatenciesConcat(a: seq<LogLine>, b: seq<LogLine>)
    ensures Latencies(a + b) == Latencies(a) + Latencies(b)
    decreases |b|
  {
    if |b| == 0 {
      assert a + b == a;
    } else {
      var last := b[|b| - 1];
      var b0 := b[..|b| - 1];
      assert a + b == (a + b0) + [last];
      assert b == b0 + [last];
      LatenciesConcat(a, b0);
      LatenciesAppend(a + b0, last);
      LatenciesAppend(b0, last);
    }
  }

  /** Every value lies between the bounds, so the sum lies between the count times each bound. */
  lemma {:induction false} SumBounds(xs: seq<int>, lo: int, hi: int)
    requires forall k :: 0 <= k < |xs| ==> lo <= xs[k] <= hi
    ensures |xs| * lo <= Sum(xs) <= |xs| * hi
  {
    if |xs| > 0 {
      var n := |xs|;
      SumBounds(xs[..n - 1], lo, hi);
      assert n * lo == (n - 1) * lo + lo;
      assert n * hi == (n - 1) * hi + hi;
    }
  }

  lemma CastProduct(a: int, b: int)
    ensures (a * b) as real == a as real * b as real
  {
  }

  lemma MulStrict(n: real, a: real, b: real)
    requires n > 0.0 && a < b
    ensures n * a < n * b
  {
    assert n * b - n * a == n * (b - a);
  }

  /** Dividing by a positive count keeps a bound: from `n * b <= x` follows `b <= x / n`, and the same above. */
  lemma DivideBounds(x: real, n: real, lo: real, hi: real)
    requires n > 0.0
    requires n * lo <= x <= n * hi
    ensures lo <= x / n <= hi
  {
    var q := x / n;
    assert n * q == x;
    if q < lo {
      MulStrict(n, q, lo);
    }
    if q > hi {
      MulStrict(n, hi, q);
    }
  }

  /** The reported average lies between any lower and upper bound on the latencies. */
  lemma MeanBetween(xs: seq<int>, lo: int, hi: int)
    requires |xs| > 0
    requires forall k :: 0 <= k < |xs| ==> lo <= xs[k] <= hi
    ensures lo as real <= Mean(xs) <= hi as real
  {
    var n := |xs|;
    var sum := Sum(xs);
    SumBounds(xs, lo, hi);
    CastProduct(n, lo);
    CastProduct(n, hi);
    DivideBounds(sum as real, n as real, lo as real, hi as real);
  }

  /** A missing or empty log reports zero interactions and a zero average. */
  lemma EmptyLogReportsZero(file: Option<seq<LogLine>>)
    requires file.None? || file.value == []
    ensures ParsedCount(LogLines(file)) == 0
    ensures Mean(Latencies(LogLines(file))) == 0.0
  {
  }

  /** A log without any complete pair of timestamps reports a zero average, however many lines it counts. */
  lemma {:induction false} NoTimestampsZeroAverage(lines: seq<LogLine>)
    requires forall k :: 0 <= k < |lines| ==> !HasLatency(lines[k])
    ensures Latencies(lines) == []
    ensures Mean(Latencies(lines)) == 0.0
  {
    if |lines| > 0 {
      NoTimestampsZeroAverage(lines[..|lines| - 1]);
    }
  }
}
