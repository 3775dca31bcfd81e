/** The rows of `export_csv`: one `index,time_s,state,duration_us` row per
    transition. Writing the file and formatting the numbers are not modelled. */
module Export {
  import opened Stats
  import opened Timing

  /** One CSV row: the transition's index and timestamp, the state column
      `(initial + i) % 2`, and the gap to the next transition in µs. */
  datatype Row = Row(index: nat, timeS: real, state: int, durationUs: real)

  /** Row `i`: its duration is the gap to the next transition, or 0 for the last. */
  function CsvRow(times: seq<real>, initialState: int, i: nat): Row
    requires i < |times|
  {
    Row(i, times[i], (initialState + i) % 2,
        if i < |times| - 1 then (times[i + 1] - times[i]) * MicrosPerSecond else 0.0)
  }

  function CsvRows(times: seq<real>, initialState: int): seq<Row> {
    seq(|times|, i requires 0 <= i < |times| => CsvRow(times, initialState, i))
  }

  /** The loop of `export_csv`, collecting the rows it writes. */
  method ExportRows(times: seq<real>, initialState: int) returns (rows: seq<Row>)
    ensures rows == CsvRows(times, initialState)
  {
    rows := [];
    var i := 0;
    while i < |times|
      invariant 0 <= i <= |times|
      invariant rows == CsvRows(times, initialState)[..i]
    {
      var state := (initialState + i) % 2;
      var dur: real;
      if i < |times| - 1 {
        dur := (times[i + 1] - times[i]) * MicrosPerSecond;
      } else {
        dur := 0.0;
      }
      rows := rows + [Row(i, times[i], state, dur)];
      i := i + 1;
    }
  }

  /** One row per transition, numbered in order and carrying its timestamp; the
      state column is 0 or 1 and flips from row to row; the last duration is 0. */
  lemma CsvRowsShape(times: seq<real>, initialState: int)
    ensures |CsvRows(times, initialState)| == |times|
    ensures forall i :: 0 <= i < |times| ==>
      CsvRows(times, initialState)[i].index == i && CsvRows(times, initialState)[i].timeS == times[i]
      && (CsvRows(times, initialState)[i].state == 0 || CsvRows(times, initialState)[i].state == 1)
    ensures forall i :: 0 <= i < |times| - 1 ==>
      CsvRows(times, initialState)[i + 1].state == 1 - CsvRows(times, initialState)[i].state
    ensures times != [] ==> CsvRows(times, initialState)[|times| - 1].durationUs == 0.0
  {
    var rows := CsvRows(times, initialState);
    forall i | 0 <= i < |times| - 1 ensures rows[i + 1].state == 1 - rows[i].state {
      ParityFlips(initialState + i);
    }
  }

  /** Every duration but the last is the interval `analyze_timing` measures
      between that transition and the next. */
  lemma CsvRowsDurations(times: seq<real>, initialState: int)
    ensures forall i :: 0 <= i < |times| - 1 ==>
      CsvRows(times, initialState)[i].durationUs == DurationsUs(times)[i]
  {
    forall i | 0 <= i < |times| - 1 ensures CsvRows(times, initialState)[i].durationUs == DurationsUs(times)[i] {
      DurationsUsAt(times, i);
    }
  }

  lemma ParityFlips(x: int)
    ensures (x + 1) % 2 == 1 - x % 2
  {
  }

  /** The durations column adds up to the signal duration in µs. */
  lemma CsvDurationsSum(times: seq<real>, initialState: int)
    requires times != []
    ensures Sum(Durations(CsvRows(times, initialState))) == (times[|times| - 1] - times[0]) * MicrosPerSecond
  {
    var rows := CsvRows(times, initialState);
    CsvRowsShape(times, initialState);
    CsvRowsDurations(times, initialState);
    assert Durations(rows) == DurationsUs(times) + [0.0];
    SumAppendZero(DurationsUs(times));
    DurationsUsSum(times);
  }

  /** The durations column, top to bottom. */
  function Durations(rows: seq<Row>): (r: seq<real>)
    ensures |r| == |rows| && forall i :: 0 <= i < |rows| ==> r[i] == rows[i].durationUs
  {
    seq(|rows|, i requires 0 <= i < |rows| => rows[i].durationUs)
  }

  lemma {:induction false} SumAppendZero(s: seq<real>)
    ensures Sum(s + [0.0]) == Sum(s)
  {
    if s == [] {
      assert Sum([0.0]) == 0.0 + Sum([]);
    } else {
      assert (s + [0.0])[1..] == s[1..] + [0.0];
      SumAppendZero(s[1..]);
    }
  }

  /** For a 0/1 initial state, the state column of row i is 0 exactly when
      `analyze_timing` counts interval i as HIGH: the column holds the level the
      signal had before transition i, while the interval after it has the other
      level. */
  lemma CsvStateOppositeLevel(times: seq<real>, initialState: int, i: nat)
    requires initialState == 0 || initialState == 1
    requires i < |times|
    ensures CsvRows(times, initialState)[i].state == 0 <==> IsHighInterval(initialState, i)
  {
  }
}
