/** `guess_protocol`: checks the durations of an analysis against the bit period
    of each common UART baud rate and against the 1-Wire reset/data pulse
    pattern, then lists the guesses from the most to the least confident. */
module Protocol {
  import opened Stats
  import opened Sorting
  import opened Timing

  /** A baud rate and its bit period in microseconds, as tabulated (rounded). */
  datatype BaudRate = BaudRate(baud: nat, periodUs: real)

  /** `COMMON_BAUD_RATES`, in its insertion (iteration) order. */
  const BaudRates: seq<BaudRate> := [
    BaudRate(300, 3333.33),
    BaudRate(1200, 833.33),
    BaudRate(2400, 416.67),
    BaudRate(4800, 208.33),
    BaudRate(9600, 104.17),
    BaudRate(19200, 52.08),
    BaudRate(38400, 26.04),
    BaudRate(57600, 17.36),
    BaudRate(115200, 8.68),
    BaudRate(230400, 4.34),
    BaudRate(460800, 2.17),
    BaudRate(921600, 1.09)
  ]

  datatype Protocol = Uart(baud: nat) | OneWire

  /** The details text: the bit period of a UART guess, or the 1-Wire pulse note. */
  datatype Details = BitPeriod(periodUs: real) | ResetAndShortPulses

  /** A `(protocol_name, confidence, details)` tuple. */
  datatype Guess = Guess(protocol: Protocol, confidence: real, details: Details)

  /** Every tabulated period is positive and the baud rates strictly increase
      along the table. */
  lemma BaudRatesFacts()
    ensures |BaudRates| == 12
    ensures forall k :: 0 <= k < |BaudRates| ==> BaudRates[k].periodUs > 0.0
    ensures forall i, j :: 0 <= i < j < |BaudRates| ==> BaudRates[i].baud < BaudRates[j].baud
  {
  }

  /** `np.abs(multiples - np.round(multiples))`: how far each duration lies from
      a whole number of bit periods. */
  function Distances(durations: seq<real>, periodUs: real): (r: seq<real>)
    requires periodUs > 0.0
    ensures |r| == |durations| && Within(r, 0.0, 0.5)
  {
    seq(|durations|, i requires 0 <= i < |durations| => NearestIntDistance(durations[i] / periodUs))
  }

  /** The mean distance of the durations from whole multiples of the period. */
  function UartError(durations: seq<real>, periodUs: real): (r: real)
    requires periodUs > 0.0
    ensures 0.0 <= r <= 0.5
  {
    var ds := Distances(durations, periodUs);
    if ds == [] then 0.0 else (MeanBounds(ds, 0.0, 0.5); Mean(ds))
  }

  /** The shortest duration is within 30% of the bit period. */
  predicate UartCandidate(minUs: real, rate: BaudRate)
    requires rate.periodUs > 0.0
  {
    0.7 < minUs / rate.periodUs < 1.3
  }

  /** The UART test for one baud rate: a candidate whose durations are on average
      within 0.15 bit periods of a whole number of bits. */
  predicate UartMatches(a: Analysis, rate: BaudRate)
    requires rate.periodUs > 0.0
  {
    UartCandidate(a.all.minUs, rate) && UartError(a.durationsUs, rate.periodUs) < 0.15
  }

  function UartGuess(rate: BaudRate, error: real): Guess {
    Guess(Uart(rate.baud), MaxReal(0.3, 0.9 - error * 3.0), BitPeriod(rate.periodUs))
  }

  /** The UART test against table entry `k`. */
  predicate RateMatches(a: Analysis, k: nat)
    requires k < |BaudRates|
  {
    BaudRatesFacts();
    UartMatches(a, BaudRates[k])
  }

  /** The UART guess table entry `k` yields. */
  function RateGuess(a: Analysis, k: nat): Guess
    requires k < |BaudRates|
  {
    BaudRatesFacts();
    UartGuess(BaudRates[k], UartError(a.durationsUs, BaudRates[k].periodUs))
  }

  /** The UART guesses from the first `n` table entries, in table order. */
  function UartGuesses(a: Analysis, n: nat): seq<Guess>
    requires n <= |BaudRates|
  {
    if n == 0 then []
    else UartGuesses(a, n - 1) + (if RateMatches(a, n - 1) then [RateGuess(a, n - 1)] else [])
  }

  /** Some LOW duration lies strictly between 400 and 600 µs (a reset pulse). */
  predicate HasReset(lowUs: seq<real>) {
    exists i :: 0 <= i < |lowUs| && 400.0 < lowUs[i] < 600.0
  }

  /** Some duration is shorter than 20 µs (a data pulse). */
  predicate HasShort(durationsUs: seq<real>) {
    exists i :: 0 <= i < |durationsUs| && durationsUs[i] < 20.0
  }

  /** The 1-Wire test. */
  predicate OneWireMatches(a: Analysis) {
    a.all.minUs < 20.0 && a.all.maxUs > 400.0 && HasReset(a.lowDurationsUs) && HasShort(a.durationsUs)
  }

  const OneWireGuess: Guess := Guess(OneWire, 0.6, ResetAndShortPulses)

  /** The guesses in the order they are found, before the sort. */
  function FoundGuesses(a: Analysis): seq<Guess> {
    UartGuesses(a, |BaudRates|) + (if OneWireMatches(a) then [OneWireGuess] else [])
  }

  /** The sort key of `guesses.sort(key=lambda x: -x[1])`. */
  function ByConfidenceDescending(g: Guess): real {
    -g.confidence
  }

  /** What `guess_protocol` returns. */
  function ProtocolGuesses(a: Analysis): seq<Guess> {
    SortBy(FoundGuesses(a), ByConfidenceDescending)
  }

  /** `guess_protocol`: try each baud rate in table order, then 1-Wire, then sort
      by confidence. The analysis holds at least one duration, as every analysis
      `analyze_timing` produces does. */
  method GuessProtocol(a: Analysis) returns (guesses: seq<Guess>)
    requires a.durationsUs != []
    ensures guesses == ProtocolGuesses(a)
  {
    BaudRatesFacts();
    guesses := [];
    var i := 0;
    while i < |BaudRates|
      invariant 0 <= i <= |BaudRates|
      invariant guesses == UartGuesses(a, i)
    {
      var rate := BaudRates[i];
      if 0.7 < a.all.minUs / rate.periodUs < 1.3 {
        var error := UartError(a.durationsUs, rate.periodUs);
        if error < 0.15 {
          guesses := guesses + [Guess(Uart(rate.baud), MaxReal(0.3, 0.9 - error * 3.0), BitPeriod(rate.periodUs))];
        }
      }
      i := i + 1;
    }
    assert guesses == UartGuesses(a, |BaudRates|);
    if a.all.minUs < 20.0 && a.all.maxUs > 400.0 {
      var hasReset := HasReset(a.lowDurationsUs);
      var hasShort := HasShort(a.durationsUs);
      if hasReset && hasShort {
        guesses := guesses + [Guess(OneWire, 0.6, ResetAndShortPulses)];
      }
    }
    assert guesses == FoundGuesses(a);
    guesses := SortBy(guesses, ByConfidenceDescending);
  }

  // ---------------------------------------------------------------------------
  // Properties

  /** A UART guess's confidence: an error below 0.15 keeps 0.9 - 3 * error above
      the 0.3 floor, so the confidence is that value, in (0.45, 0.9]. */
  lemma RateGuessConfidence(a: Analysis, k: nat)
    requires k < |BaudRates| && RateMatches(a, k)
    ensures BaudRates[k].periodUs > 0.0
    ensures RateGuess(a, k).protocol == Uart(BaudRates[k].baud)
    ensures RateGuess(a, k).details == BitPeriod(BaudRates[k].periodUs)
    ensures RateGuess(a, k).confidence == 0.9 - 3.0 * UartError(a.durationsUs, BaudRates[k].periodUs)
    ensures 0.45 < RateGuess(a, k).confidence <= 0.9
  {
    BaudRatesFacts();
  }

  /** The UART guesses are exactly the guesses of the matching table entries. */
  lemma {:induction false} UartGuessesMembers(a: Analysis, n: nat)
    requires n <= |BaudRates|
    ensures |UartGuesses(a, n)| <= n
    ensures forall g :: g in UartGuesses(a, n) <==>
      exists k :: 0 <= k < n && RateMatches(a, k) && g == RateGuess(a, k)
  {
    if n > 0 {
      UartGuessesMembers(a, n - 1);
    }
  }

  /** The UART guesses are listed in strictly increasing baud rate. */
  lemma {:induction false} UartGuessesIncreasing(a: Analysis, n: nat)
    requires n <= |BaudRates|
    ensures forall i :: 0 <= i < |UartGuesses(a, n)| ==> UartGuesses(a, n)[i].protocol.Uart?
    ensures forall i, j :: 0 <= i < j < |UartGuesses(a, n)| ==>
      UartGuesses(a, n)[i].protocol.baud < UartGuesses(a, n)[j].protocol.baud
    ensures forall i :: 0 <= i < |UartGuesses(a, n)| ==>
      n > 0 && UartGuesses(a, n)[i].protocol.baud <= BaudRates[n - 1].baud
  {
    BaudRatesFacts();
    if n > 0 {
      UartGuessesIncreasing(a, n - 1);
      var prev := UartGuesses(a, n - 1);
      forall i | 0 <= i < |prev| ensures prev[i].protocol.baud < BaudRates[n - 1].baud {
        assert prev[i].protocol.baud <= BaudRates[n - 2].baud;
      }
      assert RateGuess(a, n - 1).protocol == Uart(BaudRates[n - 1].baud);
      var r := UartGuesses(a, n);
      forall i | 0 <= i < |r| ensures r[i].protocol.Uart? && r[i].protocol.baud <= BaudRates[n - 1].baud {
        if i < |prev| {
          assert r[i] == prev[i];
        }
      }
    } else {
      assert UartGuesses(a, n) == [];
    }
  }

  /** The order the guesses are found in: UART guesses by increasing baud rate,
      then 1-Wire. */
  predicate FoundBefore(x: Guess, y: Guess) {
    x.protocol.Uart? && (y.protocol.OneWire? || x.protocol.baud < y.protocol.baud)
  }

  lemma FoundGuessesOrder(a: Analysis)
    ensures forall i, j :: 0 <= i < j < |FoundGuesses(a)| ==> FoundBefore(FoundGuesses(a)[i], FoundGuesses(a)[j])
  {
    UartGuessesIncreasing(a, |BaudRates|);
    var u := UartGuesses(a, |BaudRates|);
    var f := FoundGuesses(a);
    forall i, j | 0 <= i < j < |f| ensures FoundBefore(f[i], f[j]) {
      assert f[i] == u[i];
      if j < |u| {
        assert f[j] == u[j];
      }
    }
  }

  /** The sort permutes the guesses found. */
  lemma ProtocolGuessesPermute(a: Analysis)
    ensures multiset(ProtocolGuesses(a)) == multiset(FoundGuesses(a))
    ensures forall g :: g in ProtocolGuesses(a) <==> g in FoundGuesses(a)
  {
    SortByFacts(FoundGuesses(a), ByConfidenceDescending);
    forall g ensures g in ProtocolGuesses(a) <==> g in FoundGuesses(a) {
      assert g in ProtocolGuesses(a) <==> g in multiset(ProtocolGuesses(a));
      assert g in FoundGuesses(a) <==> g in multiset(FoundGuesses(a));
    }
  }

  /** The baud rate of table entry `k` is guessed exactly when that entry's UART
      test passes, and then with confidence 0.9 - 3 * error. */
  lemma UartGuessIff(a: Analysis, k: nat)
    requires k < |BaudRates|
    ensures (exists g :: g in ProtocolGuesses(a) && g.protocol == Uart(BaudRates[k].baud)) <==> RateMatches(a, k)
    ensures RateMatches(a, k) ==> RateGuess(a, k) in ProtocolGuesses(a)
  {
    BaudRatesFacts();
    ProtocolGuessesPermute(a);
    UartGuessesMembers(a, |BaudRates|);
    if g :| g in ProtocolGuesses(a) && g.protocol == Uart(BaudRates[k].baud) {
      assert g in UartGuesses(a, |BaudRates|);
      var k' :| 0 <= k' < |BaudRates| && RateMatches(a, k') && g == RateGuess(a, k');
      assert BaudRates[k'].baud == BaudRates[k].baud;
      assert k' == k;
    }
    if RateMatches(a, k) {
      assert RateGuess(a, k) in UartGuesses(a, |BaudRates|);
    }
  }

  /** 1-Wire is guessed exactly when its test passes, and always with confidence 0.6. */
  lemma OneWireGuessIff(a: Analysis)
    ensures (exists g :: g in ProtocolGuesses(a) && g.protocol == OneWire) <==> OneWireMatches(a)
    ensures forall g :: g in ProtocolGuesses(a) && g.protocol == OneWire ==> g == OneWireGuess
  {
    ProtocolGuessesPermute(a);
    UartGuessesIncreasing(a, |BaudRates|);
    var u := UartGuesses(a, |BaudRates|);
    forall g | g in ProtocolGuesses(a) && g.protocol == OneWire ensures g == OneWireGuess && OneWireMatches(a) {
      assert g !in u;
    }
    if OneWireMatches(a) {
      assert OneWireGuess in FoundGuesses(a);
    }
  }

  /** Every guess is a UART guess with confidence in (0.45, 0.9] and its table
      bit period, or the 1-Wire guess with confidence 0.6. */
  lemma GuessConfidences(a: Analysis)
    ensures forall g :: g in ProtocolGuesses(a) ==>
      (g.protocol.Uart? && 0.45 < g.confidence <= 0.9 && g.details.BitPeriod?) || g == OneWireGuess
  {
    ProtocolGuessesPermute(a);
    UartGuessesMembers(a, |BaudRates|);
    forall g | g in ProtocolGuesses(a)
      ensures (g.protocol.Uart? && 0.45 < g.confidence <= 0.9 && g.details.BitPeriod?) || g == OneWireGuess
    {
      if g in UartGuesses(a, |BaudRates|) {
        var k :| 0 <= k < |BaudRates| && RateMatches(a, k) && g == RateGuess(a, k);
        RateGuessConfidence(a, k);
      }
    }
  }

  /** At most one guess per table entry plus 1-Wire; the list runs from the most
      to the least confident, and guesses of equal confidence stay in the order
      they were found (UART by increasing baud rate, then 1-Wire). */
  lemma GuessOrder(a: Analysis)
    ensures |ProtocolGuesses(a)| <= |BaudRates| + 1
    ensures forall i, j :: 0 <= i < j < |ProtocolGuesses(a)| ==>
      ProtocolGuesses(a)[i].confidence >= ProtocolGuesses(a)[j].confidence
    ensures forall i, j ::
      (0 <= i < j < |ProtocolGuesses(a)| && ProtocolGuesses(a)[i].confidence == ProtocolGuesses(a)[j].confidence) ==>
      FoundBefore(ProtocolGuesses(a)[i], ProtocolGuesses(a)[j])
  {
    var f := FoundGuesses(a);
    var r := ProtocolGuesses(a);
    UartGuessesMembers(a, |BaudRates|);
    SortByFacts(f, ByConfidenceDescending);
    FoundGuessesOrder(a);
    SortByKeepsTies(f, ByConfidenceDescending, FoundBefore);
    forall i, j | 0 <= i < j < |r| ensures r[i].confidence >= r[j].confidence {
      assert ByConfidenceDescending(r[i]) <= ByConfidenceDescending(r[j]);
    }
    forall i, j | 0 <= i < j < |r| && r[i].confidence == r[j].confidence ensures FoundBefore(r[i], r[j]) {
      assert ByConfidenceDescending(r[i]) == ByConfidenceDescending(r[j]);
    }
  }

  /** Two table entries can both have the shortest duration within their 30%
      window only for 38400 and 57600 baud, whose periods are 1.5 apart; every
      other pair of neighbouring periods is about a factor of 2 apart. */
  lemma CandidateWindowsOverlap(minUs: real, i: nat, j: nat)
    requires i < j < |BaudRates|
    requires BaudRates[i].periodUs > 0.0 && BaudRates[j].periodUs > 0.0
    requires UartCandidate(minUs, BaudRates[i]) && UartCandidate(minUs, BaudRates[j])
    ensures BaudRates[i].baud == 38400 && BaudRates[j].baud == 57600
  {
    var p, q := BaudRates[i].periodUs, BaudRates[j].periodUs;
    assert 0.7 * p < minUs by {
      assert minUs / p * p == minUs;
    }
    assert minUs < 1.3 * q by {
      assert minUs / q * q == minUs;
    }
    assert 0.7 * p < 1.3 * q;
  }

  /** A shortest duration of 20 µs is in the window of both 38400 and 57600 baud. */
  lemma CandidateWindowsShared()
    ensures UartCandidate(20.0, BaudRates[6]) && UartCandidate(20.0, BaudRates[7])
  {
  }

  /** When every duration is a whole number of bit periods the error is 0, and a
      candidate rate is guessed with the top confidence 0.9. */
  lemma ExactMultiples(a: Analysis, k: nat)
    requires k < |BaudRates| && BaudRates[k].periodUs > 0.0
    requires UartCandidate(a.all.minUs, BaudRates[k])
    requires forall i :: 0 <= i < |a.durationsUs| ==>
      a.durationsUs[i] / BaudRates[k].periodUs == (a.durationsUs[i] / BaudRates[k].periodUs).Floor as real
    ensures UartError(a.durationsUs, BaudRates[k].periodUs) == 0.0
    ensures Guess(Uart(BaudRates[k].baud), 0.9, BitPeriod(BaudRates[k].periodUs)) in ProtocolGuesses(a)
  {
    var ds := Distances(a.durationsUs, BaudRates[k].periodUs);
    SumZero(ds);
    assert RateMatches(a, k);
    UartGuessIff(a, k);
    RateGuessConfidence(a, k);
  }

  /** In an analysis of a capture, the shortest duration is one of the durations,
      so the `has_short` test adds nothing to `all_min < 20`. */
  lemma OneWireOnAnalysis(c: Capture)
    requires |c.times| >= 2
    ensures var a := AnalyzeTiming(c).analysis;
      OneWireMatches(a) <==> a.all.minUs < 20.0 && a.all.maxUs > 400.0 && HasReset(a.lowDurationsUs)
  {
    var a := AnalyzeTiming(c).analysis;
    var i :| 0 <= i < |a.durationsUs| && a.durationsUs[i] == a.all.minUs;
  }

  lemma MeanOfTwo(x: real, y: real)
    ensures Mean([x, y]) == (x + y) / 2.0
  {
    assert Sum([x, y]) == x + Sum([y]);
    assert Sum([y]) == y + Sum([]);
  }

  /** 20 µs is 0.768 bits at 38400 baud and 52.08 µs exactly two. */
  lemma ErrorAt38400()
    ensures UartError([20.0, 52.08], 26.04) == (1.0 - 20.0 / 26.04) / 2.0
  {
    var ds := Distances([20.0, 52.08], 26.04);
    assert (20.0 / 26.04).Floor == 0;
    assert NearestIntDistance(20.0 / 26.04) == 1.0 - 20.0 / 26.04;
    assert 52.08 / 26.04 == 2.0;
    assert NearestIntDistance(2.0) == 0.0;
    assert ds == [1.0 - 20.0 / 26.04, 0.0];
    MeanOfTwo(1.0 - 20.0 / 26.04, 0.0);
  }

  /** 20 µs is 1.152 bits at 57600 baud and 52.08 µs exactly three. */
  lemma ErrorAt57600()
    ensures UartError([20.0, 52.08], 17.36) == (20.0 / 17.36 - 1.0) / 2.0
  {
    var ds := Distances([20.0, 52.08], 17.36);
    assert (20.0 / 17.36).Floor == 1;
    assert NearestIntDistance(20.0 / 17.36) == 20.0 / 17.36 - 1.0;
    assert 52.08 / 17.36 == 3.0;
    assert NearestIntDistance(3.0) == 0.0;
    assert ds == [20.0 / 17.36 - 1.0, 0.0];
    MeanOfTwo(20.0 / 17.36 - 1.0, 0.0);
  }

  lemma ExampleDurations()
    ensures var a := AnalyzeTiming(Capture([0.0, 0.00002, 0.00007208], 0, 0.0, 0.0001)).analysis;
      a.durationsUs == [20.0, 52.08] && a.all.minUs == 20.0
  {
    var times := [0.0, 0.00002, 0.00007208];
    DurationsUsAt(times, 0);
    DurationsUsAt(times, 1);
    assert DurationsUs(times) == [20.0, 52.08];
  }

  /** With intervals of 20 µs and 52.08 µs both 38400 and 57600 baud pass the
      UART test, 57600 with the smaller error. */
  lemma ExampleMatches(a: Analysis)
    requires a.durationsUs == [20.0, 52.08] && a.all.minUs == 20.0
    ensures RateMatches(a, 6) && RateMatches(a, 7)
    ensures RateGuess(a, 7).confidence > RateGuess(a, 6).confidence
  {
    ErrorAt38400();
    ErrorAt57600();
    assert RateMatches(a, 6) && RateMatches(a, 7);
    RateGuessConfidence(a, 6);
    RateGuessConfidence(a, 7);
  }

  /** A capture whose intervals are 20 µs and 52.08 µs draws two UART guesses:
      57600 baud (52.08 is three of its bits) ahead of 38400 baud (two bits). */
  lemma TwoUartGuesses()
    ensures var a := AnalyzeTiming(Capture([0.0, 0.00002, 0.00007208], 0, 0.0, 0.0001)).analysis;
      RateGuess(a, 6) in ProtocolGuesses(a) && RateGuess(a, 7) in ProtocolGuesses(a) &&
      RateGuess(a, 6).protocol == Uart(38400) && RateGuess(a, 7).protocol == Uart(57600) &&
      RateGuess(a, 7).confidence > RateGuess(a, 6).confidence
  {
    var a := AnalyzeTiming(Capture([0.0, 0.00002, 0.00007208], 0, 0.0, 0.0001)).analysis;
    ExampleDurations();
    ExampleMatches(a);
    UartGuessIff(a, 6);
    UartGuessIff(a, 7);
    RateGuessConfidence(a, 6);
    RateGuessConfidence(a, 7);
  }
}
