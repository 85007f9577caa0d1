/**
 * parseOutput of internal/mtr/mtr.go as the loops it is written with: one
 * pass over the lines updating the three tables, a pass over the hops for
 * the largest hop number, a pass finishing every hop, and the listing loop
 * from hop 1 up. Each loop is proved to compute the corresponding
 * definition of Scan and Sequencing, whose properties are proved there.
 *
 * The tables are keyed by hop number rather than by its decimal spelling
 * (Text.AtoiItoa: the spelling is one-to-one). Go's random map iteration
 * order becomes an arbitrary choice of the next key.
 */
module Parser {
  import opened Wrappers
  import opened Text
  import opened Hops
  import opened Scan
  import opened Sequencing

  /**
   * The square root of a value known to be the square of `d`; it is only
   * ever taken of such a value here.
   */
  function SquareRoot(v: real, d: real): (r: real)
    requires v == d * d
    ensures r >= 0.0 && r * r == v
  {
    Abs(d)
  }

  lemma DivideProduct(k: real, x: real)
    requires k > 0.0
    ensures (k * x) / k == x
  {
  }

  /**
   * StDev after the n-th sample: the squared distance of the latest sample
   * from the average, added up n - 1 times, divided by n - 1, square root;
   * that is the distance of the latest sample from the average.
   */
  method StdDevOfLatest(last: real, avg: real, n: nat) returns (sd: real)
    requires n > 1
    ensures sd == Abs(last - avg)
  {
    var d := last - avg;
    var sq := d * d;
    var sumSq := 0.0;
    var i := 0;
    while i < n - 1
      invariant 0 <= i <= n - 1
      invariant sumSq == (i as real) * sq
    {
      sumSq := sumSq + sq;
      i := i + 1;
    }
    DivideProduct((n - 1) as real, sq);
    sd := SquareRoot(sumSq / ((n - 1) as real), d);
  }

  /** A latency sample of `ms` milliseconds recorded with received counter `n`. */
  method RecordSample(l: Latency, ms: real, n: nat) returns (r: Latency)
    requires n >= 1
    ensures r == Sample(l, ms, n)
  {
    var best := l.best;
    if best.None? || ms < best.value {
      best := Some(ms);
    }
    var worst := l.worst;
    if ms > worst {
      worst := ms;
    }
    var avg := (l.avg * ((n - 1) as real) + ms) / (n as real);
    assert avg == NextAvg(l.avg, ms, n);
    var stDev := l.stDev;
    if n > 1 {
      stDev := StdDevOfLatest(ms, avg, n);
    }
    r := Latency(ms, avg, best, worst, stDev);
  }

  /** One raw line applied to the three tables. */
  method ScanLine(hops: map<int, HopStats>, seqs: map<string, int>, received: map<int, nat>, line: string, count: int)
    returns (hops': map<int, HopStats>, seqs': map<string, int>, received': map<int, nat>)
    requires Inv(State(hops, seqs, received), count)
    ensures State(hops', seqs', received') == ApplyLine(State(hops, seqs, received), line, count)
  {
    hops', seqs', received' := hops, seqs, received;
    if line == "" {
      return;
    }
    var parts := Fields(line);
    if |parts| < 2 {
      return;
    }
    var kind := parts[0];
    var key := HopKey(parts[1]);
    if key !in hops' {
      hops' := hops'[key := NewHop(key, count)];
    }
    assert State(hops', seqs', received') == WithHop(State(hops, seqs, received), key, count);
    var hop := hops'[key];
    if kind == "h" {
      if |parts| >= 3 {
        hop := hop.(ip := parts[2]);
        if hop.hostname == Unresolved {
          hop := hop.(hostname := parts[2]);
        }
        hops' := hops'[key := hop];
      }
    } else if kind == "d" {
      if |parts| >= 3 {
        hops' := hops'[key := hop.(hostname := Join(parts[2..], " "))];
      }
    } else if kind == "x" {
      if |parts| >= 3 {
        seqs' := seqs'[parts[2] := key];
      }
    } else if kind == "p" {
      if |parts| >= 4 && parts[3] in seqs' {
        hops', received' := RecordPing(hops', seqs', received', parts, key, count);
      }
    }
  }

  /** A ping record whose sequence id is bound. */
  method RecordPing(hops: map<int, HopStats>, seqs: map<string, int>, received: map<int, nat>,
                    parts: seq<string>, key: int, count: int)
    returns (hops': map<int, HopStats>, received': map<int, nat>)
    requires Inv(State(hops, seqs, received), count) && key in hops
    requires |parts| >= 4 && parts[3] in seqs
    ensures State(hops', seqs, received') == Ping(State(hops, seqs, received), parts, key, count)
  {
    var target := seqs[parts[3]];
    var got := (if key in received then received[key] else 0) + 1;
    received' := received[key := got];
    hops' := hops;
    ghost var s := State(hops, seqs, received);
    assert got == Received(s, key) + 1;
    assert State(hops', seqs, received') == Counted(s, key, count);
    var usec := ParseFloat(parts[2]);
    if usec.Some? {
      var ms := usec.value / 1000.0;
      var latency := RecordSample(hops[target].latency, ms, got);
      hops' := hops[target := hops[target].(latency := latency)];
      ParsedPing(s, parts, key, count);
      assert State(hops', seqs, received') == WithSample(Counted(s, key, count), target, ms, got, count);
    }
  }

  /** The largest hop number among the hops, and at least 0. */
  method LargestHop(hops: map<int, HopData>) returns (maxHop: int)
    requires Keyed(hops)
    ensures maxHop == MaxHop(hops.Keys)
  {
    maxHop := 0;
    var rest := hops.Keys;
    while rest != {}
      invariant rest <= hops.Keys
      invariant IsMaxHop(hops.Keys - rest, maxHop)
      decreases |rest|
    {
      NoMemberEmpty(rest);
      var k :| k in rest;
      assert hops[k].hop == k;
      if hops[k].hop > maxHop {
        maxHop := hops[k].hop;
      }
      assert forall x :: x in hops.Keys - (rest - {k}) ==> x == k || x in hops.Keys - rest;
      rest := rest - {k};
    }
    assert hops.Keys - rest == hops.Keys;
    MaxHopUnique(hops.Keys, maxHop, MaxHop(hops.Keys));
  }

  /** Every hop finished: Best without its sentinel, Loss% from its received counter. */
  method FinishHops(s: State, count: int) returns (m: map<int, HopData>)
    ensures m == Finalise(s, count)
  {
    m := map[];
    var rest := s.hops.Keys;
    while rest != {}
      invariant rest <= s.hops.Keys
      invariant m == map k | k in s.hops.Keys - rest :: Finalised(s.hops[k], Received(s, k), count)
      decreases |rest|
    {
      NoMemberEmpty(rest);
      var k :| k in rest;
      var h := s.hops[k];
      var best := if h.latency.best.Some? then h.latency.best.value else 0.0;
      var got := if k in s.received then s.received[k] else 0;
      var loss := if count > 0 then 100.0 * ((count as real) - (got as real)) / (count as real) else 100.0;
      var l := h.latency;
      m := m[k := HopData(h.hop, h.hostname, h.ip, loss, h.sent, l.last, l.avg, best, l.worst, l.stDev)];
      rest := rest - {k};
    }
    assert s.hops.Keys - rest == s.hops.Keys;
  }

  /**
   * The listing loop, counting from 1 to maxHop with an unbounded counter
   * (the loop as written counts with a Go int; see
   * Sequencing.ListingNeverEnds).
   */
  method ListHops(m: map<int, HopData>, maxHop: int) returns (result: seq<HopData>)
    requires maxHop >= 0
    ensures result == Emitted(m, 1, maxHop, None)
  {
    result := [];
    var last: Option<HopData> := None;
    var i := 1;
    while i <= maxHop
      invariant 1 <= i <= maxHop + 1
      invariant result + Emitted(m, i, maxHop, last) == Emitted(m, 1, maxHop, None)
      decreases maxHop - i + 1
    {
      if i in m {
        var hop := m[i];
        if !(last.Some? && i > 1 && Duplicate(hop, last.value)) {
          result := result + [hop];
          last := Some(hop);
        }
      }
      i := i + 1;
    }
  }

  /**
   * parseOutput: the rows of the raw mtr output `output` for `count`
   * configured probes.
   */
  method ParseOutput(output: string, count: int) returns (result: seq<HopData>)
    ensures result == Ordered(Finalise(Scanned(Split(output, '\n'), count), count))
  {
    var lines := Split(output, '\n');
    var hops: map<int, HopStats> := map[];
    var seqs: map<string, int> := map[];
    var received: map<int, nat> := map[];
    var n := 0;
    while n < |lines|
      invariant 0 <= n <= |lines|
      invariant State(hops, seqs, received) == Scanned(lines[..n], count)
    {
      hops, seqs, received := ScanLine(hops, seqs, received, lines[n], count);
      assert lines[..n + 1][..n] == lines[..n];
      n := n + 1;
    }
    assert lines[..n] == lines;
    var s := State(hops, seqs, received);
    var m := FinishHops(s, count);
    FinishedKeyed(lines, count);
    var maxHop := LargestHop(m);
    result := ListHops(m, maxHop);
  }

  /** A finished hop is stored under its own number. */
  lemma FinishedKeyed(lines: seq<string>, count: int)
    ensures Keyed(Finalise(Scanned(lines, count), count))
  {
  }

  /**
   * The rows parseOutput returns: in strictly increasing hop order from
   * hop 1, each the hop of a line of the output; no row repeats the
   * address or name of the row before it; a hop left out repeats the row
   * listed last before it; every row reports the configured count as
   * Sent, Best <= Worst, a non-negative StDev and a Loss% of at most 100.
   */
  lemma ParsedRows(output: string, count: int)
    ensures var lines := Split(output, '\n');
      var m := Finalise(Scanned(lines, count), count);
      var r := Ordered(m);
      && Increasing(r)
      && NoRepeats(r)
      && (forall k :: k in m && 1 <= k && !Listed(r, k) ==> RepeatsLastBefore(r, k, m[k]))
      && forall j :: 0 <= j < |r| ==>
           && 1 <= r[j].hop && r[j].hop in LineKeys(lines)
           && r[j].sent == count
           && r[j].best <= r[j].worst
           && r[j].stDev >= 0.0
           && r[j].loss <= 100.0
  {
    var lines := Split(output, '\n');
    var s := Scanned(lines, count);
    var m := Finalise(s, count);
    FinishedKeyed(lines, count);
    OrderedListing(m);
    ScannedKeys(lines, count);
    var r := Ordered(m);
    forall j | 0 <= j < |r|
      ensures 1 <= r[j].hop && r[j].hop in LineKeys(lines)
      ensures r[j].sent == count && r[j].best <= r[j].worst && r[j].stDev >= 0.0 && r[j].loss <= 100.0
    {
      var k := r[j].hop;
      assert RowsOf(m, r, 1, MaxHop(m.Keys));
      assert k in m && m[k] == r[j];
      LossBoundaries(count, Received(s, k));
    }
  }

  // -----------------------------------------------------------------------
  // An index field that makes the listing loop as written run forever
  // -----------------------------------------------------------------------

  /** The decimal spelling of MaxInt64 - 1, "9223372036854775806". */
  const LargestIndexField: string := Itoa(MaxInt64 - 1)

  /** An address record whose index names hop MaxInt64. */
  const LargestIndexLine: string := "h " + LargestIndexField + " x"

  /**
   * For the output "h 9223372036854775806 x" the largest hop number is
   * MaxInt64, so the listing loop as written, whose Go int counter wraps
   * around instead of exceeding MaxInt64, does not finish within any
   * number of rounds.
   */
  lemma LargestIndexLoopNeverEnds(count: int, fuel: nat)
    ensures var m := Finalise(Scanned(Split(LargestIndexLine, '\n'), count), count);
      && MaxHop(m.Keys) == MaxInt64
      && ListingAsWritten(m, 1, MaxHop(m.Keys), None, fuel) == None
  {
    LargestIndexKeys(count);
    var m := Finalise(Scanned(Split(LargestIndexLine, '\n'), count), count);
    assert IsMaxHop(m.Keys, MaxInt64);
    MaxHopUnique(m.Keys, MaxHop(m.Keys), MaxInt64);
    ListingNeverEnds(m, 1, None, fuel);
  }

  /**
   * With the unbounded counter the same output lists its single hop, the
   * hop numbered MaxInt64.
   */
  lemma LargestIndexListed(count: int)
    ensures var m := Finalise(Scanned(Split(LargestIndexLine, '\n'), count), count);
      MaxInt64 in m && Ordered(m) == [m[MaxInt64]]
  {
    var m := Finalise(Scanned(Split(LargestIndexLine, '\n'), count), count);
    LargestIndexKeys(count);
    SingleHopListed(m, MaxInt64);
  }

  /** A single hop numbered from 1 up is listed alone. */
  lemma SingleHopListed(m: map<int, HopData>, k: int)
    requires m.Keys == {k} && k >= 1
    ensures Ordered(m) == [m[k]]
  {
    assert IsMaxHop(m.Keys, k);
    MaxHopUnique(m.Keys, MaxHop(m.Keys), k);
    EmittedFirst(m, 1, k, k);
  }

  /** The output has one line, whose only hop is numbered MaxInt64. */
  lemma LargestIndexKeys(count: int)
    ensures Finalise(Scanned(Split(LargestIndexLine, '\n'), count), count).Keys == {MaxInt64}
  {
    LargestIndexLineSplit();
    LargestIndexFields();
    HopKeyOfIndex(MaxInt64 - 1);
    assert HasIndex(LargestIndexLine);
    assert LineKey(LargestIndexLine) == MaxInt64;
    SingleLineKeys(LargestIndexLine, count);
  }

  // -----------------------------------------------------------------------
  // An index field whose leading digits overflow
  // -----------------------------------------------------------------------

  /**
   * An address record whose index field begins with digits that overflow
   * 64 bits, such as "h 99999999999999999999x 10.0.0.1", names hop
   * MinInt64: Atoi stops at the overflow with MaxInt64 and a range error,
   * the error is ignored and the increment wraps. Its hop exists but, being
   * numbered below 1, is never listed.
   */
  lemma OverflowingIndexUnlisted(field: string, address: string, count: int)
    requires IsWord(field) && IsWord(address)
    requires Overflows(field) && !Negative(field)
    ensures var m := Finalise(Scanned(["h " + field + " " + address], count), count);
      m.Keys == {MinInt64} && Ordered(m) == []
  {
    var line := "h " + field + " " + address;
    var words := ["h", field, address];
    assert words[1..] == [field, address] && words[1..][1..] == [address];
    assert Join([address], " ") == address;
    assert Join(words, " ") == "h" + " " + (field + " " + address);
    assert Join(words, " ") == line;
    assert forall i :: 0 <= i < |words| ==> IsWord(words[i]);
    FieldsOfJoin(words);
    assert HasIndex(line) && LineKey(line) == MinInt64;
    SingleLineKeys(line, count);
    var m := Finalise(Scanned([line], count), count);
    assert IsMaxHop(m.Keys, 0);
    MaxHopUnique(m.Keys, MaxHop(m.Keys), 0);
  }

  lemma SingleLineKeys(line: string, count: int)
    requires HasIndex(line)
    ensures Finalise(Scanned([line], count), count).Keys == {LineKey(line)}
  {
    ScannedKeys([line], count);
    assert LineKeys([line]) == {LineKey(line)};
  }

  lemma LargestIndexFieldIsWord()
    ensures IsWord(LargestIndexField)
  {
    var s := NatToString(MaxInt64 - 1);
    assert LargestIndexField == s;
    forall i | 0 <= i < |s|
      ensures !IsSpace(s[i])
    {
      assert IsDigit(s[i]);
    }
  }

  lemma LargestIndexLineSplit()
    ensures Split(LargestIndexLine, '\n') == [LargestIndexLine]
  {
    LargestIndexFieldIsWord();
    assert '\n' !in LargestIndexField;
    assert '\n' !in "h " && '\n' !in " x";
    SplitWithoutSeparator(LargestIndexLine, '\n');
  }

  lemma LargestIndexFields()
    ensures Fields(LargestIndexLine) == ["h", LargestIndexField, "x"]
  {
    var words := ["h", LargestIndexField, "x"];
    LargestIndexFieldIsWord();
    assert words[1..] == [LargestIndexField, "x"] && words[1..][1..] == ["x"];
    assert Join(["x"], " ") == "x";
    assert Join(words[1..], " ") == LargestIndexField + " " + "x";
    assert Join(words, " ") == "h" + " " + (LargestIndexField + " " + "x");
    assert Join(words, " ") == LargestIndexLine;
    assert forall i :: 0 <= i < |words| ==> IsWord(words[i]);
    FieldsOfJoin(words);
  }
}
