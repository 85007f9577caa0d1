/**
 * The single pass of parseOutput over the raw records, as a pure step
 * function over its three tables (hop index -> hop, sequence id -> hop
 * index, hop index -> received pings) folded over the lines, and the
 * finalisation that follows the pass. Parser.ParseOutput performs the same
 * steps imperatively and is proved to agree with these definitions.
 *
 * The source keys its tables by the decimal spelling of the hop index;
 * Text.AtoiItoa shows that spelling is one-to-one on int64, so the tables
 * here are keyed by the index itself.
 */
module Scan {
  import opened Wrappers
  import opened Text
  import opened Hops

  datatype State = State(
    hops: map<int, HopStats>,
    seqs: map<string, int>,
    received: map<int, nat>)

  const Start: State := State(map[], map[], map[])

  /** The received counter of hop `k`; a missing entry reads as 0, like a Go map. */
  function Received(s: State, k: int): nat {
    if k in s.received then s.received[k] else 0
  }

  /**
   * The 1-based hop index of an index field: Atoi plus one, on 64 bits, with
   * Atoi's error ignored. A field whose leading digits overflow reads as
   * MaxInt64 and so wraps round to MinInt64.
   */
  function HopKey(field: string): (k: int)
    ensures MinInt64 <= k <= MaxInt64
    ensures IsDecimal(field) && MinInt64 <= DecimalValue(field) < MaxInt64 ==> k == DecimalValue(field) + 1
    ensures IsDecimal(field) && DecimalValue(field) >= MaxInt64 ==> k == MinInt64
    ensures IsDecimal(field) && DecimalValue(field) < MinInt64 ==> k == MinInt64 + 1
    ensures !IsDecimal(field) && !Overflows(field) ==> k == 1
    ensures Overflows(field) && !Negative(field) ==> k == MinInt64
    ensures Overflows(field) && Negative(field) ==> k == MinInt64 + 1
  {
    Inc64(Atoi(field).0)
  }

  /** A non-numeric index field whose digits do not overflow parses as 0 and so names hop 1. */
  lemma HopKeyOfNonNumeric(field: string)
    requires !IsDecimal(field) && !Overflows(field)
    ensures HopKey(field) == 1
  {
  }

  /** The zero-based index n, written in decimal, names hop n + 1. */
  lemma HopKeyOfIndex(n: nat)
    requires n < MaxInt64
    ensures HopKey(Itoa(n)) == n + 1
  {
    AtoiItoa(n);
  }

  /** Every sequence binding and every counter refers to a hop that exists. */
  predicate Linked(s: State) {
    && (forall q :: q in s.seqs ==> s.seqs[q] in s.hops)
    && (forall k :: k in s.received ==> k in s.hops)
  }

  /** What the tables satisfy throughout the pass. */
  predicate Inv(s: State, count: int) {
    && Linked(s)
    && forall k :: k in s.hops ==>
         s.hops[k].hop == k && s.hops[k].sent == count && Consistent(s.hops[k].latency)
  }

  /** The tables with an entry for hop `key`, created fresh when missing. */
  function WithHop(s: State, key: int, count: int): (r: State)
    requires Inv(s, count)
    ensures Inv(r, count) && r.hops.Keys == s.hops.Keys + {key}
    ensures r.seqs == s.seqs && r.received == s.received
    ensures forall k :: k in s.hops ==> r.hops[k] == s.hops[k]
    ensures key !in s.hops ==> r.hops[key] == NewHop(key, count)
  {
    if key in s.hops then s else s.(hops := s.hops[key := NewHop(key, count)])
  }

  /** One more reply counted for hop `key`. */
  function Counted(s: State, key: int, count: int): (r: State)
    requires Inv(s, count) && key in s.hops
    ensures Inv(r, count) && r.hops == s.hops && r.seqs == s.seqs
    ensures r.received == s.received[key := Received(s, key) + 1]
  {
    s.(received := s.received[key := Received(s, key) + 1])
  }

  /** A latency sample of `ms` milliseconds recorded on hop `target` with counter `n`. */
  function WithSample(s: State, target: int, ms: real, n: nat, count: int): (r: State)
    requires Inv(s, count) && target in s.hops && n >= 1
    ensures Inv(r, count) && r.hops.Keys == s.hops.Keys
    ensures r.seqs == s.seqs && r.received == s.received
    ensures r.hops == s.hops[target := s.hops[target].(latency := Sample(s.hops[target].latency, ms, n))]
  {
    var h := s.hops[target];
    var l := Sample(h.latency, ms, n);
    assert Consistent(l);
    s.(hops := s.hops[target := h.(latency := l)])
  }

  /**
   * A ping record whose sequence id is bound: the counter of the record's
   * OWN hop goes up first, then a parseable latency (microseconds) is
   * recorded, in milliseconds, on the hop the sequence id is bound to,
   * averaged with that counter.
   */
  function Ping(s: State, parts: seq<string>, key: int, count: int): (r: State)
    requires Inv(s, count) && key in s.hops
    requires |parts| >= 4 && parts[3] in s.seqs
    ensures Inv(r, count) && r.hops.Keys == s.hops.Keys
    ensures r.seqs == s.seqs && r.received == s.received[key := Received(s, key) + 1]
    ensures ParseFloat(parts[2]).None? ==> r.hops == s.hops
    ensures ParseFloat(parts[2]).Some? ==>
      var target := s.seqs[parts[3]];
      var ms := ParseFloat(parts[2]).value / 1000.0;
      var n := Received(s, key) + 1;
      r.hops == s.hops[target := s.hops[target].(latency := Sample(s.hops[target].latency, ms, n))]
  {
    var counted := Counted(s, key, count);
    match ParseFloat(parts[2])
    case None => counted
    case Some(usec) => WithSample(counted, s.seqs[parts[3]], usec / 1000.0, Received(s, key) + 1, count)
  }

  /** The effect of one record on tables that already hold its hop. */
  function ApplyRecord(s: State, parts: seq<string>, key: int, count: int): (r: State)
    requires Inv(s, count) && key in s.hops && |parts| >= 2
    ensures Inv(r, count) && r.hops.Keys == s.hops.Keys
  {
    var kind := parts[0];
    if kind == "h" then
      if |parts| >= 3 then s.(hops := s.hops[key := WithAddress(s.hops[key], parts[2])]) else s
    else if kind == "d" then
      if |parts| >= 3 then s.(hops := s.hops[key := s.hops[key].(hostname := Join(parts[2..], " "))]) else s
    else if kind == "x" then
      if |parts| >= 3 then s.(seqs := s.seqs[parts[2] := key]) else s
    else if kind == "p" then
      if |parts| >= 4 && parts[3] in s.seqs then Ping(s, parts, key, count) else s
    else s
  }

  /** The hop index a record names: its second field. */
  function RecordKey(parts: seq<string>): int
    requires |parts| >= 2
  {
    HopKey(parts[1])
  }

  /**
   * The fields of one line: a record with fewer than two fields is
   * skipped; any other record first makes sure its hop exists, whatever
   * its type tag, then takes effect.
   */
  function ApplyFields(s: State, parts: seq<string>, count: int): (r: State)
    requires Inv(s, count)
    ensures Inv(r, count)
    ensures r.hops.Keys == s.hops.Keys + (if |parts| >= 2 then {RecordKey(parts)} else {})
  {
    if |parts| < 2 then s
    else ApplyRecord(WithHop(s, RecordKey(parts), count), parts, RecordKey(parts), count)
  }

  /** A line that names a hop: at least a type tag and an index. */
  predicate HasIndex(line: string) {
    |Fields(line)| >= 2
  }

  function LineKey(line: string): int
    requires HasIndex(line)
  {
    RecordKey(Fields(line))
  }

  /** One raw line: a blank line is skipped, any other is split into fields and applied. */
  function ApplyLine(s: State, line: string, count: int): (r: State)
    requires Inv(s, count)
    ensures Inv(r, count)
    ensures r.hops.Keys == s.hops.Keys + (if HasIndex(line) then {LineKey(line)} else {})
  {
    if line == "" then s else ApplyFields(s, Fields(line), count)
  }

  /** The tables after the given lines, in order. */
  function Scanned(lines: seq<string>, count: int): (s: State)
    ensures Inv(s, count)
  {
    if lines == [] then Start
    else ApplyLine(Scanned(lines[..|lines| - 1], count), lines[|lines| - 1], count)
  }

  /** After the pass: Best loses its sentinel and Loss% comes from the hop's own counter. */
  function Finalise(s: State, count: int): (m: map<int, HopData>)
    ensures m.Keys == s.hops.Keys
  {
    map k | k in s.hops :: Finalised(s.hops[k], Received(s, k), count)
  }

  // -----------------------------------------------------------------------
  // One record at a time
  // -----------------------------------------------------------------------

  /**
   * A record with at least two fields makes sure a hop with its index
   * exists, whatever its type; no other hop is created. A hop that is new
   * starts unnamed, without address and without samples, with Sent set to
   * the configured count, unless the record itself is an address or name
   * record.
   */
  lemma RecordCreatesHop(s: State, parts: seq<string>, count: int)
    requires Inv(s, count) && |parts| >= 2
    ensures var r := ApplyFields(s, parts, count);
      && r.hops.Keys == s.hops.Keys + {RecordKey(parts)}
      && (RecordKey(parts) !in s.hops && parts[0] != "h" && parts[0] != "d" ==>
            r.hops[RecordKey(parts)] == NewHop(RecordKey(parts), count))
  {
  }

  /** A blank line, or one with fewer than two fields, changes nothing. */
  lemma ShortLineIgnored(s: State, line: string, count: int)
    requires Inv(s, count) && !HasIndex(line)
    ensures ApplyLine(s, line, count) == s
  {
  }

  /** The hop a record refers to, as it stands once the record has made sure it exists. */
  function HopBefore(s: State, parts: seq<string>, count: int): HopStats
    requires Inv(s, count) && |parts| >= 2
  {
    WithHop(s, RecordKey(parts), count).hops[RecordKey(parts)]
  }

  /**
   * An address record stores the address; it becomes the hostname only
   * while the hop is still unnamed. Nothing else changes.
   */
  lemma AddressRecord(s: State, parts: seq<string>, count: int)
    requires Inv(s, count) && |parts| >= 3 && parts[0] == "h"
    ensures var r := ApplyFields(s, parts, count);
      var key := RecordKey(parts); var before := HopBefore(s, parts, count);
      && r.hops[key].ip == parts[2]
      && r.hops[key].hostname == (if before.hostname == Unresolved then parts[2] else before.hostname)
      && r.hops[key].latency == before.latency
      && (forall k :: k in s.hops && k != key ==> r.hops[k] == s.hops[k])
      && r.seqs == s.seqs && r.received == s.received
  {
  }

  /**
   * A name record always replaces the hostname with the name's words
   * joined by single blanks (so splitting the hostname gives the words
   * back). Nothing else changes.
   */
  lemma NameRecord(s: State, parts: seq<string>, count: int)
    requires Inv(s, count) && |parts| >= 3 && parts[0] == "d"
    requires forall i :: 2 <= i < |parts| ==> IsWord(parts[i])
    ensures var r := ApplyFields(s, parts, count);
      var key := RecordKey(parts); var before := HopBefore(s, parts, count);
      && r.hops[key].hostname == Join(parts[2..], " ")
      && Fields(r.hops[key].hostname) == parts[2..]
      && r.hops[key].ip == before.ip && r.hops[key].latency == before.latency
      && (forall k :: k in s.hops && k != key ==> r.hops[k] == s.hops[k])
      && r.seqs == s.seqs && r.received == s.received
  {
    FieldsOfJoin(parts[2..]);
  }

  /** A sequence record binds its id to the record's hop, replacing any earlier binding. */
  lemma BindRecord(s: State, parts: seq<string>, count: int)
    requires Inv(s, count) && |parts| >= 3 && parts[0] == "x"
    ensures var r := ApplyFields(s, parts, count);
      && r.seqs == s.seqs[parts[2] := RecordKey(parts)]
      && r.hops == WithHop(s, RecordKey(parts), count).hops
      && r.received == s.received
  {
  }

  /**
   * A ping record that is too short, or whose sequence id was never bound,
   * changes no statistics and no counter.
   */
  lemma UnmatchedPingRecord(s: State, parts: seq<string>, count: int)
    requires Inv(s, count) && |parts| >= 2 && parts[0] == "p" && (|parts| < 4 || parts[3] !in s.seqs)
    ensures ApplyFields(s, parts, count) == WithHop(s, RecordKey(parts), count)
  {
  }

  /**
   * A ping record whose sequence id is bound: the counter of the record's
   * own hop goes up by one whether or not the latency parses; a parseable
   * latency of `usec` microseconds becomes a sample of usec / 1000 ms on
   * the bound hop, after which Best <= Last <= Worst there and the average
   * has been updated with that counter.
   */
  lemma MatchedPingRecord(s: State, parts: seq<string>, count: int)
    requires Inv(s, count) && |parts| >= 4 && parts[0] == "p" && parts[3] in s.seqs
    ensures var r := ApplyFields(s, parts, count);
      var key := RecordKey(parts); var target := s.seqs[parts[3]];
      var n := Received(s, key) + 1;
      && r.received == s.received[key := n]
      && r.seqs == s.seqs
      && (ParseFloat(parts[2]).None? ==> r.hops == WithHop(s, key, count).hops)
      && (ParseFloat(parts[2]).Some? ==>
            && r.hops[target].latency == Sample(s.hops[target].latency, ParseFloat(parts[2]).value / 1000.0, n)
            && (forall k :: k in s.hops && k != target ==> r.hops[k] == s.hops[k]))
  {
    var key := RecordKey(parts);
    var w := WithHop(s, key, count);
    PingRecord(s, parts, count);
    assert Received(w, key) == Received(s, key);
    assert w.hops[s.seqs[parts[3]]] == s.hops[s.seqs[parts[3]]];
  }

  lemma PingRecord(s: State, parts: seq<string>, count: int)
    requires Inv(s, count) && |parts| >= 4 && parts[0] == "p" && parts[3] in s.seqs
    ensures ApplyFields(s, parts, count) == Ping(WithHop(s, RecordKey(parts), count), parts, RecordKey(parts), count)
  {
    var w := WithHop(s, RecordKey(parts), count);
    assert ApplyRecord(w, parts, RecordKey(parts), count) == Ping(w, parts, RecordKey(parts), count);
  }

  /** Records of any other type only make sure their hop exists. */
  lemma OtherRecord(s: State, parts: seq<string>, count: int)
    requires Inv(s, count) && |parts| >= 2 && parts[0] !in {"h", "d", "x", "p"}
    ensures ApplyFields(s, parts, count) == WithHop(s, RecordKey(parts), count)
  {
  }

  // -----------------------------------------------------------------------
  // The whole pass
  // -----------------------------------------------------------------------

  /** The hop indices named by the lines that have at least two fields. */
  function LineKeys(lines: seq<string>): set<int> {
    set i | 0 <= i < |lines| && HasIndex(lines[i]) :: LineKey(lines[i])
  }

  /** The hops after the pass are exactly the indices of the lines with at least two fields. */
  lemma {:induction false} ScannedKeys(lines: seq<string>, count: int)
    ensures Scanned(lines, count).hops.Keys == LineKeys(lines)
  {
    if lines != [] {
      var init := lines[..|lines| - 1];
      var line := lines[|lines| - 1];
      ScannedKeys(init, count);
      var extra: set<int> := if HasIndex(line) then {LineKey(line)} else {};
      assert Scanned(lines, count).hops.Keys == Scanned(init, count).hops.Keys + extra;
      LineKeysSnoc(init, line);
      assert lines == init + [line];
    }
  }

  lemma LineKeysSnoc(init: seq<string>, line: string)
    ensures LineKeys(init + [line]) == LineKeys(init) + (if HasIndex(line) then {LineKey(line)} else {})
  {
    var lines := init + [line];
    var extra: set<int> := if HasIndex(line) then {LineKey(line)} else {};
    forall k | k in LineKeys(lines) ensures k in LineKeys(init) + extra {
      var i :| 0 <= i < |lines| && HasIndex(lines[i]) && LineKey(lines[i]) == k;
      if i < |init| {
        assert lines[i] == init[i];
      }
    }
    forall k | k in LineKeys(init) + extra ensures k in LineKeys(lines) {
      if k in LineKeys(init) {
        var i :| 0 <= i < |init| && HasIndex(init[i]) && LineKey(init[i]) == k;
        assert lines[i] == init[i];
      } else {
        assert lines[|init|] == line;
      }
    }
  }

  /** A ping record of the given line. */
  predicate IsPing(line: string) {
    HasIndex(line) && Fields(line)[0] == "p"
  }

  /** Without ping records no counter is ever created. */
  lemma {:induction false} NoPingsNoneReceived(lines: seq<string>, count: int)
    requires forall i :: 0 <= i < |lines| ==> !IsPing(lines[i])
    ensures Scanned(lines, count).received == map[]
  {
    if lines != [] {
      NoPingsNoneReceived(lines[..|lines| - 1], count);
      assert !IsPing(lines[|lines| - 1]);
    }
  }

  /** Without ping records every hop ends with Loss 100%. */
  lemma NoPingsFullLoss(lines: seq<string>, count: int)
    requires forall i :: 0 <= i < |lines| ==> !IsPing(lines[i])
    ensures var m := Finalise(Scanned(lines, count), count);
      forall k :: k in m ==> m[k].loss == 100.0
  {
    NoPingsNoneReceived(lines, count);
    var s := Scanned(lines, count);
    forall k | k in s.hops
      ensures Finalise(s, count)[k].loss == 100.0
    {
      LossBoundaries(count, 0);
    }
  }

  // -----------------------------------------------------------------------
  // Correlated runs: Avg is the mean, Best the minimum, Worst the maximum
  // -----------------------------------------------------------------------

  /** A ping record whose sequence id is bound in `s`. */
  predicate MatchedPing(s: State, parts: seq<string>) {
    |parts| >= 4 && parts[0] == "p" && parts[3] in s.seqs
  }

  /**
   * A matched ping that is bound to the hop its own index names and whose
   * latency parses: the case where the counter, the average and the
   * sample all belong to one hop.
   */
  predicate Correlated(s: State, parts: seq<string>) {
    MatchedPing(s, parts) ==> s.seqs[parts[3]] == RecordKey(parts) && ParseFloat(parts[2]).Some?
  }

  ghost predicate WellCorrelated(lines: seq<string>, count: int) {
    forall i :: 0 <= i < |lines| ==> Correlated(Scanned(lines[..i], count), Fields(lines[i]))
  }

  function SamplesOf(log: map<int, seq<real>>, k: int): seq<real> {
    if k in log then log[k] else []
  }

  /** The latency, in ms, a record adds to the sample log of its bound hop, if any. */
  function LogStep(s: State, log: map<int, seq<real>>, parts: seq<string>): map<int, seq<real>> {
    if MatchedPing(s, parts) && ParseFloat(parts[2]).Some? then
      var target := s.seqs[parts[3]];
      log[target := SamplesOf(log, target) + [ParseFloat(parts[2]).value / 1000.0]]
    else log
  }

  /** The latencies, in ms, that the pass records for each hop, in arrival order. */
  ghost function Logged(lines: seq<string>, count: int): map<int, seq<real>> {
    if lines == [] then map[]
    else
      var init := lines[..|lines| - 1];
      LogStep(Scanned(init, count), Logged(init, count), Fields(lines[|lines| - 1]))
  }

  /**
   * Every hop's statistics are those of its logged samples recorded one
   * after another, and its counter is their number.
   */
  predicate Agrees(s: State, log: map<int, seq<real>>) {
    && (forall k :: k in log ==> k in s.hops)
    && forall k {:trigger HopAgrees(s, log, k)} :: k in s.hops ==> HopAgrees(s, log, k)
  }

  /** Hop `k` has the statistics of its logged samples, and counted each of them. */
  predicate HopAgrees(s: State, log: map<int, seq<real>>, k: int)
    requires k in s.hops
  {
    s.hops[k].latency == Recorded(NoSamples, SamplesOf(log, k)) && Received(s, k) == |SamplesOf(log, k)|
  }

  /** A record that is not a matched ping changes no statistics and no counter; a new hop has none. */
  lemma LatencyKept(s: State, parts: seq<string>, count: int)
    requires Inv(s, count) && |parts| >= 2 && !MatchedPing(s, parts)
    ensures var r := ApplyFields(s, parts, count);
      && r.received == s.received
      && forall k :: k in r.hops ==>
           r.hops[k].latency == (if k in s.hops then s.hops[k].latency else NoSamples)
  {
    if parts[0] == "h" && |parts| >= 3 {
      AddressRecord(s, parts, count);
    } else if parts[0] == "x" && |parts| >= 3 {
      BindRecord(s, parts, count);
    } else if parts[0] == "p" {
      UnmatchedPingRecord(s, parts, count);
    } else if parts[0] in {"h", "d", "x"} {
      assert |parts| == 2 || parts[0] == "d";
    } else {
      OtherRecord(s, parts, count);
    }
  }

  lemma CorrelatedStep(s: State, log: map<int, seq<real>>, line: string, count: int)
    requires Inv(s, count) && Agrees(s, log) && Correlated(s, Fields(line))
    ensures Agrees(ApplyLine(s, line, count), LogStep(s, log, Fields(line)))
  {
    if line == "" {
      assert Fields(line) == [];
    } else {
      RecordStep(s, log, Fields(line), count);
    }
  }

  lemma RecordStep(s: State, log: map<int, seq<real>>, parts: seq<string>, count: int)
    requires Inv(s, count) && Agrees(s, log) && Correlated(s, parts)
    ensures Agrees(ApplyFields(s, parts, count), LogStep(s, log, parts))
  {
    if |parts| < 2 {
    } else if !MatchedPing(s, parts) {
      OtherRecordStep(s, log, parts, count);
    } else {
      PingStep(s, log, parts, count);
    }
  }

  lemma OtherRecordStep(s: State, log: map<int, seq<real>>, parts: seq<string>, count: int)
    requires Inv(s, count) && Agrees(s, log) && |parts| >= 2 && !MatchedPing(s, parts)
    ensures Agrees(ApplyFields(s, parts, count), LogStep(s, log, parts))
  {
    var r := ApplyFields(s, parts, count);
    LatencyKept(s, parts, count);
    assert LogStep(s, log, parts) == log;
    forall k | k in r.hops
      ensures HopAgrees(r, log, k)
    {
      if k in s.hops {
        assert HopAgrees(s, log, k);
      } else {
        assert k !in log && k !in s.received;
      }
    }
  }

  lemma PingStep(s: State, log: map<int, seq<real>>, parts: seq<string>, count: int)
    requires Inv(s, count) && Agrees(s, log) && MatchedPing(s, parts) && Correlated(s, parts)
    ensures Agrees(ApplyFields(s, parts, count), LogStep(s, log, parts))
  {
    var key, ms := RecordKey(parts), ParseFloat(parts[2]).value / 1000.0;
    CorrelatedPing(s, parts, count);
    LogStepOfPing(s, log, parts);
    SampleAgrees(s, log, key, ms, count);
    AgreesTransfer(ApplyFields(s, parts, count), WithSample(Counted(s, key, count), key, ms, Received(s, key) + 1, count),
                   LogStep(s, log, parts), log[key := SamplesOf(log, key) + [ms]]);
  }

  lemma AgreesTransfer(r: State, r': State, log: map<int, seq<real>>, log': map<int, seq<real>>)
    requires r == r' && log == log' && Agrees(r', log')
    ensures Agrees(r, log)
  {
  }

  /** A correlated ping adds its latency to the log of its own hop. */
  lemma LogStepOfPing(s: State, log: map<int, seq<real>>, parts: seq<string>)
    requires MatchedPing(s, parts) && Correlated(s, parts)
    ensures LogStep(s, log, parts) == log[RecordKey(parts) := SamplesOf(log, RecordKey(parts)) + [ParseFloat(parts[2]).value / 1000.0]]
  {
  }

  /** A correlated ping is counted on its own hop and sampled there. */
  lemma CorrelatedPing(s: State, parts: seq<string>, count: int)
    requires Inv(s, count) && MatchedPing(s, parts) && Correlated(s, parts)
    ensures ApplyFields(s, parts, count) ==
      WithSample(Counted(s, RecordKey(parts), count), RecordKey(parts), ParseFloat(parts[2]).value / 1000.0,
                 Received(s, RecordKey(parts)) + 1, count)
  {
    var key := RecordKey(parts);
    ParsedPing(s, parts, key, count);
    PingRecord(s, parts, count);
    assert WithHop(s, key, count) == s;
  }

  /** A bound ping with a parsable latency: counted, then sampled on the bound hop. */
  lemma ParsedPing(s: State, parts: seq<string>, key: int, count: int)
    requires Inv(s, count) && key in s.hops
    requires |parts| >= 4 && parts[3] in s.seqs && ParseFloat(parts[2]).Some?
    ensures Ping(s, parts, key, count) ==
      WithSample(Counted(s, key, count), s.seqs[parts[3]], ParseFloat(parts[2]).value / 1000.0, Received(s, key) + 1, count)
  {
  }

  /** One more sample on hop `key`, counted there, is one more entry in its log. */
  lemma SampleAgrees(s: State, log: map<int, seq<real>>, key: int, ms: real, count: int)
    requires Inv(s, count) && Agrees(s, log) && key in s.hops
    ensures Agrees(WithSample(Counted(s, key, count), key, ms, Received(s, key) + 1, count),
                   log[key := SamplesOf(log, key) + [ms]])
  {
    var xs := SamplesOf(log, key);
    var r := WithSample(Counted(s, key, count), key, ms, Received(s, key) + 1, count);
    var log' := log[key := xs + [ms]];
    forall k | k in r.hops
      ensures HopAgrees(r, log', k)
    {
      assert HopAgrees(s, log, k);
      if k == key {
        assert (xs + [ms])[..|xs|] == xs;
      }
    }
  }

  /**
   * In a correlated run every hop's statistics are those of its logged
   * samples recorded one after another, and its counter is their number.
   */
  lemma {:induction false} CorrelatedLatency(lines: seq<string>, count: int)
    requires WellCorrelated(lines, count)
    ensures Agrees(Scanned(lines, count), Logged(lines, count))
  {
    if lines != [] {
      var init := lines[..|lines| - 1];
      var line := lines[|lines| - 1];
      assert WellCorrelated(init, count) by {
        forall i | 0 <= i < |init|
          ensures Correlated(Scanned(init[..i], count), Fields(init[i]))
        {
          assert init[..i] == lines[..i];
          assert init[i] == lines[i];
        }
      }
      assert lines[..|lines| - 1] == init;
      CorrelatedLatency(init, count);
      CorrelatedStep(Scanned(init, count), Logged(init, count), line, count);
    }
  }

  /**
   * In a correlated run, a hop that received samples ends the pass with
   * Avg their arithmetic mean, Best their minimum, Worst their maximum
   * (or 0 when none is positive) and Last the latest; its Loss% counts
   * exactly those samples as received.
   */
  lemma CorrelatedHopStatistics(lines: seq<string>, count: int, k: int)
    requires WellCorrelated(lines, count)
    requires k in Scanned(lines, count).hops
    requires |SamplesOf(Logged(lines, count), k)| > 0
    ensures var xs := SamplesOf(Logged(lines, count), k);
      var h := Finalise(Scanned(lines, count), count)[k];
      && h.avg == Mean(xs)
      && h.best == Min(xs)
      && h.worst == (if Max(xs) > 0.0 then Max(xs) else 0.0)
      && h.last == xs[|xs| - 1]
      && h.loss == Loss(count, |xs|)
  {
    CorrelatedLatency(lines, count);
    assert HopAgrees(Scanned(lines, count), Logged(lines, count), k);
    RecordedStatistics(SamplesOf(Logged(lines, count), k));
  }

  // -----------------------------------------------------------------------
  // Every run: Best the minimum, Worst the maximum, Last the latest
  // -----------------------------------------------------------------------

  /** Hop `k` has the Best, Worst and Last of its logged samples, whatever counters they were averaged with. */
  predicate HopExtremesAgree(s: State, log: map<int, seq<real>>, k: int)
    requires k in s.hops
  {
    Extremes(s.hops[k].latency) == Extremes(Recorded(NoSamples, SamplesOf(log, k)))
  }

  predicate ExtremesAgree(s: State, log: map<int, seq<real>>) {
    && (forall k :: k in log ==> k in s.hops)
    && forall k {:trigger HopExtremesAgree(s, log, k)} :: k in s.hops ==> HopExtremesAgree(s, log, k)
  }

  /** A record that logs no sample keeps every hop's extremes and gives a new hop none. */
  lemma ExtremesUnlogged(s: State, log: map<int, seq<real>>, parts: seq<string>, count: int)
    requires Inv(s, count) && ExtremesAgree(s, log) && |parts| >= 2
    requires !MatchedPing(s, parts) || ParseFloat(parts[2]).None?
    ensures ExtremesAgree(ApplyFields(s, parts, count), log)
  {
    var r := ApplyFields(s, parts, count);
    var key := RecordKey(parts);
    if MatchedPing(s, parts) {
      MatchedPingRecord(s, parts, count);
    } else {
      LatencyKept(s, parts, count);
    }
    forall k | k in r.hops
      ensures HopExtremesAgree(r, log, k)
    {
      if k in s.hops {
        assert HopExtremesAgree(s, log, k);
      } else {
        assert k == key && k !in log;
        assert r.hops[k].latency == NoSamples;
      }
    }
  }

  /** A bound ping with a parsable latency extends its bound hop's log, whoever counts it. */
  lemma ExtremesLogged(s: State, log: map<int, seq<real>>, parts: seq<string>, count: int)
    requires Inv(s, count) && ExtremesAgree(s, log) && MatchedPing(s, parts) && ParseFloat(parts[2]).Some?
    ensures ExtremesAgree(ApplyFields(s, parts, count), LogStep(s, log, parts))
  {
    var r := ApplyFields(s, parts, count);
    var key, target := RecordKey(parts), s.seqs[parts[3]];
    var ms := ParseFloat(parts[2]).value / 1000.0;
    var xs := SamplesOf(log, target);
    var log' := log[target := xs + [ms]];
    assert LogStep(s, log, parts) == log';
    var w := WithHop(s, key, count);
    PingRecord(s, parts, count);
    assert r.hops == w.hops[target := w.hops[target].(latency := Sample(w.hops[target].latency, ms, Received(w, key) + 1))];
    forall k | k in r.hops
      ensures HopExtremesAgree(r, log', k)
    {
      if k == target {
        assert HopExtremesAgree(s, log, k);
        assert (xs + [ms])[..|xs|] == xs;
        ExtremesIgnoreCounter(s.hops[k].latency, Recorded(NoSamples, xs), ms, Received(w, key) + 1, |xs| + 1);
      } else if k in s.hops {
        assert HopExtremesAgree(s, log, k);
      } else {
        assert k == key && k !in log';
      }
    }
  }

  lemma ExtremesStep(s: State, log: map<int, seq<real>>, line: string, count: int)
    requires Inv(s, count) && ExtremesAgree(s, log)
    ensures ExtremesAgree(ApplyLine(s, line, count), LogStep(s, log, Fields(line)))
  {
    var parts := Fields(line);
    if line == "" {
      assert parts == [];
    } else if |parts| < 2 {
    } else if MatchedPing(s, parts) && ParseFloat(parts[2]).Some? {
      ExtremesLogged(s, log, parts, count);
    } else {
      ExtremesUnlogged(s, log, parts, count);
    }
  }

  /** In every run each hop has the Best, Worst and Last of the samples logged for it. */
  lemma {:induction false} LoggedExtremes(lines: seq<string>, count: int)
    ensures ExtremesAgree(Scanned(lines, count), Logged(lines, count))
  {
    if lines != [] {
      var init := lines[..|lines| - 1];
      LoggedExtremes(init, count);
      ExtremesStep(Scanned(init, count), Logged(init, count), lines[|lines| - 1], count);
    }
  }

  /**
   * In every run, whichever hop counted the replies and whether or not
   * other latencies parsed, a hop ends the pass with Best the minimum of
   * the samples recorded on it, Worst their maximum (or 0 when none is
   * positive) and Last the latest; a hop that recorded none ends with 0
   * in all three.
   */
  lemma HopExtremes(lines: seq<string>, count: int, k: int)
    requires k in Scanned(lines, count).hops
    ensures var xs := SamplesOf(Logged(lines, count), k);
      var h := Finalise(Scanned(lines, count), count)[k];
      && (|xs| > 0 ==> h.best == Min(xs) && h.worst == (if Max(xs) > 0.0 then Max(xs) else 0.0) && h.last == xs[|xs| - 1])
      && (xs == [] ==> h.best == 0.0 && h.worst == 0.0 && h.last == 0.0)
  {
    var xs := SamplesOf(Logged(lines, count), k);
    LoggedExtremes(lines, count);
    assert HopExtremesAgree(Scanned(lines, count), Logged(lines, count), k);
    if |xs| > 0 {
      RecordedStatistics(xs);
    }
  }
}
