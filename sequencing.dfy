/**
 * The last stage of parseOutput: the finished hops are listed by hop
 * number from 1 up to the largest number seen, and a hop that repeats the
 * address or the name of the hop listed just before it is dropped (mtr
 * reports the destination again on every hop past the end of the route).
 */
module Sequencing {
  import opened Wrappers
  import opened Text
  import opened Hops

  /** `h` repeats `prev`: the same non-empty address, or the same resolved name. */
  predicate Duplicate(h: HopData, prev: HopData)
    ensures Duplicate(h, prev) ==> h.ip != "" || h.hostname != Unresolved
    ensures Duplicate(h, prev) ==> prev.ip == h.ip || prev.hostname == h.hostname
  {
    (h.ip != "" && h.ip == prev.ip) || (h.hostname != Unresolved && h.hostname == prev.hostname)
  }

  /** Every finished hop is stored under its own number. */
  predicate Keyed(m: map<int, HopData>) {
    forall k :: k in m ==> m[k].hop == k
  }

  /**
   * The rows listed while the hop number runs from `i` to `hi`, where
   * `last` is the row listed most recently.
   */
  function Emitted(m: map<int, HopData>, i: int, hi: int, last: Option<HopData>): (r: seq<HopData>)
    ensures |r| <= if i <= hi then hi - i + 1 else 0
    ensures forall j :: 0 <= j < |r| ==> r[j] in m.Values
    decreases if i <= hi then hi - i + 1 else 0
  {
    if i > hi then []
    else if i in m && !(last.Some? && i > 1 && Duplicate(m[i], last.value)) then
      [m[i]] + Emitted(m, i + 1, hi, Some(m[i]))
    else Emitted(m, i + 1, hi, last)
  }

  /** The upper end of the listing: the largest hop number, and at least 0. */
  predicate IsMaxHop(keys: set<int>, hi: int) {
    && hi >= 0
    && (forall k :: k in keys ==> k <= hi)
    && (hi == 0 || hi in keys)
  }

  ghost function MaxHop(keys: set<int>): (hi: int)
    ensures IsMaxHop(keys, hi)
    decreases |keys|
  {
    if keys == {} then 0
    else
      NoMemberEmpty(keys);
      var k :| k in keys;
      var rest := MaxHop(keys - {k});
      assert forall x :: x in keys ==> x == k || x in keys - {k};
      if k > rest then k else rest
  }

  lemma NoMemberEmpty(keys: set<int>)
    ensures (forall k :: k !in keys) ==> keys == {}
  {
    if forall k :: k !in keys {
      assert forall k :: k in keys <==> k in {};
    }
  }

  /** The upper end of the listing is determined by the hop numbers. */
  lemma MaxHopUnique(keys: set<int>, a: int, b: int)
    requires IsMaxHop(keys, a) && IsMaxHop(keys, b)
    ensures a == b
  {
    if a != 0 {
      assert a in keys;
      assert a <= b;
    }
    if b != 0 {
      assert b in keys;
      assert b <= a;
    }
  }

  /** The listing of the finished hops. */
  ghost function Ordered(m: map<int, HopData>): (r: seq<HopData>)
    ensures |r| <= MaxHop(m.Keys)
    ensures forall j :: 0 <= j < |r| ==> r[j] in m.Values
    ensures m == map[] ==> r == []
  {
    Emitted(m, 1, MaxHop(m.Keys), None)
  }

  // -----------------------------------------------------------------------
  // Properties of the listing
  // -----------------------------------------------------------------------

  /** Every row is the map's hop of its own number, a number between `lo` and `hi`. */
  predicate RowsOf(m: map<int, HopData>, r: seq<HopData>, lo: int, hi: int) {
    forall j :: 0 <= j < |r| ==> lo <= r[j].hop <= hi && r[j].hop in m && m[r[j].hop] == r[j]
  }

  /** Rows in strictly increasing order of hop number. */
  predicate Increasing(r: seq<HopData>) {
    forall j, j' :: 0 <= j < j' < |r| ==> r[j].hop < r[j'].hop
  }

  /** No row repeats the row just before it. */
  predicate NoRepeats(r: seq<HopData>) {
    forall j :: 0 < j < |r| ==> !Duplicate(r[j], r[j - 1])
  }

  /** Hop `k` is listed. */
  predicate Listed(r: seq<HopData>, k: int) {
    exists j :: 0 <= j < |r| && r[j].hop == k
  }

  /** `h`, numbered `k`, repeats the last row of `r` numbered below `k`. */
  predicate RepeatsLastBefore(r: seq<HopData>, k: int, h: HopData) {
    exists j :: 0 <= j < |r| && r[j].hop < k && (j == |r| - 1 || r[j + 1].hop > k) && Duplicate(h, r[j])
  }

  /** Every row of `r` is numbered above `k`. */
  predicate AllAbove(r: seq<HopData>, k: int) {
    forall j :: 0 <= j < |r| ==> r[j].hop > k
  }

  /**
   * Listed rows are hops of the map with numbers between `i` and `hi`, in
   * strictly increasing order of hop number.
   */
  lemma {:induction false} EmittedSorted(m: map<int, HopData>, i: int, hi: int, last: Option<HopData>)
    requires Keyed(m)
    ensures RowsOf(m, Emitted(m, i, hi, last), i, hi)
    ensures Increasing(Emitted(m, i, hi, last))
    decreases if i <= hi then hi - i + 1 else 0
  {
    if i <= hi {
      var r := Emitted(m, i, hi, last);
      if i in m && !(last.Some? && i > 1 && Duplicate(m[i], last.value)) {
        var rest := Emitted(m, i + 1, hi, Some(m[i]));
        EmittedSorted(m, i + 1, hi, Some(m[i]));
        assert r == [m[i]] + rest;
      } else {
        EmittedSorted(m, i + 1, hi, last);
      }
    }
  }

  /**
   * No listed row repeats the row listed just before it, and the first
   * one does not repeat `last`. The listing runs from hop 1 up, so a row
   * has been listed only once the counter has passed 1.
   */
  lemma {:induction false} EmittedNoRepeat(m: map<int, HopData>, i: int, hi: int, last: Option<HopData>)
    requires i >= 1 && (last.Some? ==> i > 1)
    ensures NoRepeats(Emitted(m, i, hi, last))
    ensures |Emitted(m, i, hi, last)| > 0 && last.Some? ==> !Duplicate(Emitted(m, i, hi, last)[0], last.value)
    decreases if i <= hi then hi - i + 1 else 0
  {
    if i <= hi {
      var r := Emitted(m, i, hi, last);
      if i in m && !(last.Some? && i > 1 && Duplicate(m[i], last.value)) {
        var rest := Emitted(m, i + 1, hi, Some(m[i]));
        EmittedNoRepeat(m, i + 1, hi, Some(m[i]));
        assert r == [m[i]] + rest;
      } else {
        EmittedNoRepeat(m, i + 1, hi, last);
      }
    }
  }

  /**
   * A hop in range that is not listed repeats the row listed last before
   * it: a listed row with a smaller number and no listed row between, or,
   * when nothing was listed before it, the row `last`.
   */
  lemma {:induction false} EmittedSkips(m: map<int, HopData>, i: int, hi: int, last: Option<HopData>, k: int)
    requires Keyed(m)
    requires k in m && i <= k <= hi && !Listed(Emitted(m, i, hi, last), k)
    ensures || RepeatsLastBefore(Emitted(m, i, hi, last), k, m[k])
            || (AllAbove(Emitted(m, i, hi, last), k) && last.Some? && Duplicate(m[k], last.value))
    decreases if i <= hi then hi - i + 1 else 0
  {
    var r := Emitted(m, i, hi, last);
    if i in m && !(last.Some? && i > 1 && Duplicate(m[i], last.value)) {
      var rest := Emitted(m, i + 1, hi, Some(m[i]));
      assert r == [m[i]] + rest;
      assert r[0].hop == i;
      assert !Listed(rest, k) by {
        forall j | 0 <= j < |rest| ensures rest[j].hop != k {
          assert rest[j] == r[j + 1];
        }
      }
      EmittedSkips(m, i + 1, hi, Some(m[i]), k);
      if RepeatsLastBefore(rest, k, m[k]) {
        var j' :| 0 <= j' < |rest| && rest[j'].hop < k && (j' == |rest| - 1 || rest[j' + 1].hop > k) && Duplicate(m[k], rest[j']);
        assert r[j' + 1] == rest[j'];
        assert j' + 1 == |r| - 1 || r[j' + 2] == rest[j' + 1];
      } else {
        assert r[0] == m[i] && r[0].hop == i < k;
        assert |r| == 1 || (r[1] == rest[0] && rest[0].hop > k);
        assert Duplicate(m[k], r[0]);
        assert 0 == |r| - 1 || r[1].hop > k;
      }
    } else {
      assert r == Emitted(m, i + 1, hi, last);
      if k == i {
        EmittedSorted(m, i + 1, hi, last);
      } else {
        EmittedSkips(m, i + 1, hi, last, k);
      }
    }
  }

  /**
   * The listing of the finished hops: rows in strictly increasing hop
   * order, each the map's hop of that number between 1 and the largest
   * number; no row repeats the one before it; and a hop from 1 up that is
   * left out repeats the row listed last before it.
   */
  lemma OrderedListing(m: map<int, HopData>)
    requires Keyed(m)
    ensures RowsOf(m, Ordered(m), 1, MaxHop(m.Keys))
    ensures Increasing(Ordered(m))
    ensures NoRepeats(Ordered(m))
    ensures forall k :: k in m && 1 <= k && !Listed(Ordered(m), k) ==> RepeatsLastBefore(Ordered(m), k, m[k])
  {
    var hi := MaxHop(m.Keys);
    EmittedSorted(m, 1, hi, None);
    EmittedNoRepeat(m, 1, hi, None);
    forall k | k in m && 1 <= k && !Listed(Ordered(m), k)
      ensures RepeatsLastBefore(Ordered(m), k, m[k])
    {
      EmittedSkips(m, 1, hi, None, k);
    }
  }

  /** Hop numbers without a hop are passed over without listing anything. */
  lemma {:induction false} EmittedGap(m: map<int, HopData>, i: int, j: int, hi: int, last: Option<HopData>)
    requires i <= j <= hi + 1
    requires forall k :: i <= k < j ==> k !in m
    ensures Emitted(m, i, hi, last) == Emitted(m, j, hi, last)
    decreases j - i
  {
    if i < j {
      EmittedGap(m, i + 1, j, hi, last);
    }
  }

  /** The first listed row is the hop with the smallest number from `i` up. */
  lemma EmittedFirst(m: map<int, HopData>, i: int, hi: int, k: int)
    requires k in m && i <= k <= hi
    requires forall k' :: i <= k' < k ==> k' !in m
    ensures Emitted(m, i, hi, None) == [m[k]] + Emitted(m, k + 1, hi, Some(m[k]))
  {
    EmittedGap(m, i, k, hi, None);
  }

  /**
   * A route where hop 3 repeats the address of hop 2 is listed as hops 1
   * and 2 only.
   */
  lemma RepeatedDestination(a: HopData, b: HopData, c: HopData)
    requires a.hop == 1 && b.hop == 2 && c.hop == 3
    requires b.ip != "" && c.ip == b.ip
    requires !Duplicate(b, a)
    ensures Ordered(map[1 := a, 2 := b, 3 := c]) == [a, b]
  {
    var m := map[1 := a, 2 := b, 3 := c];
    assert IsMaxHop(m.Keys, 3);
    MaxHopUnique(m.Keys, MaxHop(m.Keys), 3);
    assert Emitted(m, 4, 3, Some(b)) == [];
    assert Emitted(m, 3, 3, Some(b)) == [];
    assert Emitted(m, 2, 3, Some(a)) == [b];
  }

  // -----------------------------------------------------------------------
  // The listing loop as written counts with a 64-bit int
  // -----------------------------------------------------------------------

  /**
   * The listing loop as written, run for at most `fuel` rounds: the
   * counter is a Go int that wraps around past MaxInt64. None means the
   * loop has not finished within `fuel` rounds.
   */
  function ListingAsWritten(m: map<int, HopData>, i: int, maxHop: int, last: Option<HopData>, fuel: nat): (r: Option<seq<HopData>>)
    requires MinInt64 <= i <= MaxInt64
    ensures maxHop < i ==> r == Some([])
    ensures r.Some? ==> |r.value| <= fuel
    ensures r.Some? ==> forall j :: 0 <= j < |r.value| ==> r.value[j] in m.Values
    decreases fuel
  {
    if !(i <= maxHop) then Some([])
    else if fuel == 0 then None
    else
      var emit := i in m && !(last.Some? && i > 1 && Duplicate(m[i], last.value));
      var last' := if emit then Some(m[i]) else last;
      match ListingAsWritten(m, Inc64(i), maxHop, last', fuel - 1)
      case None => None
      case Some(rest) => Some(if emit then [m[i]] + rest else rest)
  }

  /** When the largest hop number is MaxInt64, the loop as written never finishes. */
  lemma {:induction false} ListingNeverEnds(m: map<int, HopData>, i: int, last: Option<HopData>, fuel: nat)
    requires MinInt64 <= i <= MaxInt64
    ensures ListingAsWritten(m, i, MaxInt64, last, fuel) == None
    decreases fuel
  {
    if fuel > 0 {
      var emit := i in m && !(last.Some? && i > 1 && Duplicate(m[i], last.value));
      ListingNeverEnds(m, Inc64(i), if emit then Some(m[i]) else last, fuel - 1);
    }
  }

  /**
   * Below MaxInt64 the loop as written finishes after at most maxHop
   * rounds with the listing of the unbounded counter.
   */
  lemma {:induction false} ListingAsWrittenAgrees(m: map<int, HopData>, i: int, maxHop: int, last: Option<HopData>)
    requires 1 <= i <= maxHop + 1 && maxHop < MaxInt64
    ensures ListingAsWritten(m, i, maxHop, last, maxHop + 1 - i) == Some(Emitted(m, i, maxHop, last))
    decreases maxHop + 1 - i
  {
    if i <= maxHop {
      var emit := i in m && !(last.Some? && i > 1 && Duplicate(m[i], last.value));
      ListingAsWrittenAgrees(m, i + 1, maxHop, if emit then Some(m[i]) else last);
    }
  }
}
