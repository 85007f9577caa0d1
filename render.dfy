/**
 * The decisions the report renderer of internal/mtr/mtr.go takes about
 * each row (colour of Loss%, text of the host column) and about the
 * summary (which hops have the worst loss and the highest average, and
 * which one is the end of the route). The character layout of the table
 * and the summary text are not modelled.
 */
module Render {
  import opened Text
  import opened Hops

  datatype Color = Green | Yellow | Red

  /** Loss% above which a row is red, and above which it is at least yellow. */
  const RedAbove: real := 20.0
  const YellowAbove: real := 5.0

  /** The colour of a row's Loss% column. */
  function LossColor(loss: real): (c: Color)
    ensures c == Red <==> loss > RedAbove
    ensures c == Yellow <==> YellowAbove < loss <= RedAbove
    ensures c == Green <==> loss <= YellowAbove
  {
    if loss > RedAbove then Red else if loss > YellowAbove then Yellow else Green
  }

  function Severity(c: Color): nat {
    match c
    case Green => 0
    case Yellow => 1
    case Red => 2
  }

  /** A higher loss never gets a milder colour. */
  lemma LossColorMonotone(a: real, b: real)
    requires a <= b
    ensures Severity(LossColor(a)) <= Severity(LossColor(b))
  {
  }

  /**
   * The host column: the hostname, followed by the address in parentheses
   * when there is one that the hostname neither equals nor contains.
   */
  function HostLabel(hostname: string, ip: string): (shown: string)
    ensures shown == hostname || shown == hostname + " (" + ip + ")"
    ensures shown == hostname <==> ip == "" || hostname == ip || Contains(hostname, ip)
    ensures |hostname| <= |shown| && shown[..|hostname|] == hostname
  {
    if ip != "" && hostname != ip && !Contains(hostname, ip) then hostname + " (" + ip + ")" else hostname
  }

  /** The host column shows the address whenever the hop has one. */
  lemma HostLabelShowsAddress(hostname: string, ip: string)
    requires ip != ""
    ensures Contains(HostLabel(hostname, ip), ip)
  {
    if hostname == ip {
      assert hostname == [] + ip + [];
      ContainsInfix([], ip, []);
    } else if !Contains(hostname, ip) {
      assert HostLabel(hostname, ip) == (hostname + " (") + ip + ")";
      ContainsInfix(hostname + " (", ip, ")");
    }
  }

  /** What a table row shows: the hop's numbers, the Loss% colour and the host column. */
  datatype Row = Row(
    hop: int,
    color: Color,
    loss: real,
    sent: int,
    last: real,
    avg: real,
    best: real,
    worst: real,
    stDev: real,
    host: string)

  /** The table rows of the hops, in order. */
  method ColorizeRows(hops: seq<HopData>) returns (rows: seq<Row>)
    ensures |rows| == |hops|
    ensures forall i :: 0 <= i < |hops| ==>
      var h := hops[i];
      rows[i] == Row(h.hop, LossColor(h.loss), h.loss, h.sent, h.last, h.avg, h.best, h.worst, h.stDev,
                     HostLabel(h.hostname, h.ip))
  {
    rows := [];
    var i := 0;
    while i < |hops|
      invariant 0 <= i <= |hops|
      invariant |rows| == i
      invariant forall j :: 0 <= j < i ==>
        var h := hops[j];
        rows[j] == Row(h.hop, LossColor(h.loss), h.loss, h.sent, h.last, h.avg, h.best, h.worst, h.stDev,
                       HostLabel(h.hostname, h.ip))
    {
      var hop := hops[i];
      var color := Green;
      if hop.loss > RedAbove {
        color := Red;
      } else if hop.loss > YellowAbove {
        color := Yellow;
      }
      var host := hop.hostname;
      if hop.ip != "" && hop.hostname != hop.ip && !Contains(hop.hostname, hop.ip) {
        host := hop.hostname + " (" + hop.ip + ")";
      }
      rows := rows + [Row(hop.hop, color, hop.loss, hop.sent, hop.last, hop.avg, hop.best, hop.worst, hop.stDev, host)];
      i := i + 1;
    }
  }

  // -----------------------------------------------------------------------
  // Summary
  // -----------------------------------------------------------------------

  /**
   * What the summary reports: nothing for an empty route; otherwise the
   * hop with the worst loss, whether any loss was detected, the hop with
   * the highest average latency, and the last hop for the end-to-end
   * figures.
   */
  datatype Summary =
    | NoRouteData
    | Report(worstLoss: HopData, lossDetected: bool, worstLatency: HopData, endToEnd: HopData)

  /** Hop `i` has the highest Loss%, and is the first hop that has it. */
  predicate FirstWorstLoss(hops: seq<HopData>, i: int) {
    && 0 <= i < |hops|
    && (forall j :: 0 <= j < |hops| ==> hops[j].loss <= hops[i].loss)
    && (forall j :: 0 <= j < i ==> hops[j].loss < hops[i].loss)
  }

  /** Hop `i` has the highest average latency, and is the first hop that has it. */
  predicate FirstWorstLatency(hops: seq<HopData>, i: int) {
    && 0 <= i < |hops|
    && (forall j :: 0 <= j < |hops| ==> hops[j].avg <= hops[i].avg)
    && (forall j :: 0 <= j < i ==> hops[j].avg < hops[i].avg)
  }

  /** Only one hop is the first with the highest Loss%. */
  lemma FirstWorstLossUnique(hops: seq<HopData>, i: int, k: int)
    requires FirstWorstLoss(hops, i) && FirstWorstLoss(hops, k)
    ensures i == k
  {
    assert hops[i].loss == hops[k].loss;
  }

  /** Only one hop is the first with the highest average latency. */
  lemma FirstWorstLatencyUnique(hops: seq<HopData>, i: int, k: int)
    requires FirstWorstLatency(hops, i) && FirstWorstLatency(hops, k)
    ensures i == k
  {
    assert hops[i].avg == hops[k].avg;
  }

  /** generateSummary: the worst hops are found in one pass, keeping the earliest on ties. */
  method GenerateSummary(hops: seq<HopData>) returns (s: Summary)
    ensures hops == [] <==> s.NoRouteData?
    ensures s.Report? ==>
      && (exists i :: FirstWorstLoss(hops, i) && hops[i] == s.worstLoss)
      && (exists i :: FirstWorstLatency(hops, i) && hops[i] == s.worstLatency)
      && (s.lossDetected <==> exists i :: 0 <= i < |hops| && hops[i].loss > 0.0)
      && s.endToEnd == hops[|hops| - 1]
  {
    if |hops| == 0 {
      return NoRouteData;
    }
    var worstLoss := hops[0];
    var worstLatency := hops[0];
    ghost var wl := 0;
    ghost var wa := 0;
    var i := 0;
    while i < |hops|
      invariant 0 <= i <= |hops|
      invariant 0 <= wl < |hops| && worstLoss == hops[wl] && wl <= i && (i > 0 ==> wl < i)
      invariant 0 <= wa < |hops| && worstLatency == hops[wa] && wa <= i && (i > 0 ==> wa < i)
      invariant forall j :: 0 <= j < i ==> hops[j].loss <= worstLoss.loss
      invariant forall j :: 0 <= j < wl ==> hops[j].loss < worstLoss.loss
      invariant forall j :: 0 <= j < i ==> hops[j].avg <= worstLatency.avg
      invariant forall j :: 0 <= j < wa ==> hops[j].avg < worstLatency.avg
    {
      var hop := hops[i];
      if hop.loss > worstLoss.loss {
        worstLoss := hop;
        wl := i;
      }
      if hop.avg > worstLatency.avg {
        worstLatency := hop;
        wa := i;
      }
      i := i + 1;
    }
    assert FirstWorstLoss(hops, wl) && FirstWorstLatency(hops, wa);
    s := Report(worstLoss, worstLoss.loss > 0.0, worstLatency, hops[|hops| - 1]);
  }
}
