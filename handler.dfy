/**
 * The parameter validation of HandleMTR in internal/api/handler.go: the
 * query string is turned into a trace configuration, or rejected with
 * status 400 and the message of the first check that fails. Starting the
 * trace in the background, logging and the JSON encoding of the response
 * are not modelled.
 */
module Handler {
  import opened Wrappers
  import opened Text

  /** A parsed query string: each key with its values in order. */
  type Query = map<string, seq<string>>

  /** url.Values.Get: the first value of the key, or "" when it has none. */
  function Get(q: Query, key: string): (v: string)
    ensures key !in q || q[key] == [] ==> v == ""
    ensures key in q && q[key] != [] ==> v == q[key][0]
  {
    if key in q && |q[key]| > 0 then q[key][0] else ""
  }

  datatype Config = Config(hostname: string, count: int, report: bool)

  datatype Response =
    | Accepted(cfg: Config, message: string)
    | Rejected(status: int, message: string)

  const StatusBadRequest: int := 400
  const DefaultCount: int := 20
  const MaxCount: int := 100

  /** Characters a hostname may not contain. */
  const Forbidden: set<char> := {';', '&', '|'}

  const HostnameRequired: string := "hostname parameter is required"
  const InvalidHostname: string := "invalid hostname format"
  const InvalidCount: string := "invalid count parameter"
  const CountTooLarge: string := "count cannot exceed 100"
  const InvalidReport: string := "invalid report parameter"

  /** fmt's %v of a bool. */
  function BoolText(b: bool): string {
    if b then "true" else "false"
  }

  /** The message of an accepted request. */
  function StartedMessage(cfg: Config): (msg: string)
    ensures var head := "MTR trace to " + cfg.hostname; |head| < |msg| && msg[..|head|] == head
    ensures msg[|msg| - 1] == ')'
  {
    "MTR trace to " + cfg.hostname + " started (count=" + Itoa(cfg.count) + ", report=" + BoolText(cfg.report) + ")"
  }

  /** The hostname passes both hostname checks. */
  predicate HostnameOk(host: string) {
    host != "" && !ContainsAny(host, Forbidden)
  }

  /** The count parameter is absent, or a decimal number from 1 to 100. */
  predicate CountOk(countStr: string) {
    countStr == "" || (Atoi(countStr).1 && 0 < Atoi(countStr).0 <= MaxCount)
  }

  /** The report parameter is absent, or one of strconv.ParseBool's spellings. */
  predicate ReportOk(reportStr: string) {
    reportStr == "" || ParseBool(reportStr).Some?
  }

  /**
   * HandleMTR's checks in order: hostname present, hostname without
   * ; & or |, count (default 20) a number from 1 to 100, report (default
   * false) a boolean. The first failing check decides the message; every
   * rejection has status 400.
   */
  function Validate(q: Query): (r: Response)
    ensures r.Rejected? ==> r.status == StatusBadRequest
    ensures r.Accepted? <==>
      HostnameOk(Get(q, "hostname")) && CountOk(Get(q, "count")) && ReportOk(Get(q, "report"))
    ensures r.Rejected? && r.message == HostnameRequired <==> Get(q, "hostname") == ""
    ensures r.Rejected? && r.message == InvalidHostname <==>
      Get(q, "hostname") != "" && ContainsAny(Get(q, "hostname"), Forbidden)
    ensures r.Rejected? && (r.message == InvalidCount || r.message == CountTooLarge) <==>
      HostnameOk(Get(q, "hostname")) && !CountOk(Get(q, "count"))
    ensures r.Rejected? && r.message == InvalidCount <==>
      HostnameOk(Get(q, "hostname")) && Get(q, "count") != "" &&
      (!Atoi(Get(q, "count")).1 || Atoi(Get(q, "count")).0 <= 0)
    ensures r.Rejected? && r.message == CountTooLarge <==>
      HostnameOk(Get(q, "hostname")) && Get(q, "count") != "" &&
      Atoi(Get(q, "count")).1 && Atoi(Get(q, "count")).0 > MaxCount
    ensures r.Rejected? && r.message == InvalidReport <==>
      HostnameOk(Get(q, "hostname")) && CountOk(Get(q, "count")) && !ReportOk(Get(q, "report"))
    ensures r.Accepted? ==>
      && r.cfg.hostname == Get(q, "hostname")
      && 1 <= r.cfg.count <= MaxCount
      && (Get(q, "count") == "" ==> r.cfg.count == DefaultCount)
      && (Get(q, "count") != "" ==> Atoi(Get(q, "count")) == (r.cfg.count, true))
      && (Get(q, "report") == "" ==> !r.cfg.report)
      && (Get(q, "report") != "" ==> ParseBool(Get(q, "report")) == Some(r.cfg.report))
      && r.message == StartedMessage(r.cfg)
  {
    var hostname := Get(q, "hostname");
    if hostname == "" then Rejected(StatusBadRequest, HostnameRequired)
    else if ContainsAny(hostname, Forbidden) then Rejected(StatusBadRequest, InvalidHostname)
    else
      var countStr := Get(q, "count");
      var (count, countParsed) := if countStr != "" then Atoi(countStr) else (DefaultCount, true);
      if !countParsed || count <= 0 then Rejected(StatusBadRequest, InvalidCount)
      else if count > MaxCount then Rejected(StatusBadRequest, CountTooLarge)
      else
        var reportStr := Get(q, "report");
        var report := if reportStr != "" then ParseBool(reportStr) else Some(false);
        match report
        case None => Rejected(StatusBadRequest, InvalidReport)
        case Some(b) =>
          var cfg := Config(hostname, count, b);
          Accepted(cfg, StartedMessage(cfg))
  }

  /** The query a client sends for a configuration. */
  function Encode(cfg: Config): Query {
    map["hostname" := [cfg.hostname], "count" := [Itoa(cfg.count)], "report" := [BoolText(cfg.report)]]
  }

  /** The configurations HandleMTR accepts. */
  predicate Acceptable(cfg: Config) {
    HostnameOk(cfg.hostname) && 1 <= cfg.count <= MaxCount
  }

  /** Every acceptable configuration, sent as a query, is accepted as itself. */
  lemma EncodeAccepted(cfg: Config)
    requires Acceptable(cfg)
    ensures Validate(Encode(cfg)) == Accepted(cfg, StartedMessage(cfg))
  {
    var q := Encode(cfg);
    assert Get(q, "hostname") == cfg.hostname;
    assert Get(q, "count") == Itoa(cfg.count);
    assert Get(q, "report") == BoolText(cfg.report);
    AtoiItoa(cfg.count);
  }

  /** Whatever the query, an accepted configuration is acceptable. */
  lemma AcceptedIsAcceptable(q: Query)
    requires Validate(q).Accepted?
    ensures Acceptable(Validate(q).cfg)
  {
  }

  /** A query without count and report runs 20 probes in live mode. */
  lemma Defaults(host: string)
    requires HostnameOk(host)
    ensures Validate(map["hostname" := [host]]) == Accepted(Config(host, DefaultCount, false), StartedMessage(Config(host, DefaultCount, false)))
  {
    var q: Query := map["hostname" := [host]];
    assert Get(q, "count") == "";
    assert Get(q, "report") == "";
  }

  /** A query with an explicit count from 1 to 100 runs exactly that many probes. */
  lemma ExplicitCount(host: string, n: int)
    requires HostnameOk(host) && 1 <= n <= MaxCount
    ensures Validate(map["hostname" := [host], "count" := [Itoa(n)]]) ==
      Accepted(Config(host, n, false), StartedMessage(Config(host, n, false)))
  {
    var q: Query := map["hostname" := [host], "count" := [Itoa(n)]];
    assert Get(q, "hostname") == host;
    assert Get(q, "count") == Itoa(n);
    assert Get(q, "report") == "";
    AtoiItoa(n);
  }

  /** A well-formed count above 100 is refused with its own message, not as invalid. */
  lemma CountOverLimit(host: string, n: int)
    requires HostnameOk(host) && MaxCount < n <= MaxInt64
    ensures Validate(map["hostname" := [host], "count" := [Itoa(n)]]) == Rejected(StatusBadRequest, CountTooLarge)
  {
    var q: Query := map["hostname" := [host], "count" := [Itoa(n)]];
    assert Get(q, "hostname") == host;
    assert Get(q, "count") == Itoa(n);
    AtoiItoa(n);
  }
}
