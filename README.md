# mtr-tool parser, renderer and request validation in Dafny

This project models the core of mtr-tool, an HTTP service that runs `mtr` and turns its raw output into a per-hop report. Three parts are covered:

- **parseOutput** (`internal/mtr/mtr.go`) reads mtr's raw record stream. The records are `h` (address), `d` (DNS name), `x` (sequence id bound to a hop) and `p` (ping reply with latency and sequence id). It builds one row per hop with Loss%, Sent, Last, Avg, Best, Worst and StDev. It then lists the rows from hop 1 to the largest hop number. A hop that repeats the address or the name of the row listed just before it is dropped.
- **The report renderer** decides the colour of each row's Loss% column, the text of the host column, and which hops the summary names: the worst loss, the highest average latency, and the end of the route.
- **HandleMTR's parameter validation** (`internal/api/handler.go`) turns a query string into a trace configuration, or rejects it with status 400 and a message.

The project has these modules:

- `Text` holds the Go library functions the core relies on: `strconv.Atoi` with int64 clamping, `Itoa`, `strings.Fields`, `Split`, `Join`, `Contains`, `ContainsAny`, a decimal `ParseFloat` and `ParseBool`.
- `Hops` holds the per-hop records and the arithmetic of one latency sample.
- `Scan` is the record-by-record pass as a pure step function folded over the lines, followed by the finishing of every hop.
- `Sequencing` holds the listing and its de-duplication.
- `Parser` holds parseOutput's loops as methods. Each method is proved to compute the `Scan` and `Sequencing` definitions.
- `Render` holds the row and summary decisions.
- `Handler` holds the validation.

As written, the code behaves as follows, and the model does the same:

- A `p` record whose sequence id is bound increments the received counter even when its latency does not parse.
- The counter is incremented under the `p` record's own hop index, not under the hop the sequence id is bound to (`mtr.go:275`). `Scan.CorrelatedPing`, `Scan.CorrelatedLatency` and `Scan.CorrelatedHopStatistics` are stated only for runs where the two coincide, because only there is the running average the mean. Best, Worst and Last do not depend on the counter, and `Scan.HopExtremes` states them for every run.
- StDev is recomputed from the latest sample alone (`mtr.go:296-302`), not over all samples. `Parser.StdDevOfLatest` proves it equals |Last - Avg|.
- The renderer marks Loss% red above 20 and yellow above 5 (`mtr.go:126-131`). The column legend printed by the tool (`mtr.go:90-92`) says red at 20% or more and yellow for latency of 100 ms or more. The model follows the comparisons in the code.
- Any line with two or more fields creates a hop, whatever its record type. An index that is not a number counts as 0, so that line belongs to hop 1. The exception is an index whose leading digits already reach 2^64 before a stray character, such as `99999999999999999999x`. `strconv.Atoi` stops there with MaxInt64 and a range error, the error is ignored, and the increment wraps, so the line's hop is numbered MinInt64 and is never listed.

## Model

| member | source | states |
|---|---|---|
| Text.Atoi | internal/mtr/mtr.go:227 | a decimal within int64 gives its value and success; a decimal above or below the int64 range gives the nearest bound and an error; a text whose leading digits reach 2^64 before a stray character gives the bound of its sign and an error; anything else gives (0, error) |
| Text.DecimalOverflows | internal/mtr/mtr.go:227 | for a well-formed decimal, the early range error happens exactly when its magnitude is 2^64 or more |
| Text.AtoiItoa | internal/mtr/mtr.go:227-229 | Atoi reads back every int64 that Itoa prints, so keying hops by number or by its spelling is the same |
| Text.ItoaInjective | internal/mtr/mtr.go:229 | two different int64 hop numbers never share a spelling |
| Text.Inc64 | internal/mtr/mtr.go:228 | the 1-based hop number is the index plus one, wrapping from MaxInt64 to MinInt64 |
| Text.Fields | internal/mtr/mtr.go:218 | every field is non-empty and free of white space |
| Text.FieldsOfLeadingSpace | internal/mtr/mtr.go:218 | white space before the first field is skipped |
| Text.FieldsOfWordThenSpace | internal/mtr/mtr.go:218 | a word followed by any white-space character is one field, and the rest of the line gives the rest of the fields |
| Text.FieldsOfJoin | internal/mtr/mtr.go:218 | splitting words joined by single spaces gives the words back |
| Text.JoinSplit | internal/mtr/mtr.go:204 | joining the pieces of Split with the separator gives back the input |
| Text.SplitWithoutSeparator | internal/mtr/mtr.go:204 | output without a newline is a single line |
| Text.ParseFloat | internal/mtr/mtr.go:278 | the empty text and a lone sign or point do not parse; a parsed value is non-negative unless the text starts with a minus sign, and then it is not positive |
| Text.ParseFloatOfDigits | internal/mtr/mtr.go:278 | a latency written as digits parses to its decimal value |
| Text.ParseBool | internal/api/handler.go:52 | exactly the six true spellings give true and the six false spellings give false |
| Hops.NextAvg | internal/mtr/mtr.go:292-293 | n times the new average is (n - 1) times the old average plus the sample, so the first sample is the average; the result lies between the old average and the sample |
| Hops.Sample | internal/mtr/mtr.go:280-302 | Last is the sample; Best and Worst are the minimum and maximum of the old value and the sample; Avg is the running update NextAvg with the given counter; StDev is |Last - Avg| from the second sample on; consistency (Best <= Last <= Worst, StDev >= 0) is preserved |
| Hops.ExtremesIgnoreCounter | internal/mtr/mtr.go:281-289 | Best, Worst and Last after a sample do not depend on the counter the average divides by |
| Hops.Loss | internal/mtr/mtr.go:324-330 | Loss% times count is 100 times the unanswered probes; with no probe configured it is 100 |
| Hops.LossBoundaries | internal/mtr/mtr.go:324-330 | all received gives 0; none received gives 100; Loss% never exceeds 100 and is non-negative when received <= count |
| Hops.LossAntitone | internal/mtr/mtr.go:324-330 | more received replies never raise Loss% |
| Hops.Finalised | internal/mtr/mtr.go:318-331 | the finished row keeps every field, turns the missing Best into 0 and sets Loss% from the counter; a consistent hop has Best <= Worst and StDev >= 0 |
| Hops.RunningAvgIsMean | internal/mtr/mtr.go:291-293 | the running average over a run of samples is their arithmetic mean |
| Hops.RecordedStatistics | internal/mtr/mtr.go:280-302 | after a run of samples Avg is the mean, Best the minimum, Worst the maximum floored at 0, Last the latest, and StDev |Last - Avg| |
| Scan.HopKey | internal/mtr/mtr.go:227-229 | the hop number is an int64: a decimal index from MinInt64 to below MaxInt64 names the next number; a decimal index of MaxInt64 or more names MinInt64 and one below MinInt64 names MinInt64 + 1; any other index names hop 1, except that one whose leading digits overflow names MinInt64, or MinInt64 + 1 with a minus sign |
| Scan.HopKeyOfIndex | internal/mtr/mtr.go:227-229 | the raw zero-based index n names hop n + 1 |
| Scan.HopKeyOfNonNumeric | internal/mtr/mtr.go:227-229 | an index that is not a number, and whose leading digits do not overflow, names hop 1 |
| Hops.WithAddress | internal/mtr/mtr.go:250-256 | an address record stores the address, uses it as the name only while the hop is unnamed, and keeps the hop number, Sent and the samples |
| Scan.WithHop | internal/mtr/mtr.go:231-245 | a hop not yet seen is created, unnamed and without samples, with Sent set to the configured count; existing hops and the other tables are untouched |
| Scan.Ping | internal/mtr/mtr.go:269-305 | a bound ping increments the counter of the line's own index and records the latency in ms on the bound hop; an unparsable latency changes no hop |
| Scan.Counted | internal/mtr/mtr.go:275 | one more reply is counted for the given hop and nothing else changes |
| Scan.WithSample | internal/mtr/mtr.go:278-302 | a sample changes only the bound hop's statistics, as Hops.Sample, and keeps every hop consistent |
| Scan.ApplyRecord | internal/mtr/mtr.go:249-306 | each record kind keeps every hop stored under its own number with Sent equal to the count and consistent samples, keeps every binding and counter pointing at an existing hop, and adds no hop |
| Scan.Scanned | internal/mtr/mtr.go:213-307 | after any prefix of the lines the tables satisfy the same invariant |
| Scan.ApplyFields | internal/mtr/mtr.go:218-306 | one record keeps the tables consistent and adds exactly the record's hop, if it has an index field |
| Scan.ApplyLine | internal/mtr/mtr.go:213-306 | one line keeps the tables consistent and adds exactly the line's hop, if it has an index field |
| Scan.ShortLineIgnored | internal/mtr/mtr.go:214-221 | an empty line or one with fewer than two fields changes nothing |
| Scan.RecordCreatesHop | internal/mtr/mtr.go:231-245 | a record with an index field leaves its hop in the table and adds no other; a hop first seen in a record other than h or d is unnamed, without samples, with Sent set to the count |
| Scan.AddressRecord | internal/mtr/mtr.go:250-256 | an h record sets the address, and the name only when the hop is still unnamed |
| Scan.NameRecord | internal/mtr/mtr.go:258-262 | a d record sets the name to the remaining fields joined by single spaces, and splitting that name gives the fields back |
| Scan.BindRecord | internal/mtr/mtr.go:264-267 | an x record binds the sequence id to the record's hop and changes no hop |
| Scan.UnmatchedPingRecord | internal/mtr/mtr.go:269-273 | a p record with too few fields or an unbound sequence id only creates its hop |
| Scan.MatchedPingRecord | internal/mtr/mtr.go:269-305 | a bound p record counts one reply for the record's own index and records the sample on the bound hop |
| Scan.OtherRecord | internal/mtr/mtr.go:249-306 | a record of any other type only creates its hop |
| Scan.ScannedKeys | internal/mtr/mtr.go:213-245 | the hops after the pass are exactly the hops named by the lines with an index field |
| Scan.NoPingsNoneReceived | internal/mtr/mtr.go:269-305 | output without p records counts no reply for any hop |
| Scan.NoPingsFullLoss | internal/mtr/mtr.go:318-331 | output without p records gives every hop 100 Loss% |
| Scan.CorrelatedPing | internal/mtr/mtr.go:269-302 | a bound ping that names its own hop and parses is counted and sampled on that same hop |
| Scan.SampleAgrees | internal/mtr/mtr.go:275-302 | counting and recording one more sample on a hop keeps its statistics equal to those of its log with the sample appended |
| Scan.CorrelatedLatency | internal/mtr/mtr.go:269-305 | when every bound ping names its own hop and parses, each hop's statistics are those of its logged samples and its counter is their number |
| Scan.LoggedExtremes | internal/mtr/mtr.go:269-305 | in every run, whichever hop counts a reply and whether or not a latency parses, each hop's Best, Worst and Last are those of the samples recorded on it |
| Scan.HopExtremes | internal/mtr/mtr.go:269-331 | in every run each finished hop has Best the minimum, Worst the maximum floored at 0 and Last the latest of the samples recorded on it, and 0 in all three when it recorded none |
| Scan.CorrelatedHopStatistics | internal/mtr/mtr.go:269-331 | in such a run each finished hop has Avg the mean, Best the minimum, Worst the maximum floored at 0, Last the latest sample, and Loss% from the number of samples |
| Scan.Finalise | internal/mtr/mtr.go:318-331 | every scanned hop is finished, and no other |
| Sequencing.Duplicate | internal/mtr/mtr.go:338-340 | a hop with neither an address nor a resolved name never repeats another; a repeat shares the address or the name with the hop before it |
| Sequencing.Emitted | internal/mtr/mtr.go:333-346 | at most one row is listed per hop number in range, and every row is a hop of the table |
| Sequencing.Ordered | internal/mtr/mtr.go:333-348 | the listing has at most as many rows as the largest hop number, each a hop of the table, and no hops list nothing |
| Sequencing.MaxHop | internal/mtr/mtr.go:310-316 | the largest hop number, or 0 when there is none or all are below 0 |
| Sequencing.MaxHopUnique | internal/mtr/mtr.go:310-316 | the largest hop number is well defined |
| Sequencing.EmittedSorted | internal/mtr/mtr.go:333-346 | the listed rows are hops of the table between the bounds, in strictly increasing order |
| Sequencing.EmittedNoRepeat | internal/mtr/mtr.go:337-344 | no listed row repeats the address or name of the row before it |
| Sequencing.EmittedSkips | internal/mtr/mtr.go:337-342 | a hop left out repeats the row listed last before it |
| Sequencing.OrderedListing | internal/mtr/mtr.go:333-348 | the listing holds hops 1 to the largest in increasing order, no row repeats its predecessor, and every hop left out repeats the row listed last before it |
| Sequencing.EmittedFirst | internal/mtr/mtr.go:335-344 | the first existing hop is always listed, whatever it repeats |
| Sequencing.RepeatedDestination | internal/mtr/mtr.go:333-348 | hops 1 to 3, where hop 3 repeats hop 2's address, list as exactly hops 1 and 2 |
| Sequencing.ListingAsWritten | internal/mtr/mtr.go:335 | the loop with the wrapping counter lists nothing when it starts past the largest hop, and when it finishes within n rounds it has listed at most n rows, each a hop of the table |
| Sequencing.ListingNeverEnds | internal/mtr/mtr.go:335 | with a largest hop number of MaxInt64, the listing loop with a wrapping int counter does not end within any number of rounds |
| Sequencing.ListingAsWrittenAgrees | internal/mtr/mtr.go:333-346 | below MaxInt64, the loop with the wrapping counter lists exactly the rows of the unbounded listing |
| Parser.StdDevOfLatest | internal/mtr/mtr.go:296-302 | the sum-of-squares loop over the latest sample gives StDev |Last - Avg| |
| Parser.RecordSample | internal/mtr/mtr.go:280-302 | the in-place sample update computes Hops.Sample |
| Parser.ScanLine | internal/mtr/mtr.go:213-306 | the loop body over one line computes Scan.ApplyLine on the three tables |
| Parser.RecordPing | internal/mtr/mtr.go:269-305 | the ping branch computes Scan.Ping |
| Parser.LargestHop | internal/mtr/mtr.go:310-316 | the loop over the hops, in any order, finds the largest hop number |
| Parser.FinishHops | internal/mtr/mtr.go:318-331 | the loop over the hops, in any order, finishes every hop as Scan.Finalise does |
| Parser.ListHops | internal/mtr/mtr.go:333-346 | the listing loop from hop 1 to the largest hop, with an unbounded counter (the corrected loop of the finding below), computes the de-duplicated listing |
| Parser.ParseOutput | internal/mtr/mtr.go:203-349 | parseOutput's rows are the ordered listing of the finished hops of the scanned lines; the listing counter is unbounded, so a largest hop of MaxInt64 still returns, where the source as written never ends |
| Parser.ParsedRows | internal/mtr/mtr.go:203-349 | the rows are increasing from hop 1, each a hop of some line, with no row repeating its predecessor, and every dropped hop repeats the row before it; every row has Sent equal to the count, Best <= Worst, StDev >= 0 and Loss% <= 100 |
| Parser.LargestIndexLoopNeverEnds | internal/mtr/mtr.go:335 | for the output "h 9223372036854775806 x" the largest hop is MaxInt64 and the listing loop as written never ends |
| Parser.OverflowingIndexUnlisted | internal/mtr/mtr.go:227-229 | an address record whose index overflows before a stray character creates the hop numbered MinInt64 alone, and the listing is empty |
| Parser.LargestIndexListed | internal/mtr/mtr.go:333-348 | with an unbounded counter the same output lists its single hop |
| Render.LossColor | internal/mtr/mtr.go:126-131 | red exactly above 20 Loss%, yellow exactly above 5 up to 20, green otherwise |
| Render.LossColorMonotone | internal/mtr/mtr.go:126-131 | a higher Loss% never gets a milder colour |
| Render.HostLabel | internal/mtr/mtr.go:134-137 | the host column is the hostname alone exactly when the address is empty, equal to it or contained in it; otherwise it is "hostname (address)" |
| Render.HostLabelShowsAddress | internal/mtr/mtr.go:134-137 | whenever a hop has an address, the host column contains it |
| Render.ColorizeRows | internal/mtr/mtr.go:124-150 | one row per hop, in order, each with its hop's numbers, Loss% colour and host column |
| Render.FirstWorstLossUnique | internal/mtr/mtr.go:169-172 | only one hop is the first with the highest Loss% |
| Render.FirstWorstLatencyUnique | internal/mtr/mtr.go:173-175 | only one hop is the first with the highest average |
| Render.GenerateSummary | internal/mtr/mtr.go:155-201 | no hops means no route data; otherwise it reports the first hop with the highest Loss%, the first with the highest average, whether any hop lost packets, and the last hop as the end of the route |
| Handler.StartedMessage | internal/api/handler.go:67-70 | the accepted message starts with "MTR trace to " and the hostname and ends with a closing parenthesis |
| Handler.Get | internal/api/handler.go:23 | a missing or empty parameter reads as "", otherwise its first value |
| Handler.Validate | internal/api/handler.go:21-57 | every rejection has status 400; a query is accepted exactly when the hostname is present and free of ; & and |, the count is absent or from 1 to 100, and the report flag is absent or a boolean; each message is given exactly when its check is the first to fail; an accepted query carries the hostname, the count (default 20), the flag (default false) and the started message |
| Handler.EncodeAccepted | internal/api/handler.go:21-69 | every acceptable configuration sent as a query is accepted as itself with its started message |
| Handler.AcceptedIsAcceptable | internal/api/handler.go:21-57 | every accepted configuration has a valid hostname and a count from 1 to 100 |
| Handler.Defaults | internal/api/handler.go:35-57 | a query with only a hostname runs 20 probes in live mode |
| Handler.ExplicitCount | internal/api/handler.go:38-57 | a query with a count from 1 to 100 runs exactly that many probes |
| Handler.CountOverLimit | internal/api/handler.go:38-46 | a well-formed count above 100 is refused with "count cannot exceed 100", not as an invalid count |

## Left out

- Running mtr (`Run`, `exec.CommandContext`, `MTR_PATH`, sudo, the timeout) is not modelled. The core receives the captured output as a string.
- The character layout of the report is not modelled: the header, column widths, separator line, number formatting, the summary sentences and the ANSI colour codes. Only the decisions they display are modelled.
- Go strings are byte strings, while the model's `string` is a sequence of Unicode scalar values, so mtr output holding invalid UTF-8 cannot be expressed.
- float64 arithmetic is modelled as exact reals. `Text.ParseFloat` covers optionally signed decimals with an optional fraction and exponent, without range errors, `inf`, `nan`, hex floats or underscores.
- Text.ParseFloat: its contract states only which texts fail and the sign of the value; the value of a plain digit string is stated by Text.ParseFloatOfDigits, and other values only by the definition.
- Handler.StartedMessage: its contract states only the start and the end of the message; the count and the flag in between are the configuration's, written by `Text.Itoa` and the `true`/`false` spelling, and are stated only by the definition.
- Parser.StdDevOfLatest: `math.Sqrt` is modelled only on the perfect square the loop produces, so the result is exact rather than rounded.
- Go's random map iteration order is modelled as an arbitrary choice of the next key. Both loops over the hop map are proved to give the same result in every order.
- The HTTP response writing, the JSON encoding, the background goroutine with its five-minute timeout, and logging are not modelled. `main.go` and the server setup are not part of this model.
- Hops.Finalised: the Loss of 100 that a new hop starts with is not modelled, because the finishing pass overwrites it for every hop before any reader sees it.
- Scan.CorrelatedLatency: the mean and the received counter are proved only for runs where every bound ping carries its own hop's index and a parsable latency. Otherwise the source counts replies under one hop and averages samples under another with that counter, and for Avg and Loss% only the per-line effects (Scan.MatchedPingRecord, Hops.Sample) are stated. Best, Worst and Last hold for every run (Scan.HopExtremes).
- Scan.CorrelatedHopStatistics: StDev is stated per sample by Hops.Sample, not over the run, because the source computes it from the latest sample only.
- Loss% can be negative when more replies are counted than probes were configured. The source does not prevent it, so only the upper bound of 100 is claimed for every hop.

## Findings

| source | as written | input that shows it | evidently intended | confidence | as-written member | corrected member |
|---|---|---|---|---|---|---|
| internal/mtr/mtr.go:335 | the listing loop counts `i` with a 64-bit int up to `maxHop`, so when `maxHop` is MaxInt64 the condition `i <= maxHop` always holds and `i++` wraps to MinInt64 | the raw output line `h 9223372036854775806 x`, whose index becomes hop MaxInt64 | list hops 1 to `maxHop` once and stop | not executed | Parser.LargestIndexLoopNeverEnds | Parser.LargestIndexListed |
