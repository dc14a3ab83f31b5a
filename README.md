# vpp-probe core, modelled in Dafny

This project models two parts of vpp-probe, a tool that inspects VPP dataplane
instances and their Ligato vpp-agent.

**The agent configuration dump** (`vpp/agent/config.go`, module `AgentConfig` in
`agent_config.dfy`). `agentctl dump` returns a JSON list of key/value records
(`kvdata`: key, raw value, metadata, origin). `retrieveConfig` walks the list in order
and sorts each record into one of six typed buckets of a `Config`: VPP interfaces,
Linux interfaces, L2 cross-connects, IPSec tunnel protections, IPSec security
associations and IPSec security policy databases. A record is skipped when its key
resolves to no model, when its model is none of the six, or when its value does not
decode. Only a failed dump command or an undecodable dump is an error. Four queries
read the result: `HasVppInterfaceType`, `FindL2XconnFor`, `FindIPSecTunProtectFor`
and `HasAnyIPSecConfig`.

The classification loop is the imperative method `RetrieveConfig`. Its loop invariant
says the configuration built so far equals `Classify` of the records processed so far.
`Classify` is the functional specification: one order-preserving filter (`Collect`)
per bucket. The lemmas then prove what the loop promises:
- each bucket holds exactly the records routed to it, in dump order;
- no record lands in two buckets;
- a skipped record changes nothing;
- classification distributes over concatenation of dumps;
- the buckets together never hold more entries than the dump has records, and hold
  exactly as many iff nothing is skipped.

The model registry and the JSON decoders are library code. They appear as the
functions of a `Codec` value, each returning `None` where the library returns an
error.

**The CLI extractors** (`vpp/cli.go`, module `Cli` in `cli.dfy`). These parse the text
that VPP's CLI returns:
- `GetVersionInfoCLI` reads the version string and the PID from `show version verbose`.
- `GetUptimeCLI` reads the uptime from `show clock`.
- `DumpLogsCLI` splits `show log` into lines.

The three regular expressions are written out as anchored matchers (`MatchAt`, built
from `SpacedLit`, `RunCapture`, `LabelledRun` and `ClockAt`). A leftmost scan
(`FindSubmatch`) runs them over the text. Each matcher is proved sound and complete
against a declarative description of a match (`LabelledAt`, `ClockLine`). The scanner
is proved to return the capture at the first position where the pattern matches.
Go's `\s` is RE2's class: space, tab, newline, form feed and carriage return.

The reply of the CLI command is an input of type `Result<string, Error>`. Shared
`Option`/`Result`/`Error` types are in `wrappers.dfy`.

The PID is converted with `strconv.Atoi` on a digits-only capture, and the error is
dropped. The only failure possible there is a value above the platform's largest
`int`. In that case `Atoi` returns the largest `int` together with the error, and the
code keeps that value; it is not 0. `Cli.Atoi` therefore saturates at 2^63 - 1, which
assumes a 64-bit `int`.

## Model

| member | source | states |
|---|---|---|
| Cli.SpaceRun | vpp/cli.go:16 | the greedy `\s+` run: a prefix of spaces whose next character, if any, is not a space |
| Cli.SpaceRunUnique | vpp/cli.go:16 | any maximal run of spaces at the front has exactly that length |
| Cli.SpacedLit | vpp/cli.go:16-17 | when it succeeds, the text starts with the literal followed by a maximal non-empty run of spaces |
| Cli.SpacedLitComplete | vpp/cli.go:16-17 | whenever the text starts with the literal and a maximal non-empty space run (ending the text or meeting a non-space), the matcher finds that run |
| Cli.RunCapture | vpp/cli.go:16-17 | when it succeeds, the capture is a non-empty maximal prefix of the character class |
| Cli.RunCaptureComplete | vpp/cli.go:16-17 | every non-empty maximal prefix of the class is found |
| Cli.LabelledRun | vpp/cli.go:16-17 | a capture means the text starts with `label\s+(run)` with that run as group 1 |
| Cli.LabelledRunComplete | vpp/cli.go:16-17 | whenever the text starts with `label\s+(run)`, that run is the capture |
| Cli.ClockAt | vpp/cli.go:51 | a capture means the text starts with `Time\s+now\s+([0-9\.]+),\s+(\S+)` with it as group 1 |
| Cli.ClockReading | vpp/cli.go:51 | a reading gives the space counts and group 1 of a clock match at the start of the text |
| Cli.ClockAtComplete | vpp/cli.go:51 | whenever the text starts with a clock match, its group 1 is the capture |
| Cli.ScanFrom | vpp/cli.go:37 | None iff no position from `i` on matches; otherwise the capture at the first matching position |
| Cli.FindSubmatch | vpp/cli.go:37 | leftmost-first: None iff the pattern matches nowhere, else group 1 at the first position that matches |
| Cli.FindSubmatchFirst | vpp/cli.go:37 | the search returns the capture at a matching position when no earlier position matches |
| Cli.FindSubmatchSkips | vpp/cli.go:37 | a prefix in which no position matches does not change the search result |
| Cli.VersionOf | vpp/cli.go:37-40 | the version is "" iff no `Version:` match exists; a found version is a space-free run captured after `Version:` and spaces |
| Cli.VersionOfLeftmost | vpp/cli.go:37-40 | the version is taken from the leftmost `Version:` match |
| Cli.VersionOfLine | vpp/cli.go:16 | after a prefix without `V`, `Version:` + spaces + a non-space run ending the text or meeting a space yields exactly that run |
| Cli.VersionDocExample | vpp/cli.go:21-22 | the documented `show version verbose` lines yield `v20.09-rc0~399-gef80ad6bf~b1658` |
| Cli.DecimalValue | vpp/cli.go:44 | the decimal value of n digits is below 10^n |
| Cli.Atoi | vpp/cli.go:44 | the converted PID is exact up to 2^63 - 1 and saturates there (strconv.Atoi's range result) |
| Cli.AtoiExactUpTo18Digits | vpp/cli.go:44 | up to 18 digits always convert exactly |
| Cli.PidOf | vpp/cli.go:42-45 | the PID lies in 0..2^63-1, and is 0 when no `PID:` match exists |
| Cli.PidOfLeftmost | vpp/cli.go:42-45 | the PID is Atoi of the digits after the leftmost `PID:` match |
| Cli.PidOfLine | vpp/cli.go:17 | after a prefix without `P`, `PID:` + spaces + digits not followed by a digit yields Atoi of those digits |
| Cli.PidDocExample | vpp/cli.go:27 | the documented line `Current PID:              170` yields 170 |
| Cli.PidDocReply | vpp/cli.go:20-27 | the whole documented `show version verbose` reply yields PID 170 |
| Cli.GetVersionInfoCLI | vpp/cli.go:29-48 | a command failure is returned as is; a success always gives version and PID as extracted, never an error |
| Cli.UptimeOf | vpp/cli.go:65-74 | the uptime is zero when the clock pattern matches nowhere; a non-zero uptime is the conversion of the leftmost group 1 |
| Cli.UptimeOfLeftmost | vpp/cli.go:65-74 | with the leftmost clock match capturing `cap`, the uptime is the conversion of `cap`, or zero when that conversion fails |
| Cli.GetUptimeCLI | vpp/cli.go:57-77 | a command failure is returned as is; a success is never an error and carries the extracted uptime |
| Cli.SplitLines | vpp/cli.go:96 | one more line than the text has newlines, none containing a newline |
| Cli.JoinSplitLines | vpp/cli.go:96 | joining the lines with newlines gives back the text |
| Cli.SplitJoinLines | vpp/cli.go:96 | splitting the join of a non-empty, newline-free list of lines gives back the list |
| Cli.DumpLogsCLI | vpp/cli.go:91-98 | a command failure is returned as is; a success gives lines that rejoin to the output, newline-free, one more than its newlines |
| AgentConfig.BucketOf | vpp/agent/config.go:90-141 | a model name selects bucket b iff it is b's model name; every other name selects none |
| AgentConfig.RouteIs | vpp/agent/config.go:84-137 | a record goes to bucket b iff its key resolves to b's model and b's decoder accepts its value |
| AgentConfig.Collect | vpp/agent/config.go:90-137 | each entry's key resolves to the bucket's model and its value is what the decoder returns for the record |
| AgentConfig.RetrieveConfig | vpp/agent/config.go:68-145 | a failed dump is a dumping error; an undecodable dump is an unmarshaling error; otherwise the result is the classification of the decoded list |
| AgentConfig.CollectRecords | vpp/agent/config.go:82-141 | a bucket's records are the dump's records routed to it, in dump order |
| AgentConfig.ClassifyRecords | vpp/agent/config.go:82-141 | each bucket of the result is the in-order subsequence of records routed to it |
| AgentConfig.ClassifyMembership | vpp/agent/config.go:82-141 | a record is in bucket b iff it is in the dump and routed to b |
| AgentConfig.AtMostOneBucket | vpp/agent/config.go:90-141 | no record is in two buckets |
| AgentConfig.CollectAppend | vpp/agent/config.go:97 | collecting a concatenation concatenates the collections |
| AgentConfig.ClassifyAppend | vpp/agent/config.go:82-141 | classifying a concatenation of dumps concatenates the buckets, preserving order |
| AgentConfig.ClassifyOne | vpp/agent/config.go:82-141 | a single record lands in its routed bucket and every other bucket stays empty |
| AgentConfig.ClassifySkipped | vpp/agent/config.go:84-140 | a record that does not resolve, has another model, or does not decode leaves the result unchanged |
| AgentConfig.SkippedAlone | vpp/agent/config.go:84-140 | a skipped record alone classifies to the empty configuration |
| AgentConfig.SizeIsRoutedCount | vpp/agent/config.go:82-141 | the buckets together hold one entry per routed record |
| AgentConfig.RoutedCountBound | vpp/agent/config.go:82-141 | at most one routed record per dump record, with equality iff none is skipped |
| AgentConfig.ClassifySize | vpp/agent/config.go:82-141 | the total number of entries is at most the dump's length, and equal iff no record is skipped |
| AgentConfig.CollectMembership | vpp/agent/config.go:90-137 | a typed entry is in a bucket iff its record is in the dump, resolves to the model and decodes to its value |
| AgentConfig.AnyOfType | vpp/agent/config.go:148-153 | true iff some interface of the sequence has the type |
| AgentConfig.HasVppInterfaceType | vpp/agent/config.go:147-154 | true iff some VPP interface has the type; Linux interfaces are not consulted |
| AgentConfig.HasVppInterfaceTypeOfDump | vpp/agent/config.go:147-154 | on a classified dump: true iff some record resolves to the VPP interface model and decodes to that type |
| AgentConfig.FindL2XconnFor | vpp/agent/config.go:156-164 | None iff no cross-connect has the interface on either side; otherwise the first one that does |
| AgentConfig.FindIPSecTunProtectFor | vpp/agent/config.go:166-173 | None iff no tunnel protection is bound to the interface; otherwise the first one that is |
| AgentConfig.HasAnyIPSecConfig | vpp/agent/config.go:175-186 | false for a nil config; otherwise true iff one of the three IPSec buckets is non-empty |
| AgentConfig.HasAnyIPSecConfigOfDump | vpp/agent/config.go:175-186 | on a classified dump: true iff some record is routed to an IPSec bucket |

## Left out

- `runAgentctlCmd` and `probe.Host.ExecCmd` / `probe.CliExecutor.RunCli` (remote command execution): their replies are inputs of type `Result<_, Error>`.
- `models.GetModelForKey` and `json.Unmarshal` are library code: they are the functions of a `Codec`, and record values are opaque apart from the fields the queries read.
- A value that decodes from JSON `null` gives a nil protobuf pointer, on which the Go queries would panic; decoders here always yield a value.
- Logging (`logrus`) has no effect on results and is not modelled.
- `strconv.ParseFloat` and the float scaling to nanoseconds are not modelled: `parseSeconds` stands for them.
- Cli.ClockAt: the documented `show clock` line is not proved as a concrete instance; the general soundness and completeness lemmas cover it.
- Cli.Atoi: assumes a 64-bit `int`; on 32-bit platforms the saturation bound would be 2^31 - 1.
- `api.VersionInfo` fields other than `Version` and `Pid` stay at their zero values and are not modelled.
- The second capture group of the clock pattern is matched but not returned, as in the source.
