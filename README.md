# Bound statements, preferred-host routing and platform detection of a DSE C# driver

This project models three pieces of a C# client driver for a DataStax Enterprise /
Cassandra cluster, and proves properties of the model.

- **Bound statements** (`bound_statement.dfy`, module `BoundStatements`). A `BoundStatement`
  is built from a prepared statement and gets its routing key, keyspace, consistency level and
  idempotence from it. The values bound to it are checked against the prepared parameter
  metadata. `ValidateValues` fails with an internal error when there is no serializer. It
  throws an argument error when there are more values than parameters; this is checked
  before any type. It throws a type error at the first value its column cannot hold; when that value is
  null, building the error message dereferences it and a null-reference exception is thrown
  instead. A short
  list is padded with `Unset` when the protocol supports unset values.
  `CalculateRoutingKey` derives the routing key from the partition-key values. It uses
  positional indexes when they are given, otherwise the named properties of the parameter
  object. A key that is already set always wins.
  The serializer (`IsAssignableFrom`, `Serialize`, `ProtocolVersion.SupportsUnset`),
  `RoutingKey.Compose` and `Utils.GetValues` are not part of this model. They are function
  values the caller passes in. The class keeps the mutated `_routingKey` and the stored
  values as fields, and the two array-filling loops stay loops over arrays.
- **Preferred-host load balancing** (`load_balancing.dfy`, module `DseLoadBalancing`).
  `DseLoadBalancingPolicy` wraps a child policy. A query plan for a statement with a
  preferred host yields that host first, then the child's plan unchanged. Without a
  preferred host the plan is the child's plan. The host most recently used as preferred
  has distance `Local`; every other host gets the child's distance. The wrapped policy is a
  fixed plan plus a distance function. Hosts are integers: the tests' addresses 201.0.0.0,
  101.0.0.0, 102.0.0.0 and 200.0.0.0 become 201, 101, 102 and 200. The three unit tests
  are reproduced as methods whose postconditions are the tests' assertions.
- **Platform detection** (`platform_helper.dfy`, module `PlatformHelper`). Three parts:
  - `GetNetCoreVersion` splits a code-base path on `/` and `\` and drops empty segments.
    It returns the segment after the first `Microsoft.NETCore.App`.
  - `RuntimeSupportsCloudTlsSettings` accepts runtime 2.1 and later. When the version
    cannot be found or parsed, it assumes support.
  - Two CPU-information folds. One sums the core counts of the WMI processor records,
    wrapping like a C# `int`, and keeps the first record's name. The other scans the
    lines of `/proc/cpuinfo` for the first match of `^model name\s+:\s+(.+)`.

  The file, WMI, reflection, `Version.TryParse` and `int.TryParse` results become parameters.

`wrappers.dfy` (module `Wrappers`) holds the `Option` type (for C# null references) and the
`Result` type (for thrown exceptions) that the other modules share.

The unit tests never give a child plan that contains the preferred host, so they do not
say whether the wrapper would drop it from the rest of the plan. The model yields the
preferred host followed by the child's plan unchanged, with no deduplication
(`PreferredFirstContents` states this).

## Model

| member | source | states |
|---|---|---|
| `BoundStatements.BoundStatement.constructor` | src/Dse/BoundStatement.cs:78-94 | the routing key comes from the prepared statement. The keyspace is the statement's keyspace, or the metadata's keyspace when that is null. The consistency level is copied. Idempotence is copied only when it is set. The serializer is the one given, or none for the public constructor |
| `BoundStatements.BoundStatement.SetRoutingKey` | src/Dse/BoundStatement.cs:103-107 | the routing key becomes the composition of the given components; the same instance is returned |
| `BoundStatements.BoundStatement.ValidateValues` | src/Dse/BoundStatement.cs:119-161 | the result satisfies `ValidationOutcome`. No serializer gives an internal error. A null array passes through. Missing or empty metadata returns the values unchanged. Too many values is an argument error naming both counts, regardless of types. Success holds iff every value is assignable to its column. Any other failure names the first unassignable position: a type error with its column when the value there is not null, a null-reference error when it is null. With fewer values and unset support, the result has the column count, starts with the input and is `Unset` after it; otherwise the input is kept |
| `BoundStatements.BoundStatement.SetValues` | src/Dse/BoundStatement.cs:109-113 | the same validation outcome, including the type and null-reference errors; on success the validated values are stored, on an exception the stored values are unchanged |
| `BoundStatements.BoundStatement.CalculateRoutingKey` | src/Dse/BoundStatement.cs:171-217 | the new routing key is `DerivedRoutingKey` of the old one and the inputs; nothing else changes |
| `BoundStatements.DerivedRoutingKey` | src/Dse/BoundStatement.cs:171-217 | a routing key that is already set is kept. With indexes: a key exists iff every indexed value serializes, and it is the composition of those values in index order. Names are consulted only with no indexes and named parameters. A count mismatch between names and extracted values gives no key, and so does any null serialization. In any other case no key is derived |
| `BoundStatements.SerializeAll` | src/Dse/BoundStatement.cs:180-192 | succeeds iff every value serializes to non-null; then it holds one routing key per value, in the values' order |
| `BoundStatements.UserKeyTakesPrecedence` | src/Dse/BoundStatement.cs:173-177 | after the user sets a key, derivation never replaces it, whatever the partition-key values are |
| `BoundStatements.DerivationIdempotent` | src/Dse/BoundStatement.cs:171-217 | deriving the routing key a second time changes nothing |
| `DseLoadBalancing.PreferredFirst` | src/Dse.Test.Unit/Policies/DseLoadBalancingTests.cs:17-37 | with no preferred host the plan is the child's plan. With preferred host P the plan is one longer, starts with P, and position i+1 holds the child's host i |
| `DseLoadBalancing.PreferredFirstContents` | src/Dse.Test.Unit/Policies/DseLoadBalancingTests.cs:17-26 | as a multiset the plan is the child's plan plus exactly one P; no host is dropped or deduplicated |
| `DseLoadBalancing.DseLoadBalancingPolicy.constructor` | src/Dse.Test.Unit/Policies/DseLoadBalancingTests.cs:19 | a new wrapper holds the given child policy and has no recorded preferred host, so every distance is the child's |
| `DseLoadBalancing.DseLoadBalancingPolicy.NewQueryPlan` | src/Dse.Test.Unit/Policies/DseLoadBalancingTests.cs:19-48 | the plan is `PreferredFirst` of the preferred host and the child's plan. A preferred host becomes the recorded one (replacing any earlier one) and reports `Local` until another preferred host replaces it. Without one, the recorded host is unchanged |
| `DseLoadBalancing.DseLoadBalancingPolicy.Distance` | src/Dse.Test.Unit/Policies/DseLoadBalancingTests.cs:42-48 | the most recently recorded preferred host is `Local`; every other host, including an earlier preferred host, gets the child's distance |
| `DseLoadBalancing.ShouldYieldPreferredHostFirst` | src/Dse.Test.Unit/Policies/DseLoadBalancingTests.cs:17-26 | child plan [101, 102] with preferred host 201 gives [201, 101, 102] |
| `DseLoadBalancing.ShouldYieldChildHostsWhenNoPreferredHostDefined` | src/Dse.Test.Unit/Policies/DseLoadBalancingTests.cs:28-37 | with no preferred host the plan is [101, 102] |
| `DseLoadBalancing.ShouldSetDistanceForPreferredHostToLocal` | src/Dse.Test.Unit/Policies/DseLoadBalancingTests.cs:39-49 | the child ignores all hosts. Host 200 is `Ignored`; after a plan with preferred host 201, host 201 is `Local` |
| `DseLoadBalancing.PreferredHostDistance` | src/Dse.Test.Unit/Policies/DseLoadBalancingTests.cs:42-48 | for any child and host P: P first has the child's distance. After a plan preferring P, P is `Local` and any other host keeps the child's distance |
| `PlatformHelper.SplitPath` | src/Dse/Helpers/PlatformHelper.cs:147 | no segment is empty or contains `/` or `\`; concatenated, the segments are the path with its separators removed |
| `PlatformHelper.SplitJoin` | src/Dse/Helpers/PlatformHelper.cs:147 | splitting a path built from valid segments joined by one separator returns those segments |
| `PlatformHelper.SplitInterleaved` | src/Dse/Helpers/PlatformHelper.cs:147 | a path made of valid segments with a separator run of any length before the first, a non-empty run between neighbours and any run at the end splits back into exactly those segments |
| `PlatformHelper.SegmentEnds` | src/Dse/Helpers/PlatformHelper.cs:147 | a segment ends at the end of the path or at a separator |
| `PlatformHelper.SeparatorRunSkipped` | src/Dse/Helpers/PlatformHelper.cs:147 | a run of separators between segments produces no segment (empty entries are removed) |
| `PlatformHelper.IndexOf` | src/Dse/Helpers/PlatformHelper.cs:148 | -1 iff the segment is absent; otherwise the position of its first occurrence |
| `PlatformHelper.GetNetCoreVersion` | src/Dse/Helpers/PlatformHelper.cs:144-154 | no `Microsoft.NETCore.App` segment gives null. If its first occurrence is at k, the result is segment k+1 when 0 < k < count-2, else null. A result is never empty and has no separator |
| `PlatformHelper.NetCoreVersionOfInstalledPath` | src/Dse/Helpers/PlatformHelper.cs:144-154 | take non-empty directories without `Microsoft.NETCore.App`, then that segment, a version and at least one more segment. Laid out with separator runs of any length around and between the segments (as in `file:///usr/share/...`), this path yields that version |
| `PlatformHelper.PrefixBefore` | src/Dse/Helpers/PlatformHelper.cs:119 | the result is a prefix of the string without the stop character (`-` for the version string), ending at the first stop character or at the end of the string |
| `PlatformHelper.PrereleaseSuffixIgnored` | src/Dse/Helpers/PlatformHelper.cs:119 | for a release without `-`, release + "-" + suffix reduces to the release |
| `PlatformHelper.RuntimeSupportsCloudTlsSettings` | src/Dse/Helpers/PlatformHelper.cs:116-142 | null version gives true, and so does an unparseable pre-dash version. Otherwise the result is true iff (major, minor) is at least (2, 1) |
| `PlatformHelper.CloudTlsSupportMonotone` | src/Dse/Helpers/PlatformHelper.cs:122-132 | a version at least as recent as a supported one is supported |
| `PlatformHelper.Wrap32` | src/Dse/Helpers/PlatformHelper.cs:92 | the result is a C# int and equals its argument when that argument is already in int range |
| `PlatformHelper.WrapAdd` | src/Dse/Helpers/PlatformHelper.cs:92 | wrapping an intermediate sum does not change the wrapped total, so the loop's wrapped `+=` equals the wrapped full sum |
| `PlatformHelper.TotalCoresAppend` | src/Dse/Helpers/PlatformHelper.cs:79-95 | the core total of a concatenation is the sum of the totals |
| `PlatformHelper.GetWmiCpuInfo` | src/Dse/Helpers/PlatformHelper.cs:77-96 | the name is the first record's name, or "" with no records. The count is the wrapped sum of the parsed core counts, with unparseable counts adding 0; it is the exact sum when that fits an int |
| `PlatformHelper.MatchModelName` | src/Dse/Helpers/PlatformHelper.cs:102-106 | a match means the line starts with `model name`; the capture is non-empty and contains no newline. `ModelNameLineShape` gives the full shape of a matching line and the two round-trip lemmas give its converse |
| `PlatformHelper.MatchAfterLabel` | src/Dse/Helpers/PlatformHelper.cs:102 | a match after the label captures a non-empty text without a newline |
| `PlatformHelper.MatchAfterColon` | src/Dse/Helpers/PlatformHelper.cs:102 | a match after the colon captures a non-empty text without a newline |
| `PlatformHelper.LastNonNewline` | src/Dse/Helpers/PlatformHelper.cs:102 | the last position in 1..j whose character is not a newline, or 0 when every one is a newline |
| `PlatformHelper.BacktrackedCapture` | src/Dse/Helpers/PlatformHelper.cs:102 | when the whitespace after the colon runs to the end of the line, the capture is the last character at position 1..j that is not a newline; no such character means no match |
| `PlatformHelper.ModelNameLineRoundTrip` | src/Dse/Helpers/PlatformHelper.cs:102-108 | take `model name`, whitespace, `:`, whitespace and a name (no newline, first character not whitespace). The captured group of that line is exactly the name |
| `PlatformHelper.BacktrackedAfterColon` | src/Dse/Helpers/PlatformHelper.cs:102 | whitespace after the colon that ends in a whitespace character other than a newline, followed only by newlines, captures that one character |
| `PlatformHelper.BacktrackedLineRoundTrip` | src/Dse/Helpers/PlatformHelper.cs:102-108 | the same on a whole line: `model name`, whitespace, `:`, whitespace ending in such a character, then newlines, captures that character |
| `PlatformHelper.AfterLabelRoundTrip` | src/Dse/Helpers/PlatformHelper.cs:102 | after the label, whitespace and a colon, the match is decided by the text after the colon alone |
| `PlatformHelper.LabelledLine` | src/Dse/Helpers/PlatformHelper.cs:102 | on a line of the label, whitespace and a colon, the match is decided by the text after the colon alone |
| `PlatformHelper.GreedyCaptureShape` | src/Dse/Helpers/PlatformHelper.cs:102 | when non-whitespace follows the whitespace after the colon, the text is whitespace, a capture starting with a non-whitespace character, and a rest that is empty or starts with a newline |
| `PlatformHelper.BacktrackedCaptureShape` | src/Dse/Helpers/PlatformHelper.cs:102 | when the text after the colon is all whitespace and matches, it is whitespace, a one-character capture and only newlines |
| `PlatformHelper.AfterColonShape` | src/Dse/Helpers/PlatformHelper.cs:102 | text after the colon that matches is non-empty whitespace, the capture, and a rest that is empty or starts with a newline; the capture starts with a non-whitespace character, or it is one character followed only by newlines |
| `PlatformHelper.AfterLabelParts` | src/Dse/Helpers/PlatformHelper.cs:102 | text after the label that matches is non-empty whitespace, a colon and text after the colon that gives the same match |
| `PlatformHelper.LabelledLineParts` | src/Dse/Helpers/PlatformHelper.cs:102 | a matching line is `model name`, non-empty whitespace, a colon and text after the colon that gives the same match |
| `PlatformHelper.ModelNameLineShape` | src/Dse/Helpers/PlatformHelper.cs:102-108 | the converse of the round trips: every matching line is `model name`, non-empty whitespace, `:`, non-empty whitespace, the capture and a rest that is empty or starts with a newline, and the capture starts with a non-whitespace character unless it is a single backtracked character followed only by newlines |
| `PlatformHelper.NoSpaceBeforeColonDoesNotMatch` | src/Dse/Helpers/PlatformHelper.cs:102 | a colon directly after `model name`, with no whitespace before it, never matches |
| `PlatformHelper.UnlabelledLineDoesNotMatch` | src/Dse/Helpers/PlatformHelper.cs:102-106 | a line that does not start with `model name` never matches |
| `PlatformHelper.FirstMatchingLineFrom` | src/Dse/Helpers/PlatformHelper.cs:103-112 | scanning from a given line on: -1 iff no line from there matches, otherwise a position at or after it whose line matches and before which no scanned line matches |
| `PlatformHelper.FirstMatchingLine` | src/Dse/Helpers/PlatformHelper.cs:103-112 | the scan stops at the first matching line: -1 iff no line matches, otherwise a position whose line matches and before which no line matches |
| `PlatformHelper.FirstModelName` | src/Dse/Helpers/PlatformHelper.cs:103-112 | the reported name is null iff no line of the file matches |
| `PlatformHelper.GetLinuxProcCpuInfo` | src/Dse/Helpers/PlatformHelper.cs:99-113 | the name is the first matching line's capture (later lines ignored; null when none matches) and the count is the processor count |
| `PlatformHelper.GetCpuInfo` | src/Dse/Helpers/PlatformHelper.cs:37-61 | Windows with readable WMI records gives the WMI info. Linux with a readable `/proc/cpuinfo` gives the scan. Any other platform, or a source that throws, gives no name and the processor count |

## Left out

- `BoundStatements.BoundStatement.CalculateRoutingKey`: requires every routing index to be in range, although the source only reads indexes up to the first null serialization (a bad later index would not throw there). It also requires a serializer whenever indexes are given or names are used, even when nothing would be serialized. Everywhere else the source would throw on a null dereference or an out-of-range index, and the model leaves those paths out rather than modelling the exceptions.
- `CreateBatchRequest` (src/Dse/BoundStatement.cs:163-169): builds a wire request from types that are not part of this model.
- The parameterless `BoundStatement()` constructor for mocking frameworks, and the `Statement` base class. The base class appears only as the fields the constructor and `SetValues` set.
- The serializer, `RoutingKey.Compose`, `Utils.GetValues`, `Version.TryParse` and `int.TryParse` are function parameters. Nothing is assumed about them, so the model does not capture the concrete byte layout of a composed routing key or any parsing rules.
- `DseLoadBalancingPolicy` itself is not part of this model; only its unit tests are. The model records the most recent preferred host, which is enough for every assertion in the tests. The child policy's plan is a fixed sequence, not a function of the keyspace and statement. The lazy enumeration of the plan is a sequence.
- Deduplication of the preferred host from the child's plan: no test gives a child plan that contains the preferred host, so the model keeps the child's plan as it is.
- `IsKerberosSupported` and `GetTargetFramework`: their results are fixed by compile-time constants. The NETSTANDARD1_5 branch of `GetCpuInfo` is left out the same way.
- Logging, `File.ReadAllLines`, the WMI query, `RuntimeInformation` and assembly reflection: their results are inputs. An exception from reading the records or lines is an absent input (`None`).
- The regular expression of `GetLinuxProcCpuInfo`: `\s` is .NET's set of whitespace characters and `.` matches anything but a newline. The model does not capture the regex engine's culture or timeout options; `^model name\s+:\s+(.+)` uses neither.
- The rest of the repository: geometry values, LINQ/mapping layers, connection test doubles, integration tests and the cluster interface. They hold no logic of the three pieces modelled here.
