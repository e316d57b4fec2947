/** The string and folding logic of the platform helper: which .NET Core runtime
    version a code-base path names, whether that runtime supports the TLS settings
    cloud connections need, and the CPU description gathered from WMI processor
    records or from the lines of /proc/cpuinfo. The file system, WMI, reflection,
    Version.TryParse and int.TryParse are not part of this model: their results are
    parameters. */
module PlatformHelper {
  import opened Wrappers

  // ---------------------------------------------------------------------------
  // GetNetCoreVersion: split a code-base path and take the segment after
  // "Microsoft.NETCore.App"
  // ---------------------------------------------------------------------------

  predicate IsPathSeparator(c: char) {
    c == '/' || c == '\\'
  }

  predicate NoSeparator(s: string) {
    forall i :: 0 <= i < |s| ==> !IsPathSeparator(s[i])
  }

  /** The segments a split with empty entries removed can produce. */
  predicate ValidSegments(segments: seq<string>) {
    forall i :: 0 <= i < |segments| ==> segments[i] != [] && NoSeparator(segments[i])
  }

  function WithoutSeparators(s: string): string {
    if s == [] then []
    else (if IsPathSeparator(s[0]) then [] else [s[0]]) + WithoutSeparators(s[1..])
  }

  function Concat(segments: seq<string>): string {
    if segments == [] then [] else segments[0] + Concat(segments[1..])
  }

  /** Splits `s`, with `current` the part of the segment read so far. */
  function SplitFrom(s: string, current: string): (segments: seq<string>)
    requires NoSeparator(current)
    ensures ValidSegments(segments)
    ensures Concat(segments) == current + WithoutSeparators(s)
    decreases |s|
  {
    if s == [] then
      (if current == [] then [] else [current])
    else if IsPathSeparator(s[0]) then
      var rest := SplitFrom(s[1..], []);
      assert WithoutSeparators(s) == WithoutSeparators(s[1..]);
      if current == [] then
        rest
      else
        assert ([current] + rest)[1..] == rest;
        [current] + rest
    else
      assert current + WithoutSeparators(s) == (current + [s[0]]) + WithoutSeparators(s[1..]);
      SplitFrom(s[1..], current + [s[0]])
  }

  /** path.Split(new[] { '/', '\\' }, StringSplitOptions.RemoveEmptyEntries): no
      segment is empty or holds a separator, and together the segments are the path
      with its separators taken out. */
  function SplitPath(path: string): (segments: seq<string>)
    ensures ValidSegments(segments)
    ensures Concat(segments) == WithoutSeparators(path)
  {
    SplitFrom(path, [])
  }

  /** Joins non-empty segments with one separator between neighbours. */
  function JoinPath(segments: seq<string>, separator: char): string {
    if segments == [] then []
    else if |segments| == 1 then segments[0]
    else segments[0] + [separator] + JoinPath(segments[1..], separator)
  }

  lemma {:induction false} SplitFromSegment(segment: string, rest: string, current: string)
    requires NoSeparator(current) && NoSeparator(segment)
    ensures NoSeparator(current + segment)
    ensures SplitFrom(segment + rest, current) == SplitFrom(rest, current + segment)
    decreases |segment|
  {
    if segment != [] {
      assert (segment + rest)[0] == segment[0];
      assert (segment + rest)[1..] == segment[1..] + rest;
      assert current + [segment[0]] + segment[1..] == current + segment;
      SplitFromSegment(segment[1..], rest, current + [segment[0]]);
    } else {
      assert segment + rest == rest;
      assert current + segment == current;
    }
  }

  /** A segment read up to the end of the path or up to a separator is complete. */
  lemma {:induction false} SegmentEnds(segment: string, after: string)
    requires segment != [] && NoSeparator(segment)
    requires after == [] || IsPathSeparator(after[0])
    ensures SplitFrom(after, segment) == [segment] + SplitFrom(after, [])
  {
  }

  predicate SeparatorsOnly(run: string) {
    forall i :: 0 <= i < |run| ==> IsPathSeparator(run[i])
  }

  /** A run of separators between segments splits to nothing. */
  lemma {:induction false} SeparatorRunSkipped(run: string, rest: string)
    requires SeparatorsOnly(run)
    ensures SplitFrom(run + rest, []) == SplitFrom(rest, [])
    decreases |run|
  {
    if run != [] {
      assert (run + rest)[1..] == run[1..] + rest;
      SeparatorRunSkipped(run[1..], rest);
    } else {
      assert run + rest == rest;
    }
  }

  /** Splitting undoes joining: a path made of valid segments splits back into them. */
  lemma {:induction false} SplitJoin(segments: seq<string>, separator: char)
    requires IsPathSeparator(separator) && ValidSegments(segments)
    ensures SplitPath(JoinPath(segments, separator)) == segments
    decreases |segments|
  {
    if |segments| == 1 {
      SplitFromSegment(segments[0], [], []);
      assert segments[0] + [] == segments[0];
      assert [] + segments[0] == segments[0];
    } else if |segments| > 1 {
      var tail := JoinPath(segments[1..], separator);
      var after := [separator] + tail;
      assert JoinPath(segments, separator) == segments[0] + after;
      SplitFromSegment(segments[0], after, []);
      assert [] + segments[0] == segments[0];
      SegmentEnds(segments[0], after);
      assert after[1..] == tail;
      assert SplitFrom(after, []) == SplitFrom(tail, []);
      SplitJoin(segments[1..], separator);
      assert segments == [segments[0]] + segments[1..];
    }
  }

  /** runs[0] + segments[0] + runs[1] + segments[1] + ...: each segment preceded by its
      run of separators. */
  function Interleave(runs: seq<string>, segments: seq<string>): string
    requires |runs| == |segments|
  {
    if segments == [] then [] else runs[0] + segments[0] + Interleave(runs[1..], segments[1..])
  }

  /** The runs of separators a path can place around its segments: a run of any length
      before the first segment, a non-empty run between neighbours. */
  predicate SeparatorRuns(runs: seq<string>) {
    forall i :: 0 <= i < |runs| ==> SeparatorsOnly(runs[i]) && (i > 0 ==> runs[i] != [])
  }

  lemma {:induction false} SeparatorRunsTail(runs: seq<string>)
    requires runs != [] && SeparatorRuns(runs)
    ensures SeparatorRuns(runs[1..])
  {
    assert forall i :: 0 <= i < |runs| - 1 ==> runs[1..][i] == runs[i + 1];
  }

  /** What follows a segment of the path starts with a separator, or is empty. */
  lemma {:induction false} AfterSegmentStartsWithSeparator(runs: seq<string>, segments: seq<string>, trailing: string)
    requires |runs| == |segments| && SeparatorRuns(runs) && SeparatorsOnly(trailing)
    requires segments != []
    ensures var after := Interleave(runs[1..], segments[1..]) + trailing;
            after == [] || IsPathSeparator(after[0])
  {
    if |segments| > 1 {
      var after := Interleave(runs[1..], segments[1..]) + trailing;
      assert runs[1..][0] == runs[1];
      assert after == runs[1] + (segments[1] + Interleave(runs[2..], segments[2..]) + trailing);
      assert after[0] == runs[1][0];
    } else {
      assert Interleave(runs[1..], segments[1..]) + trailing == trailing;
    }
  }

  /** Splitting finds the segments of a path however many separators stand between them
      and at either end. */
  lemma {:induction false} SplitInterleaved(runs: seq<string>, segments: seq<string>, trailing: string)
    requires |runs| == |segments| && SeparatorRuns(runs) && ValidSegments(segments)
    requires SeparatorsOnly(trailing)
    ensures SplitPath(Interleave(runs, segments) + trailing) == segments
    decreases |segments|
  {
    if segments == [] {
      assert Interleave(runs, segments) + trailing == trailing + [];
      SeparatorRunSkipped(trailing, []);
    } else {
      var after := Interleave(runs[1..], segments[1..]) + trailing;
      assert Interleave(runs, segments) + trailing == runs[0] + (segments[0] + after);
      SeparatorRunSkipped(runs[0], segments[0] + after);
      SplitFromSegment(segments[0], after, []);
      assert [] + segments[0] == segments[0];
      AfterSegmentStartsWithSeparator(runs, segments, trailing);
      SegmentEnds(segments[0], after);
      SeparatorRunsTail(runs);
      SplitInterleaved(runs[1..], segments[1..], trailing);
      assert segments == [segments[0]] + segments[1..];
    }
  }

  /** Array.IndexOf: the position of the first occurrence of x, or -1. */
  function IndexOf(segments: seq<string>, x: string): (k: int)
    ensures -1 <= k < |segments|
    ensures k == -1 <==> x !in segments
    ensures 0 <= k ==> segments[k] == x && x !in segments[..k]
  {
    if segments == [] then -1
    else if segments[0] == x then 0
    else
      var k := IndexOf(segments[1..], x);
      if k == -1 then -1
      else
        assert segments[..k + 1] == [segments[0]] + segments[1..][..k];
        k + 1
  }

  const NetCoreAppSegment: string := "Microsoft.NETCore.App"

  /** The .NET Core runtime version of the runtime whose core library has code base
      `codeBase`: the segment after the first "Microsoft.NETCore.App", provided that
      segment is not the first one and is followed by at least two more. */
  function GetNetCoreVersion(codeBase: string): (version: Option<string>)
    ensures NetCoreAppSegment !in SplitPath(codeBase) ==> version.None?
    ensures var segments := SplitPath(codeBase);
            forall k :: 0 <= k < |segments| && segments[k] == NetCoreAppSegment && NetCoreAppSegment !in segments[..k] ==>
              version == if 0 < k < |segments| - 2 then Some(segments[k + 1]) else None
    ensures version.Some? ==> version.value != [] && NoSeparator(version.value)
  {
    var assemblyPath := SplitPath(codeBase);
    var netCoreAppIndex := IndexOf(assemblyPath, NetCoreAppSegment);
    if netCoreAppIndex > 0 && netCoreAppIndex < |assemblyPath| - 2 then
      Some(assemblyPath[netCoreAppIndex + 1])
    else
      None
  }

  /** A path laid out as the runtime installs its core library (some directories
      without "Microsoft.NETCore.App", that directory, the version directory, and at
      least one more segment) names that version, whatever runs of separators stand
      around the segments: file:///usr/share/dotnet/shared/Microsoft.NETCore.App/2.1.0/
      System.Private.CoreLib.dll is the segment "file:", a run "///", and so on. */
  lemma {:induction false} NetCoreVersionOfInstalledPath(prefix: seq<string>, version: string, rest: seq<string>,
                                                         runs: seq<string>, trailing: string)
    requires prefix != [] && NetCoreAppSegment !in prefix
    requires rest != []
    requires ValidSegments(prefix + [NetCoreAppSegment, version] + rest)
    requires |runs| == |prefix + [NetCoreAppSegment, version] + rest| && SeparatorRuns(runs)
    requires SeparatorsOnly(trailing)
    ensures GetNetCoreVersion(Interleave(runs, prefix + [NetCoreAppSegment, version] + rest) + trailing) == Some(version)
  {
    var segments := prefix + [NetCoreAppSegment, version] + rest;
    SplitInterleaved(runs, segments, trailing);
    var k := |prefix|;
    assert segments[k] == NetCoreAppSegment && segments[k + 1] == version;
    assert segments[..k] == prefix;
  }

  // ---------------------------------------------------------------------------
  // RuntimeSupportsCloudTlsSettings
  // ---------------------------------------------------------------------------

  /** What Version.TryParse yields: the major and minor components. */
  datatype Version = Version(major: int, minor: int)

  type VersionParser = string -> Option<Version>

  /** The text of s before the first occurrence of `stop`, or all of s: s.Split('-')[0]
      for the version string, and what a greedy `.+` matches for the line scan. */
  function PrefixBefore(s: string, stop: char): (head: string)
    ensures head <= s
    ensures stop !in head
    ensures |head| < |s| ==> s[|head|] == stop
  {
    if s == [] || s[0] == stop then [] else [s[0]] + PrefixBefore(s[1..], stop)
  }

  /** A pre-release suffix after '-' is not looked at. */
  lemma {:induction false} PrereleaseSuffixIgnored(release: string, suffix: string)
    requires '-' !in release
    ensures PrefixBefore(release + "-" + suffix, '-') == release
    decreases |release|
  {
    if release != [] {
      assert (release + "-" + suffix)[1..] == release[1..] + "-" + suffix;
      PrereleaseSuffixIgnored(release[1..], suffix);
      assert release == [release[0]] + release[1..];
    }
  }

  /** The first runtime version that supports the cloud TLS settings. */
  const CloudTlsMinimum: Version := Version(2, 1)

  /** Version v is v' or later, in the order major first, then minor. */
  predicate AtLeast(v: Version, w: Version) {
    v.major > w.major || (v.major == w.major && v.minor >= w.minor)
  }

  /** Whether the runtime whose core library has code base `codeBase` supports the
      TLS settings cloud connections need: it does from 2.1 on, and is assumed to when
      the version cannot be found or parsed. */
  function RuntimeSupportsCloudTlsSettings(codeBase: string, tryParseVersion: VersionParser): (supported: bool)
    ensures GetNetCoreVersion(codeBase).None? ==> supported
    ensures GetNetCoreVersion(codeBase).Some? ==>
              var parsed := tryParseVersion(PrefixBefore(GetNetCoreVersion(codeBase).value, '-'));
              && (parsed.None? ==> supported)
              && (parsed.Some? ==> (supported <==> AtLeast(parsed.value, CloudTlsMinimum)))
  {
    var netCoreVersion := GetNetCoreVersion(codeBase);
    if netCoreVersion.Some? && tryParseVersion(PrefixBefore(netCoreVersion.value, '-')).Some? then
      var version := tryParseVersion(PrefixBefore(netCoreVersion.value, '-')).value;
      if version.major > 2 then true
      else if version.major == 2 && version.minor >= 1 then true
      else false
    else
      true
  }

  /** Support is monotone: a runtime at least as recent as a supported one is supported. */
  lemma {:induction false} CloudTlsSupportMonotone(a: Version, b: Version)
    requires AtLeast(a, CloudTlsMinimum) && AtLeast(b, a)
    ensures AtLeast(b, CloudTlsMinimum)
  {
  }

  // ---------------------------------------------------------------------------
  // CPU information
  // ---------------------------------------------------------------------------

  /** CpuInfo: the name of the first CPU (null when unknown) and the CPU count. */
  datatype CpuInfo = CpuInfo(firstCpuName: Option<string>, length: int)

  const TwoTo31: int := 0x8000_0000
  const TwoTo32: int := 0x1_0000_0000

  /** A C# int. */
  type Int32 = x: int | -0x8000_0000 <= x < 0x8000_0000

  /** int.TryParse: the parsed value, or None when the text is not an int. */
  type Int32Parser = string -> Option<Int32>

  /** The C# int that unchecked arithmetic yields for the mathematical value x. */
  function Wrap32(x: int): (w: Int32)
    ensures -TwoTo31 <= x < TwoTo31 ==> w == x
  {
    (x + TwoTo31) % TwoTo32 - TwoTo31
  }

  lemma {:induction false} ModMultiple(x: int, q: int)
    ensures (x - q * TwoTo32) % TwoTo32 == x % TwoTo32
  {
    var r := x % TwoTo32;
    var d := x / TwoTo32;
    assert x == d * TwoTo32 + r;
    assert x - q * TwoTo32 == (d - q) * TwoTo32 + r;
  }

  /** Wrapping an intermediate sum does not change the wrapped total. */
  lemma {:induction false} WrapAdd(a: int, b: int)
    ensures Wrap32(Wrap32(a) + b) == Wrap32(a + b)
  {
    var q := (a + TwoTo31) / TwoTo32;
    assert a + TwoTo31 == q * TwoTo32 + (a + TwoTo31) % TwoTo32;
    assert Wrap32(a) + b + TwoTo31 == (a + b + TwoTo31) - q * TwoTo32;
    ModMultiple(a + b + TwoTo31, q);
  }

  /** A Win32_Processor record: its Name and NumberOfCores properties as text. */
  datatype WmiProcessor = WmiProcessor(name: string, numberOfCores: string)

  /** The cores a record contributes: its parsed core count, or 0 when that does not parse. */
  function Cores(processor: WmiProcessor, tryParseInt: Int32Parser): Int32 {
    match tryParseInt(processor.numberOfCores)
    case Some(n) => n
    case None => 0
  }

  /** The mathematical sum of the records' core counts. */
  function TotalCores(processors: seq<WmiProcessor>, tryParseInt: Int32Parser): int {
    if processors == [] then 0 else Cores(processors[0], tryParseInt) + TotalCores(processors[1..], tryParseInt)
  }

  lemma {:induction false} TotalCoresAppend(a: seq<WmiProcessor>, b: seq<WmiProcessor>, tryParseInt: Int32Parser)
    ensures TotalCores(a + b, tryParseInt) == TotalCores(a, tryParseInt) + TotalCores(b, tryParseInt)
    decreases |a|
  {
    if a != [] {
      assert (a + b)[1..] == a[1..] + b;
      TotalCoresAppend(a[1..], b, tryParseInt);
    } else {
      assert a + b == b;
    }
  }

  /** GetWmiCpuInfo over the records the WMI query returned: the first record's name
      (empty when there is none) and the sum of the core counts, wrapped as a C# int. */
  method GetWmiCpuInfo(processors: seq<WmiProcessor>, tryParseInt: Int32Parser) returns (info: CpuInfo)
    ensures info.firstCpuName == Some(if processors == [] then "" else processors[0].name)
    ensures info.length == Wrap32(TotalCores(processors, tryParseInt))
    ensures -TwoTo31 <= TotalCores(processors, tryParseInt) < TwoTo31 ==>
              info.length == TotalCores(processors, tryParseInt)
  {
    var count: Int32 := 0;
    var first := true;
    var firstCpuName := "";
    for i := 0 to |processors|
      invariant first <==> i == 0
      invariant firstCpuName == if i == 0 then "" else processors[0].name
      invariant count == Wrap32(TotalCores(processors[..i], tryParseInt))
    {
      var item := processors[i];
      if first {
        first := false;
        firstCpuName := item.name;
      }
      var numberOfCores: Int32 := match tryParseInt(item.numberOfCores) case Some(n) => n case None => 0;
      TotalCoresAppend(processors[..i], [item], tryParseInt);
      assert processors[..i + 1] == processors[..i] + [item];
      WrapAdd(TotalCores(processors[..i], tryParseInt), numberOfCores);
      count := Wrap32(count + numberOfCores);
    }
    assert processors[..|processors|] == processors;
    return CpuInfo(Some(firstCpuName), count);
  }

  /** The characters the regular-expression class \s matches: the ASCII whitespace
      controls, U+0085 and the Unicode separators (category Z). */
  predicate IsRegexSpace(c: char) {
    || c == ' ' || c == '\t' || c == '\n' || c == '\r' || c == '\U{000B}' || c == '\U{000C}'
    || c == '\U{0085}' || c == '\U{00A0}' || c == '\U{1680}'
    || ('\U{2000}' <= c <= '\U{200A}')
    || c == '\U{2028}' || c == '\U{2029}' || c == '\U{202F}' || c == '\U{205F}' || c == '\U{3000}'
  }

  predicate AllRegexSpace(s: string) {
    forall i :: 0 <= i < |s| ==> IsRegexSpace(s[i])
  }

  /** The length of the whitespace run at the start of s. */
  function LeadingSpaces(s: string): (n: nat)
    ensures n <= |s|
    ensures AllRegexSpace(s[..n])
    ensures n < |s| ==> !IsRegexSpace(s[n])
  {
    if s == [] || !IsRegexSpace(s[0]) then 0
    else
      var n := LeadingSpaces(s[1..]);
      assert s[..n + 1] == [s[0]] + s[1..][..n];
      1 + n
  }

  /** The last position in 1..j whose character is not a newline, or 0 when there is none. */
  function LastNonNewline(rest: string, j: int): (k: nat)
    requires j < |rest|
    ensures k == 0 || (k <= j && rest[k] != '\n')
    ensures forall m :: k < m <= j && 1 <= m ==> rest[m] == '\n'
    decreases j
  {
    if j < 1 then 0
    else if rest[j] != '\n' then j
    else LastNonNewline(rest, j - 1)
  }

  /** The capture when the whitespace after the colon runs to the end of the line: the
      regular expression gives back whitespace until `.` can match, that is, the last
      character at position 1..j that is not a newline. */
  function BacktrackedCapture(rest: string, j: int): (capture: Option<string>)
    requires j < |rest|
    ensures capture.Some? ==> exists k :: 1 <= k <= j && rest[k] != '\n' && capture.value == [rest[k]] &&
                                         forall m :: k < m <= j ==> rest[m] == '\n'
    ensures capture.None? ==> forall k :: 1 <= k <= j ==> rest[k] == '\n'
  {
    var k := LastNonNewline(rest, j);
    if k == 0 then None else Some([rest[k]])
  }

  const ModelNameLabel: string := "model name"

  /** The first group of `^model name\s+:\s+(.+)` matched against line, or None when the
      line does not match. */
  function MatchModelName(line: string): (name: Option<string>)
    ensures name.Some? ==> ModelNameLabel <= line && name.value != [] && '\n' !in name.value
  {
    if !(ModelNameLabel <= line) then None
    else MatchAfterLabel(line[|ModelNameLabel|..])
  }

  /** The first group of `\s+:\s+(.+)` matched at the start of `afterLabel`, the text
      after the label, or None when it does not match. */
  function MatchAfterLabel(afterLabel: string): (name: Option<string>)
    ensures name.Some? ==> name.value != [] && '\n' !in name.value
  {
    var w1 := LeadingSpaces(afterLabel);
    if w1 == 0 || w1 == |afterLabel| || afterLabel[w1] != ':' then None
    else MatchAfterColon(afterLabel[w1 + 1..])
  }

  /** The first group of `\s+(.+)` matched at the start of `rest`, the text after the
      colon, or None when it does not match. */
  function MatchAfterColon(rest: string): (name: Option<string>)
    ensures name.Some? ==> name.value != [] && '\n' !in name.value
  {
    var w2 := LeadingSpaces(rest);
    if w2 == 0 then None
    else if w2 < |rest| then Some(PrefixBefore(rest[w2..], '\n'))
    else BacktrackedCapture(rest, |rest| - 1)
  }

  lemma {:induction false} LeadingSpacesOf(spaces: string, rest: string)
    requires AllRegexSpace(spaces)
    requires rest != [] && !IsRegexSpace(rest[0])
    ensures LeadingSpaces(spaces + rest) == |spaces|
  {
    var s := spaces + rest;
    assert s[|spaces|] == rest[0];
    var n := LeadingSpaces(s);
    assert forall i :: 0 <= i < |spaces| ==> s[i] == spaces[i];
  }

  /** After the label, whitespace and a colon, the match is decided by the text after
      the colon. */
  lemma {:induction false} AfterLabelRoundTrip(spacesBefore: string, rest: string)
    requires spacesBefore != [] && AllRegexSpace(spacesBefore)
    ensures MatchAfterLabel(spacesBefore + ":" + rest) == MatchAfterColon(rest)
  {
    var afterLabel := spacesBefore + ":" + rest;
    assert afterLabel == spacesBefore + (":" + rest);
    LeadingSpacesOf(spacesBefore, ":" + rest);
    assert afterLabel[|spacesBefore|] == ':';
    assert afterLabel[|spacesBefore| + 1..] == rest;
  }

  /** On a line made of the label, whitespace and a colon, the match is decided by the
      text after the colon. */
  lemma {:induction false} LabelledLine(spacesBefore: string, rest: string)
    requires spacesBefore != [] && AllRegexSpace(spacesBefore)
    ensures MatchModelName(ModelNameLabel + spacesBefore + ":" + rest) == MatchAfterColon(rest)
  {
    var line := ModelNameLabel + spacesBefore + ":" + rest;
    assert ModelNameLabel <= line;
    assert line[|ModelNameLabel|..] == spacesBefore + ":" + rest;
    AfterLabelRoundTrip(spacesBefore, rest);
  }

  /** A line written as the label, whitespace, a colon, whitespace and a name yields
      that name. */
  lemma {:induction false} ModelNameLineRoundTrip(spacesBefore: string, spacesAfter: string, name: string)
    requires spacesBefore != [] && AllRegexSpace(spacesBefore)
    requires spacesAfter != [] && AllRegexSpace(spacesAfter)
    requires name != [] && !IsRegexSpace(name[0]) && '\n' !in name
    ensures MatchModelName(ModelNameLabel + spacesBefore + ":" + spacesAfter + name) == Some(name)
  {
    var rest := spacesAfter + name;
    assert ModelNameLabel + spacesBefore + ":" + spacesAfter + name == ModelNameLabel + spacesBefore + ":" + rest;
    LabelledLine(spacesBefore, rest);
    LeadingSpacesOf(spacesAfter, name);
    assert rest[|spacesAfter|..] == name;
    assert PrefixBefore(name, '\n') == name;
  }

  /** Whitespace after the colon that runs to the end of the line, as a single
      whitespace character other than a newline followed only by newlines, yields that
      character: the regular expression backtracks into the whitespace. */
  lemma {:induction false} BacktrackedAfterColon(spacesAfter: string, c: char, newlines: string)
    requires spacesAfter != [] && AllRegexSpace(spacesAfter)
    requires IsRegexSpace(c) && c != '\n'
    requires forall k :: 0 <= k < |newlines| ==> newlines[k] == '\n'
    ensures MatchAfterColon(spacesAfter + [c] + newlines) == Some([c])
  {
    var rest := spacesAfter + [c] + newlines;
    assert forall i :: 0 <= i < |spacesAfter| ==> rest[i] == spacesAfter[i];
    assert rest[|spacesAfter|] == c;
    assert forall m :: |spacesAfter| < m < |rest| ==> rest[m] == newlines[m - |spacesAfter| - 1];
    assert AllRegexSpace(rest);
    assert LeadingSpaces(rest) == |rest|;
    assert BacktrackedCapture(rest, |rest| - 1) == Some([c]);
  }

  /** The same on a whole line. */
  lemma {:induction false} BacktrackedLineRoundTrip(spacesBefore: string, spacesAfter: string, c: char, newlines: string)
    requires spacesBefore != [] && AllRegexSpace(spacesBefore)
    requires spacesAfter != [] && AllRegexSpace(spacesAfter)
    requires IsRegexSpace(c) && c != '\n'
    requires forall k :: 0 <= k < |newlines| ==> newlines[k] == '\n'
    ensures MatchModelName(ModelNameLabel + spacesBefore + ":" + spacesAfter + [c] + newlines) == Some([c])
  {
    var rest := spacesAfter + [c] + newlines;
    assert ModelNameLabel + spacesBefore + ":" + spacesAfter + [c] + newlines == ModelNameLabel + spacesBefore + ":" + rest;
    LabelledLine(spacesBefore, rest);
    BacktrackedAfterColon(spacesAfter, c, newlines);
  }

  /** The shape AfterColonShape states. */
  predicate AfterColonLayout(rest: string, spacesAfter: string, name: string, tail: string) {
    && rest == spacesAfter + name + tail
    && spacesAfter != [] && AllRegexSpace(spacesAfter)
    && name != []
    && (tail == [] || tail[0] == '\n')
    && (!IsRegexSpace(name[0]) || (|name| == 1 && forall k :: 0 <= k < |tail| ==> tail[k] == '\n'))
  }

  /** The greedy case: the whitespace is followed by a character that is not whitespace
      and the capture runs to the end of the line. */
  lemma {:induction false} GreedyCaptureShape(rest: string) returns (spacesAfter: string, tail: string)
    requires 0 < LeadingSpaces(rest) < |rest|
    ensures AfterColonLayout(rest, spacesAfter, PrefixBefore(rest[LeadingSpaces(rest)..], '\n'), tail)
  {
    var w2 := LeadingSpaces(rest);
    spacesAfter := rest[..w2];
    var text := rest[w2..];
    var name := PrefixBefore(text, '\n');
    tail := text[|name|..];
    assert text == name + tail;
    assert rest == spacesAfter + text;
    if |name| < |text| {
      assert tail[0] == text[|name|];
    }
    assert text[0] == rest[w2];
  }

  /** The backtracked case: the whitespace runs to the end and the capture is the last
      character that is not a newline. */
  lemma {:induction false} BacktrackedCaptureShape(rest: string) returns (spacesAfter: string, tail: string)
    requires LeadingSpaces(rest) == |rest| && BacktrackedCapture(rest, |rest| - 1).Some?
    ensures AfterColonLayout(rest, spacesAfter, BacktrackedCapture(rest, |rest| - 1).value, tail)
  {
    var name := BacktrackedCapture(rest, |rest| - 1).value;
    var k := LastNonNewline(rest, |rest| - 1);
    spacesAfter := rest[..k];
    tail := rest[k + 1..];
    assert rest == spacesAfter + name + tail;
    assert forall i :: 0 <= i < |tail| ==> tail[i] == rest[k + 1 + i];
    var spaces := rest[..LeadingSpaces(rest)];
    assert AllRegexSpace(spaces);
    assert spacesAfter == spaces[..k];
  }

  /** What the text after the colon looks like when it matches: whitespace, the
      captured name and the rest, which is empty or starts a new line. The name starts
      with a character that is not whitespace, unless the regular expression
      backtracked: then it is one character and only newlines follow. */
  lemma {:induction false} AfterColonShape(rest: string) returns (spacesAfter: string, tail: string)
    requires MatchAfterColon(rest).Some?
    ensures AfterColonLayout(rest, spacesAfter, MatchAfterColon(rest).value, tail)
  {
    if LeadingSpaces(rest) < |rest| {
      spacesAfter, tail := GreedyCaptureShape(rest);
    } else {
      spacesAfter, tail := BacktrackedCaptureShape(rest);
    }
  }

  /** Text after the label that matches is whitespace, a colon and text after it that
      matches. */
  lemma {:induction false} AfterLabelParts(afterLabel: string) returns (spacesBefore: string, rest: string)
    requires MatchAfterLabel(afterLabel).Some?
    ensures afterLabel == spacesBefore + ":" + rest
    ensures spacesBefore != [] && AllRegexSpace(spacesBefore)
    ensures MatchAfterLabel(afterLabel) == MatchAfterColon(rest)
  {
    var w1 := LeadingSpaces(afterLabel);
    rest := afterLabel[w1 + 1..];
    spacesBefore := afterLabel[..w1];
    assert afterLabel == spacesBefore + [afterLabel[w1]] + rest;
  }

  /** A matching line is the label, whitespace, a colon and the text after it, and
      that text matches. */
  lemma {:induction false} LabelledLineParts(line: string) returns (spacesBefore: string, rest: string)
    requires MatchModelName(line).Some?
    ensures line == ModelNameLabel + spacesBefore + ":" + rest
    ensures spacesBefore != [] && AllRegexSpace(spacesBefore)
    ensures MatchModelName(line) == MatchAfterColon(rest)
  {
    var afterLabel := line[|ModelNameLabel|..];
    assert MatchModelName(line) == MatchAfterLabel(afterLabel);
    assert line == ModelNameLabel + afterLabel;
    spacesBefore, rest := AfterLabelParts(afterLabel);
    assert ModelNameLabel + (spacesBefore + ":" + rest) == ModelNameLabel + spacesBefore + ":" + rest;
  }

  /** What a matching line looks like: the label, whitespace, a colon, and text after
      the colon of the shape AfterColonShape gives. */
  lemma {:induction false} ModelNameLineShape(line: string) returns (spacesBefore: string, spacesAfter: string, tail: string)
    requires MatchModelName(line).Some?
    ensures var name := MatchModelName(line).value;
            && line == ModelNameLabel + spacesBefore + ":" + (spacesAfter + name + tail)
            && spacesBefore != [] && AllRegexSpace(spacesBefore)
            && '\n' !in name
            && AfterColonLayout(spacesAfter + name + tail, spacesAfter, name, tail)
  {
    var rest;
    spacesBefore, rest := LabelledLineParts(line);
    spacesAfter, tail := AfterColonShape(rest);
  }

  /** A colon right after the label, without whitespace before it, never matches. */
  lemma {:induction false} NoSpaceBeforeColonDoesNotMatch(rest: string)
    ensures MatchModelName(ModelNameLabel + ":" + rest).None?
  {
    var line := ModelNameLabel + ":" + rest;
    assert ModelNameLabel <= line;
    assert line[|ModelNameLabel|..] == ":" + rest;
  }

  /** A line that does not start with the label never matches. */
  lemma {:induction false} UnlabelledLineDoesNotMatch(line: string)
    requires !(ModelNameLabel <= line)
    ensures MatchModelName(line).None?
  {
  }

  /** The position of the first line at or after `from` that matches, or -1 when none does. */
  function FirstMatchingLineFrom(lines: seq<string>, from: nat): (k: int)
    requires from <= |lines|
    ensures k == -1 || from <= k < |lines|
    ensures k == -1 <==> forall i :: from <= i < |lines| ==> MatchModelName(lines[i]).None?
    ensures 0 <= k ==> MatchModelName(lines[k]).Some? && forall j :: from <= j < k ==> MatchModelName(lines[j]).None?
    decreases |lines| - from
  {
    if from == |lines| then -1
    else if MatchModelName(lines[from]).Some? then from
    else FirstMatchingLineFrom(lines, from + 1)
  }

  /** The position of the first line that matches, or -1 when none does. */
  function FirstMatchingLine(lines: seq<string>): (k: int)
    ensures -1 <= k < |lines|
    ensures k == -1 <==> forall i :: 0 <= i < |lines| ==> MatchModelName(lines[i]).None?
    ensures 0 <= k ==> MatchModelName(lines[k]).Some? && forall j :: 0 <= j < k ==> MatchModelName(lines[j]).None?
  {
    FirstMatchingLineFrom(lines, 0)
  }

  /** The name captured from the first matching line, or None. */
  function FirstModelName(lines: seq<string>): (name: Option<string>)
    ensures name.None? <==> forall i :: 0 <= i < |lines| ==> MatchModelName(lines[i]).None?
  {
    var k := FirstMatchingLine(lines);
    if k == -1 then None else MatchModelName(lines[k])
  }

  /** GetLinuxProcCpuInfo over the lines of /proc/cpuinfo: the name on the first
      "model name" line, and the processor count the runtime reports. */
  method GetLinuxProcCpuInfo(cpuInfoLines: seq<string>, processorCount: int) returns (info: CpuInfo)
    ensures info == CpuInfo(FirstModelName(cpuInfoLines), processorCount)
  {
    for i := 0 to |cpuInfoLines|
      invariant forall j :: 0 <= j < i ==> MatchModelName(cpuInfoLines[j]).None?
    {
      var found := MatchModelName(cpuInfoLines[i]);
      if found.Some? {
        assert FirstMatchingLine(cpuInfoLines) == i;
        return CpuInfo(found, processorCount);
      }
    }
    return CpuInfo(None, processorCount);
  }

  /** The operating system the runtime reports. */
  datatype OsPlatform = Windows | Linux | OtherPlatform

  /** GetCpuInfo: WMI on Windows, /proc/cpuinfo on Linux, and on any other platform or
      when reading the source throws (given as None), no name and the processor count. */
  method GetCpuInfo(platform: OsPlatform, wmiProcessors: Option<seq<WmiProcessor>>,
                    cpuInfoLines: Option<seq<string>>, tryParseInt: Int32Parser, processorCount: int)
    returns (info: CpuInfo)
    ensures platform == Windows && wmiProcessors.Some? ==>
              && info.firstCpuName == Some(if wmiProcessors.value == [] then "" else wmiProcessors.value[0].name)
              && info.length == Wrap32(TotalCores(wmiProcessors.value, tryParseInt))
    ensures platform == Linux && cpuInfoLines.Some? ==>
              info == CpuInfo(FirstModelName(cpuInfoLines.value), processorCount)
    ensures !(platform == Windows && wmiProcessors.Some?) && !(platform == Linux && cpuInfoLines.Some?) ==>
              info == CpuInfo(None, processorCount)
  {
    if platform == Windows && wmiProcessors.Some? {
      info := GetWmiCpuInfo(wmiProcessors.value, tryParseInt);
      return;
    }
    if platform == Linux && cpuInfoLines.Some? {
      info := GetLinuxProcCpuInfo(cpuInfoLines.value, processorCount);
      return;
    }
    return CpuInfo(None, processorCount);
  }
}
