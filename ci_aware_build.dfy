/**
 * The build wrapper's report logic: which environment variables count as
 * continuous-integration variables, how long values are shortened, which
 * lines the report prints, and which exit status the wrapper passes on
 * once the bundler has finished.
 *
 * The environment is an ordered snapshot of (name, value) pairs and the
 * console is the sequence of strings handed to `console.log`, one element
 * per call, with the embedded newlines kept.
 */
module CiAwareBuild {
  import opened JsRuntime

  /** Longest value the report shows unshortened. */
  const MaxDisplayLen: nat := 55

  /** Number of `*` in each banner rule. */
  const BorderWidth: nat := 70

  const Star: CodeUnit := 0x2A
  const Newline: CodeUnit := 0x0A

  /** One environment variable, and one element of the gathered list. */
  datatype EnvEntry = EnvEntry(varName: JsString, varValue: JsString)

  // ---------------------------------------------------------------------
  // The name pattern /^(GITHUB|CI|RUNNER|CLOUDFLARE)/i

  const Github: JsString := [0x47, 0x49, 0x54, 0x48, 0x55, 0x42]
  const Ci: JsString := [0x43, 0x49]
  const Runner: JsString := [0x52, 0x55, 0x4E, 0x4E, 0x45, 0x52]
  const Cloudflare: JsString := [0x43, 0x4C, 0x4F, 0x55, 0x44, 0x46, 0x4C, 0x41, 0x52, 0x45]

  /** The four alternatives spell the words of the pattern. */
  lemma AlternativesSpellPattern()
    ensures Github == Ascii("GITHUB")
    ensures Ci == Ascii("CI")
    ensures Runner == Ascii("RUNNER")
    ensures Cloudflare == Ascii("CLOUDFLARE")
  {
  }

  /** Case folding of an ignore-case regular expression without the `u`
      flag, restricted to what can matter against an ASCII pattern: ASCII
      lower-case letters fold to upper case, and no other code unit folds
      onto an ASCII one. */
  function Fold(u: CodeUnit): (f: CodeUnit)
    ensures 0x61 <= u <= 0x7A ==> f == u - 0x20
    ensures !(0x61 <= u <= 0x7A) ==> f == u
    ensures !(0x61 <= f <= 0x7A)
  {
    if 0x61 <= u <= 0x7A then u - 0x20 else u
  }

  /** `name` begins with `prefix`, up to ASCII case. */
  predicate StartsWithIgnoringCase(name: JsString, prefix: JsString) {
    |prefix| <= |name| && forall i :: 0 <= i < |prefix| ==> Fold(name[i]) == Fold(prefix[i])
  }

  /** The pattern: an anchored alternation of four prefixes, no end anchor. */
  predicate MatchesCiPattern(name: JsString) {
    || StartsWithIgnoringCase(name, Github)
    || StartsWithIgnoringCase(name, Ci)
    || StartsWithIgnoringCase(name, Runner)
    || StartsWithIgnoringCase(name, Cloudflare)
  }

  /** One alternative of the pattern tried the way a matcher runs it: code
      unit by code unit from the start of the name. */
  function AlternativeTest(name: JsString, alternative: JsString): (ok: bool)
    ensures ok <==> StartsWithIgnoringCase(name, alternative)
    decreases alternative
  {
    if alternative == [] then true
    else if name == [] then false
    else Fold(name[0]) == Fold(alternative[0]) && AlternativeTest(name[1..], alternative[1..])
  }

  /** `envCheckPatterns.test(name)`: the alternatives in source order. */
  function PatternTest(name: JsString): (ok: bool)
    ensures ok <==> MatchesCiPattern(name)
  {
    AlternativeTest(name, Github) || AlternativeTest(name, Ci)
    || AlternativeTest(name, Runner) || AlternativeTest(name, Cloudflare)
  }

  /** Names that differ only in ASCII case are treated alike. */
  lemma MatchIgnoresCase(a: JsString, b: JsString)
    requires |a| == |b| && forall i :: 0 <= i < |a| ==> Fold(a[i]) == Fold(b[i])
    ensures MatchesCiPattern(a) <==> MatchesCiPattern(b)
  {
  }

  /** The pattern is anchored at the start only: whatever follows a matching
      name keeps it matching. */
  lemma MatchIsPrefixClosed(name: JsString, rest: JsString)
    requires MatchesCiPattern(name)
    ensures MatchesCiPattern(name + rest)
  {
  }

  /** Names the pattern takes, whatever their case and whatever follows
      the prefix. */
  lemma MatchingExamples()
    ensures MatchesCiPattern(Ascii("ci_x"))
    ensures MatchesCiPattern(Ascii("Circle"))
    ensures MatchesCiPattern(Ascii("github_token"))
    ensures MatchesCiPattern(Ascii("CIRCLECI"))
  {
    assert StartsWithIgnoringCase(Ascii("ci_x"), Ci);
    assert StartsWithIgnoringCase(Ascii("Circle"), Ci);
    assert StartsWithIgnoringCase(Ascii("github_token"), Github);
    assert StartsWithIgnoringCase(Ascii("CIRCLECI"), Ci);
  }

  /** The two longer alternatives, in mixed case. */
  lemma RunnerAndCloudflareExamples()
    ensures MatchesCiPattern(Ascii("runner_os"))
    ensures MatchesCiPattern(Ascii("CloudFlare_API"))
  {
    assert StartsWithIgnoringCase(Ascii("runner_os"), Runner);
    assert StartsWithIgnoringCase(Ascii("CloudFlare_API"), Cloudflare);
  }

  /** Names the pattern rejects: a prefix elsewhere than at the start, or
      only part of one. */
  lemma NonMatchingExamples()
    ensures !MatchesCiPattern(Ascii("MY_CI"))
    ensures !MatchesCiPattern(Ascii("XGITHUB"))
    ensures !MatchesCiPattern(Ascii("C"))
    ensures !MatchesCiPattern(Ascii("RUNNE"))
  {
    assert Fold(Ascii("RUNNE")[0]) != Fold(Ci[0]);
    assert Fold(Ascii("MY_CI")[0]) != Fold(Ci[0]);
    assert Fold(Ascii("XGITHUB")[0]) != Fold(Github[0]);
  }

  // ---------------------------------------------------------------------
  // truncateIfNeeded

  const Ellipsis: JsString := Ascii("...")

  /** A value longer than MaxDisplayLen code units becomes its first
      MaxDisplayLen - 3 code units followed by `...`; any other value is
      kept. */
  function TruncateIfNeeded(textValue: JsString): (r: JsString)
    ensures |r| <= MaxDisplayLen
    ensures r == textValue <==> |textValue| <= MaxDisplayLen
    ensures |textValue| > MaxDisplayLen ==>
              |r| == MaxDisplayLen
              && r[..MaxDisplayLen - 3] == textValue[..MaxDisplayLen - 3]
              && r[MaxDisplayLen - 3..] == Ellipsis
  {
    if |textValue| > MaxDisplayLen then textValue[..MaxDisplayLen - 3] + Ellipsis else textValue
  }

  /** Shortening a shortened value changes nothing. */
  lemma TruncateIdempotent(textValue: JsString)
    ensures TruncateIfNeeded(TruncateIfNeeded(textValue)) == TruncateIfNeeded(textValue)
  {
  }

  // ---------------------------------------------------------------------
  // gatherCiData

  /** The entries of `env` whose names match the pattern, in the order of
      `env`, each as it is. */
  function CiEntries(env: seq<EnvEntry>): (r: seq<EnvEntry>)
    ensures |r| <= |env|
  {
    if env == [] then []
    else
      var last := env[|env| - 1];
      CiEntries(env[..|env| - 1]) + (if MatchesCiPattern(last.varName) then [last] else [])
  }

  /** Positions of the matching entries of `env`, in increasing order. */
  function MatchingPositions(env: seq<EnvEntry>): seq<nat>
  {
    if env == [] then []
    else
      MatchingPositions(env[..|env| - 1])
      + (if MatchesCiPattern(env[|env| - 1].varName) then [|env| - 1] else [])
  }

  /** `r` is the selection of `env` at the strictly increasing positions
      `pos`. */
  predicate SelectedAt(env: seq<EnvEntry>, r: seq<EnvEntry>, pos: seq<nat>) {
    && |pos| == |r|
    && (forall k :: 0 <= k < |pos| ==> pos[k] < |env| && r[k] == env[pos[k]])
    && (forall k, l :: 0 <= k < l < |pos| ==> pos[k] < pos[l])
  }

  /** The gathered entries sit at the matching positions of `env`. */
  lemma {:induction false} MatchingPositionsSelect(env: seq<EnvEntry>)
    ensures SelectedAt(env, CiEntries(env), MatchingPositions(env))
  {
    if env != [] {
      var init := env[..|env| - 1];
      MatchingPositionsSelect(init);
      var pos0, r0 := MatchingPositions(init), CiEntries(init);
      var pos, r := MatchingPositions(env), CiEntries(env);
      assert forall k :: 0 <= k < |pos0| ==> pos[k] == pos0[k] && r[k] == r0[k] && env[pos0[k]] == init[pos0[k]];
    }
  }

  /** The matching positions are those whose names match. */
  lemma {:induction false} MatchingPositionsExact(env: seq<EnvEntry>)
    ensures forall i :: 0 <= i < |env| ==> (MatchesCiPattern(env[i].varName) <==> i in MatchingPositions(env))
    ensures forall i :: i in MatchingPositions(env) ==> i < |env|
  {
    if env != [] {
      var init := env[..|env| - 1];
      MatchingPositionsExact(init);
      assert forall i :: 0 <= i < |init| ==> env[i] == init[i];
    }
  }

  /** The gathered entries are exactly the matching entries of `env`, in
      their original order, with names and values unchanged. */
  lemma CiEntriesExact(env: seq<EnvEntry>)
    ensures exists pos :: SelectedAt(env, CiEntries(env), pos)
              && forall i :: 0 <= i < |env| ==> (MatchesCiPattern(env[i].varName) <==> i in pos)
  {
    MatchingPositionsSelect(env);
    MatchingPositionsExact(env);
  }

  /** An entry is gathered exactly when it is in `env` and its name
      matches. */
  lemma {:induction false} CiEntriesMembership(env: seq<EnvEntry>, e: EnvEntry)
    ensures e in CiEntries(env) <==> e in env && MatchesCiPattern(e.varName)
  {
    if env != [] {
      var init := env[..|env| - 1];
      var last := env[|env| - 1];
      CiEntriesMembership(init, e);
      assert env == init + [last];
    }
  }

  /** Gathering respects concatenation of environments, hence their order. */
  lemma {:induction false} CiEntriesAppend(a: seq<EnvEntry>, b: seq<EnvEntry>)
    ensures CiEntries(a + b) == CiEntries(a) + CiEntries(b)
    decreases |b|
  {
    if b == [] {
      assert a + b == a;
    } else {
      var init, last := b[..|b| - 1], b[|b| - 1];
      var whole := a + b;
      CiEntriesAppend(a, init);
      assert whole[..|whole| - 1] == a + init;
      assert whole[|whole| - 1] == last;
      var tail := if MatchesCiPattern(last.varName) then [last] else [];
      calc {
        CiEntries(whole);
        CiEntries(a + init) + tail;
        CiEntries(a) + CiEntries(init) + tail;
        CiEntries(a) + (CiEntries(init) + tail);
      }
    }
  }

  /** Gathering again from gathered entries finds them all again. */
  lemma {:induction false} CiEntriesIdempotent(env: seq<EnvEntry>)
    ensures CiEntries(CiEntries(env)) == CiEntries(env)
  {
    if env != [] {
      var init := env[..|env| - 1];
      var last := env[|env| - 1];
      CiEntriesIdempotent(init);
      var tail := if MatchesCiPattern(last.varName) then [last] else [];
      CiEntriesAppend(CiEntries(init), tail);
      assert CiEntries(tail) == tail by {
        if tail != [] { assert tail[..0] == []; }
      }
    }
  }

  /** `gatherCiData`: walk the environment, keeping every entry whose name
      passes the pattern test. */
  method GatherCiData(env: seq<EnvEntry>) returns (foundEntries: seq<EnvEntry>)
    ensures foundEntries == CiEntries(env)
  {
    foundEntries := [];
    for i := 0 to |env|
      invariant foundEntries == CiEntries(env[..i])
    {
      var entry := env[i];
      assert env[..i + 1][..i] == env[..i];
      if PatternTest(entry.varName) {
        foundEntries := foundEntries + [entry];
      }
    }
    assert env[..|env|] == env;
  }

  // ---------------------------------------------------------------------
  // printCiInfo, announceStart, announceEnd

  /** `'*'.repeat(70)` */
  function Border(): (r: JsString)
    ensures |r| == BorderWidth
    ensures forall i :: 0 <= i < |r| ==> r[i] == Star
  {
    seq(BorderWidth, _ => Star)
  }

  const Title: JsString := Ascii("    CONTINUOUS INTEGRATION ENVIRONMENT CHECK")

  /** The single `console.log` of announceStart: an empty line, a rule,
      the title, a rule, and the line break that ends the rule. */
  function StartBanner(): (r: JsString)
    ensures |r| == 2 * BorderWidth + |Title| + 4
    ensures r[0] == Newline && r[BorderWidth + 1] == Newline && r[|r| - 1] == Newline
    ensures r[1..BorderWidth + 1] == Border()
    ensures r[BorderWidth + 2..BorderWidth + 2 + |Title|] == Title
    ensures r[BorderWidth + 2 + |Title|] == Newline
    ensures r[|r| - 1 - BorderWidth..|r| - 1] == Border()
  {
    [Newline] + Border() + [Newline] + Title + [Newline] + Border() + [Newline]
  }

  /** The single `console.log` of announceEnd: an empty line, then a rule
      on a line of its own. */
  function EndBanner(): (r: JsString)
    ensures |r| == BorderWidth + 2
    ensures r[0] == Newline && r[|r| - 1] == Newline
    ensures r[1..BorderWidth + 1] == Border()
  {
    [Newline] + Border() + [Newline]
  }

  /** The lead of the two status lines. */
  const Marker: JsString := Ascii("  >> ")

  const LocalBuildLine: JsString := Marker + Ascii("Local build detected") + Ascii(" - no CI environment found\n")

  const HeaderLead: JsString := Marker + Ascii("Found ")
  const HeaderTail: JsString := Ascii(" CI environment entries:\n")

  /** The count header printed before the entries. */
  function FoundHeader(count: nat): (r: JsString)
    ensures |r| > |HeaderLead| + |HeaderTail|
    ensures r[..|HeaderLead|] == HeaderLead && r[|r| - |HeaderTail|..] == HeaderTail
    ensures AllDigits(r[|HeaderLead|..|r| - |HeaderTail|])
  {
    HeaderLead + ToDecimal(count) + HeaderTail
  }

  const EntryIndent: JsString := Ascii("     ")
  const NameSeparator: JsString := Ascii(": ")

  /** The line printed for one gathered entry. */
  function EntryLine(e: EnvEntry): (r: JsString)
    ensures |EntryIndent| + |e.varName| + |NameSeparator| <= |r| <= |EntryIndent| + |e.varName| + |NameSeparator| + MaxDisplayLen
    ensures r[..|EntryIndent|] == EntryIndent
    ensures r[|EntryIndent|..][..|e.varName|] == e.varName
  {
    EntryIndent + e.varName + NameSeparator + TruncateIfNeeded(e.varValue)
  }

  function EntryLines(entries: seq<EnvEntry>): (r: seq<JsString>)
    ensures |r| == |entries|
  {
    seq(|entries|, k requires 0 <= k < |entries| => EntryLine(entries[k]))
  }

  /** One more entry printed adds one more line. */
  lemma EntryLinesExtend(entries: seq<EnvEntry>, i: nat)
    requires i < |entries|
    ensures EntryLines(entries[..i + 1]) == EntryLines(entries[..i]) + [EntryLine(entries[i])]
  {
    assert entries[..i + 1][..i] == entries[..i];
  }

  /** Everything printCiInfo logs for the environment `env`. */
  function Report(env: seq<EnvEntry>): (r: seq<JsString>)
    ensures |r| == (if CiEntries(env) == [] then 3 else |CiEntries(env)| + 3)
    ensures r[0] == StartBanner() && r[|r| - 1] == EndBanner()
  {
    var ciData := CiEntries(env);
    [StartBanner()]
    + (if |ciData| == 0 then [LocalBuildLine] else [FoundHeader(|ciData|)] + EntryLines(ciData))
    + [EndBanner()]
  }

  /** `printCiInfo`: the banner, then the gathered entries one line at a
      time, then the closing banner. */
  method PrintCiInfo(env: seq<EnvEntry>) returns (logged: seq<JsString>)
    ensures logged == Report(env)
  {
    logged := [StartBanner()];
    var ciData := GatherCiData(env);
    if |ciData| == 0 {
      logged := logged + [LocalBuildLine];
    } else {
      logged := logged + [FoundHeader(|ciData|)];
      var i := 0;
      while i < |ciData|
        invariant 0 <= i <= |ciData|
        invariant logged == [StartBanner(), FoundHeader(|ciData|)] + EntryLines(ciData[..i])
      {
        EntryLinesExtend(ciData, i);
        logged := logged + [EntryLine(ciData[i])];
        i := i + 1;
      }
      assert ciData[..i] == ciData;
    }
    logged := logged + [EndBanner()];
  }

  /** With no CI variable the report is the local-build line between the
      two banners, and no line starts with the entry indent. */
  lemma LocalBuildReport(env: seq<EnvEntry>)
    requires forall e :: e in env ==> !MatchesCiPattern(e.varName)
    ensures Report(env) == [StartBanner(), LocalBuildLine, EndBanner()]
    ensures forall line :: line in Report(env) ==> |line| < |EntryIndent| || line[..|EntryIndent|] != EntryIndent
  {
    if CiEntries(env) != [] {
      var e := CiEntries(env)[0];
      CiEntriesMembership(env, e);
    }
    assert LocalBuildLine[2] != EntryIndent[2];
    assert StartBanner()[0] != EntryIndent[0];
    assert EndBanner()[0] != EntryIndent[0];
  }

  /** With CI variables the report is the count header and one line per
      gathered entry, in gathered order, between the two banners, and the
      local-build line is absent. */
  lemma CiReport(env: seq<EnvEntry>)
    requires exists e :: e in env && MatchesCiPattern(e.varName)
    ensures var ciData := CiEntries(env);
      && |Report(env)| == |ciData| + 3
      && Report(env)[0] == StartBanner()
      && Report(env)[1] == FoundHeader(|ciData|)
      && (forall k :: 0 <= k < |ciData| ==>
            Report(env)[k + 2] == EntryIndent + ciData[k].varName + NameSeparator + TruncateIfNeeded(ciData[k].varValue))
      && Report(env)[|ciData| + 2] == EndBanner()
      && LocalBuildLine !in Report(env)
  {
    var e :| e in env && MatchesCiPattern(e.varName);
    CiEntriesMembership(env, e);
    var ciData := CiEntries(env);
    var r := Report(env);
    assert r == [StartBanner(), FoundHeader(|ciData|)] + EntryLines(ciData) + [EndBanner()];
    forall j | 0 <= j < |r| ensures r[j] != LocalBuildLine {
      DistinctFromLocalBuildLine(r, ciData, j);
    }
  }

  /** No line of a report with entries is the local-build line: they differ
      at the first character, the third or the sixth. */
  lemma DistinctFromLocalBuildLine(r: seq<JsString>, ciData: seq<EnvEntry>, j: nat)
    requires r == [StartBanner(), FoundHeader(|ciData|)] + EntryLines(ciData) + [EndBanner()]
    requires j < |r|
    ensures r[j] != LocalBuildLine
  {
    assert LocalBuildLine[..5] == Marker;
    if j == 0 {
      assert r[j][0] != LocalBuildLine[0];
    } else if j == 1 {
      assert r[j][5] != LocalBuildLine[5];
    } else if j < |ciData| + 2 {
      assert r[j] == EntryLine(ciData[j - 2]);
      assert r[j][2] != LocalBuildLine[2];
    } else {
      assert r[j][0] != LocalBuildLine[0];
    }
  }

  /** The count header of a report with entries names the number of
      gathered entries. */
  lemma HeaderCarriesCount(env: seq<EnvEntry>)
    requires exists e :: e in env && MatchesCiPattern(e.varName)
    ensures var header := Report(env)[1];
      && |header| > |HeaderLead| + |HeaderTail|
      && AllDigits(header[|HeaderLead|..|header| - |HeaderTail|])
      && DecimalValue(header[|HeaderLead|..|header| - |HeaderTail|]) == |CiEntries(env)|
  {
    CiReport(env);
    var count := |CiEntries(env)|;
    DecimalRoundTrip(count);
    var header := FoundHeader(count);
    assert header == HeaderLead + ToDecimal(count) + HeaderTail;
    assert header[|HeaderLead|..|header| - |HeaderTail|] == ToDecimal(count);
  }

  /** The report opens and closes with a rule of exactly BorderWidth stars
      on a line of its own. */
  lemma ReportIsBracketed(env: seq<EnvEntry>)
    ensures var r := Report(env);
      && |r| >= 3
      && r[0][..BorderWidth + 2] == [Newline] + Border() + [Newline]
      && r[|r| - 1] == [Newline] + Border() + [Newline]
      && r[0][1..BorderWidth + 1] == Border()
  {
  }

  // ---------------------------------------------------------------------
  // The exit status handed to process.exit

  /** `exitCode || 0` for the code reported by the child's `close` event:
      `null` and `0` give 0, any other code is passed on. */
  function ExitStatus(exitCode: Option<int>): (status: int)
    ensures status == 0 <==> (exitCode == None || exitCode == Some(0))
    ensures exitCode.Some? && exitCode.value != 0 ==> status == exitCode.value
  {
    match exitCode
    case None => 0
    case Some(code) => if code == 0 then 0 else code
  }
}
