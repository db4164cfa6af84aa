/**
  The daily orchestrator ScrapDB/run_all_scrapers.py: how it reads its
  environment switches, which files in the scraper directory it runs and in
  which order, how one run is judged, when a scraper that came back empty in
  headless mode is retried in headful mode, and the process exit code.

  Launching a child process, its log file and its timing are not modelled:
  the outcome of each launch and the JSON count of a scraper's output
  directory are oracles passed in by the caller.
*/
module ScraperRunner {
  import opened Wrappers
  import opened PyText
  import opened Sorting

  // ---------------------------------------------------------------- environment

  /** os.environ.get(name) */
  function EnvGet(env: map<string, string>, name: string): Option<string>
  {
    if name in env then Some(env[name]) else None
  }

  /** _parse_timeout_minutes: an unset or empty variable, a non-integer and a
      value <= 0 all give the default. */
  function ParseTimeoutMinutes(raw: Option<string>, default: int): (r: int)
    ensures r != default ==> raw.Some? && ParseInt(raw.value) == Some(r) && r > 0
    ensures raw.Some? && ParseInt(raw.value).Some? && ParseInt(raw.value).value > 0
      ==> r == ParseInt(raw.value).value
    ensures default > 0 ==> r > 0
  {
    if raw.None? || raw.value == "" then default
    else match ParseInt(raw.value)
      case None => default
      case Some(v) => if v <= 0 then default else v
  }

  /** Writing a positive number in decimal sets the timeout to it; zero and
      negative numbers fall back to the default. */
  lemma TimeoutFromDecimal(n: int, default: int)
    ensures ParseTimeoutMinutes(Some(Decimal(n)), default) == (if n > 0 then n else default)
  {
    DecimalRoundTrip(n);
  }

  /** The spellings _parse_bool reads as False. */
  const FalseWords: set<string> := {"0", "false", "no", "off"}

  /** _parse_bool */
  function ParseBool(raw: Option<string>, default: bool): (r: bool)
    ensures raw.None? ==> r == default
  {
    match raw
    case None => default
    case Some(s) => Lower(Strip(s)) !in FalseWords
  }

  /** Setting a switch to anything at all, the empty string included, turns
      it on unless the setting is one of the four false words; the words are
      recognised in any case and with surrounding blanks. */
  lemma ParseBoolSettings(d: bool)
    ensures ParseBool(Some(""), d)
    ensures !ParseBool(Some("0"), d) && !ParseBool(Some("false"), d)
    ensures !ParseBool(Some("no"), d) && !ParseBool(Some("off"), d)
    ensures !ParseBool(Some(" OFF "), d) && !ParseBool(Some("False"), d)
    ensures ParseBool(Some("1"), d) && ParseBool(Some("yes"), d)
  {
    FalseWordRead("0", d);
    FalseWordRead("false", d);
    FalseWordRead("no", d);
    FalseWordRead("off", d);
    StripWithFixed("", IsSpace);
    StripWithFixed("1", IsSpace);
    StripWithFixed("yes", IsSpace);
    StripWithFixed("False", IsSpace);
    assert Lower("False") == "false";
    assert StripLeft(" OFF ", IsSpace) == "OFF ";
    assert StripRight("OFF ", IsSpace) == "OFF";
    assert Lower("OFF") == "off";
  }

  lemma FalseWordRead(w: string, d: bool)
    requires w in FalseWords
    ensures !ParseBool(Some(w), d)
  {
    StripWithFixed(w, IsSpace);
    assert Lower(w) == w;
  }

  /** The stripped, non-empty items of a comma-separated value. */
  function StrippedItems(raw: string): set<string>
  {
    set item | item in Split(raw, ',') && Strip(item) != "" :: Strip(item)
  }

  /** _parse_csv_env: the stripped items, lower-cased. */
  function ParseCsvEnv(raw: Option<string>): set<string>
  {
    set x | x in StrippedItems(raw.GetOr("")) :: Lower(x)
  }

  lemma LowerIdempotent(s: string)
    ensures Lower(Lower(s)) == Lower(s)
  {
  }

  lemma LowerAppend(a: string, b: string)
    ensures Lower(a + b) == Lower(a) + Lower(b)
  {
  }

  /** Lower-casing a stripped string leaves it stripped: only letters change. */
  lemma LowerKeepsStripped(s: string)
    requires Strip(s) == s
    ensures Strip(Lower(s)) == Lower(s)
  {
    StripWithEnds(s, IsSpace);
    var l := Lower(s);
    if l != [] {
      assert l[0] == LowerChar(s[0]) && l[|l| - 1] == LowerChar(s[|s| - 1]);
    }
    StripWithFixed(l, IsSpace);
  }

  /** Every item of a parsed list is non-empty, lower-case and stripped. */
  lemma CsvItemsNormal(raw: Option<string>, x: string)
    requires x in ParseCsvEnv(raw)
    ensures x != "" && Lower(x) == x && Strip(x) == x
  {
    var y :| y in StrippedItems(raw.GetOr("")) && x == Lower(y);
    var item :| item in Split(raw.GetOr(""), ',') && Strip(item) != "" && y == Strip(item);
    StripWithIdempotent(item, IsSpace);
    LowerIdempotent(y);
    LowerKeepsStripped(y);
  }

  /** Joining normal names with commas and parsing the result gives the names back. */
  lemma CsvRoundTrip(names: seq<string>)
    requires |names| >= 1
    requires forall k :: 0 <= k < |names| ==> names[k] != "" && ',' !in names[k]
    requires forall k :: 0 <= k < |names| ==> Strip(names[k]) == names[k] && Lower(names[k]) == names[k]
    ensures ParseCsvEnv(Some(Join([','], names))) == set k | 0 <= k < |names| :: names[k]
  {
    SplitJoin(names, ',');
    var parsed := ParseCsvEnv(Some(Join([','], names)));
    forall x | x in parsed ensures exists k :: 0 <= k < |names| && names[k] == x {
      var y :| y in StrippedItems(Join([','], names)) && x == Lower(y);
      var item :| item in names && Strip(item) != "" && y == Strip(item);
    }
    forall k | 0 <= k < |names| ensures names[k] in parsed {
      assert names[k] in Split(Join([','], names), ',');
      assert names[k] in StrippedItems(Join([','], names));
    }
  }

  /** The switches main reads at start-up. */
  datatype Settings = Settings(
    scraperTimeout: int, matchTimeout: int,
    defaultHeadless: bool, useXvfb: bool, retryOnEmpty: bool,
    headful: set<string>, headless: set<string>)

  function SettingsOf(env: map<string, string>): (s: Settings)
    ensures s.scraperTimeout > 0 && s.matchTimeout > 0
    ensures "SCRAP_HEADLESS" !in env ==> s.defaultHeadless
    ensures "SCRAP_USE_XVFB" !in env ==> s.useXvfb
    ensures "SCRAPER_RETRY_ON_EMPTY" !in env ==> s.retryOnEmpty
    ensures "SCRAPER_HEADFUL" !in env ==> s.headful == {}
    ensures "SCRAPER_HEADLESS" !in env ==> s.headless == {}
  {
    Settings(
      ParseTimeoutMinutes(EnvGet(env, "SCRAPER_TIMEOUT_MINUTES"), 90),
      ParseTimeoutMinutes(EnvGet(env, "MATCH_TIMEOUT_MINUTES"), 60),
      ParseBool(EnvGet(env, "SCRAP_HEADLESS"), true),
      ParseBool(EnvGet(env, "SCRAP_USE_XVFB"), true),
      ParseBool(EnvGet(env, "SCRAPER_RETRY_ON_EMPTY"), true),
      ParseCsvEnv(EnvGet(env, "SCRAPER_HEADFUL")),
      ParseCsvEnv(EnvGet(env, "SCRAPER_HEADLESS")))
  }

  // ---------------------------------------------------------------- discovery

  /** One entry of the scraper directory. */
  datatype Entry = Entry(name: string, isFile: bool)

  /** re.match(r"^scrap_.*\.py$", name, re.IGNORECASE): `.` does not match a
      newline, and `$` also matches just before one final newline. */
  predicate NameMatches(name: string)
  {
    var l := Lower(name);
    var body := if |l| > 0 && l[|l| - 1] == '\n' then l[..|l| - 1] else l;
    && |body| >= 9 && body[..6] == "scrap_" && body[|body| - 3..] == ".py"
    && '\n' !in body[6..|body| - 3]
  }

  /** The test a directory entry passes to be run. */
  predicate Admitted(e: Entry, excluded: set<string>)
  {
    e.isFile && NameMatches(e.name) && !StartsWith(e.name, "__") && e.name !in excluded
  }

  /** The admitted entries, in directory order. */
  function Kept(es: seq<Entry>, excluded: set<string>): seq<Entry>
  {
    if |es| == 0 then []
    else Kept(es[..|es| - 1], excluded) + (if Admitted(es[|es| - 1], excluded) then [es[|es| - 1]] else [])
  }

  function NameKey(e: Entry): string { Lower(e.name) }

  /** What _discover_scrapers returns for a directory listing. */
  function Discovered(entries: seq<Entry>, env: map<string, string>): seq<Entry>
  {
    SortBy(Kept(entries, StrippedItems(EnvGet(env, "SCRAPER_EXCLUDE").GetOr(""))), NameKey)
  }

  /** _discover_scrapers */
  method DiscoverScrapers(entries: seq<Entry>, env: map<string, string>) returns (scrapers: seq<Entry>)
    ensures scrapers == Discovered(entries, env)
  {
    var excluded := StrippedItems(EnvGet(env, "SCRAPER_EXCLUDE").GetOr(""));
    var kept := [];
    for i := 0 to |entries|
      invariant kept == Kept(entries[..i], excluded)
    {
      assert entries[..i + 1][..i] == entries[..i];
      var e := entries[i];
      if !e.isFile {
        continue;
      }
      if !NameMatches(e.name) {
        continue;
      }
      if StartsWith(e.name, "__") {
        continue;
      }
      if e.name in excluded {
        continue;
      }
      kept := kept + [e];
    }
    assert entries[..|entries|] == entries;
    scrapers := SortBy(kept, NameKey);
  }

  lemma {:induction false} KeptMembers(es: seq<Entry>, excluded: set<string>)
    ensures forall e :: e in Kept(es, excluded) <==> e in es && Admitted(e, excluded)
  {
    if |es| > 0 {
      KeptMembers(es[..|es| - 1], excluded);
      assert es == es[..|es| - 1] + [es[|es| - 1]];
    }
  }

  /** A listed entry is run iff it is a file whose name matches the pattern
      and is not excluded; the runs are in ascending order of the lower-cased
      name, and entries whose lower-cased names coincide keep directory order. */
  lemma DiscoveredRuns(entries: seq<Entry>, env: map<string, string>, k: string)
    ensures var excluded := StrippedItems(EnvGet(env, "SCRAPER_EXCLUDE").GetOr(""));
      forall e :: e in Discovered(entries, env) <==> e in entries && Admitted(e, excluded)
    ensures SortedBy(Discovered(entries, env), NameKey)
    ensures WithKey(Discovered(entries, env), NameKey, k)
      == WithKey(Kept(entries, StrippedItems(EnvGet(env, "SCRAPER_EXCLUDE").GetOr(""))), NameKey, k)
  {
    var excluded := StrippedItems(EnvGet(env, "SCRAPER_EXCLUDE").GetOr(""));
    KeptMembers(entries, excluded);
    SortBySorted(Kept(entries, excluded), NameKey);
    SortByStable(Kept(entries, excluded), NameKey, k);
    forall e ensures e in Discovered(entries, env) <==> e in Kept(entries, excluded) {
      assert e in Discovered(entries, env) <==> e in multiset(Discovered(entries, env));
    }
  }

  /** The pattern ignores case. */
  lemma NameMatchIgnoresCase(name: string)
    ensures NameMatches(name) <==> NameMatches(Lower(name))
  {
    LowerIdempotent(name);
  }

  /** Every "scrap_<stem>.py" whose stem has no newline matches, whatever the case. */
  lemma ScraperNamesMatch(stem: string)
    requires '\n' !in stem
    ensures NameMatches("scrap_" + stem + ".py")
  {
    var name := "scrap_" + stem + ".py";
    LowerAppend("scrap_" + stem, ".py");
    LowerAppend("scrap_", stem);
    assert Lower("scrap_") == "scrap_";
    assert Lower(".py") == ".py";
    var l := Lower(name);
    assert l == "scrap_" + Lower(stem) + ".py";
    assert l[|l| - 1] == 'y';
    assert l[6..|l| - 3] == Lower(stem);
    assert '\n' !in Lower(stem) by {
      forall i | 0 <= i < |stem| ensures Lower(stem)[i] != '\n' {
        assert stem[i] != '\n';
      }
    }
  }

  /** A name without the ".py" suffix never matches. */
  lemma OnlyPythonFiles(name: string)
    requires NameMatches(name)
    ensures EndsWith(Lower(name), ".py") || EndsWith(Lower(name), ".py\n")
    ensures |name| >= 9
  {
    var l := Lower(name);
    if |l| > 0 && l[|l| - 1] == '\n' {
      assert l[|l| - 4..] == l[..|l| - 1][|l| - 4..] + "\n";
    }
  }

  /** The startswith("__") test never rejects a name the pattern accepted. */
  lemma UnderscoreTestRedundant(e: Entry, excluded: set<string>)
    ensures Admitted(e, excluded) <==> e.isFile && NameMatches(e.name) && e.name !in excluded
  {
    if NameMatches(e.name) {
      MatchedStart(e.name);
    }
  }

  lemma MatchedStart(name: string)
    requires NameMatches(name)
    ensures |name| > 0 && LowerChar(name[0]) == 's'
  {
    var l := Lower(name);
    var body := if |l| > 0 && l[|l| - 1] == '\n' then l[..|l| - 1] else l;
    assert body[0] == body[..6][0] == 's';
    assert l[0] == body[0];
  }

  // ---------------------------------------------------------------- one run

  /** What happens to one launched script. */
  datatype Outcome = Missing | TimedOut | Exited(code: int)

  /** The record _run_python_script returns, without its timing fields. */
  datatype Run = Run(name: string, returnCode: int, timedOut: bool, success: bool)

  /** A script that is not there gets return code -1, a timed-out one -9;
      success is return code 0 without a timeout. */
  function RunOf(name: string, o: Outcome): (r: Run)
    ensures r.name == name
    ensures r.success <==> o == Exited(0)
    ensures r.timedOut <==> o.TimedOut?
    ensures o.Missing? ==> r.returnCode == -1
    ensures o.TimedOut? ==> r.returnCode == -9
    ensures o.Exited? ==> r.returnCode == o.code
  {
    var code := match o case Missing => -1 case TimedOut => -9 case Exited(c) => c;
    Run(name, code, o.TimedOut?, code == 0 && !o.TimedOut?)
  }

  /** A launch: which script, the SCRAP_HEADLESS value passed to it (None for
      the match step, which gets no extra variable), whether it runs under
      xvfb-run, its timeout and whether it is the headful retry. */
  datatype Launch = Launch(script: string, headlessEnv: Option<bool>, xvfb: bool, timeout: int, isRetry: bool)

  /** The headful_retry_* fields added when a retry is discarded. */
  datatype RetryNote = RetryNote(success: bool, returnCode: int, jsonCount: Option<nat>)

  /** One entry of scraper_results. */
  datatype ScraperResult = ScraperResult(
    run: Run, headless: bool, usedHeadfulRetry: bool, jsonCount: Option<nat>,
    retryNote: Option<RetryNote>)

  // ---------------------------------------------------------------- headless choice and retry

  /** The headless mode of one script: the default, overridden to False by
      the headful list and then to True by the headless list. */
  function ScriptHeadless(name: string, s: Settings): (h: bool)
    ensures Lower(name) in s.headless ==> h
    ensures Lower(name) !in s.headless && Lower(name) in s.headful ==> !h
    ensures Lower(name) !in s.headless && Lower(name) !in s.headful ==> h == s.defaultHeadless
  {
    var h0 := s.defaultHeadless;
    var h1 := if Lower(name) in s.headful then false else h0;
    if Lower(name) in s.headless then true else h1
  }

  function FirstLaunch(name: string, s: Settings): Launch
  {
    var h := ScriptHeadless(name, s);
    Launch(name, Some(h), s.useXvfb && !h, s.scraperTimeout, false)
  }

  function RetryLaunch(name: string, s: Settings): Launch
  {
    Launch(name, Some(false), s.useXvfb, s.scraperTimeout, true)
  }

  /** The condition at run_all_scrapers.py:225-230; an unknown JSON count
      (None) is not 0 and triggers no retry. */
  predicate RetryWanted(s: Settings, first: ScraperResult)
  {
    s.retryOnEmpty && first.headless && first.run.success && first.jsonCount == Some(0)
  }

  /** The retry is kept when it succeeded and produced files; None counts as 0. */
  predicate RetryAccepted(retry: ScraperResult)
  {
    retry.run.success && retry.jsonCount.GetOr(0) > 0
  }

  /** The result main records for one scraper, and the launches it makes. */
  function ScraperOutcome(name: string, s: Settings, run: Launch -> Outcome, count: (string, bool) -> Option<nat>)
    : (ScraperResult, seq<Launch>)
  {
    var first := FirstLaunch(name, s);
    var r1 := ScraperResult(RunOf(name, run(first)), ScriptHeadless(name, s), false, count(name, false), None);
    if !RetryWanted(s, r1) then (r1, [first])
    else
      var second := RetryLaunch(name, s);
      var r2 := ScraperResult(RunOf(name, run(second)), false, true, count(name, true), None);
      if RetryAccepted(r2) then (r2, [first, second])
      else (r1.(retryNote := Some(RetryNote(r2.run.success, r2.run.returnCode, r2.jsonCount))), [first, second])
  }

  /** A retry is launched iff the retry condition holds on the first run; the
      retry runs headful, under xvfb-run whenever xvfb is enabled. */
  lemma RetryLaunched(name: string, s: Settings, run: Launch -> Outcome, count: (string, bool) -> Option<nat>)
    ensures var (_, ls) := ScraperOutcome(name, s, run, count);
      && 1 <= |ls| <= 2 && ls[0] == FirstLaunch(name, s)
      && ls[0].headlessEnv == Some(ScriptHeadless(name, s))
      && ls[0].xvfb == (s.useXvfb && !ScriptHeadless(name, s))
      && (|ls| == 2 <==>
          s.retryOnEmpty && ScriptHeadless(name, s) && run(FirstLaunch(name, s)) == Exited(0)
          && count(name, false) == Some(0))
      && (|ls| == 2 ==> ls[1].headlessEnv == Some(false) && ls[1].xvfb == s.useXvfb && ls[1].isRetry)
  {
  }

  /** The retry replaces the first result iff it was launched, succeeded and
      counted at least one file; a discarded retry leaves the first result
      with its four retry fields filled in, and no retry leaves them unset. */
  lemma RetryReplaces(name: string, s: Settings, run: Launch -> Outcome, count: (string, bool) -> Option<nat>)
    ensures var (r, ls) := ScraperOutcome(name, s, run, count);
      && (r.usedHeadfulRetry <==>
          |ls| == 2 && run(RetryLaunch(name, s)) == Exited(0) && count(name, true).GetOr(0) > 0)
      && (r.usedHeadfulRetry ==>
          !r.headless && r.run.success && r.jsonCount == count(name, true) && r.retryNote.None?)
      && (!r.usedHeadfulRetry ==>
          && r.run == RunOf(name, run(FirstLaunch(name, s)))
          && r.headless == ScriptHeadless(name, s)
          && r.jsonCount == count(name, false)
          && (r.retryNote.Some? <==> |ls| == 2)
          && (r.retryNote.Some? ==>
              r.retryNote.value == RetryNote(
                run(RetryLaunch(name, s)) == Exited(0),
                RunOf(name, run(RetryLaunch(name, s))).returnCode,
                count(name, true))))
  {
  }

  /** Retrying never turns a success into a failure: the recorded run
      succeeded iff the first run did (a retry needs a successful first run). */
  lemma RetryKeepsSuccess(name: string, s: Settings, run: Launch -> Outcome, count: (string, bool) -> Option<nat>)
    ensures ScraperOutcome(name, s, run, count).0.run.success <==> run(FirstLaunch(name, s)) == Exited(0)
  {
  }

  // ---------------------------------------------------------------- exit code

  /** scraper_failures */
  function Failures(results: seq<ScraperResult>): (f: seq<ScraperResult>)
    ensures forall r :: r in f <==> r in results && !r.run.success
    ensures |f| <= |results|
  {
    if |results| == 0 then []
    else (if results[0].run.success then [] else [results[0]]) + Failures(results[1..])
  }

  /** The exit code of main. */
  function ExitCode(matchOk: bool, results: seq<ScraperResult>): (c: int)
  {
    if !matchOk then 1 else if |Failures(results)| > 0 then 2 else 0
  }

  /** 1 when the match step failed, otherwise 2 when some scraper failed,
      otherwise 0: code 0 means everything succeeded. */
  lemma ExitCodeRule(matchOk: bool, results: seq<ScraperResult>)
    ensures ExitCode(matchOk, results) in {0, 1, 2}
    ensures ExitCode(matchOk, results) == 1 <==> !matchOk
    ensures ExitCode(matchOk, results) == 2 <==>
      matchOk && exists k :: 0 <= k < |results| && !results[k].run.success
    ensures ExitCode(matchOk, results) == 0 <==>
      matchOk && forall k :: 0 <= k < |results| ==> results[k].run.success
  {
    if matchOk && |Failures(results)| == 0 {
      forall k | 0 <= k < |results| ensures results[k].run.success {
        assert results[k] in results;
      }
    }
    if matchOk && |Failures(results)| > 0 {
      assert Failures(results)[0] in Failures(results);
    }
  }

  // ---------------------------------------------------------------- main

  /** The tail of summary.json that the model keeps. */
  datatype Summary = Summary(
    scraperTimeout: int, matchTimeout: int, scraperCount: nat, scraperFailures: nat,
    results: seq<ScraperResult>, matchResult: Run, exitCode: int)

  const MatchScript := "match_products.py"

  function MatchLaunch(s: Settings): Launch
  {
    Launch(MatchScript, None, false, s.matchTimeout, false)
  }

  /** All launches for the scrapers, in order. */
  function ScraperLaunches(scrapers: seq<Entry>, s: Settings, run: Launch -> Outcome, count: (string, bool) -> Option<nat>)
    : seq<Launch>
  {
    if |scrapers| == 0 then []
    else
      var last := scrapers[|scrapers| - 1];
      ScraperLaunches(scrapers[..|scrapers| - 1], s, run, count) + ScraperOutcome(last.name, s, run, count).1
  }

  lemma LaunchesSnoc(scrapers: seq<Entry>, i: nat, s: Settings, run: Launch -> Outcome, count: (string, bool) -> Option<nat>)
    requires i < |scrapers|
    ensures ScraperLaunches(scrapers[..i + 1], s, run, count)
      == ScraperLaunches(scrapers[..i], s, run, count) + ScraperOutcome(scrapers[i].name, s, run, count).1
  {
    assert scrapers[..i + 1][..i] == scrapers[..i];
  }

  /** The loop body of main for one scraper. */
  method RunScraper(name: string, s: Settings, run: Launch -> Outcome, count: (string, bool) -> Option<nat>)
    returns (result: ScraperResult, launches: seq<Launch>)
    ensures (result, launches) == ScraperOutcome(name, s, run, count)
  {
    var scriptHeadless := s.defaultHeadless;
    if Lower(name) in s.headful {
      scriptHeadless := false;
    }
    if Lower(name) in s.headless {
      scriptHeadless := true;
    }
    assert scriptHeadless == ScriptHeadless(name, s);
    var first := Launch(name, Some(scriptHeadless), s.useXvfb && !scriptHeadless, s.scraperTimeout, false);
    assert first == FirstLaunch(name, s);
    launches := [first];
    result := ScraperResult(RunOf(name, run(first)), scriptHeadless, false, count(name, false), None);
    assert RetryWanted(s, result) <==>
      s.retryOnEmpty && scriptHeadless && result.run.success && result.jsonCount == Some(0);
    if s.retryOnEmpty && scriptHeadless && result.run.success && result.jsonCount == Some(0) {
      var second := Launch(name, Some(false), s.useXvfb, s.scraperTimeout, true);
      assert second == RetryLaunch(name, s);
      launches := launches + [second];
      assert launches == [first, second];
      var retryResult := ScraperResult(RunOf(name, run(second)), false, true, count(name, true), None);
      if retryResult.run.success && retryResult.jsonCount.GetOr(0) > 0 {
        result := retryResult;
        assert (result, launches) == ScraperOutcome(name, s, run, count);
      } else {
        result := result.(retryNote := Some(RetryNote(
          retryResult.run.success, retryResult.run.returnCode, retryResult.jsonCount)));
        assert (result, launches) == ScraperOutcome(name, s, run, count);
      }
    } else {
      assert (result, launches) == ScraperOutcome(name, s, run, count);
    }
  }

  /** main: discover, run every scraper in order, then the match step, and
      compute the exit code. */
  /** The loop of main over the discovered scrapers, one after another. */
  method RunScrapers(scrapers: seq<Entry>, s: Settings, run: Launch -> Outcome, count: (string, bool) -> Option<nat>)
    returns (results: seq<ScraperResult>, launches: seq<Launch>)
    ensures |results| == |scrapers|
    ensures forall k :: 0 <= k < |scrapers| ==> results[k] == ScraperOutcome(scrapers[k].name, s, run, count).0
    ensures launches == ScraperLaunches(scrapers, s, run, count)
  {
    results := [];
    launches := [];
    for i := 0 to |scrapers|
      invariant |results| == i
      invariant forall k :: 0 <= k < i ==> results[k] == ScraperOutcome(scrapers[k].name, s, run, count).0
      invariant launches == ScraperLaunches(scrapers[..i], s, run, count)
    {
      var result, ls := RunScraper(scrapers[i].name, s, run, count);
      LaunchesSnoc(scrapers, i, s, run, count);
      results := results + [result];
      launches := launches + ls;
    }
    assert scrapers[..|scrapers|] == scrapers;
  }

  method RunAll(entries: seq<Entry>, env: map<string, string>, run: Launch -> Outcome,
                count: (string, bool) -> Option<nat>)
    returns (summary: Summary, launches: seq<Launch>)
    ensures var s := SettingsOf(env);
      var scrapers := Discovered(entries, env);
      && summary.scraperTimeout == s.scraperTimeout && summary.matchTimeout == s.matchTimeout
      && summary.scraperCount == |scrapers| == |summary.results|
      && (forall k :: 0 <= k < |scrapers| ==>
            summary.results[k] == ScraperOutcome(scrapers[k].name, s, run, count).0)
      && launches == ScraperLaunches(scrapers, s, run, count) + [MatchLaunch(s)]
      && summary.matchResult == RunOf(MatchScript, run(MatchLaunch(s)))
      && summary.scraperFailures == |Failures(summary.results)|
      && summary.exitCode == ExitCode(summary.matchResult.success, summary.results)
  {
    var s := SettingsOf(env);
    var scrapers := DiscoverScrapers(entries, env);
    var results;
    results, launches := RunScrapers(scrapers, s, run, count);
    var matchLaunch := Launch(MatchScript, None, false, s.matchTimeout, false);
    launches := launches + [matchLaunch];
    var matchResult := RunOf(MatchScript, run(matchLaunch));
    var failures := Failures(results);
    var exitCode;
    if !matchResult.success {
      exitCode := 1;
    } else if |failures| > 0 {
      exitCode := 2;
    } else {
      exitCode := 0;
    }
    summary := Summary(s.scraperTimeout, s.matchTimeout, |scrapers|, |failures|, results, matchResult, exitCode);
  }
}
