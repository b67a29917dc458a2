/**
 * The Deno multi-site monitor (deno/willhappen/vibe.ts): per site, one cycle
 * load -> fetch -> extract -> diff -> notify -> commit; per pass, every configured
 * site in order.
 *
 * The network fetch, the HTML extractor, the Discord webhook and the outcome of
 * the file write are not computed here: one `Environment` per site carries what
 * each of them answered. `new URL(...)` is the opaque predicate `urlParses`.
 */
module Vibe {
  import opened Wrappers
  import FileHelpers
  import opened ChangeDetector

  /** `WebsiteConfig`; `storageFile` is optional in the source. */
  datatype WebsiteConfig = WebsiteConfig(
    name: string,
    url: string,
    discordWebhookUrl: string,
    storageFile: Option<string>)

  datatype MonitorConfig = MonitorConfig(
    websites: seq<WebsiteConfig>,
    checkIntervalMinutes: int,
    storageDirectory: string)

  /** The snapshot files: path to the JSON list of headlines stored there. */
  type Files = map<string, FileHelpers.Content<seq<string>>>

  /** What the outside world answers during one site's cycle. */
  datatype Environment = Environment(
    page: Option<string>,            // fetchWebsiteContent: null on an HTTP or network error
    extracted: Option<seq<string>>,  // extractHeadlinesFromHtml(page); None when the DOM parser throws
    notified: bool,                  // what sendDiscordNotification resolves to
    written: bool)                   // whether Deno.writeTextFile succeeds

  /** How one cycle ended (the source only logs it). */
  datatype Outcome =
    | FetchFailed                                              // no page, or an empty one
    | NoHeadlines                                              // the page has no headline
    | NothingNew                                               // every headline was stored already
    | Threw                                                    // an exception left the cycle
    | NotifyFailed(newHeadlines: seq<string>)                  // webhook refused: nothing stored
    | Notified(newHeadlines: seq<string>, current: seq<string>) // webhook accepted: `current` written

  // ---------------------------------------------------------------------------
  // Storage file naming
  // ---------------------------------------------------------------------------

  const HeadlinesSuffix: string := "-headlines.json"

  /** `website.storageFile || ...`: an absent or empty custom name falls back to the default. */
  predicate HasCustomFile(website: WebsiteConfig)
  {
    website.storageFile.Some? && website.storageFile.value != ""
  }

  /** `generateStorageFilePath`: where a site's snapshot is kept. */
  function GenerateStorageFilePath(website: WebsiteConfig, storageDirectory: string): (path: string)
    ensures |path| > |storageDirectory| && path[..|storageDirectory| + 1] == storageDirectory + "/"
    ensures HasCustomFile(website) ==> path == storageDirectory + "/" + website.storageFile.value
    ensures !HasCustomFile(website) ==> |path| >= |HeadlinesSuffix| && path[|path| - |HeadlinesSuffix|..] == HeadlinesSuffix
  {
    var fileName :=
      if HasCustomFile(website) then website.storageFile.value
      else FileHelpers.Slug(website.name) + HeadlinesSuffix;
    storageDirectory + "/" + fileName
  }

  /**
   * The path is the storage directory, "/", then the custom file name if there is
   * a non-empty one, else the site name in lower case with each whitespace run
   * turned into one "-", followed by "-headlines.json".
   */
  lemma StoragePathShape(website: WebsiteConfig, storageDirectory: string)
    ensures var path := GenerateStorageFilePath(website, storageDirectory);
      && |path| > |storageDirectory| && path[..|storageDirectory| + 1] == storageDirectory + "/"
      && (HasCustomFile(website) ==> path == storageDirectory + "/" + website.storageFile.value)
      && (!HasCustomFile(website) ==>
        && |path| == |storageDirectory| + 1 + |FileHelpers.Slug(website.name)| + |HeadlinesSuffix|
        && path[|path| - |HeadlinesSuffix|..] == HeadlinesSuffix
        && var stem := path[|storageDirectory| + 1..|path| - |HeadlinesSuffix|];
           stem == FileHelpers.Slug(website.name) && FileHelpers.NoWhitespace(stem) && FileHelpers.NoUpper(stem))
  {
  }

  // ---------------------------------------------------------------------------
  // One cycle for one site
  // ---------------------------------------------------------------------------

  /** `if (!htmlContent)`: both `null` and the empty string count as a failed fetch. */
  predicate Fetched(page: Option<string>)
  {
    page.Some? && page.value != ""
  }

  /**
   * The decisions of `checkWebsiteHeadlines` given the stored headlines.
   * The webhook is called only with at least one new headline, and the cycle
   * asks for a commit (`Notified`) only when the webhook accepted it.
   */
  function Cycle(previous: seq<string>, website: WebsiteConfig, env: Environment, urlParses: string -> bool): (o: Outcome)
    ensures o == FetchFailed <==> !Fetched(env.page)
    ensures o.Notified? ==>
      && env.notified && Fetched(env.page) && env.extracted == Some(o.current)
      && o.newHeadlines == FindNewHeadlines(o.current, previous) && o.newHeadlines != []
    ensures o.NotifyFailed? ==>
      && !env.notified && env.extracted.Some?
      && o.newHeadlines == FindNewHeadlines(env.extracted.value, previous) && o.newHeadlines != []
    ensures o == NoHeadlines <==> Fetched(env.page) && env.extracted == Some([])
    ensures o == NothingNew <==>
      Fetched(env.page) && env.extracted.Some? && env.extracted.value != []
      && FindNewHeadlines(env.extracted.value, previous) == []
    ensures (Fetched(env.page) && env.extracted.Some? && FindNewHeadlines(env.extracted.value, previous) != []
             && urlParses(website.url)) ==>
      o == (if env.notified then Notified(FindNewHeadlines(env.extracted.value, previous), env.extracted.value)
            else NotifyFailed(FindNewHeadlines(env.extracted.value, previous)))
    ensures o == Threw <==>
      Fetched(env.page)
      && (env.extracted.None?
          || (FindNewHeadlines(env.extracted.value, previous) != [] && !urlParses(website.url)))
  {
    if !Fetched(env.page) then FetchFailed
    else
      match env.extracted
      case None => Threw
      case Some(current) =>
        if current == [] then NoHeadlines
        else
          var newHeadlines := FindNewHeadlines(current, previous);
          if newHeadlines == [] then NothingNew
          else if !urlParses(website.url) then Threw  // `new URL(website.url)` in createDiscordEmbed
          else if env.notified then Notified(newHeadlines, current)
          else NotifyFailed(newHeadlines)
  }

  /** `p` is stored identically (or equally absent) in `a` and `b`. */
  predicate SameAt(a: Files, b: Files, p: string)
  {
    (p in a <==> p in b) && (p in a ==> a[p] == b[p])
  }

  /** The snapshot files after one cycle: the site's file takes the current list on a commit. */
  function AfterCycle(files: Files, storageDirectory: string, website: WebsiteConfig, env: Environment, urlParses: string -> bool): (after: Files)
    ensures after != files ==>
      && env.notified && env.written && env.extracted.Some?
      && Fetched(env.page) && urlParses(website.url)
      && after == files[GenerateStorageFilePath(website, storageDirectory) := FileHelpers.Json(env.extracted.value)]
    ensures var path := GenerateStorageFilePath(website, storageDirectory);
      var o := Cycle(FileHelpers.Load(files, path), website, env, urlParses);
      && (after != files <==> o.Notified? && env.written)
      && (o.Notified? && env.written ==> after == files[path := FileHelpers.Json(o.current)])
  {
    var path := GenerateStorageFilePath(website, storageDirectory);
    var o := Cycle(FileHelpers.Load(files, path), website, env, urlParses);
    // A stored list equal to the current one leaves nothing new to notify, so a commit always changes the files.
    if o.Notified? && env.written then
      Idempotent(o.current);
      files[path := FileHelpers.Json(o.current)]
    else files
  }

  /**
   * Notify-then-commit: the files change only when a fetched page gave a
   * non-empty set of new headlines, the URL parsed so the notification was sent,
   * the webhook accepted it and the write succeeded; then, and in every such
   * case, the site's file is replaced wholesale by the full current list. No
   * other path changes.
   */
  lemma AfterCycleCommitsOnlyOnSuccess(files: Files, storageDirectory: string, website: WebsiteConfig, env: Environment, urlParses: string -> bool)
    ensures var after := AfterCycle(files, storageDirectory, website, env, urlParses);
      var path := GenerateStorageFilePath(website, storageDirectory);
      && (after != files ==>
        && Fetched(env.page) && urlParses(website.url)
        && env.notified && env.written && env.extracted.Some? && env.extracted.value != []
        && FindNewHeadlines(env.extracted.value, FileHelpers.Load(files, path)) != []
        && after == files[path := FileHelpers.Json(env.extracted.value)])
      && ((&& Fetched(env.page) && urlParses(website.url) && env.extracted.Some?
           && FindNewHeadlines(env.extracted.value, FileHelpers.Load(files, path)) != []
           && env.notified && env.written) ==>
        after == files[path := FileHelpers.Json(env.extracted.value)] && after != files)
      && forall p :: p != path ==> SameAt(files, after, p)
  {
  }

  /** `checkWebsiteHeadlines`: one cycle for one site, acting on the file system. */
  method CheckWebsiteHeadlines(
    fs: FileHelpers.FileSystem<seq<string>>, website: WebsiteConfig, storageDirectory: string,
    env: Environment, urlParses: string -> bool)
    returns (outcome: Outcome)
    modifies fs
    ensures outcome == Cycle(FileHelpers.Load(old(fs.files), GenerateStorageFilePath(website, storageDirectory)), website, env, urlParses)
    ensures fs.files == AfterCycle(old(fs.files), storageDirectory, website, env, urlParses)
  {
    var storageFilePath := GenerateStorageFilePath(website, storageDirectory);
    var previousHeadlines := FileHelpers.ReadItems(fs, storageFilePath);

    var htmlContent := env.page;
    if !Fetched(htmlContent) {
      return FetchFailed;
    }
    if env.extracted.None? {
      return Threw;
    }
    var currentHeadlines := env.extracted.value;
    if |currentHeadlines| == 0 {
      return NoHeadlines;
    }

    var newHeadlines := FindNewHeadlines(currentHeadlines, previousHeadlines);
    if |newHeadlines| > 0 {
      if !urlParses(website.url) {
        return Threw;
      }
      var notificationSent := env.notified;
      if notificationSent {
        fs.Write(storageFilePath, currentHeadlines, env.written);
        outcome := Notified(newHeadlines, currentHeadlines);
      } else {
        outcome := NotifyFailed(newHeadlines);
      }
    } else {
      outcome := NothingNew;
    }
  }

  // ---------------------------------------------------------------------------
  // Properties of one cycle
  // ---------------------------------------------------------------------------

  /**
   * Idempotence: once a cycle has committed its list, another cycle that extracts
   * the same list sends nothing and leaves the files as they are.
   */
  lemma SecondCycleIsQuiet(files: Files, storageDirectory: string, website: WebsiteConfig, env: Environment, env': Environment, urlParses: string -> bool)
    requires Cycle(FileHelpers.Load(files, GenerateStorageFilePath(website, storageDirectory)), website, env, urlParses).Notified?
    requires env.written
    requires Fetched(env'.page) && env'.extracted == env.extracted
    ensures var after := AfterCycle(files, storageDirectory, website, env, urlParses);
      && Cycle(FileHelpers.Load(after, GenerateStorageFilePath(website, storageDirectory)), website, env', urlParses) == NothingNew
      && AfterCycle(after, storageDirectory, website, env', urlParses) == after
  {
    var path := GenerateStorageFilePath(website, storageDirectory);
    var current := env.extracted.value;
    FileHelpers.WriteThenLoad(files, path, current);
    Idempotent(current);
  }

  /**
   * Later headlines are not lost: after a committed cycle, a cycle whose page
   * shows a headline that was not committed sends that headline to the webhook
   * (when the site's URL parses), and commits the new list if it is accepted.
   */
  lemma NewHeadlineAfterCommitIsNotified(
    files: Files, storageDirectory: string, website: WebsiteConfig, env: Environment, env': Environment,
    urlParses: string -> bool, h: string)
    requires Cycle(FileHelpers.Load(files, GenerateStorageFilePath(website, storageDirectory)), website, env, urlParses).Notified?
    requires env.written
    requires Fetched(env'.page) && env'.extracted.Some? && urlParses(website.url)
    requires h in env'.extracted.value && h !in env.extracted.value
    ensures var after := AfterCycle(files, storageDirectory, website, env, urlParses);
      var o := Cycle(FileHelpers.Load(after, GenerateStorageFilePath(website, storageDirectory)), website, env', urlParses);
      && (o.Notified? || o.NotifyFailed?)
      && h in o.newHeadlines
      && (o.Notified? && env'.written ==>
            AfterCycle(after, storageDirectory, website, env', urlParses)
              == after[GenerateStorageFilePath(website, storageDirectory) := FileHelpers.Json(env'.extracted.value)])
  {
    var path := GenerateStorageFilePath(website, storageDirectory);
    FileHelpers.WriteThenLoad(files, path, env.extracted.value);
    FindNewHeadlinesSelects(env'.extracted.value, env.extracted.value);
  }

  /**
   * A refused notification commits nothing, so the next cycle with the same page
   * reports the same new headlines again.
   */
  lemma FailedNotificationIsRetried(files: Files, storageDirectory: string, website: WebsiteConfig, env: Environment, env': Environment, urlParses: string -> bool)
    requires Cycle(FileHelpers.Load(files, GenerateStorageFilePath(website, storageDirectory)), website, env, urlParses).NotifyFailed?
    requires Fetched(env'.page) && env'.extracted == env.extracted
    ensures AfterCycle(files, storageDirectory, website, env, urlParses) == files
    ensures var again := Cycle(FileHelpers.Load(files, GenerateStorageFilePath(website, storageDirectory)), website, env', urlParses);
      again.NotifyFailed? || again.Notified?
    ensures Cycle(FileHelpers.Load(files, GenerateStorageFilePath(website, storageDirectory)), website, env', urlParses).newHeadlines
         == Cycle(FileHelpers.Load(files, GenerateStorageFilePath(website, storageDirectory)), website, env, urlParses).newHeadlines
  {
  }

  /**
   * A write that fails after a successful notification is swallowed: nothing is
   * stored and the next cycle notifies the same headlines a second time.
   */
  lemma LostWriteRenotifies(files: Files, storageDirectory: string, website: WebsiteConfig, env: Environment, env': Environment, urlParses: string -> bool)
    requires Cycle(FileHelpers.Load(files, GenerateStorageFilePath(website, storageDirectory)), website, env, urlParses).Notified?
    requires !env.written
    requires Fetched(env'.page) && env'.extracted == env.extracted && env'.notified
    ensures AfterCycle(files, storageDirectory, website, env, urlParses) == files
    ensures Cycle(FileHelpers.Load(files, GenerateStorageFilePath(website, storageDirectory)), website, env', urlParses)
         == Cycle(FileHelpers.Load(files, GenerateStorageFilePath(website, storageDirectory)), website, env, urlParses)
  {
  }

  /**
   * First run floods: with no stored file, or one that does not parse, every
   * extracted headline is reported as new.
   */
  lemma FirstCycleReportsEverything(files: Files, storageDirectory: string, website: WebsiteConfig, env: Environment, urlParses: string -> bool)
    requires var path := GenerateStorageFilePath(website, storageDirectory);
      path !in files || files[path].Malformed?
    requires Fetched(env.page) && env.extracted.Some? && env.extracted.value != []
    requires urlParses(website.url)
    ensures var current := env.extracted.value;
      Cycle(FileHelpers.Load(files, GenerateStorageFilePath(website, storageDirectory)), website, env, urlParses)
        == if env.notified then Notified(current, current) else NotifyFailed(current)
  {
    FirstRunFloods(env.extracted.value);
  }

  /**
   * A write that fails after the file was truncated leaves text that does not
   * parse. The next cycle then reads `[]` and reports every extracted headline
   * again, not only the ones the torn write was meant to record.
   */
  lemma TornWriteFloodsNextCycle(files: Files, storageDirectory: string, website: WebsiteConfig, env: Environment, urlParses: string -> bool)
    requires Fetched(env.page) && env.extracted.Some? && env.extracted.value != []
    requires urlParses(website.url)
    ensures var path := GenerateStorageFilePath(website, storageDirectory);
      var current := env.extracted.value;
      Cycle(FileHelpers.Load(files[path := FileHelpers.Malformed], path), website, env, urlParses)
        == if env.notified then Notified(current, current) else NotifyFailed(current)
  {
    var path := GenerateStorageFilePath(website, storageDirectory);
    FirstCycleReportsEverything(files[path := FileHelpers.Malformed], storageDirectory, website, env, urlParses);
  }

  // ---------------------------------------------------------------------------
  // A pass over all sites
  // ---------------------------------------------------------------------------

  datatype PassResult = PassResult(files: Files, outcomes: seq<Outcome>)

  function StoragePaths(websites: seq<WebsiteConfig>, storageDirectory: string): set<string>
  {
    set website | website in websites :: GenerateStorageFilePath(website, storageDirectory)
  }

  /**
   * `checkAllWebsites`: the sites' cycles one after the other, each seeing the
   * files the previous ones left. Every site gets its cycle, and only the sites'
   * own storage files can change.
   */
  function Pass(files: Files, storageDirectory: string, websites: seq<WebsiteConfig>, envs: seq<Environment>, urlParses: string -> bool): (r: PassResult)
    requires |envs| == |websites|
    ensures |r.outcomes| == |websites|
    decreases |websites|
  {
    if websites == [] then PassResult(files, [])
    else
      var website := websites[0];
      var outcome := Cycle(FileHelpers.Load(files, GenerateStorageFilePath(website, storageDirectory)), website, envs[0], urlParses);
      var rest := Pass(AfterCycle(files, storageDirectory, website, envs[0], urlParses), storageDirectory, websites[1..], envs[1..], urlParses);
      PassResult(rest.files, [outcome] + rest.outcomes)
  }

  /** A pass changes no file other than the configured sites' own storage files. */
  lemma {:induction false} PassTouchesOnlySiteFiles(files: Files, storageDirectory: string, websites: seq<WebsiteConfig>, envs: seq<Environment>, urlParses: string -> bool)
    requires |envs| == |websites|
    ensures forall p :: p !in StoragePaths(websites, storageDirectory) ==>
      SameAt(files, Pass(files, storageDirectory, websites, envs, urlParses).files, p)
    decreases |websites|
  {
    if websites != [] {
      var next := AfterCycle(files, storageDirectory, websites[0], envs[0], urlParses);
      AfterCycleCommitsOnlyOnSuccess(files, storageDirectory, websites[0], envs[0], urlParses);
      PassTouchesOnlySiteFiles(next, storageDirectory, websites[1..], envs[1..], urlParses);
      assert StoragePaths(websites[1..], storageDirectory) <= StoragePaths(websites, storageDirectory);
      assert GenerateStorageFilePath(websites[0], storageDirectory) in StoragePaths(websites, storageDirectory);
    }
  }

  /**
   * `checkAllWebsites`: a sequential loop; an exception in one site's cycle is
   * caught and logged and the loop goes on with the next site.
   */
  method CheckAllWebsites(fs: FileHelpers.FileSystem<seq<string>>, config: MonitorConfig, envs: seq<Environment>, urlParses: string -> bool)
    returns (outcomes: seq<Outcome>)
    requires |envs| == |config.websites|
    modifies fs
    ensures PassResult(fs.files, outcomes) == Pass(old(fs.files), config.storageDirectory, config.websites, envs, urlParses)
  {
    var websites := config.websites;
    ghost var final := Pass(fs.files, config.storageDirectory, websites, envs, urlParses);
    outcomes := [];
    var i := 0;
    while i < |websites|
      invariant 0 <= i <= |websites|
      invariant Pass(fs.files, config.storageDirectory, websites[i..], envs[i..], urlParses).files == final.files
      invariant outcomes + Pass(fs.files, config.storageDirectory, websites[i..], envs[i..], urlParses).outcomes == final.outcomes
    {
      assert websites[i..][1..] == websites[i + 1..] && envs[i..][1..] == envs[i + 1..];
      var outcome := CheckWebsiteHeadlines(fs, websites[i], config.storageDirectory, envs[i], urlParses);
      outcomes := outcomes + [outcome];
      i := i + 1;
    }
  }

  lemma ConcatAssociates<T>(a: seq<T>, b: seq<T>, c: seq<T>)
    ensures a + (b + c) == a + b + c
  {
  }

  /** One step of a pass: the first site's cycle, then the pass over the others on the files it left. */
  lemma PassUnfold(files: Files, storageDirectory: string, websites: seq<WebsiteConfig>, envs: seq<Environment>, urlParses: string -> bool)
    requires |envs| == |websites| && websites != []
    ensures var rest := Pass(AfterCycle(files, storageDirectory, websites[0], envs[0], urlParses), storageDirectory, websites[1..], envs[1..], urlParses);
      Pass(files, storageDirectory, websites, envs, urlParses)
        == PassResult(rest.files, [Cycle(FileHelpers.Load(files, GenerateStorageFilePath(websites[0], storageDirectory)), websites[0], envs[0], urlParses)] + rest.outcomes)
  {
  }

  /** A pass over two lists of sites is the pass over the first, then over the second. */
  lemma {:induction false} PassAppend(
    files: Files, storageDirectory: string, ws1: seq<WebsiteConfig>, es1: seq<Environment>,
    ws2: seq<WebsiteConfig>, es2: seq<Environment>, urlParses: string -> bool)
    requires |es1| == |ws1| && |es2| == |ws2|
    ensures var r1 := Pass(files, storageDirectory, ws1, es1, urlParses);
      var r2 := Pass(r1.files, storageDirectory, ws2, es2, urlParses);
      Pass(files, storageDirectory, ws1 + ws2, es1 + es2, urlParses) == PassResult(r2.files, r1.outcomes + r2.outcomes)
    decreases |ws1|
  {
    if ws1 == [] {
      assert ws1 + ws2 == ws2 && es1 + es2 == es2;
    } else {
      var next := AfterCycle(files, storageDirectory, ws1[0], es1[0], urlParses);
      var o := Cycle(FileHelpers.Load(files, GenerateStorageFilePath(ws1[0], storageDirectory)), ws1[0], es1[0], urlParses);
      var tail1 := Pass(next, storageDirectory, ws1[1..], es1[1..], urlParses);
      var r2 := Pass(tail1.files, storageDirectory, ws2, es2, urlParses);
      PassUnfold(files, storageDirectory, ws1, es1, urlParses);
      HeadAndTailOfConcat(ws1, ws2);
      HeadAndTailOfConcat(es1, es2);
      PassUnfold(files, storageDirectory, ws1 + ws2, es1 + es2, urlParses);
      PassAppend(next, storageDirectory, ws1[1..], es1[1..], ws2, es2, urlParses);
      PrependStep(Pass(files, storageDirectory, ws1 + ws2, es1 + es2, urlParses), Pass(files, storageDirectory, ws1, es1, urlParses),
                  tail1, r2, Pass(next, storageDirectory, ws1[1..] + ws2, es1[1..] + es2, urlParses), o);
    }
  }

  lemma HeadAndTailOfConcat<T>(a: seq<T>, b: seq<T>)
    requires a != []
    ensures (a + b)[0] == a[0] && (a + b)[1..] == a[1..] + b
  {
  }

  /** The bookkeeping step of `PassAppend`: one outcome in front of two concatenated passes. */
  lemma PrependStep(whole: PassResult, r1: PassResult, tail1: PassResult, r2: PassResult, wholeTail: PassResult, o: Outcome)
    requires r1 == PassResult(tail1.files, [o] + tail1.outcomes)
    requires whole == PassResult(wholeTail.files, [o] + wholeTail.outcomes)
    requires wholeTail == PassResult(r2.files, tail1.outcomes + r2.outcomes)
    ensures whole == PassResult(r2.files, r1.outcomes + r2.outcomes)
  {
    ConcatAssociates([o], tail1.outcomes, r2.outcomes);
  }

  /**
   * Isolation: a site whose cycle leaves the files alone (failed fetch, no
   * headlines, nothing new, an exception, a refused notification or a lost write)
   * has no effect on the other sites: the pass ends with the same files, and the
   * same outcomes for every other site, as if it were not configured.
   */
  lemma QuietSiteIsTransparent(
    files: Files, storageDirectory: string,
    before: seq<WebsiteConfig>, envsBefore: seq<Environment>, site: WebsiteConfig, env: Environment,
    after: seq<WebsiteConfig>, envsAfter: seq<Environment>, urlParses: string -> bool)
    requires |envsBefore| == |before| && |envsAfter| == |after|
    requires var mid := Pass(files, storageDirectory, before, envsBefore, urlParses).files;
      AfterCycle(mid, storageDirectory, site, env, urlParses) == mid
    ensures var mid := Pass(files, storageDirectory, before, envsBefore, urlParses).files;
      var all := Pass(files, storageDirectory, before + [site] + after, envsBefore + [env] + envsAfter, urlParses);
      var others := Pass(files, storageDirectory, before + after, envsBefore + envsAfter, urlParses);
      && all.files == others.files
      && all.outcomes
         == others.outcomes[..|before|]
            + [Cycle(FileHelpers.Load(mid, GenerateStorageFilePath(site, storageDirectory)), site, env, urlParses)]
            + others.outcomes[|before|..]
  {
    var r1 := Pass(files, storageDirectory, before, envsBefore, urlParses);
    var r2 := Pass(r1.files, storageDirectory, after, envsAfter, urlParses);
    var o := Cycle(FileHelpers.Load(r1.files, GenerateStorageFilePath(site, storageDirectory)), site, env, urlParses);
    PassAppend(files, storageDirectory, before, envsBefore, after, envsAfter, urlParses);
    PassAppend(files, storageDirectory, before + [site], envsBefore + [env], after, envsAfter, urlParses);
    PassAppend(files, storageDirectory, before, envsBefore, [site], [env], urlParses);
    assert Pass(r1.files, storageDirectory, [site], [env], urlParses) == PassResult(r1.files, [o]);
    assert (r1.outcomes + r2.outcomes)[..|before|] == r1.outcomes;
    assert (r1.outcomes + r2.outcomes)[|before|..] == r2.outcomes;
  }

  /**
   * Sequential isolation with two sites: when the first site's fetch fails, the
   * second site's cycle still runs on unchanged files and can still notify.
   */
  lemma FetchFailureDoesNotBlockNextSite(
    files: Files, storageDirectory: string, first: WebsiteConfig, second: WebsiteConfig,
    env1: Environment, env2: Environment, urlParses: string -> bool)
    requires !Fetched(env1.page)
    ensures var r := Pass(files, storageDirectory, [first, second], [env1, env2], urlParses);
      && r.outcomes[0] == FetchFailed
      && r.outcomes[1] == Cycle(FileHelpers.Load(files, GenerateStorageFilePath(second, storageDirectory)), second, env2, urlParses)
      && r.files == AfterCycle(files, storageDirectory, second, env2, urlParses)
  {
    var next := AfterCycle(files, storageDirectory, second, env2, urlParses);
    assert AfterCycle(files, storageDirectory, first, env1, urlParses) == files;
    assert [first, second][1..] == [second] && [env1, env2][1..] == [env2];
    assert [second][1..] == [] && [env2][1..] == [];
    assert Pass(next, storageDirectory, [], [], urlParses) == PassResult(next, []);
  }

  // ---------------------------------------------------------------------------
  // Configuration check
  // ---------------------------------------------------------------------------

  /** A site entry is usable: name, URL and webhook are non-empty and the URL parses. */
  predicate WebsiteIsValid(website: WebsiteConfig, urlParses: string -> bool)
  {
    website.name != "" && website.url != "" && website.discordWebhookUrl != "" && urlParses(website.url)
  }

  function ConfigIsValid(config: MonitorConfig, urlParses: string -> bool): (valid: bool)
    ensures valid <==>
      |config.websites| > 0 && forall i :: 0 <= i < |config.websites| ==> WebsiteIsValid(config.websites[i], urlParses)
  {
    |config.websites| > 0 && forall website :: website in config.websites ==> WebsiteIsValid(website, urlParses)
  }

  /** `validateConfig`: scans the sites in order and rejects at the first bad entry. */
  method ValidateConfig(config: MonitorConfig, urlParses: string -> bool) returns (ok: bool)
    ensures ok <==> ConfigIsValid(config, urlParses)
  {
    if |config.websites| == 0 {
      return false;
    }
    for i := 0 to |config.websites|
      invariant forall j :: 0 <= j < i ==> WebsiteIsValid(config.websites[j], urlParses)
    {
      var website := config.websites[i];
      assert website in config.websites;
      if website.name == "" || website.url == "" || website.discordWebhookUrl == "" {
        return false;
      }
      if !urlParses(website.url) {
        return false;
      }
    }
    return true;
  }

  /**
   * After a successful configuration check, building the Discord payload never
   * throws: a cycle can end in `Threw` only when the extractor throws.
   */
  lemma ValidConfigOnlyExtractorThrows(config: MonitorConfig, website: WebsiteConfig, previous: seq<string>, env: Environment, urlParses: string -> bool)
    requires ConfigIsValid(config, urlParses) && website in config.websites
    ensures Cycle(previous, website, env, urlParses) == Threw ==> env.extracted.None?
  {
  }
}
