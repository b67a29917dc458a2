/**
 * The two monitors make opposite first-run choices. With no snapshot on disk the
 * Deno monitor reports every extracted headline as new (and commits them once
 * the webhook accepts), while the Node monitor only records a baseline and
 * reports nothing.
 */
module FirstRunPolicies {
  import opened Wrappers
  import FileHelpers
  import Vibe
  import Server

  /**
   * Side by side, for the same non-empty list of headlines and no stored file:
   * the Deno cycle floods (all of `current` is new and, after a successful
   * notification and write, stored), the Node check stays silent but still
   * stores the list as its baseline.
   */
  lemma FirstRunFloodsVersusBaseline(
    denoFiles: Vibe.Files, storageDirectory: string, website: Vibe.WebsiteConfig, env: Vibe.Environment,
    urlParses: string -> bool, nodeFiles: Server.Store, dataFile: string, now: string)
    requires Vibe.GenerateStorageFilePath(website, storageDirectory) !in denoFiles
    requires dataFile !in nodeFiles
    requires Vibe.Fetched(env.page) && env.extracted.Some? && env.extracted.value != []
    requires urlParses(website.url) && env.notified && env.written
    ensures var current := env.extracted.value;
      var path := Vibe.GenerateStorageFilePath(website, storageDirectory);
      && Vibe.Cycle(FileHelpers.Load(denoFiles, path), website, env, urlParses) == Vibe.Notified(current, current)
      && Vibe.AfterCycle(denoFiles, storageDirectory, website, env, urlParses) == denoFiles[path := FileHelpers.Json(current)]
      && Server.Check(Server.Previous(nodeFiles, dataFile), Server.FetchedHeadlines(Some(current))) == Server.NoAlert
      && Server.Previous(Server.AfterCheck(nodeFiles, dataFile, current, now, true), dataFile)
         == Some(Server.HeadlineData(now, current))
  {
    Vibe.FirstCycleReportsEverything(denoFiles, storageDirectory, website, env, urlParses);
  }
}
