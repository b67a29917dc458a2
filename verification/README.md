# willhappen change detection, modelled in Dafny

This project models the change-detection engine of the willhappen monitor, in
both of its implementations.

**The Deno multi-site monitor** (`deno/willhappen/vibe.ts` with `deno/willhappen/helpers/file.ts`):
- For every configured site, one cycle runs in order: load the stored headline list, fetch the page, extract the `h3` headlines, diff them against the stored list, post a Discord notification, then commit.
- The commit replaces the site's file with the full current list, and only after the webhook accepted the notification.
- A pass runs the sites one after another, and an exception in one site does not stop the pass.
- The storage file name is derived from the site name, unless a Deno site sets a non-empty `storageFile`, which is then used as it is. The derived name is the site name lower-cased, with each whitespace run turned into "-", followed by the suffix `-headlines.json` (or `-appartmetns.json` in the helper).
- The configuration check rejects an empty site list and incomplete site entries.

**The older Node monitor** (`server.ts`, class `WebsiteMonitor`):
- Every check fetches, loads the previous document, saves the fetched list unconditionally, and only then compares.
- A missing or unreadable previous document is a silent baseline, not a flood.
- `start`/`stop` drive the `intervalId` field.

The outside world is given, not computed:
- Each site's cycle receives an `Environment`:
  - the fetched page (`None` on a network or HTTP error);
  - the extractor's list (`None` when the DOM parser throws);
  - whether the webhook accepted the notification;
  - whether the file write succeeded.
- `new URL(...)` is an opaque predicate `urlParses`.
- The Node check receives the fetched list (`None` on an error), the clock reading and the write outcome.

Files:

| file | module | models |
|---|---|---|
| `wrappers.dfy` | `Wrappers` | `Option` |
| `file_helpers.dfy` | `FileHelpers` | the file store (`FileSystem` class), degrade-to-empty reads, error-swallowing writes, file naming |
| `change_detector.dfy` | `ChangeDetector` | `findNewHeadlines` and what it means |
| `vibe.dfy` | `Vibe` | the per-site cycle, the pass over all sites, the storage path, `validateConfig` |
| `server.dfy` | `Server` | `WebsiteMonitor` and its save-then-compare check |
| `first_run.dfy` | `FirstRunPolicies` | the two first-run policies side by side |

How the model is built:
- The file system is a `FileSystem` object whose `files` map is updated in place. Each path holds a parsed JSON value, or `Malformed` text that `JSON.parse` rejects.
- The operations that read or change files are methods over this object: `ReadItems`, `FileSystem.Write`, `CheckWebsiteHeadlines`, `CheckAllWebsites` and the `WebsiteMonitor` methods.
- `ValidateConfig` is a method too, because the source validates with a loop, but it only reads the configuration.
- The methods that compute a decision are proved equal to a specification function: `ReadItems` and `LoadPreviousData` to `Load`/`Previous`, `CheckWebsiteHeadlines` to `Cycle`/`AfterCycle`, `CheckAllWebsites` to `Pass`, `ValidateConfig` to `ConfigIsValid`, and `CheckForUpdates` to `Check`/`AfterCheck`. The properties of the monitors are lemmas about those functions.
- The methods that only change state (`FileSystem.Write`, `WebsiteMonitor.SaveData`, `WebsiteMonitor.Start`, `WebsiteMonitor.Stop`) state their new state directly in their `ensures`.

Behaviour of the code that a reader of a notify-then-commit monitor might not expect, modelled as the code has it:
- **Lost writes are silent.** A failed write is logged and swallowed in both implementations (`vibe.ts:83-92`, `file.ts:3-12`, `server.ts:118-124`); it is not surfaced as a failed cycle. In the Deno monitor, a notification that was accepted but whose write then failed is sent again on the next cycle (`Vibe.LostWriteRenotifies`). In the Node monitor, the stored list equals the fetched list only when the save succeeds. The model's failed write changes nothing; a write torn after truncation is a different outcome, described under "## Left out" (`Vibe.TornWriteFloodsNextCycle`, `Server.TornSaveSilencesNextCheck`).
- **A throwing extractor ends the cycle.** The exception is caught by the pass loop; extraction errors are not treated as zero records.
- **Duplicates are kept.** Every occurrence of a new key in the current list is kept by the diff (`Array.filter`), so duplicates are reported as often as they occur. Only the previous snapshot is reduced to presence (`new Set`).
- **Empty inputs count as missing.** `!htmlContent` treats an empty page like a failed fetch. `website.storageFile || ...` treats an empty custom file name like a missing one.

## Model

| member | source | states |
|---|---|---|
| FileHelpers.FileSystem.Write | deno/willhappen/helpers/file.ts:3-12 | A write replaces the path's content with exactly the given value, or, when the file system refuses, leaves every file as it was; no error reaches the caller. |
| FileHelpers.Load | deno/willhappen/helpers/file.ts:39-52 | A missing or unparsable file gives `[]`, and a parsed file gives its list. A non-empty result is exactly the stored list. |
| FileHelpers.ReadItems | deno/willhappen/helpers/file.ts:39-52 | A missing file gives `[]`, an unparsable one gives `[]`, a parsed one gives its list; the result always equals `Load` of the store. |
| FileHelpers.WriteThenLoad | deno/willhappen/vibe.ts:70-92 | A read after a successful write gives back exactly the list written. |
| FileHelpers.ToLowerAscii | deno/willhappen/helpers/file.ts:18-19 | Same length, no upper-case ASCII letter left, other characters unchanged, letters shifted by 32. |
| FileHelpers.Slug | deno/willhappen/helpers/file.ts:18-20 | The file-name stem has no whitespace and no upper-case letter. |
| FileHelpers.ReplaceRuns | deno/willhappen/helpers/file.ts:20 | The replacement never lengthens the text and is empty exactly when the text is. Its meaning is fixed by `RunIsOneDash`, `ReplaceRunsWithoutRuns`, `ReplaceSplits`, `RunThenRest` and `EachRunBecomesOneDash`. |
| FileHelpers.ReplaceRunsLeavesNone | deno/willhappen/helpers/file.ts:20 | After `replace(/\s+/g, "-")` no separator is left, and no upper-case letter is introduced. |
| FileHelpers.ReplaceRunsWithoutRuns | deno/willhappen/helpers/file.ts:20 | A string without separators is left unchanged by the replacement. |
| FileHelpers.SlugOfSlug | deno/willhappen/helpers/file.ts:18-20 | Naming is idempotent: a stem already lower-case and without whitespace is its own stem. |
| FileHelpers.RunIsOneDash | deno/willhappen/helpers/file.ts:20 | A non-empty run of separators becomes exactly one "-". |
| FileHelpers.ReplaceSplits | deno/willhappen/helpers/file.ts:20 | The replacement distributes over concatenation at every point that is not inside a run. |
| FileHelpers.RunThenRest | deno/willhappen/helpers/file.ts:20 | A run followed by text that does not continue it gives "-" followed by the rest's replacement. |
| FileHelpers.EachRunBecomesOneDash | deno/willhappen/helpers/file.ts:20 | Each maximal run in `a + w + b` becomes one "-" between the replacements of `a` and `b`. |
| FileHelpers.GenerateStorageFilePath | deno/willhappen/helpers/file.ts:14-22 | The path is the directory, "/", the slug of the name and the literal suffix "-appartmetns.json", and the stem has no whitespace and no upper case. |
| ChangeDetector.FindNewHeadlines | deno/willhappen/vibe.ts:113-119 | The diff is never longer than the current list. |
| ChangeDetector.FindNewHeadlinesSelects | deno/willhappen/vibe.ts:117-118 | The diff is an order-preserving subsequence of the current list, holds exactly the keys absent from the previous list, and keeps each as often as it occurs. |
| ChangeDetector.FindNewHeadlinesIsUnique | deno/willhappen/vibe.ts:113-119 | Any order-preserving selection with those multiplicities is the diff: the specification determines the result. |
| ChangeDetector.FirstRunFloods | deno/willhappen/vibe.ts:117-118 | Against an empty snapshot, every current key is new. |
| ChangeDetector.NothingNewAgainstCoveringSnapshot | deno/willhappen/vibe.ts:117-118 | Nothing is new when every current key is already stored. |
| ChangeDetector.Idempotent | deno/willhappen/vibe.ts:117-118 | A list diffed against itself is empty. |
| ChangeDetector.OnlyPresenceMatters | deno/willhappen/vibe.ts:117 | Snapshots with the same members give the same diff, whatever their order or repetitions. |
| Vibe.HasCustomFile | deno/willhappen/vibe.ts:48-51 | `website.storageFile \|\| ...`: a custom name counts only when present and non-empty. It has no `ensures` of its own. `GenerateStorageFilePath` and `StoragePathShape` state the path it selects in each case. |
| Vibe.GenerateStorageFilePath | deno/willhappen/vibe.ts:45-53 | The path starts with the directory and "/". It is that prefix plus the custom name when that is non-empty, and otherwise ends in "-headlines.json". |
| Vibe.StoragePathShape | deno/willhappen/vibe.ts:45-53 | The path starts with the directory and "/". It is the custom file name when that is non-empty, else the slug of the name followed by "-headlines.json". |
| Vibe.Fetched | deno/willhappen/vibe.ts:200-205 | `!htmlContent`: both `null` and the empty page count as a failed fetch. It has no `ensures` of its own. `Cycle` states that the cycle ends in `FetchFailed` exactly when it does not hold. |
| Vibe.Cycle | deno/willhappen/vibe.ts:185-245 | `FetchFailed` exactly when the fetch failed or was empty. `NoHeadlines` exactly when the page has no headline. `NothingNew` exactly when the diff against the stored list is empty. `Threw` exactly when the extractor throws or the URL of a site with new headlines does not parse. Otherwise the non-empty diff is sent, giving `Notified` with that diff and the current list when the webhook accepts, and `NotifyFailed` with the diff when it refuses. |
| Vibe.AfterCycle | deno/willhappen/vibe.ts:229-241 | The files change exactly when the cycle ended in `Notified` and the write succeeded; then the site's path is set to the full current list. Any change implies a fetched page, a URL that parses, an accepted notification and a successful write. |
| Vibe.NewHeadlineAfterCommitIsNotified | deno/willhappen/vibe.ts:217-241 | After a committed cycle, a later page with a headline not committed sends that headline to the webhook, and an accepted notification with a successful write commits the new list. |
| Vibe.AfterCycleCommitsOnlyOnSuccess | deno/willhappen/vibe.ts:221-241 | The files change if and only if the page was fetched, the diff is non-empty, the URL parses (so the notification is built and sent), the webhook accepts and the write succeeds. The site's file is then replaced wholesale by the full current list, and no other path changes. |
| Vibe.CheckWebsiteHeadlines | deno/willhappen/vibe.ts:185-245 | The method's outcome is `Cycle` of the stored list, and its new files are `AfterCycle` of the old ones. |
| Vibe.SecondCycleIsQuiet | deno/willhappen/vibe.ts:219-244 | After a committed cycle, a cycle extracting the same list reports `NothingNew` and changes no file. |
| Vibe.FailedNotificationIsRetried | deno/willhappen/vibe.ts:229-241 | A refused notification leaves the files unchanged, and the next cycle on the same list reports the same new headlines again. |
| Vibe.LostWriteRenotifies | deno/willhappen/vibe.ts:83-92 | A failed write after an accepted notification changes nothing, so the next cycle notifies the same headlines again. |
| Vibe.TornWriteFloodsNextCycle | deno/willhappen/vibe.ts:70-92 | After a write torn by a mid-write failure, the next cycle reads `[]` and reports the whole extracted list as new. |
| Vibe.FirstCycleReportsEverything | deno/willhappen/vibe.ts:194-238 | With no stored file or an unparsable one, every extracted headline is reported as new. |
| Vibe.Pass | deno/willhappen/vibe.ts:248-261 | A pass produces one outcome per configured site. |
| Vibe.PassTouchesOnlySiteFiles | deno/willhappen/vibe.ts:248-261 | A pass changes no file other than the configured sites' own storage files. |
| Vibe.CheckAllWebsites | deno/willhappen/vibe.ts:248-261 | The loop's outcomes and final files are those of `Pass` over the sites in list order. A thrown cycle does not stop the loop. |
| Vibe.PassAppend | deno/willhappen/vibe.ts:252-258 | A pass over `ws1 + ws2` is the pass over `ws1` followed by the pass over `ws2` on the files it left. |
| Vibe.QuietSiteIsTransparent | deno/willhappen/vibe.ts:252-258 | A site whose cycle leaves the files alone does not affect the other sites: the files and their outcomes are as if it were not configured. |
| Vibe.FetchFailureDoesNotBlockNextSite | deno/willhappen/vibe.ts:201-205 | When the first site's fetch fails, the second site still runs its full cycle on unchanged files and can notify and commit. |
| Vibe.ConfigIsValid | deno/willhappen/vibe.ts:264-287 | Valid exactly when the site list is non-empty and every site at every index is valid. |
| Vibe.ValidateConfig | deno/willhappen/vibe.ts:264-287 | Accepts exactly when the site list is non-empty and every site has a non-empty name, URL and webhook and a URL that parses. |
| Vibe.ValidConfigOnlyExtractorThrows | deno/willhappen/vibe.ts:278-283 | For a site of a validated configuration, a cycle can throw only in the extractor. |
| Server.HasNewHeadlines | server.ts:126-131 | True exactly when some fetched headline is not among the old ones. |
| Server.HasNewIffFilterNonEmpty | server.ts:60-66 | The existence test holds exactly when the filtered list of new headlines is non-empty. |
| Server.FetchedHeadlines | server.ts:102-105 | A fetch error yields the empty list; otherwise the extracted list. |
| Server.Previous | server.ts:108-116 | No previous data exactly when the file is missing or does not parse; otherwise the stored document. |
| Server.Check | server.ts:59-75 | No alert without previous data (silent baseline). An alert exactly when some fetched headline was not stored, listing the non-empty filtered list. |
| Server.AfterCheck | server.ts:118-124 | A failed save leaves the store as it was. A successful save adds the data file if missing, sets it to the fetched list with its timestamp, and keeps every other file. |
| Server.WebsiteMonitor.constructor | server.ts:14-20 | The data file is `headlines.json` in the working directory, the target is the given URL, and no timer runs. |
| Server.WebsiteMonitor.LoadPreviousData | server.ts:108-116 | `null` for a missing or unparsable file, the stored document otherwise, and it never throws. |
| Server.WebsiteMonitor.SaveData | server.ts:118-124 | Overwrites the data file with the document, or on failure leaves every file as it was. |
| Server.WebsiteMonitor.CheckForUpdates | server.ts:44-79 | The report is `Check` of the previously stored document. The store afterwards holds the fetched list and its timestamp whatever the comparison decided, unless the save failed. |
| Server.WebsiteMonitor.Start | server.ts:22-34 | One check as above, then `intervalId` holds the new timer's handle. |
| Server.WebsiteMonitor.Stop | server.ts:36-42 | Returns the handle to clear and sets `intervalId` to null. On a stopped monitor it changes nothing. |
| Server.SnapshotIsLatestFetch | server.ts:51-57 | After a successful save, the next check's previous data is exactly the fetched list with its timestamp. No other path is added, removed or changed. |
| Server.RepeatCheckIsQuiet | server.ts:57-75 | A second check on an unchanged page raises no alert. |
| Server.FetchErrorResetsBaseline | server.ts:102-105 | A fetch error saves an empty list, so the next successful fetch reports every headline as new. |
| Server.TornSaveSilencesNextCheck | server.ts:108-124 | After a save torn by a mid-write failure, the next check has no previous data and raises no alert, even where the intact snapshot would have raised one. |
| Server.LostSaveKeepsOldBaseline | server.ts:118-124 | A failed save leaves the previous data the next check sees unchanged. |
| FirstRunPolicies.FirstRunFloodsVersusBaseline | server.ts:60-62 | With no stored file, the Deno cycle notifies and stores every headline, while the Node check raises no alert but stores the list as its baseline. |

## Left out

- HTML extraction is given as the extracted list:
  - `extractHeadlinesFromHtml` (deno_dom);
  - the cheerio `h3` parsing in `fetchHeadlines`;
  - `helpers/willhaben.ts`.
- Network transports are outside the model; the model receives their answers:
  - the page fetch;
  - the Discord webhook call;
  - the embed payload, including its timestamps.
- `new URL(...)` is the opaque predicate `urlParses`. This covers both its use in `validateConfig` and its use in `createDiscordEmbed`.
- Scheduling is outside the model:
  - timers, `setInterval`, the periodic passes of `createMonitoringInterval` and `startMonitoring`;
  - the never-resolving promise;
  - signal handlers and process exit.

  `Start` and `Stop` model only the `intervalId` transitions.
- Overlapping passes are not modelled. The model treats each periodic tick as one more complete check or pass, and assumes it starts after the previous one has finished. The source does not enforce this:
  - the timer callbacks do not wait for the previous pass (`deno/willhappen/vibe.ts:293-299`, `server.ts:31-33`);
  - the page fetches time out after 10 seconds, but the Discord webhook call has no timeout (`deno/willhappen/vibe.ts:166-172`).

  So a slow pass can still be running at the next tick, and two passes then interleave at their `await`s. Two passes can then both notify the same headlines. A write of an older list can also land after a write of a newer one.
- The Fastify routes, `playSound` and `main.ts` have no bearing on change detection.
- JSON is not modelled as text: a store entry is either a parsed value of the expected shape or `Malformed`. A file that parses to a value of another shape is not modelled. The source's behaviour on such values varies by shape:
  - Deno, `null`: `previousHeadlines.length` throws at `deno/willhappen/vibe.ts:196`, before the fetch.
  - Deno, a string such as `"abc"`: `new Set` builds the set of its characters and nothing throws.
  - Deno, a number or an object: `new Set` throws in `findNewHeadlines`, once the page has headlines.
  - Node, `null`, `false` or `0`: a silent baseline, like a missing file (`server.ts:60-61`).
  - Node, `{"headlines": "abc"}`: `includes` becomes a substring test.
  - Node, a document without `headlines`: `includes` on `undefined` throws when the page has headlines. The error is caught after the save (`server.ts:76-78`).
- `ensureStorageDirectory` is not modelled; directory creation happens before any cycle.
- A missing `config.websites` is not modelled. It is an `undefined` field, which a typed configuration value cannot have; only the empty list is.
- FileHelpers.FileSystem.Write: a failed write is modelled as refused before the file changes. `Deno.writeTextFile` truncates the file first, so a failure part-way through (a full disk, say) leaves an empty or partial file that no longer parses. The next read then gives `[]`, and the next Deno cycle reports the whole current list again rather than only the headlines the write was meant to record (`Vibe.TornWriteFloodsNextCycle`). `Vibe.LostWriteRenotifies` and the `!written` branch of `Vibe.AfterCycle` cover only the refused write.
- Server.WebsiteMonitor.SaveData: a failed save is modelled as refused before the file changes. `fs.writeFile` truncates first, so a failure part-way through leaves a file that does not parse. The next `loadPreviousData` then returns `null`, and that check raises no alert even for headlines it sees for the first time (`Server.TornSaveSilencesNextCheck`). `Server.LostSaveKeepsOldBaseline` and the `!saved` branch of `Server.AfterCheck` cover only the refused save.
- Path joining is literal concatenation with "/". The normalisation that `path.join` performs for the Node data file is not modelled.
- FileHelpers.ToLowerAscii: lower-cases only the ASCII letters A-Z, not the full Unicode `toLowerCase`.
- FileHelpers.IsWhitespace: the JavaScript `\s` class by code point. Unicode normalisation and surrogate pairs are not modelled.
- Vibe.Pass: does not model the log lines or the timing between sites; only the outcomes and the files.
