/**
 * The older single-site Node monitor (server.ts, class `WebsiteMonitor`).
 *
 * Its protocol differs from the Deno monitor's: every check first saves what it
 * fetched and only then compares with what it had loaded, and a missing or
 * unreadable snapshot is a silent baseline, not a flood. The fetch (axios plus
 * the `h3` extraction), the clock and the outcome of the file write are inputs;
 * the timer handle that `setInterval` returns is a number chosen by the caller.
 */
module Server {
  import opened Wrappers
  import FileHelpers
  import opened ChangeDetector

  /** `HeadlineData`: the JSON document kept in `headlines.json`. */
  datatype HeadlineData = HeadlineData(timestamp: string, headlines: seq<string>)

  /** The snapshot file store of the Node monitor. */
  type Store = map<string, FileHelpers.Content<HeadlineData>>

  /** What one check reports: an alert (the success sound) with the new headlines, or nothing. */
  datatype CheckReport = Alert(newHeadlines: seq<string>) | NoAlert

  const DataFileName: string := "headlines.json"

  /** `hasNewHeadlines(old, new)`: `new.some(h => !old.includes(h))`. */
  function HasNewHeadlines(oldHeadlines: seq<string>, newHeadlines: seq<string>): (r: bool)
    ensures r <==> exists i :: 0 <= i < |newHeadlines| && newHeadlines[i] !in oldHeadlines
  {
    if newHeadlines == [] then false
    else if newHeadlines[0] !in oldHeadlines then true
    else
      var r := HasNewHeadlines(oldHeadlines, newHeadlines[1..]);
      assert forall i :: 1 <= i < |newHeadlines| ==> newHeadlines[i] == newHeadlines[1..][i - 1];
      r
  }

  /**
   * The existence test agrees with the list the alert prints: there is a new
   * headline exactly when `headlines.filter(h => !old.includes(h))` is non-empty.
   */
  lemma HasNewIffFilterNonEmpty(oldHeadlines: seq<string>, newHeadlines: seq<string>)
    ensures HasNewHeadlines(oldHeadlines, newHeadlines) <==> FindNewHeadlines(newHeadlines, oldHeadlines) != []
  {
    FindNewHeadlinesSelects(newHeadlines, oldHeadlines);
    var found := FindNewHeadlines(newHeadlines, oldHeadlines);
    if HasNewHeadlines(oldHeadlines, newHeadlines) {
      var i :| 0 <= i < |newHeadlines| && newHeadlines[i] !in oldHeadlines;
      assert newHeadlines[i] in found;
    }
    if found != [] {
      assert found[0] in newHeadlines && found[0] !in oldHeadlines;
    }
  }

  /** `fetchHeadlines`: any error while fetching or parsing gives the empty list. */
  function FetchedHeadlines(fetched: Option<seq<string>>): (headlines: seq<string>)
    ensures fetched.None? ==> headlines == []
    ensures fetched.Some? ==> headlines == fetched.value
  {
    fetched.GetOr([])
  }

  /** `loadPreviousData`: the stored document, or `null` when the file is missing or does not parse. */
  function Previous(files: Store, dataFile: string): (data: Option<HeadlineData>)
    ensures data.None? <==> dataFile !in files || files[dataFile].Malformed?
    ensures data.Some? ==> files[dataFile] == FileHelpers.Json(data.value)
  {
    if dataFile in files && files[dataFile].Json? then Some(files[dataFile].value) else None
  }

  /**
   * The comparison at the end of `checkForUpdates`. Without a previous document
   * nothing is reported (silent baseline); otherwise the alert is raised exactly
   * when some fetched headline was not stored, and it lists those headlines.
   */
  function Check(previous: Option<HeadlineData>, headlines: seq<string>): (report: CheckReport)
    ensures previous.None? ==> report == NoAlert
    ensures report.Alert? <==>
      previous.Some? && exists i :: 0 <= i < |headlines| && headlines[i] !in previous.value.headlines
    ensures report.Alert? ==>
      report.newHeadlines == FindNewHeadlines(headlines, previous.value.headlines) && report.newHeadlines != []
  {
    if previous.Some? && HasNewHeadlines(previous.value.headlines, headlines) then
      HasNewIffFilterNonEmpty(previous.value.headlines, headlines);
      Alert(FindNewHeadlines(headlines, previous.value.headlines))
    else NoAlert
  }

  /** The store after `saveData(currentData)`: a failed write is logged and changes nothing. */
  function AfterCheck(files: Store, dataFile: string, headlines: seq<string>, now: string, saved: bool): (after: Store)
    ensures !saved ==> after == files
    ensures saved ==> && after.Keys == files.Keys + {dataFile}
                      && after[dataFile] == FileHelpers.Json(HeadlineData(now, headlines))
                      && forall p :: p in files && p != dataFile ==> after[p] == files[p]
  {
    if saved then files[dataFile := FileHelpers.Json(HeadlineData(now, headlines))] else files
  }

  class WebsiteMonitor {
    const dataFile: string
    const targetUrl: string
    /** The handle of the running `setInterval`, `null` when stopped. */
    var intervalId: Option<nat>

    /** `new WebsiteMonitor(url)` started in the working directory `cwd`. */
    constructor (cwd: string, url: string)
      ensures dataFile == cwd + "/" + DataFileName && targetUrl == url && intervalId == None
    {
      dataFile := cwd + "/" + DataFileName;
      targetUrl := url;
      intervalId := None;
    }

    /** `loadPreviousData`: never fails; a missing or unparsable file gives `null`. */
    method LoadPreviousData(fs: FileHelpers.FileSystem<HeadlineData>) returns (data: Option<HeadlineData>)
      ensures dataFile !in fs.files ==> data == None
      ensures dataFile in fs.files && fs.files[dataFile].Malformed? ==> data == None
      ensures dataFile in fs.files && fs.files[dataFile].Json? ==> data == Some(fs.files[dataFile].value)
      ensures data == Previous(fs.files, dataFile)
    {
      if dataFile !in fs.files {
        return None;
      }
      match fs.files[dataFile]
      case Malformed =>
        data := None;
      case Json(v) =>
        data := Some(v);
    }

    /** `saveData`: overwrites the data file; a failed write is logged and swallowed. */
    method SaveData(fs: FileHelpers.FileSystem<HeadlineData>, data: HeadlineData, succeeds: bool)
      modifies fs
      ensures succeeds ==> fs.files == old(fs.files)[dataFile := FileHelpers.Json(data)]
      ensures !succeeds ==> fs.files == old(fs.files)
    {
      fs.Write(dataFile, data, succeeds);
    }

    /**
     * `checkForUpdates`: fetch, load, SAVE the fetched list, then compare with what
     * was loaded. The save does not depend on the comparison, and no error leaves
     * the method.
     */
    method CheckForUpdates(fs: FileHelpers.FileSystem<HeadlineData>, fetched: Option<seq<string>>, now: string, saved: bool)
      returns (report: CheckReport)
      modifies fs
      ensures report == Check(Previous(old(fs.files), dataFile), FetchedHeadlines(fetched))
      ensures fs.files == AfterCheck(old(fs.files), dataFile, FetchedHeadlines(fetched), now, saved)
    {
      var headlines := FetchedHeadlines(fetched);
      var previousData := LoadPreviousData(fs);
      var currentData := HeadlineData(now, headlines);
      SaveData(fs, currentData, saved);
      if previousData.Some? && HasNewHeadlines(previousData.value.headlines, headlines) {
        var newHeadlines := FindNewHeadlines(headlines, previousData.value.headlines);
        HasNewIffFilterNonEmpty(previousData.value.headlines, headlines);
        report := Alert(newHeadlines);
      } else {
        report := NoAlert;
      }
    }

    /**
     * `start`: one check, then the periodic timer; its handle replaces whatever
     * `intervalId` held (a second `start` loses the first timer's handle).
     */
    method Start(fs: FileHelpers.FileSystem<HeadlineData>, fetched: Option<seq<string>>, now: string, saved: bool, handle: nat)
      returns (report: CheckReport)
      modifies this, fs
      ensures report == Check(Previous(old(fs.files), dataFile), FetchedHeadlines(fetched))
      ensures fs.files == AfterCheck(old(fs.files), dataFile, FetchedHeadlines(fetched), now, saved)
      ensures intervalId == Some(handle)
    {
      report := CheckForUpdates(fs, fetched, now, saved);
      intervalId := Some(handle);
    }

    /**
     * `stop`: clears the running timer, if any, and forgets it; on a stopped
     * monitor it does nothing.
     */
    method Stop() returns (cleared: Option<nat>)
      modifies this
      ensures cleared == old(intervalId)
      ensures intervalId == None
      ensures old(intervalId) == None ==> unchanged(this)
    {
      cleared := None;
      if intervalId.Some? {
        cleared := intervalId;
        intervalId := None;
      }
    }
  }

  // ---------------------------------------------------------------------------
  // Properties of the save-then-compare protocol
  // ---------------------------------------------------------------------------

  /**
   * Whatever the comparison decides, a check whose write succeeds leaves exactly
   * the fetched list (with its timestamp) as the next check's previous data.
   */
  lemma SnapshotIsLatestFetch(files: Store, dataFile: string, fetched: Option<seq<string>>, now: string)
    ensures Previous(AfterCheck(files, dataFile, FetchedHeadlines(fetched), now, true), dataFile)
         == Some(HeadlineData(now, FetchedHeadlines(fetched)))
    ensures var after := AfterCheck(files, dataFile, FetchedHeadlines(fetched), now, true);
      forall p :: p != dataFile ==> (p in after <==> p in files) && (p in files ==> after[p] == files[p])
  {
  }

  /** Repeating a check on an unchanged page raises no alert. */
  lemma RepeatCheckIsQuiet(files: Store, dataFile: string, headlines: seq<string>, now: string)
    ensures Check(Previous(AfterCheck(files, dataFile, headlines, now, true), dataFile), headlines) == NoAlert
  {
    Idempotent(headlines);
    HasNewIffFilterNonEmpty(headlines, headlines);
  }

  /**
   * A fetch error is saved as an empty snapshot, so the next successful fetch
   * reports every headline it finds as new.
   */
  lemma FetchErrorResetsBaseline(files: Store, dataFile: string, now: string, current: seq<string>)
    requires current != []
    ensures var afterError := AfterCheck(files, dataFile, FetchedHeadlines(None), now, true);
      Check(Previous(afterError, dataFile), FetchedHeadlines(Some(current))) == Alert(current)
  {
    FirstRunFloods(current);
    assert current[0] !in [];
  }

  /**
   * A save that fails after the file was truncated leaves text that does not
   * parse. The next check then has no previous data and raises no alert, even
   * for headlines that the intact snapshot would have reported.
   */
  lemma TornSaveSilencesNextCheck(files: Store, dataFile: string, headlines: seq<string>)
    ensures Check(Previous(files[dataFile := FileHelpers.Malformed], dataFile), headlines) == NoAlert
    ensures (Previous(files, dataFile).Some? && exists i :: 0 <= i < |headlines| && headlines[i] !in Previous(files, dataFile).value.headlines)
      ==> Check(Previous(files, dataFile), headlines).Alert?
  {
  }

  /** A failed save keeps the older snapshot, so the next check compares against it again. */
  lemma LostSaveKeepsOldBaseline(files: Store, dataFile: string, headlines: seq<string>, now: string)
    ensures Previous(AfterCheck(files, dataFile, headlines, now, false), dataFile) == Previous(files, dataFile)
  {
  }
}
