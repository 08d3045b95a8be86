/**
 * The driver of download-urls.js: the start-up decisions on the parsed
 * arguments, the reading of the list file, and the sequential loop that
 * downloads each URL, catching a failure per URL and pausing between URLs.
 */
module Downloader {
  import opened Wrappers
  import opened UrlList
  import opened FileName

  type Bytes = seq<bv8>

  /** What fetch resolves to: the status and whether it counts as ok, and the body (arrayBuffer may reject). */
  datatype Response = Response(ok: bool, status: int, statusText: string, body: Result<Bytes, string>)

  /**
   * The library calls and I/O the script makes, each given as what it returns
   * in this run. A rejected promise or a thrown error is a Failure or Some
   * error. fetch and writeFile are indexed by the position of the item being
   * processed, so two requests for the same URL may get different replies.
   */
  datatype Host = Host(
    basename: string -> string,
    decodeComponent: string -> Result<string, string>,
    join: (string, string) -> string,
    ensureDir: string -> Option<string>,
    readTextFile: string -> Result<string, string>,
    fetch: (nat, string) -> Result<Response, string>,
    writeFile: (nat, string, Bytes) -> Option<string>
  )

  /** The result of parseArgs: the help flag, the directory (default "."), the positional arguments. */
  datatype Args = Args(help: bool, directory: string, positional: seq<string>)

  /** Why one URL was not saved; each is caught inside the loop. */
  datatype Failure =
    | BadFileName(message: string)              // decodeURIComponent threw
    | NetworkError(message: string)             // fetch rejected
    | HttpError(status: int, statusText: string) // response.ok was false
    | BodyError(message: string)                // arrayBuffer rejected
    | WriteError(message: string)               // writeFile rejected

  datatype Outcome = Saved(path: string, data: Bytes) | Failed(url: string, why: Failure)

  /**
   * One pass of the loop: the 1-based position and the total shown on the
   * progress line with the URL, whether a request went out, how the item ended,
   * and whether a pause followed.
   */
  datatype Step = Step(position: nat, total: nat, url: string, requested: bool, outcome: Outcome, pauseAfter: bool)

  /** The local filename of url under this host's basename and decoder. */
  function NameOf(url: string, host: Host): (name: Result<string, string>)
    ensures !HasEncodedSpace(host.basename(url)) ==> name == host.decodeComponent(host.basename(url))
  {
    DeriveFilename(url, host.basename, host.decodeComponent)
  }

  /** A request is made for a URL only when its filename decodes. */
  predicate Requests(url: string, host: Host) {
    NameOf(url, host).Success?
  }

  /** The body of the try block for item k: derive the name, fetch, check ok, read the body, write. */
  function Attempt(dir: string, url: string, k: nat, host: Host): (r: Outcome)
    ensures r.Failed? ==> r.url == url
    ensures r.Failed? && r.why.BadFileName? <==> !Requests(url, host)
    // a file is saved exactly when every step succeeds
    ensures r.Saved? <==>
      var reply := host.fetch(k, url);
      Requests(url, host) && reply.Success? && reply.value.ok && reply.value.body.Success?
      && host.writeFile(k, host.join(dir, NameOf(url, host).value), reply.value.body.value).None?
    // which step failed decides the failure reported
    ensures !Requests(url, host) ==> r == Failed(url, BadFileName(NameOf(url, host).error))
    ensures Requests(url, host) && host.fetch(k, url).Failure? ==>
      r == Failed(url, NetworkError(host.fetch(k, url).error))
    ensures Requests(url, host) && host.fetch(k, url).Success? && !host.fetch(k, url).value.ok ==>
      r == Failed(url, HttpError(host.fetch(k, url).value.status, host.fetch(k, url).value.statusText))
    ensures Requests(url, host) && host.fetch(k, url).Success? && host.fetch(k, url).value.ok
            && host.fetch(k, url).value.body.Failure? ==>
      r == Failed(url, BodyError(host.fetch(k, url).value.body.error))
    ensures Requests(url, host) && host.fetch(k, url).Success? && host.fetch(k, url).value.ok
            && host.fetch(k, url).value.body.Success? ==>
      var path := host.join(dir, NameOf(url, host).value);
      var data := host.fetch(k, url).value.body.value;
      match host.writeFile(k, path, data)
      case Some(e) => r == Failed(url, WriteError(e))
      case None => r == Saved(path, data)
    ensures r.Saved? ==>
      var name := NameOf(url, host);
      var reply := host.fetch(k, url);
      name.Success? && r.path == host.join(dir, name.value)
      && reply.Success? && reply.value.ok && reply.value.body == Success(r.data)
      && host.writeFile(k, r.path, r.data).None?
    ensures r.Failed? && r.why.HttpError? ==>
      var reply := host.fetch(k, url);
      reply.Success? && !reply.value.ok
      && r.why == HttpError(reply.value.status, reply.value.statusText)
  {
    match NameOf(url, host)
    case Failure(e) => Failed(url, BadFileName(e))
    case Success(name) =>
      var path := host.join(dir, name);
      match host.fetch(k, url)
      case Failure(e) => Failed(url, NetworkError(e))
      case Success(response) =>
        if !response.ok then Failed(url, HttpError(response.status, response.statusText))
        else
          match response.body
          case Failure(e) => Failed(url, BodyError(e))
          case Success(data) =>
            match host.writeFile(k, path, data)
            case Some(e) => Failed(url, WriteError(e))
            case None => Saved(path, data)
  }

  /** The record of the loop's pass over item k of urls. */
  function StepAt(dir: string, urls: seq<string>, k: nat, host: Host): (step: Step)
    requires k < |urls|
  {
    Step(k + 1, |urls|, urls[k], Requests(urls[k], host), Attempt(dir, urls[k], k, host), k < |urls| - 1)
  }

  /** log is the record of a full pass over urls: one step per URL, in order, none skipped. */
  ghost predicate Describes(log: seq<Step>, dir: string, urls: seq<string>, host: Host) {
    |log| == |urls| && forall k :: 0 <= k < |urls| ==> log[k] == StepAt(dir, urls, k, host)
  }

  /** The for loop over the URLs; a failure on one item is caught and the loop goes on. */
  method DownloadAll(dir: string, urls: seq<string>, host: Host) returns (log: seq<Step>)
    ensures |log| == |urls|
    ensures forall k :: 0 <= k < |urls| ==> log[k].position == k + 1 && log[k].total == |urls| && log[k].url == urls[k]
    ensures forall k :: 0 <= k < |urls| ==> log[k].outcome == Attempt(dir, urls[k], k, host)
    ensures forall k :: 0 <= k < |urls| ==> (log[k].requested <==> Requests(urls[k], host))
    ensures forall k :: 0 <= k < |urls| ==> (log[k].pauseAfter <==> k < |urls| - 1)
    ensures Describes(log, dir, urls, host)
  {
    log := [];
    var i := 0;
    while i < |urls|
      invariant 0 <= i <= |urls|
      invariant |log| == i
      invariant forall k :: 0 <= k < i ==> log[k] == StepAt(dir, urls, k, host)
    {
      var url := urls[i];
      var requested := Requests(url, host);
      var outcome := Attempt(dir, url, i, host);
      var pause := i < |urls| - 1;
      log := log + [Step(i + 1, |urls|, url, requested, outcome, pause)];
      i := i + 1;
    }
  }

  function PauseCount(log: seq<Step>): (n: nat)
  {
    if log == [] then 0 else (if log[0].pauseAfter then 1 else 0) + PauseCount(log[1..])
  }

  /** A pause after every item but the last makes max(N - 1, 0) pauses. */
  lemma {:induction false} PausesBetweenItems(log: seq<Step>)
    requires forall k :: 0 <= k < |log| ==> (log[k].pauseAfter <==> k < |log| - 1)
    ensures PauseCount(log) == if |log| == 0 then 0 else |log| - 1
  {
    if log != [] {
      assert forall k :: 0 <= k < |log[1..]| ==> (log[1..][k].pauseAfter <==> k < |log[1..]| - 1) by {
        forall k | 0 <= k < |log[1..]| ensures log[1..][k].pauseAfter <==> k < |log[1..]| - 1 {
          assert log[1..][k] == log[k + 1];
        }
      }
      PausesBetweenItems(log[1..]);
    }
  }

  function RequestCount(log: seq<Step>): (n: nat)
  {
    if log == [] then 0 else (if log[0].requested then 1 else 0) + RequestCount(log[1..])
  }

  /** How many of urls have a filename that decodes. */
  function DecodableCount(urls: seq<string>, host: Host): (n: nat)
    ensures n <= |urls|
  {
    if urls == [] then 0 else (if Requests(urls[0], host) then 1 else 0) + DecodableCount(urls[1..], host)
  }

  /** Every URL decodes exactly when the count of decodable URLs is the number of URLs. */
  lemma {:induction false} AllDecodable(urls: seq<string>, host: Host)
    ensures DecodableCount(urls, host) == |urls| <==> forall k :: 0 <= k < |urls| ==> Requests(urls[k], host)
  {
    if urls != [] {
      AllDecodable(urls[1..], host);
      if DecodableCount(urls, host) == |urls| {
        forall k | 0 <= k < |urls| ensures Requests(urls[k], host) {
          if k > 0 {
            assert urls[k] == urls[1..][k - 1];
          }
        }
      }
      if forall k :: 0 <= k < |urls| ==> Requests(urls[k], host) {
        forall k | 0 <= k < |urls[1..]| ensures Requests(urls[1..][k], host) {
          assert urls[1..][k] == urls[k + 1];
        }
      }
    }
  }

  /**
   * A pass over urls sends one request for each URL whose filename decodes and
   * none for the others: never a retry, never a request for an undecodable name.
   */
  lemma {:induction false} RequestsAreDecodableUrls(log: seq<Step>, dir: string, urls: seq<string>, host: Host)
    requires Describes(log, dir, urls, host)
    ensures RequestCount(log) == DecodableCount(urls, host)
    ensures RequestCount(log) == |urls| <==> forall k :: 0 <= k < |urls| ==> Requests(urls[k], host)
  {
    RequestFlagsCount(log, urls, host);
    AllDecodable(urls, host);
  }

  lemma {:induction false} RequestFlagsCount(log: seq<Step>, urls: seq<string>, host: Host)
    requires |log| == |urls| && forall k :: 0 <= k < |urls| ==> (log[k].requested <==> Requests(urls[k], host))
    ensures RequestCount(log) == DecodableCount(urls, host)
  {
    if log != [] {
      assert forall k :: 0 <= k < |urls[1..]| ==> (log[1..][k].requested <==> Requests(urls[1..][k], host)) by {
        forall k | 0 <= k < |urls[1..]|
          ensures log[1..][k].requested <==> Requests(urls[1..][k], host)
        {
          assert log[1..][k] == log[k + 1] && urls[1..][k] == urls[k + 1];
        }
      }
      RequestFlagsCount(log[1..], urls[1..], host);
    }
  }

  /**
   * What happens to item k depends only on that item's URL and on what the host
   * does for it: failures on other items neither stop nor change it.
   */
  lemma StepIndependentOfOtherItems(dir: string, urls: seq<string>, k: nat, h1: Host, h2: Host)
    requires k < |urls|
    requires h1.basename == h2.basename && h1.decodeComponent == h2.decodeComponent && h1.join == h2.join
    requires h1.fetch(k, urls[k]) == h2.fetch(k, urls[k])
    requires forall path: string, data: Bytes :: h1.writeFile(k, path, data) == h2.writeFile(k, path, data)
    ensures StepAt(dir, urls, k, h1) == StepAt(dir, urls, k, h2)
  {
  }

  function AttemptedUrls(log: seq<Step>): (urls: seq<string>)
  {
    if log == [] then [] else [log[0].url] + AttemptedUrls(log[1..])
  }

  /**
   * A full pass over N URLs tries each of them once, in list order, sends one
   * request per URL whose name decodes, and pauses max(N - 1, 0) times.
   */
  lemma {:induction false} BatchShape(log: seq<Step>, dir: string, urls: seq<string>, host: Host)
    requires Describes(log, dir, urls, host)
    ensures AttemptedUrls(log) == urls
    ensures RequestCount(log) == DecodableCount(urls, host) <= |urls|
    ensures PauseCount(log) == if |urls| == 0 then 0 else |urls| - 1
  {
    AttemptedUrlsAre(log, urls);
    RequestsAreDecodableUrls(log, dir, urls, host);
    PausesBetweenItems(log);
  }

  lemma {:induction false} AttemptedUrlsAre(log: seq<Step>, urls: seq<string>)
    requires |log| == |urls| && forall k :: 0 <= k < |urls| ==> log[k].url == urls[k]
    ensures AttemptedUrls(log) == urls
  {
    if log != [] {
      AttemptedUrlsAre(log[1..], urls[1..]);
      assert urls == [urls[0]] + urls[1..];
    }
  }

  /** The first positional argument, if there is one. */
  function FirstPositional(args: Args): (first: Option<string>)
    ensures first.Some? <==> |args.positional| > 0
    ensures first.Some? ==> first.value == args.positional[0]
  {
    if args.positional == [] then None else Some(args.positional[0])
  }

  /** JavaScript falsiness of a string that may be undefined: undefined and "" are falsy. */
  predicate IsFalsy(v: Option<string>) {
    v.None? || v.value == ""
  }

  /** The script finds no list file: the first positional argument is falsy. */
  predicate ListFileMissing(args: Args): (missing: bool)
    ensures missing <==> args.positional == [] || args.positional[0] == ""
  {
    IsFalsy(FirstPositional(args))
  }

  /**
   * The whole script: help exits 0 at once; a missing list file exits 1; the
   * directory is ensured unless it is "."; a failure there or in reading the
   * list exits 1; otherwise every URL of the list is processed and the exit
   * code is 0 whatever the items did.
   */
  method Run(args: Args, host: Host) returns (code: int, dirEnsured: bool, listRead: bool, log: seq<Step>)
    ensures code == 0 || code == 1
    ensures args.help ==> code == 0 && !dirEnsured && !listRead && log == []
    ensures !args.help && ListFileMissing(args) ==> code == 1 && !dirEnsured && !listRead && log == []
    ensures dirEnsured <==> !args.help && !ListFileMissing(args) && args.directory != "."
    ensures listRead <==> !args.help && !ListFileMissing(args)
                          && (args.directory == "." || host.ensureDir(args.directory).None?)
    ensures dirEnsured && host.ensureDir(args.directory).Some? ==> code == 1 && log == []
    ensures listRead ==>
      match host.readTextFile(args.positional[0])
      case Failure(_) => code == 1 && log == []
      case Success(content) => code == 0 && Describes(log, args.directory, UrlsOf(content), host)
  {
    code, dirEnsured, listRead, log := 0, false, false, [];
    if args.help {
      return;
    }
    if ListFileMissing(args) {
      code := 1;
      return;
    }
    var urlsFile := FirstPositional(args).value;
    var downloadDir := args.directory;
    if downloadDir != "." {
      dirEnsured := true;
      var err := host.ensureDir(downloadDir);
      if err.Some? {
        code := 1;
        return;
      }
    }
    listRead := true;
    var content := host.readTextFile(urlsFile);
    if content.Failure? {
      code := 1;
      return;
    }
    var urls := UrlsOf(content.value);
    log := DownloadAll(downloadDir, urls, host);
  }
}
