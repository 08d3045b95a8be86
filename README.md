# download-urls, modelled in Dafny

`download-urls.js` is a Deno script. It reads a text file of URLs and
downloads them one after another into a directory. This project models its logic:

- **The URL-list filter** (`url_list.dfy`, module `UrlList`). The file text is
  split on `"\n"` (`SplitLines`, with `JoinLines` as its inverse). Each line is
  trimmed with `String.prototype.trim` semantics (`Trim`; whitespace is the
  ECMAScript WhiteSpace and LineTerminator set, so `\r` counts). Lines that are
  empty or start with `#` are dropped (`Kept`, `UrlsOf`). A `#` inside a line is
  kept.
- **The filename rewrite** (`file_name.dfy`, module `FileName`). Each literal
  `%20` in the URL's basename becomes one space (`ReplaceEncodedSpaces`, a
  left-to-right global replacement). The result goes to
  `decodeURIComponent` (`DeriveFilename`).
- **The driver** (`downloader.dfy`, module `Downloader`). `Run` covers the
  start-up decisions: help, missing list file, `ensureDir` unless the directory
  is `"."`, and reading the list. `DownloadAll` is the `for` loop. Each pass
  records a `Step`: the progress position, the URL, whether a request went out,
  the caught `Outcome`, and whether a pause followed. `Attempt` is the body of
  the per-item `try`.

Library calls and I/O are fields of the `Host` value. Each field says what the
call returns in this run: `basename`, `decodeURIComponent`, `join`,
`ensureDir`, `Deno.readTextFile`, `fetch` (with `response.ok`, the status and
`arrayBuffer`) and `Deno.writeFile`. `fetch` and `writeFile` are indexed by the
item's position, so each request may get its own reply. The parsed arguments
(`Args`) are the result of `parseArgs`.

`Wrappers` (`wrappers.dfy`) holds the `Option` and `Result` types.

## Model

| member | source | states |
|---|---|---|
| UrlList.TrimStartDropsPrefix | download-urls.js:63 | the left half of trim drops only whitespace, and only a prefix: the rest is a suffix of the line |
| UrlList.TrimEndDropsSuffix | download-urls.js:63 | the right half of trim drops only whitespace, and only a suffix: the rest is a prefix of the line |
| UrlList.Trim | download-urls.js:63 | a trimmed line neither starts nor ends with whitespace |
| UrlList.TrimIsTrimOf | download-urls.js:63 | trim returns a contiguous piece of the line with only whitespace before and after it |
| UrlList.TrimIsUnique | download-urls.js:63 | at most one string has that property, so trim is fully determined by it |
| UrlList.TrimCharacterised | download-urls.js:63 | a string is the trim of a line if and only if it equals `Trim` of that line |
| UrlList.TrimIgnoresTrailingWhitespace | download-urls.js:63 | adding whitespace such as a CR to the end of a line does not change its trim |
| UrlList.SplitLines | download-urls.js:62 | `split("\n")` gives at least one part, and no part contains `"\n"` |
| UrlList.JoinSplitLines | download-urls.js:62 | joining the parts with `"\n"` gives back the file text |
| UrlList.SplitJoinLines | download-urls.js:62 | parts without `"\n"`, joined with `"\n"`, split back into the same parts |
| UrlList.SplitLinesCount | download-urls.js:62 | there is one more part than there are `"\n"` characters |
| UrlList.SplitLinesAtNewline | download-urls.js:62 | splitting `a + "\n" + b` gives the parts of `a` followed by the parts of `b` |
| UrlList.UrlsOf | download-urls.js:61-64 | a string is among the URLs of a list file exactly when it is the trim of one of the file's lines and is neither empty nor starts with `#` |
| UrlList.Kept | download-urls.js:63-64 | every kept entry is non-empty, has no leading or trailing whitespace, does not start with `#`; there are no more entries than lines |
| UrlList.KeptAppend | download-urls.js:61-64 | the filter works line by line: filtering `a + b` gives the result for `a` followed by the result for `b`, so order is kept and duplicates stay |
| UrlList.KeptMembership | download-urls.js:61-64 | a string is kept if and only if it is the trim of some line and is neither empty nor starts with `#` |
| UrlList.KeptSameTrims | download-urls.js:63-64 | two line lists whose trims agree line by line yield the same URLs |
| UrlList.UrlsOfConcat | download-urls.js:61-64 | two list files joined by a newline yield the first file's URLs, then the second's |
| UrlList.SplitCrlf | download-urls.js:62 | a CRLF file splits into the same parts as its LF version, with at most a trailing CR added to each |
| UrlList.CrlfYieldsSameUrls | download-urls.js:61-64 | a list file with CRLF line ends yields exactly the URLs of the same file with LF ends |
| FileName.ReplaceEncodedSpaces | download-urls.js:75 | the replacement never makes the text longer |
| FileName.NoEncodedSpaceLeft | download-urls.js:75 | no `%20` remains after the replacement |
| FileName.ReplaceAtOccurrence | download-urls.js:75 | every occurrence of `%20`, wherever it stands, becomes exactly one space, and the text on both sides is treated as if on its own |
| FileName.ReplaceWithoutEncodedSpace | download-urls.js:75 | text without `%20` passes through unchanged |
| FileName.ReplaceIdempotent | download-urls.js:75 | replacing twice gives the same result as replacing once |
| FileName.DeriveFilename | download-urls.js:75 | a basename without `%20` goes to the decoder unchanged; for a basename `a + "%20" + b` the decoder receives the rewrite of `a`, one space, then the rewrite of `b` |
| FileName.DecoderInput | download-urls.js:75 | the string given to `decodeURIComponent` has no `%20` and is no longer than the basename |
| Downloader.NameOf | download-urls.js:75 | a basename without `%20` is decoded as it is |
| Downloader.Attempt | download-urls.js:73-94 | a file is saved at `join(dir, name)` with the whole body if and only if the name decodes, fetch resolves, the reply is ok, the body reads and the write succeeds; otherwise the first step that fails decides the failure: an undecodable name gives `BadFileName` and no request, a rejected fetch `NetworkError`, a non-ok reply `HttpError` with its status and status text, a rejected body `BodyError`, a rejected write `WriteError`; every failure records its URL |
| Downloader.StepIndependentOfOtherItems | download-urls.js:73-94 | the result for item k depends only on its URL and on what the host does for item k, so failures on other items do not affect it |
| Downloader.DownloadAll | download-urls.js:69-100 | one step per URL, in list order, at 1-based position k+1 of N; each step's outcome is that URL's attempt; a request goes out exactly when the name decodes; a pause follows every item except the last |
| Downloader.PausesBetweenItems | download-urls.js:97-99 | pausing after every item except the last gives max(N-1, 0) pauses |
| Downloader.DecodableCount | download-urls.js:69-79 | the number of URLs whose filename decodes is at most the number of URLs |
| Downloader.AllDecodable | download-urls.js:69-79 | that number equals the number of URLs exactly when every filename decodes |
| Downloader.RequestsAreDecodableUrls | download-urls.js:69-79 | a pass over the URLs sends exactly one request per URL whose filename decodes, so as many requests as URLs exactly when every name decodes |
| Downloader.BatchShape | download-urls.js:66-100 | a full pass tries each URL once, in order, sends one request per decodable URL (at most N) and pauses max(N-1, 0) times |
| Downloader.FirstPositional | download-urls.js:39 | the list file is the first positional argument, absent when there is none |
| Downloader.ListFileMissing | download-urls.js:39-40 | the list file counts as missing exactly when there is no positional argument or the first one is empty, the two falsy cases of a string that may be undefined |
| Downloader.Run | download-urls.js:21-106 | help exits 0 before anything else; a missing or empty list-file argument exits 1; the directory is ensured if and only if it is not `"."`; a failure there or in reading the list exits 1 with no attempts; otherwise every filtered URL is processed and the exit code is 0 whatever the items did |

## Left out

- The network and the filesystem (`fetch`, `arrayBuffer`, `Deno.writeFile`, `Deno.readTextFile`, `ensureDir`) are I/O. They appear only as the outcomes recorded in `Host`.
- When two URLs map to the same filename, the later file overwrites the earlier one. That happens inside the filesystem and is not modelled.
- The 500 ms `setTimeout` and async scheduling are timing, so only where the pauses fall is modelled.
- `parseArgs` comes from `@std/cli` and its code is not part of this model. Its result is taken as given. It can turn a number-like positional argument into a number, and then `0` counts as missing. Here positional arguments are strings, and only an absent or empty first one counts as missing.
- `basename` and `join` from `@std/path` and the `decodeURIComponent` algorithm are library code. They are uninterpreted functions in `Host`, and the decoder may fail.
- Console text and which stream it goes to are presentation. `Step`, `Outcome` and `Failure` record the facts behind the messages. The "Found N URLs" and "Download complete!" lines are not modelled.
- `ensureDir` runs outside the `try` at lines 56-106. When it fails, the top-level `await` at line 110 rejects and Deno exits with code 1. `Run` models that as exit code 1.
- If the caught value is `null` or `undefined`, reading its `message` at line 93 throws, and that error reaches the outer handler. Errors are modelled as carrying a message, so this case is not modelled.
