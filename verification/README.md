# dorez README generator — a Dafny model

dorez is a desktop application that writes a `README.md` for a folder. The
user picks a folder in an Electron window. The desktop process posts the
folder to a local HTTP server. The server scans the folder into a bounded
outline, builds a prompt from a YAML template and the outline, and writes
the prompt to a temporary file inside the folder. It then runs the Gemini
command-line tool in that folder and streams the tool's output back as the
response. The desktop process forwards the stream to the window chunk by
chunk, then writes the whole text to `README.md` in the folder.

This project models that core and proves properties of it:

- `text.dfy` (`Text`) holds the JavaScript string operations the core relies on:
  - `split` on a literal separator, and `join`;
  - taking the text before or after the first occurrence of a marker;
  - `trim`, with the full ECMAScript white-space and line-terminator set;
  - concatenating a list of chunks.
- `snippet.dfy` (`Snippet`) computes the preview stored for each file (server.js:38).
- `scanner.dfy` (`Scanner`) models `scanFolderOutline` (server.js:19-50). How a file's bytes become its preview is a parameter, which may throw; the server supplies `Snippet.Snippet` of the UTF-8 decoding (`Server.Scan`). The module contains:
  - the walk itself, written like the source: a recursive function and a `for` loop with its `break`;
  - a depth-first flat listing of the tree;
  - a budget rule on plain lists of reads;
  - proofs that the walk equals the budget rule applied to the flat listing, and that it fails exactly at the first unlistable directory reached with budget left.
- `prompt.dfy` (`Prompt`) cuts the system prompt out of the YAML template and assembles the full prompt (server.js:68-72).
- `fsmodel.dfy` (`FileMap`) models the files the handlers write and delete, as a map from path to content.
- `server.dfy` (`Server`) models the `/generate-readme` handler (server.js:52-113). This covers:
  - the 400 for a missing folder;
  - the steps that may throw, each tracking its temporary file;
  - relaying stdout and tagged stderr;
  - the `close` and `error` events of the child process;
  - cleanup on every way out.
- `client.dfy` (`Client`) models the folder dialog and the `folder:selected` handler (src/core/ipc-handlers.js:80-127). The handler is written twice:
  - as a closed-form description (`Handled`);
  - as the source's read loop (`FolderSelected`), proved equal to it.
- `pipeline.dfy` (`Pipeline`) puts the two halves together. The README the desktop writes is the server's relayed output, however the transport splits it into chunks.

src/core/ipc-handlers.js:28-69 has a second copy of `scanFolderOutline`, identical to server.js:19-50. Nothing calls it. `Scanner` models both.

What the handlers cannot see is a parameter:

- the folder tree, given as an immutable tree;
- the UTF-8 decoder (`buf.toString('utf8')`), which may throw;
- the JSON serialiser;
- the template text;
- the temporary file names;
- which writes throw;
- the events of the child process;
- the chunks the network delivers.

### Behaviour worth knowing

- **Stderr ends up in the README.** The server writes stderr text, behind `[GEMINI_STDERR] `, into the same response body as stdout (server.js:93). The desktop saves the whole body (src/core/ipc-handlers.js:115, 120). `Pipeline.ReadmeIsRelayedOutput` and `Pipeline.StderrLandsInReadme` state it.
- **The exit code is ignored.** The server ends the response with status 200 on `close`, whatever the code (server.js:95-99).
- **The byte budget is checked before each read, not against the total after it.** The last file read can take the byte total past 400 KB (server.js:33-36). `Scanner.OvershootExample` shows it.
- **A file can be counted without being recorded.** Both counters move before the buffer is turned into text (server.js:35-38). If that throws, the `catch` at server.js:44 drops the file, but its bytes still count against the budget. `Scanner.CountedNotRecorded` shows it.
- **An unlistable directory aborts the whole scan.** `readdirSync` is not guarded, so the request fails with 500 `Error during README generation.` (server.js:27, 107-111). `Server.UnlistableFolderFails` states it. This happens only when the directory is reached while budget remains. `Scanner.ScanFolderOutline` states when, and `Scanner.UnlistableDirExamples` shows both cases.
- **The preview comes from the first ten lines only.** It holds the non-empty lines among the first ten lines (server.js:38). A file whose first ten lines are blank gets an empty preview. `Snippet.LaterLinesIgnored` shows it.
- **`split('content: |')[1]` ends at a second marker.** The system prompt stops at a second `content: |` if the template has one, as well as at `- role: user` (server.js:70).
- **A failed README write can leave a partial file.** `writeFileSync` opens `README.md` for writing, which empties it, before it writes (src/core/ipc-handlers.js:120). A write that fails after that leaves a prefix of the text and loses the old README. `Client.Handled` states it.

## Model

| member | source | states |
|---|---|---|
| Text.SplitOn | server.js:38 | `split` on one character gives at least one piece, and no piece contains the separator |
| Text.JoinSplit | server.js:38 | joining the pieces of a split with the same separator gives back the original text |
| Text.SplitJoin | server.js:38 | splitting a join of separator-free pieces gives back the pieces |
| Text.Before | server.js:70 | `split(m)[0]` is a prefix of the text without the marker; it ends where a marker starts and no marker starts earlier, so it stops at the first one (the whole text when there is none) |
| Text.After | server.js:70 | the text after the first marker exists exactly when the marker occurs, and prefix + marker + rest is the original |
| Text.AfterDecomposes | server.js:70 | for a text built as prefix, marker, rest, with no earlier marker, `Before` and `After` return exactly prefix and rest |
| Text.Trim | server.js:70 | `trim` yields a stretch of the input with no white space at either end, and only white space is cut |
| Text.TrimTrimmed | server.js:70 | trimming an already-trimmed text changes nothing |
| Text.TrimIdempotent | server.js:70 | trimming twice is trimming once |
| Text.TrimIgnoresSpace | server.js:70 | white space added at either end of a text does not change what `trim` keeps of it |
| Text.Join | server.js:38 | `join(c)` puts the first piece first and keeps every piece whole inside the result; with `Text.SplitJoin`, splitting gives the pieces back |
| Text.ConcatAppend | server.js:92-93 | concatenation of chunk lists distributes over appending the lists |
| Text.ConcatHasPart | server.js:92-93 | every chunk appears as a stretch of the concatenation |
| Text.Find | server.js:70 | the search finds an occurrence exactly when the marker occurs, and it is the first one |
| Snippet.StripCR | server.js:38 | a piece ending in `\r` loses exactly that one `\r`; any other piece is unchanged |
| Snippet.SplitLines | server.js:38 | `split(/\r?\n/)` gives one line per `\n`-piece; a piece followed by a line break loses its final `\r` exactly when it ends in one, the last piece is kept as it is, and no line contains `\n` |
| Snippet.HeadLines | server.js:38 | `slice(0, 10)` is a prefix of the lines, at most ten long, all of them when there are ten or fewer |
| Snippet.NonEmpty | server.js:38 | `filter(Boolean)` keeps exactly the non-empty lines and is never longer than its input |
| Snippet.NonEmptyOne | server.js:38 | one line is kept exactly when it is non-empty |
| Snippet.NonEmptyAppend | server.js:38 | filtering two stretches one after the other is filtering them together, so order and repeats are kept |
| Snippet.Snippet | server.js:38 | the preview is empty exactly when no kept line is left, and otherwise splitting it at `\n` gives back the kept lines |
| Snippet.SnippetShape | server.js:38 | a non-empty preview has at most ten lines, none empty, each one of the file's first ten lines |
| Snippet.LaterLinesIgnored | server.js:38 | ten blank lines followed by `x` give an empty preview |
| Snippet.CrLfBreak | server.js:38 | `a\r\nb` previews as `a\nb` |
| Scanner.Accept | server.js:34-44 | a read file adds one to the file count and its size to the byte total; its entry is appended when its preview could be made, and nothing is appended when that threw |
| Scanner.Recurse | server.js:24-47 | a completed walk keeps the entries found so far as a prefix, never lowers a counter, adds no more entries than files it counted, and never takes the file count past the limit |
| Scanner.Loop | server.js:27-46 | the same for the walk over one directory's entries, including the `break` |
| Scanner.ScanFolderOutline | server.js:19-50 | the outline carries the root path; its entries are the previewed files among the reads the budget rule admits from the readable files in depth-first order; the scan fails exactly when the first unlistable directory in that order is reached with both budgets left, and the error names that directory |
| Scanner.Kept | server.js:38-44 | the outline never has more entries than files were read |
| Scanner.KeptAppend | server.js:38-44 | the entries kept from two stretches of reads are those of the first followed by those of the second |
| Scanner.KeptAll | server.js:38-43 | when every preview is made, every read is kept, with its path and size |
| Scanner.FirstUnlistable | server.js:27 | finds the first unlistable directory of a list, or reports that there is none |
| Scanner.FoldStopsAtFirst | server.js:25-27 | the flat walk fails exactly when it reaches the first unlistable directory with both budgets left, names that directory, and never fails without one |
| Scanner.EntriesAreFiles | server.js:34-43 | every entry kept from a listing is one of its readable files, with that file's path, byte count and the preview made from its bytes |
| Scanner.OutlineEntriesAreFiles | server.js:35-43 | every outline entry is a readable file of the tree, recorded with its relative path, its size and the preview of its bytes |
| Scanner.FoldAppend | server.js:24-47 | walking two stretches of items one after the other is walking their concatenation |
| Scanner.WalkIsFold | server.js:24-47 | the recursive walk of a directory equals the item-by-item walk of its depth-first listing |
| Scanner.LoopIsFold | server.js:27-46 | the loop over a directory's entries equals the item-by-item walk of their listing |
| Scanner.FoldAdmits | server.js:25-44 | when the walk completes, the counters grow by the number and total size of the reads the budget rule admits from the readable files, and the entries grow by the previewed ones among them |
| Scanner.FoldFails | server.js:27 | the walk fails only at an unlistable directory in the listing |
| Scanner.Admit | server.js:25-37 | the budget rule takes a prefix of the reads, each admitted while fewer than the file limit were taken and the earlier sizes totalled under the byte limit, and stops only when the reads run out or a limit is reached |
| Scanner.OutlineWithinBudget | server.js:16-17 | at most 200 files are read, each while the earlier ones totalled under 400 KB; reading stops only when a budget is spent or the files run out; the outline has no more entries than files read |
| Scanner.OvershootExample | server.js:33-37 | files of 10, 20 and 30 bytes against a 25-byte budget give two entries totalling 30 bytes |
| Scanner.CountedNotRecorded | server.js:35-44 | a 30-byte file whose preview throws still spends a 25-byte budget, so the outline is empty although a small file follows |
| Scanner.UnreadableFileSkipped | server.js:34-44 | a file that cannot be read is left out and the later files are still taken |
| Scanner.UnlistableDirExamples | server.js:25-27 | an unlistable directory reached with budget left fails the scan, and one reached after the budget is spent does not |
| Prompt.SystemPrompt | server.js:68-70 | the system prompt exists exactly when the template has `content: \|`, contains neither marker, has no white space at either end, and is a stretch of the template; which stretch, for every template, is stated by `ExtractsBody` and `ExtractsUnclosed` |
| Prompt.ExtractsBody | server.js:70 | a template laid out as preamble, `content: \|`, body, `- role: user`, and any tail (including a later `content: \|`) yields the trimmed body, when neither marker occurs before its place |
| Prompt.ExtractsUnclosed | server.js:70 | when no `- role: user` follows the first `content: \|` before the next `content: \|` or the end, the system prompt is the trimmed text up to there |
| Prompt.BlockScalarExample | server.js:70 | a system turn whose block-scalar body is `Hi` on an indented line, followed by a user turn, yields `Hi` |
| Prompt.FullPrompt | server.js:72 | the full prompt is the system prompt, then the separator, then the outline text |
| Prompt.SplitsBack | server.js:72 | cutting the full prompt at its first separator gives back the system prompt and the outline text |
| FileMap.Write | server.js:65 | after a write the path holds exactly the new content and every other path is unchanged |
| FileMap.Remove | server.js:87-90 | after cleanup no tracked path exists, a tracked path already gone is passed over, and every other path is unchanged |
| FileMap.RemoveTwice | server.js:101-104 | a second cleanup, as when `close` follows `error`, changes nothing |
| FileMap.RemoveForgets | server.js:107-111 | two file systems that agree outside the tracked paths are equal after cleanup |
| FileMap.WriteTwice | src/core/ipc-handlers.js:120 | writing the same README twice leaves what writing it once leaves |
| Server.FrameCarriesText | server.js:92-93 | one `data` write ends with the event's text, and only stderr puts anything before it |
| Server.Frames | server.js:92-93 | one frame per output event, in order |
| Server.Relay | server.js:92-93 | the response body is the in-order concatenation of the output frames |
| Server.RelaySplits | server.js:92-93 | the body of two stretches of output is the first body followed by the second |
| Server.StdoutVerbatim | server.js:92 | stdout-only output reaches the body unchanged and in order |
| Server.StderrTagged | server.js:93 | every stderr text is in the body behind `[GEMINI_STDERR] ` |
| Server.Instructions | server.js:68-70 | the system prompt is available exactly when the template was read and contains `content: \|`, and it is a trimmed stretch of the template; which stretch is stated by `InstructionsFromLayout` and `InstructionsUnclosed` |
| Server.InstructionsFromLayout | server.js:68-70 | a template laid out as preamble, `content: \|`, body, `- role: user`, tail gives the trimmed body |
| Server.InstructionsUnclosed | server.js:68-70 | a template with no `- role: user` between its first `content: \|` and the next one (or the end) gives the trimmed text in between |
| Server.Scan | server.js:63 | a successful scan carries the folder as its root and at most 200 entries |
| Server.ScanRecordsSnippets | server.js:35-43 | every outline entry is a readable file whose UTF-8 decoding succeeded, with its relative path, its byte length and the snippet of its text |
| Server.Prepare | server.js:61-76 | only the two temporary paths may be created; nothing else changes; the stage is ready exactly when the scan succeeded, both writes succeeded and the template yields a system prompt; then both files are in place and the prompt is the assembled one |
| Server.Stream | server.js:81-105 | once the response ends, the temporary files are gone and nothing else changed; a started child gives 200 with the relayed output; a failed spawn gives 500 `Failed to start Gemini process.` |
| Server.Respond | server.js:61-112 | after an exception or the child's end, every assigned temporary path is removed and nothing else changed; the status is 200 exactly when the child started, and then the body is the relayed output; an exception gives 500 `Error during README generation.` and a failed spawn gives 500 `Failed to start Gemini process.` |
| Server.Generate | server.js:52-56 | a missing or empty `folderPath` gets 400 `folderPath is required`, with no file touched and nothing assigned |
| Server.StatusTellsOutcome | server.js:52-105 | only the two temporary paths are ever assigned; the reply is 200 exactly when a folder was given, preparation succeeded and the child started, and then it carries the relayed output |
| Server.CleanupOnEveryExit | server.js:87-111 | on every way the request ends, no assigned temporary path is left and every other path is as before |
| Server.SpawnFailureLeavesNothing | server.js:101-105 | a child that cannot be started gives a 500 and leaves neither temporary file |
| Server.UnlistableFolderFails | server.js:107-111 | a folder the scan cannot list (the unguarded `readdirSync` at server.js:27) gives 500 `Error during README generation.`, assigns no temporary path and changes no file |
| Server.MissingMarkerCleansUp | server.js:70 | a template without `content: \|` gives a 500 after the outline file was written, and that file is removed |
| Client.OpenDialog | src/core/ipc-handlers.js:80-89 | the dialog yields a path exactly when it was not cancelled and returned one, and then it is the first path chosen |
| Client.ReadmePath | src/core/ipc-handlers.js:119 | the README path is the folder path followed by `/README.md` |
| Client.ChunkEvents | src/core/ipc-handlers.js:116 | one chunk event per chunk, in order |
| Client.ChunksThenError | src/core/ipc-handlers.js:123-126 | forwarded chunks followed by an error box form a failed call's event list |
| Client.Handled | src/core/ipc-handlers.js:91-127 | on success, every chunk is forwarded in order, then the README path, and the README holds the concatenated chunks. On failure the call ends with one error box: an unreachable server, a broken read (before or after the chunks forwarded so far) and a failed write each give `IPC Error` with the thrown message; a non-2xx reply gives `Server Error` with its text. A failure changes no file, except that a write failing after the open leaves a prefix of the text in the README and changes nothing else |
| Client.FolderSelected | src/core/ipc-handlers.js:107-121 | the read loop, buffering and forwarding one chunk per round, does what `Handled` describes |
| Client.ShownChunks | src/core/ipc-handlers.js:111-117 | the text shown in the window is the concatenation of the forwarded chunks |
| Client.PreviewIsReadme | src/core/ipc-handlers.js:111-121 | on success, the README holds exactly the text that was streamed into the window |
| Client.RerunOverwrites | src/core/ipc-handlers.js:119-120 | selecting the same folder again with the same answer leaves the same files: the README is overwritten, not appended to |
| Client.DoneOnlyOnSuccess | src/core/ipc-handlers.js:119-121 | `readme:done` is sent once, last, and only on success |
| Pipeline.Delivered | src/core/ipc-handlers.js:101 | `response.ok` holds exactly for a 2xx status |
| Pipeline.ReadmeIsRelayedOutput | server.js:92-98 | for a 200 reply, the README the desktop writes is the relayed output however the body was chunked, and every stderr text is in it behind its tag |
| Pipeline.MissingFolderShown | server.js:54-56 | a request with an empty folder path becomes a server-error box with the server's text, and no file changes on either side |
| Pipeline.RelayExample | server.js:92-93 | stdout `# T\n` then stderr `warn` relay as `# T\n[GEMINI_STDERR] warn` |
| Pipeline.StderrLandsInReadme | server.js:93 | that run's README is `# T\n[GEMINI_STDERR] warn` |

## Left out

- The Electron window, preload script and renderer are not part of this model. Neither is the application's startup in main.js.
- Process and network I/O is not modelled: `express`, CORS, the listening port, response headers and console logging. The command line built at server.js:79 is only handed to the shell. The child's events are given as a `Server.Run`.
- `buf.toString('utf8')` and `JSON.stringify(outline, null, 2)` are parameters (`World.decode`, `World.render`). The decoder may fail, as `toString` does for a buffer longer than the engine's longest string. When it fails is left to the parameter. Its own behaviour, including replacement of invalid UTF-8, is not modelled.
- Client.Handled: a write that breaks off leaves a prefix of the text counted in characters. A character cut in the middle of its UTF-8 bytes is not modelled.
- Server.Run: an event's text stands for the child's output already decoded. Stdout goes out as raw bytes (server.js:92) and is decoded by the desktop's streaming decoder. Stderr is decoded chunk by chunk by `${data}` (server.js:93), so a multi-byte character split across two stderr chunks reaches the body as U+FFFD. Neither decoding is modelled.
- The streaming `TextDecoder` on the desktop side is not modelled. Chunks arrive already decoded. The source never makes a final flushing `decode()` call, so a multi-byte character split at the very end of the stream would be lost. The model cannot show this because it works on text.
- `Date.now()` file names, `os.tmpdir()`, `__dirname` and reading the template file are parameters of `Server.World`. Reading the outline back (server.js:71) is taken to return what was just written.
- Concurrent requests are not modelled. Neither are two requests in the same millisecond sharing file names, or interleaving with other processes.
- Directory listing order is whatever the tree's sequence gives. It is platform-dependent in the source.
- File types are reduced to directories and files. Everything that is not a directory is read as a file, as the source does. A symbolic link is not a directory to `Dirent.isDirectory()`, so a link to a directory takes the file branch, `readFileSync` fails with EISDIR and the `catch` at server.js:44 skips it; links are therefore not modelled apart from files that fail to read.
- The `error` event is modelled only before any output. Node raises it when the shell cannot be started. A late `error` after output is not modelled: there `.send(...)` throws ERR_HTTP_HEADERS_SENT because headers were already sent, and nothing catches it inside the `error` listener (server.js:101-105).
- A `folderPath` that is not a string is not modelled. That covers falsy values other than a missing field or `""` (`0`, `false`, `null`), and truthy values that make `path.join` throw. The request body is `Option<string>`.
- A thrown `response.text()` on a non-2xx reply is modelled like a failed read, as an IPC error. The text itself is the concatenated chunks.
- Client.ReadmePath: models `path.join(folderPath, 'README.md')` as the folder followed by `/README.md`. Separator normalisation is not modelled.
- Server.Prepare: states the outline file's content only when the two temporary paths differ. They always differ in practice: one is in the OS temp directory and the other in the scanned folder.
- SystemPrompt: its own contract does not say which stretch of the template it returns. `Prompt.ExtractsBody` and `Prompt.ExtractsUnclosed` state it for the two layouts a template with `content: |` can have.
- Instructions: likewise, the stretch is stated by `Server.InstructionsFromLayout` and `Server.InstructionsUnclosed`.
- Server.Generate: for a non-empty folder, its contract only hands over to `Prepare`, `Scan`, `Instructions` and `Respond`. The properties are stated on those members and in `Server.StatusTellsOutcome` and `Server.CleanupOnEveryExit`.
- The failure of `unlinkSync` during cleanup is not modelled. Cleanup always removes what exists.
