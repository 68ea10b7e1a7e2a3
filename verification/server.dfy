/** The `/generate-readme` handler (server.js:52-113), one request at a time.

    The handler scans the folder, writes the outline to a temporary file,
    builds the prompt from the template and writes it to a second temporary
    file inside the folder, then runs the generation tool and relays its
    output into the response. The two temporary paths are tracked from the
    moment they are assigned and removed on every way out: the child's
    `close`, the child's `error`, and any exception before the child runs.

    What the handler cannot see is passed in: the folder as the scan sees
    it, the template text, the two temporary names, which writes fail, the
    UTF-8 decoder, the JSON serialiser, and the child's events. */
module Server {
  import opened Wrappers
  import opened Text
  import opened FileMap
  import Scanner
  import Snippet
  import Prompt

  /** One `data` event of the child process. */
  datatype Output =
    | Out(text: string)    // stdout
    | Diag(text: string)   // stderr

  /** What the child process does, in an order Node.js can deliver: either
      it starts, emits output and possibly closes with an exit code, or it
      fails to start, which raises `error` before any output, possibly
      followed by `close`. */
  datatype Run =
    | Spawned(output: seq<Output>, exit: Option<int>)
    | SpawnFailed(closeFollows: bool)

  /** The HTTP response: status, the body written so far, and whether it
      was ended. */
  datatype Reply = Reply(status: nat, body: string, ended: bool)

  /** Everything the handler reads or calls that lies outside it. */
  datatype World = World(
    root: Scanner.Node,                   // the folder, for `scanFolderOutline`
    template: Option<string>,             // readme-prompt.yaml; None when reading throws
    outlinePath: Path,                    // os.tmpdir()/outline-<ms>.json
    promptPath: Path,                     // <folderPath>/prompt-<ms>.txt
    unwritable: set<Path>,                // paths where `writeFileSync` throws
    decode: Scanner.Bytes -> Option<string>,  // buf.toString('utf8'); None when it throws
    render: Scanner.Outline -> string)    // JSON.stringify(outline, null, 2)

  /** The end state of one request: the response, the written-to file
      system, the temporary paths that were assigned, and the prompt handed
      to the tool if it got that far. */
  datatype Session = Session(reply: Reply, files: Files, artifacts: set<Path>, prompt: Option<string>)

  const StderrTag: string := "[GEMINI_STDERR] "
  const MissingFolder: string := "folderPath is required"
  const GenerationFailed: string := "Error during README generation."
  const SpawnFailure: string := "Failed to start Gemini process."

  /* ---------------------------------------------------------------- */
  /* Relaying the child's output                                       */
  /* ---------------------------------------------------------------- */

  /** What one `data` event writes to the response: stdout as is, stderr
      behind a marker. */
  function Frame(o: Output): string
  {
    match o
    case Out(t) => t
    case Diag(t) => StderrTag + t
  }

  /** A frame ends with the event's text, and only stderr adds anything in
      front of it. */
  lemma FrameCarriesText(o: Output)
    ensures var r := Frame(o);
            && |r| >= |o.text| && r[|r| - |o.text|..] == o.text
            && (r == o.text <==> o.Out?)
  {
    if o.Diag? {
      assert |Frame(o)| == |StderrTag| + |o.text|;
    }
  }

  function Frames(outs: seq<Output>): (r: seq<string>)
    ensures |r| == |outs|
    ensures forall k :: 0 <= k < |outs| ==> r[k] == Frame(outs[k])
  {
    if |outs| == 0 then [] else Frames(outs[..|outs| - 1]) + [Frame(outs[|outs| - 1])]
  }

  /** The `data` handlers appending to the response body, one event at a
      time, as the events arrive: the body after the last event is the body
      before it with that event's frame appended. */
  function Relay(body: string, outs: seq<Output>): (r: string)
    ensures r == body + Concat(Frames(outs))
    decreases |outs|
  {
    if |outs| == 0 then body
    else
      var n := |outs| - 1;
      var earlier := Relay(body, outs[..n]);
      var fs := Frames(outs);
      assert fs == Frames(outs[..n]) + [Frame(outs[n])];
      assert fs[..n] == Frames(outs[..n]);
      assert Concat(fs) == Concat(fs[..n]) + fs[n];
      assert (body + Concat(fs[..n])) + fs[n] == body + (Concat(fs[..n]) + fs[n]);
      earlier + Frame(outs[n])
  }

  /** Relaying is order-preserving and compositional: the body for two
      stretches of events is the body of the first followed by that of the
      second. */
  lemma RelaySplits(a: seq<Output>, b: seq<Output>)
    ensures Relay("", a + b) == Relay("", a) + Relay("", b)
  {
    assert Frames(a + b) == Frames(a) + Frames(b);
    ConcatAppend(Frames(a), Frames(b));
  }

  /** Stdout-only output reaches the body unmodified: the body is the
      in-order concatenation of what the child printed. */
  lemma StdoutVerbatim(outs: seq<Output>)
    requires forall k :: 0 <= k < |outs| ==> outs[k].Out?
    ensures Relay("", outs) == Concat(seq(|outs|, k requires 0 <= k < |outs| => outs[k].text))
  {
    assert Frames(outs) == seq(|outs|, k requires 0 <= k < |outs| => outs[k].text);
  }

  /** Every stderr text is in the body, behind the marker. */
  lemma StderrTagged(outs: seq<Output>, k: nat)
    requires k < |outs| && outs[k].Diag?
    ensures IsInfix(StderrTag + outs[k].text, Relay("", outs))
  {
    var fs := Frames(outs);
    assert fs[k] == StderrTag + outs[k].text;
    ConcatHasPart(fs, k);
    assert Relay("", outs) == Concat(fs);
  }

  /* ---------------------------------------------------------------- */
  /* The handler                                                       */
  /* ---------------------------------------------------------------- */

  /** How far the synchronous part of the handler (the `try` block up to the
      spawn) got: either it threw, with the files written and the paths
      assigned so far, or the prompt file is in place. */
  datatype Stage =
    | Threw(files: Files, artifacts: set<Path>)
    | Ready(files: Files, artifacts: set<Path>, prompt: string)

  /** server.js:38: the preview of a file's decoded text, or None when
      decoding threw. */
  function Previewed(text: Option<string>): Option<string>
  {
    match text
    case None => None
    case Some(t) => Some(Snippet.Snippet(t))
  }

  /** server.js:63: the outline of the requested folder, under the
      server's limits, each file previewed from its UTF-8 decoding. */
  function Scan(folder: Path, w: World): (r: Result<Scanner.Outline, Scanner.ScanError>)
    ensures r.Ok? ==> r.value.root == folder && |r.value.files| <= Scanner.Limits.maxFiles
  {
    var preview := bytes => Previewed(w.decode(bytes));
    var r := Scanner.ScanFolderOutline(Scanner.Limits, preview, folder, w.root);
    if r.Ok? then Scanner.OutlineWithinBudget(Scanner.Limits, preview, folder, w.root); r else r
  }

  /** Every file in the outline is a readable file of the folder whose
      UTF-8 decoding succeeded, recorded with its relative path, its byte
      length and the snippet of its text. */
  lemma ScanRecordsSnippets(folder: Path, w: World, k: nat)
    requires Scan(folder, w).Ok? && k < |Scan(folder, w).value.files|
    ensures var e := Scan(folder, w).value.files[k];
            var items := Scanner.Flatten(w.root);
            exists j :: 0 <= j < |items| && items[j].Readable? && items[j].path == e.path
                        && e.size == |items[j].bytes|
                        && w.decode(items[j].bytes).Some?
                        && e.snippet == Snippet.Snippet(w.decode(items[j].bytes).value)
  {
    var preview := bytes => Previewed(w.decode(bytes));
    var e := Scan(folder, w).value.files[k];
    var items := Scanner.Flatten(w.root);
    Scanner.OutlineEntriesAreFiles(Scanner.Limits, preview, folder, w.root, k);
    var j :| 0 <= j < |items| && items[j].Readable? && items[j].path == e.path
             && e.size == |items[j].bytes| && preview(items[j].bytes) == Some(e.snippet);
    assert w.decode(items[j].bytes).Some?;
  }

  /** server.js:68-70: the system prompt the template yields, or None when
      reading the template or cutting the prompt out of it throws. */
  function Instructions(template: Option<string>): (r: Option<string>)
    ensures r.Some? <==> template.Some? && Contains(template.value, Prompt.Open)
    ensures r.Some? ==> IsTrimmed(r.value) && IsInfix(r.value, template.value)
  {
    match template
    case None => None
    case Some(yaml) =>
      match Prompt.SystemPrompt(yaml)
      case Err(_) => None
      case Ok(system) => Some(system)
  }

  /** A template laid out as preamble, `content: |`, body, `- role: user`,
      tail gives the trimmed body as the system prompt; so does one whose
      body runs up to the next `content: |` or the end. */
  lemma InstructionsFromLayout(pre: string, mid: string, post: string)
    requires NoneBefore(pre + Prompt.Open, Prompt.Open, |pre|)
    requires NoneBefore(mid + Prompt.Close + post, Prompt.Open, |mid| + |Prompt.Close|)
    requires NoneBefore(mid + Prompt.Close, Prompt.Close, |mid|)
    ensures Instructions(Some(pre + Prompt.Open + mid + Prompt.Close + post)) == Some(Trim(mid))
  {
    Prompt.ExtractsBody(pre, mid, post);
  }

  lemma InstructionsUnclosed(pre: string, mid: string, post: string)
    requires NoneBefore(pre + Prompt.Open, Prompt.Open, |pre|)
    requires post == [] || Prompt.Open <= post
    requires NoneBefore(mid + post, Prompt.Open, |mid|)
    requires !Contains(mid, Prompt.Close)
    ensures Instructions(Some(pre + Prompt.Open + mid + post)) == Some(Trim(mid))
  {
    Prompt.ExtractsUnclosed(pre, mid, post);
  }

  /** server.js:61-79: given the scan's outcome and the template's, write
      the outline, assemble and write the prompt. Each step may throw; each
      temporary path is tracked from its assignment on, before its write is
      attempted. */
  function Prepare(scan: Result<Scanner.Outline, Scanner.ScanError>, system: Option<string>, w: World, files: Files)
    : (r: Stage)
    ensures r.artifacts <= {w.outlinePath, w.promptPath}
    ensures SameOutside(files, r.files, r.artifacts)
    ensures r.Ready? <==>
              scan.Ok? && w.outlinePath !in w.unwritable && system.Some? && w.promptPath !in w.unwritable
    ensures r.Ready? ==>
              && r.artifacts == {w.outlinePath, w.promptPath}
              && w.outlinePath in r.files
              && (w.outlinePath != w.promptPath ==> r.files[w.outlinePath] == w.render(scan.value))
              && w.promptPath in r.files && r.files[w.promptPath] == r.prompt
              && r.prompt == Prompt.FullPrompt(system.value, w.render(scan.value))
  {
    match scan
    case Err(_) => Threw(files, {})
    case Ok(outline) =>
      if w.outlinePath in w.unwritable then Threw(files, {w.outlinePath})
      else
        var written := Write(files, w.outlinePath, w.render(outline));
        match system
        case None => Threw(written, {w.outlinePath})
        case Some(system) =>
          var prompt := Prompt.FullPrompt(system, written[w.outlinePath]);
          if w.promptPath in w.unwritable then Threw(written, {w.outlinePath, w.promptPath})
          else Ready(Write(written, w.promptPath, prompt), {w.outlinePath, w.promptPath}, prompt)
  }

  /** server.js:81-105: the child runs; its output is relayed; on `close`
      the response ends and `cleanup` runs; on `error` a 500 goes out and
      `cleanup` runs, and runs again if `close` follows. */
  function Stream(run: Run, files: Files, artifacts: set<Path>, prompt: string): (r: Session)
    ensures r.artifacts == artifacts && r.prompt == Some(prompt)
    ensures r.reply.ended <==> !(run.Spawned? && run.exit.None?)
    ensures r.reply.ended ==> r.files == Remove(files, artifacts)
    ensures !r.reply.ended ==> r.files == files
    ensures run.Spawned? ==> r.reply.status == 200 && r.reply.body == Relay("", run.output)
    ensures run.SpawnFailed? ==> r.reply == Reply(500, SpawnFailure, true)
  {
    match run
    case SpawnFailed(closeFollows) =>
      var once := Remove(files, artifacts);
      RemoveTwice(files, artifacts);
      Session(Reply(500, SpawnFailure, true), if closeFollows then Remove(once, artifacts) else once,
              artifacts, Some(prompt))
    case Spawned(outs, exit) =>
      var body := Relay("", outs);
      if exit.Some? then Session(Reply(200, body, true), Remove(files, artifacts), artifacts, Some(prompt))
      else Session(Reply(200, body, false), files, artifacts, Some(prompt))
  }

  /** The rest of the handler once the synchronous part is over. If it
      threw, the `catch` sends a 500 and cleans up; otherwise the child is
      started. Either way, once the response has ended the temporary paths
      are gone and every other path is as it was before the request; while
      the child still runs, the two temporary files are still there. The
      response is 200 exactly when the child was started, and then its body
      is the relayed output. */
  function Respond(stage: Stage, run: Run, files: Files): (r: Session)
    requires SameOutside(files, stage.files, stage.artifacts)
    ensures r.artifacts == stage.artifacts
    ensures r.reply.ended ==> r.files == Remove(files, r.artifacts)
    ensures !r.reply.ended ==>
              && stage.Ready? && run.Spawned? && run.exit.None?
              && r.files == stage.files
    ensures r.reply.status == 200 <==> stage.Ready? && run.Spawned?
    ensures r.reply.status == 200 ==> r.reply.body == Relay("", run.output)
    ensures r.reply.status != 200 ==> r.reply.ended && r.reply.body in {GenerationFailed, SpawnFailure}
    ensures stage.Threw? ==> r.reply == Reply(500, GenerationFailed, true)
    ensures stage.Ready? && run.SpawnFailed? ==> r.reply == Reply(500, SpawnFailure, true)
    ensures r.prompt.Some? <==> stage.Ready?
  {
    RemoveForgets(stage.files, files, stage.artifacts);
    match stage
    case Threw(written, tracked) =>
      Session(Reply(500, GenerationFailed, true), Remove(written, tracked), tracked, None)
    case Ready(written, tracked, prompt) =>
      Stream(run, written, tracked, prompt)
  }

  /** The whole handler for a request whose body carries `folderPath`
      (None when the field is missing). A missing or empty folder is turned
      away with 400 before anything is created; any other folder is
      scanned, the prompt prepared, and the rest left to `Respond`. */
  function Generate(folderPath: Option<Path>, w: World, run: Run, files: Files): (r: Session)
    ensures folderPath.None? || folderPath == Some("") ==>
              r == Session(Reply(400, MissingFolder, true), files, {}, None)
    ensures folderPath.Some? && folderPath.value != "" ==>
              r == Respond(Prepare(Scan(folderPath.value, w), Instructions(w.template), w, files), run, files)
  {
    match folderPath
    case None => Session(Reply(400, MissingFolder, true), files, {}, None)
    case Some(folder) =>
      if folder == "" then Session(Reply(400, MissingFolder, true), files, {}, None)
      else Respond(Prepare(Scan(folder, w), Instructions(w.template), w, files), run, files)
  }

  /** The status tells whether the tool ran: 200 exactly when the folder
      was given, the prompt file was written and the child started, and
      then the body is what the child printed, stderr tagged. Whatever
      happens, only the two temporary paths may have been assigned. */
  lemma StatusTellsOutcome(folderPath: Option<Path>, w: World, run: Run, files: Files)
    ensures var r := Generate(folderPath, w, run, files);
            && r.artifacts <= {w.outlinePath, w.promptPath}
            && (r.reply.status == 200 <==>
                  && folderPath.Some? && folderPath.value != "" && run.Spawned?
                  && Prepare(Scan(folderPath.value, w), Instructions(w.template), w, files).Ready?)
            && (r.reply.status == 200 ==> r.reply.body == Relay("", run.output))
  {
  }

  /** Cleanup is total: on every way the request can end (normal close,
      non-zero exit, spawn failure, an exception before the spawn) no
      temporary path that was assigned still exists, and nothing else was
      touched. */
  lemma CleanupOnEveryExit(folderPath: Option<Path>, w: World, run: Run, files: Files)
    requires !(run.Spawned? && run.exit.None?)
    ensures var r := Generate(folderPath, w, run, files);
            && r.reply.ended
            && (forall p :: p in r.artifacts ==> p !in r.files)
            && SameOutside(files, r.files, r.artifacts)
  {
  }

  /** A child that cannot be started: a 500 with no output, and both
      temporary files gone. */
  lemma SpawnFailureLeavesNothing(folder: Path, w: World, closeFollows: bool, files: Files)
    requires folder != "" && Prepare(Scan(folder, w), Instructions(w.template), w, files).Ready?
    ensures var r := Generate(Some(folder), w, SpawnFailed(closeFollows), files);
            && r.reply == Reply(500, SpawnFailure, true)
            && w.outlinePath !in r.files && w.promptPath !in r.files
  {
  }

  /** A template without `content: |` fails the request with a 500 after the
      outline file was written, and that file is removed again. */
  lemma MissingMarkerCleansUp(folder: Path, w: World, run: Run, files: Files)
    requires folder != ""
    requires Scan(folder, w).Ok?
    requires w.outlinePath !in w.unwritable
    requires w.template.Some? && !Contains(w.template.value, Prompt.Open)
    ensures var r := Generate(Some(folder), w, run, files);
            && r.reply == Reply(500, GenerationFailed, true)
            && r.artifacts == {w.outlinePath}
            && w.outlinePath !in r.files
  {
  }

  /** A folder the scan cannot list fails the request with a 500 before any
      temporary file is assigned, so every file is as it was. */
  lemma UnlistableFolderFails(folder: Path, w: World, run: Run, files: Files)
    requires folder != "" && Scan(folder, w).Err?
    ensures var r := Generate(Some(folder), w, run, files);
            && r.reply == Reply(500, GenerationFailed, true)
            && r.artifacts == {}
            && r.files == files
  {
  }
}
