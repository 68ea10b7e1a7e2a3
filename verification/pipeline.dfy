/** The two halves together: the desktop handler posts the folder, the
    server answers, and whatever the transport does to the body's chunking,
    the README the desktop writes is the server's body. */
module Pipeline {
  import opened Wrappers
  import opened Text
  import opened FileMap
  import Server
  import Client

  /** `response.ok`: the status is in the 2xx range. */
  predicate StatusOk(status: nat)
  {
    200 <= status < 300
  }

  /** What the desktop handler receives for a finished reply, delivered in
      `chunks`. */
  function Delivered(reply: Server.Reply, chunks: seq<string>): (r: Client.Fetched)
    ensures r.Answered? && r.chunks == chunks && r.broke.None?
    ensures r.ok <==> StatusOk(reply.status)
  {
    Client.Answered(StatusOk(reply.status), chunks, None)
  }

  /** The generated README is the generation tool's output as relayed by the
      server, stdout and tagged stderr interleaved in arrival order; every
      stderr text therefore ends up in the README behind its tag. */
  lemma {:induction false} ReadmeIsRelayedOutput(
    folder: Path, w: Server.World, run: Server.Run, files: Files, chunks: seq<string>, k: nat)
    requires folder != ""
    requires var r := Server.Generate(Some(folder), w, run, files);
             r.reply.status == 200 && r.reply.ended && Concat(chunks) == r.reply.body
    ensures var server := Server.Generate(Some(folder), w, run, files);
            var desktop := Client.Handled(folder, Delivered(server.reply, chunks), None, server.files);
            && Client.ReadmePath(folder) in desktop.files
            && desktop.files[Client.ReadmePath(folder)] == Server.Relay("", run.output)
            && (k < |run.output| && run.output[k].Diag? ==>
                  IsInfix(Server.StderrTag + run.output[k].text, desktop.files[Client.ReadmePath(folder)]))
  {
    Server.StatusTellsOutcome(Some(folder), w, run, files);
    if k < |run.output| && run.output[k].Diag? {
      Server.StderrTagged(run.output, k);
    }
  }

  /** An empty folder path, which `JSON.stringify` sends as `""`, is
      answered with 400, which the desktop shows as a server error carrying
      the server's text, and no file is created on either side. The desktop
      itself never sends it: its preload bridge drops an empty path before
      `folder:selected` runs (src/core/preload.js:24), so only another HTTP
      client reaches the server half, and the desktop half is unreachable
      from the app. */
  lemma MissingFolderShown(w: Server.World, run: Server.Run, files: Files, chunks: seq<string>)
    requires Concat(chunks) == Server.MissingFolder
    ensures var server := Server.Generate(Some(""), w, run, files);
            var desktop := Client.Handled("", Delivered(server.reply, chunks), None, server.files);
            && server.files == files
            && desktop.files == files
            && desktop.ui == [Client.ErrorBox(Client.ServerErrorTitle, Client.ServerErrorPrefix + Server.MissingFolder)]
  {
  }

  /** The body for the tool printing `# T` and warning `warn` on stderr. */
  lemma RelayExample()
    ensures Server.Relay("", [Server.Out("# T\n"), Server.Diag("warn")]) == "# T\n[GEMINI_STDERR] warn"
  {
    var outs := [Server.Out("# T\n"), Server.Diag("warn")];
    var fs := Server.Frames(outs);
    assert fs[0] == "# T\n";
    assert fs[1] == Server.StderrTag + "warn" == "[GEMINI_STDERR] warn";
    assert fs == ["# T\n", "[GEMINI_STDERR] warn"];
    assert Concat(["# T\n", "[GEMINI_STDERR] warn"]) == Concat(["# T\n"]) + "[GEMINI_STDERR] warn";
    assert Concat(["# T\n"]) == Concat([]) + "# T\n";
  }

  /** That run yields a README containing the warning. */
  lemma StderrLandsInReadme(folder: Path, w: Server.World, files: Files)
    requires folder != ""
    requires Server.Prepare(Server.Scan(folder, w), Server.Instructions(w.template), w, files).Ready?
    ensures var run := Server.Spawned([Server.Out("# T\n"), Server.Diag("warn")], Some(0));
            var server := Server.Generate(Some(folder), w, run, files);
            var desktop := Client.Handled(folder, Delivered(server.reply, [server.reply.body]), None, server.files);
            desktop.files[Client.ReadmePath(folder)] == "# T\n[GEMINI_STDERR] warn"
  {
    var run := Server.Spawned([Server.Out("# T\n"), Server.Diag("warn")], Some(0));
    var server := Server.Generate(Some(folder), w, run, files);
    Server.StatusTellsOutcome(Some(folder), w, run, files);
    assert Concat([server.reply.body]) == Concat([]) + server.reply.body;
    ReadmeIsRelayedOutput(folder, w, run, files, [server.reply.body], 0);
    RelayExample();
  }
}
