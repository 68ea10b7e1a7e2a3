/** The desktop side (src/core/ipc-handlers.js:79-127): the folder picker,
    and the `folder:selected` handler that posts the folder to the local
    server, forwards the streamed answer to the window chunk by chunk,
    writes the whole answer to `README.md` in that folder and reports the
    path, or shows an error box.

    The network, the stream reader, the dialog and the window are passed in
    as what they deliver: the chunks already decoded to text, and where the
    exchange broke off, if it did. */
module Client {
  import opened Wrappers
  import opened Text
  import opened FileMap

  /** What `dialog.showOpenDialog` resolves to. */
  datatype DialogResult = DialogResult(canceled: bool, filePaths: seq<Path>)

  /** `folder:open-dialog`: the first chosen path, or `undefined` when the
      dialog was cancelled or came back with no path. */
  function OpenDialog(d: DialogResult): (r: Option<Path>)
    ensures r.Some? <==> !d.canceled && |d.filePaths| > 0
    ensures r.Some? ==> r.value == d.filePaths[0]
  {
    if d.canceled || |d.filePaths| == 0 then None else Some(d.filePaths[0])
  }

  /** What `fetch` and the body reader deliver for one request. */
  datatype Fetched =
    | Unreachable(message: string)       // `fetch` rejected
    | Answered(ok: bool,                  // `response.ok`: a 2xx status
               chunks: seq<string>,       // the body, as the reader hands it out
               broke: Option<string>)     // a read that rejected after those chunks

  /** `fs.writeFileSync` threw with `message`. It opens the file with
      flag `'w'`, which empties it, before it writes: `landed` is None when
      the open itself failed and nothing changed, and `Some(n)` when the
      file was opened and the write broke off after `n` characters. */
  datatype WriteFault = WriteFault(message: string, landed: Option<nat>)

  /** What the handler shows in the window. */
  datatype UiEvent =
    | Chunk(text: string)                 // `readme:chunk`
    | Done(path: Path)                    // `readme:done`
    | ErrorBox(title: string, message: string)

  /** The effect of one `folder:selected` call. */
  datatype Outcome = Outcome(ui: seq<UiEvent>, files: Files)

  const ServerErrorTitle: string := "Server Error"
  const ServerErrorPrefix: string := "An error occurred on the server: "
  const IpcErrorTitle: string := "IPC Error"
  const IpcErrorPrefix: string := "Failed to communicate with the local server: "

  /** `path.join(folderPath, 'README.md')`, for a folder path without a
      trailing separator. */
  function ReadmePath(folder: Path): (r: Path)
    ensures |r| > |folder| && r[..|folder|] == folder
    ensures r[|folder|..] == "/README.md"
  {
    folder + "/README.md"
  }

  function ChunkEvents(chunks: seq<string>): (r: seq<UiEvent>)
    ensures |r| == |chunks|
    ensures forall k :: 0 <= k < |chunks| ==> r[k] == Chunk(chunks[k])
  {
    seq(|chunks|, k requires 0 <= k < |chunks| => Chunk(chunks[k]))
  }

  /** The text a reader of the window has seen streamed in: the chunk
      events' texts, in order, whatever else was shown in between. */
  function Shown(ui: seq<UiEvent>): string
  {
    if |ui| == 0 then ""
    else if ui[|ui| - 1].Chunk? then Shown(ui[..|ui| - 1]) + ui[|ui| - 1].text
    else Shown(ui[..|ui| - 1])
  }

  /** Chunks, then one error box, and nothing else. */
  predicate EndsInError(ui: seq<UiEvent>)
  {
    && |ui| > 0 && ui[|ui| - 1].ErrorBox?
    && forall k :: 0 <= k < |ui| - 1 ==> ui[k].Chunk?
  }

  lemma ChunksThenError(chunks: seq<string>, title: string, message: string)
    ensures EndsInError(ChunkEvents(chunks) + [ErrorBox(title, message)])
  {
    var ui := ChunkEvents(chunks) + [ErrorBox(title, message)];
    assert forall k :: 0 <= k < |ui| - 1 ==> ui[k] == Chunk(chunks[k]);
  }

  /** Whether the call ends with the README written. */
  predicate Succeeds(fetched: Fetched, writeError: Option<WriteFault>)
  {
    fetched.Answered? && fetched.ok && fetched.broke.None? && writeError.None?
  }

  /** Whether the call fails after `writeFileSync` opened the README. */
  predicate Truncates(fetched: Fetched, writeError: Option<WriteFault>)
  {
    fetched.Answered? && fetched.ok && fetched.broke.None? && writeError.Some? && writeError.value.landed.Some?
  }

  /** What a write that broke off after `n` characters leaves of `text`. */
  function Landed(text: string, n: nat): (r: string)
    ensures r <= text
  {
    if n <= |text| then text[..n] else text
  }

  /** What `folder:selected` does for `folder`, given what the network
      delivered and whether writing `README.md` throws. On success the
      window receives every chunk, in order, then the README's path, and
      the README holds exactly the streamed text. On any failure the call
      ends with exactly one error box: the server's text for a non-2xx
      answer, the thrown message otherwise; chunks already forwarded stay
      forwarded. A failure changes no file, except that a write which broke
      off after opening the README leaves there a prefix of the text. */
  function Handled(folder: Path, fetched: Fetched, writeError: Option<WriteFault>, files: Files)
    : (r: Outcome)
    ensures Succeeds(fetched, writeError) ==>
              && r.ui == ChunkEvents(fetched.chunks) + [Done(ReadmePath(folder))]
              && r.files == Write(files, ReadmePath(folder), Concat(fetched.chunks))
    ensures !Succeeds(fetched, writeError) ==> EndsInError(r.ui)
    ensures !Succeeds(fetched, writeError) && !Truncates(fetched, writeError) ==> r.files == files
    ensures Truncates(fetched, writeError) ==>
              && ReadmePath(folder) in r.files
              && r.files[ReadmePath(folder)] <= Concat(fetched.chunks)
              && SameOutside(files, r.files, {ReadmePath(folder)})
    ensures fetched.Answered? && fetched.ok ==> ChunkEvents(fetched.chunks) <= r.ui
    ensures fetched.Answered? && fetched.ok && fetched.broke.Some? ==>
              r.ui == ChunkEvents(fetched.chunks) + [ErrorBox(IpcErrorTitle, IpcErrorPrefix + fetched.broke.value)]
    ensures fetched.Answered? && fetched.ok && fetched.broke.None? && writeError.Some? ==>
              r.ui == ChunkEvents(fetched.chunks) + [ErrorBox(IpcErrorTitle, IpcErrorPrefix + writeError.value.message)]
    ensures fetched.Answered? && !fetched.ok && fetched.broke.None? ==>
              r.ui == [ErrorBox(ServerErrorTitle, ServerErrorPrefix + Concat(fetched.chunks))]
    ensures fetched.Answered? && !fetched.ok && fetched.broke.Some? ==>
              r.ui == [ErrorBox(IpcErrorTitle, IpcErrorPrefix + fetched.broke.value)]
    ensures fetched.Unreachable? ==> r.ui == [ErrorBox(IpcErrorTitle, IpcErrorPrefix + fetched.message)]
  {
    match fetched
    case Unreachable(m) => Outcome([ErrorBox(IpcErrorTitle, IpcErrorPrefix + m)], files)
    case Answered(ok, chunks, broke) =>
      if !ok then
        match broke
        case Some(m) => Outcome([ErrorBox(IpcErrorTitle, IpcErrorPrefix + m)], files)
        case None => Outcome([ErrorBox(ServerErrorTitle, ServerErrorPrefix + Concat(chunks))], files)
      else
        match broke
        case Some(m) =>
          ChunksThenError(chunks, IpcErrorTitle, IpcErrorPrefix + m);
          Outcome(ChunkEvents(chunks) + [ErrorBox(IpcErrorTitle, IpcErrorPrefix + m)], files)
        case None =>
          var readme, text := ReadmePath(folder), Concat(chunks);
          match writeError
          case None =>
            Outcome(ChunkEvents(chunks) + [Done(readme)], Write(files, readme, text))
          case Some(WriteFault(m, landed)) =>
            ChunksThenError(chunks, IpcErrorTitle, IpcErrorPrefix + m);
            var ui := ChunkEvents(chunks) + [ErrorBox(IpcErrorTitle, IpcErrorPrefix + m)];
            match landed
            case None => Outcome(ui, files)
            case Some(n) => Outcome(ui, Write(files, readme, Landed(text, n)))
  }

  /** The handler as written: the `while (true)` loop reads one chunk per
      round, appends it to the buffer and sends it to the window; after the
      last chunk the buffer is written and the path reported. It does what
      `Handled` describes. */
  method FolderSelected(folder: Path, fetched: Fetched, writeError: Option<WriteFault>, files: Files)
    returns (r: Outcome)
    ensures r == Handled(folder, fetched, writeError, files)
  {
    if fetched.Unreachable? {
      return Outcome([ErrorBox(IpcErrorTitle, IpcErrorPrefix + fetched.message)], files);
    }
    var chunks := fetched.chunks;
    if !fetched.ok {
      if fetched.broke.Some? {
        return Outcome([ErrorBox(IpcErrorTitle, IpcErrorPrefix + fetched.broke.value)], files);
      }
      return Outcome([ErrorBox(ServerErrorTitle, ServerErrorPrefix + Concat(chunks))], files);
    }
    var buffer := "";
    var sent: seq<UiEvent> := [];
    var i := 0;
    while i < |chunks|
      invariant 0 <= i <= |chunks|
      invariant buffer == Concat(chunks[..i])
      invariant sent == ChunkEvents(chunks[..i])
    {
      var chunk := chunks[i];
      assert chunks[..i + 1][..i] == chunks[..i];
      buffer := buffer + chunk;
      sent := sent + [Chunk(chunk)];
      i := i + 1;
    }
    assert chunks[..i] == chunks;
    if fetched.broke.Some? {
      return Outcome(sent + [ErrorBox(IpcErrorTitle, IpcErrorPrefix + fetched.broke.value)], files);
    }
    var readme := ReadmePath(folder);
    if writeError.Some? {
      var fault := writeError.value;
      var left := if fault.landed.Some? then Write(files, readme, Landed(buffer, fault.landed.value)) else files;
      return Outcome(sent + [ErrorBox(IpcErrorTitle, IpcErrorPrefix + fault.message)], left);
    }
    return Outcome(sent + [Done(readme)], Write(files, readme, buffer));
  }

  /** The streamed preview is the README: only chunk events contribute to
      what is shown, so an event list of chunks followed by anything else
      shows exactly the chunks' text. */
  lemma {:induction false} ShownChunks(chunks: seq<string>, tail: seq<UiEvent>)
    requires forall k :: 0 <= k < |tail| ==> !tail[k].Chunk?
    ensures Shown(ChunkEvents(chunks) + tail) == Concat(chunks)
    decreases |chunks| + |tail|
  {
    var ui := ChunkEvents(chunks) + tail;
    if |tail| > 0 {
      assert ui[..|ui| - 1] == ChunkEvents(chunks) + tail[..|tail| - 1];
      ShownChunks(chunks, tail[..|tail| - 1]);
    } else if |chunks| > 0 {
      assert ui[..|ui| - 1] == ChunkEvents(chunks[..|chunks| - 1]) + [];
      ShownChunks(chunks[..|chunks| - 1], []);
    }
  }

  /** What the window showed while the answer streamed in is what ended up
      in README.md; and a failed call shows only what it forwarded before
      failing. */
  lemma PreviewIsReadme(folder: Path, fetched: Fetched, writeError: Option<WriteFault>, files: Files)
    requires Succeeds(fetched, writeError)
    ensures var r := Handled(folder, fetched, writeError, files);
            && ReadmePath(folder) in r.files
            && r.files[ReadmePath(folder)] == Shown(r.ui)
  {
    ShownChunks(fetched.chunks, [Done(ReadmePath(folder))]);
  }

  /** Selecting the same folder again with the same answer leaves the same
      files: the README is overwritten, not appended to. */
  lemma RerunOverwrites(folder: Path, fetched: Fetched, writeError: Option<WriteFault>, files: Files)
    ensures var once := Handled(folder, fetched, writeError, files).files;
            Handled(folder, fetched, writeError, once).files == once
  {
    if Succeeds(fetched, writeError) {
      WriteTwice(files, ReadmePath(folder), Concat(fetched.chunks));
    } else if Truncates(fetched, writeError) {
      WriteTwice(files, ReadmePath(folder), Landed(Concat(fetched.chunks), writeError.value.landed.value));
    }
  }

  /** Exactly one `readme:done` is sent when the call succeeds, and none
      otherwise. */
  lemma DoneOnlyOnSuccess(folder: Path, fetched: Fetched, writeError: Option<WriteFault>, files: Files)
    ensures var r := Handled(folder, fetched, writeError, files);
            && (Succeeds(fetched, writeError) ==> r.ui[|r.ui| - 1] == Done(ReadmePath(folder)))
            && (forall k :: 0 <= k < |r.ui| - 1 ==> !r.ui[k].Done?)
            && (!Succeeds(fetched, writeError) ==> !r.ui[|r.ui| - 1].Done?)
  {
  }
}
