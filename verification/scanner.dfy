/** The bounded folder scanner `scanFolderOutline` (server.js:19-50; the copy
    at src/core/ipc-handlers.js:28-69 is the same code, token for token).

    The file system is an immutable tree. A file either reads to its bytes
    or fails to read; a directory either lists its entries (in the order the
    operating system returns them) or fails to list. The walk threads two
    counters, `fileCount` and `byteCount`, and checks them against the budget
    BEFORE it lists a directory and BEFORE it reads a file, so the byte total
    can end above the limit.

    A file that was read moves both counters before its preview is made
    (server.js:35-38). Making the preview can still throw (turning a buffer
    longer than the engine's longest string into text does), and the `catch`
    then drops the file: it is counted but not recorded.

    Besides the walk itself (`Recurse`/`Loop`, shaped like the source's
    nested function and `for` loop with its `break`), the module gives two
    independent descriptions and proves the walk equal to them:
    `Flatten` lists every file and directory failure in depth-first order,
    and `Admit` is the budget rule on a plain list of reads.

    How a file's bytes become its preview is the parameter `preview`, `None`
    when it throws: the server passes the UTF-8 decoding followed by
    `Snippet.Snippet` (server.js:38), see `Server.Scan`. */
module Scanner {
  import opened Wrappers

  type Bytes = seq<bv8>

  /** A path relative to the scanned root, as the chain of names leading to
      it (what `path.relative(rootDir, full)` spells with separators). */
  type RelPath = seq<string>

  datatype Node =
    | File(name: string, contents: Option<Bytes>)   // None: reading throws
    | Dir(name: string, listing: Listing)

  /** What `readdirSync` gives for a directory: its entries, or a throw. */
  datatype Listing = ListFails | Listed(entries: seq<Node>)

  datatype Budget = Budget(maxFiles: nat, maxBytes: nat)

  /** MAX_FILES and MAX_TOTAL_BYTES (server.js:16-17). */
  const Limits: Budget := Budget(200, 400 * 1024)

  datatype Entry = Entry(path: RelPath, size: nat, snippet: string)

  datatype Outline = Outline(root: string, files: seq<Entry>)

  /** One file that `readFileSync` read: its path, the length of the
      buffer, and its preview, `None` when making the preview threw. */
  datatype Read = Read(path: RelPath, size: nat, preview: Option<string>)

  /** The walk's state: the two counters and the entries pushed so far. */
  datatype Tally = Tally(fileCount: nat, byteCount: nat, files: seq<Entry>)

  /** `readdirSync` threw; nothing catches it, so the whole scan throws. */
  datatype ScanError = UnlistableDir(path: RelPath)

  function SumSizes(rs: seq<Read>): nat
  {
    if |rs| == 0 then 0 else rs[0].size + SumSizes(rs[1..])
  }

  lemma {:induction false} SumSizesAppend(a: seq<Read>, b: seq<Read>)
    ensures SumSizes(a + b) == SumSizes(a) + SumSizes(b)
    decreases |a|
  {
    if |a| == 0 {
      assert a + b == b;
    } else {
      assert (a + b)[1..] == a[1..] + b;
      SumSizesAppend(a[1..], b);
    }
  }

  /** The entries a list of reads leaves in the outline: one per read whose
      preview was made, in order. */
  function Kept(rs: seq<Read>): (r: seq<Entry>)
    ensures |r| <= |rs|
  {
    if |rs| == 0 then []
    else if rs[0].preview.Some? then [Entry(rs[0].path, rs[0].size, rs[0].preview.value)] + Kept(rs[1..])
    else Kept(rs[1..])
  }

  lemma {:induction false} KeptAppend(a: seq<Read>, b: seq<Read>)
    ensures Kept(a + b) == Kept(a) + Kept(b)
    decreases |a|
  {
    if |a| == 0 {
      assert a + b == b;
    } else {
      assert (a + b)[1..] == a[1..] + b;
      KeptAppend(a[1..], b);
    }
  }

  /** When every preview was made, the outline keeps every read, with its
      path and size. */
  lemma {:induction false} KeptAll(rs: seq<Read>)
    requires forall i :: 0 <= i < |rs| ==> rs[i].preview.Some?
    ensures |Kept(rs)| == |rs|
    ensures forall i :: 0 <= i < |rs| ==> Kept(rs)[i].path == rs[i].path && Kept(rs)[i].size == rs[i].size
    decreases |rs|
  {
    if |rs| > 0 {
      KeptAll(rs[1..]);
      assert forall i :: 1 <= i < |rs| ==> Kept(rs)[i] == Kept(rs[1..])[i - 1];
    }
  }

  /** The guard at server.js:25 and server.js:33. */
  predicate Exhausted(b: Budget, t: Tally)
  {
    t.fileCount >= b.maxFiles || t.byteCount >= b.maxBytes
  }

  /** What `readFileSync` and the preview give for a file that was read. */
  function ReadOf(preview: Bytes -> Option<string>, path: RelPath, bytes: Bytes): Read
  {
    Read(path, |bytes|, preview(bytes))
  }

  /** A successful read: both counters move, and the entry is pushed when
      its preview could be made; when that throws, the `catch` leaves the
      counters moved and the outline as it was. */
  function Accept(preview: Bytes -> Option<string>, t: Tally, path: RelPath, bytes: Bytes): (r: Tally)
    ensures r.fileCount == t.fileCount + 1 && r.byteCount == t.byteCount + |bytes|
    ensures preview(bytes).Some? ==> r.files == t.files + [Entry(path, |bytes|, preview(bytes).value)]
    ensures preview(bytes).None? ==> r.files == t.files
  {
    match preview(bytes)
    case None => Tally(t.fileCount + 1, t.byteCount + |bytes|, t.files)
    case Some(snippet) => Tally(t.fileCount + 1, t.byteCount + |bytes|, t.files + [Entry(path, |bytes|, snippet)])
  }

  /* ---------------------------------------------------------------- */
  /* The walk                                                          */
  /* ---------------------------------------------------------------- */

  /** What `readdirSync` sees for a node: a file cannot be listed. */
  function ListingOf(n: Node): Listing
  {
    match n
    case Dir(_, listing) => listing
    case File(_, _) => ListFails
  }

  /** `recurse(current)`: stop at once if a budget is spent, otherwise list
      the directory (a failure aborts the scan) and walk its entries. */
  function Recurse(b: Budget, preview: Bytes -> Option<string>, dir: RelPath,
                   listing: Listing, t: Tally): (r: Result<Tally, ScanError>)
    ensures r.Ok? ==> t.files <= r.value.files
    ensures r.Ok? ==> t.fileCount <= r.value.fileCount && t.byteCount <= r.value.byteCount
    ensures r.Ok? ==> |r.value.files| - |t.files| <= r.value.fileCount - t.fileCount
    ensures r.Ok? && t.fileCount <= b.maxFiles ==> r.value.fileCount <= b.maxFiles
    decreases listing
  {
    if Exhausted(b, t) then Ok(t)
    else match listing
      case ListFails => Err(UnlistableDir(dir))
      case Listed(entries) => Loop(b, preview, dir, entries, t)
  }

  /** The `for` loop over one directory's entries: a subdirectory is walked
      by `Recurse`; a file first meets the budget check, which `break`s out
      of this directory's loop, and is then read, a failed read being
      skipped with both counters unchanged. */
  function Loop(b: Budget, preview: Bytes -> Option<string>, dir: RelPath,
                entries: seq<Node>, t: Tally): (r: Result<Tally, ScanError>)
    ensures r.Ok? ==> t.files <= r.value.files
    ensures r.Ok? ==> t.fileCount <= r.value.fileCount && t.byteCount <= r.value.byteCount
    ensures r.Ok? ==> |r.value.files| - |t.files| <= r.value.fileCount - t.fileCount
    ensures r.Ok? && t.fileCount <= b.maxFiles ==> r.value.fileCount <= b.maxFiles
    decreases entries
  {
    if |entries| == 0 then Ok(t)
    else match entries[0]
      case Dir(name, listing) =>
        (match Recurse(b, preview, dir + [name], listing, t)
         case Err(e) => Err(e)
         case Ok(t') => Loop(b, preview, dir, entries[1..], t'))
      case File(name, contents) =>
        if Exhausted(b, t) then Ok(t)
        else match contents
          case None => Loop(b, preview, dir, entries[1..], t)
          case Some(bytes) => Loop(b, preview, dir, entries[1..], Accept(preview, t, dir + [name], bytes))
  }

  /** `scanFolderOutline(rootDir)`: the walk from the root with both
      counters at zero. The outline holds the previewed files among those
      the budget rule admits from the readable files in depth-first order.
      The scan fails exactly when the first unlistable directory of that
      order is reached with both budgets left, and it names that
      directory. */
  function ScanFolderOutline(b: Budget, preview: Bytes -> Option<string>, rootPath: string, root: Node)
    : (r: Result<Outline, ScanError>)
    ensures r.Ok? ==> r.value.root == rootPath
    ensures r.Ok? ==> r.value.files == Kept(Admit(b, 0, 0, Reads(preview, Flatten(root))))
    ensures var items := Flatten(root);
            var first := FirstUnlistable(items, 0);
            && (first.None? ==> r.Ok?)
            && (first.Some? ==>
                  (r.Err? <==> !Spent(b, 0, 0, Admit(b, 0, 0, Reads(preview, items[..first.value])))))
            && (r.Err? ==> first.Some? && r.error == UnlistableDir(items[first.value].path))
  {
    var start := Tally(0, 0, []);
    WalkIsFold(b, preview, [], ListingOf(root), start);
    FoldAdmits(b, preview, Flatten(root), start);
    FoldStopsAtFirst(b, preview, Flatten(root), start);
    match Recurse(b, preview, [], ListingOf(root), start)
    case Err(e) => Err(e)
    case Ok(t) => Ok(Outline(rootPath, t.files))
  }

  /* ---------------------------------------------------------------- */
  /* Reference: the depth-first list of everything the walk may touch  */
  /* ---------------------------------------------------------------- */

  datatype Item =
    | Readable(path: RelPath, bytes: Bytes)
    | Unreadable(path: RelPath)
    | Unlistable(path: RelPath)

  function FlattenDir(dir: RelPath, listing: Listing): seq<Item>
    decreases listing
  {
    match listing
    case ListFails => [Unlistable(dir)]
    case Listed(entries) => FlattenEntries(dir, entries)
  }

  function FlattenEntries(dir: RelPath, entries: seq<Node>): seq<Item>
    decreases entries
  {
    if |entries| == 0 then []
    else
      var head := match entries[0]
        case Dir(name, listing) => FlattenDir(dir + [name], listing)
        case File(name, contents) =>
          if contents.Some? then [Readable(dir + [name], contents.value)] else [Unreadable(dir + [name])];
      head + FlattenEntries(dir, entries[1..])
  }

  /** Every file and every unlistable directory under the root, in the order
      a depth-first walk of the listings meets them, each with its name
      chain from the root. */
  function Flatten(root: Node): seq<Item>
  {
    FlattenDir([], ListingOf(root))
  }

  /** The index of the first unlistable directory at or after `from`. */
  function FirstUnlistable(items: seq<Item>, from: nat): (r: Option<nat>)
    ensures r.Some? ==> from <= r.value < |items| && items[r.value].Unlistable?
    ensures r.Some? ==> forall j :: from <= j < r.value ==> !items[j].Unlistable?
    ensures r.None? ==> forall j :: from <= j < |items| ==> !items[j].Unlistable?
    decreases |items| - from
  {
    if from >= |items| then None
    else if items[from].Unlistable? then Some(from)
    else FirstUnlistable(items, from + 1)
  }

  /** The reads the readable files would give, in list order. */
  function Reads(preview: Bytes -> Option<string>, items: seq<Item>): seq<Read>
  {
    if |items| == 0 then []
    else if items[0].Readable? then [ReadOf(preview, items[0].path, items[0].bytes)] + Reads(preview, items[1..])
    else Reads(preview, items[1..])
  }

  /** The budget logic alone, on the flat list: stop once a budget is spent,
      skip unreadable files, abort on an unlistable directory. */
  function Fold(b: Budget, preview: Bytes -> Option<string>, items: seq<Item>, t: Tally): Result<Tally, ScanError>
    decreases |items|
  {
    if |items| == 0 || Exhausted(b, t) then Ok(t)
    else match items[0]
      case Unlistable(p) => Err(UnlistableDir(p))
      case Unreadable(_) => Fold(b, preview, items[1..], t)
      case Readable(p, bytes) => Fold(b, preview, items[1..], Accept(preview, t, p, bytes))
  }

  /** Folding a list in two halves: the second half starts from where the
      first stopped, and a failure in the first half is final. */
  lemma {:induction false} FoldAppend(b: Budget, preview: Bytes -> Option<string>, xs: seq<Item>, ys: seq<Item>, t: Tally)
    ensures Fold(b, preview, xs + ys, t) ==
            match Fold(b, preview, xs, t)
            case Err(e) => Err(e)
            case Ok(t') => Fold(b, preview, ys, t')
    decreases |xs|
  {
    if |xs| == 0 {
      assert xs + ys == ys;
    } else if !Exhausted(b, t) {
      assert (xs + ys)[0] == xs[0];
      assert (xs + ys)[1..] == xs[1..] + ys;
      match xs[0]
      case Unlistable(p) =>
      case Unreadable(_) => FoldAppend(b, preview, xs[1..], ys, t);
      case Readable(p, bytes) => FoldAppend(b, preview, xs[1..], ys, Accept(preview, t, p, bytes));
    }
  }

  /** The nested walk with its `break` is the flat fold over the depth-first
      list: a `break` and a subdirectory skipped after the budget is spent
      leave the tally as it is, exactly as the fold ignores every item
      once the budget is spent. */
  lemma {:induction false} WalkIsFold(b: Budget, preview: Bytes -> Option<string>, dir: RelPath,
                                      listing: Listing, t: Tally)
    ensures Recurse(b, preview, dir, listing, t) == Fold(b, preview, FlattenDir(dir, listing), t)
    decreases listing
  {
    if !Exhausted(b, t) && listing.Listed? {
      LoopIsFold(b, preview, dir, listing.entries, t);
    }
  }

  lemma {:induction false} LoopIsFold(b: Budget, preview: Bytes -> Option<string>, dir: RelPath,
                                      entries: seq<Node>, t: Tally)
    ensures Loop(b, preview, dir, entries, t) == Fold(b, preview, FlattenEntries(dir, entries), t)
    decreases entries
  {
    if |entries| > 0 {
      var rest := entries[1..];
      match entries[0]
      case Dir(name, listing) =>
        var sub := FlattenDir(dir + [name], listing);
        WalkIsFold(b, preview, dir + [name], listing, t);
        FoldAppend(b, preview, sub, FlattenEntries(dir, rest), t);
        match Recurse(b, preview, dir + [name], listing, t) {
          case Err(e) =>
          case Ok(t') => LoopIsFold(b, preview, dir, rest, t');
        }
      case File(name, contents) =>
        var one := if contents.Some? then [Readable(dir + [name], contents.value)] else [Unreadable(dir + [name])];
        FoldAppend(b, preview, one, FlattenEntries(dir, rest), t);
        if !Exhausted(b, t) {
          if contents.Some? {
            var t' := Accept(preview, t, dir + [name], contents.value);
            assert Fold(b, preview, one, t) == Fold(b, preview, [], t');
            LoopIsFold(b, preview, dir, rest, t');
          } else {
            assert Fold(b, preview, one, t) == Fold(b, preview, [], t);
            LoopIsFold(b, preview, dir, rest, t);
          }
        }
    }
  }

  /* ---------------------------------------------------------------- */
  /* Reference: the budget rule on a plain list of reads               */
  /* ---------------------------------------------------------------- */

  /** Counting from `c` files and `y` bytes, the reads `rs` have spent a
      budget. */
  predicate Spent(b: Budget, c: nat, y: nat, rs: seq<Read>)
  {
    c + |rs| >= b.maxFiles || y + SumSizes(rs) >= b.maxBytes
  }

  /** Take reads while fewer than `maxFiles` have been taken and fewer
      than `maxBytes` bytes have been counted, starting from counts `c` and
      `y`. It is the longest prefix whose every read passed the check
      before it was made. */
  function Admit(b: Budget, c: nat, y: nat, es: seq<Read>): (r: seq<Read>)
    ensures r <= es
    ensures CheckedBefore(b, c, y, r)
    ensures |r| == |es| || Spent(b, c, y, r)
    decreases |es|
  {
    if |es| == 0 || c >= b.maxFiles || y >= b.maxBytes then []
    else
      var e := es[0];
      var rest := Admit(b, c + 1, y + e.size, es[1..]);
      var r := [e] + rest;
      CheckedBeforeEach(b, c, y, e, rest);
      SumSizesCons(e, rest);
      assert es == [e] + es[1..];
      assert r <= es;
      r
  }

  /** Every read of `r` passed the check before it was made: counting
      from `c` files and `y` bytes, the file count and the bytes of the
      reads before it were both under their limits. */
  predicate CheckedBefore(b: Budget, c: nat, y: nat, r: seq<Read>)
  {
    forall i :: 0 <= i < |r| ==> y + SumSizes(r[..i]) < b.maxBytes && c + i < b.maxFiles
  }

  /** A read that passed the check, followed by reads that passed it
      from the moved counts, all passed it. */
  lemma CheckedBeforeEach(b: Budget, c: nat, y: nat, e: Read, rest: seq<Read>)
    requires c < b.maxFiles && y < b.maxBytes
    requires CheckedBefore(b, c + 1, y + e.size, rest)
    ensures CheckedBefore(b, c, y, [e] + rest)
  {
    var r := [e] + rest;
    forall i | 0 <= i < |r|
      ensures y + SumSizes(r[..i]) < b.maxBytes && c + i < b.maxFiles
    {
      if i > 0 {
        var j := i - 1;
        assert (y + e.size) + SumSizes(rest[..j]) < b.maxBytes && (c + 1) + j < b.maxFiles;
        assert r[..i] == [e] + rest[..j];
        SumSizesCons(e, rest[..j]);
      } else {
        assert r[..i] == [];
      }
    }
  }

  lemma SumSizesCons(e: Read, es: seq<Read>)
    ensures SumSizes([e] + es) == e.size + SumSizes(es)
  {
    assert ([e] + es)[1..] == es;
  }

  /** The fold counts exactly what the budget rule admits from the
      readable files, and records the previewed ones among them. */
  lemma {:induction false} FoldAdmits(b: Budget, preview: Bytes -> Option<string>, items: seq<Item>, t: Tally)
    ensures var r := Fold(b, preview, items, t);
            var admitted := Admit(b, t.fileCount, t.byteCount, Reads(preview, items));
            r.Ok? ==>
              && r.value.files == t.files + Kept(admitted)
              && r.value.fileCount == t.fileCount + |admitted|
              && r.value.byteCount == t.byteCount + SumSizes(admitted)
    decreases |items|
  {
    if |items| == 0 || Exhausted(b, t) {
      assert t.files + [] == t.files;
    } else {
      var rest := items[1..];
      var rs := Reads(preview, rest);
      if items[0].Unreadable? {
        assert Fold(b, preview, items, t) == Fold(b, preview, rest, t);
        assert Reads(preview, items) == rs;
        FoldAdmits(b, preview, rest, t);
      } else if items[0].Readable? {
        var p, bytes := items[0].path, items[0].bytes;
        var t' := Accept(preview, t, p, bytes);
        assert Fold(b, preview, items, t) == Fold(b, preview, rest, t');
        assert Reads(preview, items) == [ReadOf(preview, p, bytes)] + rs;
        FoldAdmits(b, preview, rest, t');
        AcceptThenAdmit(b, preview, t, p, bytes, rs);
      }
    }
  }

  /** One read with budget left, then the rule from the moved counters, is
      the rule from the old counters. */
  lemma AcceptThenAdmit(b: Budget, preview: Bytes -> Option<string>, t: Tally, p: RelPath, bytes: Bytes, rs: seq<Read>)
    requires !Exhausted(b, t)
    ensures var rd := ReadOf(preview, p, bytes);
            var later := Admit(b, t.fileCount + 1, t.byteCount + |bytes|, rs);
            var admitted := Admit(b, t.fileCount, t.byteCount, [rd] + rs);
            && admitted == [rd] + later
            && Accept(preview, t, p, bytes).files + Kept(later) == t.files + Kept(admitted)
            && |admitted| == 1 + |later|
            && SumSizes(admitted) == |bytes| + SumSizes(later)
  {
    var rd := ReadOf(preview, p, bytes);
    var later := Admit(b, t.fileCount + 1, t.byteCount + |bytes|, rs);
    AdmitTakes(b, t.fileCount, t.byteCount, rd, rs);
    KeptAppend([rd], later);
    assert ([rd] + later)[1..] == later;
    assert [rd][1..] == [];
    SumSizesCons(rd, later);
  }

  /** With budget left, the rule takes the next read and counts it. */
  lemma AdmitTakes(b: Budget, c: nat, y: nat, e: Read, es: seq<Read>)
    requires c < b.maxFiles && y < b.maxBytes
    ensures Admit(b, c, y, [e] + es) == [e] + Admit(b, c + 1, y + e.size, es)
  {
    assert ([e] + es)[1..] == es;
  }

  /** The fold fails only on an unlistable directory of the list. */
  lemma {:induction false} FoldFails(b: Budget, preview: Bytes -> Option<string>, items: seq<Item>, t: Tally)
    ensures var r := Fold(b, preview, items, t);
            r.Err? ==> Unlistable(r.error.path) in items
    decreases |items|
  {
    if |items| > 0 && !Exhausted(b, t) {
      var rest := items[1..];
      match items[0]
      case Unlistable(p) =>
      case Unreadable(_) =>
        FoldFails(b, preview, rest, t);
      case Readable(p, bytes) =>
        FoldFails(b, preview, rest, Accept(preview, t, p, bytes));
    }
  }

  /** The fold runs without failing up to the first unlistable directory,
      and fails there exactly when neither budget is spent by then; a list
      without one never fails. */
  lemma FoldStopsAtFirst(b: Budget, preview: Bytes -> Option<string>, items: seq<Item>, t: Tally)
    ensures var r := Fold(b, preview, items, t);
            var first := FirstUnlistable(items, 0);
            && (first.None? ==> r.Ok?)
            && (first.Some? ==>
                  var admitted := Admit(b, t.fileCount, t.byteCount, Reads(preview, items[..first.value]));
                  (r.Err? <==> !Spent(b, t.fileCount, t.byteCount, admitted)))
            && (r.Err? ==> first.Some? && r.error == UnlistableDir(items[first.value].path))
  {
    var first := FirstUnlistable(items, 0);
    FoldFails(b, preview, items, t);
    if first.Some? {
      var k := first.value;
      var front, back := items[..k], items[k..];
      assert front + back == items;
      FoldAppend(b, preview, front, back, t);
      FoldFails(b, preview, front, t);
      assert Fold(b, preview, front, t).Ok?;
      FoldAdmits(b, preview, front, t);
      var t' := Fold(b, preview, front, t).value;
      assert back[0] == items[k];
      assert Fold(b, preview, items, t) == Fold(b, preview, back, t');
    }
  }

  /** Every entry kept from a list's reads describes a readable file of the
      list: its path, the number of bytes read and the preview of those
      bytes. */
  lemma {:induction false} EntriesAreFiles(preview: Bytes -> Option<string>, items: seq<Item>, k: nat)
    requires k < |Kept(Reads(preview, items))|
    ensures var e := Kept(Reads(preview, items))[k];
            exists j :: 0 <= j < |items| && items[j].Readable? && items[j].path == e.path
                        && e.size == |items[j].bytes| && preview(items[j].bytes) == Some(e.snippet)
    decreases |items|
  {
    var es := Kept(Reads(preview, items));
    var e := es[k];
    var rs := Reads(preview, items[1..]);
    var rest := Kept(rs);
    if items[0].Readable? {
      var rd := ReadOf(preview, items[0].path, items[0].bytes);
      assert Reads(preview, items) == [rd] + rs;
      assert ([rd] + rs)[1..] == rs;
      if rd.preview.Some? && k == 0 {
        assert es[0] == Entry(rd.path, rd.size, rd.preview.value);
        assert items[0].path == e.path && e.size == |items[0].bytes| && preview(items[0].bytes) == Some(e.snippet);
      } else {
        var k' := if rd.preview.Some? then k - 1 else k;
        assert es[k] == rest[k'];
        EntriesAreFilesStep(preview, items, k', e);
      }
    } else {
      assert Reads(preview, items) == rs;
      assert es[k] == rest[k];
      EntriesAreFilesStep(preview, items, k, e);
    }
  }

  /** The induction step of `EntriesAreFiles`: an entry of the tail's reads
      is an entry of the list's. */
  lemma {:induction false} EntriesAreFilesStep(preview: Bytes -> Option<string>, items: seq<Item>, k: nat, e: Entry)
    requires |items| > 0 && k < |Kept(Reads(preview, items[1..]))|
    requires e == Kept(Reads(preview, items[1..]))[k]
    ensures exists j :: 0 <= j < |items| && items[j].Readable? && items[j].path == e.path
                        && e.size == |items[j].bytes| && preview(items[j].bytes) == Some(e.snippet)
    decreases |items|, 0
  {
    EntriesAreFiles(preview, items[1..], k);
    var j :| 0 <= j < |items[1..]| && items[1..][j].Readable? && items[1..][j].path == e.path
             && e.size == |items[1..][j].bytes| && preview(items[1..][j].bytes) == Some(e.snippet);
    assert items[j + 1] == items[1..][j];
  }

  /* ---------------------------------------------------------------- */
  /* Consequences for the outline                                      */
  /* ---------------------------------------------------------------- */

  /** The outline obeys the budget as a pre-check: at most `maxFiles` files
      were read, every one of them while the earlier ones totalled less
      than `maxBytes`, the scan stopped reading only because the files ran
      out or a budget was reached, and the outline has at most as many
      entries as files were read. */
  lemma OutlineWithinBudget(b: Budget, preview: Bytes -> Option<string>, rootPath: string, root: Node)
    requires ScanFolderOutline(b, preview, rootPath, root).Ok?
    ensures var files := ScanFolderOutline(b, preview, rootPath, root).value.files;
            var admitted := Admit(b, 0, 0, Reads(preview, Flatten(root)));
            && files == Kept(admitted)
            && |files| <= |admitted| <= b.maxFiles
            && (forall i :: 0 <= i < |admitted| ==> SumSizes(admitted[..i]) < b.maxBytes)
            && (|admitted| == |Reads(preview, Flatten(root))| || |admitted| >= b.maxFiles || SumSizes(admitted) >= b.maxBytes)
  {
    var admitted := Admit(b, 0, 0, Reads(preview, Flatten(root)));
    if |admitted| > 0 {
      var i := |admitted| - 1;
      assert 0 + SumSizes(admitted[..i]) < b.maxBytes && 0 + i < b.maxFiles;
    }
  }

  /** Every entry of an outline is a readable file of the tree, recorded
      with its relative path, its size and the preview of its bytes. */
  lemma OutlineEntriesAreFiles(b: Budget, preview: Bytes -> Option<string>, rootPath: string, root: Node, k: nat)
    requires ScanFolderOutline(b, preview, rootPath, root).Ok?
    requires k < |ScanFolderOutline(b, preview, rootPath, root).value.files|
    ensures var e := ScanFolderOutline(b, preview, rootPath, root).value.files[k];
            var items := Flatten(root);
            exists j :: 0 <= j < |items| && items[j].Readable? && items[j].path == e.path
                        && e.size == |items[j].bytes| && preview(items[j].bytes) == Some(e.snippet)
  {
    var rs := Reads(preview, Flatten(root));
    var admitted := Admit(b, 0, 0, rs);
    assert rs == admitted + rs[|admitted|..];
    KeptAppend(admitted, rs[|admitted|..]);
    assert Kept(admitted)[k] == Kept(rs)[k];
    EntriesAreFiles(preview, Flatten(root), k);
  }

  /** Sizes of 10, 20 and 30 bytes against a 25-byte budget: the first two
      files are taken (10 < 25 before the second read), the third is not
      (30 >= 25), and the outline totals 30 bytes, over the limit. */
  lemma {:induction false} OvershootExample(preview: Bytes -> Option<string>)
    requires forall bytes :: preview(bytes).Some?
    ensures var root := Dir("root", Listed([File("a", Some(seq(10, _ => 0))),
                                            File("b", Some(seq(20, _ => 0))),
                                            File("c", Some(seq(30, _ => 0)))]));
            var r := ScanFolderOutline(Budget(200, 25), preview, "/r", root);
            && r.Ok?
            && |r.value.files| == 2
            && r.value.files[0].path == ["a"] && r.value.files[1].path == ["b"]
            && r.value.files[0].size + r.value.files[1].size == 30
  {
    var a: Bytes := seq(10, _ => 0);
    var bb: Bytes := seq(20, _ => 0);
    var c: Bytes := seq(30, _ => 0);
    var nodes := [File("a", Some(a)), File("b", Some(bb)), File("c", Some(c))];
    var items := [Readable(["a"], a), Readable(["b"], bb), Readable(["c"], c)];
    FlattenThreeFiles(nodes, items);
    var rs := Reads(preview, items);
    var ra, rb, rc := ReadOf(preview, ["a"], a), ReadOf(preview, ["b"], bb), ReadOf(preview, ["c"], c);
    assert rs == [ra, rb, rc] by {
      assert Reads(preview, items[2..]) == [rc];
      assert Reads(preview, items[1..]) == [rb, rc];
    }
    var budget := Budget(200, 25);
    assert Admit(budget, 0, 0, rs) == [ra, rb] by {
      assert Admit(budget, 2, 30, [rc]) == [];
      assert Admit(budget, 1, 10, [rb, rc]) == [rb] + Admit(budget, 2, 30, [rc]);
    }
    KeptAll([ra, rb]);
  }

  /** A file counted but not recorded: when the first file's preview
      cannot be made, it still uses up the byte budget, so the outline ends
      up empty although a small readable file follows. */
  lemma {:induction false} CountedNotRecorded()
    ensures var preview := (bytes: Bytes) => if |bytes| > 20 then None else Some("");
            var root := Dir("root", Listed([File("big", Some(seq(30, _ => 0))), File("a", Some([1]))]));
            ScanFolderOutline(Budget(200, 25), preview, "/r", root) == Ok(Outline("/r", []))
  {
    var preview := (bytes: Bytes) => if |bytes| > 20 then None else Some("");
    var big: Bytes := seq(30, _ => 0);
    var nodes := [File("big", Some(big)), File("a", Some([1]))];
    var none: RelPath := [];
    FlattenFileFirst(none, nodes[1], []);
    FlattenFileFirst(none, nodes[0], [nodes[1]]);
    assert [nodes[1]] + [] == nodes[1..];
    assert [nodes[0]] + [nodes[1]] == nodes;
    assert none + ["big"] == ["big"] && none + ["a"] == ["a"];
    assert FlattenEntries(none, []) == [];
    var items := [Readable(["big"], big), Readable(["a"], [1])];
    assert Flatten(Dir("root", Listed(nodes))) == items;
    var rb, ra := ReadOf(preview, ["big"], big), ReadOf(preview, ["a"], [1]);
    assert Reads(preview, items) == [rb, ra] by {
      assert Reads(preview, items[1..]) == [ra];
    }
    var budget := Budget(200, 25);
    assert Admit(budget, 0, 0, [rb, ra]) == [rb] by {
      assert Admit(budget, 1, 30, [ra]) == [];
    }
    assert rb.preview == None;
    assert Kept([rb]) == Kept([]);
  }

  /** A file at the head of a listing flattens to one item in front of the
      rest. */
  lemma FlattenFileFirst(dir: RelPath, n: Node, rest: seq<Node>)
    requires n.File?
    ensures FlattenEntries(dir, [n] + rest)
         == [if n.contents.Some? then Readable(dir + [n.name], n.contents.value) else Unreadable(dir + [n.name])]
            + FlattenEntries(dir, rest)
  {
    assert ([n] + rest)[1..] == rest;
  }

  /** Three top-level files flatten to three items, in listing order. */
  lemma FlattenThreeFiles(nodes: seq<Node>, items: seq<Item>)
    requires |nodes| == 3 && |items| == 3
    requires forall k :: 0 <= k < 3 ==> nodes[k].File? && nodes[k].contents.Some?
    requires forall k :: 0 <= k < 3 ==> items[k] == Readable([nodes[k].name], nodes[k].contents.value)
    ensures Flatten(Dir("root", Listed(nodes))) == items
  {
    var none: RelPath := [];
    assert forall k :: 0 <= k < 3 ==> none + [nodes[k].name] == [nodes[k].name];
    FlattenFileFirst(none, nodes[2], []);
    FlattenFileFirst(none, nodes[1], [nodes[2]]);
    FlattenFileFirst(none, nodes[0], [nodes[1], nodes[2]]);
    assert [nodes[2]] + [] == nodes[2..];
    assert [nodes[1]] + [nodes[2]] == nodes[1..];
    assert [nodes[0]] + [nodes[1], nodes[2]] == nodes;
    assert FlattenEntries(none, []) == [];
  }

  /** A file that cannot be read is left out and the scan goes on. */
  lemma {:induction false} UnreadableFileSkipped(preview: Bytes -> Option<string>)
    requires forall bytes :: preview(bytes).Some?
    ensures var root := Dir("root", Listed([File("x", None), File("a", Some([1])), File("b", Some([2]))]));
            var r := ScanFolderOutline(Limits, preview, "/r", root);
            && r.Ok?
            && |r.value.files| == 2
            && r.value.files[0].path == ["a"] && r.value.files[1].path == ["b"]
  {
    var nodes := [File("x", None), File("a", Some([1])), File("b", Some([2]))];
    var items := [Unreadable(["x"]), Readable(["a"], [1]), Readable(["b"], [2])];
    var none: RelPath := [];
    assert forall k :: 0 <= k < 3 ==> none + [nodes[k].name] == [nodes[k].name];
    FlattenFileFirst(none, nodes[2], []);
    FlattenFileFirst(none, nodes[1], [nodes[2]]);
    FlattenFileFirst(none, nodes[0], [nodes[1], nodes[2]]);
    assert [nodes[2]] + [] == nodes[2..];
    assert [nodes[1]] + [nodes[2]] == nodes[1..];
    assert [nodes[0]] + [nodes[1], nodes[2]] == nodes;
    assert FlattenEntries(none, []) == [];
    assert Flatten(Dir("root", Listed(nodes))) == items;
    var ra, rb := ReadOf(preview, ["a"], [1]), ReadOf(preview, ["b"], [2]);
    assert Reads(preview, items) == [ra, rb] by {
      assert Reads(preview, items[2..]) == [rb];
      assert Reads(preview, items[1..]) == [ra, rb];
    }
    assert Admit(Limits, 0, 0, [ra, rb]) == [ra, rb] by {
      assert Admit(Limits, 2, 2, []) == [];
      assert Admit(Limits, 1, 1, [rb]) == [rb] + Admit(Limits, 2, 2, []);
    }
    KeptAll([ra, rb]);
  }

  /** A directory that cannot be listed aborts the scan while budget
      remains, but is never listed once a budget is spent. */
  lemma {:induction false} UnlistableDirExamples(preview: Bytes -> Option<string>)
    ensures ScanFolderOutline(Limits, preview, "/r",
              Dir("root", Listed([Dir("locked", ListFails), File("a", Some([1]))])))
            == Err(UnlistableDir(["locked"]))
    ensures ScanFolderOutline(Budget(1, 100), preview, "/r",
              Dir("root", Listed([File("a", Some([1])), Dir("locked", ListFails)]))).Ok?
  {
    var t := Tally(0, 0, []);
    var none: RelPath := [];
    var locked: RelPath := ["locked"];
    assert none + ["locked"] == locked;
    var first := [Dir("locked", ListFails), File("a", Some([1]))];
    assert Recurse(Limits, preview, none + ["locked"], ListFails, t) == Err(UnlistableDir(["locked"]));
    assert Loop(Limits, preview, [], first, t) == Err(UnlistableDir(["locked"]));
    assert Recurse(Limits, preview, [], Listed(first), t) == Err(UnlistableDir(["locked"]));

    var small := Budget(1, 100);
    var second := [File("a", Some([1])), Dir("locked", ListFails)];
    var t1 := Accept(preview, t, [] + ["a"], [1]);
    assert Exhausted(small, t1);
    assert Loop(small, preview, [], second[1..], t1) == Ok(t1);
    assert Loop(small, preview, [], second, t) == Ok(t1);
    assert Recurse(small, preview, [], Listed(second), t) == Ok(t1);
  }
}
