/** The part of the file system the sessions write to and delete from: a
    map from absolute path to text content. */
module FileMap {

  type Path = string

  type Files = map<Path, string>

  /** Every path outside `paths` exists in `after` exactly when it exists
      in `before`, with the same content. */
  ghost predicate SameOutside(before: Files, after: Files, paths: set<Path>)
  {
    && (forall p :: p !in paths ==> (p in after <==> p in before))
    && (forall p :: p !in paths && p in before ==> after[p] == before[p])
  }

  /** `fs.writeFileSync(path, content)` that succeeds: the path now holds
      exactly `content`, whatever it held before, and no other path changes. */
  function Write(files: Files, path: Path, content: string): (r: Files)
    ensures path in r && r[path] == content
    ensures forall p :: p != path ==> (p in r <==> p in files)
    ensures forall p :: p != path && p in files ==> r[p] == files[p]
  {
    files[path := content]
  }

  /** `if (p && fs.existsSync(p)) fs.unlinkSync(p)` for every tracked path:
      a path already gone is passed over, and untracked paths keep their
      content. */
  function Remove(files: Files, tracked: set<Path>): (r: Files)
    ensures forall p :: p in tracked ==> p !in r
    ensures forall p :: p !in tracked ==> (p in r <==> p in files)
    ensures forall p :: p !in tracked && p in files ==> r[p] == files[p]
  {
    map p | p in files && p !in tracked :: files[p]
  }

  /** Writing the same content twice leaves what writing once leaves. */
  lemma WriteTwice(files: Files, path: Path, content: string)
    ensures Write(Write(files, path, content), path, content) == Write(files, path, content)
  {
  }

  /** Removing already-removed paths changes nothing: a second cleanup is a
      no-op. */
  lemma RemoveTwice(files: Files, tracked: set<Path>)
    ensures Remove(Remove(files, tracked), tracked) == Remove(files, tracked)
  {
    var once := Remove(files, tracked);
    assert Remove(once, tracked).Keys == once.Keys;
  }

  /** Cleanup forgets what happened to the tracked paths: two file systems
      that agree outside them are equal once they are removed. */
  lemma RemoveForgets(a: Files, b: Files, tracked: set<Path>)
    requires SameOutside(a, b, tracked)
    ensures Remove(a, tracked) == Remove(b, tracked)
  {
    assert Remove(a, tracked).Keys == Remove(b, tracked).Keys;
  }
}
