/** The preview the scanner stores for each accepted file (server.js:38):
    the decoded text is split into lines at every `\n` or `\r\n`, the first
    ten lines are kept, empty ones are dropped, and the rest are joined with
    `\n`. */
module Snippet {
  import opened Text

  /** `slice(0, 10)`: how many leading lines are looked at. */
  const HeadCount: nat := 10

  /** The piece ends in a carriage return. */
  predicate EndsInCR(piece: string)
  {
    |piece| > 0 && piece[|piece| - 1] == '\r'
  }

  /** One carriage return ending a piece belongs to the line break after it. */
  function StripCR(piece: string): (r: string)
    ensures EndsInCR(piece) ==> r + "\r" == piece
    ensures !EndsInCR(piece) ==> r == piece
  {
    if |piece| > 0 && piece[|piece| - 1] == '\r' then piece[..|piece| - 1] else piece
  }

  /** `text.split(/\r?\n/)`. Cutting at every `\n` and removing one `\r`
      just before each cut gives the same pieces as the regular expression,
      since a match of `\r?\n` always ends at a `\n` and takes the `\r` in
      front of it when there is one. The last piece is followed by no line
      break, so a `\r` ending it stays. */
  function SplitLines(text: string): (r: seq<string>)
    ensures |r| == |SplitOn(text, '\n')|
    ensures forall k :: 0 <= k < |r| - 1 && EndsInCR(SplitOn(text, '\n')[k]) ==> r[k] + "\r" == SplitOn(text, '\n')[k]
    ensures forall k :: 0 <= k < |r| - 1 && !EndsInCR(SplitOn(text, '\n')[k]) ==> r[k] == SplitOn(text, '\n')[k]
    ensures r[|r| - 1] == SplitOn(text, '\n')[|r| - 1]
    ensures forall k :: 0 <= k < |r| ==> '\n' !in r[k]
  {
    var pieces := SplitOn(text, '\n');
    seq(|pieces|, k requires 0 <= k < |pieces| =>
      if k < |pieces| - 1 then StripCR(pieces[k]) else pieces[k])
  }

  /** `lines.slice(0, 10)`. */
  function HeadLines(text: string): (r: seq<string>)
    ensures |r| <= HeadCount
    ensures r <= SplitLines(text)
    ensures |r| == HeadCount || r == SplitLines(text)
  {
    var lines := SplitLines(text);
    if |lines| <= HeadCount then lines else lines[..HeadCount]
  }

  /** `filter(Boolean)` on strings: keeps exactly the non-empty ones, in
      order; `NonEmptyOne` and `NonEmptyAppend` pin it down line by line. */
  function NonEmpty(lines: seq<string>): (r: seq<string>)
    ensures |r| <= |lines|
    ensures forall l :: l in r <==> l in lines && l != ""
  {
    if |lines| == 0 then []
    else if lines[0] == "" then NonEmpty(lines[1..])
    else [lines[0]] + NonEmpty(lines[1..])
  }

  /** A single line is kept exactly when it is not empty. */
  lemma NonEmptyOne(line: string)
    ensures line == "" ==> NonEmpty([line]) == []
    ensures line != "" ==> NonEmpty([line]) == [line]
  {
    assert [line][1..] == [];
  }

  /** Filtering keeps order and repeats: filtering two stretches of lines
      one after the other is filtering them together. */
  lemma {:induction false} NonEmptyAppend(a: seq<string>, b: seq<string>)
    ensures NonEmpty(a + b) == NonEmpty(a) + NonEmpty(b)
    decreases |a|
  {
    if |a| == 0 {
      assert a + b == b;
    } else {
      assert (a + b)[0] == a[0];
      assert (a + b)[1..] == a[1..] + b;
      NonEmptyAppend(a[1..], b);
    }
  }

  /** Only blank lines leave nothing behind. */
  lemma BlanksDropped(lines: seq<string>)
    requires forall k :: 0 <= k < |lines| ==> lines[k] == ""
    ensures NonEmpty(lines) == []
  {
  }

  /** The preview of one file's decoded text. */
  function Snippet(text: string): (r: string)
    ensures r == "" <==> NonEmpty(HeadLines(text)) == []
    ensures r != "" ==> SplitOn(r, '\n') == NonEmpty(HeadLines(text))
  {
    var kept := NonEmpty(HeadLines(text));
    if |kept| == 0 then ""
    else
      assert forall k :: 0 <= k < |kept| ==> kept[k] in kept;
      SplitJoin(kept, '\n');
      assert |kept| == 1 || Join(kept, '\n') == kept[0] + ['\n'] + Join(kept[1..], '\n');
      Join(kept, '\n')
  }

  /** A preview has at most ten lines, none of them empty, and each is one of
      the file's first ten lines. */
  lemma SnippetShape(text: string)
    ensures var r := Snippet(text);
            r == "" ||
            (&& |SplitOn(r, '\n')| <= HeadCount
             && forall l :: l in SplitOn(r, '\n') ==> l != "" && l in HeadLines(text))
  {
  }

  /** The preview is NOT "the first ten non-empty lines": a file whose first
      ten lines are blank gets an empty preview, whatever follows them. */
  lemma {:induction false} LaterLinesIgnored()
    ensures var text := Join(seq(HeadCount, _ => "") + ["x"], '\n');
            Snippet(text) == "" && "x" in SplitLines(text)
  {
    var parts := seq(HeadCount, _ => "") + ["x"];
    var text := Join(parts, '\n');
    assert forall k :: 0 <= k < |parts| ==> '\n' !in parts[k];
    SplitJoin(parts, '\n');
    var lines := SplitLines(text);
    assert forall k :: 0 <= k < HeadCount ==> lines[k] == "";
    assert lines[HeadCount] == "x";
    var head := HeadLines(text);
    assert forall k :: 0 <= k < |head| ==> head[k] == lines[k];
    BlanksDropped(head);
  }

  /** A `\r\n` line break counts as one break and leaves no `\r` behind. */
  lemma CrLfBreak()
    ensures Snippet("a\r\nb") == "a\nb"
  {
    var parts := ["a\r", "b"];
    assert Join(parts, '\n') == "a\r\nb";
    SplitJoin(parts, '\n');
    assert SplitLines("a\r\nb") == ["a", "b"];
    assert HeadLines("a\r\nb") == ["a", "b"];
    assert NonEmpty(["a", "b"]) == ["a", "b"];
    assert Join(["a", "b"], '\n') == "a\nb";
  }
}
