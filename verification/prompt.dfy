/** Prompt assembly in the `/generate-readme` handler (server.js:68-72).

    The instruction template is a YAML text. The system prompt is what
    `promptYaml.split('content: |')[1].split('- role: user')[0].trim()`
    yields: the text after the first `content: |`, cut at the next
    `content: |` (that is where `split(...)[1]` ends), then cut at the
    first `- role: user`, then trimmed. Without a `content: |` the `[1]` is
    `undefined` and the second `split` throws. The full prompt is the system
    prompt, a fixed separator and the outline's JSON text. */
module Prompt {
  import opened Wrappers
  import opened Text

  const Open: string := "content: |"
  const Close: string := "- role: user"
  const Separator: string := "\n\nHere is the codebase summary:\n\n"

  /** `undefined.split(...)`: the template has no `content: |`. */
  datatype PromptError = NoContentMarker

  /** The system prompt cut out of the template. It exists exactly when the
      template has a `content: |`; it contains neither marker, has no space
      at either end, and is a stretch of the template. */
  function SystemPrompt(yaml: string): (r: Result<string, PromptError>)
    ensures r.Ok? <==> Contains(yaml, Open)
    ensures r.Ok? ==> !Contains(r.value, Open) && !Contains(r.value, Close)
    ensures r.Ok? ==> IsTrimmed(r.value) && IsInfix(r.value, yaml)
  {
    match After(yaml, Open)
    case None => Err(NoContentMarker)
    case Some(rest) =>
      var piece := Before(rest, Open);
      var section := Before(piece, Close);
      var r := Trim(section);
      PrefixIsInfix(section, piece);
      InfixContains(section, piece, Open);
      InfixContains(r, section, Open);
      InfixContains(r, section, Close);
      PrefixIsInfix(piece, rest);
      InfixTrans(r, section, piece);
      InfixTrans(r, piece, rest);
      assert rest == yaml[|yaml| - |rest|..];
      SuffixIsInfix(yaml, |yaml| - |rest|);
      InfixTrans(r, rest, yaml);
      Ok(r)
  }

  /** Extraction inverts the template's layout: a template made of any
      preamble, `content: |`, a body, `- role: user` and any tail (the user
      turn, with its own `content: |`) yields the trimmed body, provided
      neither marker occurs earlier than where it is placed. The body may
      carry the newline and indentation a YAML block scalar has. */
  lemma ExtractsBody(pre: string, mid: string, post: string)
    requires NoneBefore(pre + Open, Open, |pre|)
    requires NoneBefore(mid + Close + post, Open, |mid| + |Close|)
    requires NoneBefore(mid + Close, Close, |mid|)
    ensures SystemPrompt(pre + Open + mid + Close + post) == Ok(Trim(mid))
  {
    var rest := mid + Close + post;
    var n := |mid| + |Close|;
    assert pre + Open + mid + Close + post == pre + Open + rest;
    AfterDecomposes(pre, Open, rest);
    var piece := Before(rest, Open);
    BeforeKeeps(rest, Open, n);
    var tail := piece[n..];
    assert piece == mid + Close + tail by {
      assert piece[..n] == rest[..n] == mid + Close;
    }
    AfterDecomposes(mid, Close, tail);
  }

  /** The other layout: no `- role: user` follows the body before the next
      `content: |` (or before the end). The body then runs up to that
      `content: |` or to the end, and comes out trimmed. Together with
      `ExtractsBody` this covers every template that has a `content: |`. */
  lemma ExtractsUnclosed(pre: string, mid: string, post: string)
    requires NoneBefore(pre + Open, Open, |pre|)
    requires post == [] || Open <= post
    requires NoneBefore(mid + post, Open, |mid|)
    requires !Contains(mid, Close)
    ensures SystemPrompt(pre + Open + mid + post) == Ok(Trim(mid))
  {
    var rest := mid + post;
    assert pre + Open + mid + post == pre + Open + rest;
    AfterDecomposes(pre, Open, rest);
    var piece := Before(rest, Open);
    if post == [] {
      assert rest == mid;
    } else {
      assert OccursAt(rest, Open, |mid|) by {
        assert rest[|mid|..|mid| + |Open|] == post[..|Open|];
      }
      FindFirst(rest, Open, |mid|);
      assert piece == mid;
    }
    assert piece == mid;
  }

  /** A block-scalar body, with its line break and indentation, comes out
      without them. */
  lemma BlockScalarExample()
    ensures SystemPrompt("- role: system\n  content: |\n    Hi\n  - role: user\n    content: |\n      x")
            == Ok("Hi")
  {
    var pre, mid, post := "- role: system\n  ", "\n    Hi\n  ", "\n    content: |\n      x";
    assert pre + Open == "- role: system\n  content: |";
    assert pre + Open + mid == "- role: system\n  content: |\n    Hi\n  ";
    assert pre + Open + mid + Close == "- role: system\n  content: |\n    Hi\n  - role: user";
    assert pre + Open + mid + Close + post
        == "- role: system\n  content: |\n    Hi\n  - role: user\n    content: |\n      x";
    NoLeadBefore(pre + Open, Open, |pre|);
    NoLeadBefore(mid + Close + post, Open, |mid| + |Close|);
    NoLeadBefore(mid + Close, Close, |mid|);
    ExtractsBody(pre, mid, post);
    TrimExample();
  }

  lemma TrimExample()
    ensures Trim("\n    Hi\n  ") == "Hi"
  {
    var lead, trail := "\n    ", "\n  ";
    AllSpace(lead);
    AllSpace(trail);
    assert lead + "Hi" + trail == "\n    Hi\n  ";
    TrimIgnoresSpace(lead, "Hi", trail);
    TrimmedWord();
  }

  lemma TrimmedWord()
    ensures Trim("Hi") == "Hi"
  {
    var w := "Hi";
    assert w[0] == 'H' && w[1] == 'i';
    assert !IsSpace(w[0]) && !IsSpace(w[|w| - 1]);
    TrimTrimmed(w);
  }

  lemma AllSpace(w: string)
    requires forall i :: 0 <= i < |w| ==> w[i] == '\n' || w[i] == ' '
    ensures forall i :: 0 <= i < |w| ==> IsSpace(w[i])
  {
  }

  /** No occurrence of `pat` starts before `n` when its first character
      does not appear there. */
  lemma NoLeadBefore(s: string, pat: string, n: nat)
    requires |pat| > 0 && n <= |s|
    requires forall j :: 0 <= j < n ==> s[j] != pat[0]
    ensures NoneBefore(s, pat, n)
  {
    forall j | 0 <= j < n
      ensures !OccursAt(s, pat, j)
    {
      if j + |pat| <= |s| {
        assert s[j..j + |pat|][0] == s[j] != pat[0];
      }
    }
  }

  /** Cutting at the first `pat` keeps at least the first `n` characters
      when no `pat` starts before `n`. */
  lemma BeforeKeeps(s: string, pat: string, n: nat)
    requires |pat| > 0 && n <= |s| && NoneBefore(s, pat, n)
    ensures n <= |Before(s, pat)| && Before(s, pat)[..n] == s[..n]
  {
    var r := Before(s, pat);
    if Contains(s, pat) {
      assert OccursAt(s, pat, |r|);
      assert !(|r| < n);
    }
    assert r == s[..|r|];
  }

  /** `${systemPrompt}\n\nHere is the codebase summary:\n\n${jsonOutline}`. */
  function FullPrompt(system: string, outlineJson: string): (r: string)
    ensures |r| == |system| + |Separator| + |outlineJson|
    ensures system <= r
    ensures r[|system|..] == Separator + outlineJson
  {
    system + Separator + outlineJson
  }

  /** Assembly can be undone: splitting the prompt at its first separator
      gives back the system prompt and the outline text, as long as the
      separator does not begin inside the system prompt. */
  lemma SplitsBack(system: string, outlineJson: string)
    requires NoneBefore(system + Separator, Separator, |system|)
    ensures Before(FullPrompt(system, outlineJson), Separator) == system
    ensures After(FullPrompt(system, outlineJson), Separator) == Some(outlineJson)
  {
    AfterDecomposes(system, Separator, outlineJson);
  }
}
