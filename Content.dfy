/**
 * The emptiness test of writeFileForGroup in scripts/roadmap-content.cjs:
 * a content file counts as empty when, after removing a heading at the very
 * start of the text, only whitespace remains.
 */
module Content {
  import opened Strings

  /** The length of the stretch before the first line terminator of s. */
  function LineRun(s: string): (n: nat)
    ensures n <= |s|
    ensures forall i :: 0 <= i < n ==> !IsLineTerminator(s[i])
    ensures n < |s| ==> IsLineTerminator(s[n])
  {
    if s == [] || IsLineTerminator(s[0]) then 0 else 1 + LineRun(s[1..])
  }

  lemma LineRunIs(s: string, n: nat)
    requires n <= |s|
    requires forall i :: 0 <= i < n ==> !IsLineTerminator(s[i])
    requires n < |s| ==> IsLineTerminator(s[n])
    ensures LineRun(s) == n
  {
  }

  /**
   * `.replace(/^#.+/, '')`: a `#` at position 0 followed by at least one
   * character other than a line terminator goes, with every further
   * character up to the first line terminator; nothing else is touched.
   */
  function StripHeading(s: string): (r: string)
    ensures |r| <= |s| && r == s[|s| - |r|..]
    ensures r != s ==> s[0] == '#' && |s| - |r| >= 2
    ensures r != s ==> forall i :: 1 <= i < |s| - |r| ==> !IsLineTerminator(s[i])
    ensures r != s ==> r == [] || IsLineTerminator(r[0])
    ensures r == s ==> !(|s| >= 2 && s[0] == '#' && !IsLineTerminator(s[1]))
  {
    if |s| >= 2 && s[0] == '#' && !IsLineTerminator(s[1]) then s[1 + LineRun(s[1..])..] else s
  }

  /** `content.replace(/^#.+/, ``).trim() === ''` */
  predicate IsEmptyContent(s: string) {
    Trim(StripHeading(s)) == []
  }

  /** Empty means: what follows the heading is whitespace only. */
  lemma EmptyIffBlankBody(s: string)
    ensures IsEmptyContent(s) <==> AllWhitespace(StripHeading(s))
  {
    TrimIsEmpty(StripHeading(s));
  }

  /** A heading line `#` + title ends at the first line terminator; the rest is the body. */
  lemma HeadingThenBody(title: string, body: string)
    requires title != [] && forall i :: 0 <= i < |title| ==> !IsLineTerminator(title[i])
    requires body == [] || IsLineTerminator(body[0])
    ensures StripHeading("#" + title + body) == body
    ensures IsEmptyContent("#" + title + body) <==> AllWhitespace(body)
  {
    StripHeadingOf(title, body);
    EmptyIffBlankBody("#" + title + body);
  }

  lemma StripHeadingOf(title: string, body: string)
    requires title != [] && forall i :: 0 <= i < |title| ==> !IsLineTerminator(title[i])
    requires body == [] || IsLineTerminator(body[0])
    ensures StripHeading("#" + title + body) == body
  {
    var s := "#" + title + body;
    assert s[1..] == title + body;
    LineRunIs(title + body, |title|);
    assert s[1 + |title|..] == body;
  }

  /** Text that does not start with a heading is empty only when it is all whitespace. */
  lemma EmptyWithoutHeading(s: string)
    requires s == [] || s[0] != '#'
    ensures IsEmptyContent(s) <==> AllWhitespace(s)
  {
    EmptyIffBlankBody(s);
  }

  /** `# ` + a one-line title, what the placeholder step writes, is itself empty. */
  lemma PlaceholderIsEmpty(title: string)
    requires forall i :: 0 <= i < |title| ==> !IsLineTerminator(title[i])
    ensures IsEmptyContent("# " + title)
  {
    var s := "# " + title;
    assert s[0] == '#' && s[1] == ' ';
    assert forall i :: 2 <= i < |s| ==> s[i] == title[i - 2];
    HeadingOnly(s);
  }

  /** A text that is a single heading line and nothing else is empty. */
  lemma HeadingOnly(s: string)
    requires |s| >= 2 && s[0] == '#'
    requires forall i :: 1 <= i < |s| ==> !IsLineTerminator(s[i])
    ensures IsEmptyContent(s)
  {
    LineRunIs(s[1..], |s| - 1);
    assert StripHeading(s) == [];
    TrimIsEmpty([]);
  }

  /**
   * `# Title\n\n   \n` is empty.
   * The literals are parameters fixed by `requires`, so that the solver
   * never unfolds a concatenation of literals.
   */
  lemma HeadingWithBlankLinesIsEmpty(title: string, body: string)
    requires title == " Title" && body == "\n\n   \n"
    ensures IsEmptyContent("#" + title + body)
  {
    OneLineTitle(title);
    BlankLines(body);
    HeadingThenBody(title, body);
  }

  lemma BlankLines(body: string)
    requires body == "\n\n   \n"
    ensures IsLineTerminator(body[0]) && AllWhitespace(body)
  {
    assert forall i :: 0 <= i < |body| ==> body[i] == '\n' || body[i] == ' ';
  }

  lemma OneLineTitle(title: string)
    requires title == " Title"
    ensures title != [] && forall i :: 0 <= i < |title| ==> !IsLineTerminator(title[i])
  {
  }

  lemma NothingIsEmpty()
    ensures IsEmptyContent("")
  {
    EmptyWithoutHeading("");
  }

  /**
   * `# Title\nSome text` is not empty.
   * The literals are parameters fixed by `requires`, so that the solver
   * never unfolds a concatenation of literals.
   */
  lemma HeadingWithTextIsNotEmpty(title: string, body: string)
    requires title == " Title" && body == "\nSome text"
    ensures !IsEmptyContent("#" + title + body)
  {
    OneLineTitle(title);
    TextLine(body);
    HeadingThenBody(title, body);
  }

  lemma TextLine(body: string)
    requires body == "\nSome text"
    ensures IsLineTerminator(body[0]) && !AllWhitespace(body)
  {
    assert body[1] == 'S';
  }

  /**
   * `.+` needs a character after the `#`, so a bare `#` line is content.
   * The literals are parameters fixed by `requires`, so that the solver
   * never unfolds a concatenation of literals.
   */
  lemma BareHashIsNotEmpty(s: string)
    requires s == "#\n"
    ensures !IsEmptyContent(s)
  {
    assert s[0] == '#' && s[1] == '\n';
    assert StripHeading(s) == s;
    NotBlank(s, 0);
  }

  /** Text with a character other than whitespace does not trim to nothing. */
  lemma NotBlank(s: string, i: nat)
    requires i < |s| && !IsWhitespace(s[i])
    ensures Trim(s) != []
  {
    TrimIsEmpty(s);
  }
}
