/**
 * The two normalisations of scripts/roadmap-content.cjs that must agree for
 * a roadmap topic to find its content file: a content-file path becomes a
 * topic URL (inside getFilesInFolder), and a group's controlName becomes a
 * topic URL (inside writeFileForGroup). Every regular expression is written
 * out as an explicit scan.
 */
module TopicUrl {
  import opened Strings

  /** The length of the run of decimal digits that starts s. */
  function DigitRun(s: string): (n: nat)
    ensures n <= |s|
    ensures forall i :: 0 <= i < n ==> IsDigit(s[i])
    ensures n < |s| ==> !IsDigit(s[n])
  {
    if s != [] && IsDigit(s[0]) then 1 + DigitRun(s[1..]) else 0
  }

  /** The digit run is the only one with the three properties above. */
  lemma DigitRunIs(s: string, n: nat)
    requires n <= |s|
    requires forall i :: 0 <= i < n ==> IsDigit(s[i])
    requires n < |s| ==> !IsDigit(s[n])
    ensures DigitRun(s) == n
  {
  }

  /** `\d+`: a non-empty run of digits and nothing else. */
  predicate IsDigits(p: string) {
    |p| > 0 && forall i :: 0 <= i < |p| ==> IsDigit(p[i])
  }

  /**
   * The length of the digits when s starts with an ordering prefix
   * `<digits>-`, and 0 when it does not.
   */
  function OrderingDigits(s: string): (k: nat)
    ensures k > 0 ==> k < |s| && s[k] == '-' && IsDigits(s[..k])
  {
    var k := DigitRun(s);
    if k > 0 && k < |s| && s[k] == '-' then k else 0
  }

  /** A path segment without its ordering prefix `<digits>-`, if it has one. */
  function DropOrdering(seg: string): string {
    var k := OrderingDigits(seg);
    if k > 0 then seg[k + 1..] else seg
  }

  /**
   * `.replace(/\/\d+-/g, '/')`: a scan from left to right that replaces each
   * match `/<digits>-` by `/` and resumes after the match, so that matches
   * never overlap.
   */
  function StripOrdering(s: string): (r: string)
    ensures |r| <= |s|
  {
    if s == [] then []
    else if s[0] == '/' && OrderingDigits(s[1..]) > 0 then
      "/" + StripOrdering(s[OrderingDigits(s[1..]) + 2..])
    else [s[0]] + StripOrdering(s[1..])
  }

  /** `.replace(/\/index\.md$/, '')`: an index file stands for its folder. */
  function StripIndexFile(s: string): string {
    if EndsWith(s, "/index.md") then s[..|s| - 9] else s
  }

  /** `.replace(/\.md$/, '')` */
  function StripMarkdownExtension(s: string): string {
    if EndsWith(s, ".md") then s[..|s| - 3] else s
  }

  function StripSuffixes(s: string): string {
    StripMarkdownExtension(StripIndexFile(s))
  }

  /** The topic URL getFilesInFolder registers a content file under. */
  function ContentUrl(contentRoot: string, filePath: string): string {
    StripSuffixes(StripOrdering(RemoveFirst(filePath, contentRoot)))
  }

  /** `.replace(/^\d+-/g, '/')`: only at the very start of the string. */
  function StripLeadingOrdering(id: string): string {
    if OrderingDigits(id) > 0 then "/" + DropOrdering(id) else id
  }

  /** The topic URL writeFileForGroup looks a controlName up under. */
  function ControlNameToUrl(controlName: string): string {
    ReplaceChar(StripLeadingOrdering(controlName), ':', '/')
  }

  // ---------------------------------------------------------------------
  // The ordering scan works segment by segment

  /** Appending something that does not start with a digit leaves the digit run alone. */
  lemma DigitRunExtend(seg: string, tail: string)
    requires tail == [] || !IsDigit(tail[0])
    ensures DigitRun(seg + tail) == DigitRun(seg)
  {
    var k := DigitRun(seg);
    if k < |seg| {
      DigitRunIs(seg + tail, k);
    } else {
      DigitRunIs(seg + tail, |seg|);
    }
  }

  lemma OrderingDigitsExtend(seg: string, tail: string)
    requires tail == [] || tail[0] == '/'
    ensures OrderingDigits(seg + tail) == OrderingDigits(seg)
  {
    DigitRunExtend(seg, tail);
  }

  lemma OrderingOfPrefixed(prefix: string, name: string)
    requires IsDigits(prefix)
    ensures OrderingDigits(prefix + "-" + name) == |prefix|
    ensures DropOrdering(prefix + "-" + name) == name
  {
    var s := prefix + "-" + name;
    DigitRunIs(s, |prefix|);
    assert s[|prefix| + 1..] == name;
  }

  /** The scan copies a stretch without `/` unchanged. */
  lemma {:induction false} StripOrderingFreeHead(head: string, tail: string)
    requires '/' !in head
    ensures StripOrdering(head + tail) == head + StripOrdering(tail)
  {
    if head != [] {
      var s := head + tail;
      assert s[0] == head[0] && head[0] in head;
      assert s[1..] == head[1..] + tail;
      assert StripOrdering(s) == [head[0]] + StripOrdering(s[1..]);
      StripOrderingFreeHead(head[1..], tail);
      calc {
        StripOrdering(s);
        [head[0]] + StripOrdering(head[1..] + tail);
        [head[0]] + (head[1..] + StripOrdering(tail));
        ([head[0]] + head[1..]) + StripOrdering(tail);
        { assert [head[0]] + head[1..] == head; }
        head + StripOrdering(tail);
      }
    } else {
      assert head + tail == tail;
    }
  }

  /** One `/`-led segment loses its ordering prefix and nothing else. */
  lemma StripOrderingSegment(seg: string, tail: string)
    requires '/' !in seg
    requires tail == [] || tail[0] == '/'
    ensures StripOrdering("/" + seg + tail) == "/" + DropOrdering(seg) + StripOrdering(tail)
  {
    OrderingDigitsExtend(seg, tail);
    if OrderingDigits(seg) > 0 {
      StripOrderingMatch(seg, tail, OrderingDigits(seg));
    } else {
      StripOrderingNoMatch(seg, tail);
    }
  }

  lemma StripOrderingMatch(seg: string, tail: string, k: nat)
    requires '/' !in seg
    requires k == OrderingDigits(seg + tail) > 0 && k < |seg|
    ensures StripOrdering("/" + seg + tail) == "/" + seg[k + 1..] + StripOrdering(tail)
  {
    var s := "/" + seg + tail;
    assert s[0] == '/' && s[1..] == seg + tail;
    assert StripOrdering(s) == "/" + StripOrdering(s[k + 2..]);
    assert s[k + 2..] == seg[k + 1..] + tail;
    SlashFreeSuffix(seg, k + 1);
    StripOrderingFreeHead(seg[k + 1..], tail);
  }

  lemma StripOrderingNoMatch(seg: string, tail: string)
    requires '/' !in seg
    requires OrderingDigits(seg + tail) == 0
    ensures StripOrdering("/" + seg + tail) == "/" + seg + StripOrdering(tail)
  {
    var s := "/" + seg + tail;
    assert s[0] == '/' && s[1..] == seg + tail;
    assert StripOrdering(s) == "/" + StripOrdering(seg + tail);
    StripOrderingFreeHead(seg, tail);
  }

  lemma SlashFreeSuffix(seg: string, j: nat)
    requires '/' !in seg && j <= |seg|
    ensures '/' !in seg[j..]
  {
    assert forall i :: 0 <= i < |seg| - j ==> seg[j..][i] == seg[j + i];
  }

  /** Every segment's ordering prefix removed: the segment-wise meaning of the scan. */
  function DropOrderings(segs: seq<string>): (r: seq<string>)
    ensures |r| == |segs|
  {
    seq(|segs|, i requires 0 <= i < |segs| => DropOrdering(segs[i]))
  }

  lemma {:induction false} StripOrderingSlashed(segs: seq<string>)
    requires |segs| >= 1
    requires forall k :: 0 <= k < |segs| ==> '/' !in segs[k]
    ensures StripOrdering("/" + Join(segs, '/')) == "/" + Join(DropOrderings(segs), '/')
  {
    if |segs| == 1 {
      SlashedSingle(segs);
    } else {
      StripOrderingSlashed(segs[1..]);
      SlashedStep(segs);
    }
  }

  lemma SlashedSingle(segs: seq<string>)
    requires |segs| == 1 && '/' !in segs[0]
    ensures StripOrdering("/" + Join(segs, '/')) == "/" + Join(DropOrderings(segs), '/')
  {
    var d := DropOrderings(segs);
    SlashedOne(segs[0]);
    SlashedOne(d[0]);
    StripOrderingSegment(segs[0], []);
    assert [segs[0]] == segs && [d[0]] == d;
  }

  /** The scan of `/` + a join of segments, given the scan of the join of all but the first. */
  lemma SlashedStep(segs: seq<string>)
    requires |segs| >= 2 && '/' !in segs[0]
    requires StripOrdering("/" + Join(segs[1..], '/')) == "/" + Join(DropOrderings(segs[1..]), '/')
    ensures StripOrdering("/" + Join(segs, '/')) == "/" + Join(DropOrderings(segs), '/')
  {
    var d := DropOrderings(segs);
    SlashedCons(segs);
    SlashedCons(d);
    StripOrderingSegment(segs[0], "/" + Join(segs[1..], '/'));
    DropOrderingsCons(segs);
  }

  lemma DropOrderingsCons(segs: seq<string>)
    requires |segs| >= 1
    ensures DropOrderings(segs)[0] == DropOrdering(segs[0])
    ensures DropOrderings(segs)[1..] == DropOrderings(segs[1..])
  {
  }

  lemma SlashedOne(seg: string)
    ensures "/" + Join([seg], '/') == "/" + seg + [] && "/" + seg + [] == "/" + seg
  {
  }

  lemma SlashedCons(segs: seq<string>)
    requires |segs| >= 2
    ensures "/" + Join(segs, '/') == "/" + segs[0] + ("/" + Join(segs[1..], '/'))
  {
    var j := Join(segs[1..], '/');
    assert Join(segs, '/') == segs[0] + "/" + j;
    ConcatAssociative("/", segs[0] + "/", j);
    ConcatAssociative("/", segs[0], "/");
    ConcatAssociative("/" + segs[0], "/", j);
  }

  /**
   * The scan keeps the text before the first `/` and removes one ordering
   * prefix from the front of each later segment: `/1-2-a` becomes `/2-a`.
   */
  lemma StripOrderingBySegments(s: string)
    ensures StripOrdering(s)
         == Join([Split(s, '/')[0]] + DropOrderings(Split(s, '/')[1..]), '/')
  {
    var parts := Split(s, '/');
    JoinSplit(s, '/');
    if |parts| == 1 {
      StripOrderingFreeHead(s, []);
      assert s + [] == s;
    } else {
      assert s == parts[0] + ("/" + Join(parts[1..], '/'));
      StripOrderingHeadAndSegments(parts[0], parts[1..]);
    }
  }

  lemma StripOrderingHeadAndSegments(head: string, segs: seq<string>)
    requires '/' !in head && |segs| >= 1
    requires forall k :: 0 <= k < |segs| ==> '/' !in segs[k]
    ensures StripOrdering(head + ("/" + Join(segs, '/'))) == Join([head] + DropOrderings(segs), '/')
  {
    var out := [head] + DropOrderings(segs);
    calc {
      StripOrdering(head + ("/" + Join(segs, '/')));
      { StripOrderingFreeHead(head, "/" + Join(segs, '/')); }
      head + StripOrdering("/" + Join(segs, '/'));
      { StripOrderingSlashed(segs); }
      head + ("/" + Join(DropOrderings(segs), '/'));
      { assert out[1..] == DropOrderings(segs);
        assert head + ("/" + Join(DropOrderings(segs), '/')) == head + "/" + Join(out[1..], '/'); }
      Join(out, '/');
    }
  }

  /** Where no `/` is followed by a digit there is nothing to strip. */
  predicate NoDigitAfterSlash(s: string) {
    forall i :: 0 <= i < |s| - 1 && s[i] == '/' ==> !IsDigit(s[i + 1])
  }

  lemma {:induction false} StripOrderingUnchanged(s: string)
    requires NoDigitAfterSlash(s)
    ensures StripOrdering(s) == s
  {
    if s != [] {
      if s[0] == '/' && |s| > 1 {
        DigitRunIs(s[1..], 0);
      }
      assert NoDigitAfterSlash(s[1..]) by {
        forall i | 0 <= i < |s| - 2 && s[1..][i] == '/' ensures !IsDigit(s[1..][i + 1]) {
          assert s[i + 1] == '/';
        }
      }
      StripOrderingUnchanged(s[1..]);
      assert StripOrdering(s) == [s[0]] + StripOrdering(s[1..]);
    }
  }

  lemma PrefixedSlashFree(prefix: string, name: string)
    requires IsDigits(prefix) && '/' !in name
    ensures '/' !in prefix + "-" + name
  {
    assert forall i :: 0 <= i < |prefix| ==> prefix[i] != '/';
  }

  lemma StripOneSegment(seg: string, dropped: string)
    requires '/' !in seg && DropOrdering(seg) == dropped
    ensures StripOrdering("/" + seg) == "/" + dropped
  {
    StripOrderingSlashed([seg]);
    assert DropOrderings([seg]) == [dropped];
  }

  lemma StripTwoSegments(first: string, second: string, a: string, b: string)
    requires '/' !in first && '/' !in second
    requires DropOrdering(first) == a && DropOrdering(second) == b
    ensures StripOrdering("/" + Join([first, second], '/')) == "/" + a + "/" + b
  {
    StripOrderingSlashed([first, second]);
    assert DropOrderings([first, second]) == [a, b];
  }

  lemma TwoPrefixedAsJoin(p: string, a: string, q: string, b: string)
    ensures "/" + p + "-" + a + "/" + q + "-" + b == "/" + Join([p + "-" + a, q + "-" + b], '/')
  {
  }

  lemma TwoOrderedSegmentsJoined(p: string, a: string, q: string, b: string)
    requires IsDigits(p) && IsDigits(q) && '/' !in a && '/' !in b
    ensures StripOrdering("/" + p + "-" + a + "/" + q + "-" + b) == "/" + a + "/" + b
  {
    TwoPrefixedAsJoin(p, a, q, b);
    OrderingOfPrefixed(p, a);
    OrderingOfPrefixed(q, b);
    PrefixedSlashFree(p, a);
    PrefixedSlashFree(q, b);
    StripTwoSegments(p + "-" + a, q + "-" + b, a, b);
  }

  /** `/p-a/q-b` becomes `/a/b`: every segment loses its ordering prefix. */
  lemma TwoOrderedSegments(x: string, p: string, a: string, q: string, b: string)
    requires IsDigits(p) && IsDigits(q) && '/' !in a && '/' !in b
    requires x == "/" + p + "-" + a + "/" + q + "-" + b
    ensures StripOrdering(x) == "/" + a + "/" + b
  {
    TwoOrderedSegmentsJoined(p, a, q, b);
  }

  /**
   * `/p-q-a` becomes `/q-a`: the scan resumes after its match, so a second
   * prefix in the same segment survives, and a second pass changes the
   * result again.
   */
  lemma OnePrefixPerSegment(x: string, p: string, q: string, a: string)
    requires IsDigits(p) && IsDigits(q) && '/' !in a
    requires x == "/" + p + "-" + q + "-" + a
    ensures StripOrdering(x) == "/" + q + "-" + a
    ensures StripOrdering(StripOrdering(x)) == "/" + a
    ensures StripOrdering(StripOrdering(x)) != StripOrdering(x)
  {
    var once := StripOrdering(x);
    OuterPrefixOnly(x, p, q + "-" + a);
    ConcatAssociative("/", q + "-", a);
    assert once == "/" + q + "-" + a;
    InnerPrefix(q, a);
    assert |once| > |"/" + a|;
  }

  lemma OuterPrefixOnly(x: string, p: string, inner: string)
    requires IsDigits(p) && '/' !in inner
    requires x == "/" + p + "-" + inner
    ensures StripOrdering(x) == "/" + inner
  {
    PrefixedSlashFree(p, inner);
    OrderingOfPrefixed(p, inner);
    assert x == "/" + (p + "-" + inner);
    StripOneSegment(p + "-" + inner, inner);
  }

  lemma InnerPrefix(q: string, a: string)
    requires IsDigits(q) && '/' !in a
    ensures '/' !in q + "-" + a
    ensures StripOrdering("/" + q + "-" + a) == "/" + a
  {
    PrefixedSlashFree(q, a);
    OuterPrefixOnly("/" + q + "-" + a, q, a);
  }

  /**
   * `/101-a/5-b.md` becomes `/a/b.md`.
   * The literals are parameters fixed by `requires`, so that the solver
   * never unfolds a concatenation of literals.
   */
  lemma StripOrderingExample(p: string, a: string, q: string, b: string)
    requires p == "101" && a == "a" && q == "5" && b == "b.md"
    ensures StripOrdering("/" + p + "-" + a + "/" + q + "-" + b) == "/" + a + "/" + b
  {
    assert IsDigits(p) && IsDigits(q) && '/' !in a && '/' !in b;
    TwoOrderedSegments("/" + p + "-" + a + "/" + q + "-" + b, p, a, q, b);
  }

  /**
   * `/1-2-a` becomes `/2-a`, and a second pass gives `/a`.
   * The literals are parameters fixed by `requires`, so that the solver
   * never unfolds a concatenation of literals.
   */
  lemma NotIdempotentExample(p: string, q: string, a: string)
    requires p == "1" && q == "2" && a == "a"
    ensures StripOrdering("/" + p + "-" + q + "-" + a) == "/" + q + "-" + a
    ensures StripOrdering(StripOrdering("/" + p + "-" + q + "-" + a)) == "/" + a
  {
    assert IsDigits(p) && IsDigits(q) && '/' !in a;
    OnePrefixPerSegment("/" + p + "-" + q + "-" + a, p, q, a);
  }

  // ---------------------------------------------------------------------
  // Suffixes

  /** What ends with a suffix and `c`-free m: the suffix lies in m or reaches back to c. */
  lemma SuffixAcrossSeparator(y: string, c: char, m: string, suffix: string)
    requires c !in m
    requires EndsWith(y + [c] + m, suffix)
    ensures |suffix| <= |m| ==> EndsWith(m, suffix)
    ensures |suffix| > |m| ==> suffix[|suffix| - |m| - 1] == c && m == suffix[|suffix| - |m|..]
  {
    var s := y + [c] + m;
    var d := |s| - |suffix|;
    if |suffix| <= |m| {
      assert s[|s| - |suffix|..] == m[|m| - |suffix|..];
    } else {
      assert s[|y|] == c;
      assert suffix[|y| - d] == s[|y|];
      assert s[|y| + 1..] == m;
      assert suffix[|y| - d + 1..] == s[|y| + 1..];
    }
  }

  lemma IndexSuffixEndsWithMd(s: string)
    requires EndsWith(s, "/index.md")
    ensures EndsWith(s, ".md")
  {
    assert s[|s| - 3..] == s[|s| - 9..][6..];
  }

  /** `…/index.md` becomes the folder's own URL. */
  lemma IndexFileIsFolder(folder: string)
    requires !EndsWith(folder, ".md")
    ensures StripSuffixes(folder + "/index.md") == folder
  {
    var s := folder + "/index.md";
    assert s[|s| - 9..] == "/index.md";
    assert s[..|s| - 9] == folder;
  }

  /** Otherwise a trailing `.md` is dropped. */
  lemma MarkdownExtensionDropped(stem: string)
    requires !EndsWith(stem + ".md", "/index.md")
    ensures StripSuffixes(stem + ".md") == stem
  {
    var s := stem + ".md";
    assert s[|s| - 3..] == ".md";
    assert s[..|s| - 3] == stem;
  }

  /** And a path with any other ending is kept as it is. */
  lemma OtherExtensionsKept(s: string)
    requires !EndsWith(s, ".md")
    ensures StripSuffixes(s) == s
  {
    if EndsWith(s, "/index.md") {
      IndexSuffixEndsWithMd(s);
    }
  }

  lemma ContentUrlOf(root: string, path: string, relative: string)
    requires path == root + relative
    ensures ContentUrl(root, path) == StripSuffixes(StripOrdering(relative))
  {
    RemoveFirstOfPrefix(root, relative);
  }

  /** A file `<root>/p-a/q-b.md` with ordering prefixes p and q is registered under `/a/b`. */
  lemma ContentUrlTwoOrdered(root: string, p: string, a: string, q: string, b: string)
    requires IsDigits(p) && IsDigits(q) && '/' !in a && '/' !in b && b != "index"
    ensures ContentUrl(root, root + ("/" + p + "-" + a + "/" + q + "-" + b + ".md")) == "/" + a + "/" + b
  {
    var relative := "/" + p + "-" + a + "/" + q + "-" + b + ".md";
    ContentUrlOf(root, root + relative, relative);
    TwoOrderedWithExtension(p, a, q, b);
    NotIndexFile("/" + a, b);
    MarkdownExtensionDropped("/" + a + "/" + b);
  }

  lemma TwoOrderedWithExtension(p: string, a: string, q: string, b: string)
    requires IsDigits(p) && IsDigits(q) && '/' !in a && '/' !in b
    ensures StripOrdering("/" + p + "-" + a + "/" + q + "-" + b + ".md") == "/" + a + "/" + b + ".md"
  {
    var b' := b + ".md";
    assert '/' !in b';
    ConcatAssociative("/" + p + "-" + a + "/" + q + "-", b, ".md");
    ConcatAssociative("/" + a + "/", b, ".md");
    TwoOrderedSegments("/" + p + "-" + a + "/" + q + "-" + b', p, a, q, b');
  }

  /**
   * `<root>/101-a/5-b.md` is registered under `/a/b`.
   * The literals are parameters fixed by `requires`, so that the solver
   * never unfolds a concatenation of literals.
   */
  lemma ContentUrlOrderedExample(root: string, p: string, a: string, q: string, b: string)
    requires p == "101" && a == "a" && q == "5" && b == "b"
    ensures ContentUrl(root, root + ("/" + p + "-" + a + "/" + q + "-" + b + ".md")) == "/" + a + "/" + b
  {
    assert IsDigits(p) && IsDigits(q) && '/' !in a && '/' !in b && b != "index";
    ContentUrlTwoOrdered(root, p, a, q, b);
  }

  /**
   * The scan never reaches across a `/`: stripping a path that continues
   * with a `/` is stripping the two pieces separately.
   */
  lemma {:induction false} StripOrderingAppend(s: string, t: string)
    requires t == [] || t[0] == '/'
    ensures StripOrdering(s + t) == StripOrdering(s) + StripOrdering(t)
  {
    if s == [] {
      assert s + t == t;
    } else {
      var st := s + t;
      assert st[0] == s[0] && st[1..] == s[1..] + t;
      OrderingDigitsExtend(s[1..], t);
      var k := OrderingDigits(s[1..]);
      if s[0] == '/' && k > 0 {
        var rest := s[k + 2..];
        assert st[k + 2..] == rest + t;
        UnfoldMatch(st, k);
        UnfoldMatch(s, k);
        StripOrderingAppend(rest, t);
        ConcatAssociative("/", StripOrdering(rest), StripOrdering(t));
      } else {
        var rest := s[1..];
        UnfoldCopy(st);
        UnfoldCopy(s);
        StripOrderingAppend(rest, t);
        ConcatAssociative([s[0]], StripOrdering(rest), StripOrdering(t));
      }
    }
  }

  lemma UnfoldMatch(x: string, k: nat)
    requires x != [] && x[0] == '/' && k == OrderingDigits(x[1..]) && k > 0
    ensures StripOrdering(x) == "/" + StripOrdering(x[k + 2..])
  {
  }

  lemma UnfoldCopy(x: string)
    requires x != [] && !(x[0] == '/' && OrderingDigits(x[1..]) > 0)
    ensures StripOrdering(x) == [x[0]] + StripOrdering(x[1..])
  {
  }

  /** A folder's `index.md` is registered under the folder's own stripped path. */
  lemma ContentUrlOfIndexFile(root: string, folder: string)
    requires !EndsWith(StripOrdering(folder), ".md")
    ensures ContentUrl(root, root + (folder + "/index.md")) == StripOrdering(folder)
  {
    ContentUrlOf(root, root + (folder + "/index.md"), folder + "/index.md");
    StripIndexPath(folder);
    IndexFileIsFolder(StripOrdering(folder));
  }

  lemma StripIndexPath(folder: string)
    ensures StripOrdering(folder + "/index.md") == StripOrdering(folder) + "/index.md"
  {
    StripOrderingAppend(folder, "/index.md");
    IndexSegmentKept("/index.md");
  }

  lemma IndexSegmentKept(x: string)
    requires x == "/index.md"
    ensures StripOrdering(x) == x
  {
    var seg := x[1..];
    assert '/' !in seg && x == [x[0]] + seg;
    OrderingDigitsZero(seg);
    UnfoldCopy(x);
    StripOrderingFreeHead(seg, []);
    assert seg + [] == seg;
  }

  /** A file with another extension and no ordering prefix keeps its path under the root. */
  lemma ContentUrlOfOtherFile(root: string, relative: string)
    requires NoDigitAfterSlash(relative) && !EndsWith(relative, ".md")
    ensures ContentUrl(root, root + relative) == relative
  {
    ContentUrlOf(root, root + relative, relative);
    StripOrderingUnchanged(relative);
    OtherExtensionsKept(relative);
  }

  // ---------------------------------------------------------------------
  // controlName

  /** The leading `/` answers whether the controlName had an ordering prefix. */
  lemma ControlNameToUrlShape(id: string)
    ensures |ControlNameToUrl(id)| <= |id|
    ensures ':' !in ControlNameToUrl(id)
    ensures ControlNameToUrl(id) == [] <==> id == []
    ensures OrderingDigits(id) > 0 ==> ControlNameToUrl(id) == "/" + ReplaceChar(DropOrdering(id), ':', '/')
    ensures OrderingDigits(id) == 0 ==> ControlNameToUrl(id) == ReplaceChar(id, ':', '/')
  {
    ReplaceCharRemoves(StripLeadingOrdering(id), ':', '/');
    if OrderingDigits(id) > 0 {
      ReplaceCharConcat("/", DropOrdering(id), ':', '/');
    }
  }

  /**
   * writeTopicContent applies the same two replacements again to the URL;
   * that second pass changes nothing.
   */
  lemma ControlNameToUrlIdempotent(id: string)
    ensures ControlNameToUrl(ControlNameToUrl(id)) == ControlNameToUrl(id)
  {
    var u := ControlNameToUrl(id);
    ControlNameToUrlShape(id);
    if OrderingDigits(id) > 0 {
      assert u[0] == '/';
      assert DigitRun(u) == 0;
    } else {
      var k := DigitRun(id);
      assert forall i :: 0 <= i < |id| ==> (IsDigit(u[i]) <==> IsDigit(id[i]));
      DigitRunIs(u, k);
      assert k > 0 && k < |u| ==> u[k] != '-';
    }
    assert StripLeadingOrdering(u) == u;
    ReplaceCharAbsent(u, ':', '/');
  }

  /** A controlName `<digits>-rest` becomes `/` followed by rest with every `:` turned into `/`. */
  lemma ControlNamePrefixed(id: string, p: string, rest: string)
    requires IsDigits(p) && id == p + "-" + rest
    ensures ControlNameToUrl(id) == "/" + ReplaceChar(rest, ':', '/')
  {
    OrderingOfPrefixed(p, rest);
    ControlNameToUrlShape(id);
  }

  /** A controlName `<digits>-a:b` becomes `/a/b`, whatever b holds. */
  lemma ControlNameTwoNames(p: string, a: string, b: string)
    requires IsDigits(p) && ':' !in a && ':' !in b
    ensures ControlNameToUrl(p + "-" + a + ":" + b) == "/" + a + "/" + b
  {
    var rest := a + ":" + b;
    ConcatAssociative(p + "-", a + ":", b);
    ConcatAssociative(p + "-", a, ":");
    ControlNamePrefixed(p + "-" + rest, p, rest);
    ColonBetween(a, b);
    ConcatAssociative("/", a + "/", b);
    ConcatAssociative("/", a, "/");
  }

  lemma ColonBetween(a: string, b: string)
    requires ':' !in a && ':' !in b
    ensures ReplaceChar(a + ":" + b, ':', '/') == a + "/" + b
  {
    ReplaceCharConcat(a + ":", b, ':', '/');
    ReplaceCharConcat(a, ":", ':', '/');
    ReplaceCharAbsent(a, ':', '/');
    ReplaceCharAbsent(b, ':', '/');
    assert ReplaceChar(":", ':', '/') == "/";
  }

  /**
   * `5-foo:bar` becomes `/foo/bar`.
   * The literals are parameters fixed by `requires`, so that the solver
   * never unfolds a concatenation of literals.
   */
  lemma ControlNamePrefixedExample(p: string, a: string, b: string)
    requires p == "5" && a == "foo" && b == "bar"
    ensures ControlNameToUrl(p + "-" + a + ":" + b) == "/" + a + "/" + b
  {
    assert IsDigits(p) && ':' !in a && ':' !in b;
    ControlNameTwoNames(p, a, b);
  }

  /**
   * `foo:bar` has no ordering prefix and becomes `foo/bar`, without a leading `/`.
   * The literals are parameters fixed by `requires`, so that the solver
   * never unfolds a concatenation of literals.
   */
  lemma ControlNamePlainExample(id: string)
    requires id == "foo:bar"
    ensures ControlNameToUrl(id) == "foo/bar"
  {
    OrderingDigitsZero(id);
    ControlNameToUrlShape(id);
    ColonsBecomeSlashes(id, "foo/bar");
  }

  /**
   * Only the leading prefix goes: `5-a:6-b` becomes `/a/6-b`.
   * The literals are parameters fixed by `requires`, so that the solver
   * never unfolds a concatenation of literals.
   */
  lemma ControlNameInnerPrefixExample(p: string, a: string, b: string)
    requires p == "5" && a == "a" && b == "6-b"
    ensures ControlNameToUrl(p + "-" + a + ":" + b) == "/" + a + "/" + b
  {
    assert IsDigits(p) && ':' !in a && ':' !in b;
    ControlNameTwoNames(p, a, b);
  }

  lemma ColonsBecomeSlashes(s: string, t: string)
    requires |s| == |t|
    requires forall i :: 0 <= i < |s| ==> t[i] == if s[i] == ':' then '/' else s[i]
    ensures ReplaceChar(s, ':', '/') == t
  {
  }

  // ---------------------------------------------------------------------
  // The two normalisations agree

  /** Each name with its ordering prefix: p0-n0, p1-n1, … */
  function OrderedNames(prefixes: seq<string>, names: seq<string>): (segs: seq<string>)
    requires |prefixes| == |names|
    ensures |segs| == |names|
  {
    seq(|names|, i requires 0 <= i < |names| => prefixes[i] + "-" + names[i])
  }

  /** The segments after the content root: the leaf gets `.md`, or an `index.md` is added. */
  function FileSegments(prefixes: seq<string>, names: seq<string>, isIndex: bool): seq<string>
    requires |names| >= 1 && |prefixes| == |names|
  {
    var segs := OrderedNames(prefixes, names);
    var last := |names| - 1;
    if isIndex then segs + ["index.md"] else segs[..last] + [segs[last] + ".md"]
  }

  /**
   * The path of a content file at depth |names|, every segment carrying an
   * ordering prefix: root/p0-n0/p1-n1/…/pk-nk.md, or …/pk-nk/index.md when
   * the topic's text is its folder's index file.
   */
  function ContentFilePath(contentRoot: string, prefixes: seq<string>, names: seq<string>, isIndex: bool): string
    requires |names| >= 1 && |prefixes| == |names|
  {
    contentRoot + ("/" + Join(FileSegments(prefixes, names, isIndex), '/'))
  }

  /** The controlName the roadmap document gives that topic: p0-n0:n1:…:nk. */
  function ControlNameFor(prefix: string, names: seq<string>): string
    requires |names| >= 1
  {
    prefix + "-" + Join(names, ':')
  }

  predicate WellNamed(prefixes: seq<string>, names: seq<string>) {
    && |names| >= 1 && |prefixes| == |names|
    && (forall i :: 0 <= i < |names| ==> IsDigits(prefixes[i]))
    && (forall i :: 0 <= i < |names| ==> '/' !in names[i] && ':' !in names[i])
  }

  /** The names with the file's ending: `index.md` added, or `.md` on the last. */
  function DroppedSegments(names: seq<string>, isIndex: bool): seq<string>
    requires |names| >= 1
  {
    var last := |names| - 1;
    if isIndex then names + ["index.md"] else names[..last] + [names[last] + ".md"]
  }

  /** Removing the ordering prefixes of the file's segments leaves the names. */
  lemma FileSegmentsDropped(prefixes: seq<string>, names: seq<string>, isIndex: bool)
    requires WellNamed(prefixes, names)
    ensures var segs := FileSegments(prefixes, names, isIndex);
      && (forall k :: 0 <= k < |segs| ==> '/' !in segs[k])
      && DropOrderings(segs) == DroppedSegments(names, isIndex)
  {
    var ordered := OrderedNames(prefixes, names);
    var last := |names| - 1;
    forall i | 0 <= i < |names|
      ensures '/' !in ordered[i] && DropOrdering(ordered[i]) == names[i]
    {
      PrefixedSlashFree(prefixes[i], names[i]);
      OrderingOfPrefixed(prefixes[i], names[i]);
    }
    if isIndex {
      OrderingDigitsZero("index.md");
    } else {
      assert '/' !in names[last] + ".md";
      PrefixedSlashFree(prefixes[last], names[last] + ".md");
      OrderingOfPrefixed(prefixes[last], names[last] + ".md");
      assert ordered[last] + ".md" == prefixes[last] + "-" + (names[last] + ".md");
    }
  }

  /** The text before the last segment of "/" + Join(names). */
  lemma SlashJoinLast(names: seq<string>) returns (parent: string)
    requires |names| >= 1
    ensures "/" + Join(names, '/') == parent + "/" + names[|names| - 1]
  {
    if |names| == 1 {
      parent := "";
    } else {
      JoinLast(names, '/');
      parent := "/" + Join(names[..|names| - 1], '/');
    }
  }

  /** A leaf `n.md` after a `/` is not an index file unless n is `index`. */
  lemma NotIndexFile(parent: string, name: string)
    requires '/' !in name && name != "index"
    ensures !EndsWith(parent + "/" + name + ".md", "/index.md")
  {
    var m := name + ".md";
    assert parent + "/" + name + ".md" == parent + ['/'] + m;
    assert '/' !in m;
    assert m[..|m| - 3] == name;
    IndexSuffixChars();
    SlashFreeNotIndex(m);
    if EndsWith(parent + ['/'] + m, "/index.md") {
      SuffixAcrossSeparator(parent, '/', m, "/index.md");
      assert false;
    }
  }

  lemma IndexSuffixChars()
    ensures forall i :: 0 < i < 9 ==> "/index.md"[i] != '/'
    ensures "/index.md"[1..] == "index.md" && "index.md"[..5] == "index"
  {
  }

  lemma SlashFreeNotIndex(m: string)
    requires '/' !in m
    ensures !EndsWith(m, "/index.md")
  {
    assert |m| >= 9 ==> m[|m| - 9..][0] == m[|m| - 9];
  }

  /** A name with no `.md` ending after a `/` gives a path with no `.md` ending. */
  lemma FolderNotMarkdown(parent: string, name: string)
    requires '/' !in name && !EndsWith(name, ".md")
    ensures !EndsWith(parent + "/" + name, ".md")
  {
    assert parent + "/" + name == parent + ['/'] + name;
    if EndsWith(parent + ['/'] + name, ".md") {
      SuffixAcrossSeparator(parent, '/', name, ".md");
    }
  }

  /** A leaf file `…/n.md` loses only its extension, as long as n is not `index`. */
  lemma LeafUrl(names: seq<string>)
    requires |names| >= 1 && '/' !in names[|names| - 1]
    requires names[|names| - 1] != "index"
    ensures StripSuffixes("/" + Join(names, '/') + ".md") == "/" + Join(names, '/')
  {
    var parent := SlashJoinLast(names);
    NotIndexFile(parent, names[|names| - 1]);
    MarkdownExtensionDropped("/" + Join(names, '/'));
  }

  /** An index file `…/n/index.md` stands for `…/n`, as long as n does not end in `.md`. */
  lemma IndexUrl(names: seq<string>)
    requires |names| >= 1 && '/' !in names[|names| - 1]
    requires !EndsWith(names[|names| - 1], ".md")
    ensures StripSuffixes("/" + Join(names, '/') + "/index.md") == "/" + Join(names, '/')
  {
    var parent := SlashJoinLast(names);
    FolderNotMarkdown(parent, names[|names| - 1]);
    IndexFileIsFolder("/" + Join(names, '/'));
  }

  lemma ContentRelative(contentRoot: string, prefixes: seq<string>, names: seq<string>, isIndex: bool)
    requires |names| >= 1 && |prefixes| == |names|
    ensures RemoveFirst(ContentFilePath(contentRoot, prefixes, names, isIndex), contentRoot)
         == "/" + Join(FileSegments(prefixes, names, isIndex), '/')
  {
    RemoveFirstOfPrefix(contentRoot, "/" + Join(FileSegments(prefixes, names, isIndex), '/'));
  }

  lemma DroppedJoin(names: seq<string>, isIndex: bool)
    requires |names| >= 1
    ensures "/" + Join(DroppedSegments(names, isIndex), '/')
         == "/" + Join(names, '/') + (if isIndex then "/index.md" else ".md")
  {
    if isIndex {
      DroppedJoinIndex(names, "index.md", "/index.md");
    } else {
      DroppedJoinLeaf(names, ".md");
    }
  }

  lemma DroppedJoinIndex(names: seq<string>, file: string, suffix: string)
    requires |names| >= 1 && suffix == ['/'] + file
    ensures "/" + Join(names + [file], '/') == "/" + Join(names, '/') + suffix
  {
    JoinAppend(names, file, '/');
    AppendAfterSeparator("/", Join(names, '/'), '/', file, suffix);
  }

  lemma DroppedJoinLeaf(names: seq<string>, ext: string)
    requires |names| >= 1
    ensures "/" + Join(names[..|names| - 1] + [names[|names| - 1] + ext], '/') == "/" + Join(names, '/') + ext
  {
    JoinExtendLast(names, ext, '/');
    ConcatAssociative("/", Join(names, '/'), ext);
  }

  lemma AppendAfterSeparator(a: string, b: string, sep: char, c: string, sepc: string)
    requires sepc == [sep] + c
    ensures a + (b + [sep] + c) == a + b + sepc
  {
  }

  lemma ConcatAssociative(a: string, b: string, c: string)
    ensures a + (b + c) == a + b + c
  {
  }

  lemma StripFileSegments(prefixes: seq<string>, names: seq<string>, isIndex: bool)
    requires WellNamed(prefixes, names)
    ensures StripOrdering("/" + Join(FileSegments(prefixes, names, isIndex), '/'))
         == "/" + Join(names, '/') + (if isIndex then "/index.md" else ".md")
  {
    FileSegmentsDropped(prefixes, names, isIndex);
    StripOrderingSlashed(FileSegments(prefixes, names, isIndex));
    DroppedJoin(names, isIndex);
  }

  lemma ContentSide(contentRoot: string, prefixes: seq<string>, names: seq<string>, isIndex: bool)
    requires WellNamed(prefixes, names)
    ensures StripOrdering(RemoveFirst(ContentFilePath(contentRoot, prefixes, names, isIndex), contentRoot))
         == "/" + Join(names, '/') + (if isIndex then "/index.md" else ".md")
  {
    ContentRelative(contentRoot, prefixes, names, isIndex);
    StripFileSegments(prefixes, names, isIndex);
  }

  lemma ControlSide(prefixes: seq<string>, names: seq<string>)
    requires WellNamed(prefixes, names)
    ensures ControlNameToUrl(ControlNameFor(prefixes[0], names)) == "/" + Join(names, '/')
  {
    var id := ControlNameFor(prefixes[0], names);
    OrderingOfPrefixed(prefixes[0], Join(names, ':'));
    ControlNameToUrlShape(id);
    ReplaceCharJoin(names, ':', '/');
  }

  /**
   * Both sides of the join reach the same topic URL "/n0/n1/…/nk" when the
   * names hold no `/` and no `:` (a `:` in a folder name stays a `:`), a
   * leaf file is not itself called `index`, and an index file's folder name
   * does not end in `.md`.
   */
  lemma JoinAgreement(contentRoot: string, prefixes: seq<string>, names: seq<string>, isIndex: bool)
    requires WellNamed(prefixes, names)
    requires isIndex ==> !EndsWith(names[|names| - 1], ".md")
    requires !isIndex ==> names[|names| - 1] != "index"
    ensures ContentUrl(contentRoot, ContentFilePath(contentRoot, prefixes, names, isIndex)) == "/" + Join(names, '/')
    ensures ControlNameToUrl(ControlNameFor(prefixes[0], names)) == "/" + Join(names, '/')
  {
    ContentSide(contentRoot, prefixes, names, isIndex);
    var last := names[|names| - 1];
    if isIndex {
      IndexUrl(names);
    } else {
      LeafUrl(names);
    }
    ControlSide(prefixes, names);
  }

  lemma OrderingDigitsZero(s: string)
    requires s != [] && !IsDigit(s[0])
    ensures OrderingDigits(s) == 0 && DropOrdering(s) == s
  {
    DigitRunIs(s, 0);
  }

  /**
   * The example pair: `…/5-foo/2-bar.md` and controlName `5-foo:bar`.
   * The literals are parameters fixed by `requires`, so that the solver
   * never unfolds a concatenation of literals.
   */
  lemma JoinExample(root: string, path: string, id: string)
    requires path == root + "/5-foo/2-bar.md" && id == "5-foo:bar"
    ensures ContentUrl(root, path) == "/foo/bar"
    ensures ControlNameToUrl(id) == "/foo/bar"
  {
    var prefixes, names := ["5", "2"], ["foo", "bar"];
    ExampleNames(prefixes, names);
    ExamplePath(root, path, prefixes, names);
    ExampleControlName(id, names);
    JoinAgreement(root, prefixes, names, false);
  }

  lemma ExampleNames(prefixes: seq<string>, names: seq<string>)
    requires prefixes == ["5", "2"] && names == ["foo", "bar"]
    ensures WellNamed(prefixes, names) && names[1] != "index"
    ensures "/" + Join(names, '/') == "/foo/bar"
  {
    assert IsDigits(prefixes[0]) && IsDigits(prefixes[1]);
  }

  lemma ExamplePath(root: string, path: string, prefixes: seq<string>, names: seq<string>)
    requires path == root + "/5-foo/2-bar.md"
    requires prefixes == ["5", "2"] && names == ["foo", "bar"]
    ensures ContentFilePath(root, prefixes, names, false) == path
  {
    var segs := FileSegments(prefixes, names, false);
    ExampleSegments(prefixes, names);
    assert Join(segs, '/') == "5-foo" + "/" + "2-bar.md";
  }

  lemma ExampleSegments(prefixes: seq<string>, names: seq<string>)
    requires prefixes == ["5", "2"] && names == ["foo", "bar"]
    ensures FileSegments(prefixes, names, false) == ["5-foo", "2-bar.md"]
  {
    var ordered := OrderedNames(prefixes, names);
    assert ordered[0] == "5-foo" && ordered[1] == "2-bar";
    assert ordered[..1] == ["5-foo"] && ordered[1] + ".md" == "2-bar.md";
  }

  lemma ExampleControlName(id: string, names: seq<string>)
    requires id == "5-foo:bar" && names == ["foo", "bar"]
    ensures ControlNameFor("5", names) == id
  {
    assert Join(names, ':') == "foo" + ":" + "bar";
  }
}
