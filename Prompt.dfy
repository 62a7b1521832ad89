/**
 * writeTopicContent of scripts/roadmap-content.cjs up to the request: the
 * topic URL gives a parent and a child topic, the roadmap id gives a title,
 * and both are rendered into a fixed prompt.
 */
module Prompt {
  import opened Strings
  import opened TopicUrl

  /** `.replace(/-/g, ' ')`, the display form of a segment or of the roadmap id. */
  function Spaced(s: string): (r: string)
    ensures |r| == |s| && '-' !in r
  {
    ReplaceCharRemoves(s, '-', ' ');
    ReplaceChar(s, '-', ' ')
  }

  /** The two names `const [parentTopic, childTopic]` destructures; a missing child is None. */
  datatype Topics = Topics(parent: string, child: Option<string>)

  /** `.replace(/^\//, '')`: one leading `/` goes. */
  function DropLeadingSlash(s: string): string {
    if s != [] && s[0] == '/' then s[1..] else s
  }

  /** `.slice(-2).map(…)`: the last two segments, or the only one. */
  function LastTwo(parts: seq<string>): Topics
    requires |parts| >= 1
  {
    var n := |parts|;
    if n >= 2 then Topics(Spaced(parts[n - 2]), Some(Spaced(parts[n - 1])))
    else Topics(Spaced(parts[0]), None)
  }

  /** `.split('/').slice(-2).map(…)` */
  function LastTwoTopics(v: string): Topics {
    LastTwo(Split(v, '/'))
  }

  /**
   * The chain of writeTopicContent: it applies the controlName replacements
   * a second time, drops one leading `/` and keeps the last two segments.
   */
  function SplitTopics(url: string): Topics {
    LastTwoTopics(DropLeadingSlash(ControlNameToUrl(url)))
  }

  /** `roadmapId.replace(/-/g, ' ')` */
  function RoadmapTitle(roadmapId: string): string {
    Spaced(roadmapId)
  }

  /** The fixed part of the prompt, with the roadmap title in its two places. */
  function Template(roadmapTitle: string): string {
    "I will give you a topic and you need to write a brief introduction for that with regards to \""
    + roadmapTitle
    + "\". Your format should be as follows and be in strictly markdown format:\n\n"
    + "# (Put a heading for the topic without adding parent \"Subtopic in Topic\" or \"Topic in Roadmap\" etc.)\n\n"
    + "(Write me a brief introduction for the topic with regards to \""
    + roadmapTitle
    + "\")\n\n(add any code snippets ONLY if necessary and makes sense)\n\n"
  }

  /** `!childTopic` holds for a missing child and for an empty one. */
  function TopicLine(t: Topics): string {
    if t.child.None? || t.child.value == [] then "First topic is: " + t.parent
    else "First topic is: " + t.child.value + " under " + t.parent
  }

  function BuildPrompt(roadmapId: string, url: string): string {
    Template(RoadmapTitle(roadmapId)) + TopicLine(SplitTopics(url))
  }

  // ---------------------------------------------------------------------
  // What the topics of a URL are

  /** writeFileForGroup already normalised the URL, so the second pass changes nothing. */
  lemma SecondPassChangesNothing(id: string)
    ensures SplitTopics(ControlNameToUrl(id)) == LastTwoTopics(DropLeadingSlash(ControlNameToUrl(id)))
  {
    ControlNameToUrlIdempotent(id);
  }

  /** A URL `/n0/…/nk` of plain names normalises to itself. */
  lemma PlainUrlKept(names: seq<string>)
    requires |names| >= 1
    requires forall k :: 0 <= k < |names| ==> '/' !in names[k] && ':' !in names[k]
    ensures ControlNameToUrl("/" + Join(names, '/')) == "/" + Join(names, '/')
  {
    var u := "/" + Join(names, '/');
    DigitRunIs(u, 0);
    JoinFree(names, '/', ':');
    ReplaceCharAbsent(u, ':', '/');
  }

  /** Splitting a join of slash-free names gives the names back, so their last two are the topics. */
  lemma LastTwoOfJoin(names: seq<string>)
    requires |names| >= 1
    requires forall k :: 0 <= k < |names| ==> '/' !in names[k]
    ensures var n := |names|;
      LastTwoTopics(Join(names, '/'))
      == if n >= 2 then Topics(Spaced(names[n - 2]), Some(Spaced(names[n - 1])))
         else Topics(Spaced(names[0]), None)
  {
    SplitJoin(names, '/');
    assert LastTwoTopics(Join(names, '/')) == LastTwo(names);
  }

  /**
   * For a URL `/n0/…/nk` the parent is the second-to-last name and the child
   * the last, with hyphens shown as spaces; a URL of one name has no child.
   */
  lemma TopicsOfUrl(names: seq<string>)
    requires |names| >= 1
    requires forall k :: 0 <= k < |names| ==> '/' !in names[k] && ':' !in names[k]
    ensures var n := |names|;
      SplitTopics("/" + Join(names, '/'))
      == if n >= 2 then Topics(Spaced(names[n - 2]), Some(Spaced(names[n - 1])))
         else Topics(Spaced(names[0]), None)
  {
    var j := Join(names, '/');
    PlainUrlKept(names);
    assert ("/" + j)[1..] == j;
    assert SplitTopics("/" + j) == LastTwoTopics(j);
    LastTwoOfJoin(names);
  }

  /** The line for a nested topic names the child under its parent. */
  lemma NestedTopicLine(names: seq<string>)
    requires |names| >= 2 && names[|names| - 1] != []
    requires forall k :: 0 <= k < |names| ==> '/' !in names[k] && ':' !in names[k]
    ensures TopicLine(SplitTopics("/" + Join(names, '/')))
         == "First topic is: " + Spaced(names[|names| - 1]) + " under " + Spaced(names[|names| - 2])
  {
    TopicsOfUrl(names);
  }

  /** The line for a top-level topic names it alone. */
  lemma TopLevelTopicLine(name: string)
    requires '/' !in name && ':' !in name
    ensures TopicLine(SplitTopics("/" + name)) == "First topic is: " + Spaced(name)
  {
    TopicsOfUrl([name]);
  }

  /** A trailing `/` leaves an empty child, and the line falls back to the parent. */
  lemma EmptyChildTopicLine(name: string)
    requires '/' !in name && ':' !in name
    ensures TopicLine(SplitTopics("/" + name + "/")) == "First topic is: " + Spaced(name)
  {
    TopicsOfUrl([name, ""]);
    assert "/" + Join([name, ""], '/') == "/" + name + "/";
  }

  /** The prompt is the template for the roadmap's title followed by the topic line. */
  lemma PromptOfTopic(roadmapId: string, names: seq<string>)
    requires |names| >= 2 && names[|names| - 1] != []
    requires forall k :: 0 <= k < |names| ==> '/' !in names[k] && ':' !in names[k]
    ensures BuildPrompt(roadmapId, "/" + Join(names, '/'))
         == Template(RoadmapTitle(roadmapId))
            + ("First topic is: " + Spaced(names[|names| - 1]) + " under " + Spaced(names[|names| - 2]))
  {
    var line := "First topic is: " + Spaced(names[|names| - 1]) + " under " + Spaced(names[|names| - 2]);
    NestedTopicLine(names);
    PromptWithLine(roadmapId, "/" + Join(names, '/'), line);
  }

  lemma PromptWithLine(roadmapId: string, url: string, line: string)
    requires TopicLine(SplitTopics(url)) == line
    ensures BuildPrompt(roadmapId, url) == Template(RoadmapTitle(roadmapId)) + line
  {
  }
}
