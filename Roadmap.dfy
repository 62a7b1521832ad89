/**
 * The roadmap document as scripts/roadmap-content.cjs reads it: a list of
 * mockup controls, of which the topic groups are kept (run, the `filter`
 * over `mockup.controls.control`), and inside a group the first `Label`
 * child gives the topic's title (writeFileForGroup, the `find` over the
 * group's own `children.controls.control`).
 */
module Roadmap {
  import opened Strings

  /**
   * One control of the mockup: its type tag, the two properties the script
   * reads (`controlName` and `text`, each possibly absent) and its child
   * controls (an absent child list reads as an empty one).
   */
  datatype Control = Control(typeID: string, controlName: Option<string>, text: Option<string>, children: seq<Control>)

  const GroupType := "__group__"
  const LabelType := "Label"
  const ExternalLinkPrefix := "ext_link"

  /** `typeID === '__group__' && !controlName?.startsWith('ext_link')` */
  predicate IsTopicGroup(c: Control) {
    c.typeID == GroupType && !(c.controlName.Some? && StartsWith(c.controlName.value, ExternalLinkPrefix))
  }

  /** The `filter` of run: the topic groups, in document order. */
  function TopicGroups(controls: seq<Control>): (groups: seq<Control>)
    ensures |groups| <= |controls|
    ensures forall g :: g in groups ==> g in controls && IsTopicGroup(g)
  {
    if controls == [] then []
    else if IsTopicGroup(controls[0]) then [controls[0]] + TopicGroups(controls[1..])
    else TopicGroups(controls[1..])
  }

  /** The filter keeps a control exactly when it is a topic group. */
  lemma {:induction false} TopicGroupsMembers(controls: seq<Control>, c: Control)
    ensures c in TopicGroups(controls) <==> c in controls && IsTopicGroup(c)
  {
    if controls != [] {
      TopicGroupsMembers(controls[1..], c);
      assert c in controls <==> c == controls[0] || c in controls[1..];
    }
  }

  /** It keeps every copy of a topic group and no copy of anything else. */
  lemma {:induction false} TopicGroupsCount(controls: seq<Control>, c: Control)
    ensures multiset(TopicGroups(controls))[c] == if IsTopicGroup(c) then multiset(controls)[c] else 0
  {
    if controls != [] {
      TopicGroupsCount(controls[1..], c);
      assert controls == [controls[0]] + controls[1..];
    }
  }

  /** It keeps the document order: the filter of a concatenation is the concatenation of the filters. */
  lemma {:induction false} TopicGroupsAppend(a: seq<Control>, b: seq<Control>)
    ensures TopicGroups(a + b) == TopicGroups(a) + TopicGroups(b)
  {
    if a == [] {
      assert a + b == b;
    } else {
      assert (a + b)[0] == a[0] && (a + b)[1..] == a[1..] + b;
      TopicGroupsAppend(a[1..], b);
    }
  }

  /** An external-link group never reaches the per-group step. */
  lemma ExternalLinksExcluded(controls: seq<Control>, c: Control)
    requires c.controlName.Some? && StartsWith(c.controlName.value, ExternalLinkPrefix)
    ensures c !in TopicGroups(controls)
  {
  }

  /** The `find` of writeFileForGroup: the first child whose typeID is `Label`. */
  function FindLabel(children: seq<Control>): (r: Option<Control>)
    ensures r.None? <==> forall i :: 0 <= i < |children| ==> children[i].typeID != LabelType
    ensures r.Some? ==> r.value.typeID == LabelType
    ensures r.Some? ==> exists i :: (0 <= i < |children| && children[i] == r.value
                                     && forall j :: 0 <= j < i ==> children[j].typeID != LabelType)
  {
    if children == [] then None
    else if children[0].typeID == LabelType then Some(children[0])
    else
      var r := FindLabel(children[1..]);
      assert forall i :: 0 < i < |children| ==> children[i] == children[1..][i - 1];
      r
  }

  /** `…find(…)?.properties?.text`: absent without a label, or when the label has no text. */
  function TopicTitle(group: Control): Option<string> {
    match FindLabel(group.children)
    case None => None
    case Some(first) => first.text
  }

  /** The title is the text of the first label, whatever later labels say. */
  lemma TitleOfFirstLabel(group: Control, before: seq<Control>, first: Control, after: seq<Control>)
    requires group.children == before + [first] + after
    requires forall i :: 0 <= i < |before| ==> before[i].typeID != LabelType
    requires first.typeID == LabelType
    ensures TopicTitle(group) == first.text
  {
    var cs := group.children;
    assert cs[|before|] == first;
    assert forall i :: 0 <= i < |before| ==> cs[i] == before[i];
  }
}
