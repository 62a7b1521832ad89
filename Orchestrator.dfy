/**
 * writeFileForGroup and run of scripts/roadmap-content.cjs: for every topic
 * group of the roadmap the script resolves the topic URL, looks it up in
 * the content index, reads the file and decides what to do with it; the
 * decision is an Outcome instead of a file-system call.
 *
 * The content files are a function from path to text (`disk`); the text
 * generator's answer to the request of the group at position i is
 * `reply(i)`.
 */
module Orchestrator {
  import opened Strings
  import opened TopicUrl
  import opened ContentIndex
  import opened Roadmap
  import opened Content
  import opened Prompt

  datatype Outcome =
    | Skip                                    // no controlName, or one that normalises to ""
    | Missing(url: string)                    // "Missing file for: <url>"
    | NotEmpty(id: string)                    // "Ignoring <id>. Not empty."
    | WritePlaceholder(path: string, text: string)
    | Generate(path: string, prompt: string)  // the request, and the write of its answer

  /** `# ${topicTitle}`: an absent title is rendered as the text `undefined`. */
  function Placeholder(title: Option<string>): string {
    "# " + match title case Some(t) => t case None => "undefined"
  }

  /** writeFileForGroup up to its first write, with its early returns in order. */
  function DecideGroup(group: Control, mapping: map<string, string>, readFile: string -> string,
                       hasApiKey: bool, roadmapId: string): Outcome
  {
    match group.controlName
    case None => Skip
    case Some(id) =>
      var url := ControlNameToUrl(id);
      if url == [] then Skip
      else if url !in mapping || mapping[url] == [] then Missing(url)
      else
        var path := mapping[url];
        if !IsEmptyContent(readFile(path)) then NotEmpty(id)
        else if !hasApiKey then WritePlaceholder(path, Placeholder(TopicTitle(group)))
        else Generate(path, BuildPrompt(roadmapId, url))
  }

  // ---------------------------------------------------------------------
  // One group

  /** A group is skipped exactly when it has no controlName or an empty one. */
  lemma SkipIff(group: Control, mapping: map<string, string>, readFile: string -> string, hasApiKey: bool, roadmapId: string)
    ensures DecideGroup(group, mapping, readFile, hasApiKey, roadmapId) == Skip
        <==> group.controlName.None? || group.controlName.value == []
  {
    if group.controlName.Some? {
      ControlNameToUrlShape(group.controlName.value);
    }
  }

  /** A named group whose URL has no file in the index is reported missing, under that URL. */
  lemma MissingIff(group: Control, mapping: map<string, string>, readFile: string -> string, hasApiKey: bool, roadmapId: string)
    requires group.controlName.Some? && group.controlName.value != []
    ensures var url := ControlNameToUrl(group.controlName.value);
      DecideGroup(group, mapping, readFile, hasApiKey, roadmapId).Missing?
      <==> url !in mapping || mapping[url] == []
    ensures DecideGroup(group, mapping, readFile, hasApiKey, roadmapId).Missing? ==>
      DecideGroup(group, mapping, readFile, hasApiKey, roadmapId).url == ControlNameToUrl(group.controlName.value)
  {
    ControlNameToUrlShape(group.controlName.value);
  }

  /**
   * Only the file the index gives for the group's own URL is ever written,
   * and only when what it holds counts as empty.
   */
  lemma WritesOnlyEmptyMappedFile(group: Control, mapping: map<string, string>, readFile: string -> string,
                                   hasApiKey: bool, roadmapId: string)
    ensures var o := DecideGroup(group, mapping, readFile, hasApiKey, roadmapId);
      (o.WritePlaceholder? || o.Generate?) ==>
        && group.controlName.Some?
        && ControlNameToUrl(group.controlName.value) in mapping
        && o.path == mapping[ControlNameToUrl(group.controlName.value)]
        && IsEmptyContent(readFile(o.path))
  {
  }

  /** A mapped file with content is left alone, whatever the key and the title. */
  lemma NonEmptyFileIgnored(group: Control, mapping: map<string, string>, readFile: string -> string,
                            hasApiKey: bool, roadmapId: string)
    requires group.controlName.Some?
    requires var url := ControlNameToUrl(group.controlName.value);
      url != [] && url in mapping && mapping[url] != [] && !IsEmptyContent(readFile(mapping[url]))
    ensures DecideGroup(group, mapping, readFile, hasApiKey, roadmapId) == NotEmpty(group.controlName.value)
  {
  }

  /**
   * With no key an empty file gets `# ` and the label's text (`# undefined`
   * without one) and the generator is never asked; with a key it is asked
   * with the prompt for the group's URL.
   */
  lemma EmptyFileFilled(group: Control, mapping: map<string, string>, readFile: string -> string,
                        hasApiKey: bool, roadmapId: string)
    requires group.controlName.Some?
    requires var url := ControlNameToUrl(group.controlName.value);
      url != [] && url in mapping && mapping[url] != [] && IsEmptyContent(readFile(mapping[url]))
    ensures var url := ControlNameToUrl(group.controlName.value);
      DecideGroup(group, mapping, readFile, hasApiKey, roadmapId)
      == if hasApiKey then Generate(mapping[url], BuildPrompt(roadmapId, url))
         else WritePlaceholder(mapping[url], Placeholder(TopicTitle(group)))
  {
  }

  /** A group without a Label child gets the literal placeholder `# undefined`. */
  lemma NoLabelPlaceholder(group: Control)
    requires forall i :: 0 <= i < |group.children| ==> group.children[i].typeID != LabelType
    ensures Placeholder(TopicTitle(group)) == "# undefined"
  {
  }

  /** Without a key the generator is never asked. */
  lemma NoKeyNoRequest(group: Control, mapping: map<string, string>, readFile: string -> string, roadmapId: string)
    ensures !DecideGroup(group, mapping, readFile, false, roadmapId).Generate?
  {
  }

  /** The decision reads only the group's own file. */
  lemma ReadsOnlyOwnFile(group: Control, mapping: map<string, string>, f: string -> string, g: string -> string,
                         hasApiKey: bool, roadmapId: string)
    requires group.controlName.Some?
    requires var url := ControlNameToUrl(group.controlName.value);
      url in mapping ==> f(mapping[url]) == g(mapping[url])
    ensures DecideGroup(group, mapping, f, hasApiKey, roadmapId) == DecideGroup(group, mapping, g, hasApiKey, roadmapId)
  {
  }

  // ---------------------------------------------------------------------
  // All groups: the loop of run

  /** The files as a group reads them: what earlier groups wrote, else what was on disk. */
  function Overlay(disk: string -> string, written: map<string, string>): string -> string {
    p => if p in written then written[p] else disk(p)
  }

  /** The placeholders after one outcome. */
  function AfterOutcome(written: map<string, string>, o: Outcome): map<string, string> {
    if o.WritePlaceholder? then written[o.path := o.text] else written
  }

  /**
   * The groups in order. Without a key writeFileForGroup runs to its end
   * before the loop goes on, so a later group reads what an earlier one
   * wrote; with a key every group has read its file before any answer
   * arrives. The second component is the placeholders written.
   */
  function Decisions(groups: seq<Control>, mapping: map<string, string>, disk: string -> string,
                     written: map<string, string>, hasApiKey: bool, roadmapId: string): (r: (seq<Outcome>, map<string, string>))
    ensures |r.0| == |groups|
    decreases |groups|
  {
    if groups == [] then ([], written)
    else
      var o := DecideGroup(groups[0], mapping, Overlay(disk, written), hasApiKey, roadmapId);
      var next := AfterOutcome(written, o);
      var rest := Decisions(groups[1..], mapping, disk, next, hasApiKey, roadmapId);
      ([o] + rest.0, rest.1)
  }

  /**
   * The generator's answer to one request. In a run where some request
   * fails, the rejection handler ends the process at once, so an answer
   * lands on disk only if it was written before that (`beforeExit`).
   */
  datatype Reply = Generated(text: string, beforeExit: bool) | Failed

  /** Some request was answered with a failure: `Promise.all` rejects. */
  predicate AnyFailed(outcomes: seq<Outcome>, reply: nat -> Reply) {
    exists i :: 0 <= i < |outcomes| && outcomes[i].Generate? && reply(i).Failed?
  }

  /** Whether the answer to request i reaches its file. */
  predicate Lands(reply: nat -> Reply, i: nat, failing: bool) {
    reply(i).Generated? && (!failing || reply(i).beforeExit)
  }

  /** The answers that land, written verbatim to their files, from request i on. */
  function Settle(outcomes: seq<Outcome>, reply: nat -> Reply, failing: bool, i: nat, written: map<string, string>): map<string, string>
    requires i <= |outcomes|
    decreases |outcomes| - i
  {
    if i == |outcomes| then written
    else
      var next := if outcomes[i].Generate? && Lands(reply, i, failing) then written[outcomes[i].path := reply(i).text] else written;
      Settle(outcomes, reply, failing, i + 1, next)
  }

  /** What a run leaves: the outcomes of the groups, the files written and the exit status. */
  datatype RunResult = RunResult(outcomes: seq<Outcome>, written: map<string, string>, exitCode: int)

  /** A file after the run. */
  function FinalContent(result: RunResult, disk: string -> string, path: string): string {
    if path in result.written then result.written[path] else disk(path)
  }

  /**
   * run after the index is built: the topic groups of the document, the
   * loop over them and the wait for every answer. A document without a
   * control list ends the run with status 1 before any group is looked at.
   */
  function RunWith(mapping: map<string, string>, controls: Option<seq<Control>>, disk: string -> string,
                   hasApiKey: bool, roadmapId: string, reply: nat -> Reply): RunResult
  {
    match controls
    case None => RunResult([], map[], 1)
    case Some(cs) =>
      var d := Decisions(TopicGroups(cs), mapping, disk, map[], hasApiKey, roadmapId);
      var failing := AnyFailed(d.0, reply);
      RunResult(d.0, Settle(d.0, reply, failing, 0, d.1), if failing then 1 else 0)
  }

  /** run: the index of the content folder, then the rest of the run on it. */
  function RunSpec(contentRoot: string, tree: seq<Entry>, controls: Option<seq<Control>>, disk: string -> string,
                   hasApiKey: bool, roadmapId: string, reply: nat -> Reply): RunResult
  {
    RunWith(IndexOf(contentRoot, tree), controls, disk, hasApiKey, roadmapId, reply)
  }

  /** Outcomes already decided, in front of the decisions still to come. */
  function Prefixed(done: seq<Outcome>, d: (seq<Outcome>, map<string, string>)): (seq<Outcome>, map<string, string>) {
    (done + d.0, d.1)
  }

  lemma DecisionsStep(groups: seq<Control>, i: nat, mapping: map<string, string>, disk: string -> string,
                      written: map<string, string>, hasApiKey: bool, roadmapId: string, done: seq<Outcome>)
    requires i < |groups|
    ensures var o := DecideGroup(groups[i], mapping, Overlay(disk, written), hasApiKey, roadmapId);
      var next := AfterOutcome(written, o);
      Prefixed(done, Decisions(groups[i..], mapping, disk, written, hasApiKey, roadmapId))
      == Prefixed(done + [o], Decisions(groups[i + 1..], mapping, disk, next, hasApiKey, roadmapId))
  {
    assert groups[i..][0] == groups[i] && groups[i..][1..] == groups[i + 1..];
    var o := DecideGroup(groups[i], mapping, Overlay(disk, written), hasApiKey, roadmapId);
    var next := AfterOutcome(written, o);
    var rest := Decisions(groups[i + 1..], mapping, disk, next, hasApiKey, roadmapId).0;
    assert done + ([o] + rest) == (done + [o]) + rest;
  }

  /** The `for (const group of groups)` loop of run: one call of writeFileForGroup per group. */
  method DecideAll(groups: seq<Control>, mapping: map<string, string>, disk: string -> string,
                   hasApiKey: bool, roadmapId: string) returns (outcomes: seq<Outcome>, written: map<string, string>)
    ensures (outcomes, written) == Decisions(groups, mapping, disk, map[], hasApiKey, roadmapId)
  {
    outcomes, written := [], map[];
    ghost var spec := Decisions(groups, mapping, disk, map[], hasApiKey, roadmapId);
    assert groups[0..] == groups && [] + spec.0 == spec.0;
    var i := 0;
    while i < |groups|
      invariant 0 <= i <= |groups|
      invariant spec == Prefixed(outcomes, Decisions(groups[i..], mapping, disk, written, hasApiKey, roadmapId))
    {
      var o := DecideGroup(groups[i], mapping, Overlay(disk, written), hasApiKey, roadmapId);
      var next := AfterOutcome(written, o);
      DecisionsStep(groups, i, mapping, disk, written, hasApiKey, roadmapId, outcomes);
      outcomes := outcomes + [o];
      written := next;
      i := i + 1;
    }
    assert groups[|groups|..] == [] && outcomes + [] == outcomes;
  }

  /**
   * The script itself: the indexer, the filter, the loop and the wait for
   * every answer, whose first failure sets the exit status.
   */
  method Run(contentRoot: string, tree: seq<Entry>, controls: Option<seq<Control>>, disk: string -> string,
             hasApiKey: bool, roadmapId: string, reply: nat -> Reply) returns (result: RunResult)
    ensures result == RunSpec(contentRoot, tree, controls, disk, hasApiKey, roadmapId, reply)
  {
    var mapping := BuildIndex(contentRoot, tree);
    if controls.None? {
      return RunResult([], map[], 1);
    }
    var outcomes, written := DecideAll(TopicGroups(controls.value), mapping, disk, hasApiKey, roadmapId);
    var failing := AnyFailed(outcomes, reply);
    result := RunResult(outcomes, Settle(outcomes, reply, failing, 0, written), if failing then 1 else 0);
  }

  // ---------------------------------------------------------------------
  // Properties of a whole run

  /** Every path in `written` is a file of the index that counted as empty before the run. */
  predicate WrittenSafely(written: map<string, string>, mapping: map<string, string>, disk: string -> string) {
    forall p :: p in written ==> p in mapping.Values && IsEmptyContent(disk(p))
  }

  /** Every request is for a file of the index that counted as empty before the run. */
  predicate RequestsSafe(outcomes: seq<Outcome>, mapping: map<string, string>, disk: string -> string) {
    forall i :: 0 <= i < |outcomes| && outcomes[i].Generate? ==>
      outcomes[i].path in mapping.Values && IsEmptyContent(disk(outcomes[i].path))
  }

  /**
   * A group reads the placeholders written before it, but a placeholder
   * only goes where the original file was empty, so the loop never
   * targets a file that had content.
   */
  lemma {:induction false} DecisionsSafe(groups: seq<Control>, mapping: map<string, string>, disk: string -> string,
                                         written: map<string, string>, hasApiKey: bool, roadmapId: string)
    requires WrittenSafely(written, mapping, disk)
    ensures var d := Decisions(groups, mapping, disk, written, hasApiKey, roadmapId);
      WrittenSafely(d.1, mapping, disk) && RequestsSafe(d.0, mapping, disk)
    decreases |groups|
  {
    if groups != [] {
      var o := DecideGroup(groups[0], mapping, Overlay(disk, written), hasApiKey, roadmapId);
      var next := AfterOutcome(written, o);
      StepSafe(groups[0], mapping, disk, written, hasApiKey, roadmapId);
      DecisionsSafe(groups[1..], mapping, disk, next, hasApiKey, roadmapId);
      var rest := Decisions(groups[1..], mapping, disk, next, hasApiKey, roadmapId);
      DecisionsCons(groups, mapping, disk, written, hasApiKey, roadmapId, o, rest);
      RequestsSafeCons(o, rest.0, mapping, disk);
    }
  }

  /** One group keeps the placeholders safe, and its request, if any, is safe. */
  lemma StepSafe(group: Control, mapping: map<string, string>, disk: string -> string,
                 written: map<string, string>, hasApiKey: bool, roadmapId: string)
    requires WrittenSafely(written, mapping, disk)
    ensures var o := DecideGroup(group, mapping, Overlay(disk, written), hasApiKey, roadmapId);
      && WrittenSafely(AfterOutcome(written, o), mapping, disk)
      && (o.Generate? ==> o.path in mapping.Values && IsEmptyContent(disk(o.path)))
  {
    var o := DecideGroup(group, mapping, Overlay(disk, written), hasApiKey, roadmapId);
    WritesOnlyEmptyMappedFile(group, mapping, Overlay(disk, written), hasApiKey, roadmapId);
    if o.WritePlaceholder? || o.Generate? {
      var url := ControlNameToUrl(group.controlName.value);
      assert mapping[url] == o.path;
      assert o.path in mapping.Values;
      assert Overlay(disk, written)(o.path) == if o.path in written then written[o.path] else disk(o.path);
    }
  }

  lemma RequestsSafeCons(o: Outcome, rest: seq<Outcome>, mapping: map<string, string>, disk: string -> string)
    requires o.Generate? ==> o.path in mapping.Values && IsEmptyContent(disk(o.path))
    requires RequestsSafe(rest, mapping, disk)
    ensures RequestsSafe([o] + rest, mapping, disk)
  {
    assert forall i :: 1 <= i < |rest| + 1 ==> ([o] + rest)[i] == rest[i - 1];
  }

  lemma {:induction false} SettleSafe(outcomes: seq<Outcome>, reply: nat -> Reply, failing: bool, i: nat,
                                      written: map<string, string>, mapping: map<string, string>, disk: string -> string)
    requires i <= |outcomes|
    requires WrittenSafely(written, mapping, disk) && RequestsSafe(outcomes, mapping, disk)
    ensures WrittenSafely(Settle(outcomes, reply, failing, i, written), mapping, disk)
    decreases |outcomes| - i
  {
    if i < |outcomes| {
      var next := if outcomes[i].Generate? && Lands(reply, i, failing) then written[outcomes[i].path := reply(i).text] else written;
      SettleSafe(outcomes, reply, failing, i + 1, next, mapping, disk);
    }
  }

  /** A run writes only files of the content index, and only those that counted as empty before it. */
  lemma RunWritesOnlyEmptyMappedFiles(mapping: map<string, string>, controls: Option<seq<Control>>,
                                       disk: string -> string, hasApiKey: bool, roadmapId: string, reply: nat -> Reply)
    ensures WrittenSafely(RunWith(mapping, controls, disk, hasApiKey, roadmapId, reply).written,
                          mapping, disk)
  {
    if controls.Some? {
      var d := Decisions(TopicGroups(controls.value), mapping, disk, map[], hasApiKey, roadmapId);
      DecisionsSafe(TopicGroups(controls.value), mapping, disk, map[], hasApiKey, roadmapId);
      SettleSafe(d.0, reply, AnyFailed(d.0, reply), 0, d.1, mapping, disk);
    }
  }

  /** In a well-formed tree what a run writes is a regular file of the tree, never a folder. */
  lemma RunWritesOnlyRegularFiles(contentRoot: string, tree: seq<Entry>, controls: Option<seq<Control>>,
                                  disk: string -> string, hasApiKey: bool, roadmapId: string, reply: nat -> Reply)
    requires WellFormed(tree)
    ensures forall p :: p in RunSpec(contentRoot, tree, controls, disk, hasApiKey, roadmapId, reply).written ==>
      p in FilePaths(contentRoot, tree) && p !in DirPaths(contentRoot, tree)
  {
    RunWritesOnlyEmptyMappedFiles(IndexOf(contentRoot, tree), controls, disk, hasApiKey, roadmapId, reply);
    IndexValuesAreFiles(contentRoot, tree);
  }

  /** A file that had content before the run has the same content after it. */
  lemma NonEmptyFileUnchanged(mapping: map<string, string>, controls: Option<seq<Control>>,
                              disk: string -> string, hasApiKey: bool, roadmapId: string, reply: nat -> Reply, path: string)
    requires !IsEmptyContent(disk(path))
    ensures FinalContent(RunWith(mapping, controls, disk, hasApiKey, roadmapId, reply), disk, path) == disk(path)
  {
    RunWritesOnlyEmptyMappedFiles(mapping, controls, disk, hasApiKey, roadmapId, reply);
  }

  /** No outcome is a request to the generator. */
  predicate NoRequests(outcomes: seq<Outcome>) {
    forall i :: 0 <= i < |outcomes| ==> !outcomes[i].Generate?
  }

  lemma {:induction false} DecisionsWithoutKey(groups: seq<Control>, mapping: map<string, string>, disk: string -> string,
                                               written: map<string, string>, roadmapId: string)
    ensures NoRequests(Decisions(groups, mapping, disk, written, false, roadmapId).0)
    decreases |groups|
  {
    if groups != [] {
      var o := DecideGroup(groups[0], mapping, Overlay(disk, written), false, roadmapId);
      NoKeyNoRequest(groups[0], mapping, Overlay(disk, written), roadmapId);
      var next := AfterOutcome(written, o);
      DecisionsWithoutKey(groups[1..], mapping, disk, next, roadmapId);
      var rest := Decisions(groups[1..], mapping, disk, next, false, roadmapId);
      DecisionsCons(groups, mapping, disk, written, false, roadmapId, o, rest);
      assert forall i :: 1 <= i < |rest.0| + 1 ==> ([o] + rest.0)[i] == rest.0[i - 1];
    }
  }

  lemma {:induction false} SettleWithoutRequests(outcomes: seq<Outcome>, reply: nat -> Reply, failing: bool, i: nat,
                                                 written: map<string, string>)
    requires i <= |outcomes|
    requires NoRequests(outcomes)
    ensures Settle(outcomes, reply, failing, i, written) == written
    decreases |outcomes| - i
  {
    if i < |outcomes| {
      SettleWithoutRequests(outcomes, reply, failing, i + 1, written);
    }
  }

  /**
   * Without a key a run asks the generator nothing, writes only the
   * placeholders of its loop and ends with status 0.
   */
  lemma RunWithoutKey(mapping: map<string, string>, cs: seq<Control>, disk: string -> string,
                      roadmapId: string, reply: nat -> Reply)
    ensures var r := RunWith(mapping, Some(cs), disk, false, roadmapId, reply);
      && r.exitCode == 0
      && NoRequests(r.outcomes)
      && r.written == Decisions(TopicGroups(cs), mapping, disk, map[], false, roadmapId).1
  {
    var d := Decisions(TopicGroups(cs), mapping, disk, map[], false, roadmapId);
    DecisionsWithoutKey(TopicGroups(cs), mapping, disk, map[], roadmapId);
    SettleWithoutRequests(d.0, reply, AnyFailed(d.0, reply), 0, d.1);
  }

  /** Each outcome is the decision of its group on the files as they were before the run. */
  predicate DecidedOnDisk(outcomes: seq<Outcome>, groups: seq<Control>, mapping: map<string, string>,
                          disk: string -> string, roadmapId: string) {
    |outcomes| == |groups| &&
    forall i :: 0 <= i < |groups| ==> outcomes[i] == DecideGroup(groups[i], mapping, disk, true, roadmapId)
  }

  /**
   * With a key no placeholder is written and every group decides on the
   * file as it was before the run, independently of the other groups.
   */
  lemma {:induction false} DecisionsWithKey(groups: seq<Control>, mapping: map<string, string>, disk: string -> string,
                                            roadmapId: string)
    ensures var d := Decisions(groups, mapping, disk, map[], true, roadmapId);
      d.1 == map[] && DecidedOnDisk(d.0, groups, mapping, disk, roadmapId)
    decreases |groups|
  {
    if groups != [] {
      var o := DecideGroup(groups[0], mapping, Overlay(disk, map[]), true, roadmapId);
      KeyStep(groups[0], mapping, disk, roadmapId);
      DecisionsWithKey(groups[1..], mapping, disk, roadmapId);
      var rest := Decisions(groups[1..], mapping, disk, map[], true, roadmapId);
      DecisionsCons(groups, mapping, disk, map[], true, roadmapId, o, rest);
      DecidedOnDiskCons(o, rest.0, groups, mapping, disk, roadmapId);
    }
  }

  lemma DecidedOnDiskCons(o: Outcome, rest: seq<Outcome>, groups: seq<Control>, mapping: map<string, string>,
                          disk: string -> string, roadmapId: string)
    requires groups != [] && o == DecideGroup(groups[0], mapping, disk, true, roadmapId)
    requires DecidedOnDisk(rest, groups[1..], mapping, disk, roadmapId)
    ensures DecidedOnDisk([o] + rest, groups, mapping, disk, roadmapId)
  {
    var decide := g => DecideGroup(g, mapping, disk, true, roadmapId);
    assert forall i :: 0 <= i < |rest| ==> rest[i] == decide(groups[1..][i]);
    MapCons(decide, o, rest, groups);
    assert forall i :: 0 <= i < |groups| ==> ([o] + rest)[i] == decide(groups[i]);
  }

  lemma MapCons<A, B>(f: A -> B, x: B, rest: seq<B>, xs: seq<A>)
    requires xs != [] && x == f(xs[0]) && |rest| == |xs| - 1
    requires forall i :: 0 <= i < |rest| ==> rest[i] == f(xs[1..][i])
    ensures forall i :: 0 <= i < |xs| ==> ([x] + rest)[i] == f(xs[i])
  {
    assert forall i :: 1 <= i < |xs| ==> ([x] + rest)[i] == rest[i - 1] && xs[i] == xs[1..][i - 1];
  }

  /** With a key a group writes no placeholder and decides on the file as it was on disk. */
  lemma KeyStep(group: Control, mapping: map<string, string>, disk: string -> string, roadmapId: string)
    ensures var o := DecideGroup(group, mapping, Overlay(disk, map[]), true, roadmapId);
      && AfterOutcome(map[], o) == map[]
      && o == DecideGroup(group, mapping, disk, true, roadmapId)
  {
    if group.controlName.Some? {
      ReadsOnlyOwnFile(group, mapping, Overlay(disk, map[]), disk, true, roadmapId);
    }
  }

  lemma {:induction false} SettleAllFailed(outcomes: seq<Outcome>, reply: nat -> Reply, failing: bool, i: nat,
                                           written: map<string, string>)
    requires i <= |outcomes|
    requires forall n: nat :: reply(n) == Failed
    ensures Settle(outcomes, reply, failing, i, written) == written
    decreases |outcomes| - i
  {
    if i < |outcomes| {
      SettleAllFailed(outcomes, reply, failing, i + 1, written);
    }
  }

  /**
   * With a key and a generator that always fails, a run in which some
   * topic group gets as far as the request (its file is in the index and
   * empty, EmptyFileFilled) ends with status 1 and writes nothing.
   */
  lemma FailingGeneratorFailsRun(mapping: map<string, string>, cs: seq<Control>, disk: string -> string,
                                 roadmapId: string, reply: nat -> Reply, i: nat)
    requires forall n: nat :: reply(n) == Failed
    requires i < |TopicGroups(cs)| && DecideGroup(TopicGroups(cs)[i], mapping, disk, true, roadmapId).Generate?
    ensures var r := RunWith(mapping, Some(cs), disk, true, roadmapId, reply);
      r.exitCode == 1 && r.written == map[]
  {
    var groups := TopicGroups(cs);
    var d := Decisions(groups, mapping, disk, map[], true, roadmapId);
    DecisionsWithKey(groups, mapping, disk, roadmapId);
    assert d.0[i].Generate? && reply(i).Failed?;
    SettleAllFailed(d.0, reply, AnyFailed(d.0, reply), 0, d.1);
  }

  /** Requests from i on that write `path`. */
  predicate NoRequestFor(outcomes: seq<Outcome>, i: nat, path: string) {
    forall j :: i <= j < |outcomes| && outcomes[j].Generate? ==> outcomes[j].path != path
  }

  lemma {:induction false} SettleElsewhere(outcomes: seq<Outcome>, reply: nat -> Reply, failing: bool, i: nat,
                                           written: map<string, string>, path: string)
    requires i <= |outcomes| && NoRequestFor(outcomes, i, path)
    ensures var w := Settle(outcomes, reply, failing, i, written);
      (path in w <==> path in written) && (path in w ==> w[path] == written[path])
    decreases |outcomes| - i
  {
    if i < |outcomes| {
      var next := if outcomes[i].Generate? && Lands(reply, i, failing) then written[outcomes[i].path := reply(i).text] else written;
      SettleElsewhere(outcomes, reply, failing, i + 1, next, path);
    }
  }

  lemma {:induction false} SettleWrites(outcomes: seq<Outcome>, reply: nat -> Reply, failing: bool, k: nat,
                                        written: map<string, string>, i: nat)
    requires k <= i < |outcomes| && outcomes[i].Generate? && Lands(reply, i, failing)
    requires NoRequestFor(outcomes, i + 1, outcomes[i].path)
    ensures var w := Settle(outcomes, reply, failing, k, written);
      outcomes[i].path in w && w[outcomes[i].path] == reply(i).text
    decreases i - k
  {
    var next := if outcomes[k].Generate? && Lands(reply, k, failing) then written[outcomes[k].path := reply(k).text] else written;
    if k < i {
      SettleWrites(outcomes, reply, failing, k + 1, next, i);
    } else {
      SettleElsewhere(outcomes, reply, failing, k + 1, next, outcomes[i].path);
    }
  }

  /**
   * The generator's text is written verbatim: when no later request
   * targets the same file and the answer lands, the file holds exactly
   * that text after the run.
   */
  lemma AnswerWrittenVerbatim(mapping: map<string, string>, controls: Option<seq<Control>>,
                              disk: string -> string, hasApiKey: bool, roadmapId: string, reply: nat -> Reply, i: nat)
    requires var r := RunWith(mapping, controls, disk, hasApiKey, roadmapId, reply);
      && i < |r.outcomes| && r.outcomes[i].Generate?
      && reply(i).Generated? && (reply(i).beforeExit || !AnyFailed(r.outcomes, reply))
      && NoRequestFor(r.outcomes, i + 1, r.outcomes[i].path)
    ensures var r := RunWith(mapping, controls, disk, hasApiKey, roadmapId, reply);
      FinalContent(r, disk, r.outcomes[i].path) == reply(i).text
  {
    var groups := TopicGroups(controls.value);
    var d := Decisions(groups, mapping, disk, map[], hasApiKey, roadmapId);
    SettleWrites(d.0, reply, AnyFailed(d.0, reply), 0, d.1, i);
  }

  /** The decisions of a non-empty list: the first group's, then the rest's on what it wrote. */
  lemma DecisionsCons(groups: seq<Control>, mapping: map<string, string>, disk: string -> string,
                      written: map<string, string>, hasApiKey: bool, roadmapId: string,
                      o: Outcome, rest: (seq<Outcome>, map<string, string>))
    requires groups != []
    requires DecideGroup(groups[0], mapping, Overlay(disk, written), hasApiKey, roadmapId) == o
    requires Decisions(groups[1..], mapping, disk, AfterOutcome(written, o), hasApiKey, roadmapId) == rest
    ensures Decisions(groups, mapping, disk, written, hasApiKey, roadmapId) == ([o] + rest.0, rest.1)
  {
  }

  lemma DecisionsOfOne(g: Control, mapping: map<string, string>, disk: string -> string, written: map<string, string>,
                       hasApiKey: bool, roadmapId: string, o: Outcome)
    requires DecideGroup(g, mapping, Overlay(disk, written), hasApiKey, roadmapId) == o
    ensures Decisions([g], mapping, disk, written, hasApiKey, roadmapId) == ([o], AfterOutcome(written, o))
  {
    var next := AfterOutcome(written, o);
    SingletonParts(g);
    DecisionsCons([g], mapping, disk, written, hasApiKey, roadmapId, o, ([], next));
    assert [o] + [] == [o];
  }

  lemma DecisionsOfTwo(g1: Control, g2: Control, mapping: map<string, string>, disk: string -> string,
                       hasApiKey: bool, roadmapId: string, o1: Outcome, o2: Outcome)
    requires DecideGroup(g1, mapping, Overlay(disk, map[]), hasApiKey, roadmapId) == o1
    requires DecideGroup(g2, mapping, Overlay(disk, AfterOutcome(map[], o1)), hasApiKey, roadmapId) == o2
    ensures Decisions([g1, g2], mapping, disk, map[], hasApiKey, roadmapId) == ([o1, o2], AfterOutcome(AfterOutcome(map[], o1), o2))
  {
    var w1 := AfterOutcome(map[], o1);
    DecisionsOfOne(g2, mapping, disk, w1, hasApiKey, roadmapId, o2);
    PairParts(g1, g2);
    DecisionsCons([g1, g2], mapping, disk, map[], hasApiKey, roadmapId, o1, ([o2], AfterOutcome(w1, o2)));
    assert [o1] + [o2] == [o1, o2];
  }

  lemma SingletonParts(g: Control)
    ensures [g] != [] && [g][0] == g && [g][1..] == []
  {
  }

  lemma PairParts(g1: Control, g2: Control)
    ensures [g1, g2] != [] && [g1, g2][0] == g1 && [g1, g2][1..] == [g2]
  {
  }

  lemma PlaceholderDecided(g: Control, m: map<string, string>, disk: string -> string, roadmapId: string,
                           id: string, title: string)
    requires g.controlName == Some(id)
    requires var u := ControlNameToUrl(id);
      u != [] && u in m && m[u] != [] && IsEmptyContent(disk(m[u]))
    requires TopicTitle(g) == Some(title)
    ensures DecideGroup(g, m, Overlay(disk, map[]), false, roadmapId) == WritePlaceholder(m[ControlNameToUrl(id)], Placeholder(Some(title)))
  {
    EmptyFileFilled(g, m, Overlay(disk, map[]), false, roadmapId);
  }

  lemma IgnoredDecided(g: Control, m: map<string, string>, disk: string -> string, p1: string, text: string,
                       roadmapId: string, id: string)
    requires g.controlName == Some(id)
    requires var u := ControlNameToUrl(id);
      u != [] && u in m && m[u] != [] && m[u] != p1 && !IsEmptyContent(disk(m[u]))
    ensures DecideGroup(g, m, Overlay(disk, map[p1 := text]), false, roadmapId) == NotEmpty(id)
  {
    OverlayElsewhere(disk, p1, text, m[ControlNameToUrl(id)]);
    NonEmptyFileIgnored(g, m, Overlay(disk, map[p1 := text]), false, roadmapId);
  }

  /** A file other than the one written reads as it was on disk. */
  lemma OverlayElsewhere(disk: string -> string, p1: string, text: string, p: string)
    requires p != p1
    ensures Overlay(disk, map[p1 := text])(p) == disk(p)
  {
  }

  lemma PlaceholderThenIgnored(mapping: map<string, string>, g1: Control, g2: Control, disk: string -> string,
                               roadmapId: string, reply: nat -> Reply, p1: string, text: string, id2: string)
    requires IsTopicGroup(g1) && IsTopicGroup(g2)
    requires DecideGroup(g1, mapping, Overlay(disk, map[]), false, roadmapId) == WritePlaceholder(p1, text)
    requires DecideGroup(g2, mapping, Overlay(disk, map[p1 := text]), false, roadmapId) == NotEmpty(id2)
    ensures RunWith(mapping, Some([g1, g2]), disk, false, roadmapId, reply)
         == RunResult([WritePlaceholder(p1, text), NotEmpty(id2)], map[p1 := text], 0)
  {
    var o1 := WritePlaceholder(p1, text);
    assert AfterOutcome(map[], o1) == map[p1 := text];
    RunOfTwo(mapping, g1, g2, disk, roadmapId, reply, o1, NotEmpty(id2));
  }

  /** A run over two topic groups without a key, given the decision for each. */
  lemma RunOfTwo(mapping: map<string, string>, g1: Control, g2: Control, disk: string -> string,
                 roadmapId: string, reply: nat -> Reply, o1: Outcome, o2: Outcome)
    requires IsTopicGroup(g1) && IsTopicGroup(g2)
    requires DecideGroup(g1, mapping, Overlay(disk, map[]), false, roadmapId) == o1
    requires DecideGroup(g2, mapping, Overlay(disk, AfterOutcome(map[], o1)), false, roadmapId) == o2
    ensures RunWith(mapping, Some([g1, g2]), disk, false, roadmapId, reply)
         == RunResult([o1, o2], AfterOutcome(AfterOutcome(map[], o1), o2), 0)
  {
    assert TopicGroups([g1, g2]) == [g1, g2] by {
      assert [g1, g2][1..] == [g2];
    }
    DecisionsOfTwo(g1, g2, mapping, disk, false, roadmapId, o1, o2);
    RunWithoutKey(mapping, [g1, g2], disk, roadmapId, reply);
  }

  /**
   * Two topic groups without a key, the first on an empty file and the
   * second on a file with content: the first file ends up holding exactly
   * `# ` and the label, the second is as it was, and the run succeeds.
   */
  lemma TwoGroupsWithoutKey(mapping: map<string, string>, g1: Control, g2: Control, disk: string -> string,
                            roadmapId: string, reply: nat -> Reply, id1: string, id2: string, title: string)
    requires IsTopicGroup(g1) && IsTopicGroup(g2)
    requires g1.controlName == Some(id1) && g2.controlName == Some(id2)
    requires var u1 := ControlNameToUrl(id1);
           var u2 := ControlNameToUrl(id2);
      && u1 != [] && u1 in mapping && mapping[u1] != [] && IsEmptyContent(disk(mapping[u1]))
      && u2 != [] && u2 in mapping && mapping[u2] != [] && !IsEmptyContent(disk(mapping[u2]))
    requires TopicTitle(g1) == Some(title)
    ensures var r := RunWith(mapping, Some([g1, g2]), disk, false, roadmapId, reply);
      && r.exitCode == 0
      && FinalContent(r, disk, mapping[ControlNameToUrl(id1)]) == Placeholder(Some(title))
      && FinalContent(r, disk, mapping[ControlNameToUrl(id2)]) == disk(mapping[ControlNameToUrl(id2)])
  {
    var p1, p2 := mapping[ControlNameToUrl(id1)], mapping[ControlNameToUrl(id2)];
    var text := Placeholder(Some(title));
    DistinctFiles(disk, p1, p2);
    PlaceholderDecided(g1, mapping, disk, roadmapId, id1, title);
    IgnoredDecided(g2, mapping, disk, p1, text, roadmapId, id2);
    PlaceholderThenIgnored(mapping, g1, g2, disk, roadmapId, reply, p1, text, id2);
    FinalOfTwo(RunWith(mapping, Some([g1, g2]), disk, false, roadmapId, reply), disk, p1, text, p2,
               [WritePlaceholder(p1, text), NotEmpty(id2)]);
  }

  /** A file that counts as empty and one that does not are two files. */
  lemma DistinctFiles(disk: string -> string, p1: string, p2: string)
    requires IsEmptyContent(disk(p1)) && !IsEmptyContent(disk(p2))
    ensures p1 != p2
  {
  }

  lemma FinalOfTwo(r: RunResult, disk: string -> string, p1: string, text: string, p2: string, outcomes: seq<Outcome>)
    requires p1 != p2 && r == RunResult(outcomes, map[p1 := text], 0)
    ensures r.exitCode == 0 && FinalContent(r, disk, p1) == text && FinalContent(r, disk, p2) == disk(p2)
  {
  }
}
