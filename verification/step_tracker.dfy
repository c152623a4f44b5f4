/**
 * The page's progress panel: six steps, each pending, running or
 * completed, driven by the status messages of the event stream.  A status
 * message activates the step whose keyword it contains (compared in lower
 * case); the activated step runs and any other running step completes.
 * The completion event completes whatever still runs.
 */
module StepTracker {
  import opened Wrappers
  import opened Text
  import opened Events
  import Mission
  import Researcher
  import ContentParser

  /** `'error'` is part of the page's status type but nothing sets it. */
  datatype RunState = Pending | Running | Completed | Failed

  datatype StepStatus = StepStatus(id: Step, name: string, status: RunState)

  /** The pipeline's steps in display order. */
  const Order: seq<Step> := [Init, Research, Parsing, Analysis, Briefing, Evaluation]
  const Labels: seq<string> := ["Initialization", "Research", "Content Parsing", "Semantic Analysis", "Briefing Generation", "Evaluation"]

  const InitialSteps: seq<StepStatus> := seq(6, i requires 0 <= i < 6 => StepStatus(Order[i], Labels[i], Pending))

  predicate DistinctIds(steps: seq<StepStatus>) {
    forall i, j :: 0 <= i < j < |steps| ==> steps[i].id != steps[j].id
  }

  /** The reset when a mission starts: every step pending. */
  function Reset(steps: seq<StepStatus>): (r: seq<StepStatus>)
    ensures |r| == |steps|
    ensures forall i :: 0 <= i < |r| ==> r[i].id == steps[i].id && r[i].name == steps[i].name && r[i].status == Pending
  {
    seq(|steps|, i requires 0 <= i < |steps| => steps[i].(status := Pending))
  }

  /** The page's keyword test for `step` on a lower-cased message. */
  predicate Names(m: string, step: Step) {
    match step
    case Init => Contains(m, "starting mission")
    case Research => Contains(m, "research") || Contains(m, "keywords")
    case Parsing => Contains(m, "parsing")
    case Analysis => Contains(m, "semantic analysis")
    case Briefing => Contains(m, "briefing")
    case Evaluation => Contains(m, "evaluating")
  }

  predicate NamesSome(m: string) {
    Names(m, Init) || Names(m, Research) || Names(m, Parsing) || Names(m, Analysis) || Names(m, Briefing) || Names(m, Evaluation)
  }

  /** The step a lower-cased status message names, tested in the page's order: `briefing` before `evaluating`. */
  function ActiveStepAsWritten(message: string): (r: Option<Step>)
    ensures r.Some? ==> Names(Lower(message), r.value)
    ensures r.None? <==> !NamesSome(Lower(message))
    ensures r == Some(Evaluation) ==> !Names(Lower(message), Briefing)
  {
    var m := Lower(message);
    if Contains(m, "starting mission") then Some(Init)
    else if Contains(m, "research") || Contains(m, "keywords") then Some(Research)
    else if Contains(m, "parsing") then Some(Parsing)
    else if Contains(m, "semantic analysis") then Some(Analysis)
    else if Contains(m, "briefing") then Some(Briefing)
    else if Contains(m, "evaluating") then Some(Evaluation)
    else None
  }

  /** The same tests with `evaluating` tried before `briefing`. */
  function ActiveStep(message: string): (r: Option<Step>)
    ensures r.Some? ==> Names(Lower(message), r.value)
    ensures r.None? <==> !NamesSome(Lower(message))
    ensures r == Some(Briefing) ==> !Names(Lower(message), Evaluation)
  {
    var m := Lower(message);
    if Contains(m, "starting mission") then Some(Init)
    else if Contains(m, "research") || Contains(m, "keywords") then Some(Research)
    else if Contains(m, "parsing") then Some(Parsing)
    else if Contains(m, "semantic analysis") then Some(Analysis)
    else if Contains(m, "evaluating") then Some(Evaluation)
    else if Contains(m, "briefing") then Some(Briefing)
    else None
  }

  /** The two orders disagree only on messages naming both a briefing and an evaluation. */
  lemma ActiveStepOrders(message: string)
    ensures ActiveStep(message) != ActiveStepAsWritten(message) <==>
      ActiveStepAsWritten(message) == Some(Briefing) && Contains(Lower(message), "evaluating")
  {
  }

  /**
   * The activated step runs; every other running step completes; pending,
   * completed and failed steps other than the activated one are kept.
   */
  function Activate(steps: seq<StepStatus>, active: Step): (r: seq<StepStatus>)
    ensures |r| == |steps|
    ensures forall i :: 0 <= i < |r| ==> r[i].id == steps[i].id && r[i].name == steps[i].name
    ensures forall i :: 0 <= i < |r| ==> (r[i].status == Running <==> steps[i].id == active)
    ensures forall i :: 0 <= i < |r| && steps[i].id != active && steps[i].status == Running ==> r[i].status == Completed
    ensures forall i :: 0 <= i < |r| && steps[i].id != active && steps[i].status != Running ==> r[i].status == steps[i].status
  {
    seq(|steps|, i requires 0 <= i < |steps| =>
      if steps[i].id == active then steps[i].(status := Running)
      else if steps[i].status == Running then steps[i].(status := Completed)
      else steps[i])
  }

  /** With distinct ids, at most one step runs after an activation, and it is the activated one. */
  lemma ActivateRunsOne(steps: seq<StepStatus>, active: Step)
    requires DistinctIds(steps)
    ensures var r := Activate(steps, active);
      forall i, j :: 0 <= i < |r| && 0 <= j < |r| && r[i].status == Running && r[j].status == Running ==> i == j
  {
  }

  /**
   * `updateStepStatus`: an empty message, or one `recognise` maps to no
   * step, leaves the panel alone; otherwise the recognised step is
   * activated.  The page recognises with `ActiveStepAsWritten`.
   */
  function UpdateStepStatus(steps: seq<StepStatus>, message: string, recognise: string -> Option<Step>): (r: seq<StepStatus>)
    ensures message == "" || recognise(message).None? ==> r == steps
    ensures message != "" && recognise(message).Some? ==> r == Activate(steps, recognise(message).value)
  {
    if message == "" then steps
    else match recognise(message)
      case None => steps
      case Some(active) => Activate(steps, active)
  }

  /** On completion every running step completes. */
  function CompleteRunning(steps: seq<StepStatus>): (r: seq<StepStatus>)
    ensures |r| == |steps|
    ensures forall i :: 0 <= i < |r| ==> r[i].id == steps[i].id && r[i].name == steps[i].name && r[i].status != Running
    ensures forall i :: 0 <= i < |r| ==> r[i].status == if steps[i].status == Running then Completed else steps[i].status
  {
    seq(|steps|, i requires 0 <= i < |steps| =>
      if steps[i].status == Running then steps[i].(status := Completed) else steps[i])
  }

  /** The same steps, in the same order, with the same labels. */
  predicate SameSteps(a: seq<StepStatus>, b: seq<StepStatus>) {
    |a| == |b| && forall i :: 0 <= i < |a| ==> a[i].id == b[i].id && a[i].name == b[i].name
  }

  predicate NoneRunning(steps: seq<StepStatus>) {
    forall i :: 0 <= i < |steps| ==> steps[i].status != Running
  }

  predicate AtMostOneRunning(steps: seq<StepStatus>) {
    forall i, j :: 0 <= i < |steps| && 0 <= j < |steps| && steps[i].status == Running && steps[j].status == Running ==> i == j
  }

  lemma UpdateRunsOne(steps: seq<StepStatus>, message: string, recognise: string -> Option<Step>)
    ensures DistinctIds(steps) && AtMostOneRunning(steps) ==> AtMostOneRunning(UpdateStepStatus(steps, message, recognise))
  {
    if DistinctIds(steps) && message != "" && recognise(message).Some? {
      ActivateRunsOne(steps, recognise(message).value);
    }
  }

  /**
   * The panel after one event: the steps keep their ids and labels, at
   * most one step runs if at most one ran, and none runs after the
   * completion.
   */
  function Apply(steps: seq<StepStatus>, e: Event, recognise: string -> Option<Step>): (r: seq<StepStatus>)
    ensures |r| == |steps|
    ensures forall i :: 0 <= i < |r| ==> r[i].id == steps[i].id && r[i].name == steps[i].name
    ensures DistinctIds(steps) && AtMostOneRunning(steps) ==> AtMostOneRunning(r)
    ensures e.Complete? ==> forall i :: 0 <= i < |r| ==> r[i].status != Running
    ensures !e.Status? && !e.Complete? ==> r == steps
  {
    match e
    case Status(_, message) =>
      UpdateRunsOne(steps, message, recognise);
      UpdateStepStatus(steps, message, recognise)
    case Complete(_) => CompleteRunning(steps)
    case _ => steps
  }

  /** The panel after a stream of events, with the same guarantees as one event. */
  function Track(steps: seq<StepStatus>, events: seq<Event>, recognise: string -> Option<Step>): (r: seq<StepStatus>)
    ensures SameSteps(steps, r)
    ensures DistinctIds(steps) && AtMostOneRunning(steps) ==> AtMostOneRunning(r)
    ensures events != [] && events[|events| - 1].Complete? ==> NoneRunning(r)
    decreases |events|
  {
    if |events| == 0 then steps
    else
      var prev := Track(steps, events[..|events| - 1], recognise);
      var r := Apply(prev, events[|events| - 1], recognise);
      assert DistinctIds(steps) ==> DistinctIds(prev);
      r
  }

  lemma {:induction false} TrackAppend(steps: seq<StepStatus>, a: seq<Event>, b: seq<Event>, recognise: string -> Option<Step>)
    ensures Track(steps, a + b, recognise) == Track(Track(steps, a, recognise), b, recognise)
    decreases |b|
  {
    if |b| == 0 {
      assert a + b == a;
    } else {
      var n := |b| - 1;
      assert (a + b)[..|a + b| - 1] == a + b[..n];
      TrackAppend(steps, a, b[..n], recognise);
    }
  }

  lemma TrackCons(steps: seq<StepStatus>, e: Event, rest: seq<Event>, recognise: string -> Option<Step>)
    ensures Track(steps, [e] + rest, recognise) == Track(Apply(steps, e, recognise), rest, recognise)
  {
    TrackAppend(steps, [e], rest, recognise);
    assert [e][..0] == [];
  }

  /** Entries that are neither statuses nor the completion leave the panel alone. */
  lemma {:induction false} TrackQuiet(steps: seq<StepStatus>, events: seq<Event>, recognise: string -> Option<Step>)
    requires forall i :: 0 <= i < |events| ==> !events[i].Status? && !events[i].Complete?
    ensures Track(steps, events, recognise) == steps
    decreases |events|
  {
    if |events| > 0 {
      TrackQuiet(steps, events[..|events| - 1], recognise);
    }
  }

  /**
   * The panel once the first `k` steps were activated in order: the `k`-th
   * runs (while `running`), the ones before it are completed, the rest
   * pending.
   */
  function Board(k: nat, running: bool): (b: seq<StepStatus>)
    requires k <= 6
    ensures |b| == 6
  {
    seq(6, i requires 0 <= i < 6 =>
      StepStatus(Order[i], Labels[i], if i < k then (if running && i == k - 1 then Running else Completed) else Pending))
  }

  lemma BoardStart()
    ensures Board(0, false) == InitialSteps
    ensures Reset(InitialSteps) == InitialSteps
  {
  }

  /** Activating the next step moves the board one step on. */
  lemma ActivateNext(k: nat, running: bool)
    requires k < 6
    ensures Activate(Board(k, running), Order[k]) == Board(k + 1, true)
  {
    var a := Activate(Board(k, running), Order[k]);
    var b := Board(k + 1, true);
    forall i | 0 <= i < 6
      ensures a[i] == b[i]
    {
      assert Order[i] == Order[k] <==> i == k;
    }
  }

  lemma CompleteBoard(k: nat)
    requires k <= 6
    ensures CompleteRunning(Board(k, true)) == Board(k, false)
  {
  }

  /** A status message naming the next step moves the board one step on. */
  lemma StatusAdvances(k: nat, running: bool, e: Event, recognise: string -> Option<Step>)
    requires k < 6 && e.Status? && e.message != "" && recognise(e.message) == Some(Order[k])
    ensures Apply(Board(k, running), e, recognise) == Board(k + 1, true)
  {
    ActivateNext(k, running);
  }

  /** Re-activating the running step changes nothing. */
  lemma ActivateCurrent(k: nat)
    requires 0 < k <= 6
    ensures Activate(Board(k, true), Order[k - 1]) == Board(k, true)
  {
    var a := Activate(Board(k, true), Order[k - 1]);
    forall i | 0 <= i < 6
      ensures a[i] == Board(k, true)[i]
    {
      assert Order[i] == Order[k - 1] <==> i == k - 1;
    }
  }

  /** The parsing message's lower-case form, for any count. */
  lemma ParsingLower(n: nat)
    ensures Lower(Mission.ParsingMessage(n)) == "parsing " + NatToString(n) + " urls..."
  {
    var d := NatToString(n);
    var s := Mission.ParsingMessage(n);
    var t := "parsing " + d + " urls...";
    forall i | 0 <= i < |s|
      ensures Lower(s)[i] == t[i]
    {
      if i < 8 {
      } else if i < 8 + |d| {
        assert s[i] == d[i - 8] == t[i];
      } else {
        assert s[i] == " URLs..."[i - 8 - |d|];
        assert t[i] == " urls..."[i - 8 - |d|];
      }
    }
  }

  /** A character that never occurs starts no pair. */
  lemma AbsentCharNoPair(s: string, a: char, b: char)
    requires forall i :: 0 <= i < |s| ==> s[i] != a
    ensures !HasPair(s, a, b)
  {
  }

  /** A text missing one character of a pattern (other than its last) does not contain the pattern. */
  lemma MissingCharLacks(s: string, p: string, j: nat)
    requires j + 1 < |p| && forall i :: 0 <= i < |s| ==> s[i] != p[j]
    ensures !Contains(s, p)
  {
    ContainsNeedsPair(s, p, j);
    AbsentCharNoPair(s, p[j], p[j + 1]);
  }

  /** Each status message of the mission activates its own step. */
  lemma StatusMessagesRecognised(topic: string, n: nat)
    ensures ActiveStep(Mission.StartMessage(topic)) == Some(Init)
    ensures ActiveStep(Mission.ResearchMessage) == Some(Research)
    ensures ActiveStep(Mission.ParsingMessage(n)) == Some(Parsing)
    ensures ActiveStep(Mission.AnalysisMessage) == Some(Analysis)
    ensures ActiveStep(Mission.BriefingMessage) == Some(Briefing)
    ensures ActiveStep(Mission.EvaluationMessage) == Some(Evaluation)
  {
    StartRecognised(topic);
    ResearchRecognised();
    ParsingRecognised(n);
    AnalysisRecognised();
    BriefingRecognised();
    EvaluationRecognised();
  }

  lemma StartRecognised(topic: string)
    ensures Contains(Lower(Mission.StartMessage(topic)), "starting mission")
  {
    var s := Lower(Mission.StartMessage(topic));
    assert s[..16] == "starting mission";
    assert OccursAt(s, "starting mission", 0);
  }

  lemma ResearchLowerFront()
    ensures Lower("Running Keywords, SerpAPI & ") == "running keywords, serpapi & "
  {
  }

  lemma ResearchLowerBack()
    ensures Lower("Custom Search in Parallel...") == "custom search in parallel..."
  {
  }

  lemma ResearchLower()
    ensures Lower(Mission.ResearchMessage) == "running keywords, serpapi & " + "custom search in parallel..."
  {
    ResearchLowerFront();
    ResearchLowerBack();
    LowerJoin("Running Keywords, SerpAPI & ", "Custom Search in Parallel...", "running keywords, serpapi & ", "custom search in parallel...");
  }

  lemma ResearchPairs()
    ensures !HasPair("running keywords, serpapi & ", 't', 'a') && !HasPair("custom search in parallel...", 't', 'a')
  {
  }

  lemma ResearchLacksStart()
    ensures !Contains("running keywords, serpapi & " + "custom search in parallel...", "starting mission")
  {
    ResearchPairs();
    LacksAcross("running keywords, serpapi & ", "custom search in parallel...", "starting mission", 1);
  }

  lemma ResearchNames()
    ensures Contains("running keywords, serpapi & " + "custom search in parallel...", "keywords")
  {
    assert OccursAt("running keywords, serpapi & ", "keywords", 8);
    ContainsAppend("running keywords, serpapi & ", "custom search in parallel...", "keywords");
  }

  lemma ResearchRecognised()
    ensures ActiveStep(Mission.ResearchMessage) == Some(Research)
    ensures ActiveStepAsWritten(Mission.ResearchMessage) == Some(Research)
  {
    ResearchLower();
    ResearchLacksStart();
    ResearchNames();
  }

  /** The lower-cased parsing message has no `m`, `c` or `k`: its count is digits. */
  lemma ParsingChars(n: nat)
    ensures var m := "parsing " + NatToString(n) + " urls...";
      forall i :: 0 <= i < |m| ==> m[i] != 'm' && m[i] != 'c' && m[i] != 'k'
  {
    var d := NatToString(n);
    var m := "parsing " + d + " urls...";
    forall i | 0 <= i < |m|
      ensures m[i] != 'm' && m[i] != 'c' && m[i] != 'k'
    {
      if 8 <= i < 8 + |d| {
        assert m[i] == d[i - 8];
      } else if i >= 8 + |d| {
        assert m[i] == " urls..."[i - 8 - |d|];
      }
    }
  }

  lemma ParsingLacks(n: nat)
    ensures var m := "parsing " + NatToString(n) + " urls...";
      !Contains(m, "starting mission") && !Contains(m, "research") && !Contains(m, "keywords")
  {
    var m := "parsing " + NatToString(n) + " urls...";
    ParsingChars(n);
    MissingCharLacks(m, "starting mission", 9);
    MissingCharLacks(m, "research", 6);
    MissingCharLacks(m, "keywords", 0);
  }

  lemma ParsingRecognised(n: nat)
    ensures ActiveStep(Mission.ParsingMessage(n)) == Some(Parsing)
  {
    ParsingLower(n);
    ParsingLacks(n);
    var m := "parsing " + NatToString(n) + " urls...";
    assert m[..7] == "parsing";
    assert OccursAt(m, "parsing", 0);
  }

  lemma AnalysisLower()
    ensures Lower(Mission.AnalysisMessage) == "running semantic analysis..."
  {
  }

  lemma AnalysisLacksStart()
    ensures !Contains("running semantic analysis...", "starting mission")
  {
    assert !HasPair("running semantic analysis...", 's', 't');
    ContainsNeedsPair("running semantic analysis...", "starting mission", 0);
  }

  lemma AnalysisLacksResearch()
    ensures !Contains("running semantic analysis...", "research")
  {
    assert !HasPair("running semantic analysis...", 'r', 'e');
    ContainsNeedsPair("running semantic analysis...", "research", 0);
  }

  lemma AnalysisLacksKeywords()
    ensures !Contains("running semantic analysis...", "keywords")
  {
    assert !HasPair("running semantic analysis...", 'k', 'e');
    ContainsNeedsPair("running semantic analysis...", "keywords", 0);
  }

  lemma AnalysisLacksParsing()
    ensures !Contains("running semantic analysis...", "parsing")
  {
    assert !HasPair("running semantic analysis...", 'p', 'a');
    ContainsNeedsPair("running semantic analysis...", "parsing", 0);
  }

  lemma AnalysisNames()
    ensures Contains("running semantic analysis...", "semantic analysis")
  {
    assert OccursAt("running semantic analysis...", "semantic analysis", 8);
  }

  lemma BriefingLower()
    ensures Lower(Mission.BriefingMessage) == "generating content briefing..."
  {
  }

  lemma BriefingLacksStart()
    ensures !Contains("generating content briefing...", "starting mission")
  {
    assert !HasPair("generating content briefing...", 's', 't');
    ContainsNeedsPair("generating content briefing...", "starting mission", 0);
  }

  lemma BriefingLacksResearch()
    ensures !Contains("generating content briefing...", "research")
  {
    assert !HasPair("generating content briefing...", 'r', 'e');
    ContainsNeedsPair("generating content briefing...", "research", 0);
  }

  lemma BriefingLacksKeywords()
    ensures !Contains("generating content briefing...", "keywords")
  {
    assert !HasPair("generating content briefing...", 'k', 'e');
    ContainsNeedsPair("generating content briefing...", "keywords", 0);
  }

  lemma BriefingLacksParsing()
    ensures !Contains("generating content briefing...", "parsing")
  {
    assert !HasPair("generating content briefing...", 'p', 'a');
    ContainsNeedsPair("generating content briefing...", "parsing", 0);
  }

  lemma BriefingLacksSemantic()
    ensures !Contains("generating content briefing...", "semantic analysis")
  {
    assert !HasPair("generating content briefing...", 's', 'e');
    ContainsNeedsPair("generating content briefing...", "semantic analysis", 0);
  }

  lemma BriefingLacksEvaluating()
    ensures !Contains("generating content briefing...", "evaluating")
  {
    assert !HasPair("generating content briefing...", 'e', 'v');
    ContainsNeedsPair("generating content briefing...", "evaluating", 0);
  }

  lemma BriefingNames()
    ensures Contains("generating content briefing...", "briefing")
  {
    assert OccursAt("generating content briefing...", "briefing", 19);
  }

  lemma EvaluationLower()
    ensures Lower(Mission.EvaluationMessage) == "evaluating briefing..."
  {
  }

  lemma EvaluationLacksStart()
    ensures !Contains("evaluating briefing...", "starting mission")
  {
    assert !HasPair("evaluating briefing...", 's', 't');
    ContainsNeedsPair("evaluating briefing...", "starting mission", 0);
  }

  lemma EvaluationLacksResearch()
    ensures !Contains("evaluating briefing...", "research")
  {
    assert !HasPair("evaluating briefing...", 'r', 'e');
    ContainsNeedsPair("evaluating briefing...", "research", 0);
  }

  lemma EvaluationLacksKeywords()
    ensures !Contains("evaluating briefing...", "keywords")
  {
    assert !HasPair("evaluating briefing...", 'k', 'e');
    ContainsNeedsPair("evaluating briefing...", "keywords", 0);
  }

  lemma EvaluationLacksParsing()
    ensures !Contains("evaluating briefing...", "parsing")
  {
    assert !HasPair("evaluating briefing...", 'p', 'a');
    ContainsNeedsPair("evaluating briefing...", "parsing", 0);
  }

  lemma EvaluationLacksSemantic()
    ensures !Contains("evaluating briefing...", "semantic analysis")
  {
    assert !HasPair("evaluating briefing...", 's', 'e');
    ContainsNeedsPair("evaluating briefing...", "semantic analysis", 0);
  }

  lemma EvaluationNames()
    ensures Contains("evaluating briefing...", "evaluating")
    ensures Contains("evaluating briefing...", "briefing")
  {
    assert OccursAt("evaluating briefing...", "evaluating", 0);
    assert OccursAt("evaluating briefing...", "briefing", 11);
  }

  lemma AnalysisRecognised()
    ensures ActiveStep(Mission.AnalysisMessage) == Some(Analysis)
    ensures ActiveStepAsWritten(Mission.AnalysisMessage) == Some(Analysis)
  {
    AnalysisLower();
    AnalysisLacksStart();
    AnalysisLacksResearch();
    AnalysisLacksKeywords();
    AnalysisLacksParsing();
    AnalysisNames();
  }

  lemma BriefingRecognised()
    ensures ActiveStep(Mission.BriefingMessage) == Some(Briefing)
    ensures ActiveStepAsWritten(Mission.BriefingMessage) == Some(Briefing)
  {
    BriefingLower();
    BriefingLacksStart();
    BriefingLacksResearch();
    BriefingLacksKeywords();
    BriefingLacksParsing();
    BriefingLacksSemantic();
    BriefingLacksEvaluating();
    BriefingNames();
  }

  /**
   * "Evaluating Briefing..." names both steps: the corrected order
   * activates the evaluation, the page's order the briefing.
   */
  lemma EvaluationRecognised()
    ensures ActiveStep(Mission.EvaluationMessage) == Some(Evaluation)
    ensures ActiveStepAsWritten(Mission.EvaluationMessage) == Some(Briefing)
  {
    EvaluationLower();
    EvaluationLacksStart();
    EvaluationLacksResearch();
    EvaluationLacksKeywords();
    EvaluationLacksParsing();
    EvaluationLacksSemantic();
    EvaluationNames();
  }

  /** The start and research statuses take the reset panel to the research step running. */
  lemma OpeningHead(topic: string, recognise: string -> Option<Step>)
    requires recognise(Mission.StartMessage(topic)) == Some(Init)
    requires recognise(Mission.ResearchMessage) == Some(Research)
    ensures Track(Reset(InitialSteps), [Status(Init, Mission.StartMessage(topic)), Status(Research, Mission.ResearchMessage)], recognise)
      == Board(2, true)
  {
    var s0 := Status(Init, Mission.StartMessage(topic));
    var s1 := Status(Research, Mission.ResearchMessage);
    BoardStart();
    assert Mission.StartMessage(topic) != "" by {
      assert Mission.StartMessage(topic)[0] == 'S';
    }
    StatusAdvances(0, false, s0, recognise);
    StatusAdvances(1, true, s1, recognise);
    TrackCons(Board(0, false), s0, [s1], recognise);
    TrackCons(Board(1, true), s1, [], recognise);
    assert [s0, s1] == [s0] + [s1];
    assert [s1] == [s1] + [];
  }

  /**
   * The panel across the steps every mission runs: from the reset panel,
   * through the start, research and parsing statuses and the quiet log
   * entries between them, to the parsing step running.
   */
  lemma StreamOpening(req: MissionRequest, research: Researcher.ResearchResult, parsed: ContentParser.ParsedContent, recognise: string -> Option<Step>)
    requires recognise(Mission.StartMessage(req.topic)) == Some(Init)
    requires recognise(Mission.ResearchMessage) == Some(Research)
    requires recognise(Mission.ParsingMessage(|research.competitors|)) == Some(Parsing)
    requires forall i :: 0 <= i < |research.logs| ==> Mission.ResearchEntry(research.logs[i])
    requires forall i :: 0 <= i < |parsed.logs| ==> parsed.logs[i].Log?
    ensures Track(Reset(InitialSteps),
                  [Status(Init, Mission.StartMessage(req.topic)), Status(Research, Mission.ResearchMessage)] + research.logs
                  + [Status(Parsing, Mission.ParsingMessage(|research.competitors|))] + parsed.logs, recognise)
            == Board(3, true)
  {
    var h := [Status(Init, Mission.StartMessage(req.topic)), Status(Research, Mission.ResearchMessage)];
    var sp := Status(Parsing, Mission.ParsingMessage(|research.competitors|));
    OpeningHead(req.topic, recognise);
    assert sp.message != "" by {
      assert sp.message[0] == 'P';
    }
    QuietStatusQuiet(Reset(InitialSteps), h, research.logs, sp, parsed.logs, 2, recognise);
  }

  /** Quiet entries around one recognised status move the panel exactly one step on. */
  lemma QuietStatusQuiet(r: seq<StepStatus>, h: seq<Event>, q1: seq<Event>, sp: Event, q2: seq<Event>, k: nat, recognise: string -> Option<Step>)
    requires k < 6 && Track(r, h, recognise) == Board(k, true)
    requires forall i :: 0 <= i < |q1| ==> !q1[i].Status? && !q1[i].Complete?
    requires forall i :: 0 <= i < |q2| ==> !q2[i].Status? && !q2[i].Complete?
    requires sp.Status? && sp.message != "" && recognise(sp.message) == Some(Order[k])
    ensures Track(r, h + q1 + [sp] + q2, recognise) == Board(k + 1, true)
  {
    StatusAdvances(k, true, sp, recognise);
    TrackAppend(r, h, q1, recognise);
    TrackQuiet(Board(k, true), q1, recognise);
    TrackAppend(r, h + q1, [sp], recognise);
    TrackCons(Board(k, true), sp, [], recognise);
    assert [sp] == [sp] + [];
    TrackAppend(r, h + q1 + [sp], q2, recognise);
    TrackQuiet(Board(k + 1, true), q2, recognise);
  }

  /** The panel across the analysis, briefing and evaluation entries: their statuses in turn, the data between them quiet. */
  lemma LlmTrack(steps: seq<StepStatus>, report: Report, parsed: ContentParser.ParsedContent, recognise: string -> Option<Step>)
    requires parsed.analyzedContent != []
    ensures Track(steps, Mission.LlmEvents(report, parsed), recognise) ==
      Apply(Apply(Apply(steps, Status(Analysis, Mission.AnalysisMessage), recognise),
                  Status(Briefing, Mission.BriefingMessage), recognise),
            Status(Evaluation, Mission.EvaluationMessage), recognise)
  {
    var x0, x1 := Status(Analysis, Mission.AnalysisMessage), AnalysisData(report.semanticAnalysis);
    var x2, x3 := Status(Briefing, Mission.BriefingMessage), BriefingData(report.briefing);
    var x4, x5 := Status(Evaluation, Mission.EvaluationMessage), EvaluationData(report.evaluation);
    assert Mission.LlmEvents(report, parsed) == [x0] + ([x1] + ([x2] + ([x3] + ([x4] + ([x5] + [])))));
    var t1 := Apply(steps, x0, recognise);
    var t3 := Apply(t1, x2, recognise);
    var t5 := Apply(t3, x4, recognise);
    TrackCons(steps, x0, [x1] + ([x2] + ([x3] + ([x4] + ([x5] + [])))), recognise);
    TrackCons(t1, x1, [x2] + ([x3] + ([x4] + ([x5] + []))), recognise);
    TrackCons(t1, x2, [x3] + ([x4] + ([x5] + [])), recognise);
    TrackCons(t3, x3, [x4] + ([x5] + []), recognise);
    TrackCons(t3, x4, [x5] + [], recognise);
    TrackCons(t5, x5, [], recognise);
  }

  /** The panel after a whole stream, given the panel after its common opening and after the analysis entries. */
  lemma StreamTrack(req: MissionRequest, research: Researcher.ResearchResult, parsed: ContentParser.ParsedContent, report: Report, recognise: string -> Option<Step>)
    requires recognise(Mission.StartMessage(req.topic)) == Some(Init)
    requires recognise(Mission.ResearchMessage) == Some(Research)
    requires recognise(Mission.ParsingMessage(|research.competitors|)) == Some(Parsing)
    requires forall i :: 0 <= i < |research.logs| ==> Mission.ResearchEntry(research.logs[i])
    requires forall i :: 0 <= i < |parsed.logs| ==> parsed.logs[i].Log?
    ensures Track(Reset(InitialSteps), Mission.Stream(req, research, parsed, report), recognise)
      == CompleteRunning(Track(Board(3, true), Mission.LlmEvents(report, parsed), recognise))
  {
    var opening := [Status(Init, Mission.StartMessage(req.topic)), Status(Research, Mission.ResearchMessage)] + research.logs
      + [Status(Parsing, Mission.ParsingMessage(|research.competitors|))] + parsed.logs;
    var llm := Mission.LlmEvents(report, parsed);
    StreamOpening(req, research, parsed, recognise);
    Mission.StreamShape(req, research, parsed, report);
    TrackAppend(Reset(InitialSteps), opening, llm, recognise);
    TrackAppend(Reset(InitialSteps), opening + llm, [Complete(report)], recognise);
    TrackCons(Track(Board(3, true), llm, recognise), Complete(report), [], recognise);
    assert [Complete(report)] == [Complete(report)] + [];
  }

  lemma LlmBoard(report: Report, parsed: ContentParser.ParsedContent)
    requires parsed.analyzedContent != []
    ensures CompleteRunning(Track(Board(3, true), Mission.LlmEvents(report, parsed), ActiveStep)) == Board(6, false)
  {
    StatusMessagesRecognised("", 0);
    LlmTrack(Board(3, true), report, parsed, ActiveStep);
    StatusAdvances(3, true, Status(Analysis, Mission.AnalysisMessage), ActiveStep);
    StatusAdvances(4, true, Status(Briefing, Mission.BriefingMessage), ActiveStep);
    StatusAdvances(5, true, Status(Evaluation, Mission.EvaluationMessage), ActiveStep);
    CompleteBoard(6);
  }

  lemma StreamBoard(req: MissionRequest, research: Researcher.ResearchResult, parsed: ContentParser.ParsedContent, report: Report)
    requires forall i :: 0 <= i < |research.logs| ==> Mission.ResearchEntry(research.logs[i])
    requires forall i :: 0 <= i < |parsed.logs| ==> parsed.logs[i].Log?
    ensures Track(Reset(InitialSteps), Mission.Stream(req, research, parsed, report), ActiveStep)
      == Board(if parsed.analyzedContent == [] then 3 else 6, false)
  {
    StatusMessagesRecognised(req.topic, |research.competitors|);
    StreamTrack(req, research, parsed, report, ActiveStep);
    if parsed.analyzedContent == [] {
      CompleteBoard(3);
    } else {
      LlmBoard(report, parsed);
    }
  }

  /** The page's matching agrees with the corrected one on every status message but the evaluation's. */
  lemma StatusMessagesAsWritten(topic: string, n: nat)
    ensures ActiveStepAsWritten(Mission.StartMessage(topic)) == Some(Init)
    ensures ActiveStepAsWritten(Mission.ResearchMessage) == Some(Research)
    ensures ActiveStepAsWritten(Mission.ParsingMessage(n)) == Some(Parsing)
    ensures ActiveStepAsWritten(Mission.AnalysisMessage) == Some(Analysis)
    ensures ActiveStepAsWritten(Mission.BriefingMessage) == Some(Briefing)
    ensures ActiveStepAsWritten(Mission.EvaluationMessage) == Some(Briefing)
  {
    StartRecognised(topic);
    ParsingRecognised(n);
    ActiveStepOrders(Mission.ParsingMessage(n));
    ResearchRecognised();
    AnalysisRecognised();
    BriefingRecognised();
    EvaluationRecognised();
  }

  lemma LlmBoardAsWritten(report: Report, parsed: ContentParser.ParsedContent)
    requires parsed.analyzedContent != []
    ensures CompleteRunning(Track(Board(3, true), Mission.LlmEvents(report, parsed), ActiveStepAsWritten)) == Board(5, false)
  {
    StatusMessagesAsWritten("", 0);
    LlmTrack(Board(3, true), report, parsed, ActiveStepAsWritten);
    StatusAdvances(3, true, Status(Analysis, Mission.AnalysisMessage), ActiveStepAsWritten);
    StatusAdvances(4, true, Status(Briefing, Mission.BriefingMessage), ActiveStepAsWritten);
    ActivateCurrent(5);
    CompleteBoard(5);
  }

  lemma StreamBoardAsWritten(req: MissionRequest, research: Researcher.ResearchResult, parsed: ContentParser.ParsedContent, report: Report)
    requires forall i :: 0 <= i < |research.logs| ==> Mission.ResearchEntry(research.logs[i])
    requires forall i :: 0 <= i < |parsed.logs| ==> parsed.logs[i].Log?
    ensures Track(Reset(InitialSteps), Mission.Stream(req, research, parsed, report), ActiveStepAsWritten)
      == Board(if parsed.analyzedContent == [] then 3 else 5, false)
  {
    StatusMessagesAsWritten(req.topic, |research.competitors|);
    StreamTrack(req, research, parsed, report, ActiveStepAsWritten);
    if parsed.analyzedContent == [] {
      CompleteBoard(3);
    } else {
      LlmBoardAsWritten(report, parsed);
    }
  }

  /**
   * With the corrected matching, a mission leaves every step it ran
   * completed: initialisation, research and parsing always, analysis,
   * briefing and evaluation exactly when some page was kept (pending
   * otherwise); no step is left running.  When the research raised, the
   * panel is left with initialisation completed and research running.
   */
  lemma MissionBoard(req: MissionRequest, maxCompetitors: nat, s: Mission.Services)
    ensures s.raised.Some? ==> Track(Reset(InitialSteps), Mission.ExecuteMission(req, maxCompetitors, s), ActiveStep) == Board(2, true)
    ensures s.raised.None? ==>
      var research := Researcher.Research(s.keywords, s.serp, s.custom, maxCompetitors);
      var parsed := ContentParser.Parse(research.competitors, s.parse);
      Track(Reset(InitialSteps), Mission.ExecuteMission(req, maxCompetitors, s), ActiveStep)
        == Board(if parsed.competitorsWithContent == [] then 3 else 6, false)
  {
    if s.raised.Some? {
      StatusMessagesRecognised(req.topic, 0);
      OpeningHead(req.topic, ActiveStep);
    } else {
      var research := Researcher.Research(s.keywords, s.serp, s.custom, maxCompetitors);
      var parsed := ContentParser.Parse(research.competitors, s.parse);
      Mission.ResearchLogsQuiet(s.keywords, s.serp, s.custom, maxCompetitors);
      StreamBoard(req, research, parsed, Mission.FinalReport(req, s, research, parsed));
    }
  }

  /**
   * With the page's matching, the evaluation status re-activates the
   * briefing: a mission that kept some page ends with the evaluation step
   * still pending.  When the research raised, research is left running.
   */
  lemma MissionBoardAsWritten(req: MissionRequest, maxCompetitors: nat, s: Mission.Services)
    ensures s.raised.Some? ==> Track(Reset(InitialSteps), Mission.ExecuteMission(req, maxCompetitors, s), ActiveStepAsWritten) == Board(2, true)
    ensures s.raised.None? ==>
      var research := Researcher.Research(s.keywords, s.serp, s.custom, maxCompetitors);
      var parsed := ContentParser.Parse(research.competitors, s.parse);
      Track(Reset(InitialSteps), Mission.ExecuteMission(req, maxCompetitors, s), ActiveStepAsWritten)
        == Board(if parsed.competitorsWithContent == [] then 3 else 5, false)
  {
    if s.raised.Some? {
      StatusMessagesAsWritten(req.topic, 0);
      OpeningHead(req.topic, ActiveStepAsWritten);
    } else {
      var research := Researcher.Research(s.keywords, s.serp, s.custom, maxCompetitors);
      var parsed := ContentParser.Parse(research.competitors, s.parse);
      Mission.ResearchLogsQuiet(s.keywords, s.serp, s.custom, maxCompetitors);
      StreamBoardAsWritten(req, research, parsed, Mission.FinalReport(req, s, research, parsed));
    }
  }
}
