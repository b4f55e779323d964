/** The rules of dropping a story card on a column: the work-in-progress
    (WIP) capacity checks, the transition table with its effort and day
    gates, and the test-mode bypass. */
module MoveRules {
  import opened Kanban
  import opened StoryRegistry
  import opened Holdings

  const PrioritizedLimit: nat := 3
  /** Shared by the two analysis columns. */
  const AnalysisLimit: nat := 4
  /** Shared by the two development columns. */
  const DevelopmentLimit: nat := 3
  const TestingLimit: nat := 3

  function AnalysisCount(catalog: seq<Story>, active: seq<nat>): nat {
    CountStage(catalog, active, AnalyzedInProgress) + CountStage(catalog, active, AnalyzedDone)
  }

  function DevelopmentCount(catalog: seq<Story>, active: seq<nat>): nat {
    CountStage(catalog, active, DevelopedInProgress) + CountStage(catalog, active, DevelopedDone)
  }

  /** The capacity check of a normal-mode move of story `s` to `target`. A
      story already inside a limited area may move within it. */
  predicate CapacityAllows(catalog: seq<Story>, active: seq<nat>, s: Story, target: Stage) {
    match target
    case Prioritized =>
      !(CountStage(catalog, active, Prioritized) >= PrioritizedLimit && s.status != Prioritized)
    case AnalyzedInProgress =>
      !(AnalysisCount(catalog, active) >= AnalysisLimit && !s.status.InAnalysis())
    case AnalyzedDone =>
      !(AnalysisCount(catalog, active) >= AnalysisLimit && !s.status.InAnalysis())
    case DevelopedInProgress =>
      !(DevelopmentCount(catalog, active) >= DevelopmentLimit && !s.status.InDevelopment())
    case DevelopedDone =>
      !(DevelopmentCount(catalog, active) >= DevelopmentLimit && !s.status.InDevelopment())
    case Testing =>
      !(CountStage(catalog, active, Testing) >= TestingLimit && s.status != Testing)
    case Deployed =>
      s.status == Testing && s.testEffort == 0
    case _ => true
  }

  /** The transition table of a normal-mode move. */
  predicate TransitionAllows(s: Story, target: Stage) {
    match s.status
    case Backlog => target == Prioritized
    case Prioritized => target == AnalyzedInProgress && s.daysInPrioritized >= 1
    case AnalyzedInProgress => target == AnalyzedDone && s.analysisEffort == 0
    case AnalyzedDone => target == DevelopedInProgress
    case DevelopedInProgress => target == DevelopedDone && s.devEffort == 0
    case DevelopedDone => target == Testing
    case Testing => target == Deployed && s.testEffort == 0
    case _ => false
  }

  /** The gate of each target column: a day spent in prioritized before
      analysis starts, and no effort left before a phase is declared done. */
  predicate Gate(s: Story, target: Stage) {
    && (target == AnalyzedInProgress ==> s.daysInPrioritized >= 1)
    && (target == AnalyzedDone ==> s.analysisEffort == 0)
    && (target == DevelopedDone ==> s.devEffort == 0)
    && (target == Deployed ==> s.testEffort == 0)
  }

  /** The table read as a rule: a story moves exactly one column to the
      right, from a visible column, when the target's gate is open. */
  lemma TransitionTable(s: Story, target: Stage)
    ensures TransitionAllows(s, target) <==>
      s.status != HiddenBacklog && target.Rank() == s.status.Rank() + 1 && Gate(s, target)
  {
    match s.status
    case HiddenBacklog =>
    case Backlog =>
    case Prioritized =>
    case AnalyzedInProgress =>
    case AnalyzedDone =>
    case DevelopedInProgress =>
    case DevelopedDone =>
    case Testing =>
    case Deployed =>
  }

  /** The story after an accepted normal-mode move: its new column, and the
      prioritized-day counter reset when it leaves the backlog. */
  function AfterMove(s: Story, target: Stage): Story {
    if s.status == Backlog then s.(status := target, daysInPrioritized := 0) else s.(status := target)
  }

  datatype MoveOutcome = Rejected | Accepted(catalog: seq<Story>)

  /** Dropping the card of story `storyId` on column `target`. */
  function Move(catalog: seq<Story>, active: seq<nat>, storyId: int, target: Stage, testMode: bool): MoveOutcome {
    match FindStory(catalog, active, storyId)
    case None => Rejected
    case Some(c) =>
      var s := catalog[c];
      if testMode then Accepted(catalog[c := s.(status := target)])
      else if !CapacityAllows(catalog, active, s, target) then Rejected
      else if !TransitionAllows(s, target) then Rejected
      else Accepted(catalog[c := AfterMove(s, target)])
  }

  /** An accepted move changes only the dropped story, and of it only the
      column and, for a normal-mode move out of the backlog, the day counter;
      in test mode any visible column is accepted. */
  lemma MoveTouchesOnlyStory(catalog: seq<Story>, active: seq<nat>, storyId: int, target: Stage, testMode: bool)
    requires FindStory(catalog, active, storyId).Some?
    ensures var c := FindStory(catalog, active, storyId).value;
      var o := Move(catalog, active, storyId, target, testMode);
      && (testMode ==> o.Accepted?)
      && (o.Accepted? ==>
        && |o.catalog| == |catalog|
        && (forall i :: 0 <= i < |catalog| && i != c ==> o.catalog[i] == catalog[i])
        && o.catalog[c].status == target
        && o.catalog[c].(status := catalog[c].status, daysInPrioritized := catalog[c].daysInPrioritized) == catalog[c]
        && o.catalog[c].daysInPrioritized ==
             if !testMode && catalog[c].status == Backlog then 0 else catalog[c].daysInPrioritized)
  {
  }

  /** A normal-mode move that is accepted follows the table and passes the
      capacity check. */
  lemma AcceptedMoveFollowsTable(catalog: seq<Story>, active: seq<nat>, storyId: int, target: Stage)
    requires Move(catalog, active, storyId, target, false).Accepted?
    ensures var s := catalog[FindStory(catalog, active, storyId).value];
      && s.status != HiddenBacklog && target.Rank() == s.status.Rank() + 1 && Gate(s, target)
      && CapacityAllows(catalog, active, s, target)
  {
    TransitionTable(catalog[FindStory(catalog, active, storyId).value], target);
  }

  /** A story that has not yet spent a day in prioritized cannot start
      analysis in normal mode. */
  lemma AnalysisWaitsADay(catalog: seq<Story>, active: seq<nat>, storyId: int)
    requires FindStory(catalog, active, storyId).Some?
    requires catalog[FindStory(catalog, active, storyId).value].status == Prioritized
    requires catalog[FindStory(catalog, active, storyId).value].daysInPrioritized == 0
    ensures Move(catalog, active, storyId, AnalyzedInProgress, false) == Rejected
  {
  }

  /** The per-column limits the capacity checks defend. */
  predicate WipWithin(catalog: seq<Story>, active: seq<nat>) {
    && CountStage(catalog, active, Prioritized) <= PrioritizedLimit
    && AnalysisCount(catalog, active) <= AnalysisLimit
    && DevelopmentCount(catalog, active) <= DevelopmentLimit
    && CountStage(catalog, active, Testing) <= TestingLimit
  }

  /** If the board was within its WIP limits before an accepted normal-mode
      move, it still is after it. */
  lemma MovePreservesWip(catalog: seq<Story>, active: seq<nat>, storyId: int, target: Stage)
    requires WellFormedActive(catalog, active)
    requires WipWithin(catalog, active)
    requires Move(catalog, active, storyId, target, false).Accepted?
    ensures WipWithin(Move(catalog, active, storyId, target, false).catalog, active)
  {
    var c := FindStory(catalog, active, storyId).value;
    var s := AfterMove(catalog[c], target);
    TransitionTable(catalog[c], target);
    CountStageUpdate(catalog, active, c, s, Prioritized);
    CountStageUpdate(catalog, active, c, s, AnalyzedInProgress);
    CountStageUpdate(catalog, active, c, s, AnalyzedDone);
    CountStageUpdate(catalog, active, c, s, DevelopedInProgress);
    CountStageUpdate(catalog, active, c, s, DevelopedDone);
    CountStageUpdate(catalog, active, c, s, Testing);
  }

  /** Replacing a board story by one with the same id and resources in a
      visible column keeps the registry consistent and moves no resource. */
  lemma StatusUpdateKeeps(catalog: seq<Story>, active: seq<nat>, pool: seq<Resource>, c: nat, s: Story)
    requires Consistent(catalog, active) && Conserved(catalog, pool)
    requires c < |catalog| && catalog[c].status != HiddenBacklog && s.status != HiddenBacklog
    requires s.id == catalog[c].id && s.allocatedResources == catalog[c].allocatedResources
    ensures Consistent(catalog[c := s], active) && Conserved(catalog[c := s], pool)
  {
    var c' := catalog[c := s];
    assert forall i :: 0 <= i < |catalog| ==> c'[i].id == catalog[i].id;
    AllocSumSame(c', catalog);
  }

  /** An accepted move to a visible column keeps the registry consistent and
      moves no resource. */
  lemma MoveKeepsInvariants(catalog: seq<Story>, active: seq<nat>, pool: seq<Resource>,
                            storyId: int, target: Stage, testMode: bool)
    requires Consistent(catalog, active) && Conserved(catalog, pool)
    requires target != HiddenBacklog
    requires Move(catalog, active, storyId, target, testMode).Accepted?
    ensures Consistent(Move(catalog, active, storyId, target, testMode).catalog, active)
    ensures Conserved(Move(catalog, active, storyId, target, testMode).catalog, pool)
  {
    var c := FindStory(catalog, active, storyId).value;
    var s := Move(catalog, active, storyId, target, testMode).catalog[c];
    assert Move(catalog, active, storyId, target, testMode).catalog == catalog[c := s];
    StatusUpdateKeeps(catalog, active, pool, c, s);
  }
}
