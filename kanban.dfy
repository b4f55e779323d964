/** The entities of the Kanban board game: stages, resources, stories, the
    fixed story catalog and the fixed staff of resources. */
module Kanban {

  datatype Option<T> = None | Some(value: T)

  /** A story's status: the eight board columns plus the hidden state of a
      catalog story that has not been revealed yet. */
  datatype Stage =
    | HiddenBacklog
    | Backlog
    | Prioritized
    | AnalyzedInProgress
    | AnalyzedDone
    | DevelopedInProgress
    | DevelopedDone
    | Testing
    | Deployed
  {
    /** The column id starts with "analyzed-". */
    predicate InAnalysis() { this == AnalyzedInProgress || this == AnalyzedDone }

    /** The column id starts with "developed-". */
    predicate InDevelopment() { this == DevelopedInProgress || this == DevelopedDone }

    /** The stages in which allocated resources do work. */
    predicate InProgress() { this == AnalyzedInProgress || this == DevelopedInProgress || this == Testing }

    /** Position along the pipeline, left to right on the board. */
    function Rank(): nat {
      match this
      case HiddenBacklog => 0
      case Backlog => 1
      case Prioritized => 2
      case AnalyzedInProgress => 3
      case AnalyzedDone => 4
      case DevelopedInProgress => 5
      case DevelopedDone => 6
      case Testing => 7
      case Deployed => 8
    }
  }

  datatype Kind = Analyst | Developer | Tester

  /** A unit of labour. The source's id is the string "<kind>_<n>"; it is
      modelled by the counter value n, which is unique by construction. */
  datatype Resource = Resource(id: nat, kind: Kind)

  /** One entry of the predefined catalog. */
  datatype StoryData = StoryData(id: int, price: nat, analysisEffort: nat, devEffort: nat, testEffort: nat)

  /** A story record; efforts are remaining work points and never negative. */
  datatype Story = Story(
    id: int,
    price: nat,
    status: Stage,
    analysisEffort: nat,
    devEffort: nat,
    testEffort: nat,
    daysInPrioritized: nat,
    allocatedResources: seq<Resource>)

  /** The one kind whose work counts for a story in the given stage: an
      analyst in analysis, a developer in development, a tester in testing. */
  predicate Matches(stage: Stage, kind: Kind) {
    (stage == AnalyzedInProgress && kind == Analyst)
    || (stage == DevelopedInProgress && kind == Developer)
    || (stage == Testing && kind == Tester)
  }

  /** The remaining effort of the phase the story is working on (0 outside
      the in-progress stages). */
  function PhaseEffort(s: Story): nat {
    match s.status
    case AnalyzedInProgress => s.analysisEffort
    case DevelopedInProgress => s.devEffort
    case Testing => s.testEffort
    case _ => 0
  }

  /** Subtraction floored at 0: `effort -= d; if (effort < 0) effort = 0`. */
  function Floor(x: int): (r: nat)
    ensures x >= 0 ==> r == x
    ensures x < 0 ==> r == 0
  {
    if x < 0 then 0 else x
  }

  /** The 20 predefined stories, without their descriptions. */
  function PredefinedStories(): seq<StoryData> {
    [ StoryData(1, 150, 8, 18, 10),
      StoryData(2, 120, 6, 15, 8),
      StoryData(3, 180, 10, 20, 12),
      StoryData(4, 200, 12, 25, 15),
      StoryData(5, 100, 5, 12, 7),
      StoryData(6, 90, 4, 10, 6),
      StoryData(7, 160, 9, 19, 11),
      StoryData(8, 70, 3, 8, 5),
      StoryData(9, 110, 6, 14, 9),
      StoryData(10, 170, 11, 22, 13),
      StoryData(11, 130, 7, 16, 9),
      StoryData(12, 80, 4, 9, 5),
      StoryData(13, 190, 10, 23, 14),
      StoryData(14, 60, 3, 7, 4),
      StoryData(15, 220, 15, 28, 18),
      StoryData(16, 140, 8, 17, 10),
      StoryData(17, 160, 9, 20, 11),
      StoryData(18, 95, 5, 11, 6),
      StoryData(19, 125, 7, 16, 9),
      StoryData(20, 175, 10, 24, 15) ]
  }

  predicate DistinctDataIds(data: seq<StoryData>) {
    forall i, j :: 0 <= i < j < |data| ==> data[i].id != data[j].id
  }

  /** The catalog holds 20 stories whose ids are 1..20 in order. */
  lemma PredefinedStoriesIds()
    ensures |PredefinedStories()| == 20
    ensures forall i :: 0 <= i < 20 ==> PredefinedStories()[i].id == i + 1
    ensures DistinctDataIds(PredefinedStories())
  {
    var d := PredefinedStories();
    assert forall i :: 0 <= i < 20 ==> d[i].id == i + 1;
  }

  /** Resources created per kind at start. */
  const InitialCount: nat := 3

  /** Kinds in the order the resource pool creates them. */
  const StaffKinds: seq<Kind> := [Analyst, Developer, Tester]

  const StaffSize: nat := 9

  /** The kind of the resource created with counter value `id`. */
  function StaffKind(id: nat): Kind {
    if id <= InitialCount then Analyst
    else if id <= 2 * InitialCount then Developer
    else Tester
  }

  /** One of the nine resources the pool creates at start. */
  predicate IsStaff(q: Resource) {
    1 <= q.id <= StaffSize && q.kind == StaffKind(q.id)
  }

  /** The first n resources in creation order. */
  function StaffUpTo(n: nat): (s: seq<Resource>)
    ensures |s| == n
  {
    if n == 0 then [] else StaffUpTo(n - 1) + [Resource(n, StaffKind(n))]
  }

  /** The k-th created resource has id k + 1 and the kind of its block. */
  lemma {:induction false} StaffUpToAt(n: nat)
    ensures forall k :: 0 <= k < n ==> StaffUpTo(n)[k] == Resource(k + 1, StaffKind(k + 1))
  {
    if n > 0 {
      StaffUpToAt(n - 1);
      assert StaffUpTo(n) == StaffUpTo(n - 1) + [Resource(n, StaffKind(n))];
    }
  }

  function Staff(): seq<Resource> {
    StaffUpTo(StaffSize)
  }

  /** The first n created resources hold each of ids 1..n exactly once, with
      the kind that id was created with. */
  lemma {:induction false} StaffUpToCount(n: nat, q: Resource)
    ensures multiset(StaffUpTo(n))[q] == if 1 <= q.id <= n && q.kind == StaffKind(q.id) then 1 else 0
  {
    if n > 0 {
      StaffUpToCount(n - 1, q);
      assert StaffUpTo(n) == StaffUpTo(n - 1) + [Resource(n, StaffKind(n))];
    }
  }

  /** The staff holds every staff resource exactly once and nothing else. */
  lemma StaffCount(q: Resource)
    ensures multiset(Staff())[q] == if IsStaff(q) then 1 else 0
  {
    StaffUpToCount(StaffSize, q);
  }
}
