/** The rules of `completeRound` on values: what one round does to one
    story, to the board's stories in order, to the resources of the stories
    that finished a phase, and to the profit. The random effort of each
    allocated resource is an input draw in [MinDraw, MaxDraw]. */
module RoundRules {
  import opened Kanban
  import opened ResourcePool
  import opened StoryRegistry
  import opened Holdings
  import opened MoveRules

  /** `getRandomInt(4, 8)`: the least and the most one resource delivers. */
  const MinDraw: nat := 4
  const MaxDraw: nat := 8

  /** The column a finished phase leads to. */
  function NextStage(st: Stage): Stage {
    match st
    case AnalyzedInProgress => AnalyzedDone
    case DevelopedInProgress => DevelopedDone
    case Testing => Deployed
    case _ => st
  }

  /** The story with the remaining effort of its current phase set to `e`. */
  function WithPhaseEffort(s: Story, e: nat): Story {
    match s.status
    case AnalyzedInProgress => s.(analysisEffort := e)
    case DevelopedInProgress => s.(devEffort := e)
    case Testing => s.(testEffort := e)
    case _ => s
  }

  /** One allocated resource's work: when its kind matches the phase, the
      phase's effort drops by the draw, floored at 0; otherwise the draw is
      wasted. */
  function Work(s: Story, q: Resource, d: nat): Story {
    if Matches(s.status, q.kind) then WithPhaseEffort(s, Floor(PhaseEffort(s) - d)) else s
  }

  /** The resources' work applied one after another, in list order. */
  function WorkAll(s: Story, rs: seq<Resource>, ds: seq<nat>): Story
    requires |ds| == |rs|
    decreases |rs|
  {
    if rs == [] then s
    else
      var n := |rs| - 1;
      Work(WorkAll(s, rs[..n], ds[..n]), rs[n], ds[n])
  }

  /** WorkAll over one more resource is one more Work step. */
  lemma WorkAllSnoc(s: Story, rs: seq<Resource>, ds: seq<nat>, j: nat)
    requires |ds| == |rs| && j < |rs|
    ensures WorkAll(s, rs[..j + 1], ds[..j + 1]) == Work(WorkAll(s, rs[..j], ds[..j]), rs[j], ds[j])
  {
    assert rs[..j + 1][..j] == rs[..j] && ds[..j + 1][..j] == ds[..j];
  }

  /** The total effort the resources matching stage `st` deliver. */
  function Delivered(st: Stage, rs: seq<Resource>, ds: seq<nat>): nat
    requires |ds| == |rs|
    decreases |rs|
  {
    if rs == [] then 0
    else
      var n := |rs| - 1;
      Delivered(st, rs[..n], ds[..n]) + (if Matches(st, rs[n].kind) then ds[n] else 0)
  }

  /** How many of the resources match stage `st`. */
  function MatchCount(st: Stage, rs: seq<Resource>): nat
    decreases |rs|
  {
    if rs == [] then 0
    else MatchCount(st, rs[..|rs| - 1]) + (if Matches(st, rs[|rs| - 1].kind) then 1 else 0)
  }

  predicate DrawsInRange(ds: seq<nat>) {
    forall j :: 0 <= j < |ds| ==> MinDraw <= ds[j] <= MaxDraw
  }

  lemma WithPhaseEffortSame(s: Story)
    ensures WithPhaseEffort(s, PhaseEffort(s)) == s
  {
  }

  /** Applying the resources one at a time, each floored at 0, leaves the
      phase effort the total delivered would leave in one step. */
  lemma {:induction false} WorkAllTotal(s: Story, rs: seq<Resource>, ds: seq<nat>)
    requires |ds| == |rs|
    ensures WorkAll(s, rs, ds) == WithPhaseEffort(s, Floor(PhaseEffort(s) - Delivered(s.status, rs, ds)))
    decreases |rs|
  {
    if rs == [] {
      WithPhaseEffortSame(s);
    } else {
      var n := |rs| - 1;
      WorkAllTotal(s, rs[..n], ds[..n]);
    }
  }

  /** Matching resources deliver between MinDraw and MaxDraw each. */
  lemma {:induction false} DeliveredBounds(st: Stage, rs: seq<Resource>, ds: seq<nat>)
    requires |ds| == |rs| && DrawsInRange(ds)
    ensures MinDraw * MatchCount(st, rs) <= Delivered(st, rs, ds) <= MaxDraw * MatchCount(st, rs)
    decreases |rs|
  {
    if rs != [] {
      var n := |rs| - 1;
      assert DrawsInRange(ds[..n]) by {
        forall j | 0 <= j < n ensures MinDraw <= ds[..n][j] <= MaxDraw {
          assert ds[..n][j] == ds[j];
        }
      }
      DeliveredBounds(st, rs[..n], ds[..n]);
    }
  }

  /** Resources none of which matches deliver nothing. */
  lemma {:induction false} DeliveredNone(st: Stage, rs: seq<Resource>, ds: seq<nat>)
    requires |ds| == |rs| && MatchCount(st, rs) == 0
    ensures Delivered(st, rs, ds) == 0
    decreases |rs|
  {
    if rs != [] {
      DeliveredNone(st, rs[..|rs| - 1], ds[..|rs| - 1]);
    }
  }

  /** Another day in prioritized. */
  function Tick(s: Story): Story {
    if s.status == Prioritized then s.(daysInPrioritized := s.daysInPrioritized + 1) else s
  }

  /** The automatic phase advance of a story whose phase has no effort left;
      the flag tells whether it moved. */
  function Advance(s: Story): (Story, bool) {
    if s.status.InProgress() && PhaseEffort(s) == 0 then (s.(status := NextStage(s.status)), true)
    else (s, false)
  }

  /** The test-mode auto-completion of an in-progress story. */
  function AutoComplete(s: Story): (Story, bool) {
    if s.status.InProgress() then (WithPhaseEffort(s, 0).(status := NextStage(s.status)), true)
    else (s, false)
  }

  /** One round for one story, given one draw per allocated resource. */
  function RoundStory(s: Story, ds: seq<nat>, testMode: bool): (Story, bool)
    requires |ds| == |s.allocatedResources|
  {
    if testMode then AutoComplete(s)
    else Advance(WorkAll(Tick(s), s.allocatedResources, ds))
  }

  /** What a round does to one story: identity, price and resources stay;
      it moves exactly when it is in progress and (in test mode, or when) the
      matching resources deliver at least the phase's remaining effort; a move
      is one column to the right; only the phase's effort can drop, to what
      is left after the delivered total (to 0 in test mode); and, in normal
      mode, a prioritized story gains a day. */
  lemma RoundStoryEffect(s: Story, ds: seq<nat>, testMode: bool)
    requires |ds| == |s.allocatedResources|
    ensures var (s', moved) := RoundStory(s, ds, testMode);
      var delivered := Delivered(s.status, s.allocatedResources, ds);
      && s'.id == s.id && s'.price == s.price && s'.allocatedResources == s.allocatedResources
      && (moved <==> s.status.InProgress() && (testMode || PhaseEffort(s) <= delivered))
      && s'.status == (if moved then NextStage(s.status) else s.status)
      && (moved ==> s'.status.Rank() == s.status.Rank() + 1)
      && (s'.status != HiddenBacklog <==> s.status != HiddenBacklog)
      && PhaseEffort(s'.(status := s.status)) == (if testMode then 0 else Floor(PhaseEffort(s) - delivered))
      && (s'.analysisEffort == s.analysisEffort || s.status == AnalyzedInProgress)
      && (s'.devEffort == s.devEffort || s.status == DevelopedInProgress)
      && (s'.testEffort == s.testEffort || s.status == Testing)
      && s'.analysisEffort <= s.analysisEffort && s'.devEffort <= s.devEffort && s'.testEffort <= s.testEffort
      && s'.daysInPrioritized ==
           if !testMode && s.status == Prioritized then s.daysInPrioritized + 1 else s.daysInPrioritized
  {
    if testMode {
      AutoCompleteEffect(s);
    } else {
      NormalRoundEffect(s, ds);
    }
  }

  /** The test-mode half of RoundStoryEffect. */
  lemma AutoCompleteEffect(s: Story)
    ensures var (s', moved) := AutoComplete(s);
      && s'.id == s.id && s'.price == s.price && s'.allocatedResources == s.allocatedResources
      && (moved <==> s.status.InProgress())
      && s'.status == (if moved then NextStage(s.status) else s.status)
      && (moved ==> s'.status.Rank() == s.status.Rank() + 1)
      && (s'.status != HiddenBacklog <==> s.status != HiddenBacklog)
      && PhaseEffort(s'.(status := s.status)) == 0
      && (s'.analysisEffort == s.analysisEffort || s.status == AnalyzedInProgress)
      && (s'.devEffort == s.devEffort || s.status == DevelopedInProgress)
      && (s'.testEffort == s.testEffort || s.status == Testing)
      && s'.analysisEffort <= s.analysisEffort && s'.devEffort <= s.devEffort && s'.testEffort <= s.testEffort
      && s'.daysInPrioritized == s.daysInPrioritized
  {
  }

  /** The normal-mode half of RoundStoryEffect. */
  lemma NormalRoundEffect(s: Story, ds: seq<nat>)
    requires |ds| == |s.allocatedResources|
    ensures var (s', moved) := Advance(WorkAll(Tick(s), s.allocatedResources, ds));
      var delivered := Delivered(s.status, s.allocatedResources, ds);
      && s'.id == s.id && s'.price == s.price && s'.allocatedResources == s.allocatedResources
      && (moved <==> s.status.InProgress() && PhaseEffort(s) <= delivered)
      && s'.status == (if moved then NextStage(s.status) else s.status)
      && (moved ==> s'.status.Rank() == s.status.Rank() + 1)
      && (s'.status != HiddenBacklog <==> s.status != HiddenBacklog)
      && PhaseEffort(s'.(status := s.status)) == Floor(PhaseEffort(s) - delivered)
      && (s'.analysisEffort == s.analysisEffort || s.status == AnalyzedInProgress)
      && (s'.devEffort == s.devEffort || s.status == DevelopedInProgress)
      && (s'.testEffort == s.testEffort || s.status == Testing)
      && s'.analysisEffort <= s.analysisEffort && s'.devEffort <= s.devEffort && s'.testEffort <= s.testEffort
      && s'.daysInPrioritized == if s.status == Prioritized then s.daysInPrioritized + 1 else s.daysInPrioritized
  {
    var t := Tick(s);
    var delivered := Delivered(s.status, s.allocatedResources, ds);
    WorkAllTotal(t, s.allocatedResources, ds);
    assert t.status == s.status && PhaseEffort(t) == PhaseEffort(s);
    AdvanceAfterWork(t, Floor(PhaseEffort(s) - delivered));
  }

  /** Setting the phase's remaining effort to `e`, then advancing. */
  lemma AdvanceAfterWork(t: Story, e: nat)
    requires e <= PhaseEffort(t)
    ensures var (s', moved) := Advance(WithPhaseEffort(t, e));
      && s'.id == t.id && s'.price == t.price && s'.allocatedResources == t.allocatedResources
      && (moved <==> t.status.InProgress() && e == 0)
      && s'.status == (if moved then NextStage(t.status) else t.status)
      && (moved ==> s'.status.Rank() == t.status.Rank() + 1)
      && (s'.status != HiddenBacklog <==> t.status != HiddenBacklog)
      && PhaseEffort(s'.(status := t.status)) == e
      && (s'.analysisEffort == t.analysisEffort || t.status == AnalyzedInProgress)
      && (s'.devEffort == t.devEffort || t.status == DevelopedInProgress)
      && (s'.testEffort == t.testEffort || t.status == Testing)
      && s'.analysisEffort <= t.analysisEffort && s'.devEffort <= t.devEffort && s'.testEffort <= t.testEffort
      && s'.daysInPrioritized == t.daysInPrioritized
  {
  }

  /** Enough matching hands finish the phase within the round: with n
      matching resources a remaining effort of at most MinDraw * n is done. */
  lemma EnoughHandsFinish(s: Story, ds: seq<nat>)
    requires |ds| == |s.allocatedResources| && DrawsInRange(ds)
    requires s.status.InProgress()
    requires PhaseEffort(s) <= MinDraw * MatchCount(s.status, s.allocatedResources)
    ensures RoundStory(s, ds, false).1
  {
    DeliveredBounds(s.status, s.allocatedResources, ds);
    RoundStoryEffect(s, ds, false);
  }

  /** Too few matching hands cannot finish: a remaining effort above
      MaxDraw * n keeps the story where it is. */
  lemma TooFewHandsStay(s: Story, ds: seq<nat>)
    requires |ds| == |s.allocatedResources| && DrawsInRange(ds)
    requires PhaseEffort(s) > MaxDraw * MatchCount(s.status, s.allocatedResources)
    ensures !RoundStory(s, ds, false).1
    ensures RoundStory(s, ds, false).0.status == s.status
  {
    DeliveredBounds(s.status, s.allocatedResources, ds);
    RoundStoryEffect(s, ds, false);
  }

  /** Resources of the wrong kind are wasted: with no matching resource a
      normal round changes no effort. */
  lemma MismatchWasted(s: Story, ds: seq<nat>)
    requires |ds| == |s.allocatedResources|
    requires MatchCount(s.status, s.allocatedResources) == 0
    ensures var s' := RoundStory(s, ds, false).0;
      s'.analysisEffort == s.analysisEffort && s'.devEffort == s.devEffort && s'.testEffort == s.testEffort
  {
    DeliveredNone(s.status, s.allocatedResources, ds);
    RoundStoryEffect(s, ds, false);
  }

  /** One draw per allocated resource of every story on the board. */
  predicate DrawsMatch(catalog: seq<Story>, active: seq<nat>, draws: seq<seq<nat>>) {
    && |draws| == |active|
    && forall k :: 0 <= k < |active| ==> active[k] < |catalog| && |draws[k]| == |catalog[active[k]].allocatedResources|
  }

  /** The pass over the first i stories of the board, each processed once
      from its state before the round. Yields the new catalog and the
      positions of the stories that moved, in board order. */
  function Pass(catalog: seq<Story>, active: seq<nat>, draws: seq<seq<nat>>, testMode: bool, i: nat): (r: (seq<Story>, seq<nat>))
    requires DrawsMatch(catalog, active, draws) && i <= |active|
    ensures |r.0| == |catalog|
    ensures forall m :: 0 <= m < |r.1| ==> r.1[m] < |catalog|
    decreases i
  {
    if i == 0 then (catalog, [])
    else
      var (c, moved) := Pass(catalog, active, draws, testMode, i - 1);
      var a := active[i - 1];
      var (s, mv) := RoundStory(catalog[a], draws[i - 1], testMode);
      (c[a := s], if mv then moved + [a] else moved)
  }

  /** After the pass over the first i stories, each of them holds its
      one-story round result and every other story is as it was. */
  lemma {:induction false} PassStories(catalog: seq<Story>, active: seq<nat>, draws: seq<seq<nat>>, testMode: bool, i: nat)
    requires WellFormedActive(catalog, active) && DrawsMatch(catalog, active, draws) && i <= |active|
    ensures forall k :: 0 <= k < i ==>
      Pass(catalog, active, draws, testMode, i).0[active[k]] == RoundStory(catalog[active[k]], draws[k], testMode).0
    ensures forall j :: 0 <= j < |catalog| && j !in active[..i] ==>
      Pass(catalog, active, draws, testMode, i).0[j] == catalog[j]
    decreases i
  {
    if i > 0 {
      PassStories(catalog, active, draws, testMode, i - 1);
      var c := Pass(catalog, active, draws, testMode, i - 1).0;
      var a := active[i - 1];
      var s := RoundStory(catalog[a], draws[i - 1], testMode).0;
      var r := Pass(catalog, active, draws, testMode, i).0;
      assert r == c[a := s];
      assert active[..i] == active[..i - 1] + [a];
      forall k | 0 <= k < i
        ensures r[active[k]] == RoundStory(catalog[active[k]], draws[k], testMode).0
      {
        if k < i - 1 {
          assert active[k] != a;
        }
      }
      forall j | 0 <= j < |catalog| && j !in active[..i]
        ensures r[j] == catalog[j]
      {
        assert j != a && j !in active[..i - 1];
      }
    }
  }

  /** The pass over the first i stories has not yet touched story i. */
  lemma PassUntouched(catalog: seq<Story>, active: seq<nat>, draws: seq<seq<nat>>, testMode: bool, i: nat)
    requires WellFormedActive(catalog, active) && DrawsMatch(catalog, active, draws) && i < |active|
    ensures Pass(catalog, active, draws, testMode, i).0[active[i]] == catalog[active[i]]
  {
    PassStories(catalog, active, draws, testMode, i);
    assert active[i] !in active[..i];
  }

  /** The stories that moved in the pass over the first i stories are among
      those i stories. */
  lemma {:induction false} PassMovedWithin(catalog: seq<Story>, active: seq<nat>, draws: seq<seq<nat>>, testMode: bool, i: nat)
    requires DrawsMatch(catalog, active, draws) && i <= |active|
    ensures forall m :: 0 <= m < |Pass(catalog, active, draws, testMode, i).1| ==>
      Pass(catalog, active, draws, testMode, i).1[m] in active[..i]
    decreases i
  {
    if i > 0 {
      PassMovedWithin(catalog, active, draws, testMode, i - 1);
      var moved := Pass(catalog, active, draws, testMode, i - 1).1;
      var moved' := Pass(catalog, active, draws, testMode, i).1;
      var a := active[i - 1];
      assert moved' == moved || moved' == moved + [a];
      forall m | 0 <= m < |moved'| ensures moved'[m] in active[..i] {
        if m < |moved| {
          assert moved'[m] == moved[m] && moved[m] in active[..i - 1];
          var j :| 0 <= j < i - 1 && active[..i - 1][j] == moved[m];
          assert active[..i][j] == moved[m];
        } else {
          assert moved'[m] == a && active[..i][i - 1] == a;
        }
      }
    }
  }

  /** The stories that moved in the pass over the first i stories are
      exactly those among them whose round says so. */
  lemma {:induction false} PassMoved(catalog: seq<Story>, active: seq<nat>, draws: seq<seq<nat>>, testMode: bool, i: nat)
    requires WellFormedActive(catalog, active) && DrawsMatch(catalog, active, draws) && i <= |active|
    ensures var moved := Pass(catalog, active, draws, testMode, i).1;
      && (forall k :: 0 <= k < i ==> (active[k] in moved <==> RoundStory(catalog[active[k]], draws[k], testMode).1))
      && (forall m :: 0 <= m < |moved| ==> moved[m] in active[..i])
    decreases i
  {
    PassMovedWithin(catalog, active, draws, testMode, i);
    if i > 0 {
      PassMoved(catalog, active, draws, testMode, i - 1);
      var moved := Pass(catalog, active, draws, testMode, i - 1).1;
      var a := active[i - 1];
      var mv := RoundStory(catalog[a], draws[i - 1], testMode).1;
      var moved' := Pass(catalog, active, draws, testMode, i).1;
      assert moved' == if mv then moved + [a] else moved;
      assert a !in moved by {
        assert a !in active[..i - 1];
      }
      forall k | 0 <= k < i - 1
        ensures active[k] in moved' <==> active[k] in moved
      {
        assert active[k] != a;
      }
    }
  }

  /** The stories that moved give all their resources back to the pool, one
      `addResource` each, and their lists are cleared. */
  function Reclaim(catalog: seq<Story>, pool: seq<Resource>, moved: seq<nat>): (r: (seq<Story>, seq<Resource>))
    requires forall m :: 0 <= m < |moved| ==> moved[m] < |catalog|
    ensures |r.0| == |catalog|
    decreases |moved|
  {
    if moved == [] then (catalog, pool)
    else
      var n := |moved| - 1;
      var (c, p) := Reclaim(catalog, pool, moved[..n]);
      var j := moved[n];
      (c[j := c[j].(allocatedResources := [])], AddAll(p, c[j].allocatedResources))
  }

  /** Reclaiming one more moved story is one more step on top. */
  lemma ReclaimSnoc(catalog: seq<Story>, pool: seq<Resource>, moved: seq<nat>, m: nat)
    requires forall i :: 0 <= i < |moved| ==> moved[i] < |catalog|
    requires m < |moved|
    ensures var r := Reclaim(catalog, pool, moved[..m]);
      var j := moved[m];
      Reclaim(catalog, pool, moved[..m + 1]) == (r.0[j := r.0[j].(allocatedResources := [])], AddAll(r.1, r.0[j].allocatedResources))
  {
    assert moved[..m + 1][..m] == moved[..m];
  }

  /** Handing a whole list over to the pool keeps what is held overall. */
  lemma ShiftAll(p: multiset<Resource>, a: multiset<Resource>, x: multiset<Resource>, y: multiset<Resource>)
    requires x + a == y
    ensures (p + a) + x == p + y
  {
    forall q ensures ((p + a) + x)[q] == (p + y)[q] {
      assert (x + a)[q] == y[q];
    }
  }

  /** One reclaim step under conservation: the story's resources are all
      new to the pool, so they are appended, and conservation is kept. */
  lemma ReclaimStep(c: seq<Story>, p: seq<Resource>, j: nat)
    requires Conserved(c, p) && j < |c|
    ensures AddAll(p, c[j].allocatedResources) == p + c[j].allocatedResources
    ensures Conserved(c[j := c[j].(allocatedResources := [])], AddAll(p, c[j].allocatedResources))
  {
    var a := c[j].allocatedResources;
    var c' := c[j := c[j].(allocatedResources := [])];
    StoryDistinct(c, p, j);
    PoolStoryDisjoint(c, p, j);
    AddAllFresh(p, a);
    AllocSumUpdate(c, j, c[j].(allocatedResources := []));
    assert multiset(p + a) == multiset(p) + multiset(a);
    ShiftAll(multiset(p), multiset(a), AllocSum(c'), AllocSum(c));
    ConservedKept(c, p, c', p + a);
  }

  /** Reclaiming clears exactly the moved stories' lists and changes
      nothing else about the stories. */
  lemma {:induction false} ReclaimShape(catalog: seq<Story>, pool: seq<Resource>, moved: seq<nat>)
    requires forall m :: 0 <= m < |moved| ==> moved[m] < |catalog|
    ensures var c := Reclaim(catalog, pool, moved).0;
      && SameExceptAlloc(catalog, c)
      && (forall j :: j in moved ==> c[j].allocatedResources == [])
      && (forall j :: 0 <= j < |catalog| && j !in moved ==> c[j] == catalog[j])
    decreases |moved|
  {
    if moved != [] {
      var n := |moved| - 1;
      ReclaimShape(catalog, pool, moved[..n]);
      assert forall j :: j in moved <==> j in moved[..n] || j == moved[n] by {
        assert moved == moved[..n] + [moved[n]];
      }
    }
  }

  /** Reclaiming keeps conservation. */
  lemma {:induction false} ReclaimConserved(catalog: seq<Story>, pool: seq<Resource>, moved: seq<nat>)
    requires Conserved(catalog, pool)
    requires forall m :: 0 <= m < |moved| ==> moved[m] < |catalog|
    ensures var r := Reclaim(catalog, pool, moved); Conserved(r.0, r.1)
    decreases |moved|
  {
    if moved != [] {
      var n := |moved| - 1;
      ReclaimConserved(catalog, pool, moved[..n]);
      var (c, p) := Reclaim(catalog, pool, moved[..n]);
      ReclaimStep(c, p, moved[n]);
    }
  }

  /** Reclaiming keeps conservation, clears exactly the moved stories' lists
      and changes nothing else about the stories. */
  lemma ReclaimFacts(catalog: seq<Story>, pool: seq<Resource>, moved: seq<nat>)
    requires Conserved(catalog, pool)
    requires forall m :: 0 <= m < |moved| ==> moved[m] < |catalog|
    ensures var r := Reclaim(catalog, pool, moved);
      && Conserved(r.0, r.1)
      && SameExceptAlloc(catalog, r.0)
      && (forall j :: j in moved ==> r.0[j].allocatedResources == [])
      && (forall j :: 0 <= j < |catalog| && j !in moved ==> r.0[j] == catalog[j])
  {
    ReclaimShape(catalog, pool, moved);
    ReclaimConserved(catalog, pool, moved);
  }

  /** The result of a round, before the day counter. */
  datatype Outcome = Outcome(catalog: seq<Story>, active: seq<nat>, pool: seq<Resource>, gain: nat)

  /** `completeRound` after its day check: the pass over the board, the
      reclaim, the recurring profit of the deployed stories and the backlog
      refill. */
  function Round(catalog: seq<Story>, active: seq<nat>, pool: seq<Resource>, draws: seq<seq<nat>>, testMode: bool): Outcome
    requires DrawsMatch(catalog, active, draws)
  {
    var (c1, moved) := Pass(catalog, active, draws, testMode, |active|);
    var (c2, p2) := Reclaim(c1, pool, moved);
    var (c3, a3) := Replenished(c2, active);
    Outcome(c3, a3, p2, PriceSum(StoryRegistry.Deployed(c2, active)))
  }

  /** The round, given the results of its pass and of its reclaim. */
  lemma RoundIs(catalog: seq<Story>, active: seq<nat>, pool: seq<Resource>, draws: seq<seq<nat>>, testMode: bool,
                c1: seq<Story>, moved: seq<nat>, c2: seq<Story>, p2: seq<Resource>)
    requires DrawsMatch(catalog, active, draws)
    requires (c1, moved) == Pass(catalog, active, draws, testMode, |active|)
    requires (c2, p2) == Reclaim(c1, pool, moved)
    ensures var r := Replenished(c2, active);
      Round(catalog, active, pool, draws, testMode) == Outcome(r.0, r.1, p2, PriceSum(StoryRegistry.Deployed(c2, active)))
  {
  }

  /** The round, given the results of its three stages, and the registry
      invariants it keeps. */
  lemma RoundFromSteps(catalog: seq<Story>, active: seq<nat>, pool: seq<Resource>, draws: seq<seq<nat>>, testMode: bool,
                       c1: seq<Story>, moved: seq<nat>, c2: seq<Story>, p2: seq<Resource>, c3: seq<Story>, a3: seq<nat>)
    requires Consistent(catalog, active) && Conserved(catalog, pool) && DrawsMatch(catalog, active, draws)
    requires (c1, moved) == Pass(catalog, active, draws, testMode, |active|)
    requires (c2, p2) == Reclaim(c1, pool, moved)
    requires (c3, a3) == Replenished(c2, active)
    ensures Round(catalog, active, pool, draws, testMode) == Outcome(c3, a3, p2, PriceSum(StoryRegistry.Deployed(c2, active)))
    ensures Consistent(c3, a3) && Conserved(c3, p2)
  {
    RoundKeepsInvariants(catalog, active, pool, draws, testMode);
  }

  /** The pass keeps the registry consistent and moves no resource. */
  lemma PassKeepsInvariants(catalog: seq<Story>, active: seq<nat>, pool: seq<Resource>, draws: seq<seq<nat>>, testMode: bool)
    requires Consistent(catalog, active) && Conserved(catalog, pool) && DrawsMatch(catalog, active, draws)
    ensures var c1 := Pass(catalog, active, draws, testMode, |active|).0;
      Consistent(c1, active) && Conserved(c1, pool)
  {
    var c1 := Pass(catalog, active, draws, testMode, |active|).0;
    PassStories(catalog, active, draws, testMode, |active|);
    assert active[..|active|] == active;
    forall i | 0 <= i < |catalog|
      ensures c1[i].id == catalog[i].id
      ensures c1[i].status == HiddenBacklog <==> catalog[i].status == HiddenBacklog
      ensures c1[i].allocatedResources == catalog[i].allocatedResources
    {
      if i in active {
        var k :| 0 <= k < |active| && active[k] == i;
        RoundStoryEffect(catalog[i], draws[k], testMode);
      }
    }
    AllocSumSame(c1, catalog);
    ConservedKept(catalog, pool, c1, pool);
  }

  /** The reclaim keeps the registry consistent and keeps conservation. */
  lemma ReclaimKeepsInvariants(catalog: seq<Story>, active: seq<nat>, pool: seq<Resource>, moved: seq<nat>)
    requires Consistent(catalog, active) && Conserved(catalog, pool)
    requires forall m :: 0 <= m < |moved| ==> moved[m] < |catalog|
    ensures var r := Reclaim(catalog, pool, moved);
      Consistent(r.0, active) && Conserved(r.0, r.1)
  {
    ReclaimFacts(catalog, pool, moved);
    var c2 := Reclaim(catalog, pool, moved).0;
    forall i | 0 <= i < |catalog| && catalog[i].status == HiddenBacklog
      ensures c2[i].allocatedResources == []
    {
      if i !in moved {
        assert c2[i] == catalog[i];
      }
    }
    ConsistentAllocChange(catalog, c2, active);
  }

  /** A round keeps the registry consistent and keeps every staff resource
      in exactly one place. */
  lemma RoundKeepsInvariants(catalog: seq<Story>, active: seq<nat>, pool: seq<Resource>, draws: seq<seq<nat>>, testMode: bool)
    requires Consistent(catalog, active) && Conserved(catalog, pool) && DrawsMatch(catalog, active, draws)
    ensures var o := Round(catalog, active, pool, draws, testMode);
      Consistent(o.catalog, o.active) && Conserved(o.catalog, o.pool)
  {
    var (c1, moved) := Pass(catalog, active, draws, testMode, |active|);
    PassKeepsInvariants(catalog, active, pool, draws, testMode);
    var (c2, p2) := Reclaim(c1, pool, moved);
    ReclaimKeepsInvariants(c1, active, pool, moved);
    ReplenishConsistent(c2, active);
    var (c3, a3) := Replenished(c2, active);
    AllocSumSame(c3, c2);
    ConservedKept(c2, p2, c3, p2);
  }

  /** The catalog after the pass and the reclaim, on a story of the board: its
      one-story round result, with its list cleared when it moved. */
  lemma ReclaimedOnBoard(catalog: seq<Story>, active: seq<nat>, pool: seq<Resource>, draws: seq<seq<nat>>, testMode: bool, k: nat)
    requires Consistent(catalog, active) && Conserved(catalog, pool) && DrawsMatch(catalog, active, draws)
    requires k < |active|
    ensures var (c1, moved) := Pass(catalog, active, draws, testMode, |active|);
      var (s, mv) := RoundStory(catalog[active[k]], draws[k], testMode);
      Reclaim(c1, pool, moved).0[active[k]] == if mv then s.(allocatedResources := []) else s
  {
    var (c1, moved) := Pass(catalog, active, draws, testMode, |active|);
    PassStories(catalog, active, draws, testMode, |active|);
    PassMoved(catalog, active, draws, testMode, |active|);
    PassKeepsInvariants(catalog, active, pool, draws, testMode);
    ReclaimFacts(c1, pool, moved);
  }

  /** The refill only touches hidden stories, so every story already on the
      board reads the same after it. */
  lemma RefillKeepsBoard(catalog: seq<Story>, active: seq<nat>, j: nat)
    requires Consistent(catalog, active) && j in active
    ensures Replenished(catalog, active).0[j] == catalog[j]
  {
    ToRevealFacts(catalog, active);
    var xs := ToReveal(catalog, active);
    assert j !in xs;
  }

  /** What a round leaves on a story that was on the board: its one-story
      round result, holding no resources any more when it moved. */
  lemma RoundOnActive(catalog: seq<Story>, active: seq<nat>, pool: seq<Resource>, draws: seq<seq<nat>>, testMode: bool, k: nat)
    requires Consistent(catalog, active) && Conserved(catalog, pool) && DrawsMatch(catalog, active, draws)
    requires k < |active|
    ensures var o := Round(catalog, active, pool, draws, testMode);
      var (s, mv) := RoundStory(catalog[active[k]], draws[k], testMode);
      o.catalog[active[k]] == if mv then s.(allocatedResources := []) else s
  {
    var (c1, moved) := Pass(catalog, active, draws, testMode, |active|);
    PassKeepsInvariants(catalog, active, pool, draws, testMode);
    ReclaimKeepsInvariants(c1, active, pool, moved);
    ReclaimedOnBoard(catalog, active, pool, draws, testMode, k);
    var c2 := Reclaim(c1, pool, moved).0;
    RefillKeepsBoard(c2, active, active[k]);
  }

  /** What a round leaves on a story that was not on the board: the story as
      it was, revealed into the backlog when the refill picked it. The board
      keeps its order and grows only by such stories. */
  lemma RoundOffBoard(catalog: seq<Story>, active: seq<nat>, pool: seq<Resource>, draws: seq<seq<nat>>, testMode: bool)
    requires Consistent(catalog, active) && Conserved(catalog, pool) && DrawsMatch(catalog, active, draws)
    ensures var o := Round(catalog, active, pool, draws, testMode);
      && |o.catalog| == |catalog|
      && |o.active| >= |active| && o.active[..|active|] == active
      && (forall j :: 0 <= j < |catalog| && j !in active ==>
            o.catalog[j] == if j in o.active then catalog[j].(status := Backlog) else catalog[j])
  {
    var (c1, moved) := Pass(catalog, active, draws, testMode, |active|);
    PassStories(catalog, active, draws, testMode, |active|);
    assert active[..|active|] == active;
    PassMovedWithin(catalog, active, draws, testMode, |active|);
    ReclaimShape(c1, pool, moved);
    var c2 := Reclaim(c1, pool, moved).0;
    forall j | 0 <= j < |catalog| && j !in active ensures c2[j] == catalog[j] {
      assert j !in moved;
    }
    var xs := ToReveal(c2, active);
    var o := Round(catalog, active, pool, draws, testMode);
    assert o.catalog == RevealAll(c2, xs) && o.active == active + xs;
    assert (active + xs)[..|active|] == active;
  }

  /** A round leaves every allocation list as it was or clears it. */
  lemma RoundLists(catalog: seq<Story>, active: seq<nat>, pool: seq<Resource>, draws: seq<seq<nat>>, testMode: bool)
    requires Consistent(catalog, active) && Conserved(catalog, pool) && DrawsMatch(catalog, active, draws)
    ensures var o := Round(catalog, active, pool, draws, testMode);
      && |o.catalog| == |catalog|
      && forall i :: 0 <= i < |catalog| ==>
           o.catalog[i].allocatedResources == [] || o.catalog[i].allocatedResources == catalog[i].allocatedResources
  {
    var o := Round(catalog, active, pool, draws, testMode);
    RoundOffBoard(catalog, active, pool, draws, testMode);
    forall i | 0 <= i < |catalog| && i in active
      ensures o.catalog[i].allocatedResources == [] || o.catalog[i].allocatedResources == catalog[i].allocatedResources
    {
      var l :| 0 <= l < |active| && active[l] == i;
      RoundOnActive(catalog, active, pool, draws, testMode, l);
      RoundStoryEffect(catalog[i], draws[l], testMode);
    }
  }

  /** Every resource of a story that moved is back in the pool after the
      round. */
  lemma RoundReclaimsToPool(catalog: seq<Story>, active: seq<nat>, pool: seq<Resource>, draws: seq<seq<nat>>, testMode: bool,
                            k: nat, q: Resource)
    requires Consistent(catalog, active) && Conserved(catalog, pool) && DrawsMatch(catalog, active, draws)
    requires k < |active| && RoundStory(catalog[active[k]], draws[k], testMode).1
    requires q in catalog[active[k]].allocatedResources
    ensures q in Round(catalog, active, pool, draws, testMode).pool
  {
    var o := Round(catalog, active, pool, draws, testMode);
    var a := active[k];
    OnStoryOnly(catalog, pool, a, q);
    RoundKeepsInvariants(catalog, active, pool, draws, testMode);
    RoundLists(catalog, active, pool, draws, testMode);
    RoundOnActive(catalog, active, pool, draws, testMode, k);
    OnNoStory(o.catalog, o.pool, q);
  }

  /** The stories the refill adds to the board were hidden before the round
      and are in the backlog after it. */
  lemma RoundRevealsBacklog(catalog: seq<Story>, active: seq<nat>, pool: seq<Resource>, draws: seq<seq<nat>>, testMode: bool)
    requires Consistent(catalog, active) && Conserved(catalog, pool) && DrawsMatch(catalog, active, draws)
    ensures var o := Round(catalog, active, pool, draws, testMode);
      && o.active == active + o.active[|active|..]
      && forall m :: |active| <= m < |o.active| ==>
           o.active[m] < |catalog| && catalog[o.active[m]].status == HiddenBacklog && o.catalog[o.active[m]].status == Backlog
  {
    var o := Round(catalog, active, pool, draws, testMode);
    RoundOffBoard(catalog, active, pool, draws, testMode);
    RoundKeepsInvariants(catalog, active, pool, draws, testMode);
    assert o.active == o.active[..|active|] + o.active[|active|..];
    forall m | |active| <= m < |o.active|
      ensures o.active[m] < |catalog| && catalog[o.active[m]].status == HiddenBacklog && o.catalog[o.active[m]].status == Backlog
    {
      assert o.active[m] !in active by {
        forall l | 0 <= l < |active| ensures active[l] != o.active[m] {
          assert active[l] == o.active[l];
        }
      }
    }
  }

  /** The column a round leaves a board story in: the next one if it moved,
      its own otherwise. */
  lemma RoundStatusAt(catalog: seq<Story>, active: seq<nat>, pool: seq<Resource>, draws: seq<seq<nat>>, testMode: bool, k: nat)
    requires Consistent(catalog, active) && Conserved(catalog, pool) && DrawsMatch(catalog, active, draws)
    requires k < |active|
    ensures var o := Round(catalog, active, pool, draws, testMode);
      var s := catalog[active[k]];
      var moved := RoundStory(s, draws[k], testMode).1;
      && o.catalog[active[k]].status == (if moved then NextStage(s.status) else s.status)
      && o.catalog[active[k]].price == s.price
      && (moved ==> s.status.InProgress())
  {
    RoundOnActive(catalog, active, pool, draws, testMode, k);
    RoundStoryEffect(catalog[active[k]], draws[k], testMode);
  }

  /** The round's profit is the sum of the prices of the stories deployed
      after it, and is at least what was deployed before it: a deployed story
      stays deployed. */
  lemma RoundProfit(catalog: seq<Story>, active: seq<nat>, pool: seq<Resource>, draws: seq<seq<nat>>, testMode: bool)
    requires Consistent(catalog, active) && Conserved(catalog, pool) && DrawsMatch(catalog, active, draws)
    ensures var o := Round(catalog, active, pool, draws, testMode);
      && o.gain == PriceSum(StoryRegistry.Deployed(o.catalog, o.active))
      && o.gain >= PriceSum(StoryRegistry.Deployed(catalog, active))
  {
    var o := Round(catalog, active, pool, draws, testMode);
    RoundGainOnBoard(catalog, active, pool, draws, testMode);
    RoundOffBoard(catalog, active, pool, draws, testMode);
    forall k | 0 <= k < |active| && catalog[active[k]].status == Stage.Deployed
      ensures o.catalog[active[k]].status == Stage.Deployed && o.catalog[active[k]].price == catalog[active[k]].price
    {
      RoundStatusAt(catalog, active, pool, draws, testMode, k);
    }
    DeployedSumGrows(catalog, o.catalog, active);
  }

  /** The round's gain is the price sum of the board's deployed stories
      after reclaiming, and the newly revealed stories add none. */
  lemma RoundGainOnBoard(catalog: seq<Story>, active: seq<nat>, pool: seq<Resource>, draws: seq<seq<nat>>, testMode: bool)
    requires Consistent(catalog, active) && Conserved(catalog, pool) && DrawsMatch(catalog, active, draws)
    ensures var o := Round(catalog, active, pool, draws, testMode);
      && StoryRegistry.Deployed(o.catalog, o.active) == StoryRegistry.Deployed(o.catalog, active)
      && o.gain == PriceSum(StoryRegistry.Deployed(o.catalog, active))
  {
    var o := Round(catalog, active, pool, draws, testMode);
    var (c1, moved) := Pass(catalog, active, draws, testMode, |active|);
    var (c2, p2) := Reclaim(c1, pool, moved);
    RoundIs(catalog, active, pool, draws, testMode, c1, moved, c2, p2);
    PassKeepsInvariants(catalog, active, pool, draws, testMode);
    ReclaimKeepsInvariants(c1, active, pool, moved);
    forall k | 0 <= k < |active| ensures o.catalog[active[k]] == c2[active[k]] {
      RefillKeepsBoard(c2, active, active[k]);
    }
    RoundRevealsBacklog(catalog, active, pool, draws, testMode);
    RefillDeployed(c2, o.catalog, active, o.active[|active|..]);
  }

  /** A refill that keeps the board's stories and appends only stories that
      are not deployed leaves the deployed list as it was. */
  lemma RefillDeployed(c: seq<Story>, c': seq<Story>, active: seq<nat>, xs: seq<nat>)
    requires |c'| == |c|
    requires forall k :: 0 <= k < |active| ==> active[k] < |c| && c'[active[k]] == c[active[k]]
    requires forall m :: 0 <= m < |xs| ==> xs[m] < |c'| && c'[xs[m]].status == Backlog
    ensures StoryRegistry.Deployed(c', active + xs) == StoryRegistry.Deployed(c', active)
    ensures StoryRegistry.Deployed(c', active) == StoryRegistry.Deployed(c, active)
  {
    DeployedSame(c, c', active);
    CountStageNone(c', xs, Stage.Deployed);
    DeployedAppend(c', active, xs);
  }

  /** The WIP limits survive a change in which no board story enters a
      limited area it was not in and only backlog stories join the board. */
  lemma WipKept(c0: seq<Story>, c1: seq<Story>, active: seq<nat>, xs: seq<nat>)
    requires WellFormedActive(c0, active) && |c1| == |c0| && WipWithin(c0, active)
    requires forall k :: 0 <= k < |active| ==>
      && (c1[active[k]].status == Prioritized ==> c0[active[k]].status == Prioritized)
      && (c1[active[k]].status.InAnalysis() ==> c0[active[k]].status.InAnalysis())
      && (c1[active[k]].status.InDevelopment() ==> c0[active[k]].status.InDevelopment())
      && (c1[active[k]].status == Testing ==> c0[active[k]].status == Testing)
    requires forall m :: 0 <= m < |xs| ==> xs[m] < |c1| && c1[xs[m]].status == Backlog
    ensures WipWithin(c1, active + xs)
  {
    forall st | st != Backlog
      ensures CountStage(c1, active + xs, st) == CountStage(c1, active, st)
    {
      CountStageNone(c1, xs, st);
      CountStageAppend(c1, active, xs, st);
    }
    CountPairMono(c0, c1, active, Prioritized, Prioritized);
    CountPairMono(c0, c1, active, AnalyzedInProgress, AnalyzedDone);
    CountPairMono(c0, c1, active, DevelopedInProgress, DevelopedDone);
    CountPairMono(c0, c1, active, Testing, Testing);
  }

  /** After a round, a board story counted in the prioritized column, an
      analysis or development area or the testing column was already counted
      there before the round: work only moves a story from in-progress to
      done within an area, or out of testing. */
  lemma RoundStaysInArea(catalog: seq<Story>, active: seq<nat>, pool: seq<Resource>, draws: seq<seq<nat>>, testMode: bool)
    requires Consistent(catalog, active) && Conserved(catalog, pool) && DrawsMatch(catalog, active, draws)
    ensures var o := Round(catalog, active, pool, draws, testMode);
      forall k :: 0 <= k < |active| ==>
        && (o.catalog[active[k]].status == Prioritized ==> catalog[active[k]].status == Prioritized)
        && (o.catalog[active[k]].status.InAnalysis() ==> catalog[active[k]].status.InAnalysis())
        && (o.catalog[active[k]].status.InDevelopment() ==> catalog[active[k]].status.InDevelopment())
        && (o.catalog[active[k]].status == Testing ==> catalog[active[k]].status == Testing)
  {
    var o := Round(catalog, active, pool, draws, testMode);
    forall k | 0 <= k < |active|
      ensures var s := catalog[active[k]];
        && (o.catalog[active[k]].status == Prioritized ==> s.status == Prioritized)
        && (o.catalog[active[k]].status.InAnalysis() ==> s.status.InAnalysis())
        && (o.catalog[active[k]].status.InDevelopment() ==> s.status.InDevelopment())
        && (o.catalog[active[k]].status == Testing ==> s.status == Testing)
    {
      RoundStatusAt(catalog, active, pool, draws, testMode, k);
    }
  }

  /** Stories only move within an analysis or development area or out of
      testing, and the refill adds backlog stories only, so a round never
      pushes a board past its WIP limits. */
  lemma RoundPreservesWip(catalog: seq<Story>, active: seq<nat>, pool: seq<Resource>, draws: seq<seq<nat>>, testMode: bool)
    requires Consistent(catalog, active) && Conserved(catalog, pool) && DrawsMatch(catalog, active, draws)
    requires WipWithin(catalog, active)
    ensures var o := Round(catalog, active, pool, draws, testMode);
      WipWithin(o.catalog, o.active)
  {
    var o := Round(catalog, active, pool, draws, testMode);
    RoundOffBoard(catalog, active, pool, draws, testMode);
    RoundRevealsBacklog(catalog, active, pool, draws, testMode);
    RoundStaysInArea(catalog, active, pool, draws, testMode);
    var xs := o.active[|active|..];
    assert forall m :: 0 <= m < |xs| ==> xs[m] == o.active[|active| + m];
    WipKept(catalog, o.catalog, active, xs);
  }

  /** A normal round gives every prioritized story another day there, which
      opens its gate to analysis. */
  lemma RoundOpensGate(catalog: seq<Story>, active: seq<nat>, pool: seq<Resource>, draws: seq<seq<nat>>, k: nat)
    requires Consistent(catalog, active) && Conserved(catalog, pool) && DrawsMatch(catalog, active, draws)
    requires k < |active| && catalog[active[k]].status == Prioritized
    ensures var s := Round(catalog, active, pool, draws, false).catalog[active[k]];
      && s.status == Prioritized
      && s.daysInPrioritized == catalog[active[k]].daysInPrioritized + 1
      && TransitionAllows(s, AnalyzedInProgress)
  {
    RoundOnActive(catalog, active, pool, draws, false, k);
    RoundStoryEffect(catalog[active[k]], draws[k], false);
  }
}
