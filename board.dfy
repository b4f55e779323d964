/** The game's mutable state and its event handlers: the story and resource
    managers' arrays, the game manager's counters, and the handlers that
    change them step by step. Each handler is proved against the value-level
    rule it carries out, and keeps the board's invariant. */
module Game {
  import opened Kanban
  import opened ResourcePool
  import opened StoryRegistry
  import opened Holdings
  import opened MoveRules
  import opened Allocation
  import opened RoundRules

  /** `ResourceManager.init`: `initialCount` resources of each kind, in kind
      order, numbered on from 1 across kinds. */
  method CreateResources() returns (pool: seq<Resource>)
    ensures pool == Staff()
  {
    pool := [];
    var nextId := 1;
    for t := 0 to |StaffKinds|
      invariant nextId == t * InitialCount + 1
      invariant pool == StaffUpTo(t * InitialCount)
    {
      for i := 0 to InitialCount
        invariant nextId == t * InitialCount + i + 1
        invariant pool == StaffUpTo(t * InitialCount + i)
      {
        assert StaffKind(nextId) == StaffKinds[t];
        pool := pool + [Resource(nextId, StaffKinds[t])];
        nextId := nextId + 1;
      }
    }
  }

  /** The story and resource managers' `init` on a catalog: every story
      hidden but the first five, which are in the backlog and on the board in
      catalog order, and all staff waiting. */
  method NewGame(data: seq<StoryData>) returns (catalog: seq<Story>, active: seq<nat>, pool: seq<Resource>)
    requires DistinctDataIds(data)
    ensures Consistent(catalog, active) && Conserved(catalog, pool)
    ensures |catalog| == |data|
    ensures forall i :: 0 <= i < |data| ==>
      catalog[i] == FromData(data[i]).(status := if i < Min(BacklogTarget, |data|) then Backlog else HiddenBacklog)
    ensures |active| == Min(BacklogTarget, |data|)
    ensures forall k :: 0 <= k < |active| ==> active[k] == k
    ensures pool == Staff()
  {
    catalog, active := InitStories(data);
    pool := CreateResources();
    AllocSumEmpty(catalog);
    ConservedStaff(catalog, pool);
  }

  /** The story and resource managers' `init` on the predefined catalog. */
  method PredefinedGame() returns (catalog: seq<Story>, active: seq<nat>, pool: seq<Resource>)
    ensures Consistent(catalog, active) && Conserved(catalog, pool)
    ensures |catalog| == |PredefinedStories()|
    ensures forall i :: 0 <= i < |catalog| ==>
      catalog[i] == FromData(PredefinedStories()[i]).(status := if i < BacklogTarget then Backlog else HiddenBacklog)
    ensures active == [0, 1, 2, 3, 4]
    ensures |pool| == StaffSize && forall k :: 0 <= k < |pool| ==> pool[k] == Resource(k + 1, StaffKind(k + 1))
  {
    PredefinedStoriesIds();
    StaffUpToAt(StaffSize);
    catalog, active, pool := NewGame(PredefinedStories());
    assert |active| == 5;
  }

  /** The refill loop of `replenishBacklog`: reveal the listed hidden
      stories, in list order, until `needed` are revealed or the list ends. */
  method RevealFirst(catalog: seq<Story>, active: seq<nat>, hidden: seq<nat>, needed: int)
    returns (c: seq<Story>, a: seq<nat>)
    requires forall k :: 0 <= k < |hidden| ==> hidden[k] < |catalog|
    requires needed > 0
    ensures var xs := hidden[..Min(needed, |hidden|)];
      c == RevealAll(catalog, xs) && a == active + xs
  {
    c, a := catalog, active;
    var i := 0;
    while i < needed && i < |hidden|
      invariant 0 <= i <= |hidden| && i <= needed
      invariant c == RevealAll(catalog, hidden[..i])
      invariant a == active + hidden[..i]
    {
      var j := hidden[i];
      assert hidden[..i + 1] == hidden[..i] + [j];
      RevealAllSnoc(catalog, hidden[..i], j);
      c := c[j := c[j].(status := Backlog)];
      a := a + [j];
      i := i + 1;
    }
  }

  /** `replenishBacklog` on the two story arrays. */
  method RevealHidden(catalog: seq<Story>, active: seq<nat>) returns (c: seq<Story>, a: seq<nat>)
    ensures (c, a) == Replenished(catalog, active)
  {
    var currentBacklogCount := CountStage(catalog, active, Backlog);
    var storiesNeeded: int := BacklogTarget - currentBacklogCount;
    if storiesNeeded > 0 {
      var hidden := HiddenIndices(catalog);
      c, a := RevealFirst(catalog, active, hidden, storiesNeeded);
    } else {
      c, a := catalog, active;
      assert a + [] == a;
    }
  }

  /** The body of `completeRound`'s pass for one story: in test mode the
      in-progress phase is finished outright; otherwise a prioritized story
      gains a day, each allocated resource delivers its draw to the phase it
      matches (floored at 0), and a phase left with no effort advances. */
  method ProcessStory(s: Story, ds: seq<nat>, testMode: bool) returns (s': Story, moved: bool)
    requires |ds| == |s.allocatedResources|
    ensures (s', moved) == RoundStory(s, ds, testMode)
  {
    s' := s;
    moved := false;
    if testMode {
      if s'.status == AnalyzedInProgress {
        s' := s'.(analysisEffort := 0, status := AnalyzedDone);
        moved := true;
      } else if s'.status == DevelopedInProgress {
        s' := s'.(devEffort := 0, status := DevelopedDone);
        moved := true;
      } else if s'.status == Testing {
        s' := s'.(testEffort := 0, status := Deployed);
        moved := true;
      }
      return;
    }
    if s'.status == Prioritized {
      s' := s'.(daysInPrioritized := s'.daysInPrioritized + 1);
    }
    var rs := s.allocatedResources;
    var j := 0;
    while j < |rs|
      invariant 0 <= j <= |rs|
      invariant s' == WorkAll(Tick(s), rs[..j], ds[..j])
    {
      var q := rs[j];
      var d := ds[j];
      ghost var before := s';
      if s'.status == AnalyzedInProgress && q.kind == Analyst {
        var e: int := s'.analysisEffort - d;
        if e < 0 { e := 0; }
        s' := s'.(analysisEffort := e);
      } else if s'.status == DevelopedInProgress && q.kind == Developer {
        var e: int := s'.devEffort - d;
        if e < 0 { e := 0; }
        s' := s'.(devEffort := e);
      } else if s'.status == Testing && q.kind == Tester {
        var e: int := s'.testEffort - d;
        if e < 0 { e := 0; }
        s' := s'.(testEffort := e);
      }
      assert s' == Work(before, q, d);
      WorkAllSnoc(Tick(s), rs, ds, j);
      j := j + 1;
    }
    assert rs[..j] == rs && ds[..j] == ds;
    if s'.status == AnalyzedInProgress && s'.analysisEffort == 0 {
      s' := s'.(status := AnalyzedDone);
      moved := true;
    } else if s'.status == DevelopedInProgress && s'.devEffort == 0 {
      s' := s'.(status := DevelopedDone);
      moved := true;
    } else if s'.status == Testing && s'.testEffort == 0 {
      s' := s'.(status := Deployed);
      moved := true;
    }
  }

  /** The profit of `completeRound`: the prices of `getDeployedStories`
      added up one by one. */
  method DeployedProfit(catalog: seq<Story>, active: seq<nat>) returns (gain: nat)
    ensures gain == PriceSum(StoryRegistry.Deployed(catalog, active))
  {
    var deployed := StoryRegistry.Deployed(catalog, active);
    gain := 0;
    for k := 0 to |deployed|
      invariant gain == PriceSum(deployed[..k])
    {
      assert deployed[..k + 1][..k] == deployed[..k];
      gain := gain + deployed[k].price;
    }
    assert deployed[..|deployed|] == deployed;
  }

  class Board {
    /** `allStoriesData`: every story record, hidden or not. */
    var catalog: seq<Story>
    /** `activeStories`: the revealed stories, as positions in `catalog`, in
        the order they were revealed. */
    var active: seq<nat>
    /** `availableResources`: the waiting area. */
    var pool: seq<Resource>
    var currentDay: nat
    const maxDays: nat := 35
    var totalProfit: nat
    var testMode: bool

    /** The registry is consistent and every staff resource is in exactly one
        place. */
    ghost predicate Valid()
      reads this
    {
      Consistent(catalog, active) && Conserved(catalog, pool)
    }

    /** `GameManager.init`'s state: the predefined catalog with its first
        five stories in the backlog, all staff waiting, day 1, no profit. */
    constructor()
      ensures Valid()
      ensures |catalog| == |PredefinedStories()|
      ensures forall i :: 0 <= i < |catalog| ==>
        catalog[i] == FromData(PredefinedStories()[i]).(status := if i < BacklogTarget then Backlog else HiddenBacklog)
      ensures active == [0, 1, 2, 3, 4]
      ensures |pool| == StaffSize && forall k :: 0 <= k < |pool| ==> pool[k] == Resource(k + 1, StaffKind(k + 1))
      ensures currentDay == 1 && totalProfit == 0 && !testMode
    {
      var c, a, p := PredefinedGame();
      catalog, active, pool := c, a, p;
      currentDay, totalProfit, testMode := 1, 0, false;
    }

    /** `removeResource`. */
    method RemoveResource(id: nat)
      modifies this
      ensures pool == WithoutId(old(pool), id)
      ensures catalog == old(catalog) && active == old(active)
      ensures currentDay == old(currentDay) && totalProfit == old(totalProfit) && testMode == old(testMode)
    {
      pool := WithoutId(pool, id);
    }

    /** `addResource`. */
    method AddResource(q: Resource)
      modifies this
      ensures pool == WithResource(old(pool), q)
      ensures catalog == old(catalog) && active == old(active)
      ensures currentDay == old(currentDay) && totalProfit == old(totalProfit) && testMode == old(testMode)
    {
      if !HasId(pool, q.id) {
        pool := pool + [q];
      }
    }

    /** `addResource` on each resource of a list, in list order. */
    method AddAllResources(rs: seq<Resource>)
      modifies this
      ensures pool == AddAll(old(pool), rs)
      ensures catalog == old(catalog) && active == old(active)
      ensures currentDay == old(currentDay) && totalProfit == old(totalProfit) && testMode == old(testMode)
    {
      for r := 0 to |rs|
        invariant pool == AddAll(old(pool), rs[..r])
        invariant catalog == old(catalog) && active == old(active)
        invariant currentDay == old(currentDay) && totalProfit == old(totalProfit) && testMode == old(testMode)
      {
        AddAllSnoc(old(pool), rs, r);
        AddResource(rs[r]);
      }
      assert rs[..|rs|] == rs;
    }

    /** `replenishBacklog`: reveal hidden stories, in catalog order, until the
        backlog holds five or none is left. */
    method ReplenishBacklog()
      modifies this
      ensures (catalog, active) == Replenished(old(catalog), old(active))
      ensures old(Valid()) ==> Valid()
      ensures pool == old(pool)
      ensures currentDay == old(currentDay) && totalProfit == old(totalProfit) && testMode == old(testMode)
    {
      var c, a := RevealHidden(catalog, active);
      if Valid() {
        ReplenishConsistent(catalog, active);
        AllocSumSame(c, catalog);
      }
      catalog, active := c, a;
    }

    /** `handleColumnDrop`: drop the card of story `storyId` on column
        `target`. */
    method MoveStory(storyId: int, target: Stage) returns (accepted: bool)
      requires Valid() && target != HiddenBacklog
      modifies this
      ensures var m := Move(old(catalog), old(active), storyId, target, old(testMode));
        && accepted == m.Accepted?
        && catalog == if accepted then m.catalog else old(catalog)
      ensures active == old(active) && pool == old(pool)
      ensures currentDay == old(currentDay) && totalProfit == old(totalProfit) && testMode == old(testMode)
      ensures Valid()
    {
      var found := FindStory(catalog, active, storyId);
      if found.None? {
        return false;
      }
      var c := found.value;
      var story := catalog[c];
      if testMode {
        catalog := catalog[c := story.(status := target)];
        MoveKeepsInvariants(old(catalog), active, pool, storyId, target, testMode);
        return true;
      }
      if !CapacityAllows(catalog, active, story, target) {
        return false;
      }
      if !TransitionAllows(story, target) {
        return false;
      }
      catalog := catalog[c := AfterMove(story, target)];
      MoveKeepsInvariants(old(catalog), active, pool, storyId, target, testMode);
      accepted := true;
    }

    /** `handleCardDrop`: drop resource `rid` on the card of story
        `targetId`. */
    method AllocateResource(rid: nat, targetId: int) returns (granted: bool)
      requires Valid()
      modifies this
      ensures var g := Allocate(old(catalog), old(active), old(pool), rid, targetId);
        && granted == g.Granted?
        && (granted ==> catalog == g.catalog && pool == g.pool)
        && (!granted ==> catalog == old(catalog) && pool == old(pool))
      ensures active == old(active)
      ensures currentDay == old(currentDay) && totalProfit == old(totalProfit) && testMode == old(testMode)
      ensures Valid()
    {
      var targetStory := FindStory(catalog, active, targetId);
      if targetStory.None? {
        return false;
      }
      var t := targetStory.value;
      var l := Locate(catalog, active, pool, rid);
      if l.Missing? || !Matches(catalog[t].status, l.res.kind) {
        return false;
      }
      AllocateKeepsInvariants(catalog, active, pool, rid, targetId);
      var q := l.res;
      if l.origin.OnStory? && catalog[l.origin.pos].id != targetId {
        var o := l.origin.pos;
        catalog := catalog[o := Take(catalog[o], rid)];
      } else if l.origin.WaitingArea? {
        RemoveResource(rid);
      }
      catalog := catalog[t := Give(catalog[t], q)];
      granted := true;
    }

    /** `handleWaitingAreaDrop`: drop resource `rid` on the waiting area. */
    method ReturnResourceToPool(rid: nat)
      requires Valid()
      modifies this
      ensures (catalog, pool) == ReturnToPool(old(catalog), old(active), old(pool), rid)
      ensures active == old(active)
      ensures currentDay == old(currentDay) && totalProfit == old(totalProfit) && testMode == old(testMode)
      ensures Valid()
    {
      var l := Locate(catalog, active, pool, rid);
      if l.Found? {
        if l.origin.OnStory? {
          var o := l.origin.pos;
          catalog := catalog[o := catalog[o].(allocatedResources := WithoutId(catalog[o].allocatedResources, rid))];
          ReturnFromStory(old(catalog), active, old(pool), rid);
        } else {
          ReturnFromPoolChangesNothing(old(catalog), active, old(pool), rid);
        }
        AddResource(l.res);
      }
    }

    /** The pass of `completeRound` over the board's stories, in board
        order; yields the stories that moved. */
    method RunPass(draws: seq<seq<nat>>) returns (moved: seq<nat>)
      requires WellFormedActive(catalog, active) && DrawsMatch(catalog, active, draws)
      modifies this
      ensures (catalog, moved) == Pass(old(catalog), old(active), draws, old(testMode), |old(active)|)
      ensures active == old(active) && pool == old(pool)
      ensures currentDay == old(currentDay) && totalProfit == old(totalProfit) && testMode == old(testMode)
    {
      moved := [];
      var i := 0;
      while i < |active|
        invariant active == old(active) && pool == old(pool)
        invariant currentDay == old(currentDay) && totalProfit == old(totalProfit) && testMode == old(testMode)
        invariant 0 <= i <= |active|
        invariant (catalog, moved) == Pass(old(catalog), active, draws, testMode, i)
      {
        var a := active[i];
        PassUntouched(old(catalog), active, draws, testMode, i);
        var s, mv := ProcessStory(catalog[a], draws[i], testMode);
        catalog := catalog[a := s];
        if mv {
          moved := moved + [a];
        }
        i := i + 1;
      }
    }

    /** The reclaim of `completeRound`: every resource of a moved story goes
        back to the pool with `addResource`, then the story's list is
        cleared. */
    method ReclaimFrom(moved: seq<nat>)
      requires forall m :: 0 <= m < |moved| ==> moved[m] < |catalog|
      modifies this
      ensures (catalog, pool) == Reclaim(old(catalog), old(pool), moved)
      ensures active == old(active)
      ensures currentDay == old(currentDay) && totalProfit == old(totalProfit) && testMode == old(testMode)
    {
      var m := 0;
      while m < |moved|
        invariant 0 <= m <= |moved|
        invariant (catalog, pool) == Reclaim(old(catalog), old(pool), moved[..m])
        invariant active == old(active)
        invariant currentDay == old(currentDay) && totalProfit == old(totalProfit) && testMode == old(testMode)
      {
        var j := moved[m];
        AddAllResources(catalog[j].allocatedResources);
        ReclaimSnoc(old(catalog), old(pool), moved, m);
        catalog := catalog[j := catalog[j].(allocatedResources := [])];
        m := m + 1;
      }
      assert moved[..m] == moved;
    }

    /** `completeRound`: nothing once the last day is reached; otherwise the
        pass, the reclaim, the recurring profit of every deployed story, the
        next day and the backlog refill. `draws[k]` holds the efforts the
        resources of the k-th board story deliver, in list order. */
    method CompleteRound(draws: seq<seq<nat>>)
      requires Valid() && DrawsMatch(catalog, active, draws)
      modifies this
      ensures old(currentDay) >= maxDays ==>
        && catalog == old(catalog) && active == old(active) && pool == old(pool)
        && currentDay == old(currentDay) && totalProfit == old(totalProfit)
      ensures old(currentDay) < maxDays ==>
        var o := Round(old(catalog), old(active), old(pool), draws, old(testMode));
        && catalog == o.catalog && active == o.active && pool == o.pool
        && currentDay == old(currentDay) + 1 && totalProfit == old(totalProfit) + o.gain
      ensures testMode == old(testMode)
      ensures Valid()
    {
      if currentDay >= maxDays {
        return;
      }
      var moved := RunPass(draws);
      var c1 := catalog;
      ReclaimFrom(moved);
      ghost var c2, p2 := catalog, pool;
      var gain := DeployedProfit(catalog, active);
      totalProfit := totalProfit + gain;
      currentDay := currentDay + 1;
      ReplenishBacklog();
      RoundFromSteps(old(catalog), old(active), old(pool), draws, testMode, c1, moved, c2, p2, catalog, active);
    }

    /** `toggleTestMode`. */
    method ToggleTestMode()
      modifies this
      ensures testMode == !old(testMode)
      ensures catalog == old(catalog) && active == old(active) && pool == old(pool)
      ensures currentDay == old(currentDay) && totalProfit == old(totalProfit)
    {
      testMode := !testMode;
    }
  }
}
