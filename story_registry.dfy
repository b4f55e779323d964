/** The story registry (StoryManager): the catalog of all stories, the
    ordered list of revealed ones, lookups, stage counts and the backlog
    refill policy. The revealed list `active` holds catalog positions, so a
    story record is shared between the two lists as in the source. */
module StoryRegistry {
  import opened Kanban

  /** The backlog is refilled up to this many stories. */
  const BacklogTarget: nat := 5

  function Min(a: int, b: int): int { if a < b then a else b }

  /** A catalog entry as generated at start: hidden, no resources, no days. */
  function FromData(d: StoryData): Story {
    Story(d.id, d.price, HiddenBacklog, d.analysisEffort, d.devEffort, d.testEffort, 0, [])
  }

  /** `generateAllStories`: one hidden story per catalog entry, in order. */
  function GenerateAllStories(data: seq<StoryData>): (r: seq<Story>)
    ensures |r| == |data|
    ensures forall i :: 0 <= i < |data| ==>
      && r[i].id == data[i].id && r[i].price == data[i].price
      && r[i].analysisEffort == data[i].analysisEffort && r[i].devEffort == data[i].devEffort
      && r[i].testEffort == data[i].testEffort
      && r[i].status == HiddenBacklog && r[i].allocatedResources == [] && r[i].daysInPrioritized == 0
  {
    seq(|data|, i requires 0 <= i < |data| => FromData(data[i]))
  }

  predicate DistinctStoryIds(catalog: seq<Story>) {
    forall i, j :: 0 <= i < j < |catalog| ==> catalog[i].id != catalog[j].id
  }

  /** The revealed positions are in range and listed once each. */
  predicate WellFormedActive(catalog: seq<Story>, active: seq<nat>) {
    && (forall k :: 0 <= k < |active| ==> active[k] < |catalog|)
    && (forall k, l :: 0 <= k < l < |active| ==> active[k] != active[l])
  }

  /** The registry invariant: ids are unique, a story is on the board exactly
      when it is no longer hidden, and a hidden story holds no resources. */
  predicate Consistent(catalog: seq<Story>, active: seq<nat>) {
    && DistinctStoryIds(catalog)
    && WellFormedActive(catalog, active)
    && (forall i :: 0 <= i < |catalog| ==> (catalog[i].status != HiddenBacklog <==> i in active))
    && (forall i :: 0 <= i < |catalog| && catalog[i].status == HiddenBacklog ==> catalog[i].allocatedResources == [])
  }

  /** The two catalogs differ at most in their stories' allocation lists. */
  predicate SameExceptAlloc(c0: seq<Story>, c1: seq<Story>) {
    && |c1| == |c0|
    && forall i :: 0 <= i < |c0| ==> c1[i].(allocatedResources := c0[i].allocatedResources) == c0[i]
  }

  /** Changing allocation lists keeps the registry consistent as long as
      hidden stories still hold nothing. */
  lemma ConsistentAllocChange(c0: seq<Story>, c1: seq<Story>, active: seq<nat>)
    requires Consistent(c0, active) && SameExceptAlloc(c0, c1)
    requires forall i :: 0 <= i < |c0| && c0[i].status == HiddenBacklog ==> c1[i].allocatedResources == []
    ensures Consistent(c1, active)
  {
    assert forall i :: 0 <= i < |c0| ==> c1[i].id == c0[i].id && c1[i].status == c0[i].status;
  }

  /** Replacing the allocation list of a revealed story keeps the registry
      consistent. */
  lemma ConsistentAllocUpdate(catalog: seq<Story>, active: seq<nat>, i: nat, s: Story)
    requires Consistent(catalog, active)
    requires i < |catalog| && catalog[i].status != HiddenBacklog
    requires s.(allocatedResources := catalog[i].allocatedResources) == catalog[i]
    ensures Consistent(catalog[i := s], active)
  {
    ConsistentAllocChange(catalog, catalog[i := s], active);
  }

  /** `getStoryById`: the catalog position of the first revealed story with
      this id. */
  function FindStory(catalog: seq<Story>, active: seq<nat>, id: int): (r: Option<nat>)
    ensures r.Some? ==> r.value in active && r.value < |catalog| && catalog[r.value].id == id
    ensures r.None? <==> forall k :: 0 <= k < |active| && active[k] < |catalog| ==> catalog[active[k]].id != id
  {
    if active == [] then None
    else if active[0] < |catalog| && catalog[active[0]].id == id then Some(active[0])
    else
      var r := FindStory(catalog, active[1..], id);
      assert forall k :: 1 <= k < |active| ==> active[k] == active[1..][k - 1];
      r
  }

  /** In a consistent registry a revealed story is found by its own id. */
  lemma FindStoryRevealed(catalog: seq<Story>, active: seq<nat>, c: nat)
    requires Consistent(catalog, active)
    requires c < |catalog| && catalog[c].status != HiddenBacklog
    ensures FindStory(catalog, active, catalog[c].id) == Some(c)
  {
    var r := FindStory(catalog, active, catalog[c].id);
    var k :| 0 <= k < |active| && active[k] == c;
    assert r.Some?;
  }

  /** Number of revealed stories in stage `st`: the cards in that column. */
  function CountStage(catalog: seq<Story>, active: seq<nat>, st: Stage): (n: nat)
    ensures n <= |active|
  {
    if active == [] then 0
    else (if active[0] < |catalog| && catalog[active[0]].status == st then 1 else 0)
         + CountStage(catalog, active[1..], st)
  }

  lemma {:induction false} CountStageAppend(catalog: seq<Story>, a: seq<nat>, b: seq<nat>, st: Stage)
    ensures CountStage(catalog, a + b, st) == CountStage(catalog, a, st) + CountStage(catalog, b, st)
  {
    if a == [] {
      assert a + b == b;
    } else {
      assert (a + b)[1..] == a[1..] + b;
      CountStageAppend(catalog, a[1..], b, st);
    }
  }

  /** Counts only depend on the stages of the listed stories. */
  lemma {:induction false} CountStageSame(c1: seq<Story>, c2: seq<Story>, active: seq<nat>, st: Stage)
    requires |c1| == |c2|
    requires forall k :: 0 <= k < |active| && active[k] < |c1| ==> c1[active[k]].status == c2[active[k]].status
    ensures CountStage(c1, active, st) == CountStage(c2, active, st)
  {
    if active != [] {
      assert forall k :: 0 <= k < |active[1..]| ==> active[1..][k] == active[k + 1];
      CountStageSame(c1, c2, active[1..], st);
    }
  }

  /** Counting a list in which every story is in stage `st`. */
  lemma {:induction false} CountStageAll(catalog: seq<Story>, xs: seq<nat>, st: Stage)
    requires forall k :: 0 <= k < |xs| ==> xs[k] < |catalog| && catalog[xs[k]].status == st
    ensures CountStage(catalog, xs, st) == |xs|
  {
    if xs != [] {
      assert forall k :: 0 <= k < |xs[1..]| ==> xs[1..][k] == xs[k + 1];
      CountStageAll(catalog, xs[1..], st);
    }
  }

  /** Replacing one listed story moves it from the count of its old stage to
      the count of its new one. */
  lemma {:induction false} CountStageUpdate(catalog: seq<Story>, active: seq<nat>, c: nat, s: Story, st: Stage)
    requires WellFormedActive(catalog, active)
    requires c in active
    ensures CountStage(catalog[c := s], active, st)
         == CountStage(catalog, active, st)
            - (if catalog[c].status == st then 1 else 0)
            + (if s.status == st then 1 else 0)
  {
    var tail := active[1..];
    assert forall k :: 0 <= k < |tail| ==> tail[k] == active[k + 1];
    assert WellFormedActive(catalog, tail);
    if active[0] == c {
      assert c !in tail;
      CountStageSame(catalog[c := s], catalog, tail, st);
    } else {
      assert c in tail;
      CountStageUpdate(catalog, tail, c, s, st);
    }
  }

  /** The positions of the hidden stories, in catalog order. */
  function HiddenIndices(catalog: seq<Story>): (h: seq<nat>)
    ensures HiddenList(catalog, h)
    decreases |catalog|
  {
    if catalog == [] then []
    else
      var n := |catalog| - 1;
      var h := HiddenIndices(catalog[..n]);
      HiddenSnoc(catalog, h);
      if catalog[n].status == HiddenBacklog then h + [n] else h
  }

  /** `h` lists, in increasing order, exactly the positions of the hidden
      stories. */
  predicate HiddenList(catalog: seq<Story>, h: seq<nat>) {
    && (forall k :: 0 <= k < |h| ==> h[k] < |catalog| && catalog[h[k]].status == HiddenBacklog)
    && (forall i :: 0 <= i < |catalog| && catalog[i].status == HiddenBacklog ==> i in h)
    && (forall k, l :: 0 <= k < l < |h| ==> h[k] < h[l])
  }

  /** The hidden positions of a catalog are those of its front, then its last
      position when that story is hidden. */
  lemma HiddenSnoc(catalog: seq<Story>, h: seq<nat>)
    requires catalog != [] && HiddenList(catalog[..|catalog| - 1], h)
    ensures var n := |catalog| - 1;
      HiddenList(catalog, if catalog[n].status == HiddenBacklog then h + [n] else h)
  {
    var n := |catalog| - 1;
    var front := catalog[..n];
    var r := if catalog[n].status == HiddenBacklog then h + [n] else h;
    forall k | 0 <= k < |r| ensures r[k] < |catalog| && catalog[r[k]].status == HiddenBacklog {
      if k < |h| {
        assert r[k] == h[k] && front[h[k]] == catalog[h[k]];
      }
    }
    forall i | 0 <= i < |catalog| && catalog[i].status == HiddenBacklog ensures i in r {
      if i < n {
        assert front[i] == catalog[i];
        var k :| 0 <= k < |h| && h[k] == i;
        assert r[k] == i;
      } else {
        assert r[|h|] == n;
      }
    }
    forall k, l | 0 <= k < l < |r| ensures r[k] < r[l] {
      assert r[k] == h[k] && h[k] < n;
      if l < |h| {
        assert r[l] == h[l];
      }
    }
  }

  /** Sets each listed story to `backlog`, one after another. */
  function RevealAll(catalog: seq<Story>, xs: seq<nat>): (r: seq<Story>)
    ensures |r| == |catalog|
    ensures forall j :: 0 <= j < |catalog| ==>
      r[j] == if j in xs then catalog[j].(status := Backlog) else catalog[j]
    decreases |xs|
  {
    if xs == [] then catalog
    else
      var n := |xs| - 1;
      var r := RevealAll(catalog, xs[..n]);
      assert forall j :: j in xs <==> j in xs[..n] || j == xs[n] by {
        assert xs == xs[..n] + [xs[n]];
      }
      if xs[n] < |r| then r[xs[n] := r[xs[n]].(status := Backlog)] else r
  }

  /** Revealing one story more after a list of them. */
  lemma RevealAllSnoc(catalog: seq<Story>, xs: seq<nat>, j: nat)
    requires j < |catalog|
    ensures RevealAll(catalog, xs + [j]) == RevealAll(catalog, xs)[j := RevealAll(catalog, xs)[j].(status := Backlog)]
  {
    assert (xs + [j])[..|xs|] == xs;
  }

  /** The stories `replenishBacklog` reveals: while the backlog is short of
      five, the first hidden stories in catalog order, as many as are missing
      or as remain. */
  function ToReveal(catalog: seq<Story>, active: seq<nat>): seq<nat> {
    var count := CountStage(catalog, active, Backlog);
    if count < BacklogTarget then
      var h := HiddenIndices(catalog);
      h[..Min(BacklogTarget - count, |h|)]
    else []
  }

  /** `replenishBacklog` on values: the new catalog and revealed list. */
  function Replenished(catalog: seq<Story>, active: seq<nat>): (seq<Story>, seq<nat>) {
    var xs := ToReveal(catalog, active);
    (RevealAll(catalog, xs), active + xs)
  }

  /** What the refill reveals: hidden stories, in increasing catalog order,
      none of them on the board yet, as many as the backlog misses or as
      remain hidden. */
  lemma ToRevealFacts(catalog: seq<Story>, active: seq<nat>)
    requires Consistent(catalog, active)
    ensures var xs := ToReveal(catalog, active);
      && (forall k :: 0 <= k < |xs| ==> xs[k] < |catalog| && catalog[xs[k]].status == HiddenBacklog)
      && (forall k, l :: 0 <= k < l < |xs| ==> xs[k] < xs[l])
      && (forall k :: 0 <= k < |xs| ==> xs[k] !in active)
      && var count := CountStage(catalog, active, Backlog);
         |xs| == if count < BacklogTarget then Min(BacklogTarget - count, |HiddenIndices(catalog)|) else 0
  {
    var xs := ToReveal(catalog, active);
    var h := HiddenIndices(catalog);
    var count := CountStage(catalog, active, Backlog);
    if count < BacklogTarget {
      var n := Min(BacklogTarget - count, |h|);
      assert xs == h[..n];
      forall k | 0 <= k < |xs|
        ensures xs[k] < |catalog| && catalog[xs[k]].status == HiddenBacklog && xs[k] !in active
      {
        assert xs[k] == h[k];
      }
      forall k, l | 0 <= k < l < |xs| ensures xs[k] < xs[l] {
        assert xs[k] == h[k] && xs[l] == h[l];
      }
    }
  }

  /** Appending distinct positions that are not on the board yet keeps the
      board list well formed. */
  lemma AppendWellFormed(catalog: seq<Story>, active: seq<nat>, xs: seq<nat>)
    requires WellFormedActive(catalog, active)
    requires forall k :: 0 <= k < |xs| ==> xs[k] < |catalog| && xs[k] !in active
    requires forall k, l :: 0 <= k < l < |xs| ==> xs[k] < xs[l]
    ensures WellFormedActive(catalog, active + xs)
  {
    var a' := active + xs;
    forall k, l | 0 <= k < l < |a'| ensures a'[k] != a'[l] {
      if l >= |active| && k < |active| {
        assert a'[l] == xs[l - |active|];
      } else if k >= |active| {
        assert a'[k] == xs[k - |active|] && a'[l] == xs[l - |active|];
      }
    }
  }

  /** Revealing distinct hidden stories that are not on the board, and
      appending them to the board, keeps the registry consistent. */
  lemma RevealConsistent(catalog: seq<Story>, active: seq<nat>, xs: seq<nat>)
    requires Consistent(catalog, active)
    requires forall k :: 0 <= k < |xs| ==> xs[k] < |catalog| && xs[k] !in active
    requires forall k, l :: 0 <= k < l < |xs| ==> xs[k] < xs[l]
    ensures Consistent(RevealAll(catalog, xs), active + xs)
  {
    var c' := RevealAll(catalog, xs);
    var a' := active + xs;
    AppendWellFormed(catalog, active, xs);
    forall i | 0 <= i < |c'| ensures c'[i].status != HiddenBacklog <==> i in a' {
      assert i in a' <==> i in active || i in xs;
    }
    assert DistinctStoryIds(c') by {
      assert forall i :: 0 <= i < |c'| ==> c'[i].id == catalog[i].id;
    }
  }

  /** The refill keeps the registry consistent and changes no story's
      resources. */
  lemma ReplenishConsistent(catalog: seq<Story>, active: seq<nat>)
    requires Consistent(catalog, active)
    ensures Consistent(Replenished(catalog, active).0, Replenished(catalog, active).1)
    ensures |Replenished(catalog, active).0| == |catalog|
    ensures forall i :: 0 <= i < |catalog| ==>
      Replenished(catalog, active).0[i].allocatedResources == catalog[i].allocatedResources
  {
    ToRevealFacts(catalog, active);
    RevealConsistent(catalog, active, ToReveal(catalog, active));
  }

  /** Revealing stories that are not on the board leaves the board's counts. */
  lemma RevealKeepsCounts(catalog: seq<Story>, active: seq<nat>, xs: seq<nat>, st: Stage)
    requires forall m :: 0 <= m < |xs| ==> xs[m] !in active
    ensures CountStage(RevealAll(catalog, xs), active, st) == CountStage(catalog, active, st)
  {
    var c' := RevealAll(catalog, xs);
    forall k | 0 <= k < |active| && active[k] < |c'| ensures c'[active[k]].status == catalog[active[k]].status {
      assert active[k] !in xs;
    }
    CountStageSame(c', catalog, active, st);
  }

  /** Every revealed story is counted in the backlog. */
  lemma RevealCountsBacklog(catalog: seq<Story>, xs: seq<nat>)
    requires forall m :: 0 <= m < |xs| ==> xs[m] < |catalog|
    ensures CountStage(RevealAll(catalog, xs), xs, Backlog) == |xs|
  {
    var c' := RevealAll(catalog, xs);
    assert forall m :: 0 <= m < |xs| ==> c'[xs[m]].status == Backlog;
    CountStageAll(c', xs, Backlog);
  }

  /** Revealing stories that are not on the board adds each of them to the
      backlog count. */
  lemma RevealCount(catalog: seq<Story>, active: seq<nat>, xs: seq<nat>)
    requires forall m :: 0 <= m < |xs| ==> xs[m] !in active && xs[m] < |catalog|
    ensures CountStage(RevealAll(catalog, xs), active + xs, Backlog) == CountStage(catalog, active, Backlog) + |xs|
  {
    var c' := RevealAll(catalog, xs);
    RevealKeepsCounts(catalog, active, xs, Backlog);
    RevealCountsBacklog(catalog, xs);
    CountStageAppend(c', active, xs, Backlog);
  }

  /** The refill tops the backlog up to five, or reveals every hidden story
      when fewer remain. */
  lemma ReplenishFillsBacklog(catalog: seq<Story>, active: seq<nat>)
    requires Consistent(catalog, active)
    requires CountStage(catalog, active, Backlog) < BacklogTarget
    ensures CountStage(Replenished(catalog, active).0, Replenished(catalog, active).1, Backlog)
         == Min(BacklogTarget, CountStage(catalog, active, Backlog) + |HiddenIndices(catalog)|)
  {
    var xs := ToReveal(catalog, active);
    var r := Replenished(catalog, active);
    assert r.0 == RevealAll(catalog, xs) && r.1 == active + xs;
    ToRevealFacts(catalog, active);
    RevealCount(catalog, active, xs);
    var count := CountStage(catalog, active, Backlog);
    var hidden := |HiddenIndices(catalog)|;
    assert CountStage(r.0, r.1, Backlog) == count + |xs|;
    assert |xs| == Min(BacklogTarget - count, hidden);
    assert CountStage(r.0, r.1, Backlog) == Min(BacklogTarget, count + hidden);
  }

  /** With five or more stories in the backlog the refill changes nothing. */
  lemma ReplenishFullBacklog(catalog: seq<Story>, active: seq<nat>)
    requires CountStage(catalog, active, Backlog) >= BacklogTarget
    ensures Replenished(catalog, active) == (catalog, active)
  {
    assert ToReveal(catalog, active) == [];
    assert active + [] == active;
  }

  /** The refill reveals the hidden stories in catalog order: every hidden
      story before a revealed one is revealed too. */
  lemma ReplenishInCatalogOrder(catalog: seq<Story>, active: seq<nat>, k: nat, i: nat)
    requires k < |ToReveal(catalog, active)|
    requires i < ToReveal(catalog, active)[k] && catalog[i].status == HiddenBacklog
    ensures i in ToReveal(catalog, active)
  {
    var xs := ToReveal(catalog, active);
    var h := HiddenIndices(catalog);
    var p :| 0 <= p < |h| && h[p] == i;
    assert xs[k] == h[k];
    assert forall q :: k <= q < |h| ==> h[k] <= h[q];
    assert xs[p] == i;
  }

  /** `StoryManager.init`: generate the catalog, then reveal its first five
      stories (or all of them, if fewer) into the backlog, in order. */
  method InitStories(data: seq<StoryData>) returns (catalog: seq<Story>, active: seq<nat>)
    requires DistinctDataIds(data)
    ensures Consistent(catalog, active)
    ensures |catalog| == |data|
    ensures forall i :: 0 <= i < |data| ==>
      catalog[i] == FromData(data[i]).(status := if i < Min(BacklogTarget, |data|) then Backlog else HiddenBacklog)
    ensures |active| == Min(BacklogTarget, |data|)
    ensures forall k :: 0 <= k < |active| ==> active[k] == k
    ensures CountStage(catalog, active, Backlog) == Min(BacklogTarget, |data|)
  {
    catalog := GenerateAllStories(data);
    active := [];
    var n := Min(BacklogTarget, |data|);
    var i := 0;
    while i < n
      invariant 0 <= i <= n
      invariant |catalog| == |data|
      invariant forall j :: 0 <= j < |data| ==>
        catalog[j] == FromData(data[j]).(status := if j < i then Backlog else HiddenBacklog)
      invariant |active| == i && forall k :: 0 <= k < i ==> active[k] == k
    {
      catalog := catalog[i := catalog[i].(status := Backlog)];
      active := active + [i];
      i := i + 1;
    }
    forall j | 0 <= j < |catalog| ensures catalog[j].status != HiddenBacklog <==> j in active {
      if j < n { assert active[j] == j; }
    }
    CountStageAll(catalog, active, Backlog);
  }

  /** `getDeployedStories`: the revealed stories in `deployed`, in board order. */
  function Deployed(catalog: seq<Story>, active: seq<nat>): (r: seq<Story>)
    ensures |r| == CountStage(catalog, active, Stage.Deployed)
    ensures forall s :: s in r ==> s.status == Stage.Deployed
  {
    if active == [] then []
    else if active[0] < |catalog| && catalog[active[0]].status == Stage.Deployed
    then [catalog[active[0]]] + Deployed(catalog, active[1..])
    else Deployed(catalog, active[1..])
  }

  /** The deployed list holds exactly the deployed stories of the board. */
  lemma {:induction false} DeployedMembers(catalog: seq<Story>, active: seq<nat>)
    ensures forall s :: s in Deployed(catalog, active) <==>
      exists k :: 0 <= k < |active| && active[k] < |catalog| && catalog[active[k]] == s && s.status == Stage.Deployed
  {
    if active != [] {
      var tail := active[1..];
      DeployedMembers(catalog, tail);
      forall s | s in Deployed(catalog, active)
        ensures exists k :: 0 <= k < |active| && active[k] < |catalog| && catalog[active[k]] == s && s.status == Stage.Deployed
      {
        if active[0] < |catalog| && catalog[active[0]].status == Stage.Deployed && s == catalog[active[0]] {
          assert active[0] < |catalog| && catalog[active[0]] == s;
        } else {
          var k :| 0 <= k < |tail| && tail[k] < |catalog| && catalog[tail[k]] == s && s.status == Stage.Deployed;
          assert active[k + 1] == tail[k];
        }
      }
      forall s | exists k :: 0 <= k < |active| && active[k] < |catalog| && catalog[active[k]] == s && s.status == Stage.Deployed
        ensures s in Deployed(catalog, active)
      {
        var k :| 0 <= k < |active| && active[k] < |catalog| && catalog[active[k]] == s && s.status == Stage.Deployed;
        if k > 0 {
          assert tail[k - 1] == active[k];
        }
      }
    }
  }

  /** On a consistent board no story is listed twice: the ids of the
      deployed list are pairwise distinct. */
  lemma {:induction false} DeployedDistinct(catalog: seq<Story>, active: seq<nat>)
    requires DistinctStoryIds(catalog) && WellFormedActive(catalog, active)
    ensures forall i, j :: 0 <= i < j < |Deployed(catalog, active)| ==>
      Deployed(catalog, active)[i].id != Deployed(catalog, active)[j].id
  {
    if active != [] {
      var tail := active[1..];
      assert WellFormedActive(catalog, tail) by {
        assert forall k :: 0 <= k < |tail| ==> tail[k] == active[k + 1];
      }
      DeployedDistinct(catalog, tail);
      var a := active[0];
      if catalog[a].status == Stage.Deployed {
        var rest := Deployed(catalog, tail);
        DeployedMembers(catalog, tail);
        forall j | 0 <= j < |rest| ensures catalog[a].id != rest[j].id {
          assert rest[j] in rest;
          var k :| 0 <= k < |tail| && tail[k] < |catalog| && catalog[tail[k]] == rest[j] && rest[j].status == Stage.Deployed;
          assert tail[k] == active[k + 1] && active[k + 1] != a;
        }
        assert Deployed(catalog, active) == [catalog[a]] + rest;
      }
    }
  }

  /** Sum of the prices of a list of stories. */
  function PriceSum(stories: seq<Story>): nat {
    if stories == [] then 0 else PriceSum(stories[..|stories| - 1]) + stories[|stories| - 1].price
  }

  lemma {:induction false} PriceSumAppend(a: seq<Story>, b: seq<Story>)
    ensures PriceSum(a + b) == PriceSum(a) + PriceSum(b)
    decreases |b|
  {
    if b != [] {
      var n := |b| - 1;
      assert (a + b)[..|a + b| - 1] == a + b[..n];
      assert (a + b)[|a + b| - 1] == b[n];
      PriceSumAppend(a, b[..n]);
    } else {
      assert a + b == a;
    }
  }

  /** No listed story is in stage `st`, so none is counted. */
  lemma {:induction false} CountStageNone(catalog: seq<Story>, xs: seq<nat>, st: Stage)
    requires forall k :: 0 <= k < |xs| ==> xs[k] < |catalog| && catalog[xs[k]].status != st
    ensures CountStage(catalog, xs, st) == 0
  {
    if xs != [] {
      assert forall k :: 0 <= k < |xs[1..]| ==> xs[1..][k] == xs[k + 1];
      CountStageNone(catalog, xs[1..], st);
    }
  }

  /** Story `j` is in stage `a` or `b` in `c1` only if it was in `c0`. */
  predicate PairKept(c0: seq<Story>, c1: seq<Story>, j: nat, a: Stage, b: Stage)
    requires j < |c0| && j < |c1|
  {
    (c1[j].status == a || c1[j].status == b) ==> (c0[j].status == a || c0[j].status == b)
  }

  /** Counting two stages together can only drop when no listed story
      enters them that was not in them before. */
  lemma {:induction false} CountPairMono(c0: seq<Story>, c1: seq<Story>, active: seq<nat>, a: Stage, b: Stage)
    requires (forall k :: 0 <= k < |active| ==> active[k] < |c0|) && |c1| == |c0|
    requires forall k :: 0 <= k < |active| ==> PairKept(c0, c1, active[k], a, b)
    ensures CountStage(c1, active, a) + CountStage(c1, active, b) <= CountStage(c0, active, a) + CountStage(c0, active, b)
  {
    if active != [] {
      var tail := active[1..];
      assert forall k :: 0 <= k < |tail| ==> tail[k] == active[k + 1];
      CountPairMono(c0, c1, tail, a, b);
      var j := active[0];
      assert PairKept(c0, c1, j, a, b);
      var h1 := (if c1[j].status == a then 1 else 0) + (if c1[j].status == b then 1 else 0);
      var h0 := (if c0[j].status == a then 1 else 0) + (if c0[j].status == b then 1 else 0);
      assert CountStage(c1, active, a) + CountStage(c1, active, b) == h1 + CountStage(c1, tail, a) + CountStage(c1, tail, b);
      assert CountStage(c0, active, a) + CountStage(c0, active, b) == h0 + CountStage(c0, tail, a) + CountStage(c0, tail, b);
    }
  }

  /** The deployed list only depends on the listed stories. */
  lemma {:induction false} DeployedSame(c0: seq<Story>, c1: seq<Story>, active: seq<nat>)
    requires |c1| == |c0|
    requires forall k :: 0 <= k < |active| && active[k] < |c0| ==> c1[active[k]] == c0[active[k]]
    ensures Deployed(c1, active) == Deployed(c0, active)
  {
    if active != [] {
      assert forall k :: 0 <= k < |active[1..]| ==> active[1..][k] == active[k + 1];
      DeployedSame(c0, c1, active[1..]);
    }
  }

  lemma {:induction false} DeployedAppend(catalog: seq<Story>, a: seq<nat>, b: seq<nat>)
    ensures Deployed(catalog, a + b) == Deployed(catalog, a) + Deployed(catalog, b)
  {
    if a == [] {
      assert a + b == b;
    } else {
      assert (a + b)[1..] == a[1..] + b;
      DeployedAppend(catalog, a[1..], b);
    }
  }

  /** A story that stays deployed at its price keeps contributing: if every
      deployed story of `c0` is still deployed in `c1` with the same price,
      the deployed prices of `c1` sum to at least those of `c0`. */
  lemma {:induction false} DeployedSumGrows(c0: seq<Story>, c1: seq<Story>, active: seq<nat>)
    requires |c1| == |c0|
    requires forall k :: 0 <= k < |active| && active[k] < |c0| && c0[active[k]].status == Stage.Deployed ==>
      c1[active[k]].status == Stage.Deployed && c1[active[k]].price == c0[active[k]].price
    ensures PriceSum(Deployed(c0, active)) <= PriceSum(Deployed(c1, active))
  {
    if active != [] {
      var tail := active[1..];
      assert forall k :: 0 <= k < |tail| ==> tail[k] == active[k + 1];
      DeployedSumGrows(c0, c1, tail);
      var j := active[0];
      if j < |c0| {
        assert [c0[j]][..0] == [] && [c1[j]][..0] == [];
        PriceSumAppend([c0[j]], Deployed(c0, tail));
        PriceSumAppend([c1[j]], Deployed(c1, tail));
      }
    }
  }
}
