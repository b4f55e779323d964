/** The resource handlers: dropping a resource on a story card (allocation)
    and dropping it back on the waiting area (return to pool). The origin of
    a dragged resource is where `Locate` finds it. */
module Allocation {
  import opened Kanban
  import opened ResourcePool
  import opened StoryRegistry
  import opened Holdings

  /** The story with `q` added to its list unless its id is already there. */
  function Give(s: Story, q: Resource): Story {
    s.(allocatedResources := WithResource(s.allocatedResources, q))
  }

  /** The story with every entry of that id filtered out of its list. */
  function Take(s: Story, id: nat): Story {
    s.(allocatedResources := WithoutId(s.allocatedResources, id))
  }

  datatype Allocation = Refused | Granted(catalog: seq<Story>, pool: seq<Resource>)

  /** Dropping resource `id` on the card of story `targetId`. The target must
      be on the board, the resource must be found, and its kind must match the
      target's in-progress stage. The resource then leaves the pool, or the
      other story it was on, and is added to the target's list. */
  function Allocate(catalog: seq<Story>, active: seq<nat>, pool: seq<Resource>, id: nat, targetId: int): Allocation {
    match FindStory(catalog, active, targetId)
    case None => Refused
    case Some(t) =>
      match Locate(catalog, active, pool, id)
      case Missing => Refused
      case Found(q, origin) =>
        if !Matches(catalog[t].status, q.kind) then Refused
        else
          match origin
          case WaitingArea => Granted(catalog[t := Give(catalog[t], q)], WithoutId(pool, id))
          case OnStory(o) =>
            var c1 := if catalog[o].id != targetId then catalog[o := Take(catalog[o], id)] else catalog;
            Granted(c1[t := Give(c1[t], q)], pool)
  }

  /** Adding a resource whose id is absent adds exactly that resource. */
  lemma GiveFresh(s: Story, q: Resource)
    requires !HasId(s.allocatedResources, q.id)
    ensures multiset(Give(s, q).allocatedResources) == multiset(s.allocatedResources) + multiset{q}
  {
  }

  /** Filtering out the id of an entry of a list with distinct ids takes
      exactly that entry away. */
  lemma TakeOne(s: Story, q: Resource)
    requires DistinctIds(s.allocatedResources) && q in s.allocatedResources
    ensures multiset(Take(s, q.id).allocatedResources) == multiset(s.allocatedResources) - multiset{q}
  {
    var k :| 0 <= k < |s.allocatedResources| && s.allocatedResources[k] == q;
    WithoutIdOne(s.allocatedResources, k);
  }

  /** Resource `q` now sits once on story `t` and in no other place, every
      other resource is where it was, and no story changed otherwise. */
  predicate MovedTo(c0: seq<Story>, p0: seq<Resource>, c1: seq<Story>, p1: seq<Resource>, q: Resource, t: nat) {
    && |c1| == |c0| && t < |c0|
    && (forall i :: 0 <= i < |c0| ==> c1[i].(allocatedResources := c0[i].allocatedResources) == c0[i])
    && multiset(p1) == multiset(p0)[q := 0]
    && (forall i :: 0 <= i < |c0| ==>
          multiset(c1[i].allocatedResources) == multiset(c0[i].allocatedResources)[q := if i == t then 1 else 0])
  }

  /** Granting story `t` a waiting resource whose id it does not hold moves
      one copy of the resource from the pool to the story's list. */
  lemma PoolGrantHoldings(catalog: seq<Story>, pool: seq<Resource>, t: nat, q: Resource)
    requires t < |catalog| && q in pool
    requires multiset(WithoutId(pool, q.id)) == multiset(pool) - multiset{q}
    requires !HasId(catalog[t].allocatedResources, q.id)
    ensures Held(catalog[t := Give(catalog[t], q)], WithoutId(pool, q.id)) == Held(catalog, pool)
  {
    var c' := catalog[t := Give(catalog[t], q)];
    GiveFresh(catalog[t], q);
    AllocSumUpdate(catalog, t, Give(catalog[t], q));
    CancelAdded(AllocSum(c'), AllocSum(catalog), multiset(catalog[t].allocatedResources), q);
    ShiftOne(multiset(pool), AllocSum(catalog), q);
  }

  lemma PoolGrantMoved(catalog: seq<Story>, pool: seq<Resource>, t: nat, q: Resource)
    requires t < |catalog| && multiset(pool)[q] == 1
    requires multiset(WithoutId(pool, q.id)) == multiset(pool) - multiset{q}
    requires !HasId(catalog[t].allocatedResources, q.id)
    requires forall i :: 0 <= i < |catalog| ==> q !in catalog[i].allocatedResources
    ensures MovedTo(catalog, pool, catalog[t := Give(catalog[t], q)], WithoutId(pool, q.id), q, t)
  {
    GiveFresh(catalog[t], q);
  }

  /** Under conservation a waiting resource is waiting once, on no story,
      and no story holds its id. */
  lemma PoolGrantPrep(catalog: seq<Story>, pool: seq<Resource>, t: nat, q: Resource)
    requires Conserved(catalog, pool) && t < |catalog| && q in pool
    ensures multiset(pool)[q] == 1
    ensures forall i :: 0 <= i < |catalog| ==> q !in catalog[i].allocatedResources
    ensures multiset(WithoutId(pool, q.id)) == multiset(pool) - multiset{q}
    ensures !HasId(catalog[t].allocatedResources, q.id)
  {
    var target := catalog[t];
    InPoolOnly(catalog, pool, q);
    PoolStoryDisjoint(catalog, pool, t);
    PoolDistinct(catalog, pool);
    var k :| 0 <= k < |pool| && pool[k] == q;
    WithoutIdOne(pool, k);
    forall b | 0 <= b < |target.allocatedResources| ensures target.allocatedResources[b].id != q.id {
      assert target.allocatedResources[b] in target.allocatedResources;
    }
  }

  /** Granting a waiting resource to story `t`. */
  lemma GrantFromPool(catalog: seq<Story>, active: seq<nat>, pool: seq<Resource>, t: nat, q: Resource)
    requires Consistent(catalog, active) && Conserved(catalog, pool)
    requires t in active && q in pool
    ensures var c' := catalog[t := Give(catalog[t], q)];
      var p' := WithoutId(pool, q.id);
      MovedTo(catalog, pool, c', p', q, t) && Consistent(c', active) && Conserved(c', p')
  {
    var target := catalog[t];
    PoolGrantPrep(catalog, pool, t, q);
    PoolGrantHoldings(catalog, pool, t, q);
    PoolGrantMoved(catalog, pool, t, q);
    ConservedKept(catalog, pool, catalog[t := Give(target, q)], WithoutId(pool, q.id));
    ConsistentAllocUpdate(catalog, active, t, Give(target, q));
  }

  /** Granting story `t` a resource of story `o` whose id `t` does not hold
      moves one copy between the two lists. */
  lemma StoryGrantHoldings(catalog: seq<Story>, o: nat, t: nat, q: Resource)
    requires o < |catalog| && t < |catalog| && o != t && q in catalog[o].allocatedResources
    requires multiset(Take(catalog[o], q.id).allocatedResources) == multiset(catalog[o].allocatedResources) - multiset{q}
    requires !HasId(catalog[t].allocatedResources, q.id)
    ensures var c1 := catalog[o := Take(catalog[o], q.id)];
      AllocSum(c1[t := Give(c1[t], q)]) == AllocSum(catalog)
  {
    var target := catalog[t];
    var c1 := catalog[o := Take(catalog[o], q.id)];
    var c' := c1[t := Give(c1[t], q)];
    AllocSumUpdate(catalog, o, Take(catalog[o], q.id));
    CancelTaken(AllocSum(c1), AllocSum(catalog), multiset(catalog[o].allocatedResources), q);
    assert c1[t] == target;
    GiveFresh(target, q);
    AllocSumUpdate(c1, t, Give(target, q));
    CancelAdded(AllocSum(c'), AllocSum(c1), multiset(target.allocatedResources), q);
  }

  lemma StoryGrantMoved(catalog: seq<Story>, pool: seq<Resource>, o: nat, t: nat, q: Resource)
    requires o < |catalog| && t < |catalog| && o != t
    requires multiset(catalog[o].allocatedResources)[q] == 1 && q !in pool
    requires forall i :: 0 <= i < |catalog| && i != o ==> q !in catalog[i].allocatedResources
    requires multiset(Take(catalog[o], q.id).allocatedResources) == multiset(catalog[o].allocatedResources) - multiset{q}
    requires !HasId(catalog[t].allocatedResources, q.id)
    ensures var c1 := catalog[o := Take(catalog[o], q.id)];
      MovedTo(catalog, pool, c1[t := Give(c1[t], q)], pool, q, t)
  {
    var c1 := catalog[o := Take(catalog[o], q.id)];
    assert c1[t] == catalog[t];
    GiveFresh(catalog[t], q);
    assert multiset(pool)[q := 0] == multiset(pool);
  }

  /** Granting to story `t` a resource held by another story `o`. */
  lemma GrantFromStory(catalog: seq<Story>, pool: seq<Resource>, o: nat, t: nat, q: Resource)
    requires Conserved(catalog, pool)
    requires o < |catalog| && t < |catalog| && o != t && q in catalog[o].allocatedResources
    ensures var c1 := catalog[o := Take(catalog[o], q.id)];
      var c' := c1[t := Give(c1[t], q)];
      MovedTo(catalog, pool, c', pool, q, t) && Conserved(c', pool)
  {
    var c1 := catalog[o := Take(catalog[o], q.id)];
    var c' := c1[t := Give(c1[t], q)];
    OnStoryOnly(catalog, pool, o, q);
    StoryDistinct(catalog, pool, o);
    TakeOne(catalog[o], q);
    StoriesDisjoint(catalog, pool, o, t);
    StoryGrantHoldings(catalog, o, t, q);
    StoryGrantMoved(catalog, pool, o, t, q);
    ConservedKept(catalog, pool, c', pool);
  }

  /** Granting to story `t` a resource it already holds changes nothing. */
  lemma GrantToHolder(catalog: seq<Story>, pool: seq<Resource>, t: nat, q: Resource)
    requires Conserved(catalog, pool)
    requires t < |catalog| && q in catalog[t].allocatedResources
    ensures catalog[t := Give(catalog[t], q)] == catalog
    ensures MovedTo(catalog, pool, catalog, pool, q, t)
  {
    OnStoryOnly(catalog, pool, t, q);
    var k :| 0 <= k < |catalog[t].allocatedResources| && catalog[t].allocatedResources[k] == q;
    assert HasId(catalog[t].allocatedResources, q.id);
    assert multiset(pool)[q := 0] == multiset(pool);
  }

  /** A granted allocation needs the kind to match the target's stage; it
      then moves the resource onto the target, exactly once, and moves
      nothing else. Consistency and conservation are kept. */
  lemma AllocateGranted(catalog: seq<Story>, active: seq<nat>, pool: seq<Resource>, id: nat, targetId: int)
    requires Consistent(catalog, active) && Conserved(catalog, pool)
    requires Allocate(catalog, active, pool, id, targetId).Granted?
    ensures var g := Allocate(catalog, active, pool, id, targetId);
      var t := FindStory(catalog, active, targetId).value;
      var q := Locate(catalog, active, pool, id).res;
      && Matches(catalog[t].status, q.kind)
      && MovedTo(catalog, pool, g.catalog, g.pool, q, t)
      && Consistent(g.catalog, active) && Conserved(g.catalog, g.pool)
  {
    var t := FindStory(catalog, active, targetId).value;
    var l := Locate(catalog, active, pool, id);
    if l.origin.WaitingArea? {
      GrantFromPool(catalog, active, pool, t, l.res);
    } else if catalog[l.origin.pos].id != targetId {
      var o := l.origin.pos;
      var c1 := catalog[o := Take(catalog[o], id)];
      GrantFromStory(catalog, pool, o, t, l.res);
      ConsistentAllocUpdate(catalog, active, o, Take(catalog[o], id));
      ConsistentAllocUpdate(c1, active, t, Give(c1[t], l.res));
    } else {
      FindStoryRevealed(catalog, active, l.origin.pos);
      GrantToHolder(catalog, pool, t, l.res);
    }
  }

  /** A granted drop keeps the registry consistent and conservation. */
  lemma AllocateKeepsInvariants(catalog: seq<Story>, active: seq<nat>, pool: seq<Resource>, id: nat, targetId: int)
    requires Consistent(catalog, active) && Conserved(catalog, pool)
    ensures var g := Allocate(catalog, active, pool, id, targetId);
      g.Granted? ==> Consistent(g.catalog, active) && Conserved(g.catalog, g.pool)
  {
    if Allocate(catalog, active, pool, id, targetId).Granted? {
      AllocateGranted(catalog, active, pool, id, targetId);
    }
  }

  /** Dropping a resource on the board story that already holds it, when
      its kind matches, changes nothing. */
  lemma AllocateHeld(catalog: seq<Story>, active: seq<nat>, pool: seq<Resource>, t: nat, q: Resource)
    requires Consistent(catalog, active) && Conserved(catalog, pool)
    requires t < |catalog| && catalog[t].status != HiddenBacklog && q in catalog[t].allocatedResources
    requires Matches(catalog[t].status, q.kind)
    ensures Allocate(catalog, active, pool, q.id, catalog[t].id) == Granted(catalog, pool)
  {
    OnStoryOnly(catalog, pool, t, q);
    LocateExactlyOnePlace(catalog, active, pool, q);
    FindStoryRevealed(catalog, active, t);
    assert HasId(catalog[t].allocatedResources, q.id);
  }

  /** Dropping a resource again on the story it was just granted to changes
      nothing. */
  lemma AllocateIdempotent(catalog: seq<Story>, active: seq<nat>, pool: seq<Resource>, id: nat, targetId: int)
    requires Consistent(catalog, active) && Conserved(catalog, pool)
    requires Allocate(catalog, active, pool, id, targetId).Granted?
    ensures var g := Allocate(catalog, active, pool, id, targetId);
      Allocate(g.catalog, active, g.pool, id, targetId) == g
  {
    var g := Allocate(catalog, active, pool, id, targetId);
    var t := FindStory(catalog, active, targetId).value;
    var q := Locate(catalog, active, pool, id).res;
    AllocateGranted(catalog, active, pool, id, targetId);
    assert multiset(g.catalog[t].allocatedResources)[q] == 1;
    assert g.catalog[t].status == catalog[t].status && g.catalog[t].id == targetId;
    AllocateHeld(g.catalog, active, g.pool, t, q);
  }

  /** A resource whose kind does not match the target's stage is refused. */
  lemma AllocateMismatchRefused(catalog: seq<Story>, active: seq<nat>, pool: seq<Resource>, id: nat, targetId: int)
    requires FindStory(catalog, active, targetId).Some?
    requires Locate(catalog, active, pool, id).Found?
    requires !Matches(catalog[FindStory(catalog, active, targetId).value].status, Locate(catalog, active, pool, id).res.kind)
    ensures Allocate(catalog, active, pool, id, targetId) == Refused
  {
  }

  /** Dropping resource `id` on the waiting area: a resource held by a story
      is filtered out of that story's list and added to the pool with
      `addResource`; one already in the pool, or not found, changes nothing. */
  function ReturnToPool(catalog: seq<Story>, active: seq<nat>, pool: seq<Resource>, id: nat): (seq<Story>, seq<Resource>) {
    match Locate(catalog, active, pool, id)
    case Missing => (catalog, pool)
    case Found(q, WaitingArea) => (catalog, WithResource(pool, q))
    case Found(q, OnStory(o)) => (catalog[o := Take(catalog[o], id)], WithResource(pool, q))
  }

  /** Returning a resource that is already waiting leaves everything as it was. */
  lemma ReturnFromPoolChangesNothing(catalog: seq<Story>, active: seq<nat>, pool: seq<Resource>, id: nat)
    requires Locate(catalog, active, pool, id).Found? && Locate(catalog, active, pool, id).origin.WaitingArea?
    ensures ReturnToPool(catalog, active, pool, id) == (catalog, pool)
  {
    var q := Locate(catalog, active, pool, id).res;
    var k :| 0 <= k < |pool| && pool[k] == q;
  }

  /** Taking `q` off story `o` and adding it to a pool that lacks its id
      moves one copy between the two. */
  lemma ReturnHoldings(catalog: seq<Story>, pool: seq<Resource>, o: nat, q: Resource)
    requires o < |catalog| && q in catalog[o].allocatedResources && !HasId(pool, q.id)
    requires multiset(Take(catalog[o], q.id).allocatedResources) == multiset(catalog[o].allocatedResources) - multiset{q}
    ensures Held(catalog[o := Take(catalog[o], q.id)], WithResource(pool, q)) == Held(catalog, pool)
  {
    var c' := catalog[o := Take(catalog[o], q.id)];
    AllocSumUpdate(catalog, o, Take(catalog[o], q.id));
    CancelTaken(AllocSum(c'), AllocSum(catalog), multiset(catalog[o].allocatedResources), q);
    assert WithResource(pool, q) == pool + [q];
    assert multiset(WithResource(pool, q)) == multiset(pool) + multiset{q};
  }

  /** Adding a resource whose id is absent adds exactly one copy of it. */
  lemma WithResourceOne(pool: seq<Resource>, q: Resource)
    requires !HasId(pool, q.id)
    ensures multiset(WithResource(pool, q)) == multiset(pool)[q := 1]
  {
    forall k | 0 <= k < |pool| ensures pool[k] != q {
      assert pool[k].id != q.id;
    }
    assert WithResource(pool, q) == pool + [q];
    assert multiset(pool + [q]) == multiset(pool) + multiset{q};
  }

  /** Taking `q` off the one story holding it leaves no copy of it on any
      story and changes nothing else about the stories. */
  lemma TakeFromHolder(catalog: seq<Story>, pool: seq<Resource>, o: nat, q: Resource)
    requires Conserved(catalog, pool)
    requires o < |catalog| && q in catalog[o].allocatedResources
    ensures var c' := catalog[o := Take(catalog[o], q.id)];
      && SameExceptAlloc(catalog, c')
      && (forall i :: 0 <= i < |catalog| ==> multiset(c'[i].allocatedResources) == multiset(catalog[i].allocatedResources)[q := 0])
  {
    var c' := catalog[o := Take(catalog[o], q.id)];
    OnStoryOnly(catalog, pool, o, q);
    StoryDistinct(catalog, pool, o);
    TakeOne(catalog[o], q);
    forall i | 0 <= i < |catalog|
      ensures multiset(c'[i].allocatedResources) == multiset(catalog[i].allocatedResources)[q := 0]
    {
      var m := multiset(catalog[i].allocatedResources);
      if i != o {
        assert q !in catalog[i].allocatedResources;
        ClearAbsent(m, q);
      } else {
        ClearSingle(m, q);
      }
    }
  }

  lemma ClearAbsent(m: multiset<Resource>, q: Resource)
    requires q !in m
    ensures m[q := 0] == m
  {
  }

  lemma ClearSingle(m: multiset<Resource>, q: Resource)
    requires m[q] == 1
    ensures m - multiset{q} == m[q := 0]
  {
  }

  /** Returning a resource found on story `o` puts it in the pool exactly
      once, takes it off every story, and moves nothing else. */
  lemma ReturnMoves(catalog: seq<Story>, pool: seq<Resource>, o: nat, q: Resource)
    requires Conserved(catalog, pool)
    requires o < |catalog| && q in catalog[o].allocatedResources
    ensures var c' := catalog[o := Take(catalog[o], q.id)];
      var p' := WithResource(pool, q);
      && SameExceptAlloc(catalog, c')
      && multiset(p') == multiset(pool)[q := 1]
      && (forall i :: 0 <= i < |catalog| ==> multiset(c'[i].allocatedResources) == multiset(catalog[i].allocatedResources)[q := 0])
      && Conserved(c', p')
  {
    var c' := catalog[o := Take(catalog[o], q.id)];
    assert !HasId(pool, q.id) by {
      PoolStoryDisjoint(catalog, pool, o);
    }
    WithResourceOne(pool, q);
    TakeFromHolder(catalog, pool, o, q);
    StoryDistinct(catalog, pool, o);
    TakeOne(catalog[o], q);
    ReturnHoldings(catalog, pool, o, q);
    ConservedKept(catalog, pool, c', WithResource(pool, q));
  }

  /** Returning a resource found on a story puts it in the pool exactly once,
      takes it off every story, and moves nothing else; consistency and
      conservation are kept. */
  lemma ReturnFromStory(catalog: seq<Story>, active: seq<nat>, pool: seq<Resource>, id: nat)
    requires Consistent(catalog, active) && Conserved(catalog, pool)
    requires Locate(catalog, active, pool, id).Found? && Locate(catalog, active, pool, id).origin.OnStory?
    ensures var r := ReturnToPool(catalog, active, pool, id);
      var q := Locate(catalog, active, pool, id).res;
      && SameExceptAlloc(catalog, r.0)
      && multiset(r.1) == multiset(pool)[q := 1]
      && (forall i :: 0 <= i < |catalog| ==> multiset(r.0[i].allocatedResources) == multiset(catalog[i].allocatedResources)[q := 0])
      && Consistent(r.0, active) && Conserved(r.0, r.1)
  {
    var l := Locate(catalog, active, pool, id);
    var o := l.origin.pos;
    ReturnMoves(catalog, pool, o, l.res);
    ConsistentAllocUpdate(catalog, active, o, Take(catalog[o], id));
  }

  /** Returning the same resource twice is returning it once. */
  lemma ReturnIdempotent(catalog: seq<Story>, active: seq<nat>, pool: seq<Resource>, id: nat)
    ensures var r := ReturnToPool(catalog, active, pool, id);
      ReturnToPool(r.0, active, r.1, id) == r
  {
    var r := ReturnToPool(catalog, active, pool, id);
    if Locate(catalog, active, pool, id).Found? {
      assert HasId(r.1, id);
      var q := FindById(r.1, id).value;
      assert WithResource(r.1, q) == r.1;
    }
  }
}
