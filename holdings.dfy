/** Where the resources are: the waiting area (the pool) or the allocation
    list of one story. The board keeps every one of the nine staff resources
    in exactly one of those places; this module states that invariant as a
    multiset equation and derives the exclusivity facts the handlers rely on. */
module Holdings {
  import opened Kanban
  import opened ResourcePool
  import opened StoryRegistry

  /** Every resource allocated to some story of the catalog, with multiplicity. */
  function AllocSum(catalog: seq<Story>): multiset<Resource>
    decreases |catalog|
  {
    if catalog == [] then multiset{}
    else multiset(catalog[0].allocatedResources) + AllocSum(catalog[1..])
  }

  /** With every allocation list empty nothing is allocated. */
  lemma {:induction false} AllocSumEmpty(catalog: seq<Story>)
    requires forall i :: 0 <= i < |catalog| ==> catalog[i].allocatedResources == []
    ensures AllocSum(catalog) == multiset{}
    decreases |catalog|
  {
    if catalog != [] {
      assert forall i :: 0 <= i < |catalog[1..]| ==> catalog[1..][i] == catalog[i + 1];
      AllocSumEmpty(catalog[1..]);
    }
  }

  /** Everything the pool and the allocation lists hold together. */
  function Held(catalog: seq<Story>, pool: seq<Resource>): multiset<Resource> {
    multiset(pool) + AllocSum(catalog)
  }

  /** Resource conservation: the pool and the allocation lists together hold
      each staff resource exactly once and nothing else. */
  ghost predicate Conserved(catalog: seq<Story>, pool: seq<Resource>) {
    forall q :: Held(catalog, pool)[q] == if IsStaff(q) then 1 else 0
  }

  /** The staff in the pool and nothing on the stories is conservation. */
  lemma ConservedStaff(catalog: seq<Story>, pool: seq<Resource>)
    requires pool == Staff() && AllocSum(catalog) == multiset{}
    ensures Conserved(catalog, pool)
  {
    forall q ensures Held(catalog, pool)[q] == if IsStaff(q) then 1 else 0 {
      StaffCount(q);
    }
  }

  /** Conservation only depends on what is held overall. */
  lemma ConservedKept(c0: seq<Story>, p0: seq<Resource>, c1: seq<Story>, p1: seq<Resource>)
    requires Conserved(c0, p0) && Held(c1, p1) == Held(c0, p0)
    ensures Conserved(c1, p1)
  {
  }

  /** One story's allocation list is part of the sum. */
  lemma {:induction false} AllocSumAt(catalog: seq<Story>, i: nat)
    requires i < |catalog|
    ensures multiset(catalog[i].allocatedResources) <= AllocSum(catalog)
  {
    if i > 0 {
      assert catalog[1..][i - 1] == catalog[i];
      AllocSumAt(catalog[1..], i - 1);
    }
  }

  /** Two different stories' lists are both part of the sum. */
  lemma {:induction false} AllocSumTwo(catalog: seq<Story>, i: nat, j: nat)
    requires i < j < |catalog|
    ensures multiset(catalog[i].allocatedResources) + multiset(catalog[j].allocatedResources) <= AllocSum(catalog)
  {
    assert catalog[1..][j - 1] == catalog[j];
    if i == 0 {
      AllocSumAt(catalog[1..], j - 1);
    } else {
      assert catalog[1..][i - 1] == catalog[i];
      AllocSumTwo(catalog[1..], i - 1, j - 1);
    }
  }

  /** A resource in the sum is on some story's list. */
  lemma {:induction false} AllocSumMember(catalog: seq<Story>, q: Resource)
    requires q in AllocSum(catalog)
    ensures exists i :: 0 <= i < |catalog| && q in catalog[i].allocatedResources
  {
    if q !in multiset(catalog[0].allocatedResources) {
      AllocSumMember(catalog[1..], q);
      var i :| 0 <= i < |catalog[1..]| && q in catalog[1..][i].allocatedResources;
      assert catalog[1..][i] == catalog[i + 1];
    }
  }

  /** Replacing one story swaps its list's contribution for the new one's. */
  lemma {:induction false} AllocSumUpdate(catalog: seq<Story>, i: nat, s: Story)
    requires i < |catalog|
    ensures AllocSum(catalog[i := s]) + multiset(catalog[i].allocatedResources)
         == AllocSum(catalog) + multiset(s.allocatedResources)
  {
    var c := catalog[i := s];
    if i == 0 {
      assert c[1..] == catalog[1..];
      assert AllocSum(c) == multiset(s.allocatedResources) + AllocSum(catalog[1..]);
    } else {
      var tail := catalog[1..];
      assert c[1..] == tail[i - 1 := s];
      assert tail[i - 1] == catalog[i];
      AllocSumUpdate(tail, i - 1, s);
      var m0 := multiset(catalog[0].allocatedResources);
      var x := AllocSum(tail[i - 1 := s]);
      var y := AllocSum(tail);
      assert AllocSum(c) == m0 + x;
      assert AllocSum(catalog) == m0 + y;
      var mi := multiset(catalog[i].allocatedResources);
      var ms := multiset(s.allocatedResources);
      assert x + mi == y + ms;
      assert (m0 + x) + mi == m0 + (x + mi);
      assert (m0 + y) + ms == m0 + (y + ms);
    }
  }

  /** The sum only depends on the allocation lists. */
  lemma {:induction false} AllocSumSame(c1: seq<Story>, c2: seq<Story>)
    requires |c1| == |c2|
    requires forall i :: 0 <= i < |c1| ==> c1[i].allocatedResources == c2[i].allocatedResources
    ensures AllocSum(c1) == AllocSum(c2)
  {
    if c1 != [] {
      AllocSumSame(c1[1..], c2[1..]);
    }
  }

  /** Moving one copy of q from one multiset to another keeps their union. */
  lemma ShiftOne(p: multiset<Resource>, a: multiset<Resource>, q: Resource)
    requires q in p
    ensures (p - multiset{q}) + (a + multiset{q}) == p + a
  {
    forall x ensures ((p - multiset{q}) + (a + multiset{q}))[x] == (p + a)[x] {
    }
  }

  /** Cancelling a common part after one copy of q was added on one side. */
  lemma CancelAdded(a: multiset<Resource>, b: multiset<Resource>, m: multiset<Resource>, q: Resource)
    requires a + m == b + (m + multiset{q})
    ensures a == b + multiset{q}
  {
    forall x ensures a[x] == (b + multiset{q})[x] {
      assert (a + m)[x] == (b + (m + multiset{q}))[x];
    }
  }

  /** Cancelling a common part after one copy of q was taken from one side. */
  lemma CancelTaken(a: multiset<Resource>, b: multiset<Resource>, m: multiset<Resource>, q: Resource)
    requires q in m && a + m == b + (m - multiset{q})
    ensures a + multiset{q} == b
  {
    forall x ensures (a + multiset{q})[x] == b[x] {
      assert (a + m)[x] == (b + (m - multiset{q}))[x];
    }
  }

  /** A value listed at two positions is counted at least twice. */
  lemma Repeated(s: seq<Resource>, i: nat, j: nat)
    ensures i < j < |s| && s[i] == s[j] ==> multiset(s)[s[i]] >= 2
  {
    if i < j < |s| && s[i] == s[j] {
      assert s == s[..j] + s[j..];
      assert s[i] == s[..j][i];
      assert s[j] == s[j..][0];
    }
  }

  /** Under conservation a resource is counted at most once over all places,
      and a resource counted anywhere is a staff resource. */
  lemma Counted(catalog: seq<Story>, pool: seq<Resource>, q: Resource)
    requires Conserved(catalog, pool)
    ensures multiset(pool)[q] + AllocSum(catalog)[q] <= 1
    ensures multiset(pool)[q] + AllocSum(catalog)[q] == 1 <==> IsStaff(q)
  {
    assert Held(catalog, pool)[q] == multiset(pool)[q] + AllocSum(catalog)[q];
  }

  /** The pool never lists two resources with the same id. */
  lemma PoolDistinct(catalog: seq<Story>, pool: seq<Resource>)
    requires Conserved(catalog, pool)
    ensures DistinctIds(pool)
  {
    forall i, j | 0 <= i < j < |pool| ensures pool[i].id != pool[j].id {
      Repeated(pool, i, j);
      Counted(catalog, pool, pool[i]);
      Counted(catalog, pool, pool[j]);
    }
  }

  /** A story never lists two resources with the same id. */
  lemma StoryDistinct(catalog: seq<Story>, pool: seq<Resource>, k: nat)
    requires Conserved(catalog, pool) && k < |catalog|
    ensures DistinctIds(catalog[k].allocatedResources)
  {
    var s := catalog[k].allocatedResources;
    AllocSumAt(catalog, k);
    forall i, j | 0 <= i < j < |s| ensures s[i].id != s[j].id {
      Repeated(s, i, j);
      Counted(catalog, pool, s[i]);
      Counted(catalog, pool, s[j]);
    }
  }

  /** No resource is both in the pool and on a story. */
  lemma PoolStoryDisjoint(catalog: seq<Story>, pool: seq<Resource>, k: nat)
    requires Conserved(catalog, pool) && k < |catalog|
    ensures forall q :: q in catalog[k].allocatedResources ==> !HasId(pool, q.id)
  {
    var s := catalog[k].allocatedResources;
    AllocSumAt(catalog, k);
    forall a, b | 0 <= a < |pool| && 0 <= b < |s| ensures pool[a].id != s[b].id {
      Counted(catalog, pool, pool[a]);
      Counted(catalog, pool, s[b]);
    }
  }

  /** No resource is on two different stories. */
  lemma StoriesDisjoint(catalog: seq<Story>, pool: seq<Resource>, i: nat, j: nat)
    requires Conserved(catalog, pool) && i < |catalog| && j < |catalog| && i != j
    ensures forall q :: q in catalog[i].allocatedResources ==> !HasId(catalog[j].allocatedResources, q.id)
  {
    var si := catalog[i].allocatedResources;
    var sj := catalog[j].allocatedResources;
    if i < j { AllocSumTwo(catalog, i, j); } else { AllocSumTwo(catalog, j, i); }
    forall a, b | 0 <= a < |si| && 0 <= b < |sj| ensures si[a].id != sj[b].id {
      Counted(catalog, pool, si[a]);
      Counted(catalog, pool, sj[b]);
    }
  }

  /** A resource in the pool is there once and on no story. */
  lemma InPoolOnly(catalog: seq<Story>, pool: seq<Resource>, q: Resource)
    requires Conserved(catalog, pool) && q in pool
    ensures multiset(pool)[q] == 1
    ensures forall i :: 0 <= i < |catalog| ==> q !in catalog[i].allocatedResources
  {
    Counted(catalog, pool, q);
    forall i | 0 <= i < |catalog| ensures q !in catalog[i].allocatedResources {
      AllocSumAt(catalog, i);
    }
  }

  /** A resource on a story is listed there once, is not in the pool and is
      on no other story. */
  lemma OnStoryOnly(catalog: seq<Story>, pool: seq<Resource>, o: nat, q: Resource)
    requires Conserved(catalog, pool) && o < |catalog| && q in catalog[o].allocatedResources
    ensures multiset(catalog[o].allocatedResources)[q] == 1
    ensures q !in pool
    ensures forall i :: 0 <= i < |catalog| && i != o ==> q !in catalog[i].allocatedResources
    ensures IsStaff(q)
  {
    Counted(catalog, pool, q);
    AllocSumAt(catalog, o);
    forall i | 0 <= i < |catalog| && i != o ensures q !in catalog[i].allocatedResources {
      if i < o { AllocSumTwo(catalog, i, o); } else { AllocSumTwo(catalog, o, i); }
    }
  }

  /** A staff resource on no story is in the pool. */
  lemma OnNoStory(catalog: seq<Story>, pool: seq<Resource>, q: Resource)
    requires Conserved(catalog, pool) && IsStaff(q)
    requires forall i :: 0 <= i < |catalog| ==> q !in catalog[i].allocatedResources
    ensures q in pool
  {
    if q in AllocSum(catalog) {
      AllocSumMember(catalog, q);
    }
    Counted(catalog, pool, q);
  }

  /** Where a dragged resource comes from: the waiting area or a story. */
  datatype Origin = WaitingArea | OnStory(pos: nat)

  datatype Lookup = Missing | Found(res: Resource, origin: Origin)

  /** Position of the first revealed story whose list holds this id: the
      `activeStories.find(s => s.allocatedResources.some(...))` search. */
  function FindHolder(catalog: seq<Story>, active: seq<nat>, id: nat): (r: Option<nat>)
    ensures r.Some? ==> r.value in active && r.value < |catalog| && HasId(catalog[r.value].allocatedResources, id)
    ensures r.None? <==>
      forall k :: 0 <= k < |active| && active[k] < |catalog| ==> !HasId(catalog[active[k]].allocatedResources, id)
  {
    if active == [] then None
    else if active[0] < |catalog| && HasId(catalog[active[0]].allocatedResources, id) then Some(active[0])
    else
      var r := FindHolder(catalog, active[1..], id);
      assert forall k :: 1 <= k < |active| ==> active[k] == active[1..][k - 1];
      r
  }

  /** Where the resource with this id is: the pool is searched first, then
      the revealed stories' lists. */
  function Locate(catalog: seq<Story>, active: seq<nat>, pool: seq<Resource>, id: nat): (r: Lookup)
    ensures r.Found? ==> r.res.id == id
    ensures r.Found? && r.origin.WaitingArea? ==> r.res in pool
    ensures r.Found? && r.origin.OnStory? ==>
      && r.origin.pos in active && r.origin.pos < |catalog|
      && r.res in catalog[r.origin.pos].allocatedResources
      && !HasId(pool, id)
    ensures r.Missing? <==>
      && !HasId(pool, id)
      && forall k :: 0 <= k < |active| && active[k] < |catalog| ==> !HasId(catalog[active[k]].allocatedResources, id)
  {
    match FindById(pool, id)
    case Some(q) => Found(q, WaitingArea)
    case None =>
      match FindHolder(catalog, active, id)
      case None => Missing
      case Some(o) => Found(FindById(catalog[o].allocatedResources, id).value, OnStory(o))
  }

  /** In a consistent, conserving board every staff resource is found, and
      where it is found is the only place it is: a resource found in the pool
      is on no story, and one found on a story is on no other story. */
  lemma LocateExactlyOnePlace(catalog: seq<Story>, active: seq<nat>, pool: seq<Resource>, q: Resource)
    requires Consistent(catalog, active) && Conserved(catalog, pool)
    requires IsStaff(q)
    ensures Locate(catalog, active, pool, q.id).Found? && Locate(catalog, active, pool, q.id).res == q
    ensures Locate(catalog, active, pool, q.id).origin.WaitingArea? ==>
      forall i :: 0 <= i < |catalog| ==> q !in catalog[i].allocatedResources
    ensures Locate(catalog, active, pool, q.id).origin.OnStory? ==>
      forall i :: 0 <= i < |catalog| && i != Locate(catalog, active, pool, q.id).origin.pos ==>
        q !in catalog[i].allocatedResources
  {
    var r := Locate(catalog, active, pool, q.id);
    Counted(catalog, pool, q);
    if q in pool {
      assert HasId(pool, q.id);
      forall i | 0 <= i < |catalog| ensures q !in catalog[i].allocatedResources {
        PoolStoryDisjoint(catalog, pool, i);
      }
      PoolDistinct(catalog, pool);
      forall k | 0 <= k < |pool| && pool[k].id == q.id ensures pool[k] == q {
        Counted(catalog, pool, pool[k]);
      }
    } else {
      assert q in AllocSum(catalog);
      AllocSumMember(catalog, q);
      var i :| 0 <= i < |catalog| && q in catalog[i].allocatedResources;
      assert catalog[i].status != HiddenBacklog;
      assert HasId(catalog[i].allocatedResources, q.id);
      var a :| 0 <= a < |active| && active[a] == i;
      PoolStoryDisjoint(catalog, pool, i);
      assert !HasId(pool, q.id);
      assert r.Found?;
      var o := r.origin.pos;
      AllocSumAt(catalog, o);
      forall j | 0 <= j < |catalog| && j != o ensures q !in catalog[j].allocatedResources {
        StoriesDisjoint(catalog, pool, o, j);
        Counted(catalog, pool, r.res);
      }
      Counted(catalog, pool, r.res);
    }
  }
}
