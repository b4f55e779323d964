/** The pool of available resources (availableResources) and the id-based
    list operations the board uses on it and on the stories' allocation
    lists. */
module ResourcePool {
  import opened Kanban

  predicate HasId(s: seq<Resource>, id: nat) {
    exists k :: 0 <= k < |s| && s[k].id == id
  }

  /** No two entries share an id. */
  predicate DistinctIds(s: seq<Resource>) {
    forall i, j :: 0 <= i < j < |s| ==> s[i].id != s[j].id
  }

  lemma HasIdAppend(a: seq<Resource>, b: seq<Resource>, id: nat)
    ensures HasId(a + b, id) <==> HasId(a, id) || HasId(b, id)
  {
    if HasId(a, id) {
      var k :| 0 <= k < |a| && a[k].id == id;
      assert (a + b)[k] == a[k];
    }
    if HasId(b, id) {
      var k :| 0 <= k < |b| && b[k].id == id;
      assert (a + b)[|a| + k] == b[k];
    }
  }

  /** An id is in a non-empty list iff it is the head's or it is in the tail. */
  lemma HasIdCons(s: seq<Resource>, id: nat)
    requires s != []
    ensures HasId(s, id) <==> s[0].id == id || HasId(s[1..], id)
  {
    if HasId(s[1..], id) {
      var k :| 0 <= k < |s[1..]| && s[1..][k].id == id;
      assert s[k + 1] == s[1..][k];
    }
    if HasId(s, id) && s[0].id != id {
      var k :| 0 <= k < |s| && s[k].id == id;
      assert s[1..][k - 1] == s[k];
    }
  }

  /** `getResourceById`: an entry with the requested id, if there is one. */
  function FindById(s: seq<Resource>, id: nat): (r: Option<Resource>)
    ensures r.None? <==> !HasId(s, id)
    ensures r.Some? ==> r.value in s && r.value.id == id
  {
    if s == [] then None
    else if s[0].id == id then Some(s[0])
    else
      HasIdCons(s, id);
      FindById(s[1..], id)
  }

  /** `removeResource`: the list filtered down to the entries with another id. */
  function WithoutId(s: seq<Resource>, id: nat): (r: seq<Resource>)
    ensures forall q :: q in r <==> q in s && q.id != id
    ensures |r| <= |s|
  {
    if s == [] then []
    else if s[0].id == id then WithoutId(s[1..], id)
    else [s[0]] + WithoutId(s[1..], id)
  }

  /** Removal drops every copy of every entry with that id and no other entry. */
  lemma {:induction false} WithoutIdCount(s: seq<Resource>, id: nat, q: Resource)
    ensures multiset(WithoutId(s, id))[q] == if q.id == id then 0 else multiset(s)[q]
  {
    if s != [] {
      WithoutIdCount(s[1..], id, q);
      assert s == [s[0]] + s[1..];
    }
  }

  /** Removing an id that is not present changes nothing. */
  lemma {:induction false} WithoutIdAbsent(s: seq<Resource>, id: nat)
    requires !HasId(s, id)
    ensures WithoutId(s, id) == s
  {
    if s != [] {
      HasIdCons(s, id);
      WithoutIdAbsent(s[1..], id);
    }
  }

  /** The tail of a list with distinct ids has distinct ids and lacks the
      head's id. */
  lemma DistinctTail(s: seq<Resource>)
    requires DistinctIds(s) && s != []
    ensures DistinctIds(s[1..]) && !HasId(s[1..], s[0].id)
  {
    forall i, j | 0 <= i < j < |s[1..]| ensures s[1..][i].id != s[1..][j].id {
      assert s[1..][i] == s[i + 1] && s[1..][j] == s[j + 1];
    }
    forall j | 0 <= j < |s[1..]| ensures s[1..][j].id != s[0].id {
      assert s[1..][j] == s[j + 1];
    }
  }

  /** In a list with distinct ids, removing the id of entry k leaves the other
      entries in their order. */
  lemma {:induction false} WithoutIdAt(s: seq<Resource>, k: nat)
    requires DistinctIds(s) && k < |s|
    ensures WithoutId(s, s[k].id) == s[..k] + s[k + 1..]
  {
    DistinctTail(s);
    if k == 0 {
      WithoutIdAbsent(s[1..], s[0].id);
    } else {
      assert s[1..][k - 1] == s[k];
      WithoutIdAt(s[1..], k - 1);
      assert WithoutId(s, s[k].id) == [s[0]] + WithoutId(s[1..], s[k].id);
      assert s[1..][..k - 1] == s[1..k] && s[1..][k..] == s[k + 1..];
      assert s[..k] == [s[0]] + s[1..k];
    }
  }

  /** In a list with distinct ids, removing the id of one entry takes away
      exactly that one entry. */
  lemma {:induction false} WithoutIdOne(s: seq<Resource>, k: nat)
    requires DistinctIds(s) && k < |s|
    ensures multiset(WithoutId(s, s[k].id)) == multiset(s) - multiset{s[k]}
  {
    DistinctTail(s);
    assert s == [s[0]] + s[1..];
    if k == 0 {
      WithoutIdAbsent(s[1..], s[0].id);
    } else {
      assert s[1..][k - 1] == s[k];
      WithoutIdOne(s[1..], k - 1);
      assert WithoutId(s, s[k].id) == [s[0]] + WithoutId(s[1..], s[k].id);
    }
  }

  /** `addResource`: the resource is appended unless its id is already there. */
  function WithResource(s: seq<Resource>, q: Resource): (r: seq<Resource>)
    ensures HasId(r, q.id)
    ensures forall x :: x in r <==> x in s || (x == q && !HasId(s, q.id))
    ensures DistinctIds(s) ==> DistinctIds(r)
    ensures |s| <= |r| <= |s| + 1
  {
    if HasId(s, q.id) then s
    else
      assert (s + [q])[|s|] == q;
      s + [q]
  }

  /** Adding the same resource twice is the same as adding it once. */
  lemma WithResourceIdempotent(s: seq<Resource>, q: Resource)
    ensures WithResource(WithResource(s, q), q) == WithResource(s, q)
  {
  }

  /** Adding one resource after another, each with `addResource`. */
  function AddAll(s: seq<Resource>, rs: seq<Resource>): (r: seq<Resource>)
    ensures DistinctIds(s) ==> DistinctIds(r)
    ensures forall q :: q in rs ==> HasId(r, q.id)
    ensures forall x :: x in r ==> x in s || x in rs
    decreases |rs|
  {
    if rs == [] then s
    else
      var last := rs[|rs| - 1];
      var r := WithResource(AddAll(s, rs[..|rs| - 1]), last);
      assert forall q :: q in rs ==> q in rs[..|rs| - 1] || q == last by {
        forall q | q in rs ensures q in rs[..|rs| - 1] || q == last {
          var k :| 0 <= k < |rs| && rs[k] == q;
          if k < |rs| - 1 { assert rs[..|rs| - 1][k] == q; }
        }
      }
      assert forall q :: q in AddAll(s, rs[..|rs| - 1]) ==> HasId(r, q.id) by {
        forall q | q in AddAll(s, rs[..|rs| - 1]) ensures HasId(r, q.id) {
          var k :| 0 <= k < |r| && r[k] == q;
        }
      }
      r
  }

  /** Adding one more resource is one more `addResource`. */
  lemma AddAllSnoc(s: seq<Resource>, rs: seq<Resource>, r: nat)
    requires r < |rs|
    ensures AddAll(s, rs[..r + 1]) == WithResource(AddAll(s, rs[..r]), rs[r])
  {
    assert rs[..r + 1][..r] == rs[..r];
  }

  /** When the added resources have distinct ids and none is already present,
      adding them all appends them in order. */
  lemma {:induction false} AddAllFresh(s: seq<Resource>, rs: seq<Resource>)
    requires DistinctIds(rs)
    requires forall k :: 0 <= k < |rs| ==> !HasId(s, rs[k].id)
    ensures AddAll(s, rs) == s + rs
    decreases |rs|
  {
    if rs != [] {
      var n := |rs| - 1;
      var front := rs[..n];
      assert DistinctIds(front);
      assert forall k :: 0 <= k < |front| ==> front[k] == rs[k];
      AddAllFresh(s, front);
      assert !HasId(front, rs[n].id) by {
        forall k | 0 <= k < |front| ensures front[k].id != rs[n].id {
          assert front[k] == rs[k];
        }
      }
      HasIdAppend(s, front, rs[n].id);
      assert s + front + [rs[n]] == s + rs;
    }
  }
}
