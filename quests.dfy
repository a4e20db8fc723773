/** The pool entry (`IQuest` in App.tsx, `IData` in the store and the
    settings panel: both are built as `{ _id, name, selected }`) and the
    pure list operations on a pool that the components share. */
module Quests {

  /** An entry's `_id`, the text `crypto.randomUUID()` returned for it. */
  type Id = string

  datatype Quest = Quest(id: Id, name: string, selected: bool)

  /** The feedback a toast gives after an add attempt. */
  datatype Notice = Added(text: string) | Failed

  /** One fresh, unselected entry per name, in name order; `ids` are the
      values `crypto.randomUUID()` returned, one per name. */
  function NewQuests(names: seq<string>, ids: seq<Id>): (r: seq<Quest>)
    requires |ids| == |names|
    ensures |r| == |names|
    ensures forall i :: 0 <= i < |r| ==> r[i].id == ids[i] && r[i].name == names[i] && !r[i].selected
  {
    if names == [] then [] else [Quest(ids[0], names[0], false)] + NewQuests(names[1..], ids[1..])
  }

  /** `pool.some(q => q._id === id)` */
  predicate HasId(pool: seq<Quest>, id: Id) {
    exists k :: 0 <= k < |pool| && pool[k].id == id
  }

  /** No two entries of the pool share an identifier. */
  predicate UniqueIds(pool: seq<Quest>) {
    forall i, j :: 0 <= i < j < |pool| ==> pool[i].id != pool[j].id
  }

  /** What `crypto.randomUUID` promises about the identifiers it hands out
      for one batch: pairwise distinct and not already in the pool. */
  predicate FreshIds(ids: seq<Id>, pool: seq<Quest>) {
    && (forall i, j :: 0 <= i < j < |ids| ==> ids[i] != ids[j])
    && (forall i :: 0 <= i < |ids| ==> !HasId(pool, ids[i]))
  }

  /** Appending entries with fresh identifiers keeps identifiers unique. */
  lemma AddFreshKeepsUniqueIds(pool: seq<Quest>, names: seq<string>, ids: seq<Id>)
    requires |ids| == |names|
    requires UniqueIds(pool) && FreshIds(ids, pool)
    ensures UniqueIds(pool + NewQuests(names, ids))
  {
    var added := NewQuests(names, ids);
    var all := pool + added;
    forall i, j | 0 <= i < j < |all| ensures all[i].id != all[j].id {
      if j >= |pool| {
        assert all[j] == added[j - |pool|];
        if i < |pool| {
          assert all[i] == pool[i];
          assert !HasId(pool, ids[j - |pool|]);
        } else {
          assert all[i] == added[i - |pool|];
        }
      }
    }
  }

  /** `pool.filter(q => !q.selected)`: the entries still available for a
      draw, in pool order. */
  function Unselected(pool: seq<Quest>): (r: seq<Quest>)
    ensures |r| <= |pool|
    ensures forall q :: q in r <==> q in pool && !q.selected
  {
    if pool == [] then []
    else if pool[0].selected then Unselected(pool[1..])
    else [pool[0]] + Unselected(pool[1..])
  }

  /** `pool.filter(q => q.selected)`: the history of drawn entries. */
  function Selected(pool: seq<Quest>): (r: seq<Quest>)
    ensures |r| <= |pool|
    ensures forall q :: q in r <==> q in pool && q.selected
  {
    if pool == [] then []
    else if pool[0].selected then [pool[0]] + Selected(pool[1..])
    else Selected(pool[1..])
  }

  /** The two views split the pool: every entry is in exactly one, and
      their sizes add up to the pool's. */
  lemma {:induction false} ViewsPartitionPool(pool: seq<Quest>)
    ensures |Selected(pool)| + |Unselected(pool)| == |pool|
  {
    if pool != [] {
      ViewsPartitionPool(pool[1..]);
    }
  }

  /** A filter keeps order: the view of a concatenation is the
      concatenation of the views. */
  lemma {:induction false} UnselectedConcat(a: seq<Quest>, b: seq<Quest>)
    ensures Unselected(a + b) == Unselected(a) + Unselected(b)
  {
    if a == [] {
      assert a + b == b;
    } else {
      var x, t := a[0], a[1..];
      assert a == [x] + t;
      ConcatAssoc([x], t, b);
      UnselectedConcat(t, b);
      UnselectedCons(x, t + b);
      UnselectedCons(x, t);
      ConcatAssoc(if x.selected then [] else [x], Unselected(t), Unselected(b));
    }
  }

  lemma UnselectedCons(x: Quest, t: seq<Quest>)
    ensures Unselected([x] + t) == (if x.selected then [] else [x]) + Unselected(t)
  {
    assert ([x] + t)[0] == x && ([x] + t)[1..] == t;
  }

  /** With nothing selected, the available view is the whole pool. */
  lemma {:induction false} UnselectedOfFresh(pool: seq<Quest>)
    requires forall k :: 0 <= k < |pool| ==> !pool[k].selected
    ensures Unselected(pool) == pool
  {
    if pool != [] {
      UnselectedOfFresh(pool[1..]);
    }
  }

  /** `pool.filter(q => q._id !== id)` */
  function RemoveById(pool: seq<Quest>, id: Id): (r: seq<Quest>)
    ensures |r| <= |pool|
    ensures forall i :: 0 <= i < |r| ==> r[i].id != id
  {
    if pool == [] then []
    else if pool[0].id == id then RemoveById(pool[1..], id)
    else [pool[0]] + RemoveById(pool[1..], id)
  }

  /** Removal keeps exactly the entries with another identifier. */
  lemma {:induction false} RemoveByIdMembers(pool: seq<Quest>, id: Id)
    ensures forall q :: q in RemoveById(pool, id) <==> q in pool && q.id != id
  {
    if pool != [] {
      RemoveByIdMembers(pool[1..], id);
      assert forall q :: q in pool <==> q == pool[0] || q in pool[1..];
    }
  }

  /** Removing an identifier that is not there changes nothing. */
  lemma {:induction false} RemoveByIdAbsent(pool: seq<Quest>, id: Id)
    requires !HasId(pool, id)
    ensures RemoveById(pool, id) == pool
  {
    if pool != [] {
      RemoveByIdAbsent(pool[1..], id);
    }
  }

  lemma RemoveByIdCons(x: Quest, t: seq<Quest>, id: Id)
    ensures RemoveById([x] + t, id) == (if x.id == id then [] else [x]) + RemoveById(t, id)
  {
    assert ([x] + t)[0] == x && ([x] + t)[1..] == t;
  }

  /** Removal keeps the relative order of what remains: it distributes
      over concatenation. */
  lemma {:induction false} RemoveByIdConcat(a: seq<Quest>, b: seq<Quest>, id: Id)
    ensures RemoveById(a + b, id) == RemoveById(a, id) + RemoveById(b, id)
  {
    if a == [] {
      assert a + b == b;
    } else {
      var x, t := a[0], a[1..];
      assert a == [x] + t;
      ConcatAssoc([x], t, b);
      RemoveByIdConcat(t, b, id);
      RemoveByIdCons(x, t + b, id);
      RemoveByIdCons(x, t, id);
      ConcatAssoc(if x.id == id then [] else [x], RemoveById(t, id), RemoveById(b, id));
    }
  }

  /** Removal drops exactly one entry when identifiers are unique and the
      identifier is present. */
  lemma {:induction false} RemoveByIdCount(pool: seq<Quest>, id: Id)
    requires UniqueIds(pool) && HasId(pool, id)
    ensures |RemoveById(pool, id)| == |pool| - 1
  {
    if pool[0].id == id {
      RemoveByIdAbsent(pool[1..], id);
    } else {
      var k :| 0 <= k < |pool| && pool[k].id == id;
      assert pool[1..][k - 1].id == id;
      RemoveByIdCount(pool[1..], id);
    }
  }

  /** Removal keeps identifiers unique. */
  lemma {:induction false} RemoveByIdKeepsUniqueIds(pool: seq<Quest>, id: Id)
    requires UniqueIds(pool)
    ensures UniqueIds(RemoveById(pool, id))
  {
    if pool != [] {
      RemoveByIdKeepsUniqueIds(pool[1..], id);
      var rest := RemoveById(pool[1..], id);
      if pool[0].id != id {
        RemoveByIdMembers(pool[1..], id);
        forall j | 0 <= j < |rest| ensures pool[0].id != rest[j].id {
          assert rest[j] in pool[1..];
        }
      }
    }
  }

  /** `pool.map(q => q._id === d._id ? d : q)` */
  function UpdateById(pool: seq<Quest>, d: Quest): (r: seq<Quest>)
    ensures |r| == |pool|
    ensures forall i :: 0 <= i < |pool| ==> r[i] == (if pool[i].id == d.id then d else pool[i])
  {
    if pool == [] then [] else [if pool[0].id == d.id then d else pool[0]] + UpdateById(pool[1..], d)
  }

  /** `pool.findIndex(q => q._id === id)`: the first position holding `id`,
      or -1 when there is none. */
  function FindIndex(pool: seq<Quest>, id: Id): (k: int)
    ensures -1 <= k < |pool|
    ensures k >= 0 ==> pool[k].id == id && forall j :: 0 <= j < k ==> pool[j].id != id
    ensures k == -1 <==> !HasId(pool, id)
  {
    if pool == [] then -1
    else if pool[0].id == id then 0
    else
      var k := FindIndex(pool[1..], id);
      assert HasId(pool[1..], id) <==> HasId(pool, id) by {
        if HasId(pool, id) {
          var j :| 0 <= j < |pool| && pool[j].id == id;
          assert pool[1..][j - 1].id == id;
        }
      }
      if k == -1 then -1 else k + 1
  }

  /** With unique identifiers, looking up an entry's identifier finds that
      entry's own position. */
  lemma FindIndexOfMember(pool: seq<Quest>, k: nat)
    requires UniqueIds(pool) && k < |pool|
    ensures FindIndex(pool, pool[k].id) == k
  {
  }

  /** The identifiers of a pool, in order. */
  function Ids(pool: seq<Quest>): (r: seq<Id>)
    ensures |r| == |pool| && forall i :: 0 <= i < |pool| ==> r[i] == pool[i].id
  {
    if pool == [] then [] else [pool[0].id] + Ids(pool[1..])
  }

  /** The lookup sees only identifiers. */
  lemma {:induction false} FindIndexByIds(a: seq<Quest>, b: seq<Quest>, id: Id)
    requires Ids(a) == Ids(b)
    ensures FindIndex(a, id) == FindIndex(b, id)
  {
    if a != [] {
      assert a[0].id == Ids(a)[0] == Ids(b)[0] == b[0].id;
      assert Ids(a[1..]) == Ids(b[1..]) by {
        assert Ids(a[1..]) == Ids(a)[1..];
        assert Ids(b[1..]) == Ids(b)[1..];
      }
      FindIndexByIds(a[1..], b[1..], id);
    }
  }

  /** No value occurs twice. */
  predicate Distinct(s: seq<nat>) {
    forall i, j :: 0 <= i < j < |s| ==> s[i] != s[j]
  }

  predicate IndexesBelow(s: seq<nat>, n: nat) {
    forall i :: 0 <= i < |s| ==> s[i] < n
  }

  /** `idx.map(i => s[i])` */
  function Pick(s: seq<Quest>, idx: seq<nat>): (r: seq<Quest>)
    requires IndexesBelow(idx, |s|)
    ensures |r| == |idx|
    ensures forall j :: 0 <= j < |idx| ==> r[j] == s[idx[j]]
  {
    if idx == [] then [] else Pick(s, idx[..|idx| - 1]) + [s[idx[|idx| - 1]]]
  }

  /** Replacing by identifier leaves every identifier where it was. */
  lemma UpdateByIdKeepsIds(pool: seq<Quest>, d: Quest)
    ensures Ids(UpdateById(pool, d)) == Ids(pool)
    ensures UniqueIds(pool) ==> UniqueIds(UpdateById(pool, d))
  {
    assert forall i :: 0 <= i < |pool| ==> UpdateById(pool, d)[i].id == pool[i].id;
  }

  /** Replacing the same record twice is replacing it once. */
  lemma UpdateByIdIdempotent(pool: seq<Quest>, d: Quest)
    ensures UpdateById(UpdateById(pool, d), d) == UpdateById(pool, d)
  {
  }

  /** Replacing a record whose identifier is not there changes nothing. */
  lemma UpdateByIdAbsent(pool: seq<Quest>, d: Quest)
    requires !HasId(pool, d.id)
    ensures UpdateById(pool, d) == pool
  {
  }

  /** Removing an identifier twice is removing it once. */
  lemma RemoveByIdIdempotent(pool: seq<Quest>, id: Id)
    ensures RemoveById(RemoveById(pool, id), id) == RemoveById(pool, id)
  {
    RemoveByIdAbsent(RemoveById(pool, id), id);
  }

  /** Removal and the available view commute: removing an identifier from
      the pool removes it from the view and changes nothing else there. */
  lemma {:induction false} UnselectedRemoveById(pool: seq<Quest>, id: Id)
    ensures Unselected(RemoveById(pool, id)) == RemoveById(Unselected(pool), id)
  {
    if pool != [] {
      UnselectedRemoveById(pool[1..], id);
      var rest := RemoveById(pool[1..], id);
      if pool[0].id != id {
        assert RemoveById(pool, id) == [pool[0]] + rest;
        assert ([pool[0]] + rest)[1..] == rest;
        if !pool[0].selected {
          RemoveByIdCons(pool[0], Unselected(pool[1..]), id);
        }
      } else if !pool[0].selected {
        RemoveByIdCons(pool[0], Unselected(pool[1..]), id);
      }
    }
  }

  lemma ConcatAssoc(a: seq<Quest>, b: seq<Quest>, c: seq<Quest>)
    ensures (a + b) + c == a + (b + c)
  {
  }

  /** Building one more entry extends the built list by that entry. */
  lemma NewQuestsSnoc(names: seq<string>, ids: seq<Id>, i: nat)
    requires |ids| == |names| && i < |names|
    ensures NewQuests(names[..i + 1], ids[..i + 1]) == NewQuests(names[..i], ids[..i]) + [Quest(ids[i], names[i], false)]
  {
    var longer := NewQuests(names[..i + 1], ids[..i + 1]);
    var shorter := NewQuests(names[..i], ids[..i]) + [Quest(ids[i], names[i], false)];
    assert forall k :: 0 <= k < |longer| ==> longer[k] == shorter[k];
  }
}
