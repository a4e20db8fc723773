/** The draw engine of the single-page app (src/App.tsx): the pool of
    entries, the batch add, the two-step draw (start: sample indices and mark
    entries selected; stop: append the result) and the clearing commands.
    The clock and the animation frames are left out: a draw is the call of
    `StartAnimation` followed, some time later, by `StopAnimation`. */
module App {
  import opened Text
  import opened Quests

  function Min(a: nat, b: nat): nat {
    if a <= b then a else b
  }

  // ---------------------------------------------------------------------
  // Sampling

  /** What the rejection-sampling loop keeps of the oracle's answers `s`:
      every answer not seen before, in the order first seen. */
  function Dedup(s: seq<nat>): (r: seq<nat>)
    ensures Distinct(r)
    ensures forall x :: x in r <==> x in s
    ensures |r| <= |s|
  {
    if s == [] then []
    else
      var p := Dedup(s[..|s| - 1]);
      if s[|s| - 1] in p then p else p + [s[|s| - 1]]
  }

  /** A rejected answer (one already chosen) leaves the choice unchanged. */
  lemma DedupRejects(s: seq<nat>, x: nat)
    requires x in s
    ensures Dedup(s + [x]) == Dedup(s)
  {
    assert (s + [x])[..|s|] == s;
  }

  /** A fresh answer is appended to the choice. */
  lemma DedupAccepts(s: seq<nat>, x: nat)
    requires x !in s
    ensures Dedup(s + [x]) == Dedup(s) + [x]
  {
    assert (s + [x])[..|s|] == s;
  }

  /** Reading more answers only extends the choice: what the loop has
      chosen after `t` answers is a prefix of what it would choose later. */
  lemma {:induction false} DedupPrefix(s: seq<nat>, t: nat)
    requires t <= |s|
    ensures Dedup(s[..t]) <= Dedup(s)
    decreases |s|
  {
    if t < |s| {
      var s' := s[..|s| - 1];
      assert s'[..t] == s[..t];
      DedupPrefix(s', t);
    } else {
      assert s[..t] == s;
    }
  }

  /** The loop of App.tsx:148-157. `draws` are the successive values of
      `Math.floor(Math.random() * available)`, each below `available`, and
      they contain enough distinct values for the loop to finish.
      `consumed` is how many of them the loop read. */
  method SampleIndexes(drawCount: nat, available: nat, draws: seq<nat>)
    returns (selectedIndexes: seq<nat>, consumed: nat)
    requires IndexesBelow(draws, available)
    requires |Dedup(draws)| >= Min(drawCount, available)
    ensures |selectedIndexes| == Min(drawCount, available)
    ensures Distinct(selectedIndexes)
    ensures IndexesBelow(selectedIndexes, available)
    ensures consumed <= |draws| && selectedIndexes == Dedup(draws[..consumed])
  {
    selectedIndexes, consumed := [], 0;
    while |selectedIndexes| < drawCount && |selectedIndexes| < available
      invariant consumed <= |draws|
      invariant selectedIndexes == Dedup(draws[..consumed])
      invariant |selectedIndexes| <= Min(drawCount, available)
      decreases |draws| - consumed
    {
      assert draws[..|draws|] == draws;
      var randomIndex := draws[consumed];
      if randomIndex !in selectedIndexes {
        selectedIndexes := selectedIndexes + [randomIndex];
      }
      assert draws[..consumed + 1][..consumed] == draws[..consumed];
      consumed := consumed + 1;
    }
    forall i | 0 <= i < |selectedIndexes| ensures selectedIndexes[i] < available {
      assert selectedIndexes[i] in draws[..consumed];
    }
  }

  // ---------------------------------------------------------------------
  // Marking the chosen entries

  /** The positions App.tsx:162-167 sets `selected` on: for each chosen
      index, the first pool position whose `_id` is that of the chosen
      available entry. */
  function Targets(pool: seq<Quest>, idx: seq<nat>): set<int>
    requires IndexesBelow(idx, |Unselected(pool)|)
  {
    set j | 0 <= j < |idx| :: FindIndex(pool, Unselected(pool)[idx[j]].id)
  }

  /** One more chosen index adds its lookup position to the targets. */
  lemma TargetsSnoc(pool: seq<Quest>, idx: seq<nat>, x: nat)
    requires IndexesBelow(idx, |Unselected(pool)|) && x < |Unselected(pool)|
    ensures IndexesBelow(idx + [x], |Unselected(pool)|)
    ensures Targets(pool, idx + [x]) == Targets(pool, idx) + {FindIndex(pool, Unselected(pool)[x].id)}
  {
    var u := Unselected(pool);
    var idx' := idx + [x];
    var y := FindIndex(pool, u[x].id);
    assert IndexesBelow(idx', |u|) by {
      forall j | 0 <= j < |idx'| ensures idx'[j] < |u| {
        if j < |idx| { assert idx'[j] == idx[j]; }
      }
    }
    forall k | k in Targets(pool, idx') ensures k in Targets(pool, idx) + {y} {
      var j :| 0 <= j < |idx'| && k == FindIndex(pool, u[idx'[j]].id);
      if j < |idx| {
        assert idx'[j] == idx[j];
      }
    }
    forall k | k in Targets(pool, idx) ensures k in Targets(pool, idx') {
      var j :| 0 <= j < |idx| && k == FindIndex(pool, u[idx[j]].id);
      assert idx'[j] == idx[j];
    }
    assert idx'[|idx|] == x;
  }

  /** Two different available entries are looked up at different pool
      positions when identifiers are unique. */
  lemma LookupsDiffer(pool: seq<Quest>, a: nat, b: nat)
    requires UniqueIds(Unselected(pool))
    requires a < |Unselected(pool)| && b < |Unselected(pool)| && a != b
    ensures FindIndex(pool, Unselected(pool)[a].id) != FindIndex(pool, Unselected(pool)[b].id)
  {
    var u := Unselected(pool);
    assert u[a] in pool && u[b] in pool;
    assert u[a].id != u[b].id by {
      if a < b { } else { }
    }
  }

  /** Every target is a position of the pool. */
  lemma TargetsInPool(pool: seq<Quest>, idx: seq<nat>)
    requires IndexesBelow(idx, |Unselected(pool)|)
    ensures forall k :: k in Targets(pool, idx) ==> 0 <= k < |pool|
  {
    var u := Unselected(pool);
    forall k | k in Targets(pool, idx) ensures 0 <= k < |pool| {
      var j :| 0 <= j < |idx| && k == FindIndex(pool, u[idx[j]].id);
      assert u[idx[j]] in pool;
    }
  }

  /** The identifiers of the chosen available entries. */
  function ChosenIds(pool: seq<Quest>, idx: seq<nat>): set<Id>
    requires IndexesBelow(idx, |Unselected(pool)|)
  {
    set j | 0 <= j < |idx| :: Unselected(pool)[idx[j]].id
  }

  /** `after` is `before` with `selected` set at exactly the positions in
      `t` and nothing else changed. */
  ghost predicate MarkedAt(before: seq<Quest>, after: seq<Quest>, t: set<int>) {
    && |after| == |before|
    && forall k :: 0 <= k < |before| ==>
         after[k] == (if k in t then before[k].(selected := true) else before[k])
  }

  /** `after` is `before` marked at the targets of `idx`. */
  ghost predicate MarkedFrom(before: seq<Quest>, after: seq<Quest>, idx: seq<nat>)
    requires IndexesBelow(idx, |Unselected(before)|)
  {
    MarkedAt(before, after, Targets(before, idx))
  }

  /** The `setQuests` updater of App.tsx:160-170: copy the pool and, for each
      chosen index, look the chosen available entry up by `_id` and set its
      `selected` flag. The lookup always succeeds, so the `findIndex` result
      -1 (which would make the assignment throw) never arises. */
  method MarkSelected(pool: seq<Quest>, selectedIndexes: seq<nat>) returns (newQuests: seq<Quest>)
    requires IndexesBelow(selectedIndexes, |Unselected(pool)|)
    ensures MarkedFrom(pool, newQuests, selectedIndexes)
  {
    var unselectedQuests := Unselected(pool);
    newQuests := pool;
    ghost var marked: set<int> := {};
    TargetsOfNothing(pool, selectedIndexes);
    for j := 0 to |selectedIndexes|
      invariant Ids(newQuests) == Ids(pool)
      invariant marked == Targets(pool, selectedIndexes[..j])
      invariant MarkedAt(pool, newQuests, marked)
    {
      var selectedQuest := unselectedQuests[selectedIndexes[j]];
      MarkLoopStep(pool, newQuests, selectedIndexes, j, marked);
      var selectedQuestIndex := FindIndex(newQuests, selectedQuest.id);
      newQuests := newQuests[selectedQuestIndex := newQuests[selectedQuestIndex].(selected := true)];
      marked := marked + {selectedQuestIndex};
    }
    assert selectedIndexes[..|selectedIndexes|] == selectedIndexes;
  }

  /** One iteration of the marking loop: the lookup in the working copy
      finds the chosen entry's position in the pool, and setting its flag
      marks the targets of one more chosen index. */
  lemma MarkLoopStep(pool: seq<Quest>, cur: seq<Quest>, idx: seq<nat>, j: nat, marked: set<int>)
    requires IndexesBelow(idx, |Unselected(pool)|) && j < |idx|
    requires Ids(cur) == Ids(pool)
    requires IndexesBelow(idx[..j], |Unselected(pool)|) && marked == Targets(pool, idx[..j])
    requires MarkedAt(pool, cur, marked)
    ensures var p := FindIndex(cur, Unselected(pool)[idx[j]].id);
            && 0 <= p < |cur|
            && Ids(cur[p := cur[p].(selected := true)]) == Ids(pool)
            && IndexesBelow(idx[..j + 1], |Unselected(pool)|)
            && marked + {p} == Targets(pool, idx[..j + 1])
            && MarkedAt(pool, cur[p := cur[p].(selected := true)], marked + {p})
  {
    var u := Unselected(pool);
    var p := FindIndex(cur, u[idx[j]].id);
    FindIndexByIds(cur, pool, u[idx[j]].id);
    assert u[idx[j]] in pool;
    TargetsSnoc(pool, idx[..j], idx[j]);
    assert idx[..j + 1] == idx[..j] + [idx[j]];
    MarkOne(pool, cur, marked, p);
    MarkedKeepsIdsAt(cur, p);
  }

  /** Before the first iteration nothing is marked. */
  lemma TargetsOfNothing(pool: seq<Quest>, idx: seq<nat>)
    requires IndexesBelow(idx, |Unselected(pool)|)
    ensures IndexesBelow(idx[..0], |Unselected(pool)|) && Targets(pool, idx[..0]) == {}
  {
    assert idx[..0] == [];
  }

  /** Setting the flag at one more position `p` of a pool marked at `t`
      gives the pool marked at `t + {p}`. */
  lemma MarkOne(pool: seq<Quest>, cur: seq<Quest>, t: set<int>, p: nat)
    requires MarkedAt(pool, cur, t) && p < |pool|
    ensures MarkedAt(pool, cur[p := cur[p].(selected := true)], t + {p})
  {
  }

  /** Setting one flag keeps every identifier in place. */
  lemma MarkedKeepsIdsAt(cur: seq<Quest>, p: nat)
    requires p < |cur|
    ensures Ids(cur[p := cur[p].(selected := true)]) == Ids(cur)
  {
    var next := cur[p := cur[p].(selected := true)];
    assert forall k :: 0 <= k < |cur| ==> next[k].id == cur[k].id;
  }

  /** Marking changes flags only, so identifiers stay where they were. */
  lemma MarkedKeepsIds(before: seq<Quest>, after: seq<Quest>, idx: seq<nat>)
    requires IndexesBelow(idx, |Unselected(before)|)
    requires MarkedFrom(before, after, idx)
    ensures Ids(after) == Ids(before)
    ensures UniqueIds(before) ==> UniqueIds(after)
  {
    assert forall k :: 0 <= k < |before| ==> after[k].id == before[k].id;
  }

  /** The available view of a pool with unique identifiers has unique
      identifiers. */
  lemma {:induction false} UnselectedKeepsUniqueIds(pool: seq<Quest>)
    requires UniqueIds(pool)
    ensures UniqueIds(Unselected(pool))
  {
    if pool != [] {
      UnselectedKeepsUniqueIds(pool[1..]);
      var rest := Unselected(pool[1..]);
      forall j | 0 <= j < |rest| ensures pool[0].id != rest[j].id {
        assert rest[j] in pool[1..];
      }
    }
  }

  /** With unique identifiers the marked positions are exactly the
      positions of the chosen entries: they carry a chosen identifier, and
      they were available before the draw (no entry is drawn twice). */
  lemma TargetsAreChosen(pool: seq<Quest>, idx: seq<nat>)
    requires UniqueIds(pool)
    requires IndexesBelow(idx, |Unselected(pool)|)
    ensures forall k :: 0 <= k < |pool| ==> (k in Targets(pool, idx) <==> pool[k].id in ChosenIds(pool, idx))
    ensures forall k :: k in Targets(pool, idx) ==> !pool[k].selected
  {
    var u := Unselected(pool);
    var t := Targets(pool, idx);
    forall k | k in t ensures !pool[k].selected && pool[k].id in ChosenIds(pool, idx) {
      var j :| 0 <= j < |idx| && k == FindIndex(pool, u[idx[j]].id);
      assert u[idx[j]] in pool;
      var p :| 0 <= p < |pool| && pool[p] == u[idx[j]];
      FindIndexOfMember(pool, p);
    }
    forall k | 0 <= k < |pool| && pool[k].id in ChosenIds(pool, idx) ensures k in t {
      var j :| 0 <= j < |idx| && u[idx[j]].id == pool[k].id;
      FindIndexOfMember(pool, k);
    }
  }

  /** Distinct indices into an available view with unique identifiers
      mark as many entries as there are indices. */
  lemma {:induction false} TargetsCount(pool: seq<Quest>, idx: seq<nat>)
    requires UniqueIds(pool)
    requires IndexesBelow(idx, |Unselected(pool)|)
    requires Distinct(idx)
    ensures |Targets(pool, idx)| == |idx|
  {
    if idx != [] {
      var n := |idx| - 1;
      var front := idx[..n];
      assert forall j :: 0 <= j < n ==> front[j] == idx[j];
      TargetsCount(pool, front);
      UnselectedKeepsUniqueIds(pool);
      TargetsGrow(pool, front, idx[n]);
      assert idx == front + [idx[n]];
    }
  }

  /** A new distinct index adds a new target. */
  lemma TargetsGrow(pool: seq<Quest>, front: seq<nat>, x: nat)
    requires UniqueIds(Unselected(pool))
    requires IndexesBelow(front, |Unselected(pool)|) && x < |Unselected(pool)|
    requires forall j :: 0 <= j < |front| ==> front[j] != x
    ensures IndexesBelow(front + [x], |Unselected(pool)|)
    ensures |Targets(pool, front + [x])| == |Targets(pool, front)| + 1
  {
    var u := Unselected(pool);
    TargetsSnoc(pool, front, x);
    var last := FindIndex(pool, u[x].id);
    forall j | 0 <= j < |front| ensures FindIndex(pool, u[front[j]].id) != last {
      LookupsDiffer(pool, front[j], x);
    }
    assert last !in Targets(pool, front);
  }

  function SelectedCount(pool: seq<Quest>): nat {
    |Selected(pool)|
  }

  lemma {:induction false} SelectedConcat(a: seq<Quest>, b: seq<Quest>)
    ensures Selected(a + b) == Selected(a) + Selected(b)
  {
    if a == [] {
      assert a + b == b;
    } else {
      var x, t := a[0], a[1..];
      assert a == [x] + t;
      ConcatAssoc([x], t, b);
      SelectedConcat(t, b);
      SelectedCons(x, t + b);
      SelectedCons(x, t);
      ConcatAssoc(if x.selected then [x] else [], Selected(t), Selected(b));
    }
  }

  lemma SelectedCons(x: Quest, t: seq<Quest>)
    ensures Selected([x] + t) == (if x.selected then [x] else []) + Selected(t)
  {
    assert ([x] + t)[0] == x && ([x] + t)[1..] == t;
  }

  /** Setting the flag at a set `t` of previously unselected positions
      grows the history by exactly `|t|`. */
  lemma {:induction false} SelectedCountAfterMark(before: seq<Quest>, after: seq<Quest>, t: set<int>)
    requires |after| == |before|
    requires forall k :: 0 <= k < |before| ==> after[k] == (if k in t then before[k].(selected := true) else before[k])
    requires forall k :: k in t ==> 0 <= k < |before| && !before[k].selected
    ensures SelectedCount(after) == SelectedCount(before) + |t|
    decreases |before|
  {
    if before == [] {
      assert forall k :: k !in t;
    } else {
      var n := |before| - 1;
      var t' := t - {n};
      assert forall k :: 0 <= k < n ==> before[..n][k] == before[k] && after[..n][k] == after[k];
      SelectedCountAfterMark(before[..n], after[..n], t');
      SnocSplit(before);
      SnocSplit(after);
      SelectedSnoc(before[..n], before[n]);
      SelectedSnoc(after[..n], after[n]);
      RemoveOneCount(t, n);
    }
  }

  lemma SnocSplit(s: seq<Quest>)
    requires s != []
    ensures s == s[..|s| - 1] + [s[|s| - 1]]
  {
  }

  lemma RemoveOneCount(t: set<int>, n: int)
    ensures |t| == |t - {n}| + (if n in t then 1 else 0)
  {
    if n in t {
      assert t == (t - {n}) + {n};
    } else {
      assert t == t - {n};
    }
  }

  /** One more entry adds one to the history exactly when it is selected. */
  lemma SelectedSnoc(s: seq<Quest>, x: Quest)
    ensures SelectedCount(s + [x]) == SelectedCount(s) + (if x.selected then 1 else 0)
  {
    SelectedConcat(s, [x]);
    SelectedCons(x, []);
    assert [x] + [] == [x];
  }

  // ---------------------------------------------------------------------
  // Result accumulation

  /** When no entry was selected before the draw, the entries `stopAnimation`
      appends (looked up in the whole pool) are the chosen available entries,
      now marked selected. */
  lemma ResultIsDrawWhenNoneSelected(pool: seq<Quest>, after: seq<Quest>, idx: seq<nat>)
    requires UniqueIds(pool)
    requires forall k :: 0 <= k < |pool| ==> !pool[k].selected
    requires IndexesBelow(idx, |Unselected(pool)|)
    requires MarkedFrom(pool, after, idx)
    ensures IndexesBelow(idx, |after|)
    ensures forall j :: 0 <= j < |idx| ==> Pick(after, idx)[j] == Unselected(pool)[idx[j]].(selected := true)
  {
    UnselectedOfFresh(pool);
    forall j | 0 <= j < |idx| ensures idx[j] in Targets(pool, idx) {
      FindIndexOfMember(pool, idx[j]);
    }
  }

  /** Once an entry has been drawn, the result is looked up at the wrong
      place: here the pool holds an entry drawn earlier at position 0 and an
      available one at position 1; the draw picks index 0 of the available
      view (the entry with `_id` "b"), yet the result receives the entry at
      position 0 of the pool (`_id` "a"). */
  lemma ResultMisreadsAfterEarlierDraw()
    ensures var pool := [Quest("a", "A", true), Quest("b", "B", false)];
            var after := [Quest("a", "A", true), Quest("b", "B", true)];
            && MarkedFrom(pool, after, [0])
            && Unselected(pool)[0].id == "b"
            && Pick(after, [0]) == [Quest("a", "A", true)]
  {
    var pool := [Quest("a", "A", true), Quest("b", "B", false)];
    assert Unselected(pool) == [Quest("b", "B", false)];
    assert FindIndex(pool, "b") == 1;
    assert forall k :: k in Targets(pool, [0]) <==> k == 1 by {
      assert [0][0] == 0;
    }
  }

  // ---------------------------------------------------------------------
  // The draw control

  /** Whether the draw button can be pressed: it is rendered only while
      the result list is empty, and enabled when the pool holds more entries
      than the draw count and no spin is running. The count is of the whole
      pool, drawn entries included. */
  function DrawAllowed(quests: seq<Quest>, drawCount: nat, isSpinning: bool, selectedStrings: seq<Quest>): (r: bool)
    ensures r ==> quests != [] && !isSpinning && selectedStrings == []
    ensures r ==> drawCount < |quests|
  {
    selectedStrings == [] && |quests| > drawCount && !isSpinning
  }

  /** Before any entry has been drawn, an enabled button draws exactly
      `drawCount` entries. */
  lemma DrawAllowedFillsCount(quests: seq<Quest>, drawCount: nat, isSpinning: bool, selectedStrings: seq<Quest>)
    requires forall k :: 0 <= k < |quests| ==> !quests[k].selected
    requires DrawAllowed(quests, drawCount, isSpinning, selectedStrings)
    ensures Min(drawCount, |Unselected(quests)|) == drawCount
  {
    UnselectedOfFresh(quests);
  }

  /** The button can be enabled while no entry is available, so that the
      draw marks nothing: a pool of two drawn entries with a draw
      count of 1. */
  lemma DrawAllowedWithNothingAvailable()
    ensures var pool := [Quest("a", "A", true), Quest("b", "B", true)];
            DrawAllowed(pool, 1, false, []) && Unselected(pool) == [] && Min(1, |Unselected(pool)|) == 0
  {
  }

  /** One list of `crypto.randomUUID()` results per preset string, one
      identifier per comma piece. */
  predicate BatchShape(presets: seq<string>, ids: seq<seq<Id>>) {
    |ids| == |presets| && forall i :: 0 <= i < |presets| ==> |ids[i]| == |Split(presets[i], Comma)|
  }

  lemma BatchShapePrefix(presets: seq<string>, ids: seq<seq<Id>>, n: nat)
    requires BatchShape(presets, ids) && n <= |presets|
    ensures BatchShape(presets[..n], ids[..n])
  {
  }

  /** Batch import (App.tsx:86-90): every preset string goes through
      `addQuest`, so each is itself split on commas. */
  function AddedBatch(presets: seq<string>, ids: seq<seq<Id>>): (r: seq<Quest>)
    requires BatchShape(presets, ids)
  {
    if presets == [] then []
    else
      var n := |presets| - 1;
      AddedBatch(presets[..n], ids[..n]) + NewQuests(Split(presets[n], Comma), ids[n])
  }

  /** All identifiers of a batch, in order. */
  function Flatten(ids: seq<seq<Id>>): seq<Id> {
    if ids == [] then [] else ids[0] + Flatten(ids[1..])
  }

  /** The number of entries a batch import adds: one per comma piece of
      every preset string. */
  lemma {:induction false} AddedBatchSize(presets: seq<string>, ids: seq<seq<Id>>)
    requires BatchShape(presets, ids)
    ensures |AddedBatch(presets, ids)| == |Flatten(ids)|
  {
    if presets != [] {
      var n := |presets| - 1;
      AddedBatchSize(presets[..n], ids[..n]);
      FlattenSnoc(ids[..n], ids[n]);
      assert ids == ids[..n] + [ids[n]];
    }
  }

  lemma {:induction false} FlattenSnoc(ids: seq<seq<Id>>, last: seq<Id>)
    ensures Flatten(ids + [last]) == Flatten(ids) + last
  {
    if ids == [] {
      assert [] + [last] == [last];
      assert Flatten([last]) == last + Flatten([]);
    } else {
      FlattenSnoc(ids[1..], last);
      assert (ids + [last])[1..] == ids[1..] + [last];
    }
  }

  /** Fresh identifiers for a whole batch are fresh for its first part, and
      the rest stay fresh once the first part is in the pool. */
  lemma FreshIdsSplit(a: seq<Id>, b: seq<Id>, pool: seq<Quest>, names: seq<string>)
    requires |names| == |a|
    requires FreshIds(a + b, pool)
    ensures FreshIds(a, pool)
    ensures FreshIds(b, pool + NewQuests(names, a))
  {
    var ab := a + b;
    assert forall i :: 0 <= i < |a| ==> a[i] == ab[i];
    assert forall i :: 0 <= i < |b| ==> b[i] == ab[|a| + i];
    forall i | 0 <= i < |b| ensures !HasId(pool + NewQuests(names, a), b[i]) {
      FreshAfterAdd(pool, names, a, b[i]);
    }
  }

  lemma FreshAfterAdd(pool: seq<Quest>, names: seq<string>, a: seq<Id>, id: Id)
    requires |names| == |a|
    requires !HasId(pool, id) && id !in a
    ensures !HasId(pool + NewQuests(names, a), id)
  {
    var added := NewQuests(names, a);
    var grown := pool + added;
    forall k | 0 <= k < |grown| ensures grown[k].id != id {
      if k < |pool| {
        assert grown[k] == pool[k];
      } else {
        assert grown[k] == added[k - |pool|];
      }
    }
  }

  /** One step of the batch import: the next preset's identifiers are fresh
      for the pool so far, and once its entries are appended the pool is the
      start pool plus one more preset's entries, with the remaining
      identifiers still fresh. */
  lemma BatchStep(start: seq<Quest>, pool: seq<Quest>, presets: seq<string>, ids: seq<seq<Id>>, i: nat)
    requires BatchShape(presets, ids) && i < |presets|
    requires BatchShape(presets[..i], ids[..i])
    requires pool == start + AddedBatch(presets[..i], ids[..i])
    requires FreshIds(Flatten(ids[i..]), pool)
    ensures |ids[i]| == |Split(presets[i], Comma)|
    ensures FreshIds(ids[i], pool)
    ensures BatchShape(presets[..i + 1], ids[..i + 1])
    ensures var next := pool + NewQuests(Split(presets[i], Comma), ids[i]);
            && next == start + AddedBatch(presets[..i + 1], ids[..i + 1])
            && FreshIds(Flatten(ids[i + 1..]), next)
  {
    BatchShapePrefix(presets, ids, i + 1);
    BatchFreshStep(pool, presets, ids, i);
    AddedBatchSnoc(presets, ids, i);
    ConcatAssoc(start, AddedBatch(presets[..i], ids[..i]), NewQuests(Split(presets[i], Comma), ids[i]));
  }

  lemma BatchFreshStep(pool: seq<Quest>, presets: seq<string>, ids: seq<seq<Id>>, i: nat)
    requires BatchShape(presets, ids) && i < |presets|
    requires FreshIds(Flatten(ids[i..]), pool)
    ensures |ids[i]| == |Split(presets[i], Comma)|
    ensures FreshIds(ids[i], pool)
    ensures FreshIds(Flatten(ids[i + 1..]), pool + NewQuests(Split(presets[i], Comma), ids[i]))
  {
    assert ids[i..] == [ids[i]] + ids[i + 1..];
    assert Flatten(ids[i..]) == ids[i] + Flatten(ids[i + 1..]);
    FreshIdsSplit(ids[i], Flatten(ids[i + 1..]), pool, Split(presets[i], Comma));
  }

  /** The batch of a longer prefix is the shorter one's plus one preset's
      entries. */
  lemma AddedBatchSnoc(presets: seq<string>, ids: seq<seq<Id>>, i: nat)
    requires BatchShape(presets, ids) && i < |presets|
    ensures BatchShape(presets[..i], ids[..i]) && BatchShape(presets[..i + 1], ids[..i + 1])
    ensures AddedBatch(presets[..i + 1], ids[..i + 1])
         == AddedBatch(presets[..i], ids[..i]) + NewQuests(Split(presets[i], Comma), ids[i])
  {
    BatchShapePrefix(presets, ids, i);
    BatchShapePrefix(presets, ids, i + 1);
    assert presets[..i + 1][..i] == presets[..i];
    assert ids[..i + 1][..i] == ids[..i];
  }

  /** The draw's effect on the pool, given the marking: identifiers stay
      unique, exactly the chosen entries gain the flag, and the history
      grows by one per chosen index. */
  lemma DrawOutcome(before: seq<Quest>, after: seq<Quest>, idx: seq<nat>)
    requires UniqueIds(before)
    requires IndexesBelow(idx, |Unselected(before)|) && Distinct(idx)
    requires MarkedFrom(before, after, idx)
    ensures UniqueIds(after) && |after| == |before|
    ensures forall k :: 0 <= k < |after| ==>
              after[k].id == before[k].id && after[k].name == before[k].name
              && after[k].selected == (before[k].selected || before[k].id in ChosenIds(before, idx))
    ensures SelectedCount(after) == SelectedCount(before) + |idx|
  {
    MarkedKeepsIds(before, after, idx);
    TargetsAreChosen(before, idx);
    TargetsCount(before, idx);
    TargetsInPool(before, idx);
    SelectedCountAfterMark(before, after, Targets(before, idx));
  }

  // ---------------------------------------------------------------------
  // The component state

  /** A scheduled `stopAnimation`: the indices chosen by its draw and the
      `quests` array its closure captured. That array holds the same entry
      objects the marking step mutated, so it reads as the marked pool. */
  datatype PendingStop = PendingStop(indexes: seq<nat>, captured: seq<Quest>)

  class App {
    var mainTitle: string
    var subTitle: string
    var drawCount: nat
    var selectedStrings: seq<Quest>
    var quests: seq<Quest>
    var input: string
    var openDialog: bool
    var isSpinning: bool
    var showConfetti: bool
    /** The `setTimeout` callbacks scheduled by `startAnimation` that have
        not fired yet, oldest first (all have the same delay, so they fire
        in that order). */
    var pendingStops: seq<PendingStop>

    ghost predicate Valid()
      reads this
    {
      && UniqueIds(quests)
      && forall i :: 0 <= i < |pendingStops| ==> IndexesBelow(pendingStops[i].indexes, |pendingStops[i].captured|)
    }

    /** The initial state of App.tsx:39-52. */
    constructor ()
      ensures Valid()
      ensures mainTitle == "抽選系統" && subTitle == "預備階段"
      ensures drawCount == 1 && selectedStrings == [] && quests == [] && input == ""
      ensures !openDialog && !isSpinning && !showConfetti
      ensures pendingStops == []
    {
      mainTitle, subTitle := "抽選系統", "預備階段";
      drawCount, selectedStrings := 1, [];
      quests, input := [], "";
      openDialog, isSpinning, showConfetti := false, false, false;
      pendingStops := [];
    }

    /** `setInput` of the text field. */
    method SetInput(value: string)
      modifies this`input
      ensures input == value
    {
      input := value;
    }

    /** `addQuest`: split on commas (pieces are not trimmed) and append one
        fresh unselected entry per piece after the existing ones. */
    method AddQuest(questName: string, ids: seq<Id>)
      requires Valid()
      requires |ids| == |Split(questName, Comma)| && FreshIds(ids, quests)
      modifies this`quests
      ensures Valid()
      ensures quests == old(quests) + NewQuests(Split(questName, Comma), ids)
    {
      var questNameArr := Split(questName, Comma);
      AddFreshKeepsUniqueIds(quests, questNameArr, ids);
      quests := quests + NewQuests(questNameArr, ids);
    }

    /** `handleAddQuestion`: `addQuest` for each preset string, in order. */
    method HandleAddQuestion(presets: seq<string>, ids: seq<seq<Id>>)
      requires Valid()
      requires BatchShape(presets, ids)
      requires FreshIds(Flatten(ids), quests)
      modifies this`quests
      ensures Valid()
      ensures quests == old(quests) + AddedBatch(presets, ids)
    {
      for i := 0 to |presets|
        invariant Valid()
        invariant BatchShape(presets[..i], ids[..i])
        invariant quests == old(quests) + AddedBatch(presets[..i], ids[..i])
        invariant FreshIds(Flatten(ids[i..]), quests)
      {
        BatchStep(old(quests), quests, presets, ids, i);
        AddQuest(presets[i], ids[i]);
      }
      assert presets[..|presets|] == presets;
      assert ids[..|ids|] == ids;
    }

    /** `handleClearSelectStrings`: empties the result only. */
    method HandleClearSelectStrings()
      modifies this`selectedStrings
      ensures selectedStrings == []
    {
      selectedStrings := [];
    }

    /** `handleAddString`: refuse input that is empty after trimming;
        otherwise add the pieces of the trimmed input and empty the field. */
    method HandleAddString(ids: seq<Id>) returns (notice: Notice)
      requires Valid()
      requires |ids| == (if Trim(input) == "" then 0 else |Split(Trim(input), Comma)|)
      requires FreshIds(ids, quests)
      modifies this`quests, this`input
      ensures Valid()
      ensures Trim(old(input)) == "" ==> notice == Failed && quests == old(quests) && input == old(input)
      ensures Trim(old(input)) != "" ==>
                && notice == Added(Trim(old(input)))
                && quests == old(quests) + NewQuests(Split(Trim(old(input)), Comma), ids)
                && input == ""
    {
      var trimmed := Trim(input);
      if trimmed != "" {
        AddQuest(trimmed, ids);
        input := "";
        notice := Added(trimmed);
      } else {
        notice := Failed;
      }
    }

    /** `startAnimation`: on an empty pool nothing happens. Otherwise the
        spin starts, the loop samples `min(drawCount, available)` distinct
        indices into the available view, the matching entries are marked
        selected in place, and one stop step is scheduled with the indices
        and the marked pool. */
    method StartAnimation(draws: seq<nat>) returns (selectedIndexes: seq<nat>)
      requires Valid()
      requires IndexesBelow(draws, |Unselected(quests)|)
      requires |Dedup(draws)| >= Min(drawCount, |Unselected(quests)|)
      modifies this`quests, this`isSpinning, this`showConfetti, this`pendingStops
      ensures Valid()
      ensures old(quests) == [] ==>
                && selectedIndexes == [] && quests == old(quests)
                && isSpinning == old(isSpinning) && showConfetti == old(showConfetti)
                && pendingStops == old(pendingStops)
      ensures old(quests) != [] ==>
                && isSpinning && !showConfetti
                && |selectedIndexes| == Min(drawCount, |Unselected(old(quests))|)
                && Distinct(selectedIndexes)
                && IndexesBelow(selectedIndexes, |Unselected(old(quests))|)
                && MarkedFrom(old(quests), quests, selectedIndexes)
                && |quests| == |old(quests)|
                && (forall k :: 0 <= k < |quests| ==>
                      && quests[k].id == old(quests)[k].id && quests[k].name == old(quests)[k].name
                      && quests[k].selected == (old(quests)[k].selected || old(quests)[k].id in ChosenIds(old(quests), selectedIndexes)))
                && SelectedCount(quests) == SelectedCount(old(quests)) + |selectedIndexes|
                && pendingStops == old(pendingStops) + [PendingStop(selectedIndexes, quests)]
    {
      if |quests| == 0 {
        return [];
      }
      showConfetti := false;
      isSpinning := true;
      var unselectedQuests := Unselected(quests);
      var consumed;
      selectedIndexes, consumed := SampleIndexes(drawCount, |unselectedQuests|, draws);
      var newQuests := MarkSelected(quests, selectedIndexes);
      DrawOutcome(quests, newQuests, selectedIndexes);
      quests := newQuests;
      pendingStops := pendingStops + [PendingStop(selectedIndexes, newQuests)];
    }

    /** `stopAnimation`, run by the oldest scheduled callback: the spin
        ends and, index by index, the entry at that index of the pool the
        callback captured is appended to the result. The callback is then
        spent. */
    method StopAnimation()
      requires Valid()
      requires pendingStops != []
      modifies this`isSpinning, this`showConfetti, this`selectedStrings, this`openDialog, this`pendingStops
      ensures Valid()
      ensures !isSpinning && showConfetti && openDialog
      ensures selectedStrings == old(selectedStrings) + Pick(old(pendingStops)[0].captured, old(pendingStops)[0].indexes)
      ensures pendingStops == old(pendingStops)[1..]
    {
      var stop := pendingStops[0];
      var capturedQuests, selectedIndexes := stop.captured, stop.indexes;
      pendingStops := pendingStops[1..];
      isSpinning := false;
      showConfetti := true;
      for j := 0 to |selectedIndexes|
        invariant !isSpinning && showConfetti && pendingStops == old(pendingStops)[1..]
        invariant selectedStrings == old(selectedStrings) + Pick(capturedQuests, selectedIndexes[..j])
      {
        selectedStrings := selectedStrings + [capturedQuests[selectedIndexes[j]]];
        assert selectedIndexes[..j + 1][..j] == selectedIndexes[..j];
      }
      assert selectedIndexes[..|selectedIndexes|] == selectedIndexes;
      openDialog := true;
    }

    /** The remove button of the dataset dialog. */
    method RemoveQuest(id: Id)
      requires Valid()
      modifies this`quests
      ensures Valid()
      ensures quests == RemoveById(old(quests), id)
    {
      RemoveByIdKeepsUniqueIds(quests, id);
      quests := RemoveById(quests, id);
    }

    /** The clear button of the dataset: empties the pool and nothing else. */
    method ClearQuests()
      requires Valid()
      modifies this`quests
      ensures Valid()
      ensures quests == []
    {
      quests := [];
    }

    /** The title inputs and the draw-count input of the settings drawer. */
    method SetMainTitle(value: string)
      modifies this`mainTitle
      ensures mainTitle == value
    {
      mainTitle := value;
    }

    method SetSubTitle(value: string)
      modifies this`subTitle
      ensures subTitle == value
    {
      subTitle := value;
    }

    method SetDrawCount(value: nat)
      modifies this`drawCount
      ensures drawCount == value
    {
      drawCount := value;
    }
  }

  /** One round as the button drives it: a start on a non-empty pool with
      nothing scheduled, then the stop it scheduled. Exactly the picks of
      that draw are appended to the result, once, and nothing stays
      scheduled. */
  method DrawRound(a: App, draws: seq<nat>) returns (selectedIndexes: seq<nat>)
    requires a.Valid() && a.pendingStops == [] && a.quests != []
    requires IndexesBelow(draws, |Unselected(a.quests)|)
    requires |Dedup(draws)| >= Min(a.drawCount, |Unselected(a.quests)|)
    modifies a
    ensures a.Valid() && a.pendingStops == [] && !a.isSpinning
    ensures |selectedIndexes| == Min(a.drawCount, |Unselected(old(a.quests))|)
    ensures Distinct(selectedIndexes) && IndexesBelow(selectedIndexes, |Unselected(old(a.quests))|)
    ensures MarkedFrom(old(a.quests), a.quests, selectedIndexes)
    ensures a.selectedStrings == old(a.selectedStrings) + Pick(a.quests, selectedIndexes)
  {
    selectedIndexes := a.StartAnimation(draws);
    a.StopAnimation();
  }
}
