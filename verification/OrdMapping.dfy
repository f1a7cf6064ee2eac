/** Renumbering the vectors of a field when a sort moves its documents: from the old
    document order to the new one and back. */
module OrdMapping {

  predicate Ascending(s: seq<int>) { forall i, j :: 0 <= i < j < |s| ==> s[i] <= s[j] }

  predicate StrictlyAscending(s: seq<int>) { forall i, j :: 0 <= i < j < |s| ==> s[i] < s[j] }

  ghost predicate Distinct(s: seq<int>) { forall i, j :: 0 <= i < j < |s| ==> s[i] != s[j] }

  // ----- sorting

  function Insert(x: int, s: seq<int>): seq<int> {
    if s == [] || x <= s[0] then [x] + s else [s[0]] + Insert(x, s[1..])
  }

  lemma {:induction false} InsertElements(x: int, s: seq<int>)
    ensures multiset(Insert(x, s)) == multiset(s) + multiset{x}
    decreases |s|
  {
    if s != [] && x > s[0] {
      assert s == [s[0]] + s[1..];
      InsertElements(x, s[1..]);
    }
  }

  ghost predicate AtLeast(s: seq<int>, low: int) { forall i :: 0 <= i < |s| ==> low <= s[i] }

  lemma {:induction false} InsertAscends(x: int, s: seq<int>, low: int)
    requires Ascending(s) && AtLeast(s, low) && low <= x
    ensures Ascending(Insert(x, s)) && AtLeast(Insert(x, s), low)
    decreases |s|
  {
    if s != [] && x > s[0] { InsertAscends(x, s[1..], s[0]); }
  }

  function SortedOf(s: seq<int>): seq<int> {
    if s == [] then [] else Insert(s[0], SortedOf(s[1..]))
  }

  /** Inserting into a sorted list keeps it sorted and adds the element. */
  lemma {:induction false} InsertSorts(x: int, s: seq<int>)
    requires Ascending(s)
    ensures Ascending(Insert(x, s)) && multiset(Insert(x, s)) == multiset{x} + multiset(s)
  {
    InsertElements(x, s);
    InsertAscends(x, s, if s == [] || x <= s[0] then x else s[0]);
  }

  /** Sorting keeps the elements and puts them in order. */
  lemma {:induction false} Sorts(s: seq<int>)
    ensures Ascending(SortedOf(s)) && multiset(SortedOf(s)) == multiset(s)
    decreases |s|
  {
    if s != [] {
      assert s == [s[0]] + s[1..];
      Sorts(s[1..]);
      InsertSorts(s[0], SortedOf(s[1..]));
    }
  }

  lemma SameLength(s: seq<int>, t: seq<int>)
    requires multiset(s) == multiset(t)
    ensures |s| == |t|
  {
    assert |s| == |multiset(s)| && |t| == |multiset(t)|;
  }

  lemma {:induction false} DistinctCount(s: seq<int>, x: int)
    requires Distinct(s)
    ensures multiset(s)[x] <= 1
    decreases |s|
  {
    if s != [] {
      assert s == [s[0]] + s[1..];
      DistinctCount(s[1..], x);
      if x == s[0] { assert x !in s[1..]; }
    }
  }

  lemma TwoCopies(s: seq<int>, i: nat, j: nat)
    requires i < j < |s| && s[i] == s[j]
    ensures multiset(s)[s[i]] >= 2
  {
    assert s == s[..j] + s[j..];
    assert s[i] in s[..j] && s[j] in s[j..];
  }

  /** Sorting gives a strictly ascending list exactly if no element repeats. */
  lemma StrictIff(s: seq<int>, sorted: seq<int>)
    requires Ascending(sorted) && multiset(sorted) == multiset(s)
    ensures StrictlyAscending(sorted) <==> Distinct(s)
  {
    if Distinct(s) {
      forall i, j | 0 <= i < j < |sorted| ensures sorted[i] < sorted[j] {
        DistinctCount(s, sorted[i]);
        if sorted[i] == sorted[j] { TwoCopies(sorted, i, j); }
      }
    }
    if StrictlyAscending(sorted) {
      forall i, j | 0 <= i < j < |s| ensures s[i] != s[j] {
        DistinctCount(sorted, s[i]);
        if s[i] == s[j] { TwoCopies(s, i, j); }
      }
    }
  }

  // ----- the new document set

  class DocsWithFieldSet {
    var docs: seq<int>
    var lastDocId: int
    var finished: bool

    constructor ()
      ensures docs == [] && lastDocId == -1 && !finished
    {
      docs, lastDocId, finished := [], -1, false;
    }

    /** Documents must be added in order, and before the set is finished. */
    method Add(doc: int) returns (ok: bool)
      modifies this`docs, this`lastDocId
      ensures ok <==> doc > old(lastDocId) && !finished
      ensures if ok then docs == old(docs) + [doc] && lastDocId == doc else docs == old(docs) && lastDocId == old(lastDocId)
    {
      if doc <= lastDocId { return false; }
      if finished { return false; }
      docs, lastDocId := docs + [doc], doc;
      ok := true;
    }
  }

  // ----- the mapping

  function NewIds(oldDocs: seq<int>, oldToNew: int -> int): (ids: seq<int>)
    ensures |ids| == |oldDocs| && forall k :: 0 <= k < |ids| ==> ids[k] == oldToNew(oldDocs[k])
  {
    seq(|oldDocs|, k requires 0 <= k < |oldDocs| => oldToNew(oldDocs[k]))
  }

  /** Every id leads to an ordinal that has it. */
  ghost predicate Leads(m: map<int, nat>, ids: seq<int>, x: int) {
    x in m && m[x] < |ids| && ids[m[x]] == x
  }

  ghost predicate AllLead(m: map<int, nat>, ids: seq<int>) {
    forall x :: x in ids ==> Leads(m, ids, x)
  }

  /** Notes for every new id an old ordinal that has it. */
  method NoteIds(oldDocs: seq<int>, oldToNew: int -> int) returns (ids: seq<int>, m: map<int, nat>)
    ensures ids == NewIds(oldDocs, oldToNew) && AllLead(m, ids)
  {
    ids, m := [], map[];
    for k := 0 to |oldDocs|
      invariant |ids| == k && (forall j :: 0 <= j < k ==> ids[j] == oldToNew(oldDocs[j])) && AllLead(m, ids)
    {
      var id := oldToNew(oldDocs[k]);
      ghost var before, noted := ids, m;
      m := m[id := k];
      ids := ids + [id];
      forall x | x in ids ensures Leads(m, ids, x) {
        if x != id { assert x in before && Leads(noted, before, x); }
      }
    }
  }

  /** Each new ordinal leads to an old one with the same document. */
  ghost predicate NewToOld(ids: seq<int>, newIds: seq<int>, new2old: seq<nat>) {
    && |new2old| == |newIds|
    && forall n :: 0 <= n < |new2old| ==> new2old[n] < |ids| && ids[new2old[n]] == newIds[n]
  }

  /** Each old ordinal leads to a new one with the same document. */
  ghost predicate OldToNew(ids: seq<int>, newIds: seq<int>, old2new: seq<nat>) {
    && |old2new| == |ids|
    && forall k :: 0 <= k < |old2new| ==> old2new[k] < |newIds| && newIds[old2new[k]] == ids[k]
  }

  /** Where no two documents get the same id, the two tables undo each other. */
  lemma MutuallyInverse(ids: seq<int>, newIds: seq<int>, old2new: seq<nat>, new2old: seq<nat>)
    requires NewToOld(ids, newIds, new2old) && OldToNew(ids, newIds, old2new)
    requires Distinct(ids) && StrictlyAscending(newIds)
    ensures forall n :: 0 <= n < |new2old| ==> old2new[new2old[n]] == n
    ensures forall k :: 0 <= k < |old2new| ==> new2old[old2new[k]] == k
  {
    forall n | 0 <= n < |new2old| ensures old2new[new2old[n]] == n {
      assert newIds[old2new[new2old[n]]] == ids[new2old[n]] == newIds[n];
    }
    forall k | 0 <= k < |old2new| ensures new2old[old2new[k]] == k {
      assert ids[new2old[old2new[k]]] == newIds[old2new[k]] == ids[k];
    }
  }

  ghost predicate AllAbove(s: seq<int>, low: int) { forall i :: 0 <= i < |s| ==> low < s[i] }

  ghost predicate SameElements(ids: seq<int>, newIds: seq<int>) {
    |ids| == |newIds| && multiset(ids) == multiset(newIds)
  }

  lemma ElementOf(ids: seq<int>, newIds: seq<int>, n: nat)
    requires SameElements(ids, newIds) && n < |newIds|
    ensures newIds[n] in ids
  {
    assert newIds[n] in multiset(newIds);
  }

  /** The first n new ids have their place in the table from old to new. */
  ghost predicate Placed(m: map<int, nat>, ids: seq<int>, newIds: seq<int>, n: nat, table: seq<nat>) {
    && |table| == |ids| && n <= |newIds|
    && forall i :: 0 <= i < n ==> Leads(m, ids, newIds[i]) && table[m[newIds[i]]] == i
  }

  lemma PlacedStep(m: map<int, nat>, ids: seq<int>, newIds: seq<int>, n: nat, before: seq<nat>, after: seq<nat>)
    requires n < |newIds| && StrictlyAscending(newIds) && Leads(m, ids, newIds[n])
    requires Placed(m, ids, newIds, n, before) && after == before[m[newIds[n]] := n]
    ensures Placed(m, ids, newIds, n + 1, after)
  {
    forall i | 0 <= i < n + 1 ensures Leads(m, ids, newIds[i]) && after[m[newIds[i]]] == i {
      if i < n { assert ids[m[newIds[i]]] == newIds[i] < newIds[n] == ids[m[newIds[n]]]; }
    }
  }

  /** All placed, the table leads from old to new. */
  lemma PlacedAll(m: map<int, nat>, ids: seq<int>, newIds: seq<int>, table: seq<nat>)
    requires SameElements(ids, newIds) && Distinct(ids) && Placed(m, ids, newIds, |newIds|, table)
    ensures OldToNew(ids, newIds, table)
  {
    forall k | 0 <= k < |table| ensures table[k] < |newIds| && newIds[table[k]] == ids[k] {
      assert ids[k] in multiset(ids);
      var i :| 0 <= i < |newIds| && newIds[i] == ids[k];
      assert Leads(m, ids, newIds[i]);
    }
  }

  /** The first n new ids were added to the set, in order. */
  ghost predicate Added(docs0: seq<int>, last0: int, newIds: seq<int>, n: nat, docs: seq<int>, last: int) {
    && n <= |newIds| && docs == docs0 + newIds[..n]
    && StrictlyAscending(newIds[..n]) && AllAbove(newIds[..n], last0)
    && last == if n == 0 then last0 else newIds[n - 1]
  }

  lemma AddedStep(docs0: seq<int>, last0: int, newIds: seq<int>, n: nat, docs: seq<int>, last: int)
    requires n < |newIds| && Added(docs0, last0, newIds, n, docs, last)
    ensures newIds[n] > last ==> Added(docs0, last0, newIds, n + 1, docs + [newIds[n]], newIds[n])
    ensures newIds[n] <= last ==> !StrictlyAscending(newIds) || !AllAbove(newIds, last0)
  {
    if newIds[n] > last {
      var now := newIds[..n + 1];
      forall i | 0 <= i < n ensures now[i] <= last {
        assert newIds[..n][i] <= newIds[..n][n - 1];
      }
      forall i, j | 0 <= i < j < |now| ensures now[i] < now[j] {
        assert j < n ==> newIds[..n][i] < newIds[..n][j];
      }
      forall i | 0 <= i < |now| ensures last0 < now[i] {
        assert i < n ==> newIds[..n][i] > last0;
        assert n > 0 ==> newIds[..n][n - 1] > last0;
      }
    }
  }

  /** The ids can be added in order to a set whose last document is last0. */
  ghost predicate Addable(newIds: seq<int>, last0: int, finished: bool) {
    newIds == [] || (StrictlyAscending(newIds) && AllAbove(newIds, last0) && !finished)
  }

  /** Adds a new id to the set if one is asked for. */
  method AddDoc(newDocs: DocsWithFieldSet?, newIds: seq<int>, n: nat, ghost docs0: seq<int>, ghost last0: int) returns (ok: bool)
    requires n < |newIds| && (newDocs != null ==> Added(docs0, last0, newIds, n, newDocs.docs, newDocs.lastDocId))
    modifies newDocs
    ensures newDocs != null ==> newDocs.finished == old(newDocs.finished)
    ensures newDocs != null && ok ==> Added(docs0, last0, newIds, n + 1, newDocs.docs, newDocs.lastDocId) && !newDocs.finished
    ensures !ok ==> newDocs != null && !Addable(newIds, last0, newDocs.finished)
  {
    if newDocs == null { return true; }
    AddedStep(docs0, last0, newIds, n, newDocs.docs, newDocs.lastDocId);
    ok := newDocs.Add(newIds[n]);
  }

  /** Fills the tables that are asked for, in the order of the new ids. */
  method Fill(ghost ids: seq<int>, newIds: seq<int>, m: map<int, nat>, old2new: array?<nat>, new2old: array?<nat>,
              newDocs: DocsWithFieldSet?, ghost docs0: seq<int>, ghost last0: int) returns (ok: bool)
    requires AllLead(m, ids) && SameElements(ids, newIds)
    requires old2new != null ==> old2new.Length == |ids| && old2new != new2old
    requires new2old != null ==> new2old.Length == |ids|
    requires newDocs != null ==> docs0 == newDocs.docs && last0 == newDocs.lastDocId
    modifies old2new, new2old, newDocs
    ensures newDocs != null ==> newDocs.finished == old(newDocs.finished)
    ensures ok <==> (newDocs != null ==> Addable(newIds, last0, newDocs.finished))
    ensures ok && newDocs != null ==> newDocs.docs == docs0 + newIds
    ensures ok && new2old != null ==> NewToOld(ids, newIds, new2old[..])
    ensures ok && old2new != null && StrictlyAscending(newIds) ==> Placed(m, ids, newIds, |newIds|, old2new[..])
  {
    for n := 0 to |newIds|
      invariant newDocs != null ==> Added(docs0, last0, newIds, n, newDocs.docs, newDocs.lastDocId)
      invariant newDocs != null ==> newDocs.finished == old(newDocs.finished) && (n > 0 ==> !newDocs.finished)
      invariant new2old != null ==> NewToOld(ids, newIds[..n], new2old[..n])
      invariant old2new != null && StrictlyAscending(newIds) ==> Placed(m, ids, newIds, n, old2new[..])
    {
      ElementOf(ids, newIds, n);
      assert Leads(m, ids, newIds[n]);
      var currOldOrd := m[newIds[n]];
      if old2new != null {
        ghost var before := old2new[..];
        old2new[currOldOrd] := n;
        if StrictlyAscending(newIds) { PlacedStep(m, ids, newIds, n, before, old2new[..]); }
      }
      if new2old != null { new2old[n] := currOldOrd; }
      ok := AddDoc(newDocs, newIds, n, docs0, last0);
      if !ok { return; }
    }
    assert newIds[..|newIds|] == newIds;
    ok := true;
  }

  /** Maps old ordinals to new ones and back, filling the tables that are asked for. It
      fails only if the new documents are asked for and cannot be added in order, which is
      if two documents get the same id, one is not above those already in the set, or the
      set is finished. */
  method MapOldOrdToNewOrd(oldDocs: seq<int>, oldToNew: int -> int, old2new: array?<nat>, new2old: array?<nat>, newDocs: DocsWithFieldSet?)
    returns (ok: bool, ghost newIds: seq<int>)
    requires old2new != null ==> old2new.Length == |oldDocs| && old2new != new2old
    requires new2old != null ==> new2old.Length == |oldDocs|
    modifies old2new, new2old, newDocs
    ensures multiset(newIds) == multiset(NewIds(oldDocs, oldToNew)) && |newIds| == |oldDocs|
    ensures forall i, j :: 0 <= i < j < |newIds| ==> newIds[i] <= newIds[j]
    ensures StrictlyAscending(newIds) <==> Distinct(NewIds(oldDocs, oldToNew))
    ensures ok <==> (newDocs != null ==> Addable(newIds, old(newDocs.lastDocId), old(newDocs.finished)))
    ensures ok && newDocs != null ==> newDocs.docs == old(newDocs.docs) + newIds
    ensures ok && new2old != null ==>
              forall n :: 0 <= n < |oldDocs| ==> new2old[n] < |oldDocs| && oldToNew(oldDocs[new2old[n]]) == newIds[n]
    ensures ok && old2new != null && Distinct(NewIds(oldDocs, oldToNew)) ==>
              forall k :: 0 <= k < |oldDocs| ==> old2new[k] < |oldDocs| && newIds[old2new[k]] == oldToNew(oldDocs[k])
    ensures ok && new2old != null && old2new != null && Distinct(NewIds(oldDocs, oldToNew)) ==>
              && (forall n :: 0 <= n < |oldDocs| ==> new2old[n] < |oldDocs| && old2new[new2old[n]] == n)
              && (forall k :: 0 <= k < |oldDocs| ==> old2new[k] < |oldDocs| && new2old[old2new[k]] == k)
  {
    var ids, m := NoteIds(oldDocs, oldToNew);
    var sorted := SortedOf(ids);
    newIds := sorted;
    Sorts(ids);
    SameLength(ids, newIds);
    StrictIff(ids, newIds);
    ghost var docs0, last0 := if newDocs == null then [] else newDocs.docs, if newDocs == null then 0 else newDocs.lastDocId;
    ok := Fill(ids, sorted, m, old2new, new2old, newDocs, docs0, last0);
    if ok && old2new != null && Distinct(ids) {
      PlacedAll(m, ids, newIds, old2new[..]);
      if new2old != null { MutuallyInverse(ids, newIds, old2new[..], new2old[..]); }
    }
  }
}
