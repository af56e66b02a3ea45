/** The intrusive doubly linked free lists of the page-frame table (kernel/mm/pmm.c:85-139). */
module PfnLinks {
  import opened Base
  import opened FreeLists

  type Links = seq<Option<nat>>

  /** The links of entry `i` of a list. */
  ghost predicate LinkAt(next: Links, prev: Links, l: seq<nat>, i: nat)
    requires i < |l|
  {
    && l[i] < |next| && l[i] < |prev|
    && next[l[i]] == (if i + 1 < |l| then Some(l[i + 1]) else None)
    && prev[l[i]] == (if i > 0 then Some(l[i - 1]) else None)
  }

  ghost predicate Linked(head: Option<nat>, next: Links, prev: Links, l: seq<nat>) {
    && head == (if l == [] then None else Some(l[0]))
    && forall i :: 0 <= i < |l| ==> LinkAt(next, prev, l, i)
  }

  ghost predicate LinksOk(heads: map<Slot, Option<nat>>, next: Links, prev: Links, lists: map<Slot, seq<nat>>) {
    && heads.Keys == lists.Keys
    && forall s :: s in lists ==> Linked(heads[s], next, prev, lists[s])
  }

  /** No frame is on two lists, or twice on one. */
  ghost predicate Apart(lists: map<Slot, seq<nat>>) {
    && (forall s :: s in lists ==> NoDup(lists[s]))
    && (forall s, t, p :: s in lists && t in lists && p in lists[s] && p in lists[t] ==> s == t)
  }

  function Drop(l: seq<nat>, i: nat): seq<nat>
    requires i < |l|
  {
    l[..i] + l[i + 1..]
  }

  /** Changing the links of frames on one list leaves every other list alone. */
  lemma OtherLinked(head: Option<nat>, next: Links, prev: Links, next': Links, prev': Links, l: seq<nat>)
    requires Linked(head, next, prev, l) && |next'| == |next| && |prev'| == |prev|
    requires forall p :: p in l && p < |next| && p < |prev| ==> next'[p] == next[p] && prev'[p] == prev[p]
    ensures Linked(head, next', prev', l)
  {
    forall i | 0 <= i < |l| ensures LinkAt(next', prev', l, i) {
      assert LinkAt(next, prev, l, i) && l[i] in l;
    }
  }

  /** `list_push`. */
  lemma PushLinked(head: Option<nat>, next: Links, prev: Links, l: seq<nat>, p: nat)
    requires Linked(head, next, prev, l) && NoDup(l) && p !in l && p < |next| && p < |prev|
    requires head.Some? ==> head.value < |prev|
    ensures var prev1 := prev[p := None];
      Linked(Some(p), next[p := head], if head.Some? then prev1[head.value := Some(p)] else prev1, [p] + l)
  {
    var prev1 := prev[p := None];
    var next', prev' := next[p := head], if head.Some? then prev1[head.value := Some(p)] else prev1;
    var l' := [p] + l;
    forall i | 0 <= i < |l'| ensures LinkAt(next', prev', l', i) {
      if i > 0 {
        assert LinkAt(next, prev, l, i - 1);
        assert l'[i] == l[i - 1] && l[i - 1] in l;
      }
    }
  }

  /** `list_remove` of the entry at index `i`. */
  lemma RemoveLinked(head: Option<nat>, next: Links, prev: Links, l: seq<nat>, i: nat)
    requires Linked(head, next, prev, l) && NoDup(l) && i < |l|
    ensures LinkAt(next, prev, l, i)
    ensures var e := l[i];
      var p, n := prev[e], next[e];
      && (p.Some? ==> p.value < |next|) && (n.Some? ==> n.value < |prev|)
      && var next1, prev1 := if p.Some? then next[p.value := n] else next, if n.Some? then prev[n.value := p] else prev;
         Linked(if p.Some? then head else n, next1[e := None], prev1[e := None], Drop(l, i))
  {
    assert LinkAt(next, prev, l, i);
    var e := l[i];
    var p, n := prev[e], next[e];
    if i > 0 {
      assert LinkAt(next, prev, l, i - 1);
    }
    if i + 1 < |l| {
      assert LinkAt(next, prev, l, i + 1);
    }
    var next1, prev1 := if p.Some? then next[p.value := n] else next, if n.Some? then prev[n.value := p] else prev;
    var cut, next2, prev2 := Drop(l, i), next1[e := None], prev1[e := None];
    forall j | 0 <= j < |cut| ensures LinkAt(next2, prev2, cut, j) {
      var k := if j < i then j else j + 1;
      assert LinkAt(next, prev, l, k) && cut[j] == l[k];
    }
  }

  /** Removing a frame by value is dropping it at its index. */
  lemma {:induction false} WithoutIsDrop(l: seq<nat>, i: nat)
    requires NoDup(l) && i < |l|
    ensures Without(l, l[i]) == Drop(l, i)
  {
    if i > 0 {
      assert forall j :: 0 <= j < |l[1..]| ==> l[1..][j] == l[j + 1];
      WithoutIsDrop(l[1..], i - 1);
      assert Drop(l, i) == [l[0]] + Drop(l[1..], i - 1);
    }
  }

  lemma ListsApart(pfns: seq<Pfn>, lists: map<Slot, seq<nat>>)
    requires ListsOk(pfns, lists)
    ensures Apart(lists)
  {
    forall s | s in lists ensures NoDup(lists[s]) {
      assert OnList(pfns, s, lists[s]);
    }
    forall s, t, p | s in lists && t in lists && p in lists[s] && p in lists[t] ensures s == t {
      assert OnList(pfns, s, lists[s]) && OnList(pfns, t, lists[t]);
    }
  }

  lemma PushLinks(heads: map<Slot, Option<nat>>, next: Links, prev: Links, lists: map<Slot, seq<nat>>, s: Slot, p: nat)
    requires LinksOk(heads, next, prev, lists) && Apart(lists) && s in lists && p < |next| && p < |prev|
    requires forall t :: t in lists ==> p !in lists[t]
    ensures heads[s].Some? ==> heads[s].value < |prev|
    ensures var prev1 := prev[p := None];
      LinksOk(heads[s := Some(p)], next[p := heads[s]], if heads[s].Some? then prev1[heads[s].value := Some(p)]
          else prev1,
              lists[s := [p] + lists[s]])
  {
    hide Linked;
    HeadBound(heads, next, prev, lists, s);
    PushLinked(heads[s], next, prev, lists[s], p);
    var prev1 := prev[p := None];
    var next', prev' := next[p := heads[s]], if heads[s].Some? then prev1[heads[s].value := Some(p)] else prev1;
    forall t | t in lists && t != s ensures Linked(heads[t], next', prev', lists[t]) {
      assert heads[s].Some? ==> heads[s].value in lists[s];
      OtherLinked(heads[t], next, prev, next', prev', lists[t]);
    }
  }

  lemma HeadBound(heads: map<Slot, Option<nat>>, next: Links, prev: Links, lists: map<Slot, seq<nat>>, s: Slot)
    requires LinksOk(heads, next, prev, lists) && s in lists
    ensures heads[s].Some? <==> lists[s] != []
    ensures heads[s].Some? ==> heads[s].value == lists[s][0] < |prev|
  {
    assert Linked(heads[s], next, prev, lists[s]);
    if lists[s] != [] {
      assert LinkAt(next, prev, lists[s], 0);
    }
  }

  /** The links after `list_remove` of `e`. */
  function NextWithout(next: Links, prev: Links, e: nat): Links
    requires e < |next| && e < |prev| && (prev[e].Some? ==> prev[e].value < |next|)
  {
    (if prev[e].Some? then next[prev[e].value := next[e]] else next)[e := None]
  }

  function PrevWithout(next: Links, prev: Links, e: nat): Links
    requires e < |next| && e < |prev| && (next[e].Some? ==> next[e].value < |prev|)
  {
    (if next[e].Some? then prev[next[e].value := prev[e]] else prev)[e := None]
  }

  lemma RemoveLinks(heads: map<Slot, Option<nat>>, next: Links, prev: Links, lists: map<Slot, seq<nat>>, s: Slot,
                    e: nat)
    requires LinksOk(heads, next, prev, lists) && Apart(lists) && s in lists && e in lists[s]
    ensures e < |next| && e < |prev|
    ensures (prev[e].Some? ==> prev[e].value < |next|) && (next[e].Some? ==> next[e].value < |prev|)
    ensures LinksOk(if prev[e].Some? then heads
              else heads[s := next[e]], NextWithout(next, prev, e), PrevWithout(next, prev, e),
                    lists[s := Without(lists[s], e)])
  {
    hide Linked, Without, Drop, NoDup;
    var i :| 0 <= i < |lists[s]| && lists[s][i] == e;
    RemoveLinked(heads[s], next, prev, lists[s], i);
    WithoutIsDrop(lists[s], i);
    Neighbours(heads[s], next, prev, lists[s], i);
    var next', prev' := NextWithout(next, prev, e), PrevWithout(next, prev, e);
    forall t | t in lists && t != s ensures Linked(heads[t], next', prev', lists[t]) {
      OtherLinked(heads[t], next, prev, next', prev', lists[t]);
    }
  }

  lemma Neighbours(head: Option<nat>, next: Links, prev: Links, l: seq<nat>, i: nat)
    requires Linked(head, next, prev, l) && i < |l|
    ensures LinkAt(next, prev, l, i)
    ensures prev[l[i]].Some? ==> prev[l[i]].value in l
    ensures next[l[i]].Some? ==> next[l[i]].value in l
  {
    assert LinkAt(next, prev, l, i);
  }
}
