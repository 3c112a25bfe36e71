/** Ordered forests kept as parent, sibling and child links, and what splicing does to them. */
module Forest {

  /** The links of objects 1 to n; 0 stands for no object, and position 0 is unused. */
  datatype Links = Links(parent: seq<nat>, sibling: seq<nat>, child: seq<nat>)

  ghost predicate Sized(t: Links, n: nat) {
    |t.parent| == |t.sibling| == |t.child| == n + 1
  }

  /** Following siblings from `first` visits exactly `list` and then ends. */
  ghost predicate Chained(sibling: seq<nat>, first: nat, list: seq<nat>)
    decreases |list|
  {
    if list == [] then first == 0
    else first != 0 && first == list[0] && first < |sibling| && Chained(sibling, sibling[first], list[1..])
  }

  ghost predicate NoDuplicates(list: seq<nat>) {
    forall i, j :: 0 <= i < j < |list| ==> list[i] != list[j]
  }

  /** `kids[p]` lists the children of `p` in order: exactly the objects whose parent is `p`, each once. */
  ghost predicate IsForest(t: Links, n: nat, kids: seq<seq<nat>>) {
    && Sized(t, n) && |kids| == n + 1 && kids[0] == []
    && (forall o :: 1 <= o <= n ==> t.parent[o] <= n)
    && (forall p :: 1 <= p <= n ==> Chained(t.sibling, t.child[p], kids[p]) && NoDuplicates(kids[p]))
    && (forall p, i :: 1 <= p <= n && 0 <= i < |kids[p]| ==> 1 <= kids[p][i] <= n && t.parent[kids[p][i]] == p)
    && (forall o :: 1 <= o <= n && t.parent[o] != 0 ==> o in kids[t.parent[o]])
  }

  /** A list without duplicates of numbers 1 to n has at most n members. */
  lemma {:induction false} AtMost(list: seq<nat>, n: nat)
    requires NoDuplicates(list) && forall i :: 0 <= i < |list| ==> 1 <= list[i] <= n
    ensures |list| <= n
    decreases n
  {
    if list != [] {
      assert 1 <= list[0] <= n;
      if n in list {
        var k :| 0 <= k < |list| && list[k] == n;
        AtMost(list[..k] + list[k + 1..], n - 1);
      } else {
        AtMost(list, n - 1);
      }
    }
  }

  ghost function IndexOf(list: seq<nat>, o: nat): (k: nat)
    requires o in list
    ensures k < |list| && list[k] == o && o !in list[..k]
  {
    if list[0] == o then 0 else 1 + IndexOf(list[1..], o)
  }

  /** `list` without its first occurrence of `o`. */
  ghost function Without(list: seq<nat>, o: nat): seq<nat> {
    if o in list then list[..IndexOf(list, o)] + list[IndexOf(list, o) + 1..] else list
  }

  lemma {:induction false} ChainEnds(sibling: seq<nat>, first: nat, list: seq<nat>, k: nat)
    requires Chained(sibling, first, list) && k < |list|
    ensures 0 < list[k] < |sibling|
    ensures sibling[list[k]] == if k + 1 < |list| then list[k + 1] else 0
    decreases |list|
  {
    if k > 0 {
      ChainEnds(sibling, sibling[first], list[1..], k - 1);
    } else if |list| > 1 {
      assert list[1] == list[1..][0];
    }
  }

  /** A chain depends on the siblings of its members only. */
  lemma {:induction false} ChainKept(sibling: seq<nat>, first: nat, list: seq<nat>, x: nat, v: nat)
    requires Chained(sibling, first, list) && x < |sibling| && x !in list
    ensures Chained(sibling[x := v], first, list)
    decreases |list|
  {
    if list != [] {
      ChainKept(sibling, sibling[first], list[1..], x, v);
    }
  }

  lemma {:induction false} ChainTail(sibling: seq<nat>, first: nat, list: seq<nat>, k: nat)
    requires Chained(sibling, first, list) && k < |list|
    ensures list[k] < |sibling| && Chained(sibling, sibling[list[k]], list[k + 1..])
    decreases |list|
  {
    if k > 0 {
      ChainTail(sibling, sibling[first], list[1..], k - 1);
      assert list[1..][k..] == list[k + 1..];
    }
  }

  /** Redirecting the link that leads to member `k` of a chain to the member after it takes the
      member out and leaves the rest in order. */
  lemma {:induction false} ChainSpliced(sibling: seq<nat>, first: nat, list: seq<nat>, k: nat)
    requires Chained(sibling, first, list) && NoDuplicates(list) && 0 < k < |list|
    ensures list[k - 1] < |sibling| && list[k] < |sibling|
    ensures Chained(sibling[list[k - 1] := sibling[list[k]]], first, list[..k] + list[k + 1..])
    decreases |list|
  {
    ChainEnds(sibling, first, list, k);
    ChainEnds(sibling, first, list, k - 1);
    var sib := sibling[list[k - 1] := sibling[list[k]]];
    var rest := list[..k] + list[k + 1..];
    assert rest[1..] == list[1..][..k - 1] + list[1..][k..];
    if k == 1 {
      ChainTail(sibling, first, list, 1);
      ChainKept(sibling, sibling[list[1]], list[2..], first, sibling[list[1]]);
      assert rest[1..] == list[2..];
    } else {
      ChainSpliced(sibling, sibling[first], list[1..], k - 1);
    }
  }

  // ----- taking an object out and putting it in

  /** The links after the one that leads to `o` in its parent's chain is redirected past it. */
  ghost function Unlinked(t: Links, n: nat, kids: seq<seq<nat>>, o: nat): Links
    requires IsForest(t, n, kids) && 1 <= o <= n
  {
    var p := t.parent[o];
    if p == 0 then t
    else
      var k := IndexOf(kids[p], o);
      if k == 0 then t.(child := t.child[p := t.sibling[o]])
      else
        assert kids[p][k - 1] in kids[p];
        t.(sibling := t.sibling[kids[p][k - 1] := t.sibling[o]])
  }

  ghost function WithoutChild(kids: seq<seq<nat>>, p: nat, o: nat): seq<seq<nat>>
    requires p < |kids|
  {
    if p == 0 then kids else kids[p := Without(kids[p], o)]
  }

  lemma WithoutMembers(list: seq<nat>, o: nat)
    requires NoDuplicates(list)
    ensures NoDuplicates(Without(list, o)) && o !in Without(list, o)
    ensures forall x :: x in Without(list, o) <==> x in list && x != o
  {
    if o in list {
      var k := IndexOf(list, o);
      var rest := Without(list, o);
      forall x | x in list && x != o ensures x in rest {
        var i :| 0 <= i < |list| && list[i] == x;
        assert x == if i < k then rest[i] else rest[i - 1];
      }
    }
  }

  lemma DetachedMember(t: Links, n: nat, kids: seq<seq<nat>>, o: nat, q: nat, i: nat)
    requires IsForest(t, n, kids) && 1 <= o <= n && t.parent[o] != 0 && 1 <= q <= n
    requires i < |WithoutChild(kids, t.parent[o], o)[q]|
    ensures var x := WithoutChild(kids, t.parent[o], o)[q][i];
      1 <= x <= n && x != o && t.parent[x] == q
  {
    var p := t.parent[o];
    if q == p {
      WithoutMembers(kids[p], o);
      var x := Without(kids[p], o)[i];
      assert x in Without(kids[p], o);
      var j :| 0 <= j < |kids[p]| && kids[p][j] == x;
    }
  }

  lemma DetachedListed(t: Links, n: nat, kids: seq<seq<nat>>, o: nat, x: nat)
    requires IsForest(t, n, kids) && 1 <= o <= n && t.parent[o] != 0
    requires 1 <= x <= n && x != o && t.parent[x] != 0
    ensures x in WithoutChild(kids, t.parent[o], o)[t.parent[x]]
  {
    WithoutMembers(kids[t.parent[o]], o);
  }

  /** Once unlinked and orphaned, an object is in no child list; every other list is unchanged and
      its old parent's list has lost it and nothing else. */
  lemma DetachedForest(t: Links, n: nat, kids: seq<seq<nat>>, o: nat)
    requires IsForest(t, n, kids) && 1 <= o <= n
    ensures IsForest(Unlinked(t, n, kids, o).(parent := t.parent[o := 0]), n, WithoutChild(kids, t.parent[o], o))
    ensures forall q :: 1 <= q <= n ==> o !in WithoutChild(kids, t.parent[o], o)[q]
  {
    var p := t.parent[o];
    if p == 0 {
      assert t.parent[o := 0] == t.parent;
    } else {
      var kids' := WithoutChild(kids, p, o);
      WithoutMembers(kids[p], o);
      forall q, i | 1 <= q <= n && 0 <= i < |kids'[q]|
        ensures 1 <= kids'[q][i] <= n && kids'[q][i] != o && t.parent[kids'[q][i]] == q
      {
        DetachedMember(t, n, kids, o, q, i);
      }
      forall x | 1 <= x <= n && x != o && t.parent[x] != 0 ensures x in kids'[t.parent[x]] {
        DetachedListed(t, n, kids, o, x);
      }
      forall q | 1 <= q <= n
        ensures Chained(Unlinked(t, n, kids, o).sibling, Unlinked(t, n, kids, o).child[q], kids'[q])
      {
        DetachedChain(t, n, kids, o, q);
      }
    }
  }

  lemma DetachedChain(t: Links, n: nat, kids: seq<seq<nat>>, o: nat, q: nat)
    requires IsForest(t, n, kids) && 1 <= o <= n && t.parent[o] != 0 && 1 <= q <= n
    ensures var u := Unlinked(t, n, kids, o);
      Chained(u.sibling, u.child[q], WithoutChild(kids, t.parent[o], o)[q])
  {
    var p := t.parent[o];
    var k := IndexOf(kids[p], o);
    if k == 0 {
      if q == p {
        assert Without(kids[p], o) == kids[p][1..];
        ChainTail(t.sibling, t.child[p], kids[p], 0);
      }
    } else if q == p {
      ChainSpliced(t.sibling, t.child[p], kids[p], k);
    } else {
      var before := kids[p][k - 1];
      assert before in kids[p];
      ChainKept(t.sibling, t.child[q], kids[q], before, t.sibling[o]);
    }
  }

  /** The links after object `o` moved to the head of `d`'s children. */
  ghost function Attached(t: Links, o: nat, d: nat): Links
    requires o < |t.parent| && o < |t.sibling| && d < |t.child|
  {
    Links(t.parent[o := d], t.sibling[o := t.child[d]], t.child[d := o])
  }

  lemma AttachedForest(t: Links, n: nat, kids: seq<seq<nat>>, o: nat, d: nat)
    requires IsForest(t, n, kids) && 1 <= o <= n && 1 <= d <= n
    requires t.parent[o] == 0 && forall q :: 1 <= q <= n ==> o !in kids[q]
    ensures IsForest(Attached(t, o, d), n, kids[d := [o] + kids[d]])
  {
    var u := Attached(t, o, d);
    var kids' := kids[d := [o] + kids[d]];
    forall x | 1 <= x <= n && u.parent[x] != 0 ensures x in kids'[u.parent[x]] {
      if x == o {
        assert kids'[d][0] == o;
      } else {
        assert x in kids[t.parent[x]];
      }
    }
    forall q | 1 <= q <= n ensures Chained(u.sibling, u.child[q], kids'[q]) {
      ChainKept(t.sibling, t.child[q], kids[q], o, t.child[d]);
      if q == d {
        assert kids'[d][1..] == kids[d];
      }
    }
  }

  lemma OrphanSiblingFree(t: Links, n: nat, kids: seq<seq<nat>>, o: nat, v: nat)
    requires IsForest(t, n, kids) && 1 <= o <= n
    requires forall q :: 1 <= q <= n ==> o !in kids[q]
    ensures IsForest(t.(sibling := t.sibling[o := v]), n, kids)
  {
    forall q | 1 <= q <= n ensures Chained(t.sibling[o := v], t.child[q], kids[q]) {
      ChainKept(t.sibling, t.child[q], kids[q], o, v);
    }
  }

  // ----- ancestors

  /** The ancestor `k` levels above `o`; above a parentless object there is only 0. */
  ghost function Up(parent: seq<nat>, o: nat, k: nat): nat
    decreases k
  {
    if k == 0 then o else if o == 0 || |parent| <= o then 0 else Up(parent, parent[o], k - 1)
  }

  /** Climbing from `o` ends at a parentless object. */
  ghost predicate Grounded(parent: seq<nat>, o: nat) {
    exists k: nat :: Up(parent, o, k) == 0
  }

  ghost predicate Acyclic(parent: seq<nat>, n: nat) {
    forall o :: 1 <= o <= n ==> Grounded(parent, o)
  }

  /** `x` is `root` or lies below it. */
  ghost predicate InSubtree(parent: seq<nat>, x: nat, root: nat) {
    exists k: nat :: Up(parent, x, k) == root
  }

  lemma {:induction false} NothingAboveNothing(parent: seq<nat>, k: nat)
    ensures Up(parent, 0, k) == 0
  {
  }

  lemma {:induction false} MovedIntoItself(parent: seq<nat>, o: nat, d: nat, m: nat, x: nat, j: nat, k: nat)
    requires 0 < o < |parent| && Up(parent, d, m) == o && Up(parent, x, j) == o
    ensures Up(parent[o := d], x, k) != 0
    decreases k
  {
    NothingAboveNothing(parent, j);
    if k > 0 && x < |parent| {
      if x == o {
        MovedIntoItself(parent, o, d, m, d, m, k - 1);
      } else if j > 0 {
        MovedIntoItself(parent, o, d, m, parent[x], j - 1, k - 1);
      }
    }
  }

  lemma StepUp(parent: seq<nat>, x: nat, k: nat)
    requires 0 < x < |parent|
    ensures Up(parent, x, k + 1) == Up(parent, parent[x], k)
  {
  }

  /** Climbing from outside the subtree of `o` does not notice that `o` moved. */
  lemma {:induction false} OutsideUnaffected(parent: seq<nat>, o: nat, d: nat, x: nat, k: nat)
    requires o < |parent| && !InSubtree(parent, x, o)
    ensures Up(parent[o := d], x, k) == Up(parent, x, k)
    decreases k
  {
    assert Up(parent, x, 0) == x != o;
    if k > 0 && x != 0 && x < |parent| {
      forall j: nat ensures Up(parent, parent[x], j) != o {
        StepUp(parent, x, j);
      }
      OutsideUnaffected(parent, o, d, parent[x], k - 1);
    }
  }

  /** With the destination grounded, everything stays grounded. */
  lemma {:induction false} StillGrounded(parent: seq<nat>, o: nat, d: nat, below: nat, x: nat, k: nat)
    requires 0 < o < |parent| && Up(parent, x, k) == 0 && Up(parent[o := d], d, below) == 0
    ensures Grounded(parent[o := d], x)
    decreases k
  {
    var after := parent[o := d];
    if x == 0 {
      assert Up(after, x, 0) == 0;
    } else if |parent| <= x {
      assert Up(after, x, 1) == 0;
    } else if x == o {
      StepUp(after, o, below);
    } else {
      StillGrounded(parent, o, d, below, parent[x], k - 1);
      var j: nat :| Up(after, parent[x], j) == 0;
      StepUp(after, x, j);
    }
  }

  /** Moving `o` under `d` keeps the parent relation acyclic exactly when `d` is neither `o` nor
      below it. */
  lemma MoveKeepsAcyclicIff(parent: seq<nat>, n: nat, o: nat, d: nat)
    requires |parent| == n + 1 && Acyclic(parent, n) && 1 <= o <= n && 1 <= d <= n
    ensures Acyclic(parent[o := d], n) <==> !InSubtree(parent, d, o)
  {
    var after := parent[o := d];
    if InSubtree(parent, d, o) {
      var m: nat :| Up(parent, d, m) == o;
      forall k: nat ensures Up(after, d, k) != 0 {
        MovedIntoItself(parent, o, d, m, d, m, k);
      }
      assert !Grounded(after, d);
    } else {
      assert Grounded(parent, d);
      var below: nat :| Up(parent, d, below) == 0;
      OutsideUnaffected(parent, o, d, d, below);
      forall x | 1 <= x <= n ensures Grounded(after, x) {
        assert Grounded(parent, x);
        var k: nat :| Up(parent, x, k) == 0;
        StillGrounded(parent, o, d, below, x, k);
      }
    }
  }

  /** Orphaning an object keeps the parent relation acyclic. */
  lemma OrphanKeepsAcyclic(parent: seq<nat>, n: nat, o: nat)
    requires |parent| == n + 1 && Acyclic(parent, n) && 1 <= o <= n
    ensures Acyclic(parent[o := 0], n)
  {
    var after := parent[o := 0];
    assert Up(after, 0, 0) == 0;
    forall x | 1 <= x <= n ensures Grounded(after, x) {
      assert Grounded(parent, x);
      var k: nat :| Up(parent, x, k) == 0;
      StillGrounded(parent, o, 0, 0, x, k);
    }
  }
}
