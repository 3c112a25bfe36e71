/** The object table: nine-byte records whose fifth to seventh bytes link the object tree. */
module Objects {
  import opened Bytes
  import opened ZState
  import F = Forest

  const DEFAULTS_BYTES: nat := 62
  const RECORD_BYTES: nat := 9
  const PARENT: nat := 4
  const SIBLING: nat := 5
  const CHILD: nat := 6
  const PROPERTIES: nat := 7

  function RecordAddress(objtab: nat, id: nat): nat
    requires id >= 1
  {
    objtab + DEFAULTS_BYTES + 9 * (id - 1)
  }

  /** Object 0 and numbers beyond 255 make the interpreter die. */
  function ObjectPtr(objtab: nat, id: word): Outcome<nat> {
    if id == 0 || id > 255 then Stop(Died) else Ok(RecordAddress(objtab, id))
  }

  function ByteAt(story: seq<byte>, a: nat): Outcome<byte> {
    if a < |story| then Ok(story[a]) else Stop(Undefined)
  }

  function WithByte(story: seq<byte>, a: nat, v: byte): (r: Outcome<seq<byte>>)
    ensures r.Ok? ==> |r.value| == |story|
  {
    if a < |story| then Ok(story[a := v]) else Stop(Undefined)
  }

  // ----- editing the tree

  /** Walk from the link byte at `ptr` along siblings to the link byte that names `id`. A walk of
      more steps than the story has bytes repeats itself and never ends. */
  function FindLink(story: seq<byte>, objtab: nat, ptr: nat, id: word, fuel: nat): Outcome<nat>
    decreases fuel
  {
    var b :- ByteAt(story, ptr);
    if b == id then Ok(ptr)
    else if fuel == 0 then Stop(Hung)
    else
      var next :- ObjectPtr(objtab, b);
      FindLink(story, objtab, next + SIBLING, id, fuel - 1)
  }

  /** Redirect the link that leads to an object past it. Its own record keeps its old parent and sibling. */
  function Unparent(story: seq<byte>, objtab: nat, id: word): (r: Outcome<seq<byte>>)
    ensures r.Ok? ==> |r.value| == |story|
  {
    var obj :- ObjectPtr(objtab, id);
    var parent :- ByteAt(story, obj + PARENT);
    if parent == 0 then Ok(story)
    else
      var parentptr :- ObjectPtr(objtab, parent);
      var link :- FindLink(story, objtab, parentptr + CHILD, id, |story|);
      var sibling :- ByteAt(story, obj + SIBLING);
      WithByte(story, link, sibling)
  }

  /** `insert_obj`: make `id` the first child of `dest`. */
  function InsertObj(story: seq<byte>, objtab: nat, id: word, dest: word): (r: Outcome<seq<byte>>)
    ensures r.Ok? ==> |r.value| == |story|
  {
    var obj :- ObjectPtr(objtab, id);
    var dst :- ObjectPtr(objtab, dest);
    var unlinked :- Unparent(story, objtab, id);
    var parented :- WithByte(unlinked, obj + PARENT, Lo(dest));
    var first :- ByteAt(parented, dst + CHILD);
    var chained :- WithByte(parented, obj + SIBLING, first);
    WithByte(chained, dst + CHILD, Lo(id))
  }

  /** `remove_obj`: take an object out of the tree. */
  function RemoveObj(story: seq<byte>, objtab: nat, id: word): (r: Outcome<seq<byte>>)
    ensures r.Ok? ==> |r.value| == |story|
  {
    var obj :- ObjectPtr(objtab, id);
    var unlinked :- Unparent(story, objtab, id);
    var orphaned :- WithByte(unlinked, obj + PARENT, 0);
    WithByte(orphaned, obj + SIBLING, 0)
  }

  // ----- walks that never end

  /** More fuel changes nothing once a walk has ended. */
  lemma {:induction false} FuelMonotone(story: seq<byte>, objtab: nat, ptr: nat, id: word, fuel: nat, more: nat)
    requires fuel <= more && FindLink(story, objtab, ptr, id, fuel) != Stop(Hung)
    ensures FindLink(story, objtab, ptr, id, more) == FindLink(story, objtab, ptr, id, fuel)
    decreases fuel
  {
    var b := ByteAt(story, ptr);
    if b.Ok? && b.value != id && fuel > 0 {
      var next := ObjectPtr(objtab, b.value);
      if next.Ok? {
        FuelMonotone(story, objtab, next.value + SIBLING, id, fuel - 1, more - 1);
      }
    }
  }

  lemma {:induction false} SmallSet(s: set<nat>, bound: nat)
    requires forall x :: x in s ==> x < bound
    ensures |s| <= bound
    decreases bound
  {
    if bound > 0 {
      SmallSet(s - {bound - 1}, bound - 1);
    } else {
      assert s == {};
    }
  }

  /** A walk that ends visits no address twice: the addresses in `seen`, from which it does not end in
      time, are not on its way, and with as much fuel as there are other addresses it ends. */
  lemma {:induction false} EndsSoon(story: seq<byte>, objtab: nat, ptr: nat, id: word, fuel: nat, seen: set<nat>, rest: nat)
    requires FindLink(story, objtab, ptr, id, fuel) != Stop(Hung)
    requires forall p :: p in seen ==> p < |story| && FindLink(story, objtab, p, id, fuel) == Stop(Hung)
    requires rest + |seen| == |story|
    ensures FindLink(story, objtab, ptr, id, rest) == FindLink(story, objtab, ptr, id, fuel)
    decreases fuel
  {
    if fuel <= rest {
      FuelMonotone(story, objtab, ptr, id, fuel, rest);
    } else {
      forall p | p in seen ensures FindLink(story, objtab, p, id, fuel - 1) == Stop(Hung) {
        if FindLink(story, objtab, p, id, fuel - 1) != Stop(Hung) {
          FuelMonotone(story, objtab, p, id, fuel - 1, fuel);
        }
      }
      if FindLink(story, objtab, ptr, id, fuel - 1) != Stop(Hung) {
        EndsSoon(story, objtab, ptr, id, fuel - 1, seen, rest);
        FuelMonotone(story, objtab, ptr, id, fuel - 1, fuel);
      } else {
        SmallSet(seen + {ptr}, |story|);
        var next := ObjectPtr(objtab, story[ptr]);
        EndsSoon(story, objtab, next.value + SIBLING, id, fuel - 1, seen + {ptr}, rest - 1);
      }
    }
  }

  /** A walk of as many steps as the story has bytes that has not ended never ends. */
  lemma HungNeverEnds(story: seq<byte>, objtab: nat, ptr: nat, id: word)
    ensures FindLink(story, objtab, ptr, id, |story|) == Stop(Hung)
       <==> forall fuel: nat :: FindLink(story, objtab, ptr, id, fuel) == Stop(Hung)
  {
    if fuel: nat :| FindLink(story, objtab, ptr, id, fuel) != Stop(Hung) {
      EndsSoon(story, objtab, ptr, id, fuel, {}, |story|);
    }
  }

  // ----- the tree the records stand for

  predicate HasObjects(story: seq<byte>, objtab: nat, n: nat) {
    n <= 255 && objtab + DEFAULTS_BYTES + 9 * n <= |story|
  }

  function FieldOf(story: seq<byte>, objtab: nat, n: nat, id: nat, field: nat): byte
    requires HasObjects(story, objtab, n) && 1 <= id <= n && field < RECORD_BYTES
  {
    story[RecordAddress(objtab, id) + field]
  }

  ghost function Column(story: seq<byte>, objtab: nat, n: nat, field: nat): seq<nat>
    requires HasObjects(story, objtab, n) && field < RECORD_BYTES
  {
    seq(n + 1, i requires 0 <= i <= n => if i == 0 then 0 else FieldOf(story, objtab, n, i, field))
  }

  /** The links kept in the records of objects 1 to n. */
  ghost function Tree(story: seq<byte>, objtab: nat, n: nat): F.Links
    requires HasObjects(story, objtab, n)
  {
    F.Links(Column(story, objtab, n, PARENT), Column(story, objtab, n, SIBLING), Column(story, objtab, n, CHILD))
  }

  /** The records of objects 1 to n link a forest whose child lists are `kids`. */
  ghost predicate HoldsForest(story: seq<byte>, objtab: nat, n: nat, kids: seq<seq<nat>>) {
    HasObjects(story, objtab, n) && F.IsForest(Tree(story, objtab, n), n, kids)
  }

  lemma ColumnSet(story: seq<byte>, objtab: nat, n: nat, id: nat, field: nat, v: byte, other: nat)
    requires HasObjects(story, objtab, n) && 1 <= id <= n && field < RECORD_BYTES && other < RECORD_BYTES
    ensures var a := RecordAddress(objtab, id) + field;
      && a < |story|
      && Column(story[a := v], objtab, n, other) ==
         if other == field then Column(story, objtab, n, other)[id := v] else Column(story, objtab, n, other)
  {
  }

  /** Storing a link byte of a record changes that one link of the tree. */
  lemma TreeSet(story: seq<byte>, objtab: nat, n: nat, id: nat, field: nat, v: byte)
    requires HasObjects(story, objtab, n) && 1 <= id <= n && PARENT <= field <= CHILD
    ensures var a := RecordAddress(objtab, id) + field;
      var t := Tree(story, objtab, n);
      && a < |story| && HasObjects(story[a := v], objtab, n)
      && Tree(story[a := v], objtab, n) ==
         if field == PARENT then t.(parent := t.parent[id := v])
         else if field == SIBLING then t.(sibling := t.sibling[id := v])
         else t.(child := t.child[id := v])
  {
    ColumnSet(story, objtab, n, id, field, v, PARENT);
    ColumnSet(story, objtab, n, id, field, v, SIBLING);
    ColumnSet(story, objtab, n, id, field, v, CHILD);
  }

  // ----- unlinking

  /** On a chain, the walk ends at the link that names the object; it never meets object 0. */
  lemma {:induction false} FindLinkFinds(story: seq<byte>, objtab: nat, n: nat, ptr: nat, id: word,
                                         list: seq<nat>, k: nat, fuel: nat)
    requires HasObjects(story, objtab, n) && ptr < |story|
    requires F.Chained(Column(story, objtab, n, SIBLING), story[ptr], list)
    requires k < |list| && list[k] == id && id !in list[..k] && k <= fuel
    ensures k > 0 ==> 1 <= list[k - 1] <= n
    ensures FindLink(story, objtab, ptr, id, fuel) ==
            Ok(if k == 0 then ptr else RecordAddress(objtab, list[k - 1]) + SIBLING)
    decreases fuel
  {
    var sibling := Column(story, objtab, n, SIBLING);
    var first := story[ptr];
    if k > 0 {
      assert list[..k][0] == first;
      var next := RecordAddress(objtab, first) + SIBLING;
      assert sibling[first] == story[next];
      assert list[1..][..k - 1] == list[..k][1..];
      FindLinkFinds(story, objtab, n, next, id, list[1..], k - 1, fuel - 1);
    }
  }

  /** The address of the link byte that leads to a child. */
  ghost function LinkAddress(story: seq<byte>, objtab: nat, n: nat, kids: seq<seq<nat>>, id: nat): (a: nat)
    requires HoldsForest(story, objtab, n, kids) && 1 <= id <= n
    requires Tree(story, objtab, n).parent[id] != 0
    ensures a < |story|
  {
    var p := Tree(story, objtab, n).parent[id];
    var k := F.IndexOf(kids[p], id);
    if k == 0 then RecordAddress(objtab, p) + CHILD else RecordAddress(objtab, kids[p][k - 1]) + SIBLING
  }

  /** On a well-formed forest unlinking ends, without dying, with one link byte redirected. */
  lemma UnparentWrites(story: seq<byte>, objtab: nat, n: nat, kids: seq<seq<nat>>, id: nat)
    requires HoldsForest(story, objtab, n, kids) && 1 <= id <= n
    ensures var t := Tree(story, objtab, n);
      Unparent(story, objtab, id) ==
      Ok(if t.parent[id] == 0 then story else story[LinkAddress(story, objtab, n, kids, id) := t.sibling[id]])
  {
    var t := Tree(story, objtab, n);
    var p := t.parent[id];
    assert p == FieldOf(story, objtab, n, id, PARENT) && t.sibling[id] == FieldOf(story, objtab, n, id, SIBLING);
    if p != 0 {
      var ptr := RecordAddress(objtab, p) + CHILD;
      F.AtMost(kids[p], n);
      assert t.child[p] == story[ptr];
      FindLinkFinds(story, objtab, n, ptr, id, kids[p], F.IndexOf(kids[p], id), |story|);
    }
  }

  lemma UnparentUnlinks(story: seq<byte>, objtab: nat, n: nat, kids: seq<seq<nat>>, id: nat)
    requires HoldsForest(story, objtab, n, kids) && 1 <= id <= n
    ensures var r := Unparent(story, objtab, id);
      && r.Ok? && HasObjects(r.value, objtab, n)
      && Tree(r.value, objtab, n) == F.Unlinked(Tree(story, objtab, n), n, kids, id)
  {
    UnparentWrites(story, objtab, n, kids, id);
    if Tree(story, objtab, n).parent[id] != 0 {
      LinkByteUnlinks(story, objtab, n, kids, id, LinkAddress(story, objtab, n, kids, id));
    }
  }

  lemma LinkByteUnlinks(story: seq<byte>, objtab: nat, n: nat, kids: seq<seq<nat>>, id: nat, a: nat)
    requires HoldsForest(story, objtab, n, kids) && 1 <= id <= n && Tree(story, objtab, n).parent[id] != 0
    requires a == LinkAddress(story, objtab, n, kids, id)
    ensures var t := Tree(story, objtab, n);
      && HasObjects(story[a := t.sibling[id]], objtab, n)
      && Tree(story[a := t.sibling[id]], objtab, n) == F.Unlinked(t, n, kids, id)
  {
    var t := Tree(story, objtab, n);
    var p := t.parent[id];
    var k := F.IndexOf(kids[p], id);
    if k == 0 {
      TreeSet(story, objtab, n, p, CHILD, t.sibling[id]);
    } else {
      var before := kids[p][k - 1];
      assert 1 <= before <= n;
      TreeSet(story, objtab, n, before, SIBLING, t.sibling[id]);
    }
  }

  // ----- moving objects

  /** The child lists with `id` taken out, wherever it is. */
  ghost function Detach(kids: seq<seq<nat>>, id: nat): seq<seq<nat>> {
    seq(|kids|, p requires 0 <= p < |kids| => F.Without(kids[p], id))
  }

  /** The child lists with `id` moved to the head of `dest`'s. */
  ghost function MoveTo(kids: seq<seq<nat>>, id: nat, dest: nat): seq<seq<nat>>
    requires dest < |kids|
  {
    Detach(kids, id)[dest := [id] + Detach(kids, id)[dest]]
  }

  lemma DetachTouchesParentOnly(t: F.Links, n: nat, kids: seq<seq<nat>>, id: nat)
    requires F.IsForest(t, n, kids) && 1 <= id <= n
    ensures Detach(kids, id) == F.WithoutChild(kids, t.parent[id], id)
  {
    assert forall p :: 0 <= p <= n && p != t.parent[id] ==> id !in kids[p];
  }

  /** The three bytes `insert_obj` stores once the object is unlinked. */
  function AttachBytes(u: seq<byte>, objtab: nat, n: nat, id: nat, dest: nat): (v: seq<byte>)
    requires HasObjects(u, objtab, n) && 1 <= id <= n && 1 <= dest <= n
    ensures |v| == |u|
  {
    var parented := u[RecordAddress(objtab, id) + PARENT := dest];
    var chained := parented[RecordAddress(objtab, id) + SIBLING := parented[RecordAddress(objtab, dest) + CHILD]];
    chained[RecordAddress(objtab, dest) + CHILD := id]
  }

  lemma AttachBytesAttach(u: seq<byte>, objtab: nat, n: nat, id: nat, dest: nat)
    requires HasObjects(u, objtab, n) && 1 <= id <= n && 1 <= dest <= n
    ensures Tree(AttachBytes(u, objtab, n, id, dest), objtab, n) == F.Attached(Tree(u, objtab, n), id, dest)
  {
    TreeSet(u, objtab, n, id, PARENT, dest);
    var parented := u[RecordAddress(objtab, id) + PARENT := dest];
    var first := parented[RecordAddress(objtab, dest) + CHILD];
    assert first == FieldOf(parented, objtab, n, dest, CHILD) == Tree(parented, objtab, n).child[dest];
    TreeSet(parented, objtab, n, id, SIBLING, first);
    TreeSet(parented[RecordAddress(objtab, id) + SIBLING := first], objtab, n, dest, CHILD, id);
  }

  lemma InsertWrites(story: seq<byte>, objtab: nat, n: nat, kids: seq<seq<nat>>, id: nat, dest: nat)
    requires HoldsForest(story, objtab, n, kids) && 1 <= id <= n && 1 <= dest <= n
    ensures var r := InsertObj(story, objtab, id, dest);
      var u := F.Unlinked(Tree(story, objtab, n), n, kids, id);
      && r.Ok? && HasObjects(r.value, objtab, n)
      && Tree(r.value, objtab, n) == F.Attached(u, id, dest)
  {
    UnparentUnlinks(story, objtab, n, kids, id);
    var u := Unparent(story, objtab, id).value;
    AttachBytesAttach(u, objtab, n, id, dest);
    InsertIsAttach(story, objtab, n, id, dest);
  }

  lemma InsertIsAttach(story: seq<byte>, objtab: nat, n: nat, id: nat, dest: nat)
    requires n <= 255 && 1 <= id <= n && 1 <= dest <= n
    requires Unparent(story, objtab, id).Ok? && HasObjects(Unparent(story, objtab, id).value, objtab, n)
    ensures InsertObj(story, objtab, id, dest) == Ok(AttachBytes(Unparent(story, objtab, id).value, objtab, n, id, dest))
  {
  }

  /** `insert_obj` moves an object to the head of the destination's children: it leaves its old
      parent's list, and every other list and order stays. */
  lemma InsertMoves(story: seq<byte>, objtab: nat, n: nat, kids: seq<seq<nat>>, id: nat, dest: nat)
    requires HoldsForest(story, objtab, n, kids) && 1 <= id <= n && 1 <= dest <= n
    ensures var r := InsertObj(story, objtab, id, dest);
      && r.Ok?
      && HoldsForest(r.value, objtab, n, MoveTo(kids, id, dest))
      && Tree(r.value, objtab, n).parent == Tree(story, objtab, n).parent[id := dest]
  {
    var t := Tree(story, objtab, n);
    InsertWrites(story, objtab, n, kids, id, dest);
    DetachTouchesParentOnly(t, n, kids, id);
    F.DetachedForest(t, n, kids, id);
    var u := F.Unlinked(t, n, kids, id).(parent := t.parent[id := 0]);
    F.AttachedForest(u, n, Detach(kids, id), id, dest);
    assert u.parent[id := dest] == t.parent[id := dest];
    assert F.Attached(u, id, dest) == F.Attached(F.Unlinked(t, n, kids, id), id, dest);
  }

  /** The two bytes `remove_obj` stores once the object is unlinked. */
  function OrphanBytes(u: seq<byte>, objtab: nat, n: nat, id: nat): (v: seq<byte>)
    requires HasObjects(u, objtab, n) && 1 <= id <= n
    ensures |v| == |u|
  {
    u[RecordAddress(objtab, id) + PARENT := 0][RecordAddress(objtab, id) + SIBLING := 0]
  }

  lemma OrphanBytesOrphan(u: seq<byte>, objtab: nat, n: nat, id: nat)
    requires HasObjects(u, objtab, n) && 1 <= id <= n
    ensures var t := Tree(u, objtab, n);
      Tree(OrphanBytes(u, objtab, n, id), objtab, n) == t.(parent := t.parent[id := 0], sibling := t.sibling[id := 0])
  {
    TreeSet(u, objtab, n, id, PARENT, 0);
    TreeSet(u[RecordAddress(objtab, id) + PARENT := 0], objtab, n, id, SIBLING, 0);
  }

  lemma RemoveIsOrphan(story: seq<byte>, objtab: nat, n: nat, id: nat)
    requires n <= 255 && 1 <= id <= n
    requires Unparent(story, objtab, id).Ok? && HasObjects(Unparent(story, objtab, id).value, objtab, n)
    ensures RemoveObj(story, objtab, id) == Ok(OrphanBytes(Unparent(story, objtab, id).value, objtab, n, id))
  {
  }

  lemma RemoveWrites(story: seq<byte>, objtab: nat, n: nat, kids: seq<seq<nat>>, id: nat)
    requires HoldsForest(story, objtab, n, kids) && 1 <= id <= n
    ensures var r := RemoveObj(story, objtab, id);
      var t := Tree(story, objtab, n);
      var u := F.Unlinked(t, n, kids, id);
      && r.Ok? && HasObjects(r.value, objtab, n)
      && Tree(r.value, objtab, n) == u.(parent := t.parent[id := 0], sibling := u.sibling[id := 0])
  {
    UnparentUnlinks(story, objtab, n, kids, id);
    OrphanBytesOrphan(Unparent(story, objtab, id).value, objtab, n, id);
    RemoveIsOrphan(story, objtab, n, id);
  }

  /** `remove_obj` only takes the object out of its parent's list. */
  lemma RemoveDetaches(story: seq<byte>, objtab: nat, n: nat, kids: seq<seq<nat>>, id: nat)
    requires HoldsForest(story, objtab, n, kids) && 1 <= id <= n
    ensures var r := RemoveObj(story, objtab, id);
      && r.Ok?
      && HoldsForest(r.value, objtab, n, Detach(kids, id))
      && Tree(r.value, objtab, n).parent == Tree(story, objtab, n).parent[id := 0]
  {
    var t := Tree(story, objtab, n);
    RemoveWrites(story, objtab, n, kids, id);
    DetachTouchesParentOnly(t, n, kids, id);
    F.DetachedForest(t, n, kids, id);
    var u := F.Unlinked(t, n, kids, id).(parent := t.parent[id := 0]);
    F.OrphanSiblingFree(u, n, Detach(kids, id), id, 0);
  }

  // ----- what a move leaves alone

  /** A byte that holds a parent, sibling or child link of one of the objects. */
  ghost predicate IsLink(objtab: nat, n: nat, a: nat) {
    exists id: nat :: 1 <= id <= n && LinkOf(objtab, id, a)
  }

  predicate LinkOf(objtab: nat, id: nat, a: nat)
    requires id >= 1
  {
    RecordAddress(objtab, id) + PARENT <= a <= RecordAddress(objtab, id) + CHILD
  }

  ghost predicate OnlyLinksDiffer(s: seq<byte>, t: seq<byte>, objtab: nat, n: nat) {
    |t| == |s| && forall a :: 0 <= a < |s| && t[a] != s[a] ==> IsLink(objtab, n, a)
  }

  lemma LinkWrite(s: seq<byte>, t: seq<byte>, objtab: nat, n: nat, id: nat, a: nat, v: byte)
    requires OnlyLinksDiffer(s, t, objtab, n) && 1 <= id <= n && LinkOf(objtab, id, a) && a < |t|
    ensures OnlyLinksDiffer(s, t[a := v], objtab, n)
  {
    assert IsLink(objtab, n, a);
  }

  lemma UnparentTouchesLinks(story: seq<byte>, objtab: nat, n: nat, kids: seq<seq<nat>>, id: nat)
    requires HoldsForest(story, objtab, n, kids) && 1 <= id <= n
    ensures Unparent(story, objtab, id).Ok? && OnlyLinksDiffer(story, Unparent(story, objtab, id).value, objtab, n)
  {
    UnparentWrites(story, objtab, n, kids, id);
    var t := Tree(story, objtab, n);
    var p := t.parent[id];
    if p != 0 {
      var k := F.IndexOf(kids[p], id);
      var owner := if k == 0 then p else kids[p][k - 1];
      assert 1 <= owner <= n;
      LinkWrite(story, story, objtab, n, owner, LinkAddress(story, objtab, n, kids, id), t.sibling[id]);
    }
  }

  lemma AttachTouchesLinks(story: seq<byte>, u: seq<byte>, objtab: nat, n: nat, id: nat, dest: nat)
    requires HasObjects(u, objtab, n) && OnlyLinksDiffer(story, u, objtab, n) && 1 <= id <= n && 1 <= dest <= n
    ensures OnlyLinksDiffer(story, AttachBytes(u, objtab, n, id, dest), objtab, n)
  {
    var parent, sibling := RecordAddress(objtab, id) + PARENT, RecordAddress(objtab, id) + SIBLING;
    var child := RecordAddress(objtab, dest) + CHILD;
    var parented := u[parent := dest];
    LinkWrite(story, u, objtab, n, id, parent, dest);
    LinkWrite(story, parented, objtab, n, id, sibling, parented[child]);
    LinkWrite(story, parented[sibling := parented[child]], objtab, n, dest, child, id);
  }

  lemma OrphanTouchesLinks(story: seq<byte>, u: seq<byte>, objtab: nat, n: nat, id: nat)
    requires HasObjects(u, objtab, n) && OnlyLinksDiffer(story, u, objtab, n) && 1 <= id <= n
    ensures OnlyLinksDiffer(story, OrphanBytes(u, objtab, n, id), objtab, n)
  {
    var parent, sibling := RecordAddress(objtab, id) + PARENT, RecordAddress(objtab, id) + SIBLING;
    LinkWrite(story, u, objtab, n, id, parent, 0);
    LinkWrite(story, u[parent := 0], objtab, n, id, sibling, 0);
  }

  /** Moving or removing an object writes link bytes and nothing else. */
  lemma MovesTouchLinks(story: seq<byte>, objtab: nat, n: nat, kids: seq<seq<nat>>, id: nat, dest: nat)
    requires HoldsForest(story, objtab, n, kids) && 1 <= id <= n && 1 <= dest <= n
    ensures var r, q := InsertObj(story, objtab, id, dest), RemoveObj(story, objtab, id);
      && r.Ok? && OnlyLinksDiffer(story, r.value, objtab, n)
      && q.Ok? && OnlyLinksDiffer(story, q.value, objtab, n)
  {
    UnparentTouchesLinks(story, objtab, n, kids, id);
    var u := Unparent(story, objtab, id).value;
    InsertIsAttach(story, objtab, n, id, dest);
    AttachTouchesLinks(story, u, objtab, n, id, dest);
    RemoveIsOrphan(story, objtab, n, id);
    OrphanTouchesLinks(story, u, objtab, n, id);
  }

  /** Moving an object keeps the tree acyclic exactly when the destination is not in the moved
      object's own subtree; the interpreter does not check. */
  lemma InsertKeepsAcyclicIff(story: seq<byte>, objtab: nat, n: nat, kids: seq<seq<nat>>, id: nat, dest: nat)
    requires HoldsForest(story, objtab, n, kids) && 1 <= id <= n && 1 <= dest <= n
    requires F.Acyclic(Tree(story, objtab, n).parent, n)
    ensures InsertObj(story, objtab, id, dest).Ok? && HasObjects(InsertObj(story, objtab, id, dest).value, objtab, n)
    ensures F.Acyclic(Tree(InsertObj(story, objtab, id, dest).value, objtab, n).parent, n)
       <==> !F.InSubtree(Tree(story, objtab, n).parent, dest, id)
  {
    InsertMoves(story, objtab, n, kids, id, dest);
    F.MoveKeepsAcyclicIff(Tree(story, objtab, n).parent, n, id, dest);
  }

  /** Removing an object keeps the tree acyclic. */
  lemma RemoveKeepsAcyclic(story: seq<byte>, objtab: nat, n: nat, kids: seq<seq<nat>>, id: nat)
    requires HoldsForest(story, objtab, n, kids) && 1 <= id <= n
    requires F.Acyclic(Tree(story, objtab, n).parent, n)
    ensures RemoveObj(story, objtab, id).Ok? && HasObjects(RemoveObj(story, objtab, id).value, objtab, n)
    ensures F.Acyclic(Tree(RemoveObj(story, objtab, id).value, objtab, n).parent, n)
  {
    RemoveDetaches(story, objtab, n, kids, id);
    F.OrphanKeepsAcyclic(Tree(story, objtab, n).parent, n, id);
  }

  // ----- runs

  datatype Move = Insert(id: word, dest: word) | Remove(id: word)

  predicate ValidMove(m: Move, n: nat) {
    1 <= m.id <= n && (m.Insert? ==> 1 <= m.dest <= n)
  }

  predicate ValidMoves(moves: seq<Move>, n: nat) {
    forall i :: 0 <= i < |moves| ==> ValidMove(moves[i], n)
  }

  function RunMoves(story: seq<byte>, objtab: nat, moves: seq<Move>): Outcome<seq<byte>> {
    if moves == [] then Ok(story)
    else
      var before :- RunMoves(story, objtab, moves[..|moves| - 1]);
      var m := moves[|moves| - 1];
      if m.Insert? then InsertObj(before, objtab, m.id, m.dest) else RemoveObj(before, objtab, m.id)
  }

  ghost function ForestAfter(kids: seq<seq<nat>>, moves: seq<Move>): (r: seq<seq<nat>>)
    requires |kids| >= 1 && ValidMoves(moves, |kids| - 1)
    ensures |r| == |kids|
  {
    if moves == [] then kids
    else
      var before := ForestAfter(kids, moves[..|moves| - 1]);
      var m := moves[|moves| - 1];
      if m.Insert? then MoveTo(before, m.id, m.dest) else Detach(before, m.id)
  }

  /** Over every run of moves the records go on linking the forest that the same moves make of
      the child lists, and no byte that is not one of their links changes. */
  lemma {:induction false} RunMovesRefinesForest(story: seq<byte>, objtab: nat, n: nat, kids: seq<seq<nat>>, moves: seq<Move>)
    requires HoldsForest(story, objtab, n, kids) && ValidMoves(moves, n)
    ensures RunMoves(story, objtab, moves).Ok?
    ensures HoldsForest(RunMoves(story, objtab, moves).value, objtab, n, ForestAfter(kids, moves))
    ensures OnlyLinksDiffer(story, RunMoves(story, objtab, moves).value, objtab, n)
    decreases |moves|
  {
    if moves != [] {
      var m := moves[|moves| - 1];
      RunMovesRefinesForest(story, objtab, n, kids, moves[..|moves| - 1]);
      var before := RunMoves(story, objtab, moves[..|moves| - 1]).value;
      var lists := ForestAfter(kids, moves[..|moves| - 1]);
      MovesTouchLinks(before, objtab, n, lists, m.id, if m.Insert? then m.dest else m.id);
      if m.Insert? {
        InsertMoves(before, objtab, n, lists, m.id, m.dest);
      } else {
        RemoveDetaches(before, objtab, n, lists, m.id);
      }
    }
  }
}
