/**
  The shared pointer of the Interactive Brokers client.  It counts nothing: the handles of one
  object stand in a circular doubly linked list, and the one that finds itself alone deletes it.
*/
module SharedPtr {

  /** The link of a handle. */
  class Use {
    var forward: Use
    var back: Use

    constructor ()
      ensures Ring([this])
    {
      forward, back := this, this;
    }

    predicate Only()
      reads this
    {
      this == forward
    }

    /** Into the ring behind `u`. */
    method Insert(u: Use, ghost ring: seq<Use>)
      requires Ring(ring) && ring[0] == u && this !in ring
      modifies this, ring
      ensures Ring([u, this] + ring[1..])
    {
      Ends(ring);
      back := u;
      forward := u.forward;
      u.forward.back := this;
      u.forward := this;
      ghost var r := [u, this] + ring[1..];
      forall i | 0 <= i < |r| ensures Linked(r[i], r[Next(|r|, i)]) {
        if i >= 2 {
          assert r[i] == ring[i - 1] && old(Linked(ring[i - 1], ring[Next(|ring|, i - 1)]));
        }
      }
    }

    /** Out of the ring; its own links stay as they are. */
    method Remove(ghost ring: seq<Use>)
      requires Ring(ring) && ring[0] == this
      modifies ring
      ensures |ring| > 1 ==> Ring(ring[1..])
    {
      Ends(ring);
      forward.back := back;
      back.forward := forward;
      ghost var r := ring[1..];
      forall i | 0 <= i < |r| ensures Linked(r[i], r[Next(|r|, i)]) {
        assert r[i] == ring[i + 1] && old(Linked(ring[i + 1], ring[Next(|ring|, i + 1)]));
      }
    }
  }

  function Next(n: nat, i: nat): nat {
    if i + 1 < n then i + 1 else 0
  }

  /** The uses are linked one to the next, and the last to the first, both ways. */
  ghost predicate Ring(ring: seq<Use>)
    reads ring
  {
    && ring != []
    && (forall i, j :: 0 <= i < j < |ring| ==> ring[i] != ring[j])
    && (forall i :: 0 <= i < |ring| ==> Linked(ring[i], ring[Next(|ring|, i)]))
  }

  ghost predicate Disjoint(r: seq<Use>, s: seq<Use>) {
    forall i, j :: 0 <= i < |r| && 0 <= j < |s| ==> r[i] != s[j]
  }

  ghost predicate Linked(u: Use, v: Use)
    reads u, v
  {
    u.forward == v && v.back == u
  }

  lemma Ends(ring: seq<Use>)
    requires Ring(ring)
    ensures ring[0].forward == ring[Next(|ring|, 0)] && ring[0].back == ring[|ring| - 1]
    ensures ring[Next(|ring|, 0)].back == ring[0] && ring[|ring| - 1].forward == ring[0]
  {
    assert Linked(ring[0], ring[Next(|ring|, 0)]) && Linked(ring[|ring| - 1], ring[Next(|ring|, |ring| - 1)]);
  }

  /** A ring has no first element. */
  lemma Rotated(ring: seq<Use>, k: nat)
    requires Ring(ring) && k < |ring|
    ensures Ring(ring[k..] + ring[..k])
  {
    var r := ring[k..] + ring[..k];
    forall i | 0 <= i < |r| ensures Linked(r[i], r[Next(|r|, i)]) {
      var j := if k + i < |ring| then k + i else k + i - |ring|;
      assert r[i] == ring[j] && r[Next(|r|, i)] == ring[Next(|ring|, j)];
    }
  }

  /** A use is alone exactly in a ring of one. */
  lemma OnlyIffAlone(ring: seq<Use>, i: nat)
    requires Ring(ring) && i < |ring|
    ensures ring[i].Only() <==> |ring| == 1
  {
    assert Linked(ring[i], ring[Next(|ring|, i)]);
  }

  class SharedPtr {
    const use: Use
    /** The address of the object, or 0. */
    var ptr: nat

    constructor (ptr: nat)
      ensures this.ptr == ptr && fresh(use) && Ring([use])
    {
      use := new Use();
      this.ptr := ptr;
    }

    predicate Only()
      reads use
    {
      use.Only()
    }
  }

  /** The handles of a program, with the rings that they stand in and the objects that were deleted. */
  class Handles {
    /** The handle of each use. */
    ghost var holder: map<Use, SharedPtr>
    /** The rings by number, and the ring of each use. */
    ghost var rings: map<nat, seq<Use>>
    ghost var group: map<Use, nat>
    /** What each ring shares. */
    ghost var shared: map<nat, nat>
    /** The numbers of rings are below it. */
    ghost var count: nat
    ghost var deleted: seq<nat>
    /** All that handles were ever given. */
    ghost var objects: set<nat>

    constructor ()
      ensures Valid() && holder == map[] && deleted == [] && objects == {}
    {
      holder, rings, group, shared, count, deleted, objects := map[], map[], map[], map[], 0, [], {};
    }

    ghost predicate Has(h: SharedPtr)
      reads this
    {
      h.use in holder && holder[h.use] == h
    }

    ghost predicate Sorted()
      reads `holder, `rings, `group, `count
    {
      group.Keys == holder.Keys && SortedMaps(group, rings) && forall g :: g in rings ==> g < count
    }

    ghost predicate Linked()
      reads `rings, `group, group.Keys
    {
      forall g :: g in rings ==> (forall u :: u in rings[g] ==> u in group) && Ring(rings[g])
    }

    ghost predicate Owning()
      reads `holder, `rings, `group, `shared, `deleted, holder.Values
    {
      Shares(holder, group, shared, rings.Keys) && Objects(shared, deleted)
    }

    /** The handles stand in rings and those of one ring have the same object, whatever it is. */
    ghost predicate InRings()
      reads `holder, `rings, `group, `shared, `count, group.Keys, holder.Values
    {
      Sorted() && Linked() && Shares(holder, group, shared, rings.Keys)
    }

    /** Each object has one ring, and none when it is deleted. */
    ghost predicate Sound()
      reads `holder, `rings, `group, `shared, `count, `deleted, group.Keys, holder.Values
    {
      Sorted() && Linked() && Owning()
    }

    /** Some handle has the object. */
    ghost predicate Held(ptr: nat)
      reads `holder, holder.Values
    {
      exists u :: u in holder && holder[u].ptr == ptr
    }

    /** Nothing leaks: an object is held or it is deleted. */
    ghost predicate Accounted()
      reads `holder, `deleted, `objects, holder.Values
    {
      forall ptr :: ptr in objects <==> ptr != 0 && (ptr in deleted || Held(ptr))
    }

    ghost predicate Valid()
      reads this, group.Keys, holder.Values
    {
      Sound() && Accounted()
    }

    /** The address of an object that no handle was given. */
    ghost predicate New(ptr: nat)
      reads `objects
    {
      ptr == 0 || ptr !in objects
    }

    /** No object is held and deleted, or deleted twice; and without handles all are deleted. */
    lemma HeldOrDeleted(ptr: nat)
      requires Valid() && ptr in objects
      ensures Held(ptr) <==> ptr !in deleted
      ensures multiset(deleted)[ptr] == if Held(ptr) then 0 else 1
      ensures holder == map[] ==> ptr in deleted
    {
      if Held(ptr) {
        var u :| u in holder && holder[u].ptr == ptr;
        assert shared[group[u]] == ptr;
      }
      DeletedOnce(deleted, ptr);
    }

    /** No other handle has the object. */
    ghost predicate Sole(h: SharedPtr)
      reads this, h, holder.Values
    {
      forall u :: u in holder && holder[u] != h ==> holder[u].ptr != h.ptr
    }

    /** A handle finds itself alone in its ring exactly when no other handle has its object. */
    lemma OnlyIffSole(h: SharedPtr)
      requires Sound() && Has(h) && h.ptr != 0
      ensures h.Only() <==> Sole(h)
    {
      var ring := rings[group[h.use]];
      var i :| 0 <= i < |ring| && ring[i] == h.use;
      OnlyIffAlone(ring, i);
      if |ring| == 1 {
        forall u | u in holder && holder[u] != h ensures holder[u].ptr != h.ptr {
          assert u in rings[group[u]];
        }
      } else {
        var j := if i == 0 then 1 else 0;
        assert ring[j] in group && ring[j] != ring[i];
        assert holder[ring[j]].ptr == h.ptr && holder[ring[j]] != h;
      }
    }

    /** The ring of a use, told from that use on. */
    ghost function RingFrom(u: Use): (ring: seq<Use>)
      requires Sorted() && u in group
      reads `holder, `rings, `group, `count
      ensures ring != [] && ring[0] == u
      ensures forall v :: v in ring ==> v in rings[group[u]]
      ensures forall v :: v in rings[group[u]] ==> v in ring
      ensures |ring| == |rings[group[u]]|
    {
      var r := rings[group[u]];
      var i :| 0 <= i < |r| && r[i] == u;
      assert r == r[..i] + r[i..];
      r[i..] + r[..i]
    }

    lemma RingFromIsRing(u: Use)
      requires Sound() && u in group
      ensures Ring(RingFrom(u))
    {
      var r := rings[group[u]];
      var i :| 0 <= i < |r| && r[i] == u && RingFrom(u) == r[i..] + r[..i];
      Rotated(r, i);
    }

    /** A handle leaves: the last one deletes the object. */
    method Leave(h: SharedPtr)
      requires Sound() && Has(h)
      modifies this, group.Keys
      ensures Sound()
      ensures holder == old(holder) - {h.use} && group == old(group) - {h.use}
      ensures deleted == old(deleted) + if h.ptr != 0 && old(Sole(h)) then [h.ptr] else []
      ensures objects == old(objects)
    {
      ghost var holder0, group0, rings0, shared0, deleted0 := holder, group, rings, shared, deleted;
      hide Ring, Sole, RingFrom, Sorted, Owning, Linked, SortedMaps, Shares, Objects;
      RestOf(h.use);
      Parts();
      var rest, gone := Unlink(h);
      Forget(h, rest, gone);
      SortedLeft(h.use, group0, rings0, rest);
      LinkedLeft(h.use, group0, rings0, rest);
      OwningLeft(h, holder0, group0, rings0, shared0, deleted0, rest, gone);
    }

    lemma Parts()
      requires Sound()
      ensures Shares(holder, group, shared, rings.Keys) && Objects(shared, deleted)
      ensures group.Keys == holder.Keys && SortedMaps(group, rings) && forall g :: g in rings ==> g < count && Ring(rings[g])
    {
    }

    lemma RestOf(u: Use)
      requires Sound() && u in holder
      ensures u in group && group.Keys == holder.Keys && SortedMaps(group, rings) && forall g :: g in rings ==> g < count
      ensures var rest := RingFrom(u)[1..];
        u !in rest && forall v :: v in rings[group[u]] <==> v == u || v in rest
    {
    }

    /** The destructors of the handle and of its use. */
    method Unlink(h: SharedPtr) returns (ghost rest: seq<Use>, ghost gone: seq<nat>)
      requires Sound() && Has(h)
      modifies group.Keys
      ensures rest == RingFrom(h.use)[1..] && (rest != [] ==> Ring(rest))
      ensures forall g :: g in rings && g != group[h.use] ==> Ring(rings[g])
      ensures gone == if h.ptr != 0 && old(Sole(h)) then [h.ptr] else []
      ensures gone != [] ==> rest == []
    {
      hide Sound, Sorted, SortedMaps, Linked, Owning, Ring, RingFrom, Sole, Has;
      RingOf(h);
      ghost var ring := RingFrom(h.use);
      rest, gone := ring[1..], [];
      if h.Only() {
        gone := Delete(h.ptr);
      }
      h.use.Remove(ring);
    }

    /** The ring of a handle, from the handle on. */
    lemma RingOf(h: SharedPtr)
      requires Sound() && Has(h)
      ensures Sorted() && h.use in group
      ensures var ring := RingFrom(h.use);
        && Ring(ring) && ring[0] == h.use && (forall v :: v in ring ==> v in group)
        && (forall v :: v in ring <==> v in rings[group[h.use]])
        && (h.Only() <==> |ring| == 1)
        && (h.ptr != 0 ==> (h.Only() <==> Sole(h)))
        && forall g :: g in rings && g != group[h.use] ==> Ring(rings[g]) && Disjoint(rings[g], ring)
    {
      var ring := RingFrom(h.use);
      RingFromIsRing(h.use);
      if h.ptr != 0 {
        OnlyIffSole(h);
      }
      OnlyIffAlone(ring, 0);
      Apart(h.use, ring);
    }

    /** delete, which does nothing for 0. */
    static method Delete(ptr: nat) returns (ghost gone: seq<nat>)
      ensures gone == if ptr != 0 then [ptr] else []
    {
      gone := if ptr != 0 then [ptr] else [];
    }

    ghost method Forget(h: SharedPtr, rest: seq<Use>, gone: seq<nat>)
      requires h.use in group
      modifies this
      ensures holder == old(holder) - {h.use} && group == old(group) - {h.use}
      ensures count == old(count) && deleted == old(deleted) + gone && objects == old(objects)
      ensures var g := old(group)[h.use];
        if rest == [] then rings == old(rings) - {g} && shared == old(shared) - {g}
        else rings == old(rings)[g := rest] && shared == old(shared)
    {
      var g := group[h.use];
      if rest == [] {
        rings, shared := rings - {g}, shared - {g};
      } else {
        rings := rings[g := rest];
      }
      holder, group, deleted := holder - {h.use}, group - {h.use}, deleted + gone;
    }

    /** Other rings have other uses. */
    lemma Apart(u: Use, ring: seq<Use>)
      requires Sorted() && u in group && ring == RingFrom(u)
      ensures forall g :: g in rings && g != group[u] ==> Disjoint(rings[g], ring)
    {
      forall v | v in ring ensures v in group && group[v] == group[u] {
        assert v in rings[group[u]];
      }
      forall g, i, j | g in rings && g != group[u] && 0 <= i < |rings[g]| && 0 <= j < |ring| ensures rings[g][i] != ring[j] {
        assert rings[g][i] in rings[g] && ring[j] in ring;
      }
    }

    lemma SortedLeft(u: Use, group0: map<Use, nat>, rings0: map<nat, seq<Use>>, rest: seq<Use>)
      requires u in group0 && SortedMaps(group0, rings0) && forall g :: g in rings0 ==> g < count
      requires u !in rest && forall v :: v in rings0[group0[u]] <==> v == u || v in rest
      requires group == group0 - {u} && holder.Keys == group.Keys
      requires rings == if rest == [] then rings0 - {group0[u]} else rings0[group0[u] := rest]
      ensures Sorted()
    {
    }

    lemma LinkedLeft(u: Use, group0: map<Use, nat>, rings0: map<nat, seq<Use>>, rest: seq<Use>)
      requires Sorted() && u in group0
      requires rings == if rest == [] then rings0 - {group0[u]} else rings0[group0[u] := rest]
      requires rest != [] ==> Ring(rest)
      requires forall g :: g in rings0 && g != group0[u] ==> Ring(rings0[g])
      ensures Linked()
    {
    }

    lemma OwningLeft(h: SharedPtr, holder0: map<Use, SharedPtr>, group0: map<Use, nat>, rings0: map<nat, seq<Use>>,
                     shared0: map<nat, nat>, deleted0: seq<nat>, rest: seq<Use>, gone: seq<nat>)
      requires h.use in group0 && h.use in holder0 && holder0[h.use] == h && group0[h.use] in rings0
      requires Shares(holder0, group0, shared0, rings0.Keys) && Objects(shared0, deleted0)
      requires Sorted() && group == group0 - {h.use} && holder == holder0 - {h.use} && deleted == deleted0 + gone
      requires var g := group0[h.use];
        if rest == [] then rings == rings0 - {g} && shared == shared0 - {g}
        else rings == rings0[g := rest] && shared == shared0
      requires gone == [] || (h.ptr != 0 && gone == [h.ptr] && rest == [])
      ensures Owning()
    {
    }

    /** A handle joins the ring of another one and shares its object. */
    method Join(h: SharedPtr, other: SharedPtr)
      requires Sound() && Has(other) && h.use !in holder
      modifies this, group.Keys, h.use, h`ptr
      ensures Sound()
      ensures holder == old(holder)[h.use := h] && deleted == old(deleted) && objects == old(objects)
      ensures h.ptr == old(other.ptr)
    {
      ghost var holder0, group0, rings0, shared0 := holder, group, rings, shared;
      hide Ring, RingFrom, Sorted, Owning, Linked, SortedMaps, Shares, Objects;
      Parts();
      NotHeld(h);
      var ring := Link(h, other);
      h.ptr := other.ptr;
      Record(h, group[other.use], ring, other.ptr);
      SortedJoined(h.use, group0, rings0, group0[other.use], ring);
      LinkedJoined(rings0, group0[other.use], ring);
      OwningJoined(h, holder0, group0, shared0, rings0.Keys, group0[other.use]);
    }

    lemma NotHeld(h: SharedPtr)
      requires Sound() && h.use !in holder
      ensures h.use !in group && forall u :: u in holder ==> holder[u] != h
    {
    }

    /** insert, told of all rings. */
    method Link(h: SharedPtr, other: SharedPtr) returns (ghost ring: seq<Use>)
      requires Sound() && Has(other) && h.use !in holder
      modifies group.Keys, h.use
      ensures Ring(ring) && forall v :: v in ring <==> v == h.use || v in rings[group[other.use]]
      ensures forall g :: g in rings && g != group[other.use] ==> Ring(rings[g])
    {
      hide Sound, Sorted, SortedMaps, Linked, Owning, Ring, RingFrom, Has;
      RingOf(other);
      NotInRings(h);
      ghost var from := RingFrom(other.use);
      assert from == [other.use] + from[1..];
      ring := [other.use, h.use] + from[1..];
      h.use.Insert(other.use, from);
    }

    lemma NotInRings(h: SharedPtr)
      requires Sound() && h.use !in holder
      ensures h.use !in group && forall g, i :: g in rings && 0 <= i < |rings[g]| ==> rings[g][i] != h.use
    {
    }

    ghost method Record(h: SharedPtr, g: nat, ring: seq<Use>, ptr: nat)
      modifies this
      ensures holder == old(holder)[h.use := h] && group == old(group)[h.use := g]
      ensures rings == old(rings)[g := ring] && shared == old(shared)[g := ptr]
      ensures deleted == old(deleted) && objects == old(objects) && count == if g < old(count) then old(count) else g + 1
    {
      holder, group := holder[h.use := h], group[h.use := g];
      rings, shared := rings[g := ring], shared[g := ptr];
      count := if g < count then count else g + 1;
    }

    lemma SortedJoined(u: Use, group0: map<Use, nat>, rings0: map<nat, seq<Use>>, g: nat, ring: seq<Use>)
      requires u !in group0 && SortedMaps(group0, rings0) && forall k :: k in rings0 ==> k < count
      requires g < count && forall v :: v in ring <==> v == u || (g in rings0 && v in rings0[g])
      requires group == group0[u := g] && holder.Keys == group.Keys && rings == rings0[g := ring]
      ensures Sorted()
    {
    }

    lemma LinkedJoined(rings0: map<nat, seq<Use>>, g: nat, ring: seq<Use>)
      requires Sorted() && rings == rings0[g := ring] && Ring(ring)
      requires forall k :: k in rings0 && k != g ==> Ring(rings0[k])
      ensures Linked()
    {
    }

    lemma OwningJoined(h: SharedPtr, holder0: map<Use, SharedPtr>, group0: map<Use, nat>, shared0: map<nat, nat>,
                       groups0: set<nat>, g: nat)
      requires Shares(holder0, group0, shared0, groups0) && Objects(shared0, deleted) && rings.Keys == groups0 + {g}
      requires h.use !in group0 && group == group0[h.use := g] && holder == holder0[h.use := h]
      requires shared == shared0[g := h.ptr]
      requires g in shared0 ==> shared0[g] == h.ptr
      requires g !in shared0 && h.ptr != 0 ==> h.ptr !in deleted && forall k :: k in shared0 ==> shared0[k] != h.ptr
      ensures Owning()
    {
    }

    /** A handle in a ring of its own takes an object; all stays sound exactly when the object is new. */
    method Found(h: SharedPtr, ptr: nat)
      requires Sound() && h.use !in holder && Ring([h.use])
      modifies this, h`ptr
      ensures InRings()
      ensures Sound() <==> ptr == 0 || (ptr !in deleted && !old(Held(ptr)))
      ensures holder == old(holder)[h.use := h] && deleted == old(deleted) && objects == old(objects)
      ensures h.ptr == ptr
    {
      ghost var holder0, group0, rings0, shared0 := holder, group, rings, shared;
      ghost var g := count;
      hide Ring, RingFrom, Owning, Sorted, Linked, Objects, Held;
      Parts();
      NotHeld(h);
      HeldIffShared(ptr);
      h.ptr := ptr;
      Record(h, g, [h.use], ptr);
      SortedJoined(h.use, group0, rings0, g, [h.use]);
      LinkedJoined(rings0, g, [h.use]);
      SharesJoined(h, holder0, group0, shared0, rings0.Keys, g);
      ObjectsIff(shared0, deleted, g, ptr);
      OwningIff();
    }

    lemma OwningIff()
      ensures Owning() <==> Shares(holder, group, shared, rings.Keys) && Objects(shared, deleted)
    {
    }

    lemma SharesJoined(h: SharedPtr, holder0: map<Use, SharedPtr>, group0: map<Use, nat>, shared0: map<nat, nat>,
                       groups0: set<nat>, g: nat)
      requires Shares(holder0, group0, shared0, groups0) && rings.Keys == groups0 + {g}
      requires h.use !in group0 && group == group0[h.use := g] && holder == holder0[h.use := h]
      requires g !in shared0 && shared == shared0[g := h.ptr]
      ensures Shares(holder, group, shared, rings.Keys)
    {
    }

    /** What is held after a handle joins, and after one leaves. */
    twostate lemma HeldWith(new h: SharedPtr)
      requires h.use !in old(holder) && holder == old(holder)[h.use := h]
      requires forall u :: u in old(holder) ==> old(holder)[u].ptr == old(holder[u].ptr)
      ensures forall p :: Held(p) <==> p == h.ptr || old(Held(p))
    {
      forall p ensures Held(p) <==> p == h.ptr || old(Held(p)) {
        if u :| u in holder && holder[u].ptr == p {
          assert u == h.use || (u in old(holder) && old(holder[u].ptr) == p);
        }
        if p == h.ptr {
          assert holder[h.use].ptr == p;
        } else if old(Held(p)) {
          var u :| u in old(holder) && old(holder[u].ptr) == p;
          assert u in holder && holder[u].ptr == p;
        }
      }
    }

    twostate lemma HeldWithout(h: SharedPtr)
      requires old(Has(h)) && holder == old(holder) - {h.use} && h.ptr == old(h.ptr)
      requires forall u :: u in old(holder) ==> old(holder)[u].ptr == old(holder[u].ptr) && old(holder)[u].use == u
      ensures forall p :: old(Held(p)) <==> Held(p) || p == h.ptr
      ensures Held(h.ptr) <==> !old(Sole(h))
    {
      forall p ensures old(Held(p)) <==> Held(p) || p == h.ptr {
        if old(Held(p)) {
          var u :| u in old(holder) && old(holder[u].ptr) == p;
          assert u == h.use || (u in holder && holder[u].ptr == p);
        }
        if p == h.ptr {
          assert old(holder[h.use].ptr) == p;
        }
        if u :| u in holder && holder[u].ptr == p {
          assert u in old(holder) && old(holder[u].ptr) == p;
        }
      }
      if Held(h.ptr) {
        var u :| u in holder && holder[u].ptr == h.ptr;
        assert u in old(holder) && old(holder[u].ptr) == old(h.ptr) && old(holder[u]) != h;
      }
      if !old(Sole(h)) {
        var u :| u in old(holder) && old(holder[u]) != h && old(holder[u].ptr) == old(h.ptr);
        assert u in holder && holder[u].ptr == h.ptr;
      }
    }

    lemma HeldIffShared(ptr: nat)
      requires Sound()
      ensures Held(ptr) <==> exists g :: g in shared && shared[g] == ptr
    {
      if Held(ptr) {
        var u :| u in holder && holder[u].ptr == ptr;
        assert shared[group[u]] == ptr;
      }
      if g :| g in shared && shared[g] == ptr {
        var u := rings[g][0];
        assert u in rings[g] && u in holder && holder[u].ptr == ptr;
      }
    }

    lemma SameHandle(h: SharedPtr, other: SharedPtr)
      requires Has(h) && Has(other)
      ensures h == other <==> h.use == other.use
    {
    }

    static lemma Back(m: map<Use, SharedPtr>, u: Use)
      requires u in m
      ensures (m - {u})[u := m[u]] == m
    {
    }

    lemma KeysAgree()
      requires Sound()
      ensures group.Keys == holder.Keys && forall u :: u in holder ==> holder[u].use == u
    {
    }

    /** A handle that stands alone takes an object. */
    method Place(h: SharedPtr, ptr: nat)
      requires Valid() && h.use !in holder && Ring([h.use])
      modifies this, h`ptr
      ensures InRings() && Accounted()
      ensures Valid() <==> old(New(ptr))
      ensures h.ptr == ptr && holder == old(holder)[h.use := h] && deleted == old(deleted)
      ensures objects == old(objects) + if ptr == 0 then {} else {ptr}
    {
      hide InRings, Sound, Ring;
      NotHeld(h);
      Found(h, ptr);
      HeldWith(h);
      objects := objects + if ptr == 0 then {} else {ptr};
    }

    /** shared_ptr(X*): sound afterwards exactly when no handle was given the object before. */
    method Construct(ptr: nat) returns (h: SharedPtr)
      requires Valid()
      modifies this
      ensures InRings() && Accounted() && fresh(h) && fresh(h.use)
      ensures Valid() <==> old(New(ptr))
      ensures h.ptr == ptr && holder == old(holder)[h.use := h] && deleted == old(deleted)
      ensures objects == old(objects) + if ptr == 0 then {} else {ptr}
    {
      hide InRings, Valid, Accounted;
      h := new SharedPtr(ptr);
      Place(h, ptr);
    }

    /** shared_ptr(const shared_ptr&) */
    method Copy(other: SharedPtr) returns (h: SharedPtr)
      requires Valid() && Has(other)
      modifies this, group.Keys
      ensures Valid() && fresh(h) && fresh(h.use)
      ensures h.ptr == other.ptr && holder == old(holder)[h.use := h] && deleted == old(deleted)
      ensures objects == old(objects)
    {
      hide Sound;
      h := new SharedPtr(other.ptr);
      Join(h, other);
      HeldWith(h);
      assert old(holder[other.use].ptr) == h.ptr;
    }

    /** operator= on handles: leaving and joining, within one ring as well. */
    method Assign(h: SharedPtr, other: SharedPtr)
      requires Valid() && Has(h) && Has(other)
      modifies this, group.Keys, h`ptr
      ensures Valid() && holder == old(holder) && objects == old(objects)
      ensures h.ptr == old(other.ptr)
      ensures deleted == old(deleted) + if h != other && old(h.ptr) != 0 && old(Sole(h)) then [old(h.ptr)] else []
    {
      hide Sound;
      if h.use == other.use {
        SameHandle(h, other);
        return;
      }
      KeysAgree();
      SameHandle(h, other);
      Back(holder, h.use);
      Leave(h);
      Join(h, other);
    }

    /** reset(X*), through a use that lives for the assignment only; sound afterwards exactly for an object that is new. */
    method Reset(h: SharedPtr, ptr: nat)
      requires Valid() && Has(h)
      modifies this, group.Keys, h`ptr
      ensures InRings() && Accounted() && holder == old(holder)
      ensures Valid() <==> old(New(ptr))
      ensures h.ptr == ptr
      ensures deleted == old(deleted) + if old(h.ptr) != 0 && old(Sole(h)) then [old(h.ptr)] else []
      ensures objects == old(objects) + if ptr == 0 then {} else {ptr}
    {
      hide InRings, Sound, Accounted, Sole, Ring;
      KeysAgree();
      Back(holder, h.use);
      Destroy(h);
      NotHeld(h);
      JoinTemporary(h.use);
      Place(h, ptr);
    }

    /** A use that stands in no ring joins one that goes away again. */
    static method JoinTemporary(use: Use)
      modifies use
      ensures Ring([use])
    {
      hide Ring;
      var temporary := new Use();
      use.Insert(temporary, [temporary]);
      assert [temporary, use] == [temporary, use] + [temporary][1..];
      temporary.Remove([temporary, use]);
      assert [temporary, use][1..] == [use];
    }

    /** ~shared_ptr() */
    method Destroy(h: SharedPtr)
      requires Valid() && Has(h)
      modifies this, group.Keys
      ensures Valid() && holder == old(holder) - {h.use} && objects == old(objects)
      ensures deleted == old(deleted) + if h.ptr != 0 && old(Sole(h)) then [h.ptr] else []
    {
      hide Sound;
      KeysAgree();
      Leave(h);
      HeldWithout(h);
    }
  }

  lemma {:induction false} DeletedOnce(deleted: seq<nat>, ptr: nat)
    requires forall i, j :: 0 <= i < j < |deleted| ==> deleted[i] != deleted[j]
    ensures multiset(deleted)[ptr] == if ptr in deleted then 1 else 0
  {
    if deleted != [] {
      var n := |deleted| - 1;
      DeletedOnce(deleted[..n], ptr);
      assert deleted == deleted[..n] + [deleted[n]];
    }
  }

  /** A ring more takes an object soundly exactly when it is new. */
  lemma ObjectsIff(shared: map<nat, nat>, deleted: seq<nat>, g: nat, ptr: nat)
    requires Objects(shared, deleted) && g !in shared
    ensures Objects(shared[g := ptr], deleted) <==> ptr == 0 || (ptr !in deleted && !exists k :: k in shared && shared[k] == ptr)
  {
    var t := shared[g := ptr];
    if ptr != 0 {
      if ptr in deleted {
        assert t[g] in deleted;
      } else if k :| k in shared && shared[k] == ptr {
        assert k != g && t[k] == t[g] != 0;
      } else {
        assert forall k :: k in shared ==> shared[k] != ptr;
      }
    }
  }

  /** Each use stands in one ring, the one of its group. */
  ghost predicate SortedMaps(group: map<Use, nat>, rings: map<nat, seq<Use>>) {
    && (forall g, u :: g in rings && u in rings[g] ==> u in group && group[u] == g)
    && (forall u :: u in group ==> group[u] in rings && u in rings[group[u]])
  }

  /** The handles of a ring share its object. */
  ghost predicate Shares(holder: map<Use, SharedPtr>, group: map<Use, nat>, shared: map<nat, nat>, rings: set<nat>)
    reads holder.Values
  {
    && shared.Keys == rings
    && (forall u :: u in holder ==> holder[u].use == u && u in group && group[u] in shared
                                    && holder[u].ptr == shared[group[u]])
  }

  /** Rings have different objects; none of them is deleted, and none was deleted twice. */
  ghost predicate Objects(shared: map<nat, nat>, deleted: seq<nat>) {
    && (forall g, k :: g in shared && k in shared && g != k && shared[g] != 0 ==> shared[g] != shared[k])
    && (forall g :: g in shared && shared[g] != 0 ==> shared[g] !in deleted)
    && (forall i, j :: 0 <= i < j < |deleted| ==> deleted[i] != deleted[j])
    && 0 !in deleted
  }
}
