/**
 The sprite `Group` of main.py: an ordered list of references to sprite
 objects. Sprites are mutable objects shared by reference, so a group is a
 sequence of references into a store that maps each reference to the
 sprite's current state. Whether a sprite is alive and how it advances one
 tick are parameters, so the group logic is stated once for every kind of
 sprite.
 */
module Groups {

  /** A reference to a sprite object. */
  type Ref = nat

  /** No sprite occurs twice in the group. */
  predicate Distinct(g: seq<Ref>) {
    forall i, j :: 0 <= i < j < |g| ==> g[i] != g[j]
  }

  /** Every sprite of the group has a state in the store. */
  predicate Stored<S>(g: seq<Ref>, store: map<Ref, S>) {
    forall r :: r in g ==> r in store
  }

  /** `Group.add`: the given sprites are appended in order. */
  function Add(g: seq<Ref>, sprites: seq<Ref>): (r: seq<Ref>)
    ensures |r| == |g| + |sprites|
    ensures forall i :: 0 <= i < |g| ==> r[i] == g[i]
    ensures forall i :: 0 <= i < |sprites| ==> r[|g| + i] == sprites[i]
  {
    g + sprites
  }

  /** `Group.clear`. */
  function Clear(): (r: seq<Ref>)
    ensures |r| == 0
  {
    []
  }

  /** Position of the first occurrence of `x` in `g`. */
  function FirstIndex(g: seq<Ref>, x: Ref): (i: nat)
    requires x in g
    ensures i < |g| && g[i] == x && x !in g[..i]
  {
    if g[0] == x then 0 else 1 + FirstIndex(g[1..], x)
  }

  /** Python's `list.remove(x)` guarded by `x in list`: drops the first occurrence only. */
  function RemoveFirst(g: seq<Ref>, x: Ref): (r: seq<Ref>)
    ensures x !in g ==> r == g
    ensures x in g ==> |r| == |g| - 1
  {
    if g == [] then
      []
    else if g[0] == x then
      g[1..]
    else
      [g[0]] + RemoveFirst(g[1..], x)
  }

  /** `RemoveFirst` takes one copy of `x` out of the multiset of members, if there is one. */
  lemma {:induction false} RemoveFirstMultiset(g: seq<Ref>, x: Ref)
    ensures multiset(RemoveFirst(g, x)) == multiset(g) - multiset{x}
  {
    if g != [] {
      assert g == [g[0]] + g[1..];
      if g[0] != x {
        RemoveFirstMultiset(g[1..], x);
      }
    }
  }

  /** The occurrence `RemoveFirst` drops is the first one; everything else keeps its place. */
  lemma {:induction false} RemoveFirstDropsFirstOccurrence(g: seq<Ref>, x: Ref)
    requires x in g
    ensures var i := FirstIndex(g, x);
            RemoveFirst(g, x) == g[..i] + g[i + 1..]
  {
    if g[0] != x {
      var t := g[1..];
      RemoveFirstDropsFirstOccurrence(t, x);
      var i := FirstIndex(t, x);
      assert FirstIndex(g, x) == i + 1;
      assert RemoveFirst(g, x) == [g[0]] + (t[..i] + t[i + 1..]);
      ConcatAssoc([g[0]], t[..i], t[i + 1..]);
      SlicesOfTail(g, i);
    }
  }

  /** `Group.remove`: for each given sprite in turn, its first occurrence is dropped when present. */
  function Remove(g: seq<Ref>, sprites: seq<Ref>): (r: seq<Ref>)
    ensures |r| <= |g|
    decreases |sprites|
  {
    if sprites == [] then g else Remove(RemoveFirst(g, sprites[0]), sprites[1..])
  }

  /** On multisets, `remove` is exactly multiset difference: sprites not present are skipped. */
  lemma {:induction false} RemoveMultiset(g: seq<Ref>, sprites: seq<Ref>)
    ensures multiset(Remove(g, sprites)) == multiset(g) - multiset(sprites)
    decreases |sprites|
  {
    if sprites != [] {
      var g1 := RemoveFirst(g, sprites[0]);
      RemoveFirstMultiset(g, sprites[0]);
      RemoveMultiset(g1, sprites[1..]);
      assert Remove(g, sprites) == Remove(g1, sprites[1..]);
      MultisetOfCons(sprites);
      DiffOfSum(multiset(g), multiset{sprites[0]}, multiset(sprites[1..]));
    }
  }

  lemma MultisetOfCons(s: seq<Ref>)
    requires s != []
    ensures multiset(s) == multiset{s[0]} + multiset(s[1..])
  {
    assert s == [s[0]] + s[1..];
  }

  /** Taking away two multisets one after the other is taking away their sum. */
  lemma DiffOfSum(a: multiset<Ref>, b: multiset<Ref>, c: multiset<Ref>)
    ensures a - b - c == a - (b + c)
  {
    forall x
      ensures (a - b - c)[x] == (a - (b + c))[x]
    {
    }
  }

  /** The members of `g` that are not listed in `sprites`, in their order in `g`. */
  function Without(g: seq<Ref>, sprites: seq<Ref>): (r: seq<Ref>)
    ensures forall x :: x in r <==> x in g && x !in sprites
  {
    if g == [] then []
    else (if g[0] in sprites then [] else [g[0]]) + Without(g[1..], sprites)
  }

  /** The members of `g` whose state in `store` is alive, in their order in `g`. */
  function KeepAlive<S>(g: seq<Ref>, store: map<Ref, S>, alive: S -> bool): (r: seq<Ref>)
    requires Stored(g, store)
    ensures forall x :: x in r <==> x in g && alive(store[x])
  {
    if g == [] then []
    else (if alive(store[g[0]]) then [g[0]] else []) + KeepAlive(g[1..], store, alive)
  }

  /**
   One pass of `Group.update` over the snapshot `snap` taken before the pass:
   a sprite that is alive (in its current state) is advanced, one that is dead
   has its first occurrence removed from the live list `cur`.
   */
  function Pass<S>(snap: seq<Ref>, cur: seq<Ref>, store: map<Ref, S>, alive: S -> bool, step: S -> S)
    : (res: (seq<Ref>, map<Ref, S>))
    requires Stored(snap, store)
    ensures res.1.Keys == store.Keys
    ensures |res.0| <= |cur|
    ensures multiset(res.0) <= multiset(cur)
    decreases |snap|
  {
    if snap == [] then
      (cur, store)
    else
      var r := snap[0];
      if alive(store[r]) then
        Pass(snap[1..], cur, store[r := step(store[r])], alive, step)
      else
        RemoveFirstMultiset(cur, r);
        Pass(snap[1..], RemoveFirst(cur, r), store, alive, step)
  }

  /** `Group.update`: iterate over a copy of the list, advancing or pruning. */
  function Update<S>(g: seq<Ref>, store: map<Ref, S>, alive: S -> bool, step: S -> S)
    : (res: (seq<Ref>, map<Ref, S>))
    requires Stored(g, store)
    ensures res.1.Keys == store.Keys
    ensures |res.0| <= |g|
    ensures multiset(res.0) <= multiset(g)
  {
    Pass(g, g, store, alive, step)
  }

  // ---------------------------------------------------------------------
  // Properties of add and remove

  /** Removing from behind a prefix that does not hold `x` leaves the prefix alone. */
  lemma {:induction false} RemoveFirstAfterPrefix(a: seq<Ref>, b: seq<Ref>, x: Ref)
    requires x !in a
    ensures RemoveFirst(a + b, x) == a + RemoveFirst(b, x)
  {
    if a == [] {
      assert a + b == b;
    } else {
      var t := a[1..];
      RemoveFirstAfterPrefix(t, b, x);
      TailOfConcat(a, b);
      assert a[0] != x;
      assert RemoveFirst(a + b, x) == [a[0]] + RemoveFirst(t + b, x);
      ConcatAssoc([a[0]], t, RemoveFirst(b, x));
      HeadAndTail(a);
    }
  }

  /** Removing sprites none of which precede in `a` only affects the `b` part. */
  lemma {:induction false} RemoveAfterPrefix(a: seq<Ref>, b: seq<Ref>, sprites: seq<Ref>)
    requires forall s :: s in sprites ==> s !in a
    ensures Remove(a + b, sprites) == a + Remove(b, sprites)
    decreases |sprites|
  {
    if sprites != [] {
      RemoveFirstAfterPrefix(a, b, sprites[0]);
      RemoveAfterPrefix(a, RemoveFirst(b, sprites[0]), sprites[1..]);
    }
  }

  /** Removing a list from itself empties it. */
  lemma {:induction false} RemoveSelf(sprites: seq<Ref>)
    ensures Remove(sprites, sprites) == []
    decreases |sprites|
  {
    if sprites != [] {
      assert RemoveFirst(sprites, sprites[0]) == sprites[1..];
      RemoveSelf(sprites[1..]);
    }
  }

  /**
   `remove` undoes `add`: adding sprites none of which is already in the group
   and then removing them gives back the original group, in its order.
   */
  lemma RemoveUndoesAdd(g: seq<Ref>, sprites: seq<Ref>)
    requires forall s :: s in sprites ==> s !in g
    ensures Remove(Add(g, sprites), sprites) == g
  {
    RemoveAfterPrefix(g, sprites, sprites);
    RemoveSelf(sprites);
    assert g + [] == g;
  }

  /** Removing a member of a group without repeats drops exactly that member. */
  lemma {:induction false} RemoveFirstDistinct(g: seq<Ref>, x: Ref)
    requires Distinct(g)
    ensures RemoveFirst(g, x) == Without(g, [x])
    ensures Distinct(RemoveFirst(g, x))
  {
    if g != [] {
      DistinctCons(g[0], g[1..]);
      assert g == [g[0]] + g[1..];
      if g[0] == x {
        WithoutAbsent(g[1..], [x]);
      } else {
        RemoveFirstDistinct(g[1..], x);
        DistinctCons(g[0], RemoveFirst(g[1..], x));
      }
    }
  }

  lemma TailOfConcat(a: seq<Ref>, b: seq<Ref>)
    requires a != []
    ensures a + b != [] && (a + b)[0] == a[0] && (a + b)[1..] == a[1..] + b
  {}

  lemma HeadAndTail(a: seq<Ref>)
    requires a != []
    ensures [a[0]] + a[1..] == a
  {}

  lemma SlicesOfTail(g: seq<Ref>, i: nat)
    requires i + 1 < |g|
    ensures [g[0]] + g[1..][..i] == g[..i + 1] && g[1..][i + 1..] == g[i + 2..]
  {}

  lemma ConcatAssoc(a: seq<Ref>, b: seq<Ref>, c: seq<Ref>)
    ensures a + b + c == a + (b + c)
  {}

  lemma EmptyConcat(a: seq<Ref>)
    ensures [] + a == a
  {}

  /** A group with a head is without repeats exactly when its tail is and lacks the head. */
  lemma DistinctCons(a: Ref, t: seq<Ref>)
    ensures Distinct([a] + t) <==> a !in t && Distinct(t)
  {
    var g := [a] + t;
    if a !in t && Distinct(t) {
      forall i, j | 0 <= i < j < |g|
        ensures g[i] != g[j]
      {
        if i > 0 {
          assert g[i] == t[i - 1] && g[j] == t[j - 1];
        } else {
          assert g[j] == t[j - 1];
        }
      }
    }
    if Distinct(g) {
      forall i, j | 0 <= i < j < |t|
        ensures t[i] != t[j]
      {
        assert t[i] == g[i + 1] && t[j] == g[j + 1];
      }
    }
    forall k | 0 <= k < |t|
      ensures Distinct(g) ==> t[k] != a
    {
      assert g[0] == a && g[k + 1] == t[k];
    }
  }

  /** Nothing is dropped when no listed sprite is present. */
  lemma {:induction false} WithoutAbsent(g: seq<Ref>, sprites: seq<Ref>)
    requires forall s :: s in sprites ==> s !in g
    ensures Without(g, sprites) == g
  {
    if g != [] {
      WithoutAbsent(g[1..], sprites);
      assert g == [g[0]] + g[1..];
    }
  }

  /** Filtering twice is filtering by the concatenated lists. */
  lemma {:induction false} WithoutTwice(g: seq<Ref>, a: seq<Ref>, b: seq<Ref>)
    ensures Without(Without(g, a), b) == Without(g, a + b)
  {
    if g != [] {
      WithoutTwice(g[1..], a, b);
      var head := if g[0] in a then [] else [g[0]];
      assert Without(g, a) == head + Without(g[1..], a);
      WithoutConcat(head, Without(g[1..], a), b);
    }
  }

  /** Filtering distributes over concatenation. */
  lemma {:induction false} WithoutConcat(x: seq<Ref>, y: seq<Ref>, b: seq<Ref>)
    ensures Without(x + y, b) == Without(x, b) + Without(y, b)
  {
    if x != [] {
      var head := if x[0] in b then [] else [x[0]];
      assert (x + y)[0] == x[0] && (x + y)[1..] == x[1..] + y;
      WithoutConcat(x[1..], y, b);
      assert Without(x + y, b) == head + Without(x[1..] + y, b);
      ConcatAssoc(head, Without(x[1..], b), Without(y, b));
    } else {
      assert x + y == y;
    }
  }

  /**
   On a group without repeats, `remove` keeps exactly the sprites not listed,
   in their original order.
   */
  lemma {:induction false} RemoveKeepsOthersInOrder(g: seq<Ref>, sprites: seq<Ref>)
    requires Distinct(g)
    ensures Remove(g, sprites) == Without(g, sprites)
    decreases |sprites|
  {
    if sprites == [] {
      WithoutAbsent(g, sprites);
    } else {
      RemoveFirstDistinct(g, sprites[0]);
      RemoveKeepsOthersInOrder(RemoveFirst(g, sprites[0]), sprites[1..]);
      WithoutTwice(g, [sprites[0]], sprites[1..]);
      assert [sprites[0]] + sprites[1..] == sprites;
    }
  }

  // ---------------------------------------------------------------------
  // Properties of update

  /** Filtering by liveness only looks at the states of the listed sprites. */
  lemma {:induction false} KeepAliveFrame<S>(g: seq<Ref>, store: map<Ref, S>, r: Ref, v: S, alive: S -> bool)
    requires Stored(g, store)
    requires r !in g
    ensures KeepAlive(g, store[r := v], alive) == KeepAlive(g, store, alive)
  {
    if g != [] {
      KeepAliveFrame(g[1..], store, r, v, alive);
    }
  }

  /**
   The list half of the pass invariant: with `done` already processed and the
   untouched rest `snap` behind it, the pass leaves `done` followed by the
   members of `snap` that are alive when visited.
   */
  lemma {:induction false} PassList<S>(snap: seq<Ref>, done: seq<Ref>, store: map<Ref, S>,
                                       alive: S -> bool, step: S -> S)
    requires Distinct(snap) && Stored(snap, store)
    requires forall r :: r in done ==> r !in snap
    ensures Pass(snap, done + snap, store, alive, step).0 == done + KeepAlive(snap, store, alive)
    decreases |snap|
  {
    if snap == [] {
      assert done + snap == done;
    } else {
      var r := snap[0];
      var rest := snap[1..];
      assert snap == [r] + rest;
      DistinctCons(r, rest);
      if alive(store[r]) {
        var store1 := store[r := step(store[r])];
        var done1 := done + [r];
        assert done + snap == done1 + rest;
        assert forall x :: x in done1 ==> x !in rest;
        PassList(rest, done1, store1, alive, step);
        KeepAliveFrame(rest, store, r, step(store[r]), alive);
        calc {
          Pass(snap, done + snap, store, alive, step).0;
          Pass(rest, done1 + rest, store1, alive, step).0;
          done1 + KeepAlive(rest, store1, alive);
          done1 + KeepAlive(rest, store, alive);
          { ConcatAssoc(done, [r], KeepAlive(rest, store, alive)); }
          done + ([r] + KeepAlive(rest, store, alive));
          done + KeepAlive(snap, store, alive);
        }
      } else {
        RemoveFirstAfterPrefix(done, snap, r);
        assert RemoveFirst(snap, r) == rest;
        PassList(rest, done, store, alive, step);
        calc {
          Pass(snap, done + snap, store, alive, step).0;
          Pass(rest, RemoveFirst(done + snap, r), store, alive, step).0;
          Pass(rest, done + rest, store, alive, step).0;
          done + KeepAlive(rest, store, alive);
          { EmptyConcat(KeepAlive(rest, store, alive)); }
          done + KeepAlive(snap, store, alive);
        }
      }
    }
  }

  /**
   The store half of the pass invariant: each member of `snap` alive when
   visited is advanced exactly once and every other sprite keeps its state,
   whatever the live list is.
   */
  lemma {:induction false} PassStore<S>(snap: seq<Ref>, cur: seq<Ref>, store: map<Ref, S>,
                                        alive: S -> bool, step: S -> S)
    requires Distinct(snap) && Stored(snap, store)
    ensures forall k :: k in store ==>
              Pass(snap, cur, store, alive, step).1[k] ==
                if k in snap && alive(store[k]) then step(store[k]) else store[k]
    decreases |snap|
  {
    if snap != [] {
      var r := snap[0];
      var rest := snap[1..];
      assert snap == [r] + rest;
      DistinctCons(r, rest);
      if alive(store[r]) {
        PassStore(rest, cur, store[r := step(store[r])], alive, step);
      } else {
        PassStore(rest, RemoveFirst(cur, r), store, alive, step);
      }
    }
  }

  /**
   `Group.update` on a group without repeats: the group becomes the old group
   filtered to the sprites alive at the start of the pass, in their original
   order, and each of those sprites is advanced exactly once while every
   other sprite is left as it was.
   */
  lemma UpdateKeepsInitiallyAlive<S>(g: seq<Ref>, store: map<Ref, S>, alive: S -> bool, step: S -> S)
    requires Distinct(g) && Stored(g, store)
    ensures Update(g, store, alive, step).0 == KeepAlive(g, store, alive)
    ensures Update(g, store, alive, step).1.Keys == store.Keys
    ensures forall k :: k in store ==>
              Update(g, store, alive, step).1[k] ==
                if k in g && alive(store[k]) then step(store[k]) else store[k]
  {
    assert [] + g == g;
    PassList(g, [], store, alive, step);
    PassStore(g, g, store, alive, step);
    assert [] + KeepAlive(g, store, alive) == KeepAlive(g, store, alive);
  }

  /** Filtering a group without repeats keeps it without repeats. */
  lemma {:induction false} KeepAliveDistinct<S>(g: seq<Ref>, store: map<Ref, S>, alive: S -> bool)
    requires Distinct(g) && Stored(g, store)
    ensures Distinct(KeepAlive(g, store, alive))
  {
    if g != [] {
      KeepAliveDistinct(g[1..], store, alive);
    }
  }

  /**
   Lazy deletion: a sprite that dies while being advanced stays in the group
   after that pass and is removed by the next one.
   */
  lemma KilledSpriteLeavesOnNextPass<S>(g: seq<Ref>, store: map<Ref, S>, alive: S -> bool, step: S -> S, r: Ref)
    requires Distinct(g) && Stored(g, store)
    requires r in g && alive(store[r]) && !alive(step(store[r]))
    ensures r in Update(g, store, alive, step).0
    ensures var (g1, store1) := Update(g, store, alive, step);
            Stored(g1, store1) && r !in Update(g1, store1, alive, step).0
  {
    UpdateKeepsInitiallyAlive(g, store, alive, step);
    var (g1, store1) := Update(g, store, alive, step);
    KeepAliveDistinct(g, store, alive);
    UpdateKeepsInitiallyAlive(g1, store1, alive, step);
  }
}
