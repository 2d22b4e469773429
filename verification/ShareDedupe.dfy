/**
 The server-wide share dedupe table: a bounded FIFO ring of credited share keys
 and an open-addressing index over the same keys, with linear probing and
 backward-shift deletion.

 The index is a power-of-two array in the pool; here it is any array of `m`
 slots, and `home` is any function into its slots.
 */
module ShareDedupe {
  import opened Sums

  /** A 64-bit share key. 0 marks an empty slot. */
  type Key = nat

  const EMPTY: Key := 0
  const RING: nat := 16384
  const SLOTS: nat := 65536
  const TWO_64: nat := 0x1_0000_0000_0000_0000
  const TWO_48: nat := 0x1_0000_0000_0000

  /** Forward distance from slot `a` to slot `b` on a circle of `m` slots. */
  function Dist(m: nat, a: nat, b: nat): (d: nat)
    requires a < m && b < m
    ensures d < m
  {
    if a <= b then b - a else b - a + m
  }

  function Next(m: nat, i: nat): (r: nat)
    requires i < m
    ensures r < m
  {
    if i + 1 == m then 0 else i + 1
  }

  ghost predicate HomeInto(m: nat, home: Key -> nat) {
    forall k :: home(k) < m
  }

  /** Slot `q` is probed before slot `p` by a search that starts at `k`'s home. */
  ghost predicate OnPath(m: nat, home: Key -> nat, k: Key, q: nat, p: nat)
    requires HomeInto(m, home) && p < m && q < m
  {
    Dist(m, home(k), q) < Dist(m, home(k), p)
  }

  ghost predicate Unique(t: seq<Key>) {
    forall p, q :: 0 <= p < |t| && 0 <= q < |t| && t[p] == t[q] && t[p] != EMPTY ==> p == q
  }

  ghost function Keys(t: seq<Key>): set<Key> {
    set k | k in t && k != EMPTY
  }

  /**
   Every stored key is reached from its home slot through non-empty slots, each
   holding a key related to it by `lt`. With `lt` always true this is plain
   reachability; with `lt` the insertion order it says who pushed whom.
   */
  ghost predicate Probed(t: seq<Key>, home: Key -> nat, lt: (Key, Key) -> bool)
    requires HomeInto(|t|, home)
  {
    forall p: nat, q: nat :: p < |t| && q < |t| && t[p] != EMPTY && OnPath(|t|, home, t[p], q, p)
      ==> t[q] != EMPTY && lt(t[q], t[p])
  }

  ghost predicate Table(t: seq<Key>, home: Key -> nat, lt: (Key, Key) -> bool) {
    && HomeInto(|t|, home)
    && EMPTY in t
    && Unique(t)
    && Probed(t, home, lt)
  }

  // ---- lookup ---------------------------------------------------------

  /** A search that meets an empty slot before `h` has proved `h` absent. */
  lemma ProbeMiss(t: seq<Key>, home: Key -> nat, lt: (Key, Key) -> bool, h: Key, i: nat)
    requires Table(t, home, lt) && h != EMPTY && i < |t| && t[i] == EMPTY
    requires forall q: nat :: q < |t| && OnPath(|t|, home, h, q, i) ==> t[q] != h
    ensures h !in Keys(t)
  {
    forall p: nat | p < |t| ensures t[p] != h {
      assert p == i || OnPath(|t|, home, h, p, i) || OnPath(|t|, home, h, i, p);
    }
  }

  method IndexFind(a: array<Key>, home: Key -> nat, ghost lt: (Key, Key) -> bool, h: Key) returns (found: bool)
    requires Table(a[..], home, lt) && h != EMPTY
    ensures found <==> h in Keys(a[..])
  {
    var m := a.Length;
    ghost var e: nat :| e < m && a[e] == EMPTY;
    var i: nat := home(h);
    while true
      invariant i < m
      invariant forall q: nat :: q < m && OnPath(m, home, h, q, i) ==> a[q] != EMPTY && a[q] != h
      decreases Dist(m, i, e)
    {
      if a[i] == EMPTY {
        ProbeMiss(a[..], home, lt, h, i);
        return false;
      }
      if a[i] == h {
        assert a[..][i] == h;
        return true;
      }
      assert !OnPath(m, home, h, e, i);
      i := Next(m, i);
    }
  }

  // ---- insertion ------------------------------------------------------

  lemma InsertKeepsTable(t: seq<Key>, home: Key -> nat, lt: (Key, Key) -> bool, h: Key, i: nat)
    requires HomeInto(|t|, home) && Unique(t) && Probed(t, home, lt)
    requires h != EMPTY && h !in Keys(t) && i < |t| && t[i] == EMPTY
    requires forall q: nat :: q < |t| && OnPath(|t|, home, h, q, i) ==> t[q] != EMPTY
    requires forall k :: k in Keys(t) ==> lt(k, h)
    ensures Unique(t[i := h]) && Probed(t[i := h], home, lt) && Keys(t[i := h]) == Keys(t) + {h}
  {
    var u := t[i := h];
    assert forall p: nat :: p < |t| && p != i ==> u[p] == t[p];
    assert u[i] == h;
    forall k ensures k in Keys(u) <==> k in Keys(t) + {h} {
      if k in Keys(t) {
        var p: nat :| p < |t| && t[p] == k;
        assert u[p] == k;
      }
    }
    forall p: nat, q: nat | p < |u| && q < |u| && u[p] != EMPTY && OnPath(|u|, home, u[p], q, p)
      ensures u[q] != EMPTY && lt(u[q], u[p])
    {
      if p == i {
        assert t[q] in Keys(t);
      }
    }
  }

  method IndexInsert(a: array<Key>, home: Key -> nat, ghost lt: (Key, Key) -> bool, h: Key)
    requires Table(a[..], home, lt) && h != EMPTY && h !in Keys(a[..])
    requires forall k :: k in Keys(a[..]) ==> lt(k, h)
    modifies a
    ensures HomeInto(a.Length, home) && Unique(a[..]) && Probed(a[..], home, lt)
    ensures Keys(a[..]) == old(Keys(a[..])) + {h}
  {
    var m := a.Length;
    ghost var e: nat :| e < m && a[e] == EMPTY;
    var i: nat := home(h);
    while a[i] != EMPTY
      invariant i < m && a[..] == old(a[..])
      invariant forall q: nat :: q < m && OnPath(m, home, h, q, i) ==> a[q] != EMPTY
      decreases Dist(m, i, e)
    {
      assert !OnPath(m, home, h, e, i);
      i := Next(m, i);
    }
    InsertKeepsTable(a[..], home, lt, h, i);
    ghost var t := a[..];
    a[i] := h;
    assert a[..] == t[i := h];
  }

  // ---- backward-shift deletion ----------------------------------------

  /** Is `home` in the cyclic interval (hole, j]? */
  predicate HomeBetween(hole: nat, home: nat, j: nat) {
    if hole <= j then hole < home <= j else hole < home || home <= j
  }

  lemma HomeBetweenIsDistance(m: nat, hole: nat, home: nat, j: nat)
    requires hole < m && home < m && j < m
    ensures HomeBetween(hole, home, j) <==> 0 < Dist(m, hole, home) <= Dist(m, hole, j)
  {
  }

  /**
   The table while a deletion is running: slot `i` still holds a stale value and
   counts as a hole; the cluster has been scanned up to `j`. Only keys beyond `j`
   may still rely on the hole.
   */
  ghost predicate Holed(t: seq<Key>, home: Key -> nat, lt: (Key, Key) -> bool, i: nat, j: nat)
    requires HomeInto(|t|, home) && i < |t| && j < |t|
  {
    && t[i] != EMPTY
    && (forall p: nat, q: nat ::
          p < |t| && q < |t| && p != i && q != i && t[p] == t[q] && t[p] != EMPTY ==> p == q)
    && (forall p: nat, q: nat ::
          p < |t| && q < |t| && p != i && t[p] != EMPTY && OnPath(|t|, home, t[p], q, p)
          ==> t[q] != EMPTY && if q == i then Dist(|t|, i, p) > Dist(|t|, i, j) else lt(t[q], t[p]))
  }

  /** The keys of a table whose slot `i` is a hole. */
  ghost function KeysBut(t: seq<Key>, i: nat): set<Key>
    requires i < |t|
  {
    Keys(t[i := EMPTY])
  }

  lemma KeysButIn(t: seq<Key>, i: nat, k: Key)
    requires i < |t| && k != EMPTY
    ensures k in KeysBut(t, i) <==> exists p: nat :: p < |t| && p != i && t[p] == k
  {
    var u := t[i := EMPTY];
    if k in Keys(u) {
      var p: nat :| p < |u| && u[p] == k;
      assert t[p] == k;
    }
    if p: nat :| p < |t| && p != i && t[p] == k {
      assert u[p] == k;
    }
  }

  /** Opening the hole. */
  lemma HoleOpens(t: seq<Key>, home: Key -> nat, lt: (Key, Key) -> bool, i: nat)
    requires Table(t, home, lt) && i < |t| && t[i] != EMPTY
    ensures Holed(t, home, lt, i, i) && KeysBut(t, i) == Keys(t) - {t[i]}
  {
    forall k ensures k in KeysBut(t, i) <==> k in Keys(t) - {t[i]} {
      if k != EMPTY { KeysButIn(t, i, k); }
    }
  }

  /** A key whose home lies after the hole stays where it is. */
  lemma HoleStays(t: seq<Key>, home: Key -> nat, lt: (Key, Key) -> bool, i: nat, j: nat, j': nat)
    requires HomeInto(|t|, home) && i < |t| && j < |t| && Holed(t, home, lt, i, j)
    requires j' == Next(|t|, j) && j' != i && t[j'] != EMPTY && HomeBetween(i, home(t[j']), j')
    ensures Holed(t, home, lt, i, j')
  {
    HomeBetweenIsDistance(|t|, i, home(t[j']), j');
    forall p: nat | p < |t| && p != i && t[p] != EMPTY && OnPath(|t|, home, t[p], i, p)
      ensures Dist(|t|, i, p) > Dist(|t|, i, j')
    {
      assert p != j';
    }
  }

  ghost predicate Stranded(t: seq<Key>, home: Key -> nat, lt: (Key, Key) -> bool, i: nat, j: nat, j': nat)
  {
    && HomeInto(|t|, home) && i < |t| && j < |t| && Holed(t, home, lt, i, j)
    && j' == Next(|t|, j) && j' != i && t[j'] != EMPTY && !HomeBetween(i, home(t[j']), j')
  }

  /** A stranded key moves back into the hole, and leaves a hole behind it. */
  lemma HoleMoves(t: seq<Key>, home: Key -> nat, lt: (Key, Key) -> bool, i: nat, j: nat, j': nat)
    requires Stranded(t, home, lt, i, j, j')
    ensures Holed(t[i := t[j']], home, lt, j', j')
    ensures KeysBut(t[i := t[j']], j') == KeysBut(t, i)
  {
    var m, u := |t|, t[i := t[j']];
    forall p: nat, q: nat | p < m && q < m && p != j' && u[p] != EMPTY && OnPath(m, home, u[p], q, p)
      ensures u[q] != EMPTY && if q == j' then Dist(m, j', p) > Dist(m, j', j') else lt(u[q], u[p])
    {
      HoleMovesPath(t, home, lt, i, j, j', p, q);
    }
    HoleMovesKeys(t, home, lt, i, j, j');
  }

  lemma HoleMovesPath(t: seq<Key>, home: Key -> nat, lt: (Key, Key) -> bool, i: nat, j: nat, j': nat,
                      p: nat, q: nat)
    requires Stranded(t, home, lt, i, j, j')
    requires p < |t| && q < |t| && p != j'
    requires var u := t[i := t[j']]; u[p] != EMPTY && OnPath(|t|, home, u[p], q, p)
    ensures var u := t[i := t[j']];
      u[q] != EMPTY && if q == j' then Dist(|t|, j', p) > 0 else lt(u[q], u[p])
  {
    if p == i {
      HomeBetweenIsDistance(|t|, i, home(t[j']), j');
      assert OnPath(|t|, home, t[j'], q, j');
    } else if q == i {
      assert Dist(|t|, i, p) > Dist(|t|, i, j);
      assert OnPath(|t|, home, t[p], j', p);
    } else {
      assert OnPath(|t|, home, t[p], q, p);
    }
  }

  lemma HoleMovesKeys(t: seq<Key>, home: Key -> nat, lt: (Key, Key) -> bool, i: nat, j: nat, j': nat)
    requires Stranded(t, home, lt, i, j, j')
    ensures var u := t[i := t[j']];
      && (forall p: nat, q: nat ::
            p < |u| && q < |u| && p != j' && q != j' && u[p] == u[q] && u[p] != EMPTY ==> p == q)
      && KeysBut(u, j') == KeysBut(t, i)
  {
    var m, u := |t|, t[i := t[j']];
    forall k ensures k in KeysBut(u, j') <==> k in KeysBut(t, i) {
      if k != EMPTY {
        KeysButIn(u, j', k);
        KeysButIn(t, i, k);
        if p: nat :| p < m && p != i && t[p] == k {
          assert u[if p == j' then i else p] == k;
        }
      }
    }
  }

  /** At the end of the cluster no key needs the hole, so it can be blanked. */
  lemma HoleCloses(t: seq<Key>, home: Key -> nat, lt: (Key, Key) -> bool, i: nat, j: nat)
    requires HomeInto(|t|, home) && i < |t| && j < |t| && Holed(t, home, lt, i, j)
    requires t[Next(|t|, j)] == EMPTY && Dist(|t|, i, Next(|t|, j)) == Dist(|t|, i, j) + 1
    ensures Table(t[i := EMPTY], home, lt)
  {
    var m, u, j' := |t|, t[i := EMPTY], Next(|t|, j);
    assert u[i] == EMPTY;
    forall p: nat, q: nat | p < m && q < m && u[p] != EMPTY && OnPath(m, home, u[p], q, p)
      ensures u[q] != EMPTY && lt(u[q], u[p])
    {
      if q == i {
        assert OnPath(m, home, t[p], j', p);
      }
    }
  }

  /** Where a removal starts: the slot of `h`, or not ok when a search for it misses. */
  method IndexLocate(a: array<Key>, home: Key -> nat, ghost lt: (Key, Key) -> bool, h: Key) returns (i: nat, ok: bool)
    requires Table(a[..], home, lt) && h != EMPTY
    ensures ok ==> i < a.Length && a[i] == h
    ensures !ok ==> h !in Keys(a[..])
  {
    var m := a.Length;
    ghost var e: nat :| e < m && a[e] == EMPTY;
    i := home(h);
    while a[i] != h
      invariant i < m
      invariant forall q: nat :: q < m && OnPath(m, home, h, q, i) ==> a[q] != EMPTY && a[q] != h
      decreases Dist(m, i, e)
    {
      if a[i] == EMPTY {
        ProbeMiss(a[..], home, lt, h, i);
        return i, false;
      }
      assert !OnPath(m, home, h, e, i);
      i := Next(m, i);
    }
    ok := true;
  }

  /** What the deletion loop keeps: an empty slot ahead, a hole behind, and every other key. */
  ghost predicate Shifting(t: seq<Key>, home: Key -> nat, lt: (Key, Key) -> bool,
                           e: nat, i: nat, j: nat, keys: set<Key>)
  {
    && HomeInto(|t|, home) && e < |t| && i < |t| && j < |t|
    && t[e] == EMPTY && Dist(|t|, i, j) < Dist(|t|, i, e)
    && Holed(t, home, lt, i, j) && KeysBut(t, i) == keys
  }

  lemma ShiftStep(t: seq<Key>, home: Key -> nat, lt: (Key, Key) -> bool,
                  e: nat, i: nat, j: nat, keys: set<Key>)
    requires Shifting(t, home, lt, e, i, j, keys)
    ensures var j' := Next(|t|, j); var k := t[j'];
      if k == EMPTY then Table(t[i := EMPTY], home, lt) && Keys(t[i := EMPTY]) == keys
      else
        && Dist(|t|, j', e) < Dist(|t|, j, e)
        && if HomeBetween(i, home(k), j') then Shifting(t, home, lt, e, i, j', keys)
           else Shifting(t[i := k], home, lt, e, j', j', keys)
  {
    var j' := Next(|t|, j);
    var k := t[j'];
    if k == EMPTY {
      HoleCloses(t, home, lt, i, j);
    } else if HomeBetween(i, home(k), j') {
      HoleStays(t, home, lt, i, j, j');
    } else {
      HoleMoves(t, home, lt, i, j, j');
    }
  }

  method IndexRemove(a: array<Key>, home: Key -> nat, ghost lt: (Key, Key) -> bool, h: Key)
    requires Table(a[..], home, lt) && h != EMPTY
    modifies a
    ensures Table(a[..], home, lt)
    ensures Keys(a[..]) == old(Keys(a[..])) - {h}
  {
    var m := a.Length;
    ghost var e: nat :| e < m && a[e] == EMPTY;
    var i: nat, ok := IndexLocate(a, home, lt, h);
    if !ok { return; }
    HoleOpens(a[..], home, lt, i);
    var j: nat := i;
    ghost var keys := Keys(a[..]) - {h};
    assert Shifting(a[..], home, lt, e, i, j, keys);
    hide Unique, Probed, Keys, KeysBut, Holed;
    while true
      invariant Shifting(a[..], home, lt, e, i, j, keys)
      decreases Dist(m, j, e)
    {
      ghost var t := a[..];
      ShiftStep(t, home, lt, e, i, j, keys);
      j := Next(m, j);
      var k := a[j];
      if k == EMPTY { break; }
      if !HomeBetween(i, home(k), j) {
        a[i] := k;
        assert a[..] == t[i := k];
        i := j;
      }
    }
    ghost var t := a[..];
    a[i] := EMPTY;
    assert a[..] == t[i := EMPTY];
  }

  // ---- the layout a deletion leaves ------------------------------------

  /** Insertion order: `a` was recorded before `b`. */
  ghost function Order(live: seq<Key>): (Key, Key) -> bool {
    (a, b) => exists i, j :: 0 <= i < j < |live| && live[i] == a && live[j] == b
  }

  function FirstFree(t: seq<Key>, i: nat, steps: nat): (r: nat)
    requires i < |t|
    ensures r < |t|
    decreases steps
  {
    if t[i] == EMPTY || steps == 0 then i else FirstFree(t, Next(|t|, i), steps - 1)
  }

  /** The index after inserting `keys`, in order, into an empty table. */
  function Build(m: nat, home: Key -> nat, keys: seq<Key>): (t: seq<Key>)
    requires 0 < m
    ensures |t| == m
  {
    if keys == [] then seq(m, _ => EMPTY)
    else
      var n := |keys| - 1;
      var t := Build(m, home, keys[..n]);
      var s := home(keys[n]);
      if s < m then t[FirstFree(t, s, m) := keys[n]] else t
  }

  lemma {:induction false} FirstFreeAt(t: seq<Key>, s: nat, i: nat, steps: nat)
    requires s < |t| && i < |t| && t[i] == EMPTY && Dist(|t|, s, i) <= steps
    requires forall q: nat :: q < |t| && Dist(|t|, s, q) < Dist(|t|, s, i) ==> t[q] != EMPTY
    ensures FirstFree(t, s, steps) == i
    decreases steps
  {
    if s != i {
      assert Dist(|t|, s, s) < Dist(|t|, s, i);
      FirstFreeAt(t, Next(|t|, s), i, steps - 1);
    }
  }

  /** `t` with only the keys of `live` left in it. */
  ghost function Restrict(t: seq<Key>, live: seq<Key>): (r: seq<Key>)
    ensures |r| == |t|
    ensures forall p :: 0 <= p < |t| ==> r[p] == if t[p] in live then t[p] else EMPTY
  {
    seq(|t|, p requires 0 <= p < |t| => if t[p] in live then t[p] else EMPTY)
  }

  /** The next key in insertion order sits in the first slot its elders left free. */
  lemma NextKeySlot(t: seq<Key>, home: Key -> nat, live: seq<Key>, n: nat, p: nat)
    requires Table(t, home, Order(live)) && Distinct(live)
    requires n < |live| && p < |t| && live[n] != EMPTY && t[p] == live[n]
    ensures FirstFree(Restrict(t, live[..n]), home(live[n]), |t|) == p
  {
    var k, r := live[n], Restrict(t, live[..n]);
    forall q: nat | q < |t| && Dist(|t|, home(k), q) < Dist(|t|, home(k), p) ensures r[q] != EMPTY {
      assert OnPath(|t|, home, t[p], q, p);
      assert Order(live)(t[q], t[p]);
      var i, j :| 0 <= i < j < |live| && live[i] == t[q] && live[j] == k;
      assert live[..n][i] == t[q];
    }
    FirstFreeAt(r, home(k), p, |t|);
  }

  lemma RestrictGrows(t: seq<Key>, live: seq<Key>, n: nat, p: nat)
    requires Unique(t) && n < |live| && p < |t| && live[n] != EMPTY && t[p] == live[n]
    ensures Restrict(t, live[..n + 1]) == Restrict(t, live[..n])[p := live[n]]
  {
    assert live[..n + 1] == live[..n] + [live[n]];
  }

  lemma {:induction false} RestrictIsBuild(t: seq<Key>, home: Key -> nat, live: seq<Key>, n: nat)
    requires Table(t, home, Order(live)) && Distinct(live) && n <= |live|
    requires forall k :: k in live ==> k in Keys(t)
    ensures Restrict(t, live[..n]) == Build(|t|, home, live[..n])
    decreases n
  {
    if n > 0 {
      RestrictIsBuild(t, home, live, n - 1);
      assert live[..n][..n - 1] == live[..n - 1];
      assert live[n - 1] in live;
      var p: nat :| p < |t| && t[p] == live[n - 1];
      NextKeySlot(t, home, live, n - 1, p);
      RestrictGrows(t, live, n - 1, p);
    }
  }

  /**
   A table that respects insertion order is the table obtained by inserting its
   keys, in that order, into an empty one. Deletion preserves the premise, so it
   leaves the table exactly as if the deleted key had never been inserted.
   */
  lemma LayoutIsCanonical(t: seq<Key>, home: Key -> nat, live: seq<Key>)
    requires Table(t, home, Order(live)) && Distinct(live)
    requires Keys(t) == Elems(live)
    ensures t == Build(|t|, home, live)
  {
    RestrictIsBuild(t, home, live, |live|);
    assert live[..|live|] == live;
    forall p | 0 <= p < |t| ensures Restrict(t, live)[p] == t[p] {
      if t[p] != EMPTY { assert t[p] in Keys(t); }
    }
  }

  lemma FullTable(t: seq<Key>)
    requires Unique(t) && EMPTY !in t
    ensures |Keys(t)| == |t|
  {
    DistinctSize(t);
    assert Keys(t) == Elems(t);
  }

  /** Fewer keys than slots leave an empty slot, so every probe ends. */
  lemma RoomLeft(t: seq<Key>)
    requires Unique(t) && |Keys(t)| < |t|
    ensures EMPTY in t
  {
    if EMPTY !in t { FullTable(t); }
  }

  lemma Reorder(t: seq<Key>, home: Key -> nat, lt: (Key, Key) -> bool, lt': (Key, Key) -> bool)
    requires Table(t, home, lt)
    requires forall a, b :: a in Keys(t) && b in Keys(t) && lt(a, b) ==> lt'(a, b)
    ensures Table(t, home, lt')
  {
    forall p: nat, q: nat | p < |t| && q < |t| && t[p] != EMPTY && OnPath(|t|, home, t[p], q, p)
      ensures t[q] != EMPTY && lt'(t[q], t[p])
    {
      assert t[p] in Keys(t) && t[q] in Keys(t);
    }
  }

  // ---- the set operation ----------------------------------------------

  /** 0 is the empty marker, so a real key of 0 is stored as 1. */
  function Normal(h: Key): Key {
    if h == EMPTY then 1 else h
  }

  /** Two submitted keys are the same share; 0 and 1 cannot be told apart. */
  predicate SameShare(a: Key, b: Key) {
    a == b || (a <= 1 && b <= 1)
  }

  /** Storing 0 as 1 confuses no other keys. */
  lemma NormalIsSame(a: Key, b: Key)
    ensures Normal(a) == Normal(b) <==> SameShare(a, b)
    ensures Normal(a) != EMPTY && SameShare(Normal(a), a)
  {
  }

  lemma InAsSame(live: seq<Key>, h: Key)
    requires EMPTY !in live
    ensures Normal(h) in live <==> exists i :: 0 <= i < |live| && SameShare(live[i], h)
  {
  }

  /** The keys remembered after recording `h`: the last `r` distinct ones, oldest first. */
  function Recorded(r: nat, live: seq<Key>, h: Key): seq<Key>
    requires 0 < r
  {
    var k := Normal(h);
    if k in live then live else if |live| >= r then live[1..] + [k] else live + [k]
  }

  /** The pool's home slot: the top 16 bits of a wrapping 64-bit multiplication. */
  function DdHome(h: Key): (slot: nat)
    ensures slot < SLOTS
  {
    (h * 0x9E3779B97F4A7C15) % TWO_64 / TWO_48
  }

  /** The home slot is the top sixteen bits of the 64-bit product. */
  lemma HomeIsTopBits(h: Key)
    ensures var product := (h * 0x9E37_79B9_7F4A_7C15) % 0x1_0000_0000_0000_0000;
      DdHome(h) * 0x1_0000_0000_0000 <= product < (DdHome(h) + 1) * 0x1_0000_0000_0000
  {
  }

  /** The contents of a FIFO ring, oldest first. */
  function RingView(ring: seq<Key>, head: nat, count: nat): (s: seq<Key>)
    requires head < |ring| && count <= |ring|
    ensures |s| == count
  {
    if count < |ring| then ring[..count] else ring[head..] + ring[..head]
  }

  lemma RingViewPush(ring: seq<Key>, head: nat, count: nat, k: Key)
    requires head < |ring| && count <= |ring| && (count < |ring| ==> head == count)
    ensures RingView(ring[head := k], Next(|ring|, head), if count < |ring| then count + 1 else count)
      == (if count == |ring| then RingView(ring, head, count)[1..] else RingView(ring, head, count)) + [k]
  {
    var next := ring[head := k];
    if head + 1 == |ring| {
      assert next[0..] + next[..0] == next;
    }
  }

  class DedupeTable {
    const ring: array<Key>
    const index: array<Key>
    const home: Key -> nat
    var head: nat
    var count: nat

    ghost predicate Shape()
      reads this
    {
      && 0 < ring.Length < index.Length && ring != index
      && HomeInto(index.Length, home)
      && head < ring.Length && count <= ring.Length
      && (count < ring.Length ==> head == count)
    }

    /** The keys in the ring, oldest first. */
    ghost function Live(): (s: seq<Key>)
      reads this, ring
      requires Shape()
      ensures |s| == count
    {
      RingView(ring[..], head, count)
    }

    ghost predicate Valid()
      reads this, ring, index
    {
      && Shape()
      && Distinct(Live()) && EMPTY !in Live()
      && Table(index[..], home, Order(Live()))
      && Keys(index[..]) == Elems(Live())
    }

    constructor (r: nat, m: nat, home: Key -> nat)
      requires 0 < r < m && HomeInto(m, home)
      ensures Valid() && fresh(ring) && fresh(index)
      ensures ring.Length == r && index.Length == m && this.home == home && Live() == []
    {
      this.ring := new Key[r](_ => EMPTY);
      this.index := new Key[m](_ => EMPTY);
      this.home := home;
      head, count := 0, 0;
      new;
      assert index[0] == EMPTY;
      assert index[..][0] == EMPTY;
    }

    /** The invariant the pool states: ring and index hold the same keys, laid out canonically. */
    lemma IndexLayout()
      requires Valid()
      ensures index[..] == Build(index.Length, home, Live())
    {
      LayoutIsCanonical(index[..], home, Live());
    }

    /** Overwrite the oldest ring slot, or the next free one. */
    method RingPush(k: Key)
      requires Shape()
      modifies this, ring
      ensures Shape()
      ensures Live() == (if old(count) == ring.Length then old(Live())[1..] else old(Live())) + [k]
    {
      RingViewPush(ring[..], head, count, k);
      ghost var r := ring[..];
      if count < ring.Length { count := count + 1; }
      ring[head] := k;
      assert ring[..] == r[head := k];
      head := Next(ring.Length, head);
    }

    /** 1 if `h` is among the last `ring.Length` distinct recorded keys, else record it. */
    method CheckAndAdd(h: Key) returns (dup: bool)
      requires Valid()
      modifies this, ring, index
      ensures Valid()
      ensures dup <==> Normal(h) in old(Live())
      ensures dup <==> exists i :: 0 <= i < |old(Live())| && SameShare(old(Live())[i], h)
      ensures Live() == Recorded(ring.Length, old(Live()), h)
    {
      var k := Normal(h);
      ghost var live := Live();
      InAsSame(live, h);
      dup := IndexFind(index, home, Order(live), k);
      if dup { return; }
      ghost var kept := live;
      if count == ring.Length {
        assert ring[..][head] == live[0];
        IndexRemove(index, home, Order(live), ring[head]);
        kept := live[1..];
      }
      KeepOldest(index[..], home, live, kept, k);
      RingPush(k);
      IndexInsert(index, home, Order(kept + [k]), k);
      AfterInsert(index[..], kept, k);
    }
  }

  /** `kept` is `live`, or `live` without its oldest key. */
  ghost predicate Keeps(live: seq<Key>, kept: seq<Key>) {
    kept == live || (live != [] && kept == live[1..])
  }

  lemma KeptKeys(live: seq<Key>, kept: seq<Key>, k: Key)
    requires Distinct(live) && k !in live && Keeps(live, kept)
    ensures Elems(kept) == Elems(live) - (if kept == live then {} else {live[0]})
    ensures Distinct(kept + [k]) && k !in kept
  {
    var d := |live| - |kept|;
    assert forall i :: d <= i < |live| ==> live[i] == kept[i - d];
    forall x ensures x in kept <==> x in live && (kept == live || x != live[0]) {
      if x in live {
        var i :| 0 <= i < |live| && live[i] == x;
        if i >= d { assert kept[i - d] == x; }
      }
    }
  }

  lemma KeptPair(live: seq<Key>, kept: seq<Key>, k: Key, i: nat, j: nat)
    requires Keeps(live, kept) && |live| - |kept| <= i < j < |live|
    ensures Order(kept + [k])(live[i], live[j])
  {
    var d, all := |live| - |kept|, kept + [k];
    assert all[i - d] == live[i] && all[j - d] == live[j];
  }

  /** Who came before whom among the kept keys, and that the new key comes last. */
  lemma KeptOrder(live: seq<Key>, kept: seq<Key>, k: Key)
    requires Distinct(live) && k !in live && Keeps(live, kept)
    ensures forall a, b :: a in kept && b in kept && Order(live)(a, b) ==> Order(kept + [k])(a, b)
    ensures forall x :: x in kept ==> Order(kept + [k])(x, k)
  {
    KeptKeys(live, kept, k);
    assert kept != live ==> live[0] !in Elems(kept);
    hide Distinct;
    forall a, b | a in kept && b in kept && Order(live)(a, b) ensures Order(kept + [k])(a, b) {
      var i, j :| 0 <= i < j < |live| && live[i] == a && live[j] == b;
      KeptPair(live, kept, k, i, j);
    }
    forall x | x in kept ensures Order(kept + [k])(x, k) {
      var i :| 0 <= i < |kept| && kept[i] == x;
      assert (kept + [k])[i] == x && (kept + [k])[|kept|] == k;
    }
  }

  /** Dropping the oldest key and appending a new one keeps the order of the others. */
  lemma KeepOldest(t: seq<Key>, home: Key -> nat, live: seq<Key>, kept: seq<Key>, k: Key)
    requires Table(t, home, Order(live)) && Distinct(live) && k !in live && Keeps(live, kept)
    requires Keys(t) == Elems(live) - (if kept == live then {} else {live[0]})
    ensures Table(t, home, Order(kept + [k])) && Keys(t) == Elems(kept)
    ensures forall x :: x in Keys(t) ==> Order(kept + [k])(x, k)
    ensures k !in Keys(t) && Distinct(kept + [k])
  {
    hide Order, Table, Distinct, Keys;
    KeptKeys(live, kept, k);
    KeptOrder(live, kept, k);
    Reorder(t, home, Order(live), Order(kept + [k]));
  }

  lemma AfterInsert(t: seq<Key>, kept: seq<Key>, k: Key)
    requires Unique(t) && Distinct(kept + [k]) && |kept| + 1 < |t|
    requires Keys(t) == Elems(kept) + {k}
    ensures EMPTY in t && Keys(t) == Elems(kept + [k])
  {
    DistinctSize(kept + [k]);
    assert Keys(t) == Elems(kept + [k]);
    RoomLeft(t);
  }

  method ServerTable() returns (d: DedupeTable)
    ensures fresh(d) && d.Valid() && d.ring.Length == 16384 && d.index.Length == 65536 && d.Live() == []
  {
    d := new DedupeTable(RING, SLOTS, DdHome);
  }

  // ---- whole runs -----------------------------------------------------

  /** The ring contents after a run of calls, by the specification of one call. */
  function LiveAfter(r: nat, calls: seq<Key>): seq<Key>
    requires 0 < r
  {
    if calls == [] then [] else Recorded(r, LiveAfter(r, calls[..|calls| - 1]), calls[|calls| - 1])
  }

  /** The keys a run credited: those of the calls that were not called duplicates. */
  function Credited(r: nat, calls: seq<Key>): seq<Key>
    requires 0 < r
  {
    if calls == [] then []
    else
      var n := |calls| - 1;
      var before := Credited(r, calls[..n]);
      if Normal(calls[n]) in LiveAfter(r, calls[..n]) then before else before + [Normal(calls[n])]
  }

  function Last(r: nat, s: seq<Key>): seq<Key> {
    if |s| <= r then s else s[|s| - r..]
  }

  /** The table remembers exactly the last `r` credited keys. */
  lemma {:induction false} LiveIsLastCredited(r: nat, calls: seq<Key>)
    requires 0 < r
    ensures LiveAfter(r, calls) == Last(r, Credited(r, calls))
  {
    if calls != [] {
      LiveIsLastCredited(r, calls[..|calls| - 1]);
    }
  }

  /** A call is answered "duplicate" exactly when its key is among the last `r` credited ones. */
  lemma DuplicateIffRecent(r: nat, calls: seq<Key>, h: Key)
    requires 0 < r
    ensures Normal(h) in LiveAfter(r, calls) <==> Normal(h) in Last(r, Credited(r, calls))
    ensures Credited(r, calls + [h]) ==
      Credited(r, calls) + if Normal(h) in Last(r, Credited(r, calls)) then [] else [Normal(h)]
  {
    LiveIsLastCredited(r, calls);
    assert (calls + [h])[..|calls|] == calls;
  }

  /** Over every run, a key is credited again only after more than `r` others. */
  lemma {:induction false} CreditedOnce(r: nat, calls: seq<Key>, i: nat, j: nat)
    requires 0 < r
    requires i < j < |Credited(r, calls)| && Credited(r, calls)[i] == Credited(r, calls)[j]
    ensures j - i > r
  {
    var n := |calls| - 1;
    var before := Credited(r, calls[..n]);
    if j < |before| {
      CreditedOnce(r, calls[..n], i, j);
    } else {
      LiveIsLastCredited(r, calls[..n]);
      var last := Last(r, before);
      assert forall x :: |before| - |last| <= x < |before| ==> before[x] == last[x - (|before| - |last|)];
    }
  }

  /** Is call `n` of a run a repeat of one of the last `r` credited keys? */
  ghost predicate RepeatsRecent(r: nat, calls: seq<Key>, n: nat)
    requires 0 < r && n < |calls|
  {
    Normal(calls[n]) in Last(r, Credited(r, calls[..n]))
  }

  lemma RunStep(r: nat, calls: seq<Key>, n: nat)
    requires 0 < r && n < |calls|
    ensures LiveAfter(r, calls[..n + 1]) == Recorded(r, LiveAfter(r, calls[..n]), calls[n])
    ensures Normal(calls[n]) in LiveAfter(r, calls[..n]) <==> RepeatsRecent(r, calls, n)
  {
    LiveIsLastCredited(r, calls[..n]);
    assert calls[..n + 1][..n] == calls[..n];
  }

  lemma NoCalls(r: nat, calls: seq<Key>)
    requires 0 < r
    ensures LiveAfter(r, calls[..0]) == []
  {
  }

  // ---- the answers, over the keys as submitted --------------------------

  /** How many of the calls from `i` up to `n` were not duplicates. */
  function Fresh(dups: seq<bool>, i: nat, n: nat): (c: nat)
    requires n <= |dups|
    decreases n
  {
    if n <= i then 0 else Fresh(dups, i, n - 1) + if dups[n - 1] then 0 else 1
  }

  /** Call `i` recorded the share of call `n`, and fewer than `r` others were recorded in between. */
  ghost predicate Remembers(r: nat, calls: seq<Key>, dups: seq<bool>, i: nat, n: nat)
    requires i < n < |calls| && n <= |dups|
  {
    !dups[i] && SameShare(calls[i], calls[n]) && Fresh(dups, i + 1, n) < r
  }

  /** Every answer of a run follows from the keys submitted and the answers before it. */
  ghost predicate Answered(r: nat, calls: seq<Key>, dups: seq<bool>) {
    |dups| == |calls|
    && forall n: nat :: n < |calls| ==> (dups[n] <==> exists i: nat :: i < n && Remembers(r, calls, dups, i, n))
  }

  lemma {:induction false} FreshSplits(dups: seq<bool>, i: nat, m: nat, n: nat)
    requires i <= m <= n <= |dups|
    ensures Fresh(dups, i, n) == Fresh(dups, i, m) + Fresh(dups, m, n)
    decreases n
  {
    if m < n { FreshSplits(dups, i, m, n - 1); }
  }

  /** The answers are those of the specification of one call. */
  ghost predicate Repeats(r: nat, calls: seq<Key>, dups: seq<bool>)
    requires 0 < r
  {
    |dups| == |calls| && forall n :: 0 <= n < |calls| ==> (dups[n] <==> RepeatsRecent(r, calls, n))
  }

  lemma CreditedStep(r: nat, calls: seq<Key>, n: nat)
    requires 0 < r && n < |calls|
    ensures Credited(r, calls[..n + 1]) ==
      Credited(r, calls[..n]) + if RepeatsRecent(r, calls, n) then [] else [Normal(calls[n])]
  {
    hide Normal, Recorded;
    LiveIsLastCredited(r, calls[..n]);
    assert calls[..n + 1][..n] == calls[..n];
  }

  /** The i-th call, if it was no duplicate, is credited at the number of such calls before it. */
  lemma {:induction false} CreditedAt(r: nat, calls: seq<Key>, dups: seq<bool>, n: nat)
    requires 0 < r && Repeats(r, calls, dups) && n <= |calls|
    ensures |Credited(r, calls[..n])| == Fresh(dups, 0, n)
    ensures forall i: nat :: i < n && !dups[i] ==>
      Fresh(dups, 0, i) < Fresh(dups, 0, n) && Credited(r, calls[..n])[Fresh(dups, 0, i)] == Normal(calls[i])
    decreases n
  {
    hide Normal, Credited, RepeatsRecent;
    if n == 0 {
      NothingCredited(r, calls);
    } else {
      CreditedAt(r, calls, dups, n - 1);
      CreditedStep(r, calls, n - 1);
      var before, after := Credited(r, calls[..n - 1]), Credited(r, calls[..n]);
      forall i: nat | i < n && !dups[i]
        ensures Fresh(dups, 0, i) < Fresh(dups, 0, n) && after[Fresh(dups, 0, i)] == Normal(calls[i])
      {
        if i < n - 1 { assert after[Fresh(dups, 0, i)] == before[Fresh(dups, 0, i)]; }
      }
    }
  }

  lemma NothingCredited(r: nat, calls: seq<Key>)
    requires 0 < r
    ensures Credited(r, calls[..0]) == []
  {
  }

  /** Every credited key is that of a call that was no duplicate. */
  lemma {:induction false} CreditedBy(r: nat, calls: seq<Key>, dups: seq<bool>, n: nat, k: nat) returns (i: nat)
    requires 0 < r && Repeats(r, calls, dups) && n <= |calls| && k < |Credited(r, calls[..n])|
    ensures i < n && !dups[i] && Fresh(dups, 0, i) == k && Credited(r, calls[..n])[k] == Normal(calls[i])
    decreases n
  {
    hide Normal, Credited, RepeatsRecent;
    i := 0;
    NothingCredited(r, calls);
    if n > 0 {
      CreditedAt(r, calls, dups, n - 1);
      CreditedStep(r, calls, n - 1);
      if k < |Credited(r, calls[..n - 1])| {
        i := CreditedBy(r, calls, dups, n - 1, k);
      } else {
        i := n - 1;
      }
    }
  }

  lemma InLast(r: nat, s: seq<Key>, x: Key)
    ensures x in Last(r, s) <==> exists k: nat :: k < |s| && |s| - r <= k && s[k] == x
  {
    var last := Last(r, s);
    var d := |s| - |last|;
    assert forall k: nat :: d <= k < |s| ==> s[k] == last[k - d];
    if x in last {
      var j :| 0 <= j < |last| && last[j] == x;
      assert s[j + d] == x;
    }
  }

  lemma RepeatsIff(r: nat, calls: seq<Key>, dups: seq<bool>, n: nat)
    requires 0 < r && Repeats(r, calls, dups) && n < |calls|
    ensures RepeatsRecent(r, calls, n) <==> exists i: nat :: i < n && Remembers(r, calls, dups, i, n)
  {
    hide Normal, Credited, Last, Fresh, SameShare;
    var c, key := Credited(r, calls[..n]), Normal(calls[n]);
    InLast(r, c, key);
    CreditedAt(r, calls, dups, n);
    if RepeatsRecent(r, calls, n) {
      var k: nat :| k < |c| && |c| - r <= k && c[k] == key;
      var i := CreditedBy(r, calls, dups, n, k);
      FreshAfter(dups, i, n);
      NormalIsSame(calls[i], calls[n]);
      assert Remembers(r, calls, dups, i, n);
    }
    if i: nat :| i < n && Remembers(r, calls, dups, i, n) {
      FreshAfter(dups, i, n);
      NormalIsSame(calls[i], calls[n]);
      assert c[Fresh(dups, 0, i)] == key;
    }
  }

  lemma FreshAfter(dups: seq<bool>, i: nat, n: nat)
    requires i < n <= |dups| && !dups[i]
    ensures Fresh(dups, 0, n) == Fresh(dups, 0, i) + 1 + Fresh(dups, i + 1, n)
  {
    FreshSplits(dups, 0, i, n);
    FreshSplits(dups, i, i + 1, n);
    assert Fresh(dups, i, i + 1) == 1;
  }

  /**
   A share is answered "duplicate" exactly when an earlier call with the same key was not,
   and fewer than `r` calls in between were not.
   */
  lemma RepeatsAreAnswered(r: nat, calls: seq<Key>, dups: seq<bool>)
    requires 0 < r && Repeats(r, calls, dups)
    ensures Answered(r, calls, dups)
  {
    hide RepeatsRecent, Remembers;
    forall n: nat | n < |calls|
      ensures dups[n] <==> exists i: nat :: i < n && Remembers(r, calls, dups, i, n)
    {
      RepeatsIff(r, calls, dups, n);
    }
  }

  /** Different shares are never taken for one another. */
  lemma DistinctSharesAreFresh(r: nat, calls: seq<Key>, dups: seq<bool>, n: nat)
    requires Answered(r, calls, dups) && n < |calls| && forall i :: 0 <= i < n ==> !SameShare(calls[i], calls[n])
    ensures !dups[n]
  {
  }

  /** A share that was recorded is refused until `r` others have been. */
  lemma RecordedShareIsRefused(r: nat, calls: seq<Key>, dups: seq<bool>, i: nat, n: nat)
    requires Answered(r, calls, dups) && i < n < |calls| && calls[i] == calls[n]
    requires !dups[i] && Fresh(dups, i + 1, n) < r
    ensures dups[n]
  {
    assert Remembers(r, calls, dups, i, n);
  }

  /** The table answers a whole run of submits as the specification does. */
  method Replay(d: DedupeTable, calls: seq<Key>) returns (dups: seq<bool>)
    requires d.Valid() && d.Live() == []
    modifies d, d.ring, d.index
    ensures d.Valid() && d.Live() == LiveAfter(d.ring.Length, calls)
    ensures Repeats(d.ring.Length, calls, dups)
    ensures Answered(d.ring.Length, calls, dups)
  {
    hide Table, HomeInto, Distinct, Keys, Elems, Order, RingView;
    hide Recorded, RepeatsRecent, LiveAfter, Credited, Last, Normal, Answered;
    dups := [];
    ghost var r := d.ring.Length;
    var n := 0;
    NoCalls(r, calls);
    while n < |calls|
      invariant 0 <= n <= |calls| == |dups| + (|calls| - n)
      invariant d.Valid() && d.Live() == LiveAfter(r, calls[..n])
      invariant forall i :: 0 <= i < n ==> (dups[i] <==> RepeatsRecent(r, calls, i))
    {
      RunStep(r, calls, n);
      var dup := d.CheckAndAdd(calls[n]);
      dups := dups + [dup];
      n := n + 1;
    }
    assert calls[..n] == calls;
    RepeatsAreAnswered(r, calls, dups);
  }
}
