/** Least-recently-used order, on a sequence of uses. */
module Lru {
  import opened Bytes

  ghost predicate Distinct<T>(s: seq<T>) {
    forall i, j :: 0 <= i < j < |s| ==> s[i] != s[j]
  }

  function Without<T(==)>(s: seq<T>, x: T): seq<T> {
    if s == [] then [] else if s[0] == x then s[1..] else [s[0]] + Without(s[1..], x)
  }

  /** The distinct elements of a sequence of uses, the most recently used first. */
  function Recent<T(==)>(uses: seq<T>): seq<T> {
    if uses == [] then []
    else [uses[|uses| - 1]] + Without(Recent(uses[..|uses| - 1]), uses[|uses| - 1])
  }

  /** One more than the position of the last use; 0 when there is none. */
  function LastUse<T(==)>(uses: seq<T>, x: T): (n: nat)
    ensures n <= |uses|
    ensures if n > 0 then uses[n - 1] == x && x !in uses[n..] else x !in uses
  {
    if uses == [] then 0
    else if uses[|uses| - 1] == x then |uses|
    else LastUse(uses[..|uses| - 1], x)
  }

  lemma {:induction false} WithoutAbsent<T>(s: seq<T>, x: T)
    requires x !in s
    ensures Without(s, x) == s
  {
    if s != [] { WithoutAbsent(s[1..], x); }
  }

  lemma {:induction false} WithoutAt<T>(s: seq<T>, x: T, p: nat)
    requires p < |s| && s[p] == x && x !in s[..p]
    ensures Without(s, x) == s[..p] + s[p + 1..]
  {
    if p > 0 {
      assert s[0] in s[..p];
      assert s[1..][..p - 1] == s[..p][1..];
      WithoutAt(s[1..], x, p - 1);
      assert s[..p] + s[p + 1..] == [s[0]] + (s[1..][..p - 1] + s[1..][p..]);
    }
  }

  function FirstAt<T(==)>(s: seq<T>, x: T): (p: nat)
    requires x in s
    ensures p < |s| && s[p] == x && x !in s[..p]
  {
    if s[0] == x then 0
    else
      var p := FirstAt(s[1..], x);
      assert s[..p + 1] == [s[0]] + s[1..][..p];
      p + 1
  }

  lemma WithoutKeepsPrefix<T>(s: seq<T>, x: T, n: nat)
    requires n <= |s| && x !in s[..n]
    ensures |Without(s, x)| == if x in s then |s| - 1 else |s|
    ensures n <= |Without(s, x)| && Without(s, x)[..n] == s[..n]
  {
    forall i | 0 <= i < n ensures s[i] != x { assert s[i] == s[..n][i]; }
    if x in s {
      WithoutAt(s, x, FirstAt(s, x));
    } else {
      WithoutAbsent(s, x);
    }
  }

  lemma DistinctWithout<T>(s: seq<T>, x: T)
    requires Distinct(s)
    ensures Distinct(Without(s, x))
    ensures forall y :: y in Without(s, x) <==> y in s && y != x
  {
    if x in s {
      var p := FirstAt(s, x);
      WithoutAt(s, x, p);
      assert s == s[..p] + [x] + s[p + 1..];
    } else {
      WithoutAbsent(s, x);
    }
  }

  lemma DistinctCons<T>(x: T, s: seq<T>)
    requires Distinct(s) && x !in s
    ensures Distinct([x] + s)
  {
    forall i, j | 0 <= i < j < |[x] + s| ensures ([x] + s)[i] != ([x] + s)[j] {
      assert ([x] + s)[j] == s[j - 1];
      if i > 0 { assert ([x] + s)[i] == s[i - 1]; }
    }
  }

  lemma {:induction false} RecentDistinct<T>(uses: seq<T>)
    ensures Distinct(Recent(uses))
    ensures forall x :: x in Recent(uses) <==> x in uses
  {
    if uses != [] {
      var init, last := uses[..|uses| - 1], uses[|uses| - 1];
      RecentDistinct(init);
      DistinctWithout(Recent(init), last);
      assert uses == init + [last];
      DistinctCons(last, Without(Recent(init), last));
    }
  }

  /** Two elements keep their order in Recent when another one moves to the front. */
  lemma WithoutKeepsOrder<T>(s: seq<T>, x: T, i: nat, j: nat) returns (k: nat, l: nat)
    requires i < j < |Without(s, x)|
    ensures k < l < |s| && s[k] == Without(s, x)[i] && s[l] == Without(s, x)[j]
  {
    if x in s {
      var p := FirstAt(s, x);
      WithoutAt(s, x, p);
      k := if i < p then i else i + 1;
      l := if j < p then j else j + 1;
    } else {
      WithoutAbsent(s, x);
      k, l := i, j;
    }
  }

  lemma SameLastUse<T>(uses: seq<T>, x: T)
    requires uses != [] && uses[|uses| - 1] != x
    ensures LastUse(uses, x) == LastUse(uses[..|uses| - 1], x)
  {
  }

  /** Recent is ordered by last use. */
  lemma {:induction false} RecentByLastUse<T>(uses: seq<T>, i: nat, j: nat)
    requires i < j < |Recent(uses)|
    ensures LastUse(uses, Recent(uses)[i]) > LastUse(uses, Recent(uses)[j])
  {
    RecentDistinct(uses);
    var init, last := uses[..|uses| - 1], uses[|uses| - 1];
    assert Recent(uses)[0] != Recent(uses)[j];
    if i > 0 {
      assert Recent(uses)[0] != Recent(uses)[i];
      var k, l := WithoutKeepsOrder(Recent(init), last, i - 1, j - 1);
      RecentByLastUse(init, k, l);
      SameLastUse(uses, Recent(uses)[i]);
      SameLastUse(uses, Recent(uses)[j]);
      hide Recent, Without, Distinct, LastUse;
    }
  }

  /** Distinct indices below `n` are at most `n`, and all of them when there are `n`. */
  lemma {:induction false} DistinctBelow(order: seq<nat>, n: nat)
    requires Distinct(order) && forall x :: x in order ==> x < n
    ensures |order| <= n
    ensures forall i: nat :: i < n && i !in order ==> |order| < n
    decreases n
  {
    if order == [] {
      return;
    }
    assert order[0] in order;
    if n - 1 in order {
      var rest := Without<nat>(order, n - 1);
      WithoutKeepsPrefix<nat>(order, n - 1, 0);
      DistinctWithout<nat>(order, n - 1);
      DistinctBelow(rest, n - 1);
    } else {
      DistinctBelow(order, n - 1);
    }
  }

  /** Distinct indices that cover everything below `n` are at least `n`. */
  lemma {:induction false} CoverBelow(order: seq<nat>, n: nat)
    requires Distinct(order) && forall i: nat :: i < n ==> i in order
    ensures |order| >= n
    decreases n
  {
    if n > 0 {
      var rest := Without<nat>(order, n - 1);
      WithoutKeepsPrefix<nat>(order, n - 1, 0);
      DistinctWithout<nat>(order, n - 1);
      CoverBelow(rest, n - 1);
    }
  }

  // ---- A fixed number of slots, each with a tick ----

  datatype Cell<T> = Cell(id: T, tick: nat, used: bool)

  /** `order` lists the used cells from the most to the least recently used one, and they hold the first
      elements of `recent`: all of them, or as many as there are cells. */
  ghost predicate Tracks<T>(cells: seq<Cell<T>>, recent: seq<T>, order: seq<nat>, nextTick: nat) {
    && cells != []
    && Distinct(order)
    && (forall p :: 0 <= p < |order| ==> order[p] < |cells|)
    && (forall i :: 0 <= i < |cells| ==> (cells[i].used <==> i in order))
    && |order| == Min(|recent|, |cells|)
    && (forall p :: 0 <= p < |order| ==> cells[order[p]].id == recent[p] && cells[order[p]].tick < nextTick)
    && (forall p, q :: 0 <= p < q < |order| ==> cells[order[p]].tick > cells[order[q]].tick)
  }

  /** Moving the element at `p` to the front. */
  function ToFront<T>(s: seq<T>, p: nat): (r: seq<T>)
    requires p < |s|
    ensures |r| == |s| && r[0] == s[p]
    ensures forall q :: 0 < q < |s| ==> r[q] == s[if q <= p then q - 1 else q]
  {
    [s[p]] + s[..p] + s[p + 1..]
  }

  lemma ToFrontElements<T>(s: seq<T>, p: nat)
    requires p < |s|
    ensures forall x :: x in ToFront(s, p) <==> x in s
  {
    assert s == s[..p] + [s[p]] + s[p + 1..];
  }

  lemma ToFrontDistinct<T>(s: seq<T>, p: nat)
    requires p < |s| && Distinct(s)
    ensures Distinct(ToFront(s, p))
    ensures ToFront(s, p) == [s[p]] + Without(s, s[p])
  {
    assert s[p] !in s[..p];
    WithoutAt(s, s[p], p);
    ToFrontIs(s, p);
    DistinctWithout(s, s[p]);
    hide Without, ToFront;
    DistinctCons(s[p], Without(s, s[p]));
  }

  lemma ToFrontIs<T>(s: seq<T>, p: nat)
    requires p < |s|
    ensures ToFront(s, p) == [s[p]] + (s[..p] + s[p + 1..])
  {
  }

  /** A use of a held element moves it to the front. */
  lemma HitTracks<T>(cells: seq<Cell<T>>, recent: seq<T>, order: seq<nat>, tick: nat, index: nat) returns (order': seq<nat>)
    requires Tracks(cells, recent, order, tick) && Distinct(recent)
    requires index < |cells| && cells[index].used
    ensures Tracks(cells[index := cells[index].(tick := tick)],
                   [cells[index].id] + Without(recent, cells[index].id), order', tick + 1)
  {
    var p := FirstAt(order, index);
    ToFrontDistinct(order, p);
    ToFrontElements(order, p);
    ToFrontDistinct(recent, p);
    order' := ToFront(order, p);
    var recent' := ToFront(recent, p);
    forall q | 0 < q < |order'| ensures order'[q] != index {
      assert order'[0] != order'[q];
    }
    hide ToFront, Without, Distinct, FirstAt;
    assert recent' == [cells[index].id] + Without(recent, cells[index].id);
    FrontOrder(cells, recent, order, recent', order', tick, p, index);
  }

  lemma FrontOrder<T>(cells: seq<Cell<T>>, recent: seq<T>, order: seq<nat>, recent': seq<T>, order': seq<nat>,
                      tick: nat, p: nat, index: nat)
    requires Tracks(cells, recent, order, tick) && p < |order| && order[p] == index && cells[index].used
    requires |order'| == |order| && |recent'| == |recent| && order'[0] == index && recent'[0] == recent[p]
    requires forall q :: 0 < q < |order| ==> order'[q] == order[if q <= p then q - 1 else q] && order'[q] != index
    requires forall q :: 0 < q < |recent| ==> recent'[q] == recent[if q <= p then q - 1 else q]
    requires Distinct(order') && forall x :: x in order' <==> x in order
    ensures Tracks(cells[index := cells[index].(tick := tick)], recent', order', tick + 1)
  {
    hide Distinct;
    var cells' := cells[index := cells[index].(tick := tick)];
    forall q | 0 < q < |order'| ensures cells'[order'[q]] == cells[order[if q <= p then q - 1 else q]] {
    }
    forall i, j | 0 <= i < j < |order'| ensures cells'[order'[i]].tick > cells'[order'[j]].tick {
      var l := if j <= p then j - 1 else j;
      assert cells'[order'[j]] == cells[order[l]];
      if i > 0 { assert cells'[order'[i]] == cells[order[if i <= p then i - 1 else i]]; }
    }
  }

  /** A use of a new element fills a free cell, or else the cell used longest ago. */
  lemma MissTracks<T>(cells: seq<Cell<T>>, recent: seq<T>, order: seq<nat>, tick: nat, index: nat, id: T) returns (order': seq<nat>)
    requires Tracks(cells, recent, order, tick)
    requires index < |cells|
    requires forall i :: 0 <= i < |cells| && cells[i].used ==> cells[i].id != id
    requires cells[index].used ==> forall i :: 0 <= i < |cells| ==> cells[i].used && cells[index].tick <= cells[i].tick
    ensures Tracks(cells[index := Cell(id, tick, true)], [id] + Without(recent, id), order', tick + 1)
  {
    hide Without;
    var n := Min(|order|, |cells| - 1);
    VictimIsOldest(cells, recent, order, tick, index);
    NewLength(cells, recent, order, tick, id);
    order' := [index] + order[..n];
    DistinctCons(index, order[..n]);
    MissUsed(cells, cells[index := Cell(id, tick, true)], order, index, Cell(id, tick, true));
    NewFront(cells, recent, order, [id] + Without(recent, id), order', tick, n, index, id);
  }

  lemma NewFront<T>(cells: seq<Cell<T>>, recent: seq<T>, order: seq<nat>, recent': seq<T>, order': seq<nat>,
                    tick: nat, n: nat, index: nat, id: T)
    requires Tracks(cells, recent, order, tick) && index < |cells| && n <= |order| && n <= |recent|
    requires order' == [index] + order[..n] && index !in order[..n] && Distinct(order')
    requires n + 1 == Min(|recent'|, |cells|) && recent'[0] == id && recent'[1..n + 1] == recent[..n]
    requires forall i :: 0 <= i < |cells| ==> (cells[index := Cell(id, tick, true)][i].used <==> i in order')
    ensures Tracks(cells[index := Cell(id, tick, true)], recent', order', tick + 1)
  {
    hide Distinct;
    var cells' := cells[index := Cell(id, tick, true)];
    forall q | 0 < q <= n
      ensures recent'[q] == recent[q - 1] && order'[q] == order[q - 1] && cells'[order'[q]] == cells[order[q - 1]]
    {
      assert order[q - 1] == order[..n][q - 1];
      assert recent[q - 1] == recent[..n][q - 1] == recent'[1..n + 1][q - 1];
    }
    forall p, q | 0 <= p < q < |order'| ensures cells'[order'[p]].tick > cells'[order'[q]].tick {
      assert cells'[order'[q]] == cells[order[q - 1]];
      if p > 0 { assert cells'[order'[p]] == cells[order[p - 1]]; }
    }
  }

  lemma MissUsed<T>(cells: seq<Cell<T>>, cells': seq<Cell<T>>, order: seq<nat>, index: nat, cell: Cell<T>)
    requires index < |cells| && cell.used && cells' == cells[index := cell]
    requires forall i :: 0 <= i < |cells| ==> (cells[i].used <==> i in order)
    requires if cells[index].used then |order| == |cells| && order[|cells| - 1] == index else |order| < |cells|
    ensures forall i :: 0 <= i < |cells| ==> (cells'[i].used <==> i in [index] + order[..Min(|order|, |cells| - 1)])
  {
    var n := Min(|order|, |cells| - 1);
    assert order == order[..n] + order[n..];
    assert cells[index].used ==> order[n..] == [index];
    assert !cells[index].used ==> order[n..] == [];
  }

  /** The victim is a free cell, or the last one of the order when the order fills the cells. */
  lemma VictimIsOldest<T>(cells: seq<Cell<T>>, recent: seq<T>, order: seq<nat>, tick: nat, index: nat)
    requires Tracks(cells, recent, order, tick)
    requires index < |cells|
    requires cells[index].used ==> forall i :: 0 <= i < |cells| ==> cells[i].used && cells[index].tick <= cells[i].tick
    ensures if cells[index].used then |order| == |cells| && order[|cells| - 1] == index else |order| < |cells|
    ensures index !in order[..Min(|order|, |cells| - 1)]
  {
    DistinctBelow(order, |cells|);
    if cells[index].used {
      CoverBelow(order, |cells|);
      var p := FirstAt(order, index);
      assert cells[order[|cells| - 1]].tick >= cells[index].tick;
    }
  }

  lemma NewLength<T>(cells: seq<Cell<T>>, recent: seq<T>, order: seq<nat>, tick: nat, id: T)
    requires Tracks(cells, recent, order, tick)
    requires forall i :: 0 <= i < |cells| && cells[i].used ==> cells[i].id != id
    ensures Min(|order|, |cells| - 1) + 1 == Min(1 + |Without(recent, id)|, |cells|)
    ensures var n := Min(|order|, |cells| - 1); n <= |Without(recent, id)| && Without(recent, id)[..n] == recent[..n]
  {
    forall p | 0 <= p < |order| ensures recent[p] != id { assert order[p] in order; }
    WithoutKeepsPrefix(recent, id, Min(|order|, |cells| - 1));
  }

  /** The used cells hold the first elements of `recent`, ... */
  lemma HeldIsRecent<T>(cells: seq<Cell<T>>, recent: seq<T>, order: seq<nat>, tick: nat)
    requires Tracks(cells, recent, order, tick)
    ensures forall i :: 0 <= i < |cells| && cells[i].used ==> cells[i].id in recent[..Min(|recent|, |cells|)]
  {
    forall i | 0 <= i < |cells| && cells[i].used ensures cells[i].id in recent[..|order|] {
      var p := FirstAt(order, i);
      assert recent[..|order|][p] == cells[i].id;
    }
  }

  /** ... all of them ... */
  lemma Holder<T>(cells: seq<Cell<T>>, recent: seq<T>, order: seq<nat>, tick: nat, k: nat) returns (i: nat)
    requires Tracks(cells, recent, order, tick) && k < Min(|recent|, |cells|)
    ensures i < |cells| && cells[i].used && cells[i].id == recent[k]
  {
    i := order[k];
    assert i in order;
  }

  /** ... one cell each. */
  lemma HeldOnce<T>(cells: seq<Cell<T>>, recent: seq<T>, order: seq<nat>, tick: nat, i: nat, j: nat)
    requires Tracks(cells, recent, order, tick) && Distinct(recent)
    requires i < j < |cells| && cells[i].used && cells[j].used
    ensures cells[i].id != cells[j].id
  {
    var p, q := FirstAt(order, i), FirstAt(order, j);
    assert cells[i].id == recent[p] && cells[j].id == recent[q];
  }
}
