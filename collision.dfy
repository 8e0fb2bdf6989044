/** Collision and scoring: what one tick does to each item, stated item by item
    (FateOf) and for a whole list of items (Survivors, CountFate, Hits). The
    game's update loop is proved against these definitions. */
module Collision {
  import opened Entities

  /** An item after one tick of scrolling: moved left by ItemSpeed, nothing else changed. */
  function Moved(it: Item): (m: Item)
    ensures m.x == it.x - ItemSpeed
    ensures m.(x := it.x) == it
  {
    it.(x := it.x - ItemSpeed)
  }

  /** The overlap test between an item's bounding square (side r) and the actor's rectangle. */
  predicate Overlaps(it: Item, p: Player)
  {
    it.x < p.x + p.w && it.x + it.r > p.x && it.y + it.r > p.y && it.y < p.y + p.h
  }

  /** What one tick does to an item. */
  datatype Fate =
    | Collected  // it overlaps the actor after moving: its effect applies and it is removed
    | Expired    // it does not overlap and has passed the left edge: removed with no effect
    | Survives   // it stays, moved

  /** The fate of one item against the actor as positioned after the gravity step.
      The overlap is tested first, so a colliding item never expires. */
  function FateOf(it: Item, p: Player): Fate
  {
    var m := Moved(it);
    if Overlaps(m, p) then Collected
    else if m.x < -ItemRadius then Expired
    else Survives
  }

  /** Collision and expiry could not compete anyway for an item no wider than
      ItemRadius and an actor to the right of the canvas's left edge. Every
      spawned item has r == ItemRadius and the actor's x stays at 50 (neither
      Jumped nor Fall changes it), so in play the order of the two removal
      tests never matters. */
  lemma CollisionExcludesExpiry(it: Item, p: Player)
    requires it.r <= ItemRadius && p.x >= 0.0
    ensures Overlaps(Moved(it), p) ==> !(Moved(it).x < -ItemRadius)
  {
  }

  /** The items that are left after one tick, moved, in their original order. */
  function Survivors(s: seq<Item>, p: Player): (r: seq<Item>)
    ensures |r| <= |s|
  {
    if s == [] then []
    else (if FateOf(s[0], p) == Survives then [Moved(s[0])] else []) + Survivors(s[1..], p)
  }

  /** Peeling the item at index i off the front of the suffix s[i..]: the
      step the game's reverse loop takes on every iteration. */
  lemma SuffixStep(s: seq<Item>, p: Player, i: nat)
    requires i < |s|
    ensures Survivors(s[i..], p)
            == (if FateOf(s[i], p) == Survives then [Moved(s[i])] else []) + Survivors(s[i + 1..], p)
    ensures Hits(s[i..], p, Blue)
            == (if FateOf(s[i], p) == Collected && s[i].kind == Blue then 1 else 0) + Hits(s[i + 1..], p, Blue)
    ensures Hits(s[i..], p, Black)
            == (if FateOf(s[i], p) == Collected && s[i].kind == Black then 1 else 0) + Hits(s[i + 1..], p, Black)
  {
    assert s[i..][1..] == s[i + 1..];
  }

  /** How many items of s meet the given fate. */
  function CountFate(s: seq<Item>, p: Player, f: Fate): (n: nat)
    ensures n <= |s|
  {
    if s == [] then 0
    else (if FateOf(s[0], p) == f then 1 else 0) + CountFate(s[1..], p, f)
  }

  /** How many items of s of the given kind collide with the actor. */
  function Hits(s: seq<Item>, p: Player, k: Kind): (n: nat)
    ensures n <= CountFate(s, p, Collected)
  {
    if s == [] then 0
    else (if FateOf(s[0], p) == Collected && s[0].kind == k then 1 else 0) + Hits(s[1..], p, k)
  }

  /** The indices, from `from` on, of the items of s that survive the tick, in increasing order. */
  function KeptIndices(s: seq<Item>, p: Player, from: nat): (idx: seq<nat>)
    requires from <= |s|
    decreases |s| - from
    ensures forall k :: 0 <= k < |idx| ==> from <= idx[k] < |s| && FateOf(s[idx[k]], p) == Survives
    ensures forall k, l :: 0 <= k < l < |idx| ==> idx[k] < idx[l]
    ensures forall j :: from <= j < |s| && FateOf(s[j], p) == Survives ==> j in idx
  {
    if from == |s| then []
    else (if FateOf(s[from], p) == Survives then [from] else []) + KeptIndices(s, p, from + 1)
  }

  /** The survivors are exactly the surviving items, in their original order,
      each moved left by ItemSpeed and otherwise unchanged. */
  lemma {:induction false} SurvivorsKeepOrder(s: seq<Item>, p: Player, from: nat)
    requires from <= |s|
    decreases |s| - from
    ensures |Survivors(s[from..], p)| == |KeptIndices(s, p, from)|
    ensures forall k :: 0 <= k < |KeptIndices(s, p, from)| ==>
              Survivors(s[from..], p)[k] == Moved(s[KeptIndices(s, p, from)[k]])
  {
    if from < |s| {
      SurvivorsKeepOrder(s, p, from + 1);
      assert s[from..][1..] == s[from + 1..];
    }
  }

  /** Every item meets exactly one fate, every collision is with an item of
      one of the two kinds, and the survivors are the items that survive. */
  lemma {:induction false} FatesPartition(s: seq<Item>, p: Player)
    ensures CountFate(s, p, Collected) + CountFate(s, p, Expired) + CountFate(s, p, Survives) == |s|
    ensures Hits(s, p, Blue) + Hits(s, p, Black) == CountFate(s, p, Collected)
    ensures |Survivors(s, p)| == CountFate(s, p, Survives)
  {
    if s != [] {
      FatesPartition(s[1..], p);
    }
  }

  /** Every item of s lies on the horizontal line y. */
  predicate AllAt(s: seq<Item>, y: real)
  {
    forall j :: 0 <= j < |s| ==> s[j].y == y
  }

  /** Scrolling keeps items on their line, so items that all lie on one line still do after a tick. */
  lemma {:induction false} SurvivorsStayAt(s: seq<Item>, p: Player, y: real)
    requires AllAt(s, y)
    ensures AllAt(Survivors(s, p), y)
  {
    if s != [] {
      SurvivorsStayAt(s[1..], p, y);
    }
  }

  /** Items lying on the ground line never overlap an actor that does not reach
      below it: the vertical test `item.y < actor.y + actor.h` fails. So no
      such item is collected and the tick changes neither score nor lives. */
  lemma {:induction false} GroundItemsNeverCollide(s: seq<Item>, p: Player, groundY: real)
    requires AllAt(s, groundY)
    requires p.y + p.h <= groundY
    ensures CountFate(s, p, Collected) == 0
    ensures Hits(s, p, Blue) == 0 && Hits(s, p, Black) == 0
  {
    if s != [] {
      GroundItemsNeverCollide(s[1..], p, groundY);
    }
  }
}
