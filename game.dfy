/** The game state and the operations the host drives: the jump control, the
    spawn timer's callback and the per-frame update. */
module WaterGame {
  import opened Entities
  import opened Physics
  import opened Collision
  import opened Spawner

  class Game {
    /** Canvas width; items enter just beyond it. */
    const width: real
    /** The ground line, 0.65 of the canvas height. */
    const groundY: real

    var lives: int
    var score: int
    var player: Player
    var items: seq<Item>
    /** Set once lives have run out; stands for the game-over notification and page reload. */
    var over: bool

    /** The state a game starts in, and returns to on reset. */
    ghost predicate Initial()
      reads this
    {
      lives == InitialLives && score == 0 && player == StartPlayer(groundY) && items == [] && !over
    }

    /** Every active item lies on the ground line, as every spawned item does. */
    ghost predicate ItemsAtGround()
      reads this
    {
      AllAt(items, groundY)
    }

    constructor (width: real, height: real)
      ensures this.width == width && groundY == GroundLine(height)
      ensures Initial() && Resting(player, groundY)
    {
      this.width := width;
      groundY := GroundLine(height);
      lives := InitialLives;
      score := 0;
      player := StartPlayer(GroundLine(height));
      items := [];
      over := false;
    }

    /** The jump control: an actor on the ground gets the upward impulse
        and becomes airborne; pressing again in the air does nothing. */
    method Jump()
      modifies this`player
      ensures player == Jumped(old(player))
      ensures old(player.jumping) ==> player == old(player)
      ensures !old(player.jumping) ==> player == old(player).(vy := JumpVelocity, jumping := true)
    {
      if !player.jumping {
        player := player.(vy := JumpVelocity);
        player := player.(jumping := true);
      }
    }

    /** The spawn timer's callback; isBlue is the outcome of its random draw.
        Exactly one item is appended and the existing items are untouched. */
    method SpawnItem(isBlue: bool)
      modifies this`items
      ensures items == old(items) + [NewItem(width, groundY, isBlue)]
      ensures |items| == |old(items)| + 1 && items[..|old(items)|] == old(items)
      ensures old(ItemsAtGround()) ==> ItemsAtGround()
    {
      items := items + [NewItem(width, groundY, isBlue)];
      assert items[..|old(items)|] == old(items);
    }

    /** One frame of the simulation: gravity and the ground clamp, then every
        item scrolls and is collected, expires or survives, then the game-over
        test. */
    method Update()
      modifies this`player, this`items, this`score, this`lives, this`over
      ensures player == Fall(old(player), groundY)
      ensures player.y + player.h <= groundY
      ensures items == Survivors(old(items), player)
      ensures |items| == |old(items)| - CountFate(old(items), player, Collected)
                                      - CountFate(old(items), player, Expired)
      ensures score == old(score) + BluePoints * Hits(old(items), player, Blue)
      ensures lives == old(lives) - Hits(old(items), player, Black)
      ensures over == (old(over) || lives <= 0)
      ensures old(ItemsAtGround()) ==> ItemsAtGround() && score == old(score) && lives == old(lives)
    {
      ApplyGravity();
      ScrollItems();
      FatesPartition(old(items), player);
      GroundFacts(old(items));
      if lives <= 0 {
        over := true;
      }
    }

    /** The first part of a frame: gravity, then the ground clamp. */
    method ApplyGravity()
      modifies this`player
      ensures player == Fall(old(player), groundY)
    {
      player := player.(vy := player.vy + Gravity);
      player := player.(y := player.y + player.vy);
      if player.y > groundY - player.h {
        player := player.(y := groundY - player.h);
        player := player.(vy := 0.0);
        player := player.(jumping := false);
      }
    }

    /** The second part of a frame: the reverse loop over the items. Each item
        moves left; one that overlaps the actor adds to the score (blue) or
        costs a life (black) and is removed; one that has passed the left edge
        is removed; the others stay. Removing index i leaves the indices
        below i, which are still to be visited, where they were. */
    method ScrollItems()
      modifies this`items, this`score, this`lives
      ensures items == Survivors(old(items), player)
      ensures score == old(score) + BluePoints * Hits(old(items), player, Blue)
      ensures lives == old(lives) - Hits(old(items), player, Black)
    {
      ghost var s0 := items;
      assert s0[..|s0|] == s0 && s0[|s0|..] == [];
      for i := |items| downto 0
        invariant items == s0[..i] + Survivors(s0[i..], player)
        invariant score == old(score) + BluePoints * Hits(s0[i..], player, Blue)
        invariant lives == old(lives) - Hits(s0[i..], player, Black)
      {
        SuffixStep(s0, player, i);
        ghost var rest := Survivors(s0[i + 1..], player);
        SeqShapes(s0[..i], s0[i], rest, Moved(s0[i]));
        assert s0[..i + 1] == s0[..i] + [s0[i]];
        items := items[i := items[i].(x := items[i].x - ItemSpeed)];
        assert items == s0[..i] + [Moved(s0[i])] + rest;
        if items[i].x < player.x + player.w &&
           items[i].x + items[i].r > player.x &&
           items[i].y + items[i].r > player.y &&
           items[i].y < player.y + player.h
        {
          if items[i].kind == Blue {
            score := score + BluePoints;
          } else {
            lives := lives - 1;
          }
          items := items[..i] + items[i + 1..];
          assert FateOf(s0[i], player) == Collected && items == s0[..i] + rest;
          assert Survivors(s0[i..], player) == rest;
          continue;
        }
        if items[i].x < -ItemRadius {
          items := items[..i] + items[i + 1..];
          assert FateOf(s0[i], player) == Expired && items == s0[..i] + rest;
          assert Survivors(s0[i..], player) == rest;
        } else {
          assert FateOf(s0[i], player) == Survives;
          assert Survivors(s0[i..], player) == [Moved(s0[i])] + rest;
          assert items == s0[..i] + ([Moved(s0[i])] + rest);
        }
      }
      assert s0[0..] == s0;
    }

    /** The sequence facts one iteration of the item loop relies on: replacing
        x by m, and removing the element between a and b. */
    static lemma SeqShapes(a: seq<Item>, x: Item, b: seq<Item>, m: Item)
      ensures (a + [x] + b)[|a| := m] == a + [m] + b
      ensures (a + [m] + b)[|a|] == m
      ensures (a + [m] + b)[..|a|] + (a + [m] + b)[|a| + 1..] == a + b
    {
      assert (a + [m] + b)[..|a|] == a;
      assert (a + [m] + b)[|a| + 1..] == b;
    }

    /** What a tick does to items that all lie on the ground line. */
    lemma GroundFacts(s: seq<Item>)
      ensures AllAt(s, groundY) ==> AllAt(Survivors(s, player), groundY)
      ensures AllAt(s, groundY) && player.y + player.h <= groundY ==>
                Hits(s, player, Blue) == 0 && Hits(s, player, Black) == 0
    {
      if AllAt(s, groundY) {
        SurvivorsStayAt(s, player, groundY);
        if player.y + player.h <= groundY {
          GroundItemsNeverCollide(s, player, groundY);
        }
      }
    }

    /** The restart after game over: every variable gets its initial value again. */
    method Reset()
      modifies this`player, this`items, this`score, this`lives, this`over
      ensures Initial()
    {
      lives := InitialLives;
      score := 0;
      player := StartPlayer(groundY);
      items := [];
      over := false;
    }
  }
}
