# Water game simulation, modelled in Dafny

The water game is a small canvas arcade game. An actor stands on a ground line and can jump. Blue and black drops scroll in from the right. Catching a blue drop scores 2 points, touching a black drop costs one of five lives, and the game is over once no lives are left. This project models the game's per-frame simulation in `app.js` and proves properties of it:

- the jump control;
- the spawn timer's callback, which appends one drop;
- the per-frame update: gravity and the ground clamp on the actor, then the reverse loop over the drops (scroll, collide, score or lose a life, splice out), then the game-over test.

Coordinates are exact `real`s. The canvas width and height come from the page, so they are parameters of the `Game` constructor; the ground line is 0.65 of the height.

Files, one module each:

- `entities.dfy` (`Entities`): the `Item` and `Player` records, the item `Kind`, the game's constants and the starting actor.
- `physics.dfy` (`Physics`): the jump (`Jumped`) and one gravity tick (`Fall`) as functions of the actor. It also proves that a jump from rest lasts exactly 40 ticks.
- `collision.dfy` (`Collision`): what one tick does to each drop (`FateOf`: `Collected`, `Expired` or `Survives`) and to a whole list (`Survivors`, `CountFate`, `Hits`), with lemmas about order, counts and the ground line.
- `spawner.dfy` (`Spawner`): the drop the spawner creates (`NewItem`).
- `game.dfy` (`WaterGame`): the class `Game`. It holds lives, score, the actor, the list of drops and a game-over flag, and its methods `Jump`, `SpawnItem`, `Update` and `Reset` change them in place. Each method is proved against the functions above. The item loop is the source's reverse `for` loop. It overwrites `items[i]` with the moved drop and splices index `i` out of the `items` field.

A consequence proved here (`Collision.GroundItemsNeverCollide`, and the last postcondition of `WaterGame.Game.Update`): every spawned drop lies on the ground line, because the vertical offset `(isBlue ? 0 : 0)` is zero either way. The ground clamp keeps the actor's bottom at or above that line. So the overlap test `item.y < player.y + player.h` never holds. Under exact arithmetic, no drop is ever caught or hit, and score and lives never change. The model keeps each drop's `y` as a general field, so the collision branch is still modelled and its effects are still proved.

## Model

| member | source | states |
|---|---|---|
| Entities.StartPlayer | app.js:16-25 | The actor starts with its bottom on the ground line, standing still and not airborne. |
| Physics.Jumped | app.js:44-49 | Jumping while airborne changes nothing. Jumping from the ground sets the vertical velocity to -10 and marks the actor airborne. No other field of the actor changes. |
| Physics.JumpIsIdempotent | app.js:44-49 | A second jump before landing is a no-op, and after a jump the actor is always airborne. |
| Physics.Fall | app.js:67-76 | After the gravity tick the actor's bottom is never below the ground line. When the clamp fires, the actor rests on the line with velocity 0 and is not airborne. Otherwise velocity grows by 0.5, the actor moves by the new velocity, and the airborne flag is kept. x, w and h never change. |
| Physics.RestingIsStable | app.js:68-76 | A gravity tick leaves an actor that rests on the ground exactly where it is. |
| Physics.JumpArc | app.js:68-76 | For k up to 39 ticks after a jump from rest, the actor is airborne with velocity -10 + 0.5k, at height k(k-39)/4 relative to its start. The clamp never fires in that span. |
| Physics.JumpLandsAfterFortyTicks | app.js:44-76 | A jump from rest keeps the actor airborne for ticks 0 to 39. The 40th tick lands it back in exactly its starting state. |
| Collision.Moved | app.js:80 | Scrolling moves a drop left by 3 and changes none of its other fields. |
| Collision.CollisionExcludesExpiry | app.js:83-101 | Take a drop no wider than the item radius, and an actor at x >= 0. If the drop overlaps the actor, it has not passed the left edge, so a drop never satisfies both removal tests. Every spawned drop has r = 16 and the actor's x stays 50, so this backs the claim that the order of the two removal tests never matters in play. |
| Collision.Overlaps | app.js:83-88 | A definition without a contract: the overlap test between the drop's bounding square (side r) and the actor's rectangle, exactly the four comparisons of the source. |
| Collision.FateOf | app.js:80-101 | A definition without a contract: the per-drop branch. The drop is moved first; if it then overlaps the actor it is collected, else if its x is below -16 it expires, else it survives. |
| Collision.Survivors | app.js:79-101 | The drops left after the loop, moved. Its contract says only that there are at most as many as before; it is characterised by `KeptIndices` and `SurvivorsKeepOrder`. |
| Collision.CountFate | app.js:79-101 | The number of drops that meet a given fate, never more than the number of drops. |
| Collision.Hits | app.js:89-93 | The number of collected drops of a given kind: never more than all collected drops. Score rises by 2 per blue hit and lives fall by 1 per black hit. |
| Collision.KeptIndices | app.js:79-101 | The indices of the drops that survive a tick, strictly increasing. Every index listed survives, and every surviving index is listed. |
| Collision.SurvivorsKeepOrder | app.js:79-101 | The drops left after a tick are exactly the surviving drops, in their original relative order. Each is moved left by 3 and is otherwise unchanged. |
| Collision.FatesPartition | app.js:83-101 | Every drop meets exactly one of the fates collected, expired or survives. Every collected drop is either blue or black. The survivors number exactly the surviving drops. |
| Collision.SurvivorsStayAt | app.js:79-101 | Drops that all lie on one horizontal line still do after a tick. |
| Collision.GroundItemsNeverCollide | app.js:83-88 | Drops on the ground line never overlap an actor whose bottom is at or above it: none is collected, and no blue or black drop counts as a hit. |
| Spawner.NewItem | app.js:52-62 | A new drop starts at x = width + 16 and y = the ground line, with radius 16. It is blue exactly when the draw says so, and its colour follows its kind. |
| WaterGame.Game.constructor | app.js:13-28 | A new game has 5 lives, score 0, the starting actor resting on the ground, no drops, and is not over. |
| WaterGame.Game.Jump | app.js:44-49 | Only the actor changes, and it becomes Jumped of the old actor: a no-op while airborne, otherwise the impulse -10 and the airborne flag. |
| WaterGame.Game.SpawnItem | app.js:52-62 | Exactly one drop, NewItem, is appended at the end. The existing drops and every other variable are unchanged. If all drops lay on the ground line before, they still do. |
| WaterGame.Game.ApplyGravity | app.js:67-76 | Only the actor changes, and it becomes Fall of the old actor. |
| WaterGame.Game.ScrollItems | app.js:78-102 | The reverse splice loop leaves exactly the survivors, moved and in order. Score rises by 2 per blue drop caught, and lives fall by 1 per black drop hit. |
| WaterGame.Game.Update | app.js:66-113 | A frame applies Fall to the actor, so its bottom ends at or above the ground line. The drops become the survivors of the old drops. Their number falls by exactly the collected plus the expired drops. Score rises by 2 per blue hit and lives fall by 1 per black hit. The game is over exactly when it already was or lives are at most 0. If all drops lay on the ground line, they still do, and score and lives are unchanged. |
| WaterGame.Game.Reset | app.js:13-28 | A restart returns lives, score, the actor, the drops and the game-over flag to their initial values. |

## Left out

- Drawing (`draw`, the background, hills, platforms, actor and drop shapes) is presentation only. The `platforms` list is used only for drawing.
- The DOM is not modelled: the jump button and Space-key listeners, the canvas lookup and the HUD text writes of lives and score. The canvas width and height are constructor parameters.
- The host timers are not modelled: the 1.2-second spawn interval and the animation-frame loop. `SpawnItem` and `Update` are separate methods that the host may interleave in any order.
- `Math.random` is a foreign call. Its outcome (`< 0.6`) is the `isBlue` parameter of `SpawnItem`. The 60/40 ratio is statistical and not modelled.
- The game-over `alert` and page reload are host side effects. They are modelled as the `over` flag plus the `Reset` method, which restores the values the script starts with. In the page, no frame runs once the game is over. In the model, `Update` can still be called, and `over` stays set.
- IEEE floating point is not modelled. `HEIGHT * 0.65`, the velocity sums and `(GROUND_Y - 40) + 40` are exact reals here. With rounding, a drop at rest level could in principle pass the vertical overlap test, so the "no drop ever collides" result holds for exact arithmetic only.
- Aliasing is not modelled: drops are values in a sequence, not shared objects. The source creates a fresh object on every push, so no drop object is ever in the list twice.
- The code walks the drops from the last to the first, and the model does the same. Score and lives are sums, so their final values do not depend on the order. The expiry test compares with the constant `-ITEM_RADIUS`, not the drop's own radius, and the model does the same.
