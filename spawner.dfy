/** The item spawner: the item it creates, given the outcome of its random
    draw (true for a blue drop, drawn with probability 0.6). */
module Spawner {
  import opened Entities

  /** A new item enters just beyond the right edge of the canvas, on the ground
      line, with the standard radius; it is a blue drop exactly when the draw said so. */
  function NewItem(width: real, groundY: real, isBlue: bool): (it: Item)
    ensures it.x == width + ItemRadius && it.y == groundY && it.r == ItemRadius
    ensures it.kind == Blue <==> isBlue
    ensures it.color == (if it.kind == Blue then "#1cc6f7" else "#111")
  {
    Item(width + ItemRadius,
         groundY - (if isBlue then 0.0 else 0.0),
         ItemRadius,
         if isBlue then "#1cc6f7" else "#111",
         if isBlue then Blue else Black)
  }
}
