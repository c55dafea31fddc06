/** The derived field of `PlayerSlotSerializer`. */
module PlayerSlotSerializer {
  import opened Records

  /** `player_username`: the assigned player's username, or null for an open
      slot. A user row is always truthy, so `get_player_username`'s test on the player
      is a test for its presence; an empty username is still reported. */
  function PlayerUsername(slot: PlayerSlot): (r: Option<string>)
    ensures r.None? <==> slot.player.None?
    ensures slot.player.Some? ==> r == Some(slot.player.value.username)
  {
    match slot.player
    case Some(u) => Some(u.username)
    case None => None
  }
}
