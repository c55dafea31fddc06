/** The records the serializers of the match-organising API read and write:
    users, matches and the per-team player slots of a match. Only the fields
    the serializer logic looks at are kept; the rest of each row is payload
    that passes through untouched. */
module Records {

  /** An optional value: a nullable foreign key or a nullable JSON field. */
  datatype Option<+T> = None | Some(value: T)

  /** A registered user, reduced to the primary key and the username. */
  datatype User = User(id: nat, username: string)

  /** A scheduled match. `playerCount` is the number of players per team as
      stored; place, coordinates, date/time, formation and field type are
      opaque to the logic modelled here. */
  datatype Match = Match(id: nat, playerCount: int)

  /** One assignable position in one team of one match. The team is stored
      as a plain integer; `player` is absent while the slot is open. */
  datatype PlayerSlot = PlayerSlot(matchId: nat, team: int, slotNumber: int, player: Option<User>)

  /** The two team numbers match creation writes. */
  const TeamOne: int := 1
  const TeamTwo: int := 2
}
