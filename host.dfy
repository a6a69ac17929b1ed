/** What the model needs to know about an online player. Everything else the
    server knows (world, group, PlaceholderAPI values) is passed in as a
    function of the player. */
module Host {
  datatype Player = Player(name: string, uuid: string)

  /** The UUIDs of the given players. */
  function Uuids(ps: seq<Player>): (r: set<string>)
    ensures forall i :: 0 <= i < |ps| ==> ps[i].uuid in r
  {
    set p | p in ps :: p.uuid
  }
}
