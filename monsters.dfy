/**
 * The entity updates the push pipeline relays (Plugin.Sync.Model).
 * The contents of part and ailment states are not part of this model: each is an
 * opaque snapshot whose only use here is structural equality.
 */
module Monsters {

  /** One part-state snapshot (MonsterPartModel). */
  datatype PartModel = PartModel(state: seq<int>)

  /** One ailment-state snapshot (AilmentModel). */
  datatype AilmentModel = AilmentModel(state: seq<int>)

  /**
   * MonsterModel: the flat update pushed for one tracked slot. Datatype equality is
   * the structural equality the source relies on when it compares against the cache.
   */
  datatype MonsterModel = MonsterModel(
    id: string,
    index: int,
    parts: seq<PartModel>,
    ailments: seq<AilmentModel>)

  /**
   * The domain monster as observed by the producer; its parts and ailments are given
   * already in their mapped form, since FromDomain is not part of this model.
   */
  datatype Monster = Monster(id: string, parts: seq<PartModel>, ailments: seq<AilmentModel>)

  /** MapMonster: the update for `monster` observed in slot `index`. */
  function MapMonster(monster: Monster, index: int): MonsterModel {
    MonsterModel(monster.id, index, monster.parts, monster.ailments)
  }
}
