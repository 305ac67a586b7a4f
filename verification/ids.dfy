/**
 * Identifiers shared across the ECS: component type ids, ticks, entity ids and their
 * u64 packing (ecs/entities/mod.rs), archetype ids and entity locations
 * (ecs/entities/tracking.rs).
 */
module Ids {
  const U32_LIMIT: nat := 0x1_0000_0000

  type U32 = n: nat | n < U32_LIMIT

  type U64 = n: nat | n < U32_LIMIT * U32_LIMIT

  /** A component's `TypeId`. */
  type TypeId = nat

  /** `Tick { value: usize }`; `increment` adds one. */
  type Tick = nat

  /**
   * `ArchetypeId` is a hash of the archetype's sorted component type ids; the model keys
   * archetypes by that sorted list itself, i.e. it treats the hash as collision-free.
   */
  type ArchetypeId = seq<TypeId>

  datatype EntityId = EntityId(index: U32, generation: U32)

  datatype EntityLocation = EntityLocation(archetypeId: ArchetypeId, index: nat)

  /**
   * `to_bits`: `index | (generation << 32)`. Both fields fit in 32 bits, so the or of the
   * shifted halves is their sum (see `PackIsAddition`); the model computes it that way.
   */
  function ToBits(id: EntityId): (b: U64)
    ensures b % U32_LIMIT == id.index && b / U32_LIMIT == id.generation
  {
    id.index + id.generation * U32_LIMIT
  }

  /** `from_bits`: the low 32 bits are the index, the next 32 bits the generation. */
  function FromBits(b: U64): (id: EntityId)
    ensures ToBits(id) == b
  {
    EntityId(b % U32_LIMIT, b / U32_LIMIT)
  }

  lemma FromBitsToBits(id: EntityId)
    ensures FromBits(ToBits(id)) == id
  {
  }

  /** On 64-bit words whose halves fit in 32 bits, `lo | hi << 32` equals `lo + hi * 2^32`. */
  lemma PackIsAddition(lo: bv64, hi: bv64)
    requires lo < 0x1_0000_0000 && hi < 0x1_0000_0000
    ensures lo | (hi << 32) == lo + hi * 0x1_0000_0000
  {
  }

  /** The masks of `from_bits` are remainder and quotient by `2^32`. */
  lemma UnpackIsDivision(b: bv64)
    ensures b & 0xFFFF_FFFF == b % 0x1_0000_0000
    ensures (b >> 32) & 0xFFFF_FFFF == b / 0x1_0000_0000
  {
  }
}
