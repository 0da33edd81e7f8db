/**
 * The memory record. Its integer `hp` is both the tier tag (1 means
 * short-term, more than 1 long-term) and the rank inside the long-term tier.
 */
module MemoryItems {

  type UserId = string
  type MemoryId = string

  /**
   * One memory. `timestamp` is the creation time in whole seconds; the
   * embedding is an opaque vector that the engine only copies.
   */
  datatype MemoryItem = MemoryItem(
    id: MemoryId,
    content: string,
    embedding: seq<real>,
    timestamp: int,
    hp: int,
    userId: UserId)
  {
    predicate IsAlive() { hp > 0 }

    predicate IsShortTerm() { hp == 1 }

    predicate IsLongTerm() { hp > 1 }

    /** "short_term" exactly for hp 1; everything else, hp <= 0 included, reads "long_term". */
    function MemoryType(): (t: string)
      ensures t == "short_term" <==> hp == 1
      ensures t != "short_term" ==> t == "long_term"
    {
      if IsShortTerm() then "short_term" else "long_term"
    }
  }

  /**
   * A freshly built item: the dataclass default gives hp 1. The id stands for
   * the `uuid4` the dataclass draws; the caller supplies it.
   */
  function NewMemoryItem(id: MemoryId, content: string, embedding: seq<real>, timestamp: int, userId: UserId): (m: MemoryItem)
    ensures m.IsShortTerm() && m.IsAlive() && !m.IsLongTerm()
    ensures m.id == id && m.content == content && m.embedding == embedding
    ensures m.timestamp == timestamp && m.userId == userId
  {
    MemoryItem(id, content, embedding, timestamp, 1, userId)
  }

  /** The two tiers never overlap, and from hp 1 upward every item is in one of them. */
  lemma TiersDisjoint(m: MemoryItem)
    ensures !(m.IsShortTerm() && m.IsLongTerm())
    ensures m.hp >= 1 ==> (m.IsShortTerm() != m.IsLongTerm())
  {
  }

  /** Alive means hp > 0, so every long-term item is alive; hp <= 0 is neither tier yet typed "long_term". */
  lemma AliveAndTiers(m: MemoryItem)
    ensures m.IsAlive() <==> m.hp > 0
    ensures m.IsLongTerm() ==> m.IsAlive()
    ensures m.hp <= 0 ==> !m.IsShortTerm() && !m.IsLongTerm() && m.MemoryType() == "long_term"
  {
  }
}
