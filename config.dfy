/** The numeric settings of the engine, with the defaults the program ships. */
module MemoryConfig {

  /** An exact fraction standing in for a Python float setting. */
  datatype Rational = Rational(num: int, den: int)

  datatype Config = Config(
    statesTokenThreshold: int,
    shortTermMaxCount: int,
    shortTermHotCacheSize: nat,
    longTermHotCacheSize: nat,
    hpBoostOnAccess: int,
    hpDecayRate: Rational,
    relevanceThreshold: Rational,
    maxMemoriesInContext: int,
    deepSearchLimit: int,
    keywordWeight: Rational,
    vectorWeight: Rational)
  {
    predicate Valid() { hpDecayRate.den > 0 }
  }

  const DefaultConfig: Config := Config(
    80000, 10, 5, 10, 5, Rational(1, 10), Rational(6, 10), 3, 20, Rational(1, 2), Rational(1, 2))

  lemma DefaultIsValid()
    ensures DefaultConfig.Valid()
    ensures DefaultConfig.hpDecayRate == Rational(1, 10) && DefaultConfig.shortTermMaxCount == 10
  {
  }
}
