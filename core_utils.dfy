/** core/utils.py, get_seed: each validator uid owns a disjoint block of
    seed_chunk_size consecutive seeds, and a seed is drawn from its block. */
module CoreUtils {
  import opened Wrappers

  /** The inclusive bounds passed to randint. */
  function SeedLow(seedChunkSize: int, validatorUid: nat): int {
    seedChunkSize * validatorUid
  }

  function SeedHigh(seedChunkSize: int, validatorUid: nat): int {
    seedChunkSize * (validatorUid + 1) - 1
  }

  /** get_seed with randint's choice as the input `pick`: the seed is the
      pick-th value of the range (modulo its size); randint raises ValueError
      when the range is empty, which happens exactly when the chunk size is
      below 1. */
  function GetSeed(seedChunkSize: int, validatorUid: nat, pick: nat): (r: Result<int, string>)
    ensures r.Success? <==> seedChunkSize >= 1
    ensures r.Success? ==> seedChunkSize * validatorUid <= r.value <= seedChunkSize * (validatorUid + 1) - 1
  {
    var lo := SeedLow(seedChunkSize, validatorUid);
    var hi := SeedHigh(seedChunkSize, validatorUid);
    assert hi - lo == seedChunkSize - 1;
    if hi < lo then Failure("empty range for randrange()")
    else Success(lo + pick % (hi - lo + 1))
  }

  /** The range holds exactly seed_chunk_size values, and every one of them
      can be drawn. */
  lemma SeedRangeIsExact(seedChunkSize: int, validatorUid: nat, v: int)
    requires seedChunkSize >= 1
    ensures SeedHigh(seedChunkSize, validatorUid) - SeedLow(seedChunkSize, validatorUid) + 1 == seedChunkSize
    ensures SeedLow(seedChunkSize, validatorUid) <= v <= SeedHigh(seedChunkSize, validatorUid) ==>
              GetSeed(seedChunkSize, validatorUid, (v - SeedLow(seedChunkSize, validatorUid)) as nat) == Success(v)
  {
    var lo := SeedLow(seedChunkSize, validatorUid);
    var hi := SeedHigh(seedChunkSize, validatorUid);
    assert hi - lo + 1 == seedChunkSize;
  }

  /** Two distinct validators never draw the same seed. */
  lemma {:induction false} SeedRangesDisjoint(seedChunkSize: int, uid1: nat, uid2: nat, pick1: nat, pick2: nat)
    requires seedChunkSize >= 1 && uid1 != uid2
    ensures GetSeed(seedChunkSize, uid1, pick1).value != GetSeed(seedChunkSize, uid2, pick2).value
  {
    var s1 := GetSeed(seedChunkSize, uid1, pick1).value;
    var s2 := GetSeed(seedChunkSize, uid2, pick2).value;
    if uid1 < uid2 {
      BlocksOrdered(seedChunkSize, uid1, uid2);
    } else {
      BlocksOrdered(seedChunkSize, uid2, uid1);
    }
  }

  /** The block of a lower uid ends before the block of a higher uid starts. */
  lemma BlocksOrdered(seedChunkSize: int, lower: nat, higher: nat)
    requires seedChunkSize >= 1 && lower < higher
    ensures SeedHigh(seedChunkSize, lower) < SeedLow(seedChunkSize, higher)
  {
    var gap: nat := higher - lower - 1;
    assert seedChunkSize * higher == seedChunkSize * (lower + 1) + seedChunkSize * gap;
    assert seedChunkSize * gap >= 0;
  }
}
