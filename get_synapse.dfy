/** validation/proxy/get_synapse.py: the request sent to a miner is the
    client's body with its seed replaced by one from this validator's block. */
module GetSynapse {
  import opened Wrappers
  import opened FieldValues
  import CoreUtils

  /** The keyword arguments get_synapse_from_body passes to the synapse class.
      `body` is the body's model dump (a fresh copy, so the body itself is never
      changed); `pick` is randint's choice. The result is the dump with its seed
      set, or the error get_seed raises. */
  function SynapseArguments(body: Fields, seedChunkSize: int, validatorUid: nat, pick: nat): (r: Result<Fields, string>)
    ensures r.Success? <==> seedChunkSize >= 1
    ensures r.Success? ==> r.value.Keys == body.Keys + {"seed"}
    ensures r.Success? ==> forall k :: k in body && k != "seed" ==> r.value[k] == body[k]
    ensures r.Success? ==> r.value["seed"].VInt?
                           && seedChunkSize * validatorUid <= r.value["seed"].i <= seedChunkSize * (validatorUid + 1) - 1
  {
    var bodyDict := body;
    match CoreUtils.GetSeed(seedChunkSize, validatorUid, pick)
    case Failure(e) => Failure(e)
    case Success(seed) => Success(bodyDict["seed" := VInt(seed)])
  }

  /** A synapse class's constructor (pydantic validation of keyword arguments:
      it may add default fields, drop undeclared ones, or fail) keeps the
      integer seed it is given. */
  ghost predicate KeepsSeed(construct: Fields -> Result<Fields, string>) {
    forall kw: Fields :: "seed" in kw && kw["seed"].VInt? && construct(kw).Success? ==>
      "seed" in construct(kw).value && construct(kw).value["seed"] == kw["seed"]
  }

  /** get_synapse_from_body: `construct` is synapse_model(**body_dict). It fails
      with get_seed's error, or with whatever the constructor raises. */
  function GetSynapseFromBody(body: Fields, seedChunkSize: int, validatorUid: nat, pick: nat,
                              construct: Fields -> Result<Fields, string>): (r: Result<Fields, string>)
    ensures seedChunkSize < 1 ==> r.Failure? && r.error == CoreUtils.GetSeed(seedChunkSize, validatorUid, pick).error
    ensures seedChunkSize >= 1 ==> exists kw :: construct(kw) == r && kw.Keys == body.Keys + {"seed"}
                                                && forall k :: k in body && k != "seed" ==> kw[k] == body[k]
  {
    match SynapseArguments(body, seedChunkSize, validatorUid, pick)
    case Failure(e) => Failure(e)
    case Success(kwargs) => construct(kwargs)
  }

  /** The seed field is always set by the validator: whatever seed the body
      carried, the constructor receives the seed get_seed drew, and a
      synapse whose constructor keeps its seed carries that seed. */
  lemma SeedAlwaysOverwritten(body: Fields, seedChunkSize: int, validatorUid: nat, pick: nat,
                              construct: Fields -> Result<Fields, string>)
    requires seedChunkSize >= 1
    ensures SynapseArguments(body, seedChunkSize, validatorUid, pick).value["seed"]
         == VInt(CoreUtils.GetSeed(seedChunkSize, validatorUid, pick).value)
    ensures var r := GetSynapseFromBody(body, seedChunkSize, validatorUid, pick, construct);
            KeepsSeed(construct) && r.Success? ==>
              r.value["seed"] == VInt(CoreUtils.GetSeed(seedChunkSize, validatorUid, pick).value)
  {
  }

  /** Requests built by two different validators never carry the same seed. */
  lemma ValidatorsNeverShareSeeds(body1: Fields, body2: Fields, seedChunkSize: int, uid1: nat, uid2: nat,
                                  pick1: nat, pick2: nat, construct: Fields -> Result<Fields, string>)
    requires seedChunkSize >= 1 && uid1 != uid2
    ensures SynapseArguments(body1, seedChunkSize, uid1, pick1).value["seed"]
         != SynapseArguments(body2, seedChunkSize, uid2, pick2).value["seed"]
    ensures var r1 := GetSynapseFromBody(body1, seedChunkSize, uid1, pick1, construct);
            var r2 := GetSynapseFromBody(body2, seedChunkSize, uid2, pick2, construct);
            KeepsSeed(construct) && r1.Success? && r2.Success? ==> r1.value["seed"] != r2.value["seed"]
  {
    CoreUtils.SeedRangesDisjoint(seedChunkSize, uid1, uid2, pick1, pick2);
  }
}
