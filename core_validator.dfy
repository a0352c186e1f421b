/** The start-up of validation/core_validator.py: the network check, the
    validator's share of stake, the connection to the external server, and the
    task weights. */
module CoreValidation {
  import opened Wrappers
  import opened Core
  import opened UtilityModels
  import opened Text

  // ---------------------------------------------------------------------------
  // Start-up: network, stake share, external server

  /** The subnet's netuid on the main network, and the default when the
      configuration gives none. */
  const MainNetuid: int := 19

  /** The validator runs against a test network when the subtensor network is
      "test" or the netuid is not the main one. */
  function IsTestnet(network: string, configuredNetuid: Option<int>): (r: bool)
    ensures configuredNetuid.None? ==> (r <==> network == "test")
    ensures configuredNetuid.Some? ==> (r <==> network == "test" || configuredNetuid.value != 19)
  {
    var netuid := if configuredNetuid.Some? then configuredNetuid.value else MainNetuid;
    network == "test" || netuid != MainNetuid
  }

  /** The main network is the one with netuid 19, given or defaulted. */
  lemma MainNetworkIffNetuid19(network: string, configuredNetuid: Option<int>)
    ensures !IsTestnet(network, configuredNetuid)
            <==> network != "test" && (configuredNetuid.None? || configuredNetuid.value == MainNetuid)
  {
  }

  function Sum(s: seq<real>): real {
    if s == [] then 0.0 else s[0] + Sum(s[1..])
  }

  /** The validator's share of the total stake. A zero total gives no finite
      share (the tensor division yields not-a-number). */
  datatype StakeShare = Share(proportion: real) | NotANumber

  /** `_my_prop_of_stake` as __init__ computes it: the validator's own stake
      over the total, or 1.0 on a test network. Looking up the hotkey comes
      first, so an unregistered hotkey raises even on a test network. */
  function MyPropOfStake(stakes: seq<real>, hotkeys: seq<string>, myHotkey: string, isTestnet: bool)
    : (r: Result<StakeShare, string>)
    requires |stakes| == |hotkeys|
    ensures r.Failure? <==> myHotkey !in hotkeys
    ensures r.Success? && isTestnet ==> r.value == Share(1.0)
    ensures r.Success? && r.value.NotANumber? ==> !isTestnet && Sum(stakes) == 0.0
  {
    match IndexOf(hotkeys, myHotkey)
    case None => Failure("'" + myHotkey + "' is not in list")
    case Some(i) =>
      if isTestnet then Success(Share(1.0))
      else if Sum(stakes) == 0.0 then Success(NotANumber)
      else Success(Share(stakes[i] / Sum(stakes)))
  }

  lemma {:induction false} SumNonNegative(s: seq<real>)
    requires forall i :: 0 <= i < |s| ==> s[i] >= 0.0
    ensures Sum(s) >= 0.0
  {
    if s != [] {
      SumNonNegative(s[1..]);
    }
  }

  lemma {:induction false} ElementAtMostSum(s: seq<real>, i: nat)
    requires forall j :: 0 <= j < |s| ==> s[j] >= 0.0
    requires i < |s|
    ensures s[i] <= Sum(s)
  {
    if i == 0 {
      SumNonNegative(s[1..]);
    } else {
      ElementAtMostSum(s[1..], i - 1);
    }
  }

  /** With non-negative stakes the share is a proportion between 0 and 1, taken
      at the validator's first position; a test network always gets the whole
      of it; an unregistered hotkey is an error. */
  lemma StakeShareIsProportion(stakes: seq<real>, hotkeys: seq<string>, myHotkey: string, isTestnet: bool)
    requires |stakes| == |hotkeys|
    requires forall j :: 0 <= j < |stakes| ==> stakes[j] >= 0.0
    ensures MyPropOfStake(stakes, hotkeys, myHotkey, isTestnet).Failure? <==> myHotkey !in hotkeys
    ensures myHotkey in hotkeys && isTestnet ==> MyPropOfStake(stakes, hotkeys, myHotkey, isTestnet) == Success(Share(1.0))
    ensures myHotkey in hotkeys && !isTestnet && Sum(stakes) > 0.0 ==>
              var r := MyPropOfStake(stakes, hotkeys, myHotkey, isTestnet);
              r.Success? && r.value.Share? && 0.0 <= r.value.proportion <= 1.0
              && r.value.proportion * Sum(stakes) == stakes[IndexOf(hotkeys, myHotkey).value]
  {
    if myHotkey in hotkeys && !isTestnet && Sum(stakes) > 0.0 {
      var i := IndexOf(hotkeys, myHotkey).value;
      var total := Sum(stakes);
      assert MyPropOfStake(stakes, hotkeys, myHotkey, isTestnet) == Success(Share(stakes[i] / total));
      ElementAtMostSum(stakes, i);
      RatioAtMostOne(stakes[i], total);
    }
  }

  lemma RatioAtMostOne(a: real, b: real)
    requires 0.0 <= a <= b && b > 0.0
    ensures 0.0 <= a / b <= 1.0 && (a / b) * b == a
  {
    assert (b - a) / b >= 0.0;
    assert a / b + (b - a) / b == b / b;
  }

  /** How _connect_to_external_server ends: the server setting is missing, the
      server answered after the given sleeps, or every health check given
      failed (the source goes on retrying). */
  datatype ConnectOutcome = NotConfigured(message: string) | Connected(sleeps: seq<int>) | Unreachable(sleeps: seq<int>)

  /** str.upper() on ASCII text, the only text it is applied to here (the
      server parameter name). Letters outside ASCII are kept as they are. */
  function Upper(s: string): (r: string)
    ensures |r| == |s|
    ensures forall i :: 0 <= i < |s| ==> r[i] == if 'a' <= s[i] <= 'z' then (s[i] as int - 32) as char else s[i]
  {
    if s == [] then []
    else [if 'a' <= s[0] <= 'z' then (s[0] as int - 32) as char else s[0]] + Upper(s[1..])
  }

  /** The retry loop: `healthy` is the outcome of each successive health
      check. The first sleep is 2 seconds, each next one 5 more, capped at
      15. */
  method ConnectToExternalServer(hotkeyName: string, paramName: string, url: Option<string>, healthy: seq<bool>)
    returns (r: ConnectOutcome)
    ensures url.None? <==> r.NotConfigured?
    ensures r.NotConfigured? ==> r.message == hotkeyName + "." + Upper(paramName) + " not set in the config"
    ensures url.Some? && true in healthy ==>
              r.Connected? && |r.sleeps| < |healthy| && healthy[|r.sleeps|]
              && forall i :: 0 <= i < |r.sleeps| ==> !healthy[i]
    ensures url.Some? && true !in healthy ==> r.Unreachable? && |r.sleeps| == |healthy|
    ensures !r.NotConfigured? ==>
              forall i :: 0 <= i < |r.sleeps| ==> r.sleeps[i] == if 2 + 5 * i > 15 then 15 else 2 + 5 * i
  {
    if url.None? {
      return NotConfigured(hotkeyName + "." + Upper(paramName) + " not set in the config");
    }
    var retryInterval := 2;
    var sleeps: seq<int> := [];
    var i := 0;
    while i < |healthy|
      invariant 0 <= i <= |healthy| && |sleeps| == i
      invariant forall j :: 0 <= j < i ==> !healthy[j]
      invariant retryInterval == if 2 + 5 * i > 15 then 15 else 2 + 5 * i
      invariant forall j :: 0 <= j < i ==> sleeps[j] == if 2 + 5 * j > 15 then 15 else 2 + 5 * j
    {
      if healthy[i] {
        return Connected(sleeps);
      }
      sleeps := sleeps + [retryInterval];
      retryInterval := retryInterval + 5;
      if retryInterval > 15 {
        retryInterval := 15;
      }
      i := i + 1;
    }
    return Unreachable(sleeps);
  }

  // ---------------------------------------------------------------------------
  // Task weights

  /** _get_task_weights. */
  const TaskWeights: map<Task, real> := map[
    ChatLlama3_1_8b := 0.15, ChatLlama3_1_70b := 0.20,
    ProteusTextToImage := 0.10, FluxSchnellTextToImage := 0.15, DreamshaperTextToImage := 0.05,
    ProteusImageToImage := 0.05, FluxSchnellImageToImage := 0.05, DreamshaperImageToImage := 0.05,
    JuggerInpainting := 0.05, Avatar := 0.15]

  /** The summed weight of the tasks listed, a missing task weighing nothing. */
  function WeightOf(tasks: seq<Task>, weights: map<Task, real>): real {
    if tasks == [] then 0.0
    else (if tasks[0] in weights then weights[tasks[0]] else 0.0) + WeightOf(tasks[1..], weights)
  }

  /** The weight WeightOf adds for one task. */
  function WeightOrZero(t: Task, weights: map<Task, real>): real {
    if t in weights then weights[t] else 0.0
  }

  lemma WeightOfStep(tasks: seq<Task>, weights: map<Task, real>)
    requires tasks != []
    ensures WeightOf(tasks, weights) == WeightOrZero(tasks[0], weights) + WeightOf(tasks[1..], weights)
  {
  }

  /** What each task weighs. */
  lemma TaskWeightValues()
    ensures WeightOrZero(ChatMixtral, TaskWeights) == 0.0 && WeightOrZero(ChatLlama3, TaskWeights) == 0.0
    ensures WeightOrZero(ChatLlama3_1_8b, TaskWeights) == 0.15 && WeightOrZero(ChatLlama3_1_70b, TaskWeights) == 0.20
    ensures WeightOrZero(PlaygroundTextToImage, TaskWeights) == 0.0
    ensures WeightOrZero(PlaygroundImageToImage, TaskWeights) == 0.0
    ensures WeightOrZero(ProteusTextToImage, TaskWeights) == 0.10
    ensures WeightOrZero(FluxSchnellTextToImage, TaskWeights) == 0.15
    ensures WeightOrZero(DreamshaperTextToImage, TaskWeights) == 0.05
    ensures WeightOrZero(ProteusImageToImage, TaskWeights) == 0.05
    ensures WeightOrZero(FluxSchnellImageToImage, TaskWeights) == 0.05
    ensures WeightOrZero(DreamshaperImageToImage, TaskWeights) == 0.05
    ensures WeightOrZero(JuggerInpainting, TaskWeights) == 0.05 && WeightOrZero(Avatar, TaskWeights) == 0.15
  {
  }

  /** The weights sum to one over all tasks. */
  lemma TaskWeightsSumToOne()
    ensures WeightOf(AllTasks, TaskWeights) == 1.0
  {
    TaskWeightValues();
    var s := AllTasks;
    WeightOfStep(s[13..], TaskWeights);
    assert s[14..] == [];
    WeightOfStep(s[12..], TaskWeights);
    WeightOfStep(s[11..], TaskWeights);
    WeightOfStep(s[10..], TaskWeights);
    WeightOfStep(s[9..], TaskWeights);
    WeightOfStep(s[8..], TaskWeights);
    WeightOfStep(s[7..], TaskWeights);
    WeightOfStep(s[6..], TaskWeights);
    WeightOfStep(s[5..], TaskWeights);
    WeightOfStep(s[4..], TaskWeights);
    WeightOfStep(s[3..], TaskWeights);
    WeightOfStep(s[2..], TaskWeights);
    WeightOfStep(s[1..], TaskWeights);
    WeightOfStep(s, TaskWeights);
  }

  /** Every weighted task has a positive weight; the retired chat models and
      the playground engine are exactly the tasks without one. */
  lemma TaskWeightsPositive()
    ensures forall t :: t in TaskWeights ==> TaskWeights[t] > 0.0
    ensures forall t: Task :: t !in TaskWeights <==>
              t == ChatMixtral || t == ChatLlama3 || t == PlaygroundTextToImage || t == PlaygroundImageToImage
  {
  }
}
