/** The state of validation/core_validator.py's CoreValidator: the peer
    table and the capacity table, and the methods that rebuild, correct and
    post them. */
module Validator {
  import opened Wrappers
  import opened Core
  import opened UtilityModels
  import opened CapacityTables
  import opened PeerTable
  import CoreValidation

  /** The reply make_organic_query gives, or the scoring manager takes over. */
  datatype OrganicReply = JsonReply(statusCode: int, message: string) | Delegated(task: Task, stream: bool)

  /** The capacity table after the stake correction. A share that is not a
      number (a zero total stake) multiplies every capacity by NaN, which real
      numbers cannot hold, so that table is kept as it is. */
  function StakeCorrected(table: CapacityTable, share: CoreValidation.StakeShare): CapacityTable {
    match share
    case Share(p) => ScaledByStake(table, p)
    case NotANumber => table
  }

  class CoreValidator {
    /** TASK_TO_MAX_CAPACITY. */
    const taskToMaxCapacity: Task -> real
    const isTestnet: bool
    /** _my_prop_of_stake. */
    const stakeShare: CoreValidation.StakeShare
    const publicHotkey: string

    var capacitiesForTasks: CapacityTable
    var uids: seq<int>
    var axonIndexes: seq<int>
    var incentives: seq<real>
    var uidToUidInfo: map<int, UidInfo>
    /** Every payload posted to the stats service, in order. */
    var posted: seq<Payload>
    /** Whether run_vali has created the uid manager. */
    var uidManagerReady: bool

    /** A test network holds the whole stake, as __init__ sets it. */
    predicate ShareFitsNetwork() {
      isTestnet ==> stakeShare == CoreValidation.Share(1.0)
    }

    /** Every uid of the capacity table has a peer entry, and the stake share
        fits the network. */
    ghost predicate Valid()
      reads this
    {
      UidsKnown(capacitiesForTasks, uidToUidInfo) && ShareFitsNetwork()
    }

    /** The state __init__ leaves: the network check, the stake share of the
        metagraph's stakes `stakes` and hotkeys `hotkeys`, empty tables and no
        uid manager. An unregistered hotkey makes __init__ raise, so no
        validator is built. */
    constructor(taskToMaxCapacity: Task -> real, network: string, configuredNetuid: Option<int>,
                stakes: seq<real>, hotkeys: seq<string>, publicHotkey: string)
      requires |stakes| == |hotkeys|
      requires publicHotkey in hotkeys
      ensures Valid()
      ensures this.taskToMaxCapacity == taskToMaxCapacity && this.publicHotkey == publicHotkey
      ensures isTestnet == CoreValidation.IsTestnet(network, configuredNetuid)
      ensures CoreValidation.MyPropOfStake(stakes, hotkeys, publicHotkey, isTestnet) == Success(stakeShare)
      ensures capacitiesForTasks == map[] && uidToUidInfo == map[] && uids == [] && axonIndexes == []
      ensures incentives == [] && posted == [] && !uidManagerReady
    {
      var testnet := CoreValidation.IsTestnet(network, configuredNetuid);
      this.taskToMaxCapacity := taskToMaxCapacity;
      this.isTestnet := testnet;
      this.stakeShare := CoreValidation.MyPropOfStake(stakes, hotkeys, publicHotkey, testnet).value;
      this.publicHotkey := publicHotkey;
      capacitiesForTasks := map[];
      uids := [];
      axonIndexes := [];
      incentives := [];
      uidToUidInfo := map[];
      posted := [];
      uidManagerReady := false;
    }

    /** The inner loop of _correct_for_max_capacities over one task's
        capacities. The zero written for a capacity below 1 is overwritten at
        once by the minimum of the capacity read and the maximum. */
    static method ClampCapacities(capacities: Capacities, maxCapacity: real) returns (corrected: Capacities)
      ensures corrected == Clamped(capacities, maxCapacity)
    {
      corrected := capacities;
      var todo := capacities.Keys;
      while todo != {}
        invariant todo <= capacities.Keys
        invariant forall u :: u in corrected <==> u in capacities
        invariant forall u :: u in capacities ==>
                    corrected[u] == if u in todo then capacities[u] else Min(capacities[u], maxCapacity)
        decreases |todo|
      {
        var uid := Element(todo);
        var capacity := capacities[uid];
        if capacity < 1.0 {
          corrected := corrected[uid := 0.0];
        }
        corrected := corrected[uid := Min(capacity, maxCapacity)];
        todo := todo - {uid};
      }
      assert forall u :: u in corrected <==> u in Clamped(capacities, maxCapacity);
      assert forall u :: u in corrected ==> corrected[u] == Clamped(capacities, maxCapacity)[u];
    }

    /** The inner loop of _correct_capacities_for_my_stake over one task. */
    static method ScaleCapacities(capacities: Capacities, proportion: real) returns (scaled: Capacities)
      ensures scaled == Scaled(capacities, proportion)
    {
      scaled := capacities;
      var todo := capacities.Keys;
      while todo != {}
        invariant todo <= capacities.Keys
        invariant forall u :: u in scaled <==> u in capacities
        invariant forall u :: u in capacities ==>
                    scaled[u] == if u in todo then capacities[u] else capacities[u] * proportion
        decreases |todo|
      {
        var uid := Element(todo);
        scaled := scaled[uid := capacities[uid] * proportion];
        todo := todo - {uid};
      }
      assert forall u :: u in scaled <==> u in Scaled(capacities, proportion);
      assert forall u :: u in scaled ==> scaled[u] == Scaled(capacities, proportion)[u];
    }

    /** _correct_for_max_capacities: every task of the enumeration in turn. A
        task without an entry is skipped; the defaultdict would give it an
        empty one. */
    method CorrectForMaxCapacities()
      requires Valid()
      modifies this`capacitiesForTasks
      ensures Valid()
      ensures capacitiesForTasks == ClampedToMax(old(capacitiesForTasks), taskToMaxCapacity)
    {
      ghost var start := capacitiesForTasks;
      ghost var visited: set<Task> := {};
      var i := 0;
      while i < |AllTasks|
        invariant 0 <= i <= |AllTasks|
        invariant visited == set j | 0 <= j < i :: AllTasks[j]
        invariant forall t :: t in capacitiesForTasks <==> t in start
        invariant forall t :: t in start ==>
                    capacitiesForTasks[t] == if t in visited then Clamped(start[t], taskToMaxCapacity(t)) else start[t]
      {
        var task := AllTasks[i];
        assert task !in visited by {
          AllTasksComplete(task);
        }
        if task in capacitiesForTasks {
          var corrected := ClampCapacities(capacitiesForTasks[task], taskToMaxCapacity(task));
          capacitiesForTasks := capacitiesForTasks[task := corrected];
        }
        visited := visited + {task};
        i := i + 1;
      }
      forall t | t in start
        ensures t in visited
      {
        AllTasksComplete(t);
      }
      CorrectionsKeepUidsKnown(start, uidToUidInfo, taskToMaxCapacity, 1.0);
    }

    /** _correct_capacities_for_my_stake. On a test network the share is 1.0,
        so the step changes nothing. */
    method CorrectCapacitiesForMyStake()
      requires Valid()
      modifies this`capacitiesForTasks
      ensures Valid()
      ensures capacitiesForTasks == StakeCorrected(old(capacitiesForTasks), stakeShare)
      ensures isTestnet ==> capacitiesForTasks == old(capacitiesForTasks)
    {
      if stakeShare.NotANumber? {
        return;
      }
      var myPropOfStake := stakeShare.proportion;
      ghost var start := capacitiesForTasks;
      ghost var visited: set<Task> := {};
      var i := 0;
      while i < |AllTasks|
        invariant 0 <= i <= |AllTasks|
        invariant visited == set j | 0 <= j < i :: AllTasks[j]
        invariant forall t :: t in capacitiesForTasks <==> t in start
        invariant forall t :: t in start ==>
                    capacitiesForTasks[t] == if t in visited then Scaled(start[t], myPropOfStake) else start[t]
      {
        var task := AllTasks[i];
        assert task !in visited by {
          AllTasksComplete(task);
        }
        if task in capacitiesForTasks {
          var scaled := ScaleCapacities(capacitiesForTasks[task], myPropOfStake);
          capacitiesForTasks := capacitiesForTasks[task := scaled];
        }
        visited := visited + {task};
        i := i + 1;
      }
      forall t | t in start
        ensures t in visited
      {
        AllTasksComplete(t);
      }
      CorrectionsKeepUidsKnown(start, uidToUidInfo, taskToMaxCapacity, myPropOfStake);
      if isTestnet {
        WholeStakeIsIdentity(start);
      }
    }

    /** The inner loop of _post_miner_capacities_to_tauvision over one task:
        the record of each uid, or the KeyError (with its uid) of a uid that
        has no peer entry. */
    static method TaskRecords(t: Task, capacities: Capacities, infos: map<int, UidInfo>, validatorHotkey: string)
      returns (r: Outcome<int>, records: map<int, CapacityRecord>)
      ensures r.Pass? <==> KnownUids(capacities, infos)
      ensures r.Pass? ==> records == RecordsFor(t, capacities, infos, validatorHotkey)
      ensures r.Fail? ==> r.error in capacities && r.error !in infos
    {
      records := map[];
      var todo := capacities.Keys;
      while todo != {}
        invariant todo <= capacities.Keys
        invariant forall u :: u in capacities && u !in todo ==> u in infos
        invariant forall u :: u in records <==> u in capacities && u !in todo
        invariant forall u :: u in records ==>
                    u in infos && records[u] == CapacityRecord(validatorHotkey, infos[u].hotkey, t, capacities[u])
        decreases |todo|
      {
        var uid := Element(todo);
        if uid !in infos {
          return Fail(uid), records;
        }
        records := records[uid := CapacityRecord(validatorHotkey, infos[uid].hotkey, t, capacities[uid])];
        todo := todo - {uid};
      }
      assert forall u :: u in records <==> u in RecordsFor(t, capacities, infos, validatorHotkey);
      assert forall u :: u in records ==> records[u] == RecordsFor(t, capacities, infos, validatorHotkey)[u];
      r := Pass;
    }

    /** _post_miner_capacities_to_tauvision: the records of every task of the
        table, posted at once; a KeyError leaves nothing posted. */
    method PostMinerCapacities() returns (r: Outcome<int>)
      modifies this`posted
      ensures r.Pass? <==> UidsKnown(capacitiesForTasks, uidToUidInfo)
      ensures r.Pass? ==> posted == old(posted) + [PayloadOf(capacitiesForTasks, uidToUidInfo, publicHotkey)]
      ensures r.Fail? ==> posted == old(posted) && r.error !in uidToUidInfo
    {
      var data: Payload := map[];
      var tasks := capacitiesForTasks.Keys;
      while tasks != {}
        invariant tasks <= capacitiesForTasks.Keys
        invariant posted == old(posted)
        invariant forall t :: t in capacitiesForTasks && t !in tasks ==> KnownUids(capacitiesForTasks[t], uidToUidInfo)
        invariant forall t :: t in data <==> t in capacitiesForTasks && t !in tasks
        invariant forall t :: t in data ==>
                    KnownUids(capacitiesForTasks[t], uidToUidInfo)
                    && data[t] == RecordsFor(t, capacitiesForTasks[t], uidToUidInfo, publicHotkey)
        decreases |tasks|
      {
        var task := Element(tasks);
        var outcome, records := TaskRecords(task, capacitiesForTasks[task], uidToUidInfo, publicHotkey);
        if outcome.Fail? {
          assert !KnownUids(capacitiesForTasks[task], uidToUidInfo);
          return outcome;
        }
        data := data[task := records];
        tasks := tasks - {task};
      }
      assert data == PayloadOf(capacitiesForTasks, uidToUidInfo, publicHotkey) by {
        assert forall t :: t in data <==> t in PayloadOf(capacitiesForTasks, uidToUidInfo, publicHotkey);
        assert forall t :: t in data ==> data[t] == PayloadOf(capacitiesForTasks, uidToUidInfo, publicHotkey)[t];
      }
      posted := posted + [data];
      return Pass;
    }

    /** _post_and_correct_capacities: correct for the maxima, post, then scale
        by the stake share, so the posted volumes are not scaled. */
    method PostAndCorrectCapacities() returns (r: Outcome<int>)
      requires Valid()
      modifies this`capacitiesForTasks, this`posted
      ensures Valid()
      ensures r.Pass?
      ensures var clamped := ClampedToMax(old(capacitiesForTasks), taskToMaxCapacity);
              posted == old(posted) + [PayloadOf(clamped, uidToUidInfo, publicHotkey)]
              && capacitiesForTasks == StakeCorrected(clamped, stakeShare)
    {
      CorrectForMaxCapacities();
      r := PostMinerCapacities();
      if r.Fail? {
        return;
      }
      CorrectCapacitiesForMyStake();
    }

    /** fetch_available_capacities_for_each_axon: query every known peer
        (`answers` is what each one returns, None for no answer), rebuild the
        table from the answers, then post and correct it. */
    method FetchAvailableCapacities(answers: int -> Option<map<TaskKey, real>>) returns (r: Outcome<int>)
      requires ShareFitsNetwork()
      modifies this`capacitiesForTasks, this`posted
      ensures Valid()
      ensures r.Pass?
      ensures var clamped := ClampedToMax(FetchedTable(uidToUidInfo.Keys, answers), taskToMaxCapacity);
              posted == old(posted) + [PayloadOf(clamped, uidToUidInfo, publicHotkey)]
              && capacitiesForTasks == StakeCorrected(clamped, stakeShare)
    {
      capacitiesForTasks := map[];
      var todo := uidToUidInfo.Keys;
      ghost var done: set<int> := {};
      assert FetchedTable(done, answers) == map[];
      while todo != {}
        invariant todo + done == uidToUidInfo.Keys && todo !! done
        invariant capacitiesForTasks == FetchedTable(done, answers)
        invariant posted == old(posted)
        decreases |todo|
      {
        var uid := Element(todo);
        var answer := answers(uid);
        if answer.Some? {
          StoreAnswer(uid, answer.value, done, answers);
        } else {
          FetchedTableSkip(done, uid, answers);
        }
        todo := todo - {uid};
        done := done + {uid};
      }
      FetchedUidsKnown(uidToUidInfo, answers);
      r := PostAndCorrectCapacities();
    }

    /** The loop over one peer's answer: each enumerated task it names gets the
        peer's volume, unless the peer already has one for that task (never, as
        each peer is queried once); unrecognised task names are skipped. */
    method StoreAnswer(uid: int, answer: map<TaskKey, real>, ghost done: set<int>,
                       ghost answers: int -> Option<map<TaskKey, real>>)
      requires uid !in done && answers(uid) == Some(answer)
      requires capacitiesForTasks == FetchedTable(done, answers)
      modifies this`capacitiesForTasks
      ensures capacitiesForTasks == FetchedTable(done + {uid}, answers)
    {
      ghost var before := capacitiesForTasks;
      var keys := answer.Keys;
      while keys != {}
        invariant keys <= answer.Keys
        invariant forall t :: t in capacitiesForTasks <==> t in before || (Known(t) in answer && Known(t) !in keys)
        invariant forall t :: t in capacitiesForTasks ==>
                    capacitiesForTasks[t]
                    == if Known(t) in answer && Known(t) !in keys
                       then CapacitiesOf(before, t)[uid := answer[Known(t)]]
                       else before[t]
        decreases |keys|
      {
        var key := Element(keys);
        if key.Known? {
          var task := key.task;
          if uid !in CapacitiesOf(capacitiesForTasks, task) {
            capacitiesForTasks := capacitiesForTasks[task := CapacitiesOf(capacitiesForTasks, task)[uid := answer[key]]];
          }
        }
        keys := keys - {key};
      }
      StoredAnswerIsFetched(done, uid, answers, answer, capacitiesForTasks);
    }

    /** resync_metagraph: store the uids, the incentive order and the sorted
        incentives, rebuild the peer table in that order, then fetch the
        capacities of the new peers. */
    method ResyncMetagraph(mg: Metagraph, answers: int -> Option<map<TaskKey, real>>) returns (r: Outcome<int>)
      requires WellFormed(mg) && ShareFitsNetwork()
      modifies this`uids, this`axonIndexes, this`incentives, this`uidToUidInfo, this`capacitiesForTasks, this`posted
      ensures Valid()
      ensures uids == mg.uids && axonIndexes == IncentiveOrder(mg.incentives)
      ensures incentives == SortedIncentives(mg.incentives)
      ensures uidToUidInfo == UidInfos(mg, axonIndexes)
      ensures r.Pass?
      ensures var clamped := ClampedToMax(FetchedTable(uidToUidInfo.Keys, answers), taskToMaxCapacity);
              posted == old(posted) + [PayloadOf(clamped, uidToUidInfo, publicHotkey)]
              && capacitiesForTasks == StakeCorrected(clamped, stakeShare)
    {
      var order := IncentiveOrder(mg.incentives);
      uids := mg.uids;
      axonIndexes := order;
      incentives := SortedIncentives(mg.incentives);
      uidToUidInfo := PeerInfos(mg, order);
      r := FetchAvailableCapacities(answers);
    }

    /** The loop of resync_metagraph that files each visited position's peer
        under its uid. */
    static method PeerInfos(mg: Metagraph, order: seq<int>) returns (infos: map<int, UidInfo>)
      requires WellFormed(mg) && forall k :: 0 <= k < |order| ==> 0 <= order[k] < |mg.uids|
      ensures infos == UidInfos(mg, order)
    {
      infos := map[];
      var k := 0;
      while k < |order|
        invariant 0 <= k <= |order|
        invariant infos == UidInfos(mg, order[..k])
      {
        var i := order[k];
        var uid := mg.uids[i];
        infos := infos[uid := UidInfo(uid, mg.hotkeys[i], mg.axons[i])];
        assert order[..k + 1][..k] == order[..k];
        k := k + 1;
      }
      assert order[..k] == order;
    }

    /** One pass of run_vali up to the point where organic queries are served:
        resync, then the uid manager exists. */
    method StartScoring(mg: Metagraph, answers: int -> Option<map<TaskKey, real>>)
      requires WellFormed(mg) && ShareFitsNetwork()
      modifies this`uids, this`axonIndexes, this`incentives, this`uidToUidInfo, this`capacitiesForTasks,
               this`posted, this`uidManagerReady
      ensures Valid() && uidManagerReady
      ensures uids == mg.uids && axonIndexes == IncentiveOrder(mg.incentives)
      ensures incentives == SortedIncentives(mg.incentives)
      ensures uidToUidInfo == UidInfos(mg, IncentiveOrder(mg.incentives))
      ensures var clamped := ClampedToMax(FetchedTable(uidToUidInfo.Keys, answers), taskToMaxCapacity);
              posted == old(posted) + [PayloadOf(clamped, uidToUidInfo, publicHotkey)]
              && capacitiesForTasks == StakeCorrected(clamped, stakeShare)
    {
      var _ := ResyncMetagraph(mg, answers);
      uidManagerReady := true;
    }

    /** make_organic_query: a 500 reply until the uid manager exists, which
        then takes the query over. */
    function MakeOrganicQuery(task: Task, stream: bool): (r: OrganicReply)
      reads this
      ensures r.JsonReply? <==> !uidManagerReady
      ensures r.JsonReply? ==> r.statusCode == 500 && r.message == "Server booting, one sec"
      ensures r.Delegated? ==> r.task == task && r.stream == stream
    {
      if !uidManagerReady then JsonReply(500, "Server booting, one sec") else Delegated(task, stream)
    }
  }

  /** Some element of a non-empty set: the next key a loop over a dict visits. */
  method Element<T>(s: set<T>) returns (x: T)
    requires s != {}
    ensures x in s
  {
    x :| x in s;
  }
}
