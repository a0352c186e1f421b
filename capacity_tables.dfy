/** The capacity table of validation/core_validator.py: what the peers
    declare they can serve per task, the corrections for the task maxima and
    for the validator's share of stake, and the records posted to the stats
    service. */
module CapacityTables {
  import opened Wrappers
  import opened Core
  import opened UtilityModels

  /** A task name in a peer's answer: one of the enumeration, or anything
      else a peer claims. */
  datatype TaskKey = Known(task: Task) | Unrecognised(name: string)

  /** uid -> declared capacity, for one task. */
  type Capacities = map<int, real>

  /** task -> uid -> capacity. A task without an entry reads as having no
      capacities, as the defaultdict does. */
  type CapacityTable = map<Task, Capacities>

  /** Reading the defaultdict. */
  function CapacitiesOf(table: CapacityTable, t: Task): Capacities {
    if t in table then table[t] else map[]
  }

  /** min(a, b): the first argument unless the second is smaller. */
  function Min(a: real, b: real): real {
    if b < a then b else a
  }

  function Clamped(capacities: Capacities, maxCapacity: real): Capacities {
    map u | u in capacities :: Min(capacities[u], maxCapacity)
  }

  /** The table after _correct_for_max_capacities: each capacity cut to its
      task's maximum. */
  function ClampedToMax(table: CapacityTable, maxCapacity: Task -> real): CapacityTable {
    map t | t in table :: Clamped(table[t], maxCapacity(t))
  }

  function Scaled(capacities: Capacities, proportion: real): Capacities {
    map u | u in capacities :: capacities[u] * proportion
  }

  /** The table after _correct_capacities_for_my_stake. */
  function ScaledByStake(table: CapacityTable, proportion: real): CapacityTable {
    map t | t in table :: Scaled(table[t], proportion)
  }

  /** The capacities the peers in `uids` declared for task t; a peer without an
      answer declares none. */
  function Answered(t: Task, uids: set<int>, answers: int -> Option<map<TaskKey, real>>): Capacities {
    map u | u in uids && answers(u).Some? && Known(t) in answers(u).value :: answers(u).value[Known(t)]
  }

  /** The enumerated tasks some peer in `uids` named. */
  function NamedTasks(uids: set<int>, answers: int -> Option<map<TaskKey, real>>): set<Task> {
    set u, k | u in uids && answers(u).Some? && k in answers(u).value && k.Known? :: k.task
  }

  /** The table fetch_available_capacities_for_each_axon rebuilds from the
      answers of the peers in `uids`: an entry for each task a peer named. */
  function FetchedTable(uids: set<int>, answers: int -> Option<map<TaskKey, real>>): CapacityTable {
    map t | t in NamedTasks(uids, answers) :: Answered(t, uids, answers)
  }

  /** One record of the capacities posted to the stats service. */
  datatype CapacityRecord = CapacityRecord(validatorHotkey: string, minerHotkey: string, task: Task, volume: real)

  /** The posted records by task and uid. */
  type Payload = map<Task, map<int, CapacityRecord>>

  /** Every uid of one task's capacities has a peer entry. */
  predicate KnownUids(capacities: Capacities, infos: map<int, UidInfo>) {
    forall u :: u in capacities ==> u in infos
  }

  /** Every uid of the table has a peer entry, so its hotkey can be looked up. */
  ghost predicate UidsKnown(table: CapacityTable, infos: map<int, UidInfo>) {
    forall t :: t in table ==> KnownUids(table[t], infos)
  }

  function RecordsFor(t: Task, capacities: Capacities, infos: map<int, UidInfo>, validatorHotkey: string)
    : map<int, CapacityRecord>
    requires KnownUids(capacities, infos)
  {
    map u | u in capacities :: CapacityRecord(validatorHotkey, infos[u].hotkey, t, capacities[u])
  }

  function PayloadOf(table: CapacityTable, infos: map<int, UidInfo>, validatorHotkey: string): (r: Payload)
    requires UidsKnown(table, infos)
    ensures r.Keys == table.Keys
    ensures forall t :: t in r ==> r[t].Keys == table[t].Keys
    ensures forall t, u :: t in table && u in table[t] ==>
              r[t][u] == CapacityRecord(validatorHotkey, infos[u].hotkey, t, table[t][u])
  {
    map t | t in table :: RecordsFor(t, table[t], infos, validatorHotkey)
  }

  /** The clamped table keeps every task and uid; each capacity is at most its
      task's maximum and at most what was declared, and one within the maximum
      is kept as declared, also when it is below 1. */
  lemma ClampedToMaxEntries(table: CapacityTable, maxCapacity: Task -> real, t: Task, u: int)
    ensures u in CapacitiesOf(ClampedToMax(table, maxCapacity), t) <==> u in CapacitiesOf(table, t)
    ensures u in CapacitiesOf(table, t) ==>
              var c := CapacitiesOf(table, t)[u];
              var r := CapacitiesOf(ClampedToMax(table, maxCapacity), t)[u];
              r <= maxCapacity(t) && r <= c && (c <= maxCapacity(t) ==> r == c)
              && (c > maxCapacity(t) ==> r == maxCapacity(t))
  {
  }

  /** Correcting twice for the maxima changes nothing more. */
  lemma ClampedToMaxIdempotent(table: CapacityTable, maxCapacity: Task -> real)
    ensures ClampedToMax(ClampedToMax(table, maxCapacity), maxCapacity) == ClampedToMax(table, maxCapacity)
  {
    var once := ClampedToMax(table, maxCapacity);
    forall t | t in once
      ensures Clamped(once[t], maxCapacity(t)) == once[t]
    {
      assert forall u :: u in once[t] ==> Min(once[t][u], maxCapacity(t)) == once[t][u];
    }
  }

  /** Scaling keeps every task and uid and multiplies each capacity by the
      proportion; a proportion of 1.0 is the identity. */
  lemma ScaledByStakeEntries(table: CapacityTable, proportion: real, t: Task, u: int)
    ensures u in CapacitiesOf(ScaledByStake(table, proportion), t) <==> u in CapacitiesOf(table, t)
    ensures u in CapacitiesOf(table, t) ==>
              CapacitiesOf(ScaledByStake(table, proportion), t)[u] == CapacitiesOf(table, t)[u] * proportion
  {
  }

  lemma WholeStakeIsIdentity(table: CapacityTable)
    ensures ScaledByStake(table, 1.0) == table
  {
    forall t | t in table
      ensures Scaled(table[t], 1.0) == table[t]
    {
    }
  }

  /** Every uid of a clamped or scaled table is one of the original table. */
  lemma CorrectionsKeepUidsKnown(table: CapacityTable, infos: map<int, UidInfo>, maxCapacity: Task -> real,
                                 proportion: real)
    requires UidsKnown(table, infos)
    ensures UidsKnown(ClampedToMax(table, maxCapacity), infos)
    ensures UidsKnown(ScaledByStake(table, proportion), infos)
  {
  }

  /** The rebuilt table holds a capacity for a peer and task exactly when that
      peer was queried, answered, and named the task. */
  lemma FetchedTableEntries(uids: set<int>, answers: int -> Option<map<TaskKey, real>>, t: Task, u: int)
    ensures u in CapacitiesOf(FetchedTable(uids, answers), t)
            <==> u in uids && answers(u).Some? && Known(t) in answers(u).value
    ensures u in CapacitiesOf(FetchedTable(uids, answers), t) ==>
              CapacitiesOf(FetchedTable(uids, answers), t)[u] == answers(u).value[Known(t)]
  {
    if u in uids && answers(u).Some? && Known(t) in answers(u).value {
      assert t in NamedTasks(uids, answers) by {
        assert Known(t) in answers(u).value && Known(t).task == t;
      }
    }
  }

  /** Two sets of answers that agree on every enumerated task give the same
      table, whatever unrecognised tasks they claim. */
  lemma FetchIgnoresUnrecognised(uids: set<int>, a1: int -> Option<map<TaskKey, real>>,
                                 a2: int -> Option<map<TaskKey, real>>)
    requires forall u :: u in uids ==> (a1(u).Some? <==> a2(u).Some?)
    requires forall u, t :: u in uids && a1(u).Some? && a2(u).Some? ==>
               (Known(t) in a1(u).value <==> Known(t) in a2(u).value)
               && (Known(t) in a1(u).value ==> a1(u).value[Known(t)] == a2(u).value[Known(t)])
    ensures FetchedTable(uids, a1) == FetchedTable(uids, a2)
  {
    forall t
      ensures t in NamedTasks(uids, a1) <==> t in NamedTasks(uids, a2)
    {
      if t in NamedTasks(uids, a1) {
        var u, k :| u in uids && a1(u).Some? && k in a1(u).value && k.Known? && k.task == t;
        assert k == Known(t);
        assert Known(t) in a2(u).value;
      }
      if t in NamedTasks(uids, a2) {
        var u, k :| u in uids && a2(u).Some? && k in a2(u).value && k.Known? && k.task == t;
        assert k == Known(t);
        assert Known(t) in a1(u).value;
      }
    }
    forall t | t in NamedTasks(uids, a1)
      ensures Answered(t, uids, a1) == Answered(t, uids, a2)
    {
      assert forall u :: u in Answered(t, uids, a1) <==> u in Answered(t, uids, a2);
      assert forall u :: u in Answered(t, uids, a1) ==> Answered(t, uids, a1)[u] == Answered(t, uids, a2)[u];
    }
  }

  /** Every uid of a rebuilt table is a queried peer, so posting it can look up
      every hotkey. */
  lemma FetchedUidsKnown(infos: map<int, UidInfo>, answers: int -> Option<map<TaskKey, real>>)
    ensures UidsKnown(FetchedTable(infos.Keys, answers), infos)
  {
  }

  /** The posted records are those of the clamped table: one per task and
      uid, under the peer's hotkey, with a volume within the task's maximum. */
  lemma PostedVolumesWithinMaximum(table: CapacityTable, infos: map<int, UidInfo>, validatorHotkey: string,
                                   maxCapacity: Task -> real, t: Task, u: int)
    requires UidsKnown(ClampedToMax(table, maxCapacity), infos)
    ensures var payload := PayloadOf(ClampedToMax(table, maxCapacity), infos, validatorHotkey);
            (t in payload && u in payload[t] <==> u in CapacitiesOf(table, t))
            && (t in payload && u in payload[t] ==>
                  payload[t][u].task == t
                  && payload[t][u].minerHotkey == infos[u].hotkey
                  && payload[t][u].validatorHotkey == validatorHotkey
                  && payload[t][u].volume <= maxCapacity(t))
  {
  }

  /** Reading the rebuilt table for any task gives that task's answers, empty
      when no peer named the task. */
  lemma FetchedTableReads(uids: set<int>, answers: int -> Option<map<TaskKey, real>>, t: Task)
    ensures CapacitiesOf(FetchedTable(uids, answers), t) == Answered(t, uids, answers)
  {
    forall u | u in Answered(t, uids, answers)
      ensures t in NamedTasks(uids, answers)
    {
      assert Known(t).task == t;
    }
  }

  /** A peer without an answer adds nothing to the rebuilt table. */
  lemma FetchedTableSkip(done: set<int>, uid: int, answers: int -> Option<map<TaskKey, real>>)
    requires uid !in done && answers(uid).None?
    ensures FetchedTable(done + {uid}, answers) == FetchedTable(done, answers)
  {
    forall t
      ensures t in NamedTasks(done + {uid}, answers) <==> t in NamedTasks(done, answers)
      ensures Answered(t, done + {uid}, answers) == Answered(t, done, answers)
    {
      FetchedTableAdd(done, uid, answers, t);
    }
  }

  /** Adding one peer to the queried set adds that peer's answer. */
  lemma FetchedTableAdd(done: set<int>, uid: int, answers: int -> Option<map<TaskKey, real>>, t: Task)
    requires uid !in done
    ensures Answered(t, done + {uid}, answers)
            == if answers(uid).Some? && Known(t) in answers(uid).value
               then Answered(t, done, answers)[uid := answers(uid).value[Known(t)]]
               else Answered(t, done, answers)
    ensures t in NamedTasks(done + {uid}, answers)
            <==> t in NamedTasks(done, answers) || (answers(uid).Some? && Known(t) in answers(uid).value)
  {
    if t in NamedTasks(done + {uid}, answers) {
      var u, k :| u in done + {uid} && answers(u).Some? && k in answers(u).value && k.Known? && k.task == t;
      assert k == Known(t);
      if u != uid {
        assert t in NamedTasks(done, answers);
      }
    }
    if answers(uid).Some? && Known(t) in answers(uid).value {
      assert Known(t).task == t;
    }
    if t in NamedTasks(done, answers) {
      var u, k :| u in done && answers(u).Some? && k in answers(u).value && k.Known? && k.task == t;
      assert u in done + {uid};
    }
  }


  /** Filing every recognised task of one more peer's answer into the table
      of the peers done so far gives the table of them all. */
  lemma StoredAnswerIsFetched(done: set<int>, uid: int, answers: int -> Option<map<TaskKey, real>>,
                              answer: map<TaskKey, real>, after: CapacityTable)
    requires uid !in done && answers(uid) == Some(answer)
    requires forall t :: t in after <==> t in FetchedTable(done, answers) || Known(t) in answer
    requires forall t :: t in after ==>
               after[t] == if Known(t) in answer
                           then CapacitiesOf(FetchedTable(done, answers), t)[uid := answer[Known(t)]]
                           else FetchedTable(done, answers)[t]
    ensures after == FetchedTable(done + {uid}, answers)
  {
    forall t
      ensures t in after <==> t in NamedTasks(done + {uid}, answers)
      ensures t in after ==> after[t] == Answered(t, done + {uid}, answers)
    {
      FetchedTableAdd(done, uid, answers, t);
      FetchedTableReads(done, answers, t);
    }
  }
}
