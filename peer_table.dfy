/** The peer table resync_metagraph rebuilds from the synced metagraph, in
    the order of descending incentive. */
module PeerTable {
  import opened Core
  import opened UtilityModels

  /** What resync_metagraph reads from the synced metagraph: one position per
      peer. */
  datatype Metagraph = Metagraph(uids: seq<int>, incentives: seq<real>, hotkeys: seq<string>, axons: seq<AxonInfo>)

  predicate WellFormed(mg: Metagraph) {
    |mg.incentives| == |mg.uids| && |mg.hotkeys| == |mg.uids| && |mg.axons| == |mg.uids|
  }

  function IncentiveScores(incentives: seq<real>): (r: seq<Score>)
    ensures |r| == |incentives| && forall i :: 0 <= i < |r| ==> r[i] == Finite(incentives[i])
  {
    seq(|incentives|, i requires 0 <= i < |incentives| => Finite(incentives[i]))
  }

  /** The positions of incentive.sort(descending=True). */
  function IncentiveOrder(incentives: seq<real>): (r: seq<int>)
    ensures |r| == |incentives| && forall k :: 0 <= k < |r| ==> 0 <= r[k] < |incentives|
  {
    ArgsortDescending(IncentiveScores(incentives))
  }

  /** The incentives in that order. */
  function SortedIncentives(incentives: seq<real>): (r: seq<real>)
    ensures |r| == |incentives|
  {
    var order := IncentiveOrder(incentives);
    seq(|order|, k requires 0 <= k < |order| => incentives[order[k]])
  }

  /** The peer table after the loop visits the positions of `order`; a later
      position overwrites an earlier one with the same uid. */
  function UidInfos(mg: Metagraph, order: seq<int>): map<int, UidInfo>
    requires WellFormed(mg) && forall k :: 0 <= k < |order| ==> 0 <= order[k] < |mg.uids|
  {
    if order == [] then map[]
    else
      var i := order[|order| - 1];
      UidInfos(mg, order[..|order| - 1])[mg.uids[i] := UidInfo(mg.uids[i], mg.hotkeys[i], mg.axons[i])]
  }

  /** The table has exactly the uids at the visited positions. */
  lemma {:induction false} UidInfosKeys(mg: Metagraph, order: seq<int>)
    requires WellFormed(mg) && forall k :: 0 <= k < |order| ==> 0 <= order[k] < |mg.uids|
    ensures forall u :: u in UidInfos(mg, order) <==> exists k :: 0 <= k < |order| && mg.uids[order[k]] == u
    decreases |order|
  {
    if order != [] {
      var n := |order| - 1;
      var prefix := order[..n];
      UidInfosKeys(mg, prefix);
      forall u | u in UidInfos(mg, order)
        ensures exists k :: 0 <= k < |order| && mg.uids[order[k]] == u
      {
        if u != mg.uids[order[n]] {
          assert u in UidInfos(mg, prefix);
          var k :| 0 <= k < n && mg.uids[prefix[k]] == u;
          assert mg.uids[order[k]] == u;
        }
      }
      forall u | exists k :: 0 <= k < |order| && mg.uids[order[k]] == u
        ensures u in UidInfos(mg, order)
      {
        var k :| 0 <= k < |order| && mg.uids[order[k]] == u;
        if k < n {
          assert mg.uids[prefix[k]] == u;
        }
      }
    }
  }

  /** A uid last visited at position k is filed with that position's hotkey
      and axon. */
  lemma {:induction false} UidInfosEntries(mg: Metagraph, order: seq<int>, k: nat)
    requires WellFormed(mg) && forall j :: 0 <= j < |order| ==> 0 <= order[j] < |mg.uids|
    requires k < |order| && forall l :: k < l < |order| ==> mg.uids[order[l]] != mg.uids[order[k]]
    ensures var i := order[k];
            mg.uids[i] in UidInfos(mg, order)
            && UidInfos(mg, order)[mg.uids[i]] == UidInfo(mg.uids[i], mg.hotkeys[i], mg.axons[i])
    decreases |order|
  {
    var n := |order| - 1;
    if k < n {
      var prefix := order[..n];
      assert prefix[k] == order[k];
      forall l | k < l < |prefix|
        ensures mg.uids[prefix[l]] != mg.uids[prefix[k]]
      {
        assert prefix[l] == order[l];
      }
      UidInfosEntries(mg, prefix, k);
    }
  }

  /** The sorted positions are every position, each once. */
  lemma IncentiveOrderIsPermutation(incentives: seq<real>)
    ensures var order := IncentiveOrder(incentives);
            (forall i :: 0 <= i < |incentives| ==> i in order)
            && forall k, l :: 0 <= k < l < |order| ==> order[k] != order[l]
  {
    ArgsortCoversIndices(IncentiveScores(incentives));
    ArgsortIndicesDistinct(IncentiveScores(incentives));
  }

  /** The stored incentives descend. */
  lemma SortedIncentivesDescend(incentives: seq<real>)
    ensures forall a, b :: 0 <= a < b < |incentives| ==>
              SortedIncentives(incentives)[a] >= SortedIncentives(incentives)[b]
  {
    var scores := IncentiveScores(incentives);
    var order := IncentiveOrder(incentives);
    ArgsortPrefixProperties(scores, |scores|);
    forall a, b | 0 <= a < b < |incentives|
      ensures SortedIncentives(incentives)[a] >= SortedIncentives(incentives)[b]
    {
      assert AtLeast(scores[order[a]], scores[order[b]]);
    }
  }

  /** With distinct uids the rebuilt peer table has exactly the metagraph's
      uids, each with its own hotkey and axon. */
  lemma ResyncCoversMetagraph(mg: Metagraph)
    requires WellFormed(mg)
    requires forall i, j :: 0 <= i < j < |mg.uids| ==> mg.uids[i] != mg.uids[j]
    ensures var infos := UidInfos(mg, IncentiveOrder(mg.incentives));
            (forall u :: u in infos <==> u in mg.uids)
            && forall i :: 0 <= i < |mg.uids| ==> infos[mg.uids[i]] == UidInfo(mg.uids[i], mg.hotkeys[i], mg.axons[i])
  {
    var order := IncentiveOrder(mg.incentives);
    IncentiveOrderIsPermutation(mg.incentives);
    UidInfosKeys(mg, order);
    var infos := UidInfos(mg, order);
    forall i | 0 <= i < |mg.uids|
      ensures mg.uids[i] in infos && infos[mg.uids[i]] == UidInfo(mg.uids[i], mg.hotkeys[i], mg.axons[i])
    {
      assert i in order;
      var k :| 0 <= k < |order| && order[k] == i;
      forall l | k < l < |order|
        ensures mg.uids[order[l]] != mg.uids[order[k]]
      {
        assert order[l] != order[k];
      }
      UidInfosEntries(mg, order, k);
    }
    forall u | u in infos
      ensures u in mg.uids
    {
      var k :| 0 <= k < |order| && mg.uids[order[k]] == u;
    }
  }
}
