/** Shared shapes of models/utility_models.py: the chat-model and engine
    enumerations, the query result and image response records, and the
    randomised peer order of OperationDistribution. */
module UtilityModels {
  import opened Wrappers
  import opened Core

  /** Chat models. Only mixtral and llama_3 appear with their values in the
      enumeration shown; the two llama 3.1 members are referenced elsewhere and
      their values here are assumptions. */
  datatype ChatModel = Mixtral | Llama3 | Llama3_1_8b | Llama3_1_70b

  function ChatModelValue(m: ChatModel): string {
    match m
    case Mixtral => "mixtral-8x7b"
    case Llama3 => "llama-3"
    case Llama3_1_8b => "llama-3-1-8b"
    case Llama3_1_70b => "llama-3-1-70b"
  }

  /** Image engines; FLUX is referenced elsewhere, its value is an assumption. */
  datatype Engine = Dreamshaper | Playground | Proteus | Flux

  function EngineValue(e: Engine): string {
    match e
    case Dreamshaper => "dreamshaper"
    case Playground => "playground"
    case Proteus => "proteus"
    case Flux => "flux-schnell"
  }

  /** The enumeration values are pairwise distinct, so comparing a request's
      string field against them identifies at most one member. */
  lemma EnumValuesDistinct()
    ensures forall m1: ChatModel, m2: ChatModel :: ChatModelValue(m1) == ChatModelValue(m2) ==> m1 == m2
    ensures forall e1: Engine, e2: Engine :: EngineValue(e1) == EngineValue(e2) ==> e1 == e2
  {
  }

  /** The result of one query to a peer. */
  datatype QueryResult = QueryResult(
    formattedResponse: Option<ImageResponseBody>,
    axonUid: Option<int>,
    minerHotkey: Option<string>,
    responseTime: Option<real>,
    errorMessage: Option<string>,
    failedAxonUids: seq<int>,
    task: Task,
    statusCode: Option<int>,
    success: bool)

  /** A peer's network address as the metagraph reports it; only what the
      validator passes along is kept. */
  datatype AxonInfo = AxonInfo(ip: string, port: int)

  /** What the validator knows of one peer. */
  datatype UidInfo = UidInfo(uid: int, hotkey: string, axon: AxonInfo)

  datatype ImageHashes = ImageHashes(averageHash: string, perceptualHash: string, differenceHash: string, colorHash: string)

  datatype ImageResponseBody = ImageResponseBody(
    imageB64: Option<string>,
    isNsfw: Option<bool>,
    clipEmbeddings: Option<seq<real>>,
    imageHashes: Option<ImageHashes>)

  // ---------------------------------------------------------------------------
  // Peer order: argsort of perturbed log-probabilities, descending.

  /** A perturbed score log(p) + z. log(0) is minus infinity, so a zero
      probability gives a score below every finite one. */
  datatype Score = NegInfinity | Finite(value: real)

  /** The ordering argsort(-scores) respects: a is ranked no lower than b. */
  predicate AtLeast(a: Score, b: Score) {
    b.NegInfinity? || (a.Finite? && a.value >= b.value)
  }

  /** Scores are computed position by position: log(probabilities[i]) + noise[i]. */
  function PerturbedScores(probabilities: seq<real>, noise: seq<real>, ln: real -> real): (r: seq<Score>)
    requires |noise| == |probabilities|
    ensures |r| == |probabilities|
    ensures forall i :: 0 <= i < |r| ==> (r[i] == NegInfinity <==> probabilities[i] == 0.0)
  {
    seq(|probabilities|, i requires 0 <= i < |probabilities| =>
      if probabilities[i] == 0.0 then NegInfinity else Finite(ln(probabilities[i]) + noise[i]))
  }

  ghost predicate Descending(scores: seq<Score>, idx: seq<int>)
    requires forall k :: 0 <= k < |idx| ==> 0 <= idx[k] < |scores|
  {
    forall a, b :: 0 <= a < b < |idx| ==> AtLeast(scores[idx[a]], scores[idx[b]])
  }

  /** Index x ranks at least as high as every index in s. */
  ghost predicate RanksAbove(scores: seq<Score>, x: nat, s: seq<int>)
    requires x < |scores|
    requires forall k :: 0 <= k < |s| ==> 0 <= s[k] < |scores|
  {
    forall k :: 0 <= k < |s| ==> AtLeast(scores[x], scores[s[k]])
  }

  /** Places index i in front of the first entry it ranks at least as high as. */
  function InsertByScore(i: nat, s: seq<int>, scores: seq<Score>): (r: seq<int>)
    requires i < |scores|
    requires forall k :: 0 <= k < |s| ==> 0 <= s[k] < |scores|
    ensures |r| == |s| + 1
    ensures forall k :: 0 <= k < |r| ==> 0 <= r[k] < |scores|
  {
    if s == [] then [i]
    else if AtLeast(scores[i], scores[s[0]]) then [i] + s
    else [s[0]] + InsertByScore(i, s[1..], scores)
  }

  lemma {:induction false} InsertKeepsRanksAbove(x: nat, i: nat, s: seq<int>, scores: seq<Score>)
    requires x < |scores| && i < |scores|
    requires forall k :: 0 <= k < |s| ==> 0 <= s[k] < |scores|
    requires RanksAbove(scores, x, s) && AtLeast(scores[x], scores[i])
    ensures RanksAbove(scores, x, InsertByScore(i, s, scores))
  {
    if s != [] && !AtLeast(scores[i], scores[s[0]]) {
      InsertKeepsRanksAbove(x, i, s[1..], scores);
    }
  }

  /** An index ranked at least as high as a descending sequence can go in
      front of it. */
  lemma ConsKeepsDescending(x: nat, s: seq<int>, scores: seq<Score>)
    requires x < |scores|
    requires forall k :: 0 <= k < |s| ==> 0 <= s[k] < |scores|
    requires Descending(scores, s) && RanksAbove(scores, x, s)
    ensures Descending(scores, [x] + s)
  {
    var r := [x] + s;
    forall a, b | 0 <= a < b < |r| ensures AtLeast(scores[r[a]], scores[r[b]]) {
      assert r[b] == s[b - 1];
      if a > 0 { assert r[a] == s[a - 1]; }
    }
  }

  lemma {:induction false} InsertKeepsDescending(i: nat, s: seq<int>, scores: seq<Score>)
    requires i < |scores|
    requires forall k :: 0 <= k < |s| ==> 0 <= s[k] < |scores|
    requires Descending(scores, s)
    ensures Descending(scores, InsertByScore(i, s, scores))
  {
    if s == [] {
    } else if AtLeast(scores[i], scores[s[0]]) {
      assert RanksAbove(scores, i, s);
      ConsKeepsDescending(i, s, scores);
    } else {
      var t := InsertByScore(i, s[1..], scores);
      assert Descending(scores, s[1..]);
      InsertKeepsDescending(i, s[1..], scores);
      assert RanksAbove(scores, s[0], s[1..]);
      InsertKeepsRanksAbove(s[0], i, s[1..], scores);
      ConsKeepsDescending(s[0], t, scores);
    }
  }

  /** Indices 0 .. n-1 sorted by descending score (insertion sort). */
  function ArgsortPrefix(scores: seq<Score>, n: nat): (r: seq<int>)
    requires n <= |scores|
    ensures |r| == n
    ensures forall k :: 0 <= k < |r| ==> 0 <= r[k] < |scores|
    decreases n
  {
    if n == 0 then []
    else
      var rest := ArgsortPrefix(scores, n - 1);
      InsertByScore(n - 1, rest, scores)
  }

  /** argsort(-scores): every index once, ranked by descending score. */
  function ArgsortDescending(scores: seq<Score>): (r: seq<int>)
    ensures |r| == |scores|
    ensures forall k :: 0 <= k < |r| ==> 0 <= r[k] < |scores|
    ensures Descending(scores, r) && Distinct(r)
    ensures forall x :: x in r <==> 0 <= x < |scores|
  {
    ArgsortPrefixProperties(scores, |scores|);
    ArgsortPrefix(scores, |scores|)
  }

  /** No index appears twice. */
  ghost predicate Distinct(s: seq<int>) {
    forall a, b :: 0 <= a < b < |s| ==> s[a] != s[b]
  }

  lemma {:induction false} ArgsortPrefixProperties(scores: seq<Score>, n: nat)
    requires n <= |scores|
    ensures Descending(scores, ArgsortPrefix(scores, n))
    ensures forall x :: x in ArgsortPrefix(scores, n) <==> 0 <= x < n
    ensures Distinct(ArgsortPrefix(scores, n))
  {
    ArgsortPrefixDescending(scores, n);
    ArgsortPrefixIndices(scores, n);
  }

  lemma {:induction false} ArgsortPrefixDescending(scores: seq<Score>, n: nat)
    requires n <= |scores|
    ensures Descending(scores, ArgsortPrefix(scores, n))
  {
    if n > 0 {
      var rest := ArgsortPrefix(scores, n - 1);
      ArgsortPrefixDescending(scores, n - 1);
      InsertKeepsDescending(n - 1, rest, scores);
      assert ArgsortPrefix(scores, n) == InsertByScore(n - 1, rest, scores);
    }
  }

  /** The first n indices, each exactly once. */
  lemma {:induction false} ArgsortPrefixIndices(scores: seq<Score>, n: nat)
    requires n <= |scores|
    ensures forall x :: x in ArgsortPrefix(scores, n) <==> 0 <= x < n
    ensures Distinct(ArgsortPrefix(scores, n))
  {
    if n > 0 {
      ArgsortPrefixIndices(scores, n - 1);
      var p := ArgsortPrefixSplit(scores, n);
      AddNextIndex(ArgsortPrefix(scores, n - 1), p, n - 1);
    }
  }

  /** Where the insertion sort places index n - 1 among the first n - 1. */
  lemma ArgsortPrefixSplit(scores: seq<Score>, n: nat) returns (p: nat)
    requires 0 < n <= |scores|
    ensures var rest := ArgsortPrefix(scores, n - 1);
            p <= |rest| && ArgsortPrefix(scores, n) == rest[..p] + [n - 1] + rest[p..]
  {
    p := InsertPosition(n - 1, ArgsortPrefix(scores, n - 1), scores);
  }

  /** Putting index m into a sequence of the indices below m, each once, at
      any position gives the indices below m + 1, each once. */
  lemma AddNextIndex(s: seq<int>, p: nat, m: nat)
    requires p <= |s| && Distinct(s)
    requires forall x :: x in s <==> 0 <= x < m
    ensures forall x :: x in s[..p] + [m] + s[p..] <==> 0 <= x < m + 1
    ensures Distinct(s[..p] + [m] + s[p..])
  {
    InsertAt(s, p, m);
  }

  /** Putting a new value into a sequence without repeats keeps it without
      repeats and adds exactly that value. */
  lemma InsertAt(s: seq<int>, p: nat, v: int)
    requires p <= |s| && Distinct(s) && v !in s
    ensures forall x :: x in s[..p] + [v] + s[p..] <==> x in s || x == v
    ensures Distinct(s[..p] + [v] + s[p..])
  {
    var r := s[..p] + [v] + s[p..];
    assert s == s[..p] + s[p..];
    forall a, b | 0 <= a < b < |r| ensures r[a] != r[b] {
      var sa := if a < p then a else a - 1;
      var sb := if b < p then b else b - 1;
      if a != p && b != p {
        assert r[a] == s[sa] && r[b] == s[sb];
      } else if a == p {
        assert r[b] == s[sb];
      } else {
        assert r[a] == s[sa];
      }
    }
  }

  /** argsort lists every index. */
  lemma ArgsortCoversIndices(scores: seq<Score>)
    ensures forall i :: 0 <= i < |scores| ==> i in ArgsortDescending(scores)
  {
    ArgsortPrefixIndices(scores, |scores|);
  }

  /** argsort lists each index only once. */
  lemma ArgsortIndicesDistinct(scores: seq<Score>)
    ensures var order := ArgsortDescending(scores);
            forall k, l :: 0 <= k < l < |order| ==> order[k] != order[l]
  {
    ArgsortPrefixIndices(scores, |scores|);
  }

  /** The elements of `available` picked by a sequence of positions. */
  function Pick(available: seq<int>, idx: seq<int>): (r: seq<int>)
    requires forall k :: 0 <= k < |idx| ==> 0 <= idx[k] < |available|
    ensures |r| == |idx| && forall k :: 0 <= k < |idx| ==> r[k] == available[idx[k]]
  {
    seq(|idx|, k requires 0 <= k < |idx| => available[idx[k]])
  }

  /** Where InsertByScore puts the new index. */
  lemma {:induction false} InsertPosition(i: nat, s: seq<int>, scores: seq<Score>) returns (p: nat)
    requires i < |scores|
    requires forall k :: 0 <= k < |s| ==> 0 <= s[k] < |scores|
    ensures p <= |s| && InsertByScore(i, s, scores) == s[..p] + [i] + s[p..]
  {
    if s == [] || AtLeast(scores[i], scores[s[0]]) {
      p := 0;
    } else {
      var q := InsertPosition(i, s[1..], scores);
      p := q + 1;
      assert s[..p] == [s[0]] + s[1..][..q];
      assert s[p..] == s[1..][q..];
    }
  }

  lemma PickAppend(available: seq<int>, x: seq<int>, y: seq<int>)
    requires forall k :: 0 <= k < |x| ==> 0 <= x[k] < |available|
    requires forall k :: 0 <= k < |y| ==> 0 <= y[k] < |available|
    ensures Pick(available, x + y) == Pick(available, x) + Pick(available, y)
  {
  }

  lemma PickInsert(available: seq<int>, i: nat, s: seq<int>, scores: seq<Score>)
    requires |scores| == |available| && i < |scores|
    requires forall k :: 0 <= k < |s| ==> 0 <= s[k] < |scores|
    ensures multiset(Pick(available, InsertByScore(i, s, scores)))
         == multiset(Pick(available, s)) + multiset{available[i]}
  {
    var p := InsertPosition(i, s, scores);
    PickInsertAt(available, i, s, p);
  }

  /** Picking with one more index adds that index's element. */
  lemma PickInsertAt(available: seq<int>, i: nat, s: seq<int>, p: nat)
    requires i < |available| && p <= |s|
    requires forall k :: 0 <= k < |s| ==> 0 <= s[k] < |available|
    ensures multiset(Pick(available, s[..p] + [i] + s[p..])) == multiset(Pick(available, s)) + multiset{available[i]}
  {
    var x, y := s[..p], s[p..];
    var px, py := Pick(available, x), Pick(available, y);
    assert Pick(available, x + [i] + y) == px + [available[i]] + py by {
      PickAppend(available, x + [i], y);
      PickAppend(available, x, [i]);
      assert Pick(available, [i]) == [available[i]];
    }
    assert Pick(available, s) == px + py by {
      PickAppend(available, x, y);
      assert x + y == s;
    }
    MultisetInsert(px, available[i], py);
  }

  lemma MultisetInsert(x: seq<int>, v: int, y: seq<int>)
    ensures multiset(x + [v] + y) == multiset(x + y) + multiset{v}
  {
  }

  lemma {:induction false} PickArgsortPrefix(available: seq<int>, scores: seq<Score>, n: nat)
    requires |scores| == |available| && n <= |scores|
    ensures multiset(Pick(available, ArgsortPrefix(scores, n))) == multiset(available[..n])
  {
    if n > 0 {
      var rest := ArgsortPrefix(scores, n - 1);
      var ins := InsertByScore(n - 1, rest, scores);
      assert ArgsortPrefix(scores, n) == ins;
      PickInsert(available, n - 1, rest, scores);
      PickArgsortPrefix(available, scores, n - 1);
      PrefixMultisetStep(available, n);
    }
  }

  lemma PrefixMultisetStep(s: seq<int>, n: nat)
    requires 0 < n <= |s|
    ensures multiset(s[..n]) == multiset(s[..n - 1]) + multiset{s[n - 1]}
  {
    assert s[..n] == s[..n - 1] + [s[n - 1]];
  }

  /** get_order_of_axons_to_query with the Gumbel noise as an input: the axons
      ranked by perturbed score, highest first. */
  function OrderOfAxonsToQuery(available: seq<int>, probabilities: seq<real>, noise: seq<real>, ln: real -> real): (r: seq<int>)
    requires |probabilities| == |available| && |noise| == |available|
    ensures |r| == |available|
    ensures multiset(r) == multiset(available)
    ensures var scores := PerturbedScores(probabilities, noise, ln);
            var idx := ArgsortDescending(scores);
            && (forall k :: 0 <= k < |r| ==> r[k] == available[idx[k]])
            && (forall a, b :: 0 <= a < b < |r| ==> AtLeast(scores[idx[a]], scores[idx[b]]))
  {
    var scores := PerturbedScores(probabilities, noise, ln);
    var idx := ArgsortDescending(scores);
    ArgsortPrefixProperties(scores, |scores|);
    PickArgsortPrefix(available, scores, |scores|);
    assert available[..|available|] == available;
    Pick(available, idx)
  }

  /** With distinct axon ids the order lists each axon exactly once. */
  lemma OrderIsPermutation(available: seq<int>, probabilities: seq<real>, noise: seq<real>, ln: real -> real)
    requires |probabilities| == |available| && |noise| == |available|
    requires forall i, j :: 0 <= i < j < |available| ==> available[i] != available[j]
    ensures var r := OrderOfAxonsToQuery(available, probabilities, noise, ln);
            && (forall x :: x in r <==> x in available)
            && (forall i, j :: 0 <= i < j < |r| ==> r[i] != r[j])
  {
    var r := OrderOfAxonsToQuery(available, probabilities, noise, ln);
    assert multiset(r) == multiset(available);
    forall x ensures x in r <==> x in available {
      assert x in r <==> x in multiset(r);
      assert x in available <==> x in multiset(available);
    }
    forall i, j | 0 <= i < j < |r| ensures r[i] != r[j] {
      if r[i] == r[j] {
        CountAtLeastTwo(r, i, j);
        DistinctCountAtMostOne(available, r[i]);
        assert false;
      }
    }
  }

  lemma {:induction false} CountAtLeastTwo(s: seq<int>, i: nat, j: nat)
    requires i < j < |s| && s[i] == s[j]
    ensures multiset(s)[s[i]] >= 2
  {
    assert s == s[..i] + [s[i]] + s[i + 1..j] + [s[j]] + s[j + 1..];
  }

  lemma {:induction false} DistinctCountAtMostOne(s: seq<int>, x: int)
    requires forall i, j :: 0 <= i < j < |s| ==> s[i] != s[j]
    ensures multiset(s)[x] <= 1
  {
    if s != [] {
      assert s == [s[0]] + s[1..];
      DistinctCountAtMostOne(s[1..], x);
      if s[0] == x {
        assert x !in s[1..];
      }
    }
  }

  /** An axon with probability 0 is still queried, after every axon with a
      positive probability. */
  lemma ZeroProbabilityRankedLast(available: seq<int>, probabilities: seq<real>, noise: seq<real>, ln: real -> real, a: nat, b: nat)
    requires |probabilities| == |available| && |noise| == |available|
    requires a < b < |available|
    ensures var scores := PerturbedScores(probabilities, noise, ln);
            var idx := ArgsortDescending(scores);
            probabilities[idx[a]] == 0.0 ==> probabilities[idx[b]] == 0.0
  {
    var scores := PerturbedScores(probabilities, noise, ln);
    var r := OrderOfAxonsToQuery(available, probabilities, noise, ln);
    var idx := ArgsortDescending(scores);
    assert AtLeast(scores[idx[a]], scores[idx[b]]);
  }

  lemma ZeroProbabilityNotFiltered(available: seq<int>, probabilities: seq<real>, noise: seq<real>, ln: real -> real, j: nat)
    requires |probabilities| == |available| && |noise| == |available|
    requires j < |available| && probabilities[j] == 0.0
    ensures available[j] in OrderOfAxonsToQuery(available, probabilities, noise, ln)
  {
    var r := OrderOfAxonsToQuery(available, probabilities, noise, ln);
    assert available[j] in multiset(available);
  }

  /** The scores actually rank: each axon comes after every axon whose score
      is strictly higher. */
  lemma OrderRespectsStrictlyHigherScores(available: seq<int>, probabilities: seq<real>, noise: seq<real>, ln: real -> real, a: nat, b: nat)
    requires |probabilities| == |available| && |noise| == |available|
    requires a < |available| && b < |available|
    ensures var scores := PerturbedScores(probabilities, noise, ln);
            var idx := ArgsortDescending(scores);
            !AtLeast(scores[idx[b]], scores[idx[a]]) ==> a < b
  {
    var r := OrderOfAxonsToQuery(available, probabilities, noise, ln);
    var scores := PerturbedScores(probabilities, noise, ln);
    var idx := ArgsortDescending(scores);
    if b < a {
      assert AtLeast(scores[idx[b]], scores[idx[a]]);
    } else if a == b {
      match scores[idx[a]] {
        case NegInfinity =>
        case Finite(_) =>
      }
    }
  }
}
