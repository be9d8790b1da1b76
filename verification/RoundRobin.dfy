/** The weighted round-robin arbiter in front of the directory: search, shares and waiting bound. */
module RoundRobin {
  datatype State = State(index: nat, credits: nat)

  datatype Answer = Grants(oneHot: seq<nat>) | LengthError | Timeout

  /** Sum of the first k weights. */
  function Prefix(weights: seq<nat>, k: nat): nat
    requires k <= |weights|
  {
    if k == 0 then 0 else Prefix(weights, k - 1) + weights[k - 1]
  }

  function Sum(weights: seq<nat>): nat {
    Prefix(weights, |weights|)
  }

  ghost predicate Weights(weights: seq<nat>) {
    |weights| > 0 && forall i | 0 <= i < |weights| :: weights[i] > 0
  }

  ghost predicate Valid(weights: seq<nat>, s: State) {
    Weights(weights) && s.index < |weights| && 1 <= s.credits <= weights[s.index]
  }

  predicate Any(requests: seq<bool>) {
    exists i :: 0 <= i < |requests| && requests[i]
  }

  /** (i + 1) % n */
  function Turn(n: nat, i: nat): (j: nat)
    requires i < n
    ensures j == if i + 1 < n then i + 1 else 0
  {
    (i + 1) % n
  }

  /** The requester `d` places after `start`, counting round. */
  function Around(n: nat, start: nat, d: nat): (i: nat)
    requires start < n && d <= n
    ensures i < n && (i == start + d || i == start + d - n)
  {
    if start + d < n then start + d else start + d - n
  }

  function Advance(weights: seq<nat>, s: State): State
    requires Weights(weights) && s.index < |weights|
  {
    var i := Turn(|weights|, s.index);
    State(i, weights[i])
  }

  /** `w` is the first requester met from `start` onwards. */
  ghost predicate First(requests: seq<bool>, start: nat, w: nat)
    requires start < |requests|
  {
    && w < |requests| && requests[w]
    && exists d: nat :: FirstAt(requests, start, w, d)
  }

  ghost predicate FirstAt(requests: seq<bool>, start: nat, w: nat, d: nat)
    requires start < |requests|
  {
    && d < |requests| && w == Around(|requests|, start, d)
    && forall e: nat | e < d :: !requests[Around(|requests|, start, e)]
  }

  /** Where the search stops: at a requester, or when the fuel is spent. */
  function Seek(weights: seq<nat>, s: State, requests: seq<bool>, fuel: nat): (r: State)
    requires Weights(weights) && s.index < |weights| == |requests|
    ensures r.index < |weights|
    decreases fuel
  {
    if fuel == 0 || requests[s.index] then s
    else Seek(weights, Advance(weights, s), requests, fuel - 1)
  }

  /** One grant: a credit is spent, and with the last one the turn passes on. */
  function Spend(weights: seq<nat>, s: State): State
    requires Valid(weights, s)
  {
    if s.credits == 1 then Advance(weights, s) else s.(credits := s.credits - 1)
  }

  function Winner(weights: seq<nat>, s: State, requests: seq<bool>): State
    requires Weights(weights) && s.index < |weights| == |requests|
  {
    Seek(weights, s, requests, |weights|)
  }

  function After(weights: seq<nat>, s: State, requests: seq<bool>): State
    requires Valid(weights, s) && |requests| == |weights|
  {
    if Any(requests) then
      SeekValid(weights, s, requests, |weights|);
      Spend(weights, Winner(weights, s, requests))
    else s
  }

  lemma {:induction false} SeekValid(weights: seq<nat>, s: State, requests: seq<bool>, fuel: nat)
    requires Valid(weights, s) && |requests| == |weights|
    ensures Valid(weights, Seek(weights, s, requests, fuel))
    decreases fuel
  {
    if fuel > 0 && !requests[s.index] {
      SeekValid(weights, Advance(weights, s), requests, fuel - 1);
    }
  }

  // ---- The search finds the next requester ----

  /** With some requester, the search stops at the first one from the current index on. */
  lemma {:induction false} SeekFinds(weights: seq<nat>, s: State, requests: seq<bool>, fuel: nat, d: nat)
    requires Valid(weights, s) && |requests| == |weights| && d <= fuel && d < |weights|
    requires requests[Around(|weights|, s.index, d)]
    requires forall e: nat | e < d :: !requests[Around(|weights|, s.index, e)]
    ensures var r := Seek(weights, s, requests, fuel);
            && r.index == Around(|weights|, s.index, d)
            && r.credits == if d == 0 then s.credits else weights[r.index]
    decreases fuel
  {
    assert Around(|weights|, s.index, 0) == s.index;
    if d > 0 {
      assert !requests[Around(|weights|, s.index, 0)];
      var next := Advance(weights, s);
      forall e: nat | e < d - 1 ensures !requests[Around(|weights|, next.index, e)] {
        assert Around(|weights|, next.index, e) == Around(|weights|, s.index, e + 1);
      }
      assert Around(|weights|, next.index, d - 1) == Around(|weights|, s.index, d);
      SeekFinds(weights, next, requests, fuel - 1, d - 1);
    }
  }

  lemma {:induction false} FirstExists(requests: seq<bool>, start: nat, d: nat) returns (first: nat)
    requires start < |requests| && d < |requests| && requests[Around(|requests|, start, d)]
    requires d <= |requests|
    ensures first <= d && requests[Around(|requests|, start, first)]
    ensures forall e: nat | e < first :: !requests[Around(|requests|, start, e)]
  {
    first := 0;
    while !requests[Around(|requests|, start, first)]
      invariant first <= d
      invariant forall e: nat | e < first :: !requests[Around(|requests|, start, e)]
      decreases d - first
    {
      first := first + 1;
    }
  }

  /** The winner is the first to request, counting round from the current index, and keeps or gains its credits. */
  lemma WinnerFirst(weights: seq<nat>, s: State, requests: seq<bool>)
    requires Valid(weights, s) && |requests| == |weights| && Any(requests)
    ensures Valid(weights, Winner(weights, s, requests))
    ensures First(requests, s.index, Winner(weights, s, requests).index)
    ensures Winner(weights, s, requests).credits
         == if requests[s.index] then s.credits else weights[Winner(weights, s, requests).index]
  {
    var n := |weights|;
    var i :| 0 <= i < n && requests[i];
    var far := if s.index <= i then i - s.index else n + i - s.index;
    assert Around(n, s.index, far) == i;
    var d := FirstExists(requests, s.index, far);
    SeekFinds(weights, s, requests, n, d);
    SeekValid(weights, s, requests, n);
    assert FirstAt(requests, s.index, Winner(weights, s, requests).index, d);
    assert Around(n, s.index, 0) == s.index;
  }

  // ---- Starvation bound ----

  lemma {:induction false} PrefixMonotone(weights: seq<nat>, i: nat, j: nat)
    requires i <= j <= |weights|
    ensures Prefix(weights, i) <= Prefix(weights, j)
    decreases j
  {
    if i < j {
      PrefixMonotone(weights, i, j - 1);
    }
  }

  /** The weights from `i` round to just before `r`. */
  function Between(weights: seq<nat>, i: nat, r: nat): int
    requires i < |weights| && r < |weights|
  {
    if i <= r then Prefix(weights, r) - Prefix(weights, i)
    else Sum(weights) - Prefix(weights, i) + Prefix(weights, r)
  }

  /** The grants others can still take before the turn comes to `r`. */
  function Wait(weights: seq<nat>, s: State, r: nat): int
    requires s.index < |weights| && r < |weights|
  {
    if s.index == r then 0 else Between(weights, s.index, r) - (weights[s.index] - s.credits)
  }

  lemma WaitBound(weights: seq<nat>, s: State, r: nat)
    requires Valid(weights, s) && r < |weights|
    ensures 0 <= Wait(weights, s, r) <= Sum(weights) - weights[r]
    ensures s.index != r ==> Wait(weights, s, r) > 0
  {
    PrefixMonotone(weights, r + 1, |weights|);
    PrefixMonotone(weights, s.index + 1, |weights|);
    if s.index < r {
      PrefixMonotone(weights, s.index + 1, r);
    } else if r < s.index {
      PrefixMonotone(weights, r + 1, s.index);
    }
  }

  /** Passing over an idle requester other than `r` never lengthens the wait of `r`. */
  lemma AdvanceWait(weights: seq<nat>, s: State, r: nat)
    requires Valid(weights, s) && r < |weights| && s.index != r
    ensures Wait(weights, Advance(weights, s), r) == Wait(weights, s, r) - s.credits
  {}

  lemma {:induction false} SeekWait(weights: seq<nat>, s: State, requests: seq<bool>, r: nat, fuel: nat)
    requires Valid(weights, s) && |requests| == |weights| && r < |weights| && requests[r]
    ensures Valid(weights, Seek(weights, s, requests, fuel))
    ensures Wait(weights, Seek(weights, s, requests, fuel), r) <= Wait(weights, s, r)
    decreases fuel
  {
    if fuel > 0 && !requests[s.index] {
      AdvanceWait(weights, s, r);
      SeekWait(weights, Advance(weights, s), requests, r, fuel - 1);
    }
  }

  /** Every grant to another requester brings `r` at least one grant nearer. */
  lemma ForeignGrant(weights: seq<nat>, s: State, requests: seq<bool>, r: nat)
    requires Valid(weights, s) && |requests| == |weights| && r < |weights| && requests[r]
    requires Winner(weights, s, requests).index != r
    ensures Valid(weights, After(weights, s, requests))
    ensures Wait(weights, After(weights, s, requests), r) < Wait(weights, s, r)
  {
    SeekWait(weights, s, requests, r, |weights|);
    var w := Winner(weights, s, requests);
    if w.credits == 1 {
      AdvanceWait(weights, w, r);
    }
  }

  /** The requesters granted over a run of request vectors; `|weights|` stands for no grant. */
  function Granted(weights: seq<nat>, s: State, rounds: seq<seq<bool>>): (winners: seq<nat>)
    requires Valid(weights, s) && forall k | 0 <= k < |rounds| :: |rounds[k]| == |weights|
    ensures |winners| == |rounds|
    decreases |rounds|
  {
    if rounds == [] then []
    else
      AfterValid(weights, s, rounds[0]);
      [if Any(rounds[0]) then Winner(weights, s, rounds[0]).index else |weights|]
        + Granted(weights, After(weights, s, rounds[0]), rounds[1..])
  }

  lemma AfterValid(weights: seq<nat>, s: State, requests: seq<bool>)
    requires Valid(weights, s) && |requests| == |weights|
    ensures Valid(weights, After(weights, s, requests))
  {
    SeekValid(weights, s, requests, |weights|);
  }

  /** The state after a run of request vectors. */
  function Ends(weights: seq<nat>, s: State, rounds: seq<seq<bool>>): (end: State)
    requires Valid(weights, s) && forall k | 0 <= k < |rounds| :: |rounds[k]| == |weights|
    ensures Valid(weights, end)
    decreases |rounds|
  {
    if rounds == [] then s
    else
      AfterValid(weights, s, rounds[0]);
      Ends(weights, After(weights, s, rounds[0]), rounds[1..])
  }

  /**
   * A requester that keeps requesting, whatever the others do, is granted before the others have
   * taken more grants than the sum of their weights.
   */
  lemma {:induction false} StarvationBound(weights: seq<nat>, s: State, rounds: seq<seq<bool>>, r: nat)
    requires Valid(weights, s) && r < |weights|
    requires forall k | 0 <= k < |rounds| :: |rounds[k]| == |weights| && rounds[k][r]
    requires r !in Granted(weights, s, rounds)
    ensures |rounds| <= Wait(weights, s, r) <= Sum(weights) - weights[r]
    decreases |rounds|
  {
    WaitBound(weights, s, r);
    if rounds != [] {
      assert Any(rounds[0]) by { assert rounds[0][r]; }
      assert Granted(weights, s, rounds)[0] == Winner(weights, s, rounds[0]).index;
      AfterValid(weights, s, rounds[0]);
      ForeignGrant(weights, s, rounds[0], r);
      assert forall w | w in Granted(weights, After(weights, s, rounds[0]), rounds[1..]) ::
          w in Granted(weights, s, rounds);
      StarvationBound(weights, After(weights, s, rounds[0]), rounds[1..], r);
    }
  }

  // ---- What one grant does ----

  /**
   * The grant goes to the first requester counting round from the old index, `d` places on, and to nobody
   * else. It spends one credit, of those left if the turn was the requester's own and of a full load if it
   * came to it now; with the last credit the turn goes on to the next requester, fully loaded.
   */
  predicate GrantsAt(weights: seq<nat>, s: State, requests: seq<bool>, d: nat, oneHot: seq<nat>, s': State)
    requires Weights(weights) && s.index < |weights| == |requests| == |oneHot| && d < |weights|
  {
    var n := |weights|;
    var w := Around(n, s.index, d);
    var credits := if d == 0 then s.credits else weights[w];
    && requests[w] && (forall e: nat | e < d :: !requests[Around(n, s.index, e)])
    && oneHot[w] == 1 && (forall k | 0 <= k < n && k != w :: oneHot[k] == 0)
    && s' == (if credits > 1 then State(w, credits - 1) else State(Turn(n, w), weights[Turn(n, w)]))
  }

  // ---- Exact shares ----

  predicate Everyone(requests: seq<bool>) {
    forall i | 0 <= i < |requests| :: requests[i]
  }

  function Count(winners: seq<nat>, i: nat): nat {
    if winners == [] then 0 else (if winners[0] == i then 1 else 0) + Count(winners[1..], i)
  }

  /** The weights of those who ask. */
  function Asking(weights: seq<nat>, requests: seq<bool>): (w: seq<nat>)
    requires |requests| == |weights|
    ensures |w| == |weights|
    ensures forall i | 0 <= i < |weights| :: w[i] == if requests[i] then weights[i] else 0
  {
    seq(|weights|, i requires 0 <= i < |weights| => if requests[i] then weights[i] else 0)
  }

  /** Grants of the current lap already given, and how many of them went to `i`; `w` has the weights of the asking. */
  function Position(w: seq<nat>, s: State): int
    requires s.index < |w|
  {
    Prefix(w, s.index) + w[s.index] - s.credits
  }

  function Served(w: seq<nat>, s: State, i: nat): int
    requires s.index < |w| && i < |w|
  {
    if i < s.index then w[i] else if i == s.index then w[i] - s.credits else 0
  }

  ghost predicate OnTurn(weights: seq<nat>, requests: seq<bool>, s: State) {
    Valid(weights, s) && |requests| == |weights| && requests[s.index]
  }

  lemma PositionBound(weights: seq<nat>, requests: seq<bool>, s: State)
    requires OnTurn(weights, requests, s)
    ensures 0 <= Position(Asking(weights, requests), s) < Sum(Asking(weights, requests))
  {
    PrefixMonotone(Asking(weights, requests), s.index + 1, |weights|);
  }

  /** The position fixes the state. */
  lemma PositionUnique(weights: seq<nat>, requests: seq<bool>, s: State, t: State)
    requires OnTurn(weights, requests, s) && OnTurn(weights, requests, t)
    requires Position(Asking(weights, requests), s) == Position(Asking(weights, requests), t)
    ensures s == t
  {
    var w := Asking(weights, requests);
    if s.index < t.index {
      PrefixMonotone(w, s.index + 1, t.index);
    } else if t.index < s.index {
      PrefixMonotone(w, t.index + 1, s.index);
    }
  }

  lemma {:induction false} PrefixFlat(w: seq<nat>, i: nat, j: nat)
    requires i <= j <= |w| && forall k | i <= k < j :: w[k] == 0
    ensures Prefix(w, i) == Prefix(w, j)
    decreases j
  {
    if i < j {
      PrefixFlat(w, i, j - 1);
    }
  }

  /** The next turn after the last credit: nobody in between asks, and a lap ends if the count went round. */
  lemma NextTurn(weights: seq<nat>, requests: seq<bool>, s: State)
    requires OnTurn(weights, requests, s)
    ensures Valid(weights, Advance(weights, s))
    ensures var next, w := Winner(weights, Advance(weights, s), requests), Asking(weights, requests);
            && OnTurn(weights, requests, next) && next.credits == weights[next.index]
            && (if next.index <= s.index
                then Prefix(w, next.index) == 0 && Prefix(w, s.index + 1) == Sum(w)
                     && (forall k | 0 <= k < |w| && (k < next.index || s.index < k) :: w[k] == 0)
                else Prefix(w, next.index) == Prefix(w, s.index + 1)
                     && (forall k | s.index < k < next.index :: w[k] == 0))
  {
    var n, from, w := |weights|, Advance(weights, s), Asking(weights, requests);
    assert Any(requests);
    WinnerFirst(weights, from, requests);
    var next := Winner(weights, from, requests);
    var d := Distance(weights, from, requests);
    forall k | 0 <= k < n
               && (if next.index <= s.index then k < next.index || s.index < k else s.index < k < next.index)
      ensures w[k] == 0
    {
      var e := if from.index <= k then k - from.index else n + k - from.index;
      assert Around(n, from.index, e) == k;
      BeforeNext(n, from.index, d, e, s.index);
    }
    if next.index <= s.index {
      PrefixFlat(w, 0, next.index);
      PrefixFlat(w, s.index + 1, n);
    } else {
      PrefixFlat(w, s.index + 1, next.index);
    }
  }

  lemma BeforeNext(n: nat, from: nat, d: nat, e: nat, last: nat)
    requires from < n && d < n && e < n && last < n && from == Turn(n, last)
    requires var k, j := Around(n, from, e), Around(n, from, d);
             if j <= last then k < j || last < k else last < k < j
    ensures e < d
  {}

  /** One grant among a fixed set of requesters. */
  lemma ShareStep(weights: seq<nat>, requests: seq<bool>, s: State, i: nat)
    requires OnTurn(weights, requests, s) && i < |weights|
    ensures Valid(weights, Spend(weights, s))
    ensures var next, w := Winner(weights, Spend(weights, s), requests), Asking(weights, requests);
            var wraps := s.credits == 1 && next.index <= s.index;
            && OnTurn(weights, requests, next)
            && Position(w, next) == Position(w, s) + 1 - (if wraps then Sum(w) else 0)
            && Served(w, next, i) == Served(w, s, i) + (if s.index == i then 1 else 0) - (if wraps then w[i] else 0)
  {
    if s.credits == 1 {
      NextTurn(weights, requests, s);
    }
  }

  /** With the same ones asking, grants and positions advance in step, lap after lap. */
  lemma {:induction false} Laps(weights: seq<nat>, s: State, requests: seq<bool>, rounds: seq<seq<bool>>, i: nat)
    returns (laps: nat)
    requires Valid(weights, s) && |requests| == |weights| && Any(requests) && i < |weights|
    requires forall k | 0 <= k < |rounds| :: rounds[k] == requests
    ensures var w, from, to := Asking(weights, requests), Winner(weights, s, requests),
                               Winner(weights, Ends(weights, s, rounds), requests);
            && OnTurn(weights, requests, from) && OnTurn(weights, requests, to)
            && Position(w, from) + |rounds| == laps * Sum(w) + Position(w, to)
            && Served(w, from, i) + Count(Granted(weights, s, rounds), i) == laps * w[i] + Served(w, to, i)
    decreases |rounds|
  {
    var w, from := Asking(weights, requests), Winner(weights, s, requests);
    WinnerFirst(weights, s, requests);
    if rounds == [] {
      laps := 0;
    } else {
      ShareStep(weights, requests, from, i);
      var next := After(weights, s, requests);
      laps := Laps(weights, next, requests, rounds[1..], i);
      if from.credits == 1 && Winner(weights, next, requests).index <= from.index {
        MulStep(laps, Sum(w));
        MulStep(laps, w[i]);
        laps := laps + 1;
      }
    }
  }

  lemma MulStep(a: nat, m: nat)
    ensures (a + 1) * m == a * m + m
  {}

  /**
   * From any state, while the same ones keep asking, as many grants as their weights add up to give each of
   * them exactly its weight and nobody else any; then the turn stands where it stood.
   */
  lemma ExactShare(weights: seq<nat>, s: State, requests: seq<bool>, rounds: seq<seq<bool>>, i: nat)
    requires Valid(weights, s) && |requests| == |weights| && Any(requests) && i < |weights|
    requires |rounds| == Sum(Asking(weights, requests)) && forall k | 0 <= k < |rounds| :: rounds[k] == requests
    ensures Count(Granted(weights, s, rounds), i) == if requests[i] then weights[i] else 0
    ensures Winner(weights, Ends(weights, s, rounds), requests) == Winner(weights, s, requests)
    ensures Everyone(requests) ==> Ends(weights, s, rounds) == s
  {
    var laps := Laps(weights, s, requests, rounds, i);
    var w, end := Asking(weights, requests), Ends(weights, s, rounds);
    var from, to := Winner(weights, s, requests), Winner(weights, end, requests);
    PositionBound(weights, requests, from);
    PositionBound(weights, requests, to);
    OneLap(laps, Sum(w), Position(w, from), Position(w, to));
    Once(laps, w[i]);
    PositionUnique(weights, requests, from, to);
    if Everyone(requests) {
      EveryoneStep(weights, s, requests);
      EveryoneStep(weights, end, requests);
    }
  }

  lemma OneLap(laps: nat, sum: nat, from: int, to: int)
    requires 0 <= from < sum && 0 <= to < sum && from + sum == laps * sum + to
    ensures laps == 1 && from == to
  {}

  lemma Once(laps: nat, share: nat)
    requires laps == 1
    ensures laps * share == share
  {}

  /** A requester granted with credits left, that still asks, is granted again, whatever the others ask. */
  lemma KeepsTurn(weights: seq<nat>, s: State, requests: seq<bool>, later: seq<bool>)
    requires Valid(weights, s) && |requests| == |later| == |weights| && Any(requests)
    requires var won := Winner(weights, s, requests); won.credits > 1 && later[won.index]
    ensures var won := Winner(weights, s, requests);
            && Valid(weights, After(weights, s, requests))
            && Winner(weights, After(weights, s, requests), later) == State(won.index, won.credits - 1)
  {
    AfterValid(weights, s, requests);
  }

  lemma EveryoneStep(weights: seq<nat>, s: State, requests: seq<bool>)
    requires Valid(weights, s) && |requests| == |weights| && Everyone(requests)
    ensures Any(requests) && Winner(weights, s, requests) == s && Valid(weights, After(weights, s, requests))
  {
    assert requests[s.index];
    AfterValid(weights, s, requests);
  }

  /** The bound is met: with everyone requesting, exactly Wait foreign grants precede the turn of `r`. */
  lemma {:induction false} WaitTight(weights: seq<nat>, s: State, rounds: seq<seq<bool>>, r: nat)
    requires Valid(weights, s) && r < |weights| && |rounds| == Wait(weights, s, r) + 1
    requires forall k | 0 <= k < |rounds| :: |rounds[k]| == |weights| && Everyone(rounds[k])
    ensures |rounds| > 0 && Granted(weights, s, rounds)[|rounds| - 1] == r
    ensures forall k | 0 <= k < |rounds| - 1 :: Granted(weights, s, rounds)[k] != r
    decreases |rounds|
  {
    WaitBound(weights, s, r);
    EveryoneStep(weights, s, rounds[0]);
    if s.index != r {
      AfterValid(weights, s, rounds[0]);
      var next := After(weights, s, rounds[0]);
      if s.credits == 1 {
        AdvanceWait(weights, s, r);
      }
      WaitTight(weights, next, rounds[1..], r);
      forall k | 0 < k < |rounds|
        ensures Granted(weights, s, rounds)[k] == Granted(weights, next, rounds[1..])[k - 1]
      {}
    }
  }

  // ---- The arbiter ----

  datatype Creation = Created(arbiter: WeightedRoundRobinArbiter) | WrongLength | NotPositive | NoRequesters

  class WeightedRoundRobinArbiter {
    const weights: seq<nat>
    const maxPossibleIterations: nat
    var currentIndex: nat
    var remainingCredits: nat

    ghost function Turns(): State
      reads this
    {
      State(currentIndex, remainingCredits)
    }

    constructor (weights: seq<nat>)
      requires Weights(weights)
      ensures this.weights == weights && maxPossibleIterations == Sum(weights)
      ensures Turns() == State(0, weights[0]) && Valid(weights, Turns())
    {
      this.weights := weights;
      maxPossibleIterations := Sum(weights);
      currentIndex := 0;
      remainingCredits := weights[0];
    }

    /** The checks on the arguments, in their order: lengths, then positive weights, then a first weight to load. */
    static method Create(numRequesters: int, weights: seq<int>) returns (creation: Creation)
      ensures |weights| != numRequesters ==> creation == WrongLength
      ensures |weights| == numRequesters && (exists i :: 0 <= i < |weights| && weights[i] <= 0) ==>
                creation == NotPositive
      ensures weights == [] && numRequesters == 0 ==> creation == NoRequesters
      ensures weights != [] && |weights| == numRequesters && (forall i | 0 <= i < |weights| :: weights[i] > 0) ==>
                && creation.Created? && fresh(creation.arbiter)
                && creation.arbiter.weights == weights && creation.arbiter.maxPossibleIterations == Sum(weights)
                && creation.arbiter.Turns() == State(0, weights[0]) && Valid(weights, creation.arbiter.Turns())
    {
      if |weights| != numRequesters {
        return WrongLength;
      }
      if exists i :: 0 <= i < |weights| && weights[i] <= 0 {
        return NotPositive;
      }
      if weights == [] {
        return NoRequesters;
      }
      var arbiter := new WeightedRoundRobinArbiter(weights);
      creation := Created(arbiter);
    }

    method Arbitrate(requests: seq<bool>) returns (answer: Answer)
      requires Valid(weights, Turns()) && maxPossibleIterations == Sum(weights)
      modifies this
      ensures Valid(weights, Turns())
      ensures |requests| != |weights| ==> answer == LengthError && Turns() == old(Turns())
      ensures |requests| == |weights| ==>
                && answer.Grants? && |answer.oneHot| == |weights| && Turns() == After(weights, old(Turns()), requests)
                && ((forall i | 0 <= i < |requests| :: !requests[i]) ==>
                      Turns() == old(Turns()) && forall k | 0 <= k < |weights| :: answer.oneHot[k] == 0)
                && ((exists i | 0 <= i < |requests| :: requests[i]) ==>
                      exists d | 0 <= d < |weights| ::
                        GrantsAt(weights, old(Turns()), requests, d, answer.oneHot, Turns()))
    {
      if |requests| != |weights| {
        return LengthError;
      }
      var n := |weights|;
      if !Any(requests) {
        return Grants(seq(n, k => 0));
      }
      var attempts := 0;
      ghost var start := Turns();
      ghost var d := Distance(weights, start, requests);
      SumAtLeast(weights, n);
      while attempts < maxPossibleIterations
        invariant attempts <= d
        invariant currentIndex == Around(n, start.index, attempts)
        invariant remainingCredits == if attempts == 0 then start.credits else weights[currentIndex]
        decreases maxPossibleIterations - attempts
      {
        if requests[currentIndex] {
          assert attempts == d;
          var winner := currentIndex;
          var grant := seq(n, k => if k == winner then 1 else 0);
          AfterValid(weights, start, requests);
          assert After(weights, start, requests) == Spend(weights, Turns());
          assert |grant| == n && grant[winner] == 1;
          remainingCredits := remainingCredits - 1;
          if remainingCredits == 0 {
            currentIndex := Turn(n, currentIndex);
            remainingCredits := weights[currentIndex];
          }
          assert GrantsAt(weights, start, requests, d, grant, Turns());
          return Grants(grant);
        } else {
          assert attempts != d;
          currentIndex := Turn(n, currentIndex);
          remainingCredits := weights[currentIndex];
          attempts := attempts + 1;
        }
      }
      assert false;
      answer := Timeout;
    }
  }

  /** How many idle requesters the search passes over. */
  lemma Distance(weights: seq<nat>, s: State, requests: seq<bool>) returns (d: nat)
    requires Valid(weights, s) && |requests| == |weights| && Any(requests)
    ensures d < |weights| && requests[Around(|weights|, s.index, d)]
    ensures forall e: nat | e < d :: !requests[Around(|weights|, s.index, e)]
    ensures Winner(weights, s, requests)
         == State(Around(|weights|, s.index, d), if d == 0 then s.credits else weights[Around(|weights|, s.index, d)])
  {
    WinnerFirst(weights, s, requests);
    d :| FirstAt(requests, s.index, Winner(weights, s, requests).index, d);
    SeekFinds(weights, s, requests, |weights|, d);
  }

  lemma {:induction false} SumAtLeast(weights: seq<nat>, k: nat)
    requires Weights(weights) && k <= |weights|
    ensures Prefix(weights, k) >= k
  {
    if k > 0 {
      SumAtLeast(weights, k - 1);
    }
  }
}
