/**
 * The start-order helpers of the early networked version (network.go at
 * the repository root).  Each peer draws RANDOM_TRIES numbers, each 1 or 2
 * (1: the listener starts, 2: the connector starts).  The first index where
 * the two lists agree decides; 0 means no index agreed.
 *
 * `rand.Int()` is the parameter `draws`: the non-negative numbers the
 * generator returns, in order.
 */
module EarlyArbitration {
  const RandomTries: nat := 10

  /** `genNums`: fills a fresh slice of RANDOM_TRIES numbers with `1 + draw % 2`. */
  method GenNums(draws: seq<nat>) returns (nums: array<int>)
    requires |draws| == RandomTries
    ensures fresh(nums) && nums.Length == RandomTries
    ensures forall k :: 0 <= k < nums.Length ==> nums[k] == 1 + draws[k] % 2
    ensures forall k :: 0 <= k < nums.Length ==> nums[k] == 1 || nums[k] == 2
  {
    nums := new int[RandomTries];
    for i := 0 to RandomTries
      invariant forall k :: 0 <= k < i ==> nums[k] == 1 + draws[k] % 2
    {
      nums[i] := 1 + draws[i] % 2;
    }
  }

  /** `i` is the first index at which the two lists agree. */
  predicate FirstAgreement(myNums: seq<int>, hisNums: seq<int>, i: int)
    requires |hisNums| >= |myNums|
  {
    0 <= i < |myNums| && myNums[i] == hisNums[i] && forall k :: 0 <= k < i ==> myNums[k] != hisNums[k]
  }

  /**
   * `getFirstPlayer`: the value at the first index where the lists agree,
   * or 0 when none does.  Indexing `hisNums` over `myNums`' range needs it
   * to be at least as long.
   */
  function GetFirstPlayer(myNums: seq<int>, hisNums: seq<int>): (r: int)
    requires |hisNums| >= |myNums|
    ensures forall i :: FirstAgreement(myNums, hisNums, i) ==> r == myNums[i]
    ensures (forall k :: 0 <= k < |myNums| ==> myNums[k] != hisNums[k]) ==> r == 0
  {
    if |myNums| == 0 then 0
    else if myNums[0] == hisNums[0] then myNums[0]
    else
      var r := GetFirstPlayer(myNums[1..], hisNums[1..]);
      assert forall i :: FirstAgreement(myNums, hisNums, i) ==> FirstAgreement(myNums[1..], hisNums[1..], i - 1);
      r
  }

  /** Swapping the two lists gives the same answer: both peers agree on who starts. */
  lemma {:induction false} GetFirstPlayerSymmetric(a: seq<int>, b: seq<int>)
    requires |a| == |b|
    ensures GetFirstPlayer(a, b) == GetFirstPlayer(b, a)
  {
    if |a| > 0 && a[0] != b[0] {
      GetFirstPlayerSymmetric(a[1..], b[1..]);
    }
  }

  /**
   * For lists of 1s and 2s (what `genNums` produces) the answer is 1 or 2
   * when some index agrees and 0 exactly when none does.
   */
  lemma {:induction false} GetFirstPlayerRange(a: seq<int>, b: seq<int>)
    requires |b| >= |a|
    requires forall k :: 0 <= k < |a| ==> a[k] == 1 || a[k] == 2
    ensures GetFirstPlayer(a, b) in {0, 1, 2}
    ensures GetFirstPlayer(a, b) == 0 <==> forall k :: 0 <= k < |a| ==> a[k] != b[k]
  {
    if |a| > 0 && a[0] != b[0] {
      GetFirstPlayerRange(a[1..], b[1..]);
      assert forall k :: 1 <= k < |a| ==> a[k] == a[1..][k - 1] && b[k] == b[1..][k - 1];
    }
  }
}
