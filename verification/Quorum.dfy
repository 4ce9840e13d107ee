/**
 The threshold of a group signature, and what it says about any two groups of signers.
 */
module Quorum {

  type Share = seq<bv8>

  const PUBKEY_LEN := 128

  datatype Verdict = Accepted | Malformed(at: nat) | Repeated(at: nat)

  /** CalcThreshold: the largest t with 3t at most 2n, so that t + 1 signers are more than two thirds. */
  function CalcThreshold(n: nat): (t: nat)
    ensures 3 * t <= 2 * n < 3 * (t + 1)
  {
    var k := n / 3;
    var t := 2 * k;
    if n - 3 * k == 2 then t + 1 else t
  }

  /** The bytes that stand for a signer. */
  function KeyOf(share: Share): Share {
    if |share| < PUBKEY_LEN then share else share[..PUBKEY_LEN]
  }

  /** G2.Unmarshal, up to the test whether the first bytes are a point of the group */
  predicate Unmarshals(share: Share, isPoint: Share -> bool) {
    |share| >= PUBKEY_LEN && isPoint(share[..PUBKEY_LEN])
  }

  /** copy into an array of fixed size: what the source is too short for stays */
  function Copy(to: Share, from: Share): Share {
    if |from| < |to| then from + to[|from|..] else from[..|to|]
  }

  /** A repeated key shows at the later of its two positions. */
  ghost predicate RepeatsAt(shares: seq<Share>, k: nat)
    requires k < |shares|
  {
    exists i :: 0 <= i < k && KeyOf(shares[i]) == KeyOf(shares[k])
  }

  /** VerifyGroupShares; isPoint says which bytes are a point of the group */
  method VerifyGroupShares(shares: seq<Share>, isPoint: Share -> bool) returns (verdict: Verdict)
    ensures verdict.Accepted? <==> forall k :: 0 <= k < |shares| ==> Unmarshals(shares[k], isPoint) && !RepeatsAt(shares, k)
    ensures !verdict.Accepted? ==>
              && verdict.at < |shares|
              && (forall k :: 0 <= k < verdict.at ==> Unmarshals(shares[k], isPoint) && !RepeatsAt(shares, k))
              && (verdict.Malformed? <==> !Unmarshals(shares[verdict.at], isPoint))
              && (verdict.Repeated? ==> RepeatsAt(shares, verdict.at))
    ensures verdict.Accepted? <==>
              && (forall k :: 0 <= k < |shares| ==> |shares[k]| >= 128 && isPoint(shares[k][..128]))
              && forall i, k :: 0 <= i < k < |shares| ==> shares[i][..128] != shares[k][..128]
  {
    var keyArr: Share := seq(PUBKEY_LEN, _ => 0);
    var kmap: map<Share, bool> := map[];
    var k := 0;
    while k < |shares|
      invariant k <= |shares| && |keyArr| == PUBKEY_LEN
      invariant forall i :: 0 <= i < k ==> Unmarshals(shares[i], isPoint) && !RepeatsAt(shares, i)
      invariant forall i :: 0 <= i < k ==> KeyIn(kmap, shares[i])
      invariant forall key :: key in kmap ==> exists i :: 0 <= i < k && KeyOf(shares[i]) == key
    {
      var sliceK := shares[k];
      if !Unmarshals(sliceK, isPoint) {
        return Malformed(k);
      }
      keyArr := Copy(keyArr, sliceK);
      if keyArr in kmap {
        return Repeated(k);
      }
      assert !RepeatsAt(shares, k) by {
        assert forall i :: 0 <= i < k ==> KeyIn(kmap, shares[i]);
      }
      kmap := kmap[keyArr := true];
      k := k + 1;
    }
    verdict := Accepted;
  }

  predicate KeyIn(kmap: map<Share, bool>, share: Share) {
    KeyOf(share) in kmap
  }

  ghost function Keys(shares: seq<Share>): set<Share> {
    set i | 0 <= i < |shares| :: KeyOf(shares[i])
  }

  /** Shares without a repetition stand for as many signers. */
  lemma {:induction false} DistinctKeys(shares: seq<Share>)
    requires forall k :: 0 <= k < |shares| ==> !RepeatsAt(shares, k)
    ensures |Keys(shares)| == |shares|
  {
    if shares != [] {
      var n := |shares| - 1;
      var before := shares[..n];
      forall k | 0 <= k < n
        ensures !RepeatsAt(before, k)
      {
        assert !RepeatsAt(shares, k);
        assert forall i :: 0 <= i < k ==> before[i] == shares[i];
      }
      DistinctKeys(before);
      assert !RepeatsAt(shares, n);
      assert Keys(shares) == Keys(before) + {KeyOf(shares[n])};
    }
  }

  lemma Overlap<T>(all: set<T>, a: set<T>, b: set<T>)
    requires a <= all && b <= all
    ensures |a * b| >= |a| + |b| - |all|
  {
    assert |a + b| + |a * b| == |a| + |b|;
    assert all == (a + b) + (all - (a + b));
  }

  /**
   Any two groups of more than the threshold among shares that were accepted as distinct have
   more than a third of all signers in common; so they share an honest one if at most a third
   is faulty.
   */
  lemma QuorumsIntersect(shares: seq<Share>, a: set<Share>, b: set<Share>, faulty: set<Share>)
    requires forall k :: 0 <= k < |shares| ==> !RepeatsAt(shares, k)
    requires a <= Keys(shares) && |a| > CalcThreshold(|shares|)
    requires b <= Keys(shares) && |b| > CalcThreshold(|shares|)
    ensures 3 * |a * b| > |shares|
    ensures 3 * |faulty| <= |shares| ==> exists key :: key in a && key in b && key !in faulty
  {
    DistinctKeys(shares);
    Overlap(Keys(shares), a, b);
    assert a * b <= faulty ==> faulty == a * b + (faulty - a * b);
    assert 3 * |faulty| <= |shares| ==> !(a * b <= faulty);
  }

  /** The others can go on without the faulty ones, if these are less than a third. */
  lemma HonestAreEnough(shares: seq<Share>, faulty: set<Share>)
    requires forall k :: 0 <= k < |shares| ==> !RepeatsAt(shares, k)
    requires faulty <= Keys(shares)
    ensures 3 * |faulty| < |shares| ==> |Keys(shares) - faulty| > CalcThreshold(|shares|)
  {
    DistinctKeys(shares);
    assert Keys(shares) == faulty + (Keys(shares) - faulty);
  }
}
