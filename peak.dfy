/** The running maximum of the system entropy kept by the entropy probe: the
    largest total seen so far and the cycle in which it was first reached. */
module Peaks {

  datatype Peak = Peak(entropy: real, cycle: int)

  /** The maximum before any cycle was observed. */
  const Initial: Peak := Peak(0.0, 0)

  /** The total entropy observed in one cycle. */
  datatype Reading = Reading(total: real, cycle: int)

  /** Take one cycle's total into account: a total strictly above the stored
      maximum replaces it, together with its cycle; any other total changes nothing. */
  function Record(p: Peak, total: real, cycle: int): (q: Peak)
    ensures q.entropy >= p.entropy && q.entropy >= total
    ensures q.entropy == p.entropy || q.entropy == total
    ensures q == p <==> total <= p.entropy
    ensures total > p.entropy ==> q.cycle == cycle
  {
    if total > p.entropy then Peak(total, cycle) else p
  }

  /** The maximum after observing the readings in order. */
  function RecordAll(p: Peak, rs: seq<Reading>): Peak {
    if rs == [] then p
    else
      var last := rs[|rs| - 1];
      Record(RecordAll(p, rs[..|rs| - 1]), last.total, last.cycle)
  }

  /** One more reading is one more Record step. */
  lemma RecordAllStep(p: Peak, rs: seq<Reading>, r: Reading)
    ensures RecordAll(p, rs + [r]) == Record(RecordAll(p, rs), r.total, r.cycle)
  {
    assert (rs + [r])[..|rs|] == rs;
  }

  /** The stored maximum never decreases: after more readings it is at least what
      it was after fewer. */
  lemma {:induction false} RecordAllMonotone(p: Peak, rs: seq<Reading>, k: nat)
    requires k <= |rs|
    ensures RecordAll(p, rs[..k]).entropy <= RecordAll(p, rs).entropy
  {
    if k < |rs| {
      var n := |rs| - 1;
      assert rs[..n][..k] == rs[..k];
      RecordAllMonotone(p, rs[..n], k);
    } else {
      assert rs[..k] == rs;
    }
  }

  /** The stored maximum is the largest of the starting value and the totals read. */
  lemma {:induction false} RecordAllIsMaximum(p: Peak, rs: seq<Reading>)
    ensures RecordAll(p, rs).entropy >= p.entropy
    ensures forall i :: 0 <= i < |rs| ==> RecordAll(p, rs).entropy >= rs[i].total
    ensures RecordAll(p, rs).entropy == p.entropy ||
            exists i :: 0 <= i < |rs| && RecordAll(p, rs).entropy == rs[i].total
  {
    if rs != [] {
      var n := |rs| - 1;
      RecordAllIsMaximum(p, rs[..n]);
      var q := RecordAll(p, rs[..n]);
      forall i | 0 <= i < n
        ensures q.entropy >= rs[i].total
      {
        assert rs[..n][i] == rs[i];
      }
      if q.entropy != p.entropy {
        var i :| 0 <= i < n && q.entropy == rs[..n][i].total;
      }
    }
  }

  /** The stored cycle changes only when a reading strictly exceeds the starting
      maximum, and is then the cycle of the first reading that attains the maximum. */
  lemma {:induction false} RecordAllCycle(p: Peak, rs: seq<Reading>)
    ensures var q := RecordAll(p, rs);
      q == p ||
      exists i :: 0 <= i < |rs| && q == Peak(rs[i].total, rs[i].cycle) && rs[i].total > p.entropy &&
        forall k :: 0 <= k < i ==> rs[k].total < rs[i].total
  {
    if rs != [] {
      var n := |rs| - 1;
      var q' := RecordAll(p, rs[..n]);
      RecordAllCycle(p, rs[..n]);
      RecordAllIsMaximum(p, rs[..n]);
      if rs[n].total > q'.entropy {
        forall k | 0 <= k < n
          ensures rs[k].total < rs[n].total
        {
          assert rs[..n][k] == rs[k];
        }
      } else if q' != p {
        var i :| 0 <= i < n && q' == Peak(rs[..n][i].total, rs[..n][i].cycle) && rs[..n][i].total > p.entropy &&
          forall k :: 0 <= k < i ==> rs[..n][k].total < rs[..n][i].total;
        assert rs[..n][i] == rs[i];
        forall k | 0 <= k < i
          ensures rs[k].total < rs[i].total
        {
          assert rs[..n][k] == rs[k];
        }
      }
    }
  }
}
