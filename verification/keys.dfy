/** Keys of an id-keyed table in the order a scan returns them. */
module Keys {

  /** The keys of `m` between 1 and `hi`, smallest first: a scan of a table by rowid. */
  function KeysUp<V>(m: map<int, V>, hi: int): (ks: seq<int>)
    decreases hi
    ensures forall i :: 0 <= i < |ks| ==> ks[i] in m && 1 <= ks[i] <= hi
    ensures forall i, j :: 0 <= i < j < |ks| ==> ks[i] < ks[j]
    ensures forall k :: k in m && 1 <= k <= hi ==> k in ks
  {
    if hi < 1 then []
    else if hi in m then KeysUp(m, hi - 1) + [hi]
    else KeysUp(m, hi - 1)
  }

  /** The ascending scan depends only on which ids up to `hi` are keys. */
  lemma {:induction false} KeysUpFrame<V>(m1: map<int, V>, m2: map<int, V>, hi: int)
    requires forall k :: 1 <= k <= hi ==> (k in m1 <==> k in m2)
    ensures KeysUp(m1, hi) == KeysUp(m2, hi)
    decreases hi
  {
    if hi >= 1 {
      KeysUpFrame(m1, m2, hi - 1);
    }
  }

  /** The keys of `m` between 1 and `hi`, largest first: `ORDER BY id DESC`. */
  function KeysDown<V>(m: map<int, V>, hi: int): (ks: seq<int>)
    decreases hi
    ensures forall i :: 0 <= i < |ks| ==> ks[i] in m && 1 <= ks[i] <= hi
    ensures forall i, j :: 0 <= i < j < |ks| ==> ks[i] > ks[j]
    ensures forall k :: k in m && 1 <= k <= hi ==> k in ks
  {
    if hi < 1 then []
    else if hi in m then [hi] + KeysDown(m, hi - 1)
    else KeysDown(m, hi - 1)
  }
}
