/**
 * A JavaScript object used as a dictionary (`Record<string, V>`): its own
 * properties in insertion order. Assigning to an existing key keeps its
 * position, assigning to a new key appends it, and `delete` removes it
 * while the other keys keep their order. `Object.entries` enumerates
 * the sequence front to back.
 */
module Records {
  import opened Wrappers

  datatype Entry<V> = Entry(key: string, value: V)

  predicate UniqueKeys<V>(r: seq<Entry<V>>) {
    forall i, j :: 0 <= i < j < |r| ==> r[i].key != r[j].key
  }

  type Record<V> = r: seq<Entry<V>> | UniqueKeys(r) witness []

  /** The keys of a record, in enumeration order. */
  function Keys<V>(r: seq<Entry<V>>): (ks: seq<string>)
    ensures |ks| == |r|
    ensures forall i :: 0 <= i < |r| ==> ks[i] == r[i].key
  {
    if |r| == 0 then [] else Keys(r[..|r| - 1]) + [r[|r| - 1].key]
  }

  /** Where key `k` sits in `r`, if it is there. */
  function Position<V>(r: seq<Entry<V>>, k: string): (p: Option<nat>)
    ensures p.Some? ==> p.value < |r| && r[p.value].key == k
    ensures p.None? ==> forall i :: 0 <= i < |r| ==> r[i].key != k
  {
    if |r| == 0 then None
    else if r[0].key == k then Some(0)
    else match Position(r[1..], k)
      case Some(i) => Some(i + 1)
      case None =>
        assert forall i :: 1 <= i < |r| ==> r[i] == r[1..][i - 1];
        None
  }

  /** `obj[k]`, with `None` for `undefined`. */
  function Get<V>(r: Record<V>, k: string): (o: Option<V>)
    ensures o.Some? ==> Entry(k, o.value) in r
    ensures o.None? <==> k !in Keys(r)
  {
    match Position(r, k)
    case Some(i) => Some(r[i].value)
    case None => None
  }

  /** An entry of a record is what `Get` finds under its key. */
  lemma GetEntry<V>(r: Record<V>, i: nat)
    requires i < |r|
    ensures Get(r, r[i].key) == Some(r[i].value)
  {
  }

  /** `obj[k] = v`. */
  function Put<V>(r: Record<V>, k: string, v: V): (r': Record<V>)
    ensures Get(r', k) == Some(v)
    ensures forall k' :: k' != k ==> Get(r', k') == Get(r, k')
    ensures k in Keys(r) ==> Keys(r') == Keys(r)
    ensures k !in Keys(r) ==> Keys(r') == Keys(r) + [k]
  {
    match Position(r, k)
    case Some(i) =>
      var r' := r[i := Entry(k, v)];
      assert Keys(r') == Keys(r);
      r'
    case None =>
      var r' := r + [Entry(k, v)];
      assert Keys(r') == Keys(r) + [k];
      r'
  }

  /** In a record with unique keys, an entry determines what `Get` finds. */
  lemma GetByEntry<V>(r: Record<V>, k: string, v: V)
    requires Entry(k, v) in r
    ensures Get(r, k) == Some(v)
  {
    var j :| 0 <= j < |r| && r[j] == Entry(k, v);
    GetEntry(r, j);
  }

  /** `delete obj[k]`. */
  function Delete<V>(r: Record<V>, k: string): (r': Record<V>)
    ensures Get(r', k) == None
    ensures forall k' :: k' != k ==> Get(r', k') == Get(r, k')
    ensures k !in Keys(r) ==> r' == r
    ensures |r'| <= |r|
  {
    match Position(r, k)
    case Some(i) =>
      var r' := r[..i] + r[i + 1..];
      DeleteAt(r, i);
      r'
    case None => r
  }

  lemma DeleteAt<V>(r: Record<V>, i: nat)
    requires i < |r|
    ensures UniqueKeys(r[..i] + r[i + 1..])
    ensures Get(r[..i] + r[i + 1..], r[i].key) == None
    ensures forall k' :: k' != r[i].key ==> Get(r[..i] + r[i + 1..], k') == Get(r, k')
  {
    var r': Record<V> := r[..i] + r[i + 1..];
    assert forall j :: 0 <= j < |r'| ==> r'[j] == if j < i then r[j] else r[j + 1];
    forall k' | k' != r[i].key
      ensures Get(r', k') == Get(r, k')
    {
      match Get(r, k')
      case Some(v) =>
        var j :| 0 <= j < |r| && r[j] == Entry(k', v);
        assert r[j] in r';
        GetByEntry(r', k', v);
      case None =>
    }
  }
}
