/**
 * `IDictionary<V>`, a JavaScript object used as a dictionary: string keys in the order
 * they were first inserted, each with one value. Assigning to a present key keeps its
 * place; assigning to an absent one appends it; `delete` removes it.
 */
module Dicts {
  import opened Wrappers

  type Dict<V> = seq<(string, V)>

  /** `Object.keys`. */
  function Keys<V>(d: Dict<V>): (ks: seq<string>)
    ensures |ks| == |d| && forall i :: 0 <= i < |d| ==> ks[i] == d[i].0
  {
    seq(|d|, i requires 0 <= i < |d| => d[i].0)
  }

  /** No key occurs twice. */
  predicate Valid<V>(d: Dict<V>) {
    forall i, j :: 0 <= i < j < |d| ==> d[i].0 != d[j].0
  }

  predicate HasKey<V>(d: Dict<V>, k: string) {
    exists i :: 0 <= i < |d| && d[i].0 == k
  }

  /** The position of `k`, if present. */
  function Find<V>(d: Dict<V>, k: string): (r: Option<nat>)
    ensures r.Some? ==> r.value < |d| && d[r.value].0 == k
    ensures r.Some? ==> forall i :: 0 <= i < r.value ==> d[i].0 != k
    ensures r.None? ==> forall i :: 0 <= i < |d| ==> d[i].0 != k
  {
    if d == [] then None
    else if d[0].0 == k then Some(0)
    else match Find(d[1..], k)
      case Some(i) => Some(i + 1)
      case None => None
  }

  /** `d[k]`: `undefined` is `None`. */
  function Get<V>(d: Dict<V>, k: string): (r: Option<V>)
    ensures r.Some? <==> HasKey(d, k)
    ensures r.Some? ==> exists i :: 0 <= i < |d| && d[i] == (k, r.value)
  {
    match Find(d, k)
    case Some(i) => Some(d[i].1)
    case None => None
  }

  /** `d[k] = v`. */
  function Set<V>(d: Dict<V>, k: string, v: V): Dict<V> {
    match Find(d, k)
    case Some(i) => d[i := (k, v)]
    case None => d + [(k, v)]
  }

  /** `delete d[k]`. */
  function Remove<V>(d: Dict<V>, k: string): Dict<V> {
    match Find(d, k)
    case Some(i) => d[..i] + d[i + 1..]
    case None => d
  }

  /** In a valid dictionary a key is found at the one position that holds it. */
  lemma FindAt<V>(d: Dict<V>, k: string, i: nat)
    requires Valid(d) && i < |d| && d[i].0 == k
    ensures Find(d, k) == Some(i) && Get(d, k) == Some(d[i].1)
  {
  }

  /** A key at no position is absent. */
  lemma FindNone<V>(d: Dict<V>, k: string)
    requires forall i :: 0 <= i < |d| ==> d[i].0 != k
    ensures Get(d, k).None?
  {
  }

  /** The keys of `d[k] = v` are those of `d`, in the same places, and `k` at the end
      when it was absent. */
  lemma SetShape<V>(d: Dict<V>, k: string, v: V)
    ensures var r := Set(d, k, v);
      && (HasKey(d, k) ==> |r| == |d| && forall j :: 0 <= j < |d| ==> r[j].0 == d[j].0)
      && (!HasKey(d, k) ==> r == d + [(k, v)])
      && (forall j :: 0 <= j < |r| && r[j].0 != k ==> j < |d| && r[j] == d[j])
  {
  }

  lemma SetGet<V>(d: Dict<V>, k: string, v: V, k': string)
    requires Valid(d)
    ensures Valid(Set(d, k, v))
    ensures Get(Set(d, k, v), k') == if k' == k then Some(v) else Get(d, k')
  {
    var r := Set(d, k, v);
    SetShape(d, k, v);
    var i := if HasKey(d, k) then Find(d, k).value else |d|;
    assert r[i] == (k, v);
    if k' == k {
      FindAt(r, k, i);
    } else if j :| 0 <= j < |d| && d[j].0 == k' {
      FindAt(d, k', j);
      FindAt(r, k', j);
    } else {
      FindNone(d, k');
      FindNone(r, k');
    }
  }

  /** After `d[k] = v`, `k` reads `v` and every other key reads what it read before; a
      present key keeps its place and an absent one comes last. */
  lemma SetSpec<V>(d: Dict<V>, k: string, v: V)
    requires Valid(d)
    ensures Valid(Set(d, k, v))
    ensures Get(Set(d, k, v), k) == Some(v)
    ensures forall k' :: k' != k ==> Get(Set(d, k, v), k') == Get(d, k')
    ensures HasKey(d, k) ==> Keys(Set(d, k, v)) == Keys(d)
    ensures !HasKey(d, k) ==> Keys(Set(d, k, v)) == Keys(d) + [k]
  {
    SetGet(d, k, v, k);
    SetGetOthers(d, k, v);
    SetKeys(d, k, v);
  }

  lemma SetGetOthers<V>(d: Dict<V>, k: string, v: V)
    requires Valid(d)
    ensures forall k' :: k' != k ==> Get(Set(d, k, v), k') == Get(d, k')
  {
    forall k' | k' != k
      ensures Get(Set(d, k, v), k') == Get(d, k')
    {
      SetGet(d, k, v, k');
    }
  }

  lemma SetKeys<V>(d: Dict<V>, k: string, v: V)
    ensures HasKey(d, k) ==> Keys(Set(d, k, v)) == Keys(d)
    ensures !HasKey(d, k) ==> Keys(Set(d, k, v)) == Keys(d) + [k]
  {
    SetShape(d, k, v);
  }

  lemma RemoveShape<V>(d: Dict<V>, k: string)
    ensures var r := Remove(d, k);
      && (HasKey(d, k) ==> var i := Find(d, k).value; r == d[..i] + d[i + 1..])
      && (!HasKey(d, k) ==> r == d)
  {
  }

  lemma RemoveGet<V>(d: Dict<V>, k: string, k': string)
    requires Valid(d)
    ensures Valid(Remove(d, k))
    ensures Get(Remove(d, k), k') == if k' == k then None else Get(d, k')
  {
    RemoveShape(d, k);
    if HasKey(d, k) {
      DropGet(d, Find(d, k).value, Remove(d, k), k, k');
    }
  }

  lemma DropValid<V>(d: Dict<V>, i: nat, r: Dict<V>)
    requires Valid(d) && i < |d| && r == d[..i] + d[i + 1..]
    ensures Valid(r) && |r| == |d| - 1
    ensures forall j :: 0 <= j < i ==> r[j] == d[j]
    ensures forall j :: i <= j < |r| ==> r[j] == d[j + 1]
  {
    DropAt(d, i);
    forall p, q | 0 <= p < q < |r|
      ensures r[p].0 != r[q].0
    {
      var p', q' := if p < i then p else p + 1, if q < i then q else q + 1;
      assert r[p] == d[p'] && r[q] == d[q'];
    }
  }

  /** Dropping the entry at `i`, whose key is `k`. */
  lemma DropGet<V>(d: Dict<V>, i: nat, r: Dict<V>, k: string, k': string)
    requires Valid(d) && i < |d| && d[i].0 == k && r == d[..i] + d[i + 1..]
    ensures Valid(r)
    ensures Get(r, k') == if k' == k then None else Get(d, k')
  {
    DropValid(d, i, r);
    if k' == k {
      forall j | 0 <= j < |r|
        ensures r[j].0 != k
      {
        if j < i {
          assert r[j] == d[j];
        } else {
          assert r[j] == d[j + 1];
        }
      }
      FindNone(r, k);
    } else if j :| 0 <= j < |d| && d[j].0 == k' {
      DropFound(d, i, r, k, k', j);
    } else {
      FindNone(d, k');
      FindNone(r, k');
    }
  }

  /** A key other than the dropped one keeps its value, one place earlier when it came
      after it. */
  lemma DropFound<V>(d: Dict<V>, i: nat, r: Dict<V>, k: string, k': string, j: nat)
    requires Valid(d) && i < |d| && d[i].0 == k
    requires Valid(r) && |r| == |d| - 1
    requires forall j :: 0 <= j < i ==> r[j] == d[j]
    requires forall j :: i <= j < |r| ==> r[j] == d[j + 1]
    requires k' != k && j < |d| && d[j].0 == k'
    ensures Get(r, k') == Get(d, k')
  {
    FindAt(d, k', j);
    if j < i {
      FindAt(r, k', j);
    } else {
      FindAt(r, k', j - 1);
    }
  }

  /** After `delete d[k]`, `k` is absent, every other key reads what it read before, and
      the other keys keep their order. */
  lemma RemoveSpec<V>(d: Dict<V>, k: string)
    requires Valid(d)
    ensures Valid(Remove(d, k))
    ensures Get(Remove(d, k), k).None?
    ensures forall k' :: k' != k ==> Get(Remove(d, k), k') == Get(d, k')
    ensures Keys(Remove(d, k)) == Without(Keys(d), k)
    ensures !HasKey(d, k) ==> Remove(d, k) == d
  {
    RemoveGet(d, k, k);
    forall k' | k' != k
      ensures Get(Remove(d, k), k') == Get(d, k')
    {
      RemoveGet(d, k, k');
    }
    RemoveShape(d, k);
    if HasKey(d, k) {
      RemoveKeys(d, k, Find(d, k).value);
    } else {
      WithoutAbsent(Keys(d), k);
    }
  }

  lemma DropAt<V>(d: Dict<V>, i: nat)
    requires i < |d|
    ensures var r := d[..i] + d[i + 1..];
      && |r| == |d| - 1
      && (forall j :: 0 <= j < i ==> r[j] == d[j])
      && (forall j :: i <= j < |r| ==> r[j] == d[j + 1])
  {
  }

  lemma RemoveKeys<V>(d: Dict<V>, k: string, i: nat)
    requires Valid(d) && i < |d| && d[i].0 == k
    ensures Keys(d[..i] + d[i + 1..]) == Without(Keys(d), k)
  {
    var ks := Keys(d);
    forall j | 0 <= j < |ks| && j != i
      ensures ks[j] != k
    {
      if j < i {
        assert d[j].0 != d[i].0;
      } else {
        assert d[i].0 != d[j].0;
      }
    }
    WithoutAt(ks, i, k);
    KeysDrop(d, i);
  }

  /** Taking out a key that occurs once, at `i`, removes position `i`. */
  lemma WithoutAt(ks: seq<string>, i: nat, k: string)
    requires i < |ks| && ks[i] == k
    requires forall j :: 0 <= j < |ks| && j != i ==> ks[j] != k
    ensures Without(ks, k) == ks[..i] + ks[i + 1..]
  {
    var a, b := ks[..i], ks[i + 1..];
    forall j | 0 <= j < |a|
      ensures a[j] != k
    {
      assert a[j] == ks[j];
    }
    forall j | 0 <= j < |b|
      ensures b[j] != k
    {
      assert b[j] == ks[i + 1 + j];
    }
    assert ks == a + [k] + b;
    WithoutMiddle(a, b, k);
  }

  lemma WithoutMiddle(a: seq<string>, b: seq<string>, k: string)
    requires forall j :: 0 <= j < |a| ==> a[j] != k
    requires forall j :: 0 <= j < |b| ==> b[j] != k
    ensures Without(a + [k] + b, k) == a + b
  {
    WithoutAbsent(a, k);
    WithoutAbsent(b, k);
    WithoutConcat(a, [k], k);
    assert Without([k], k) == [];
    assert a + [] == a;
    assert Without(a + [k], k) == a;
    WithoutConcat(a + [k], b, k);
  }

  lemma KeysDrop<V>(d: Dict<V>, i: nat)
    requires i < |d|
    ensures Keys(d[..i] + d[i + 1..]) == Keys(d)[..i] + Keys(d)[i + 1..]
  {
    var r := d[..i] + d[i + 1..];
    var ks := Keys(d);
    var a := Keys(r);
    var b := ks[..i] + ks[i + 1..];
    DropAt(d, i);
    assert |a| == |b|;
    forall j | 0 <= j < |a|
      ensures a[j] == b[j]
    {
      if j < i {
        assert b[j] == ks[j];
      } else {
        assert b[j] == ks[j + 1];
      }
    }
  }

  /** The sequence with every occurrence of `k` taken out. */
  function Without(ks: seq<string>, k: string): (r: seq<string>)
    ensures |r| <= |ks|
  {
    if ks == [] then [] else (if ks[0] == k then [] else [ks[0]]) + Without(ks[1..], k)
  }

  lemma {:induction false} WithoutAbsent(ks: seq<string>, k: string)
    requires forall i :: 0 <= i < |ks| ==> ks[i] != k
    ensures Without(ks, k) == ks
  {
    if ks != [] {
      WithoutAbsent(ks[1..], k);
    }
  }

  lemma {:induction false} WithoutConcat(a: seq<string>, b: seq<string>, k: string)
    ensures Without(a + b, k) == Without(a, k) + Without(b, k)
  {
    if a != [] {
      assert (a + b)[1..] == a[1..] + b;
      WithoutConcat(a[1..], b, k);
    } else {
      assert a + b == b;
    }
  }
}
