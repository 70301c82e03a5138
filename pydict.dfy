/** Python dicts as used by the evaluation scripts: insertion-ordered maps
    from string keys to JSON values (`json.dump`/`json.load` keep that order). */
module PyDict {
  import opened Wrappers

  datatype Json =
    | Null
    | Bool(b: bool)
    | Int(i: int)
    | Float(r: real)
    | Str(s: string)
    | List(elems: seq<Json>)
    | Object(fields: seq<(string, Json)>)

  /** A dict: its items in insertion order. */
  type Dict = seq<(string, Json)>

  function Keys(d: Dict): (ks: seq<string>)
    ensures |ks| == |d| && forall i :: 0 <= i < |d| ==> ks[i] == d[i].0
  {
    seq(|d|, i requires 0 <= i < |d| => d[i].0)
  }

  /** Python dict keys are unique. */
  predicate UniqueKeys(d: Dict) {
    forall i, j :: 0 <= i < j < |d| ==> d[i].0 != d[j].0
  }

  /** Position of the first occurrence of `k`, or -1. */
  function IndexOf(ks: seq<string>, k: string): (i: int)
    ensures -1 <= i < |ks|
    ensures i >= 0 <==> k in ks
    ensures i >= 0 ==> ks[i] == k && k !in ks[..i]
  {
    if ks == [] then -1
    else if ks[0] == k then 0
    else
      var j := IndexOf(ks[1..], k);
      assert ks[1..][..(if j < 0 then 0 else j)] == ks[1..(if j < 0 then 1 else j + 1)];
      if j < 0 then -1 else j + 1
  }

  /** `d.get(k)`. */
  function Get(d: Dict, k: string): (r: Option<Json>)
    ensures r.Some? <==> k in Keys(d)
  {
    var i := IndexOf(Keys(d), k);
    if i < 0 then None else Some(d[i].1)
  }

  /** With unique keys, the item at position i is what `d[key]` reads. */
  lemma GetAt(d: Dict, i: nat)
    requires UniqueKeys(d) && i < |d|
    ensures Get(d, d[i].0) == Some(d[i].1)
  {
  }

  /** With unique keys, a key other than the first is looked up in the rest. */
  lemma GetTail(d: Dict, k: string)
    requires UniqueKeys(d) && |d| > 0 && k != d[0].0
    ensures Get(d, k) == Get(d[1..], k)
  {
    var ks := Keys(d);
    assert ks[1..] == Keys(d[1..]);
    var j := IndexOf(ks[1..], k);
    assert IndexOf(ks, k) == (if j < 0 then -1 else j + 1);
  }

  /** `d[k] = v`: an existing key keeps its position, a new key goes last. */
  function Set(d: Dict, k: string, v: Json): (r: Dict)
    requires UniqueKeys(d)
    ensures UniqueKeys(r)
    ensures Get(r, k) == Some(v)
    ensures forall k' :: k' != k ==> Get(r, k') == Get(d, k')
    ensures k in Keys(d) ==> Keys(r) == Keys(d)
    ensures k !in Keys(d) ==> Keys(r) == Keys(d) + [k]
  {
    var i := IndexOf(Keys(d), k);
    var r := if i >= 0 then d[i := (k, v)] else d + [(k, v)];
    assert i >= 0 ==> Keys(r) == Keys(d);
    assert i < 0 ==> Keys(r) == Keys(d) + [k];
    assert UniqueKeys(r) by {
      if i < 0 {
        forall a, b | 0 <= a < b < |r| ensures r[a].0 != r[b].0 {
          if b == |d| {
            assert Keys(d)[a] == r[a].0;
          }
        }
      }
    }
    assert Get(r, k) == Some(v) by {
      GetAt(r, if i >= 0 then i else |d|);
    }
    forall k' | k' != k ensures Get(r, k') == Get(d, k') {
      var j := IndexOf(Keys(d), k');
      if j >= 0 {
        GetAt(r, j);
        GetAt(d, j);
      }
    }
    r
  }

  /** `d.update(other)`: the items of `other` set one after another. */
  function UpdateAll(d: Dict, other: Dict): (r: Dict)
    requires UniqueKeys(d)
    ensures UniqueKeys(r)
    decreases |other|
  {
    if other == [] then d
    else UpdateAll(Set(d, other[0].0, other[0].1), other[1..])
  }

  lemma UniqueTail(d: Dict)
    requires UniqueKeys(d) && |d| > 0
    ensures UniqueKeys(d[1..])
    ensures Keys(d) == [d[0].0] + Keys(d[1..])
    ensures d[0].0 !in Keys(d[1..])
  {
    assert Keys(d) == [d[0].0] + Keys(d[1..]);
    forall j | 0 <= j < |d| - 1 ensures Keys(d[1..])[j] != d[0].0 {
      assert d[1..][j] == d[j + 1];
    }
  }

  /** One item of `update`: from what the rest of the update yields on the
      dict after setting the first item, to what the whole update yields. */
  lemma UpdateStep(d: Dict, d': Dict, other: Dict, k: string, got: Option<Json>)
    requires UniqueKeys(other) && |other| > 0
    requires Get(d', other[0].0) == Some(other[0].1)
    requires k != other[0].0 ==> Get(d', k) == Get(d, k)
    requires got == if k in Keys(other[1..]) then Get(other[1..], k) else Get(d', k)
    ensures got == if k in Keys(other) then Get(other, k) else Get(d, k)
  {
    UniqueTail(other);
    if k == other[0].0 {
      GetAt(other, 0);
    } else {
      GetTail(other, k);
    }
  }

  /** After `d.update(other)`, a key of `other` holds `other`'s value and
      every other key keeps the value it had in `d`. */
  lemma {:induction false} UpdateAllGet(d: Dict, other: Dict, k: string)
    requires UniqueKeys(d) && UniqueKeys(other)
    ensures Get(UpdateAll(d, other), k) == if k in Keys(other) then Get(other, k) else Get(d, k)
    decreases |other|
  {
    if other != [] {
      var d' := Set(d, other[0].0, other[0].1);
      UniqueTail(other);
      UpdateAllGet(d', other[1..], k);
      assert UpdateAll(d, other) == UpdateAll(d', other[1..]);
      UpdateStep(d, d', other, k, Get(UpdateAll(d, other), k));
    }
  }

  /** `update` never loses a key: the keys of `d` stay first, in order. */
  lemma {:induction false} UpdateAllKeepsKeys(d: Dict, other: Dict)
    requires UniqueKeys(d)
    ensures |UpdateAll(d, other)| >= |d|
    ensures Keys(UpdateAll(d, other))[..|d|] == Keys(d)
    decreases |other|
  {
    if other != [] {
      var d' := Set(d, other[0].0, other[0].1);
      UpdateAllKeepsKeys(d', other[1..]);
      assert |d'| >= |d| && Keys(d')[..|d|] == Keys(d);
      assert Keys(UpdateAll(d, other))[..|d'|] == Keys(d');
    }
  }

  /** A dict object that is updated in place, such as `result_dict`. */
  class ResultDict {
    var items: Dict

    ghost predicate Valid()
      reads this
    {
      UniqueKeys(items)
    }

    constructor (initial: Dict)
      requires UniqueKeys(initial)
      ensures Valid() && items == initial
    {
      items := initial;
    }

    /** `self.update(other)`, one item at a time. */
    method Update(other: Dict)
      requires Valid()
      modifies this
      ensures Valid()
      ensures items == UpdateAll(old(items), other)
    {
      var i := 0;
      while i < |other|
        invariant 0 <= i <= |other| && Valid()
        invariant UpdateAll(items, other[i..]) == UpdateAll(old(items), other)
      {
        assert other[i..][1..] == other[i + 1..];
        items := Set(items, other[i].0, other[i].1);
        i := i + 1;
      }
    }
  }
}
