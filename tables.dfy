/** Python's insertion-ordered `dict` with string keys, as an association
    list: `Lookup` is `d.get(k)`, `Put` is `d[k] = v`, `Update` is
    `d.update(e)`, and `Listing` is `"\n".join(f"{k}:{v}" for k, v in d.items())`. */
module Tables {
  import opened Common
  import opened Strings

  function Keys<V>(t: seq<(string, V)>): (ks: seq<string>)
    ensures |ks| == |t| && forall i :: 0 <= i < |t| ==> ks[i] == t[i].0
  {
    seq(|t|, i requires 0 <= i < |t| => t[i].0)
  }

  /** What makes a list of pairs a dict: no key occurs twice. */
  predicate DistinctKeys<V>(t: seq<(string, V)>)
  {
    forall i, j :: 0 <= i < j < |t| ==> t[i].0 != t[j].0
  }

  function Lookup<V>(t: seq<(string, V)>, k: string): (r: Option<V>)
    ensures r.Some? <==> k in Keys(t)
  {
    if t == [] then None
    else if t[0].0 == k then Some(t[0].1)
    else
      assert Keys(t) == [t[0].0] + Keys(t[1..]);
      Lookup(t[1..], k)
  }

  /** `d[k] = v`: an existing key keeps its place, a new key goes last. */
  function Put<V>(t: seq<(string, V)>, k: string, v: V): (r: seq<(string, V)>)
    ensures |t| <= |r| <= |t| + 1
  {
    if t == [] then [(k, v)]
    else if t[0].0 == k then [(k, v)] + t[1..]
    else [t[0]] + Put(t[1..], k, v)
  }

  lemma {:induction false} PutLookup<V>(t: seq<(string, V)>, k: string, v: V, j: string)
    ensures Lookup(Put(t, k, v), j) == if j == k then Some(v) else Lookup(t, j)
  {
    if t != [] && t[0].0 != k {
      PutLookup(t[1..], k, v, j);
    }
  }

  lemma KeysCons<V>(t: seq<(string, V)>)
    requires t != []
    ensures Keys(t) == [t[0].0] + Keys(t[1..])
  {
  }

  lemma {:induction false} PutKeys<V>(t: seq<(string, V)>, k: string, v: V)
    ensures Keys(Put(t, k, v)) == if k in Keys(t) then Keys(t) else Keys(t) + [k]
  {
    var r := Put(t, k, v);
    if t == [] {
      assert Keys(r) == [k];
    } else {
      KeysCons(t);
      KeysCons(r);
      if t[0].0 == k {
        assert r[1..] == t[1..];
      } else {
        PutKeys(t[1..], k, v);
        assert r[1..] == Put(t[1..], k, v);
        if k in Keys(t[1..]) {
          assert k in Keys(t);
        } else {
          assert k !in Keys(t);
          assert Keys(r) == ([t[0].0] + Keys(t[1..])) + [k];
        }
      }
    }
  }

  lemma {:induction false} PutDistinct<V>(t: seq<(string, V)>, k: string, v: V)
    requires DistinctKeys(t)
    ensures DistinctKeys(Put(t, k, v))
  {
    if t != [] {
      DistinctTail(t);
      if t[0].0 == k {
        assert Put(t, k, v)[1..] == t[1..];
        KeysOfDistinct(t);
      } else {
        PutDistinct(t[1..], k, v);
        PutKeys(t[1..], k, v);
        KeysOfDistinct(t);
        assert Put(t, k, v)[1..] == Put(t[1..], k, v);
      }
      DistinctFromKeys(Put(t, k, v));
    }
  }

  lemma DistinctTail<V>(t: seq<(string, V)>)
    requires t != [] && DistinctKeys(t)
    ensures DistinctKeys(t[1..])
  {
    forall a, b | 0 <= a < b < |t[1..]|
      ensures t[1..][a].0 != t[1..][b].0
    {
      assert t[1..][a] == t[a + 1] && t[1..][b] == t[b + 1];
    }
  }

  lemma KeysOfDistinct<V>(t: seq<(string, V)>)
    requires t != [] && DistinctKeys(t)
    ensures t[0].0 !in Keys(t[1..])
  {
    forall b | 0 <= b < |t[1..]|
      ensures Keys(t[1..])[b] != t[0].0
    {
      assert t[1..][b] == t[b + 1];
    }
  }

  /** Distinct keys, read off the list of keys. */
  lemma DistinctFromKeys<V>(t: seq<(string, V)>)
    requires t != [] && t[0].0 !in Keys(t[1..]) && DistinctKeys(t[1..])
    ensures DistinctKeys(t)
  {
    forall i, j | 0 <= i < j < |t|
      ensures t[i].0 != t[j].0
    {
      if i == 0 {
        assert t[j].0 == Keys(t[1..])[j - 1];
      } else {
        assert t[i] == t[1..][i - 1] && t[j] == t[1..][j - 1];
      }
    }
  }

  /** `d.update(e)`: every pair of `e`, in order, put into `d`. */
  function Update<V>(t: seq<(string, V)>, e: seq<(string, V)>): (r: seq<(string, V)>)
    ensures |t| <= |r|
    decreases |e|
  {
    if e == [] then t else Update(Put(t, e[0].0, e[0].1), e[1..])
  }

  /** After `d.update(e)` a key of `e` holds `e`'s value and any other key
      holds what it held before. */
  lemma {:induction false} UpdateLookup<V>(t: seq<(string, V)>, e: seq<(string, V)>, j: string)
    requires DistinctKeys(e)
    ensures Lookup(Update(t, e), j) == if j in Keys(e) then Lookup(e, j) else Lookup(t, j)
    decreases |e|
  {
    if e != [] {
      DistinctTail(e);
      UpdateLookup(Put(t, e[0].0, e[0].1), e[1..], j);
      PutLookup(t, e[0].0, e[0].1, j);
      assert Keys(e) == [e[0].0] + Keys(e[1..]);
      KeysOfDistinct(e);
    }
  }

  /** `d.update(e)` keeps the dict a dict and its old keys first, in their order. */
  lemma {:induction false} UpdateKeys<V>(t: seq<(string, V)>, e: seq<(string, V)>)
    requires DistinctKeys(t)
    ensures DistinctKeys(Update(t, e))
    ensures |Keys(t)| <= |Keys(Update(t, e))| && Keys(Update(t, e))[..|t|] == Keys(t)
    decreases |e|
  {
    if e != [] {
      var t' := Put(t, e[0].0, e[0].1);
      PutKeys(t, e[0].0, e[0].1);
      PutDistinct(t, e[0].0, e[0].1);
      UpdateKeys(t', e[1..]);
      assert Keys(t')[..|t|] == Keys(t);
      assert Keys(Update(t, e))[..|t|] == Keys(t')[..|t'|][..|t|];
    }
  }

  function Line(k: string, v: string): string
  {
    k + ":" + v
  }

  function Lines(t: seq<(string, string)>): (ls: seq<string>)
    ensures |ls| == |t| && forall i :: 0 <= i < |t| ==> ls[i] == Line(t[i].0, t[i].1)
  {
    seq(|t|, i requires 0 <= i < |t| => Line(t[i].0, t[i].1))
  }

  /** `"\n".join(f"{k}:{v}" for k, v in d.items())` */
  function Listing(t: seq<(string, string)>): string
  {
    Join("\n", Lines(t))
  }

  predicate OneLine(t: seq<(string, string)>)
  {
    forall i :: 0 <= i < |t| ==> '\n' !in t[i].0 && '\n' !in t[i].1
  }

  /** A listing of pairs without newlines has one line per pair, in order. */
  lemma ListingLines(t: seq<(string, string)>)
    ensures t != [] && OneLine(t) ==> SplitOn(Listing(t), '\n') == Lines(t)
  {
    if t != [] && OneLine(t) {
      var ls := Lines(t);
      forall i | 0 <= i < |ls|
        ensures '\n' !in ls[i]
      {
        assert ls[i] == t[i].0 + ":" + t[i].1;
      }
      SplitJoin(ls, '\n');
    }
  }
}
