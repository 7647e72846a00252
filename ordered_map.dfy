/** A JavaScript `Map` from strings to strings, as a sequence of entries in insertion
    order. `set` on a present key overwrites the value where it stands, `set` on an absent
    key appends, and `delete` drops the entry, so a later `set` of that key appends it
    again. Iteration (`entries()`) visits the entries front to back. */
module OrderedMaps {
  import opened Wrappers

  type Entry = (string, string)

  /** No key occurs twice: the representation invariant every `Map` keeps. */
  predicate DistinctKeys(m: seq<Entry>)
  {
    forall i, j :: 0 <= i < j < |m| ==> m[i].0 != m[j].0
  }

  function Keys(m: seq<Entry>): set<string>
  {
    set i | 0 <= i < |m| :: m[i].0
  }

  /** Position of the first entry for `k`. */
  function IndexOf(m: seq<Entry>, k: string): (i: nat)
    requires k in Keys(m)
    ensures i < |m| && m[i].0 == k
    ensures forall j :: 0 <= j < i ==> m[j].0 != k
  {
    if m[0].0 == k then 0
    else
      assert k in Keys(m[1..]) by {
        var i :| 0 <= i < |m| && m[i].0 == k;
        assert m[1..][i - 1].0 == k;
      }
      1 + IndexOf(m[1..], k)
  }

  /** `Map.prototype.get`: the value stored under `k`, if any. */
  function Get(m: seq<Entry>, k: string): (r: Option<string>)
    ensures r.Some? <==> k in Keys(m)
    ensures r.Some? ==> (k, r.value) in m
  {
    if k in Keys(m) then Some(m[IndexOf(m, k)].1) else None
  }

  /** `Map.prototype.set`. */
  function Put(m: seq<Entry>, k: string, v: string): seq<Entry>
  {
    if k in Keys(m) then m[IndexOf(m, k) := (k, v)] else m + [(k, v)]
  }

  /** `Map.prototype.delete`. */
  function Remove(m: seq<Entry>, k: string): seq<Entry>
  {
    if k in Keys(m) then m[..IndexOf(m, k)] + m[IndexOf(m, k) + 1..] else m
  }

  /** Without repeated keys, the entry for `k` is wherever `k` occurs. */
  lemma IndexOfUnique(m: seq<Entry>, k: string, i: int)
    requires DistinctKeys(m)
    requires 0 <= i < |m| && m[i].0 == k
    ensures k in Keys(m) && IndexOf(m, k) == i
  {
    assert k in Keys(m);
    var j := IndexOf(m, k);
    assert !(j < i) && !(i < j);
  }

  lemma {:induction false} GetEntry(m: seq<Entry>, i: int)
    requires DistinctKeys(m)
    requires 0 <= i < |m|
    ensures Get(m, m[i].0) == Some(m[i].1)
  {
    IndexOfUnique(m, m[i].0, i);
  }

  /** Without repeated keys, an entry and a successful lookup are the same thing. */
  lemma EntryIffGet(m: seq<Entry>, k: string, v: string)
    requires DistinctKeys(m)
    ensures (k, v) in m <==> Get(m, k) == Some(v)
  {
    if (k, v) in m {
      var i :| 0 <= i < |m| && m[i] == (k, v);
      GetEntry(m, i);
    }
  }

  lemma {:induction false} PutSpec(m: seq<Entry>, k: string, v: string)
    requires DistinctKeys(m)
    ensures DistinctKeys(Put(m, k, v))
    ensures Keys(Put(m, k, v)) == Keys(m) + {k}
    ensures Get(Put(m, k, v), k) == Some(v)
    ensures forall k' :: k' != k ==> Get(Put(m, k, v), k') == Get(m, k')
    ensures forall p :: p in Put(m, k, v) ==> p in m || p == (k, v)
  {
    var r := Put(m, k, v);
    assert Keys(r) == Keys(m) + {k} by {
      if k in Keys(m) {
        forall x | x in Keys(m) ensures x in Keys(r) {
          var i :| 0 <= i < |m| && m[i].0 == x;
          assert r[i].0 == x;
        }
      } else {
        assert r[|m|].0 == k;
        forall x | x in Keys(m) ensures x in Keys(r) {
          var i :| 0 <= i < |m| && m[i].0 == x;
          assert r[i].0 == x;
        }
      }
    }
    assert DistinctKeys(r);
    var n :| 0 <= n < |r| && r[n] == (k, v);
    GetEntry(r, n);
    forall k' | k' != k ensures Get(r, k') == Get(m, k') {
      if k' in Keys(m) {
        var i := IndexOf(m, k');
        assert r[i] == m[i];
        GetEntry(r, i);
        GetEntry(m, i);
      }
    }
  }

  lemma {:induction false} RemoveSpec(m: seq<Entry>, k: string)
    requires DistinctKeys(m)
    ensures DistinctKeys(Remove(m, k))
    ensures Keys(Remove(m, k)) == Keys(m) - {k}
    ensures Get(Remove(m, k), k) == None
    ensures forall k' :: k' != k ==> Get(Remove(m, k), k') == Get(m, k')
    ensures forall p :: p in Remove(m, k) ==> p in m
  {
    var r := Remove(m, k);
    if k in Keys(m) {
      var n := IndexOf(m, k);
      assert forall i :: 0 <= i < |r| ==> r[i] == if i < n then m[i] else m[i + 1];
      forall p | p in r ensures p in m {
        var i :| 0 <= i < |r| && r[i] == p;
        assert r[i] == if i < n then m[i] else m[i + 1];
      }
      assert DistinctKeys(r) by {
        forall i, j | 0 <= i < j < |r| ensures r[i].0 != r[j].0 {
          var i', j' := if i < n then i else i + 1, if j < n then j else j + 1;
          assert r[i] == m[i'] && r[j] == m[j'];
        }
      }
      assert Keys(r) == Keys(m) - {k} by {
        forall x | x in Keys(m) - {k} ensures x in Keys(r) {
          var i :| 0 <= i < |m| && m[i].0 == x;
          IndexOfUnique(m, k, n);
          assert i != n;
          if i < n { assert r[i].0 == x; } else { assert r[i - 1].0 == x; }
        }
        forall x | x in Keys(r) ensures x in Keys(m) - {k} {
          var i :| 0 <= i < |r| && r[i].0 == x;
          if i < n { assert m[i].0 == x; assert x != k; } else { assert m[i + 1].0 == x; }
        }
      }
      forall k' | k' != k ensures Get(r, k') == Get(m, k') {
        if k' in Keys(m) {
          var i := IndexOf(m, k');
          var i' := if i < n then i else i - 1;
          assert r[i'] == m[i];
          GetEntry(r, i');
          GetEntry(m, i);
        }
      }
    }
  }
}
