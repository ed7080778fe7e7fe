/**
 * Python dictionaries with string keys, as the ordered sequence of their entries.
 * Python keeps insertion order: assigning to a present key keeps its position, a new
 * key goes to the end. `Set`, `SetDefault` and `Update` are `d[k] = v`,
 * `d.setdefault(k, v)` and `d.update(other)`.
 */
module Dicts {
  import opened Wrappers

  type Dict<V> = seq<(string, V)>

  predicate HasKey<V>(m: Dict<V>, k: string)
  {
    exists i | 0 <= i < |m| :: m[i].0 == k
  }

  predicate DistinctKeys<V>(m: Dict<V>)
  {
    forall i, j | 0 <= i < j < |m| :: m[i].0 != m[j].0
  }

  /** `d.get(k)`: the value of the first entry with key `k`. */
  function Get<V>(m: Dict<V>, k: string): (r: Option<V>)
    ensures r.Some? <==> HasKey(m, k)
  {
    if m == [] then None
    else if m[0].0 == k then Some(m[0].1)
    else
      var r := Get(m[1..], k);
      assert HasKey(m, k) ==> m[0].0 == k || HasKey(m[1..], k) by {
        if HasKey(m, k) {
          var i :| 0 <= i < |m| && m[i].0 == k;
          if i > 0 { assert m[1..][i - 1].0 == k; }
        }
      }
      assert HasKey(m[1..], k) ==> HasKey(m, k) by {
        if HasKey(m[1..], k) {
          var i :| 0 <= i < |m[1..]| && m[1..][i].0 == k;
          assert m[i + 1].0 == k;
        }
      }
      r
  }

  /** `d[k] = v`. */
  function Set<V>(m: Dict<V>, k: string, v: V): (r: Dict<V>)
  {
    if m == [] then [(k, v)]
    else if m[0].0 == k then [(k, v)] + m[1..]
    else [m[0]] + Set(m[1..], k, v)
  }

  /** `d.setdefault(k, v)`: only a missing key is added. */
  function SetDefault<V>(m: Dict<V>, k: string, v: V): (r: Dict<V>)
  {
    if HasKey(m, k) then m else m + [(k, v)]
  }

  /** `d.update(n)`: assign the entries of `n` in order. */
  function Update<V>(m: Dict<V>, n: seq<(string, V)>): (r: Dict<V>)
  {
    if n == [] then m else Set(Update(m, n[..|n| - 1]), n[|n| - 1].0, n[|n| - 1].1)
  }

  /** `for k, v in n: d.setdefault(k, v)`. */
  function SetDefaultAll<V>(m: Dict<V>, n: seq<(string, V)>): (r: Dict<V>)
  {
    if n == [] then m else SetDefault(SetDefaultAll(m, n[..|n| - 1]), n[|n| - 1].0, n[|n| - 1].1)
  }

  function Values<V>(m: Dict<V>): (r: seq<V>)
    ensures |r| == |m| && forall i :: 0 <= i < |m| ==> r[i] == m[i].1
  {
    if m == [] then [] else [m[0].1] + Values(m[1..])
  }

  lemma HasKeyAppend<V>(a: Dict<V>, b: Dict<V>, k: string)
    ensures HasKey(a + b, k) <==> HasKey(a, k) || HasKey(b, k)
  {
    if HasKey(a + b, k) {
      var i :| 0 <= i < |a + b| && (a + b)[i].0 == k;
      if i >= |a| { assert b[i - |a|].0 == k; }
    }
    if HasKey(b, k) {
      var i :| 0 <= i < |b| && b[i].0 == k;
      assert (a + b)[|a| + i].0 == k;
    }
    if HasKey(a, k) {
      var i :| 0 <= i < |a| && a[i].0 == k;
      assert (a + b)[i].0 == k;
    }
  }

  lemma {:induction false} GetAppend<V>(a: Dict<V>, b: Dict<V>, k: string)
    ensures Get(a + b, k) == if HasKey(a, k) then Get(a, k) else Get(b, k)
  {
    if a == [] {
      assert a + b == b;
    } else {
      assert (a + b)[1..] == a[1..] + b;
      GetAppend(a[1..], b, k);
    }
  }

  /** In a dictionary without repeated keys, `Get` finds every entry. */
  lemma {:induction false} GetAt<V>(m: Dict<V>, i: nat)
    requires DistinctKeys(m) && i < |m|
    ensures Get(m, m[i].0) == Some(m[i].1)
  {
    if i > 0 {
      assert m[1..][i - 1] == m[i];
      GetAt(m[1..], i - 1);
    }
  }

  /** Assignment changes exactly the value of the key assigned. */
  lemma {:induction false} SetGet<V>(m: Dict<V>, k: string, v: V, x: string)
    ensures Get(Set(m, k, v), x) == if x == k then Some(v) else Get(m, x)
  {
    if m != [] && m[0].0 != k {
      SetGet(m[1..], k, v, x);
    }
  }

  lemma SetHasKey<V>(m: Dict<V>, k: string, v: V, x: string)
    ensures HasKey(Set(m, k, v), x) <==> x == k || HasKey(m, x)
  {
    SetGet(m, k, v, x);
  }

  /** Assigning a missing key appends it. */
  lemma {:induction false} SetAbsent<V>(m: Dict<V>, k: string, v: V)
    requires !HasKey(m, k)
    ensures Set(m, k, v) == m + [(k, v)]
  {
    if m != [] {
      SetAbsent(m[1..], k, v);
    }
  }

  /** Assigning a present key replaces its entry in place. */
  lemma {:induction false} SetPresent<V>(m: Dict<V>, i: nat, v: V)
    requires DistinctKeys(m) && i < |m|
    ensures Set(m, m[i].0, v) == m[i := (m[i].0, v)]
  {
    if i > 0 {
      assert m[1..][i - 1] == m[i];
      SetPresent(m[1..], i - 1, v);
    }
  }

  lemma {:induction false} SetLength<V>(m: Dict<V>, k: string, v: V)
    ensures |Set(m, k, v)| == if HasKey(m, k) then |m| else |m| + 1
  {
    if m != [] && m[0].0 != k {
      SetLength(m[1..], k, v);
      HasKeyAppend([m[0]], m[1..], k);
      assert [m[0]] + m[1..] == m;
      assert !HasKey([m[0]], k);
    }
  }

  lemma {:induction false} SetDistinct<V>(m: Dict<V>, k: string, v: V)
    requires DistinctKeys(m)
    ensures DistinctKeys(Set(m, k, v))
  {
    if m != [] && m[0].0 != k {
      SetDistinct(m[1..], k, v);
      var r := Set(m, k, v);
      forall j | 0 < j < |r| ensures r[0].0 != r[j].0 {
        assert r[j] == Set(m[1..], k, v)[j - 1];
        assert HasKey(Set(m[1..], k, v), r[j].0);
        SetHasKey(m[1..], k, v, r[j].0);
        if HasKey(m[1..], r[j].0) {
          var i :| 0 <= i < |m[1..]| && m[1..][i].0 == r[j].0;
          assert m[i + 1].0 == r[j].0;
        }
      }
    } else if m != [] {
      var r := Set(m, k, v);
      assert forall j | 0 <= j < |r| :: r[j].0 == m[j].0;
    }
  }

  /** A second assignment to the same key overrides the first. */
  lemma {:induction false} SetSet<V>(m: Dict<V>, k: string, v: V, w: V)
    ensures Set(Set(m, k, v), k, w) == Set(m, k, w)
  {
    if m != [] && m[0].0 != k {
      SetSet(m[1..], k, v, w);
    }
  }

  /** Assignments to two keys commute when one of them is already present. */
  lemma {:induction false} SetCommute<V>(m: Dict<V>, k: string, v: V, x: string, w: V)
    requires k != x && HasKey(m, k)
    ensures Set(Set(m, k, v), x, w) == Set(Set(m, x, w), k, v)
  {
    assert m != [];
    if m[0].0 == k {
    } else if m[0].0 == x {
      assert Set(m, x, w)[1..] == m[1..];
      assert HasKey(m[1..], k) by {
        var i :| 0 <= i < |m| && m[i].0 == k;
        assert m[1..][i - 1].0 == k;
      }
      assert Set(Set(m, x, w), k, v) == [(x, w)] + Set(m[1..], k, v);
    } else {
      assert HasKey(m[1..], k) by {
        var i :| 0 <= i < |m| && m[i].0 == k;
        assert m[1..][i - 1].0 == k;
      }
      SetCommute(m[1..], k, v, x, w);
    }
  }

  lemma {:induction false} UpdateAppend<V>(m: Dict<V>, a: seq<(string, V)>, b: seq<(string, V)>)
    ensures Update(m, a + b) == Update(Update(m, a), b)
  {
    if b == [] {
      assert a + b == a;
    } else {
      assert (a + b)[..|a + b| - 1] == a + b[..|b| - 1];
      UpdateAppend(m, a, b[..|b| - 1]);
    }
  }

  lemma {:induction false} UpdateHasKey<V>(m: Dict<V>, n: seq<(string, V)>, x: string)
    ensures HasKey(Update(m, n), x) <==> HasKey(m, x) || HasKey(n, x)
  {
    if n != [] {
      var n' := n[..|n| - 1];
      UpdateHasKey(m, n', x);
      SetHasKey(Update(m, n'), n[|n| - 1].0, n[|n| - 1].1, x);
      assert n == n' + [n[|n| - 1]];
      HasKeyAppend(n', [n[|n| - 1]], x);
    }
  }

  lemma {:induction false} UpdateDistinct<V>(m: Dict<V>, n: seq<(string, V)>)
    requires DistinctKeys(m)
    ensures DistinctKeys(Update(m, n))
  {
    if n != [] {
      UpdateDistinct(m, n[..|n| - 1]);
      SetDistinct(Update(m, n[..|n| - 1]), n[|n| - 1].0, n[|n| - 1].1);
    }
  }

  /** Updating with a list whose one entry was re-assigned equals updating, then assigning. */
  lemma {:induction false} UpdateReplace<V>(m: Dict<V>, n: Dict<V>, i: nat, v: V)
    requires DistinctKeys(n) && i < |n|
    ensures Update(m, n[i := (n[i].0, v)]) == Set(Update(m, n), n[i].0, v)
  {
    var k := n[i].0;
    var last := |n| - 1;
    var n' := n[..last];
    if i == last {
      assert n[i := (k, v)][..last] == n';
      SetSet(Update(m, n'), k, n[i].1, v);
    } else {
      assert n[i := (k, v)][..last] == n'[i := (k, v)];
      assert n'[i] == n[i];
      UpdateReplace(m, n', i, v);
      assert n[last].0 != k;
      assert HasKey(n', k);
      UpdateHasKey(m, n', k);
      SetCommute(Update(m, n'), k, v, n[last].0, n[last].1);
    }
  }

  lemma UpdateSet<V>(m: Dict<V>, n: Dict<V>, k: string, v: V)
    requires DistinctKeys(n)
    ensures Update(m, Set(n, k, v)) == Set(Update(m, n), k, v)
  {
    if HasKey(n, k) {
      var i :| 0 <= i < |n| && n[i].0 == k;
      SetPresent(n, i, v);
      UpdateReplace(m, n, i, v);
    } else {
      SetAbsent(n, k, v);
      assert (n + [(k, v)])[..|n|] == n;
    }
  }

  /** `d.update(dict(ps))` is `d.update(ps)`: collapsing repeated keys first changes nothing. */
  lemma {:induction false} UpdateCollapse<V>(m: Dict<V>, ps: seq<(string, V)>)
    ensures Update(m, Update([], ps)) == Update(m, ps)
  {
    if ps != [] {
      var ps' := ps[..|ps| - 1];
      UpdateCollapse(m, ps');
      UpdateDistinct([], ps');
      UpdateSet(m, Update([], ps'), ps[|ps| - 1].0, ps[|ps| - 1].1);
    }
  }

  /** Copying a dictionary without repeated keys entry by entry rebuilds it. */
  lemma {:induction false} UpdateIdentity<V>(m: Dict<V>)
    requires DistinctKeys(m)
    ensures Update([], m) == m
  {
    if m != [] {
      var m' := m[..|m| - 1];
      UpdateIdentity(m');
      assert !HasKey(m', m[|m| - 1].0);
      SetAbsent(m', m[|m| - 1].0, m[|m| - 1].1);
    }
  }

  /** After the `setdefault` loop, the entries already present keep their values, the others come from `n`. */
  lemma {:induction false} SetDefaultAllGet<V>(m: Dict<V>, n: seq<(string, V)>, x: string)
    ensures Get(SetDefaultAll(m, n), x) == if HasKey(m, x) then Get(m, x) else Get(n, x)
  {
    if n != [] {
      var n' := n[..|n| - 1];
      var (k, v) := n[|n| - 1];
      var d := SetDefaultAll(m, n');
      SetDefaultAllGet(m, n', x);
      assert n == n' + [(k, v)];
      GetAppend(n', [(k, v)], x);
      if !HasKey(d, k) {
        GetAppend(d, [(k, v)], x);
      }
    }
  }
}
