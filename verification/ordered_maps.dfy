/** PHP's ordered arrays as sequences of key/value pairs. Insertion order is
    the sequence order; keys are kept distinct by every operation. */
module OrderedMaps {
  import opened Php
  import opened Results

  type OMap<K, V> = seq<(K, V)>

  function KeysOf<K, V>(m: OMap<K, V>): (ks: seq<K>)
    ensures |ks| == |m|
    ensures forall i :: 0 <= i < |m| ==> ks[i] == m[i].0
  {
    seq(|m|, i requires 0 <= i < |m| => m[i].0)
  }

  function ValuesOf<K, V>(m: OMap<K, V>): (vs: seq<V>)
    ensures |vs| == |m|
    ensures forall i :: 0 <= i < |m| ==> vs[i] == m[i].1
  {
    seq(|m|, i requires 0 <= i < |m| => m[i].1)
  }

  ghost predicate UniqueKeys<K, V>(m: OMap<K, V>)
  {
    forall i, j :: 0 <= i < j < |m| ==> m[i].0 != m[j].0
  }

  /** `array_key_exists($k, $m)`. */
  predicate HasKey<K(==), V>(m: OMap<K, V>, k: K)
  {
    exists i :: 0 <= i < |m| && m[i].0 == k
  }

  lemma HasKeyTail<K, V>(m: OMap<K, V>, k: K)
    requires |m| > 0
    ensures HasKey(m, k) <==> m[0].0 == k || HasKey(m[1..], k)
  {
    if HasKey(m, k) && m[0].0 != k {
      var i :| 0 <= i < |m| && m[i].0 == k;
      assert m[1..][i - 1].0 == k;
    }
    if HasKey(m[1..], k) {
      var i :| 0 <= i < |m| - 1 && m[1..][i].0 == k;
      assert m[i + 1].0 == k;
    }
  }

  /** Position of the first entry with key `k`. */
  function IndexOf<K(==), V>(m: OMap<K, V>, k: K): (idx: nat)
    requires HasKey(m, k)
    ensures idx < |m| && m[idx].0 == k
    ensures forall j :: 0 <= j < idx ==> m[j].0 != k
  {
    HasKeyTail(m, k);
    if m[0].0 == k then 0 else 1 + IndexOf(m[1..], k)
  }

  /** `$m[$k] ?? null` as an option: the value stored under `k`, if any. */
  function Get<K(==), V>(m: OMap<K, V>, k: K): (r: Option<V>)
    ensures r.Some? <==> HasKey(m, k)
    ensures r.Some? ==> r.value == m[IndexOf(m, k)].1
  {
    if |m| == 0 then None
    else
      HasKeyTail(m, k);
      if m[0].0 == k then Some(m[0].1) else Get(m[1..], k)
  }

  /** `$m[$k] = $v`: overwrites an existing key where it stands, otherwise
      appends the pair at the end. */
  function Put<K(==), V>(m: OMap<K, V>, k: K, v: V): (r: OMap<K, V>)
    ensures HasKey(m, k) ==>
              && |r| == |m|
              && r[IndexOf(m, k)] == (k, v)
              && (forall i :: 0 <= i < |m| && i != IndexOf(m, k) ==> r[i] == m[i])
    ensures !HasKey(m, k) ==> r == m + [(k, v)]
  {
    if |m| == 0 then [(k, v)]
    else
      HasKeyTail(m, k);
      if m[0].0 == k then [(k, v)] + m[1..]
      else
        var rest := Put(m[1..], k, v);
        var r := [m[0]] + rest;
        assert forall i :: 1 <= i < |r| ==> r[i] == rest[i - 1];
        r
  }

  lemma PutHasKey<K, V>(m: OMap<K, V>, k: K, v: V, other: K)
    ensures HasKey(Put(m, k, v), other) <==> other == k || HasKey(m, other)
  {
    var r := Put(m, k, v);
    if HasKey(m, k) {
      var idx := IndexOf(m, k);
      assert r[idx].0 == k;
      if HasKey(m, other) {
        var i :| 0 <= i < |m| && m[i].0 == other;
        if i != idx { assert r[i] == m[i]; }
      }
      if HasKey(r, other) {
        var i :| 0 <= i < |r| && r[i].0 == other;
        if i != idx { assert r[i] == m[i]; }
      }
    } else {
      assert r[|m|].0 == k;
      if HasKey(m, other) {
        var i :| 0 <= i < |m| && m[i].0 == other;
        assert r[i] == m[i];
      }
      if HasKey(r, other) && other != k {
        var i :| 0 <= i < |r| && r[i].0 == other;
        assert r[i] == m[i];
      }
    }
  }

  lemma PutKeys<K, V>(m: OMap<K, V>, k: K, v: V)
    ensures HasKey(m, k) ==> KeysOf(Put(m, k, v)) == KeysOf(m)
    ensures !HasKey(m, k) ==> KeysOf(Put(m, k, v)) == KeysOf(m) + [k]
  {
    var r := Put(m, k, v);
    if HasKey(m, k) {
      var idx := IndexOf(m, k);
      forall i | 0 <= i < |m| ensures KeysOf(r)[i] == KeysOf(m)[i] {
        if i != idx { assert r[i] == m[i]; }
      }
    } else {
      assert KeysOf(r) == KeysOf(m) + [k];
    }
  }

  /** After `Put`, the key reads back the new value and every other key reads
      back what it held before. */
  lemma {:induction false} PutGet<K, V>(m: OMap<K, V>, k: K, v: V, other: K)
    ensures Get(Put(m, k, v), k) == Some(v)
    ensures other != k ==> Get(Put(m, k, v), other) == Get(m, other)
    decreases |m|
  {
    if |m| > 0 {
      HasKeyTail(m, k);
      var r := Put(m, k, v);
      if m[0].0 == k {
        assert r[1..] == m[1..];
      } else {
        PutGet(m[1..], k, v, other);
        assert r[1..] == Put(m[1..], k, v);
      }
    }
  }

  lemma PutGetAll<K, V>(m: OMap<K, V>, k: K, v: V)
    ensures Get(Put(m, k, v), k) == Some(v)
    ensures forall other :: other != k ==> Get(Put(m, k, v), other) == Get(m, other)
  {
    PutGet(m, k, v, k);
    forall other | other != k
      ensures Get(Put(m, k, v), other) == Get(m, other)
    {
      PutGet(m, k, v, other);
    }
  }

  lemma PutUnique<K, V>(m: OMap<K, V>, k: K, v: V)
    requires UniqueKeys(m)
    ensures UniqueKeys(Put(m, k, v))
  {
    var r := Put(m, k, v);
    if HasKey(m, k) {
      var idx := IndexOf(m, k);
      forall i, j | 0 <= i < j < |r| ensures r[i].0 != r[j].0 {
        if i != idx && j != idx {
          assert r[i] == m[i] && r[j] == m[j];
        } else if i == idx {
          assert r[j] == m[j];
        } else {
          assert r[i] == m[i];
        }
      }
    } else {
      forall i, j | 0 <= i < j < |r| ensures r[i].0 != r[j].0 {
        if j == |m| {
          assert r[i] == m[i];
        } else {
          assert r[i] == m[i] && r[j] == m[j];
        }
      }
    }
  }

  /** Writing the same value under the same key twice is the same as once. */
  lemma {:induction false} PutIdempotent<K, V>(m: OMap<K, V>, k: K, v: V)
    ensures Put(Put(m, k, v), k, v) == Put(m, k, v)
    decreases |m|
  {
    if |m| > 0 {
      HasKeyTail(m, k);
      var r := Put(m, k, v);
      HasKeyTail(r, k);
      if m[0].0 == k {
        assert r[1..] == m[1..];
      } else {
        PutIdempotent(m[1..], k, v);
        assert r[1..] == Put(m[1..], k, v);
      }
    }
  }

  /** A second write under the same key replaces the first: last write wins. */
  lemma {:induction false} PutOverwrite<K, V>(m: OMap<K, V>, k: K, v1: V, v2: V)
    ensures Put(Put(m, k, v1), k, v2) == Put(m, k, v2)
    decreases |m|
  {
    if |m| > 0 {
      HasKeyTail(m, k);
      var r := Put(m, k, v1);
      HasKeyTail(r, k);
      if m[0].0 == k {
        assert r[1..] == m[1..];
      } else {
        PutOverwrite(m[1..], k, v1, v2);
        assert r[1..] == Put(m[1..], k, v1);
      }
    }
  }

  /** `unset($m[$k])`: drops the entries with key `k`, keeping the order of the rest. */
  function Remove<K(==), V>(m: OMap<K, V>, k: K): (r: OMap<K, V>)
    ensures !HasKey(r, k)
    ensures !HasKey(m, k) ==> r == m
    ensures |r| <= |m|
  {
    if |m| == 0 then []
    else
      HasKeyTail(m, k);
      var rest := Remove(m[1..], k);
      if m[0].0 == k then rest
      else
        HasKeyTail([m[0]] + rest, k);
        assert ([m[0]] + rest)[1..] == rest;
        [m[0]] + rest
  }

  /** Removing one key leaves every other key's value as it was. */
  lemma {:induction false} RemoveGet<K, V>(m: OMap<K, V>, k: K, other: K)
    requires other != k
    ensures Get(Remove(m, k), other) == Get(m, other)
    decreases |m|
  {
    if |m| > 0 {
      RemoveGet(m[1..], k, other);
      var rest := Remove(m[1..], k);
      if m[0].0 != k {
        assert ([m[0]] + rest)[1..] == rest;
      }
    }
  }

  /** With distinct keys, removing a present key drops exactly its entry. */
  lemma {:induction false} RemoveExact<K, V>(m: OMap<K, V>, k: K)
    requires UniqueKeys(m) && HasKey(m, k)
    ensures Remove(m, k) == m[..IndexOf(m, k)] + m[IndexOf(m, k) + 1..]
    decreases |m|
  {
    HasKeyTail(m, k);
    if m[0].0 == k {
      assert !HasKey(m[1..], k) by {
        forall i | 0 <= i < |m| - 1 ensures m[1..][i].0 != k {
          assert m[1..][i] == m[i + 1];
        }
      }
    } else {
      RemoveExact(m[1..], k);
      assert IndexOf(m, k) == 1 + IndexOf(m[1..], k);
      assert m[1..][..IndexOf(m[1..], k)] == m[1..IndexOf(m, k)];
      assert m[1..][IndexOf(m[1..], k) + 1..] == m[IndexOf(m, k) + 1..];
    }
  }

  /** PHP's next free integer key: one past the largest integer key, and
      never below 0. */
  function NextIndex<V>(m: OMap<Key, V>): (n: int)
    ensures n >= 0
    ensures forall i :: 0 <= i < |m| && m[i].0.IntKey? ==> m[i].0.n < n
  {
    if |m| == 0 then 0
    else
      var rest := NextIndex(m[1..]);
      assert forall i :: 1 <= i < |m| && m[i].0.IntKey? ==> m[i].0.n < rest by {
        forall i | 1 <= i < |m| && m[i].0.IntKey? ensures m[i].0.n < rest {
          assert m[1..][i - 1] == m[i];
        }
      }
      if m[0].0.IntKey? && m[0].0.n + 1 > rest then m[0].0.n + 1 else rest
  }

  lemma NextIndexFresh<V>(m: OMap<Key, V>)
    ensures !HasKey(m, IntKey(NextIndex(m)))
  {
  }

  /** `array_push($m, $v)` / `$m[] = $v`: appends under the next free integer key. */
  function Push<V>(m: OMap<Key, V>, v: V): (r: OMap<Key, V>)
    ensures r == m + [(IntKey(NextIndex(m)), v)]
    ensures UniqueKeys(m) ==> UniqueKeys(r)
  {
    NextIndexFresh(m);
    PutUnique2(m, IntKey(NextIndex(m)), v);
    Put(m, IntKey(NextIndex(m)), v)
  }

  lemma PutUnique2<V>(m: OMap<Key, V>, k: Key, v: V)
    ensures UniqueKeys(m) ==> UniqueKeys(Put(m, k, v))
  {
    if UniqueKeys(m) { PutUnique(m, k, v); }
  }

  /** How many entries of `m` have integer keys. */
  function IntKeyCount<V>(m: OMap<Key, V>): (n: nat)
    ensures n <= |m|
  {
    if |m| == 0 then 0
    else IntKeyCount(m[..|m| - 1]) + (if m[|m| - 1].0.IntKey? then 1 else 0)
  }

  /** Counting integer keys in a prefix, peeling the first entry off. */
  lemma {:induction false} IntKeyCountFront<V>(m: OMap<Key, V>, i: nat)
    requires 1 <= i <= |m|
    ensures IntKeyCount(m[..i]) == (if m[0].0.IntKey? then 1 else 0) + IntKeyCount(m[1..][..i - 1])
    decreases i
  {
    if i == 1 {
      assert m[..1][..0] == [] && m[1..][..0] == [];
    } else {
      assert m[..i][..i - 1] == m[..i - 1];
      assert m[1..][..i - 1][..i - 2] == m[1..][..i - 2];
      assert m[1..][..i - 1][i - 2] == m[i - 1];
      IntKeyCountFront(m, i - 1);
    }
  }

  /** Re-keys the integer keys as consecutive integers from `start`, in
      order; string keys stay as they are. */
  function Renumber<V>(m: OMap<Key, V>, start: int): (r: OMap<Key, V>)
    ensures |r| == |m|
    ensures forall i :: 0 <= i < |m| ==> r[i].1 == m[i].1
    ensures forall i :: 0 <= i < |m| ==> (r[i].0.IntKey? <==> m[i].0.IntKey?)
    ensures forall i :: 0 <= i < |m| && m[i].0.StrKey? ==> r[i].0 == m[i].0
    ensures forall i :: 0 <= i < |m| && m[i].0.IntKey? ==> r[i].0 == IntKey(start + IntKeyCount(m[..i]))
    ensures forall i :: 0 <= i < |m| && r[i].0.IntKey? ==> r[i].0.n >= start
    decreases |m|
  {
    if |m| == 0 then []
    else
      var next := if m[0].0.IntKey? then start + 1 else start;
      var rest := Renumber(m[1..], next);
      assert forall i :: 1 <= i < |m| ==> m[i] == m[1..][i - 1];
      var r := [if m[0].0.IntKey? then (IntKey(start), m[0].1) else m[0]] + rest;
      assert IntKeyCount(m[..0]) == 0 by { assert m[..0] == []; }
      assert forall i :: 1 <= i < |m| && m[i].0.IntKey? ==> r[i].0 == IntKey(start + IntKeyCount(m[..i])) by {
        forall i | 1 <= i < |m| && m[i].0.IntKey?
          ensures r[i].0 == IntKey(start + IntKeyCount(m[..i]))
        {
          assert r[i] == rest[i - 1];
          assert m[1..][i - 1].0.IntKey?;
          assert rest[i - 1].0 == IntKey(next + IntKeyCount(m[1..][..i - 1]));
          IntKeyCountFront(m, i);
        }
      }
      r
  }

  /** The integer keys handed out by `Renumber` increase strictly. */
  lemma RenumberIncreasing<V>(m: OMap<Key, V>, start: int, i: int, j: int)
    requires 0 <= i < j < |m| && m[i].0.IntKey? && m[j].0.IntKey?
    ensures Renumber(m, start)[i].0.n < Renumber(m, start)[j].0.n
  {
    IntKeyCountGrows(m, i, j);
  }

  /** A prefix that reaches past an integer-keyed entry counts it. */
  lemma {:induction false} IntKeyCountGrows<V>(m: OMap<Key, V>, i: nat, j: nat)
    requires i < j <= |m| && m[i].0.IntKey?
    ensures IntKeyCount(m[..i]) < IntKeyCount(m[..j])
    decreases j
  {
    assert m[..j][..j - 1] == m[..j - 1];
    if j > i + 1 {
      IntKeyCountGrows(m, i, j - 1);
    }
  }

  /** Past the first entry, `Renumber` continues on the tail from the next
      free integer. */
  lemma RenumberTail<V>(m: OMap<Key, V>, start: int)
    requires |m| > 0
    ensures var next := if m[0].0.IntKey? then start + 1 else start;
            forall k :: 1 <= k < |m| ==> Renumber(m, start)[k] == Renumber(m[1..], next)[k - 1]
    ensures m[0].0.IntKey? ==> Renumber(m, start)[0].0 == IntKey(start)
  {
  }

  /** `array_unshift($m, $v)`: puts `v` first and renumbers the integer keys
      from 0; string keys are preserved. */
  function Unshift<V>(m: OMap<Key, V>, v: V): (r: OMap<Key, V>)
    ensures |r| == |m| + 1
    ensures r[0] == (IntKey(0), v)
    ensures forall i :: 0 <= i < |m| ==> r[i + 1].1 == m[i].1
    ensures forall i :: 0 <= i < |m| && m[i].0.StrKey? ==> r[i + 1].0 == m[i].0
    ensures forall i :: 0 <= i < |m| && m[i].0.IntKey? ==> r[i + 1].0 == IntKey(1 + IntKeyCount(m[..i]))
  {
    [(IntKey(0), v)] + Renumber(m, 1)
  }

  /** `array_unshift` puts the new value first and keeps the others in order. */
  lemma UnshiftValues<V>(m: OMap<Key, V>, v: V)
    ensures ValuesOf(Unshift(m, v)) == [v] + ValuesOf(m)
  {
    var r := Unshift(m, v);
    forall i | 0 <= i < |r| ensures ValuesOf(r)[i] == ([v] + ValuesOf(m))[i] {
      if i > 0 { assert r[i].1 == m[i - 1].1; }
    }
  }

  /** Appending an entry appends its value. */
  lemma ValuesOfAppend<K, V>(m: OMap<K, V>, k: K, v: V)
    ensures ValuesOf(m + [(k, v)]) == ValuesOf(m) + [v]
  {
    var r := m + [(k, v)];
    forall i | 0 <= i < |r| ensures ValuesOf(r)[i] == (ValuesOf(m) + [v])[i] {
      if i < |m| { assert r[i] == m[i]; }
    }
  }

  lemma RenumberUnique<V>(m: OMap<Key, V>, start: int)
    requires UniqueKeys(m)
    ensures UniqueKeys(Renumber(m, start))
  {
    var t := Renumber(m, start);
    forall i, j | 0 <= i < j < |t| ensures t[i].0 != t[j].0 {
      if m[i].0.IntKey? && m[j].0.IntKey? {
        RenumberIncreasing(m, start, i, j);
      }
    }
  }

  /** Unshifting keeps the keys distinct. */
  lemma UnshiftUnique<V>(m: OMap<Key, V>, v: V)
    requires UniqueKeys(m)
    ensures UniqueKeys(Unshift(m, v))
  {
    var t := Renumber(m, 1);
    RenumberUnique(m, 1);
    var r := [(IntKey(0), v)] + t;
    forall i, j | 0 <= i < j < |r| ensures r[i].0 != r[j].0 {
      assert r[j] == t[j - 1];
      if i > 0 {
        assert r[i] == t[i - 1];
      }
    }
  }

  /** The entries of `b` whose keys `a` does not have, in `b`'s order. */
  function Missing<K(==), V>(a: OMap<K, V>, b: OMap<K, V>): (r: OMap<K, V>)
    ensures forall i :: 0 <= i < |r| ==> !HasKey(a, r[i].0)
    decreases |b|
  {
    if |b| == 0 then []
    else
      var rest := Missing(a, b[1..]);
      if HasKey(a, b[0].0) then rest
      else
        var r := [b[0]] + rest;
        assert forall i :: 1 <= i < |r| ==> r[i] == rest[i - 1];
        r
  }

  lemma {:induction false} MissingGet<K, V>(a: OMap<K, V>, b: OMap<K, V>, k: K)
    requires !HasKey(a, k)
    ensures Get(Missing(a, b), k) == Get(b, k)
    decreases |b|
  {
    if |b| > 0 {
      MissingGet(a, b[1..], k);
      if !HasKey(a, b[0].0) {
        assert ([b[0]] + Missing(a, b[1..]))[1..] == Missing(a, b[1..]);
      }
    }
  }

  lemma {:induction false} GetAppend<K, V>(a: OMap<K, V>, c: OMap<K, V>, k: K)
    ensures Get(a + c, k) == if HasKey(a, k) then Get(a, k) else Get(c, k)
    decreases |a|
  {
    if |a| > 0 {
      assert (a + c)[1..] == a[1..] + c;
      HasKeyTail(a, k);
      GetAppend(a[1..], c, k);
    } else {
      assert a + c == c;
    }
  }

  /** The array union `$a + $b`: `a` unchanged, followed by the entries of `b`
      under keys `a` lacks. */
  function Union<K(==), V>(a: OMap<K, V>, b: OMap<K, V>): (r: OMap<K, V>)
    ensures |r| >= |a| && r[..|a|] == a
    ensures forall i :: |a| <= i < |r| ==> !HasKey(a, r[i].0)
  {
    a + Missing(a, b)
  }

  /** On a shared key the left-hand value wins; other keys read from `b`. */
  lemma UnionGet<K, V>(a: OMap<K, V>, b: OMap<K, V>, k: K)
    ensures Get(Union(a, b), k) == if HasKey(a, k) then Get(a, k) else Get(b, k)
  {
    GetAppend(a, Missing(a, b), k);
    if !HasKey(a, k) {
      MissingGet(a, b, k);
    }
  }

  /** Splitting off the first element of an appended sequence. */
  lemma AppendFirst<T>(items: seq<T>, more: seq<T>)
    requires |more| > 0
    ensures items + [more[0]] + more[1..] == items + more
  {
  }

  /** Applying a fallible conversion to every value in order; the first
      failure aborts, otherwise keys and order are kept. */
  function MapValues<K, V, W>(m: OMap<K, V>, f: V -> Result<W>): (r: Result<OMap<K, W>>)
    ensures r.Success? <==> forall i :: 0 <= i < |m| ==> f(m[i].1).Success?
    ensures r.Success? ==> |r.value| == |m|
    ensures r.Success? ==> forall i :: 0 <= i < |m| ==> r.value[i] == (m[i].0, f(m[i].1).value)
    ensures r.Failure? ==> exists i :: 0 <= i < |m| && f(m[i].1) == Failure(r.error) &&
                                       forall j :: 0 <= j < i ==> f(m[j].1).Success?
    decreases |m|
  {
    if |m| == 0 then Success([])
    else
      var w :- f(m[0].1);
      var rest :- MapValues(m[1..], f);
      var r := [(m[0].0, w)] + rest;
      assert forall i :: 1 <= i < |m| ==> r[i] == rest[i - 1] && m[i] == m[1..][i - 1];
      Success(r)
  }

  /** Like `MapValues`, for a conversion that also sees each entry's key. */
  function MapEntries<K, V, W>(m: OMap<K, V>, f: (K, V) -> Result<W>): (r: Result<OMap<K, W>>)
    ensures r.Success? <==> forall i :: 0 <= i < |m| ==> f(m[i].0, m[i].1).Success?
    ensures r.Success? ==> |r.value| == |m|
    ensures r.Success? ==> forall i :: 0 <= i < |m| ==> r.value[i] == (m[i].0, f(m[i].0, m[i].1).value)
    ensures r.Failure? ==> exists i :: 0 <= i < |m| && f(m[i].0, m[i].1) == Failure(r.error) &&
                                       forall j :: 0 <= j < i ==> f(m[j].0, m[j].1).Success?
    decreases |m|
  {
    if |m| == 0 then Success([])
    else
      var w :- f(m[0].0, m[0].1);
      var rest :- MapEntries(m[1..], f);
      var r := [(m[0].0, w)] + rest;
      assert forall i :: 1 <= i < |m| ==> r[i] == rest[i - 1] && m[i] == m[1..][i - 1];
      Success(r)
  }

  /** Writing every entry of `entries` into `m` in order, as a `foreach` of
      `$m[$key] = $value` does. */
  function PutAll<K(==), V>(m: OMap<K, V>, entries: OMap<K, V>): OMap<K, V>
    decreases |entries|
  {
    if |entries| == 0 then m else PutAll(Put(m, entries[0].0, entries[0].1), entries[1..])
  }

  lemma UniqueKeysTail<K, V>(m: OMap<K, V>)
    requires |m| > 0 && UniqueKeys(m)
    ensures UniqueKeys(m[1..])
    ensures !HasKey(m[1..], m[0].0)
  {
    assert forall i :: 0 <= i < |m| - 1 ==> m[1..][i] == m[i + 1];
  }

  /** After writing distinct entries, a key reads back its entry's value, or
      what `m` held when the entries do not mention it. */
  lemma {:induction false} PutAllGet<K, V>(m: OMap<K, V>, entries: OMap<K, V>, k: K)
    requires UniqueKeys(entries)
    ensures Get(PutAll(m, entries), k) == if HasKey(entries, k) then Get(entries, k) else Get(m, k)
    decreases |entries|
  {
    if |entries| > 0 {
      var e := entries[0];
      UniqueKeysTail(entries);
      HasKeyTail(entries, k);
      PutAllGet(Put(m, e.0, e.1), entries[1..], k);
      PutGet(m, e.0, e.1, k);
    }
  }

  /** Writing back the value a key already reads changes nothing. */
  lemma PutExisting<K, V>(m: OMap<K, V>, k: K, v: V)
    requires Get(m, k) == Some(v)
    ensures Put(m, k, v) == m
  {
    var r := Put(m, k, v);
    assert forall i :: 0 <= i < |m| ==> r[i] == m[i];
  }

  /** Writing the same distinct entries a second time changes nothing. */
  lemma {:induction false} PutAllIdempotent<K, V>(m: OMap<K, V>, entries: OMap<K, V>)
    requires UniqueKeys(entries)
    ensures PutAll(PutAll(m, entries), entries) == PutAll(m, entries)
    decreases |entries|
  {
    if |entries| > 0 {
      var e := entries[0];
      var m1 := Put(m, e.0, e.1);
      var all := PutAll(m1, entries[1..]);
      UniqueKeysTail(entries);
      PutAllGet(m1, entries[1..], e.0);
      PutGet(m, e.0, e.1, e.0);
      PutExisting(all, e.0, e.1);
      PutAllIdempotent(m1, entries[1..]);
    }
  }

  /** Writing entries whose keys are all new appends them, in order. */
  lemma {:induction false} PutAllFresh<K, V>(m: OMap<K, V>, entries: OMap<K, V>)
    requires UniqueKeys(entries)
    requires forall i :: 0 <= i < |entries| ==> !HasKey(m, entries[i].0)
    ensures PutAll(m, entries) == m + entries
    decreases |entries|
  {
    if |entries| > 0 {
      var e := entries[0];
      var m1 := Put(m, e.0, e.1);
      assert m1 == m + [e];
      UniqueKeysTail(entries);
      forall i | 0 <= i < |entries| - 1
        ensures !HasKey(m1, entries[1..][i].0)
      {
        assert entries[1..][i] == entries[i + 1];
        PutHasKey(m, e.0, e.1, entries[i + 1].0);
      }
      PutAllFresh(m1, entries[1..]);
      AppendFirst(m, entries);
    }
  }

  /** Looking a key up after converting every value: the converted value of
      the entry the key selects. */
  lemma {:induction false} MapValuesGet<K, V, W>(m: OMap<K, V>, f: V -> Result<W>, k: K)
    requires MapValues(m, f).Success?
    ensures HasKey(m, k) ==> Get(MapValues(m, f).value, k) == Some(f(Get(m, k).value).value)
    ensures !HasKey(m, k) ==> Get(MapValues(m, f).value, k) == None
    decreases |m|
  {
    var r := MapValues(m, f).value;
    if |m| > 0 {
      HasKeyTail(m, k);
      HasKeyTail(r, k);
      assert r[1..] == MapValues(m[1..], f).value;
      MapValuesGet(m[1..], f, k);
    }
  }

  /** Converting values keeps the keys, and so their distinctness. */
  lemma MapValuesKeys<K, V, W>(m: OMap<K, V>, f: V -> Result<W>)
    requires MapValues(m, f).Success?
    ensures KeysOf(MapValues(m, f).value) == KeysOf(m)
    ensures UniqueKeys(m) ==> UniqueKeys(MapValues(m, f).value)
  {
  }

  /** Writing converted entries into `m`: a key of the data reads back its
      converted value, any other key what `m` held. */
  lemma PutAllConvertedGet<K, V, W>(m: OMap<K, W>, data: OMap<K, V>, f: V -> Result<W>, k: K)
    requires UniqueKeys(data) && MapValues(data, f).Success?
    ensures HasKey(data, k) ==> Get(PutAll(m, MapValues(data, f).value), k) == Some(f(Get(data, k).value).value)
    ensures !HasKey(data, k) ==> Get(PutAll(m, MapValues(data, f).value), k) == Get(m, k)
  {
    var converted := MapValues(data, f).value;
    MapValuesKeys(data, f);
    MapValuesGet(data, f, k);
    PutAllGet(m, converted, k);
    assert HasKey(data, k) <==> HasKey(converted, k) by {
      if HasKey(data, k) {
        var i :| 0 <= i < |data| && data[i].0 == k;
        assert converted[i].0 == k;
      }
      if HasKey(converted, k) {
        var i :| 0 <= i < |converted| && converted[i].0 == k;
        assert data[i].0 == k;
      }
    }
  }
}
