/**
 * Sparse tables keyed by (source word id, target word id), as used for both
 * the translation table and the expected-count table, and the log-domain
 * accumulation `m[k] = LogAdd(lookup(m, k), v)` that the E-step performs.
 * A run of accumulations is a sequence of updates applied left to right.
 */
module SparseTable {
  import opened LogDomain

  type WordId = int
  type Key = (WordId, WordId)
  type Table = map<Key, real>

  /** One accumulation: add `value` (log domain) into the entry at `key`. */
  type Update = (Key, real)

  /** `lookup(&m, s, t)` used as a value: the entry, or `miss` when absent. */
  function Lookup(m: Table, k: Key, miss: real): (r: real)
  {
    if k in m then m[k] else miss
  }

  /** `lookup(&m, k) = LogAdd(lookup(&m, k), v)`: the key is present afterwards. */
  function Accumulate(num: Numerics, m: Table, u: Update): (r: Table)
  {
    m[u.0 := num.logAdd(Lookup(m, u.0, num.miss), u.1)]
  }

  /** The table after the updates `ups`, in order. */
  function Apply(num: Numerics, m: Table, ups: seq<Update>): (r: Table)
    decreases |ups|
  {
    if ups == [] then m else Accumulate(num, Apply(num, m, ups[..|ups| - 1]), ups[|ups| - 1])
  }

  /** The keys a run of updates writes. */
  function KeysOf(ups: seq<Update>): (r: set<Key>)
  {
    set i | 0 <= i < |ups| :: ups[i].0
  }

  /** How many of the updates write `k`. */
  function CountKey(ups: seq<Update>, k: Key): (r: nat)
    decreases |ups|
  {
    if ups == [] then 0
    else CountKey(ups[..|ups| - 1], k) + (if ups[|ups| - 1].0 == k then 1 else 0)
  }

  /** A non-empty set of word ids has a member, for picking the next word of
      an unordered iteration. */
  lemma SomeWord(words: set<WordId>)
    requires words != {}
    ensures exists w :: w in words
  {
    if forall w :: w !in words {
      assert false;
    }
  }

  /** The table holding `v` at every key of `keys`. */
  function Fill(keys: set<Key>, v: real): (r: Table)
  {
    map k | k in keys :: v
  }

  /** Writing `v` at one more key extends the filled key set by that key. */
  lemma FillAdd(m: Table, keys: set<Key>, k: Key, v: real)
    ensures (m + Fill(keys, v))[k := v] == m + Fill(keys + {k}, v)
  {
  }

  /** Filling adds exactly the filled keys. */
  lemma FillKeys(m: Table, keys: set<Key>, v: real)
    ensures (m + Fill(keys, v)).Keys == m.Keys + keys
  {
  }

  /** An update after a union lands in its right-hand side. */
  lemma UnionUpdate(m: Table, a: Table, k: Key, v: real)
    ensures (m + a)[k := v] == m + a[k := v]
  {
  }

  /** Map union is associative. */
  lemma UnionAssoc(a: Table, b: Table, c: Table)
    ensures (a + b) + c == a + (b + c)
  {
  }

  /** Appending one update is one more accumulation. */
  lemma ApplySnoc(num: Numerics, m: Table, ups: seq<Update>, u: Update)
    ensures Apply(num, m, ups + [u]) == Accumulate(num, Apply(num, m, ups), u)
  {
    assert (ups + [u])[..|ups|] == ups;
  }

  /** The keys written by a concatenation are those of its parts. */
  lemma KeysOfAppend(a: seq<Update>, b: seq<Update>)
    ensures KeysOf(a + b) == KeysOf(a) + KeysOf(b)
  {
    forall k | k in KeysOf(a + b) ensures k in KeysOf(a) + KeysOf(b) {
      var i :| 0 <= i < |a + b| && (a + b)[i].0 == k;
      if i >= |a| {
        assert b[i - |a|] == (a + b)[i];
      } else {
        assert a[i] == (a + b)[i];
      }
    }
    forall k | k in KeysOf(a) ensures k in KeysOf(a + b) {
      var i :| 0 <= i < |a| && a[i].0 == k;
      assert (a + b)[i] == a[i];
    }
    forall k | k in KeysOf(b) ensures k in KeysOf(a + b) {
      var i :| 0 <= i < |b| && b[i].0 == k;
      assert (a + b)[|a| + i] == b[i];
    }
  }

  /** A single update writes its own key. */
  lemma KeysOfSingleton(u: Update)
    ensures KeysOf([u]) == {u.0}
  {
    assert [u][0].0 in KeysOf([u]);
  }

  /** Running `a` and then `b` is running their concatenation. */
  lemma {:induction false} ApplyAppend(num: Numerics, m: Table, a: seq<Update>, b: seq<Update>)
    ensures Apply(num, m, a + b) == Apply(num, Apply(num, m, a), b)
    decreases |b|
  {
    if b == [] {
      assert a + b == a;
    } else {
      var b' := b[..|b| - 1];
      assert (a + b)[..|a + b| - 1] == a + b';
      assert (a + b)[|a + b| - 1] == b[|b| - 1];
      ApplyAppend(num, m, a, b');
    }
  }

  /** Accumulating only ever adds keys: exactly the written ones, and every
      other entry keeps its value. */
  lemma {:induction false} ApplyFrame(num: Numerics, m: Table, ups: seq<Update>)
    ensures Apply(num, m, ups).Keys == m.Keys + KeysOf(ups)
    ensures forall k :: k in m && k !in KeysOf(ups) ==> Apply(num, m, ups)[k] == m[k]
    decreases |ups|
  {
    if ups != [] {
      var init := ups[..|ups| - 1];
      ApplyFrame(num, m, init);
      assert KeysOf(ups) == KeysOf(init) + {ups[|ups| - 1].0} by {
        forall k | k in KeysOf(ups) ensures k in KeysOf(init) + {ups[|ups| - 1].0} {
          var i :| 0 <= i < |ups| && ups[i].0 == k;
          if i < |ups| - 1 { assert init[i] == ups[i]; }
        }
        forall k | k in KeysOf(init) ensures k in KeysOf(ups) {
          var i :| 0 <= i < |init| && init[i].0 == k;
          assert ups[i] == init[i];
        }
      }
    }
  }

  /** When every update to `k` adds the same `v`, the entry at `k` is its
      old value (or the miss value) with `v` log-added once per update. */
  lemma {:induction false} ApplyUniform(num: Numerics, m: Table, ups: seq<Update>, k: Key, v: real)
    requires forall i :: 0 <= i < |ups| && ups[i].0 == k ==> ups[i].1 == v
    ensures Lookup(Apply(num, m, ups), k, num.miss)
         == LogAddRepeat(num.logAdd, v, CountKey(ups, k), Lookup(m, k, num.miss))
    decreases |ups|
  {
    if ups != [] {
      var init := ups[..|ups| - 1];
      forall i | 0 <= i < |init| && init[i].0 == k ensures init[i].1 == v {
        assert init[i] == ups[i];
      }
      ApplyUniform(num, m, init, k, v);
    }
  }

  /** Counting the writes to a key is additive over concatenation. */
  lemma {:induction false} CountKeyAppend(a: seq<Update>, b: seq<Update>, k: Key)
    ensures CountKey(a + b, k) == CountKey(a, k) + CountKey(b, k)
    decreases |b|
  {
    if b == [] {
      assert a + b == a;
    } else {
      var b' := b[..|b| - 1];
      assert (a + b)[..|a + b| - 1] == a + b';
      assert (a + b)[|a + b| - 1] == b[|b| - 1];
      CountKeyAppend(a, b', k);
    }
  }
}
