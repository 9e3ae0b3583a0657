/** A JavaScript plain object seen as a table: its own string keys in property
    order, each with its value. Assigning to an existing key keeps the key where it
    is; assigning to a new key appends it, as JavaScript's property order does for
    non-index keys. */
module Dict {

  import opened Wrappers

  type Dict<V> = seq<(string, V)>

  /** `Object.keys(d)`. */
  function Keys<V>(d: Dict<V>): (ks: seq<string>)
    ensures |ks| == |d|
    ensures forall i :: 0 <= i < |d| ==> ks[i] == d[i].0
  {
    seq(|d|, i requires 0 <= i < |d| => d[i].0)
  }

  /** Every key occurs once, as in any JavaScript object. */
  ghost predicate UniqueKeys<V>(d: Dict<V>) {
    forall i, j :: 0 <= i < j < |d| ==> d[i].0 != d[j].0
  }

  /** The first position at which `k` occurs in `ks`. */
  function Find(ks: seq<string>, k: string): (r: Option<nat>)
    ensures r.None? <==> k !in ks
    ensures r.Some? ==> r.value < |ks| && ks[r.value] == k && k !in ks[..r.value]
  {
    if ks == [] then None
    else if ks[0] == k then Some(0)
    else match Find(ks[1..], k)
      case None => None
      case Some(i) =>
        assert ks[..i + 1] == [ks[0]] + ks[1..][..i];
        Some(i + 1)
  }

  lemma {:induction false} FindAppend(ks: seq<string>, x: string, k: string)
    ensures Find(ks + [x], k) == if k in ks then Find(ks, k) else if x == k then Some(|ks|) else None
  {
    if ks != [] {
      assert (ks + [x])[1..] == ks[1..] + [x];
      FindAppend(ks[1..], x, k);
    }
  }

  /** `d[k]`, None where `k` is not an own key. */
  function Get<V>(d: Dict<V>, k: string): (r: Option<V>)
    ensures r.Some? <==> k in Keys(d)
  {
    match Find(Keys(d), k)
    case None => None
    case Some(i) => Some(d[i].1)
  }

  /** In an object with unique keys, each entry is what its key reads. */
  lemma GetAt<V>(d: Dict<V>, i: nat)
    requires UniqueKeys(d) && i < |d|
    ensures Get(d, d[i].0) == Some(d[i].1)
  {
    assert Keys(d)[i] == d[i].0;
  }

  /** `d[k] = v`. */
  function Put<V>(d: Dict<V>, k: string, v: V): (r: Dict<V>)
    ensures Keys(r) == if k in Keys(d) then Keys(d) else Keys(d) + [k]
    ensures Get(r, k) == Some(v)
    ensures forall k' :: k' != k ==> Get(r, k') == Get(d, k')
    ensures forall i :: 0 <= i < |d| && d[i].0 != k ==> r[i] == d[i]
    ensures UniqueKeys(d) ==> UniqueKeys(r)
  {
    match Find(Keys(d), k)
    case Some(i) =>
      var r := d[i := (k, v)];
      assert Keys(r) == Keys(d);
      r
    case None =>
      var r := d + [(k, v)];
      assert Keys(r) == Keys(d) + [k];
      forall k' ensures Find(Keys(r), k') == if k' in Keys(d) then Find(Keys(d), k') else if k == k' then Some(|d|) else None {
        FindAppend(Keys(d), k, k');
      }
      r
  }

  /** `delete d[k]`: the entry with key `k` leaves, the others keep their order. */
  function Delete<V>(d: Dict<V>, k: string): (r: Dict<V>)
    ensures k !in Keys(d) ==> r == d
    ensures UniqueKeys(d) ==> UniqueKeys(r) && k !in Keys(r)
    ensures UniqueKeys(d) ==> forall k' :: k' != k ==> Get(r, k') == Get(d, k')
    ensures UniqueKeys(d) ==> forall k' :: k' in Keys(r) <==> k' in Keys(d) && k' != k
  {
    match Find(Keys(d), k)
    case None => d
    case Some(i) =>
      var r := d[..i] + d[i + 1..];
      assert UniqueKeys(d) ==> (
          && UniqueKeys(r) && k !in Keys(r)
          && (forall k' :: k' != k ==> Get(r, k') == Get(d, k'))
          && (forall k' :: k' in Keys(r) <==> k' in Keys(d) && k' != k)) by {
        if UniqueKeys(d) {
          forall k' | k' != k ensures Get(r, k') == Get(d, k') {
            DeleteGet(d, i, k');
          }
          forall k' ensures k' in Keys(r) <==> k' in Keys(d) && k' != k {
            DeleteKeys(d, i, k');
          }
        }
      }
      r
  }

  lemma DeleteKeys<V>(d: Dict<V>, i: nat, k': string)
    requires UniqueKeys(d) && i < |d|
    ensures UniqueKeys(d[..i] + d[i + 1..])
    ensures k' in Keys(d[..i] + d[i + 1..]) <==> k' in Keys(d) && k' != d[i].0
  {
    var r := d[..i] + d[i + 1..];
    DeleteUnique(d, i);
    assert Keys(r) == Keys(d)[..i] + Keys(d)[i + 1..];
    assert Keys(d) == Keys(d)[..i] + [d[i].0] + Keys(d)[i + 1..];
  }

  lemma DeleteUnique<V>(d: Dict<V>, i: nat)
    requires UniqueKeys(d) && i < |d|
    ensures UniqueKeys(d[..i] + d[i + 1..])
  {
    var r := d[..i] + d[i + 1..];
    forall a, b | 0 <= a < b < |r| ensures r[a].0 != r[b].0 {
      assert r[a] == d[if a < i then a else a + 1] && r[b] == d[if b < i then b else b + 1];
    }
  }

  lemma DeleteGet<V>(d: Dict<V>, i: nat, k': string)
    requires UniqueKeys(d) && i < |d| && k' != d[i].0
    ensures Get(d[..i] + d[i + 1..], k') == Get(d, k')
  {
    var r := d[..i] + d[i + 1..];
    DeleteKeys(d, i, k');
    if k' in Keys(d) {
      var j :| 0 <= j < |d| && Keys(d)[j] == k';
      assert j != i;
      var j' := if j < i then j else j - 1;
      assert r[j'] == d[j];
      GetAt(d, j);
      GetAt(r, j');
    }
  }

  /** The value of the LAST entry of `s` whose key is `k`. */
  function LastGet<V>(s: Dict<V>, k: string): Option<V> {
    if s == [] then None
    else if s[|s| - 1].0 == k then Some(s[|s| - 1].1)
    else LastGet(s[..|s| - 1], k)
  }

  /** `Object.assign(t, s)` for a source given as a list of entries: each
      entry of `s`, from left to right, is assigned to `t`. With `t` empty this is
      `Object.fromEntries(s)`. */
  function Assign<V>(t: Dict<V>, s: Dict<V>): Dict<V> {
    if s == [] then t
    else Put(Assign(t, s[..|s| - 1]), s[|s| - 1].0, s[|s| - 1].1)
  }

  /** What a key reads after `Object.assign`: the last source entry with that
      key wins; keys the source does not mention read as before. */
  lemma {:induction false} AssignGet<V>(t: Dict<V>, s: Dict<V>, k: string)
    ensures Get(Assign(t, s), k) == if LastGet(s, k).Some? then LastGet(s, k) else Get(t, k)
  {
    if s != [] {
      AssignGet(t, s[..|s| - 1], k);
    }
  }

  /** `Object.assign` keeps the keys of the target first, in their order, and
      adds exactly the keys of the source. */
  lemma AssignKeys<V>(t: Dict<V>, s: Dict<V>)
    ensures Keys(t) <= Keys(Assign(t, s))
    ensures forall k :: k in Keys(Assign(t, s)) <==> k in Keys(t) || k in Keys(s)
    ensures UniqueKeys(t) ==> UniqueKeys(Assign(t, s))
  {
    AssignKeysPrefix(t, s);
    forall k ensures k in Keys(Assign(t, s)) <==> k in Keys(t) || k in Keys(s) {
      AssignKeysUnion(t, s, k);
    }
    if UniqueKeys(t) {
      AssignUnique(t, s);
    }
  }

  lemma {:induction false} AssignKeysPrefix<V>(t: Dict<V>, s: Dict<V>)
    ensures Keys(t) <= Keys(Assign(t, s))
  {
    if s != [] {
      var last := s[|s| - 1];
      AssignKeysPrefix(t, s[..|s| - 1]);
      var a := Assign(t, s[..|s| - 1]);
      assert Keys(a) <= Keys(Put(a, last.0, last.1));
    }
  }

  lemma {:induction false} AssignKeysUnion<V>(t: Dict<V>, s: Dict<V>, k: string)
    ensures k in Keys(Assign(t, s)) <==> k in Keys(t) || k in Keys(s)
  {
    if s != [] {
      var s' := s[..|s| - 1];
      var last := s[|s| - 1];
      AssignKeysUnion(t, s', k);
      KeysSnoc(s);
      InKeysPut(Assign(t, s'), last.0, last.1, k);
    }
  }

  lemma KeysSnoc<V>(s: Dict<V>)
    requires s != []
    ensures Keys(s) == Keys(s[..|s| - 1]) + [s[|s| - 1].0]
  {
  }

  lemma InKeysPut<V>(d: Dict<V>, k: string, v: V, k': string)
    ensures k' in Keys(Put(d, k, v)) <==> k' in Keys(d) || k' == k
  {
    var ks := Keys(Put(d, k, v));
    if k !in Keys(d) {
      assert ks == Keys(d) + [k];
    }
  }

  lemma {:induction false} AssignUnique<V>(t: Dict<V>, s: Dict<V>)
    requires UniqueKeys(t)
    ensures UniqueKeys(Assign(t, s))
  {
    if s != [] {
      AssignUnique(t, s[..|s| - 1]);
    }
  }

  /** For a source with unique keys, the last entry with a key is its only one. */
  lemma {:induction false} LastGetUnique<V>(s: Dict<V>, k: string)
    requires UniqueKeys(s)
    ensures LastGet(s, k) == Get(s, k)
  {
    if s != [] {
      var s' := s[..|s| - 1];
      LastGetUnique(s', k);
      assert Keys(s) == Keys(s') + [s[|s| - 1].0];
      FindAppend(Keys(s'), s[|s| - 1].0, k);
    }
  }

  /** `Object.fromEntries` of an object's own entries gives that object back. */
  lemma {:induction false} FromEntriesOfUnique<V>(d: Dict<V>)
    requires UniqueKeys(d)
    ensures Assign([], d) == d
  {
    if d != [] {
      var d' := d[..|d| - 1];
      var last := d[|d| - 1];
      UniqueSnoc(d);
      FromEntriesOfUnique(d');
      PutNew(d', last.0, last.1);
      assert d' + [last] == d;
    }
  }

  /** Dropping the last entry keeps the keys unique, and its key is new to the rest. */
  lemma UniqueSnoc<V>(d: Dict<V>)
    requires UniqueKeys(d) && d != []
    ensures UniqueKeys(d[..|d| - 1]) && d[|d| - 1].0 !in Keys(d[..|d| - 1])
  {
    var d' := d[..|d| - 1];
    forall i | 0 <= i < |d'| ensures Keys(d')[i] != d[|d| - 1].0 {
      assert d'[i] == d[i];
    }
  }

  /** Assigning a new key appends it. */
  lemma PutNew<V>(d: Dict<V>, k: string, v: V)
    requires k !in Keys(d)
    ensures Put(d, k, v) == d + [(k, v)]
  {
    assert Find(Keys(d), k) == None;
  }

  /** The entries whose key is not in `ks`, in their order. */
  function Without<V>(d: Dict<V>, ks: seq<string>): Dict<V> {
    if d == [] then []
    else (if d[0].0 in ks then [] else [d[0]]) + Without(d[1..], ks)
  }

  lemma {:induction false} WithoutConcat<V>(a: Dict<V>, b: Dict<V>, ks: seq<string>)
    ensures Without(a + b, ks) == Without(a, ks) + Without(b, ks)
  {
    if a == [] {
      assert a + b == b;
    } else {
      var ab := a + b;
      assert ab[0] == a[0] && ab[1..] == a[1..] + b;
      WithoutConcat(a[1..], b, ks);
      var h: Dict<V> := if a[0].0 in ks then [] else [a[0]];
      assert Without(ab, ks) == h + Without(a[1..] + b, ks);
      assert Without(a, ks) == h + Without(a[1..], ks);
    }
  }

  lemma {:induction false} WithoutNone<V>(d: Dict<V>, ks: seq<string>)
    requires forall j :: 0 <= j < |d| ==> d[j].0 !in ks
    ensures Without(d, ks) == d
  {
    if d != [] {
      WithoutNone(d[1..], ks);
    }
  }

  lemma {:induction false} WithoutTwice<V>(d: Dict<V>, ks: seq<string>, k: string)
    ensures Without(Without(d, ks), [k]) == Without(d, ks + [k])
  {
    if d != [] {
      WithoutTwice(d[1..], ks, k);
      WithoutConcat(if d[0].0 in ks then [] else [d[0]], Without(d[1..], ks), [k]);
    }
  }

  /** For unique keys, deleting a key is filtering it out. */
  lemma DeleteIsWithout<V>(d: Dict<V>, k: string)
    requires UniqueKeys(d)
    ensures Delete(d, k) == Without(d, [k])
  {
    var f := Find(Keys(d), k);
    if f.None? {
      assert Delete(d, k) == d;
      forall j | 0 <= j < |d| ensures d[j].0 !in [k] {
        assert Keys(d)[j] == d[j].0;
      }
      WithoutNone(d, [k]);
    } else {
      var i := f.value;
      assert Delete(d, k) == d[..i] + d[i + 1..];
      forall j | 0 <= j < |d| && j != i ensures d[j].0 != k {
        if j < i {
          assert Keys(d)[..i][j] == d[j].0;
        }
      }
      WithoutSplice(d, i);
    }
  }

  lemma {:induction false} WithoutSplice<V>(d: Dict<V>, i: nat)
    requires i < |d|
    requires forall j :: 0 <= j < |d| && j != i ==> d[j].0 != d[i].0
    ensures Without(d, [d[i].0]) == d[..i] + d[i + 1..]
  {
    var k := d[i].0;
    var t := d[1..];
    if i == 0 {
      forall j | 0 <= j < |t| ensures t[j].0 !in [k] {
        assert t[j] == d[j + 1];
      }
      WithoutNone(t, [k]);
    } else {
      assert t[i - 1] == d[i];
      forall j | 0 <= j < |t| && j != i - 1 ensures t[j].0 != t[i - 1].0 {
        assert t[j] == d[j + 1];
      }
      WithoutSplice(t, i - 1);
      assert d[..i] + d[i + 1..] == [d[0]] + (t[..i - 1] + t[i..]);
    }
  }

  /** Filtering keeps what a key reads unless the key is filtered out. */
  lemma {:induction false} WithoutGet<V>(d: Dict<V>, ks: seq<string>, k: string)
    ensures Get(Without(d, ks), k) == if k in ks then None else Get(d, k)
  {
    if d != [] {
      WithoutGet(d[1..], ks, k);
      GetCons(d, k);
      if d[0].0 !in ks {
        var r := Without(d, ks);
        assert r == [d[0]] + Without(d[1..], ks);
        assert r[1..] == Without(d[1..], ks);
        GetCons(r, k);
      } else {
        assert Without(d, ks) == Without(d[1..], ks);
      }
    }
  }

  lemma WithoutKeys<V>(d: Dict<V>, ks: seq<string>, k: string)
    ensures k in Keys(Without(d, ks)) <==> k in Keys(d) && k !in ks
  {
    WithoutGet(d, ks, k);
  }

  lemma UniqueCons<V>(d: Dict<V>)
    requires d != []
    ensures UniqueKeys(d) <==> d[0].0 !in Keys(d[1..]) && UniqueKeys(d[1..])
  {
    var t := d[1..];
    assert forall j :: 0 <= j < |t| ==> t[j] == d[j + 1];
    if UniqueKeys(d) {
      assert d[0].0 !in Keys(t) by {
        forall j | 0 <= j < |t| ensures Keys(t)[j] != d[0].0 {
          assert d[j + 1].0 != d[0].0;
        }
      }
    }
    if d[0].0 !in Keys(t) && UniqueKeys(t) {
      forall a, b | 0 <= a < b < |d| ensures d[a].0 != d[b].0 {
        if a == 0 {
          assert Keys(t)[b - 1] == d[b].0;
        } else {
          assert d[a] == t[a - 1] && d[b] == t[b - 1];
        }
      }
    }
  }

  lemma {:induction false} WithoutUnique<V>(d: Dict<V>, ks: seq<string>)
    requires UniqueKeys(d)
    ensures UniqueKeys(Without(d, ks))
  {
    if d != [] {
      UniqueCons(d);
      WithoutUnique(d[1..], ks);
      if d[0].0 !in ks {
        var r := Without(d, ks);
        assert r == [d[0]] + Without(d[1..], ks);
        assert r[1..] == Without(d[1..], ks);
        WithoutKeys(d[1..], ks, d[0].0);
        UniqueCons(r);
      }
    }
  }

  lemma GetCons<V>(d: Dict<V>, k: string)
    requires d != []
    ensures Get(d, k) == if k == d[0].0 then Some(d[0].1) else Get(d[1..], k)
  {
    assert Keys(d)[1..] == Keys(d[1..]);
    if k != d[0].0 {
      match Find(Keys(d[1..]), k)
      case None =>
      case Some(i) =>
        assert d[i + 1] == d[1..][i];
    }
  }

  /** `Object.assign(t, s1, s2, ...)`: the sources assigned one after another. */
  function AssignEach<V>(t: Dict<V>, ss: seq<Dict<V>>): Dict<V> {
    if ss == [] then t
    else Assign(AssignEach(t, ss[..|ss| - 1]), ss[|ss| - 1])
  }

  /** What `k` reads in the last source that has it. */
  function LastSource<V>(ss: seq<Dict<V>>, k: string): (r: Option<V>)
    ensures r.Some? <==> exists i :: 0 <= i < |ss| && k in Keys(ss[i])
  {
    if ss == [] then None
    else if Get(ss[|ss| - 1], k).Some? then Get(ss[|ss| - 1], k)
    else
      var r := LastSource(ss[..|ss| - 1], k);
      assert r.Some? ==> exists i :: 0 <= i < |ss| && k in Keys(ss[i]) by {
        if r.Some? {
          var i :| 0 <= i < |ss| - 1 && k in Keys(ss[..|ss| - 1][i]);
          assert ss[i] == ss[..|ss| - 1][i];
        }
      }
      r
  }

  /** `Object.fromEntries` of entries with unique keys reads as the entries do. */
  lemma FromEntriesGet<V>(d: Dict<V>, k: string)
    requires UniqueKeys(d)
    ensures Get(Assign([], d), k) == Get(d, k)
  {
    AssignGet([], d, k);
    LastGetUnique(d, k);
  }

  /** After several `Object.assign` sources, a key reads as in the last source
      that has it, and as in the target when none has. */
  lemma {:induction false} AssignEachGet<V>(t: Dict<V>, ss: seq<Dict<V>>, k: string)
    requires forall i :: 0 <= i < |ss| ==> UniqueKeys(ss[i])
    ensures Get(AssignEach(t, ss), k) == if LastSource(ss, k).Some? then LastSource(ss, k) else Get(t, k)
  {
    if ss != [] {
      var last := ss[|ss| - 1];
      AssignEachGet(t, ss[..|ss| - 1], k);
      AssignGet(AssignEach(t, ss[..|ss| - 1]), last, k);
      LastGetUnique(last, k);
    }
  }

  /** An entry that no later entry overrides is what its key reads last. */
  lemma {:induction false} LastGetAt<V>(s: Dict<V>, i: nat)
    requires i < |s| && forall j :: i < j < |s| ==> s[j].0 != s[i].0
    ensures LastGet(s, s[i].0) == Some(s[i].1)
  {
    if i < |s| - 1 {
      var s' := s[..|s| - 1];
      assert s'[i] == s[i];
      LastGetAt(s', i);
    }
  }
}
