/**
  The two list operations both components lean on: Python's `list.sort` with a key, and
  the "keep the first item of each key" loop written around a `seen` set.
*/
module Sequences {
  import opened Wrappers

  // ---------------------------------------------------------------- sorting

  /**
    `le` orders every pair and is transitive: what `key(a) <= key(b)` gives for the keys
    Python compares here (dates, tuples, strings, numbers), and also `key(b) <= key(a)`,
    the comparison `reverse=True` sorts by.
  */
  ghost predicate TotalPreorder<T(!new)>(le: (T, T) -> bool)
  {
    (forall x, y :: le(x, y) || le(y, x)) &&
    (forall x, y, z :: le(x, y) && le(y, z) ==> le(x, z))
  }

  /** Every element of `s` is `le`-below every later one. */
  ghost predicate SortedBy<T>(s: seq<T>, le: (T, T) -> bool)
  {
    forall i, j :: 0 <= i < j < |s| ==> le(s[i], s[j])
  }

  /** `x` put before the first element of `s` it is `le`-below, so before its equals. */
  function Insert<T(!new)>(x: T, s: seq<T>, le: (T, T) -> bool): (r: seq<T>)
    requires TotalPreorder(le) && SortedBy(s, le)
    ensures SortedBy(r, le)
    ensures multiset(r) == multiset(s) + multiset{x}
  {
    if s == [] then [x]
    else if le(x, s[0]) then [x] + s
    else
      var rest := Insert(x, s[1..], le);
      assert s == [s[0]] + s[1..];
      assert forall k :: 0 <= k < |rest| ==> le(s[0], rest[k]) by {
        forall k | 0 <= k < |rest| ensures le(s[0], rest[k]) {
          assert rest[k] in multiset(rest);
          assert rest[k] in multiset(s[1..]) || rest[k] == x;
        }
      }
      [s[0]] + rest
  }

  /**
    Python's stable `sort`: the result is ordered by `le` and holds the same elements, each
    as often. Equal elements keep their order of `s`.
  */
  function SortBy<T(!new)>(s: seq<T>, le: (T, T) -> bool): (r: seq<T>)
    requires TotalPreorder(le)
    ensures SortedBy(r, le)
    ensures multiset(r) == multiset(s)
    ensures |r| == |s|
  {
    if s == [] then []
    else
      assert s == [s[0]] + s[1..];
      var r := Insert(s[0], SortBy(s[1..], le), le);
      assert |r| == |multiset(r)| == |multiset(s)| == |s|;
      r
  }

  /** Sorting what is already sorted changes nothing: the sort is stable. */
  lemma {:induction false} SortBySorted<T(!new)>(s: seq<T>, le: (T, T) -> bool)
    requires TotalPreorder(le) && SortedBy(s, le)
    ensures SortBy(s, le) == s
  {
    if s != [] {
      assert SortedBy(s[1..], le);
      SortBySorted(s[1..], le);
      assert s == [s[0]] + s[1..];
    }
  }

  /** The elements `le` cannot tell apart from `p`: those below it and above it. */
  function Ties<T>(le: (T, T) -> bool, p: T): T -> bool
  {
    x => le(x, p) && le(p, x)
  }

  /**
    Inserting `x` puts it after every element of `s` it ties with: among the ties of any
    `p`, `x` comes last if it is one of them, and the others keep their order.
  */
  lemma {:induction false} InsertStable<T(!new)>(x: T, s: seq<T>, le: (T, T) -> bool, p: T)
    requires TotalPreorder(le) && SortedBy(s, le)
    ensures Filter(Insert(x, s, le), Ties(le, p)) == (if Ties(le, p)(x) then [x] else []) + Filter(s, Ties(le, p))
    decreases |s|, 1
  {
    if s == [] {
      FilterCons(x, [], Ties(le, p));
      assert [x] + [] == [x];
    } else if le(x, s[0]) {
      FilterCons(x, s, Ties(le, p));
    } else {
      InsertStablePast(x, s, le, p);
    }
  }

  /** The case where `x` goes after the first element of `s`. */
  lemma {:induction false} InsertStablePast<T(!new)>(x: T, s: seq<T>, le: (T, T) -> bool, p: T)
    requires TotalPreorder(le) && SortedBy(s, le) && s != [] && !le(x, s[0])
    ensures Filter(Insert(x, s, le), Ties(le, p)) == (if Ties(le, p)(x) then [x] else []) + Filter(s, Ties(le, p))
    decreases |s|, 0
  {
    var rest := Insert(x, s[1..], le);
    assert Insert(x, s, le) == [s[0]] + rest;
    assert SortedBy(s[1..], le);
    InsertStable(x, s[1..], le, p);
    assert s == [s[0]] + s[1..];
    TiesOrdered(le, p, x, s[0]);
    PassOver(x, s[0], rest, s[1..], Ties(le, p));
  }

  /**
    `y` placed in front of both lists changes nothing between them, provided `x` and `y` are
    not both kept.
  */
  lemma PassOver<T>(x: T, y: T, rest: seq<T>, tail: seq<T>, keep: T -> bool)
    requires Filter(rest, keep) == (if keep(x) then [x] else []) + Filter(tail, keep)
    requires !(keep(x) && keep(y))
    ensures Filter([y] + rest, keep) == (if keep(x) then [x] else []) + Filter([y] + tail, keep)
  {
    FilterCons(y, rest, keep);
    FilterCons(y, tail, keep);
    SwapAroundEmpty((if keep(y) then [y] else []), (if keep(x) then [x] else []), Filter(tail, keep));
  }

  /** Two prefixes, one of them empty, can be put in either order. */
  lemma SwapAroundEmpty<T>(a: seq<T>, b: seq<T>, f: seq<T>)
    requires a == [] || b == []
    ensures a + (b + f) == b + (a + f)
  {
    if a == [] {
      assert a + (b + f) == b + f && a + f == f;
    } else {
      assert b + f == f && b + (a + f) == a + f;
    }
  }

  /** Two elements tied with `p` are ordered both ways. */
  lemma TiesOrdered<T(!new)>(le: (T, T) -> bool, p: T, x: T, y: T)
    requires TotalPreorder(le)
    ensures Ties(le, p)(x) && Ties(le, p)(y) ==> le(x, y)
  {
  }

  /**
    The sort is stable: the elements tied with any `p` come out in the order they had in
    `s`, as Python's `list.sort` guarantees.
  */
  lemma {:induction false} SortByStable<T(!new)>(s: seq<T>, le: (T, T) -> bool, p: T)
    requires TotalPreorder(le)
    ensures Filter(SortBy(s, le), Ties(le, p)) == Filter(s, Ties(le, p))
  {
    if s != [] {
      SortByStable(s[1..], le, p);
      InsertStable(s[0], SortBy(s[1..], le), le, p);
      assert s == [s[0]] + s[1..];
      InFront(s[0], SortBy(s, le), SortBy(s[1..], le), s[1..], Ties(le, p));
    }
  }

  /** What holds the kept elements of `tail` after `x`'s holds those of `[x] + tail`. */
  lemma InFront<T>(x: T, r: seq<T>, sorted: seq<T>, tail: seq<T>, keep: T -> bool)
    requires Filter(r, keep) == (if keep(x) then [x] else []) + Filter(sorted, keep)
    requires Filter(sorted, keep) == Filter(tail, keep)
    ensures Filter(r, keep) == Filter([x] + tail, keep)
  {
    FilterCons(x, tail, keep);
  }

  // ---------------------------------------------------------------- keeping first occurrences

  /** The keys of the elements of `s`. */
  function KeysOf<T(==), K(==)>(s: seq<T>, key: T -> K): set<K>
  {
    set x | x in s :: key(x)
  }

  /** `s[i]` is the first element of `s` with its key. */
  predicate IsFirst<T(==), K(==)>(s: seq<T>, i: nat, key: T -> K)
    requires i < |s|
  {
    key(s[i]) !in KeysOf(s[..i], key)
  }

  /** The elements of `s` whose key no earlier element has, in the order of `s`. */
  function Dedup<T(==), K(==)>(s: seq<T>, key: T -> K): seq<T>
  {
    if s == [] then []
    else
      var init := s[..|s| - 1];
      if key(s[|s| - 1]) in KeysOf(init, key) then Dedup(init, key) else Dedup(init, key) + [s[|s| - 1]]
  }

  /** No two elements of `s` have the same key. */
  predicate UniqueKeys<T(==), K(==)>(s: seq<T>, key: T -> K)
  {
    forall i, j :: 0 <= i < j < |s| ==> key(s[i]) != key(s[j])
  }

  /**
    The loop `for x in s: if key(x) not in seen: out.append(x); seen.add(key(x))`.
  */
  method KeepFirst<T(==), K(==)>(s: seq<T>, key: T -> K) returns (r: seq<T>)
    ensures r == Dedup(s, key)
  {
    r := [];
    var seen: set<K> := {};
    var i := 0;
    while i < |s|
      invariant 0 <= i <= |s|
      invariant r == Dedup(s[..i], key)
      invariant seen == KeysOf(s[..i], key)
    {
      assert s[..i + 1][..i] == s[..i];
      assert s[..i + 1] == s[..i] + [s[i]];
      if key(s[i]) !in seen {
        r := r + [s[i]];
        seen := seen + {key(s[i])};
      }
      i := i + 1;
    }
    assert s[..|s|] == s;
  }

  lemma KeysOfSnoc<T, K>(s: seq<T>, x: T, key: T -> K)
    ensures KeysOf(s + [x], key) == KeysOf(s, key) + {key(x)}
  {
    assert forall y :: y in s + [x] <==> y in s || y == x;
  }

  /** Keeping first occurrences leaves no two elements with the same key, and loses no key. */
  lemma {:induction false} DedupKeys<T, K>(s: seq<T>, key: T -> K)
    ensures UniqueKeys(Dedup(s, key), key)
    ensures KeysOf(Dedup(s, key), key) == KeysOf(s, key)
    ensures forall x :: x in Dedup(s, key) ==> x in s
  {
    if s != [] {
      var init := s[..|s| - 1];
      assert s == init + [s[|s| - 1]];
      DedupKeys(init, key);
      KeysOfSnoc(init, s[|s| - 1], key);
      if key(s[|s| - 1]) !in KeysOf(init, key) {
        KeysOfSnoc(Dedup(init, key), s[|s| - 1], key);
        var d := Dedup(init, key);
        forall i | 0 <= i < |d| ensures key(d[i]) != key(s[|s| - 1]) {
          assert key(d[i]) in KeysOf(d, key);
        }
      }
    }
  }

  /** The element kept for each key is the first element of `s` with that key. */
  lemma {:induction false} DedupKeepsFirst<T, K>(s: seq<T>, key: T -> K, i: nat)
    requires i < |s| && IsFirst(s, i, key)
    ensures s[i] in Dedup(s, key)
  {
    var init := s[..|s| - 1];
    if i < |s| - 1 {
      assert init[..i] == s[..i];
      DedupKeepsFirst(init, key, i);
    } else {
      assert init == s[..i];
    }
  }

  /** Every kept element is the first of its key in `s`. */
  lemma {:induction false} DedupOnlyFirsts<T, K>(s: seq<T>, key: T -> K, x: T)
    requires x in Dedup(s, key)
    ensures exists i :: 0 <= i < |s| && s[i] == x && IsFirst(s, i, key)
  {
    var init := s[..|s| - 1];
    if x in Dedup(init, key) {
      DedupOnlyFirsts(init, key, x);
      var i :| 0 <= i < |init| && init[i] == x && IsFirst(init, i, key);
      assert init[..i] == s[..i];
      assert IsFirst(s, i, key);
    } else {
      assert x == s[|s| - 1] && init == s[..|s| - 1];
      assert IsFirst(s, |s| - 1, key);
    }
  }

  /** A list whose keys are already unique is left as it is. */
  lemma {:induction false} DedupOfUnique<T, K>(s: seq<T>, key: T -> K)
    requires UniqueKeys(s, key)
    ensures Dedup(s, key) == s
  {
    if s != [] {
      var init := s[..|s| - 1];
      assert UniqueKeys(init, key);
      DedupOfUnique(init, key);
      forall y | y in init ensures key(y) != key(s[|s| - 1]) {
        var j :| 0 <= j < |init| && init[j] == y;
        assert key(s[j]) != key(s[|s| - 1]);
      }
      assert s == init + [s[|s| - 1]];
    }
  }

  /** Reordering a list whose keys are unique keeps them unique. */
  lemma {:induction false} UniqueKeysPermutation<T, K>(s: seq<T>, t: seq<T>, key: T -> K)
    requires UniqueKeys(s, key) && multiset(s) == multiset(t)
    ensures UniqueKeys(t, key)
    decreases |t|
  {
    if t != [] {
      var n := |t| - 1;
      var s' := RemoveLast(s, t, key);
      UniqueKeysPermutation(s', t[..n], key);
      assert t == t[..n] + [t[n]];
      UniqueKeysSnoc(t[..n], t[n], key);
    }
  }

  /**
    Taking the last element of `t` out of `s` leaves a list with unique keys holding the rest
    of `t`, none of which shares that element's key.
  */
  lemma RemoveLast<T, K>(s: seq<T>, t: seq<T>, key: T -> K) returns (s': seq<T>)
    requires UniqueKeys(s, key) && multiset(s) == multiset(t) && t != []
    ensures UniqueKeys(s', key) && multiset(s') == multiset(t[..|t| - 1])
    ensures forall y :: y in t[..|t| - 1] ==> key(y) != key(t[|t| - 1])
  {
    var n := |t| - 1;
    var x := t[n];
    assert x in multiset(s);
    var p :| 0 <= p < |s| && s[p] == x;
    s' := s[..p] + s[p + 1..];
    MultisetRemove(s, p);
    MultisetRemove(t, n);
    assert t[..n] + t[n + 1..] == t[..n];
    UniqueKeysRemove(s, p, key);
    forall y | y in t[..n] ensures key(y) != key(x) {
      assert y in multiset(s');
    }
  }

  /** Appending an element whose key is new keeps keys unique. */
  lemma UniqueKeysSnoc<T, K>(s: seq<T>, x: T, key: T -> K)
    requires UniqueKeys(s, key) && forall y :: y in s ==> key(y) != key(x)
    ensures UniqueKeys(s + [x], key)
  {
    forall i, j | 0 <= i < j < |s| + 1 ensures key((s + [x])[i]) != key((s + [x])[j]) {
      if j == |s| {
        assert s[i] in s;
      }
    }
  }

  lemma MultisetRemove<T>(s: seq<T>, p: nat)
    requires p < |s|
    ensures multiset(s[..p] + s[p + 1..]) == multiset(s) - multiset{s[p]}
  {
    assert s == s[..p] + [s[p]] + s[p + 1..];
  }

  /** Removing one element keeps keys unique, and no element left has its key. */
  lemma UniqueKeysRemove<T, K>(s: seq<T>, p: nat, key: T -> K)
    requires p < |s| && UniqueKeys(s, key)
    ensures UniqueKeys(s[..p] + s[p + 1..], key)
    ensures forall y :: y in s[..p] + s[p + 1..] ==> key(y) != key(s[p])
  {
    var s' := s[..p] + s[p + 1..];
    forall i | 0 <= i < |s'| ensures s'[i] == s[if i < p then i else i + 1] { }
    forall y | y in s' ensures key(y) != key(s[p]) {
      var q :| 0 <= q < |s'| && s'[q] == y;
    }
  }

  /** A list with elements keeps at least one. */
  lemma DedupNonEmpty<T, K>(s: seq<T>, key: T -> K)
    requires s != []
    ensures Dedup(s, key) != []
  {
    DedupKeys(s, key);
    assert key(s[0]) in KeysOf(s, key);
  }

  /** Keeping first occurrences twice is keeping them once. */
  lemma DedupIdempotent<T, K>(s: seq<T>, key: T -> K)
    ensures Dedup(Dedup(s, key), key) == Dedup(s, key)
  {
    DedupKeys(s, key);
    DedupOfUnique(Dedup(s, key), key);
  }

  // ---------------------------------------------------------------- keeping last occurrences

  /**
    The dictionary the loop `for x in s: if key(x) is not None: d[key(x)] = val(x)` builds:
    elements without a key are skipped, and the last element of each key wins.
  */
  function LastByKey<T, K, V>(s: seq<T>, key: T -> Option<K>, val: T -> V): map<K, V>
  {
    if s == [] then map[]
    else
      var m := LastByKey(s[..|s| - 1], key, val);
      var x := s[|s| - 1];
      if key(x).Some? then m[key(x).value := val(x)] else m
  }

  /** The keys of the dictionary are exactly the keys of the elements. */
  lemma {:induction false} LastByKeyKeys<T, K, V>(s: seq<T>, key: T -> Option<K>, val: T -> V, k: K)
    ensures k in LastByKey(s, key, val) <==> exists i :: 0 <= i < |s| && key(s[i]) == Some(k)
  {
    if s != [] {
      var n := |s| - 1;
      LastByKeyKeys(s[..n], key, val, k);
      if exists i :: 0 <= i < n && key(s[..n][i]) == Some(k) {
        var i :| 0 <= i < n && key(s[..n][i]) == Some(k);
        assert key(s[i]) == Some(k);
      }
      if exists i :: 0 <= i < |s| && key(s[i]) == Some(k) {
        var i :| 0 <= i < |s| && key(s[i]) == Some(k);
        if i < n {
          assert key(s[..n][i]) == Some(k);
        }
      }
    }
  }

  /** The value of a key is the one of the last element with that key. */
  lemma {:induction false} LastByKeyLast<T, K, V>(s: seq<T>, key: T -> Option<K>, val: T -> V, k: K)
    requires k in LastByKey(s, key, val)
    ensures exists i :: 0 <= i < |s| && key(s[i]) == Some(k) && LastByKey(s, key, val)[k] == val(s[i])
                        && forall j :: i < j < |s| ==> key(s[j]) != Some(k)
  {
    var n := |s| - 1;
    var init := s[..n];
    if key(s[n]) == Some(k) {
      assert LastByKey(s, key, val)[k] == val(s[n]);
    } else {
      LastByKeyLast(init, key, val, k);
      var i :| 0 <= i < n && key(init[i]) == Some(k) && LastByKey(init, key, val)[k] == val(init[i])
                && forall j :: i < j < n ==> key(init[j]) != Some(k);
      assert init[i] == s[i];
      assert forall j :: i < j < n ==> init[j] == s[j];
    }
  }

  // ---------------------------------------------------------------- grouping

  /** The values paired with `k` in `es`, in their order. */
  function ValuesFor<K(==), V>(es: seq<(K, V)>, k: K): seq<V>
  {
    if es == [] then []
    else
      var prev := ValuesFor(es[..|es| - 1], k);
      if es[|es| - 1].0 == k then prev + [es[|es| - 1].1] else prev
  }

  function KeysOfPairs<K(==), V(==)>(es: seq<(K, V)>): set<K>
  {
    set e | e in es :: e.0
  }

  /**
    The dictionary the loop `for k, v in es: d.setdefault(k, []).append(v)` builds: every
    key's values in their order.
  */
  function Group<K(==), V(==)>(es: seq<(K, V)>): map<K, seq<V>>
  {
    map k | k in KeysOfPairs(es) :: ValuesFor(es, k)
  }

  /** Adding a pair appends its value to its key's list and leaves the other keys alone. */
  lemma GroupSnoc<K, V>(es: seq<(K, V)>, k: K, v: V)
    ensures Group(es + [(k, v)]) == Group(es)[k := (if k in Group(es) then Group(es)[k] else []) + [v]]
  {
    var es' := es + [(k, v)];
    assert es'[..|es'| - 1] == es;
    assert KeysOfPairs(es') == KeysOfPairs(es) + {k} by {
      assert forall e :: e in es' <==> e in es || e == (k, v);
    }
    forall d | d in KeysOfPairs(es) && d != k ensures ValuesFor(es', d) == ValuesFor(es, d) {
    }
    if k !in KeysOfPairs(es) {
      ValuesForAbsent(es, k);
    }
  }

  lemma {:induction false} ValuesForAbsent<K, V>(es: seq<(K, V)>, k: K)
    requires k !in KeysOfPairs(es)
    ensures ValuesFor(es, k) == []
  {
    if es != [] {
      var init := es[..|es| - 1];
      assert KeysOfPairs(init) <= KeysOfPairs(es) by {
        forall e | e in init ensures e in es { }
      }
      assert es[|es| - 1] in es;
      ValuesForAbsent(init, k);
    }
  }

  /** The lists of `ss` one after the other. */
  function Flatten<T>(ss: seq<seq<T>>): seq<T>
  {
    if ss == [] then [] else Flatten(ss[..|ss| - 1]) + ss[|ss| - 1]
  }

  lemma FlattenSnoc<T>(ss: seq<seq<T>>, s: seq<T>)
    ensures Flatten(ss + [s]) == Flatten(ss) + s
  {
    assert (ss + [s])[..|ss|] == ss;
  }

  lemma KeysOfPairsSnoc<K, V>(es: seq<(K, V)>, e: (K, V))
    ensures KeysOfPairs(es + [e]) == KeysOfPairs(es) + {e.0}
  {
    assert forall x :: x in es + [e] <==> x in es || x == e;
  }

  // ---------------------------------------------------------------- filtering

  /** The elements of `s` that `keep` accepts, in order: a loop appending those that pass. */
  function Filter<T>(s: seq<T>, keep: T -> bool): (r: seq<T>)
    ensures |r| <= |s|
  {
    if s == [] then []
    else Filter(s[..|s| - 1], keep) + (if keep(s[|s| - 1]) then [s[|s| - 1]] else [])
  }

  /** What the filter keeps is exactly what `keep` accepts. */
  lemma {:induction false} FilterMembers<T>(s: seq<T>, keep: T -> bool)
    ensures forall x :: x in Filter(s, keep) <==> x in s && keep(x)
  {
    if s != [] {
      var init := s[..|s| - 1];
      FilterMembers(init, keep);
      assert s == init + [s[|s| - 1]];
    }
  }

  /** Filtering a list with one more element in front. */
  lemma {:induction false} FilterCons<T>(x: T, s: seq<T>, keep: T -> bool)
    ensures Filter([x] + s, keep) == (if keep(x) then [x] else []) + Filter(s, keep)
    decreases |s|
  {
    if s == [] {
      assert ([x] + s)[..0] == [];
    } else {
      var init := s[..|s| - 1];
      assert ([x] + s)[..|s|] == [x] + init;
      assert ([x] + s)[|s|] == s[|s| - 1];
      FilterCons(x, init, keep);
    }
  }

  // ---------------------------------------------------------------- first match

  /**
    The position of the first element of `s` satisfying `p`: the loop
    `for x in s: if p(x): return x` returns `s[i]` exactly when this is `Some(i)`.
  */
  function FirstIndex<T>(s: seq<T>, p: T -> bool): (r: Option<nat>)
    ensures r.Some? ==> r.value < |s| && p(s[r.value]) && forall j :: 0 <= j < r.value ==> !p(s[j])
    ensures r.None? ==> forall j :: 0 <= j < |s| ==> !p(s[j])
  {
    if s == [] then None
    else if p(s[0]) then Some(0)
    else
      match FirstIndex(s[1..], p)
      case None => None
      case Some(i) => Some(i + 1)
  }

  // ---------------------------------------------------------------- collecting results

  /** The values of the `Some` entries of `rs`, in order: a loop appending what succeeds. */
  function Present<T>(rs: seq<Option<T>>): (r: seq<T>)
    ensures |r| <= |rs|
  {
    if rs == [] then []
    else
      var prev := Present(rs[..|rs| - 1]);
      if rs[|rs| - 1].Some? then prev + [rs[|rs| - 1].value] else prev
  }

  /** Every `Some` entry has its value collected. */
  lemma {:induction false} PresentKeeps<T>(rs: seq<Option<T>>, k: nat)
    requires k < |rs| && rs[k].Some?
    ensures rs[k].value in Present(rs)
  {
    var init := rs[..|rs| - 1];
    if k < |rs| - 1 {
      PresentKeeps(init, k);
    }
  }

  /** Every collected value comes from a `Some` entry. */
  lemma {:induction false} PresentFrom<T>(rs: seq<Option<T>>, x: T)
    requires x in Present(rs)
    ensures exists k :: 0 <= k < |rs| && rs[k] == Some(x)
  {
    var init := rs[..|rs| - 1];
    if x in Present(init) {
      PresentFrom(init, x);
      var k :| 0 <= k < |init| && init[k] == Some(x);
      assert rs[k] == Some(x);
    } else {
      assert rs[|rs| - 1] == Some(x);
    }
  }

  // ---------------------------------------------------------------- counting

  /** How often each value occurs in `s`: `pandas.Series(s).value_counts()` as a map. */
  function Counts<T(==,!new)>(s: seq<T>): (m: map<T, nat>)
    ensures forall x :: x in m <==> x in s
    ensures forall x :: x in m ==> m[x] == multiset(s)[x] && m[x] >= 1
  {
    if s == [] then map[]
    else
      var last := s[|s| - 1];
      var init := s[..|s| - 1];
      assert s == init + [last];
      var m := Counts(init);
      m[last := if last in m then m[last] + 1 else 1]
  }

  /** Every element converted by `f`, in order; `None` as soon as one cannot be. */
  function AllSome<T, U>(s: seq<T>, f: T -> Option<U>): Option<seq<U>>
  {
    if s == [] then Some([])
    else
      match (AllSome(s[..|s| - 1], f), f(s[|s| - 1]))
      case (Some(us), Some(u)) => Some(us + [u])
      case _ => None
  }

  /** One more element: a failure fails the prefix, a success extends its result. */
  lemma AllSomeSnoc<T, U>(s: seq<T>, f: T -> Option<U>, i: nat)
    requires i < |s|
    ensures f(s[i]).None? ==> AllSome(s[..i + 1], f).None?
    ensures AllSome(s[..i], f).Some? && f(s[i]).Some? ==>
      AllSome(s[..i + 1], f) == Some(AllSome(s[..i], f).value + [f(s[i]).value])
  {
    assert s[..i + 1][..i] == s[..i];
  }

  /** A prefix that cannot be converted makes the whole sequence fail. */
  lemma {:induction false} AllSomeFailurePersists<T, U>(s: seq<T>, f: T -> Option<U>, i: nat)
    requires i <= |s| && AllSome(s[..i], f).None?
    ensures AllSome(s, f).None?
    decreases |s| - i
  {
    if i < |s| {
      assert s[..i + 1][..i] == s[..i];
      AllSomeFailurePersists(s, f, i + 1);
    } else {
      assert s[..i] == s;
    }
  }

  /** The conversion succeeds exactly when every element converts, and then keeps each value in place. */
  lemma {:induction false} AllSomeValues<T, U>(s: seq<T>, f: T -> Option<U>)
    ensures AllSome(s, f).Some? <==> forall i :: 0 <= i < |s| ==> f(s[i]).Some?
    ensures AllSome(s, f).Some? ==>
      |AllSome(s, f).value| == |s| && forall i :: 0 <= i < |s| ==> AllSome(s, f).value[i] == f(s[i]).value
  {
    if s != [] {
      var n := |s| - 1;
      AllSomeValues(s[..n], f);
      assert forall i :: 0 <= i < n ==> s[..n][i] == s[i];
    }
  }
}
