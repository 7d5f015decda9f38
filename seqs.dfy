/** Generic sequence operations: filtering by index, stable sorting, Python slicing. */
module Seqs {

  /** The indices of the elements of `s` that satisfy `keep`, in increasing order. */
  function Positions<T>(s: seq<T>, keep: T -> bool): (ks: seq<nat>)
    ensures |ks| <= |s|
    ensures forall j :: 0 <= j < |ks| ==> ks[j] < |s| && keep(s[ks[j]])
    ensures forall j, j' :: 0 <= j < j' < |ks| ==> ks[j] < ks[j']
  {
    if s == [] then []
    else
      var front := Positions(s[..|s| - 1], keep);
      if keep(s[|s| - 1]) then front + [|s| - 1] else front
  }

  /** Positions of a prefix grow by one index exactly when the next element is kept. */
  lemma PositionsStep<T>(s: seq<T>, keep: T -> bool, i: nat)
    requires i < |s|
    ensures Positions(s[..i + 1], keep) ==
      Positions(s[..i], keep) + (if keep(s[i]) then [i] else [])
  {
    assert s[..i + 1][..i] == s[..i];
  }

  /** Every kept index is listed: `Positions` misses nothing. */
  lemma {:induction false} PositionsComplete<T>(s: seq<T>, keep: T -> bool, k: nat)
    requires k < |s| && keep(s[k])
    ensures k in Positions(s, keep)
  {
    if k < |s| - 1 {
      PositionsComplete(s[..|s| - 1], keep, k);
    }
  }

  /** `x` goes before the first element whose key is not larger: equal keys keep `x` first. */
  function InsertDesc<T>(x: T, s: seq<T>, key: T -> int): (r: seq<T>)
    ensures |r| == |s| + 1
  {
    if s == [] || key(x) >= key(s[0]) then [x] + s else [s[0]] + InsertDesc(x, s[1..], key)
  }

  /** Python's `sorted(s, key=key, reverse=True)`: descending by key, stable. */
  function SortDesc<T>(s: seq<T>, key: T -> int): (r: seq<T>)
    ensures |r| == |s|
  {
    if s == [] then [] else InsertDesc(s[0], SortDesc(s[1..], key), key)
  }

  ghost predicate NonIncreasing<T>(s: seq<T>, key: T -> int) {
    forall i, j :: 0 <= i < j < |s| ==> key(s[i]) >= key(s[j])
  }

  /** The elements of `s` whose key is `k`, in their order in `s`. */
  function WithKey<T>(s: seq<T>, key: T -> int, k: int): seq<T> {
    if s == [] then [] else (if key(s[0]) == k then [s[0]] else []) + WithKey(s[1..], key, k)
  }

  lemma {:induction false} InsertDescSorted<T>(x: T, s: seq<T>, key: T -> int)
    requires NonIncreasing(s, key)
    ensures NonIncreasing(InsertDesc(x, s, key), key)
    ensures InsertDesc(x, s, key)[0] == x || (s != [] && InsertDesc(x, s, key)[0] == s[0])
  {
    if s != [] && key(x) < key(s[0]) {
      InsertDescSorted(x, s[1..], key);
    }
  }

  lemma {:induction false} InsertDescMultiset<T>(x: T, s: seq<T>, key: T -> int)
    ensures multiset(InsertDesc(x, s, key)) == multiset([x] + s)
  {
    if s != [] && key(x) < key(s[0]) {
      InsertDescMultiset(x, s[1..], key);
      assert s == [s[0]] + s[1..];
    }
  }

  /** Inserting never moves `x` past an element with its own key, so each key class keeps its order. */
  lemma {:induction false} InsertDescWithKey<T>(x: T, s: seq<T>, key: T -> int, k: int)
    ensures WithKey(InsertDesc(x, s, key), key, k) == WithKey([x] + s, key, k)
  {
    if s == [] || key(x) >= key(s[0]) {
      assert ([x] + s)[1..] == s;
    } else {
      InsertDescWithKey(x, s[1..], key, k);
      var r := InsertDesc(x, s[1..], key);
      assert ([s[0]] + r)[1..] == r;
      assert ([x] + s[1..])[1..] == s[1..];
      assert ([x] + s)[1..] == s;
    }
  }

  /** `SortDesc` orders by key, descending; it is a permutation; and it is stable: for each
      key value the elements carrying it appear in their input order. */
  lemma {:induction false} SortDescSpec<T>(s: seq<T>, key: T -> int)
    ensures NonIncreasing(SortDesc(s, key), key)
    ensures multiset(SortDesc(s, key)) == multiset(s)
    ensures forall k :: WithKey(SortDesc(s, key), key, k) == WithKey(s, key, k)
  {
    if s != [] {
      SortDescSpec(s[1..], key);
      var t := SortDesc(s[1..], key);
      InsertDescSorted(s[0], t, key);
      InsertDescMultiset(s[0], t, key);
      assert s == [s[0]] + s[1..];
      forall k ensures WithKey(SortDesc(s, key), key, k) == WithKey(s, key, k) {
        InsertDescWithKey(s[0], t, key, k);
        assert ([s[0]] + t)[1..] == t;
      }
    }
  }

  /** Python's `s[:n]`, negative `n` counting from the end. */
  function SliceTo<T>(s: seq<T>, n: int): (r: seq<T>)
    ensures |r| <= |s| && r == s[..|r|]
    ensures n >= 0 ==> |r| == if n < |s| then n else |s|
    ensures n < 0 ==> |r| == if |s| + n > 0 then |s| + n else 0
  {
    if n >= 0 then (if n < |s| then s[..n] else s)
    else (if |s| + n > 0 then s[..|s| + n] else [])
  }

  /** `seq(n, _ => x)`, zero copies for a non-positive `n`. */
  function Fill<T>(x: T, n: int): (r: seq<T>)
    ensures |r| == if n > 0 then n else 0
    ensures forall i :: 0 <= i < |r| ==> r[i] == x
  {
    if n <= 0 then [] else [x] + Fill(x, n - 1)
  }

  /** `[f(k + 1, s[k]) for k in ks]`: each selected element with its 1-based position in `s`. */
  function Numbered<T, U>(s: seq<T>, ks: seq<nat>, f: (nat, T) -> U): (r: seq<U>)
    requires forall j :: 0 <= j < |ks| ==> ks[j] < |s|
    ensures |r| == |ks|
    ensures forall j :: 0 <= j < |ks| ==> r[j] == f(ks[j] + 1, s[ks[j]])
  {
    seq(|ks|, j requires 0 <= j < |ks| => f(ks[j] + 1, s[ks[j]]))
  }

  /** Selecting one more index adds its element at the end. */
  lemma NumberedSnoc<T, U>(s: seq<T>, ks: seq<nat>, f: (nat, T) -> U, k: nat)
    requires forall j :: 0 <= j < |ks| ==> ks[j] < |s|
    requires k < |s|
    ensures Numbered(s, ks + [k], f) == Numbered(s, ks, f) + [f(k + 1, s[k])]
  {
    var l := Numbered(s, ks + [k], f);
    var r := Numbered(s, ks, f) + [f(k + 1, s[k])];
    forall j | 0 <= j < |l| ensures l[j] == r[j] {
      assert (ks + [k])[j] == if j < |ks| then ks[j] else k;
    }
  }

  /** Rendering the kept elements of a prefix one element further adds that element's
      rendering exactly when it is kept. */
  lemma NumberedStep<T, U>(s: seq<T>, keep: T -> bool, f: (nat, T) -> U, i: nat)
    requires i < |s|
    ensures Numbered(s, Positions(s[..i + 1], keep), f)
         == Numbered(s, Positions(s[..i], keep), f) + (if keep(s[i]) then [f(i + 1, s[i])] else [])
  {
    PositionsStep(s, keep, i);
    if keep(s[i]) {
      NumberedSnoc(s, Positions(s[..i], keep), f, i);
    }
  }

  /** `[f(s[k]) for k in ks]`. */
  function Pick<T, U>(s: seq<T>, ks: seq<nat>, f: T -> U): (r: seq<U>)
    requires forall j :: 0 <= j < |ks| ==> ks[j] < |s|
    ensures |r| == |ks|
    ensures forall j :: 0 <= j < |ks| ==> r[j] == f(s[ks[j]])
  {
    seq(|ks|, j requires 0 <= j < |ks| => f(s[ks[j]]))
  }

  /** Mapping the kept elements of a prefix one element further adds that element's image
      exactly when it is kept. */
  lemma PickStep<T, U>(s: seq<T>, keep: T -> bool, f: T -> U, i: nat)
    requires i < |s|
    ensures Pick(s, Positions(s[..i + 1], keep), f)
         == Pick(s, Positions(s[..i], keep), f) + (if keep(s[i]) then [f(s[i])] else [])
  {
    PositionsStep(s, keep, i);
    var ks := Positions(s[..i], keep);
    if keep(s[i]) {
      var l := Pick(s, ks + [i], f);
      var r := Pick(s, ks, f) + [f(s[i])];
      forall j | 0 <= j < |l| ensures l[j] == r[j] {
        assert (ks + [i])[j] == if j < |ks| then ks[j] else i;
      }
    }
  }
}
