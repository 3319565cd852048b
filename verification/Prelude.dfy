/** Orders, stable sorting and insertion-ordered grouping shared by the model. */
module Prelude {

  datatype Option<+T> = None | Some(value: T)

  // ------------------------------------------------------------------ orders

  ghost predicate Preorder<T(!new)>(le: (T, T) -> bool) {
    && (forall x, y :: le(x, y) || le(y, x))
    && (forall x, y, z :: le(x, y) && le(y, z) ==> le(x, z))
  }

  ghost predicate TotalOrder<T(!new)>(le: (T, T) -> bool) {
    Preorder(le) && forall x, y :: le(x, y) && le(y, x) ==> x == y
  }

  /** Lexicographic comparison of two sequences, a proper prefix first: how
      Python compares strings, tuples of one type and lists. */
  predicate SeqLe<T(==)>(le: (T, T) -> bool, a: seq<T>, b: seq<T>) {
    a == [] || (b != [] && if a[0] == b[0] then SeqLe(le, a[1..], b[1..]) else le(a[0], b[0]))
  }

  lemma {:induction false} SeqLeTotal<T(!new)>(le: (T, T) -> bool, a: seq<T>, b: seq<T>)
    requires TotalOrder(le)
    ensures SeqLe(le, a, b) || SeqLe(le, b, a)
    ensures SeqLe(le, a, b) && SeqLe(le, b, a) ==> a == b
  {
    if a != [] && b != [] && a[0] == b[0] {
      SeqLeTotal(le, a[1..], b[1..]);
      assert a == [a[0]] + a[1..] && b == [b[0]] + b[1..];
    }
  }

  lemma {:induction false} SeqLeTransitive<T(!new)>(le: (T, T) -> bool, a: seq<T>, b: seq<T>, c: seq<T>)
    requires TotalOrder(le)
    requires SeqLe(le, a, b) && SeqLe(le, b, c)
    ensures SeqLe(le, a, c)
  {
    if a != [] && a[0] == b[0] && b[0] == c[0] {
      SeqLeTransitive(le, a[1..], b[1..], c[1..]);
    }
  }

  /** Appending keeps the comparison of two sequences of one length. */
  lemma {:induction false} SeqLeAppend<T(!new)>(le: (T, T) -> bool, a: seq<T>, b: seq<T>, x: T, y: T)
    requires TotalOrder(le) && |a| == |b| && SeqLe(le, a, b)
    requires a == b ==> le(x, y)
    ensures SeqLe(le, a + [x], b + [y])
  {
    if a != [] {
      assert (a + [x])[1..] == a[1..] + [x] && (b + [y])[1..] == b[1..] + [y];
      if a[0] == b[0] {
        assert a[1..] == b[1..] ==> a == [a[0]] + a[1..] && b == [b[0]] + b[1..];
        SeqLeAppend(le, a[1..], b[1..], x, y);
      }
    }
  }

  predicate CharLe(a: char, b: char) { a <= b }

  predicate StrLe(a: string, b: string) { SeqLe(CharLe, a, b) }

  lemma StringOrder()
    ensures TotalOrder(CharLe)
    ensures TotalOrder(StrLe)
  {
    forall a: string, b: string {
      SeqLeTotal(CharLe, a, b);
    }
    forall a: string, b: string, c: string | StrLe(a, b) && StrLe(b, c) {
      SeqLeTransitive(CharLe, a, b, c);
    }
  }

  // ----------------------------------------------------------------- sorting

  ghost predicate SortedBy<T>(le: (T, T) -> bool, s: seq<T>) {
    forall i, j :: 0 <= i < j < |s| ==> le(s[i], s[j])
  }

  function Insert<T>(le: (T, T) -> bool, x: T, s: seq<T>): seq<T> {
    if s == [] || le(x, s[0]) then [x] + s else [s[0]] + Insert(le, x, s[1..])
  }

  /** Python's `sorted`: a stable sort. */
  function Sort<T>(le: (T, T) -> bool, s: seq<T>): (r: seq<T>)
    ensures |r| == |s|
  {
    if s == [] then [] else
      var rest := Sort(le, s[1..]);
      InsertLength(le, s[0], rest);
      Insert(le, s[0], rest)
  }

  lemma InsertLength<T>(le: (T, T) -> bool, x: T, s: seq<T>)
    ensures |Insert(le, x, s)| == |s| + 1
  {
  }

  lemma {:induction false} InsertMembers<T(!new)>(le: (T, T) -> bool, x: T, s: seq<T>)
    ensures multiset(Insert(le, x, s)) == multiset(s) + multiset{x}
    ensures forall y :: y in Insert(le, x, s) <==> y == x || y in s
  {
    if s != [] && !le(x, s[0]) {
      InsertMembers(le, x, s[1..]);
      assert s == [s[0]] + s[1..];
    }
  }

  lemma {:induction false} InsertSorted<T(!new)>(le: (T, T) -> bool, x: T, s: seq<T>)
    requires Preorder(le) && SortedBy(le, s)
    ensures SortedBy(le, Insert(le, x, s))
  {
    if s != [] && !le(x, s[0]) {
      InsertSorted(le, x, s[1..]);
      InsertMembers(le, x, s[1..]);
      HeadFirst(le, s);
      var r := Insert(le, x, s[1..]);
      forall j | 0 <= j < |r|
        ensures le(s[0], r[j])
      {
        assert r[j] in r;
      }
    }
  }

  lemma HeadFirst<T>(le: (T, T) -> bool, s: seq<T>)
    requires s != [] && SortedBy(le, s)
    ensures forall y :: y in s[1..] ==> le(s[0], y)
  {
    forall y | y in s[1..]
      ensures le(s[0], y)
    {
      var k :| 0 <= k < |s[1..]| && s[1..][k] == y;
      assert s[k + 1] == y;
    }
  }

  lemma {:induction false} SortCorrect<T(!new)>(le: (T, T) -> bool, s: seq<T>)
    requires Preorder(le)
    ensures SortedBy(le, Sort(le, s))
    ensures multiset(Sort(le, s)) == multiset(s)
  {
    if s != [] {
      SortCorrect(le, s[1..]);
      InsertSorted(le, s[0], Sort(le, s[1..]));
      InsertMembers(le, s[0], Sort(le, s[1..]));
      assert s == [s[0]] + s[1..];
    }
  }

  /** Ties come in the order `before`. */
  ghost predicate TiesKeep<T>(le: (T, T) -> bool, before: (T, T) -> bool, s: seq<T>) {
    forall i, j :: 0 <= i < j < |s| && le(s[j], s[i]) ==> before(s[i], s[j])
  }

  lemma {:induction false} InsertStable<T(!new)>(le: (T, T) -> bool, before: (T, T) -> bool, x: T, s: seq<T>)
    requires Preorder(le) && SortedBy(le, s) && TiesKeep(le, before, s)
    requires forall y :: y in s ==> before(x, y)
    ensures TiesKeep(le, before, Insert(le, x, s))
  {
    if s != [] && !le(x, s[0]) {
      InsertStable(le, before, x, s[1..]);
      InsertMembers(le, x, s[1..]);
      var r := Insert(le, x, s[1..]);
      forall j | 0 <= j < |r| && le(r[j], s[0])
        ensures before(s[0], r[j])
      {
        assert r[j] in r;
        var k :| 0 <= k < |s[1..]| && s[1..][k] == r[j];
        assert s[k + 1] == r[j];
      }
    }
  }

  /** Sorting is stable: elements the order does not tell apart stay in the order
      they came. */
  lemma {:induction false} SortStable<T(!new)>(le: (T, T) -> bool, before: (T, T) -> bool, s: seq<T>)
    requires Preorder(le)
    requires forall i, j :: 0 <= i < j < |s| ==> before(s[i], s[j])
    ensures TiesKeep(le, before, Sort(le, s))
  {
    if s != [] {
      SortStable(le, before, s[1..]);
      SortCorrect(le, s[1..]);
      var rest := Sort(le, s[1..]);
      forall y | y in rest
        ensures before(s[0], y)
      {
        assert y in multiset(rest) && y in multiset(s[1..]);
        var k :| 0 <= k < |s[1..]| && s[1..][k] == y;
        assert s[k + 1] == y;
      }
      InsertStable(le, before, s[0], rest);
    }
  }

  lemma SameElements<T>(a: seq<T>, b: seq<T>)
    requires multiset(a) == multiset(b)
    ensures |a| == |b|
    ensures forall x :: x in a <==> x in b
  {
    assert |multiset(a)| == |a| && |multiset(b)| == |b|;
    forall x
      ensures x in a <==> x in b
    {
      assert x in multiset(a) <==> x in multiset(b);
    }
  }

  /** The order of a stable sort, told by places. */
  ghost predicate StablyBefore<T>(le: (T, T) -> bool, s: seq<T>, i: nat, j: nat) {
    i < |s| && j < |s| && le(s[i], s[j]) && (le(s[j], s[i]) ==> i < j)
  }

  /** `places` says where each element of the sorted list stood before. */
  ghost predicate IsPlacing<T>(le: (T, T) -> bool, s: seq<T>, sorted: seq<T>, places: seq<nat>) {
    && |places| == |s| == |sorted|
    && (forall k :: 0 <= k < |places| ==> places[k] < |s| && sorted[k] == s[places[k]])
    && (forall i :: 0 <= i < |s| ==> i in places)
    && (forall k, l :: 0 <= k < l < |places| ==> StablyBefore(le, s, places[k], places[l]))
  }

  lemma {:induction false} InsertPlace<T(!new)>(le: (T, T) -> bool, x: T, s: seq<T>) returns (p: nat)
    requires Preorder(le) && SortedBy(le, s)
    ensures p <= |s| && Insert(le, x, s) == s[..p] + [x] + s[p..]
    ensures forall k :: 0 <= k < p ==> !le(x, s[k])
    ensures forall k :: p <= k < |s| ==> le(x, s[k])
  {
    if s == [] || le(x, s[0]) {
      p := 0;
    } else {
      var q := InsertPlace(le, x, s[1..]);
      p := q + 1;
      assert s[..p] == [s[0]] + s[1..][..q] && s[p..] == s[1..][q..];
      assert forall k :: 0 < k < |s| ==> s[k] == s[1..][k - 1];
    }
  }

  lemma {:induction false} SortPlaces<T(!new)>(le: (T, T) -> bool, s: seq<T>) returns (places: seq<nat>)
    requires Preorder(le)
    ensures IsPlacing(le, s, Sort(le, s), places)
  {
    places := [];
    if s != [] {
      var rest := SortPlaces(le, s[1..]);
      SortCorrect(le, s[1..]);
      var p := InsertPlace(le, s[0], Sort(le, s[1..]));
      places := PlaceIn(le, s, Sort(le, s[1..]), rest, p);
    }
  }

  /** The places once one more element is put first and sorted in at `p`. */
  function Shifted(rest: seq<nat>, p: nat): (places: seq<nat>)
    requires p <= |rest|
    ensures |places| == |rest| + 1
    ensures forall k :: 0 <= k < |places| ==> places[k] == if k < p then rest[k] + 1 else if k == p then 0 else rest[k - 1] + 1
  {
    seq(|rest| + 1, k requires 0 <= k <= |rest| => if k < p then rest[k] + 1 else if k == p then 0 else rest[k - 1] + 1)
  }

  lemma ShiftedAll(rest: seq<nat>, p: nat, n: nat)
    requires p <= |rest| && forall i :: 0 <= i < n ==> i in rest
    ensures forall i :: 0 <= i <= n ==> i in Shifted(rest, p)
  {
    var places := Shifted(rest, p);
    forall i | 0 <= i <= n
      ensures i in places
    {
      if i == 0 {
        assert places[p] == 0;
      } else {
        var m: nat := i - 1;
        assert m in rest;
        var k :| 0 <= k < |rest| && rest[k] == m;
        assert places[if k < p then k else k + 1] == i;
      }
    }
  }

  lemma ShiftedOrder<T(!new)>(le: (T, T) -> bool, s: seq<T>, sorted: seq<T>, rest: seq<nat>, p: nat, k: nat, l: nat)
    requires Preorder(le) && s != [] && IsPlacing(le, s[1..], sorted, rest) && p <= |sorted|
    requires forall k :: 0 <= k < p ==> !le(s[0], sorted[k])
    requires forall k :: p <= k < |sorted| ==> le(s[0], sorted[k])
    requires k < l <= |rest|
    ensures StablyBefore(le, s, Shifted(rest, p)[k], Shifted(rest, p)[l])
  {
    hide NoDup;
    if k != p && l != p {
      var i, j := rest[if k < p then k else k - 1], rest[if l < p then l else l - 1];
      assert StablyBefore(le, s[1..], i, j);
      assert s[1..][i] == s[i + 1] && s[1..][j] == s[j + 1];
    } else if k == p {
      assert s[1..][rest[l - 1]] == sorted[l - 1];
    } else {
      assert s[1..][rest[k]] == sorted[k];
    }
  }

  lemma PlaceIn<T(!new)>(le: (T, T) -> bool, s: seq<T>, sorted: seq<T>, rest: seq<nat>, p: nat) returns (places: seq<nat>)
    requires Preorder(le) && s != [] && IsPlacing(le, s[1..], sorted, rest) && p <= |sorted|
    requires forall k :: 0 <= k < p ==> !le(s[0], sorted[k])
    requires forall k :: p <= k < |sorted| ==> le(s[0], sorted[k])
    ensures IsPlacing(le, s, sorted[..p] + [s[0]] + sorted[p..], places)
  {
    places := Shifted(rest, p);
    ShiftedAll(rest, p, |s| - 1);
    forall k, l | 0 <= k < l < |places|
      ensures StablyBefore(le, s, places[k], places[l])
    {
      ShiftedOrder(le, s, sorted, rest, p, k, l);
    }
    hide StablyBefore;
    var out := sorted[..p] + [s[0]] + sorted[p..];
    forall k | 0 <= k < |places|
      ensures places[k] < |s| && out[k] == s[places[k]]
    {
      if k != p {
        var m := if k < p then k else k - 1;
        assert s[1..][rest[m]] == sorted[m];
      }
    }
  }

  ghost predicate NoDup<T>(s: seq<T>) {
    forall i, j :: 0 <= i < j < |s| ==> s[i] != s[j]
  }

  predicate Earlier<K(==)>(ks: seq<K>, a: K, b: K) {
    exists i, j :: 0 <= i < j < |ks| && ks[i] == a && ks[j] == b
  }

  lemma {:induction false} NoDupMultiset<T>(s: seq<T>)
    ensures NoDup(s) <==> forall x :: x in multiset(s) ==> multiset(s)[x] == 1
  {
    if s != [] {
      var m := s[..|s| - 1];
      var z := s[|s| - 1];
      assert s == m + [z];
      NoDupMultiset(m);
      if NoDup(s) {
        assert NoDup(m) && z !in m;
        assert z !in multiset(m);
      } else if NoDup(m) {
        assert z in m;
        assert z in multiset(m) && multiset(s)[z] == 2;
      } else {
        var x :| x in multiset(m) && multiset(m)[x] != 1;
        assert multiset(s)[x] >= multiset(m)[x];
      }
    }
  }

  lemma NoDupPermutation<T>(a: seq<T>, b: seq<T>)
    requires multiset(a) == multiset(b)
    ensures NoDup(a) <==> NoDup(b)
  {
    NoDupMultiset(a);
    NoDupMultiset(b);
  }

  /** `s[:n]`. */
  function Take<T>(s: seq<T>, n: nat): seq<T> {
    if |s| <= n then s else s[..n]
  }

  /** `sorted(all)[:n]`. */
  function Top<T>(le: (T, T) -> bool, all: seq<T>, n: nat): seq<T> {
    Take(Sort(le, all), n)
  }

  /** What `Top` keeps comes before everything that is cut. */
  lemma SortedPrefix<T(!new)>(le: (T, T) -> bool, all: seq<T>, n: nat)
    requires Preorder(le)
    ensures var kept := Top(le, all, n);
            && |kept| == (if |all| <= n then |all| else n)
            && (forall a :: a in kept ==> a in all)
            && (|all| <= n ==> forall a :: a in all ==> a in kept)
            && (forall a, b :: a in kept && b in all && b !in kept ==> le(a, b))
            && (NoDup(all) ==> NoDup(kept))
  {
    SortCorrect(le, all);
    var sorted := Sort(le, all);
    SameElements(sorted, all);
    NoDupPermutation(sorted, all);
    hide Sort, Preorder;
    var kept := Top(le, all, n);
    var m := |kept|;
    assert forall k :: 0 <= k < m ==> kept[k] == sorted[k];
    forall a, b | a in kept && b in all && b !in kept
      ensures le(a, b)
    {
      var i :| 0 <= i < m && kept[i] == a;
      var j :| 0 <= j < |sorted| && sorted[j] == b;
      assert j >= m;
    }
  }

  /** Where the order tells elements apart, only one sorted list holds them. */
  lemma {:induction false} SortedUnique<T(!new)>(le: (T, T) -> bool, a: seq<T>, b: seq<T>)
    requires SortedBy(le, a) && SortedBy(le, b) && NoDup(a) && NoDup(b)
    requires forall x :: x in a <==> x in b
    requires forall x, y :: x in a && y in a && le(x, y) && le(y, x) ==> x == y
    ensures a == b
  {
    if a == [] {
      NoMembers(b);
    } else {
      assert a[0] in b && b != [] && b[0] in a;
      var i :| 0 <= i < |a| && a[i] == b[0];
      var j :| 0 <= j < |b| && b[j] == a[0];
      assert a[0] == b[0];
      assert a == [a[0]] + a[1..] && b == [b[0]] + b[1..];
      TailMembers(a);
      TailMembers(b);
      SortedUnique(le, a[1..], b[1..]);
    }
  }

  lemma NoMembers<T>(s: seq<T>)
    ensures s == [] <==> forall x :: x !in s
  {
    if s != [] {
      assert s[0] in s;
    }
  }

  lemma TailMembers<T>(s: seq<T>)
    requires s != [] && NoDup(s)
    ensures forall x :: x in s[1..] <==> x in s && x != s[0]
  {
    assert s == [s[0]] + s[1..];
    forall x | x in s[1..]
      ensures x != s[0]
    {
      var i :| 0 <= i < |s[1..]| && s[1..][i] == x;
      assert s[i + 1] == x;
    }
  }

  /** Python's `sorted` over a set. */
  method SortedSet<T(==, !new)>(le: (T, T) -> bool, s: set<T>) returns (out: seq<T>)
    requires TotalOrder(le)
    ensures SortedBy(le, out) && NoDup(out)
    ensures forall x :: x in out <==> x in s
  {
    var rest, acc := s, [];
    while rest != {}
      invariant rest <= s && NoDup(acc)
      invariant forall x :: x in acc <==> x in s - rest
    {
      var x :| x in rest;
      assert x !in acc;
      acc, rest := acc + [x], rest - {x};
    }
    SortCorrect(le, acc);
    out := Sort(le, acc);
    SameElements(out, acc);
    NoDupPermutation(out, acc);
  }

  // ---------------------------------------------------------------- grouping

  /** The distinct keys of `xs` in order of first appearance: the key order of
      a Python dict filled by a loop over `xs`. */
  function Keys<T, K(==)>(key: T -> K, xs: seq<T>): seq<K> {
    if xs == [] then [] else
      var ks := Keys(key, xs[..|xs| - 1]);
      var k := key(xs[|xs| - 1]);
      if k in ks then ks else ks + [k]
  }

  /** The members of `xs` filed under key `k`, in order. */
  function Members<T, K(==)>(key: T -> K, xs: seq<T>, k: K): seq<T> {
    if xs == [] then [] else
      var m := Members(key, xs[..|xs| - 1], k);
      var x := xs[|xs| - 1];
      if key(x) == k then m + [x] else m
  }

  lemma {:induction false} GroupFacts<T, K>(key: T -> K, xs: seq<T>)
    ensures NoDup(Keys(key, xs))
    ensures forall x :: x in xs ==> key(x) in Keys(key, xs)
    ensures forall k :: k in Keys(key, xs) <==> Members(key, xs, k) != []
    ensures forall k, x :: x in Members(key, xs, k) <==> x in xs && key(x) == k
  {
    if xs != [] {
      var init := xs[..|xs| - 1];
      GroupFacts(key, init);
      assert xs == init + [xs[|xs| - 1]];
    }
  }

  lemma GroupSnoc<T, K>(key: T -> K, xs: seq<T>, x: T)
    ensures Keys(key, xs + [x]) == if key(x) in Keys(key, xs) then Keys(key, xs) else Keys(key, xs) + [key(x)]
    ensures forall k :: Members(key, xs + [x], k) == if key(x) == k then Members(key, xs, k) + [x] else Members(key, xs, k)
  {
    assert (xs + [x])[..|xs|] == xs;
  }

  ghost function SumOver<K>(ks: seq<K>, f: K -> int): int {
    if ks == [] then 0 else SumOver(ks[..|ks| - 1], f) + f(ks[|ks| - 1])
  }

  lemma {:induction false} SumCons<K>(x: K, ks: seq<K>, f: K -> int)
    ensures SumOver([x] + ks, f) == f(x) + SumOver(ks, f)
  {
    if ks != [] {
      var init := ks[..|ks| - 1];
      SumCons(x, init, f);
      assert ([x] + ks)[..|ks|] == [x] + init;
    }
  }

  lemma {:induction false} SumInsert<K>(le: (K, K) -> bool, x: K, ks: seq<K>, f: K -> int)
    ensures SumOver(Insert(le, x, ks), f) == f(x) + SumOver(ks, f)
  {
    SumCons(x, ks, f);
    if ks != [] && !le(x, ks[0]) {
      SumInsert(le, x, ks[1..], f);
      SumCons(ks[0], Insert(le, x, ks[1..]), f);
      SumCons(ks[0], ks[1..], f);
      assert ks == [ks[0]] + ks[1..];
    }
  }

  /** Sorting keeps sums. */
  lemma {:induction false} SumSort<K>(le: (K, K) -> bool, ks: seq<K>, f: K -> int)
    ensures SumOver(Sort(le, ks), f) == SumOver(ks, f)
  {
    if ks != [] {
      SumSort(le, ks[1..], f);
      SumInsert(le, ks[0], Sort(le, ks[1..]), f);
      SumCons(ks[0], ks[1..], f);
      assert ks == [ks[0]] + ks[1..];
    }
  }

  lemma {:induction false} SumAgree<K>(ks: seq<K>, f: K -> int, g: K -> int)
    requires forall k :: k in ks ==> f(k) == g(k)
    ensures SumOver(ks, f) == SumOver(ks, g)
  {
    if ks != [] {
      SumAgree(ks[..|ks| - 1], f, g);
    }
  }

  lemma {:induction false} SumBump<K>(ks: seq<K>, f: K -> int, g: K -> int, k: K)
    requires NoDup(ks) && k in ks
    requires forall j :: j in ks && j != k ==> f(j) == g(j)
    ensures SumOver(ks, g) - SumOver(ks, f) == g(k) - f(k)
  {
    var init := ks[..|ks| - 1];
    var z := ks[|ks| - 1];
    assert ks == init + [z];
    if z == k {
      SumAgree(init, f, g);
    } else {
      SumBump(init, f, g, k);
    }
  }

  ghost function Sizes<T, K>(key: T -> K, xs: seq<T>): K -> int {
    k => |Members(key, xs, k)|
  }

  /** Grouping conserves: the group sizes add up to the number of items. */
  lemma {:induction false} GroupConserves<T, K>(key: T -> K, xs: seq<T>)
    ensures SumOver(Keys(key, xs), Sizes(key, xs)) == |xs|
  {
    if xs != [] {
      var init := xs[..|xs| - 1];
      var k0 := key(xs[|xs| - 1]);
      var ks := Keys(key, init);
      GroupConserves(key, init);
      GroupFacts(key, init);
      if k0 in ks {
        SumBump(ks, Sizes(key, init), Sizes(key, xs), k0);
      } else {
        SumAgree(ks, Sizes(key, init), Sizes(key, xs));
        assert Keys(key, xs) == ks + [k0] && Keys(key, xs)[..|ks|] == ks;
        assert Members(key, init, k0) == [];
        assert Sizes(key, xs)(k0) == 1;
      }
    }
  }

  // ---------------------------------------------------------------- picking

  /** What `pick` makes of the elements it does not pass over, in order: the
      reference that the filtering loops of the model are told by. */
  function Picked<A, B>(xs: seq<A>, pick: A -> Option<B>): seq<B> {
    if xs == [] then [] else
      match pick(xs[|xs| - 1])
      case None => Picked(xs[..|xs| - 1], pick)
      case Some(y) => Picked(xs[..|xs| - 1], pick) + [y]
  }

  lemma PickedSnoc<A, B>(xs: seq<A>, pick: A -> Option<B>, x: A)
    ensures Picked(xs + [x], pick) == match pick(x) case None => Picked(xs, pick) case Some(y) => Picked(xs, pick) + [y]
  {
    assert (xs + [x])[..|xs|] == xs;
  }

  lemma {:induction false} PickedConcat<A, B>(a: seq<A>, b: seq<A>, pick: A -> Option<B>)
    ensures Picked(a + b, pick) == Picked(a, pick) + Picked(b, pick)
  {
    if b == [] {
      assert a + b == a;
    } else {
      PickedConcat(a, b[..|b| - 1], pick);
      assert (a + b)[..|a + b| - 1] == a + b[..|b| - 1];
    }
  }

  lemma {:induction false} PickedMembers<A, B>(xs: seq<A>, pick: A -> Option<B>)
    ensures forall y :: y in Picked(xs, pick) <==> exists x :: x in xs && pick(x) == Some(y)
  {
    if xs != [] {
      PickedMembers(xs[..|xs| - 1], pick);
      assert xs == xs[..|xs| - 1] + [xs[|xs| - 1]];
    }
  }

  /** `places` lists in order where the elements of `ys` come from, and nothing
      `pick` accepts is passed over. */
  ghost predicate PicksAt<A, B>(xs: seq<A>, pick: A -> Option<B>, ys: seq<B>, places: seq<nat>) {
    && |places| == |ys|
    && (forall k, l :: 0 <= k < l < |places| ==> places[k] < places[l])
    && (forall k :: 0 <= k < |places| ==> places[k] < |xs| && pick(xs[places[k]]) == Some(ys[k]))
    && NonePassed(xs, pick, places)
  }

  ghost predicate NonePassed<A, B>(xs: seq<A>, pick: A -> Option<B>, places: seq<nat>) {
    forall i :: 0 <= i < |xs| && pick(xs[i]).Some? ==> i in places
  }

  lemma {:induction false} PickedPlaces<A, B>(xs: seq<A>, pick: A -> Option<B>) returns (places: seq<nat>)
    ensures PicksAt(xs, pick, Picked(xs, pick), places)
  {
    places := [];
    if xs != [] {
      var n := |xs| - 1;
      assert xs == xs[..n] + [xs[n]];
      var before := PickedPlaces(xs[..n], pick);
      places := if pick(xs[n]).Some? then before + [n] else before;
      PlacesSnoc(xs[..n], pick, Picked(xs[..n], pick), before, xs[n]);
    }
  }

  lemma PlacesSnoc<A, B>(xs: seq<A>, pick: A -> Option<B>, ys: seq<B>, places: seq<nat>, x: A)
    requires PicksAt(xs, pick, ys, places)
    ensures match pick(x)
            case None => PicksAt(xs + [x], pick, ys, places)
            case Some(y) => PicksAt(xs + [x], pick, ys + [y], places + [|xs|])
  {
    assert forall i :: i in places + [|xs|] <==> i in places || i == |xs|;
  }

  lemma {:induction false} PickedFirst<A, B>(xs: seq<A>, pick: A -> Option<B>)
    requires Picked(xs, pick) != []
    ensures exists i :: 0 <= i < |xs| && pick(xs[i]) == Some(Picked(xs, pick)[0]) && forall j :: 0 <= j < i ==> pick(xs[j]).None?
  {
    var places := PickedPlaces(xs, pick);
    var i := places[0];
    forall j | 0 <= j < i
      ensures pick(xs[j]).None?
    {
      assert pick(xs[j]).Some? ==> j in places;
      assert forall k :: 0 <= k < |places| ==> places[k] >= i;
    }
  }

  /** The group of a key, told from what was picked. */
  lemma {:induction false} PickedMembersOf<A, B, K>(xs: seq<A>, pick: A -> Option<B>, only: A -> Option<B>, key: B -> K, k: K)
    requires forall x :: only(x) == if pick(x).Some? && key(pick(x).value) == k then pick(x) else None
    ensures Members(key, Picked(xs, pick), k) == Picked(xs, only)
  {
    if xs != [] {
      PickedMembersOf(xs[..|xs| - 1], pick, only, key, k);
      if pick(xs[|xs| - 1]).Some? {
        GroupSnoc(key, Picked(xs[..|xs| - 1], pick), pick(xs[|xs| - 1]).value);
      }
    }
  }

  /** Keys come in the order of their first members. */
  lemma {:induction false} KeysByFirst<T, K>(key: T -> K, xs: seq<T>, a: K, b: K)
    requires a != b && b in Keys(key, xs)
    ensures Earlier(Keys(key, xs), a, b) <==> exists i :: 0 <= i < |xs| && key(xs[i]) == a && forall j :: 0 <= j < i ==> key(xs[j]) != b
  {
    var init, x := xs[..|xs| - 1], xs[|xs| - 1];
    assert xs == init + [x];
    GroupFacts(key, init);
    KeyMembers(key, init);
    GroupFacts(key, xs);
    var ks := Keys(key, init);
    if b in ks {
      KeysByFirst(key, init, a, b);
      if key(x) !in ks {
        EarlierCons(ks, key(x), a, b);
      }
    } else {
      EarlierLast(ks, b, a);
    }
  }

  lemma {:induction false} KeyMembers<T, K>(key: T -> K, xs: seq<T>)
    ensures forall k :: k in Keys(key, xs) <==> exists i :: 0 <= i < |xs| && key(xs[i]) == k
  {
    if xs != [] {
      KeyMembers(key, xs[..|xs| - 1]);
    }
  }

  lemma EarlierCons<K>(ks: seq<K>, z: K, a: K, b: K)
    requires z !in ks && b in ks
    ensures Earlier(ks + [z], a, b) <==> Earlier(ks, a, b)
  {
    if i, j :| 0 <= i < j < |ks + [z]| && (ks + [z])[i] == a && (ks + [z])[j] == b {
      assert j < |ks| && ks[i] == a && ks[j] == b;
    }
    if i, j :| 0 <= i < j < |ks| && ks[i] == a && ks[j] == b {
      assert (ks + [z])[i] == a && (ks + [z])[j] == b;
    }
  }

  lemma EarlierLast<K>(ks: seq<K>, b: K, a: K)
    requires b !in ks && a != b
    ensures Earlier(ks + [b], a, b) <==> a in ks
  {
    if a in ks {
      var i :| 0 <= i < |ks| && ks[i] == a;
      assert (ks + [b])[i] == a && (ks + [b])[|ks|] == b;
    }
  }
}
