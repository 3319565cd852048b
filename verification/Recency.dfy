/** Least-recently-used order: what an OrderedDict with a size limit holds after
    any history of accesses. */
module Recency {
  import opened Prelude

  function Without<T>(items: seq<(string, T)>, key: string): seq<(string, T)> {
    if items == [] then []
    else if items[0].0 == key then Without(items[1..], key) else [items[0]] + Without(items[1..], key)
  }

  function Last<T>(s: seq<T>, n: nat): seq<T> {
    if |s| <= n then s else s[|s| - n..]
  }

  function KeysOf<T>(items: seq<(string, T)>): (r: seq<string>)
    ensures |r| == |items| && forall i :: 0 <= i < |r| ==> r[i] == items[i].0
  {
    seq(|items|, i requires 0 <= i < |items| => items[i].0)
  }

  function Find<T>(items: seq<(string, T)>, key: string): Option<T> {
    if items == [] then None
    else if items[0].0 == key then Some(items[0].1) else Find(items[1..], key)
  }

  /** One access: the value held under the key, or the new one, is moved last;
      the oldest entries over the limit go. */
  function Accessed<T>(items: seq<(string, T)>, limit: nat, key: string, created: T): seq<(string, T)> {
    Last(Without(items, key) + [(key, Served(items, key, created))], limit)
  }

  function Served<T>(items: seq<(string, T)>, key: string, created: T): T {
    if Find(items, key).Some? then Find(items, key).value else created
  }

  /** The store after a history of accesses, each with what it would create. */
  function Store<T>(limit: nat, history: seq<(string, T)>): seq<(string, T)> {
    if history == [] then [] else
      var (key, created) := history[|history| - 1];
      Accessed(Store(limit, history[..|history| - 1]), limit, key, created)
  }

  // ----------------------------------------------------- reference definition

  /** Distinct keys by last access, most recent last. */
  function ByRecency(keys: seq<string>): seq<string> {
    if keys == [] then [] else
      Dropped(ByRecency(keys[..|keys| - 1]), keys[|keys| - 1]) + [keys[|keys| - 1]]
  }

  function Dropped(keys: seq<string>, k: string): seq<string> {
    if keys == [] then []
    else if keys[0] == k then Dropped(keys[1..], k) else [keys[0]] + Dropped(keys[1..], k)
  }

  lemma {:induction false} DroppedFacts(keys: seq<string>, k: string)
    ensures forall x :: x in Dropped(keys, k) <==> x in keys && x != k
    ensures NoDup(keys) ==> NoDup(Dropped(keys, k))
    ensures k !in keys ==> Dropped(keys, k) == keys
    ensures NoDup(keys) && k in keys ==> |Dropped(keys, k)| == |keys| - 1
  {
    if keys != [] {
      DroppedFacts(keys[1..], k);
      assert keys == [keys[0]] + keys[1..];
      if NoDup(keys) {
        assert keys[0] !in keys[1..] && NoDup(keys[1..]);
      }
    }
  }

  /** The position of the last access to `k`. */
  function LastAccess(keys: seq<string>, k: string): (i: nat)
    requires k in keys
    ensures i < |keys| && keys[i] == k && k !in keys[i + 1..]
  {
    var n := |keys| - 1;
    if keys[n] == k then n else
      assert k in keys[..n];
      var i := LastAccess(keys[..n], k);
      assert keys[i + 1..] == keys[..n][i + 1..] + [keys[n]];
      i
  }

  lemma {:induction false} DroppedKeepsOrder(s: seq<string>, k: string, f: string -> int)
    requires forall i, j :: 0 <= i < j < |s| ==> f(s[i]) < f(s[j])
    ensures var d := Dropped(s, k); forall i, j :: 0 <= i < j < |d| ==> f(d[i]) < f(d[j])
  {
    if s != [] {
      DroppedKeepsOrder(s[1..], k, f);
      DroppedFacts(s[1..], k);
      if s[0] != k {
        var d := Dropped(s[1..], k);
        forall j | 0 <= j < |d|
          ensures f(s[0]) < f(d[j])
        {
          assert d[j] in s[1..];
        }
      }
    }
  }

  ghost function When(keys: seq<string>): string -> int {
    k => if k in keys then LastAccess(keys, k) else -1
  }

  lemma WhenSnoc(init: seq<string>, k: string, x: string)
    ensures When(init + [k])(k) == |init|
    ensures x in init && x != k ==> When(init + [k])(x) == When(init)(x) < |init|
  {
    assert (init + [k])[..|init|] == init;
  }

  /** ByRecency is what its name says: every accessed key once, in the order of
      last access. */
  lemma {:induction false} RecencyExact(keys: seq<string>)
    ensures NoDup(ByRecency(keys))
    ensures forall k :: k in ByRecency(keys) <==> k in keys
    ensures var r := ByRecency(keys); forall i, j :: 0 <= i < j < |r| ==> When(keys)(r[i]) < When(keys)(r[j])
  {
    hide Dropped, When;
    if keys != [] {
      var init, k := keys[..|keys| - 1], keys[|keys| - 1];
      assert keys == init + [k];
      RecencyExact(init);
      DroppedFacts(ByRecency(init), k);
      DroppedKeepsOrder(ByRecency(init), k, When(init));
      RecencyNext(init, k, Dropped(ByRecency(init), k));
    }
  }

  lemma RecencyNext(init: seq<string>, k: string, d: seq<string>)
    requires NoDup(d) && forall x :: x in d ==> x in init && x != k
    requires forall i, j :: 0 <= i < j < |d| ==> When(init)(d[i]) < When(init)(d[j])
    ensures NoDup(d + [k])
    ensures var r := d + [k]; forall i, j :: 0 <= i < j < |r| ==> When(init + [k])(r[i]) < When(init + [k])(r[j])
  {
    hide When;
    forall j | 0 <= j < |d|
      ensures When(init + [k])(d[j]) == When(init)(d[j]) < When(init + [k])(k)
    {
      assert d[j] in d;
      WhenSnoc(init, k, d[j]);
    }
  }

  // ----------------------------------------------------------------- theorems

  lemma {:induction false} WithoutKeys<T>(items: seq<(string, T)>, key: string)
    ensures KeysOf(Without(items, key)) == Dropped(KeysOf(items), key)
  {
    if items != [] {
      WithoutKeys(items[1..], key);
      assert KeysOf(items)[1..] == KeysOf(items[1..]);
    }
  }

  lemma {:induction false} DroppedAppend(a: seq<string>, b: seq<string>, k: string)
    ensures Dropped(a + b, k) == Dropped(a, k) + Dropped(b, k)
  {
    if a == [] {
      assert a + b == b;
    } else {
      assert (a + b)[1..] == a[1..] + b;
      DroppedAppend(a[1..], b, k);
    }
  }

  lemma LastAppend(a: seq<string>, b: seq<string>, n: nat)
    requires |b| >= n
    ensures Last(a + b, n) == Last(b, n)
  {
  }

  /** Dropping one key and keeping the last n - 1, then adding it, is the same
      whether older keys were cut before or not. */
  lemma LastAfterDrop(r: seq<string>, n: nat, k: string)
    requires NoDup(r)
    ensures Last(Dropped(Last(r, n), k) + [k], n) == Last(Dropped(r, k) + [k], n)
  {
    if |r| > n {
      var a, b := r[..|r| - n], r[|r| - n..];
      assert r == a + b && Last(r, n) == b && NoDup(a) && NoDup(b);
      DroppedAppend(a, b, k);
      DroppedFacts(b, k);
      hide Dropped;
      assert Dropped(r, k) + [k] == Dropped(a, k) + (Dropped(b, k) + [k]);
      LastAppend(Dropped(a, k), Dropped(b, k) + [k], n);
    }
  }

  lemma AccessedKeys<T>(items: seq<(string, T)>, limit: nat, key: string, created: T)
    ensures KeysOf(Accessed(items, limit, key, created)) == Last(Dropped(KeysOf(items), key) + [key], limit)
  {
    WithoutKeys(items, key);
    var grown := Without(items, key) + [(key, Served(items, key, created))];
    assert KeysOf(grown) == KeysOf(Without(items, key)) + [key];
    assert KeysOf(Last(grown, limit)) == Last(KeysOf(grown), limit);
  }

  /** After any history the store holds exactly the last `limit` distinct keys,
      in recency order. */
  lemma {:induction false} StoreIsRecency<T>(limit: nat, history: seq<(string, T)>)
    ensures KeysOf(Store(limit, history)) == Last(ByRecency(KeysOf(history)), limit)
  {
    hide Accessed, Last;
    if history == [] {
      assert KeysOf(history) == [];
      LastOfNone(limit);
    } else {
      var init := history[..|history| - 1];
      var (key, created) := history[|history| - 1];
      StoreIsRecency(limit, init);
      RecencyExact(KeysOf(init));
      AccessedKeys(Store(limit, init), limit, key, created);
      LastAfterDrop(ByRecency(KeysOf(init)), limit, key);
      assert KeysOf(history) == KeysOf(init) + [key];
      assert KeysOf(history)[..|history| - 1] == KeysOf(init);
    }
  }

  lemma LastOfNone(n: nat)
    ensures Last<string>([], n) == []
  {
  }

  function SetOf(s: seq<string>): set<string> { set x | x in s }

  lemma {:induction false} NoDupSize(s: seq<string>)
    requires NoDup(s)
    ensures |SetOf(s)| == |s|
  {
    if s != [] {
      NoDupSize(s[1..]);
      assert SetOf(s) == {s[0]} + SetOf(s[1..]);
    }
  }

  lemma AccessedAfter(keys: seq<string>, i: nat, x: string)
    requires i < |keys| && x in keys[i + 1..]
    ensures x in keys && LastAccess(keys, x) > i
  {
    var j :| 0 <= j < |keys[i + 1..]| && keys[i + 1..][j] == x;
    assert keys[i + 1 + j] == x;
    var l := LastAccess(keys, x);
    assert forall m :: l < m < |keys| ==> keys[m] == keys[l + 1..][m - l - 1] != x;
  }

  /** The keys after `key` in recency order are those accessed after it. */
  lemma LaterKeys(keys: seq<string>, key: string, i: nat)
    requires key in keys && i < |ByRecency(keys)| && ByRecency(keys)[i] == key
    ensures SetOf(ByRecency(keys)[i + 1..]) == SetOf(keys[LastAccess(keys, key) + 1..])
  {
    var at, later := LastAccess(keys, key), ByRecency(keys)[i + 1..];
    forall x
      ensures x in later <==> x in keys[at + 1..]
    {
      LaterKey(keys, key, i, x);
    }
  }

  lemma LaterKey(keys: seq<string>, key: string, i: nat, x: string)
    requires key in keys && i < |ByRecency(keys)| && ByRecency(keys)[i] == key
    ensures x in ByRecency(keys)[i + 1..] <==> x in keys[LastAccess(keys, key) + 1..]
  {
    hide ByRecency, LastAccess;
    RecencyExact(keys);
    var r, at := ByRecency(keys), LastAccess(keys, key);
    if x in r[i + 1..] {
      var j :| i < j < |r| && r[j] == x;
      assert When(keys)(r[i]) < When(keys)(r[j]);
      assert keys[at + 1..][LastAccess(keys, x) - at - 1] == x;
    }
    if x in keys[at + 1..] {
      AccessedLater(keys, key, i, x);
    }
  }

  lemma AccessedLater(keys: seq<string>, key: string, i: nat, x: string)
    requires key in keys && i < |ByRecency(keys)| && ByRecency(keys)[i] == key
    requires x in keys[LastAccess(keys, key) + 1..]
    ensures x in ByRecency(keys)[i + 1..]
  {
    hide ByRecency, LastAccess;
    RecencyExact(keys);
    var r, at := ByRecency(keys), LastAccess(keys, key);
    AccessedAfter(keys, at, x);
    var j :| 0 <= j < |r| && r[j] == x;
    assert When(keys)(r[i]) < When(keys)(r[j]);
    assert r[i + 1..][j - i - 1] == x;
  }

  lemma LastMember(r: seq<string>, n: nat, i: nat)
    requires NoDup(r) && i < |r|
    ensures r[i] in Last(r, n) <==> |r| - 1 - i < n
  {
    var held := Last(r, n);
    assert forall j :: 0 <= j < |held| ==> held[j] == r[|r| - |held| + j];
    if |r| - 1 - i < n {
      assert held[i - (|r| - |held|)] == r[i];
    }
  }

  /** A key is held exactly when fewer than `limit` other distinct keys were
      accessed since its own last access. */
  lemma HeldExactly<T>(limit: nat, history: seq<(string, T)>, key: string)
    requires key in KeysOf(history)
    ensures key in KeysOf(Store(limit, history)) <==>
            |SetOf(KeysOf(history)[LastAccess(KeysOf(history), key) + 1..])| < limit
  {
    hide ByRecency, LastAccess, Store, Last, KeysOf;
    var keys := KeysOf(history);
    var r := ByRecency(keys);
    StoreIsRecency(limit, history);
    RecencyExact(keys);
    var i :| 0 <= i < |r| && r[i] == key;
    LaterKeys(keys, key, i);
    NoDupSize(r[i + 1..]);
    LastMember(r, limit, i);
  }

  lemma {:induction false} FindHeld<T>(items: seq<(string, T)>, key: string)
    ensures Find(items, key).Some? <==> key in KeysOf(items)
  {
    if items != [] {
      FindHeld(items[1..], key);
      assert KeysOf(items) == [items[0].0] + KeysOf(items[1..]);
    }
  }

  /** An access is served what the store holds exactly when fewer than `limit`
      other keys came since, and what it creates otherwise. */
  lemma ServedExactly<T>(limit: nat, history: seq<(string, T)>, key: string)
    ensures Find(Store(limit, history), key).Some? <==>
            key in KeysOf(history) && |SetOf(KeysOf(history)[LastAccess(KeysOf(history), key) + 1..])| < limit
  {
    FindHeld(Store(limit, history), key);
    if key in KeysOf(history) {
      HeldExactly(limit, history, key);
    } else {
      StoreIsRecency(limit, history);
      RecencyExact(KeysOf(history));
    }
  }

  lemma {:induction false} FindLast<T>(items: seq<(string, T)>, key: string, value: T)
    requires key !in KeysOf(items)
    ensures Find(items + [(key, value)], key) == Some(value)
  {
    if items != [] {
      assert (items + [(key, value)])[1..] == items[1..] + [(key, value)];
      assert KeysOf(items) == [items[0].0] + KeysOf(items[1..]);
      FindLast(items[1..], key, value);
    }
  }

  /** What an access was served is what the store then holds under the key. */
  lemma ServedIsHeld<T>(limit: nat, items: seq<(string, T)>, key: string, created: T)
    requires limit > 0
    ensures Find(Accessed(items, limit, key, created), key) == Some(Served(items, key, created))
  {
    WithoutKeys(items, key);
    DroppedFacts(KeysOf(items), key);
    var served := Served(items, key, created);
    var rest := Without(items, key);
    var grown := rest + [(key, served)];
    var kept := if |grown| <= limit then rest else rest[|grown| - limit..];
    assert Last(grown, limit) == kept + [(key, served)];
    forall k | k in KeysOf(kept)
      ensures k in KeysOf(rest)
    {
      var i :| 0 <= i < |kept| && kept[i].0 == k;
      assert kept[i] in rest;
      var j :| 0 <= j < |rest| && rest[j] == kept[i];
      assert KeysOf(rest)[j] == k;
    }
    FindLast(kept, key, served);
  }
}
