/** Total orders, the byte-wise order of strings, and keyset pagination
    (`WHERE key > after ORDER BY key LIMIT n`) over a finite set of keys. */
module Orders {

  ghost predicate OrderLaws<T(!new)>(le: (T, T) -> bool) {
    && (forall a, b :: le(a, b) || le(b, a))
    && (forall a, b :: le(a, b) && le(b, a) ==> a == b)
    && (forall a, b, c :: le(a, b) && le(b, c) ==> le(a, c))
  }

  predicate Unfold(token: int) {
    true
  }

  /** `le` is a total order. The laws sit behind a token, so the solver meets
      them only in a proof that says `assert Unfold(0)`. */
  ghost predicate TotalOrder<T(!new)>(le: (T, T) -> bool) {
    forall token {:trigger Unfold(token)} :: Unfold(token) ==> OrderLaws(le)
  }

  lemma Reflexive<T(!new)>(le: (T, T) -> bool, a: T)
    requires TotalOrder(le)
    ensures le(a, a)
  {
    assert Unfold(0);
  }

  lemma Total<T(!new)>(le: (T, T) -> bool, a: T, b: T)
    requires TotalOrder(le)
    ensures le(a, b) || le(b, a)
  {
    assert Unfold(0);
  }

  lemma Antisymmetric<T(!new)>(le: (T, T) -> bool, a: T, b: T)
    requires TotalOrder(le) && le(a, b) && le(b, a)
    ensures a == b
  {
    assert Unfold(0);
  }

  lemma Transitive<T(!new)>(le: (T, T) -> bool, a: T, b: T, c: T)
    requires TotalOrder(le) && le(a, b) && le(b, c)
    ensures le(a, c)
  {
    assert Unfold(0);
  }

  // ----- strings -----

  /** `a <= b` as the source language compares strings: character by character,
      a proper prefix first. */
  predicate StringLe(a: string, b: string)
    decreases |a|
  {
    if a == [] then true
    else if b == [] then false
    else if a[0] != b[0] then a[0] < b[0]
    else StringLe(a[1..], b[1..])
  }

  predicate StringLt(a: string, b: string) {
    StringLe(a, b) && a != b
  }

  lemma {:induction false} StringLeTotal(a: string, b: string)
    ensures StringLe(a, b) || StringLe(b, a)
    decreases |a|
  {
    if a != [] && b != [] && a[0] == b[0] {
      StringLeTotal(a[1..], b[1..]);
    }
  }

  lemma {:induction false} StringLeAntisymmetric(a: string, b: string)
    requires StringLe(a, b) && StringLe(b, a)
    ensures a == b
    decreases |a|
  {
    if a != [] && b != [] {
      StringLeAntisymmetric(a[1..], b[1..]);
      assert a == [a[0]] + a[1..] && b == [b[0]] + b[1..];
    }
  }

  lemma {:induction false} StringLeTransitive(a: string, b: string, c: string)
    requires StringLe(a, b) && StringLe(b, c)
    ensures StringLe(a, c)
    decreases |a|
  {
    if a != [] && a[0] == b[0] == c[0] {
      StringLeTransitive(a[1..], b[1..], c[1..]);
    }
  }

  lemma StringOrder()
    ensures TotalOrder(StringLe)
  {
    forall a, b ensures StringLe(a, b) || StringLe(b, a) {
      StringLeTotal(a, b);
    }
    forall a, b | StringLe(a, b) && StringLe(b, a) ensures a == b {
      StringLeAntisymmetric(a, b);
    }
    forall a, b, c | StringLe(a, b) && StringLe(b, c) ensures StringLe(a, c) {
      StringLeTransitive(a, b, c);
    }
  }

  predicate NatLe(a: nat, b: nat) {
    a <= b
  }

  lemma NatOrder()
    ensures TotalOrder(NatLe)
  {
  }

  // ----- the keys of a set, in order -----

  ghost predicate IsLeast<T(!new)>(m: T, s: set<T>, le: (T, T) -> bool) {
    m in s && forall x :: x in s ==> le(m, x)
  }

  lemma {:induction false} LeastExists<T(!new)>(s: set<T>, le: (T, T) -> bool)
    requires TotalOrder(le) && s != {}
    ensures exists m :: IsLeast(m, s, le)
    decreases |s|
  {
    var x :| x in s;
    Reflexive(le, x);
    var rest := s - {x};
    if rest == {} {
      assert s == {x};
      assert IsLeast(x, s, le);
    } else {
      LeastExists(rest, le);
      var m :| IsLeast(m, rest, le);
      if le(m, x) {
        assert IsLeast(m, s, le);
      } else {
        Total(le, m, x);
        forall y | y in rest ensures le(x, y) {
          Transitive(le, x, m, y);
        }
        assert IsLeast(x, s, le);
      }
    }
  }

  function Least<T(!new)>(s: set<T>, le: (T, T) -> bool): (m: T)
    requires TotalOrder(le) && s != {}
    ensures IsLeast(m, s, le)
  {
    LeastExists(s, le);
    assert exists m :: m in s && forall x :: x in s ==> le(m, x) by {
      var k :| IsLeast(k, s, le);
    }
    assert Unfold(0);
    var m :| m in s && forall x :: x in s ==> le(m, x);
    m
  }

  function Sorted<T(!new)>(s: set<T>, le: (T, T) -> bool): (q: seq<T>)
    requires TotalOrder(le)
    ensures |q| == |s| && forall x :: x in q <==> x in s
    decreases |s|
  {
    if s == {} then []
    else
      var m := Least(s, le);
      [m] + Sorted(s - {m}, le)
  }

  lemma SortedUncons<T(!new)>(s: set<T>, le: (T, T) -> bool) returns (m: T, rest: set<T>)
    requires TotalOrder(le) && s != {}
    ensures m in s && rest == s - {m} && |rest| == |s| - 1
    ensures Sorted(s, le) == [m] + Sorted(rest, le)
    ensures forall x :: x in s ==> le(m, x)
  {
    m := Least(s, le);
    rest := s - {m};
  }

  /** Sorting is ascending: the element at the lower index is the smaller. */
  lemma {:induction false} SortedAscends<T(!new)>(s: set<T>, le: (T, T) -> bool, i: nat, j: nat)
    requires TotalOrder(le) && i < j < |s|
    ensures le(Sorted(s, le)[i], Sorted(s, le)[j]) && Sorted(s, le)[i] != Sorted(s, le)[j]
    decreases |s|
  {
    hide Sorted;
    var m, rest := SortedUncons(s, le);
    var q := Sorted(rest, le);
    assert Sorted(s, le)[j] == q[j - 1];
    if i == 0 {
      assert q[j - 1] in q;
    } else {
      SortedAscends(rest, le, i - 1, j - 1);
    }
  }

  lemma {:induction false} FewerElements<T>(a: set<T>, b: set<T>)
    requires a <= b
    ensures |a| <= |b|
  {
    if a != {} {
      var x :| x in a;
      FewerElements(a - {x}, b - {x});
    }
  }

  // ----- keyset pagination -----

  /** The keys a cursor at `after` has still to visit. */
  function After<T(==, !new)>(s: set<T>, le: (T, T) -> bool, after: T): set<T> {
    set x | x in s && le(after, x) && x != after
  }

  function Take<T>(q: seq<T>, n: nat): seq<T> {
    if |q| <= n then q else q[..n]
  }

  /** `SELECT key FROM s WHERE key > after ORDER BY key LIMIT limit` */
  function Page<T(!new, ==)>(s: set<T>, le: (T, T) -> bool, after: T, limit: nat): seq<T>
    requires TotalOrder(le)
  {
    Take(Sorted(After(s, le, after), le), limit)
  }

  lemma AfterIgnoresSmaller<T(!new)>(s: set<T>, le: (T, T) -> bool, m: T, c: T)
    requires TotalOrder(le) && le(m, c) && m != c
    ensures After(s, le, c) == After(s - {m}, le, c)
  {
    if le(c, m) {
      Antisymmetric(le, c, m);
    }
  }

  /** A cursor inside what an earlier cursor left leaves the same keys. */
  lemma AfterAfter<T(!new)>(s: set<T>, le: (T, T) -> bool, a: T, c: T)
    requires TotalOrder(le) && c in After(s, le, a)
    ensures After(s, le, c) == After(After(s, le, a), le, c)
  {
    forall x | x in After(s, le, c) ensures x in After(s, le, a) {
      Transitive(le, a, c, x);
      if x == a {
        Antisymmetric(le, a, c);
      }
    }
  }

  lemma {:induction false} AfterNth<T(!new)>(s: set<T>, le: (T, T) -> bool, k: nat)
    requires TotalOrder(le) && k < |s|
    ensures Sorted(After(s, le, Sorted(s, le)[k]), le) == Sorted(s, le)[k + 1..]
    decreases |s|
  {
    hide Sorted;
    var all := Sorted(s, le);
    var m, rest := SortedUncons(s, le);
    var q := Sorted(rest, le);
    assert all[k + 1..] == q[k..];
    if k == 0 {
      assert all[0] == m && After(s, le, m) == rest;
      assert q[0..] == q;
    } else {
      var c := q[k - 1];
      assert all[k] == c && c in q;
      AfterIgnoresSmaller(s, le, m, c);
      AfterNth(rest, le, k - 1);
    }
  }

  /** One page, then the cursor moved to its last key, visits the same keys in
      the same order as no paging at all; an empty page means none are left. */
  lemma PageAdvances<T(!new)>(s: set<T>, le: (T, T) -> bool, after: T, limit: nat)
    requires TotalOrder(le) && limit > 0
    ensures var page := Page(s, le, after, limit);
            var all := Sorted(After(s, le, after), le);
            if page == [] then all == []
            else all == page + Sorted(After(s, le, page[|page| - 1]), le)
  {
    hide Sorted;
    var left := After(s, le, after);
    var all := Sorted(left, le);
    var page := Page(s, le, after, limit);
    if page != [] {
      var k := |page| - 1;
      var c := all[k];
      assert page[k] == c && page == all[..k + 1];
      assert c in all;
      AfterNth(left, le, k);
      AfterAfter(s, le, after, c);
      assert all == all[..k + 1] + all[k + 1..];
    }
  }

  // ----- the two kinds of key the tables are read by -----

  function InIdOrder(ids: set<nat>): (q: seq<nat>)
    ensures forall id :: id in q <==> id in ids
  {
    NatOrder();
    Sorted(ids, NatLe)
  }

  function IdsAfter(ids: set<nat>, after: nat): set<nat> {
    After(ids, NatLe, after)
  }

  /** `WHERE id > after ORDER BY id LIMIT limit` */
  function IdPage(ids: set<nat>, after: nat, limit: nat): seq<nat> {
    NatOrder();
    Page(ids, NatLe, after, limit)
  }

  lemma IdPageAdvances(ids: set<nat>, after: nat, limit: nat)
    requires limit > 0
    ensures var page := IdPage(ids, after, limit);
            var all := InIdOrder(IdsAfter(ids, after));
            if page == [] then all == []
            else all == page + InIdOrder(IdsAfter(ids, page[|page| - 1]))
  {
    hide Sorted;
    NatOrder();
    PageAdvances(ids, NatLe, after, limit);
  }

  function InKeyOrder(keys: set<string>): (q: seq<string>)
    ensures |q| == |keys| && forall key :: key in q <==> key in keys
  {
    StringOrder();
    Sorted(keys, StringLe)
  }

  function KeysAfter(keys: set<string>, after: string): set<string> {
    After(keys, StringLe, after)
  }

  /** `WHERE key > after ORDER BY key LIMIT limit` */
  function KeyPage(keys: set<string>, after: string, limit: nat): seq<string> {
    StringOrder();
    Page(keys, StringLe, after, limit)
  }

  lemma KeyPageAdvances(keys: set<string>, after: string, limit: nat)
    requires limit > 0
    ensures var page := KeyPage(keys, after, limit);
            var all := InKeyOrder(KeysAfter(keys, after));
            if page == [] then all == []
            else all == page + InKeyOrder(KeysAfter(keys, page[|page| - 1]))
  {
    hide Sorted;
    StringOrder();
    PageAdvances(keys, StringLe, after, limit);
  }

  /** A cursor starting at the empty string skips the empty key and nothing else. */
  lemma KeysFromStart(keys: set<string>)
    ensures KeysAfter(keys, "") == keys - {""}
  {
  }

  lemma KeysDistinct(keys: set<string>, i: nat, j: nat)
    requires i < j < |keys|
    ensures InKeyOrder(keys)[i] != InKeyOrder(keys)[j]
  {
    StringOrder();
    SortedAscends(keys, StringLe, i, j);
  }
}
