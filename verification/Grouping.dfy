/** `groups.setdefault(key, []).append(x)` over a sequence: the dict's keys in order of first
    appearance, the list under each key, and what is left when the lists are joined again. */
module Grouping {
  import Sorting

  /** The members filed under `k`, in order. */
  function GroupOf<T>(s: seq<T>, key: T -> string, k: string): seq<T> {
    if s == [] then []
    else
      var init, last := s[..|s| - 1], s[|s| - 1];
      GroupOf(init, key, k) + if key(last) == k then [last] else []
  }

  /** The dict's keys, by first appearance. */
  function FirstKeys<T>(s: seq<T>, key: T -> string): seq<string> {
    if s == [] then []
    else
      var init, last := s[..|s| - 1], s[|s| - 1];
      var r := FirstKeys(init, key);
      if key(last) in r then r else r + [key(last)]
  }

  lemma GroupSnoc<T>(s: seq<T>, x: T, key: T -> string, k: string)
    ensures GroupOf(s + [x], key, k) == GroupOf(s, key, k) + if key(x) == k then [x] else []
  {
    assert (s + [x])[..|s|] == s;
  }

  lemma KeysSnoc<T>(s: seq<T>, x: T, key: T -> string)
    ensures FirstKeys(s + [x], key) == FirstKeys(s, key) + if key(x) in FirstKeys(s, key) then [] else [key(x)]
  {
    assert (s + [x])[..|s|] == s;
  }

  ghost predicate Distinct(order: seq<string>) {
    forall i, j :: 0 <= i < j < |order| ==> order[i] != order[j]
  }

  /** The dict has each key once. */
  lemma {:induction false} KeysDistinct<T>(s: seq<T>, key: T -> string)
    ensures Distinct(FirstKeys(s, key))
  {
    if s != [] {
      KeysDistinct(s[..|s| - 1], key);
    }
  }

  /** The dict's keys are the members' keys. */
  lemma {:induction false} KeysCover<T>(s: seq<T>, key: T -> string)
    ensures forall x :: x in s ==> key(x) in FirstKeys(s, key)
    ensures forall k :: k in FirstKeys(s, key) ==> exists x :: x in s && key(x) == k
  {
    if s != [] {
      var n := |s| - 1;
      KeysCover(s[..n], key);
      InitLast(s);
      assert key(s[n]) in FirstKeys(s, key);
      forall k | k in FirstKeys(s, key) ensures exists x :: x in s && key(x) == k {
        if k in FirstKeys(s[..n], key) {
          var x :| x in s[..n] && key(x) == k;
          assert x in s;
        } else {
          assert s[n] in s;
        }
      }
    }
  }

  lemma InitLast<T>(s: seq<T>)
    requires s != []
    ensures s == s[..|s| - 1] + [s[|s| - 1]]
  {
  }

  /** Exactly the members with that key. */
  lemma {:induction false} GroupMembers<T>(s: seq<T>, key: T -> string, k: string)
    ensures forall x :: x in GroupOf(s, key, k) ==> x in s && key(x) == k
    ensures forall x :: x in s && key(x) == k ==> x in GroupOf(s, key, k)
  {
    if s != [] {
      var n := |s| - 1;
      GroupMembers(s[..n], key, k);
      assert s == s[..n] + [s[n]];
    }
  }

  /** The dict under construction. */
  ghost predicate Groups<T>(keys: seq<string>, groups: map<string, seq<T>>, s: seq<T>, key: T -> string) {
    && keys == FirstKeys(s, key)
    && (forall k :: k in groups <==> k in keys)
    && (forall k :: k in groups ==> groups[k] == GroupOf(s, key, k))
  }

  lemma {:induction false} NoGroup<T>(s: seq<T>, key: T -> string, k: string)
    requires k !in FirstKeys(s, key)
    ensures GroupOf(s, key, k) == []
  {
    if s != [] {
      var n := |s| - 1;
      assert s == s[..n] + [s[n]];
      KeysSnoc(s[..n], s[n], key);
      NoGroup(s[..n], key, k);
    }
  }

  lemma GroupsSnoc<T>(keys: seq<string>, groups: map<string, seq<T>>, s: seq<T>, x: T, key: T -> string)
    requires Groups(keys, groups, s, key)
    ensures var k := key(x);
      if k in groups then Groups(keys, groups[k := groups[k] + [x]], s + [x], key)
      else Groups(keys + [k], groups[k := [x]], s + [x], key)
  {
    hide GroupOf, FirstKeys;
    KeysSnoc(s, x, key);
    if key(x) !in keys {
      NoGroup(s, key, key(x));
    }
    forall k ensures GroupOf(s + [x], key, k) == GroupOf(s, key, k) + if key(x) == k then [x] else [] {
      GroupSnoc(s, x, key, k);
    }
  }

  /** The loop itself. */
  method Group<T>(s: seq<T>, key: T -> string) returns (keys: seq<string>, groups: map<string, seq<T>>)
    ensures Groups(keys, groups, s, key)
  {
    hide GroupOf, FirstKeys;
    keys, groups := [], map[];
    assert s[..0] == [];
    NoKeys(key);
    for i := 0 to |s|
      invariant Groups(keys, groups, s[..i], key)
    {
      var k := key(s[i]);
      GroupsSnoc(keys, groups, s[..i], s[i], key);
      assert s[..i + 1] == s[..i] + [s[i]];
      if k in groups {
        groups := groups[k := groups[k] + [s[i]]];
      } else {
        keys := keys + [k];
        groups := groups[k := [s[i]]];
      }
    }
    assert s[..|s|] == s;
  }

  lemma NoKeys<T>(key: T -> string)
    ensures FirstKeys([], key) == []
  {
  }

  // ----- joining the lists again -----

  function Joined<T>(s: seq<T>, key: T -> string, order: seq<string>): seq<T> {
    if order == [] then [] else Joined(s, key, order[..|order| - 1]) + GroupOf(s, key, order[|order| - 1])
  }

  lemma {:induction false} JoinedSnoc<T>(s: seq<T>, x: T, key: T -> string, order: seq<string>)
    requires Distinct(order)
    ensures multiset(Joined(s + [x], key, order))
         == multiset(Joined(s, key, order)) + if key(x) in order then multiset{x} else multiset{}
  {
    if order != [] {
      hide GroupOf;
      var n := |order| - 1;
      JoinedSnoc(s, x, key, order[..n]);
      GroupSnoc(s, x, key, order[n]);
      SnocMember(order, key(x));
    }
  }

  lemma SnocMember(order: seq<string>, k: string)
    requires order != []
    ensures k in order <==> k in order[..|order| - 1] || k == order[|order| - 1]
  {
    assert order == order[..|order| - 1] + [order[|order| - 1]];
  }

  /** Nothing is lost or repeated. */
  lemma {:induction false} JoinedPermutation<T>(s: seq<T>, key: T -> string, order: seq<string>)
    requires Distinct(order) && forall x :: x in s ==> key(x) in order
    ensures multiset(Joined(s, key, order)) == multiset(s)
  {
    if s == [] {
      JoinedNothing(key, order);
    } else {
      hide Joined;
      var n := |s| - 1;
      JoinedPermutation(s[..n], key, order);
      JoinedSnoc(s[..n], s[n], key, order);
      InitLast(s);
      assert multiset(s) == multiset(s[..n]) + multiset{s[n]};
    }
  }

  lemma {:induction false} JoinedNothing<T>(key: T -> string, order: seq<string>)
    ensures Joined([], key, order) == []
  {
    if order != [] {
      JoinedNothing(key, order[..|order| - 1]);
    }
  }

  lemma {:induction false} JoinedKeys<T>(s: seq<T>, key: T -> string, order: seq<string>)
    ensures forall x :: x in Joined(s, key, order) ==> key(x) in order && x in s
  {
    if order != [] {
      JoinedKeys(s, key, order[..|order| - 1]);
      GroupMembers(s, key, order[|order| - 1]);
    }
  }

  lemma JoinedAvoids<T>(s: seq<T>, key: T -> string, order: seq<string>)
    requires order != [] && Distinct(order)
    ensures var n := |order| - 1; forall x :: x in Joined(s, key, order[..n]) ==> key(x) != order[n]
  {
    JoinedKeys(s, key, order[..|order| - 1]);
  }

  lemma {:induction false} GroupAppend<T>(a: seq<T>, b: seq<T>, key: T -> string, k: string)
    ensures GroupOf(a + b, key, k) == GroupOf(a, key, k) + GroupOf(b, key, k)
  {
    if b == [] {
      assert a + b == a;
    } else {
      var n := |b| - 1;
      hide GroupOf;
      GroupAppend(a, b[..n], key, k);
      Sorting.Associative(a, b[..n], [b[n]]);
      assert b == b[..n] + [b[n]];
      GroupSnoc(a + b[..n], b[n], key, k);
      GroupSnoc(b[..n], b[n], key, k);
      Sorting.Associative(GroupOf(a, key, k), GroupOf(b[..n], key, k), if key(b[n]) == k then [b[n]] else []);
    }
  }

  lemma {:induction false} GroupUniform<T>(s: seq<T>, key: T -> string, d: string, k: string)
    requires forall x :: x in s ==> key(x) == d
    ensures GroupOf(s, key, k) == if k == d then s else []
  {
    if s != [] {
      var n := |s| - 1;
      GroupUniform(s[..n], key, d, k);
      assert s == s[..n] + [s[n]];
    }
  }

  /** Within each key the order is unchanged. */
  lemma {:induction false} JoinedKeepsOrder<T>(s: seq<T>, key: T -> string, order: seq<string>, k: string)
    requires Distinct(order)
    ensures GroupOf(Joined(s, key, order), key, k) == if k in order then GroupOf(s, key, k) else []
  {
    if order != [] {
      hide GroupOf;
      var n := |order| - 1;
      JoinedKeepsOrder(s, key, order[..n], k);
      GroupAppend(Joined(s, key, order[..n]), GroupOf(s, key, order[n]), key, k);
      GroupMembers(s, key, order[n]);
      GroupUniform(GroupOf(s, key, order[n]), key, order[n], k);
      SnocMember(order, k);
    }
  }

  /** Members with one key stand together. */
  ghost predicate Contiguous<T>(s: seq<T>, key: T -> string) {
    forall i, j, k :: 0 <= i <= j <= k < |s| && key(s[i]) == key(s[k]) ==> key(s[j]) == key(s[i])
  }

  lemma ContiguousAppend<T>(a: seq<T>, b: seq<T>, key: T -> string, d: string)
    requires Contiguous(a, key)
    requires forall x :: x in b ==> key(x) == d
    requires forall x :: x in a ==> key(x) != d
    ensures Contiguous(a + b, key)
  {
    var s := a + b;
    forall i, j, k | 0 <= i <= j <= k < |s| && key(s[i]) == key(s[k]) ensures key(s[j]) == key(s[i]) {
      assert i < |a| ==> a[i] in a;
      assert i >= |a| ==> b[i - |a|] in b;
      assert k >= |a| ==> b[k - |a|] in b;
      assert j >= |a| ==> b[j - |a|] in b;
    }
  }

  lemma {:induction false} JoinedContiguous<T>(s: seq<T>, key: T -> string, order: seq<string>)
    requires Distinct(order)
    ensures Contiguous(Joined(s, key, order), key)
  {
    if order != [] {
      var n := |order| - 1;
      JoinedContiguous(s, key, order[..n]);
      JoinedAvoids(s, key, order);
      GroupMembers(s, key, order[n]);
      ContiguousAppend(Joined(s, key, order[..n]), GroupOf(s, key, order[n]), key, order[n]);
    }
  }

  lemma {:induction false} UniformKeys<T>(a: seq<T>, b: seq<T>, key: T -> string, d: string)
    requires forall x :: x in b ==> key(x) == d
    requires b != [] && forall x :: x in a ==> key(x) != d
    ensures FirstKeys(a + b, key) == FirstKeys(a, key) + [d]
  {
    var n := |b| - 1;
    assert a + b == (a + b[..n]) + [b[n]];
    KeysSnoc(a + b[..n], b[n], key);
    if n > 0 {
      UniformKeys(a, b[..n], key, d);
    } else {
      assert a + b[..n] == a;
      KeysCover(a, key);
    }
  }

  /** The keys come out in the order asked for. */
  lemma {:induction false} JoinedOrder<T>(s: seq<T>, key: T -> string, order: seq<string>)
    requires Distinct(order) && forall k :: k in order ==> GroupOf(s, key, k) != []
    ensures FirstKeys(Joined(s, key, order), key) == order
  {
    if order == [] {
      NoKeys(key);
    } else {
      hide GroupOf, FirstKeys;
      var n := |order| - 1;
      JoinedOrder(s, key, order[..n]);
      JoinedAvoids(s, key, order);
      GroupMembers(s, key, order[n]);
      UniformKeys(Joined(s, key, order[..n]), GroupOf(s, key, order[n]), key, order[n]);
      InitLast(order);
    }
  }

  /** The first member stays first. */
  lemma {:induction false} JoinedHead<T>(s: seq<T>, key: T -> string, order: seq<string>)
    requires s != [] && order != [] && order[0] == key(s[0])
    ensures Joined(s, key, order) != [] && Joined(s, key, order)[0] == s[0]
  {
    var n := |order| - 1;
    if n > 0 {
      JoinedHead(s, key, order[..n]);
    } else {
      GroupHead(s, key);
    }
  }

  lemma {:induction false} GroupHead<T>(s: seq<T>, key: T -> string)
    requires s != []
    ensures GroupOf(s, key, key(s[0])) != [] && GroupOf(s, key, key(s[0]))[0] == s[0]
    ensures FirstKeys(s, key) != [] && FirstKeys(s, key)[0] == key(s[0])
  {
    var n := |s| - 1;
    if n > 0 {
      GroupHead(s[..n], key);
    }
  }
}
