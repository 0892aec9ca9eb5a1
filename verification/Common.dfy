// Notions that several components share.

module Common {
  datatype Option<T> = None | Some(value: T)

  function Min(a: int, b: int): int {
    if a < b then a else b
  }

  function Max(a: int, b: int): int {
    if a < b then b else a
  }

  lemma {:induction false} SubsetSize<T>(a: set<T>, b: set<T>)
    requires a <= b
    ensures |a| <= |b|
  {
    if a != {} {
      var x :| x in a;
      SubsetSize(a - {x}, b - {x});
    }
  }
}

module Hashing {
  // Names, identifiers and raw secrets are opaque: only equality of them matters.
  type Text(==, !new)

  // A SHA-256 value. The free constructor makes hashing collision-free.
  datatype Digest = Sha256(of: Text)
}

module RedisKeys {
  import opened Common

  // A key with a time to live: absent once the clock reaches `until`.
  datatype Expiring<V> = Expiring(value: V, until: int)

  function Get<K, V>(keys: map<K, Expiring<V>>, k: K, now: int): Option<V> {
    if k in keys && now < keys[k].until then Some(keys[k].value) else None
  }

  ghost function Elements<T>(items: seq<T>): set<T> {
    set r | r in items
  }

  ghost predicate Distinct<T(!new)>(items: seq<T>) {
    forall i, j :: 0 <= i < j < |items| ==> items[i] != items[j]
  }

  // ZRANGE over a whole index, in some order.
  method Range<T(!new, ==)>(members: set<T>) returns (items: seq<T>)
    ensures Distinct(items) && Elements(items) == members
  {
    var todo := members;
    items := [];
    while todo != {}
      invariant todo <= members && Distinct(items) && Elements(items) == members - todo
    {
      var r :| r in todo;
      AddElement(items, r);
      todo := todo - {r};
      items := items + [r];
    }
  }

  lemma AddElement<T>(items: seq<T>, r: T)
    ensures Elements(items + [r]) == Elements(items) + {r}
  {
  }

  lemma NextElement<T(!new)>(items: seq<T>, i: nat)
    requires Distinct(items) && i < |items|
    ensures items[i] in Elements(items) && items[i] !in Elements(items[..i])
    ensures Elements(items[..i + 1]) == Elements(items[..i]) + {items[i]}
  {
    assert items[..i + 1] == items[..i] + [items[i]];
  }

  lemma {:induction false} ElementsSize<T(!new)>(items: seq<T>)
    requires Distinct(items)
    ensures |Elements(items)| == |items|
  {
    if items == [] {
      assert Elements(items) == {};
    } else {
      var n := |items| - 1;
      ElementsSize(items[..n]);
      NextElement(items, n);
      assert items[..n + 1] == items;
    }
  }
}
