/** Names in ascending order, character by character. */
module SortedNames {
  import opened Tallies

  predicate AtMost(a: string, b: string)
    decreases |a|
  {
    a == "" || (b != "" && (a[0] < b[0] || (a[0] == b[0] && AtMost(a[1..], b[1..]))))
  }

  /** The names part at the k-th character, which is the smaller one in the first. */
  ghost predicate PartsAt(a: string, b: string, k: int) {
    0 <= k < |a| && k < |b| && a[..k] == b[..k] && a[k] < b[k]
  }

  lemma StartAlike(a: string, b: string, k: int)
    requires PartsAt(a, b, k)
    ensures k > 0 ==> a[0] == b[0]
  {
    if k > 0 {
      assert a[..k][0] == b[..k][0];
    }
  }

  /** One name comes no later than another exactly when it begins it, or where they first differ has the smaller
      character. */
  lemma {:induction false} WhatComesFirst(a: string, b: string)
    ensures AtMost(a, b) <==> a <= b || exists k :: PartsAt(a, b, k)
    decreases |a|
  {
    if a != "" && b != "" {
      if a[0] == b[0] {
        WhatComesFirst(a[1..], b[1..]);
        forall k | PartsAt(a[1..], b[1..], k) ensures PartsAt(a, b, k + 1) {
          assert a[..k + 1] == [a[0]] + a[1..][..k] && b[..k + 1] == [b[0]] + b[1..][..k];
        }
        forall k | PartsAt(a, b, k) ensures k > 0 && PartsAt(a[1..], b[1..], k - 1) {
          assert a[1..][..k - 1] == a[..k][1..] && b[1..][..k - 1] == b[..k][1..];
        }
        assert a == [a[0]] + a[1..] && b == [b[0]] + b[1..];
      } else {
        forall k | PartsAt(a, b, k) ensures k > 0 ==> a[0] == b[0] {
          StartAlike(a, b, k);
        }
        assert PartsAt(a, b, 0) <==> a[0] < b[0];
      }
    }
  }

  lemma {:induction false} AnyTwoCompare(a: string, b: string)
    ensures AtMost(a, b) || AtMost(b, a)
    decreases |a|
  {
    if a != "" && b != "" && a[0] == b[0] {
      AnyTwoCompare(a[1..], b[1..]);
    }
  }

  lemma {:induction false} ComparesOn(a: string, b: string, c: string)
    requires AtMost(a, b) && AtMost(b, c)
    ensures AtMost(a, c)
    decreases |a|
  {
    if a != "" && a[0] == b[0] == c[0] {
      ComparesOn(a[1..], b[1..], c[1..]);
    }
  }

  ghost predicate Ascending(names: seq<string>) {
    forall i, j :: 0 <= i < j < |names| ==> AtMost(names[i], names[j])
  }

  /** The first of some names. */
  method Least(names: set<string>) returns (least: string)
    requires names != {}
    ensures least in names && forall name :: name in names ==> AtMost(least, name)
  {
    least :| least in names;
    AnyTwoCompare(least, least);
    var remaining := names - {least};
    while remaining != {}
      invariant least in names && remaining <= names
      invariant forall name :: name in names - remaining ==> AtMost(least, name)
    {
      var name :| name in remaining;
      AnyTwoCompare(least, name);
      if !AtMost(least, name) {
        forall other | other in names - remaining ensures AtMost(name, other) {
          ComparesOn(name, least, other);
        }
        AnyTwoCompare(name, name);
        least := name;
      }
      remaining := remaining - {name};
    }
  }

  method Sorted(names: set<string>) returns (order: seq<string>)
    ensures Ascending(order) && Distinct(order) && forall name :: name in order <==> name in names
  {
    order := [];
    var remaining := names;
    while remaining != {}
      invariant remaining <= names && Ascending(order) && Distinct(order)
      invariant forall name :: name in order <==> name in names - remaining
      invariant forall i, name :: 0 <= i < |order| && name in remaining ==> AtMost(order[i], name)
    {
      var least := Least(remaining);
      assert least !in order;
      order := order + [least];
      remaining := remaining - {least};
    }
  }
}
