/** Counting the items of a sequence that have a property, and adding up a value over them. */
module Tallies {

  function Count<T>(items: seq<T>, holds: T -> bool): nat {
    if items == [] then 0 else (if holds(items[0]) then 1 else 0) + Count(items[1..], holds)
  }

  function Sum<T>(items: seq<T>, value: T -> real): real {
    if items == [] then 0.0 else value(items[0]) + Sum(items[1..], value)
  }

  lemma {:induction false} CountConcat<T>(a: seq<T>, b: seq<T>, holds: T -> bool)
    ensures Count(a + b, holds) == Count(a, holds) + Count(b, holds)
  {
    if a == [] {
      assert a + b == b;
    } else {
      assert (a + b)[1..] == a[1..] + b;
      CountConcat(a[1..], b, holds);
    }
  }

  lemma {:induction false} SumConcat<T>(a: seq<T>, b: seq<T>, value: T -> real)
    ensures Sum(a + b, value) == Sum(a, value) + Sum(b, value)
  {
    if a == [] {
      assert a + b == b;
    } else {
      assert (a + b)[1..] == a[1..] + b;
      SumConcat(a[1..], b, value);
    }
  }

  /** An item of a sequence can be taken out first. */
  lemma TakeOut<T>(items: seq<T>, x: T) returns (i: nat)
    requires x in multiset(items)
    ensures i < |items| && items[i] == x
    ensures multiset(items[..i] + items[i + 1..]) == multiset(items) - multiset{x}
    ensures items == items[..i] + ([x] + items[i + 1..])
  {
    i :| 0 <= i < |items| && items[i] == x;
    assert items == items[..i] + ([x] + items[i + 1..]);
  }

  lemma {:induction false} CountPermutes<T>(a: seq<T>, b: seq<T>, holds: T -> bool)
    requires multiset(a) == multiset(b)
    ensures Count(a, holds) == Count(b, holds)
  {
    if a == [] {
      assert |multiset(b)| == |b|;
    } else {
      assert a == [a[0]] + a[1..];
      assert a[0] in multiset(b);
      var i := TakeOut(b, a[0]);
      CountConcat(b[..i], [a[0]] + b[i + 1..], holds);
      CountConcat(b[..i], b[i + 1..], holds);
      assert ([a[0]] + b[i + 1..])[1..] == b[i + 1..];
      CountPermutes(a[1..], b[..i] + b[i + 1..], holds);
    }
  }

  lemma {:induction false} SumPermutes<T>(a: seq<T>, b: seq<T>, value: T -> real)
    requires multiset(a) == multiset(b)
    ensures Sum(a, value) == Sum(b, value)
  {
    if a == [] {
      assert |multiset(b)| == |b|;
    } else {
      assert a == [a[0]] + a[1..];
      assert a[0] in multiset(b);
      var i := TakeOut(b, a[0]);
      SumConcat(b[..i], [a[0]] + b[i + 1..], value);
      SumConcat(b[..i], b[i + 1..], value);
      assert ([a[0]] + b[i + 1..])[1..] == b[i + 1..];
      SumPermutes(a[1..], b[..i] + b[i + 1..], value);
    }
  }

  /** Sums compare as their terms do, and agree only where all of them agree. */
  lemma {:induction false} SumMonotone<T>(items: seq<T>, f: T -> real, g: T -> real)
    requires forall x :: x in items ==> f(x) <= g(x)
    ensures Sum(items, f) <= Sum(items, g)
    ensures Sum(items, f) == Sum(items, g) <==> forall x :: x in items ==> f(x) == g(x)
  {
    if items != [] {
      SumMonotone(items[1..], f, g);
      assert forall x :: x in items <==> x == items[0] || x in items[1..];
    }
  }

  /** Proportions add up to their number at most, to that only when all are 1, and to nothing only when all
      are nothing. */
  lemma {:induction false} ProportionsAddUp<T>(items: seq<T>, f: T -> real)
    requires forall x :: x in items ==> 0.0 <= f(x) <= 1.0
    ensures 0.0 <= Sum(items, f) <= |items| as real
    ensures Sum(items, f) == |items| as real <==> forall x :: x in items ==> f(x) == 1.0
    ensures Sum(items, f) == 0.0 <==> forall x :: x in items ==> f(x) == 0.0
    decreases |items|
  {
    if items != [] {
      ProportionsAddUp(items[1..], f);
      assert forall x :: x in items <==> x == items[0] || x in items[1..];
    }
  }

  lemma {:induction false} SumConstant<T>(items: seq<T>, f: T -> real, c: real)
    requires forall x :: x in items ==> f(x) == c
    ensures Sum(items, f) == |items| as real * c
  {
    if items != [] {
      SumConstant(items[1..], f, c);
      assert |items| as real * c == c + (|items| - 1) as real * c;
    }
  }

  lemma {:induction false} CountAll<T>(items: seq<T>, holds: T -> bool)
    ensures Count(items, holds) <= |items|
    ensures Count(items, holds) == |items| <==> forall x :: x in items ==> holds(x)
    ensures Count(items, holds) == 0 <==> forall x :: x in items ==> !holds(x)
  {
    if items != [] {
      CountAll(items[1..], holds);
      assert forall x :: x in items <==> x == items[0] || x in items[1..];
    }
  }

  lemma {:induction false} CountMonotone<T>(items: seq<T>, p: T -> bool, q: T -> bool)
    requires forall x :: x in items && p(x) ==> q(x)
    ensures Count(items, p) <= Count(items, q)
  {
    if items != [] {
      CountMonotone(items[1..], p, q);
    }
  }

  /** The places of the items that have a property. */
  ghost function Places<T>(items: seq<T>, holds: T -> bool): set<int> {
    set i | 0 <= i < |items| && holds(items[i])
  }

  /** A count is the number of those places. */
  lemma {:induction false} CountIsSize<T>(items: seq<T>, holds: T -> bool)
    ensures Count(items, holds) == |Places(items, holds)|
    decreases |items|
  {
    if items != [] {
      var n := |items| - 1;
      CountIsSize(items[..n], holds);
      CountSnoc(items, n, holds);
      assert items[..n + 1] == items;
      var before, all := Places(items[..n], holds), Places(items, holds);
      if holds(items[n]) {
        assert all == before + {n};
      } else {
        assert all == before;
      }
    }
  }

  lemma CountSnoc<T>(items: seq<T>, n: nat, holds: T -> bool)
    requires n < |items|
    ensures Count(items[..n + 1], holds) == Count(items[..n], holds) + if holds(items[n]) then 1 else 0
  {
    assert items[..n + 1] == items[..n] + [items[n]];
    CountConcat(items[..n], [items[n]], holds);
  }

  // ---------------------------------------------------------------- a table of marks

  function Tally<T>(items: seq<T>, value: T -> nat): nat {
    if items == [] then 0 else value(items[0]) + Tally(items[1..], value)
  }

  lemma {:induction false} TallySnoc<T>(items: seq<T>, n: nat, value: T -> nat)
    requires n < |items|
    ensures Tally(items[..n + 1], value) == Tally(items[..n], value) + value(items[n])
    decreases n
  {
    if n > 0 {
      TallySnoc(items[1..], n - 1, value);
      assert items[..n + 1][1..] == items[1..][..n];
      assert items[..n][1..] == items[1..][..n - 1];
    }
  }

  lemma {:induction false} TallyOfSums<T>(items: seq<T>, f: T -> nat, g: T -> nat, h: T -> nat)
    requires forall x :: x in items ==> h(x) == f(x) + g(x)
    ensures Tally(items, h) == Tally(items, f) + Tally(items, g)
    decreases |items|
  {
    if items != [] {
      TallyOfSums(items[1..], f, g, h);
    }
  }

  lemma {:induction false} TallyAgrees<T>(items: seq<T>, f: T -> nat, g: T -> nat)
    requires forall x :: x in items ==> f(x) == g(x)
    ensures Tally(items, f) == Tally(items, g)
    decreases |items|
  {
    if items != [] {
      TallyAgrees(items[1..], f, g);
    }
  }

  /** Counting is adding up ones. */
  function Mark<T>(holds: T -> bool): T -> nat {
    (x: T) => if holds(x) then 1 else 0
  }

  lemma {:induction false} CountIsTally<T>(items: seq<T>, holds: T -> bool)
    ensures Count(items, holds) == Tally(items, Mark(holds))
    decreases |items|
  {
    if items != [] {
      CountIsTally(items[1..], holds);
    }
  }

  lemma {:induction false} TallyOfNothing<T>(items: seq<T>, f: T -> nat)
    requires forall x :: x in items ==> f(x) == 0
    ensures Tally(items, f) == 0
    decreases |items|
  {
    if items != [] {
      TallyOfNothing(items[1..], f);
    }
  }

  function Across<A, B>(marked: (A, B) -> bool, a: A): B -> bool {
    (b: B) => marked(a, b)
  }

  function Down<A, B>(marked: (A, B) -> bool, b: B): A -> bool {
    (a: A) => marked(a, b)
  }

  function InRow<A, B>(columns: seq<B>, marked: (A, B) -> bool): A -> nat {
    (a: A) => Count(columns, Across(marked, a))
  }

  function InColumn<A, B>(rows: seq<A>, marked: (A, B) -> bool): B -> nat {
    (b: B) => Count(rows, Down(marked, b))
  }

  /** The marks of a table are as many row by row as column by column. */
  lemma {:induction false} RowsOrColumns<A, B>(rows: seq<A>, columns: seq<B>, marked: (A, B) -> bool)
    ensures Tally(rows, InRow(columns, marked)) == Tally(columns, InColumn(rows, marked))
    decreases |rows|
  {
    if rows == [] {
      TallyOfNothing(columns, InColumn(rows, marked));
    } else {
      RowsOrColumns(rows[1..], columns, marked);
      var first := Across(marked, rows[0]);
      CountIsTally(columns, first);
      TallyOfSums(columns, Mark(first), InColumn(rows[1..], marked), InColumn(rows, marked));
    }
  }

  ghost predicate Distinct<T>(items: seq<T>) {
    forall i, j :: 0 <= i < j < |items| ==> items[i] != items[j]
  }

  /** Of distinct items, the ones equal to a given one are one or none. */
  lemma {:induction false} CountOfOne<T>(items: seq<T>, x: T, holds: T -> bool)
    requires Distinct(items)
    requires forall y :: y in items ==> (holds(y) <==> y == x)
    ensures Count(items, holds) == if x in items then 1 else 0
    decreases |items|
  {
    if items != [] {
      if items[0] == x {
        assert x !in items[1..];
        CountAll(items[1..], holds);
      } else {
        CountOfOne(items[1..], x, holds);
      }
    }
  }

  lemma {:induction false} CountOfEither<T>(items: seq<T>, p: T -> bool, q: T -> bool, either: T -> bool)
    requires forall x :: x in items ==> (either(x) <==> p(x) || q(x)) && !(p(x) && q(x))
    ensures Count(items, either) == Count(items, p) + Count(items, q)
    decreases |items|
  {
    if items != [] {
      CountOfEither(items[1..], p, q, either);
    }
  }
}
