/** One bucket per caller, in a table of bounded size that makes room from its oldest end. */
module Limiters {
  import opened Options
  import opened RateLimit
  import opened Tallies

  /** The table as an ordered dictionary holds it: least recently seen first. */
  datatype Slot = Slot(caller: string, tokens: Tokens)

  type Table = seq<Slot>

  datatype Take = Take(caller: string, now: real)

  function Callers(table: Table): seq<string> {
    seq(|table|, i requires 0 <= i < |table| => table[i].caller)
  }

  function Find(table: Table, caller: string): Option<Tokens> {
    if table == [] then None
    else if table[0].caller == caller then Some(table[0].tokens)
    else Find(table[1..], caller)
  }

  function Removed(table: Table, caller: string): Table {
    if table == [] then []
    else if table[0].caller == caller then table[1..]
    else [table[0]] + Removed(table[1..], caller)
  }

  function LastOf<T>(items: seq<T>, n: nat): seq<T> {
    if |items| <= n then items else items[|items| - n..]
  }

  /** What one take makes of the table: a known caller moves to the end, a new one starts full at the
      end, and what no longer fits goes from the front. */
  function Served(limit: Configured, keys: nat, table: Table, take: Take): (Table, Admission) {
    match Find(table, take.caller)
    case Some(tokens) =>
      var (left, admission) := Taken(limit, tokens, take.now);
      (Removed(table, take.caller) + [Slot(take.caller, left)], admission)
    case None =>
      var (left, admission) := Taken(limit, Full(limit, take.now), take.now);
      (LastOf(table + [Slot(take.caller, left)], keys), admission)
  }

  ghost predicate OnePerCaller(table: Table) {
    forall i, j :: 0 <= i < j < |table| ==> table[i].caller != table[j].caller
  }

  lemma {:induction false} FindFinds(table: Table, caller: string)
    ensures Find(table, caller).Some? <==> exists i :: 0 <= i < |table| && table[i].caller == caller
    ensures OnePerCaller(table) ==> forall i :: 0 <= i < |table| && table[i].caller == caller ==>
      Find(table, caller) == Some(table[i].tokens)
  {
    if table != [] {
      FindFinds(table[1..], caller);
      assert forall i :: 0 < i < |table| ==> table[i] == table[1..][i - 1];
    }
  }

  lemma {:induction false} RemovedAt(table: Table, i: nat)
    requires OnePerCaller(table) && i < |table|
    ensures Removed(table, table[i].caller) == table[..i] + table[i + 1..]
  {
    if i > 0 {
      RemovedAt(table[1..], i - 1);
      assert table[1..][i - 1] == table[i];
      assert table == [table[0]] + table[1..];
      assert table[1..][..i - 1] == table[1..i] && table[1..][i..] == table[i + 1..];
    }
  }

  /** The table an order of callers and their tokens make together. */
  function Rows(order: seq<string>, levels: map<string, Tokens>): (rows: Table)
    requires forall c :: c in order ==> c in levels
    ensures |rows| == |order|
  {
    seq(|order|, i requires 0 <= i < |order| => Slot(order[i], levels[order[i]]))
  }

  lemma RowsShrunk(order: seq<string>, levels: map<string, Tokens>, fewer: map<string, Tokens>, n: nat)
    requires forall c :: c in order ==> c in levels
    requires forall c :: c in LastOf(order, n) ==> c in fewer && fewer[c] == levels[c]
    ensures Rows(LastOf(order, n), fewer) == LastOf(Rows(order, levels), n)
  {
    var short, rows := LastOf(order, n), Rows(order, levels);
    var cut := if |order| <= n then 0 else |order| - n;
    assert short == order[cut..] && LastOf(rows, n) == rows[cut..];
    hide LastOf;
    forall i | 0 <= i < |short| ensures Rows(short, fewer)[i] == rows[cut..][i] {
      assert short[i] in short;
    }
  }

  lemma DistinctTail(order: seq<string>)
    requires Distinct(order) && order != []
    ensures Distinct(order[1..])
    ensures forall c :: c in order[1..] <==> c in order && c != order[0]
  {
    assert order == [order[0]] + order[1..];
  }

  lemma FindMisses(order: seq<string>, levels: map<string, Tokens>, caller: string)
    requires (forall c :: c in order ==> c in levels) && caller !in order
    ensures Find(Rows(order, levels), caller) == None
  {
    FindFinds(Rows(order, levels), caller);
  }

  lemma RowsMoved(order: seq<string>, levels: map<string, Tokens>, at: nat)
    requires Distinct(order) && at < |order| && forall c :: c in order ==> c in levels
    ensures var moved := order[..at] + order[at + 1..] + [order[at]];
            && Distinct(moved) && (forall c :: c in moved <==> c in order)
            && Rows(moved, levels) == Removed(Rows(order, levels), order[at]) + [Slot(order[at], levels[order[at]])]
            && Find(Rows(order, levels), order[at]) == Some(levels[order[at]])
  {
    var rows := Rows(order, levels);
    assert rows[at].caller == order[at];
    FindFinds(rows, order[at]);
    RemovedAt(rows, at);
    var moved := order[..at] + order[at + 1..] + [order[at]];
    forall c | c in order ensures c in moved {
      var i :| 0 <= i < |order| && order[i] == c;
      assert c == if i < at then moved[i] else if i == at then moved[|order| - 1] else moved[i - 1];
    }
  }

  lemma RowsLastChanged(order: seq<string>, levels: map<string, Tokens>, tokens: Tokens)
    requires Distinct(order) && order != [] && forall c :: c in order ==> c in levels
    ensures var last := order[|order| - 1];
            var rows := Rows(order, levels);
            Rows(order, levels[last := tokens]) == rows[..|rows| - 1] + [Slot(last, tokens)]
  {
  }

  // ---------------------------------------------------------------- the table in place

  class Limiters {
    const limit: Configured
    const keys: nat
    var order: seq<string>
    var buckets: map<string, Bucket>

    /** Every caller in order has a bucket of its own, and no bucket is anyone else's. */
    ghost predicate Paired()
      reads this, buckets.Values
    {
      && Distinct(order)
      && (forall c :: c in order <==> c in buckets)
      && (forall c :: c in buckets ==> buckets[c].limit == limit)
      && (forall c, d :: c in buckets && d in buckets && c != d ==> buckets[c] != buckets[d])
    }

    ghost predicate Valid()
      reads this, buckets.Values
    {
      Paired() && |order| <= keys
    }

    ghost function Levels(): map<string, Tokens>
      reads this, buckets.Values
    {
      map c | c in buckets :: buckets[c].View()
    }

    ghost function View(): Table
      reads this, buckets.Values
      requires Paired()
    {
      Rows(order, Levels())
    }

    constructor (limit: Configured, keys: nat)
      ensures Valid() && fresh(buckets.Values) && View() == [] && this.limit == limit && this.keys == keys
    {
      this.limit := limit;
      this.keys := keys;
      order, buckets := [], map[];
    }

    /** Removes the front of the table. */
    method PopOldest()
      requires order != []
      modifies this`order, this`buckets
      ensures order == old(order)[1..] && buckets == old(buckets) - {old(order)[0]}
    {
      buckets := buckets - {order[0]};
      order := order[1..];
    }

    method IndexOf(caller: string) returns (at: nat)
      requires caller in order
      ensures at < |order| && order[at] == caller
    {
      at := 0;
      while order[at] != caller
        invariant 0 <= at < |order|
        invariant forall i :: 0 <= i < at ==> order[i] != caller
        decreases |order| - at
      {
        at := at + 1;
      }
    }

    method MoveToEnd(caller: string)
      requires Valid() && caller in buckets
      modifies this`order
      ensures Valid() && order != [] && order[|order| - 1] == caller
      ensures Find(old(View()), caller) == Some(buckets[caller].View())
      ensures View() == Removed(old(View()), caller) + [Slot(caller, buckets[caller].View())]
    {
      hide Rows, Find, Removed, Distinct;
      var at := IndexOf(caller);
      ghost var levels := Levels();
      assert forall c :: c in order ==> c in levels;
      RowsMoved(order, levels, at);
      ghost var moved := order[..at] + order[at + 1..] + [caller];
      order := order[..at] + order[at + 1..] + [caller];
      assert order == moved && Levels() == levels && levels[caller] == buckets[caller].View();
    }

    /** Drops callers from the front until the table is as small as it may be. */
    method DropOldest()
      requires Paired()
      modifies this`order, this`buckets
      ensures Valid() && order == LastOf(old(order), keys)
      ensures forall c :: c in buckets ==> c in old(buckets) && buckets[c] == old(buckets[c])
    {
      ghost var all, everyone := order, buckets;
      while |order| > keys
        invariant |order| <= |all| && order == all[|all| - |order|..]
        invariant |order| >= keys || order == all
        invariant Distinct(order)
        invariant forall c :: c in buckets <==> c in order
        invariant forall c :: c in buckets ==> c in everyone && buckets[c] == everyone[c]
      {
        DistinctTail(order);
        PopOldest();
      }
    }

    /** What stays is the end of the table, row by row. */
    method Shrink()
      requires Paired()
      modifies this`order, this`buckets
      ensures Valid() && order == LastOf(old(order), keys)
      ensures forall c :: c in buckets ==> c in old(buckets) && buckets[c] == old(buckets[c])
      ensures View() == LastOf(old(View()), keys)
    {
      hide Rows, Distinct, LastOf;
      ghost var levels := Levels();
      DropOldest();
      assert forall c :: c in order ==> c in Levels() && Levels()[c] == levels[c];
      RowsShrunk(old(order), levels, Levels(), keys);
    }

    method AddBucket(caller: string, now: real) returns (bucket: Bucket)
      requires Valid() && caller !in buckets
      modifies this`order, this`buckets
      ensures Paired() && fresh(bucket) && bucket.limit == limit && bucket.View() == Full(limit, now)
      ensures order == old(order) + [caller] && buckets == old(buckets)[caller := bucket]
      ensures View() == old(View()) + [Slot(caller, Full(limit, now))]
    {
      bucket := new Bucket(limit, now);
      buckets := buckets[caller := bucket];
      order := order + [caller];
    }

    /** Takes from the bucket at the end of the table, which is the one just touched. */
    method TakeLast(now: real) returns (admission: Admission)
      requires Valid() && order != []
      modifies buckets[order[|order| - 1]]
      ensures Valid()
      ensures var rows, caller := old(View()), order[|order| - 1];
              var (left, answer) := Taken(limit, old(buckets[caller].View()), now);
              admission == answer && View() == rows[..|rows| - 1] + [Slot(caller, left)]
    {
      hide Taken;
      var caller := order[|order| - 1];
      ghost var levels := Levels();
      admission := buckets[caller].Take(now);
      assert Levels() == levels[caller := buckets[caller].View()];
      RowsLastChanged(order, levels, buckets[caller].View());
    }

    /** Adds the caller's bucket and makes room for it. */
    method Enter(caller: string, now: real) returns (bucket: Bucket)
      requires Valid() && caller !in buckets
      modifies this`order, this`buckets
      ensures Valid() && fresh(bucket) && fresh(buckets.Values - old(buckets.Values))
      ensures bucket.limit == limit && bucket.View() == Full(limit, now)
      ensures View() == LastOf(old(View()) + [Slot(caller, Full(limit, now))], keys)
      ensures if keys == 0 then order == []
              else order != [] && order[|order| - 1] == caller && buckets[caller] == bucket
    {
      hide Full, Rows;
      bucket := AddBucket(caller, now);
      ghost var all := order;
      Shrink();
      assert keys > 0 ==> order[|order| - 1] == all[|all| - 1] && order[|order| - 1] in buckets;
    }

    method TakeNew(caller: string, now: real) returns (admission: Admission)
      requires Valid() && caller !in buckets
      modifies this`order, this`buckets
      ensures Valid() && fresh(buckets.Values - old(buckets.Values))
      ensures var (left, answer) := Taken(limit, Full(limit, now), now);
              admission == answer && View() == LastOf(old(View()) + [Slot(caller, left)], keys)
    {
      hide Taken, Full, Rows, LastOf;
      ghost var left := Taken(limit, Full(limit, now), now).0;
      LastSlot(View(), Slot(caller, Full(limit, now)), Slot(caller, left), keys);
      var bucket := Enter(caller, now);
      if keys == 0 {
        admission := bucket.Take(now);
      } else {
        admission := TakeLast(now);
      }
    }

    /** A take by a caller, known to the table or not. */
    method TakeFor(caller: string, now: real) returns (admission: Admission)
      requires Valid()
      modifies this, buckets.Values
      ensures Valid() && fresh(buckets.Values - old(buckets.Values))
      ensures (View(), admission) == Served(limit, keys, old(View()), Take(caller, now))
    {
      hide Taken, Find, Removed, Full, Rows;
      if caller in buckets {
        MoveToEnd(caller);
        admission := TakeLast(now);
      } else {
        FindMisses(order, Levels(), caller);
        admission := TakeNew(caller, now);
      }
    }
  }

  /** Which slots are kept does not depend on what the newest one holds. */
  lemma LastSlot(table: Table, a: Slot, b: Slot, keys: nat)
    ensures var kept := LastOf(table + [a], keys);
            LastOf(table + [b], keys) == if kept == [] then [] else kept[..|kept| - 1] + [b]
  {
  }
}
