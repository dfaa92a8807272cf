/**
 * The adapter table of the location API: a fixed array whose entries form a
 * prefix without holes.  Adding takes the first free entry; removing moves the
 * last entry into the gap.
 */
module AdapterTable {

  const MAX_ADAPTERS := 10

  class LocAdapterBase {
    /** The event mask, by its bits. */
    var evtMask: set<nat>

    constructor (evtMask: set<nat>) {
      this.evtMask := evtMask;
    }
  }

  /** What the API posts to its message task: open with the current event mask, or close. */
  datatype Msg = OpenMsg | CloseMsg

  // ----- The table as a sequence -----

  function Added<T(==)>(table: seq<T>, x: T): seq<T> {
    if x in table || |table| >= MAX_ADAPTERS then table else table + [x]
  }

  /** The place of the first x, or the length of the table. */
  function Place<T(==)>(table: seq<T>, x: T): (i: nat)
    ensures i <= |table|
    ensures i < |table| ==> table[i] == x
    ensures forall k :: 0 <= k < i ==> table[k] != x
  {
    if table == [] || table[0] == x then 0 else 1 + Place(table[1..], x)
  }

  function Removed<T(==)>(table: seq<T>, x: T): seq<T> {
    var i := Place(table, x);
    if i == |table| then table else table[i := table[|table| - 1]][..|table| - 1]
  }

  predicate NoDuplicates<T(==)>(table: seq<T>) {
    forall i, j :: 0 <= i < j < |table| ==> table[i] != table[j]
  }

  class LocApiBase {
    const locAdapters: array<LocAdapterBase?>
    const excludedMask: set<nat>
    /** The entries of the table, and everything posted. */
    ghost var table: seq<LocAdapterBase>
    ghost var posted: seq<Msg>

    ghost predicate Valid()
      reads this, locAdapters
    {
      && locAdapters.Length == MAX_ADAPTERS && |table| <= MAX_ADAPTERS
      && (forall i :: 0 <= i < |table| ==> locAdapters[i] == table[i])
      && (forall i :: |table| <= i < MAX_ADAPTERS ==> locAdapters[i] == null)
      && NoDuplicates(table)
    }

    constructor (excludedMask: set<nat>)
      ensures Valid() && table == [] && posted == [] && fresh(locAdapters)
      ensures this.excludedMask == excludedMask
    {
      locAdapters := new LocAdapterBase?[MAX_ADAPTERS](_ => null);
      this.excludedMask := excludedMask;
      table, posted := [], [];
    }

    method AddAdapter(adapter: LocAdapterBase)
      requires Valid()
      modifies this, locAdapters
      ensures Valid() && table == Added(old(table), adapter)
      ensures posted == old(posted) + if table == old(table) then [] else [OpenMsg]
    {
      var i := 0;
      while i < MAX_ADAPTERS && locAdapters[i] != adapter
        invariant 0 <= i <= |table| && table == old(table) && posted == old(posted) && Valid()
        invariant adapter !in table[..i]
      {
        if locAdapters[i] == null {
          locAdapters[i] := adapter;
          table := table + [adapter];
          posted := posted + [OpenMsg];
          return;
        }
        i := i + 1;
      }
    }

    /** One scan: it clears the entry, finds the end of the prefix and moves the last entry down. */
    method RemoveAdapter(adapter: LocAdapterBase)
      requires Valid()
      modifies this, locAdapters
      ensures Valid() && table == Removed(old(table), adapter)
      ensures posted == old(posted) + if adapter !in old(table) then []
                                      else if table == [] then [CloseMsg] else [OpenMsg]
    {
      var i := 0;
      ghost var removed := false;
      while i < MAX_ADAPTERS && locAdapters[i] != null
        invariant Valid() && 0 <= i <= if removed then |table| + 1 else |table|
        invariant !removed ==> table == old(table) && posted == old(posted) && adapter !in table[..i]
        invariant removed ==>
                    i == |table| + 1 && adapter in old(table) && table == Removed(old(table), adapter)
                    && posted == old(posted) + if table == [] then [CloseMsg] else [OpenMsg]
        decreases MAX_ADAPTERS - i
      {
        if locAdapters[i] == adapter {
          i := CloseGap(adapter, i);
          removed := true;
        }
        i := i + 1;
      }
    }

    /** Clear the entry found at j, find the last entry and move it down; i is where that was. */
    method CloseGap(adapter: LocAdapterBase, j: nat) returns (i: nat)
      requires Valid() && j < |table| && table[j] == adapter
      modifies this, locAdapters
      ensures Valid() && table == Removed(old(table), adapter) && i == |table|
      ensures posted == old(posted) + [if table == [] then CloseMsg else OpenMsg]
    {
      assert Place(table, adapter) == j;
      locAdapters[j] := null;
      i := j + 1;
      while i < MAX_ADAPTERS && locAdapters[i] != null
        invariant j < i <= |table|
        decreases MAX_ADAPTERS - i
      {
        i := i + 1;
      }
      i := i - 1;
      locAdapters[j] := locAdapters[i];
      locAdapters[i] := null;
      posted := posted + [if i == 0 then CloseMsg else OpenMsg];
      table := table[j := table[i]][..i];
    }

    /** The events some adapter wants, but for the excluded ones. */
    method GetEvtMask() returns (mask: set<nat>)
      requires Valid()
      ensures forall b :: b in mask <==>
                b !in excludedMask && exists i :: 0 <= i < |table| && b in table[i].evtMask
    {
      mask := {};
      var i := 0;
      while i < MAX_ADAPTERS && locAdapters[i] != null
        invariant 0 <= i <= |table|
        invariant forall b :: b in mask <==> exists k :: 0 <= k < i && b in table[k].evtMask
      {
        mask := mask + locAdapters[i].evtMask;
        i := i + 1;
      }
      mask := mask - excludedMask;
    }
  }

  // ----- What adding and removing do to the table -----

  /** Removing deletes exactly the given entry. */
  lemma RemovedDeletes<T>(table: seq<T>, x: T)
    ensures multiset(Removed(table, x)) == multiset(table) - multiset{x}
  {
    var i, n := Place(table, x), |table|;
    if i < n {
      MoveLast(table, i);
    } else {
      assert x !in table;
    }
  }

  lemma MoveLast<T>(table: seq<T>, i: nat)
    requires i < |table|
    ensures multiset(table[i := table[|table| - 1]][..|table| - 1]) == multiset(table) - multiset{table[i]}
  {
    var front, last := table[..|table| - 1], table[|table| - 1];
    assert table == front + [last];
    if i < |front| {
      assert table[i := last][..|table| - 1] == front[i := last];
      UpdateCounts(front, i, last);
    } else {
      assert table[i := last][..|table| - 1] == front;
    }
  }

  lemma UpdateCounts<T>(s: seq<T>, i: nat, x: T)
    requires i < |s|
    ensures multiset(s[i := x]) == multiset(s) - multiset{s[i]} + multiset{x}
  {
  }

  /** The entries keep their places, but for the last, which takes that of the one removed. */
  lemma RemovedPlaces<T>(table: seq<T>, x: T, k: nat)
    requires NoDuplicates(table) && x in table && k < |table| - 1
    ensures |Removed(table, x)| == |table| - 1
    ensures table[k] != x ==> Removed(table, x)[k] == table[k]
    ensures table[k] == x ==> Removed(table, x)[k] == table[|table| - 1]
  {
  }

  lemma RemovedNoDuplicates<T>(table: seq<T>, x: T)
    requires NoDuplicates(table)
    ensures NoDuplicates(Removed(table, x)) && x !in Removed(table, x)
  {
  }

  lemma AddedOnce<T>(table: seq<T>, x: T)
    requires NoDuplicates(table)
    ensures NoDuplicates(Added(table, x))
    ensures |table| < MAX_ADAPTERS ==> x in Added(table, x)
  {
  }

  /** Adding a new entry to a table that has room and removing it again changes nothing. */
  lemma AddThenRemove<T>(table: seq<T>, x: T)
    requires NoDuplicates(table) && x !in table && |table| < MAX_ADAPTERS
    ensures Removed(Added(table, x), x) == table
  {
    assert (table + [x])[|table|] == x;
    assert Place(table + [x], x) == |table|;
  }

  // ----- Over all runs -----

  datatype Call<T> = Add(x: T) | Remove(x: T)

  datatype Run<T> = Run(table: seq<T>, posted: seq<Msg>)

  function After<T(==)>(r: Run<T>, c: Call<T>): Run<T> {
    match c
    case Add(x) =>
      var table := Added(r.table, x);
      Run(table, r.posted + if table == r.table then [] else [OpenMsg])
    case Remove(x) =>
      var table := Removed(r.table, x);
      Run(table, r.posted + if x !in r.table then [] else if table == [] then [CloseMsg] else [OpenMsg])
  }

  function Runs<T(==)>(cs: seq<Call<T>>): Run<T> {
    if cs == [] then Run([], []) else After(Runs(cs[..|cs| - 1]), cs[|cs| - 1])
  }

  /** The table never holds more than there is room for, and nothing twice. */
  lemma {:induction false} RunTable<T>(cs: seq<Call<T>>)
    ensures |Runs(cs).table| <= MAX_ADAPTERS && NoDuplicates(Runs(cs).table)
  {
    if cs == [] {
    } else {
      RunTable(cs[..|cs| - 1]);
      var r, c := Runs(cs[..|cs| - 1]), cs[|cs| - 1];
      RemovedNoDuplicates(r.table, c.x);
      AddedOnce(r.table, c.x);
    }
  }

  /** The modem connection was last closed exactly if the table is empty and something was ever posted. */
  lemma {:induction false} ClosedWhenEmpty<T>(cs: seq<Call<T>>)
    ensures LastClosed(Runs(cs))
  {
    if cs == [] {
    } else {
      ClosedWhenEmpty(cs[..|cs| - 1]);
      AfterClosed(Runs(cs[..|cs| - 1]), cs[|cs| - 1]);
    }
  }

  /** The last message is a close exactly when the table is empty. */
  predicate LastClosed<T>(r: Run<T>) {
    if r.posted == [] then r.table == [] else r.posted[|r.posted| - 1] == CloseMsg <==> r.table == []
  }

  lemma AfterClosed<T>(r: Run<T>, c: Call<T>)
    requires LastClosed(r)
    ensures LastClosed(After(r, c))
  {
  }

  /** One message is posted by each call that changes the table, and none by any other. */
  lemma MessagePerChange<T>(r: Run<T>, c: Call<T>)
    ensures |After(r, c).posted| == |r.posted| + if After(r, c).table != r.table then 1 else 0
    ensures r.posted <= After(r, c).posted
    ensures After(r, c).table != r.table <==>
            if c.Add? then c.x !in r.table && |r.table| < 10 else c.x in r.table
  {
    if c.Add? {
      assert |r.table + [c.x]| == |r.table| + 1;
    } else {
      RemovedLength(r.table, c.x);
    }
  }

  lemma RemovedLength<T>(table: seq<T>, x: T)
    ensures |Removed(table, x)| == |table| - if x in table then 1 else 0
  {
    if x in table {
      assert Place(table, x) < |table|;
    }
  }

  /** A close is posted exactly by the removal that empties the table. */
  lemma CloseOnEmptying<T>(r: Run<T>, c: Call<T>)
    ensures After(r, c).posted == r.posted + [CloseMsg] <==> r.table != [] && After(r, c).table == []
  {
    assert r.posted + [CloseMsg] != r.posted + [OpenMsg] by {
      assert (r.posted + [CloseMsg])[|r.posted|] != (r.posted + [OpenMsg])[|r.posted|];
    }
  }
}
