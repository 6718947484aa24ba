/**
 The total memory cap of the heavy slots: a watcher stops only a largest tree, and watchers that look at the
 same listing need no coordinator, since exactly one of them stops it.

 A snapshot is the process listing and the live holders of the slots, in the order the watcher visits them;
 `numbered` tells a slot with a watcher from the single slot of older copies of the script, which has none.
 */
module SlotWatch {
  import opened Options
  import opened ProcessTree

  datatype Slot = Slot(numbered: bool, holder: Pid)

  datatype Snapshot = Snapshot(rows: seq<Row>, slots: seq<Slot>)

  function TotalRss(lines: seq<Line>): nat {
    if lines == [] then 0 else TotalRss(lines[..|lines| - 1]) + lines[|lines| - 1].rss
  }

  /** The MiB of a holder's tree. */
  ghost function TreeMib(rows: seq<Row>, holder: Pid): nat {
    TotalRss(Descendants(rows, holder, None, |rows|)) / 1024
  }

  /** The MiB of the first `n` slots together. */
  ghost function TotalMib(s: Snapshot, n: nat): nat
    requires n <= |s.slots|
  {
    if n == 0 then 0 else TotalMib(s, n - 1) + TreeMib(s.rows, s.slots[n - 1].holder)
  }

  ghost predicate Considered(s: Snapshot, onlyNumbered: bool, k: int) {
    0 <= k < |s.slots| && (onlyNumbered ==> s.slots[k].numbered)
  }

  ghost function Mib(s: Snapshot, k: int): nat
    requires 0 <= k < |s.slots|
  {
    TreeMib(s.rows, s.slots[k].holder)
  }

  /** `k` is the first of the largest among the first `n` slots, or among the numbered ones of them. */
  ghost predicate FirstLargest(s: Snapshot, onlyNumbered: bool, k: int, n: nat) {
    && k < n && Considered(s, onlyNumbered, k)
    && forall j :: j < n && Considered(s, onlyNumbered, j) ==>
         if j < k then Mib(s, j) < Mib(s, k) else Mib(s, j) <= Mib(s, k)
  }

  /** The slot that the running maximum over the first `n` slots has found. */
  ghost function Largest(s: Snapshot, onlyNumbered: bool, n: nat): (k: Option<nat>)
    requires n <= |s.slots|
    ensures k.Some? ==> FirstLargest(s, onlyNumbered, k.value, n)
    ensures k.None? ==> forall j :: j < n ==> !Considered(s, onlyNumbered, j)
  {
    if n == 0 then None
    else
      var before := Largest(s, onlyNumbered, n - 1);
      if Considered(s, onlyNumbered, n - 1) && (before.None? || Mib(s, n - 1) > Mib(s, before.value)) then Some(n - 1)
      else before
  }

  ghost function LargestHolder(s: Snapshot, onlyNumbered: bool, n: nat): Option<Pid>
    requires n <= |s.slots|
  {
    match Largest(s, onlyNumbered, n)
    case None => None
    case Some(k) => Some(s.slots[k].holder)
  }

  ghost function LargestMib(s: Snapshot, onlyNumbered: bool, n: nat): int
    requires n <= |s.slots|
  {
    match Largest(s, onlyNumbered, n)
    case None => -1
    case Some(k) => Mib(s, k)
  }

  /** The totals are sums, one line and one slot at a time. */
  lemma TotalsMean(lines: seq<Line>, line: Line, s: Snapshot, n: nat)
    requires n < |s.slots|
    ensures TotalRss([]) == 0 && TotalRss(lines + [line]) == TotalRss(lines) + line.rss
    ensures TotalMib(s, 0) == 0 && TotalMib(s, n + 1) == TotalMib(s, n) + Mib(s, n)
  {
    hide TreeMib;
    assert (lines + [line])[..|lines|] == lines;
  }

  method HolderMib(rows: seq<Row>, holder: Pid) returns (mib: nat)
    ensures mib == TreeMib(rows, holder)
    ensures mib * 1024 <= TotalRss(Descendants(rows, holder, None, |rows|)) < (mib + 1) * 1024
  {
    var lines := TreeIn(rows, holder, None);
    var sum := 0;
    var i := 0;
    while i < |lines|
      invariant 0 <= i <= |lines| && sum == TotalRss(lines[..i])
    {
      assert lines[..i + 1][..i] == lines[..i];
      sum := sum + lines[i].rss;
      i := i + 1;
    }
    assert lines[..i] == lines;
    mib := sum / 1024;
  }

  /** Visits the slots once, keeping the total and two running maxima. */
  method Survey(s: Snapshot) returns (total: nat, largest: Option<Pid>, largestNumbered: Option<Pid>)
    ensures total == TotalMib(s, |s.slots|)
    ensures largest == LargestHolder(s, false, |s.slots|)
    ensures largestNumbered == LargestHolder(s, true, |s.slots|)
  {
    hide TreeMib;
    total := 0;
    largest, largestNumbered := None, None;
    var largestMib: int, largestNumberedMib: int := -1, -1;
    var i := 0;
    while i < |s.slots|
      invariant 0 <= i <= |s.slots| && total == TotalMib(s, i)
      invariant largest == LargestHolder(s, false, i) && largestMib == LargestMib(s, false, i)
      invariant largestNumbered == LargestHolder(s, true, i) && largestNumberedMib == LargestMib(s, true, i)
    {
      var h := s.slots[i].holder;
      var mib := HolderMib(s.rows, h);
      total := total + mib;
      if mib > largestMib {
        largest, largestMib := Some(h), mib;
      }
      if s.slots[i].numbered && mib > largestNumberedMib {
        largestNumbered, largestNumberedMib := Some(h), mib;
      }
      i := i + 1;
    }
  }

  /** The holder of the slot without a number. */
  function OldHolder(slots: seq<Slot>): Option<Pid> {
    if slots == [] || slots[|slots| - 1].numbered then None else Some(slots[|slots| - 1].holder)
  }

  /** Which tree the watcher of the slot that `held` holds stops, if any. */
  ghost function VictimOf(s: Snapshot, totalCap: nat, held: Pid): Option<Pid> {
    var n := |s.slots|;
    var largest := LargestHolder(s, false, n);
    if TotalMib(s, n) <= totalCap then None
    else if largest == Some(held) then largest
    else if largest == OldHolder(s.slots) && LargestHolder(s, true, n) == Some(held) then largest
    else None
  }

  /** Which tree a watcher stops, spelled out. */
  lemma VictimMeans(s: Snapshot, totalCap: nat, held: Pid, k: nat)
    requires Largest(s, false, |s.slots|) == Some(k)
    ensures k < |s.slots|
    ensures var numbered := Largest(s, true, |s.slots|);
            (VictimOf(s, totalCap, held) == Some(s.slots[k].holder)
             <==> && TotalMib(s, |s.slots|) > totalCap
                  && (|| s.slots[k].holder == held
                      || (&& !s.slots[|s.slots| - 1].numbered && s.slots[|s.slots| - 1].holder == s.slots[k].holder
                          && numbered.Some? && numbered.value < |s.slots| && s.slots[numbered.value].holder == held)))
    ensures VictimOf(s, totalCap, held) in {None, Some(s.slots[k].holder)}
  {
    hide TotalMib, TreeMib;
  }

  method Victim(s: Snapshot, totalCap: nat, held: Pid) returns (victim: Option<Pid>)
    ensures victim == VictimOf(s, totalCap, held)
  {
    var total, largest, largestNumbered := Survey(s);
    victim := None;
    if total > totalCap && largest.Some? {
      if largest == Some(held) {
        victim := largest;
      } else if largest == OldHolder(s.slots) && largestNumbered == Some(held) {
        victim := largest;
      }
    }
  }

  /** The slot without a number is visited last. */
  ghost predicate OldSlotLast(s: Snapshot) {
    forall k :: 0 <= k < |s.slots| && !s.slots[k].numbered ==> k == |s.slots| - 1
  }

  ghost predicate HoldsNumbered(s: Snapshot, held: Pid) {
    exists k :: 0 <= k < |s.slots| && s.slots[k] == Slot(true, held)
  }

  /** Whatever listing a watcher looks at, it stops only a largest tree of it, its own or that of the unwatched slot. */
  lemma VictimIsLargest(s: Snapshot, totalCap: nat, held: Pid) returns (k: nat)
    requires VictimOf(s, totalCap, held).Some?
    ensures k < |s.slots| && VictimOf(s, totalCap, held) == Some(s.slots[k].holder)
    ensures forall j :: 0 <= j < |s.slots| ==> Mib(s, j) <= Mib(s, k)
    ensures TotalMib(s, |s.slots|) > totalCap
    ensures s.slots[k].holder == held || OldHolder(s.slots) == Some(s.slots[k].holder)
  {
    hide TotalMib, TreeMib;
    k := Largest(s, false, |s.slots|).value;
    forall j | 0 <= j < |s.slots|
      ensures Mib(s, j) <= Mib(s, k)
    {
      assert Considered(s, false, j);
    }
  }

  /** Among watchers that see the same, no coordinator is needed: past the cap exactly one acts, on a largest tree. */
  lemma ExactlyOneWatcherStopsTheLargest(s: Snapshot, totalCap: nat) returns (actor: Pid, k: nat)
    requires OldSlotLast(s) && TotalMib(s, |s.slots|) > totalCap
    requires exists held :: HoldsNumbered(s, held)
    ensures k < |s.slots| && forall j :: 0 <= j < |s.slots| ==> Mib(s, j) <= Mib(s, k)
    ensures HoldsNumbered(s, actor) && VictimOf(s, totalCap, actor) == Some(s.slots[k].holder)
    ensures forall other :: HoldsNumbered(s, other) && other != actor ==> VictimOf(s, totalCap, other) == None
  {
    hide TotalMib, TreeMib;
    var n := |s.slots|;
    var held :| HoldsNumbered(s, held);
    var i :| 0 <= i < n && s.slots[i] == Slot(true, held);
    assert Considered(s, true, i) && Considered(s, false, i);
    k := Largest(s, false, n).value;
    var numbered := Largest(s, true, n).value;
    assert Considered(s, false, numbered);
    forall j | 0 <= j < n
      ensures Mib(s, j) <= Mib(s, k)
    {
      assert Considered(s, false, j);
    }
    actor := s.slots[numbered].holder;
    assert s.slots[numbered] == Slot(true, actor);
    if s.slots[k].numbered {
      assert Considered(s, true, k);
      assert numbered == k;
    } else {
      forall other | HoldsNumbered(s, other)
        ensures other != s.slots[k].holder
      {
        var j :| 0 <= j < n && s.slots[j] == Slot(true, other);
        assert Considered(s, false, j) && j < k;
      }
    }
  }
}
