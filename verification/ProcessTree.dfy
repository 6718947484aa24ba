/**
 The descendants of a process in a `ps` listing: a loop that marks rows until nothing grows, proved equal to
 reachability along parent links, for any listing, cyclic or unordered.
 */
module ProcessTree {
  import opened Options

  type Pid = nat

  datatype Row = Row(pid: Pid, ppid: Pid, rss: nat, cmd: string)

  /** What is printed for a row. */
  datatype Line = Line(pid: Pid, rss: nat, cmd: string)

  /** Rows `path` lead from `root` down to `pid`, each the child of the one before, none of them `skip`. */
  ghost predicate Chain(rows: seq<Row>, root: Pid, skip: Option<Pid>, path: seq<Row>, pid: Pid) {
    if path == [] then
      pid == root
    else
      var last := path[|path| - 1];
      && last in rows
      && last.pid == pid
      && Some(pid) != skip
      && Chain(rows, root, skip, path[..|path| - 1], last.ppid)
  }

  ghost predicate Descends(rows: seq<Row>, root: Pid, skip: Option<Pid>, pid: Pid) {
    exists path :: Chain(rows, root, skip, path, pid)
  }

  /** The lines of the first `n` rows that descend from `root`, in the order of the listing. */
  ghost function Descendants(rows: seq<Row>, root: Pid, skip: Option<Pid>, n: nat): seq<Line>
    requires n <= |rows|
  {
    if n == 0 then []
    else
      Descendants(rows, root, skip, n - 1)
      + (if Descends(rows, root, skip, rows[n - 1].pid) then [Line(rows[n - 1].pid, rows[n - 1].rss, rows[n - 1].cmd)]
         else [])
  }

  /** The row can be marked now. */
  predicate Markable(row: Row, inTree: set<Pid>, skip: Option<Pid>) {
    row.pid !in inTree && Some(row.pid) != skip && row.ppid in inTree
  }

  ghost function Unmarked(rows: seq<Row>, inTree: set<Pid>): set<nat> {
    set i: nat | i < |rows| && rows[i].pid !in inTree
  }

  lemma MarkingShrinks(rows: seq<Row>, inTree: set<Pid>, i: nat)
    requires i < |rows| && rows[i].pid !in inTree
    ensures |Unmarked(rows, inTree + {rows[i].pid})| < |Unmarked(rows, inTree)|
  {
    var less, more := Unmarked(rows, inTree + {rows[i].pid}), Unmarked(rows, inTree);
    assert less <= more - {i};
    SubsetIsSmaller(less, more - {i});
  }

  lemma {:induction false} SubsetIsSmaller<T>(a: set<T>, b: set<T>)
    requires a <= b
    ensures |a| <= |b|
  {
    if a != {} {
      var x :| x in a;
      SubsetIsSmaller(a - {x}, b - {x});
    }
  }

  ghost predicate AllDescend(rows: seq<Row>, root: Pid, skip: Option<Pid>, inTree: set<Pid>) {
    forall p :: p in inTree ==> Descends(rows, root, skip, p)
  }

  lemma RootDescends(rows: seq<Row>, root: Pid, skip: Option<Pid>)
    ensures Descends(rows, root, skip, root)
  {
    assert Chain(rows, root, skip, [], root);
  }

  lemma ChildDescends(rows: seq<Row>, root: Pid, skip: Option<Pid>, row: Row)
    requires row in rows && Some(row.pid) != skip && Descends(rows, root, skip, row.ppid)
    ensures Descends(rows, root, skip, row.pid)
  {
    var path :| Chain(rows, root, skip, path, row.ppid);
    assert (path + [row])[..|path|] == path;
    assert Chain(rows, root, skip, path + [row], row.pid);
  }

  /** Once no row can be marked, everything reachable is marked. */
  lemma {:induction false} FixpointHasAll(rows: seq<Row>, root: Pid, skip: Option<Pid>, inTree: set<Pid>,
                                          path: seq<Row>, pid: Pid)
    requires root in inTree && forall row :: row in rows ==> !Markable(row, inTree, skip)
    requires Chain(rows, root, skip, path, pid)
    ensures pid in inTree
  {
    if path != [] {
      var last := path[|path| - 1];
      FixpointHasAll(rows, root, skip, inTree, path[..|path| - 1], last.ppid);
      assert !Markable(last, inTree, skip);
    }
  }

  lemma FixpointIsDescends(rows: seq<Row>, root: Pid, skip: Option<Pid>, inTree: set<Pid>)
    requires root in inTree && forall row :: row in rows ==> !Markable(row, inTree, skip)
    requires AllDescend(rows, root, skip, inTree)
    ensures forall pid :: pid in inTree <==> Descends(rows, root, skip, pid)
  {
    forall pid | Descends(rows, root, skip, pid)
      ensures pid in inTree
    {
      var path :| Chain(rows, root, skip, path, pid);
      FixpointHasAll(rows, root, skip, inTree, path, pid);
    }
  }

  /** The descendants are the least set that has the root and, but for the skipped one, every child of a member. */
  lemma DescendsIsLeast(rows: seq<Row>, root: Pid, skip: Option<Pid>, closed: set<Pid>)
    requires root in closed
    requires forall row :: row in rows && row.ppid in closed && Some(row.pid) != skip ==> row.pid in closed
    ensures Descends(rows, root, skip, root)
    ensures forall row :: row in rows && Descends(rows, root, skip, row.ppid) && Some(row.pid) != skip ==>
              Descends(rows, root, skip, row.pid)
    ensures forall pid :: Descends(rows, root, skip, pid) ==> pid in closed
  {
    RootDescends(rows, root, skip);
    forall row | row in rows && Descends(rows, root, skip, row.ppid) && Some(row.pid) != skip
      ensures Descends(rows, root, skip, row.pid)
    {
      ChildDescends(rows, root, skip, row);
    }
    forall pid | Descends(rows, root, skip, pid)
      ensures pid in closed
    {
      var path :| Chain(rows, root, skip, path, pid);
      FixpointHasAll(rows, root, skip, closed, path, pid);
    }
  }

  /** The lines are those of the rows at these places, in this order. */
  ghost predicate PrintsRows(rows: seq<Row>, lines: seq<Line>, at: seq<nat>) {
    |lines| == |at| && forall k :: 0 <= k < |at| ==>
      at[k] < |rows| && lines[k].pid == rows[at[k]].pid && lines[k].rss == rows[at[k]].rss
      && lines[k].cmd == rows[at[k]].cmd
  }

  lemma PrintsMore(rows: seq<Row>, lines: seq<Line>, at: seq<nat>, i: nat)
    requires PrintsRows(rows, lines, at) && i < |rows|
    ensures PrintsRows(rows, lines + [Line(rows[i].pid, rows[i].rss, rows[i].cmd)], at + [i])
  {
  }

  /** The places go up and are those of the descending rows. */
  ghost predicate DescendingPlaces(rows: seq<Row>, root: Pid, skip: Option<Pid>, n: nat, at: seq<nat>)
    requires n <= |rows|
  {
    && (forall i, j :: 0 <= i < j < |at| ==> at[i] < at[j])
    && (forall i: nat :: i in at <==> i < n && Descends(rows, root, skip, rows[i].pid))
  }

  lemma OneMorePlace(rows: seq<Row>, root: Pid, skip: Option<Pid>, n: nat, at: seq<nat>)
    requires 0 < n <= |rows| && DescendingPlaces(rows, root, skip, n - 1, at)
    ensures DescendingPlaces(rows, root, skip, n,
                             if Descends(rows, root, skip, rows[n - 1].pid) then at + [n - 1] else at)
  {
    hide Descends;
    assert forall k :: 0 <= k < |at| ==> at[k] in at;
  }

  /** The printed lines: one per descending row, in the order of the listing, with its pid, size and command. */
  lemma {:induction false} LinesMean(rows: seq<Row>, root: Pid, skip: Option<Pid>, n: nat) returns (at: seq<nat>)
    requires n <= |rows|
    ensures PrintsRows(rows, Descendants(rows, root, skip, n), at)
    ensures DescendingPlaces(rows, root, skip, n, at)
  {
    hide Descends, PrintsRows, DescendingPlaces;
    if n == 0 {
      at := [];
      NoLinesYet(rows, root, skip);
    } else {
      at := LinesMean(rows, root, skip, n - 1);
      OneMorePlace(rows, root, skip, n, at);
      if Descends(rows, root, skip, rows[n - 1].pid) {
        PrintsMore(rows, Descendants(rows, root, skip, n - 1), at, n - 1);
        at := at + [n - 1];
      } else {
        NoMoreLine(rows, root, skip, n);
      }
    }
  }

  lemma NoLinesYet(rows: seq<Row>, root: Pid, skip: Option<Pid>)
    ensures PrintsRows(rows, Descendants(rows, root, skip, 0), [])
    ensures DescendingPlaces(rows, root, skip, 0, [])
  {
    hide Descends;
  }

  lemma NoMoreLine(rows: seq<Row>, root: Pid, skip: Option<Pid>, n: nat)
    requires 0 < n <= |rows| && !Descends(rows, root, skip, rows[n - 1].pid)
    ensures Descendants(rows, root, skip, n) == Descendants(rows, root, skip, n - 1)
  {
    hide Descends;
    assert Descendants(rows, root, skip, n - 1) + [] == Descendants(rows, root, skip, n - 1);
  }

  /** Only the skipped process and its descendants are left out. */
  lemma {:induction false} LeftOutDescendsFromSkip(rows: seq<Row>, root: Pid, skip: Pid, path: seq<Row>, pid: Pid)
    requires Chain(rows, root, None, path, pid)
    ensures Descends(rows, root, Some(skip), pid) || Descends(rows, skip, None, pid)
  {
    if path == [] {
      RootDescends(rows, root, Some(skip));
    } else if pid == skip {
      RootDescends(rows, skip, None);
    } else {
      var last := path[|path| - 1];
      LeftOutDescendsFromSkip(rows, root, skip, path[..|path| - 1], last.ppid);
      if Descends(rows, root, Some(skip), last.ppid) {
        ChildDescends(rows, root, Some(skip), last);
      } else {
        ChildDescends(rows, skip, None, last);
      }
    }
  }

  /** Prints exactly the rows that descend from `root` without passing through `skip`, in the order of the listing. */
  method TreeIn(rows: seq<Row>, root: Pid, skip: Option<Pid>) returns (out: seq<Line>)
    ensures out == Descendants(rows, root, skip, |rows|)
  {
    hide Descends;
    var inTree := {root};
    var grew := true;
    RootDescends(rows, root, skip);
    while grew
      invariant root in inTree && AllDescend(rows, root, skip, inTree)
      invariant !grew ==> forall k :: 0 <= k < |rows| ==> !Markable(rows[k], inTree, skip)
      decreases |Unmarked(rows, inTree)|, grew
    {
      grew := false;
      ghost var before := inTree;
      var i := 0;
      while i < |rows|
        invariant 0 <= i <= |rows|
        invariant root in inTree && AllDescend(rows, root, skip, inTree)
        invariant if grew then |Unmarked(rows, inTree)| < |Unmarked(rows, before)|
                  else inTree == before && forall k :: 0 <= k < i ==> !Markable(rows[k], inTree, skip)
      {
        if Markable(rows[i], inTree, skip) {
          MarkingShrinks(rows, inTree, i);
          ChildDescends(rows, root, skip, rows[i]);
          inTree := inTree + {rows[i].pid};
          grew := true;
        }
        i := i + 1;
      }
    }
    FixpointIsDescends(rows, root, skip, inTree);
    out := [];
    var i := 0;
    while i < |rows|
      invariant 0 <= i <= |rows|
      invariant out == Descendants(rows, root, skip, i)
    {
      if rows[i].pid in inTree {
        out := out + [Line(rows[i].pid, rows[i].rss, rows[i].cmd)];
      }
      i := i + 1;
    }
  }
}
