/**
 The advisory hold guard, after its files are loaded: each hold must describe the lock file exactly.

 Dates are day numbers.  A file that is missing is `None`.
 */
module HoldGuard {
  import opened Options
  import opened Semver
  import opened Text

  datatype Package = Package(name: string, version: string, dependencies: seq<string>)

  datatype Hold = Hold(
    id: string,
    kind: string,
    crate: string,
    version: string,
    dependents: seq<string>,
    fixed: seq<string>,
    expires: int)

  datatype IgnoreEntry = Plain(id: string) | Described(id: string)

  datatype Problem =
    | NothingToCompare
    | Expired(hold: Hold)
    | NotDenied(hold: Hold)
    | NotAudited(hold: Hold)
    | Stale(hold: Hold)
    | DependentsChanged(hold: Hold, gained: set<string>, gone: set<string>)
    | NotFixed(crate: string, version: string)

  /** The guard raises when it meets a version or range that does not parse. */
  datatype Outcome = Raised | Done(rc: nat, problems: seq<Problem>)

  // ---------------------------------------------------------------------------------------------
  // Ignore lists and dependents
  // ---------------------------------------------------------------------------------------------

  ghost function IdsOf(ignore: seq<IgnoreEntry>): set<string> {
    set i | 0 <= i < |ignore| :: ignore[i].id
  }

  /** The ids a configuration ignores; none when it is missing. */
  ghost function Ignored(file: Option<seq<IgnoreEntry>>): set<string> {
    if file.None? then {} else IdsOf(file.value)
  }

  method IgnoredIds(file: Option<seq<IgnoreEntry>>) returns (out: set<string>)
    ensures out == Ignored(file)
    ensures forall id :: id in out <==> file.Some? && exists k :: 0 <= k < |file.value| && file.value[k].id == id
  {
    out := {};
    if file.Some? {
      var ignore := file.value;
      var i := 0;
      while i < |ignore|
        invariant 0 <= i <= |ignore|
        invariant forall id :: id in out <==> exists k :: 0 <= k < i && ignore[k].id == id
      {
        out := out + {ignore[i].id};
        i := i + 1;
      }
    }
  }

  function VersionsOf(packages: seq<Package>, name: string): seq<string> {
    if packages == [] then []
    else
      var rest := VersionsOf(packages[1..], name);
      if packages[0].name == name then [packages[0].version] + rest else rest
  }

  /** The lock file has one package of this name, and it has this version. */
  ghost predicate OnlyVersion(packages: seq<Package>, name: string, version: string) {
    exists i :: 0 <= i < |packages| && packages[i].name == name && packages[i].version == version
      && forall j :: 0 <= j < |packages| && packages[j].name == name ==> j == i
  }

  lemma {:induction false} NoVersions(packages: seq<Package>, name: string)
    ensures VersionsOf(packages, name) == [] <==> forall i :: 0 <= i < |packages| ==> packages[i].name != name
  {
    if packages != [] {
      NoVersions(packages[1..], name);
      assert forall i :: 0 < i < |packages| ==> packages[i] == packages[1..][i - 1];
    }
  }

  lemma {:induction false} BareNameMeansOnlyVersion(packages: seq<Package>, name: string, version: string)
    ensures VersionsOf(packages, name) == [version] <==> OnlyVersion(packages, name, version)
  {
    if packages != [] {
      var rest := packages[1..];
      assert forall i :: 0 < i < |packages| ==> packages[i] == rest[i - 1];
      if packages[0].name == name {
        NoVersions(rest, name);
        var vs := VersionsOf(packages, name);
        assert vs[0] == packages[0].version && vs[1..] == VersionsOf(rest, name);
      } else {
        BareNameMeansOnlyVersion(rest, name, version);
        if i :| 0 <= i < |rest| && rest[i].name == name && rest[i].version == version
                && forall j :: 0 <= j < |rest| && rest[j].name == name ==> j == i {
          assert packages[i + 1] == rest[i];
        }
        if i :| 0 <= i < |packages| && packages[i].name == name && packages[i].version == version
                && forall j :: 0 <= j < |packages| && packages[j].name == name ==> j == i {
          assert rest[i - 1] == packages[i];
        }
      }
    }
  }

  /** A dependency entry ("name", "name version" or "name version source") means this version of this crate. */
  ghost predicate Refers(packages: seq<Package>, dep: string, name: string, version: string) {
    var parts := Split(dep, ' ');
    parts[0] == name && (if |parts| > 1 then parts[1] == version else OnlyVersion(packages, name, version))
  }

  lemma FirstWord(words: seq<string>)
    requires |words| > 1
    ensures Join(words, ' ') == words[0] + " " + Join(words[1..], ' ')
  {
  }

  lemma Regroup(a: string, b: string, c: string)
    ensures a + " " + (b + " " + c) == a + " " + b + " " + c
  {
  }

  lemma WordsOf(words: seq<string>)
    requires words != [] && forall k :: 0 <= k < |words| ==> ' ' !in words[k]
    ensures Split(Join(words, ' '), ' ') == words
    ensures |words| == 1 ==> Join(words, ' ') == words[0]
    ensures |words| == 2 ==> Join(words, ' ') == words[0] + " " + words[1]
    ensures |words| > 2 ==> Join(words, ' ') == words[0] + " " + words[1] + " " + Join(words[2..], ' ')
  {
    hide Split;
    SplitOfJoin(words, ' ');
    if |words| == 2 {
      FirstWord(words);
      assert words[1..] == [words[1]];
    } else if |words| > 2 {
      ThreeWords(words);
    }
  }

  lemma ThreeWords(words: seq<string>)
    requires |words| > 2
    ensures Join(words, ' ') == words[0] + " " + words[1] + " " + Join(words[2..], ' ')
  {
    hide Join;
    FirstWord(words);
    FirstWord(words[1..]);
    assert words[1..][1..] == words[2..] && words[1..][0] == words[1];
    Regroup(words[0], words[1], Join(words[2..], ' '));
  }

  /** An entry with this name, this version and a source splits into these words first. */
  lemma SourceSplits(name: string, version: string, source: string)
    requires ' ' !in name && ' ' !in version
    ensures var parts := Split(name + " " + version + " " + source, ' ');
            |parts| > 2 && parts[0] == name && parts[1] == version
  {
    var words := [name, version] + Split(source, ' ');
    hide Split, Join;
    JoinOfSplit(source, ' ');
    WordsOf(words);
    assert words[2..] == Split(source, ' ');
  }

  /** An entry of blank-free words refers to a version by name alone, or by name and version, whatever follows. */
  lemma RefersIff(packages: seq<Package>, dep: string, name: string, version: string)
    requires ' ' !in name && ' ' !in version
    ensures Refers(packages, dep, name, version)
       <==> || (dep == name && OnlyVersion(packages, name, version))
            || dep == name + " " + version
            || exists source: string :: dep == name + " " + version + " " + source
  {
    var parts := Split(dep, ' ');
    hide OnlyVersion, Split, Join;
    JoinOfSplit(dep, ' ');
    WordsOf(parts);
    if Refers(packages, dep, name, version) && |parts| > 2 {
      assert dep == name + " " + version + " " + Join(parts[2..], ' ');
    }
    WordsOf([name, version]);
    WordsOf([name]);
    if source: string :| dep == name + " " + version + " " + source {
      SourceSplits(name, version, source);
    }
    if dep == name {
      assert parts == [name];
    }
  }

  ghost predicate DependsOn(packages: seq<Package>, p: Package, name: string, version: string) {
    exists k :: 0 <= k < |p.dependencies| && Refers(packages, p.dependencies[k], name, version)
  }

  function Tag(p: Package): string {
    p.name + " " + p.version
  }

  ghost predicate IsDependent(packages: seq<Package>, n: nat, tag: string, name: string, version: string)
    requires n <= |packages|
  {
    exists i :: 0 <= i < n && DependsOn(packages, packages[i], name, version) && Tag(packages[i]) == tag
  }

  /** The tags ("name version") of the packages that depend on this version directly. */
  method DependentsOf(packages: seq<Package>, name: string, version: string) returns (found: set<string>)
    ensures forall tag :: tag in found <==> IsDependent(packages, |packages|, tag, name, version)
    ensures forall tag :: tag in found <==>
              exists i, k :: 0 <= i < |packages| && 0 <= k < |packages[i].dependencies|
                && Refers(packages, packages[i].dependencies[k], name, version)
                && tag == packages[i].name + " " + packages[i].version
  {
    hide Split;
    var versions := VersionsOf(packages, name);
    BareNameMeansOnlyVersion(packages, name, version);
    found := {};
    var i := 0;
    while i < |packages|
      invariant 0 <= i <= |packages|
      invariant forall tag :: tag in found <==> IsDependent(packages, i, tag, name, version)
    {
      var p := packages[i];
      var depends := false;
      var k := 0;
      while k < |p.dependencies|
        invariant 0 <= k <= |p.dependencies|
        invariant depends <==> exists l :: 0 <= l < k && Refers(packages, p.dependencies[l], name, version)
      {
        var parts := Split(p.dependencies[k], ' ');
        if parts[0] == name {
          if (|parts| > 1 && parts[1] == version) || (|parts| == 1 && versions == [version]) {
            depends := true;
          }
        }
        k := k + 1;
      }
      ghost var before := found;
      if depends {
        found := found + {Tag(p)};
      }
      forall tag
        ensures tag in found <==> IsDependent(packages, i + 1, tag, name, version)
      {
        DependentStep(packages, i, tag, name, version);
        assert tag in before <==> IsDependent(packages, i, tag, name, version);
      }
      i := i + 1;
    }
    forall tag
      ensures IsDependent(packages, |packages|, tag, name, version)
         <==> exists i, k :: 0 <= i < |packages| && 0 <= k < |packages[i].dependencies|
                && Refers(packages, packages[i].dependencies[k], name, version)
                && tag == packages[i].name + " " + packages[i].version
    {
      DependentMeans(packages, tag, name, version);
    }
  }

  /** A dependent is named by its name and version, in this order. */
  lemma DependentMeans(packages: seq<Package>, tag: string, name: string, version: string)
    ensures IsDependent(packages, |packages|, tag, name, version)
       <==> exists i, k :: 0 <= i < |packages| && 0 <= k < |packages[i].dependencies|
              && Refers(packages, packages[i].dependencies[k], name, version)
              && tag == packages[i].name + " " + packages[i].version
  {
    hide Refers;
    if i, k :| 0 <= i < |packages| && 0 <= k < |packages[i].dependencies|
               && Refers(packages, packages[i].dependencies[k], name, version)
               && tag == packages[i].name + " " + packages[i].version {
      assert DependsOn(packages, packages[i], name, version);
    }
  }

  lemma DependentStep(packages: seq<Package>, i: nat, tag: string, name: string, version: string)
    requires i < |packages|
    ensures IsDependent(packages, i + 1, tag, name, version)
       <==> IsDependent(packages, i, tag, name, version)
            || (DependsOn(packages, packages[i], name, version) && Tag(packages[i]) == tag)
  {
  }

  // ---------------------------------------------------------------------------------------------
  // What a passing guard means
  // ---------------------------------------------------------------------------------------------

  ghost predicate Locked(packages: seq<Package>, name: string, version: string) {
    exists i :: 0 <= i < |packages| && packages[i].name == name && packages[i].version == version
  }

  /** The hold is present, unexpired, ignored where it must be, and names exactly the direct dependents. */
  ghost predicate HoldIsExact(packages: seq<Package>, h: Hold, deny: set<string>, audit: set<string>, today: int) {
    && today <= h.expires
    && h.id in deny
    && (h.kind == "vulnerability" ==> h.id in audit)
    && Locked(packages, h.crate, h.version)
    && forall tag :: tag in h.dependents <==> IsDependent(packages, |packages|, tag, h.crate, h.version)
  }

  ghost predicate IsHeld(holds: seq<Hold>, crate: string, version: string) {
    exists i :: 0 <= i < |holds| && holds[i].crate == crate && holds[i].version == version
  }

  ghost predicate InPatchedRange(version: string, rng: string) {
    var v, cs := ParseVersion(version), ParseRange(rng);
    v.Some? && cs.Some? && Accepts(v.value, cs.value)
  }

  /** A patched range of some hold of the crate has the version. */
  ghost predicate IsFixed(holds: seq<Hold>, crate: string, version: string) {
    exists i, r :: 0 <= i < |holds| && holds[i].crate == crate && r in holds[i].fixed && InPatchedRange(version, r)
  }

  /** Any other locked version of a held crate is held itself or fixed. */
  ghost predicate OthersAreSafe(packages: seq<Package>, holds: seq<Hold>, crate: string) {
    forall i :: 0 <= i < |packages| && packages[i].name == crate ==>
      IsHeld(holds, crate, packages[i].version) || IsFixed(holds, crate, packages[i].version)
  }

  ghost predicate Passes(packages: seq<Package>, holds: seq<Hold>, deny: set<string>, audit: set<string>, today: int) {
    && packages != [] && holds != []
    && (forall i :: 0 <= i < |holds| ==> HoldIsExact(packages, holds[i], deny, audit, today))
    && (forall i :: 0 <= i < |holds| ==> OthersAreSafe(packages, holds, holds[i].crate))
  }

  /** When a hold is exact, spelled out. */
  lemma HoldMeans(packages: seq<Package>, h: Hold, deny: set<string>, audit: set<string>, today: int)
    ensures HoldIsExact(packages, h, deny, audit, today)
       <==> && today <= h.expires && h.id in deny && (h.kind == "vulnerability" ==> h.id in audit)
            && (exists i :: 0 <= i < |packages| && packages[i].name == h.crate && packages[i].version == h.version)
            && forall tag :: tag in h.dependents <==>
                 exists i, k :: 0 <= i < |packages| && 0 <= k < |packages[i].dependencies|
                   && Refers(packages, packages[i].dependencies[k], h.crate, h.version)
                   && tag == packages[i].name + " " + packages[i].version
  {
    hide Refers, IsDependent;
    forall tag
      ensures IsDependent(packages, |packages|, tag, h.crate, h.version)
         <==> exists i, k :: 0 <= i < |packages| && 0 <= k < |packages[i].dependencies|
                && Refers(packages, packages[i].dependencies[k], h.crate, h.version)
                && tag == packages[i].name + " " + packages[i].version
    {
      DependentMeans(packages, tag, h.crate, h.version);
    }
  }

  /** When the guard passes, spelled out but for what exactness and the ranges mean. */
  lemma PassesMeans(packages: seq<Package>, holds: seq<Hold>, deny: set<string>, audit: set<string>, today: int)
    ensures Passes(packages, holds, deny, audit, today)
       <==> && packages != [] && holds != []
            && (forall h :: h in holds ==> HoldIsExact(packages, h, deny, audit, today))
            && forall h, p :: h in holds && p in packages && p.name == h.crate ==>
                 || (exists g :: g in holds && g.crate == p.name && g.version == p.version)
                 || (exists g, r :: g in holds && g.crate == p.name && r in g.fixed
                       && ParseVersion(p.version).Some? && ParseRange(r).Some?
                       && Accepts(ParseVersion(p.version).value, ParseRange(r).value))
  {
    hide HoldIsExact, ParseVersion, ParseRange, Accepts;
    forall p | p in packages
      ensures IsHeld(holds, p.name, p.version)
         <==> exists g :: g in holds && g.crate == p.name && g.version == p.version
      ensures IsFixed(holds, p.name, p.version)
         <==> exists g, r :: g in holds && g.crate == p.name && r in g.fixed
                && ParseVersion(p.version).Some? && ParseRange(r).Some?
                && Accepts(ParseVersion(p.version).value, ParseRange(r).value)
    {
      HeldMeans(holds, p);
      FixedMeans(holds, p);
    }
    hide IsHeld, IsFixed;
    if forall h, p :: h in holds && p in packages && p.name == h.crate ==>
         IsHeld(holds, p.name, p.version) || IsFixed(holds, p.name, p.version) {
      forall i | 0 <= i < |holds|
        ensures OthersAreSafe(packages, holds, holds[i].crate)
      {
        assert holds[i] in holds;
      }
    }
    if forall i :: 0 <= i < |holds| ==> OthersAreSafe(packages, holds, holds[i].crate) {
      forall h, p | h in holds && p in packages && p.name == h.crate
        ensures IsHeld(holds, p.name, p.version) || IsFixed(holds, p.name, p.version)
      {
        var i :| 0 <= i < |holds| && holds[i] == h;
        assert OthersAreSafe(packages, holds, holds[i].crate);
      }
    }
  }

  lemma HeldMeans(holds: seq<Hold>, p: Package)
    ensures IsHeld(holds, p.name, p.version) <==> exists g :: g in holds && g.crate == p.name && g.version == p.version
  {
  }

  lemma FixedMeans(holds: seq<Hold>, p: Package)
    ensures IsFixed(holds, p.name, p.version)
       <==> exists g, r :: g in holds && g.crate == p.name && r in g.fixed
              && ParseVersion(p.version).Some? && ParseRange(r).Some?
              && Accepts(ParseVersion(p.version).value, ParseRange(r).value)
  {
    hide ParseVersion, ParseRange, Accepts;
    if g, r :| g in holds && g.crate == p.name && r in g.fixed
               && ParseVersion(p.version).Some? && ParseRange(r).Some?
               && Accepts(ParseVersion(p.version).value, ParseRange(r).value) {
      assert InPatchedRange(p.version, r);
      var i :| 0 <= i < |holds| && holds[i] == g;
      assert r in holds[i].fixed;
    }
    if i, r :| 0 <= i < |holds| && holds[i].crate == p.name && r in holds[i].fixed && InPatchedRange(p.version, r) {
      var g := holds[i];
      assert g in holds && g.crate == p.name && r in g.fixed;
    }
  }

  /** What passes on a date passes on every earlier one. */
  lemma PassesEarlier(packages: seq<Package>, holds: seq<Hold>, deny: set<string>, audit: set<string>,
                      today: int, earlier: int)
    requires Passes(packages, holds, deny, audit, today) && earlier <= today
    ensures Passes(packages, holds, deny, audit, earlier)
  {
    forall i | 0 <= i < |holds|
      ensures HoldIsExact(packages, holds[i], deny, audit, earlier)
    {
      assert HoldIsExact(packages, holds[i], deny, audit, today);
    }
  }

  ghost predicate Parses(packages: seq<Package>, holds: seq<Hold>) {
    && (forall i :: 0 <= i < |packages| ==> ParseVersion(packages[i].version).Some?)
    && (forall i, r :: 0 <= i < |holds| && r in holds[i].fixed ==> ParseRange(r).Some?)
  }

  lemma ParsesMeans(packages: seq<Package>, holds: seq<Hold>)
    ensures Parses(packages, holds)
       <==> && (forall p :: p in packages ==> ParseVersion(p.version).Some?)
            && forall h, r :: h in holds && r in h.fixed ==> ParseRange(r).Some?
  {
    hide ParseVersion, ParseRange;
    if forall i, r :: 0 <= i < |holds| && r in holds[i].fixed ==> ParseRange(r).Some? {
      forall h, r | h in holds && r in h.fixed
        ensures ParseRange(r).Some?
      {
        var i :| 0 <= i < |holds| && holds[i] == h;
        assert r in holds[i].fixed;
      }
    }
    if forall h, r :: h in holds && r in h.fixed ==> ParseRange(r).Some? {
      forall i, r | 0 <= i < |holds| && r in holds[i].fixed
        ensures ParseRange(r).Some?
      {
        var h := holds[i];
        assert h in holds && r in h.fixed;
      }
    }
  }

  // ---------------------------------------------------------------------------------------------
  // The checks
  // ---------------------------------------------------------------------------------------------

  method CheckHold(packages: seq<Package>, h: Hold, deny: set<string>, audit: set<string>, today: int)
    returns (problems: seq<Problem>)
    ensures problems == [] <==> HoldIsExact(packages, h, deny, audit, today)
    ensures Expired(h) in problems <==> today > h.expires
    ensures NotDenied(h) in problems <==> h.id !in deny
    ensures NotAudited(h) in problems <==> h.kind == "vulnerability" && h.id !in audit
    ensures Stale(h) in problems
       <==> !(exists i :: 0 <= i < |packages| && packages[i].name == h.crate && packages[i].version == h.version)
  {
    problems := [];
    if today > h.expires {
      problems := problems + [Expired(h)];
    }
    if h.id !in deny {
      problems := problems + [NotDenied(h)];
    }
    if h.kind == "vulnerability" && h.id !in audit {
      problems := problems + [NotAudited(h)];
    }
    if !(exists i :: 0 <= i < |packages| && packages[i].name == h.crate && packages[i].version == h.version) {
      problems := problems + [Stale(h)];
      return;
    }
    var got := DependentsOf(packages, h.crate, h.version);
    var want := set tag | tag in h.dependents;
    if got != want {
      problems := problems + [DependentsChanged(h, got - want, want - got)];
    } else {
      assert forall tag :: tag in h.dependents <==> tag in got;
    }
  }

  /** Looks for a range with the version, in any order; `None` when it meets a text that does not parse first. */
  method AnyRange(version: string, ranges: set<string>) returns (found: Option<bool>)
    ensures found.Some? ==> (found.value <==> exists r :: r in ranges && InPatchedRange(version, r))
    ensures found.None? ==> ParseVersion(version).None? || exists r :: r in ranges && ParseRange(r).None?
  {
    var todo := ranges;
    while todo != {}
      invariant todo <= ranges
      invariant forall r :: r in ranges && r !in todo ==> !InPatchedRange(version, r)
      decreases |todo|
    {
      var r :| r in todo;
      var accepted := InRange(version, r);
      if accepted.None? {
        return None;
      }
      if accepted.value {
        assert InPatchedRange(version, r);
        return Some(true);
      }
      assert !InPatchedRange(version, r);
      todo := todo - {r};
    }
    found := Some(false);
  }

  /** The patched ranges recorded for a crate. */
  function RangesOf(holds: seq<Hold>, crate: string): (ranges: set<string>)
    ensures forall r :: r in ranges <==> exists i :: 0 <= i < |holds| && holds[i].crate == crate && r in holds[i].fixed
  {
    set i, r | 0 <= i < |holds| && holds[i].crate == crate && r in holds[i].fixed :: r
  }

  lemma FixedIffSomeRange(holds: seq<Hold>, crate: string, version: string)
    ensures IsFixed(holds, crate, version) <==> exists r :: r in RangesOf(holds, crate) && InPatchedRange(version, r)
  {
    hide InPatchedRange;
  }

  /** Checks the other versions of one held crate; `None` when a version or range does not parse. */
  method CheckCrate(packages: seq<Package>, holds: seq<Hold>, crate: string) returns (problems: Option<seq<Problem>>)
    ensures problems.Some? ==> (problems.value == [] <==> OthersAreSafe(packages, holds, crate))
    ensures problems.None? ==> !Parses(packages, holds)
  {
    hide ParseVersion, ParseRange, InPatchedRange, IsFixed;
    var ranges := RangesOf(holds, crate);
    var found := [];
    var i := 0;
    while i < |packages|
      invariant 0 <= i <= |packages|
      invariant found == [] <==>
                forall k :: 0 <= k < i && packages[k].name == crate ==>
                  IsHeld(holds, crate, packages[k].version) || IsFixed(holds, crate, packages[k].version)
    {
      var p := packages[i];
      if p.name == crate
         && !(exists k :: 0 <= k < |holds| && holds[k].crate == crate && holds[k].version == p.version) {
        assert !IsHeld(holds, crate, p.version);
        var any := AnyRange(p.version, ranges);
        if any.None? {
          return None;
        }
        FixedIffSomeRange(holds, crate, p.version);
        if !any.value {
          found := found + [NotFixed(crate, p.version)];
        }
      } else {
        assert p.name == crate ==> IsHeld(holds, crate, p.version);
      }
      i := i + 1;
    }
    problems := Some(found);
  }

  /** The guard: 2 when there is nothing to compare, 0 exactly when everything is exact, else 1. */
  method Check(lock: Option<seq<Package>>, holdsFile: Option<seq<Hold>>,
               denyList: Option<seq<IgnoreEntry>>, auditList: Option<seq<IgnoreEntry>>, today: int)
    returns (outcome: Outcome)
    ensures var empty := lock.None? || lock.value == [] || holdsFile.None? || holdsFile.value == [];
            && (outcome.Done? ==> (outcome.rc == 2 <==> empty))
            && (outcome.Done? && !empty ==>
                  (outcome.rc == 0
                   <==> Passes(lock.value, holdsFile.value, Ignored(denyList), Ignored(auditList), today)))
            && (outcome.Raised? ==> !empty && !Parses(lock.value, holdsFile.value))
    ensures outcome.Done? ==> outcome.rc <= 2
  {
    hide HoldIsExact, OthersAreSafe, Parses, Ignored;
    var deny := IgnoredIds(denyList);
    var audit := IgnoredIds(auditList);
    if lock.None? || lock.value == [] || holdsFile.None? || holdsFile.value == [] {
      return Done(2, [NothingToCompare]);
    }
    var packages, holds := lock.value, holdsFile.value;
    var problems := [];
    var i := 0;
    while i < |holds|
      invariant 0 <= i <= |holds|
      invariant problems == [] <==> forall k :: 0 <= k < i ==> HoldIsExact(packages, holds[k], deny, audit, today)
    {
      var found := CheckHold(packages, holds[i], deny, audit, today);
      problems := problems + found;
      i := i + 1;
    }
    var crates := set k | 0 <= k < |holds| :: holds[k].crate;
    ghost var exact := problems == [];
    var todo := crates;
    while todo != {}
      invariant todo <= crates
      invariant problems == []
           <==> exact && forall crate :: crate in crates && crate !in todo ==> OthersAreSafe(packages, holds, crate)
      decreases |todo|
    {
      var crate :| crate in todo;
      var found := CheckCrate(packages, holds, crate);
      if found.None? {
        return Raised;
      }
      problems := problems + found.value;
      todo := todo - {crate};
    }
    assert (forall crate :: crate in crates ==> OthersAreSafe(packages, holds, crate))
      <==> forall k :: 0 <= k < |holds| ==> OthersAreSafe(packages, holds, holds[k].crate);
    outcome := Done(if problems == [] then 0 else 1, problems);
  }
}
