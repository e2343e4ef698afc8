/** Which copy a load command names once all dependencies of its file were
    redirected, one after another. */
module RelocationOrder {
  import opened Relocation

  /** A later occurrence of a copy's install name among the libraries, as a
      library to be redirected elsewhere, would redirect the copy again. */
  predicate RedirectsAgain(job: Job, libs: seq<Path>, i: nat, j: nat)
    requires i < j < |libs|
  {
    && !IsSystem(libs[i]) && !IsSystem(libs[j])
    && libs[j] == job.InstallName(libs[i]) && job.InstallName(libs[j]) != libs[j]
  }

  predicate InOrder(job: Job, libs: seq<Path>) {
    forall i, j :: 0 <= i < j < |libs| ==> !RedirectsAgain(job, libs, i, j)
  }

  /** When no copy is redirected again, each load command is redirected to the
      copy of exactly the library it named. */
  lemma {:induction false} RedirectedMeaning(job: Job, libs: seq<Path>, k: nat, j: nat)
    requires k <= |libs| && j < |libs| && InOrder(job, libs)
    ensures |job.Redirected(libs, libs[..k])| == |libs|
    ensures job.Redirected(libs, libs[..k])[j]
         == if libs[j] in libs[..k] && !IsSystem(libs[j]) then job.InstallName(libs[j]) else libs[j]
    decreases k
  {
    hide IsSystem, Job.InstallName;
    RedirectedLength(job, libs, libs[..k]);
    if k > 0 {
      RedirectedMeaning(job, libs, k - 1, j);
      RedirectedLast(job, libs, k, j);
      if libs[j] in libs[..k - 1] {
        var i :| 0 <= i < k - 1 && libs[..k - 1][i] == libs[j];
        assert !RedirectsAgain(job, libs, i, k - 1);
      }
      assert libs[..k] == libs[..k - 1] + [libs[k - 1]];
    }
  }

  /** What redirecting one library does to the name in a load command. */
  function Redirect(job: Job, library: Path, name: Path): Path {
    if !IsSystem(library) && name == library then job.InstallName(library) else name
  }

  lemma RedirectedLast(job: Job, libs: seq<Path>, k: nat, j: nat)
    requires 0 < k <= |libs| && j < |libs|
    ensures |job.Redirected(libs, libs[..k - 1])| == |job.Redirected(libs, libs[..k])| == |libs|
    ensures job.Redirected(libs, libs[..k])[j] == Redirect(job, libs[k - 1], job.Redirected(libs, libs[..k - 1])[j])
  {
    hide IsSystem, Job.InstallName;
    RedirectedLength(job, libs, libs[..k - 1]);
    RedirectedLength(job, libs, libs[..k]);
    assert libs[..k][..k - 1] == libs[..k - 1];
  }

  /** The name in a load command after all the redirections, one by one. */
  function NameAfter(job: Job, name: Path, done: seq<Path>): Path
    decreases |done|
  {
    if done == [] then name else NameAfter(job, Redirect(job, done[0], name), done[1..])
  }

  lemma {:induction false} NameAfterConcat(job: Job, name: Path, a: seq<Path>, b: seq<Path>)
    ensures NameAfter(job, name, a + b) == NameAfter(job, NameAfter(job, name, a), b)
    decreases |a|
  {
    if a == [] {
      assert a + b == b;
    } else {
      assert (a + b)[1..] == a[1..] + b;
      NameAfterConcat(job, Redirect(job, a[0], name), a[1..], b);
    }
  }

  lemma {:induction false} RedirectedIsNameAfter(job: Job, libs: seq<Path>, k: nat, j: nat)
    requires k <= |libs| && j < |libs|
    ensures |job.Redirected(libs, libs[..k])| == |libs|
    ensures job.Redirected(libs, libs[..k])[j] == NameAfter(job, libs[j], libs[..k])
    decreases k
  {
    hide Redirect;
    RedirectedLength(job, libs, libs[..k]);
    if k > 0 {
      RedirectedIsNameAfter(job, libs, k - 1, j);
      RedirectedLast(job, libs, k, j);
      assert libs[..k] == libs[..k - 1] + [libs[k - 1]];
      NameAfterConcat(job, libs[j], libs[..k - 1], [libs[k - 1]]);
      OneRedirection(job, NameAfter(job, libs[j], libs[..k - 1]), libs[k - 1]);
    }
  }

  lemma OneRedirection(job: Job, name: Path, library: Path)
    ensures NameAfter(job, name, [library]) == Redirect(job, library, name)
  {
    assert [library][1..] == [];
  }

  /** The names that a load command has on the way. */
  function Passed(job: Job, name: Path, done: seq<Path>): set<Path>
    decreases |done|
  {
    {name} + if done == [] then {} else Passed(job, Redirect(job, done[0], name), done[1..])
  }

  lemma {:induction false} NameIsPassed(job: Job, name: Path, done: seq<Path>)
    ensures NameAfter(job, name, done) in Passed(job, name, done)
    decreases |done|
  {
    if done != [] { NameIsPassed(job, Redirect(job, done[0], name), done[1..]); }
  }

  /** A name on the way is the last, or is redirected to another on the way. */
  lemma {:induction false} PassedMoves(job: Job, name: Path, done: seq<Path>, x: Path)
    requires x in Passed(job, name, done) && x != NameAfter(job, name, done)
    ensures x in done && !IsSystem(x) && job.InstallName(x) in Passed(job, name, done)
    decreases |done|
  {
    var next := Redirect(job, done[0], name);
    if x in Passed(job, next, done[1..]) {
      PassedMoves(job, next, done[1..], x);
    } else {
      assert x == name == done[0] && next == job.InstallName(x);
    }
  }

  /** A library redirected to its own name stays where it is. */
  lemma {:induction false} FixedStays(job: Job, name: Path, done: seq<Path>, x: Path)
    requires x in Passed(job, name, done) && job.InstallName(x) == x
    ensures NameAfter(job, name, done) == x
    decreases |done|
  {
    if done != [] {
      assert name == x ==> Redirect(job, done[0], name) == x;
      FixedStays(job, Redirect(job, done[0], name), done[1..], x);
    }
  }

  lemma {:induction false} Untouched(job: Job, name: Path, done: seq<Path>)
    requires name !in done
    ensures NameAfter(job, name, done) == name
  {
    if done != [] { Untouched(job, name, done[1..]); }
  }

  /** Every command names the copy of the library that it named. */
  predicate AllOwn(job: Job, libs: seq<Path>) {
    forall x :: x in libs ==> NameAfter(job, x, libs) == if IsSystem(x) then x else job.InstallName(x)
  }

  /** Different libraries have different install names. */
  predicate ApartIn(job: Job, libs: seq<Path>) {
    forall x, y :: x in libs && y in libs && !IsSystem(x) && !IsSystem(y) ==>
      job.InstallName(x) == job.InstallName(y) ==> x == y
  }

  /** The first library of a closed set of names to be redirected joins another
      name of the set for good, so the two cannot both end at their own copies. */
  lemma ClosedSetJoins(job: Job, libs: seq<Path>, names: set<Path>)
    requires AllOwn(job, libs) && ApartIn(job, libs) && names != {}
    requires forall x :: x in names ==> x in libs && !IsSystem(x) && job.InstallName(x) in names
    ensures exists x :: x in names && job.InstallName(x) == x
  {
    var p := FirstIn(libs, names);
    var x := libs[p];
    var y := job.InstallName(x);
    if y != x { JoinsAt(job, libs, p); }
  }

  /** A library redirected before its install name comes up joins it. */
  lemma JoinsAt(job: Job, libs: seq<Path>, p: nat)
    requires p < |libs| && !IsSystem(libs[p]) && job.InstallName(libs[p]) != libs[p]
    requires libs[p] !in libs[..p] && job.InstallName(libs[p]) !in libs[..p]
    ensures NameAfter(job, libs[p], libs) == NameAfter(job, job.InstallName(libs[p]), libs)
  {
    var x, rest := libs[p], libs[p + 1..];
    var y := job.InstallName(x);
    hide NameAfter, IsSystem, Job.InstallName;
    assert libs == libs[..p] + ([x] + rest);
    forall name | name == x || name == y ensures NameAfter(job, name, libs) == NameAfter(job, y, rest) {
      Untouched(job, name, libs[..p]);
      NameAfterConcat(job, name, libs[..p], [x] + rest);
      NameAfterConcat(job, name, [x], rest);
      OneRedirection(job, name, x);
    }
  }

  lemma FirstIn(libs: seq<Path>, names: set<Path>) returns (p: nat)
    requires exists x :: x in names && x in libs
    ensures p < |libs| && libs[p] in names && (forall k :: 0 <= k < p ==> libs[k] !in names)
    ensures forall x :: x in names ==> x !in libs[..p]
  {
    p := 0;
    while libs[p] !in names
      invariant p < |libs| && (forall k :: 0 <= k < p ==> libs[k] !in names)
      invariant exists x :: x in names && x in libs[p..]
      decreases |libs| - p
    {
      assert libs[p..] == [libs[p]] + libs[p + 1..];
      p := p + 1;
    }
  }

  /** A copy that is redirected again does not come back. */
  lemma RedirectedAgainIsLost(job: Job, libs: seq<Path>, i: nat, j: nat)
    requires i < j < |libs| && RedirectsAgain(job, libs, i, j) && ApartIn(job, libs)
    ensures !AllOwn(job, libs)
  {
    if AllOwn(job, libs) {
      var e, d := libs[i], libs[j];
      assert e in libs;
      var a := FirstIn(libs, {e});
      assert a <= i;
      var left := libs[a + 1..];
      FirstRedirection(job, libs, a);
      assert NameAfter(job, d, left) == d && left[j - a - 1] == d;
      ReturnsToItself(job, libs, left, d);
      assert false;
    }
  }

  lemma FirstRedirection(job: Job, libs: seq<Path>, a: nat)
    requires a < |libs| && !IsSystem(libs[a]) && libs[a] !in libs[..a]
    ensures NameAfter(job, libs[a], libs) == NameAfter(job, job.InstallName(libs[a]), libs[a + 1..])
  {
    var e, left := libs[a], libs[a + 1..];
    hide NameAfter, IsSystem, Job.InstallName;
    Untouched(job, e, libs[..a]);
    assert libs == libs[..a] + ([e] + left);
    NameAfterConcat(job, e, libs[..a], [e] + left);
    NameAfterConcat(job, e, [e], left);
    OneRedirection(job, e, e);
  }

  /** A name that is redirected away and comes back went round in a closed set. */
  lemma ReturnsToItself(job: Job, libs: seq<Path>, left: seq<Path>, d: Path)
    requires AllOwn(job, libs) && ApartIn(job, libs) && forall x :: x in left ==> x in libs
    requires d in left && !IsSystem(d) && job.InstallName(d) != d
    ensures NameAfter(job, d, left) != d
  {
    hide IsSystem, Job.InstallName, AllOwn, ApartIn, Passed, NameAfter;
    if NameAfter(job, d, left) == d {
      var names := Passed(job, d, left);
      MovesOn(job, d, left);
      NameIsPassed(job, d, left);
      forall x | x in names ensures x in libs && !IsSystem(x) && job.InstallName(x) in names {
        if x != d { PassedMoves(job, d, left, x); }
      }
      ClosedSetJoins(job, libs, names);
      var x :| x in names && job.InstallName(x) == x;
      FixedStays(job, d, left, x);
      assert false;
    }
  }

  /** A library that is redirected goes to its install name first. */
  lemma {:induction false} MovesOn(job: Job, name: Path, done: seq<Path>)
    requires name in done && !IsSystem(name)
    ensures job.InstallName(name) in Passed(job, name, done)
    decreases |done|
  {
    if done[0] != name { MovesOn(job, name, done[1..]); }
  }

  /** All load commands end at the copies of the libraries they named. */
  predicate AtOwnCopies(job: Job, libs: seq<Path>) {
    && |job.Redirected(libs, libs)| == |libs|
    && forall j :: 0 <= j < |libs| ==>
         job.Redirected(libs, libs)[j] == if IsSystem(libs[j]) then libs[j] else job.InstallName(libs[j])
  }

  lemma AtOwnCopiesIsAllOwn(job: Job, libs: seq<Path>)
    ensures AtOwnCopies(job, libs) <==> AllOwn(job, libs)
  {
    hide IsSystem, Job.InstallName, Job.Redirected, NameAfter;
    RedirectedLength(job, libs, libs);
    assert libs[..|libs|] == libs;
    forall j | 0 <= j < |libs| ensures job.Redirected(libs, libs)[j] == NameAfter(job, libs[j], libs) {
      RedirectedIsNameAfter(job, libs, |libs|, j);
    }
  }

  /** The exact condition: all load commands of a file end at the copies of the
      libraries they named exactly when no copy's install name comes up later
      among the libraries to be redirected elsewhere. */
  lemma AtOwnCopiesIff(job: Job, libs: seq<Path>)
    requires ApartIn(job, libs)
    ensures AtOwnCopies(job, libs) <==> InOrder(job, libs)
  {
    hide IsSystem, Job.InstallName, Job.Redirected, RedirectsAgain, AllOwn, ApartIn;
    if InOrder(job, libs) {
      assert libs[..|libs|] == libs;
      RedirectedLength(job, libs, libs);
      forall j | 0 <= j < |libs|
        ensures job.Redirected(libs, libs)[j] == if IsSystem(libs[j]) then libs[j] else job.InstallName(libs[j])
      {
        RedirectedMeaning(job, libs, |libs|, j);
      }
    } else {
      var i, j :| 0 <= i < j < |libs| && RedirectsAgain(job, libs, i, j);
      RedirectedAgainIsLost(job, libs, i, j);
      AtOwnCopiesIsAllOwn(job, libs);
    }
  }

  /** What can be bundled keeps its install names apart. */
  lemma BundleableIsApart(job: Job, libs: seq<Path>)
    requires job.Bundleable() && forall x | x in libs && !IsSystem(x) :: job.Reachable(x)
    ensures ApartIn(job, libs)
  {
    hide Job.Reachable;
    forall x, y | x in libs && y in libs && !IsSystem(x) && !IsSystem(y) && job.InstallName(x) == job.InstallName(y)
      ensures x == y
    {
      var n := |job.installPrefix|;
      assert job.InstallName(x)[n..] == job.BundledName(x) && job.InstallName(y)[n..] == job.BundledName(y);
    }
  }
}
