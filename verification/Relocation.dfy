/** Copying and relocating the non-system dylibs behind a set of Mach-O files.

    A worklist of files is processed one by one: the load commands of a file
    are read, every store library they name is copied under a hashed name
    (which queues the copy), the load command is redirected to the copy's
    install name, and store rpaths are deleted. */
module Relocation {
  import opened Wrappers

  type Path = string

  /** What `otool -l` reports of a Mach-O file. */
  datatype Image = Image(libs: seq<Path>, rpaths: seq<Path>, id: Option<Path>)

  datatype WorkItem = WorkItem(path: Path, installName: Option<Path>)

  datatype Error =
    | MissingTarget(target: Path)
    | UnsupportedDependency(target: Path, dependency: Path)
    | MissingDependency(target: Path, dependency: Path)
    | NameCollision(other: Path, dependency: Path)

  type Files = map<Path, Image>

  /** Source path to the path and the install name of its copy. */
  type Copied = map<Path, (Path, Path)>

  predicate IsSystem(p: Path) {
    "/System/Library/" <= p || "/Library/Apple/System/Library/" <= p || "/usr/lib/" <= p
  }

  predicate IsStore(p: Path) {
    "/nix/store/" <= p
  }

  function TakeFileName(p: Path): Path {
    if '/' !in p then p else TakeFileName(p[1..])
  }

  function Join(directory: Path, name: Path): Path {
    if "/" <= name || directory == "" then name
    else if directory[|directory| - 1] == '/' then directory + name
    else directory + "/" + name
  }

  // ----- The edits of install_name_tool -----

  /** -change redirects every load command that names `from`. */
  function Change(libs: seq<Path>, from: Path, to: Path): seq<Path> {
    seq(|libs|, i requires 0 <= i < |libs| => if libs[i] == from then to else libs[i])
  }

  function Without(rpaths: seq<Path>, gone: set<Path>): seq<Path> {
    if rpaths == [] then []
    else (if rpaths[0] in gone then [] else [rpaths[0]]) + Without(rpaths[1..], gone)
  }

  function StoreRpaths(rpaths: seq<Path>): set<Path> {
    set r | r in rpaths && IsStore(r)
  }

  /** One run of the program: its arguments, what the file system resolves a
      path to, the name hash, and the files it starts from (by resolved path). */
  datatype Job = Job(
    destination: Path,
    installPrefix: Path,
    targets: seq<Path>,
    resolve: Path -> Path,
    hash: Path -> string,
    original: Files)
  {
    function BundledName(source: Path): Path {
      hash(source) + "-" + TakeFileName(source)
    }

    function BundledPath(source: Path): Path {
      Join(destination, BundledName(source))
    }

    function InstallName(source: Path): Path {
      installPrefix + BundledName(source)
    }

    /** The file that the copy of a source becomes. */
    function CopyFile(source: Path): Path {
      resolve(BundledPath(source))
    }

    function TargetId(file: Path): Path {
      "@loader_path/" + TakeFileName(file)
    }

    /** Load commands after the dependencies `done` were redirected, in order. */
    function Redirected(libs: seq<Path>, done: seq<Path>): seq<Path> {
      if done == [] then libs
      else
        var last := done[|done| - 1];
        var before := Redirected(libs, done[..|done| - 1]);
        if IsSystem(last) then before else Change(before, last, InstallName(last))
    }

    function Relocated(image: Image, newId: Path): Image {
      Image(Redirected(image.libs, image.libs),
            Without(image.rpaths, StoreRpaths(image.rpaths)),
            if image.id.Some? then Some(newId) else None)
    }

    /** Every non-system library named by some file. */
    function Sources(): set<Path> {
      set f, d | f in original && d in original[f].libs && !IsSystem(d) :: d
    }

    ghost predicate Needs(file: Path, d: Path) {
      file in original && d in original[file].libs && !IsSystem(d)
    }

    /** A chain of non-system dependencies that starts at an initial target. */
    ghost predicate IsChain(chain: seq<Path>)
      decreases |chain|
    {
      && chain != []
      && var d := chain[|chain| - 1];
         if |chain| == 1 then exists t | t in targets :: Needs(resolve(t), d)
         else IsChain(chain[..|chain| - 1]) && Needs(resolve(chain[|chain| - 2]), d)
    }

    ghost predicate Reachable(d: Path) {
      exists chain :: IsChain(chain) && chain[|chain| - 1] == d
    }

    /** Initial targets lie outside the destination, the libraries they reach are
        neither initial targets nor files in the destination, and different
        bundled names are different files. */
    ghost predicate Separate() {
      && (forall t, d | t in targets && Reachable(d) :: resolve(t) != CopyFile(d))
      && (forall t, d | t in targets && Reachable(d) :: resolve(t) != resolve(d))
      && (forall d, e | Reachable(d) && Reachable(e) :: resolve(d) != CopyFile(e))
      && (forall d, e | Reachable(d) && Reachable(e) && BundledName(d) != BundledName(e) ::
            CopyFile(d) != CopyFile(e))
    }

    /** f is neither an initial target nor the copy of a library they reach. */
    ghost predicate Foreign(f: Path) {
      (forall t | t in targets :: f != resolve(t)) && (forall d | Reachable(d) :: f != CopyFile(d))
    }

    /** Everything but the targets and the copies is as it was. */
    ghost predicate SourcesUntouched(files: Files) {
      forall f | Foreign(f) :: (f in files <==> f in original) && (f in files ==> files[f] == original[f])
    }

    /** What it takes to bundle the targets. */
    ghost predicate Bundleable() {
      && (forall t | t in targets :: resolve(t) in original)
      && (forall d | Reachable(d) :: IsStore(d) && resolve(d) in original)
      && (forall d, e | Reachable(d) && Reachable(e) && BundledName(d) == BundledName(e) :: d == e)
    }
  }

  /** The file, an initial target or the copy of a reachable library, loads d. */
  ghost predicate LoadedBy(job: Job, file: Path, d: Path) {
    || (exists t | t in job.targets :: file == job.resolve(t) && job.Needs(file, d))
    || (exists e | job.Reachable(e) :: file == job.CopyFile(e) && job.Needs(job.resolve(e), d))
  }

  /** What an error says of the job. */
  ghost predicate Explains(job: Job, error: Error) {
    match error
    case MissingTarget(t) => t in job.targets && job.resolve(t) !in job.original
    case UnsupportedDependency(f, d) => LoadedBy(job, f, d) && !IsSystem(d) && !IsStore(d)
    case MissingDependency(f, d) => LoadedBy(job, f, d) && IsStore(d) && job.resolve(d) !in job.original
    case NameCollision(e, d) =>
      e != d && job.Reachable(e) && job.Reachable(d) && job.BundledName(e) == job.BundledName(d)
  }

  lemma LoadedIsReachable(job: Job, file: Path, d: Path)
    requires LoadedBy(job, file, d)
    ensures job.Reachable(d)
  {
    if t :| t in job.targets && file == job.resolve(t) && job.Needs(file, d) {
      TargetNeedsReachable(job, t, d);
    } else {
      var e :| job.Reachable(e) && file == job.CopyFile(e) && job.Needs(job.resolve(e), d);
      ReachableNeedsReachable(job, e, d);
    }
  }

  /** Every error is about something that keeps the targets from being bundled. */
  lemma ExplainedIsFatal(job: Job, error: Error)
    requires Explains(job, error)
    ensures !job.Bundleable()
  {
    if error.UnsupportedDependency? || error.MissingDependency? {
      LoadedIsReachable(job, error.target, error.dependency);
    }
  }

  // ----- The worklist -----

  datatype Progress = Progress(
    files: Files,
    pending: seq<WorkItem>,
    processed: set<Path>,
    copied: Copied,
    names: map<Path, Path>)

  /** A file in the middle of its relocation: where it came from. */
  datatype Busy = Busy(file: Path, origin: Image, newId: Path)

  ghost predicate NeedsCopied(image: Image, copied: Copied) {
    forall d | d in image.libs && !IsSystem(d) :: d in copied
  }

  /** `copied` and `names` record the same copies, one per bundled name. */
  ghost predicate Inverse(job: Job, copied: Copied, names: map<Path, Path>) {
    && (forall d | d in copied ::
          && copied[d] == (job.BundledPath(d), job.InstallName(d))
          && job.BundledName(d) in names && names[job.BundledName(d)] == d)
    && (forall n | n in names :: names[n] in copied && job.BundledName(names[n]) == n)
  }

  ghost predicate CopiesJustified(job: Job, copied: Copied) {
    forall d | d in copied ::
      d in job.Sources() && !IsSystem(d) && IsStore(d) && job.resolve(d) in job.original && job.Reachable(d)
  }

  ghost predicate ItemOk(job: Job, copied: Copied, item: WorkItem) {
    match item.installName
    case None => item.path in job.targets
    case Some(n) => exists d :: d in copied && item.path == job.BundledPath(d) && n == job.InstallName(d)
  }

  ghost predicate ItemsOk(job: Job, copied: Copied, pending: seq<WorkItem>) {
    forall item | item in pending :: ItemOk(job, copied, item)
  }

  function TargetItem(t: Path): WorkItem {
    WorkItem(t, None)
  }

  function CopyItem(job: Job, d: Path): WorkItem {
    WorkItem(job.BundledPath(d), Some(job.InstallName(d)))
  }

  /** Every initial target and every copy is queued, busy or processed. */
  ghost predicate Covered(job: Job, pending: seq<WorkItem>, copied: Copied, handled: set<Path>) {
    && (forall t | t in job.targets :: TargetItem(t) in pending || job.resolve(t) in handled)
    && (forall d | d in copied :: CopyItem(job, d) in pending || job.CopyFile(d) in handled)
  }

  ghost predicate TargetOk(job: Job, files: Files, processed: set<Path>, copied: Copied, busy: set<Path>, t: Path) {
    var f := job.resolve(t);
    if f in processed then
      && f in job.original && f in files
      && files[f] == job.Relocated(job.original[f], job.TargetId(f))
      && NeedsCopied(job.original[f], copied)
    else f !in busy ==>
      && (f in files <==> f in job.original)
      && (f in files ==> files[f] == job.original[f])
  }

  ghost predicate CopyOk(job: Job, files: Files, processed: set<Path>, copied: Copied, busy: set<Path>, d: Path) {
    var f := job.CopyFile(d);
    && job.resolve(d) in job.original
    && f in files
    && if f in processed then
         && files[f] == job.Relocated(job.original[job.resolve(d)], job.InstallName(d))
         && NeedsCopied(job.original[job.resolve(d)], copied)
       else f !in busy ==> files[f] == job.original[job.resolve(d)]
  }

  /** f is an initial target or a copy. */
  ghost predicate OwnFile(job: Job, copied: Copied, f: Path) {
    (exists t | t in job.targets :: f == job.resolve(t)) || (exists d | d in copied :: f == job.CopyFile(d))
  }

  /** Files that are neither targets nor copies are what they were. */
  ghost predicate Frame(job: Job, files: Files, copied: Copied) {
    forall f | !OwnFile(job, copied, f) ::
      (f in files <==> f in job.original) && (f in files ==> files[f] == job.original[f])
  }

  ghost predicate FilesOk(job: Job, files: Files, processed: set<Path>, copied: Copied, busy: set<Path>) {
    && (forall t | t in job.targets :: TargetOk(job, files, processed, copied, busy, t))
    && (forall d | d in copied :: CopyOk(job, files, processed, copied, busy, d))
    && Frame(job, files, copied)
    && (forall f | f in processed || f in busy :: OwnFile(job, copied, f))
    && busy !! processed
  }

  ghost predicate Inv(job: Job, p: Progress, busy: set<Path>) {
    && Inverse(job, p.copied, p.names)
    && CopiesJustified(job, p.copied)
    && ItemsOk(job, p.copied, p.pending)
    && Covered(job, p.pending, p.copied, p.processed + busy)
    && FilesOk(job, p.files, p.processed, p.copied, busy)
  }

  /** The busy file is an initial target or a copy, and its first k load
      commands have been dealt with. */
  ghost predicate BusyOrigin(job: Job, copied: Copied, b: Busy) {
    || (exists t | t in job.targets :: job.resolve(t) == b.file && b.file in job.original
          && b.origin == job.original[b.file] && b.newId == job.TargetId(b.file))
    || (exists d | d in copied :: job.CopyFile(d) == b.file && job.resolve(d) in job.original
          && b.origin == job.original[job.resolve(d)] && b.newId == job.InstallName(d))
  }

  ghost predicate BusyOk(job: Job, p: Progress, b: Busy, k: nat) {
    && BusyOrigin(job, p.copied, b)
    && k <= |b.origin.libs|
    && b.file in p.files
    && p.files[b.file] == Image(job.Redirected(b.origin.libs, b.origin.libs[..k]), b.origin.rpaths,
                                if b.origin.id.Some? then Some(b.newId) else None)
    && (forall i | 0 <= i < k :: IsSystem(b.origin.libs[i]) || b.origin.libs[i] in p.copied)
  }

  // ----- Steps of the worklist keep the invariant -----

  function Queue(targets: seq<Path>): seq<WorkItem> {
    seq(|targets|, i requires 0 <= i < |targets| => TargetItem(targets[i]))
  }

  lemma InitialInv(job: Job)
    ensures Inv(job, Progress(job.original, Queue(job.targets), {}, map[], map[]), {})
  {
    forall t | t in job.targets ensures TargetItem(t) in Queue(job.targets) {
      var i :| 0 <= i < |job.targets| && job.targets[i] == t;
      assert Queue(job.targets)[i] == TargetItem(t);
    }
  }

  /** Taking the head of the queue is fine once its file is handled. */
  lemma PopKeepsCovered(job: Job, p: Progress, busy: set<Path>)
    requires ItemsOk(job, p.copied, p.pending) && Covered(job, p.pending, p.copied, p.processed)
    requires p.pending != [] && job.resolve(p.pending[0].path) in p.processed + busy
    ensures ItemsOk(job, p.copied, p.pending[1..]) && Covered(job, p.pending[1..], p.copied, p.processed + busy)
  {
    assert forall item | item in p.pending :: item == p.pending[0] || item in p.pending[1..];
  }

  lemma SkipKeepsInv(job: Job, p: Progress)
    requires Inv(job, p, {}) && p.pending != [] && job.resolve(p.pending[0].path) in p.processed
    ensures Inv(job, p.(pending := p.pending[1..]), {})
  {
    assert p.processed + {} == p.processed;
    PopKeepsCovered(job, p, {});
  }

  lemma HeadIsOwn(job: Job, p: Progress)
    requires ItemsOk(job, p.copied, p.pending) && p.pending != []
    ensures OwnFile(job, p.copied, job.resolve(p.pending[0].path))
  {
    assert ItemOk(job, p.copied, p.pending[0]);
  }

  lemma OneMoreBusy(job: Job, files: Files, processed: set<Path>, copied: Copied, f: Path)
    requires FilesOk(job, files, processed, copied, {}) && OwnFile(job, copied, f) && f !in processed
    ensures FilesOk(job, files, processed, copied, {f})
  {
    forall t | t in job.targets ensures TargetOk(job, files, processed, copied, {f}, t) {
      assert TargetOk(job, files, processed, copied, {}, t);
    }
    forall d | d in copied ensures CopyOk(job, files, processed, copied, {f}, d) {
      assert CopyOk(job, files, processed, copied, {}, d);
    }
  }

  lemma PopKeepsInv(job: Job, p: Progress)
    requires Inv(job, p, {}) && p.pending != []
    requires job.resolve(p.pending[0].path) !in p.processed
    ensures Inv(job, p.(pending := p.pending[1..]), {job.resolve(p.pending[0].path)})
  {
    assert p.processed + {} == p.processed;
    var busy := {job.resolve(p.pending[0].path)};
    PopKeepsCovered(job, p, busy);
    HeadIsOwn(job, p);
    OneMoreBusy(job, p.files, p.processed, p.copied, job.resolve(p.pending[0].path));
  }

  /** The popped file is untouched, and the item tells where it came from. */
  lemma PoppedOrigin(job: Job, p: Progress) returns (b: Busy)
    requires Inv(job, p, {}) && p.pending != []
    requires job.resolve(p.pending[0].path) !in p.processed
    requires job.resolve(p.pending[0].path) in p.files
    ensures b.file == job.resolve(p.pending[0].path)
    ensures BusyOrigin(job, p.copied, b) && p.files[b.file] == b.origin
    ensures b.newId == if p.pending[0].installName.Some? then p.pending[0].installName.value else job.TargetId(b.file)
  {
    var item := p.pending[0];
    var file := job.resolve(item.path);
    assert ItemOk(job, p.copied, item);
    match item.installName
    case None =>
      assert TargetOk(job, p.files, p.processed, p.copied, {}, item.path);
      b := Busy(file, job.original[file], job.TargetId(file));
    case Some(n) =>
      var d :| d in p.copied && item.path == job.BundledPath(d) && n == job.InstallName(d);
      assert CopyOk(job, p.files, p.processed, p.copied, {}, d);
      b := Busy(file, job.original[job.resolve(d)], n);
  }

  /** A missing head can only be an initial target that never existed. */
  lemma MissingHead(job: Job, p: Progress)
    requires Inv(job, p, {}) && p.pending != [] && job.resolve(p.pending[0].path) !in p.files
    ensures Explains(job, MissingTarget(p.pending[0].path))
  {
    var item := p.pending[0];
    assert ItemOk(job, p.copied, item);
    if item.installName.None? {
      assert TargetOk(job, p.files, p.processed, p.copied, {}, item.path);
    }
  }

  lemma EditKeepsTargetOk(job: Job, files: Files, processed: set<Path>, copied: Copied, f: Path, image: Image, t: Path)
    requires f !in processed && TargetOk(job, files, processed, copied, {f}, t)
    ensures TargetOk(job, files[f := image], processed, copied, {f}, t)
  {
  }

  lemma EditKeepsCopyOk(job: Job, files: Files, processed: set<Path>, copied: Copied, f: Path, image: Image, d: Path)
    requires f !in processed && CopyOk(job, files, processed, copied, {f}, d)
    ensures CopyOk(job, files[f := image], processed, copied, {f}, d)
  {
  }

  lemma EditKeepsFilesOk(job: Job, files: Files, processed: set<Path>, copied: Copied, f: Path, image: Image)
    requires FilesOk(job, files, processed, copied, {f})
    ensures FilesOk(job, files[f := image], processed, copied, {f})
  {
    hide TargetOk, CopyOk, OwnFile;
    assert f !in processed && OwnFile(job, copied, f);
    forall t | t in job.targets ensures TargetOk(job, files[f := image], processed, copied, {f}, t) {
      EditKeepsTargetOk(job, files, processed, copied, f, image, t);
    }
    forall d | d in copied ensures CopyOk(job, files[f := image], processed, copied, {f}, d) {
      EditKeepsCopyOk(job, files, processed, copied, f, image, d);
    }
  }

  /** Editing the busy file disturbs nothing else. */
  lemma EditKeepsInv(job: Job, p: Progress, f: Path, image: Image)
    requires Inv(job, p, {f})
    ensures Inv(job, p.(files := p.files[f := image]), {f})
  {
    hide FilesOk, Inverse, CopiesJustified, ItemsOk, Covered;
    EditKeepsFilesOk(job, p.files, p.processed, p.copied, f, image);
  }

  lemma TargetNeedsReachable(job: Job, t: Path, d: Path)
    requires t in job.targets && job.Needs(job.resolve(t), d)
    ensures job.Reachable(d)
  {
    assert job.IsChain([d]) && [d][|[d]| - 1] == d;
  }

  lemma ReachableNeedsReachable(job: Job, e: Path, d: Path)
    requires job.Reachable(e) && job.Needs(job.resolve(e), d)
    ensures job.Reachable(d)
  {
    var chain :| job.IsChain(chain) && chain[|chain| - 1] == e;
    var longer := chain + [d];
    assert longer[..|longer| - 1] == chain;
    assert longer[|longer| - 2] == e;
    assert job.IsChain(longer) && longer[|longer| - 1] == d;
  }

  /** A dependency of a busy file is reachable. */
  lemma DependencyIsReachable(job: Job, copied: Copied, b: Busy, d: Path)
    requires CopiesJustified(job, copied) && BusyOrigin(job, copied, b)
    requires d in b.origin.libs && !IsSystem(d)
    ensures job.Reachable(d) && d in job.Sources() && LoadedBy(job, b.file, d)
  {
    if t :| t in job.targets && job.resolve(t) == b.file && b.file in job.original && b.origin == job.original[b.file] {
      TargetNeedsReachable(job, t, d);
    } else {
      var e :| e in copied && job.CopyFile(e) == b.file && job.resolve(e) in job.original
               && b.origin == job.original[job.resolve(e)];
      assert job.Reachable(e) && job.Needs(job.resolve(e), d);
      ReachableNeedsReachable(job, e, d);
    }
  }

  function WithCopy(job: Job, p: Progress, d: Path): Progress
    requires job.resolve(d) in p.files
  {
    Progress(p.files[job.CopyFile(d) := p.files[job.resolve(d)]],
             p.pending + [CopyItem(job, d)],
             p.processed,
             p.copied[d := (job.BundledPath(d), job.InstallName(d))],
             p.names[job.BundledName(d) := d])
  }

  /** The file a copy would be written to is nobody's yet. */
  lemma CopyFileIsNew(job: Job, copied: Copied, names: map<Path, Path>, d: Path)
    requires job.Separate() && Inverse(job, copied, names) && CopiesJustified(job, copied)
    requires job.Reachable(d) && job.BundledName(d) !in names
    ensures !OwnFile(job, copied, job.CopyFile(d)) && d !in copied
  {
    hide Job.Reachable;
    forall e | e in copied ensures job.CopyFile(e) != job.CopyFile(d) {
      assert job.BundledName(e) in names;
    }
  }

  /** What is copied is the original source. */
  lemma SourceIsOriginal(job: Job, p: Progress, busy: set<Path>, d: Path)
    requires job.Separate() && Inv(job, p, busy) && job.Reachable(d)
    ensures job.resolve(d) in p.files <==> job.resolve(d) in job.original
    ensures job.resolve(d) in p.files ==> p.files[job.resolve(d)] == job.original[job.resolve(d)]
  {
    hide Job.Reachable;
    assert !OwnFile(job, p.copied, job.resolve(d));
  }

  lemma MoreOwnFiles(job: Job, less: Copied, more: Copied)
    requires less.Keys <= more.Keys
    ensures forall f | OwnFile(job, less, f) :: OwnFile(job, more, f)
  {
    forall f | OwnFile(job, less, f) ensures OwnFile(job, more, f) {
      if e :| e in less && f == job.CopyFile(e) { assert e in more; }
    }
  }

  lemma CopyKeepsInverse(job: Job, p: Progress, d: Path)
    requires Inverse(job, p.copied, p.names) && job.BundledName(d) !in p.names && job.resolve(d) in p.files
    ensures Inverse(job, WithCopy(job, p, d).copied, WithCopy(job, p, d).names)
  {
  }

  lemma CopyKeepsItems(job: Job, p: Progress, d: Path)
    requires CopiesJustified(job, p.copied) && ItemsOk(job, p.copied, p.pending) && job.resolve(d) in p.files
    requires d in job.Sources() && !IsSystem(d) && IsStore(d) && job.resolve(d) in job.original && job.Reachable(d)
    ensures var q := WithCopy(job, p, d); CopiesJustified(job, q.copied) && ItemsOk(job, q.copied, q.pending)
  {
    var q := WithCopy(job, p, d);
    forall item | item in q.pending ensures ItemOk(job, q.copied, item) {
      if item in p.pending {
        assert ItemOk(job, p.copied, item);
        if item.installName.Some? {
          var e :| e in p.copied && item.path == job.BundledPath(e) && item.installName.value == job.InstallName(e);
          assert e in q.copied;
        }
      } else {
        assert item == CopyItem(job, d) && d in q.copied;
      }
    }
  }

  lemma CopyKeepsCovered(job: Job, p: Progress, d: Path, handled: set<Path>)
    requires Covered(job, p.pending, p.copied, handled) && job.resolve(d) in p.files
    ensures var q := WithCopy(job, p, d); Covered(job, q.pending, q.copied, handled)
  {
    var q := WithCopy(job, p, d);
    assert CopyItem(job, d) in q.pending;
  }

  lemma CopyKeepsFilesOk(job: Job, p: Progress, f: Path, d: Path)
    requires FilesOk(job, p.files, p.processed, p.copied, {f})
    requires !OwnFile(job, p.copied, job.CopyFile(d)) && d !in p.copied
    requires job.resolve(d) in p.files && job.resolve(d) in job.original
    requires p.files[job.resolve(d)] == job.original[job.resolve(d)]
    ensures var q := WithCopy(job, p, d); FilesOk(job, q.files, q.processed, q.copied, {f})
  {
    var q := WithCopy(job, p, d);
    MoreOwnFiles(job, p.copied, q.copied);
    assert d in q.copied;
    assert OwnFile(job, q.copied, job.CopyFile(d));
    forall t | t in job.targets ensures TargetOk(job, q.files, q.processed, q.copied, {f}, t) {
      assert TargetOk(job, p.files, p.processed, p.copied, {f}, t) && job.resolve(t) != job.CopyFile(d);
    }
    forall e | e in q.copied ensures CopyOk(job, q.files, q.processed, q.copied, {f}, e) {
      if e != d {
        assert CopyOk(job, p.files, p.processed, p.copied, {f}, e) && job.CopyFile(e) != job.CopyFile(d);
      } else {
        assert job.CopyFile(d) !in p.processed;
      }
    }
  }

  lemma CopyKeepsInv(job: Job, p: Progress, b: Busy, d: Path)
    requires job.Separate() && Inv(job, p, {b.file}) && BusyOrigin(job, p.copied, b)
    requires d in b.origin.libs && !IsSystem(d) && IsStore(d)
    requires job.BundledName(d) !in p.names && job.resolve(d) in p.files
    ensures Inv(job, WithCopy(job, p, d), {b.file})
    ensures job.CopyFile(d) != b.file && d !in p.copied
  {
    DependencyIsReachable(job, p.copied, b, d);
    CopyFileIsNew(job, p.copied, p.names, d);
    SourceIsOriginal(job, p, {b.file}, d);
    CopyKeepsInverse(job, p, d);
    CopyKeepsItems(job, p, d);
    CopyKeepsCovered(job, p, d, p.processed + {b.file});
    CopyKeepsFilesOk(job, p, b.file, d);
  }

  lemma MoreCopiesKeepOrigin(job: Job, less: Copied, more: Copied, b: Busy)
    requires BusyOrigin(job, less, b) && less.Keys <= more.Keys
    ensures BusyOrigin(job, more, b)
  {
    if e :| e in less && job.CopyFile(e) == b.file && job.resolve(e) in job.original
            && b.origin == job.original[job.resolve(e)] && b.newId == job.InstallName(e) {
      assert e in more;
    }
  }

  /** The origin of a busy file is the origin of every target or copy that
      shares the file. */
  lemma OriginIsUnique(job: Job, p: Progress, b: Busy)
    requires job.Separate() && Inverse(job, p.copied, p.names) && CopiesJustified(job, p.copied)
    requires BusyOrigin(job, p.copied, b)
    ensures forall t | t in job.targets && job.resolve(t) == b.file ::
      b.file in job.original && b.origin == job.original[b.file] && b.newId == job.TargetId(b.file)
    ensures forall d | d in p.copied && job.CopyFile(d) == b.file ::
      job.resolve(d) in job.original && b.origin == job.original[job.resolve(d)] && b.newId == job.InstallName(d)
  {
    forall d | d in p.copied && job.CopyFile(d) == b.file
      ensures job.resolve(d) in job.original
      ensures b.origin == job.original[job.resolve(d)] && b.newId == job.InstallName(d)
    {
      var e :| e in p.copied && job.CopyFile(e) == b.file && job.resolve(e) in job.original
               && b.origin == job.original[job.resolve(e)] && b.newId == job.InstallName(e);
      assert job.BundledName(e) == job.BundledName(d);
      assert e == d;
    }
  }

  /** A busy file that is relocated may be called processed. */
  lemma FinishKeepsInv(job: Job, p: Progress, b: Busy)
    requires job.Separate() && Inv(job, p, {b.file}) && BusyOrigin(job, p.copied, b)
    requires b.file in p.files && p.files[b.file] == job.Relocated(b.origin, b.newId)
    requires NeedsCopied(b.origin, p.copied)
    ensures Inv(job, p.(processed := p.processed + {b.file}), {})
  {
    hide Inverse, CopiesJustified, ItemsOk, Covered, OwnFile, Job.Relocated, NeedsCopied, Job.Separate;
    OriginIsUnique(job, p, b);
    var processed := p.processed + {b.file};
    forall t | t in job.targets ensures TargetOk(job, p.files, processed, p.copied, {}, t) {
      assert TargetOk(job, p.files, p.processed, p.copied, {b.file}, t);
    }
    forall d | d in p.copied ensures CopyOk(job, p.files, processed, p.copied, {}, d) {
      assert CopyOk(job, p.files, p.processed, p.copied, {b.file}, d);
    }
    assert processed + {} == processed;
    assert FilesOk(job, p.files, processed, p.copied, {});
  }

  // ----- What the edits amount to -----

  lemma {:induction false} RedirectedLength(job: Job, libs: seq<Path>, done: seq<Path>)
    ensures |job.Redirected(libs, done)| == |libs|
    decreases |done|
  {
    if done != [] { RedirectedLength(job, libs, done[..|done| - 1]); }
  }

  /** After k dependencies every load command either still names its library,
      which is a system library or still to come, or names a copy. */
  lemma {:induction false} RedirectedProgress(job: Job, libs: seq<Path>, k: nat, j: nat)
    requires k <= |libs| && j < |libs|
    ensures |job.Redirected(libs, libs[..k])| == |libs|
    ensures var now := job.Redirected(libs, libs[..k])[j];
            || (now == libs[j] && (IsSystem(now) || now !in libs[..k]))
            || (exists e :: e in libs[..k] && !IsSystem(e) && now == job.InstallName(e))
    decreases k
  {
    hide IsSystem;
    RedirectedLength(job, libs, libs[..k]);
    if k > 0 {
      RedirectedProgress(job, libs, k - 1, j);
      var last := libs[k - 1];
      assert libs[..k][..k - 1] == libs[..k - 1];
      assert libs[..k] == libs[..k - 1] + [last];
      var before := job.Redirected(libs, libs[..k - 1])[j];
      if before == last && !IsSystem(last) {
        assert last in libs[..k];
      } else if e :| e in libs[..k - 1] && !IsSystem(e) && before == job.InstallName(e) {
        assert e in libs[..k];
      }
    }
  }

  /** Nothing but system libraries and copies is loaded in the end. */
  lemma RelocatedLoadsOnlyBundled(job: Job, image: Image, newId: Path, l: Path)
    requires l in job.Relocated(image, newId).libs
    ensures IsSystem(l) || exists e :: e in image.libs && !IsSystem(e) && l == job.InstallName(e)
  {
    RedirectedLength(job, image.libs, image.libs);
    var j :| 0 <= j < |image.libs| && job.Redirected(image.libs, image.libs)[j] == l;
    assert image.libs[..|image.libs|] == image.libs;
    RedirectedProgress(job, image.libs, |image.libs|, j);
  }

  lemma {:induction false} WithoutMembers(rpaths: seq<Path>, gone: set<Path>, r: Path)
    ensures r in Without(rpaths, gone) <==> r in rpaths && r !in gone
  {
    if rpaths != [] { WithoutMembers(rpaths[1..], gone, r); }
  }

  lemma {:induction false} WithoutTwice(rpaths: seq<Path>, gone: set<Path>, r: Path)
    ensures Without(Without(rpaths, gone), {r}) == Without(rpaths, gone + {r})
  {
    if rpaths != [] {
      WithoutTwice(rpaths[1..], gone, r);
      var rest := Without(rpaths[1..], gone);
      if rpaths[0] in gone {
        assert Without(rpaths, gone) == rest;
      } else {
        assert Without(rpaths, gone) == [rpaths[0]] + rest;
        assert ([rpaths[0]] + rest)[1..] == rest;
      }
    }
  }

  lemma {:induction false} WithoutNothing(rpaths: seq<Path>)
    ensures Without(rpaths, {}) == rpaths
  {
    if rpaths != [] {
      WithoutNothing(rpaths[1..]);
      assert rpaths == [rpaths[0]] + rpaths[1..];
    }
  }

  // ----- An empty queue -----

  lemma ProcessedTarget(job: Job, p: Progress, t: Path)
    requires Inv(job, p, {}) && p.pending == [] && t in job.targets
    ensures var f := job.resolve(t);
            && f in job.original && f in p.files
            && p.files[f] == job.Relocated(job.original[f], job.TargetId(f))
            && NeedsCopied(job.original[f], p.copied)
  {
    assert TargetItem(t) !in p.pending;
    assert TargetOk(job, p.files, p.processed, p.copied, {}, t);
  }

  lemma ProcessedCopy(job: Job, p: Progress, d: Path)
    requires Inv(job, p, {}) && p.pending == [] && d in p.copied
    ensures var f := job.CopyFile(d);
            && job.resolve(d) in job.original && f in p.files
            && p.files[f] == job.Relocated(job.original[job.resolve(d)], job.InstallName(d))
            && NeedsCopied(job.original[job.resolve(d)], p.copied)
  {
    assert CopyItem(job, d) !in p.pending;
    assert CopyOk(job, p.files, p.processed, p.copied, {}, d);
  }

  ghost predicate ClosedUnderNeeds(job: Job, copied: Copied) {
    && (forall t, d | t in job.targets && job.Needs(job.resolve(t), d) :: d in copied)
    && (forall e, d | e in copied && job.Needs(job.resolve(e), d) :: d in copied)
  }

  /** Reachable libraries were all copied. */
  lemma {:induction false} ChainIsCopied(job: Job, copied: Copied, chain: seq<Path>)
    requires ClosedUnderNeeds(job, copied) && job.IsChain(chain)
    ensures chain[|chain| - 1] in copied
    decreases |chain|
  {
    if |chain| > 1 { ChainIsCopied(job, copied, chain[..|chain| - 1]); }
  }

  ghost predicate Bundled(job: Job, files: Files, copied: Copied) {
    && (forall d :: d in copied <==> job.Reachable(d))
    && (forall d | d in copied :: copied[d] == (job.BundledPath(d), job.InstallName(d)))
    && (forall d, e | d in copied && e in copied && job.BundledName(d) == job.BundledName(e) :: d == e)
    && (forall t | t in job.targets ::
          var f := job.resolve(t);
          f in job.original && f in files && files[f] == job.Relocated(job.original[f], job.TargetId(f)))
    && (forall d | d in copied ::
          var f := job.CopyFile(d);
          && job.resolve(d) in job.original && f in files
          && files[f] == job.Relocated(job.original[job.resolve(d)], job.InstallName(d)))
  }

  lemma EmptyQueue(job: Job, p: Progress)
    requires job.Separate() && Inv(job, p, {}) && p.pending == []
    ensures Bundled(job, p.files, p.copied) && job.Bundleable()
  {
    forall t, d | t in job.targets && job.Needs(job.resolve(t), d) ensures d in p.copied {
      ProcessedTarget(job, p, t);
    }
    forall e, d | e in p.copied && job.Needs(job.resolve(e), d) ensures d in p.copied {
      ProcessedCopy(job, p, e);
    }
    forall d | job.Reachable(d) ensures d in p.copied {
      var chain :| job.IsChain(chain) && chain[|chain| - 1] == d;
      ChainIsCopied(job, p.copied, chain);
    }
    forall t | t in job.targets
      ensures var f := job.resolve(t);
              f in job.original && f in p.files && p.files[f] == job.Relocated(job.original[f], job.TargetId(f))
    {
      ProcessedTarget(job, p, t);
    }
    forall d | d in p.copied
      ensures var f := job.CopyFile(d);
              && job.resolve(d) in job.original && f in p.files
              && p.files[f] == job.Relocated(job.original[job.resolve(d)], job.InstallName(d))
    {
      ProcessedCopy(job, p, d);
    }
  }

  /** The closure that the program promises: after a run every target and every
      copy loads only system libraries and install names of copies, and keeps
      no rpath into the store. */
  lemma BundledIsClosed(job: Job, files: Files, copied: Copied, f: Path)
    requires Bundled(job, files, copied)
    requires (exists t | t in job.targets :: f == job.resolve(t)) || (exists d | d in copied :: f == job.CopyFile(d))
    ensures f in files
    ensures forall l | l in files[f].libs :: IsSystem(l) || exists e :: e in copied && l == copied[e].1
    ensures forall r | r in files[f].rpaths :: !IsStore(r)
  {
    var origin, newId;
    if t :| t in job.targets && f == job.resolve(t) {
      origin, newId := job.original[f], job.TargetId(f);
      forall e | e in origin.libs && !IsSystem(e) ensures e in copied { TargetNeedsReachable(job, t, e); }
    } else {
      var d :| d in copied && f == job.CopyFile(d);
      origin, newId := job.original[job.resolve(d)], job.InstallName(d);
      forall e | e in origin.libs && !IsSystem(e) ensures e in copied { ReachableNeedsReachable(job, d, e); }
    }
    forall l | l in files[f].libs ensures IsSystem(l) || exists e :: e in copied && l == copied[e].1 {
      RelocatedLoadsOnlyBundled(job, origin, newId, l);
    }
    forall r | r in files[f].rpaths ensures !IsStore(r) {
      WithoutMembers(origin.rpaths, StoreRpaths(origin.rpaths), r);
    }
  }

  // ----- What the loader finds -----

  /** The part of a path behind its last slash, or all of it. */
  predicate IsFileName(name: string, path: Path) {
    '/' !in name && (path == name || (|path| > |name| && path[|path| - |name| - 1..] == "/" + name))
  }

  lemma {:induction false} TakesFileName(p: Path)
    ensures IsFileName(TakeFileName(p), p)
  {
    if '/' in p {
      TakesFileName(p[1..]);
      var name := TakeFileName(p[1..]);
      if p[1..] == name {
        assert p[0] == '/' by { assert p == [p[0]] + p[1..]; }
        assert p[|p| - |name| - 1..] == "/" + name;
      } else {
        assert p[|p| - |name| - 1..] == p[1..][|p[1..]| - |name| - 1..];
      }
    }
  }

  /** The load command `l` names, under the install prefix, the hashed file name
      of the library d; under the same name in the destination lies d as it was,
      but relocated: with `l` for its identity and without store rpaths. */
  ghost predicate FindsCopy(job: Job, files: Files, copied: Copied, l: Path, d: Path) {
    && |l| >= |job.installPrefix| && l[..|job.installPrefix|] == job.installPrefix
    && d in copied && job.resolve(d) in job.original
    && var name, origin := l[|job.installPrefix|..], job.original[job.resolve(d)];
       && (exists base :: IsFileName(base, d) && name == job.hash(d) + "-" + base)
       && copied[d] == (Join(job.destination, name), l)
       && job.resolve(Join(job.destination, name)) in files
       && var copy := files[job.resolve(Join(job.destination, name))];
          && |copy.libs| == |origin.libs|
          && copy.id == (if origin.id.Some? then Some(l) else None)
          && forall r :: r in copy.rpaths <==> r in origin.rpaths && !IsStore(r)
  }

  /** Every load command of every target and copy names a system library, or
      leads the loader to a copy. */
  ghost predicate LoaderFinds(job: Job, files: Files, copied: Copied) {
    && (forall f, l | OwnFile(job, copied, f) && f in files && l in files[f].libs ::
          IsSystem(l) || exists d :: FindsCopy(job, files, copied, l, d))
    && (forall t | t in job.targets && job.resolve(t) in files && files[job.resolve(t)].id.Some? ::
          exists base :: IsFileName(base, job.resolve(t)) && files[job.resolve(t)].id.value == "@loader_path/" + base)
  }

  lemma CopyIsFound(job: Job, files: Files, copied: Copied, d: Path)
    requires Bundled(job, files, copied) && d in copied
    ensures FindsCopy(job, files, copied, copied[d].1, d)
  {
    var l, origin := copied[d].1, job.original[job.resolve(d)];
    assert l[|job.installPrefix|..] == job.BundledName(d) && l[..|job.installPrefix|] == job.installPrefix;
    TakesFileName(d);
    RedirectedLength(job, origin.libs, origin.libs);
    forall r ensures r in files[job.CopyFile(d)].rpaths <==> r in origin.rpaths && !IsStore(r) {
      WithoutMembers(origin.rpaths, StoreRpaths(origin.rpaths), r);
    }
  }

  /** What is redirected is found: the loader replaces the install prefix by the
      directory it stands for, and the copies lie in the destination. */
  lemma BundledIsFound(job: Job, files: Files, copied: Copied)
    requires Bundled(job, files, copied)
    ensures LoaderFinds(job, files, copied)
  {
    forall f, l | OwnFile(job, copied, f) && f in files && l in files[f].libs
      ensures IsSystem(l) || exists d :: FindsCopy(job, files, copied, l, d)
    {
      BundledIsClosed(job, files, copied, f);
      if !IsSystem(l) {
        var d :| d in copied && l == copied[d].1;
        CopyIsFound(job, files, copied, d);
      }
    }
    forall t | t in job.targets && job.resolve(t) in files && files[job.resolve(t)].id.Some?
      ensures exists base :: IsFileName(base, job.resolve(t))
                             && files[job.resolve(t)].id.value == "@loader_path/" + base
    {
      TakesFileName(job.resolve(t));
    }
  }

  /** A file that lies directly in the directory. */
  ghost predicate LiesIn(directory: Path, path: Path) {
    exists slash, name ::
      && path == directory + slash + name && name != "" && '/' !in name
      && slash == if directory == "" || directory[|directory| - 1] == '/' then "" else "/"
  }

  /** Copies lie in the destination itself, whatever their sources are called. */
  lemma CopiesLieInTheDestination(job: Job, files: Files, copied: Copied, d: Path)
    requires Bundled(job, files, copied) && d in copied && '/' !in job.hash(d)
    ensures LiesIn(job.destination, copied[d].0)
  {
    TakesFileName(d);
    hide TakeFileName;
    JoinLies(job.destination, job.BundledName(d));
  }

  lemma JoinLies(directory: Path, name: Path)
    requires name != "" && '/' !in name
    ensures LiesIn(directory, Join(directory, name))
  {
    var slash := if directory == "" || directory[|directory| - 1] == '/' then "" else "/";
    assert directory + "" == directory;
    assert name[0] in name && Join(directory, name) == directory + slash + name;
  }

  /** What counts as the system and as the store; nothing is both. */
  lemma SystemAndStore(p: Path, rest: string)
    ensures p == "/System/Library/" + rest || p == "/Library/Apple/System/Library/" + rest || p == "/usr/lib/" + rest
            ==> IsSystem(p) && !IsStore(p)
    ensures p == "/nix/store/" + rest ==> IsStore(p) && !IsSystem(p)
  {
    if IsStore(p) { assert p[1] == 'n'; }
    if IsSystem(p) { assert p[1] == 'S' || p[1] == 'L' || p[1] == 'u'; }
  }

  // ----- The program -----

  class Bundler {
    var files: Files

    constructor (initial: Files)
      ensures files == initial
    {
      files := initial;
    }

    method RewriteDependency(target: Path, dependency: Path, installName: Path)
      requires target in files
      modifies this
      ensures var before := old(files)[target];
              files == old(files)[target := before.(libs := Change(before.libs, dependency, installName))]
    {
      files := files[target := files[target].(libs := Change(files[target].libs, dependency, installName))];
    }

    /** One load command of the file being relocated. */
    method RelocateDependency(job: Job, target: Path, dependency: Path,
                              pending: seq<WorkItem>, copied: Copied, names: map<Path, Path>,
                              ghost processed: set<Path>, ghost b: Busy, ghost k: nat)
      returns (r: Result<(seq<WorkItem>, Copied, map<Path, Path>), Error>)
      requires job.Separate() && target == b.file && k < |b.origin.libs| && dependency == b.origin.libs[k]
      requires Inv(job, Progress(files, pending, processed, copied, names), {b.file})
      requires BusyOk(job, Progress(files, pending, processed, copied, names), b, k)
      modifies this
      ensures r.Ok? ==> Inv(job, Progress(files, r.value.0, processed, r.value.1, r.value.2), {b.file})
      ensures r.Ok? ==> BusyOk(job, Progress(files, r.value.0, processed, r.value.1, r.value.2), b, k + 1)
      ensures r.Ok? ==> copied.Keys <= r.value.1.Keys
      ensures r.Ok? ==> copied.Keys == r.value.1.Keys ==> r.value.0 == pending
      ensures r.Err? ==> Explains(job, r.error) && files == old(files)
    {
      ghost var p := Progress(files, pending, processed, copied, names);
      if IsSystem(dependency) {
        SystemDependency(job, p, b, k);
        return Ok((pending, copied, names));
      }
      DependencyIsReachable(job, copied, b, dependency);
      SourceIsOriginal(job, p, {b.file}, dependency);
      if !IsStore(dependency) {
        return Err(UnsupportedDependency(target, dependency));
      }
      if job.resolve(dependency) !in files {
        return Err(MissingDependency(target, dependency));
      }
      if dependency in copied {
        RewriteDependency(target, dependency, copied[dependency].1);
        RedirectedDependency(job, p, b, k);
        return Ok((pending, copied, names));
      }
      var name := job.BundledName(dependency);
      var bundledPath := Join(job.destination, name);
      var installName := job.installPrefix + name;
      if name in names && names[name] != dependency {
        CollisionIsFatal(job, p, dependency);
        return Err(NameCollision(names[name], dependency));
      }
      CopyKeepsInv(job, p, b, dependency);
      CopyKeepsBusy(job, p, b, k, dependency);
      files := files[job.resolve(bundledPath) := files[job.resolve(dependency)]];
      RewriteDependency(target, dependency, installName);
      RedirectedDependency(job, WithCopy(job, p, dependency), b, k);
      r := Ok((pending + [WorkItem(bundledPath, Some(installName))],
               copied[dependency := (bundledPath, installName)],
               names[name := dependency]));
    }

    /** All load commands of the file being relocated. */
    method RelocateDependencies(job: Job, target: Path, libs: seq<Path>,
                                pending: seq<WorkItem>, copied: Copied, names: map<Path, Path>,
                                ghost processed: set<Path>, ghost b: Busy)
      returns (r: Result<(seq<WorkItem>, Copied, map<Path, Path>), Error>)
      requires job.Separate() && target == b.file && libs == b.origin.libs
      requires Inv(job, Progress(files, pending, processed, copied, names), {b.file})
      requires BusyOk(job, Progress(files, pending, processed, copied, names), b, 0)
      modifies this
      ensures r.Ok? ==> Inv(job, Progress(files, r.value.0, processed, r.value.1, r.value.2), {b.file})
      ensures r.Ok? ==> BusyOk(job, Progress(files, r.value.0, processed, r.value.1, r.value.2), b, |libs|)
      ensures r.Ok? ==> copied.Keys <= r.value.1.Keys
      ensures r.Ok? ==> copied.Keys == r.value.1.Keys ==> r.value.0 == pending
      ensures r.Err? ==> Explains(job, r.error)
      ensures job.SourcesUntouched(files)
    {
      hide Inv, BusyOk, Explains, Job.Separate, Job.SourcesUntouched;
      var state := (pending, copied, names);
      UntouchedByInv(job, Progress(files, pending, processed, copied, names), {b.file});
      for k := 0 to |libs|
        invariant Inv(job, Progress(files, state.0, processed, state.1, state.2), {b.file})
        invariant BusyOk(job, Progress(files, state.0, processed, state.1, state.2), b, k)
        invariant copied.Keys <= state.1.Keys
        invariant copied.Keys == state.1.Keys ==> state.0 == pending
        invariant job.SourcesUntouched(files)
      {
        var next := RelocateDependency(job, target, libs[k], state.0, state.1, state.2, processed, b, k);
        if next.Err? { return Err(next.error); }
        state := next.value;
        UntouchedByInv(job, Progress(files, state.0, processed, state.1, state.2), {b.file});
      }
      r := Ok(state);
    }

    method DeleteStoreRpaths(target: Path, rpaths: seq<Path>)
      requires target in files && files[target].rpaths == rpaths
      modifies this
      ensures files == old(files)[target := old(files)[target].(rpaths := Without(rpaths, StoreRpaths(rpaths)))]
    {
      hide Without, IsStore;
      var remaining := set r | r in rpaths;
      ghost var gone: set<Path> := {};
      WithoutNothing(rpaths);
      assert files == files[target := files[target].(rpaths := Without(rpaths, gone))];
      while remaining != {}
        invariant remaining <= set r | r in rpaths
        invariant gone == set r | r in rpaths && r !in remaining && IsStore(r)
        invariant files == old(files)[target := old(files)[target].(rpaths := Without(rpaths, gone))]
        decreases remaining
      {
        var r :| r in remaining;
        remaining := remaining - {r};
        if IsStore(r) {
          WithoutTwice(rpaths, gone, r);
          files := files[target := files[target].(rpaths := Without(files[target].rpaths, {r}))];
          gone := gone + {r};
        }
      }
      assert gone == StoreRpaths(rpaths);
    }

    /** -id gives a library the name it was copied for, if any. */
    method SetInstallName(job: Job, target: Path, installName: Option<Path>, ghost p: Progress, ghost b: Busy)
      requires Inv(job, p, {target}) && p.files == files && target in files
      requires BusyOrigin(job, p.copied, b) && b.file == target && files[target] == b.origin
      requires b.newId == if installName.Some? then installName.value else job.TargetId(target)
      modifies this
      ensures Inv(job, p.(files := files), {target}) && BusyOk(job, p.(files := files), b, 0)
    {
      var image := files[target];
      assert image.libs[..0] == [];
      if image.id.Some? {
        var newId := if installName.Some? then installName.value else job.TargetId(target);
        EditKeepsInv(job, p, target, image.(id := Some(newId)));
        files := files[target := image.(id := Some(newId))];
      }
    }

    method FinishItem(job: Job, target: Path, rpaths: seq<Path>, ghost q: Progress, ghost b: Busy)
      requires job.Separate() && Inv(job, q, {target}) && q.files == files
      requires b.file == target && BusyOk(job, q, b, |b.origin.libs|) && rpaths == b.origin.rpaths
      modifies this
      ensures Inv(job, q.(files := files, processed := q.processed + {target}), {})
    {
      assert b.origin.libs[..|b.origin.libs|] == b.origin.libs;
      DeleteStoreRpaths(target, rpaths);
      EditKeepsInv(job, q, target, files[target]);
      FinishKeepsInv(job, q.(files := files), b);
    }

    /** Relocates one popped item. */
    method RelocateItem(job: Job, pending: seq<WorkItem>, copied: Copied, names: map<Path, Path>,
                        ghost processed: set<Path>)
      returns (r: Result<(seq<WorkItem>, Copied, map<Path, Path>), Error>)
      requires job.Separate() && pending != [] && job.resolve(pending[0].path) in files
      requires job.resolve(pending[0].path) !in processed
      requires Inv(job, Progress(files, pending, processed, copied, names), {})
      modifies this
      ensures r.Ok? ==>
        Inv(job, Progress(files, r.value.0, processed + {job.resolve(pending[0].path)}, r.value.1, r.value.2), {})
      ensures r.Ok? ==> copied.Keys <= r.value.1.Keys
      ensures r.Ok? ==> copied.Keys == r.value.1.Keys ==> r.value.0 == pending[1..]
      ensures r.Err? ==> Explains(job, r.error) && job.SourcesUntouched(files)
    {
      var target := job.resolve(pending[0].path);
      ghost var p := Progress(files, pending, processed, copied, names);
      ghost var b := PoppedOrigin(job, p);
      PopKeepsInv(job, p);
      var image := files[target];
      SetInstallName(job, target, pending[0].installName, p.(pending := pending[1..]), b);
      r := RelocateDependencies(job, target, image.libs, pending[1..], copied, names, processed, b);
      if r.Ok? {
        FinishItem(job, target, image.rpaths, Progress(files, r.value.0, processed, r.value.1, r.value.2), b);
      }
    }

    /** The worklist loop.  It ends because every round copies a new library or
        shortens the queue. */
    method RelocatePending(job: Job) returns (r: Result<Copied, Error>)
      requires files == job.original && job.Separate()
      modifies this
      ensures r.Ok? <==> job.Bundleable()
      ensures r.Ok? ==> Bundled(job, files, r.value) && LoaderFinds(job, files, r.value)
      ensures r.Err? ==> Explains(job, r.error)
      ensures job.SourcesUntouched(files)
    {
      hide Inv, Bundled, LoaderFinds, Explains, Queue, Job.Bundleable, Job.Separate, Job.SourcesUntouched, Job.Sources;
      var pending, processed, copied, names := Queue(job.targets), {}, map[], map[];
      InitialInv(job);
      while pending != []
        invariant Inv(job, Progress(files, pending, processed, copied, names), {})
        decreases job.Sources() - copied.Keys, |pending|
      {
        ghost var p := Progress(files, pending, processed, copied, names);
        UntouchedByInv(job, p, {});
        var target := job.resolve(pending[0].path);
        if target !in files {
          MissingHead(job, p);
          ExplainedIsFatal(job, MissingTarget(pending[0].path));
          return Err(MissingTarget(pending[0].path));
        }
        if target in processed {
          SkipKeepsInv(job, p);
          pending := pending[1..];
        } else {
          ghost var before := copied.Keys;
          var next := RelocateItem(job, pending, copied, names, processed);
          if next.Err? {
            ExplainedIsFatal(job, next.error);
            return Err(next.error);
          }
          pending, copied, names := next.value.0, next.value.1, next.value.2;
          processed := processed + {target};
          MoreCopiedFewerLeft(job, before, Progress(files, pending, processed, copied, names));
        }
      }
      UntouchedByInv(job, Progress(files, pending, processed, copied, names), {});
      EmptyQueue(job, Progress(files, pending, processed, copied, names));
      BundledIsFound(job, files, copied);
      r := Ok(copied);
    }
  }

  lemma MoreCopiedFewerLeft(job: Job, before: set<Path>, p: Progress)
    requires Inv(job, p, {}) && before <= p.copied.Keys
    ensures before != p.copied.Keys ==> job.Sources() - p.copied.Keys < job.Sources() - before
  {
    hide Job.Sources, FilesOk, Covered, ItemsOk, Inverse, Job.Reachable;
    if before != p.copied.Keys {
      var d :| d in p.copied.Keys && d !in before;
      assert d in job.Sources() - before;
    }
  }

  lemma UntouchedByInv(job: Job, p: Progress, busy: set<Path>)
    requires Inv(job, p, busy)
    ensures job.SourcesUntouched(p.files)
  {
    forall f | job.Foreign(f)
      ensures (f in p.files <==> f in job.original) && (f in p.files ==> p.files[f] == job.original[f])
    {
      assert !OwnFile(job, p.copied, f);
    }
  }

  lemma SystemDependency(job: Job, p: Progress, b: Busy, k: nat)
    requires BusyOk(job, p, b, k) && k < |b.origin.libs| && IsSystem(b.origin.libs[k])
    ensures BusyOk(job, p, b, k + 1)
  {
    assert b.origin.libs[..k + 1] == b.origin.libs[..k] + [b.origin.libs[k]];
    assert b.origin.libs[..k + 1][..k] == b.origin.libs[..k];
  }

  /** Redirecting the k-th load command to its copy. */
  lemma RedirectedDependency(job: Job, p: Progress, b: Busy, k: nat)
    requires Inv(job, p, {b.file}) && BusyOk(job, p, b, k) && k < |b.origin.libs|
    requires !IsSystem(b.origin.libs[k]) && b.origin.libs[k] in p.copied
    ensures var d := b.origin.libs[k];
            var image := p.files[b.file].(libs := Change(p.files[b.file].libs, d, job.InstallName(d)));
            var q := p.(files := p.files[b.file := image]);
            Inv(job, q, {b.file}) && BusyOk(job, q, b, k + 1)
  {
    var d := b.origin.libs[k];
    EditKeepsInv(job, p, b.file, p.files[b.file].(libs := Change(p.files[b.file].libs, d, job.InstallName(d))));
    RedirectedBusy(job, p, b, k);
  }

  lemma RedirectedBusy(job: Job, p: Progress, b: Busy, k: nat)
    requires BusyOk(job, p, b, k) && k < |b.origin.libs|
    requires !IsSystem(b.origin.libs[k]) && b.origin.libs[k] in p.copied
    ensures var d := b.origin.libs[k];
            var image := p.files[b.file].(libs := Change(p.files[b.file].libs, d, job.InstallName(d)));
            BusyOk(job, p.(files := p.files[b.file := image]), b, k + 1)
  {
    var d := b.origin.libs[k];
    assert b.origin.libs[..k + 1] == b.origin.libs[..k] + [d];
    assert b.origin.libs[..k + 1][..k] == b.origin.libs[..k];
  }

  lemma CollisionIsFatal(job: Job, p: Progress, d: Path)
    requires Inverse(job, p.copied, p.names) && CopiesJustified(job, p.copied) && job.Reachable(d)
    requires job.BundledName(d) in p.names && p.names[job.BundledName(d)] != d
    ensures Explains(job, NameCollision(p.names[job.BundledName(d)], d))
  {
    var other := p.names[job.BundledName(d)];
    assert other in p.copied && job.BundledName(other) == job.BundledName(d);
  }

  lemma CopyKeepsBusy(job: Job, p: Progress, b: Busy, k: nat, d: Path)
    requires BusyOk(job, p, b, k) && job.resolve(d) in p.files && job.CopyFile(d) != b.file
    ensures BusyOk(job, WithCopy(job, p, d), b, k)
  {
    MoreCopiesKeepOrigin(job, p.copied, WithCopy(job, p, d).copied, b);
  }
}
