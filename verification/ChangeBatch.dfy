/** Applying a batch of changes: preflight, publication one by one, and what the receipt says. */
module ChangeBatch {
  import opened Text
  import opened Wrappers
  import opened Sorting
  import opened MutationMutex

  type Files = map<Path, Content>

  datatype Metadata = Metadata(
    projectId: Option<nat>, worktreeId: Option<nat>, agentSessionId: Option<nat>, workItemId: Option<nat>,
    intentId: Option<nat>)

  datatype Change = Change(path: Path, content: Content, precondition: Precondition, metadata: Metadata)

  /** A path with the digest of its content, or without when there was no file. */
  datatype Version = Version(path: Path, fingerprint: Option<Digest>)

  datatype ResourceResult = AppliedAt(path: Path) | RejectedAt(path: Path)

  datatype BatchStatus = Applied | Partial

  datatype BatchReceipt = BatchReceipt(
    status: BatchStatus, inputVersions: seq<Version>, outputVersions: seq<Version>,
    resourceResults: seq<ResourceResult>)

  datatype BatchError = BadSize | DuplicatePath | StalePrecondition | MixedMetadata | FirstRefused

  /** The digest of contents, and the English collation of paths. */
  datatype Platform = Platform(digest: Content -> Digest, collate: Path -> Text)

  function Held(files: Files, p: Path): Option<Content> { if p in files then Some(files[p]) else None }

  /** A change with what preflight found at its path. */
  datatype Prepared = Prepared(change: Change, current: Option<Content>)

  function PathKey(p: Platform): Prepared -> Text { (c: Prepared) => p.collate(c.change.path) }

  function ChangeOf(c: Prepared): Change { c.change }

  function VersionOf(path: Path, current: Option<Content>, p: Platform): Version {
    Version(path, if current.Some? then Some(p.digest(current.value)) else None)
  }

  // ---------- What a batch comes to ----------

  /** The files after the first k reads of preflight: what other callers publish before each read is an input. */
  function FilesRead(files: Files, between: seq<Files>, k: nat): Files
    requires k <= |between|
  {
    if k == 0 then files else FilesRead(files, between, k - 1) + between[k - 1]
  }

  /** Each change with what is found at its path when preflight comes to it. */
  function PreparedOf(files: Files, between: seq<Files>, changes: seq<Change>): (r: seq<Prepared>)
    requires |between| == |changes|
    ensures |r| == |changes| && forall i :: 0 <= i < |r| ==> r[i].change == changes[i]
  {
    seq(|changes|, i requires 0 <= i < |changes| =>
      Prepared(changes[i], Held(FilesRead(files, between, i + 1), changes[i].path)))
  }

  /** What is wrong with a change after some others. */
  function ErrorAfter(before: seq<Prepared>, c: Prepared, p: Platform): Option<BatchError> {
    if exists b :: b in before && b.change.path == c.change.path then Some(DuplicatePath)
    else if !Satisfied(c.change.precondition, c.current, p.digest) then Some(StalePrecondition)
    else None
  }

  /** The first error in the order of the changes. */
  function FirstError(prepared: seq<Prepared>, p: Platform): Option<BatchError> {
    if prepared == [] then None
    else
      var init := prepared[..|prepared| - 1];
      var e := FirstError(init, p);
      if e.Some? then e else ErrorAfter(init, prepared[|prepared| - 1], p)
  }

  /** How many changes preflight looks at: all, or those up to the first with an error. */
  function Looked(prepared: seq<Prepared>, p: Platform): (k: nat)
    ensures k <= |prepared|
  {
    if prepared == [] then 0
    else if FirstError(prepared[..|prepared| - 1], p).Some? then Looked(prepared[..|prepared| - 1], p)
    else |prepared|
  }

  /** What keeps a batch from starting, in the order in which the program looks. */
  function PreflightError(prepared: seq<Prepared>, p: Platform): Option<BatchError> {
    if |prepared| == 0 || |prepared| > 100 then Some(BadSize)
    else
      var e := FirstError(prepared, p);
      if e.Some? then e
      else if exists c :: c in prepared && c.change.metadata != SortBy(prepared, PathKey(p))[0].change.metadata
        then Some(MixedMetadata)
      else None
  }

  /** The files when preflight is over: as they were, but for what others published meanwhile. */
  function FilesPrepared(files: Files, between: seq<Files>, prepared: seq<Prepared>, p: Platform): Files
    requires |between| == |prepared|
  {
    if |prepared| > 100 then files else FilesRead(files, between, Looked(prepared, p))
  }

  /** The files as the i-th change finds them when those before it were written: what other callers publish
      between two of them is an input. */
  function FilesBefore(files: Files, sorted: seq<Change>, others: seq<Files>, i: nat): Files
    requires i < |sorted| == |others|
  {
    if i == 0 then files + others[0]
    else FilesBefore(files, sorted, others, i - 1)[sorted[i - 1].path := sorted[i - 1].content] + others[i]
  }

  /** The files when the first i changes have been written. */
  function Reached(files: Files, sorted: seq<Change>, others: seq<Files>, i: nat): Files
    requires i <= |sorted| == |others|
  {
    if i == 0 then files else FilesBefore(files, sorted, others, i - 1)[sorted[i - 1].path := sorted[i - 1].content]
  }

  /** The files after n changes were written and the next, if there is one, was refused. */
  function FilesAfter(files: Files, sorted: seq<Change>, others: seq<Files>, n: nat): Files
    requires n <= |sorted| == |others|
  {
    if n < |sorted| then FilesBefore(files, sorted, others, n) else Reached(files, sorted, others, n)
  }

  /** Publication of the i-th change succeeds: its precondition holds now, and the file system plays along. */
  predicate Accepts(files: Files, sorted: seq<Change>, others: seq<Files>, io: seq<bool>, p: Platform, i: nat)
    requires i < |sorted| == |others| == |io|
  {
    Satisfied(sorted[i].precondition, Held(FilesBefore(files, sorted, others, i), sorted[i].path), p.digest) && io[i]
  }

  /** How many changes are written before the first that is refused. */
  ghost predicate Written(files: Files, sorted: seq<Change>, others: seq<Files>, io: seq<bool>, p: Platform, n: nat)
    requires n <= |sorted| == |others| == |io|
  {
    && (forall i: nat :: i < n ==> Accepts(files, sorted, others, io, p, i))
    && (n < |sorted| ==> !Accepts(files, sorted, others, io, p, n))
  }

  function OutputsOf(sorted: seq<Change>, n: nat, p: Platform): (r: seq<Version>)
    requires n <= |sorted|
    ensures |r| == n
  {
    if n == 0 then []
    else OutputsOf(sorted, n - 1, p) + [Version(sorted[n - 1].path, Some(p.digest(sorted[n - 1].content)))]
  }

  function ResultsOf(sorted: seq<Change>, n: nat): (r: seq<ResourceResult>)
    requires n <= |sorted|
    ensures |r| == n
  {
    if n == 0 then [] else ResultsOf(sorted, n - 1) + [AppliedAt(sorted[n - 1].path)]
  }

  /** The versions that preflight found. */
  function InputsOf(sorted: seq<Prepared>, p: Platform): (r: seq<Version>)
    ensures |r| == |sorted| && forall i :: 0 <= i < |sorted| ==>
            r[i] == VersionOf(sorted[i].change.path, sorted[i].current, p)
  {
    seq(|sorted|, i requires 0 <= i < |sorted| => VersionOf(sorted[i].change.path, sorted[i].current, p))
  }

  /** The receipt for a batch of which the first n changes were written. */
  function ReceiptFor(prepared: seq<Prepared>, n: nat, p: Platform): Result<BatchReceipt, BatchError>
    requires n <= |prepared|
  {
    var sorted := Mapped(prepared, ChangeOf);
    if n == |sorted| then Success(BatchReceipt(Applied, InputsOf(prepared, p), OutputsOf(sorted, n, p),
      ResultsOf(sorted, n)))
    else if n == 0 then Failure(FirstRefused)
    else
      Success(BatchReceipt(Partial, InputsOf(prepared, p), OutputsOf(sorted, n, p),
                           ResultsOf(sorted, n) + [RejectedAt(sorted[n].path)]))
  }

  // ---------- The program ----------

  class ChangeRuntime {
    var files: Files

    constructor (files: Files)
      ensures this.files == files
    {
      this.files := files;
    }

    /** Checks and writes inside the lock, where no other caller writes. */
    method PublishOne(change: Change, ioOk: bool, p: Platform) returns (ok: bool)
      modifies this
      ensures ok <==> Satisfied(change.precondition, Held(old(files), change.path), p.digest) && ioOk
      ensures files == if ok then old(files)[change.path := change.content] else old(files)
    {
      var current := Held(files, change.path);
      if !Satisfied(change.precondition, current, p.digest) || !ioOk { return false; }
      files := files[change.path := change.content];
      ok := true;
    }

    /** What other callers publish while this one awaits the lock. */
    method OthersPublish(written: Files)
      modifies this
      ensures files == old(files) + written
    {
      files := files + written;
    }

    /** Looks at the changes one by one, reading each file when its turn comes. */
    method Preflight(changes: seq<Change>, between: seq<Files>, p: Platform)
      returns (e: Option<BatchError>, prepared: seq<Prepared>)
      requires |between| == |changes|
      modifies this
      ensures var all := PreparedOf(old(files), between, changes);
              && e == FirstError(all, p) && files == FilesRead(old(files), between, Looked(all, p))
              && (e.None? ==> prepared == all)
    {
      hide FilesRead, Satisfied;
      var seenPaths: set<Path> := {};
      prepared := [];
      ghost var all := PreparedOf(files, between, changes);
      NothingLooked(files, between, all, p);
      for i := 0 to |changes|
        invariant prepared == all[..i] && seenPaths == set c | c in all[..i] :: c.change.path
        invariant FirstError(all[..i], p) == None && files == FilesRead(old(files), between, i)
      {
        LookFurther(all, i, p);
        FilesReadStep(old(files), between, i);
        OthersPublish(between[i]);
        var current := Held(files, changes[i].path);
        if changes[i].path in seenPaths { return Some(DuplicatePath), prepared; }
        seenPaths := seenPaths + {changes[i].path};
        if !Satisfied(changes[i].precondition, current, p.digest) { return Some(StalePrecondition), prepared; }
        prepared := prepared + [Prepared(changes[i], current)];
        assert all[..i + 1] == all[..i] + [all[i]];
      }
      assert all[..|changes|] == all;
      AllLooked(all, p);
      e := None;
    }

    /** Publishes in order until one is refused; n counts those written. */
    method PublishInOrder(sorted: seq<Change>, others: seq<Files>, io: seq<bool>, p: Platform)
      returns (outputVersions: seq<Version>, resourceResults: seq<ResourceResult>, n: nat)
      requires |sorted| == |others| == |io| && sorted != []
      modifies this
      ensures n <= |sorted| && Written(old(files), sorted, others, io, p, n)
      ensures outputVersions == OutputsOf(sorted, n, p)
      ensures resourceResults == ResultsOf(sorted, n) + (if 0 < n < |sorted| then [RejectedAt(sorted[n].path)] else [])
      ensures files == FilesAfter(old(files), sorted, others, n)
    {
      hide Satisfied, FilesBefore;
      outputVersions, resourceResults, n := [], [], 0;
      while n < |sorted|
        invariant n <= |sorted| && forall i: nat :: i < n ==> Accepts(old(files), sorted, others, io, p, i)
        invariant outputVersions == OutputsOf(sorted, n, p) && resourceResults == ResultsOf(sorted, n)
        invariant files == Reached(old(files), sorted, others, n)
      {
        BeforeIsReached(old(files), sorted, others, n);
        OthersPublish(others[n]);
        var ok := PublishOne(sorted[n], io[n], p);
        if !ok {
          if n > 0 { resourceResults := resourceResults + [RejectedAt(sorted[n].path)]; }
          return;
        }
        outputVersions := outputVersions + [Version(sorted[n].path, Some(p.digest(sorted[n].content)))];
        resourceResults := resourceResults + [AppliedAt(sorted[n].path)];
        n := n + 1;
      }
    }

    /** The batch writes nothing when preflight fails. Otherwise exactly the first n changes, in the order of their
        paths, are written, and the receipt says so. */
    method ApplyMany(changes: seq<Change>, between: seq<Files>, others: seq<Files>, io: seq<bool>, p: Platform)
      returns (r: Result<BatchReceipt, BatchError>, n: nat)
      requires |between| == |others| == |io| == |changes|
      modifies this
      ensures var prepared := PreparedOf(old(files), between, changes);
              var e, start := PreflightError(prepared, p), FilesPrepared(old(files), between, prepared, p);
              e.Some? ==> r == Failure(e.value) && n == 0 && files == start
      ensures var prepared := PreparedOf(old(files), between, changes);
              var e, start := PreflightError(prepared, p), FilesPrepared(old(files), between, prepared, p);
              var sorted := SortBy(prepared, PathKey(p));
              e.None? ==>
                && n <= |sorted| && Written(start, Mapped(sorted, ChangeOf), others, io, p, n)
                && r == ReceiptFor(sorted, n, p)
                && files == FilesAfter(start, Mapped(sorted, ChangeOf), others, n)
    {
      hide SortBy, PathKey, Written, FilesAfter, OutputsOf, ResultsOf, FirstError, PreparedOf, FilesRead;
      if |changes| == 0 || |changes| > 100 {
        NoChanges(files, between, changes, p);
        return Failure(BadSize), 0;
      }
      var e, prepared := Preflight(changes, between, p);
      if e.Some? { return Failure(e.value), 0; }
      prepared := SortBy(prepared, PathKey(p));
      if exists c :: c in prepared && c.change.metadata != prepared[0].change.metadata {
        SortMembers(PreparedOf(old(files), between, changes), PathKey(p));
        return Failure(MixedMetadata), 0;
      }
      SortMembers(PreparedOf(old(files), between, changes), PathKey(p));
      var sorted := Mapped(prepared, ChangeOf);
      var outputVersions, resourceResults;
      outputVersions, resourceResults, n := PublishInOrder(sorted, others, io, p);
      if n < |sorted| {
        if outputVersions == [] { return Failure(FirstRefused), n; }
        return Success(BatchReceipt(Partial, InputsOf(prepared, p), outputVersions, resourceResults)), n;
      }
      assert ResultsOf(sorted, n) + [] == ResultsOf(sorted, n);
      r := Success(BatchReceipt(Applied, InputsOf(prepared, p), outputVersions, resourceResults));
    }
  }

  lemma NoChanges(files: Files, between: seq<Files>, changes: seq<Change>, p: Platform)
    requires |between| == |changes| && (|changes| == 0 || |changes| > 100)
    ensures FilesPrepared(files, between, PreparedOf(files, between, changes), p) == files
  {
  }

  lemma NothingLooked(files: Files, between: seq<Files>, all: seq<Prepared>, p: Platform)
    ensures FilesRead(files, between, 0) == files && FirstError(all[..0], p) == None
  {
  }

  lemma FilesReadStep(files: Files, between: seq<Files>, i: nat)
    requires i < |between|
    ensures FilesRead(files, between, i + 1) == FilesRead(files, between, i) + between[i]
  {
  }

  /** When the first i changes are in order, the next one decides, or preflight goes on. */
  lemma LookFurther(all: seq<Prepared>, i: nat, p: Platform)
    requires i < |all| && FirstError(all[..i], p).None?
    ensures FirstError(all[..i + 1], p) == ErrorAfter(all[..i], all[i], p)
    ensures FirstError(all[..i + 1], p).Some? ==>
            FirstError(all, p) == FirstError(all[..i + 1], p) && Looked(all, p) == i + 1
  {
    assert all[..i + 1][..i] == all[..i];
    if FirstError(all[..i + 1], p).Some? { StaysFailed(all, i + 1, p); }
  }

  lemma {:induction false} StaysFailed(all: seq<Prepared>, k: nat, p: Platform)
    requires 0 < k <= |all| && FirstError(all[..k - 1], p).None? && FirstError(all[..k], p).Some?
    ensures FirstError(all, p) == FirstError(all[..k], p) && Looked(all, p) == k
  {
    hide ErrorAfter;
    var init := all[..|all| - 1];
    if k == |all| {
      assert all[..k] == all && init == all[..k - 1];
    } else {
      assert init[..k] == all[..k] && init[..k - 1] == all[..k - 1];
      StaysFailed(init, k, p);
    }
  }

  lemma AllLooked(all: seq<Prepared>, p: Platform)
    requires FirstError(all, p).None?
    ensures Looked(all, p) == |all|
  {
  }

  lemma BeforeIsReached(files: Files, sorted: seq<Change>, others: seq<Files>, i: nat)
    requires i < |sorted| == |others|
    ensures FilesBefore(files, sorted, others, i) == Reached(files, sorted, others, i) + others[i]
  {
  }

  // ---------- Alone, a batch that passes preflight is applied ----------

  function PathOf(c: Prepared): Path { c.change.path }

  predicate DistinctPaths(cs: seq<Prepared>) { UniqueKeys(cs, PathOf) }

  /** Preflight finds nothing wrong exactly when no path comes twice and each precondition holds of what is found. */
  lemma {:induction false} PreflightExactly(prepared: seq<Prepared>, p: Platform)
    ensures FirstError(prepared, p).None? <==>
              DistinctPaths(prepared) && forall c :: c in prepared ==>
                Satisfied(c.change.precondition, c.current, p.digest)
  {
    hide Satisfied, DistinctPaths;
    if prepared == [] {
      NothingTwice();
    } else {
      var init, last := prepared[..|prepared| - 1], prepared[|prepared| - 1];
      assert prepared == init + [last];
      PreflightExactly(init, p);
      DistinctStep(init, last);
    }
  }

  lemma NothingTwice()
    ensures DistinctPaths([])
  {
  }

  lemma DistinctStep(init: seq<Prepared>, last: Prepared)
    ensures DistinctPaths(init + [last]) <==>
            DistinctPaths(init) && forall b :: b in init ==> b.change.path != last.change.path
  {
    var all := init + [last];
    assert all[|init|] == last && forall i :: 0 <= i < |init| ==> all[i] == init[i];
    if DistinctPaths(all) {
      forall b | b in init ensures b.change.path != last.change.path {
        var i :| 0 <= i < |init| && init[i] == b;
        assert PathOf(all[i]) != PathOf(all[|init|]);
      }
      forall i, j | 0 <= i < j < |init| ensures PathOf(init[i]) != PathOf(init[j]) {
        assert PathOf(all[i]) != PathOf(all[j]);
      }
    }
  }

  lemma {:induction false} OwnWritesOnly(files: Files, sorted: seq<Change>, others: seq<Files>, i: nat, q: Path)
    requires i < |sorted| == |others| && forall o :: o in others ==> o == map[]
    requires forall j :: 0 <= j < i ==> sorted[j].path != q
    ensures Held(FilesBefore(files, sorted, others, i), q) == Held(files, q)
  {
    assert others[i] in others;
    if i > 0 { OwnWritesOnly(files, sorted, others, i - 1, q); }
  }

  lemma {:induction false} NothingPublished(files: Files, between: seq<Files>, k: nat)
    requires k <= |between| && forall o :: o in between ==> o == map[]
    ensures FilesRead(files, between, k) == files
  {
    if k > 0 {
      assert between[k - 1] in between;
      NothingPublished(files, between, k - 1);
    }
  }

  lemma SortedDistinct(prepared: seq<Prepared>, key: Prepared -> Text)
    requires DistinctPaths(prepared)
    ensures DistinctPaths(SortBy(prepared, key))
  {
    SortContents(prepared, key);
    UniqueOfMultiset(prepared, SortBy(prepared, key), PathOf);
  }

  /** No one interferes and no write fails: every change is accepted, so the receipt is APPLIED. */
  lemma AloneAllIsWritten(
      files: Files, changes: seq<Change>, between: seq<Files>, others: seq<Files>, io: seq<bool>, p: Platform, n: nat)
    requires |between| == |others| == |io| == |changes|
    requires PreflightError(PreparedOf(files, between, changes), p).None?
    requires (forall o :: o in between ==> o == map[]) && (forall o :: o in others ==> o == map[]) &&
             (forall b :: b in io ==> b)
    requires var sorted := Mapped(SortBy(PreparedOf(files, between, changes), PathKey(p)), ChangeOf);
             n <= |sorted| && Written(files, sorted, others, io, p, n)
    ensures n == |changes|
  {
    hide Satisfied, FilesBefore, PathKey, SortBy, DistinctPaths, PreparedOf, Accepts;
    var prepared := PreparedOf(files, between, changes);
    var sorted := SortBy(prepared, PathKey(p));
    PreflightExactly(prepared, p);
    SortedDistinct(prepared, PathKey(p));
    SortMembers(prepared, PathKey(p));
    if n < |sorted| {
      assert sorted[n] in sorted && io[n] in io;
      FoundWhenAlone(files, changes, between, sorted[n]);
      AcceptedAlone(files, sorted, others, io, p, n);
    }
  }

  lemma FoundWhenAlone(files: Files, changes: seq<Change>, between: seq<Files>, c: Prepared)
    requires |between| == |changes| && (forall o :: o in between ==> o == map[]) &&
             c in PreparedOf(files, between, changes)
    ensures c.current == Held(files, c.change.path)
  {
    var i :| 0 <= i < |changes| && PreparedOf(files, between, changes)[i] == c;
    NothingPublished(files, between, i + 1);
  }

  lemma AcceptedAlone(files: Files, sorted: seq<Prepared>, others: seq<Files>, io: seq<bool>, p: Platform, n: nat)
    requires n < |sorted| == |others| == |io| && io[n] && (forall o :: o in others ==> o == map[]) &&
             DistinctPaths(sorted)
    requires Satisfied(sorted[n].change.precondition, Held(files, sorted[n].change.path), p.digest)
    ensures Accepts(files, Mapped(sorted, ChangeOf), others, io, p, n)
  {
    hide Satisfied, FilesBefore;
    var cs := Mapped(sorted, ChangeOf);
    forall j | 0 <= j < n ensures cs[j].path != cs[n].path {
      assert PathOf(sorted[j]) != PathOf(sorted[n]);
    }
    OwnWritesOnly(files, cs, others, n, cs[n].path);
  }
}
