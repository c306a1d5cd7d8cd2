/** The promise-chain mutex, and publication by compare-and-swap under it, over every interleaving of callers. */
module MutationMutex {
  import opened Wrappers
  import opened Bytes
  import opened Text

  type Workspace = nat
  type Path = Text
  type CallId = nat
  type Digest = nat
  type Content = seq<byte>

  datatype Precondition = MustBeAbsent | MustMatch(digest: Digest)

  datatype Publish = Publish(workspace: Workspace, path: Path, content: Content, precondition: Precondition)

  datatype Outcome = Published | Stale | FailedIo

  /** Where a call stands: waiting for its predecessor's promise, inside the lock, with the file read, or done. */
  datatype Phase = Waiting | Entered | HasRead(current: Option<Content>) | Finished(outcome: Outcome)

  /** A call with the entry it found in the lock table when it arrived. */
  datatype Call = Call(publish: Publish, previous: Option<CallId>, phase: Phase)

  /** A write that took place: what the file held and what it holds since. */
  datatype Write = Write(call: CallId, workspace: Workspace, path: Path, before: Option<Content>, after: Content)

  /** Calls in order of arrival, the lock table, the files, and the writes in order. */
  datatype State = State(
    calls: seq<Call>, locks: map<Workspace, CallId>, files: map<(Workspace, Path), Content>, log: seq<Write>)

  datatype Step = Arrive(publish: Publish) | Enter(c: CallId) | Read(c: CallId) | Finish(c: CallId, ioOk: bool)

  function FileAt(files: map<(Workspace, Path), Content>, w: Workspace, p: Path): Option<Content> {
    if (w, p) in files then Some(files[(w, p)]) else None
  }

  predicate Satisfied(pre: Precondition, current: Option<Content>, digest: Content -> Digest) {
    match pre
    case MustBeAbsent => current.None?
    case MustMatch(d) => current.Some? && digest(current.value) == d
  }

  function WorkspaceOf(c: Call): Workspace { c.publish.workspace }

  predicate IsRunning(c: Call) { c.phase.Entered? || c.phase.HasRead? }

  /** The promise that a successor waits for: this call has released, and so had all it waited for. */
  predicate TailResolved(calls: seq<Call>, c: CallId)
    decreases c
  {
    c < |calls| && calls[c].phase.Finished? &&
    (calls[c].previous.Some? ==> calls[c].previous.value < c && TailResolved(calls, calls[c].previous.value))
  }

  predicate Enabled(s: State, step: Step) {
    match step
    case Arrive(_) => true
    case Enter(c) => c < |s.calls| && s.calls[c].phase.Waiting? &&
        (s.calls[c].previous.Some? ==> TailResolved(s.calls, s.calls[c].previous.value))
    case Read(c) => c < |s.calls| && s.calls[c].phase.Entered?
    case Finish(c, _) => c < |s.calls| && s.calls[c].phase.HasRead?
  }

  function WithPhase(s: State, c: CallId, phase: Phase): State
    requires c < |s.calls|
  {
    s.(calls := s.calls[c := s.calls[c].(phase := phase)])
  }

  /** Creating refuses to replace; replacing does not look again. */
  function OutcomeOf(s: State, c: CallId, ioOk: bool, digest: Content -> Digest): Outcome
    requires c < |s.calls| && s.calls[c].phase.HasRead?
  {
    var p := s.calls[c].publish;
    if !Satisfied(p.precondition, s.calls[c].phase.current, digest) then Stale
    else if !ioOk then FailedIo
    else if p.precondition.MustBeAbsent? && FileAt(s.files, p.workspace, p.path).Some? then FailedIo
    else Published
  }

  /** Writes if all is well, releases, and takes the entry out of the table if no one has arrived since. */
  function Finishing(s: State, c: CallId, ioOk: bool, digest: Content -> Digest): State
    requires c < |s.calls| && s.calls[c].phase.HasRead?
  {
    var p := s.calls[c].publish;
    var outcome := OutcomeOf(s, c, ioOk, digest);
    var released := WithPhase(s, c, Finished(outcome));
    var written := if outcome.Published?
                   then released.(files := s.files[(p.workspace, p.path) := p.content],
                                  log := s.log + [Write(c, p.workspace, p.path, FileAt(s.files, p.workspace, p.path),
                                      p.content)])
                   else released;
    if p.workspace in s.locks && s.locks[p.workspace] == c then written.(locks := s.locks - {p.workspace}) else written
  }

  function Next(s: State, step: Step, digest: Content -> Digest): State
    requires Enabled(s, step)
  {
    match step
    case Arrive(p) =>
      var previous := if p.workspace in s.locks then Some(s.locks[p.workspace]) else None;
      s.(calls := s.calls + [Call(p, previous, Waiting)], locks := s.locks[p.workspace := |s.calls|])
    case Enter(c) => WithPhase(s, c, Entered)
    case Read(c) => WithPhase(s, c, HasRead(FileAt(s.files, s.calls[c].publish.workspace, s.calls[c].publish.path)))
    case Finish(c, ioOk) => Finishing(s, c, ioOk, digest)
  }

  // ---------- The invariant ----------

  /** Two calls of one workspace, the first arrived earlier. */
  predicate Before(calls: seq<Call>, a: CallId, b: CallId) {
    a < b < |calls| && WorkspaceOf(calls[a]) == WorkspaceOf(calls[b])
  }

  /** A call waits for the call of its workspace that arrived last before it, or for none if all those were done. */
  ghost predicate Chained(calls: seq<Call>, b: CallId)
    requires b < |calls|
  {
    match calls[b].previous
    case Some(p) => Before(calls, p, b) && forall a: nat :: Before(calls, a, b) ==> a <= p
    case None => forall a: nat :: Before(calls, a, b) ==> calls[a].phase.Finished?
  }

  /** Who is past waiting has no unfinished call before it. */
  ghost predicate InTurn(calls: seq<Call>, b: CallId)
    requires b < |calls|
  {
    !calls[b].phase.Waiting? ==> forall a: nat :: Before(calls, a, b) ==> calls[a].phase.Finished?
  }

  ghost predicate LastOf(calls: seq<Call>, b: CallId) {
    b < |calls| && forall a: nat :: a < |calls| && WorkspaceOf(calls[a]) == WorkspaceOf(calls[b]) ==> a <= b
  }

  /** The table names the last call of a workspace while it is unfinished, and nothing otherwise. */
  ghost predicate Tabled(s: State, b: CallId)
    requires b < |s.calls|
  {
    var w := WorkspaceOf(s.calls[b]);
    LastOf(s.calls, b) ==> if s.calls[b].phase.Finished? then w !in s.locks else w in s.locks && s.locks[w] == b
  }

  ghost predicate LockInv(s: State) {
    && (forall b: nat :: b < |s.calls| ==> Chained(s.calls, b) && InTurn(s.calls, b) && Tabled(s, b))
    && (forall w :: w in s.locks ==> LastCallOf(s.calls, w, s.locks[w]))
  }

  ghost predicate LastCallOf(calls: seq<Call>, w: Workspace, b: CallId) {
    LastOf(calls, b) && WorkspaceOf(calls[b]) == w
  }

  /** What a running call has read is what the file holds. */
  ghost predicate FreshReads(s: State) {
    forall c :: 0 <= c < |s.calls| && s.calls[c].phase.HasRead? ==>
      s.calls[c].phase.current == FileAt(s.files, s.calls[c].publish.workspace, s.calls[c].publish.path)
  }

  // ---------- Mutual exclusion and order ----------

  /** At most one body runs in a workspace. */
  lemma MutualExclusion(s: State, a: CallId, b: CallId)
    requires LockInv(s) && a < |s.calls| && b < |s.calls|
    requires IsRunning(s.calls[a]) && IsRunning(s.calls[b]) && WorkspaceOf(s.calls[a]) == WorkspaceOf(s.calls[b])
    ensures a == b
  {
    assert InTurn(s.calls, a) && InTurn(s.calls, b);
    assert a < b ==> Before(s.calls, a, b);
    assert b < a ==> Before(s.calls, b, a);
  }

  /** Bodies run in order of arrival: a call may enter only when all that arrived before it in its workspace are
      done. */
  lemma EntersInTurn(s: State, b: CallId)
    requires LockInv(s) && Enabled(s, Enter(b))
    ensures forall a: nat :: Before(s.calls, a, b) ==> s.calls[a].phase.Finished?
  {
    assert Chained(s.calls, b);
    if s.calls[b].previous.Some? {
      var p := s.calls[b].previous.value;
      assert InTurn(s.calls, p);
      forall a: nat | Before(s.calls, a, b) ensures s.calls[a].phase.Finished? {
        if a != p { assert Before(s.calls, a, p); }
      }
    }
  }

  lemma {:induction false} LastExists(calls: seq<Call>, a: CallId) returns (b: CallId)
    requires a < |calls|
    ensures LastOf(calls, b) && WorkspaceOf(calls[b]) == WorkspaceOf(calls[a])
    decreases |calls| - a
  {
    if c: nat :| c < |calls| && WorkspaceOf(calls[c]) == WorkspaceOf(calls[a]) && c > a {
      b := LastExists(calls, c);
    } else {
      b := a;
    }
  }

  /** The table has no entry for a workspace exactly when all its calls are done. */
  lemma TableMeans(s: State, w: Workspace)
    requires LockInv(s)
    ensures w !in s.locks <==>
            forall a: nat :: a < |s.calls| && WorkspaceOf(s.calls[a]) == w ==> s.calls[a].phase.Finished?
  {
    hide Chained;
    if w !in s.locks {
      forall a: nat | a < |s.calls| && WorkspaceOf(s.calls[a]) == w ensures s.calls[a].phase.Finished? {
        var b := LastExists(s.calls, a);
        assert Tabled(s, b) && InTurn(s.calls, b);
        if a != b { assert Before(s.calls, a, b); }
      }
    } else {
      assert Tabled(s, s.locks[w]);
    }
  }

  /** A finished call's promise resolves: everything it waited for is done. */
  lemma {:induction false} FinishedResolves(s: State, c: CallId)
    requires LockInv(s) && c < |s.calls| && s.calls[c].phase.Finished?
    ensures TailResolved(s.calls, c)
    decreases c
  {
    assert Chained(s.calls, c) && InTurn(s.calls, c);
    if s.calls[c].previous.Some? { FinishedResolves(s, s.calls[c].previous.value); }
  }

  /** No deadlock: while a call of a workspace is unfinished, some call of that workspace can take a step. */
  lemma {:induction false} NoDeadlock(s: State, b: CallId) returns (step: Step)
    requires LockInv(s) && b < |s.calls| && !s.calls[b].phase.Finished?
    ensures !step.Arrive? && Enabled(s, step) && step.c <= b && WorkspaceOf(s.calls[step.c]) == WorkspaceOf(s.calls[b])
    decreases b
  {
    if a: nat :| Before(s.calls, a, b) && !s.calls[a].phase.Finished? {
      step := NoDeadlock(s, a);
    } else {
      assert Chained(s.calls, b);
      if s.calls[b].phase.Waiting? {
        if s.calls[b].previous.Some? { FinishedResolves(s, s.calls[b].previous.value); }
        step := Enter(b);
      } else if s.calls[b].phase.Entered? {
        step := Read(b);
      } else {
        step := Finish(b, true);
      }
    }
  }

  // ---------- Steps keep the invariant ----------

  /** Moving a call on, never back from done, keeps the chain; moving it past waiting needs its turn. */
  lemma PhaseKeepsChain(calls: seq<Call>, c: CallId, phase: Phase, b: CallId)
    requires c < |calls| && b < |calls| && Chained(calls, b) && InTurn(calls, b)
    requires calls[c].phase.Finished? ==> phase.Finished?
    requires !phase.Waiting? ==> forall a: nat :: Before(calls, a, c) ==> calls[a].phase.Finished?
    ensures var after := calls[c := calls[c].(phase := phase)]; Chained(after, b) && InTurn(after, b)
  {
    var after := calls[c := calls[c].(phase := phase)];
    assert forall x: nat, y: nat :: Before(after, x, y) <==> Before(calls, x, y);
  }

  lemma PhaseKeepsLast(calls: seq<Call>, c: CallId, phase: Phase, b: CallId)
    requires c < |calls|
    ensures var after := calls[c := calls[c].(phase := phase)];
            (LastOf(after, b) <==> LastOf(calls, b)) && forall w :: LastCallOf(after, w, b) <==> LastCallOf(calls, w, b)
  {
    var after := calls[c := calls[c].(phase := phase)];
    assert forall a: nat :: a < |calls| ==> WorkspaceOf(after[a]) == WorkspaceOf(calls[a]);
  }

  lemma EnterKeeps(s: State, c: CallId)
    requires LockInv(s) && Enabled(s, Enter(c))
    ensures LockInv(WithPhase(s, c, Entered))
  {
    hide Chained, InTurn, LastOf, TailResolved;
    EntersInTurn(s, c);
    var t := WithPhase(s, c, Entered);
    forall b: nat | b < |t.calls| ensures Chained(t.calls, b) && InTurn(t.calls, b) && Tabled(t, b) {
      assert Tabled(s, b);
      PhaseKeepsChain(s.calls, c, Entered, b);
      PhaseKeepsLast(s.calls, c, Entered, b);
    }
    forall w | w in t.locks ensures LastCallOf(t.calls, w, t.locks[w]) {
      PhaseKeepsLast(s.calls, c, Entered, s.locks[w]);
    }
  }

  lemma RunningInTurn(s: State, c: CallId)
    requires LockInv(s) && c < |s.calls| && IsRunning(s.calls[c])
    ensures forall a: nat :: Before(s.calls, a, c) ==> s.calls[a].phase.Finished?
  {
    assert InTurn(s.calls, c);
  }

  lemma ReadKeeps(s: State, c: CallId, current: Option<Content>)
    requires LockInv(s) && Enabled(s, Read(c))
    ensures LockInv(WithPhase(s, c, HasRead(current)))
  {
    hide Chained, InTurn, LastOf, TailResolved;
    RunningInTurn(s, c);
    var t := WithPhase(s, c, HasRead(current));
    forall b: nat | b < |t.calls| ensures Chained(t.calls, b) && InTurn(t.calls, b) && Tabled(t, b) {
      assert Tabled(s, b);
      PhaseKeepsChain(s.calls, c, HasRead(current), b);
      PhaseKeepsLast(s.calls, c, HasRead(current), b);
    }
    forall w | w in t.locks ensures LastCallOf(t.calls, w, t.locks[w]) {
      PhaseKeepsLast(s.calls, c, HasRead(current), s.locks[w]);
    }
  }

  lemma LastUnique(calls: seq<Call>, a: CallId, b: CallId)
    requires LastOf(calls, a) && LastOf(calls, b) && WorkspaceOf(calls[a]) == WorkspaceOf(calls[b])
    ensures a == b
  {
  }

  lemma FinishKeeps(s: State, c: CallId, ioOk: bool, digest: Content -> Digest)
    requires LockInv(s) && Enabled(s, Finish(c, ioOk))
    ensures LockInv(Finishing(s, c, ioOk, digest))
  {
    hide Chained, InTurn, LastOf, TailResolved, OutcomeOf;
    RunningInTurn(s, c);
    var t := Finishing(s, c, ioOk, digest);
    var phase := Finished(OutcomeOf(s, c, ioOk, digest));
    assert t.calls == s.calls[c := s.calls[c].(phase := phase)];
    forall b: nat | b < |t.calls| ensures Chained(t.calls, b) && InTurn(t.calls, b) && Tabled(t, b) {
      assert Tabled(s, b) && Tabled(s, c);
      PhaseKeepsChain(s.calls, c, phase, b);
      PhaseKeepsLast(s.calls, c, phase, b);
      if LastOf(s.calls, b) && WorkspaceOf(s.calls[b]) == WorkspaceOf(s.calls[c]) && b != c {
        if LastOf(s.calls, c) { LastUnique(s.calls, b, c); }
      }
    }
    forall w | w in t.locks ensures LastCallOf(t.calls, w, t.locks[w]) {
      PhaseKeepsLast(s.calls, c, phase, s.locks[w]);
    }
  }

  lemma ArriveKeeps(s: State, p: Publish, digest: Content -> Digest)
    requires LockInv(s)
    ensures LockInv(Next(s, Arrive(p), digest))
  {
    var t := Next(s, Arrive(p), digest);
    var n := |s.calls|;
    TableMeans(s, p.workspace);
    assert forall a: nat :: a < n ==> t.calls[a] == s.calls[a];
    forall b: nat | b < n ensures Chained(t.calls, b) && InTurn(t.calls, b) && Tabled(t, b) {
      ArrivedKeepsOld(s, p, t, b);
    }
    ArrivedIsChained(s, p, t);
  }

  lemma ArrivedKeepsOld(s: State, p: Publish, t: State, b: CallId)
    requires LockInv(s) && b < |s.calls| && |t.calls| == |s.calls| + 1 && t.locks == s.locks[p.workspace := |s.calls|]
    requires (forall a: nat :: a < |s.calls| ==> t.calls[a] == s.calls[a]) && t.calls[|s.calls|].publish == p
    ensures Chained(t.calls, b) && InTurn(t.calls, b) && Tabled(t, b)
  {
    assert Chained(s.calls, b) && InTurn(s.calls, b) && Tabled(s, b);
    assert forall x: nat, y: nat :: y < |s.calls| ==> (Before(t.calls, x, y) <==> Before(s.calls, x, y));
    assert WorkspaceOf(t.calls[|s.calls|]) == p.workspace;
    if LastOf(t.calls, b) {
      assert WorkspaceOf(s.calls[b]) != p.workspace;
      assert LastOf(s.calls, b);
    }
  }

  lemma ArrivedIsChained(s: State, p: Publish, t: State)
    requires LockInv(s)
    requires t == s.(calls :=
             s.calls + [Call(p, if p.workspace in s.locks then Some(s.locks[p.workspace]) else None, Waiting)],
                     locks := s.locks[p.workspace := |s.calls|])
    requires p.workspace !in s.locks ==>
               forall a: nat :: a < |s.calls| && WorkspaceOf(s.calls[a]) == p.workspace ==> s.calls[a].phase.Finished?
    ensures var n := |s.calls|; Chained(t.calls, n) && InTurn(t.calls, n) && Tabled(t, n)
    ensures forall w :: w in t.locks ==> LastCallOf(t.calls, w, t.locks[w])
  {
    var n := |s.calls|;
    assert WorkspaceOf(t.calls[n]) == p.workspace;
    forall w | w in t.locks ensures LastCallOf(t.calls, w, t.locks[w]) {
      if w != p.workspace { assert LastCallOf(s.calls, w, s.locks[w]); }
    }
    if p.workspace in s.locks { assert LastCallOf(s.calls, p.workspace, s.locks[p.workspace]); }
  }

  // ---------- No lost update ----------

  /** What a path holds after some writes. */
  function After(files: map<(Workspace, Path), Content>, log: seq<Write>, w: Workspace, p: Path): Option<Content> {
    if log == [] then FileAt(files, w, p)
    else
      var last := log[|log| - 1];
      if last.workspace == w && last.path == p then Some(last.after) else After(files, log[..|log| - 1], w, p)
  }

  /** The i-th write found its precondition met by exactly what the writes before it had left, and wrote what its call
      asked for. */
  ghost predicate Links(s: State, start: map<(Workspace, Path), Content>, digest: Content -> Digest, i: nat)
    requires i < |s.log|
  {
    var x := s.log[i];
    && x.call < |s.calls| && s.calls[x.call].phase == Finished(Published)
    && var p := s.calls[x.call].publish;
       && x.workspace == p.workspace && x.path == p.path && x.after == p.content
       && x.before == After(start, s.log[..i], x.workspace, x.path)
       && Satisfied(p.precondition, x.before, digest)
  }

  ghost predicate ChainInv(s: State, start: map<(Workspace, Path), Content>, digest: Content -> Digest) {
    && (forall w, p :: FileAt(s.files, w, p) == After(start, s.log, w, p))
    && (forall i: nat :: i < |s.log| ==> Links(s, start, digest, i))
  }

  ghost predicate Inv(s: State, start: map<(Workspace, Path), Content>, digest: Content -> Digest) {
    LockInv(s) && FreshReads(s) && ChainInv(s, start, digest)
  }

  lemma FinishKeepsReads(s: State, c: CallId, ioOk: bool, digest: Content -> Digest)
    requires LockInv(s) && FreshReads(s) && Enabled(s, Finish(c, ioOk))
    ensures FreshReads(Finishing(s, c, ioOk, digest))
  {
    hide LockInv, Satisfied;
    var t := Finishing(s, c, ioOk, digest);
    forall d: nat | d < |t.calls| && t.calls[d].phase.HasRead?
      ensures t.calls[d].phase.current == FileAt(t.files, t.calls[d].publish.workspace, t.calls[d].publish.path)
    {
      assert d != c;
      if WorkspaceOf(s.calls[d]) == WorkspaceOf(s.calls[c]) { MutualExclusion(s, c, d); }
    }
  }

  lemma FinishKeepsFiles(
      s: State, c: CallId, ioOk: bool, start: map<(Workspace, Path), Content>, digest: Content -> Digest)
    requires Enabled(s, Finish(c, ioOk)) && forall w, p :: FileAt(s.files, w, p) == After(start, s.log, w, p)
    ensures var t := Finishing(s, c, ioOk, digest); forall w, p :: FileAt(t.files, w, p) == After(start, t.log, w, p)
  {
    hide Satisfied, TailResolved;
    var t := Finishing(s, c, ioOk, digest);
    forall w, q ensures FileAt(t.files, w, q) == After(start, t.log, w, q) {
      assert FileAt(s.files, w, q) == After(start, s.log, w, q);
      if t.log != s.log { assert t.log[..|t.log| - 1] == s.log; }
    }
  }

  lemma FinishKeepsLinks(
      s: State, c: CallId, ioOk: bool, start: map<(Workspace, Path), Content>, digest: Content -> Digest, i: nat)
    requires FreshReads(s) && ChainInv(s, start, digest) && Enabled(s, Finish(c, ioOk))
    requires i < |Finishing(s, c, ioOk, digest).log|
    ensures Links(Finishing(s, c, ioOk, digest), start, digest, i)
  {
    hide Satisfied, After, TailResolved;
    var t := Finishing(s, c, ioOk, digest);
    if i < |s.log| {
      assert Links(s, start, digest, i);
      assert t.log[..i] == s.log[..i];
    } else {
      assert t.log[..i] == s.log;
    }
  }

  lemma FinishKeepsChain(
      s: State, c: CallId, ioOk: bool, start: map<(Workspace, Path), Content>, digest: Content -> Digest)
    requires FreshReads(s) && ChainInv(s, start, digest) && Enabled(s, Finish(c, ioOk))
    ensures ChainInv(Finishing(s, c, ioOk, digest), start, digest)
  {
    hide Links, Finishing, After;
    FinishKeepsFiles(s, c, ioOk, start, digest);
    forall i: nat | i < |Finishing(s, c, ioOk, digest).log|
      ensures Links(Finishing(s, c, ioOk, digest), start, digest, i)
    {
      FinishKeepsLinks(s, c, ioOk, start, digest, i);
    }
  }

  lemma OtherStepsKeepChain(s: State, step: Step, start: map<(Workspace, Path), Content>, digest: Content -> Digest)
    requires ChainInv(s, start, digest) && Enabled(s, step) && !step.Finish?
    ensures ChainInv(Next(s, step, digest), start, digest)
  {
    hide Satisfied, After, TailResolved;
    var t := Next(s, step, digest);
    forall i: nat | i < |t.log| ensures Links(t, start, digest, i) { assert Links(s, start, digest, i); }
  }

  /** Every step of every caller keeps the lock, the reads and the chain of writes. */
  lemma NextKeepsInv(s: State, step: Step, start: map<(Workspace, Path), Content>, digest: Content -> Digest)
    requires Inv(s, start, digest) && Enabled(s, step)
    ensures Inv(Next(s, step, digest), start, digest)
  {
    hide LockInv, ChainInv, TailResolved;
    match step
    case Arrive(p) => ArriveKeeps(s, p, digest); OtherStepsKeepChain(s, step, start, digest);
    case Enter(c) => EnterKeeps(s, c); OtherStepsKeepChain(s, step, start, digest);
    case Read(c) =>
      ReadKeeps(s, c, FileAt(s.files, s.calls[c].publish.workspace, s.calls[c].publish.path));
      OtherStepsKeepChain(s, step, start, digest);
    case Finish(c, ioOk) =>
      FinishKeeps(s, c, ioOk, digest);
      FinishKeepsReads(s, c, ioOk, digest);
      FinishKeepsChain(s, c, ioOk, start, digest);
  }

  function Initial(start: map<(Workspace, Path), Content>): State { State([], map[], start, []) }

  /** The state after some steps; None when one of them was not enabled. */
  function Run(start: map<(Workspace, Path), Content>, steps: seq<Step>, digest: Content -> Digest): Option<State> {
    if steps == [] then Some(Initial(start))
    else
      var t, step := Run(start, steps[..|steps| - 1], digest), steps[|steps| - 1];
      if t.Some? && Enabled(t.value, step) then Some(Next(t.value, step, digest)) else None
  }

  /** Over every interleaving of callers. */
  lemma {:induction false} RunKeepsInv(
      start: map<(Workspace, Path), Content>, steps: seq<Step>, digest: Content -> Digest)
    requires Run(start, steps, digest).Some?
    ensures Inv(Run(start, steps, digest).value, start, digest)
  {
    hide Inv, Next, Enabled;
    if steps == [] {
      InitialInv(start, digest);
    } else {
      RunKeepsInv(start, steps[..|steps| - 1], digest);
      NextKeepsInv(Run(start, steps[..|steps| - 1], digest).value, steps[|steps| - 1], start, digest);
    }
  }

  lemma InitialInv(start: map<(Workspace, Path), Content>, digest: Content -> Digest)
    ensures Inv(Initial(start), start, digest)
  {
  }

  lemma {:induction false} AfterNone(
      start: map<(Workspace, Path), Content>, log: seq<Write>, w: Workspace, p: Path, i: nat)
    requires i < |log| && log[i].workspace == w && log[i].path == p
    requires forall k :: i < k < |log| ==> !(log[k].workspace == w && log[k].path == p)
    ensures After(start, log, w, p) == Some(log[i].after)
    decreases |log|
  {
    if i < |log| - 1 { AfterNone(start, log[..|log| - 1], w, p, i); }
  }

  /** Successful publishes to a path form a chain: each met its precondition on exactly the bytes that the one before
      it left. */
  lemma PublishesChain(s: State, start: map<(Workspace, Path), Content>, digest: Content -> Digest, i: nat, j: nat)
    requires Inv(s, start, digest) && i < j < |s.log|
    requires s.log[i].workspace == s.log[j].workspace && s.log[i].path == s.log[j].path
    requires forall k :: i < k < j ==> !(s.log[k].workspace == s.log[j].workspace && s.log[k].path == s.log[j].path)
    ensures s.log[j].before == Some(s.log[i].after)
    ensures s.log[j].call < |s.calls| &&
            s.calls[s.log[j].call].publish.precondition == MustMatch(digest(s.log[i].after))
  {
    hide LockInv, FreshReads;
    assert Links(s, start, digest, j);
    AfterNone(start, s.log[..j], s.log[j].workspace, s.log[j].path, i);
  }

  /** What the end of a body does, told by the file as it is then: it replaces the file exactly when the precondition
      holds of it and the write goes through. A failed precondition is reported as stale, whatever the write would
      have done. */
  lemma FinishDecides(s: State, c: CallId, ioOk: bool, digest: Content -> Digest)
    requires FreshReads(s) && Enabled(s, Finish(c, ioOk))
    ensures var t, p := Next(s, Finish(c, ioOk), digest), s.calls[c].publish;
            var held := FileAt(s.files, p.workspace, p.path);
            var met := if p.precondition.MustBeAbsent? then held == None
                       else held.Some? && digest(held.value) == p.precondition.digest;
            && t.calls[c] == s.calls[c].(phase :=
               Finished(if !met then Stale else if ioOk then Published else FailedIo))
            && (forall b :: 0 <= b < |s.calls| && b != c ==> t.calls[b] == s.calls[b]) && |t.calls| == |s.calls|
            && t.files == (if met && ioOk then s.files[(p.workspace, p.path) := p.content] else s.files)
            && t.log == if met && ioOk then s.log + [Write(c, p.workspace, p.path, held, p.content)] else s.log
  {
  }

  // ---------- The lock table and the files, updated in place ----------

  class MutationRuntime {
    var calls: seq<Call>
    var locks: map<Workspace, CallId>
    var files: map<(Workspace, Path), Content>
    ghost var log: seq<Write>

    ghost function Model(): State
      reads this
    {
      State(calls, locks, files, log)
    }

    constructor (files: map<(Workspace, Path), Content>)
      ensures Model() == Initial(files)
    {
      calls, locks, this.files, log := [], map[], files, [];
    }

    /** A caller joins the queue of its workspace, up to the point where it awaits its predecessor. */
    method Join(publish: Publish, ghost digest: Content -> Digest) returns (c: CallId)
      modifies this
      ensures Model() == Next(old(Model()), Arrive(publish), digest) && c == old(|calls|)
    {
      c := |calls|;
      var previous := if publish.workspace in locks then Some(locks[publish.workspace]) else None;
      calls := calls + [Call(publish, previous, Waiting)];
      locks := locks[publish.workspace := c];
    }

    /** The awaited promise has resolved: the body starts. */
    method Proceed(c: CallId, ghost digest: Content -> Digest)
      requires Enabled(Model(), Enter(c))
      modifies this`calls
      ensures Model() == Next(old(Model()), Enter(c), digest)
    {
      calls := calls[c := calls[c].(phase := Entered)];
    }

    method ReadCurrent(c: CallId, ghost digest: Content -> Digest)
      requires Enabled(Model(), Read(c))
      modifies this`calls
      ensures Model() == Next(old(Model()), Read(c), digest)
    {
      var p := calls[c].publish;
      calls := calls[c := calls[c].(phase := HasRead(FileAt(files, p.workspace, p.path)))];
    }

    /** Checks the precondition on what was read, writes, releases, and leaves the table if no one has joined since. */
    method Complete(c: CallId, ioOk: bool, digest: Content -> Digest) returns (outcome: Outcome)
      requires Enabled(Model(), Finish(c, ioOk))
      modifies this
      ensures Model() == Next(old(Model()), Finish(c, ioOk), digest) && calls[c].phase == Finished(outcome)
    {
      var p, current := calls[c].publish, calls[c].phase.current;
      if !Satisfied(p.precondition, current, digest) {
        outcome := Stale;
      } else if !ioOk {
        outcome := FailedIo;
      } else if p.precondition.MustBeAbsent? && FileAt(files, p.workspace, p.path).Some? {
        outcome := FailedIo;
      } else {
        outcome := Published;
        log := log + [Write(c, p.workspace, p.path, FileAt(files, p.workspace, p.path), p.content)];
        files := files[(p.workspace, p.path) := p.content];
      }
      calls := calls[c := calls[c].(phase := Finished(outcome))];
      if p.workspace in locks && locks[p.workspace] == c { locks := locks - {p.workspace}; }
    }
  }
}
