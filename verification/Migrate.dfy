/** The replicated schema migration of internal/migrate/migrate.go as a labelled transition system.

    Several replicas share a database.  Creating the lock table takes the lock; a table that is old,
    empty or gone counts as stale and is dropped by whoever judged it so, some time later.  Replicas
    may fail and die between any two statements, and a statement that reports a failure may have
    taken effect. */
module Migrate {
  import opened Strings

  /** A file of the schema directory; `blank` says that nothing is left of it after trimming. */
  datatype File = File(name: string, blank: bool)

  datatype Lock = Free | Table(token: nat, beats: nat)

  datatype Step =
    | Fresh                                // the lock table has just been created
    | Reading                              // about to read the versions applied
    | At(next: nat, done: set<string>)     // about to look at file `next`
    | Ran(next: nat, done: set<string>)    // file `next` executed, about to be recorded
    | Leaving                              // about to drop the lock table

  datatype Phase =
    | Outside                              // about to create the lock table
    | SawLock                              // the table was there, about to ask for its age
    | Dropping                             // judged stale, about to drop it
    | Holding(token: nat, step: Step)      // between lock and unlock
    | Ended

  datatype State = State(phases: seq<Phase>, lock: Lock, tokens: nat,
                         executed: seq<string>, recorded: seq<string>)

  datatype Label =
    | Start(r: nat)
    | Create(r: nat)
    | Judge(r: nat, aged: bool)
    | DropStale(r: nat)
    | Beat(r: nat)
    | Prepare(r: nat)
    | Read(r: nat)
    | Skip(r: nat)
    | Execute(r: nat, ok: bool, effect: bool)
    | Record(r: nat, ok: bool, effect: bool)
    | Finish(r: nat)
    | Fail(r: nat)
    | Unlock(r: nat, effect: bool)
    | Die(r: nat)

  predicate InStep(p: Phase, files: seq<File>, l: Label) {
    p.Holding? &&
    match l
    case Prepare(_) => p.step.Fresh?
    case Read(_) => p.step.Reading?
    case Skip(_) => p.step.At? && p.step.next < |files| && Skipped(files[p.step.next], p.step.done)
    case Execute(_, ok, effect) =>
      p.step.At? && p.step.next < |files| && !Skipped(files[p.step.next], p.step.done) && (ok ==> effect)
    case Record(_, ok, effect) => p.step.Ran? && p.step.next < |files| && (ok ==> effect)
    case Finish(_) => p.step.At? && p.step.next >= |files|
    case Fail(_) => !p.step.Leaving?
    case Unlock(_, _) => p.step.Leaving?
    case Beat(_) => true
    case _ => false
  }

  predicate Skipped(f: File, done: set<string>) {
    f.name in done || f.blank
  }

  predicate Enabled(files: seq<File>, s: State, l: Label) {
    l.r < |s.phases| &&
    var p := s.phases[l.r];
    match l
    case Start(_) => p.Ended?
    case Create(_) => p.Outside?
    case Judge(_, _) => p.SawLock?
    case DropStale(_) => p.Dropping?
    case Die(_) => true
    case _ => InStep(p, files, l)
  }

  /** lockIsStale: no table, no beat in it yet, or the last beat too long ago. */
  predicate Stale(lock: Lock, aged: bool) {
    lock.Free? || lock.beats == 0 || aged
  }

  function Go(s: State, r: nat, p: Phase): State
    requires r < |s.phases|
  {
    s.(phases := s.phases[r := p])
  }

  function Onward(s: State, r: nat, step: Step): State
    requires r < |s.phases| && s.phases[r].Holding?
  {
    Go(s, r, Holding(s.phases[r].token, step))
  }

  function AddIf(log: seq<string>, name: string, effect: bool): seq<string> {
    if effect then log + [name] else log
  }

  function Next(files: seq<File>, s: State, l: Label): State
    requires Enabled(files, s, l)
  {
    var r, p := l.r, s.phases[l.r];
    match l
    case Start(_) => Go(s, r, Outside)
    case Create(_) =>
      if s.lock.Free? then
        Go(s, r, Holding(s.tokens, Fresh)).(lock := Table(s.tokens, 0), tokens := s.tokens + 1)
      else Go(s, r, SawLock)
    case Judge(_, aged) => Go(s, r, if Stale(s.lock, aged) then Dropping else Outside)
    case DropStale(_) => Go(s, r, Outside).(lock := Free)
    case Beat(_) => if s.lock.Table? then s.(lock := s.lock.(beats := s.lock.beats + 1)) else s
    case Prepare(_) => Onward(s, r, Reading)
    case Read(_) => Onward(s, r, At(0, set v | v in s.recorded))
    case Skip(_) => Onward(s, r, At(p.step.next + 1, p.step.done))
    case Execute(_, ok, effect) =>
      Onward(s, r, if ok then Ran(p.step.next, p.step.done) else Leaving)
        .(executed := AddIf(s.executed, files[p.step.next].name, effect))
    case Record(_, ok, effect) =>
      Onward(s, r, if ok then At(p.step.next + 1, p.step.done) else Leaving)
        .(recorded := AddIf(s.recorded, files[p.step.next].name, effect))
    case Finish(_) => Onward(s, r, Leaving)
    case Fail(_) => Onward(s, r, Leaving)
    case Unlock(_, effect) => Go(s, r, Ended).(lock := if effect then Free else s.lock)
    case Die(_) => Go(s, r, Ended)
  }

  datatype Run = Begin | Then(before: Run, last: Label)

  function Initial(n: nat): State {
    State(seq(n, _ => Outside), Free, 0, [], [])
  }

  ghost predicate IsRun(files: seq<File>, n: nat, run: Run)
    decreases run, 0
  {
    run.Begin? || (IsRun(files, n, run.before) && Enabled(files, After(files, n, run.before), run.last))
  }

  /** The state n replicas end in after a run from an empty database. */
  ghost function After(files: seq<File>, n: nat, run: Run): State
    requires IsRun(files, n, run)
    decreases run, 1
  {
    if run.Begin? then Initial(n) else Next(files, After(files, n, run.before), run.last)
  }

  // Order and recording, whatever becomes of the lock

  /** The sorted list of distinct names `list` returns. */
  ghost predicate Listing(files: seq<File>) {
    forall i, j :: 0 <= i < j < |files| ==> Less(files[i].name, files[j].name)
  }

  /** Every file before position `next` that is not blank has been recorded. */
  predicate RecordedUpTo(files: seq<File>, recorded: seq<string>, next: nat) {
    forall k :: 0 <= k < next && k < |files| && !files[k].blank ==> files[k].name in recorded
  }

  predicate StepOk(files: seq<File>, s: State, step: Step) {
    match step
    case At(next, done) =>
      RecordedUpTo(files, s.recorded, next) && (forall v :: v in done ==> v in s.recorded)
    case Ran(next, done) =>
      RecordedUpTo(files, s.recorded, next) && (forall v :: v in done ==> v in s.recorded) &&
      next < |files| && !files[next].blank && files[next].name in s.executed
    case _ => true
  }

  predicate StepsOk(files: seq<File>, s: State) {
    forall q :: 0 <= q < |s.phases| && s.phases[q].Holding? ==> StepOk(files, s, s.phases[q].step)
  }

  /** Every recorded version has been executed, and with it every file before it is recorded. */
  predicate RecordsOk(files: seq<File>, s: State) {
    (forall v :: v in s.recorded ==> v in s.executed) &&
    (forall j :: 0 <= j < |files| && files[j].name in s.recorded ==> RecordedUpTo(files, s.recorded, j))
  }

  /** Every execution of a file comes after executions of all files before it that are not blank. */
  predicate ExecutedInOrder(files: seq<File>, executed: seq<string>) {
    forall p, i, j | 0 <= p < |executed| && 0 <= i < j < |files| && !files[i].blank && executed[p] == files[j].name
      :: files[i].name in executed[..p]
  }

  predicate OrderInv(files: seq<File>, s: State) {
    StepsOk(files, s) && RecordsOk(files, s) && ExecutedInOrder(files, s.executed)
  }

  lemma DistinctNames(files: seq<File>, i: nat, j: nat)
    requires Listing(files) && i < |files| && j < |files| && files[i].name == files[j].name
    ensures i == j
  {
    LessIrreflexive(files[i].name);
  }

  /** What is logged stays logged. */
  lemma LogsGrow(files: seq<File>, s: State, l: Label)
    requires Enabled(files, s, l)
    ensures s.recorded <= Next(files, s, l).recorded && s.executed <= Next(files, s, l).executed
  {
  }

  lemma StepsKept(files: seq<File>, s: State, l: Label)
    requires StepsOk(files, s) && Enabled(files, s, l)
    ensures StepsOk(files, Next(files, s, l))
  {
    var s' := Next(files, s, l);
    LogsGrow(files, s, l);
    forall q | 0 <= q < |s'.phases| && s'.phases[q].Holding? ensures StepOk(files, s', s'.phases[q].step) {
      if q != l.r || l.Beat? {
        assert s'.phases[q] == s.phases[q];
        assert StepOk(files, s, s.phases[q].step);
      } else if s.phases[q].Holding? {
        assert StepOk(files, s, s.phases[q].step);
      }
    }
  }

  lemma RecordsKept(files: seq<File>, s: State, l: Label)
    requires Listing(files) && StepsOk(files, s) && RecordsOk(files, s) && Enabled(files, s, l)
    ensures RecordsOk(files, Next(files, s, l))
  {
    var s' := Next(files, s, l);
    LogsGrow(files, s, l);
    if l.Record? && l.effect {
      var p := s.phases[l.r];
      assert StepOk(files, s, p.step);
      forall j | 0 <= j < |files| && files[j].name in s'.recorded ensures RecordedUpTo(files, s'.recorded, j) {
        if files[j].name !in s.recorded {
          DistinctNames(files, j, p.step.next);
        }
      }
    }
  }

  lemma ExecutionsKept(files: seq<File>, s: State, l: Label)
    requires Listing(files) && OrderInv(files, s) && Enabled(files, s, l)
    ensures ExecutedInOrder(files, Next(files, s, l).executed)
  {
    if l.Execute? && l.effect {
      var p := s.phases[l.r];
      var log := s.executed + [files[p.step.next].name];
      assert StepOk(files, s, p.step);
      forall q, i, j | 0 <= q < |log| && 0 <= i < j < |files| && !files[i].blank && log[q] == files[j].name
        ensures files[i].name in log[..q]
      {
        if q < |s.executed| {
          assert log[..q] == s.executed[..q] && s.executed[q] == files[j].name;
        } else {
          DistinctNames(files, j, p.step.next);
          assert log[..q] == s.executed;
          assert files[i].name in s.recorded;
        }
      }
    }
  }

  lemma {:induction false} OrderHolds(files: seq<File>, n: nat, run: Run)
    requires Listing(files) && IsRun(files, n, run)
    ensures OrderInv(files, After(files, n, run))
  {
    if run.Then? {
      OrderHolds(files, n, run.before);
      var s := After(files, n, run.before);
      StepsKept(files, s, run.last);
      RecordsKept(files, s, run.last);
      ExecutionsKept(files, s, run.last);
    }
  }

  /** In every reachable state, even if the lock has been violated: what is recorded has been
      executed, the recorded versions are downward closed in the order of names, and no file was
      ever executed before all files that sort before it. */
  lemma OrderSurvives(files: seq<File>, n: nat, run: Run)
    requires Listing(files) && IsRun(files, n, run)
    ensures var s := After(files, n, run);
            && (forall v :: v in s.recorded ==> v in s.executed)
            && (forall f, g | f in files && g in files && !f.blank && Less(f.name, g.name) && g.name in s.recorded
                  :: f.name in s.recorded)
            && ExecutedInOrder(files, s.executed)
  {
    OrderHolds(files, n, run);
    var s := After(files, n, run);
    forall f, g | f in files && g in files && !f.blank && Less(f.name, g.name) && g.name in s.recorded
      ensures f.name in s.recorded
    {
      var i :| 0 <= i < |files| && files[i] == f;
      var j :| 0 <= j < |files| && files[j] == g;
      LessTrichotomy(f.name, g.name);
      assert i < j && RecordedUpTo(files, s.recorded, j);
    }
  }

  /** A replica that goes through the list to its end leaves every version recorded and executed. */
  lemma FinishedIsComplete(files: seq<File>, n: nat, run: Run)
    requires Listing(files) && IsRun(files, n, run) && run.Then? && run.last.Finish?
    ensures forall f :: f in files && !f.blank ==>
              f.name in After(files, n, run).recorded && f.name in After(files, n, run).executed
  {
    OrderHolds(files, n, run.before);
    var s := After(files, n, run.before);
    assert StepOk(files, s, s.phases[run.last.r].step);
  }

  // Mutual exclusion, if no stale drop hits a live holder

  /** Replica q holds the lock table that is there. */
  predicate Owns(s: State, q: nat)
    requires q < |s.phases|
  {
    s.phases[q].Holding? && s.lock.Table? && s.lock.token == s.phases[q].token
  }

  /** Every replica between lock and unlock holds the lock table that is there. */
  predicate AllOwn(s: State) {
    forall q :: 0 <= q < |s.phases| && s.phases[q].Holding? ==> Owns(s, q)
  }

  /** Tokens are never given out twice. */
  predicate TokensOk(s: State) {
    (s.lock.Table? ==> s.lock.token < s.tokens) &&
    (forall q :: 0 <= q < |s.phases| && s.phases[q].Holding? ==> s.phases[q].token < s.tokens) &&
    (forall q, r :: 0 <= q < r < |s.phases| && s.phases[q].Holding? && s.phases[r].Holding? ==>
       s.phases[q].token != s.phases[r].token)
  }

  /** The step does not drop the table of a live holder for being stale. */
  predicate Harmless(s: State, l: Label) {
    l.DropStale? ==> forall q :: 0 <= q < |s.phases| ==> !Owns(s, q)
  }

  ghost predicate HarmlessRun(files: seq<File>, n: nat, run: Run)
    requires IsRun(files, n, run)
    decreases run
  {
    run.Then? ==> HarmlessRun(files, n, run.before) && Harmless(After(files, n, run.before), run.last)
  }

  ghost predicate AlwaysOwned(files: seq<File>, n: nat, run: Run)
    requires IsRun(files, n, run)
    decreases run
  {
    AllOwn(After(files, n, run)) && (run.Then? ==> AlwaysOwned(files, n, run.before))
  }

  /** A step changes one replica, which takes a new token or keeps its own. */
  lemma TokenStep(files: seq<File>, s: State, l: Label)
    requires Enabled(files, s, l)
    ensures var s' := Next(files, s, l);
            && |s'.phases| == |s.phases| && l.r < |s.phases| && s.tokens <= s'.tokens
            && (forall q :: 0 <= q < |s.phases| && q != l.r ==> s'.phases[q] == s.phases[q])
            && (s'.lock.Table? ==> (s.lock.Table? && s'.lock.token == s.lock.token) || s'.lock.token < s'.tokens)
            && (s'.phases[l.r].Holding? ==>
                  || (s'.phases[l.r].token == s.tokens < s'.tokens)
                  || (s.phases[l.r].Holding? && s'.phases[l.r].token == s.phases[l.r].token))
  {
  }

  lemma TokensKept(files: seq<File>, s: State, l: Label)
    requires TokensOk(s) && Enabled(files, s, l)
    ensures TokensOk(Next(files, s, l))
  {
    var s' := Next(files, s, l);
    TokenStep(files, s, l);
    hide Next, Enabled;
    forall q, r | 0 <= q < r < |s'.phases| && s'.phases[q].Holding? && s'.phases[r].Holding?
      ensures s'.phases[q].token != s'.phases[r].token
    {
      assert q != l.r ==> s'.phases[q] == s.phases[q];
      assert r != l.r ==> s'.phases[r] == s.phases[r];
    }
  }

  lemma {:induction false} TokensHold(files: seq<File>, n: nat, run: Run)
    requires IsRun(files, n, run)
    ensures TokensOk(After(files, n, run))
  {
    if run.Then? {
      TokensHold(files, n, run.before);
      TokensKept(files, After(files, n, run.before), run.last);
    }
  }

  /** From a state in which the lock is respected one step keeps it so exactly if it is harmless. */
  lemma OwnershipStep(files: seq<File>, s: State, l: Label)
    requires TokensOk(s) && AllOwn(s) && Enabled(files, s, l)
    ensures AllOwn(Next(files, s, l)) <==> Harmless(s, l)
  {
    var s' := Next(files, s, l);
    if l.DropStale? && !Harmless(s, l) {
      var q :| 0 <= q < |s.phases| && Owns(s, q);
      assert s'.phases[q] == s.phases[q] && !Owns(s', q);
    } else if l.Unlock? {
      assert Owns(s, l.r);
      forall q | 0 <= q < |s'.phases| ensures !s'.phases[q].Holding? {
        assert s.phases[q].Holding? ==> Owns(s, q);
      }
    } else if l.Create? {
      forall q | 0 <= q < |s'.phases| && s'.phases[q].Holding? ensures Owns(s', q) {
        if q != l.r {
          assert s'.phases[q] == s.phases[q] && Owns(s, q);
        }
      }
    } else {
      forall q | 0 <= q < |s'.phases| && s'.phases[q].Holding? ensures Harmless(s, l) ==> Owns(s', q) {
        if q != l.r {
          assert s'.phases[q] == s.phases[q];
        }
        assert Owns(s, q);
      }
    }
  }

  /** The lock is respected throughout a run exactly when no stale drop of the run hits the table
      of a live holder. */
  lemma {:induction false} ExclusionIff(files: seq<File>, n: nat, run: Run)
    requires IsRun(files, n, run)
    ensures AlwaysOwned(files, n, run) <==> HarmlessRun(files, n, run)
  {
    if run.Then? {
      ExclusionIff(files, n, run.before);
      TokensHold(files, n, run.before);
      if AlwaysOwned(files, n, run.before) {
        assert AllOwn(After(files, n, run.before));
        OwnershipStep(files, After(files, n, run.before), run.last);
      }
    }
  }

  predicate NoRepeats(log: seq<string>) {
    forall i, j :: 0 <= i < j < |log| ==> log[i] != log[j]
  }

  /** What a holder knows of the record: files still to be looked at are recorded only if it saw so. */
  predicate StepKnows(files: seq<File>, recorded: seq<string>, step: Step) {
    match step
    case At(next, done) =>
      forall k :: next <= k < |files| && files[k].name in recorded ==> files[k].name in done
    case Ran(next, done) =>
      next < |files| && files[next].name !in recorded &&
      forall k :: next < k < |files| && files[k].name in recorded ==> files[k].name in done
    case _ => true
  }

  predicate OnceInv(files: seq<File>, s: State) {
    NoRepeats(s.recorded) &&
    forall q :: 0 <= q < |s.phases| && s.phases[q].Holding? ==> StepKnows(files, s.recorded, s.phases[q].step)
  }

  lemma OnceKept(files: seq<File>, s: State, l: Label)
    requires Listing(files) && TokensOk(s) && AllOwn(s) && OnceInv(files, s) && Enabled(files, s, l)
    ensures OnceInv(files, Next(files, s, l))
  {
    var s' := Next(files, s, l);
    forall q | 0 <= q < |s'.phases| && s'.phases[q].Holding?
      ensures StepKnows(files, s'.recorded, s'.phases[q].step)
    {
      if q != l.r {
        assert s'.phases[q] == s.phases[q] && Owns(s, q);
        assert s.phases[l.r].Holding? ==> Owns(s, l.r);
      } else if s.phases[q].Holding? {
        assert StepKnows(files, s.recorded, s.phases[q].step);
        if l.Record? {
          forall k | s.phases[q].step.next < k < |files|
            ensures files[k].name != files[s.phases[q].step.next].name
          {
            if files[k].name == files[s.phases[q].step.next].name {
              DistinctNames(files, k, s.phases[q].step.next);
            }
          }
        }
      }
    }
    if l.Record? {
      assert StepKnows(files, s.recorded, s.phases[l.r].step);
    }
  }

  lemma {:induction false} OnceHolds(files: seq<File>, n: nat, run: Run)
    requires Listing(files) && IsRun(files, n, run) && HarmlessRun(files, n, run)
    ensures OnceInv(files, After(files, n, run))
  {
    if run.Then? {
      OnceHolds(files, n, run.before);
      TokensHold(files, n, run.before);
      ExclusionIff(files, n, run.before);
      OnceKept(files, After(files, n, run.before), run.last);
    }
  }

  /** If no stale drop hits the table of a live holder, at most one replica is between lock and
      unlock, and every version is recorded at most once. */
  lemma LockProtects(files: seq<File>, n: nat, run: Run)
    requires Listing(files) && IsRun(files, n, run) && HarmlessRun(files, n, run)
    ensures var s := After(files, n, run);
            && (forall q, r :: 0 <= q < r < |s.phases| ==> !(s.phases[q].Holding? && s.phases[r].Holding?))
            && NoRepeats(s.recorded)
  {
    var s := After(files, n, run);
    ExclusionIff(files, n, run);
    TokensHold(files, n, run);
    OnceHolds(files, n, run);
    forall q, r | 0 <= q < r < |s.phases| ensures !(s.phases[q].Holding? && s.phases[r].Holding?) {
      assert s.phases[q].Holding? ==> Owns(s, q);
      assert s.phases[r].Holding? ==> Owns(s, r);
    }
  }

  lemma Extend(files: seq<File>, n: nat, run: Run, l: Label) returns (more: Run)
    requires IsRun(files, n, run) && Enabled(files, After(files, n, run), l)
    ensures more == Then(run, l) && IsRun(files, n, more)
    ensures After(files, n, more) == Next(files, After(files, n, run), l)
    ensures HarmlessRun(files, n, more) <==> HarmlessRun(files, n, run) && Harmless(After(files, n, run), l)
    ensures Alone(run, more, l.r)
  {
    more := Then(run, l);
    assert Alone(run, run, l.r);
  }

  /** A run that goes on by steps of one replica. */
  ghost predicate Alone(run: Run, more: Run, r: nat)
    decreases more
  {
    more == run || (more.Then? && more.last.r == r && Alone(run, more.before, r))
  }

  lemma {:induction false} AloneTransitive(a: Run, b: Run, c: Run, r: nat)
    requires Alone(a, b, r) && Alone(b, c, r)
    ensures Alone(a, c, r)
    decreases c
  {
    if b != c {
      AloneTransitive(a, b, c.before, r);
    }
  }

  /** And such a drop is enough to break it: whoever drops the table of a live holder can take the lock
      at once, and both are between lock and unlock. */
  lemma HarmLetsTwoIn(files: seq<File>, n: nat, run: Run, r: nat) returns (more: Run)
    requires IsRun(files, n, run) && Enabled(files, After(files, n, run), DropStale(r))
    requires !Harmless(After(files, n, run), DropStale(r))
    ensures more == Then(Then(run, DropStale(r)), Create(r)) && IsRun(files, n, more)
    ensures var s := After(files, n, more);
            exists q :: 0 <= q < |s.phases| && q != r && s.phases[q].Holding? && s.phases[r].Holding?
  {
    hide IsRun, After;
    var s := After(files, n, run);
    var q :| 0 <= q < |s.phases| && Owns(s, q);
    var dropped := Extend(files, n, run, DropStale(r));
    more := Extend(files, n, dropped, Create(r));
    assert After(files, n, more).phases[q] == s.phases[q];
  }

  function Entered(step: Step, executed: seq<string>, recorded: seq<string>): State {
    State([Holding(0, step), Holding(1, step)], Table(1, 0), 2, executed, recorded)
  }

  lemma BothEnter(files: seq<File>) returns (run: Run)
    ensures IsRun(files, 2, run) && After(files, 2, run) == Entered(Fresh, [], []) && !HarmlessRun(files, 2, run)
  {
    run := Extend(files, 2, Begin, Create(0));
    assert After(files, 2, run) == State([Holding(0, Fresh), Outside], Table(0, 0), 1, [], []);
    run := Extend(files, 2, run, Create(1));
    run := Extend(files, 2, run, Judge(1, false));
    assert After(files, 2, run) == State([Holding(0, Fresh), Dropping], Table(0, 0), 1, [], []);
    assert Owns(After(files, 2, run), 0);
    run := Extend(files, 2, run, DropStale(1));
    run := Extend(files, 2, run, Create(1));
  }

  lemma {:induction false} BothRead(files: seq<File>, before: Run) returns (run: Run)
    requires IsRun(files, 2, before) && After(files, 2, before) == Entered(Fresh, [], [])
    ensures IsRun(files, 2, run) && After(files, 2, run) == Entered(At(0, {}), [], [])
    ensures HarmlessRun(files, 2, run) ==> HarmlessRun(files, 2, before)
  {
    run := Extend(files, 2, before, Prepare(0));
    run := Extend(files, 2, run, Prepare(1));
    assert After(files, 2, run) == Entered(Reading, [], []);
    run := Extend(files, 2, run, Read(0));
    run := Extend(files, 2, run, Read(1));
    var none: set<string> := {};
    assert (set v | v in Entered(Reading, [], []).recorded) == none;
  }

  lemma BothRecord(name: string, before: Run) returns (run: Run)
    requires IsRun([File(name, false)], 2, before)
    requires After([File(name, false)], 2, before) == Entered(At(0, {}), [], [])
    ensures IsRun([File(name, false)], 2, run)
    ensures var s := After([File(name, false)], 2, run);
            |s.phases| == 2 && s.phases[0].Holding? && s.phases[1].Holding? && s.recorded == [name, name]
    ensures HarmlessRun([File(name, false)], 2, run) ==> HarmlessRun([File(name, false)], 2, before)
  {
    hide IsRun, After, HarmlessRun;
    var files := [File(name, false)];
    run := Extend(files, 2, before, Execute(0, true, true));
    run := Extend(files, 2, run, Execute(1, true, true));
    assert After(files, 2, run) == Entered(Ran(0, {}), [name, name], []);
    run := Extend(files, 2, run, Record(0, true, true));
    run := Extend(files, 2, run, Record(1, true, true));
  }

  /** The lock table is created empty, and an empty table counts as stale: two replicas that start
      together can both get in before the first beat and record the same version twice. */
  lemma EmptyTableRace(name: string) returns (run: Run)
    ensures var files := [File(name, false)];
            && IsRun(files, 2, run) && Listing(files) && !HarmlessRun(files, 2, run)
            && var s := After(files, 2, run);
               |s.phases| == 2 && s.phases[0].Holding? && s.phases[1].Holding? && s.recorded == [name, name]
  {
    var files := [File(name, false)];
    hide IsRun, After, HarmlessRun;
    run := BothEnter(files);
    run := BothRead(files, run);
    run := BothRecord(name, run);
  }

  // The loop of Apply

  /** How reading one file and the statements for it end. */
  datatype Outcome = Smooth | ReadFails | ExecuteFails(effect: bool) | RecordFails(effect: bool)

  datatype Logs = Logs(executed: seq<string>, recorded: seq<string>, ok: bool)

  /** What one turn of the loop of Apply leaves behind; `ok` says that the loop goes on. */
  function ApplyOne(f: File, outcome: Outcome, done: set<string>, executed: seq<string>, recorded: seq<string>): Logs {
    if f.name in done then Logs(executed, recorded, true)
    else if outcome.ReadFails? then Logs(executed, recorded, false)
    else if f.blank then Logs(executed, recorded, true)
    else
      match outcome
      case ExecuteFails(effect) => Logs(AddIf(executed, f.name, effect), recorded, false)
      case RecordFails(effect) => Logs(executed + [f.name], AddIf(recorded, f.name, effect), false)
      case Smooth => Logs(executed + [f.name], recorded + [f.name], true)
  }

  /** What the loop leaves behind from file i on. */
  function ApplyFrom(files: seq<File>, outcomes: seq<Outcome>, i: nat, done: set<string>,
                     executed: seq<string>, recorded: seq<string>): Logs
    requires i <= |files| == |outcomes|
    decreases |files| - i
  {
    if i == |files| then Logs(executed, recorded, true)
    else
      var logs := ApplyOne(files[i], outcomes[i], done, executed, recorded);
      if logs.ok then ApplyFrom(files, outcomes, i + 1, done, logs.executed, logs.recorded) else logs
  }

  class Database {
    var executed: seq<string>
    var recorded: seq<string>

    /** Apply, from listing the versions applied to its return. */
    method Apply(files: seq<File>, outcomes: seq<Outcome>) returns (ok: bool)
      requires |outcomes| == |files|
      modifies this
      ensures Logs(executed, recorded, ok) ==
              ApplyFrom(files, outcomes, 0, (set v | v in old(recorded)), old(executed), old(recorded))
    {
      var done := set v | v in recorded;
      for i := 0 to |files|
        invariant ApplyFrom(files, outcomes, i, done, executed, recorded) ==
                  ApplyFrom(files, outcomes, 0, done, old(executed), old(recorded))
      {
        var file := files[i];
        if file.name in done {
          continue;
        }
        if outcomes[i].ReadFails? {
          return false;
        }
        if file.blank {
          continue;
        }
        if outcomes[i].ExecuteFails? {
          executed := AddIf(executed, file.name, outcomes[i].effect);
          return false;
        }
        executed := executed + [file.name];
        if outcomes[i].RecordFails? {
          recorded := AddIf(recorded, file.name, outcomes[i].effect);
          return false;
        }
        recorded := recorded + [file.name];
      }
      return true;
    }
  }

  /** One turn of the loop is a run: to the next file, or to the point of unlocking. */
  lemma {:induction false} FileIsRun(files: seq<File>, outcome: Outcome, n: nat, run: Run, r: nat) returns (more: Run)
    requires IsRun(files, n, run) && r < |After(files, n, run).phases|
    requires var p := After(files, n, run).phases[r];
             p.Holding? && p.step.At? && p.step.next < |files|
    ensures IsRun(files, n, more)
    ensures var s, s' := After(files, n, run), After(files, n, more);
            var step := s.phases[r].step;
            var logs := ApplyOne(files[step.next], outcome, step.done, s.executed, s.recorded);
            && s'.phases == s.phases[r := Holding(s.phases[r].token,
                                                  if logs.ok then At(step.next + 1, step.done) else Leaving)]
            && s'.executed == logs.executed && s'.recorded == logs.recorded && s'.lock == s.lock
  {
    hide IsRun, After;
    var s := After(files, n, run);
    var i, done := s.phases[r].step.next, s.phases[r].step.done;
    if files[i].name !in done && outcome.ReadFails? {
      more := Extend(files, n, run, Fail(r));
    } else if Skipped(files[i], done) {
      more := Extend(files, n, run, Skip(r));
    } else {
      match outcome
      case ExecuteFails(effect) =>
        more := Extend(files, n, run, Execute(r, false, effect));
      case RecordFails(effect) =>
        more := Extend(files, n, run, Execute(r, true, true));
        more := Extend(files, n, more, Record(r, false, effect));
      case Smooth =>
        more := Extend(files, n, run, Execute(r, true, true));
        more := Extend(files, n, more, Record(r, true, true));
    }
  }

  /** The loop is a run of the system: undisturbed from file i on, replica r comes to the point of
      unlocking with the logs that ApplyFrom gives. */
  lemma {:induction false} LoopIsRun(files: seq<File>, outcomes: seq<Outcome>, n: nat, run: Run, r: nat)
    returns (more: Run)
    requires IsRun(files, n, run) && r < |After(files, n, run).phases| && |outcomes| == |files|
    requires var p := After(files, n, run).phases[r];
             p.Holding? && p.step.At? && p.step.next <= |files|
    ensures IsRun(files, n, more)
    ensures var s, s' := After(files, n, run), After(files, n, more);
            var step := s.phases[r].step;
            var logs := ApplyFrom(files, outcomes, step.next, step.done, s.executed, s.recorded);
            && s'.phases == s.phases[r := Holding(s.phases[r].token, Leaving)]
            && s'.executed == logs.executed && s'.recorded == logs.recorded && s'.lock == s.lock
    decreases |files| - After(files, n, run).phases[r].step.next
  {
    hide IsRun, After, ApplyOne;
    var s := After(files, n, run);
    var i := s.phases[r].step.next;
    if i == |files| {
      more := Extend(files, n, run, Finish(r));
    } else {
      more := FileIsRun(files, outcomes[i], n, run, r);
      if After(files, n, more).phases[r].step.At? {
        more := LoopIsRun(files, outcomes, n, more, r);
      }
    }
  }

  /** Applying a complete schema again executes nothing, and fails only on a file that cannot be read. */
  lemma {:induction false} AppliedOnce(files: seq<File>, outcomes: seq<Outcome>, i: nat,
                                       executed: seq<string>, recorded: seq<string>)
    requires i <= |files| == |outcomes| && RecordedUpTo(files, recorded, |files|)
    ensures var logs := ApplyFrom(files, outcomes, i, (set v | v in recorded), executed, recorded);
            && logs.executed == executed && logs.recorded == recorded
            && (logs.ok <==> forall k :: i <= k < |files| && files[k].name !in recorded ==> !outcomes[k].ReadFails?)
    decreases |files| - i
  {
    if i < |files| {
      AppliedOnce(files, outcomes, i + 1, executed, recorded);
    }
  }

  // Takeover

  /** A replica that asks for the age of the lock goes on to drop it exactly if there is no table, no beat in
      it, or the last beat is too old, whoever owns the table. */
  lemma JudgedIff(files: seq<File>, s: State, r: nat, aged: bool)
    requires Enabled(files, s, Judge(r, aged))
    ensures var s' := Next(files, s, Judge(r, aged));
            && (s'.phases[r] == Dropping <==> s.lock == Free || s.lock.beats == 0 || aged)
            && (s'.phases[r] != Dropping ==> s'.phases[r] == Outside)
            && s'.lock == s.lock
  {
  }

  /** The last step of replica r was such a judgement. */
  ghost predicate JudgedStale(files: seq<File>, n: nat, run: Run, r: nat)
    requires IsRun(files, n, run)
    decreases run
  {
    run.Then? &&
    if run.last.r == r then
      var s := After(files, n, run.before);
      run.last.Judge? && (s.lock == Free || s.lock.beats == 0 || run.last.aged)
    else JudgedStale(files, n, run.before, r)
  }

  /** So nobody is ever about to drop a table in which it saw a beat that was not too old. */
  lemma {:induction false} DropsWereJudged(files: seq<File>, n: nat, run: Run, r: nat)
    requires IsRun(files, n, run) && r < |After(files, n, run).phases|
    requires After(files, n, run).phases[r] == Dropping
    ensures JudgedStale(files, n, run, r)
  {
    if run.Then? {
      var s := After(files, n, run.before);
      if run.last.r != r {
        TokenStep(files, s, run.last);
        DropsWereJudged(files, n, run.before, r);
      }
    }
  }

  /** A beat protects the table: who asks for its age before the beat is too old goes back to wait. */
  lemma BeatProtects(files: seq<File>, s: State, holder: nat, r: nat)
    requires holder < |s.phases| && Owns(s, holder) && r < |s.phases| && s.phases[r] == SawLock
    ensures Enabled(files, s, Beat(holder))
    ensures var s' := Next(files, s, Beat(holder));
            && Enabled(files, s', Judge(r, false)) && Owns(s', holder)
            && Next(files, s', Judge(r, false)) == s'.(phases := s'.phases[r := Outside])
  {
  }

  /** A lock that no live holder owns can be taken over: any replica that waits gets in by its own steps,
      if the last beat is too old when it looks, and harms nobody. */
  lemma TakeOver(files: seq<File>, n: nat, run: Run, r: nat) returns (more: Run)
    requires IsRun(files, n, run) && r < |After(files, n, run).phases|
    requires var s := After(files, n, run);
             s.phases[r] == Outside && forall q :: 0 <= q < |s.phases| ==> !Owns(s, q)
    ensures IsRun(files, n, more) && Alone(run, more, r)
    ensures var s, s' := After(files, n, run), After(files, n, more);
            && s'.phases == s.phases[r := Holding(s.tokens, Fresh)] && s'.lock == Table(s.tokens, 0)
            && s'.executed == s.executed && s'.recorded == s.recorded
    ensures HarmlessRun(files, n, run) ==> HarmlessRun(files, n, more)
  {
    hide IsRun, After, HarmlessRun;
    var s := After(files, n, run);
    more := run;
    if s.lock.Table? {
      var saw := Extend(files, n, run, Create(r));
      var judged := Extend(files, n, saw, Judge(r, true));
      var s' := After(files, n, judged);
      assert s' == s.(phases := s.phases[r := Dropping]);
      assert forall q :: 0 <= q < |s'.phases| ==> (Owns(s', q) ==> Owns(s, q));
      more := Extend(files, n, judged, DropStale(r));
      AloneTransitive(run, saw, judged, r);
      AloneTransitive(run, judged, more, r);
      assert After(files, n, more) == s.(phases := s.phases[r := Outside], lock := Free);
    } else {
      assert s.phases[r := Outside] == s.phases;
      assert Alone(run, run, r);
    }
    var free := more;
    more := Extend(files, n, free, Create(r));
    AloneTransitive(run, free, more, r);
  }

  /** From file i on, undisturbed and without a failure, a holder comes to the end of the list. */
  lemma {:induction false} FinishAlone(files: seq<File>, n: nat, run: Run, r: nat) returns (more: Run)
    requires IsRun(files, n, run) && r < |After(files, n, run).phases|
    requires var p := After(files, n, run).phases[r];
             p.Holding? && p.step.At? && p.step.next <= |files|
    ensures IsRun(files, n, more) && Alone(run, more, r) && more.Then? && more.last == Finish(r)
    ensures HarmlessRun(files, n, run) ==> HarmlessRun(files, n, more)
    ensures var s, s' := After(files, n, run), After(files, n, more);
            s'.phases == s.phases[r := Holding(s.phases[r].token, Leaving)] && s'.lock == s.lock
    decreases |files| - After(files, n, run).phases[r].step.next
  {
    hide IsRun, After, HarmlessRun, Alone;
    var p := After(files, n, run).phases[r];
    var i := p.step.next;
    if i == |files| {
      more := Extend(files, n, run, Finish(r));
    } else {
      var next := run;
      if Skipped(files[i], p.step.done) {
        next := Extend(files, n, run, Skip(r));
      } else {
        var ran := Extend(files, n, run, Execute(r, true, true));
        next := Extend(files, n, ran, Record(r, true, true));
        AloneTransitive(run, ran, next, r);
      }
      more := FinishAlone(files, n, next, r);
      AloneTransitive(run, next, more, r);
    }
  }

  /** And it finishes what the dead holder left: from every reachable state in which no live holder owns the
      lock, a waiting replica can go on by its own steps until it has been through the whole list, every
      version is executed and recorded, and it still owns the lock. */
  lemma TakeOverFinishes(files: seq<File>, n: nat, run: Run, r: nat) returns (more: Run)
    requires Listing(files) && IsRun(files, n, run) && r < |After(files, n, run).phases|
    requires var s := After(files, n, run);
             s.phases[r] == Outside && forall q :: 0 <= q < |s.phases| ==> !Owns(s, q)
    ensures IsRun(files, n, more) && Alone(run, more, r) && more.Then? && more.last == Finish(r)
    ensures HarmlessRun(files, n, run) ==> HarmlessRun(files, n, more)
    ensures var s' := After(files, n, more);
            && |s'.phases| == |After(files, n, run).phases| && Owns(s', r)
            && forall f :: f in files && !f.blank ==> f.name in s'.recorded && f.name in s'.executed
  {
    hide IsRun, After, HarmlessRun, Alone;
    var took := TakeOver(files, n, run, r);
    var prepared := Extend(files, n, took, Prepare(r));
    var read := Extend(files, n, prepared, Read(r));
    more := FinishAlone(files, n, read, r);
    AloneTransitive(run, took, prepared, r);
    AloneTransitive(run, prepared, read, r);
    AloneTransitive(run, read, more, r);
    FinishedIsComplete(files, n, more);
  }

  /** Who is done lets the next one in at once. */
  lemma UnlockLetsIn(files: seq<File>, s: State, holder: nat, r: nat)
    requires holder < |s.phases| && s.phases[holder].Holding? && s.phases[holder].step == Leaving
    requires r < |s.phases| && r != holder && s.phases[r] == Outside
    ensures Enabled(files, s, Unlock(holder, true))
    ensures var s' := Next(files, s, Unlock(holder, true));
            Enabled(files, s', Create(r)) && Owns(Next(files, s', Create(r)), r)
  {
  }
}
