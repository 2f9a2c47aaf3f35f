/** What a process of the compiler cache comes to when nobody disturbs it, and what no run ever leaves behind
    (CCache/ccache.c, CCache/util.c). */
module CacheRuns {
  import opened Wrappers
  import opened CacheProtocol

  type Dir = map<Path, Inode>

  /** Only `p` acts, and its calls succeed. */
  predicate Alone(p: Pid, events: seq<Event>) {
    forall i :: 0 <= i < |events| ==> events[i].Act? && events[i].p == p && events[i].ok
  }

  ghost predicate Both(s: State) {
    ObjFile in s.dir && ErrFile in s.dir
  }

  /** The object begins with the two bytes of a gzip file. */
  ghost predicate Zipped(w: World) {
    |w.obj| >= 2 && w.obj[0] == 31 && w.obj[1] == 139
  }

  /** How many more steps a process that is not disturbed takes at most. */
  function Left(w: World, pr: Proc): nat {
    var d, o := |w.diag|, |w.obj|;
    match pr
    case Hit(_, _, _) => 0
    case Failed => 0
    case Purge(_) => 1
    case Emit(_, _, _, out) => if |out| < d then d - |out| + 1 else 1
    case Fetching(_, _, got, _) => (if |got| < o then o - |got| else 0) + d + 2
    case Fetch(_, _) => o + d + 3
    case Checked(_, _) => o + d + 4
    case Opened(_, _) => o + d + 5
    case Lookup(_) => o + d + 6
    case DropErr => o + d + 7
    case LinkErr => o + d + 8
    case Renaming(_) => o + d + 9
    case Clearing(_) => o + d + 10
    case Closing(_) => o + d + 11
    case Copying(_, k) => (if k < o then o - k else 0) + o + d + 12
    case MakeTemp => 2 * o + d + 13
    case Commit => 2 * o + d + 14
    case Compiling(k) => (if k < d then d - k else 0) + 2 * o + d + 15
    case Compile => 2 * o + 2 * d + 16
  }

  predicate Closer(left: nat, left': nat) {
    if left == 0 then left' == 0 else left' < left
  }

  // ----- a first lookup that is served

  /** The first lookup of `p`, with both files visible. */
  ghost predicate Finding(w: World, s: State, p: Pid, dir: Dir) {
    && p in s.procs && Both(s) && p !in w.recache && !Zipped(w) && s.dir == dir
    && match s.procs[p]
       case Lookup(first) => first
       case Opened(first, _) => first
       case Checked(first, _) => first
       case Fetch(_, _) => true
       case Fetching(_, _, _, _) => true
       case Emit(first, _, _, _) => first
       case Hit(first, _, _) => first
       case _ => false
  }

  lemma FindingStep(w: World, s: State, p: Pid, dir: Dir, chunk: nat)
    requires Inv(w, s) && Finding(w, s, p, dir)
    ensures var s' := Step(w, s, p, chunk, true);
            Finding(w, s', p, dir) && Closer(Left(w, s.procs[p]), Left(w, s'.procs[p]))
  {
    assert ProcOk(w, s, p, s.procs[p]);
  }

  lemma {:induction false} FindingRun(w: World, s: State, p: Pid, dir: Dir, alone: seq<Event>)
    requires Inv(w, s) && Finding(w, s, p, dir) && Alone(p, alone)
    ensures var s' := Run(w, s, alone);
            Inv(w, s') && Finding(w, s', p, dir) && Left(w, s'.procs[p]) <= Left(w, s.procs[p])
            && (Left(w, s'.procs[p]) == 0 || Left(w, s'.procs[p]) + |alone| <= Left(w, s.procs[p]))
    decreases |alone|
  {
    hide Inv, Finding, Left, Step;
    if alone != [] {
      var e := alone[|alone| - 1];
      var s1 := Run(w, s, alone[..|alone| - 1]);
      FindingRun(w, s, p, dir, alone[..|alone| - 1]);
      FindingHere(w, s1, p, dir);
      FindingStep(w, s1, p, dir, e.chunk);
      NextKeeps(w, s1, e);
    }
  }

  lemma FindingHere(w: World, s: State, p: Pid, dir: Dir)
    requires Finding(w, s, p, dir)
    ensures p in s.procs
  {
  }

  /** While the object and its diagnostics are visible, a first lookup that is not disturbed delivers both, however
      it reads them, within a bounded number of steps, and leaves the cache as it was; it never compiles -- unless it
      was told to, or the object begins with the two bytes of a compressed one. */
  lemma PublishedIsFound(w: World, before: seq<Event>, p: Pid, alone: seq<Event>)
    requires var s := Run(w, INIT, before); Both(s) && p !in s.procs
    requires p !in w.recache && !Zipped(w)
    requires Alone(p, alone) && |alone| >= |w.obj| + |w.diag| + 6
    ensures var s0 := Run(w, INIT, before);
            var s := Run(w, Next(w, s0, Start(p)), alone);
            p in s.procs && s.procs[p] == Hit(true, Some(w.obj), w.diag) && s.dir == s0.dir
  {
    hide Run;
    RunKeeps(w, INIT, before);
    var s0 := Run(w, INIT, before);
    StartKeeps(w, s0, p);
    FindingRun(w, Next(w, s0, Start(p)), p, s0.dir, alone);
    var s := Run(w, Next(w, s0, Start(p)), alone);
    assert ProcOk(w, s, p, s.procs[p]);
  }

  /** A read that fails is tried once more from the start: with both files still visible, the second attempt serves. */
  lemma FailedFetchIsRetried(w: World, s: State, p: Pid, chunk: nat, alone: seq<Event>)
    requires Inv(w, s) && Both(s) && p in s.procs && s.procs[p].Fetching? && !s.procs[p].retry
    requires p !in w.recache && !Zipped(w) && Alone(p, alone) && |alone| >= |w.obj| + |w.diag| + 3
    ensures var s' := Run(w, Next(w, s, Act(p, chunk, false)), alone);
            p in s'.procs && s'.procs[p] == Hit(true, Some(w.obj), w.diag)
  {
    hide Run;
    var s1 := Next(w, s, Act(p, chunk, false));
    NextKeeps(w, s, Act(p, chunk, false));
    FindingRun(w, s1, p, s.dir, alone);
    var s' := Run(w, s1, alone);
    assert ProcOk(w, s', p, s'.procs[p]);
  }

  /** When the second attempt fails as well, or the object is gone, the diagnostics are unlinked and `p` compiles. */
  lemma FetchGivesUp(w: World, s: State, p: Pid, e: Event, e': Event)
    requires Inv(w, s) && p in s.procs && e.Act? && e'.Act? && e.p == p == e'.p
    requires (s.procs[p].Fetching? && s.procs[p].retry && !e.ok) || (s.procs[p].Fetch? && ObjFile !in s.dir)
    ensures var s' := Next(w, Next(w, s, e), e'); s' == s.(dir := s.dir - {ErrFile}, procs := s.procs[p := Compile])
  {
  }

  // ----- a process that publishes

  /** The object that is visible is a copy not older than the `n`th. */
  ghost predicate Own(s: State, n: nat) {
    ObjFile in s.dir && s.dir[ObjFile].Copy? && s.dir[ObjFile].n >= n
  }

  /** `p` is to publish diagnostics, unless there are some: in either case `d` will be visible. */
  ghost predicate Early(s: State, p: Pid, n: nat, d: Inode) {
    TmpErr(p) in s.dir && n <= s.next && d == if ErrFile in s.dir then s.dir[ErrFile] else Diag(p)
  }

  ghost predicate Late(s: State, p: Pid, n: nat, d: Inode) {
    TmpErr(p) !in s.dir && ErrFile in s.dir && s.dir[ErrFile] == d && Own(s, n)
  }

  /** `p` is publishing, or looking up what it has published: a copy made after the `n`th, and the diagnostics `d`. */
  ghost predicate Publishing(w: World, s: State, p: Pid, n: nat, d: Inode) {
    && p in s.procs
    && match s.procs[p]
       case Compile => n <= s.next && d == if ErrFile in s.dir then s.dir[ErrFile] else Diag(p)
       case Compiling(_) => Early(s, p, n, d)
       case Commit => Early(s, p, n, d)
       case MakeTemp => Early(s, p, n, d)
       case Copying(tmp, _) => Early(s, p, n, d) && TmpObj(tmp) in s.dir && tmp >= n
       case Closing(tmp) => Early(s, p, n, d) && TmpObj(tmp) in s.dir && tmp >= n
       case Clearing(tmp) => Early(s, p, n, d) && TmpObj(tmp) in s.dir && tmp >= n
       case Renaming(tmp) => Early(s, p, n, d) && TmpObj(tmp) in s.dir && tmp >= n
       case LinkErr => Early(s, p, n, d) && Own(s, n)
       case DropErr => TmpErr(p) in s.dir && ErrFile in s.dir && s.dir[ErrFile] == d && Own(s, n)
       case Lookup(first) => !first && Late(s, p, n, d)
       case Opened(first, _) => !first && Late(s, p, n, d)
       case Checked(first, _) => !first && Late(s, p, n, d)
       case Emit(first, _, _, _) => !first && Late(s, p, n, d) && !Zipped(w)
       case Hit(first, _, _) => !first && Late(s, p, n, d) && !Zipped(w)
       case Purge(first) => !first && Late(s, p, n, d) && Zipped(w)
       case Failed => TmpErr(p) !in s.dir && Own(s, n) && ErrFile !in s.dir && Zipped(w)
       case _ => false
  }

  lemma PublishingStep(w: World, s: State, p: Pid, n: nat, d: Inode, chunk: nat)
    requires Inv(w, s) && Publishing(w, s, p, n, d)
    ensures var s' := Step(w, s, p, chunk, true);
            Publishing(w, s', p, n, d) && Closer(Left(w, s.procs[p]), Left(w, s'.procs[p]))
  {
    if InFromCache(s.procs[p]) {
      SecondLookupStep(w, s, p, n, d, chunk);
    } else {
      assert ProcOk(w, s, p, s.procs[p]);
      PublishStep(w, s, p, n, d, chunk);
    }
  }

  lemma SecondLookupStep(w: World, s: State, p: Pid, n: nat, d: Inode, chunk: nat)
    requires Inv(w, s) && Publishing(w, s, p, n, d) && InFromCache(s.procs[p])
    ensures var s' := FromCacheStep(w, s, p, s.procs[p], chunk, true);
            Publishing(w, s', p, n, d) && Closer(Left(w, s.procs[p]), Left(w, s'.procs[p]))
  {
    assert ProcOk(w, s, p, s.procs[p]);
  }

  lemma PublishStep(w: World, s: State, p: Pid, n: nat, d: Inode, chunk: nat)
    requires p in s.procs && DirOk(w, s) && Publishing(w, s, p, n, d)
    requires !InFromCache(s.procs[p]) && ProcOk(w, s, p, s.procs[p])
    ensures var s' := ToCacheStep(w, s, p, s.procs[p], chunk, true);
            Publishing(w, s', p, n, d) && Closer(Left(w, s.procs[p]), Left(w, s'.procs[p]))
  {
    hide Publishing, Left, ToCacheStep, ProcOk, DirOk;
    match s.procs[p]
    case Compile => CompileStep(w, s, p, n, d, chunk);
    case Compiling(_) => CompileStep(w, s, p, n, d, chunk);
    case Commit => CompileStep(w, s, p, n, d, chunk);
    case MakeTemp => CompileStep(w, s, p, n, d, chunk);
    case Copying(_, _) => CopyStep(w, s, p, n, d, chunk);
    case Closing(_) => CopyStep(w, s, p, n, d, chunk);
    case Clearing(_) => CopyStep(w, s, p, n, d, chunk);
    case Renaming(_) => RenameStep(w, s, p, n, d, chunk);
    case _ => LinkStep(w, s, p, n, d, chunk);
  }

  lemma CompileStep(w: World, s: State, p: Pid, n: nat, d: Inode, chunk: nat)
    requires DirOk(w, s) && Publishing(w, s, p, n, d) && ProcOk(w, s, p, s.procs[p])
    requires var pr := s.procs[p]; pr.Compile? || pr.Compiling? || pr.Commit? || pr.MakeTemp?
    ensures var s' := ToCacheStep(w, s, p, s.procs[p], chunk, true);
            Publishing(w, s', p, n, d) && Closer(Left(w, s.procs[p]), Left(w, s'.procs[p]))
  {
  }

  lemma CopyStep(w: World, s: State, p: Pid, n: nat, d: Inode, chunk: nat)
    requires DirOk(w, s) && Publishing(w, s, p, n, d) && ProcOk(w, s, p, s.procs[p])
    requires var pr := s.procs[p]; pr.Copying? || pr.Closing? || pr.Clearing?
    ensures var s' := ToCacheStep(w, s, p, s.procs[p], chunk, true);
            Publishing(w, s', p, n, d) && Closer(Left(w, s.procs[p]), Left(w, s'.procs[p]))
  {
  }

  lemma RenameStep(w: World, s: State, p: Pid, n: nat, d: Inode, chunk: nat)
    requires DirOk(w, s) && Publishing(w, s, p, n, d) && ProcOk(w, s, p, s.procs[p])
    requires var pr := s.procs[p]; pr.Renaming?
    ensures var s' := ToCacheStep(w, s, p, s.procs[p], chunk, true);
            Publishing(w, s', p, n, d) && Closer(Left(w, s.procs[p]), Left(w, s'.procs[p]))
  {
  }

  lemma LinkStep(w: World, s: State, p: Pid, n: nat, d: Inode, chunk: nat)
    requires DirOk(w, s) && Publishing(w, s, p, n, d) && ProcOk(w, s, p, s.procs[p])
    requires var pr := s.procs[p]; pr.LinkErr? || pr.DropErr? || pr.Hit? || pr.Failed?
    ensures var s' := ToCacheStep(w, s, p, s.procs[p], chunk, true);
            Publishing(w, s', p, n, d) && Closer(Left(w, s.procs[p]), Left(w, s'.procs[p]))
  {
  }

  lemma {:induction false} PublishingRun(w: World, s: State, p: Pid, n: nat, d: Inode, alone: seq<Event>)
    requires Inv(w, s) && Publishing(w, s, p, n, d) && Alone(p, alone)
    ensures var s' := Run(w, s, alone);
            Inv(w, s') && Publishing(w, s', p, n, d) && Left(w, s'.procs[p]) <= Left(w, s.procs[p])
            && (Left(w, s'.procs[p]) == 0 || Left(w, s'.procs[p]) + |alone| <= Left(w, s.procs[p]))
    decreases |alone|
  {
    hide Inv, Publishing, Left, Step;
    if alone != [] {
      var e := alone[|alone| - 1];
      var s1 := Run(w, s, alone[..|alone| - 1]);
      PublishingRun(w, s, p, n, d, alone[..|alone| - 1]);
      PublishingHere(w, s1, p, n, d);
      PublishingStep(w, s1, p, n, d, e.chunk);
      NextKeeps(w, s1, e);
    }
  }

  lemma PublishingHere(w: World, s: State, p: Pid, n: nat, d: Inode)
    requires Publishing(w, s, p, n, d)
    ensures p in s.procs
  {
  }

  /** A process that missed and is not disturbed ends, within a bounded number of steps, with a new copy of the object
      visible, its own diagnostics (or those another process had published), no temporary file of its own left, and
      its second lookup served -- unless the object begins with the two bytes of a compressed one: then the second
      lookup takes the diagnostics away again and fails. */
  lemma MissIsPublished(w: World, s0: State, p: Pid, alone: seq<Event>)
    requires Inv(w, s0) && p in s0.procs && s0.procs[p] == Compile
    requires Alone(p, alone) && |alone| >= 2 * |w.obj| + 2 * |w.diag| + 16
    ensures var s := Run(w, s0, alone);
            && p in s.procs && TmpErr(p) !in s.dir
            && ObjFile in s.dir && s.dir[ObjFile].Copy? && s.dir[ObjFile].n >= s0.next
            && (!Zipped(w) ==> s.procs[p] == Hit(false, None, w.diag) && ErrFile in s.dir
                               && s.dir[ErrFile] == if ErrFile in s0.dir then s0.dir[ErrFile] else Diag(p))
            && (Zipped(w) ==> s.procs[p] == Failed && ErrFile !in s.dir)
  {
    hide Run;
    var d := if ErrFile in s0.dir then s0.dir[ErrFile] else Diag(p);
    PublishingRun(w, s0, p, s0.next, d, alone);
    var s := Run(w, s0, alone);
    assert ProcOk(w, s, p, s.procs[p]);
  }

  // ----- a first lookup that is turned away

  lemma {:induction false} RunOn(w: World, s: State, a: seq<Event>, b: seq<Event>)
    ensures Run(w, s, a + b) == Run(w, Run(w, s, a), b)
    decreases |b|
  {
    hide Next;
    if b == [] {
      assert a + b == a;
    } else {
      assert (a + b)[..|a + b| - 1] == a + b[..|b| - 1];
      RunOn(w, s, a, b[..|b| - 1]);
    }
  }

  lemma RunFirst(w: World, s: State, events: seq<Event>)
    requires events != []
    ensures Run(w, s, events) == Run(w, Next(w, s, events[0]), events[1..])
  {
    assert events == events[..1] + events[1..];
    RunOn(w, s, events[..1], events[1..]);
    assert Run(w, s, events[..1]) == Next(w, s, events[0]);
  }

  /** How many steps it takes a first lookup to turn to compiling. */
  function Turns(dir: Dir): nat {
    if ErrFile !in dir then 1 else if ObjFile !in dir then 3 else 4
  }

  /** A file is missing, the process is to recache, or the object looks compressed: the diagnostics go, nothing else. */
  lemma TurnedAway(w: World, s: State, p: Pid, alone: seq<Event>)
    requires Inv(w, s) && p in s.procs && s.procs[p] == Lookup(true) && Alone(p, alone) && |alone| == Turns(s.dir)
    requires !Both(s) || p in w.recache || Zipped(w)
    ensures Run(w, s, alone) == s.(dir := s.dir - {ErrFile}, procs := s.procs[p := Compile])
  {
    hide Inv, Run;
    RunFirst(w, s, alone);
    var s1, rest := Next(w, s, alone[0]), alone[1..];
    RunNone(w, s1);
    if ErrFile !in s.dir {
      assert rest == [] && s.dir - {ErrFile} == s.dir;
    } else {
      assert s1 == At(s, p, Opened(true, s.dir[ErrFile]));
      OpenedTurns(w, s, s1, p, rest);
    }
  }

  lemma RunNone(w: World, s: State)
    ensures Run(w, s, []) == s
  {
  }

  lemma OpenedTurns(w: World, s: State, s1: State, p: Pid, alone: seq<Event>)
    requires Inv(w, s) && p in s.procs && ErrFile in s.dir && s1 == At(s, p, Opened(true, s.dir[ErrFile]))
    requires Alone(p, alone) && |alone| == Turns(s.dir) - 1
    requires !Both(s) || p in w.recache || Zipped(w)
    ensures Run(w, s1, alone) == s.(dir := s.dir - {ErrFile}, procs := s.procs[p := Compile])
  {
    hide Run, Inv;
    RunFirst(w, s1, alone);
    var s2, rest := Next(w, s1, alone[0]), alone[1..];
    if ObjFile in s.dir {
      ObjectIs(w, s);
      assert s2 == At(s, p, Checked(true, s.dir[ErrFile]));
      RunFirst(w, s2, rest);
      var s3, last := Next(w, s2, rest[0]), rest[1..];
      assert s3 == At(s, p, Purge(true));
      Purged(w, s, s3, p, last);
    } else {
      assert s2 == At(s, p, Purge(true));
      Purged(w, s, s2, p, rest);
    }
  }

  lemma Purged(w: World, s: State, s1: State, p: Pid, last: seq<Event>)
    requires p in s.procs && s1 == At(s, p, Purge(true)) && Alone(p, last) && |last| == 1
    ensures Run(w, s1, last) == s.(dir := s.dir - {ErrFile}, procs := s.procs[p := Compile])
  {
    assert last[..0] == [];
  }

  lemma ObjectIs(w: World, s: State)
    requires Inv(w, s) && ObjFile in s.dir
    ensures Content(s, s.dir[ObjFile]) == w.obj
  {
  }

  /** A first lookup left alone that finds a file missing, or that was told to recache, compiles: a copy made after it
      came and its own diagnostics take the place of what was there, and its second lookup is served. */
  lemma TurnedAwayPublishes(w: World, before: seq<Event>, p: Pid, alone: seq<Event>)
    requires var s := Run(w, INIT, before); p !in s.procs && (ErrFile !in s.dir || ObjFile !in s.dir || p in w.recache)
    requires !Zipped(w)
    requires Alone(p, alone) && |alone| >= 4 + 2 * |w.obj| + 2 * |w.diag| + 16
    ensures var s0 := Run(w, INIT, before);
            var s := Run(w, Next(w, s0, Start(p)), alone);
            && p in s.procs && s.procs[p] == Hit(false, None, w.diag) && TmpErr(p) !in s.dir
            && ErrFile in s.dir && s.dir[ErrFile] == Diag(p)
            && ObjFile in s.dir && s.dir[ObjFile].Copy? && s.dir[ObjFile].n >= s0.next
  {
    hide Run, Inv;
    var s0 := Run(w, INIT, before);
    InitOk(w);
    RunKeeps(w, INIT, before);
    StartKeeps(w, s0, p);
    var s1 := Next(w, s0, Start(p));
    var away, rest := alone[..Turns(s1.dir)], alone[Turns(s1.dir)..];
    assert alone == away + rest;
    RunOn(w, s1, away, rest);
    TurnedAway(w, s1, p, away);
    RunKeeps(w, s1, away);
    MissIsPublished(w, Run(w, s1, away), p, rest);
  }

  lemma InitOk(w: World)
    ensures Inv(w, INIT)
  {
  }

  // ----- recaching

  /** `pr` is being served, or has been, by its first lookup. */
  predicate Served(pr: Proc) {
    pr.Fetch? || pr.Fetching? || (pr.Emit? && pr.first) || (pr.Hit? && pr.first)
  }

  ghost predicate RecacheObeyed(w: World, s: State) {
    forall p :: p in s.procs && Served(s.procs[p]) ==> p !in w.recache
  }

  lemma RecacheStep(w: World, s: State, e: Event)
    requires RecacheObeyed(w, s)
    ensures RecacheObeyed(w, Next(w, s, e))
  {
    match e
    case Act(p, chunk, ok) =>
      if p in s.procs {
        if InFromCache(s.procs[p]) { LookupServes(w, s, p, chunk, ok); } else { PublishServesNot(w, s, p, chunk, ok); }
      }
    case _ =>
  }

  lemma LookupServes(w: World, s: State, p: Pid, chunk: nat, ok: bool)
    requires RecacheObeyed(w, s) && p in s.procs && InFromCache(s.procs[p])
    ensures RecacheObeyed(w, FromCacheStep(w, s, p, s.procs[p], chunk, ok))
  {
  }

  lemma PublishServesNot(w: World, s: State, p: Pid, chunk: nat, ok: bool)
    requires RecacheObeyed(w, s) && p in s.procs && !InFromCache(s.procs[p])
    ensures RecacheObeyed(w, ToCacheStep(w, s, p, s.procs[p], chunk, ok))
  {
  }

  lemma {:induction false} RecacheRun(w: World, events: seq<Event>)
    ensures RecacheObeyed(w, Run(w, INIT, events))
    decreases |events|
  {
    hide RecacheObeyed, Next;
    if events == [] {
      NobodyServed(w);
    } else {
      RecacheRun(w, events[..|events| - 1]);
      RecacheStep(w, Run(w, INIT, events[..|events| - 1]), events[|events| - 1]);
    }
  }

  lemma NobodyServed(w: World)
    ensures RecacheObeyed(w, INIT)
  {
  }

  /** In no run does a process that was told to recache take what the cache has. */
  lemma RecacheNeverHits(w: World, events: seq<Event>, p: Pid)
    requires var s := Run(w, INIT, events); p in s.procs && s.procs[p].Hit? && s.procs[p].first
    ensures p !in w.recache
  {
    hide Run;
    RecacheRun(w, events);
  }

  // ----- what no run leaves behind

  /** `pr` is working on the temporary copy `n`. */
  predicate Holds(pr: Proc, n: nat) {
    (pr.Copying? || pr.Closing? || pr.Clearing? || pr.Renaming?) && pr.tmp == n
  }

  /** `pr` has begun to compile and not yet put its diagnostics in place. */
  predicate HasDiag(pr: Proc) {
    || pr.Compiling? || pr.Commit? || pr.MakeTemp? || pr.Copying? || pr.Closing? || pr.Clearing? || pr.Renaming?
    || pr.LinkErr? || pr.DropErr? || pr.Failed?
  }

  ghost predicate Owned(s: State) {
    && (forall n :: TmpObj(n) in s.dir ==> exists p :: p in s.procs && Holds(s.procs[p], n))
    && (forall p :: TmpErr(p) in s.dir ==> p in s.procs && HasDiag(s.procs[p]))
  }

  lemma OwnedStep(w: World, s: State, e: Event)
    requires Owned(s)
    ensures Owned(Next(w, s, e))
  {
    hide Owned, FromCacheStep, ToCacheStep;
    match e
    case Start(p) => if p !in s.procs { OwnedStarted(s, p); }
    case Clean(path) => OwnedCleaned(s, path);
    case Act(p, chunk, ok) =>
      if p in s.procs {
        if InFromCache(s.procs[p]) { OwnedLookup(w, s, p, chunk, ok); } else { OwnedPublish(w, s, p, chunk, ok); }
      }
  }

  lemma OwnedStarted(s: State, p: Pid)
    requires Owned(s) && p !in s.procs
    ensures Owned(At(s, p, Lookup(true)))
  {
    OwnedOn(s, At(s, p, Lookup(true)), p);
  }

  lemma OwnedCleaned(s: State, path: Path)
    requires Owned(s)
    ensures Owned(Unlink(s, path))
  {
  }

  /** A step of `p` that takes no temporary name of its own without going on to hold it. */
  lemma OwnedOn(s: State, s': State, p: Pid)
    requires Owned(s) && p in s'.procs && s'.procs == s.procs[p := s'.procs[p]]
    requires forall n :: TmpObj(n) in s'.dir ==> TmpObj(n) in s.dir || Holds(s'.procs[p], n)
    requires forall q :: TmpErr(q) in s'.dir ==> TmpErr(q) in s.dir || q == p
    requires TmpErr(p) in s'.dir ==> HasDiag(s'.procs[p])
    requires forall n :: TmpObj(n) in s'.dir && p in s.procs && Holds(s.procs[p], n) ==> Holds(s'.procs[p], n)
    ensures Owned(s')
  {
    forall n | TmpObj(n) in s'.dir ensures exists q :: q in s'.procs && Holds(s'.procs[q], n) {
      if Holds(s'.procs[p], n) {
      } else {
        var q :| q in s.procs && Holds(s.procs[q], n);
        assert q in s'.procs && Holds(s'.procs[q], n);
      }
    }
  }

  lemma OwnedLookup(w: World, s: State, p: Pid, chunk: nat, ok: bool)
    requires Owned(s) && p in s.procs && InFromCache(s.procs[p])
    ensures Owned(FromCacheStep(w, s, p, s.procs[p], chunk, ok))
  {
    OwnedOn(s, FromCacheStep(w, s, p, s.procs[p], chunk, ok), p);
  }

  lemma OwnedPublish(w: World, s: State, p: Pid, chunk: nat, ok: bool)
    requires Owned(s) && p in s.procs && !InFromCache(s.procs[p])
    ensures Owned(ToCacheStep(w, s, p, s.procs[p], chunk, ok))
  {
    OwnedOn(s, ToCacheStep(w, s, p, s.procs[p], chunk, ok), p);
  }

  lemma {:induction false} OwnedRun(w: World, events: seq<Event>)
    ensures Owned(Run(w, INIT, events))
    decreases |events|
  {
    hide Next;
    if events != [] {
      hide Owned;
      OwnedRun(w, events[..|events| - 1]);
      OwnedStep(w, Run(w, INIT, events[..|events| - 1]), events[|events| - 1]);
    }
  }

  /** In every run: a temporary copy that is there belongs to a process still working on it, so none is left once all
      are done; temporary diagnostics are left only by processes that are publishing or that failed. */
  lemma NoTemporariesLeft(w: World, events: seq<Event>)
    ensures var s := Run(w, INIT, events);
            && (forall n :: TmpObj(n) in s.dir ==> exists p :: p in s.procs && Holds(s.procs[p], n))
            && ((forall p :: p in s.procs ==> s.procs[p].Hit? || s.procs[p].Failed?) ==>
                  forall n :: TmpObj(n) !in s.dir)
            && (forall p :: TmpErr(p) in s.dir ==> p in s.procs && !s.procs[p].Hit? && !s.procs[p].Lookup?)
  {
    hide Run;
    OwnedRun(w, events);
  }

  /** A call that fails while `p` compiles or copies ends it: the temporary file it was writing is gone (except for the
      diagnostics when the copy fails), and what the cache shows is as it was. */
  lemma FailureEnds(w: World, s: State, p: Pid, chunk: nat)
    requires p in s.procs
    requires var pr := s.procs[p];
             pr.Compile? || pr.Compiling? || pr.MakeTemp? || (pr.Copying? && pr.k < |w.obj|) || pr.Closing?
    ensures var s', pr := Next(w, s, Act(p, chunk, false)), s.procs[p];
            && s'.procs == s.procs[p := Failed] && s'.files == s.files
            && (pr.Compile? || pr.MakeTemp? ==> s'.dir == s.dir)
            && (pr.Compiling? ==> s'.dir == s.dir - {TmpErr(p)})
            && (pr.Copying? || pr.Closing? ==> s'.dir == s.dir - {TmpObj(pr.tmp)})
  {
  }

  /** Between the compilation and the rename no object is visible, unless another process shows one meanwhile. */
  lemma OldObjectGoes(w: World, s: State, p: Pid, chunk: nat, ok: bool)
    requires p in s.procs && (s.procs[p].Commit? || s.procs[p].Clearing?)
    ensures Next(w, s, Act(p, chunk, ok)).dir == s.dir - {ObjFile}
  {
  }
}
