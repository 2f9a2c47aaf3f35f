/** The compiler cache shared by concurrent processes: `from_cache`, `to_cache` (CCache/ccache.c) and the file-system
    steps under them (CCache/util.c, execute.c), with the cleaner unlinking whatever it likes (CCache/cleanup.c).

    One event is one system call of one process, or one unlink of the cleaner.  The state follows one cache key:
    its object file, its `.stderr` file and the temporary files.  The diagnostics grow under their temporary name
    while the compiler runs, the object while it is copied; either name can go meanwhile.  The result of compiling
    the key is the same for every process (`World`); temporary names are fresh; reads do not fail.
 */
module CacheProtocol {
  import opened Wrappers

  type Bytes = seq<nat>
  type Pid = nat

  /** What a compilation of the key yields, and the processes run with CCACHE_RECACHE. */
  datatype World = World(obj: Bytes, diag: Bytes, recache: set<Pid>)

  datatype Path =
    | ObjFile              // hashname
    | ErrFile              // hashname.stderr
    | TmpObj(n: nat)       // hashname.XXXXXX of copy_file
    | TmpErr(p: Pid)       // tmp.stderr.<host>.<pid>

  /** What a name stands for: the captured diagnostics of a process, or a copy of an object. */
  datatype Inode = Diag(p: Pid) | Copy(n: nat)

  datatype Proc =
    // from_cache
    | Lookup(first: bool)
    | Opened(first: bool, err: Inode)
    | Checked(first: bool, err: Inode)
    | Fetch(err: Inode, retry: bool)
    | Fetching(err: Inode, src: nat, got: Bytes, retry: bool)
    | Emit(first: bool, delivered: Option<Bytes>, err: Inode, out: Bytes)
    | Hit(first: bool, delivered: Option<Bytes>, out: Bytes)
    | Purge(first: bool)
    // to_cache
    | Compile
    | Compiling(k: nat)
    | Commit
    | MakeTemp
    | Copying(tmp: nat, k: nat)
    | Closing(tmp: nat)
    | Clearing(tmp: nat)
    | Renaming(tmp: nat)
    | LinkErr
    | DropErr
    | Failed

  datatype State = State(dir: map<Path, Inode>, files: map<Inode, Bytes>, next: nat, procs: map<Pid, Proc>)

  /** `chunk` is the size of a read or write, `ok` whether a call that may fail succeeds. */
  datatype Event = Start(p: Pid) | Act(p: Pid, chunk: nat, ok: bool) | Clean(path: Path)

  const INIT := State(map[], map[], 0, map[])

  /** What a file is meant to hold in the end. */
  function Wanted(w: World, i: Inode): Bytes {
    match i case Diag(_) => w.diag case Copy(_) => w.obj
  }

  function Content(s: State, i: Inode): Bytes {
    if i in s.files then s.files[i] else []
  }

  /** The next read of a file of which `got` was read before, or the next write of which `got` was written. */
  function Onward(got: Bytes, all: Bytes, chunk: nat): Bytes
    requires |got| < |all|
  {
    got + all[|got|..Min(|got| + chunk + 1, |all|)]
  }

  /** test_if_compressed */
  predicate Compressed(b: Bytes) {
    |b| >= 2 && b[0] == 0x1f && b[1] == 0x8b
  }

  function Unlink(s: State, path: Path): State {
    s.(dir := s.dir - {path})
  }

  function At(s: State, p: Pid, pr: Proc): State {
    s.(procs := s.procs[p := pr])
  }

  /** from_cache returns: a first pass goes on to compile, a second one gives up. */
  function Miss(s: State, p: Pid, first: bool): State {
    At(s, p, if first then Compile else Failed)
  }

  function FromCacheStep(w: World, s: State, p: Pid, pr: Proc, chunk: nat, ok: bool): State {
    match pr
    case Lookup(first) =>
      if ErrFile in s.dir then At(s, p, Opened(first, s.dir[ErrFile])) else Miss(s, p, first)
    case Opened(first, err) =>
      if ObjFile in s.dir then At(s, p, Checked(first, err)) else At(s, p, Purge(first))
    case Checked(first, err) =>
      if (first && p in w.recache) || (ObjFile in s.dir && Compressed(Content(s, s.dir[ObjFile]))) then At(s, p, Purge(first))
      else if first then At(s, p, Fetch(err, false))
      else At(s, p, Emit(false, None, err, []))
    case Fetch(err, retry) =>
      if ObjFile in s.dir && s.dir[ObjFile].Copy? then At(s, p, Fetching(err, s.dir[ObjFile].n, [], retry))
      else At(s, p, Purge(true))
    case Fetching(err, src, got, retry) =>
      if !ok then At(s, p, if retry then Purge(true) else Fetch(err, true))
      else
        var all := Content(s, Copy(src));
        if |got| < |all| then At(s, p, Fetching(err, src, Onward(got, all, chunk), retry))
        else At(s, p, Emit(true, Some(got), err, []))
    case Emit(first, delivered, err, out) =>
      var all := Content(s, err);
      if |out| < |all| then At(s, p, Emit(first, delivered, err, Onward(out, all, chunk)))
      else At(s, p, Hit(first, delivered, out))
    case Purge(first) => Miss(Unlink(s, ErrFile), p, first)
    case _ => s
  }

  /** A write at the end of a file that has reached `k` of `all`. */
  function Written(s: State, i: Inode, k: nat, all: Bytes, chunk: nat): State
    requires k < |all|
  {
    s.(files := s.files[i := Content(s, i) + all[k..Min(k + chunk + 1, |all|)]])
  }

  function ToCacheStep(w: World, s: State, p: Pid, pr: Proc, chunk: nat, ok: bool): State {
    match pr
    case Compile =>
      if !ok then At(s, p, Failed)
      else At(s.(dir := s.dir[TmpErr(p) := Diag(p)], files := s.files[Diag(p) := []]), p, Compiling(0))
    case Compiling(k) =>
      if !ok then At(Unlink(s, TmpErr(p)), p, Failed)
      else if k < |w.diag| then At(Written(s, Diag(p), k, w.diag, chunk), p, Compiling(Min(k + chunk + 1, |w.diag|)))
      else At(s, p, Commit)
    case Commit => At(Unlink(s, ObjFile), p, MakeTemp)
    case MakeTemp =>
      if !ok then At(s, p, Failed)
      else
        var s' := s.(dir := s.dir[TmpObj(s.next) := Copy(s.next)], files := s.files[Copy(s.next) := []], next := s.next + 1);
        At(s', p, Copying(s.next, 0))
    case Copying(tmp, k) =>
      if k >= |w.obj| then At(s, p, Closing(tmp))
      else if !ok then At(Unlink(s, TmpObj(tmp)), p, Failed)
      else At(Written(s, Copy(tmp), k, w.obj, chunk), p, Copying(tmp, Min(k + chunk + 1, |w.obj|)))
    case Closing(tmp) => if ok then At(s, p, Clearing(tmp)) else At(Unlink(s, TmpObj(tmp)), p, Failed)
    case Clearing(tmp) => At(Unlink(s, ObjFile), p, Renaming(tmp))
    case Renaming(tmp) =>
      if TmpObj(tmp) in s.dir then At(s.(dir := s.dir[ObjFile := s.dir[TmpObj(tmp)]] - {TmpObj(tmp)}), p, LinkErr)
      else At(s, p, Failed)
    case LinkErr =>
      if TmpErr(p) !in s.dir then At(s, p, Failed)
      else if ErrFile in s.dir then At(s, p, DropErr)
      else At(s.(dir := s.dir[ErrFile := s.dir[TmpErr(p)]]), p, DropErr)
    case DropErr =>
      if TmpErr(p) in s.dir then At(Unlink(s, TmpErr(p)), p, Lookup(false)) else At(s, p, Failed)
    case _ => s
  }

  predicate InFromCache(pr: Proc) {
    pr.Lookup? || pr.Opened? || pr.Checked? || pr.Fetch? || pr.Fetching? || pr.Emit? || pr.Purge?
  }

  function Step(w: World, s: State, p: Pid, chunk: nat, ok: bool): State
    requires p in s.procs
  {
    var pr := s.procs[p];
    if InFromCache(pr) then FromCacheStep(w, s, p, pr, chunk, ok) else ToCacheStep(w, s, p, pr, chunk, ok)
  }

  /** A ccache process starts with a first lookup; on a miss it compiles, publishes and looks up again. */
  function Next(w: World, s: State, e: Event): State {
    match e
    case Start(p) => if p in s.procs then s else At(s, p, Lookup(true))
    case Clean(path) => Unlink(s, path)
    case Act(p, chunk, ok) => if p in s.procs then Step(w, s, p, chunk, ok) else s
  }

  function Run(w: World, s: State, events: seq<Event>): State {
    if events == [] then s else Next(w, Run(w, s, events[..|events| - 1]), events[|events| - 1])
  }

  // ----- the invariant

  ghost predicate Whole(w: World, s: State, i: Inode) {
    i in s.files && s.files[i] == Wanted(w, i)
  }

  ghost predicate WholeDiag(w: World, s: State, i: Inode) {
    i.Diag? && Whole(w, s, i)
  }

  ghost predicate ProcOk(w: World, s: State, p: Pid, pr: Proc) {
    match pr
    case Opened(_, err) => WholeDiag(w, s, err)
    case Checked(_, err) => WholeDiag(w, s, err)
    case Fetch(err, _) => WholeDiag(w, s, err)
    case Fetching(err, src, got, _) => WholeDiag(w, s, err) && Whole(w, s, Copy(src)) && got <= w.obj
    case Emit(first, delivered, err, out) =>
      WholeDiag(w, s, err) && out <= w.diag && delivered == if first then Some(w.obj) else None
    case Hit(first, delivered, out) => out == w.diag && delivered == if first then Some(w.obj) else None
    case Compiling(k) => k <= |w.diag| && Diag(p) in s.files && s.files[Diag(p)] == w.diag[..k]
    case Commit => Whole(w, s, Diag(p))
    case MakeTemp => Whole(w, s, Diag(p))
    case Copying(tmp, k) =>
      Whole(w, s, Diag(p)) && k <= |w.obj| && Copy(tmp) in s.files && s.files[Copy(tmp)] == w.obj[..k]
    case Closing(tmp) => Whole(w, s, Diag(p)) && Whole(w, s, Copy(tmp))
    case Clearing(tmp) => Whole(w, s, Diag(p)) && Whole(w, s, Copy(tmp))
    case Renaming(tmp) => Whole(w, s, Diag(p)) && Whole(w, s, Copy(tmp))
    case LinkErr => Whole(w, s, Diag(p))
    case _ => true
  }

  ghost predicate DirOk(w: World, s: State) {
    && (ObjFile in s.dir ==> s.dir[ObjFile].Copy? && Whole(w, s, s.dir[ObjFile]))
    && (ErrFile in s.dir ==> WholeDiag(w, s, s.dir[ErrFile]))
    && (forall n :: TmpObj(n) in s.dir ==> s.dir[TmpObj(n)] == Copy(n))
    && (forall p :: TmpErr(p) in s.dir ==> s.dir[TmpErr(p)] == Diag(p))
  }

  /** The process has started its one compilation. */
  predicate Compiled(pr: Proc) {
    match pr
    case Lookup(first) => !first
    case Opened(first, _) => !first
    case Checked(first, _) => !first
    case Fetch(_, _) => false
    case Fetching(_, _, _, _) => false
    case Emit(first, _, _, _) => !first
    case Hit(first, _, _) => !first
    case Purge(first) => !first
    case Compile => false
    case _ => true
  }

  /** Names of files are used once. */
  ghost predicate NamesOk(s: State) {
    && (forall n: nat :: Copy(n) in s.files ==> n < s.next)
    && (forall p :: Diag(p) in s.files ==> p in s.procs && Compiled(s.procs[p]))
  }

  /** No two processes write to the same copy. */
  ghost predicate Apart(s: State) {
    forall p, q :: p in s.procs && q in s.procs && p != q && s.procs[p].Copying? && s.procs[q].Copying? ==>
      s.procs[p].tmp != s.procs[q].tmp
  }

  ghost predicate Inv(w: World, s: State) {
    DirOk(w, s) && NamesOk(s) && Apart(s) && forall p :: p in s.procs ==> ProcOk(w, s, p, s.procs[p])
  }

  /** A step that writes to no file keeps what is known of the other processes. */
  lemma OthersKept(w: World, s: State, s': State, p: Pid)
    requires Inv(w, s) && s'.files == s.files && s'.next == s.next
    requires p in s'.procs && s'.procs == s.procs[p := s'.procs[p]]
    requires DirOk(w, s') && ProcOk(w, s', p, s'.procs[p])
    requires p in s.procs && Compiled(s.procs[p]) ==> Compiled(s'.procs[p])
    requires s'.procs[p].Copying? ==> p in s.procs && s.procs[p].Copying? && s.procs[p].tmp == s'.procs[p].tmp
    ensures Inv(w, s')
  {
    forall q | q in s'.procs ensures ProcOk(w, s', q, s'.procs[q]) {
      if q != p { assert ProcOk(w, s, q, s.procs[q]); }
    }
  }

  /** A write by `p` to a file that is not whole and that no other process is writing to, or the making of a file. */
  lemma WriteKeeps(w: World, s: State, s': State, p: Pid, i: Inode)
    requires Inv(w, s) && !Whole(w, s, i) && p in s.procs
    requires i in s'.files && s'.files == s.files[i := s'.files[i]]
    requires p in s'.procs && Compiled(s'.procs[p]) && s'.procs == s.procs[p := s'.procs[p]]
    requires NamesOk(s') && Apart(s') && DirOk(w, s') && ProcOk(w, s', p, s'.procs[p])
    requires forall q :: q in s.procs && q != p ==> i != Diag(q) && !(s.procs[q].Copying? && i == Copy(s.procs[q].tmp))
    ensures Inv(w, s')
  {
    forall q | q in s'.procs ensures ProcOk(w, s', q, s'.procs[q]) {
      if q != p {
        assert ProcOk(w, s, q, s.procs[q]);
        OtherOk(w, s, s', i, q, s.procs[q]);
      }
    }
  }

  lemma OtherOk(w: World, s: State, s': State, i: Inode, q: Pid, pr: Proc)
    requires ProcOk(w, s, q, pr) && !Whole(w, s, i) && i in s'.files && s'.files == s.files[i := s'.files[i]]
    requires i != Diag(q) && !(pr.Copying? && i == Copy(pr.tmp))
    ensures ProcOk(w, s', q, pr)
  {
    forall j | Whole(w, s, j) ensures Whole(w, s', j) {
    }
  }

  lemma FetchingKeeps(w: World, s: State, p: Pid, chunk: nat, ok: bool)
    requires Inv(w, s) && p in s.procs && s.procs[p].Fetching?
    ensures Inv(w, FromCacheStep(w, s, p, s.procs[p], chunk, ok))
  {
    var pr := s.procs[p];
    assert ProcOk(w, s, p, pr);
    if |pr.got| < |w.obj| {
      OnwardPrefix(pr.got, w.obj, chunk);
    } else {
      assert pr.got == w.obj[..|pr.got|] == w.obj;
    }
    OthersKept(w, s, FromCacheStep(w, s, p, pr, chunk, ok), p);
  }

  lemma OnwardPrefix(got: Bytes, all: Bytes, chunk: nat)
    requires got <= all && |got| < |all|
    ensures got < Onward(got, all, chunk) <= all
  {
    assert got == all[..|got|];
  }

  lemma EmitKeeps(w: World, s: State, p: Pid, chunk: nat, ok: bool)
    requires Inv(w, s) && p in s.procs && s.procs[p].Emit?
    ensures Inv(w, FromCacheStep(w, s, p, s.procs[p], chunk, ok))
  {
    var pr := s.procs[p];
    assert ProcOk(w, s, p, pr);
    if |pr.out| < |w.diag| {
      OnwardPrefix(pr.out, w.diag, chunk);
    } else {
      assert pr.out == w.diag[..|pr.out|] == w.diag;
    }
    OthersKept(w, s, FromCacheStep(w, s, p, pr, chunk, ok), p);
  }

  lemma FromCacheKeeps(w: World, s: State, p: Pid, chunk: nat, ok: bool)
    requires Inv(w, s) && p in s.procs && InFromCache(s.procs[p])
    ensures Inv(w, FromCacheStep(w, s, p, s.procs[p], chunk, ok))
  {
    var pr := s.procs[p];
    if pr.Fetching? {
      FetchingKeeps(w, s, p, chunk, ok);
    } else if pr.Emit? {
      EmitKeeps(w, s, p, chunk, ok);
    } else {
      assert ProcOk(w, s, p, pr);
      OthersKept(w, s, FromCacheStep(w, s, p, pr, chunk, ok), p);
    }
  }

  lemma WrittenPrefix(k: nat, all: Bytes, chunk: nat)
    requires k < |all|
    ensures var k' := Min(k + chunk + 1, |all|); k < k' <= |all| && all[..k] + all[k..k'] == all[..k']
  {
  }

  /** Writing diagnostics: nobody takes the file for whole yet, whatever names it has. */
  lemma CompilingKeeps(w: World, s: State, p: Pid, chunk: nat, ok: bool)
    requires Inv(w, s) && p in s.procs && s.procs[p].Compiling?
    ensures Inv(w, ToCacheStep(w, s, p, s.procs[p], chunk, ok))
  {
    var pr := s.procs[p];
    var s' := ToCacheStep(w, s, p, pr, chunk, ok);
    assert ProcOk(w, s, p, pr);
    if ok && pr.k < |w.diag| {
      WrittenPrefix(pr.k, w.diag, chunk);
      assert |w.diag[..pr.k]| == pr.k;
      WriteKeeps(w, s, s', p, Diag(p));
    } else {
      assert pr.k == |w.diag| ==> w.diag[..pr.k] == w.diag;
      OthersKept(w, s, s', p);
    }
  }

  lemma CompileKeeps(w: World, s: State, p: Pid, chunk: nat, ok: bool)
    requires Inv(w, s) && p in s.procs && s.procs[p].Compile?
    ensures Inv(w, ToCacheStep(w, s, p, s.procs[p], chunk, ok))
  {
    var s' := ToCacheStep(w, s, p, s.procs[p], chunk, ok);
    if ok {
      assert w.diag[..0] == [];
      WriteKeeps(w, s, s', p, Diag(p));
    } else {
      OthersKept(w, s, s', p);
    }
  }

  lemma MakeTempKeeps(w: World, s: State, p: Pid, chunk: nat, ok: bool)
    requires Inv(w, s) && p in s.procs && s.procs[p].MakeTemp?
    ensures Inv(w, ToCacheStep(w, s, p, s.procs[p], chunk, ok))
  {
    var s' := ToCacheStep(w, s, p, s.procs[p], chunk, ok);
    assert ProcOk(w, s, p, s.procs[p]);
    if ok {
      forall q | q in s.procs && s.procs[q].Copying? ensures s.procs[q].tmp < s.next {
        assert ProcOk(w, s, q, s.procs[q]);
      }
      assert w.obj[..0] == [];
      WriteKeeps(w, s, s', p, Copy(s.next));
    } else {
      OthersKept(w, s, s', p);
    }
  }

  /** The rename puts the copy under the object's name only if the cleaner has left its temporary name alone. */
  lemma RenamingKeeps(w: World, s: State, p: Pid, chunk: nat, ok: bool)
    requires Inv(w, s) && p in s.procs && s.procs[p].Renaming?
    ensures Inv(w, ToCacheStep(w, s, p, s.procs[p], chunk, ok))
  {
    assert ProcOk(w, s, p, s.procs[p]);
    OthersKept(w, s, ToCacheStep(w, s, p, s.procs[p], chunk, ok), p);
  }

  lemma CopyingKeeps(w: World, s: State, p: Pid, chunk: nat, ok: bool)
    requires Inv(w, s) && p in s.procs && s.procs[p].Copying?
    ensures Inv(w, ToCacheStep(w, s, p, s.procs[p], chunk, ok))
  {
    var pr := s.procs[p];
    var s' := ToCacheStep(w, s, p, pr, chunk, ok);
    assert ProcOk(w, s, p, pr);
    if ok && pr.k < |w.obj| {
      WrittenPrefix(pr.k, w.obj, chunk);
      assert |w.obj[..pr.k]| == pr.k;
      WriteKeeps(w, s, s', p, Copy(pr.tmp));
    } else {
      assert pr.k == |w.obj| ==> w.obj[..pr.k] == w.obj;
      OthersKept(w, s, s', p);
    }
  }

  lemma LinkErrKeeps(w: World, s: State, p: Pid, chunk: nat, ok: bool)
    requires Inv(w, s) && p in s.procs && s.procs[p].LinkErr?
    ensures Inv(w, ToCacheStep(w, s, p, s.procs[p], chunk, ok))
  {
    assert ProcOk(w, s, p, s.procs[p]);
    OthersKept(w, s, ToCacheStep(w, s, p, s.procs[p], chunk, ok), p);
  }

  lemma ToCacheKeeps(w: World, s: State, p: Pid, chunk: nat, ok: bool)
    requires Inv(w, s) && p in s.procs
    ensures Inv(w, ToCacheStep(w, s, p, s.procs[p], chunk, ok))
  {
    hide Inv;
    var pr := s.procs[p];
    match pr
    case Compile => CompileKeeps(w, s, p, chunk, ok);
    case Compiling(_) => CompilingKeeps(w, s, p, chunk, ok);
    case MakeTemp => MakeTempKeeps(w, s, p, chunk, ok);
    case Copying(_, _) => CopyingKeeps(w, s, p, chunk, ok);
    case Renaming(_) => RenamingKeeps(w, s, p, chunk, ok);
    case LinkErr => LinkErrKeeps(w, s, p, chunk, ok);
    case _ => SmallStepKeeps(w, s, p, chunk, ok);
  }

  lemma SmallStepKeeps(w: World, s: State, p: Pid, chunk: nat, ok: bool)
    requires Inv(w, s) && p in s.procs
    requires var pr := s.procs[p];
             !pr.Compile? && !pr.Compiling? && !pr.MakeTemp? && !pr.Copying? && !pr.Renaming? && !pr.LinkErr?
    ensures Inv(w, ToCacheStep(w, s, p, s.procs[p], chunk, ok))
  {
    var pr := s.procs[p];
    assert ProcOk(w, s, p, pr);
    if pr.Commit? || pr.Closing? || pr.Clearing? || pr.DropErr? {
      OthersKept(w, s, ToCacheStep(w, s, p, pr, chunk, ok), p);
    }
  }

  /** Every event keeps the invariant. */
  lemma NextKeeps(w: World, s: State, e: Event)
    requires Inv(w, s)
    ensures Inv(w, Next(w, s, e))
  {
    hide FromCacheStep, ToCacheStep;
    match e
    case Start(p) => if p !in s.procs { StartKeeps(w, s, p); }
    case Clean(path) => CleanKeeps(w, s, path);
    case Act(p, chunk, ok) => if p in s.procs { StepKeeps(w, s, p, chunk, ok); }
  }

  lemma StepKeeps(w: World, s: State, p: Pid, chunk: nat, ok: bool)
    requires Inv(w, s) && p in s.procs
    ensures Inv(w, Step(w, s, p, chunk, ok))
  {
    hide FromCacheStep, ToCacheStep, Inv;
    if InFromCache(s.procs[p]) { FromCacheKeeps(w, s, p, chunk, ok); } else { ToCacheKeeps(w, s, p, chunk, ok); }
  }

  lemma StartKeeps(w: World, s: State, p: Pid)
    requires Inv(w, s) && p !in s.procs
    ensures Inv(w, At(s, p, Lookup(true)))
  {
    var s' := At(s, p, Lookup(true));
    forall q | q in s'.procs ensures ProcOk(w, s', q, s'.procs[q]) {
      if q != p { assert ProcOk(w, s, q, s.procs[q]); }
    }
  }

  lemma CleanKeeps(w: World, s: State, path: Path)
    requires Inv(w, s)
    ensures Inv(w, Unlink(s, path))
  {
    var s' := Unlink(s, path);
    forall q | q in s'.procs ensures ProcOk(w, s', q, s'.procs[q]) {
      assert ProcOk(w, s, q, s.procs[q]);
    }
  }

  lemma {:induction false} RunKeeps(w: World, s: State, events: seq<Event>)
    requires Inv(w, s)
    ensures Inv(w, Run(w, s, events))
    decreases |events|
  {
    hide Inv, Next;
    if events != [] {
      RunKeeps(w, s, events[..|events| - 1]);
      NextKeeps(w, Run(w, s, events[..|events| - 1]), events[|events| - 1]);
    }
  }

  /** In every interleaving of any number of processes and cleaners: what the cache shows under the key is whole,
      a first-pass hit delivers the whole object and the whole diagnostics, a second-pass hit the diagnostics. */
  lemma OnlyWholeEntries(w: World, events: seq<Event>)
    ensures var s := Run(w, INIT, events);
            && (ObjFile in s.dir ==> Content(s, s.dir[ObjFile]) == w.obj)
            && (ErrFile in s.dir ==> Content(s, s.dir[ErrFile]) == w.diag)
            && (forall p :: p in s.procs && s.procs[p].Hit? ==>
                  s.procs[p].out == w.diag && (s.procs[p].first ==> s.procs[p].delivered == Some(w.obj)))
  {
    hide Run, Next;
    RunKeeps(w, INIT, events);
    var s := Run(w, INIT, events);
    forall p | p in s.procs && s.procs[p].Hit?
      ensures s.procs[p].out == w.diag && (s.procs[p].first ==> s.procs[p].delivered == Some(w.obj))
    {
      assert ProcOk(w, s, p, s.procs[p]);
    }
  }
}
