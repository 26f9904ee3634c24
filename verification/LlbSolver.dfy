/** The solver itself: it works on directories, memoises every operation's outputs,
    and consults a cache on disk that outlives the build. */
module LlbSolver {
  import opened Wrappers
  import opened Llb
  import opened LlbCacheability

  datatype DirId = Dir(n: nat)
  type Dirs = map<DirId, Tree>

  /** No directory of `before` was removed or written. */
  ghost predicate Untouched(before: Dirs, after: Dirs) {
    forall x :: x in before ==> x in after && after[x] == before[x]
  }

  /** The output directories hold exactly the given trees. */
  ghost predicate Holds(dirs: Dirs, outs: map<Slot, DirId>, trees: map<Slot, Tree>) {
    outs.Keys == trees.Keys && forall i :: i in outs ==> outs[i] in dirs && dirs[outs[i]] == trees[i]
  }

  /** The solver's answer is the plain meaning; where file operations are not reliable, it may be an I/O failure. */
  ghost predicate Agrees(r: Result<map<Slot, DirId>, Failure>, dirs: Dirs, meaning: Result<map<Slot, Tree>, Failure>,
                         reliable: bool) {
    match r
    case Ok(outs) => meaning.Ok? && Holds(dirs, outs, meaning.value)
    case Err(f) => Excused(f, reliable) || meaning == Err(f)
  }

  predicate Excused(f: Failure, reliable: bool) {
    f == IoFailure && !reliable
  }

  predicate Exist(dirs: Dirs, ids: seq<DirId>) {
    forall i :: 0 <= i < |ids| ==> ids[i] in dirs
  }

  function Contents(dirs: Dirs, ids: seq<DirId>): (trees: seq<Tree>)
    requires Exist(dirs, ids)
    ensures |trees| == |ids| && forall i :: 0 <= i < |ids| ==> trees[i] == dirs[ids[i]]
  {
    seq(|ids|, i requires 0 <= i < |ids| => dirs[ids[i]])
  }

  lemma ContentsMore(before: Dirs, dirs: Dirs, ids: seq<DirId>, x: DirId)
    requires Exist(before, ids) && Untouched(before, dirs) && x in dirs
    ensures Exist(dirs, ids + [x]) && Contents(dirs, ids + [x]) == Contents(before, ids) + [dirs[x]]
  {
  }

  /** The trees of the output directories. */
  function Copied(dirs: Dirs, outs: map<Slot, DirId>): map<Slot, Tree>
    requires forall i :: i in outs ==> outs[i] in dirs
  {
    map i | i in outs :: dirs[outs[i]]
  }

  lemma CopyIsExact(dirs: Dirs, outs: map<Slot, DirId>, trees: map<Slot, Tree>)
    requires Holds(dirs, outs, trees)
    ensures Copied(dirs, outs) == trees
  {
    assert Copied(dirs, outs).Keys == trees.Keys;
  }

  /** Directory counterpart of Llb.Roots. */
  datatype RootDirs = RootDirs(root: Option<DirId>, slot: Slot, outs: map<Slot, DirId>)

  /** The root directory is exposed at its slot and nowhere else, and is not in `before`. */
  ghost predicate RootsHeld(before: Dirs, dirs: Dirs, rd: RootDirs, roots: Roots) {
    && rd.slot == roots.slot
    && Holds(dirs, rd.outs, roots.outs)
    && (forall i :: i in rd.outs ==> rd.outs[i] !in before)
    && (if rd.root.None? then roots.root.None? && rd.outs == map[] else
        && rd.root.value in dirs && roots.root == Some(dirs[rd.root.value])
        && rd.root.value !in before
        && (rd.slot != SKIP_OUTPUT ==> rd.slot in rd.outs && rd.outs[rd.slot] == rd.root.value)
        && (forall i :: i in rd.outs && rd.outs[i] == rd.root.value ==> i == rd.slot && i != SKIP_OUTPUT))
  }

  function AddRootDir(rd: RootDirs, m: Mount, x: DirId): RootDirs {
    RootDirs(Some(x), m.output, if m.output != SKIP_OUTPUT then rd.outs[m.output := x] else rd.outs)
  }

  lemma RootAdded(before: Dirs, dirs: Dirs, after: Dirs, rd: RootDirs, roots: Roots, m: Mount, x: DirId)
    requires Untouched(before, dirs) && RootsHeld(before, dirs, rd, roots)
    requires x !in dirs && x in after && after == dirs[x := after[x]]
    ensures Untouched(before, after) && RootsHeld(before, after, AddRootDir(rd, m, x), AddRoot(roots, m, after[x]))
  {
  }

  // ----- The cache on disk -----

  class DiskCache {
    var entries: map<Digest, map<Slot, Tree>>

    constructor ()
      ensures entries == map[]
    {
      entries := map[];
    }
  }

  type Entries = map<Digest, map<Slot, Tree>>

  /** The cache holds outputs for the digest. */
  predicate Hit(entries: Entries, d: Digest) {
    d in entries && entries[d].Keys != {}
  }

  /** A build with this graph consults and fills the cache for the digest. */
  ghost predicate KeptIn(ops: Ops, rank: Digest -> nat, cacheOn: bool, d: Digest)
    requires Acyclic(ops, rank)
  {
    cacheOn && d in ops && !ops[d].kind.Source? && Cacheable(ops, rank, d)
  }

  /** The meaning of an operation when some digests are given: what is given stands for itself, and
      everything else is evaluated from its inputs. */
  ghost function EvalOver(ops: Ops, rank: Digest -> nat, w: World, ctx: Context, given: Entries, d: Digest)
    : Result<map<Slot, Tree>, Failure>
    requires Acyclic(ops, rank)
    decreases rank(d), 1, 0
  {
    if d in given then Ok(given[d]) else
    if d !in ops then Err(UnknownOp(d)) else
    var inputs :- EvalInputsOver(ops, rank, w, ctx, given, d, 0, []);
    OpOutputs(w, ctx, ops[d], inputs)
  }

  ghost function EvalInputsOver(ops: Ops, rank: Digest -> nat, w: World, ctx: Context, given: Entries, d: Digest,
                                k: nat, acc: seq<Tree>)
    : Result<seq<Tree>, Failure>
    requires Acyclic(ops, rank) && d in ops && k <= |ops[d].inputs|
    decreases rank(d), 0, |ops[d].inputs| - k
  {
    if k == |ops[d].inputs| then Ok(acc) else
    var e := ops[d].inputs[k];
    var t :- PickOutput(e, EvalOver(ops, rank, w, ctx, given, e.digest));
    EvalInputsOver(ops, rank, w, ctx, given, d, k + 1, acc + [t])
  }

  /** With nothing given it is the plain meaning. */
  lemma {:induction false} OverNothing(ops: Ops, rank: Digest -> nat, w: World, ctx: Context, d: Digest)
    requires Acyclic(ops, rank)
    ensures EvalOver(ops, rank, w, ctx, map[], d) == Eval(ops, rank, w, ctx, d)
    decreases rank(d), 1, 0
  {
    if d in ops {
      InputsOverNothing(ops, rank, w, ctx, d, 0, []);
    }
  }

  lemma {:induction false} InputsOverNothing(ops: Ops, rank: Digest -> nat, w: World, ctx: Context, d: Digest,
                                             k: nat, acc: seq<Tree>)
    requires Acyclic(ops, rank) && d in ops && k <= |ops[d].inputs|
    ensures EvalInputsOver(ops, rank, w, ctx, map[], d, k, acc) == EvalInputs(ops, rank, w, ctx, d, k, acc)
    decreases rank(d), 0, |ops[d].inputs| - k
  {
    if k < |ops[d].inputs| {
      var e := ops[d].inputs[k];
      OverNothing(ops, rank, w, ctx, e.digest);
      var t := PickOutput(e, Eval(ops, rank, w, ctx, e.digest));
      if t.Ok? {
        InputsOverNothing(ops, rank, w, ctx, d, k + 1, acc + [t.value]);
      }
    }
  }

  /** The solve of a request when some digests are given. */
  ghost function SolveOver(req: Request, rank: Digest -> nat, w: World, given: Entries): Result<Tree, Failure>
    requires Acyclic(req.ops, rank)
  {
    if req.verts == [] then Err(EmptyDefinition)
    else if req.verts[|req.verts| - 1].inputs == [] then Err(NoResultEdge)
    else
      var e := req.verts[|req.verts| - 1].inputs[0];
      PickOutput(e, EvalOver(req.ops, rank, w, req.ctx, given, e.digest))
  }

  /** A build over these entries computes its meaning over what is given: what is given is sure to be
      found, and whatever is found has that meaning. */
  ghost predicate Foretold(ops: Ops, rank: Digest -> nat, w: World, ctx: Context, cacheOn: bool, reliable: bool,
                           given: Entries, entries: Entries)
    requires Acyclic(ops, rank)
  {
    && (forall d :: d in given ==> reliable && KeptIn(ops, rank, cacheOn, d) && Hit(entries, d))
    && (forall d :: KeptIn(ops, rank, cacheOn, d) && Hit(entries, d) ==>
          EvalOver(ops, rank, w, ctx, given, d) == Ok(entries[d]))
  }

  /** Every entry was there at the start, or is the meaning of a digest the build keeps. */
  ghost predicate Sourced(ops: Ops, rank: Digest -> nat, w: World, ctx: Context, cacheOn: bool, given: Entries,
                          start: Entries, entries: Entries)
    requires Acyclic(ops, rank)
  {
    forall d {:trigger SourcedAt(ops, rank, w, ctx, cacheOn, given, start, entries, d)} ::
      d in entries ==> SourcedAt(ops, rank, w, ctx, cacheOn, given, start, entries, d)
  }

  ghost predicate SourcedAt(ops: Ops, rank: Digest -> nat, w: World, ctx: Context, cacheOn: bool, given: Entries,
                            start: Entries, entries: Entries, d: Digest)
    requires Acyclic(ops, rank)
  {
    d in entries &&
    ((d in start && start[d] == entries[d]) ||
     (KeptIn(ops, rank, cacheOn, d) && EvalOver(ops, rank, w, ctx, given, d) == Ok(entries[d])))
  }

  // ----- Cached results that hold in every build -----

  /** Every entry with outputs is what its digest means, in every build. */
  ghost predicate CacheCorrect(all: Ops, rank: Digest -> nat, w: World, entries: Entries)
    requires Acyclic(all, rank)
  {
    forall d {:trigger EntryCorrect(all, rank, w, d, entries[d])} ::
      Hit(entries, d) ==> EntryCorrect(all, rank, w, d, entries[d])
  }

  ghost predicate EntryCorrect(all: Ops, rank: Digest -> nat, w: World, d: Digest, outs: map<Slot, Tree>)
    requires Acyclic(all, rank)
  {
    Cacheable(all, rank, d) && forall c: Context :: Eval(all, rank, w, c, d) == Ok(outs)
  }

  /** A digest always names the same operation, and what may be cached does not depend on the build. */
  ghost predicate Trusted(ops: Ops, all: Ops, rank: Digest -> nat) {
    Submap(ops, all) && Acyclic(ops, rank) && Acyclic(all, rank) && SourcesAreLeaves(all) && Sealed(all, rank)
  }

  /** A result computed in one build is correct for all. */
  lemma StoredIsCorrect(ops: Ops, all: Ops, rank: Digest -> nat, w: World, ctx: Context, d: Digest,
                        outs: map<Slot, Tree>)
    requires Trusted(ops, all, rank)
    requires Cacheable(ops, rank, d) && Eval(ops, rank, w, ctx, d) == Ok(outs) && outs.Keys != {}
    ensures EntryCorrect(all, rank, w, d, outs)
  {
    CacheableGrows(ops, all, rank, d);
    EvalGrows(ops, all, rank, w, ctx, d);
    forall c: Context
      ensures Eval(all, rank, w, c, d) == Ok(outs)
    {
      NonInterference(all, rank, w, ctx, c, d);
    }
  }

  /** A correct entry is what a build that finds the digest cacheable would compute. */
  lemma StoredIsFresh(ops: Ops, all: Ops, rank: Digest -> nat, w: World, ctx: Context, d: Digest, entries: Entries)
    requires Trusted(ops, all, rank)
    requires Cacheable(ops, rank, d) && CacheCorrect(all, rank, w, entries) && Hit(entries, d)
    ensures Eval(ops, rank, w, ctx, d) == Ok(entries[d])
  {
    EvalGrows(ops, all, rank, w, ctx, d);
    assert EntryCorrect(all, rank, w, d, entries[d]);
  }

  /** Over a correct cache a build computes its plain meaning. */
  lemma CorrectIsForetold(ops: Ops, all: Ops, rank: Digest -> nat, w: World, ctx: Context, cacheOn: bool,
                          reliable: bool, entries: Entries)
    requires Trusted(ops, all, rank) && CacheCorrect(all, rank, w, entries)
    ensures Foretold(ops, rank, w, ctx, cacheOn, reliable, map[], entries)
  {
    forall d | KeptIn(ops, rank, cacheOn, d) && Hit(entries, d)
      ensures EvalOver(ops, rank, w, ctx, map[], d) == Ok(entries[d])
    {
      OverNothing(ops, rank, w, ctx, d);
      StoredIsFresh(ops, all, rank, w, ctx, d, entries);
    }
  }

  /** And it leaves the cache correct. */
  lemma SourcedIsCorrect(ops: Ops, all: Ops, rank: Digest -> nat, w: World, ctx: Context, cacheOn: bool,
                         start: Entries, entries: Entries)
    requires Trusted(ops, all, rank) && CacheCorrect(all, rank, w, start)
    requires Sourced(ops, rank, w, ctx, cacheOn, map[], start, entries)
    ensures CacheCorrect(all, rank, w, entries)
  {
    forall d | Hit(entries, d)
      ensures EntryCorrect(all, rank, w, d, entries[d])
    {
      assert SourcedAt(ops, rank, w, ctx, cacheOn, map[], start, entries, d);
      if d in start && start[d] == entries[d] {
        assert EntryCorrect(all, rank, w, d, start[d]);
      } else {
        OverNothing(ops, rank, w, ctx, d);
        StoredIsCorrect(ops, all, rank, w, ctx, d, entries[d]);
      }
    }
  }

  // ----- Cached results as they are -----

  /** The entries a build would find. */
  ghost function Found(ops: Ops, rank: Digest -> nat, cacheOn: bool, entries: Entries): Entries
    requires Acyclic(ops, rank)
  {
    map d | d in entries && KeptIn(ops, rank, cacheOn, d) && Hit(entries, d) :: entries[d]
  }

  /** Over any cache, if file operations succeed, a build computes its meaning over what it finds. */
  lemma FoundIsForetold(ops: Ops, rank: Digest -> nat, w: World, ctx: Context, cacheOn: bool, entries: Entries)
    requires Acyclic(ops, rank)
    ensures Foretold(ops, rank, w, ctx, cacheOn, true, Found(ops, rank, cacheOn, entries), entries)
  {
  }

  ghost predicate MemoAt(ops: Ops, rank: Digest -> nat, w: World, ctx: Context, given: Entries,
                         dirs: Dirs, memo: map<Digest, map<Slot, DirId>>, d: Digest)
    requires Acyclic(ops, rank)
  {
    d in memo && Agrees(Ok(memo[d]), dirs, EvalOver(ops, rank, w, ctx, given, d), true)
  }

  ghost predicate MemoCorrect(ops: Ops, rank: Digest -> nat, w: World, ctx: Context, given: Entries, dirs: Dirs,
                              memo: map<Digest, map<Slot, DirId>>)
    requires Acyclic(ops, rank)
  {
    forall d {:trigger MemoAt(ops, rank, w, ctx, given, dirs, memo, d)} ::
      d in memo ==> MemoAt(ops, rank, w, ctx, given, dirs, memo, d)
  }

  lemma MemoAdds(ops: Ops, rank: Digest -> nat, w: World, ctx: Context, given: Entries, dirs: Dirs,
                 memo: map<Digest, map<Slot, DirId>>, d: Digest, outs: map<Slot, DirId>)
    requires Acyclic(ops, rank) && MemoCorrect(ops, rank, w, ctx, given, dirs, memo)
    requires Agrees(Ok(outs), dirs, EvalOver(ops, rank, w, ctx, given, d), true)
    ensures MemoCorrect(ops, rank, w, ctx, given, dirs, memo[d := outs])
  {
    var memo' := memo[d := outs];
    forall x | x in memo'
      ensures MemoAt(ops, rank, w, ctx, given, dirs, memo', x)
    {
      if x != d {
        assert MemoAt(ops, rank, w, ctx, given, dirs, memo, x);
      }
    }
  }

  lemma HoldsStill(before: Dirs, after: Dirs, outs: map<Slot, DirId>, trees: map<Slot, Tree>)
    requires Untouched(before, after) && Holds(before, outs, trees)
    ensures Holds(after, outs, trees)
  {
  }

  lemma MemoStillCorrect(ops: Ops, rank: Digest -> nat, w: World, ctx: Context, given: Entries,
                         before: Dirs, after: Dirs, memo: map<Digest, map<Slot, DirId>>)
    requires Acyclic(ops, rank) && Untouched(before, after)
    requires MemoCorrect(ops, rank, w, ctx, given, before, memo)
    ensures MemoCorrect(ops, rank, w, ctx, given, after, memo)
  {
    forall d | d in memo
      ensures MemoAt(ops, rank, w, ctx, given, after, memo, d)
    {
      assert MemoAt(ops, rank, w, ctx, given, before, memo, d);
      HoldsStill(before, after, memo[d], EvalOver(ops, rank, w, ctx, given, d).value);
    }
  }

  ghost predicate NoRepeats(s: seq<Digest>) {
    forall i, j :: 0 <= i < j < |s| ==> s[i] != s[j]
  }

  /** More operations ran, none of a rank above the limit. */
  ghost predicate Ran(before: seq<Digest>, after: seq<Digest>, rank: Digest -> nat, limit: int) {
    before <= after && forall i :: |before| <= i < |after| ==> rank(after[i]) <= limit
  }

  lemma RanMore(a: seq<Digest>, b: seq<Digest>, c: seq<Digest>, rank: Digest -> nat, low: int, limit: int)
    requires Ran(a, b, rank, limit) && Ran(b, c, rank, low) && low <= limit
    ensures Ran(a, c, rank, limit)
  {
    assert forall i :: |a| <= i < |b| ==> c[i] == b[i];
  }

  lemma RanOne(a: seq<Digest>, b: seq<Digest>, rank: Digest -> nat, d: Digest)
    requires Ran(a, b, rank, rank(d) - 1)
    ensures Ran(a, b, rank, rank(d)) && Ran(a, b + [d], rank, rank(d))
  {
  }

  lemma Carry(d0: Dirs, d1: Dirs, d2: Dirs,
              m0: map<Digest, map<Slot, DirId>>, m1: map<Digest, map<Slot, DirId>>, m2: map<Digest, map<Slot, DirId>>)
    requires Untouched(d0, d1) && Untouched(d1, d2) && Submap(m0, m1) && Submap(m1, m2)
    ensures Untouched(d0, d2) && Submap(m0, m2)
  {
  }

  /** What ran below an operation's rank is not the operation. */
  lemma NotRunYet(a: seq<Digest>, b: seq<Digest>, rank: Digest -> nat, d: Digest)
    requires Ran(a, b, rank, rank(d) - 1) && d !in a
    ensures d !in b
  {
    assert forall i :: 0 <= i < |a| ==> b[i] == a[i];
  }

  // ----- One build -----

  class Executor {
    const ops: Ops
    const w: World
    const ctx: Context
    const localDirs: map<string, DirId>
    const cacheOn: bool
    const reliable: bool             // no file operation of this build fails
    const disk: DiskCache
    ghost const rank: Digest -> nat
    ghost const start: Entries       // the cache when the build began
    ghost const given: Entries       // the entries it is sure to find

    var dirs: Dirs
    var nextDir: nat
    var opOutputs: map<Digest, map<Slot, DirId>>
    var images: map<string, DirId>
    var cacheableMemo: map<Digest, bool>
    ghost var executed: seq<Digest>  // the operations run so far, in order

    ghost predicate Graph() {
      Acyclic(ops, rank) && Foretold(ops, rank, w, ctx, cacheOn, reliable, given, start)
    }

    /** What this build makes of a digest. */
    ghost function Mean(d: Digest): Result<map<Slot, Tree>, Failure>
      requires Graph()
    {
      EvalOver(ops, rank, w, ctx, given, d)
    }

    ghost predicate DiskKept()
      requires Graph()
      reads disk
    {
      && Sourced(ops, rank, w, ctx, cacheOn, given, start, disk.entries)
      && forall d :: d in given ==> Hit(disk.entries, d)
    }

    ghost predicate DirsFresh()
      reads this
    {
      forall x :: x in dirs ==> x.n < nextDir
    }

    ghost predicate LocalsKept()
      reads this
    {
      localDirs.Keys == ctx.locals.Keys &&
      forall n :: n in localDirs ==> localDirs[n] in dirs && dirs[localDirs[n]] == ctx.locals[n]
    }

    ghost predicate ImagesKept()
      reads this
    {
      forall n :: n in images ==> images[n] in dirs && w.image(n) == Some(dirs[images[n]])
    }

    ghost predicate AnalysisCorrect()
      requires Graph()
      reads this
    {
      forall d {:trigger Cacheable(ops, rank, d)} :: d in cacheableMemo ==> cacheableMemo[d] == Cacheable(ops, rank, d)
    }

    ghost predicate Valid()
      reads this, disk
    {
      && Graph() && DirsFresh() && LocalsKept() && ImagesKept() && AnalysisCorrect()
      && MemoCorrect(ops, rank, w, ctx, given, dirs, opOutputs)
      && DiskKept()
      && NoRepeats(executed)
    }

    /** No operation has failed: everything run is memoised. */
    ghost predicate Settled()
      reads this
    {
      forall d :: d in executed ==> d in opOutputs
    }

    constructor (ops: Ops, w: World, ctx: Context, cacheOn: bool, reliable: bool, disk: DiskCache,
                 ghost rank: Digest -> nat, ghost given: Entries, dirs: Dirs,
                 localDirs: map<string, DirId>, nextDir: nat)
      requires Acyclic(ops, rank) && Foretold(ops, rank, w, ctx, cacheOn, reliable, given, disk.entries)
      requires forall x :: x in dirs ==> x.n < nextDir
      requires localDirs.Keys == ctx.locals.Keys
      requires forall n :: n in localDirs ==> localDirs[n] in dirs && dirs[localDirs[n]] == ctx.locals[n]
      ensures Valid() && Settled()
      ensures this.ops == ops && this.w == w && this.ctx == ctx && this.disk == disk
      ensures this.rank == rank && this.given == given && this.start == disk.entries
      ensures this.cacheOn == cacheOn && this.reliable == reliable && opOutputs == map[]
      ensures this.dirs == dirs && executed == []
    {
      this.ops, this.w, this.ctx, this.cacheOn, this.reliable, this.disk := ops, w, ctx, cacheOn, reliable, disk;
      this.rank, this.given, start := rank, given, disk.entries;
      this.dirs, this.localDirs, this.nextDir := dirs, localDirs, nextDir;
      opOutputs, images, cacheableMemo, executed := map[], map[], map[], [];
    }

    /** The build consults and fills the cache for this digest. */
    ghost predicate Kept(d: Digest)
      requires Graph()
    {
      KeptIn(ops, rank, cacheOn, d)
    }

    /** isCacheable, with its memo. */
    method IsCacheable(d: Digest) returns (res: bool)
      requires Graph() && AnalysisCorrect()
      modifies this`cacheableMemo
      ensures AnalysisCorrect()
      ensures res == Cacheable(ops, rank, d)
      decreases rank(d)
    {
      if d in cacheableMemo {
        return cacheableMemo[d];
      }
      if d !in ops {
        return false;
      }
      var op := ops[d];
      if op.kind.Source? {
        res := HasPrefix(op.kind.id, IMAGE_SCHEME);
      } else {
        res := true;
        var i := 0;
        while i < |op.inputs|
          invariant 0 <= i <= |op.inputs|
          invariant AnalysisCorrect()
          invariant res && forall j :: 0 <= j < i ==> Cacheable(ops, rank, op.inputs[j].digest)
        {
          res := IsCacheable(op.inputs[i].digest);
          if !res {
            break;
          }
          i := i + 1;
        }
      }
      cacheableMemo := cacheableMemo[d := res];
    }

    /** A fresh writable copy of a directory, or an empty directory. */
    method Snapshot(src: Option<DirId>) returns (r: Result<DirId, Failure>)
      requires DirsFresh() && (src.Some? ==> src.value in dirs)
      modifies this`dirs, this`nextDir
      ensures DirsFresh()
      ensures r.Err? ==> Excused(r.error, reliable) && dirs == old(dirs)
      ensures r.Ok? ==> r.value !in old(dirs)
      ensures r.Ok? ==> dirs == old(dirs)[r.value := if src.Some? then old(dirs)[src.value] else map[]]
    {
      if !reliable {
        if * {
          return Err(IoFailure);
        }
      }
      var dst := Dir(nextDir);
      dirs := dirs[dst := if src.Some? then dirs[src.value] else map[]];
      nextDir := nextDir + 1;
      r := Ok(dst);
    }

    method ExecSource(id: string) returns (r: Result<DirId, Failure>)
      requires DirsFresh() && LocalsKept() && ImagesKept()
      modifies this`dirs, this`nextDir, this`images
      ensures DirsFresh() && ImagesKept() && Untouched(old(dirs), dirs)
      ensures match SourceTree(w, ctx, id)
              case Ok(t) => r.Ok? && r.value in dirs && dirs[r.value] == t
              case Err(f) => r == Err(f)
    {
      if HasPrefix(id, LOCAL_SCHEME) {
        var name := id[|LOCAL_SCHEME|..];
        if name in localDirs {
          return Ok(localDirs[name]);
        }
        return Err(BadSource(id));
      }
      if HasPrefix(id, IMAGE_SCHEME) {
        var norm := ImageRef(id);
        if norm in images {
          return Ok(images[norm]);
        }
        match w.image(norm) {
          case None => return Err(ImageUnavailable(norm));
          case Some(t) =>
            var root := Dir(nextDir);
            dirs := dirs[root := t];
            nextDir := nextDir + 1;
            images := images[norm := root];
            return Ok(root);
        }
      }
      r := Err(BadSource(id));
    }

    // ----- Exec -----

    method SnapshotMount(m: Mount, inputDirs: seq<DirId>) returns (r: Result<DirId, Failure>)
      requires DirsFresh() && Exist(dirs, inputDirs)
      modifies this`dirs, this`nextDir
      ensures DirsFresh()
      ensures match r
              case Ok(x) =>
                var src := MountInput(m, Contents(old(dirs), inputDirs));
                x !in old(dirs) && src.Ok? && dirs == old(dirs)[x := OrEmpty(src.value)]
              case Err(f) =>
                dirs == old(dirs) && (Excused(f, reliable) || MountInput(m, Contents(old(dirs), inputDirs)) == Err(f))
    {
      var src := None;
      if m.input != EMPTY {
        if !(0 <= m.input < |inputDirs|) {
          return Err(Panic);
        }
        src := Some(inputDirs[m.input]);
      }
      r := Snapshot(src);
    }

    /** First pass of execExec: a snapshot for every root mount; the last one is the root. */
    method SnapshotRoots(mounts: seq<Mount>, inputDirs: seq<DirId>) returns (r: Result<RootDirs, Failure>)
      requires DirsFresh() && Exist(dirs, inputDirs)
      modifies this`dirs, this`nextDir
      ensures DirsFresh() && Untouched(old(dirs), dirs)
      ensures var meaning := RootsFrom(mounts, Contents(old(dirs), inputDirs), 0, Roots(None, SKIP_OUTPUT, map[]));
              match r
              case Ok(rd) => meaning.Ok? && RootsHeld(old(dirs), dirs, rd, meaning.value)
              case Err(f) => Excused(f, reliable) || meaning == Err(f)
    {
      ghost var inputs := Contents(dirs, inputDirs);
      var rd := RootDirs(None, SKIP_OUTPUT, map[]);
      ghost var acc := Roots(None, SKIP_OUTPUT, map[]);
      var k := 0;
      while k < |mounts|
        invariant 0 <= k <= |mounts|
        invariant DirsFresh() && Untouched(old(dirs), dirs)
        invariant RootsHeld(old(dirs), dirs, rd, acc)
        invariant RootsFrom(mounts, inputs, 0, Roots(None, SKIP_OUTPUT, map[])) == RootsFrom(mounts, inputs, k, acc)
      {
        var m := mounts[k];
        if IsRootMount(m) {
          assert Contents(dirs, inputDirs) == inputs;
          ghost var before := dirs;
          var snap := SnapshotMount(m, inputDirs);
          if snap.Err? {
            return Err(snap.error);
          }
          RootAdded(old(dirs), before, dirs, rd, acc, m, snap.value);
          acc := AddRoot(acc, m, dirs[snap.value]);
          rd := AddRootDir(rd, m, snap.value);
        }
        k := k + 1;
      }
      r := Ok(rd);
    }

    /** Second pass: every other mount is staged into the root directory, and only there. */
    method StageMounts(mounts: seq<Mount>, inputDirs: seq<DirId>, rootDir: DirId)
      returns (r: Result<seq<string>, Failure>)
      requires Exist(dirs, inputDirs) && rootDir in dirs && rootDir !in inputDirs
      modifies this`dirs
      ensures dirs.Keys == old(dirs).Keys && dirs == old(dirs)[rootDir := dirs[rootDir]]
      ensures match StageFrom(w, ctx, mounts, Contents(old(dirs), inputDirs), 0, Stage(old(dirs)[rootDir], []))
              case Ok(st) => r == Ok(st.secrets) && dirs[rootDir] == st.root
              case Err(f) => r == Err(f)
    {
      ghost var inputs := Contents(dirs, inputDirs);
      var secrets: seq<string> := [];
      var k := 0;
      while k < |mounts|
        invariant 0 <= k <= |mounts|
        invariant rootDir in dirs && dirs.Keys == old(dirs).Keys && dirs == old(dirs)[rootDir := dirs[rootDir]]
        invariant StageFrom(w, ctx, mounts, inputs, 0, Stage(old(dirs)[rootDir], []))
               == StageFrom(w, ctx, mounts, inputs, k, Stage(dirs[rootDir], secrets))
      {
        if !IsRootMount(mounts[k]) {
          assert Contents(dirs, inputDirs) == inputs;
          var st := StageMount(w, ctx, mounts[k], Contents(dirs, inputDirs), Stage(dirs[rootDir], secrets));
          if st.Err? {
            return Err(st.error);
          }
          dirs := dirs[rootDir := st.value.root];
          secrets := st.value.secrets;
        }
        k := k + 1;
      }
      r := Ok(secrets);
    }

    method RemoveFiles(rootDir: DirId, files: seq<string>)
      requires rootDir in dirs
      modifies this`dirs
      ensures dirs == old(dirs)[rootDir := RemoveFrom(w, files, 0, old(dirs)[rootDir])]
    {
      var k := 0;
      while k < |files|
        invariant 0 <= k <= |files|
        invariant rootDir in dirs && dirs == old(dirs)[rootDir := dirs[rootDir]]
        invariant RemoveFrom(w, files, 0, old(dirs)[rootDir]) == RemoveFrom(w, files, k, dirs[rootDir])
      {
        dirs := dirs[rootDir := w.remove(dirs[rootDir], files[k])];
        k := k + 1;
      }
    }

    method ExecExec(meta: Option<Meta>, mounts: seq<Mount>, inputDirs: seq<DirId>)
      returns (r: Result<map<Slot, DirId>, Failure>)
      requires DirsFresh() && Exist(dirs, inputDirs)
      modifies this`dirs, this`nextDir
      ensures DirsFresh() && Untouched(old(dirs), dirs)
      ensures Agrees(r, dirs, ExecOutputs(w, ctx, meta, mounts, Contents(old(dirs), inputDirs)), reliable)
    {
      if meta.None? {
        return Err(NoMeta);
      }
      ghost var inputs := Contents(dirs, inputDirs);
      var roots := SnapshotRoots(mounts, inputDirs);
      if roots.Err? {
        return Err(roots.error);
      }
      if roots.value.root.None? {
        return Err(NoRootMount);
      }
      var rd, rootDir := roots.value, roots.value.root.value;
      assert Contents(dirs, inputDirs) == inputs;
      ghost var staged := dirs;
      var secrets := StageMounts(mounts, inputDirs, rootDir);
      if secrets.Err? {
        return Err(secrets.error);
      }
      var out := RunCommand(w, meta.value, dirs[rootDir]);
      if out.Some? {
        dirs := dirs[rootDir := out.value];
      }
      RemoveFiles(rootDir, secrets.value);
      if out.None? {
        return Err(RunFailed);
      }
      r := Ok(rd.outs);
      ghost var plain := RootsFrom(mounts, inputs, 0, Roots(None, SKIP_OUTPUT, map[])).value;
      RootIsFinal(old(dirs), staged, dirs, rd, plain);
    }

    // ----- File -----

    method ApplyFileAction(act: FileAction, k: nat, work: DirId, state: seq<DirId>) returns (r: Result<Tree, Failure>)
      requires LocalsKept() && Exist(dirs, state) && work in dirs
      ensures r == ApplyAction(w, ctx, act, k, dirs[work], Contents(dirs, state))
    {
      if act.action.OtherAction? {
        return Err(ActionFailed(k));
      }
      var src := None;
      if act.action.Copy? {
        if act.secondary == EMPTY {
          src := if "context" in localDirs then Some(dirs[localDirs["context"]]) else None;
        } else {
          if act.secondary >= |state| {
            return Err(BadIndex(act.secondary));
          }
          if act.secondary < 0 {
            return Err(Panic);
          }
          src := Some(dirs[state[act.secondary]]);
        }
      }
      match w.apply(act.action, dirs[work], src) {
        case Some(t) => return Ok(t);
        case None => return Err(ActionFailed(k));
      }
    }

    /** One file action: a snapshot of its base, changed in place before anyone else holds it. */
    method RunFileAction(act: FileAction, k: nat, state: seq<DirId>) returns (r: Result<DirId, Failure>)
      requires DirsFresh() && LocalsKept() && Exist(dirs, state)
      modifies this`dirs, this`nextDir
      ensures DirsFresh() && Untouched(old(dirs), dirs)
      ensures var trees := Contents(old(dirs), state);
              var base := StateAt(trees, act.input);
              match r
              case Ok(x) =>
                && x !in old(dirs) && x in dirs && dirs == old(dirs)[x := dirs[x]]
                && base.Ok? && ApplyAction(w, ctx, act, k, OrEmpty(base.value), trees) == Ok(dirs[x])
              case Err(f) =>
                || Excused(f, reliable)
                || base == Err(f)
                || (base.Ok? && ApplyAction(w, ctx, act, k, OrEmpty(base.value), trees) == Err(f))
    {
      if act.input != EMPTY && !(0 <= act.input < |state|) {
        return Err(BadIndex(act.input));
      }
      var snap := Snapshot(if act.input == EMPTY then None else Some(state[act.input]));
      if snap.Err? {
        return Err(snap.error);
      }
      var work := snap.value;
      assert Contents(dirs, state) == Contents(old(dirs), state);
      var t := ApplyFileAction(act, k, work, state);
      if t.Err? {
        return Err(t.error);
      }
      dirs := dirs[work := t.value];
      r := Ok(work);
    }

    /** execFile: every action works on a fresh snapshot, which then joins the state. */
    method ExecFile(acts: seq<FileAction>, inputDirs: seq<DirId>) returns (r: Result<map<Slot, DirId>, Failure>)
      requires DirsFresh() && LocalsKept() && Exist(dirs, inputDirs)
      modifies this`dirs, this`nextDir
      ensures DirsFresh() && Untouched(old(dirs), dirs)
      ensures Agrees(r, dirs, FileFrom(w, ctx, acts, 0, Contents(old(dirs), inputDirs), map[]), reliable)
    {
      ghost var inputs := Contents(dirs, inputDirs);
      var state := inputDirs;
      var outs: map<Slot, DirId> := map[];
      ghost var trees: map<Slot, Tree> := map[];
      var k := 0;
      while k < |acts|
        invariant 0 <= k <= |acts|
        invariant DirsFresh() && Untouched(old(dirs), dirs) && LocalsKept()
        invariant Exist(dirs, state) && Holds(dirs, outs, trees)
        invariant FileFrom(w, ctx, acts, 0, inputs, map[]) == FileFrom(w, ctx, acts, k, Contents(dirs, state), trees)
      {
        ghost var before := dirs;
        var work := RunFileAction(acts[k], k, state);
        if work.Err? {
          return Err(work.error);
        }
        assert Contents(dirs, state + [work.value]) == Contents(before, state) + [dirs[work.value]];
        state := state + [work.value];
        if acts[k].output != SKIP_OUTPUT {
          outs, trees := outs[acts[k].output := work.value], trees[acts[k].output := dirs[work.value]];
        }
        k := k + 1;
      }
      if outs.Keys == {} {
        return Err(NoFileOutputs);
      }
      r := Ok(outs);
    }

    // ----- The cache -----

    /** cacheGet: fresh snapshots of a non-empty entry; a failed snapshot is a miss. */
    method CacheGet(d: Digest) returns (r: Option<map<Slot, DirId>>)
      requires DirsFresh()
      modifies this`dirs, this`nextDir
      ensures DirsFresh() && Untouched(old(dirs), dirs)
      ensures r.Some? ==> Hit(disk.entries, d) && Holds(dirs, r.value, disk.entries[d])
      ensures reliable && Hit(disk.entries, d) ==> r.Some?
    {
      if d !in disk.entries || disk.entries[d].Keys == {} {
        return None;
      }
      r := CopyOut(disk.entries[d]);
    }

    method CopyOut(entry: map<Slot, Tree>) returns (r: Option<map<Slot, DirId>>)
      requires DirsFresh()
      modifies this`dirs, this`nextDir
      ensures DirsFresh() && Untouched(old(dirs), dirs)
      ensures r.Some? ==> Holds(dirs, r.value, entry)
      ensures reliable ==> r.Some?
    {
      var outs: map<Slot, DirId> := map[];
      var todo := entry.Keys;
      while todo != {}
        invariant DirsFresh() && Untouched(old(dirs), dirs)
        invariant todo <= entry.Keys && outs.Keys == entry.Keys - todo
        invariant forall i :: i in outs ==> outs[i] in dirs && dirs[outs[i]] == entry[i]
        decreases todo
      {
        var idx :| idx in todo;
        if !reliable {
          if * {
            return None;
          }
        }
        var snap := Dir(nextDir);
        dirs := dirs[snap := entry[idx]];
        nextDir := nextDir + 1;
        outs := outs[idx := snap];
        todo := todo - {idx};
      }
      r := Some(outs);
    }

    /** cachePut: the copies are gathered aside and then replace the entry. If a step fails the old entry
        stays or is lost; nothing else changes. */
    method CachePut(d: Digest, outs: map<Slot, DirId>)
      requires forall i :: i in outs ==> outs[i] in dirs
      modifies disk
      ensures reliable ==> disk.entries == old(disk.entries)[d := Copied(dirs, outs)]
      ensures || disk.entries == old(disk.entries)
              || disk.entries == old(disk.entries) - {d}
              || disk.entries == old(disk.entries)[d := Copied(dirs, outs)]
    {
      var tmp: map<Slot, Tree> := map[];
      var todo := outs.Keys;
      while todo != {}
        invariant todo <= outs.Keys && tmp.Keys == outs.Keys - todo
        invariant forall i :: i in tmp ==> tmp[i] == dirs[outs[i]]
        decreases todo
      {
        var idx :| idx in todo;
        if !reliable {
          if * {
            return;
          }
        }
        tmp := tmp[idx := dirs[outs[idx]]];
        todo := todo - {idx};
      }
      assert tmp == Copied(dirs, outs);
      ghost var entries := disk.entries;
      disk.entries := disk.entries - {d};
      if !reliable {
        if * {
          return;
        }
      }
      disk.entries := disk.entries[d := tmp];
      assert disk.entries == entries[d := tmp];
    }

    // ----- The evaluator -----

    method InputDir(e: Edge) returns (r: Result<DirId, Failure>)
      requires Valid() && Settled()
      modifies this, disk
      ensures Valid() && Untouched(old(dirs), dirs) && Submap(old(opOutputs), opOutputs)
      ensures match r
              case Ok(x) => x in dirs && PickOutput(e, Mean(e.digest)) == Ok(dirs[x]) && Settled()
              case Err(f) => Excused(f, reliable) || PickOutput(e, Mean(e.digest)) == Err(f)
      ensures Ran(old(executed), executed, rank, rank(e.digest))
      ensures reliable ==> old(disk.entries).Keys <= disk.entries.Keys
      ensures reliable && Kept(e.digest) && old(Hit(disk.entries, e.digest)) ==> executed == old(executed)
      ensures reliable && Kept(e.digest) && e.digest !in old(opOutputs) && r.Ok? ==>
                e.digest in disk.entries && Mean(e.digest) == Ok(disk.entries[e.digest])
      decreases rank(e.digest), 3
    {
      var outs := OutputsOf(e.digest);
      if outs.Err? {
        return Err(outs.error);
      }
      if e.slot !in outs.value {
        return Err(NoOutput(e.digest, e.slot));
      }
      r := Ok(outs.value[e.slot]);
    }

    /** The inputs of an operation, in order, or the first failure. */
    method InputDirs(d: Digest) returns (r: Result<seq<DirId>, Failure>)
      requires Valid() && Settled() && d in ops
      modifies this, disk
      ensures Valid() && Untouched(old(dirs), dirs) && Submap(old(opOutputs), opOutputs)
      ensures match r
              case Ok(ids) =>
                && Exist(dirs, ids) && Settled()
                && EvalInputsOver(ops, rank, w, ctx, given, d, 0, []) == Ok(Contents(dirs, ids))
              case Err(f) => Excused(f, reliable) || EvalInputsOver(ops, rank, w, ctx, given, d, 0, []) == Err(f)
      ensures Ran(old(executed), executed, rank, rank(d) - 1)
      ensures reliable ==> old(disk.entries).Keys <= disk.entries.Keys
      decreases rank(d), 0, 1
    {
      var inputs := ops[d].inputs;
      var ids: seq<DirId> := [];
      var k := 0;
      while k < |inputs|
        invariant 0 <= k <= |inputs|
        invariant Valid() && Settled() && Untouched(old(dirs), dirs) && Submap(old(opOutputs), opOutputs)
        invariant Exist(dirs, ids)
        invariant reliable ==> old(disk.entries).Keys <= disk.entries.Keys
        invariant EvalInputsOver(ops, rank, w, ctx, given, d, 0, [])
                  == EvalInputsOver(ops, rank, w, ctx, given, d, k, Contents(dirs, ids))
        invariant Ran(old(executed), executed, rank, rank(d) - 1)
      {
        ghost var dirs1, memo1, ran := dirs, opOutputs, executed;
        var x := NextInput(d, k, ids);
        Carry(old(dirs), dirs1, dirs, old(opOutputs), memo1, opOutputs);
        RanMore(old(executed), ran, executed, rank, rank(d) - 1, rank(d) - 1);
        if x.Err? {
          return Err(x.error);
        }
        ids := ids + [x.value];
        k := k + 1;
      }
      r := Ok(ids);
    }

    method NextInput(d: Digest, k: nat, ids: seq<DirId>) returns (r: Result<DirId, Failure>)
      requires Valid() && Settled() && d in ops && k < |ops[d].inputs| && Exist(dirs, ids)
      modifies this, disk
      ensures Valid() && Untouched(old(dirs), dirs) && Submap(old(opOutputs), opOutputs)
      ensures match r
              case Ok(x) =>
                && Settled() && Exist(dirs, ids + [x])
                && EvalInputsOver(ops, rank, w, ctx, given, d, k, Contents(old(dirs), ids))
                   == EvalInputsOver(ops, rank, w, ctx, given, d, k + 1, Contents(dirs, ids + [x]))
              case Err(f) =>
                || Excused(f, reliable)
                || EvalInputsOver(ops, rank, w, ctx, given, d, k, Contents(old(dirs), ids)) == Err(f)
      ensures Ran(old(executed), executed, rank, rank(d) - 1)
      ensures reliable ==> old(disk.entries).Keys <= disk.entries.Keys
      decreases rank(d), 0, 0
    {
      ghost var before, ran := dirs, executed;
      var e := ops[d].inputs[k];
      r := InputDir(e);
      RanMore(ran, ran, executed, rank, rank(e.digest), rank(d) - 1);
      if r.Ok? {
        ContentsMore(before, dirs, ids, r.value);
      }
    }

    /** The switch of outputsOf. */
    method Dispatch(kind: Kind, ids: seq<DirId>) returns (r: Result<map<Slot, DirId>, Failure>)
      requires DirsFresh() && LocalsKept() && ImagesKept() && Exist(dirs, ids)
      modifies this`dirs, this`nextDir, this`images
      ensures DirsFresh() && ImagesKept() && Untouched(old(dirs), dirs)
      ensures Agrees(r, dirs, OpOutputs(w, ctx, Op([], kind), Contents(old(dirs), ids)), reliable)
    {
      match kind {
        case Source(id) =>
          var dir := ExecSource(id);
          r := if dir.Ok? then Ok(map[Slot(0) := dir.value]) else Err(dir.error);
        case Exec(meta, mounts) => r := ExecExec(meta, mounts, ids);
        case FileOp(acts) => r := ExecFile(acts, ids);
        case OtherOp => r := Err(BadOp);
      }
    }

    /** Run an operation on its input directories. */
    method RunOp(d: Digest, ids: seq<DirId>) returns (r: Result<map<Slot, DirId>, Failure>)
      requires Valid() && d in ops && Exist(dirs, ids) && d !in executed
      modifies this`dirs, this`nextDir, this`images, this`executed
      ensures Valid() && Untouched(old(dirs), dirs) && executed == old(executed) + [d]
      ensures Agrees(r, dirs, OpOutputs(w, ctx, ops[d], Contents(old(dirs), ids)), reliable)
    {
      executed := executed + [d];
      r := Dispatch(ops[d].kind, ids);
      MemoStillCorrect(ops, rank, w, ctx, given, old(dirs), dirs, opOutputs);
    }

    lemma FoundIsMeant(d: Digest)
      requires Graph() && DiskKept() && Kept(d) && Hit(disk.entries, d)
      ensures Mean(d) == Ok(disk.entries[d])
    {
      assert SourcedAt(ops, rank, w, ctx, cacheOn, given, start, disk.entries, d);
    }

    /** A hit in the cache, memoised. */
    method Recall(d: Digest) returns (hit: bool)
      requires Valid() && Kept(d)
      modifies this`dirs, this`nextDir, this`opOutputs
      ensures Valid() && Untouched(old(dirs), dirs)
      ensures hit ==> d in opOutputs && opOutputs == old(opOutputs)[d := opOutputs[d]]
      ensures !hit ==> opOutputs == old(opOutputs)
      ensures reliable && Hit(disk.entries, d) ==> hit
      ensures hit ==> Hit(disk.entries, d) && Mean(d) == Ok(disk.entries[d])
    {
      var found := CacheGet(d);
      MemoStillCorrect(ops, rank, w, ctx, given, old(dirs), dirs, opOutputs);
      hit := found.Some?;
      if hit {
        FoundIsMeant(d);
        MemoAdds(ops, rank, w, ctx, given, dirs, opOutputs, d, found.value);
        opOutputs := opOutputs[d := found.value];
      }
    }

    /** Store the memoised outputs of a cacheable operation: every entry is still sourced. */
    method Store(d: Digest)
      requires Valid() && Kept(d) && d in opOutputs && d !in given
      modifies disk
      ensures Valid()
      ensures reliable ==> disk.entries.Keys == old(disk.entries).Keys + {d} && Mean(d) == Ok(disk.entries[d])
    {
      var outs := opOutputs[d];
      assert MemoAt(ops, rank, w, ctx, given, dirs, opOutputs, d);
      CopyIsExact(dirs, outs, Mean(d).value);
      CachePut(d, outs);
      SourcedMore(old(disk.entries), disk.entries, d);
    }

    lemma SourcedMore(before: Entries, after: Entries, d: Digest)
      requires Graph() && Kept(d) && Sourced(ops, rank, w, ctx, cacheOn, given, start, before)
      requires Mean(d).Ok?
      requires after == before || after == before - {d} || after == before[d := Mean(d).value]
      ensures Sourced(ops, rank, w, ctx, cacheOn, given, start, after)
    {
      forall x | x in after
        ensures SourcedAt(ops, rank, w, ctx, cacheOn, given, start, after, x)
      {
        if x != d {
          assert SourcedAt(ops, rank, w, ctx, cacheOn, given, start, before, x);
        } else if x in before && after[x] == before[x] {
          assert SourcedAt(ops, rank, w, ctx, cacheOn, given, start, before, x);
        }
      }
    }

    /** Evaluate the inputs, run the operation, memoise its outputs. */
    method Compute(d: Digest) returns (r: Result<map<Slot, DirId>, Failure>)
      requires Valid() && Settled() && d in ops && d !in opOutputs && d !in given
      modifies this, disk
      ensures Valid() && Untouched(old(dirs), dirs) && Submap(old(opOutputs), opOutputs)
      ensures Agrees(r, dirs, Mean(d), reliable)
      ensures r.Ok? ==> Settled() && d in opOutputs && opOutputs[d] == r.value
      ensures Ran(old(executed), executed, rank, rank(d))
      ensures reliable ==> old(disk.entries).Keys <= disk.entries.Keys
      decreases rank(d), 1
    {
      var ids := InputDirs(d);
      if ids.Err? {
        return Err(ids.error);
      }
      NotRunYet(old(executed), executed, rank, d);
      RanOne(old(executed), executed, rank, d);
      r := RunOp(d, ids.value);
      if r.Ok? {
        MemoAdds(ops, rank, w, ctx, given, dirs, opOutputs, d, r.value);
        opOutputs := opOutputs[d := r.value];
      }
    }

    /** outputsOf: memo first, then the cache, then the inputs and the operation itself. Whatever the
        memo and the cache held, the answer is the plain meaning of the operation; no directory that
        existed before is written; and every operation runs at most once. */
    method OutputsOf(d: Digest) returns (r: Result<map<Slot, DirId>, Failure>)
      requires Valid() && Settled()
      modifies this, disk
      ensures Valid() && Untouched(old(dirs), dirs) && Submap(old(opOutputs), opOutputs)
      ensures Agrees(r, dirs, Mean(d), reliable)
      ensures r.Ok? ==> Settled() && d in opOutputs && opOutputs[d] == r.value
      ensures Ran(old(executed), executed, rank, rank(d))
      ensures reliable ==> old(disk.entries).Keys <= disk.entries.Keys
      ensures reliable && Kept(d) && old(Hit(disk.entries, d)) ==> executed == old(executed)
      ensures reliable && Kept(d) && d !in old(opOutputs) && r.Ok? ==>
                d in disk.entries && Mean(d) == Ok(disk.entries[d])
      decreases rank(d), 2
    {
      if d in opOutputs {
        assert MemoAt(ops, rank, w, ctx, given, dirs, opOutputs, d);
        return Ok(opOutputs[d]);
      }
      if d !in ops {
        return Err(UnknownOp(d));
      }
      var cacheable := false;
      if !ops[d].kind.Source? && cacheOn {
        cacheable := IsCacheable(d);
      }
      if cacheable {
        var hit := Recall(d);
        if hit {
          assert MemoAt(ops, rank, w, ctx, given, dirs, opOutputs, d);
          return Ok(opOutputs[d]);
        }
      }
      r := Compute(d);
      if r.Ok? && cacheable {
        Store(d);
      }
    }
  }

  /** Writing the root directory leaves every other output as it was. */
  lemma RootIsFinal(before: Dirs, staged: Dirs, dirs: Dirs, rd: RootDirs, roots: Roots)
    requires RootsHeld(before, staged, rd, roots) && rd.root.Some? && Untouched(before, staged)
    requires rd.root.value in dirs && dirs == staged[rd.root.value := dirs[rd.root.value]]
    ensures Untouched(before, dirs)
    ensures Holds(dirs, rd.outs,
                  if rd.slot != SKIP_OUTPUT then roots.outs[rd.slot := dirs[rd.root.value]] else roots.outs)
  {
  }

  // ----- Sequences of builds -----

  /** The directories a build starts with: one for every local source. */
  method PlaceLocals(locals: map<string, Tree>) returns (dirs: Dirs, localDirs: map<string, DirId>, nextDir: nat)
    ensures forall x :: x in dirs ==> x.n < nextDir
    ensures localDirs.Keys == locals.Keys
    ensures forall n :: n in localDirs ==> localDirs[n] in dirs && dirs[localDirs[n]] == locals[n]
  {
    dirs, localDirs, nextDir := map[], map[], 0;
    var todo := locals.Keys;
    while todo != {}
      invariant forall x :: x in dirs ==> x.n < nextDir
      invariant todo <= locals.Keys && localDirs.Keys == locals.Keys - todo
      invariant forall n :: n in localDirs ==> localDirs[n] in dirs && dirs[localDirs[n]] == locals[n]
      decreases todo
    {
      var n :| n in todo;
      dirs, localDirs, nextDir := dirs[Dir(nextDir) := locals[n]], localDirs[n := Dir(nextDir)], nextDir + 1;
      todo := todo - {n};
    }
  }

  /** The solver's answer to a request is the plain one; only unreliable file operations excuse another. */
  ghost predicate Answers(r: Result<Tree, Failure>, plain: Result<Tree, Failure>, reliable: bool) {
    (r.Err? && Excused(r.error, reliable)) || r == plain
  }

  predicate HasResult(req: Request) {
    req.verts != [] && req.verts[|req.verts| - 1].inputs != []
  }

  function ResultEdge(req: Request): Edge
    requires HasResult(req)
  {
    req.verts[|req.verts| - 1].inputs[0]
  }

  /** The result is an operation that the cache may hold. */
  ghost predicate ResultKept(req: Request, rank: Digest -> nat)
    requires Acyclic(req.ops, rank)
  {
    && HasResult(req)
    && var d := ResultEdge(req).digest;
       d in req.ops && !req.ops[d].kind.Source? && Cacheable(req.ops, rank, d)
  }

  /** One build. `ran` are the operations it ran, none twice. */
  method SolveLocals(req: Request, w: World, cacheOn: bool, reliable: bool, disk: DiskCache, ghost rank: Digest -> nat,
                     ghost given: Entries)
    returns (r: Result<Tree, Failure>, ghost ran: seq<Digest>)
    requires Acyclic(req.ops, rank) && Foretold(req.ops, rank, w, req.ctx, cacheOn, reliable, given, disk.entries)
    modifies disk
    ensures Sourced(req.ops, rank, w, req.ctx, cacheOn, given, old(disk.entries), disk.entries) && NoRepeats(ran)
    ensures Answers(r, SolveOver(req, rank, w, given), reliable)
    ensures reliable && cacheOn && ResultKept(req, rank) && Hit(old(disk.entries), ResultEdge(req).digest) ==> ran == []
    ensures reliable && cacheOn && ResultKept(req, rank) && r.Ok? ==>
              var e := ResultEdge(req);
              e.digest in disk.entries && e.slot in disk.entries[e.digest] &&
              r == Ok(disk.entries[e.digest][e.slot])
  {
    ran := [];
    if req.verts == [] {
      return Err(EmptyDefinition), ran;
    }
    var last := req.verts[|req.verts| - 1];
    if last.inputs == [] {
      return Err(NoResultEdge), ran;
    }
    var dirs, localDirs, nextDir := PlaceLocals(req.ctx.locals);
    var e := new Executor(req.ops, w, req.ctx, cacheOn, reliable, disk, rank, given, dirs, localDirs, nextDir);
    var dir := e.InputDir(last.inputs[0]);
    r := if dir.Ok? then Ok(e.dirs[dir.value]) else Err(dir.error);
    ran := e.executed;
  }

  lemma SolveOverNothing(req: Request, rank: Digest -> nat, w: World)
    requires Acyclic(req.ops, rank)
    ensures SolveOver(req, rank, w, map[]) == PlainSolve(req, rank, w)
  {
    if HasResult(req) {
      OverNothing(req.ops, rank, w, req.ctx, ResultEdge(req).digest);
    }
  }

  /** One build over a correct cache: the plain result, and the cache stays correct. */
  method SolveTrusted(req: Request, w: World, cacheOn: bool, reliable: bool, disk: DiskCache, ghost all: Ops,
                      ghost rank: Digest -> nat)
    returns (r: Result<Tree, Failure>)
    requires Trusted(req.ops, all, rank) && CacheCorrect(all, rank, w, disk.entries)
    modifies disk
    ensures CacheCorrect(all, rank, w, disk.entries)
    ensures Answers(r, PlainSolve(req, rank, w), reliable)
  {
    CorrectIsForetold(req.ops, all, rank, w, req.ctx, cacheOn, reliable, disk.entries);
    ghost var start := disk.entries;
    ghost var ran;
    r, ran := SolveLocals(req, w, cacheOn, reliable, disk, rank, map[]);
    SourcedIsCorrect(req.ops, all, rank, w, req.ctx, cacheOn, start, disk.entries);
    SolveOverNothing(req, rank, w);
  }

  /** Any sequence of builds over one cache, whatever contexts they bring: every build returns
      what it would return alone, without a memo and without a cache. */
  method SolveAll(reqs: seq<Request>, w: World, reliable: bool, ghost all: Ops, ghost rank: Digest -> nat)
    returns (rs: seq<Result<Tree, Failure>>)
    requires Acyclic(all, rank) && SourcesAreLeaves(all) && Sealed(all, rank)
    requires forall i :: 0 <= i < |reqs| ==> Submap(reqs[i].ops, all)
    ensures |rs| == |reqs|
    ensures forall i :: 0 <= i < |reqs| ==>
              Acyclic(reqs[i].ops, rank) && Answers(rs[i], PlainSolve(reqs[i], rank, w), reliable)
  {
    var disk := new DiskCache();
    rs := [];
    while |rs| < |reqs|
      invariant |rs| <= |reqs|
      invariant fresh(disk) && CacheCorrect(all, rank, w, disk.entries)
      invariant forall i :: 0 <= i < |rs| ==>
                  Acyclic(reqs[i].ops, rank) && Answers(rs[i], PlainSolve(reqs[i], rank, w), reliable)
    {
      var cacheOn :| true;
      var r := SolveTrusted(reqs[|rs|], w, cacheOn, reliable, disk, all, rank);
      rs := rs + [r];
    }
  }

  /** A build of the same graph in another context, when the result may be cached, runs nothing at all
      and returns the same tree: over any cache and whether or not that is what the other context means. */
  method SolveAgain(req: Request, ctx: Context, w: World, disk: DiskCache, ghost rank: Digest -> nat)
    returns (first: Result<Tree, Failure>, second: Result<Tree, Failure>, ghost ran: seq<Digest>)
    requires Acyclic(req.ops, rank)
    modifies disk
    ensures first == SolveOver(req, rank, w, Found(req.ops, rank, true, old(disk.entries)))
    ensures ResultKept(req, rank) && first.Ok? ==> ran == [] && second == first
  {
    ghost var ran0;
    ghost var found := Found(req.ops, rank, true, disk.entries);
    FoundIsForetold(req.ops, rank, w, req.ctx, true, disk.entries);
    first, ran0 := SolveLocals(req, w, true, true, disk, rank, found);
    found := Found(req.ops, rank, true, disk.entries);
    FoundIsForetold(req.ops, rank, w, ctx, true, disk.entries);
    second, ran := SolveLocals(req.(ctx := ctx), w, true, true, disk, rank, found);
  }

  /** The plain result of the request in one build is not that in another. */
  ghost predicate BuildsDiffer(req: Request, rank: Digest -> nat, w: World, c1: Context, c2: Context)
    requires Acyclic(req.ops, rank)
  {
    && PlainSolve(req.(ctx := c1), rank, w).Ok?
    && PlainSolve(req.(ctx := c2), rank, w) != PlainSolve(req.(ctx := c1), rank, w)
  }

  lemma NothingFound(ops: Ops, rank: Digest -> nat, cacheOn: bool)
    requires Acyclic(ops, rank)
    ensures Found(ops, rank, cacheOn, map[]) == map[]
  {
  }

  /** Two builds over an empty cache whose plain results differ: the second returns the first one's. */
  method SolveStale(req: Request, ctx: Context, w: World, ghost rank: Digest -> nat)
    returns (first: Result<Tree, Failure>, second: Result<Tree, Failure>)
    requires Acyclic(req.ops, rank) && ResultKept(req, rank) && BuildsDiffer(req, rank, w, req.ctx, ctx)
    ensures first == PlainSolve(req, rank, w)
    ensures second == first != PlainSolve(req.(ctx := ctx), rank, w)
  {
    NothingFound(req.ops, rank, true);
    SolveOverNothing(req, rank, w);
    assert req.(ctx := req.ctx) == req;
    var disk := new DiskCache();
    ghost var ran;
    first, second, ran := SolveAgain(req, ctx, w, disk, rank);
  }

  /** There are such builds exactly if the result can succeed and something below it reads the build. */
  lemma StaleBuildsExactly(req: Request, rank: Digest -> nat)
    requires Acyclic(req.ops, rank) && SourcesAreLeaves(req.ops) && ResultKept(req, rank)
    ensures var e := ResultEdge(req);
            Feasible(req.ops, rank, e.digest) && e.slot in Slots(req.ops[e.digest])
            && Tainted(req.ops, rank, e.digest) <==>
            exists w: World, c1: Context, c2: Context :: BuildsDiffer(req, rank, w, c1, c2)
  {
    var e := ResultEdge(req);
    EdgeStaleExactly(req.ops, rank, e);
    forall w: World, c1: Context, c2: Context
      ensures BuildsDiffer(req, rank, w, c1, c2) <==> EdgeDiffers(req.ops, rank, w, c1, c2, e)
    {
    }
  }
}
