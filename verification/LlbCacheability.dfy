/** Which operations the persistent cache may hold, and why such an operation's
    outputs do not depend on the build that computed them. */
module LlbCacheability {
  import opened Wrappers
  import opened Llb

  predicate IsImageSource(op: Op) {
    op.kind.Source? && HasPrefix(op.kind.id, IMAGE_SCHEME)
  }

  /** The answer of isCacheable: a known image source, or a known operation of
      another kind all of whose inputs qualify. */
  ghost predicate Cacheable(ops: Ops, rank: Digest -> nat, d: Digest)
    requires Acyclic(ops, rank)
    decreases rank(d)
  {
    d in ops &&
    if ops[d].kind.Source? then IsImageSource(ops[d])
    else forall i :: 0 <= i < |ops[d].inputs| ==> Cacheable(ops, rank, ops[d].inputs[i].digest)
  }

  // ----- Reachability -----

  /** A chain of digests, each an input of the operation before it. Sources end a chain. */
  ghost predicate Chain(ops: Ops, p: seq<Digest>) {
    p != [] && forall i :: 0 <= i < |p| - 1 ==> InputOf(ops, p[i], p[i + 1])
  }

  ghost predicate InputOf(ops: Ops, d: Digest, x: Digest) {
    d in ops && !ops[d].kind.Source? && exists j :: 0 <= j < |ops[d].inputs| && ops[d].inputs[j].digest == x
  }

  ghost predicate Reaches(ops: Ops, d: Digest, x: Digest) {
    exists p :: Chain(ops, p) && p[0] == d && p[|p| - 1] == x
  }

  ghost predicate KnownAndPinned(ops: Ops, x: Digest) {
    x in ops && (ops[x].kind.Source? ==> IsImageSource(ops[x]))
  }

  /** isCacheable is exact: it accepts d just when every digest reachable from d is known
      and every reachable source is an image. */
  lemma CacheableExact(ops: Ops, rank: Digest -> nat, d: Digest)
    requires Acyclic(ops, rank)
    ensures Cacheable(ops, rank, d) <==> forall x :: Reaches(ops, d, x) ==> KnownAndPinned(ops, x)
  {
    if Cacheable(ops, rank, d) {
      forall x | Reaches(ops, d, x)
        ensures KnownAndPinned(ops, x)
      {
        var p :| Chain(ops, p) && p[0] == d && p[|p| - 1] == x;
        CacheableAlongChain(ops, rank, p);
      }
    }
    if forall x :: Reaches(ops, d, x) ==> KnownAndPinned(ops, x) {
      PinnedIsCacheable(ops, rank, d);
    }
  }

  lemma {:induction false} CacheableAlongChain(ops: Ops, rank: Digest -> nat, p: seq<Digest>)
    requires Acyclic(ops, rank) && Chain(ops, p) && Cacheable(ops, rank, p[0])
    ensures KnownAndPinned(ops, p[|p| - 1])
    decreases |p|
  {
    if |p| > 1 {
      assert InputOf(ops, p[0], p[1]);
      forall i | 0 <= i < |p[1..]| - 1
        ensures InputOf(ops, p[1..][i], p[1..][i + 1])
      {
        assert InputOf(ops, p[i + 1], p[i + 2]);
      }
      CacheableAlongChain(ops, rank, p[1..]);
    }
  }

  lemma {:induction false} PinnedIsCacheable(ops: Ops, rank: Digest -> nat, d: Digest)
    requires Acyclic(ops, rank)
    requires forall x :: Reaches(ops, d, x) ==> KnownAndPinned(ops, x)
    ensures Cacheable(ops, rank, d)
    decreases rank(d)
  {
    assert Chain(ops, [d]);
    assert Reaches(ops, d, d);
    if !ops[d].kind.Source? {
      forall i | 0 <= i < |ops[d].inputs|
        ensures Cacheable(ops, rank, ops[d].inputs[i].digest)
      {
        var e := ops[d].inputs[i].digest;
        assert InputOf(ops, d, e);
        forall x | Reaches(ops, e, x)
          ensures Reaches(ops, d, x)
        {
          var p :| Chain(ops, p) && p[0] == e && p[|p| - 1] == x;
          assert Chain(ops, [d] + p);
        }
        PinnedIsCacheable(ops, rank, e);
      }
    }
  }

  // ----- Operations whose stored outputs can be stale -----

  predicate InRange(index: int, n: nat) {
    index == EMPTY || 0 <= index < n
  }

  predicate ReadsContext(act: FileAction) {
    act.action.Copy? && act.secondary == EMPTY
  }

  /** The action gets as far as the file system when n directories are at hand. */
  predicate RunnableAction(act: FileAction, n: nat) {
    InRange(act.input, n) && !act.action.OtherAction? && (act.action.Copy? ==> InRange(act.secondary, n))
  }

  predicate ReadsSecret(m: Mount) {
    m.kind.Secret? && m.secret.Some?
  }

  predicate RunnableMount(m: Mount, n: nat) {
    match m.kind
    case Bind => InRange(m.input, n)
    case OtherMount => false
    case _ => true
  }

  predicate RunnableFile(acts: seq<FileAction>, n: nat) {
    && (forall i :: 0 <= i < |acts| ==> RunnableAction(acts[i], n + i))
    && (exists i :: 0 <= i < |acts| && acts[i].output != SKIP_OUTPUT)
  }

  predicate RunnableExec(meta: Option<Meta>, mounts: seq<Mount>, n: nat) {
    && meta.Some?
    && (forall i :: 0 <= i < |mounts| ==> RunnableMount(mounts[i], n))
    && (exists i :: 0 <= i < |mounts| && IsRootMount(mounts[i]))
  }

  /** The operation can succeed: no step of it is refused before it reaches the file system. */
  predicate Runnable(op: Op) {
    match op.kind
    case Source(id) => HasPrefix(id, LOCAL_SCHEME) || HasPrefix(id, IMAGE_SCHEME)
    case Exec(meta, mounts) => RunnableExec(meta, mounts, |op.inputs|)
    case FileOp(acts) => RunnableFile(acts, |op.inputs|)
    case OtherOp => false
  }

  /** The operation reads what a build brings: a local source, a secret, or the build context. */
  predicate ReadsBuild(op: Op) {
    match op.kind
    case Source(id) => HasPrefix(id, LOCAL_SCHEME)
    case Exec(_, mounts) => exists i :: 0 <= i < |mounts| && ReadsSecret(mounts[i])
    case FileOp(acts) => exists i :: 0 <= i < |acts| && ReadsContext(acts[i])
    case OtherOp => false
  }

  /** Outputs of the operation, stored in one build, can be wrong in another. */
  predicate Stale(op: Op) {
    Runnable(op) && ReadsBuild(op)
  }

  /** The outputs the operation exposes when it succeeds. */
  function Slots(op: Op): set<Slot> {
    match op.kind
    case Source(_) => {Slot(0)}
    case Exec(_, mounts) => RootSlots(mounts, 0)
    case FileOp(acts) => FileSlots(acts, 0)
    case OtherOp => {}
  }

  function RootSlots(mounts: seq<Mount>, k: nat): set<Slot>
    requires k <= |mounts|
    decreases |mounts| - k
  {
    if k == |mounts| then {}
    else
      (if IsRootMount(mounts[k]) && mounts[k].output != SKIP_OUTPUT then {mounts[k].output} else {})
      + RootSlots(mounts, k + 1)
  }

  function FileSlots(acts: seq<FileAction>, k: nat): set<Slot>
    requires k <= |acts|
    decreases |acts| - k
  {
    if k == |acts| then {}
    else (if acts[k].output != SKIP_OUTPUT then {acts[k].output} else {}) + FileSlots(acts, k + 1)
  }

  // ----- Without such reads outputs do not depend on the build -----

  lemma {:induction false} StagesAlike(w: World, c1: Context, c2: Context, mounts: seq<Mount>, inputs: seq<Tree>,
                                       k: nat, st: Stage)
    requires k <= |mounts|
    requires forall i :: 0 <= i < |mounts| ==> !ReadsSecret(mounts[i])
    ensures StageFrom(w, c1, mounts, inputs, k, st) == StageFrom(w, c2, mounts, inputs, k, st)
    decreases |mounts| - k
  {
    if k < |mounts| {
      if IsRootMount(mounts[k]) {
        StagesAlike(w, c1, c2, mounts, inputs, k + 1, st);
      } else {
        assert !ReadsSecret(mounts[k]);
        var r := StageMount(w, c1, mounts[k], inputs, st);
        assert r == StageMount(w, c2, mounts[k], inputs, st);
        if r.Ok? {
          StagesAlike(w, c1, c2, mounts, inputs, k + 1, r.value);
        }
      }
    }
  }

  lemma {:induction false} FilesAlike(w: World, c1: Context, c2: Context, acts: seq<FileAction>, k: nat,
                                      state: seq<Tree>, outs: map<Slot, Tree>)
    requires k <= |acts|
    requires forall i :: 0 <= i < |acts| ==> !ReadsContext(acts[i])
    ensures FileFrom(w, c1, acts, k, state, outs) == FileFrom(w, c2, acts, k, state, outs)
    decreases |acts| - k
  {
    if k < |acts| {
      var base := StateAt(state, acts[k].input);
      if base.Ok? {
        assert !ReadsContext(acts[k]);
        var r := ApplyAction(w, c1, acts[k], k, OrEmpty(base.value), state);
        assert r == ApplyAction(w, c2, acts[k], k, OrEmpty(base.value), state);
        if r.Ok? {
          FilesAlike(w, c1, c2, acts, k + 1, state + [r.value], Exposed(outs, acts[k], r.value));
        }
      }
    }
  }

  // ----- An operation that succeeds was runnable -----

  lemma {:induction false} FileSucceeds(w: World, ctx: Context, acts: seq<FileAction>, k: nat, state: seq<Tree>,
                                        outs: map<Slot, Tree>)
    requires k <= |acts| && FileFrom(w, ctx, acts, k, state, outs).Ok?
    ensures forall i :: k <= i < |acts| ==> RunnableAction(acts[i], |state| + i - k)
    ensures outs.Keys == {} ==> exists i :: k <= i < |acts| && acts[i].output != SKIP_OUTPUT
    ensures FileFrom(w, ctx, acts, k, state, outs).value.Keys == outs.Keys + FileSlots(acts, k)
    decreases |acts| - k
  {
    if k < |acts| {
      var base := StateAt(state, acts[k].input);
      var r := ApplyAction(w, ctx, acts[k], k, OrEmpty(base.value), state);
      FileSucceeds(w, ctx, acts, k + 1, state + [r.value], Exposed(outs, acts[k], r.value));
    }
  }

  ghost predicate SlotExposed(roots: Roots) {
    roots.root.None? || roots.slot == SKIP_OUTPUT || roots.slot in roots.outs
  }

  lemma {:induction false} RootsSucceed(mounts: seq<Mount>, inputs: seq<Tree>, k: nat, acc: Roots)
    requires k <= |mounts| && RootsFrom(mounts, inputs, k, acc).Ok? && SlotExposed(acc)
    ensures forall i :: k <= i < |mounts| && IsRootMount(mounts[i]) ==> RunnableMount(mounts[i], |inputs|)
    ensures acc.root.None? && RootsFrom(mounts, inputs, k, acc).value.root.Some? ==>
              exists i :: k <= i < |mounts| && IsRootMount(mounts[i])
    ensures RootsFrom(mounts, inputs, k, acc).value.outs.Keys == acc.outs.Keys + RootSlots(mounts, k)
    ensures SlotExposed(RootsFrom(mounts, inputs, k, acc).value)
    decreases |mounts| - k
  {
    if k < |mounts| {
      var m := mounts[k];
      var next := if IsRootMount(m) then AddRoot(acc, m, OrEmpty(MountInput(m, inputs).value)) else acc;
      RootsSucceed(mounts, inputs, k + 1, next);
    }
  }

  lemma {:induction false} StagesSucceed(w: World, ctx: Context, mounts: seq<Mount>, inputs: seq<Tree>, k: nat,
                                         st: Stage)
    requires k <= |mounts| && StageFrom(w, ctx, mounts, inputs, k, st).Ok?
    ensures forall i :: k <= i < |mounts| && !IsRootMount(mounts[i]) ==> RunnableMount(mounts[i], |inputs|)
    decreases |mounts| - k
  {
    if k < |mounts| {
      var next := if IsRootMount(mounts[k]) then st else StageMount(w, ctx, mounts[k], inputs, st).value;
      StagesSucceed(w, ctx, mounts, inputs, k + 1, next);
    }
  }

  /** An operation that succeeds was runnable, and its outputs are those it exposes. */
  lemma OpSucceeds(w: World, ctx: Context, op: Op, inputs: seq<Tree>)
    requires |inputs| == |op.inputs| && OpOutputs(w, ctx, op, inputs).Ok?
    ensures Runnable(op) && OpOutputs(w, ctx, op, inputs).value.Keys == Slots(op)
  {
    match op.kind
    case Source(id) =>
    case Exec(meta, mounts) =>
      var none := Roots(None, SKIP_OUTPUT, map[]);
      var root := Stage(RootsFrom(mounts, inputs, 0, none).value.root.value, []);
      RootsSucceed(mounts, inputs, 0, none);
      StagesSucceed(w, ctx, mounts, inputs, 0, root);
    case FileOp(acts) => FileSucceeds(w, ctx, acts, 0, inputs, map[]);
    case OtherOp =>
  }

  /** What reads nothing of the build is the same in every build, also when it fails. */
  lemma UnreadIsAlike(w: World, c1: Context, c2: Context, op: Op, inputs: seq<Tree>)
    requires !ReadsBuild(op)
    ensures OpOutputs(w, c2, op, inputs) == OpOutputs(w, c1, op, inputs)
  {
    match op.kind
    case Source(id) =>
    case Exec(meta, mounts) =>
      var roots := RootsFrom(mounts, inputs, 0, Roots(None, SKIP_OUTPUT, map[]));
      if roots.Ok? && roots.value.root.Some? {
        StagesAlike(w, c1, c2, mounts, inputs, 0, Stage(roots.value.root.value, []));
      }
    case FileOp(acts) => FilesAlike(w, c1, c2, acts, 0, inputs, map[]);
    case OtherOp =>
  }

  /** Outputs of an operation that is not stale are the same in every build. */
  lemma FreshIsAlike(w: World, c1: Context, c2: Context, op: Op, inputs: seq<Tree>)
    requires !Stale(op) && |inputs| == |op.inputs| && OpOutputs(w, c1, op, inputs).Ok?
    ensures OpOutputs(w, c2, op, inputs) == OpOutputs(w, c1, op, inputs)
  {
    OpSucceeds(w, c1, op, inputs);
    UnreadIsAlike(w, c1, c2, op, inputs);
  }

  // ----- With them they do -----

  ghost const MARK: Tree := map["a" := File("x", 420)]

  /** A world where everything works, except copying from MARK and writing the secret "t". */
  ghost function PickyWorld(): World {
    World(_ => Some(map[]), (_, _, _) => Some(map[]), (_, _) => Some(map[]),
          (_, _, secret, _) => if secret == "t" then None else Some(map[]),
          (_, _) => map[], (_, _) => Some(map[]), (_, _, src) => if src == Some(MARK) then None else Some(map[]))
  }

  /** The secrets the operation asks for all have this value. */
  ghost predicate Supplies(ctx: Context, op: Op, value: Bytes) {
    op.kind.Exec? ==>
      forall i :: 0 <= i < |op.kind.mounts| && ReadsSecret(op.kind.mounts[i]) ==>
        var id := op.kind.mounts[i].secret.value.id; id in ctx.secrets && ctx.secrets[id] == value
  }

  ghost function SecretIds(ops: Ops): set<string> {
    set d, m | d in ops && ops[d].kind.Exec? && m in ops[d].kind.mounts && ReadsSecret(m) :: m.secret.value.id
  }

  /** A build in which everything that can run does, and one in which no read of it goes well. */
  ghost function Works(ops: Ops): Context {
    Context(map[], map id | id in SecretIds(ops) :: "s")
  }

  ghost function Breaks(ops: Ops): Context {
    Context(map["context" := MARK], map id | id in SecretIds(ops) :: "t")
  }

  lemma BothSupply(ops: Ops, d: Digest)
    requires d in ops
    ensures Supplies(Works(ops), ops[d], "s") && Supplies(Breaks(ops), ops[d], "t")
  {
    if ops[d].kind.Exec? {
      var mounts := ops[d].kind.mounts;
      forall i | 0 <= i < |mounts| && ReadsSecret(mounts[i])
        ensures mounts[i].secret.value.id in SecretIds(ops)
      {
        assert mounts[i] in mounts;
      }
    }
  }

  ghost predicate AllEmpty(state: seq<Tree>) {
    forall i :: 0 <= i < |state| ==> state[i] == map[]
  }

  ghost predicate EmptyOutputs(r: Result<map<Slot, Tree>, Failure>) {
    r.Ok? && forall i :: i in r.value ==> r.value[i] == map[]
  }

  lemma {:induction false} FileRuns(ctx: Context, acts: seq<FileAction>, k: nat, state: seq<Tree>,
                                    outs: map<Slot, Tree>)
    requires k <= |acts| && AllEmpty(state) && EmptyOutputs(Ok(outs)) && "context" !in ctx.locals
    requires forall i :: k <= i < |acts| ==> RunnableAction(acts[i], |state| + i - k)
    requires outs.Keys != {} || exists i :: k <= i < |acts| && acts[i].output != SKIP_OUTPUT
    ensures EmptyOutputs(FileFrom(PickyWorld(), ctx, acts, k, state, outs))
    decreases |acts| - k
  {
    if k < |acts| {
      assert RunnableAction(acts[k], |state| + k - k);
      assert "a" in MARK;
      var base := StateAt(state, acts[k].input);
      var r := ApplyAction(PickyWorld(), ctx, acts[k], k, OrEmpty(base.value), state);
      assert r == Ok(map[]);
      assert acts[k].output != SKIP_OUTPUT ==> acts[k].output in Exposed(outs, acts[k], map[]);
      FileRuns(ctx, acts, k + 1, state + [map[]], Exposed(outs, acts[k], map[]));
    }
  }

  lemma {:induction false} FileFails(ctx: Context, acts: seq<FileAction>, k: nat, state: seq<Tree>,
                                     outs: map<Slot, Tree>)
    requires k <= |acts| && exists i :: k <= i < |acts| && ReadsContext(acts[i])
    requires "context" in ctx.locals && ctx.locals["context"] == MARK
    ensures FileFrom(PickyWorld(), ctx, acts, k, state, outs).Err?
    decreases |acts| - k
  {
    var base := StateAt(state, acts[k].input);
    if base.Ok? && !ReadsContext(acts[k]) {
      var r := ApplyAction(PickyWorld(), ctx, acts[k], k, OrEmpty(base.value), state);
      if r.Ok? {
        FileFails(ctx, acts, k + 1, state + [r.value], Exposed(outs, acts[k], r.value));
      }
    }
  }

  ghost predicate EmptyRoots(roots: Roots) {
    EmptyOutputs(Ok(roots.outs)) && (roots.root.Some? ==> roots.root.value == map[])
  }

  lemma {:induction false} RootsRun(mounts: seq<Mount>, inputs: seq<Tree>, k: nat, acc: Roots)
    requires k <= |mounts| && forall i :: k <= i < |mounts| ==> RunnableMount(mounts[i], |inputs|)
    requires acc.root.Some? || exists i :: k <= i < |mounts| && IsRootMount(mounts[i])
    requires AllEmpty(inputs) && EmptyRoots(acc)
    ensures RootsFrom(mounts, inputs, k, acc).Ok? && RootsFrom(mounts, inputs, k, acc).value.root.Some?
    ensures EmptyRoots(RootsFrom(mounts, inputs, k, acc).value)
    decreases |mounts| - k
  {
    if k < |mounts| {
      var m := mounts[k];
      var next := if IsRootMount(m) then AddRoot(acc, m, OrEmpty(MountInput(m, inputs).value)) else acc;
      RootsRun(mounts, inputs, k + 1, next);
    }
  }

  lemma {:induction false} StagesRun(ctx: Context, op: Op, inputs: seq<Tree>, k: nat, st: Stage)
    requires op.kind.Exec? && Supplies(ctx, op, "s") && k <= |op.kind.mounts| && st.root == map[]
    requires forall i :: k <= i < |op.kind.mounts| ==> RunnableMount(op.kind.mounts[i], |inputs|)
    ensures var r := StageFrom(PickyWorld(), ctx, op.kind.mounts, inputs, k, st); r.Ok? && r.value.root == map[]
    decreases |op.kind.mounts| - k
  {
    if k < |op.kind.mounts| {
      var m := op.kind.mounts[k];
      var next := if IsRootMount(m) then Ok(st) else StageMount(PickyWorld(), ctx, m, inputs, st);
      assert next.Ok? && next.value.root == map[];
      StagesRun(ctx, op, inputs, k + 1, next.value);
    }
  }

  lemma {:induction false} StagesFail(ctx: Context, op: Op, inputs: seq<Tree>, k: nat, st: Stage)
    requires op.kind.Exec? && Supplies(ctx, op, "t") && k <= |op.kind.mounts|
    requires exists i :: k <= i < |op.kind.mounts| && ReadsSecret(op.kind.mounts[i])
    ensures StageFrom(PickyWorld(), ctx, op.kind.mounts, inputs, k, st).Err?
    decreases |op.kind.mounts| - k
  {
    var m := op.kind.mounts[k];
    if !ReadsSecret(m) {
      var next := if IsRootMount(m) then Ok(st) else StageMount(PickyWorld(), ctx, m, inputs, st);
      if next.Ok? {
        StagesFail(ctx, op, inputs, k + 1, next.value);
      }
    }
  }

  lemma {:induction false} RemovesNothing(files: seq<string>, k: nat)
    requires k <= |files|
    ensures RemoveFrom(PickyWorld(), files, k, map[]) == map[]
    decreases |files| - k
  {
    if k < |files| {
      RemovesNothing(files, k + 1);
    }
  }

  /** An operation that can succeed does, on empty inputs, in a build that supplies what it asks for. */
  lemma OpRuns(ctx: Context, op: Op, inputs: seq<Tree>)
    requires Runnable(op) && |inputs| == |op.inputs| && AllEmpty(inputs)
    requires Supplies(ctx, op, "s") && "context" !in ctx.locals
    requires op.kind.Source? ==> IsImageSource(op)
    ensures EmptyOutputs(OpOutputs(PickyWorld(), ctx, op, inputs))
  {
    match op.kind
    case Source(id) =>
      assert !HasPrefix(id, LOCAL_SCHEME) by { assert IMAGE_SCHEME[0] != LOCAL_SCHEME[0]; }
    case Exec(meta, mounts) =>
      var none := Roots(None, SKIP_OUTPUT, map[]);
      RootsRun(mounts, inputs, 0, none);
      StagesRun(ctx, op, inputs, 0, Stage(map[], []));
      RemovesNothing(StageFrom(PickyWorld(), ctx, mounts, inputs, 0, Stage(map[], [])).value.secrets, 0);
    case FileOp(acts) => FileRuns(ctx, acts, 0, inputs, map[]);
  }

  /** An operation that reads the build fails in one where no read goes well. */
  lemma OpFails(ctx: Context, op: Op, inputs: seq<Tree>)
    requires ReadsBuild(op) && !op.kind.Source?
    requires Supplies(ctx, op, "t") && "context" in ctx.locals && ctx.locals["context"] == MARK
    ensures OpOutputs(PickyWorld(), ctx, op, inputs).Err?
  {
    match op.kind
    case Exec(meta, mounts) =>
      var roots := RootsFrom(mounts, inputs, 0, Roots(None, SKIP_OUTPUT, map[]));
      if roots.Ok? && roots.value.root.Some? {
        StagesFail(ctx, op, inputs, 0, Stage(roots.value.root.value, []));
      }
    case FileOp(acts) => FileFails(ctx, acts, 0, inputs, map[]);
  }

  /** The operation's outputs in one build are not those in another. */
  ghost predicate Differs(op: Op, w: World, c1: Context, c2: Context, inputs: seq<Tree>) {
    && |inputs| == |op.inputs|
    && OpOutputs(w, c1, op, inputs).Ok? && OpOutputs(w, c2, op, inputs) != OpOutputs(w, c1, op, inputs)
  }

  lemma StaleDiffers(op: Op) returns (c1: Context, c2: Context, inputs: seq<Tree>)
    requires Stale(op)
    ensures Differs(op, PickyWorld(), c1, c2, inputs)
  {
    inputs := seq(|op.inputs|, i => map[]);
    if op.kind.Source? {
      c1, c2 := Context(map[op.kind.id[|LOCAL_SCHEME|..] := map[]], map[]), Context(map[], map[]);
    } else {
      var ops := map["" := op];
      c1, c2 := Works(ops), Breaks(ops);
      BothSupply(ops, "");
      OpRuns(c1, op, inputs);
      OpFails(c2, op, inputs);
    }
  }

  /** Exactly the stale operations can have outputs in one build that are wrong in another. */
  lemma StaleExactly(op: Op)
    ensures Stale(op) <==>
            exists w: World, c1: Context, c2: Context, inputs: seq<Tree> :: Differs(op, w, c1, c2, inputs)
  {
    if Stale(op) {
      var c1, c2, inputs := StaleDiffers(op);
    } else {
      forall w: World, c1: Context, c2: Context, inputs: seq<Tree>
        ensures !Differs(op, w, c1, c2, inputs)
      {
        if |inputs| == |op.inputs| && OpOutputs(w, c1, op, inputs).Ok? {
          FreshIsAlike(w, c1, c2, op, inputs);
        }
      }
    }
  }

  // ----- The whole graph -----

  ghost predicate SourcesAreLeaves(ops: Ops) {
    forall d :: d in ops && ops[d].kind.Source? ==> ops[d].inputs == []
  }

  /** The operation and everything below it can succeed, with the outputs that are asked for. */
  ghost predicate Feasible(ops: Ops, rank: Digest -> nat, d: Digest)
    requires Acyclic(ops, rank)
    decreases rank(d)
  {
    && d in ops && Runnable(ops[d])
    && forall i :: 0 <= i < |ops[d].inputs| ==>
         Feasible(ops, rank, ops[d].inputs[i].digest) && ops[d].inputs[i].slot in Slots(ops[ops[d].inputs[i].digest])
  }

  /** The operation or one below it reads what the build brings. */
  ghost predicate Tainted(ops: Ops, rank: Digest -> nat, d: Digest)
    requires Acyclic(ops, rank)
    decreases rank(d)
  {
    d in ops &&
    (ReadsBuild(ops[d]) || exists i :: 0 <= i < |ops[d].inputs| && Tainted(ops, rank, ops[d].inputs[i].digest))
  }

  /** No operation that the analysis accepts, that can succeed and that exposes an output reads the build. */
  ghost predicate Sealed(ops: Ops, rank: Digest -> nat)
    requires Acyclic(ops, rank)
  {
    forall d :: Cacheable(ops, rank, d) && Feasible(ops, rank, d) && Slots(ops[d]) != {} ==> !ReadsBuild(ops[d])
  }

  /** What succeeds was feasible. */
  lemma {:induction false} EvalSucceeds(ops: Ops, rank: Digest -> nat, w: World, ctx: Context, d: Digest)
    requires Acyclic(ops, rank) && Eval(ops, rank, w, ctx, d).Ok?
    ensures Feasible(ops, rank, d) && Eval(ops, rank, w, ctx, d).value.Keys == Slots(ops[d])
    decreases rank(d), 1, 0
  {
    InputsSucceed(ops, rank, w, ctx, d, 0, []);
    OpSucceeds(w, ctx, ops[d], EvalInputs(ops, rank, w, ctx, d, 0, []).value);
  }

  lemma {:induction false} InputsSucceed(ops: Ops, rank: Digest -> nat, w: World, ctx: Context, d: Digest,
                                         k: nat, acc: seq<Tree>)
    requires Acyclic(ops, rank) && d in ops && k <= |ops[d].inputs|
    requires EvalInputs(ops, rank, w, ctx, d, k, acc).Ok?
    ensures |EvalInputs(ops, rank, w, ctx, d, k, acc).value| == |acc| + |ops[d].inputs| - k
    ensures forall i :: k <= i < |ops[d].inputs| ==>
              && Feasible(ops, rank, ops[d].inputs[i].digest)
              && ops[d].inputs[i].slot in Slots(ops[ops[d].inputs[i].digest])
    decreases rank(d), 0, |ops[d].inputs| - k
  {
    if k < |ops[d].inputs| {
      var e := ops[d].inputs[k];
      EvalSucceeds(ops, rank, w, ctx, e.digest);
      var t := PickOutput(e, Eval(ops, rank, w, ctx, e.digest));
      InputsSucceed(ops, rank, w, ctx, d, k + 1, acc + [t.value]);
    }
  }

  /** What reads nothing of the build means the same in every build. */
  lemma {:induction false} UntaintedIsAlike(ops: Ops, rank: Digest -> nat, w: World, c1: Context, c2: Context,
                                            d: Digest)
    requires Acyclic(ops, rank) && !Tainted(ops, rank, d)
    ensures Eval(ops, rank, w, c2, d) == Eval(ops, rank, w, c1, d)
    decreases rank(d), 1, 0
  {
    if d in ops {
      InputsAlike(ops, rank, w, c1, c2, d, 0, []);
      var inputs := EvalInputs(ops, rank, w, c1, d, 0, []);
      if inputs.Ok? {
        UnreadIsAlike(w, c1, c2, ops[d], inputs.value);
      }
    }
  }

  lemma {:induction false} InputsAlike(ops: Ops, rank: Digest -> nat, w: World, c1: Context, c2: Context, d: Digest,
                                       k: nat, acc: seq<Tree>)
    requires Acyclic(ops, rank) && d in ops && !Tainted(ops, rank, d) && k <= |ops[d].inputs|
    ensures EvalInputs(ops, rank, w, c2, d, k, acc) == EvalInputs(ops, rank, w, c1, d, k, acc)
    decreases rank(d), 0, |ops[d].inputs| - k
  {
    if k < |ops[d].inputs| {
      var e := ops[d].inputs[k];
      assert !Tainted(ops, rank, e.digest);
      UntaintedIsAlike(ops, rank, w, c1, c2, e.digest);
      var t := PickOutput(e, Eval(ops, rank, w, c1, e.digest));
      if t.Ok? {
        InputsAlike(ops, rank, w, c1, c2, d, k + 1, acc + [t.value]);
      }
    }
  }

  lemma {:induction false} SealedIsUntainted(ops: Ops, rank: Digest -> nat, d: Digest)
    requires Acyclic(ops, rank) && SourcesAreLeaves(ops) && Sealed(ops, rank)
    requires Cacheable(ops, rank, d) && Feasible(ops, rank, d) && Slots(ops[d]) != {}
    ensures !Tainted(ops, rank, d)
    decreases rank(d)
  {
    forall i | 0 <= i < |ops[d].inputs|
      ensures !Tainted(ops, rank, ops[d].inputs[i].digest)
    {
      SealedIsUntainted(ops, rank, ops[d].inputs[i].digest);
    }
  }

  /** Non-interference: in a sealed graph the outputs of a cacheable operation in one build are its
      outputs in every build, whatever local sources and secrets the build brings. */
  lemma NonInterference(ops: Ops, rank: Digest -> nat, w: World, c1: Context, c2: Context, d: Digest)
    requires Acyclic(ops, rank) && SourcesAreLeaves(ops) && Sealed(ops, rank) && Cacheable(ops, rank, d)
    requires Eval(ops, rank, w, c1, d).Ok? && Eval(ops, rank, w, c1, d).value.Keys != {}
    ensures Eval(ops, rank, w, c2, d) == Eval(ops, rank, w, c1, d)
  {
    EvalSucceeds(ops, rank, w, c1, d);
    SealedIsUntainted(ops, rank, d);
    UntaintedIsAlike(ops, rank, w, c1, c2, d);
  }

  // ----- The seal is needed -----

  /** What is feasible succeeds in the build where everything works. */
  lemma {:induction false} FeasibleRuns(ops: Ops, rank: Digest -> nat, d: Digest)
    requires Acyclic(ops, rank) && SourcesAreLeaves(ops) && Cacheable(ops, rank, d) && Feasible(ops, rank, d)
    ensures EmptyOutputs(Eval(ops, rank, PickyWorld(), Works(ops), d))
    decreases rank(d), 1, 0
  {
    FeasibleInputs(ops, rank, d, 0, []);
    BothSupply(ops, d);
    OpRuns(Works(ops), ops[d], EvalInputs(ops, rank, PickyWorld(), Works(ops), d, 0, []).value);
  }

  lemma {:induction false} FeasibleInputs(ops: Ops, rank: Digest -> nat, d: Digest, k: nat, acc: seq<Tree>)
    requires Acyclic(ops, rank) && SourcesAreLeaves(ops) && Cacheable(ops, rank, d) && Feasible(ops, rank, d)
    requires k <= |ops[d].inputs| && AllEmpty(acc)
    ensures var r := EvalInputs(ops, rank, PickyWorld(), Works(ops), d, k, acc);
            r.Ok? && AllEmpty(r.value) && |r.value| == |acc| + |ops[d].inputs| - k
    decreases rank(d), 0, |ops[d].inputs| - k
  {
    if k < |ops[d].inputs| {
      var e := ops[d].inputs[k];
      FeasibleRuns(ops, rank, e.digest);
      EvalSucceeds(ops, rank, PickyWorld(), Works(ops), e.digest);
      FeasibleInputs(ops, rank, d, k + 1, acc + [map[]]);
    }
  }

  /** What is tainted fails in the build where no read goes well. */
  lemma {:induction false} TaintedBreaks(ops: Ops, rank: Digest -> nat, d: Digest)
    requires Acyclic(ops, rank) && SourcesAreLeaves(ops) && Cacheable(ops, rank, d) && Tainted(ops, rank, d)
    ensures Eval(ops, rank, PickyWorld(), Breaks(ops), d).Err?
    decreases rank(d), 1, 0
  {
    if ops[d].kind.Source? {
      SourceIsUntainted(ops, rank, d);
    } else if ReadsBuild(ops[d]) {
      BothSupply(ops, d);
      var inputs := EvalInputs(ops, rank, PickyWorld(), Breaks(ops), d, 0, []);
      if inputs.Ok? {
        OpFails(Breaks(ops), ops[d], inputs.value);
      }
    } else {
      var i :| 0 <= i < |ops[d].inputs| && Tainted(ops, rank, ops[d].inputs[i].digest);
      TaintedInput(ops, rank, d, i, 0, []);
    }
  }

  lemma SourceIsUntainted(ops: Ops, rank: Digest -> nat, d: Digest)
    requires Acyclic(ops, rank) && SourcesAreLeaves(ops) && Cacheable(ops, rank, d) && ops[d].kind.Source?
    ensures !Tainted(ops, rank, d)
  {
    assert IMAGE_SCHEME[0] != LOCAL_SCHEME[0];
  }

  lemma {:induction false} TaintedInput(ops: Ops, rank: Digest -> nat, d: Digest, i: nat, k: nat, acc: seq<Tree>)
    requires Acyclic(ops, rank) && SourcesAreLeaves(ops) && Cacheable(ops, rank, d)
    requires k <= i < |ops[d].inputs| && Tainted(ops, rank, ops[d].inputs[i].digest)
    ensures EvalInputs(ops, rank, PickyWorld(), Breaks(ops), d, k, acc).Err?
    decreases rank(d), 0, |ops[d].inputs| - k
  {
    var e := ops[d].inputs[k];
    if k == i {
      assert Cacheable(ops, rank, e.digest);
      TaintedBreaks(ops, rank, e.digest);
    } else {
      var t := PickOutput(e, Eval(ops, rank, PickyWorld(), Breaks(ops), e.digest));
      if t.Ok? {
        TaintedInput(ops, rank, d, i, k + 1, acc + [t.value]);
      }
    }
  }

  /** The tree of an edge in one build is not that in another. */
  ghost predicate EdgeDiffers(ops: Ops, rank: Digest -> nat, w: World, c1: Context, c2: Context, e: Edge)
    requires Acyclic(ops, rank)
  {
    EvalEdge(ops, rank, w, c1, e).Ok? && EvalEdge(ops, rank, w, c2, e) != EvalEdge(ops, rank, w, c1, e)
  }

  /** Exactly when a cacheable graph can mean one thing in one build and another in the next: it can
      succeed with the output asked for, and something in it reads the build. */
  lemma EdgeStaleExactly(ops: Ops, rank: Digest -> nat, e: Edge)
    requires Acyclic(ops, rank) && SourcesAreLeaves(ops) && Cacheable(ops, rank, e.digest)
    ensures Feasible(ops, rank, e.digest) && e.slot in Slots(ops[e.digest]) && Tainted(ops, rank, e.digest) <==>
            exists w: World, c1: Context, c2: Context :: EdgeDiffers(ops, rank, w, c1, c2, e)
  {
    if Feasible(ops, rank, e.digest) && e.slot in Slots(ops[e.digest]) && Tainted(ops, rank, e.digest) {
      StaleEdgeDiffers(ops, rank, e);
    }
    forall w: World, c1: Context, c2: Context | EdgeDiffers(ops, rank, w, c1, c2, e)
      ensures Feasible(ops, rank, e.digest) && e.slot in Slots(ops[e.digest]) && Tainted(ops, rank, e.digest)
    {
      EvalSucceeds(ops, rank, w, c1, e.digest);
      if !Tainted(ops, rank, e.digest) {
        UntaintedIsAlike(ops, rank, w, c1, c2, e.digest);
      }
    }
  }

  lemma StaleEdgeDiffers(ops: Ops, rank: Digest -> nat, e: Edge)
    requires Acyclic(ops, rank) && SourcesAreLeaves(ops) && Cacheable(ops, rank, e.digest)
    requires Feasible(ops, rank, e.digest) && e.slot in Slots(ops[e.digest]) && Tainted(ops, rank, e.digest)
    ensures EdgeDiffers(ops, rank, PickyWorld(), Works(ops), Breaks(ops), e)
  {
    FeasibleRuns(ops, rank, e.digest);
    EvalSucceeds(ops, rank, PickyWorld(), Works(ops), e.digest);
    TaintedBreaks(ops, rank, e.digest);
  }

  /** The seal is exactly what makes the digest of a cacheable operation a sound key for all builds. */
  lemma SealedExactly(ops: Ops, rank: Digest -> nat)
    requires Acyclic(ops, rank) && SourcesAreLeaves(ops)
    ensures Sealed(ops, rank) <==>
            forall w: World, c1: Context, c2: Context, e: Edge ::
              Cacheable(ops, rank, e.digest) ==> !EdgeDiffers(ops, rank, w, c1, c2, e)
  {
    if Sealed(ops, rank) {
      forall w: World, c1: Context, c2: Context, e: Edge | Cacheable(ops, rank, e.digest)
        ensures !EdgeDiffers(ops, rank, w, c1, c2, e)
      {
        if EvalEdge(ops, rank, w, c1, e).Ok? {
          NonInterference(ops, rank, w, c1, c2, e.digest);
        }
      }
    } else {
      var d :| Cacheable(ops, rank, d) && Feasible(ops, rank, d) && Slots(ops[d]) != {} && ReadsBuild(ops[d]);
      var slot :| slot in Slots(ops[d]);
      StaleEdgeDiffers(ops, rank, Edge(d, slot));
    }
  }

  // ----- A build knows only part of all operations -----

  ghost predicate Submap<K, V>(m: map<K, V>, n: map<K, V>) {
    forall k :: k in m ==> k in n && n[k] == m[k]
  }

  lemma {:induction false} CacheableGrows(ops: Ops, all: Ops, rank: Digest -> nat, d: Digest)
    requires Submap(ops, all) && Acyclic(ops, rank) && Acyclic(all, rank) && Cacheable(ops, rank, d)
    ensures Cacheable(all, rank, d)
    decreases rank(d)
  {
    if !ops[d].kind.Source? {
      forall i | 0 <= i < |ops[d].inputs|
        ensures Cacheable(all, rank, ops[d].inputs[i].digest)
      {
        CacheableGrows(ops, all, rank, ops[d].inputs[i].digest);
      }
    }
  }

  /** A cacheable operation means the same in the build's own graph as among all operations
      that any build has used: the digest alone is a sound key. */
  lemma {:induction false} EvalGrows(ops: Ops, all: Ops, rank: Digest -> nat, w: World, ctx: Context, d: Digest)
    requires Submap(ops, all) && Acyclic(ops, rank) && Acyclic(all, rank)
    requires SourcesAreLeaves(all) && Cacheable(ops, rank, d)
    ensures Eval(ops, rank, w, ctx, d) == Eval(all, rank, w, ctx, d)
    decreases rank(d), 1, 0
  {
    InputsGrow(ops, all, rank, w, ctx, d, 0, []);
  }

  lemma {:induction false} InputsGrow(ops: Ops, all: Ops, rank: Digest -> nat, w: World, ctx: Context, d: Digest,
                                      k: nat, acc: seq<Tree>)
    requires Submap(ops, all) && Acyclic(ops, rank) && Acyclic(all, rank)
    requires SourcesAreLeaves(all) && Cacheable(ops, rank, d) && k <= |ops[d].inputs|
    ensures EvalInputs(ops, rank, w, ctx, d, k, acc) == EvalInputs(all, rank, w, ctx, d, k, acc)
    decreases rank(d), 0, |ops[d].inputs| - k
  {
    if k < |ops[d].inputs| {
      var e := ops[d].inputs[k];
      assert all[d] == ops[d] && !ops[d].kind.Source?;
      EvalGrows(ops, all, rank, w, ctx, e.digest);
      var t := PickOutput(e, Eval(ops, rank, w, ctx, e.digest));
      if t.Ok? {
        InputsGrow(ops, all, rank, w, ctx, d, k + 1, acc + [t.value]);
      }
    }
  }
}
