/** The build graph of the LLB solver and its plain meaning: every operation is
    evaluated from its inputs, without a memo, a cache or directories. */
module Llb {
  import opened Wrappers
  import opened Text

  type Digest = string
  type Bytes = seq<char>

  /** The contents of a directory: path to node. */
  datatype Node = Directory(mode: nat) | File(data: Bytes, mode: nat) | Symlink(target: string)
  type Tree = map<string, Node>

  const EMPTY: int := -1  // pb.Empty: the mount or action has no input

  /** The index of an output. */
  datatype Slot = Slot(index: int)
  const SKIP_OUTPUT := Slot(-1) // pb.SkipOutput: the mount or action is not exposed

  const LOCAL_SCHEME := "local://"
  const IMAGE_SCHEME := "docker-image://"

  /** An input edge: one output of another operation. */
  datatype Edge = Edge(digest: Digest, slot: Slot)

  datatype MountKind = Bind | Cache | Tmpfs | Secret | Ssh | OtherMount
  datatype SecretOpt = SecretOpt(id: string, optional: bool, mode: nat)
  datatype Mount = Mount(kind: MountKind, dest: string, input: int, output: Slot, secret: Option<SecretOpt>)
  datatype Meta = Meta(args: seq<string>, cwd: string, user: string, env: seq<string>)

  datatype Action =
    | Copy(src: string, dest: string, createDestPath: bool, allowWildcard: bool, allowEmptyWildcard: bool)
    | Mkdir(path: string, mode: nat, makeParents: bool)
    | Mkfile(path: string, data: Bytes, mode: nat)
    | Rm(path: string, allowNotFound: bool)
    | Link(oldPath: string, newPath: string)
    | OtherAction
  datatype FileAction = FileAction(input: int, secondary: int, output: Slot, action: Action)

  datatype Kind =
    | Source(id: string)
    | Exec(meta: Option<Meta>, mounts: seq<Mount>)
    | FileOp(actions: seq<FileAction>)
    | OtherOp
  datatype Op = Op(inputs: seq<Edge>, kind: Kind)
  type Ops = map<Digest, Op>

  /** What a build brings with it: its local sources and its secrets. */
  datatype Context = Context(locals: map<string, Tree>, secrets: map<string, Bytes>)

  /** The primitives the solver calls, as deterministic functions of what they are given:
      image resolution, staging a mount, running a command, applying one file action.
      Every theorem holds for every choice of them. */
  datatype World = World(
    image: string -> Option<Tree>,
    stage: (Tree, string, Tree) -> Option<Tree>,
    mkdirAll: (Tree, string) -> Option<Tree>,
    writeSecret: (Tree, string, Bytes, nat) -> Option<Tree>,
    remove: (Tree, string) -> Tree,
    run: (Meta, Tree) -> Option<Tree>,
    apply: (Action, Tree, Option<Tree>) -> Option<Tree>
  )

  datatype Failure =
    | UnknownOp(digest: Digest)
    | NoOutput(digest: Digest, slot: Slot)
    | BadSource(id: string)
    | ImageUnavailable(ref: string)
    | NoMeta
    | NoRootMount
    | BadMount
    | StageFailed(dest: string)
    | SecretUnavailable(id: string)
    | RunFailed
    | BadIndex(index: int)
    | ActionFailed(action: nat)
    | NoFileOutputs
    | BadOp
    | EmptyDefinition
    | NoResultEdge
    | Panic     // an index the code uses unchecked: the solve aborts
    | IoFailure // a snapshot could not be taken: outside the plain meaning

  // ----- Source operations -----

  predicate HasPrefix(s: string, prefix: string) {
    prefix <= s
  }

  /** The part of an image reference before its last '@'. */
  function DropPin(ref: string): (r: string)
    ensures r <= ref
  {
    DropPinAt(ref, |ref|)
  }

  function DropPinAt(ref: string, n: nat): (r: string)
    requires n <= |ref|
    ensures r <= ref
  {
    if n == 0 then ref
    else if ref[n - 1] == '@' then ref[..n - 1]
    else DropPinAt(ref, n - 1)
  }

  function ImageRef(id: string): string
    requires HasPrefix(id, IMAGE_SCHEME)
  {
    NormalizeRef(DropPin(id[|IMAGE_SCHEME|..]))
  }

  function SourceTree(w: World, ctx: Context, id: string): Result<Tree, Failure> {
    if HasPrefix(id, LOCAL_SCHEME) then
      var name := id[|LOCAL_SCHEME|..];
      if name in ctx.locals then Ok(ctx.locals[name]) else Err(BadSource(id))
    else if HasPrefix(id, IMAGE_SCHEME) then
      match w.image(ImageRef(id))
      case Some(t) => Ok(t)
      case None => Err(ImageUnavailable(ImageRef(id)))
    else Err(BadSource(id))
  }

  // ----- Exec operations -----

  predicate IsRootMount(m: Mount) {
    m.kind.Bind? && m.dest == "/"
  }

  function MountInput(m: Mount, inputs: seq<Tree>): Result<Option<Tree>, Failure> {
    if m.input == EMPTY then Ok(None)
    else if 0 <= m.input < |inputs| then Ok(Some(inputs[m.input]))
    else Err(Panic)
  }

  function OrEmpty(t: Option<Tree>): Tree {
    match t case Some(x) => x case None => map[]
  }

  /** What the root mounts leave: the tree the command runs in, the output it is
      exposed as, and the outputs filled so far. */
  datatype Roots = Roots(root: Option<Tree>, slot: Slot, outs: map<Slot, Tree>)

  function RootsFrom(mounts: seq<Mount>, inputs: seq<Tree>, k: nat, acc: Roots): Result<Roots, Failure>
    requires k <= |mounts|
    decreases |mounts| - k
  {
    if k == |mounts| then Ok(acc)
    else if !IsRootMount(mounts[k]) then RootsFrom(mounts, inputs, k + 1, acc)
    else
      var src :- MountInput(mounts[k], inputs);
      RootsFrom(mounts, inputs, k + 1, AddRoot(acc, mounts[k], OrEmpty(src)))
  }

  function AddRoot(acc: Roots, m: Mount, t: Tree): Roots {
    Roots(Some(t), m.output, if m.output != SKIP_OUTPUT then acc.outs[m.output := t] else acc.outs)
  }

  /** The tree being prepared for the command and the secret files staged in it. */
  datatype Stage = Stage(root: Tree, secrets: seq<string>)

  function SecretPath(m: Mount, so: SecretOpt): string {
    if m.dest == "" then "/run/secrets/" + so.id else m.dest
  }

  function SecretMode(so: SecretOpt): nat {
    if so.mode != 0 then so.mode % 512 else 384  // & 0o777, default 0o600
  }

  function StageSecret(w: World, ctx: Context, m: Mount, st: Stage): Result<Stage, Failure> {
    match m.secret
    case None => Ok(st)
    case Some(so) =>
      if so.id !in ctx.secrets then
        if so.optional then Ok(st) else Err(SecretUnavailable(so.id))
      else
        match w.writeSecret(st.root, SecretPath(m, so), ctx.secrets[so.id], SecretMode(so))
        case Some(t) => Ok(Stage(t, st.secrets + [SecretPath(m, so)]))
        case None => Err(StageFailed(m.dest))
  }

  function StageMount(w: World, ctx: Context, m: Mount, inputs: seq<Tree>, st: Stage): Result<Stage, Failure> {
    match m.kind
    case Bind =>
      var src :- MountInput(m, inputs);
      if src.None? then Ok(st) else
        (match w.stage(st.root, m.dest, src.value)
         case Some(t) => Ok(st.(root := t))
         case None => Err(StageFailed(m.dest)))
    case Cache => StageEmptyDir(w, m, st)
    case Tmpfs => StageEmptyDir(w, m, st)
    case Secret => StageSecret(w, ctx, m, st)
    case Ssh => Ok(st)
    case OtherMount => Err(BadMount)
  }

  function StageEmptyDir(w: World, m: Mount, st: Stage): Result<Stage, Failure> {
    match w.mkdirAll(st.root, m.dest)
    case Some(t) => Ok(st.(root := t))
    case None => Err(StageFailed(m.dest))
  }

  function StageFrom(w: World, ctx: Context, mounts: seq<Mount>, inputs: seq<Tree>, k: nat, st: Stage)
    : Result<Stage, Failure>
    requires k <= |mounts|
    decreases |mounts| - k
  {
    if k == |mounts| then Ok(st)
    else if IsRootMount(mounts[k]) then StageFrom(w, ctx, mounts, inputs, k + 1, st)
    else
      var st' :- StageMount(w, ctx, mounts[k], inputs, st);
      StageFrom(w, ctx, mounts, inputs, k + 1, st')
  }

  function RunCommand(w: World, meta: Meta, root: Tree): Option<Tree> {
    if meta.args == [] then Some(root) else w.run(meta, root)
  }

  function RemoveFrom(w: World, files: seq<string>, k: nat, root: Tree): Tree
    requires k <= |files|
    decreases |files| - k
  {
    if k == |files| then root else RemoveFrom(w, files, k + 1, w.remove(root, files[k]))
  }

  function ExecOutputs(w: World, ctx: Context, meta: Option<Meta>, mounts: seq<Mount>, inputs: seq<Tree>)
    : Result<map<Slot, Tree>, Failure>
  {
    if meta.None? then Err(NoMeta) else
    var roots :- RootsFrom(mounts, inputs, 0, Roots(None, SKIP_OUTPUT, map[]));
    if roots.root.None? then Err(NoRootMount) else
    var st :- StageFrom(w, ctx, mounts, inputs, 0, Stage(roots.root.value, []));
    match RunCommand(w, meta.value, st.root)
    case None => Err(RunFailed)
    case Some(t) =>
      var final := RemoveFrom(w, st.secrets, 0, t);
      Ok(if roots.slot != SKIP_OUTPUT then roots.outs[roots.slot := final] else roots.outs)
  }

  // ----- File operations -----

  function StateAt(state: seq<Tree>, idx: int): Result<Option<Tree>, Failure> {
    if idx == EMPTY then Ok(None)
    else if 0 <= idx < |state| then Ok(Some(state[idx]))
    else Err(BadIndex(idx))
  }

  /** The directory a copy reads from: a named state, or the build context when none is named. */
  function CopySource(ctx: Context, act: FileAction, state: seq<Tree>): Result<Option<Tree>, Failure> {
    if act.secondary == EMPTY then
      Ok(if "context" in ctx.locals then Some(ctx.locals["context"]) else None)
    else if act.secondary >= |state| then Err(BadIndex(act.secondary))
    else if act.secondary < 0 then Err(Panic)
    else Ok(Some(state[act.secondary]))
  }

  function ApplyAction(w: World, ctx: Context, act: FileAction, k: nat, work: Tree, state: seq<Tree>)
    : Result<Tree, Failure>
  {
    if act.action.OtherAction? then Err(ActionFailed(k)) else
    var src :- if act.action.Copy? then CopySource(ctx, act, state) else Ok(None);
    match w.apply(act.action, work, src)
    case Some(t) => Ok(t)
    case None => Err(ActionFailed(k))
  }

  function FileFrom(w: World, ctx: Context, acts: seq<FileAction>, k: nat, state: seq<Tree>, outs: map<Slot, Tree>)
    : Result<map<Slot, Tree>, Failure>
    requires k <= |acts|
    decreases |acts| - k
  {
    if k == |acts| then
      if outs.Keys == {} then Err(NoFileOutputs) else Ok(outs)
    else
      var base :- StateAt(state, acts[k].input);
      var t :- ApplyAction(w, ctx, acts[k], k, OrEmpty(base), state);
      FileFrom(w, ctx, acts, k + 1, state + [t], Exposed(outs, acts[k], t))
  }

  function Exposed(outs: map<Slot, Tree>, act: FileAction, t: Tree): map<Slot, Tree> {
    if act.output != SKIP_OUTPUT then outs[act.output := t] else outs
  }

  // ----- The graph -----

  function OpOutputs(w: World, ctx: Context, op: Op, inputs: seq<Tree>): Result<map<Slot, Tree>, Failure> {
    match op.kind
    case Source(id) =>
      var t :- SourceTree(w, ctx, id);
      Ok(map[Slot(0) := t])
    case Exec(meta, mounts) => ExecOutputs(w, ctx, meta, mounts, inputs)
    case FileOp(acts) => FileFrom(w, ctx, acts, 0, inputs, map[])
    case OtherOp => Err(BadOp)
  }

  /** Operations are addressed by a hash of their content, so no operation can be among its
      own ancestors; `rank` witnesses it. */
  ghost predicate Acyclic(ops: Ops, rank: Digest -> nat) {
    forall d, i :: d in ops && 0 <= i < |ops[d].inputs| ==> rank(ops[d].inputs[i].digest) < rank(d)
  }

  /** The plain meaning of an operation: evaluate every input, then the operation. */
  ghost function Eval(ops: Ops, rank: Digest -> nat, w: World, ctx: Context, d: Digest)
    : Result<map<Slot, Tree>, Failure>
    requires Acyclic(ops, rank)
    decreases rank(d), 1, 0
  {
    if d !in ops then Err(UnknownOp(d)) else
    var inputs :- EvalInputs(ops, rank, w, ctx, d, 0, []);
    OpOutputs(w, ctx, ops[d], inputs)
  }

  ghost function EvalInputs(ops: Ops, rank: Digest -> nat, w: World, ctx: Context, d: Digest, k: nat, acc: seq<Tree>)
    : Result<seq<Tree>, Failure>
    requires Acyclic(ops, rank) && d in ops && k <= |ops[d].inputs|
    decreases rank(d), 0, |ops[d].inputs| - k
  {
    if k == |ops[d].inputs| then Ok(acc) else
    var t :- PickOutput(ops[d].inputs[k], Eval(ops, rank, w, ctx, ops[d].inputs[k].digest));
    EvalInputs(ops, rank, w, ctx, d, k + 1, acc + [t])
  }

  function PickOutput(e: Edge, outs: Result<map<Slot, Tree>, Failure>): Result<Tree, Failure> {
    var m :- outs;
    if e.slot in m then Ok(m[e.slot]) else Err(NoOutput(e.digest, e.slot))
  }

  ghost function EvalEdge(ops: Ops, rank: Digest -> nat, w: World, ctx: Context, e: Edge): Result<Tree, Failure>
    requires Acyclic(ops, rank)
  {
    PickOutput(e, Eval(ops, rank, w, ctx, e.digest))
  }

  /** A build request: the decoded operations in definition order, the graph they form,
      and the context the client sent. */
  datatype Request = Request(ops: Ops, verts: seq<Op>, ctx: Context)

  ghost function PlainSolve(req: Request, rank: Digest -> nat, w: World): Result<Tree, Failure>
    requires Acyclic(req.ops, rank)
  {
    if req.verts == [] then Err(EmptyDefinition)
    else if req.verts[|req.verts| - 1].inputs == [] then Err(NoResultEdge)
    else EvalEdge(req.ops, rank, w, req.ctx, req.verts[|req.verts| - 1].inputs[0])
  }
}
