/** A cached context with its tensors' dimensions, which every run on it may change
    (ops/built-in/cpu_kernel_cache.cc, `RunKernel`): exactly when a call through the cache gets the same context,
    bound the same way, as it would get from a fresh build. */
module SharedContext {
  import opened Wrappers
  import opened CacheModel
  import opened CacheTheorems
  import opened ContextModel
  import opened TensorUpdate
  import opened Transparency

  const END_OF_SEQUENCE: int := 201
  const PARAM_INVALID: int := 1
  const INNER_ERROR: int := 2

  /** What a kernel does if it gets to run: what it, or for an asynchronous one starting it, returns, and the
      dimensions that it gives to outputs. */
  datatype Kernel = Kernel(async: bool, ret: int, sets: map<nat, seq<int>>)

  /** A run: the request that decides its context, what it brings for the tensors, and its kernel. */
  datatype Run = Run(request: Request, args: Arguments, kernel: Kernel)

  function Overlaid(dims: seq<seq<int>>, sets: map<nat, seq<int>>): seq<seq<int>> {
    seq(|dims|, i requires 0 <= i < |dims| => if i in sets then sets[i] else dims[i])
  }

  /** The dimensions that a run leaves on its context. */
  function AfterRun(lib: Library, x: Run, was: Dims): Dims {
    var bound := x.args.After(lib, was);
    if x.args.Ending(lib, was) == Done then bound.(outs := Overlaid(bound.outs, x.kernel.sets)) else bound
  }

  /** A context in the cache: as it was built, and its tensors' dimensions now. */
  datatype Shared = Shared(made: Blueprint, dims: Dims)

  /** The context that a run works on. */
  function ContextFor<NodeDef>(b: Builder<NodeDef>, c: Cache<Shared>, r: Request): Option<Shared> {
    if r.hasSessInfo && Find(c.items, r.kernelId).Some? then Find(c.items, r.kernelId)
    else match Fresh(b, r)
      case None => None
      case Some(made) => Some(Shared(made, made.dims))
  }

  /** The cache with the context looked up, or stored once it is built. */
  function Looked(c: Cache<Shared>, id: Key, ctx: Shared): Cache<Shared> {
    if Find(c.items, id).Some? then AfterGet(c, id) else AfterSet(AfterGet(c, id), id, ctx)
  }

  /** The cache once a request has its context. */
  function Placed<NodeDef>(b: Builder<NodeDef>, c: Cache<Shared>, r: Request): Cache<Shared> {
    if !r.hasSessInfo then c
    else match ContextFor(b, c, r)
      case None => AfterGet(c, r.kernelId)
      case Some(ctx) => Looked(c, r.kernelId, ctx)
  }

  /** The context stays where it is and is changed there. */
  function Changed(c: Cache<Shared>, id: Key, s: Shared): Cache<Shared> {
    c.(items := Replaced(c.items, id, s))
  }

  /** The cache after a run: the context looked up, or built and stored, and then changed. */
  function ServeRun<NodeDef>(b: Builder<NodeDef>, lib: Library, c: Cache<Shared>, x: Run): Cache<Shared> {
    match ContextFor(b, c, x.request)
    case Some(s) =>
      if !x.request.hasSessInfo then c
      else Changed(Placed(b, c, x.request), x.request.kernelId, s.(dims := AfterRun(lib, x, s.dims)))
    case None => Placed(b, c, x.request)
  }

  function ServedRuns<NodeDef>(b: Builder<NodeDef>, lib: Library, capacity: nat, session: bool,
                               xs: seq<Run>): Cache<Shared>
  {
    if xs == [] then Cache(capacity, session, [])
    else ServeRun(b, lib, ServedRuns(b, lib, capacity, session, xs[..|xs| - 1]), xs[|xs| - 1])
  }

  /** What is seen of a run: what it returns, its context as built, if there is one, and what the tensors are
      bound to, unless one is refused. */
  datatype Reply = Reply(ret: int, made: Option<Blueprint>, bound: Option<(seq<Binding>, seq<Binding>)>)

  function Bindings(lib: Library, src: Source, was: seq<seq<int>>): seq<Binding>
    requires src.Fits(|was|)
  {
    seq(|was|, i requires 0 <= i < |was| => src.Bind(lib, i, was[i]))
  }

  function Bound(lib: Library, args: Arguments, was: Dims): Option<(seq<Binding>, seq<Binding>)> {
    if args.Ending(lib, was) != Done then None
    else Some((Bindings(lib, args.Inputs(|was.ins|), was.ins), Bindings(lib, args.Outputs(|was.ins|), was.outs)))
  }

  /** Every unknown-shape output is there, and its rank fits a descriptor. */
  predicate Written(x: Run, dims: Dims) {
    forall k :: k in x.args.msg.outputIndex ==> k < |dims.outs| && |dims.outs[k]| <= MAX_DIM_SIZE
  }

  /** What a run returns whose binding ends like this and leaves these dimensions behind: the end of a sequence
      only if it is asynchronous. */
  function Finish(x: Run, end: End, left: Dims): (ret: int)
    ensures ret == END_OF_SEQUENCE ==> x.kernel.async
  {
    if end != Done then -1
    else if !x.kernel.async && x.kernel.ret != 0 then -1
    else
      var ret := if x.kernel.async then x.kernel.ret else if Written(x, left) then 0 else PARAM_INVALID;
      if ret == END_OF_SEQUENCE then ret else if ret != 0 then -1 else 0
  }

  function ReplyOn(lib: Library, x: Run, ctx: Option<Shared>): Reply {
    match ctx
    case None => Reply(INNER_ERROR, None, None)
    case Some(s) => Reply(Finish(x, x.args.Ending(lib, s.dims), AfterRun(lib, x, s.dims)), Some(s.made),
      Bound(lib, x.args, s.dims))
  }

  /** Without a cache. */
  function FreshReply<NodeDef>(b: Builder<NodeDef>, lib: Library, x: Run): Reply {
    ReplyOn(lib, x, ContextFor(b, Cache(0, false, []), x.request))
  }

  /** A job: a run, None if its parameter block cannot be parsed. */
  type Job = Option<Run>

  /** The cache after a job, and what is seen of it. */
  function ServeJob<NodeDef>(b: Builder<NodeDef>, lib: Library, c: Cache<Shared>, job: Job): Cache<Shared> {
    match job
    case None => c
    case Some(x) => ServeRun(b, lib, c, x)
  }

  function Answer<NodeDef>(b: Builder<NodeDef>, lib: Library, c: Cache<Shared>, job: Job): Reply {
    match job
    case None => Reply(-1, None, None)
    case Some(x) => ReplyOn(lib, x, ContextFor(b, c, x.request))
  }

  // ---- What a job is answered, and what it leaves ----

  /** The context that a request gets, `c` being the cache before: the one kept for its kernel, if it has a session and
      one is kept; else one that is parsed, given the wait attributes and constructed, if that succeeds. */
  ghost predicate Gets<NodeDef>(b: Builder<NodeDef>, c: Cache<Shared>, r: Request, ctx: Option<Shared>) {
    if r.hasSessInfo && Find(c.items, r.kernelId).Some? then ctx == Find(c.items, r.kernelId)
    else ctx == match b.parse(r.nodeDef)
                case None => None
                case Some(def) =>
                  match b.init(b.addAttr(b.addAttr(def, "wait_type", r.waitType), "wait_id", r.waitId),
                               if r.host then HOST else DEVICE)
                  case None => None
                  case Some(made) => Some(Shared(made, made.dims))
  }

  /** The cache once a request has got its context: looked up, and stored if it had to be built. */
  ghost predicate Stores(c: Cache<Shared>, r: Request, ctx: Option<Shared>, after: Cache<Shared>) {
    after == if !r.hasSessInfo then c
             else if Find(c.items, r.kernelId).Some? || ctx.None? then AfterGet(c, r.kernelId)
             else AfterSet(c, r.kernelId, ctx.value)
  }

  /** The dimensions of output `k` when its shape is written back: the kernel's, else its record's, else those from
      before. */
  ghost function OutputDims(x: Run, was: Dims, k: nat): seq<int>
    requires k < |was.outs| && x.args.Fits(|was.ins|, |was.outs|)
  {
    if k in x.kernel.sets then x.kernel.sets[k]
    else if x.args.msg.unknownShape then DimsOf(x.args.msg.outputRecords[k])
    else was.outs[k]
  }

  /** The outputs to write back are there and have at most 32 dimensions. */
  ghost predicate CanWriteBack(x: Run, was: Dims)
    requires x.args.Fits(|was.ins|, |was.outs|)
  {
    forall k :: k in x.args.msg.outputIndex ==> k < |was.outs| && |OutputDims(x, was, k)| <= 32
  }

  /** The status of a run on a context with these dimensions: 0 if binding ends well, the kernel returned 0 and, unless
      it is asynchronous, the shapes can be written back; 201 if binding ends well and an asynchronous kernel returned
      201; else -1. */
  ghost predicate Status(lib: Library, x: Run, was: Dims, ret: int) {
    && (ret == 0 <==>
          Acceptable(x.args, lib, was) && x.kernel.ret == 0 && (!x.kernel.async ==> CanWriteBack(x, was)))
    && (ret == 201 <==> Acceptable(x.args, lib, was) && x.kernel.async && x.kernel.ret == 201)
    && (ret == 0 || ret == 201 || ret == -1)
  }

  /** Every tensor is bound to its own address, or through the descriptor there, with the dimensions the call brings. */
  ghost predicate AllBound(lib: Library, args: Arguments, was: Dims, bound: (seq<Binding>, seq<Binding>)) {
    && |bound.0| == |was.ins| && |bound.1| == |was.outs|
    && (forall i :: 0 <= i < |was.ins| ==>
          bound.0[i].Binding? && InputBound(bound.0[i].data, bound.0[i].dims, args, was.ins[i], i) &&
          SizeOf(bound.0[i].dataSize, bound.0[i].dims, lib))
    && (forall i :: 0 <= i < |was.outs| ==>
          bound.1[i].Binding? && OutputBound(bound.1[i].data, bound.1[i].dims, args, was.outs[i], i, |was.ins|) &&
          SizeOf(bound.1[i].dataSize, bound.1[i].dims, lib))
  }

  /** What a job is answered: -1 if it cannot be parsed, 2 if it gets no context; else the status of its run, its
      context as built, and its tensors' bindings unless the call is refused. */
  ghost predicate Answered<NodeDef>(b: Builder<NodeDef>, lib: Library, c: Cache<Shared>, job: Job, reply: Reply) {
    match job
    case None => reply == Reply(-1, None, None)
    case Some(x) => exists ctx :: Gets(b, c, x.request, ctx) && RepliesOn(lib, x, ctx, reply)
  }

  ghost predicate RepliesOn(lib: Library, x: Run, ctx: Option<Shared>, reply: Reply) {
    match ctx
    case None => reply == Reply(2, None, None)
    case Some(s) =>
      && reply.made == Some(s.made) && Status(lib, x, s.dims, reply.ret)
      && (reply.bound.Some? <==> Acceptable(x.args, lib, s.dims))
      && (reply.bound.Some? ==> AllBound(lib, x.args, s.dims, reply.bound.value))
  }

  /** The dimensions left on a context: those of the call (`InputsLeft`, `OutputsLeft`), but if binding ends well an
      output that the kernel gives dimensions to has those. */
  ghost predicate DimsLeft(lib: Library, x: Run, was: Dims, now: Dims) {
    && InputsLeft(now.ins, x.args, lib, was) && |now.outs| == |was.outs|
    && if Acceptable(x.args, lib, was) then forall k :: 0 <= k < |was.outs| ==> now.outs[k] == OutputDims(x, was, k)
       else OutputsLeft(now.outs, x.args, lib, was)
  }

  /** What a job leaves of the cache: nothing changes without a session or a job; a context that is asked for is looked
      up, and stored if it had to be built; then its dimensions change, and nothing else does. */
  ghost predicate Leaves<NodeDef>(b: Builder<NodeDef>, lib: Library, c: Cache<Shared>, job: Job, after: Cache<Shared>) {
    if job.None? || !job.value.request.hasSessInfo then after == c
    else exists ctx :: Gets(b, c, job.value.request, ctx) && LeavesWith(lib, c, job.value, ctx, after)
  }

  ghost predicate LeavesWith(lib: Library, c: Cache<Shared>, x: Run, ctx: Option<Shared>, after: Cache<Shared>) {
    var id := x.request.kernelId;
    match ctx
    case None => after == AfterGet(c, id)
    case Some(s) =>
      var placed := if Find(c.items, id).Some? then AfterGet(c, id) else AfterSet(c, id, s);
      && after.capacity == c.capacity && after.session == c.session && |after.items| == |placed.items|
      && forall i :: 0 <= i < |placed.items| ==>
           after.items[i].key == placed.items[i].key &&
           if placed.items[i].key == id then
             after.items[i].value.made == s.made && DimsLeft(lib, x, s.dims, after.items[i].value.dims)
           else after.items[i].value == placed.items[i].value
  }

  lemma GetsContext<NodeDef>(b: Builder<NodeDef>, c: Cache<Shared>, r: Request)
    ensures Gets(b, c, r, ContextFor(b, c, r)) && Stores(c, r, ContextFor(b, c, r), Placed(b, c, r))
  {
  }

  lemma RunLeaves(lib: Library, x: Run, was: Dims)
    ensures DimsLeft(lib, x, was, AfterRun(lib, x, was))
  {
    DoneIsAcceptable(x.args, lib, was);
    AfterIsLeft(x.args, lib, was);
  }

  lemma FinishIsStatus(lib: Library, x: Run, was: Dims)
    ensures Status(lib, x, was, Finish(x, x.args.Ending(lib, was), AfterRun(lib, x, was)))
  {
    DoneIsAcceptable(x.args, lib, was);
    RunLeaves(lib, x, was);
    if Acceptable(x.args, lib, was) {
      var now := AfterRun(lib, x, was);
      assert forall k :: 0 <= k < |was.outs| ==> now.outs[k] == OutputDims(x, was, k);
      assert Written(x, now) <==> CanWriteBack(x, was);
    }
  }

  lemma BoundIsBound(lib: Library, args: Arguments, was: Dims)
    ensures Bound(lib, args, was).Some? <==> Acceptable(args, lib, was)
    ensures Bound(lib, args, was).Some? ==> AllBound(lib, args, was, Bound(lib, args, was).value)
  {
    DoneIsAcceptable(args, lib, was);
    var n, m := |was.ins|, |was.outs|;
    if args.Ending(lib, was) == Done {
      var bound := Bound(lib, args, was).value;
      DoneIffBound(args.Inputs(n), lib, was.ins, n);
      DoneIffBound(args.Outputs(n), lib, was.outs, m);
      forall i | 0 <= i < n
        ensures InputBound(bound.0[i].data, bound.0[i].dims, args, was.ins[i], i) &&
          SizeOf(bound.0[i].dataSize, bound.0[i].dims, lib)
      {
        InputCarries(bound.0[i], args, lib, was.ins, m, i);
      }
      forall i | 0 <= i < m
        ensures OutputBound(bound.1[i].data, bound.1[i].dims, args, was.outs[i], i, n) &&
          SizeOf(bound.1[i].dataSize, bound.1[i].dims, lib)
      {
        OutputCarries(bound.1[i], args, lib, was.outs, n, i);
      }
    }
  }

  /** What is answered, without the functions that compute it. */
  lemma AnswerIsAnswered<NodeDef>(b: Builder<NodeDef>, lib: Library, c: Cache<Shared>, job: Job)
    ensures Answered(b, lib, c, job, Answer(b, lib, c, job))
  {
    if job.Some? {
      var ctx := ContextFor(b, c, job.value.request);
      GetsContext(b, c, job.value.request);
      if ctx.Some? {
        FinishIsStatus(lib, job.value, ctx.value.dims);
        BoundIsBound(lib, job.value.args, ctx.value.dims);
      }
    }
  }

  lemma ServeLeaves<NodeDef>(b: Builder<NodeDef>, lib: Library, c: Cache<Shared>, job: Job)
    ensures Leaves(b, lib, c, job, ServeJob(b, lib, c, job))
  {
    if job.Some? && job.value.request.hasSessInfo {
      var x := job.value;
      var ctx := ContextFor(b, c, x.request);
      GetsContext(b, c, x.request);
      if ctx.Some? { RunLeaves(lib, x, ctx.value.dims); }
      assert LeavesWith(lib, c, x, ctx, ServeJob(b, lib, c, job));
    }
  }

  // ---- What one run leaves ----

  /** All tensors can be bound, as far as that depends on the call alone. */
  predicate Binds(args: Arguments, n: nat, m: nat) {
    args.Fits(n, m) && forall i :: 0 <= i < n ==> args.Inputs(n).Sound(i)
  }

  /** The run gets as far as input `i`, for some tensor library, and brings dimensions for it. */
  predicate LeavesInput(x: Run, n: nat, m: nat, i: nat) {
    && i < n && x.args.Fits(n, m)
    && (forall j :: 0 <= j <= i ==> x.args.Inputs(n).Sound(j)) && x.args.Inputs(n).Brings(i)
  }

  /** The run, or its kernel, gives dimensions to output `i`. */
  predicate LeavesOutput(x: Run, n: nat, m: nat, i: nat) {
    i < m && Binds(x.args, n, m) && (x.args.Outputs(n).Brings(i) || i in x.kernel.sets)
  }

  predicate Counts(dims: Dims, n: nat, m: nat) {
    |dims.ins| == n && |dims.outs| == m
  }

  lemma RunCounts(lib: Library, x: Run, was: Dims)
    ensures Counts(AfterRun(lib, x, was), |was.ins|, |was.outs|)
  {
  }

  /** Inputs of a pass that ended well, or got as far as `n`, are sound. */
  lemma ReachedSound(src: Source, lib: Library, was: seq<seq<int>>, n: nat)
    requires n <= |was| && src.Fits(|was|) && src.Ending(lib, was, n) == Done
    ensures forall j :: 0 <= j < n ==> src.Sound(j)
  {
    DoneIffBound(src, lib, was, n);
    forall j | 0 <= j < n ensures src.Sound(j) { assert src.Bind(lib, j, was[j]).Binding?; }
  }

  /** A run changes only the dimensions that it leaves. */
  lemma RunChanges(lib: Library, x: Run, was: Dims, n: nat, m: nat)
    requires Counts(was, n, m)
    ensures forall i :: 0 <= i < n && AfterRun(lib, x, was).ins[i] != was.ins[i] ==> LeavesInput(x, n, m, i)
    ensures forall i :: 0 <= i < m && AfterRun(lib, x, was).outs[i] != was.outs[i] ==> LeavesOutput(x, n, m, i)
  {
    if x.args.Fits(n, m) {
      var ins := x.args.Inputs(n);
      forall i | 0 <= i < n && AfterRun(lib, x, was).ins[i] != was.ins[i] ensures LeavesInput(x, n, m, i) {
        ReachedSound(ins, lib, was.ins, i);
      }
      if ins.Ending(lib, was.ins, n) == Done { ReachedSound(ins, lib, was.ins, n); }
    }
  }

  /** Every shape is fine. */
  const ACCEPTING := Library(dims => 0, dims => 0)

  lemma {:induction false} AcceptingEnds(src: Source, was: seq<seq<int>>, n: nat)
    requires n <= |was| && src.Fits(|was|)
    ensures src.Ending(ACCEPTING, was, n) == Done <==> forall j :: 0 <= j < n ==> src.Sound(j)
  {
    if n > 0 { AcceptingEnds(src, was, n - 1); }
  }

  lemma AcceptingBinds(args: Arguments, was: Dims, n: nat, m: nat)
    requires Counts(was, n, m)
    ensures args.Ending(ACCEPTING, was) == Done <==> Binds(args, n, m)
  {
    if args.Fits(n, m) {
      AcceptingEnds(args.Inputs(n), was.ins, n);
      AcceptingEnds(args.Outputs(n), was.outs, m);
    }
  }

  /** With that library it leaves what it can, whatever the dimensions were before. */
  lemma AcceptingInput(x: Run, was1: Dims, was2: Dims, n: nat, m: nat, i: nat)
    requires Counts(was1, n, m) && Counts(was2, n, m) && LeavesInput(x, n, m, i)
    ensures AfterRun(ACCEPTING, x, was1).ins[i] == AfterRun(ACCEPTING, x, was2).ins[i]
  {
    AcceptingEnds(x.args.Inputs(n), was1.ins, i);
    AcceptingEnds(x.args.Inputs(n), was2.ins, i);
  }

  lemma AcceptingOutput(x: Run, was1: Dims, was2: Dims, n: nat, m: nat, i: nat)
    requires Counts(was1, n, m) && Counts(was2, n, m) && LeavesOutput(x, n, m, i)
    ensures AfterRun(ACCEPTING, x, was1).outs[i] == AfterRun(ACCEPTING, x, was2).outs[i]
  {
    AcceptingBinds(x.args, was1, n, m);
    AcceptingBinds(x.args, was2, n, m);
    AcceptingEnds(x.args.Outputs(n), was1.outs, i);
    AcceptingEnds(x.args.Outputs(n), was2.outs, i);
  }

  // ---- What all runs leave ----

  predicate Uses(y: Run, id: Key) {
    y.request.hasSessInfo && y.request.kernelId == id
  }

  /** The dimensions after all runs of a kernel on one context. */
  function DimsAfterRuns(lib: Library, xs: seq<Run>, id: Key, built: Dims): Dims {
    if xs == [] then built else
    var was, x := DimsAfterRuns(lib, xs[..|xs| - 1], id, built), xs[|xs| - 1];
    if Uses(x, id) then AfterRun(lib, x, was) else was
  }

  predicate InputLeft(xs: seq<Run>, id: Key, n: nat, m: nat, i: nat) {
    exists k :: 0 <= k < |xs| && Uses(xs[k], id) && LeavesInput(xs[k], n, m, i)
  }

  predicate OutputLeft(xs: seq<Run>, id: Key, n: nat, m: nat, i: nat) {
    exists k :: 0 <= k < |xs| && Uses(xs[k], id) && LeavesOutput(xs[k], n, m, i)
  }

  lemma LeftMore(xs: seq<Run>, id: Key, n: nat, m: nat, i: nat)
    requires xs != []
    ensures InputLeft(xs, id, n, m, i) <==>
      InputLeft(xs[..|xs| - 1], id, n, m, i) || (Uses(xs[|xs| - 1], id) && LeavesInput(xs[|xs| - 1], n, m, i))
    ensures OutputLeft(xs, id, n, m, i) <==>
      OutputLeft(xs[..|xs| - 1], id, n, m, i) || (Uses(xs[|xs| - 1], id) && LeavesOutput(xs[|xs| - 1], n, m, i))
  {
    var before := xs[..|xs| - 1];
    assert forall k :: 0 <= k < |before| ==> before[k] == xs[k];
  }

  lemma {:induction false} RunsCount(lib: Library, xs: seq<Run>, id: Key, built: Dims)
    ensures Counts(DimsAfterRuns(lib, xs, id, built), |built.ins|, |built.outs|)
  {
    if xs != [] {
      RunsCount(lib, xs[..|xs| - 1], id, built);
      RunCounts(lib, xs[|xs| - 1], DimsAfterRuns(lib, xs[..|xs| - 1], id, built));
    }
  }

  /** What is left does not depend on how the context was built. */
  lemma {:induction false} AcceptingRunsInput(xs: seq<Run>, id: Key, built1: Dims, built2: Dims, n: nat, m: nat, i: nat)
    requires Counts(built1, n, m) && Counts(built2, n, m) && InputLeft(xs, id, n, m, i) && i < n
    ensures Counts(DimsAfterRuns(ACCEPTING, xs, id, built1), n, m) &&
      Counts(DimsAfterRuns(ACCEPTING, xs, id, built2), n, m)
    ensures DimsAfterRuns(ACCEPTING, xs, id, built1).ins[i] == DimsAfterRuns(ACCEPTING, xs, id, built2).ins[i]
  {
    var before, x := xs[..|xs| - 1], xs[|xs| - 1];
    var was1, was2 := DimsAfterRuns(ACCEPTING, before, id, built1), DimsAfterRuns(ACCEPTING, before, id, built2);
    LeftMore(xs, id, n, m, i);
    RunsCount(ACCEPTING, before, id, built1);
    RunsCount(ACCEPTING, before, id, built2);
    if Uses(x, id) && LeavesInput(x, n, m, i) {
      AcceptingInput(x, was1, was2, n, m, i);
    } else {
      AcceptingRunsInput(before, id, built1, built2, n, m, i);
    }
    if Uses(x, id) {
      RunChanges(ACCEPTING, x, was1, n, m);
      RunChanges(ACCEPTING, x, was2, n, m);
    }
  }

  lemma {:induction false} AcceptingRunsOutput(xs: seq<Run>, id: Key, built1: Dims, built2: Dims, n: nat, m: nat,
                                               i: nat)
    requires Counts(built1, n, m) && Counts(built2, n, m) && OutputLeft(xs, id, n, m, i) && i < m
    ensures Counts(DimsAfterRuns(ACCEPTING, xs, id, built1), n, m) &&
      Counts(DimsAfterRuns(ACCEPTING, xs, id, built2), n, m)
    ensures DimsAfterRuns(ACCEPTING, xs, id, built1).outs[i] == DimsAfterRuns(ACCEPTING, xs, id, built2).outs[i]
  {
    var before, x := xs[..|xs| - 1], xs[|xs| - 1];
    var was1, was2 := DimsAfterRuns(ACCEPTING, before, id, built1), DimsAfterRuns(ACCEPTING, before, id, built2);
    LeftMore(xs, id, n, m, i);
    RunsCount(ACCEPTING, before, id, built1);
    RunsCount(ACCEPTING, before, id, built2);
    if Uses(x, id) && LeavesOutput(x, n, m, i) {
      AcceptingOutput(x, was1, was2, n, m, i);
    } else {
      AcceptingRunsOutput(before, id, built1, built2, n, m, i);
    }
    if Uses(x, id) {
      RunChanges(ACCEPTING, x, was1, n, m);
      RunChanges(ACCEPTING, x, was2, n, m);
    }
  }

  // ---- The cache ----

  function Requests(xs: seq<Run>): (rs: seq<Request>)
    ensures |rs| == |xs| && forall i :: 0 <= i < |rs| ==> rs[i] == xs[i].request
  {
    seq(|xs|, i requires 0 <= i < |xs| => xs[i].request)
  }

  const MADE_OF: Shared -> Blueprint := (s: Shared) => s.made

  /** A lookup that hits still hits. */
  lemma HitStays<V>(c: Cache<V>, id: Key)
    ensures Find(AfterGet(c, id).items, id) == Find(c.items, id)
  {
    if Find(c.items, id).Some? && !c.session {
      FindCons(Entry(id, Find(c.items, id).value), Without(c.items, id), id);
    }
  }

  lemma ChangedKeys(c: Cache<Shared>, id: Key, s: Shared)
    ensures Keys(Changed(c, id, s).items) == Keys(c.items)
  {
  }

  lemma LookedFinds(c: Cache<Shared>, id: Key, ctx: Shared)
    requires Distinct(Keys(c.items)) && (Find(c.items, id).Some? ==> Find(c.items, id) == Some(ctx))
    ensures Distinct(Keys(Looked(c, id, ctx).items)) && Find(Looked(c, id, ctx).items, id) == Some(ctx)
    ensures forall k :: k != id ==>
      var found := Find(Looked(c, id, ctx).items, k); found == Find(c.items, k) || (!c.session && found == None)
  {
    HitStays(c, id);
    KeysAfter(c, Get(id));
    KeysAfter(AfterGet(c, id), Set(id, ctx));
    forall k | k != id
      ensures var found := Find(Looked(c, id, ctx).items, k); found == Find(c.items, k) || (!c.session && found == None)
    {
      FindAfter(c, Get(id), k);
      FindAfter(AfterGet(c, id), Set(id, ctx), k);
    }
    FindAfter(AfterGet(c, id), Set(id, ctx), id);
  }

  /** After a run its context is in the cache with the dimensions that the run left; the others are as they
      were, or evicted. */
  lemma RunFinds<NodeDef>(b: Builder<NodeDef>, lib: Library, c: Cache<Shared>, x: Run, k: Key)
    requires Distinct(Keys(c.items))
    ensures Distinct(Keys(ServeRun(b, lib, c, x).items)) && ServeRun(b, lib, c, x).session == c.session
    ensures var found, ctx := Find(ServeRun(b, lib, c, x).items, k), ContextFor(b, c, x.request);
      if Uses(x, k) then
        found == match ctx case None => None case Some(s) => Some(s.(dims := AfterRun(lib, x, s.dims)))
      else found == Find(c.items, k) || (!c.session && found == None)
  {
    var id, ctx := x.request.kernelId, ContextFor(b, c, x.request);
    if x.request.hasSessInfo {
      if ctx.Some? {
        var now := ctx.value.(dims := AfterRun(lib, x, ctx.value.dims));
        LookedFinds(c, id, ctx.value);
        ChangedKeys(Looked(c, id, ctx.value), id, now);
        FindReplaced(Looked(c, id, ctx.value).items, id, now, k);
      } else {
        HitStays(c, id);
      }
    }
  }

  lemma {:induction false} RunsDistinct<NodeDef>(b: Builder<NodeDef>, lib: Library, capacity: nat, session: bool,
                                                 xs: seq<Run>)
    ensures var c := ServedRuns(b, lib, capacity, session, xs); Distinct(Keys(c.items)) && c.session == session
  {
    if xs != [] {
      RunsDistinct(b, lib, capacity, session, xs[..|xs| - 1]);
      RunFinds(b, lib, ServedRuns(b, lib, capacity, session, xs[..|xs| - 1]), xs[|xs| - 1], 0);
    }
  }

  /** A change of dimensions is not seen in the blueprints. */
  lemma ChangedUnseen(c: Cache<Shared>, id: Key, s: Shared)
    requires Distinct(Keys(c.items)) && Find(c.items, id).Some? && Find(c.items, id).value.made == s.made
    ensures Mapped(Changed(c, id, s), MADE_OF) == Mapped(c, MADE_OF)
  {
    FindIsKey(c.items, id);
  }

  lemma RunWithoutTensors<NodeDef>(b: Builder<NodeDef>, lib: Library, c: Cache<Shared>, x: Run)
    requires Distinct(Keys(c.items))
    ensures Mapped(ServeRun(b, lib, c, x), MADE_OF) == Serve(b, Mapped(c, MADE_OF), x.request)
  {
    var id, ctx := x.request.kernelId, ContextFor(b, c, x.request);
    if x.request.hasSessInfo {
      MappedGet(c, id, MADE_OF);
      if ctx.Some? {
        LookedFinds(c, id, ctx.value);
        MappedSet(AfterGet(c, id), id, ctx.value, MADE_OF);
        ChangedUnseen(Looked(c, id, ctx.value), id, ctx.value.(dims := AfterRun(lib, x, ctx.value.dims)));
      }
    }
  }

  /** Seen without the tensors it is the cache of `ContextCache`. */
  lemma {:induction false} WithoutTensors<NodeDef>(b: Builder<NodeDef>, lib: Library, capacity: nat, session: bool,
                                                   xs: seq<Run>)
    ensures Mapped(ServedRuns(b, lib, capacity, session, xs), MADE_OF) == Served(b, capacity, session, Requests(xs))
  {
    if xs != [] {
      var before, x := xs[..|xs| - 1], xs[|xs| - 1];
      RunsDistinct(b, lib, capacity, session, before);
      WithoutTensors(b, lib, capacity, session, before);
      assert Requests(xs)[..|xs| - 1] == Requests(before);
      RunWithoutTensors(b, lib, ServedRuns(b, lib, capacity, session, before), x);
    }
  }

  // ---- Transparency ----

  /** A context with these numbers of tensors is built for the request, if any is. */
  predicate Builds<NodeDef>(b: Builder<NodeDef>, r: Request, n: nat, m: nat) {
    Fresh(b, r).Some? ==> Counts(Fresh(b, r).value.dims, n, m)
  }

  /** Where every request for the kernel carries the same content, a context in the cache was built like a fresh
      one, and differs from it only where some run has left dimensions; a session cache has it once it has
      been built. */
  lemma {:induction false} SharedLikeFresh<NodeDef>(b: Builder<NodeDef>, lib: Library, capacity: nat, session: bool,
                                                    xs: seq<Run>,
                                                    r: Request, made: Blueprint, n: nat, m: nat)
    requires SameContent(Requests(xs), r) && Fresh(b, r) == Some(made) && Counts(made.dims, n, m)
    ensures var found := Find(ServedRuns(b, lib, capacity, session, xs).items, r.kernelId);
      found.Some? ==>
        && found.value.made == made && Counts(found.value.dims, n, m)
        && (forall i :: 0 <= i < n && found.value.dims.ins[i] != made.dims.ins[i] ==>
          InputLeft(xs, r.kernelId, n, m, i))
        && (forall i :: 0 <= i < m && found.value.dims.outs[i] != made.dims.outs[i] ==>
          OutputLeft(xs, r.kernelId, n, m, i))
  {
    if xs != [] {
      var before, x, id := xs[..|xs| - 1], xs[|xs| - 1], r.kernelId;
      var c := ServedRuns(b, lib, capacity, session, before);
      SameBefore(xs, r);
      SharedLikeFresh(b, lib, capacity, session, before, r, made, n, m);
      RunsDistinct(b, lib, capacity, session, before);
      RunFinds(b, lib, c, x, id);
      forall i ensures (InputLeft(before, id, n, m, i) ==> InputLeft(xs, id, n, m, i)) &&
        (OutputLeft(before, id, n, m, i) ==> OutputLeft(xs, id, n, m, i)) {
        LeftMore(xs, id, n, m, i);
      }
      if Uses(x, id) {
        SameFresh(b, x.request, r);
        var ctx := ContextFor(b, c, x.request).value;
        RunChanges(lib, x, ctx.dims, n, m);
        forall i | LeavesInput(x, n, m, i) ensures InputLeft(xs, id, n, m, i) { LeftMore(xs, id, n, m, i); }
        forall i | LeavesOutput(x, n, m, i) ensures OutputLeft(xs, id, n, m, i) { LeftMore(xs, id, n, m, i); }
      }
    }
  }

  lemma SameBefore(xs: seq<Run>, r: Request)
    requires xs != [] && SameContent(Requests(xs), r)
    ensures SameContent(Requests(xs[..|xs| - 1]), r)
    ensures Uses(xs[|xs| - 1], r.kernelId) ==> ContentOf(xs[|xs| - 1].request) == ContentOf(r)
  {
    assert Requests(xs)[..|xs| - 1] == Requests(xs[..|xs| - 1]);
    assert forall i :: 0 <= i < |xs| - 1 ==> Requests(xs[..|xs| - 1])[i] == Requests(xs)[i];
    assert Requests(xs)[|xs| - 1] == xs[|xs| - 1].request;
  }

  lemma SameFresh<NodeDef>(b: Builder<NodeDef>, q: Request, r: Request)
    requires ContentOf(q) == ContentOf(r)
    ensures Fresh(b, q) == Fresh(b, r)
  {
  }

  lemma {:induction false} EndingSame(src: Source, lib: Library, was: seq<seq<int>>, built: seq<seq<int>>, n: nat)
    requires n <= |was| == |built| && src.Fits(|was|)
    requires forall i :: 0 <= i < n ==> src.Bind(lib, i, was[i]) == src.Bind(lib, i, built[i])
    ensures src.Ending(lib, was, n) == src.Ending(lib, built, n)
  {
    if n > 0 { EndingSame(src, lib, was, built, n - 1); }
  }

  /** Dimensions that the call brings do not matter. */
  lemma PassSame(src: Source, lib: Library, was: seq<seq<int>>, built: seq<seq<int>>)
    requires |was| == |built| && src.Fits(|was|) && forall i :: 0 <= i < |was| ==> src.Sound(i)
    requires forall i :: 0 <= i < |was| ==> was[i] == built[i] || src.Brings(i)
    ensures src.Ending(lib, was, |was|) == src.Ending(lib, built, |was|) &&
      Bindings(lib, src, was) == Bindings(lib, src, built)
    ensures src.Ending(lib, was, |was|) == Done ==> src.After(lib, was) == src.After(lib, built)
  {
    forall i | 0 <= i < |was| ensures src.Bind(lib, i, was[i]) == src.Bind(lib, i, built[i]) {
      assert src.Taken(i, was[i]) == src.Taken(i, built[i]);
    }
    EndingSame(src, lib, was, built, |was|);
    if src.Ending(lib, was, |was|) == Done {
      EndingsDone(src, lib, was);
      EndingsDone(src, lib, built);
    }
  }

  lemma EndingsDone(src: Source, lib: Library, was: seq<seq<int>>)
    requires src.Fits(|was|) && src.Ending(lib, was, |was|) == Done
    ensures forall i :: 0 <= i < |was| ==> src.After(lib, was)[i] == src.Taken(i, was[i])
  {
    forall i | 0 <= i < |was| ensures src.Ending(lib, was, i) == Done { EndingStays(src, lib, was, i, |was|); }
  }

  lemma NotBound(lib: Library, args: Arguments, was: Dims)
    requires !Binds(args, |was.ins|, |was.outs|)
    ensures Bound(lib, args, was) == None
  {
    var n := |was.ins|;
    if args.Ending(lib, was) == Done { ReachedSound(args.Inputs(n), lib, was.ins, n); }
  }

  /** What a caller has to check: if the call can be bound at all, it brings dimensions for every tensor that an
      earlier run of the kernel has left dimensions on. */
  predicate Clear(xs: seq<Run>, x: Run, n: nat, m: nat) {
    Binds(x.args, n, m) ==>
      && (forall i :: 0 <= i < n && InputLeft(xs, x.request.kernelId, n, m, i) ==> x.args.Inputs(n).Brings(i))
      && (forall i :: 0 <= i < m && OutputLeft(xs, x.request.kernelId, n, m, i) ==> x.args.Outputs(n).Brings(i))
  }

  /** No builder and no tensor library lets the cache be noticed, for contexts with `n` inputs and `m` outputs. */
  ghost predicate RunUnnoticed(capacity: nat, session: bool, xs: seq<Run>, x: Run, n: nat, m: nat) {
    forall b: Builder<Parsed>, lib: Library :: Builds(b, x.request, n, m) ==>
      ReplyOn(lib, x, ContextFor(b, ServedRuns(b, lib, capacity, session, xs), x.request)) == FreshReply(b, lib, x)
  }

  /** In either mode the same content and no dimensions left over are enough. */
  lemma ClearSuffices<NodeDef>(b: Builder<NodeDef>, lib: Library, capacity: nat, session: bool, xs: seq<Run>, x: Run,
                               n: nat, m: nat)
    requires SameContent(Requests(xs), x.request) && Clear(xs, x, n, m) && Builds(b, x.request, n, m)
    ensures ReplyOn(lib, x, ContextFor(b, ServedRuns(b, lib, capacity, session, xs), x.request)) ==
      FreshReply(b, lib, x)
  {
    var c, id := ServedRuns(b, lib, capacity, session, xs), x.request.kernelId;
    if x.request.hasSessInfo && Find(c.items, id).Some? {
      KeptWasBuilt(b, lib, capacity, session, xs, x.request);
      var made, s := Fresh(b, x.request).value, Find(c.items, id).value;
      SharedLikeFresh(b, lib, capacity, session, xs, x.request, made, n, m);
      if Binds(x.args, n, m) {
        PassSame(x.args.Inputs(n), lib, s.dims.ins, made.dims.ins);
        PassSame(x.args.Outputs(n), lib, s.dims.outs, made.dims.outs);
      } else {
        NotBound(lib, x.args, s.dims);
        NotBound(lib, x.args, made.dims);
      }
    }
  }

  /** What is in the cache could be built, and with the same content still can. */
  lemma {:induction false} KeptWasBuilt<NodeDef>(b: Builder<NodeDef>, lib: Library, capacity: nat, session: bool,
                                                 xs: seq<Run>, r: Request)
    requires SameContent(Requests(xs), r)
    ensures Find(ServedRuns(b, lib, capacity, session, xs).items, r.kernelId).Some? ==> Fresh(b, r).Some?
  {
    if xs != [] {
      var before, x := xs[..|xs| - 1], xs[|xs| - 1];
      SameBefore(xs, r);
      KeptWasBuilt(b, lib, capacity, session, before, r);
      RunsDistinct(b, lib, capacity, session, before);
      RunFinds(b, lib, ServedRuns(b, lib, capacity, session, before), x, r.kernelId);
      if Uses(x, r.kernelId) { SameFresh(b, x.request, r); }
    }
  }

  /** The builder that makes one context of everything. */
  function Plain(dims: Dims): Builder<Parsed> {
    Builder(bytes => Some((bytes, map[])), (def: Parsed, name, value) => def,
      (def: Parsed, device) => Some(Blueprint("", map[], dims)))
  }

  /** A session cache keeps one context for all runs of a kernel. */
  lemma {:induction false} SessionShares(lib: Library, capacity: nat, xs: seq<Run>, id: Key, dims: Dims)
    ensures Find(ServedRuns(Plain(dims), lib, capacity, true, xs).items, id) ==
      if exists k :: 0 <= k < |xs| && Uses(xs[k], id)
      then Some(Shared(Blueprint("", map[], dims), DimsAfterRuns(lib, xs, id, dims))) else None
    ensures !(exists k :: 0 <= k < |xs| && Uses(xs[k], id)) ==> DimsAfterRuns(lib, xs, id, dims) == dims
  {
    if xs != [] {
      var before, x := xs[..|xs| - 1], xs[|xs| - 1];
      SessionShares(lib, capacity, before, id, dims);
      assert forall k :: 0 <= k < |before| ==> before[k] == xs[k];
      RunsDistinct(Plain(dims), lib, capacity, true, before);
      RunFinds(Plain(dims), lib, ServedRuns(Plain(dims), lib, capacity, true, before), x, id);
    }
  }

  /** If a tensor whose dimensions the call does not bring has others than it was built with, that is seen. */
  lemma OtherDimsSeen(x: Run, was: Dims, built: Dims, n: nat, m: nat, i: nat)
    requires Counts(was, n, m) && Counts(built, n, m) && Binds(x.args, n, m)
    requires (i < n && !x.args.Inputs(n).Brings(i) && was.ins[i] != built.ins[i])
          || (i < m && !x.args.Outputs(n).Brings(i) && was.outs[i] != built.outs[i])
    ensures Bound(ACCEPTING, x.args, was) != Bound(ACCEPTING, x.args, built)
  {
    AcceptingBinds(x.args, was, n, m);
    AcceptingBinds(x.args, built, n, m);
    var a, b := Bound(ACCEPTING, x.args, was).value, Bound(ACCEPTING, x.args, built).value;
    if i < n && !x.args.Inputs(n).Brings(i) && was.ins[i] != built.ins[i] {
      assert a.0[i] != b.0[i];
    } else {
      assert a.1[i] != b.1[i];
    }
  }

  function Blank(n: nat): seq<seq<int>> { seq(n, i => []) }

  /** Dimensions to build with that are not those left. */
  lemma DifferentDims(xs: seq<Run>, id: Key, n: nat, m: nat, i: nat, input: bool) returns (built: Dims)
    requires if input then i < n && InputLeft(xs, id, n, m, i) else i < m && OutputLeft(xs, id, n, m, i)
    ensures Counts(built, n, m) && Counts(DimsAfterRuns(ACCEPTING, xs, id, built), n, m)
    ensures var was := DimsAfterRuns(ACCEPTING, xs, id, built);
      if input then was.ins[i] != built.ins[i] else was.outs[i] != built.outs[i]
  {
    var blank := Dims(Blank(n), Blank(m));
    var left := DimsAfterRuns(ACCEPTING, xs, id, blank);
    RunsCount(ACCEPTING, xs, id, blank);
    if input {
      built := blank.(ins := blank.ins[i := left.ins[i] + [0]]);
      AcceptingRunsInput(xs, id, blank, built, n, m, i);
    } else {
      built := blank.(outs := blank.outs[i := left.outs[i] + [0]]);
      AcceptingRunsOutput(xs, id, blank, built, n, m, i);
    }
    RunsCount(ACCEPTING, xs, id, built);
  }

  /** A tensor that shows it. */
  lemma LeftTensor(xs: seq<Run>, x: Run, n: nat, m: nat) returns (i: nat, input: bool)
    requires !Clear(xs, x, n, m)
    ensures if input then i < n && InputLeft(xs, x.request.kernelId, n, m, i) && !x.args.Inputs(n).Brings(i)
            else i < m && OutputLeft(xs, x.request.kernelId, n, m, i) && !x.args.Outputs(n).Brings(i)
  {
    var id := x.request.kernelId;
    input := exists i :: 0 <= i < n && InputLeft(xs, id, n, m, i) && !x.args.Inputs(n).Brings(i);
    if input {
      i :| 0 <= i < n && InputLeft(xs, id, n, m, i) && !x.args.Inputs(n).Brings(i);
    } else {
      i :| 0 <= i < m && OutputLeft(xs, id, n, m, i) && !x.args.Outputs(n).Brings(i);
    }
  }

  lemma LeftIsSeen(capacity: nat, xs: seq<Run>, x: Run, n: nat, m: nat) returns (b: Builder<Parsed>)
    requires x.request.hasSessInfo && !Clear(xs, x, n, m)
    ensures Builds(b, x.request, n, m)
    ensures ReplyOn(ACCEPTING, x,
      ContextFor(b, ServedRuns(b, ACCEPTING, capacity, true, xs), x.request)) != FreshReply(b, ACCEPTING, x)
  {
    var id := x.request.kernelId;
    var i, input := LeftTensor(xs, x, n, m);
    var built := DifferentDims(xs, id, n, m, i, input);
    b := Plain(built);
    SessionShares(ACCEPTING, capacity, xs, id, built);
    OtherDimsSeen(x, DimsAfterRuns(ACCEPTING, xs, id, built), built, n, m, i);
  }

  /** Main result: through a session cache a call gets the same context, bound the same way, as without it,
      whatever parsing, construction and the tensor library do, exactly if it has no session, or all earlier
      requests for its kernel carry its content and no dimensions left over matter to it. */
  lemma RunTransparentExactly(capacity: nat, xs: seq<Run>, x: Run, n: nat, m: nat)
    ensures RunUnnoticed(capacity, true, xs, x, n, m) <==>
      !x.request.hasSessInfo || (SameContent(Requests(xs), x.request) && Clear(xs, x, n, m))
  {
    if !x.request.hasSessInfo {
    } else if !SameContent(Requests(xs), x.request) {
      var dims := Dims(Blank(n), Blank(m));
      var b := OtherContentTold(capacity, Requests(xs), x.request, dims);
      WithoutTensors(b, ACCEPTING, capacity, true, xs);
      FindMapped(ServedRuns(b, ACCEPTING, capacity, true, xs).items, x.request.kernelId, MADE_OF);
      assert Builds(b, x.request, n, m);
    } else if !Clear(xs, x, n, m) {
      var b := LeftIsSeen(capacity, xs, x, n, m);
    } else {
      forall b: Builder<Parsed>, lib: Library | Builds(b, x.request, n, m)
        ensures ReplyOn(lib, x, ContextFor(b, ServedRuns(b, lib, capacity, true, xs), x.request)) ==
          FreshReply(b, lib, x)
      {
        ClearSuffices(b, lib, capacity, true, xs, x, n, m);
      }
    }
  }

  /** An LRU cache adds no other way to be noticed. */
  lemma RunTransparent(capacity: nat, session: bool, xs: seq<Run>, x: Run, n: nat, m: nat)
    requires SameContent(Requests(xs), x.request) && Clear(xs, x, n, m)
    ensures RunUnnoticed(capacity, session, xs, x, n, m)
  {
    forall b: Builder<Parsed>, lib: Library | Builds(b, x.request, n, m)
      ensures ReplyOn(lib, x, ContextFor(b, ServedRuns(b, lib, capacity, session, xs), x.request)) ==
        FreshReply(b, lib, x)
    {
      ClearSuffices(b, lib, capacity, session, xs, x, n, m);
    }
  }

  lemma FlagEnds(dim: int, record: seq<int>)
    requires record == [dim, END_FLAG] && dim != END_FLAG
    ensures DimsOf(record) == [dim]
  {
    DimsBeforeFlag(record, 1);
  }

  function Unknown(record: seq<int>, memory: int -> Reading): Arguments {
    Arguments([0], Message(true, [record], [], map[], map[]), memory)
  }

  function Known(memory: int -> Reading): Arguments {
    Arguments([0], Message(false, [], [], map[], map[]), memory)
  }

  lemma UnknownLeaves(x: Run, record: seq<int>, memory: int -> Reading, dim: int)
    requires x.args == Unknown(record, memory) && record == [dim, END_FLAG] && dim != END_FLAG && x.kernel.sets == map[]
    ensures LeavesInput(x, 1, 0, 0) && AfterRun(ACCEPTING, x, Dims([[7]], [])) == Dims([[dim]], [])
  {
    FlagEnds(dim, record);
    AcceptingBinds(x.args, Dims([[7]], []), 1, 0);
  }

  /** The same request twice, of a kernel with one input: the first time with unknown shapes, the input's being
      [4]; the second time with known ones.  It is the context that was built with [7] all the same, but its
      input now has [4]. */
  lemma SecondCallNoticed(r: Request, memory: int -> Reading, kernel: Kernel, capacity: nat, record: seq<int>)
    requires r.hasSessInfo && record == [4, END_FLAG] && kernel.sets == map[]
    ensures var first, second := Run(r, Unknown(record, memory), kernel), Run(r, Known(memory), kernel);
      && Unnoticed(capacity, true, [r], r) && !RunUnnoticed(capacity, true, [first], second, 1, 0)
      && AfterRun(ACCEPTING, first, Dims([[7]], [])) == Dims([[4]], [])
      && Bound(ACCEPTING, second.args, Dims([[4]], [])) != Bound(ACCEPTING, second.args, Dims([[7]], []))
  {
    var first, second := Run(r, Unknown(record, memory), kernel), Run(r, Known(memory), kernel);
    SessionTransparentExactly(capacity, [r], r);
    UnknownLeaves(first, record, memory, 4);
    assert Uses([first][0], r.kernelId);
    assert InputLeft([first], r.kernelId, 1, 0, 0) && !second.args.Inputs(1).Brings(0);
    RunTransparentExactly(capacity, [first], second, 1, 0);
    OtherDimsSeen(second, Dims([[4]], []), Dims([[7]], []), 1, 0, 0);
  }
}
