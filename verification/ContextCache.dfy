/** `CpuKernelCache` of ops/built-in/cpu_kernel_cache.cc: contexts looked up or built, and run on, over a kernel
    cache that shares them out. */
module ContextCache {
  import opened Wrappers
  import opened CacheModel
  import opened CacheTheorems
  import opened KernelCache
  import opened TensorUpdate
  import opened ContextModel
  import opened SharedContext

  /** A context as the cache shares it out: every run changes the dimensions of its tensors in place. */
  class Context {
    const made: Blueprint
    /** The kernel that it was built for. */
    ghost const id: Key
    var dims: Dims

    constructor (made: Blueprint, ghost id: Key)
      ensures this.made == made && this.id == id && dims == made.dims
    {
      this.made, this.id, dims := made, id, made.dims;
    }

    function Now(): Shared
      reads this
    {
      Shared(made, dims)
    }
  }

  function NowOf(ctx: Option<Context>): Option<Shared>
    reads if ctx.Some? then {ctx.value} else {}
  {
    match ctx
    case None => None
    case Some(context) => Some(context.Now())
  }

  /** Contexts seen with the dimensions recorded for them. */
  ghost function With(dims: map<Context, Dims>): Context -> Shared {
    (ctx: Context) => Shared(ctx.made, if ctx in dims then dims[ctx] else ctx.made.dims)
  }

  /** Every context is stored under its own kernel, and its dimensions are recorded. */
  ghost predicate Owned(items: seq<Entry<Context>>, dims: map<Context, Dims>) {
    forall i :: 0 <= i < |items| ==> items[i].value.id == items[i].key && items[i].value in dims
  }

  lemma {:induction false} OwnedWithout(items: seq<Entry<Context>>, dims: map<Context, Dims>, key: Key)
    requires Owned(items, dims)
    ensures Owned(Without(items, key), dims)
  {
    if items != [] { OwnedWithout(items[1..], dims, key); }
  }

  lemma {:induction false} OwnedFound(items: seq<Entry<Context>>, dims: map<Context, Dims>, key: Key)
    requires Owned(items, dims) && Find(items, key).Some?
    ensures Find(items, key).value.id == key && Find(items, key).value in dims
  {
    if items[0].key != key { OwnedFound(items[1..], dims, key); }
  }

  lemma OwnedGet(c: Cache<Context>, dims: map<Context, Dims>, key: Key)
    requires Owned(c.items, dims)
    ensures Owned(AfterGet(c, key).items, dims)
    ensures Find(c.items, key).Some? ==> Find(c.items, key).value.id == key && Find(c.items, key).value in dims
  {
    OwnedWithout(c.items, dims, key);
    if Find(c.items, key).Some? { OwnedFound(c.items, dims, key); }
  }

  lemma OwnedSet(c: Cache<Context>, dims: map<Context, Dims>, key: Key, ctx: Context)
    requires Owned(c.items, dims) && ctx.id == key && ctx in dims
    ensures Owned(AfterSet(c, key, ctx).items, dims)
  {
    OwnedWithout(c.items, dims, key);
  }

  /** Recording a context that is not in the cache changes nothing that is seen there. */
  lemma RecordNew(c: Cache<Context>, dims: map<Context, Dims>, ctx: Context)
    requires Owned(c.items, dims) && ctx !in dims
    ensures Mapped(c, With(dims[ctx := ctx.made.dims])) == Mapped(c, With(dims))
  {
  }

  /** Looking a context up. */
  lemma GetKnown(c: Cache<Context>, dims: map<Context, Dims>, key: Key)
    requires Owned(c.items, dims)
    ensures var after, found := AfterGet(c, key), Find(c.items, key);
      && Owned(after.items, dims) && Find(after.items, key) == found
      && Mapped(after, With(dims)) == AfterGet(Mapped(c, With(dims)), key)
      && Find(Mapped(c, With(dims)).items, key) == MappedValue(found, With(dims))
      && (found.Some? ==> found.value.id == key && found.value in dims)
  {
    OwnedGet(c, dims, key);
    MappedGet(c, key, With(dims));
    HitStays(c, key);
  }

  /** Storing a context that has just been built. */
  lemma StoreNew(c: Cache<Context>, dims: map<Context, Dims>, ctx: Context)
    requires Owned(c.items, dims) && ctx !in dims
    ensures var after, recorded := AfterSet(c, ctx.id, ctx), dims[ctx := ctx.made.dims];
      && Owned(after.items, recorded) && Find(after.items, ctx.id) == Some(ctx)
      && Mapped(after, With(recorded)) == AfterSet(Mapped(c, With(dims)), ctx.id, Shared(ctx.made, ctx.made.dims))
  {
    var recorded := dims[ctx := ctx.made.dims];
    RecordNew(c, dims, ctx);
    OwnedSet(c, recorded, ctx.id, ctx);
    MappedSet(c, ctx.id, ctx, With(recorded));
    FindAfter(c, Set(ctx.id, ctx), ctx.id);
  }

  /** Changing the context under a kernel changes just its entry. */
  lemma RecordChange(c: Cache<Context>, dims: map<Context, Dims>, ctx: Context, now: Dims)
    requires Owned(c.items, dims) && Distinct(Keys(c.items)) && Find(c.items, ctx.id) == Some(ctx)
    ensures Mapped(c, With(dims[ctx := now])) == Changed(Mapped(c, With(dims)), ctx.id, Shared(ctx.made, now))
  {
    FindIsKey(c.items, ctx.id);
    var a, b := Mapped(c, With(dims[ctx := now])).items,
      Changed(Mapped(c, With(dims)), ctx.id, Shared(ctx.made, now)).items;
    forall i | 0 <= i < |c.items| ensures a[i] == b[i] {
      assert c.items[i].value == ctx <==> c.items[i].key == ctx.id;
    }
  }

  lemma OnlyNew(repr: set<object>, before: set<object>, nodes: set<object>, keys: set<object>, ctx: object)
    requires before <= repr && keys <= repr + {ctx}
    ensures repr + nodes + keys - repr - {ctx} <= nodes - before
  {
  }

  /** `CpuKernelCache`: a kernel cache of contexts. */
  class CpuKernelCache {
    const cache: KernelCache<Context>
    /** What it holds, the dimensions of its contexts, and its memory. */
    ghost var seen: Cache<Shared>
    ghost var dims: map<Context, Dims>
    ghost var Repr: set<object>

    ghost predicate Valid()
      reads this, Repr
    {
      && this in Repr && cache in Repr && cache.Nodes() <= Repr && cache.Valid()
      && (forall ctx :: ctx in dims ==> ctx in Repr && ctx.dims == dims[ctx])
      && Owned(cache.Items(), dims) && seen == Mapped(cache.Contents(), With(dims))
    }

    constructor ()
      ensures Valid() && fresh(Repr) && seen == Cache(1, false, [])
    {
      cache := new KernelCache<Context>();
      new;
      Repr, dims := {this, cache}, map[];
      seen := Mapped(cache.Contents(), With(dims));
      assert |cache.Items()| == |cache.list|;
    }

    method Init(sessFlag: bool) returns (ret: int)
      requires Valid()
      modifies Repr
      ensures Valid() && Repr == old(Repr) && ret == 0
      ensures seen == Cache(if sessFlag then old(seen.capacity) else 256, sessFlag, old(seen.items))
    {
      ret := cache.Init(sessFlag);
      seen := Mapped(cache.Contents(), With(dims));
    }

    /** The context is the one cached for the request's kernel, and can be changed there; or it is the
        caller's own. */
    ghost predicate Lent(ctx: Context, r: Request)
      reads this, cache, cache.list
    {
      if r.hasSessInfo then ctx.id == r.kernelId && ctx in dims && Find(cache.Items(), ctx.id) == Some(ctx)
        else ctx !in dims
    }

    method GetCpuKernelContext<NodeDef>(b: Builder<NodeDef>, r: Request) returns (ctx: Option<Context>)
      requires Valid()
      modifies Repr
      ensures Valid() && fresh(Repr - old(Repr))
      ensures seen == Placed(b, old(seen), r) && NowOf(ctx) == ContextFor(b, old(seen), r)
      ensures Gets(b, old(seen), r, NowOf(ctx)) && Stores(old(seen), r, NowOf(ctx), seen)
      ensures ctx.Some? ==> Lent(ctx.value, r) && (!r.hasSessInfo ==> fresh(ctx.value) && ctx.value !in Repr)
    {
      GetsContext(b, seen, r);
      ctx := Lookup(r);
      if ctx.Some? {
        return;
      }
      ctx := Build(b, r);
      if ctx.Some? && r.hasSessInfo {
        Store(r.kernelId, ctx.value);
      }
    }

    method Lookup(r: Request) returns (found: Option<Context>)
      requires Valid()
      modifies Repr
      ensures Valid() && fresh(Repr - old(Repr))
      ensures seen == if r.hasSessInfo then AfterGet(old(seen), r.kernelId) else old(seen)
      ensures NowOf(found) == if r.hasSessInfo then Find(old(seen).items, r.kernelId) else None
      ensures found.Some? ==> Lent(found.value, r)
    {
      found := None;
      if r.hasSessInfo {
        found := Get(r.kernelId);
      }
    }

    method Get(id: Key) returns (found: Option<Context>)
      requires Valid()
      modifies Repr
      ensures Valid() && fresh(Repr - old(Repr)) && dims == old(dims)
      ensures seen == AfterGet(old(seen), id) && NowOf(found) == Find(old(seen).items, id)
      ensures found == Find(cache.Items(), id) && (found.Some? ==> found.value.id == id && found.value in dims)
    {
      ghost var was, recorded := cache.Contents(), dims;
      GetKnown(was, recorded, id);
      found := GetContext(id);
      assert cache.Items() == AfterGet(was, id).items;
      Refresh(recorded);
      assert found.Some? ==> found.value.dims == recorded[found.value];
    }

    /** The list changes, contexts do not. */
    method GetContext(id: Key) returns (found: Option<Context>)
      requires Valid()
      modifies cache
      ensures cache.Valid() && cache.Contents() == AfterGet(old(cache.Contents()), id)
      ensures found == Find(old(cache.Items()), id) && fresh(cache.Nodes() - old(cache.Nodes()))
      ensures forall c :: c in dims ==> c.dims == dims[c]
    {
      found := cache.GetCache(id);
    }

    /** After a call on the cache. */
    ghost method Refresh(recorded: map<Context, Dims>)
      requires this in Repr && cache in Repr && cache.Valid() && Owned(cache.Items(), recorded)
      requires forall ctx :: ctx in recorded ==> ctx.dims == recorded[ctx]
      modifies this`seen, this`dims, this`Repr
      ensures Valid() && Repr == old(Repr) + cache.Nodes() + recorded.Keys && dims == recorded
      ensures cache.Contents() == old(cache.Contents()) && cache.Nodes() == old(cache.Nodes())
      ensures seen == Mapped(cache.Contents(), With(recorded))
    {
      dims, Repr := recorded, Repr + cache.Nodes() + recorded.Keys;
      seen := Mapped(cache.Contents(), With(recorded));
    }

    /** The nodes of the list change, contexts do not. */
    method SetContext(id: Key, ctx: Context)
      requires Valid()
      modifies cache, cache.list
      ensures cache.Valid() && cache.Contents() == AfterSet(old(cache.Contents()), id, ctx)
      ensures fresh(cache.Nodes() - old(cache.Nodes())) && ctx.dims == old(ctx.dims)
      ensures forall c :: c in dims ==> c.dims == dims[c]
    {
      assert forall c: object :: c in cache.Nodes() ==> c is Node<Context>;
      cache.SetCache(id, ctx);
    }

    /** A context that is new to the list. */
    method SetNew(id: Key, ctx: Context)
      requires Valid() && ctx !in dims && ctx.id == id && ctx.dims == ctx.made.dims
      modifies cache, cache.list
      ensures cache.Valid() && Owned(cache.Items(), dims[ctx := ctx.made.dims])
      ensures fresh(cache.Nodes() - old(cache.Nodes())) && ctx.dims == old(ctx.dims)
      ensures forall c :: c in dims ==> c.dims == dims[c]
      ensures Find(cache.Items(), id) == Some(ctx)
      ensures Mapped(cache.Contents(), With(dims[ctx := ctx.made.dims])) == AfterSet(seen, id, ctx.Now())
    {
      StoreNew(cache.Contents(), dims, ctx);
      SetContext(id, ctx);
    }

    method Store(id: Key, ctx: Context)
      requires Valid() && ctx !in dims && ctx.id == id && ctx.dims == ctx.made.dims
      modifies Repr
      ensures Valid() && fresh(Repr - old(Repr) - {ctx})
      ensures seen == AfterSet(old(seen), id, ctx.Now()) && ctx.dims == old(ctx.dims)
      ensures ctx in dims && Find(cache.Items(), id) == Some(ctx)
    {
      ghost var repr, nodes, recorded := Repr, cache.Nodes(), dims[ctx := ctx.made.dims];
      assert nodes <= repr && recorded.Keys <= repr + {ctx};
      SetNew(id, ctx);
      Refresh(recorded);
      OnlyNew(repr, nodes, cache.Nodes(), recorded.Keys, ctx);
    }

    /** The context changes, the list and the other contexts do not. */
    method SetDims(ctx: Context, now: Dims)
      requires Valid() && ctx in dims
      modifies ctx
      ensures cache.Valid() && cache.Contents() == old(cache.Contents()) && cache.Nodes() == old(cache.Nodes())
      ensures ctx.dims == now && forall c :: c in dims && c != ctx ==> c.dims == dims[c]
      ensures Owned(cache.Items(), dims[ctx := now])
    {
      ctx.dims := now;
    }

    /** A run leaves its dimensions on the context where it lies in the cache. */
    method Change(ctx: Context, now: Dims)
      requires Valid() && ctx in dims && Find(cache.Items(), ctx.id) == Some(ctx)
      modifies Repr
      ensures Valid() && Repr == old(Repr) && ctx.dims == now
      ensures seen == Changed(old(seen), ctx.id, Shared(ctx.made, now))
    {
      cache.FindNode(ctx.id);
      RecordChange(cache.Contents(), dims, ctx, now);
      SetDims(ctx, now);
      Refresh(dims[ctx := now]);
    }

    /** `RunKernel` of the cache. */
    method RunKernel<NodeDef>(b: Builder<NodeDef>, lib: Library, job: Job) returns (reply: Reply)
      requires Valid()
      modifies Repr
      ensures Valid() && fresh(Repr - old(Repr))
      ensures seen == ServeJob(b, lib, old(seen), job) && reply == Answer(b, lib, old(seen), job)
      ensures Answered(b, lib, old(seen), job, reply) && Leaves(b, lib, old(seen), job, seen)
      ensures seen.session == old(seen.session) && seen.capacity == old(seen.capacity)
    {
      AnswerIsAnswered(b, lib, seen, job);
      ServeLeaves(b, lib, seen, job);
      if job.None? {
        return Reply(-1, None, None);
      }
      var x := job.value;
      var ctx := GetCpuKernelContext(b, x.request);
      if ctx.None? {
        return Reply(INNER_ERROR, None, None);
      }
      reply := RunOn(lib, ctx.value, x);
    }

    /** Binding the tensors, running the kernel, writing shapes back. */
    method RunOn(lib: Library, ctx: Context, x: Run) returns (reply: Reply)
      requires Valid() && Lent(ctx, x.request) && (!x.request.hasSessInfo ==> ctx !in Repr)
      modifies Repr, ctx
      ensures Valid() && Repr == old(Repr)
      ensures reply == ReplyOn(lib, x, Some(old(ctx.Now())))
      ensures seen == if !x.request.hasSessInfo then old(seen)
                      else Changed(old(seen), ctx.id, old(ctx.Now()).(dims := AfterRun(lib, x, old(ctx.dims))))
    {
      var was := ctx.dims;
      var now := AfterRun(lib, x, was);
      if x.request.hasSessInfo {
        Change(ctx, now);
      } else {
        ctx.dims := now;
      }
      reply := Reply(Finish(x, x.args.Ending(lib, was), now), Some(ctx.made), Bound(lib, x.args, was));
    }
  }

  /** Parse, add the wait attributes, construct. */
  method Build<NodeDef>(b: Builder<NodeDef>, r: Request) returns (ctx: Option<Context>)
    ensures NowOf(ctx) == (match Fresh(b, r) case None => None case Some(made) => Some(Shared(made, made.dims)))
    ensures ctx.Some? ==> fresh(ctx.value) && ctx.value.id == r.kernelId
  {
    var parsed := b.parse(r.nodeDef);
    if parsed.None? {
      return None;
    }
    var def := b.addAttr(parsed.value, "wait_type", r.waitType);
    def := b.addAttr(def, "wait_id", r.waitId);
    var deviceType := DEVICE;
    if r.host {
      deviceType := HOST;
    }
    var made := b.init(def, deviceType);
    if made.None? {
      return None;
    }
    var context := new Context(made.value, r.kernelId);
    ctx := Some(context);
  }
}
