/** Contexts built from node definitions and kept in a kernel cache (ops/built-in/cpu_kernel_cache.cc,
    `GetCpuKernelContext`), as they are built.  Parsing, attribute insertion and construction are parameters. */
module ContextModel {
  import opened Wrappers
  import opened CacheModel
  import opened CacheTheorems
  import opened TensorUpdate

  type Bytes = seq<bv8>

  /** A context as it is built: its kernel, its attributes, and the dimensions of its tensors, which later runs
      change. */
  datatype Blueprint = Blueprint(opType: string, attrs: map<string, int>, dims: Dims)

  datatype DeviceType = HOST | DEVICE

  /** The foreign steps: `ParseFromString`, `AddAttrs` and `CpuKernelContext::Init`. */
  datatype Builder<!NodeDef> = Builder(
    parse: Bytes -> Option<NodeDef>,
    addAttr: (NodeDef, string, int) -> NodeDef,
    init: (NodeDef, DeviceType) -> Option<Blueprint>)

  /** The parts of a run's message and node definition that decide its context. */
  datatype Request = Request(hasSessInfo: bool, kernelId: Key, waitType: int, waitId: int, host: bool, nodeDef: Bytes)

  /** The context a run would get without a cache; None if parsing or construction fails. */
  function Fresh<NodeDef>(b: Builder<NodeDef>, r: Request): Option<Blueprint> {
    match b.parse(r.nodeDef)
    case None => None
    case Some(def) =>
      var def := b.addAttr(b.addAttr(def, "wait_type", r.waitType), "wait_id", r.waitId);
      b.init(def, if r.host then HOST else DEVICE)
  }

  /** What one run gets and what it leaves in the cache. */
  function Response<NodeDef>(b: Builder<NodeDef>, c: Cache<Blueprint>, r: Request): Option<Blueprint> {
    if r.hasSessInfo && Find(c.items, r.kernelId).Some? then Find(c.items, r.kernelId) else Fresh(b, r)
  }

  function Serve<NodeDef>(b: Builder<NodeDef>, c: Cache<Blueprint>, r: Request): Cache<Blueprint> {
    if !r.hasSessInfo then c
    else if Find(c.items, r.kernelId).Some? || Fresh(b, r).None? then AfterGet(c, r.kernelId)
    else AfterSet(AfterGet(c, r.kernelId), r.kernelId, Fresh(b, r).value)
  }

  // ---- Whole runs ----

  /** The cache after serving `requests` from empty. */
  function Served<NodeDef>(b: Builder<NodeDef>, capacity: nat, session: bool,
                           requests: seq<Request>): Cache<Blueprint>
  {
    if requests == [] then Cache(capacity, session, [])
    else Serve(b, Served(b, capacity, session, requests[..|requests| - 1]), requests[|requests| - 1])
  }

  /** The last request that put a context under `id`: a miss that built one. */
  function Installer<NodeDef>(b: Builder<NodeDef>, capacity: nat, session: bool, requests: seq<Request>,
                              id: Key): Option<Request>
  {
    if requests == [] then None else
    var before, r := requests[..|requests| - 1], requests[|requests| - 1];
    if r.hasSessInfo && r.kernelId == id && Find(Served(b, capacity, session, before).items, id).None? &&
      Fresh(b, r).Some?
    then Some(r) else Installer(b, capacity, session, before, id)
  }

  /** What is cached under an id is what its installer built, on a hit and after eviction alike. */
  lemma {:induction false} CachedIsInstalled<NodeDef>(b: Builder<NodeDef>, capacity: nat, session: bool,
                                                      requests: seq<Request>, id: Key)
    ensures var found := Find(Served(b, capacity, session, requests).items, id);
            var installer := Installer(b, capacity, session, requests, id);
            found.Some? ==> installer.Some? && installer.value in requests && found == Fresh(b, installer.value)
                            && installer.value.hasSessInfo && installer.value.kernelId == id
  {
    if requests != [] {
      var before, r := requests[..|requests| - 1], requests[|requests| - 1];
      var c := Served(b, capacity, session, before);
      CachedIsInstalled(b, capacity, session, before, id);
      FindAfter(c, Get(r.kernelId), id);
      if r.hasSessInfo && Find(c.items, r.kernelId).None? && Fresh(b, r).Some? {
        FindAfter(AfterGet(c, r.kernelId), Set(r.kernelId, Fresh(b, r).value), id);
      }
    }
  }

  /** When the wait information of a kernel changes, the first build's is returned. */
  lemma StaleWaitInfo(r1: Request, r2: Request, capacity: nat, session: bool)
    requires r1.hasSessInfo && r2 == r1.(waitType := r1.waitType + 1)
    ensures var b := Builder(bytes => Some(0), (def, name, value) => if name == "wait_type" then value else def,
                             (def, device) => Some(Blueprint("op", map["wait_type" := def], Dims([], []))));
            Response(b, Served(b, capacity, session, [r1]), r2) != Fresh(b, r2)
  {
    var b := Builder(bytes => Some(0), (def, name, value) => if name == "wait_type" then value else def,
                     (def, device) => Some(Blueprint("op", map["wait_type" := def], Dims([], []))));
    var c := Served(b, capacity, session, []);
    assert [r1][..0] == [];
    assert Served(b, capacity, session, [r1]) == Serve(b, c, r1);
    var m1, m2 := Fresh(b, r1).value, Fresh(b, r2).value;
    assert m1.attrs["wait_type"] == r1.waitType && m2.attrs["wait_type"] == r1.waitType + 1;
  }
}
