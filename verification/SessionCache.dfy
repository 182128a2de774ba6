/** `SessionCache` of ops/built-in/session_cache.h: one kernel cache per session id and one per stream id. */
module SessionCache {
  import opened Wrappers
  import opened CacheModel
  import opened TensorUpdate
  import opened ContextModel
  import opened SharedContext
  import opened ContextCache

  type Registry = map<Key, CpuKernelCache>

  /** Caches outside sessions hold 256 entries; the capacity of session caches is not used. */
  function CapacityOf(sessFlag: bool): nat { if sessFlag then 1 else 256 }
  function Empty(sessFlag: bool): Cache<Shared> { Cache(CapacityOf(sessFlag), sessFlag, []) }

  /** Different ids have different caches, all of one mode. */
  ghost predicate Holds(m: Registry, caches: set<CpuKernelCache>, sessFlag: bool)
    reads caches
  {
    && (forall i :: i in m ==>
      m[i] in caches && m[i].seen.session == sessFlag && m[i].seen.capacity == CapacityOf(sessFlag))
    && (forall i, j :: i in m && j in m && i != j ==> m[i] != m[j])
  }

  /** A cache that is new to the map of its mode. */
  lemma HoldsOneMore(m: Registry, caches: set<CpuKernelCache>, sessFlag: bool, id: Key, kernel: CpuKernelCache)
    requires Holds(m, caches, sessFlag) && kernel in caches && (forall i :: i in m ==> m[i] != kernel)
    requires kernel.seen == Empty(sessFlag)
    ensures Holds(m[id := kernel], caches, sessFlag)
  {
  }

  class SessionCache {
    var streamKernelCache: Registry
    var sessionKernelCache: Registry
    /** Every cache ever created, and all memory below. */
    ghost var caches: set<CpuKernelCache>
    ghost var Repr: set<object>

    /** Distinct entries, within and across the maps, are distinct caches with memory of their own;
        stream caches are LRU caches of 256, session caches never evict. */
    ghost predicate Valid()
      reads this, Repr
    {
      && this in Repr
      && (forall c :: c in caches ==> c in Repr && c.Repr <= Repr && this !in c.Repr && c.Valid())
      && (forall c, d :: c in caches && d in caches && c != d ==> c.Repr !! d.Repr)
      && Holds(streamKernelCache, caches, false) && Holds(sessionKernelCache, caches, true)
    }

    constructor ()
      ensures Valid() && fresh(Repr) && streamKernelCache == map[] && sessionKernelCache == map[] && caches == {}
    {
      streamKernelCache, sessionKernelCache, caches := map[], map[], {};
      Repr := {this};
    }

    /** The map of a mode. */
    ghost function Kernels(sessFlag: bool): Registry
      reads this
    {
      if sessFlag then sessionKernelCache else streamKernelCache
    }

    /** The cache of an id, created and initialised on its first use; `canAllocate` is whether `new` succeeds. */
    method GetOrCreateKernelCache(kernelMap: Registry, id: Key, sessFlag: bool, canAllocate: bool)
      returns (ret: int, kernel: Option<CpuKernelCache>, kernelMap': Registry)
      ensures if id in kernelMap then ret == 0 && kernel == Some(kernelMap[id]) && kernelMap' == kernelMap
              else if canAllocate then
                && ret == 0 && kernel.Some? && kernelMap' == kernelMap[id := kernel.value]
                && kernel.value.Valid() && fresh(kernel.value.Repr)
                && kernel.value.seen == Cache(if sessFlag then 1 else 256, sessFlag, [])
              else ret == -1 && kernel == None && kernelMap' == kernelMap
    {
      if id in kernelMap {
        return 0, Some(kernelMap[id]), kernelMap;
      }
      if !canAllocate {
        return -1, None, kernelMap;
      }
      var cache := new CpuKernelCache();
      ret := cache.Init(sessFlag);
      kernel, kernelMap' := Some(cache), kernelMap[id := cache];
    }

    /** `GetOrCreateKernelCache` on the map that the run's mode selects. */
    method Select(id: Key, sessFlag: bool, canAllocate: bool) returns (ret: int, kernel: Option<CpuKernelCache>)
      requires Valid()
      modifies this
      ensures Valid() && fresh(Repr - old(Repr)) && old(caches) <= caches
      ensures Kernels(!sessFlag) == old(Kernels(!sessFlag))
      ensures ret == if id in old(Kernels(sessFlag)) || canAllocate then 0 else -1
      ensures ret != 0 ==> Kernels(sessFlag) == old(Kernels(sessFlag))
      ensures ret == 0 ==>
        kernel.Some? && kernel.value in caches && Kernels(sessFlag) == old(Kernels(sessFlag))[id := kernel.value]
      ensures ret == 0 ==> if id in old(Kernels(sessFlag)) then kernel.value == old(Kernels(sessFlag))[id]
                           else kernel.value.seen == Empty(sessFlag) && kernel.value !in old(caches)
    {
      var kernelMap;
      if sessFlag {
        ret, kernel, kernelMap := GetOrCreateKernelCache(sessionKernelCache, id, sessFlag, canAllocate);
        if kernelMap != sessionKernelCache {
          InstallSession(id, kernel.value);
        }
      } else {
        ret, kernel, kernelMap := GetOrCreateKernelCache(streamKernelCache, id, sessFlag, canAllocate);
        if kernelMap != streamKernelCache {
          InstallStream(id, kernel.value);
        }
      }
    }

    /** Keep a new cache under the id of a session. */
    method InstallSession(id: Key, kernel: CpuKernelCache)
      requires Valid() && kernel.Valid() && kernel.Repr !! Repr && kernel.seen == Empty(true)
      modifies this
      ensures Valid() && Repr == old(Repr) + kernel.Repr && caches == old(caches) + {kernel}
      ensures sessionKernelCache == old(sessionKernelCache)[id := kernel] && streamKernelCache == old(streamKernelCache)
    {
      sessionKernelCache := sessionKernelCache[id := kernel];
      caches, Repr := caches + {kernel}, Repr + kernel.Repr;
      MapsStillHold();
      HoldsOneMore(old(sessionKernelCache), caches, true, id, kernel);
      StillApart(kernel);
    }

    /** And under that of a stream. */
    method InstallStream(id: Key, kernel: CpuKernelCache)
      requires Valid() && kernel.Valid() && kernel.Repr !! Repr && kernel.seen == Empty(false)
      modifies this
      ensures Valid() && Repr == old(Repr) + kernel.Repr && caches == old(caches) + {kernel}
      ensures streamKernelCache == old(streamKernelCache)[id := kernel] && sessionKernelCache == old(sessionKernelCache)
    {
      streamKernelCache := streamKernelCache[id := kernel];
      caches, Repr := caches + {kernel}, Repr + kernel.Repr;
      MapsStillHold();
      HoldsOneMore(old(streamKernelCache), caches, false, id, kernel);
      StillApart(kernel);
    }

    /** More caches do not disturb what the maps hold. */
    twostate lemma MapsStillHold()
      requires old(Valid()) && old(caches) <= caches
      requires forall o: object :: o in old(Repr) && o != this ==> unchanged(o)
      ensures Holds(old(streamKernelCache), caches, false) && Holds(old(sessionKernelCache), caches, true)
      ensures forall i :: i in old(streamKernelCache) ==> old(streamKernelCache)[i] in old(caches)
      ensures forall i :: i in old(sessionKernelCache) ==> old(sessionKernelCache)[i] in old(caches)
    {
      forall c | c in old(caches) ensures c.seen == old(c.seen) { assert c in old(Repr); }
    }

    /** A new cache leaves the others as they are, and stands apart from them. */
    twostate lemma OthersApart(kernel: CpuKernelCache)
      requires old(Valid()) && kernel.Repr !! old(Repr)
      requires forall o: object :: o in old(Repr) && o != this ==> unchanged(o)
      ensures forall c :: c in old(caches) ==> c.Valid() && c.Repr == old(c.Repr) && c.Repr !! kernel.Repr
    {
      forall c | c in old(caches) ensures c.Valid() && c.Repr == old(c.Repr) && c.Repr !! kernel.Repr {
        assert old(c.Repr) <= old(Repr) && this !in old(c.Repr);
      }
    }

    twostate lemma StillApart(kernel: CpuKernelCache)
      requires old(Valid()) && kernel.Valid() && kernel.Repr !! old(Repr) && kernel !in old(caches)
      requires caches == old(caches) + {kernel} && Repr == old(Repr) + kernel.Repr
      requires forall o: object :: o in old(Repr) && o != this ==> unchanged(o)
      ensures this in Repr && forall c :: c in caches ==> c in Repr && c.Repr <= Repr && this !in c.Repr && c.Valid()
      ensures forall c, d :: c in caches && d in caches && c != d ==> c.Repr !! d.Repr
    {
      OthersApart(kernel);
      assert this !in kernel.Repr;
    }

    /** Run a job on the cache of its session or stream.  An id keeps its cache for good, and no other cache
        notices the run. */
    method RunKernel<NodeDef>(b: Builder<NodeDef>, lib: Library, job: Job, sessionId: Key, streamId: Key,
                              sessFlag: bool,
                              canAllocate: bool) returns (reply: Reply)
      requires Valid()
      modifies Repr
      ensures Valid() && fresh(Repr - old(Repr)) && old(caches) <= caches
      ensures var id := if sessFlag then sessionId else streamId;
              var kernels, kernels' := old(Kernels(sessFlag)), Kernels(sessFlag);
              var before := if id in kernels then old(kernels[id].seen) else Empty(sessFlag);
              var found := id in kernels || canAllocate;
              && Kernels(!sessFlag) == old(Kernels(!sessFlag))
              && reply == (if found then Answer(b, lib, before, job) else Reply(-1, None, None))
              && (!found ==> kernels' == kernels)
              && (found ==> id in kernels' && kernels' == kernels[id := kernels'[id]])
              && (found && id in kernels ==> kernels'[id] == kernels[id])
              && (found ==> kernels'[id].seen == ServeJob(b, lib, before, job))
              && forall c :: c in old(caches) && !(found && c == kernels'[id]) ==> c.seen == old(c.seen)
    {
      var id := if sessFlag then sessionId else streamId;
      var ret, kernel := Select(id, sessFlag, canAllocate);
      if ret != 0 {
        return Reply(ret, None, None);
      }
      reply := RunOn(kernel.value, b, lib, job);
    }

    /** A run on one cache leaves the maps and every other cache as they were. */
    method RunOn<NodeDef>(kernel: CpuKernelCache, b: Builder<NodeDef>, lib: Library, job: Job) returns (reply: Reply)
      requires Valid() && kernel in caches
      modifies kernel.Repr, this`Repr
      ensures Valid() && fresh(Repr - old(Repr))
      ensures kernel.seen == ServeJob(b, lib, old(kernel.seen), job) && reply == Answer(b, lib, old(kernel.seen), job)
      ensures forall c :: c in caches && c != kernel ==> c.seen == old(c.seen)
    {
      reply := kernel.RunKernel(b, lib, job);
      Repr := Repr + kernel.Repr;
      OthersUntouched(kernel);
      StillValid(kernel);
    }

    /** What one cache does to its own memory the others do not notice. */
    twostate lemma OthersUntouched(kernel: CpuKernelCache)
      requires old(Valid()) && kernel in old(caches)
      requires forall o: object :: o in old(Repr) && o !in old(kernel.Repr) && o != this ==> unchanged(o)
      ensures forall c :: c in old(caches) && c != kernel ==>
        c.Valid() && c.Repr == old(c.Repr) && c.seen == old(c.seen)
    {
    }

    twostate lemma StillValid(kernel: CpuKernelCache)
      requires old(Valid()) && kernel in old(caches) && caches == old(caches) && Repr == old(Repr) + kernel.Repr
      requires streamKernelCache == old(streamKernelCache) && sessionKernelCache == old(sessionKernelCache)
      requires kernel.Valid() && fresh(kernel.Repr - old(kernel.Repr))
      requires kernel.seen.session == old(kernel.seen.session) && kernel.seen.capacity == old(kernel.seen.capacity)
      requires forall c :: c in caches && c != kernel ==> c.Valid() && c.Repr == old(c.Repr) && c.seen == old(c.seen)
      ensures Valid()
    {
      forall c, d | c in caches && d in caches && c != d ensures c.Repr !! d.Repr {
        assert old(c.Repr) !! old(d.Repr) && old(c.Repr) <= old(Repr) && old(d.Repr) <= old(Repr);
      }
    }

    /** The cache of a slot is known and is that of no other slot. */
    lemma OwnCache(flag: bool, id: Key, flag': bool, id': Key)
      requires Valid() && id in Kernels(flag) && id' in Kernels(flag')
      ensures Kernels(flag)[id] in caches && Kernels(flag')[id'] in caches
      ensures Kernels(flag)[id] == Kernels(flag')[id'] <==> flag == flag' && id == id'
    {
      assert Kernels(flag)[id].seen.session == flag && Kernels(flag')[id'].seen.session == flag';
    }
  }
}
