/** `RunCpuKernel` (ops/built-in/device_cpu_kernel.cc) over whole runs of the device: its dispatch to a cache of
    its own or to the session and stream registries. */
module DeviceKernel {
  import opened Wrappers
  import opened CacheModel
  import opened TensorUpdate
  import opened ContextModel
  import opened Transparency
  import opened SharedContext
  import opened ContextCache
  import opened SessionCache

  datatype SessionInfo = SessionInfo(sessionId: Key, sessFlag: bool)

  /** A call: whether its lengths are within their limits; what the first pass over its message finds, None if
      that fails; the stream of its thread, None if that cannot be read; its job; whether a new cache can be
      allocated. */
  datatype Call = Call(lengthsFit: bool, session: Option<Option<SessionInfo>>, streamId: Option<Key>, job: Job,
                       canAllocate: bool)

  /** The slot of a registry that a call goes to: its mode, and its session or stream. */
  function SlotOf(call: Call): Option<(bool, Key)> {
    if call.lengthsFit && call.session.Some? && call.session.value.Some? && call.streamId.Some? then
      var info := call.session.value.value;
      Some((info.sessFlag, if info.sessFlag then info.sessionId else call.streamId.value))
    else None
  }

  /** A slot as a run leaves it: whether it has a cache, and the runs that have reached it. */
  datatype Slot = Slot(known: bool, runs: seq<Run>)

  predicate Reaches(call: Call, slot: Slot, flag: bool, id: Key) {
    SlotOf(call) == Some((flag, id)) && (slot.known || call.canAllocate)
  }

  function NextSlot(slot: Slot, call: Call, flag: bool, id: Key): Slot {
    if !Reaches(call, slot, flag, id) then slot
    else Slot(true, match call.job case None => slot.runs case Some(x) => slot.runs + [x])
  }

  /** The slot after the first `n` calls from the start of the device. */
  function SlotAfter(calls: seq<Call>, flag: bool, id: Key, n: nat): Slot
    requires n <= |calls|
  {
    if n == 0 then Slot(false, []) else NextSlot(SlotAfter(calls, flag, id, n - 1), calls[n - 1], flag, id)
  }

  function CacheOf<NodeDef>(b: Builder<NodeDef>, lib: Library, flag: bool, slot: Slot): Cache<Shared> {
    ServedRuns(b, lib, CapacityOf(flag), flag, slot.runs)
  }

  /** The registry's cache in a slot, if it has one, holds what serving the slot's runs from empty leaves. */
  ghost predicate Explains<NodeDef>(registry: SessionCache, b: Builder<NodeDef>, lib: Library, flag: bool, id: Key,
                                    slot: Slot)
    requires registry.Valid()
    reads registry, registry.Repr
  {
    && (slot.known <==> id in registry.Kernels(flag)) && (!slot.known ==> slot.runs == [])
    && (slot.known ==> registry.Kernels(flag)[id].seen == CacheOf(b, lib, flag, slot))
  }

  lemma ServedNext<NodeDef>(b: Builder<NodeDef>, lib: Library, call: Call, flag: bool, id: Key, slot: Slot)
    ensures Reaches(call, slot, flag, id) ==>
      CacheOf(b, lib, flag, NextSlot(slot, call, flag, id)) == ServeJob(b, lib, CacheOf(b, lib, flag, slot), call.job)
    ensures slot.runs == [] ==> CacheOf(b, lib, flag, slot) == Empty(flag)
  {
    if call.job.Some? { assert (slot.runs + [call.job.value])[..|slot.runs|] == slot.runs; }
  }

  /** What the caller gets: the status as an unsigned number. */
  function Returned(reply: Reply): Reply { reply.(ret := reply.ret % 0x1_0000_0000) }

  /** What a call gets without a cache that lasts: an error before anything happens, or a cache of its own. */
  function Direct<NodeDef>(b: Builder<NodeDef>, lib: Library, call: Call): Reply {
    if !call.lengthsFit || call.session.None? then Reply(PARAM_INVALID, None, None)
    else if call.session.value.None? then Answer(b, lib, Empty(false), call.job)
    else if call.streamId.None? then Reply(INNER_ERROR, None, None)
    else Reply(-1, None, None)
  }

  /** What a call gets, `slot` being its slot before. */
  function Outcome<NodeDef>(b: Builder<NodeDef>, lib: Library, call: Call, flag: bool, slot: Slot): Reply {
    if SlotOf(call).Some? && (slot.known || call.canAllocate) then Answer(b, lib, CacheOf(b, lib, flag, slot), call.job)
    else Direct(b, lib, call)
  }

  predicate Returns<NodeDef>(b: Builder<NodeDef>, lib: Library, call: Call, flag: bool, id: Key, slot: Slot,
                             reply: Reply)
  {
    SlotOf(call).None? || SlotOf(call) == Some((flag, id)) ==> reply == Returned(Outcome(b, lib, call, flag, slot))
  }

  /** The status as an unsigned number of 32 bits. */
  ghost predicate Unsigned(signed: Reply, reply: Reply) {
    && 0 <= reply.ret < 0x1_0000_0000 && (reply.ret - signed.ret) % 0x1_0000_0000 == 0
    && reply.made == signed.made && reply.bound == signed.bound
  }

  ghost predicate AnsweredUnsigned<NodeDef>(b: Builder<NodeDef>, lib: Library, c: Cache<Shared>, job: Job,
                                            reply: Reply)
  {
    exists signed :: Answered(b, lib, c, job, signed) && Unsigned(signed, reply)
  }

  /** What a call returns: 1 if a length or its first pass fails; without a session, the answer of an empty cache of 256
      entries; 2 without a stream; and if it goes to the watched slot, the answer of the slot's cache, or -1 as an
      unsigned number if none can be allocated. */
  ghost predicate Result<NodeDef>(b: Builder<NodeDef>, lib: Library, call: Call, flag: bool, id: Key, slot: Slot,
                                  reply: Reply)
  {
    if !call.lengthsFit || call.session.None? then reply == Reply(1, None, None)
    else if call.session.value.None? then AnsweredUnsigned(b, lib, Cache(256, false, []), call.job, reply)
    else if call.streamId.None? then reply == Reply(2, None, None)
    else if call.session.value.value.sessFlag != flag then true
    else if (if flag then call.session.value.value.sessionId else call.streamId.value) != id then true
    else if !slot.known && !call.canAllocate then reply == Reply(0xFFFF_FFFF, None, None)
    else AnsweredUnsigned(b, lib, CacheOf(b, lib, flag, slot), call.job, reply)
  }

  lemma ReturnedIsUnsigned(signed: Reply)
    ensures Unsigned(signed, Returned(signed))
  {
    var r := signed.ret % 0x1_0000_0000;
    assert r - signed.ret == -(signed.ret / 0x1_0000_0000) * 0x1_0000_0000;
  }

  lemma ReturnedAnswer<NodeDef>(b: Builder<NodeDef>, lib: Library, c: Cache<Shared>, job: Job)
    ensures AnsweredUnsigned(b, lib, c, job, Returned(Answer(b, lib, c, job)))
  {
    AnswerIsAnswered(b, lib, c, job);
    ReturnedIsUnsigned(Answer(b, lib, c, job));
  }

  lemma ResultWithoutSlot<NodeDef>(b: Builder<NodeDef>, lib: Library, call: Call, flag: bool, id: Key, slot: Slot)
    requires SlotOf(call).None?
    ensures Result(b, lib, call, flag, id, slot, Returned(Direct(b, lib, call)))
  {
    if call.lengthsFit && call.session.Some? && call.session.value.None? {
      ReturnedAnswer(b, lib, Empty(false), call.job);
    }
  }

  lemma ResultOfSlot<NodeDef>(b: Builder<NodeDef>, lib: Library, call: Call, flag: bool, id: Key, slot: Slot)
    requires SlotOf(call) == Some((flag, id))
    ensures Result(b, lib, call, flag, id, slot, Returned(Outcome(b, lib, call, flag, slot)))
  {
    if slot.known || call.canAllocate {
      ReturnedAnswer(b, lib, CacheOf(b, lib, flag, slot), call.job);
    }
  }

  lemma ReturnsResult<NodeDef>(b: Builder<NodeDef>, lib: Library, call: Call, flag: bool, id: Key, slot: Slot,
                               reply: Reply)
    requires Returns(b, lib, call, flag, id, slot, reply)
    ensures Result(b, lib, call, flag, id, slot, reply)
  {
    if SlotOf(call).None? {
      ResultWithoutSlot(b, lib, call, flag, id, slot);
    } else if SlotOf(call) == Some((flag, id)) {
      ResultOfSlot(b, lib, call, flag, id, slot);
    }
  }

  /** One call, watched from any slot: whether it goes there or not, the slot's cache is still explained by
      its own runs, and if it does, or goes to no slot, so is what it returns. */
  method RunCpuKernel<NodeDef>(registry: SessionCache, b: Builder<NodeDef>, lib: Library, call: Call, ghost flag: bool,
                               ghost watched: Key, ghost slot: Slot)
    returns (reply: Reply)
    requires registry.Valid() && Explains(registry, b, lib, flag, watched, slot)
    modifies registry.Repr
    ensures registry.Valid() && fresh(registry.Repr - old(registry.Repr))
    ensures Explains(registry, b, lib, flag, watched, NextSlot(slot, call, flag, watched))
    ensures Returns(b, lib, call, flag, watched, slot, reply) && Result(b, lib, call, flag, watched, slot, reply)
  {
    reply := Dispatch(registry, b, lib, call, flag, watched, slot);
    ReturnsResult(b, lib, call, flag, watched, slot, reply);
  }

  method Dispatch<NodeDef>(registry: SessionCache, b: Builder<NodeDef>, lib: Library, call: Call, ghost flag: bool,
                           ghost watched: Key, ghost slot: Slot)
    returns (reply: Reply)
    requires registry.Valid() && Explains(registry, b, lib, flag, watched, slot)
    modifies registry.Repr
    ensures registry.Valid() && fresh(registry.Repr - old(registry.Repr))
    ensures Explains(registry, b, lib, flag, watched, NextSlot(slot, call, flag, watched))
    ensures Returns(b, lib, call, flag, watched, slot, reply)
  {
    if !call.lengthsFit || call.session.None? {
      return Reply(PARAM_INVALID, None, None);
    }
    if call.session.value.None? {
      reply := RunDirectly(b, lib, call.job);
      return Returned(reply);
    }
    if call.streamId.None? {
      return Reply(INNER_ERROR, None, None);
    }
    reply := RunRegistered(registry, b, lib, call, call.session.value.value, call.streamId.value, flag, watched, slot);
    reply := Returned(reply);
  }

  /** Without a session: on a cache of its own. */
  method RunDirectly<NodeDef>(b: Builder<NodeDef>, lib: Library, job: Job) returns (reply: Reply)
    ensures reply == Answer(b, lib, Empty(false), job)
  {
    var cache := new CpuKernelCache();
    var _ := cache.Init(false);
    reply := cache.RunKernel(b, lib, job);
  }

  /** With one: on the cache of its slot. */
  method RunRegistered<NodeDef>(registry: SessionCache, b: Builder<NodeDef>, lib: Library, call: Call,
                                session: SessionInfo, streamId: Key,
                                ghost flag: bool, ghost watched: Key, ghost slot: Slot)
    returns (reply: Reply)
    requires registry.Valid() && Explains(registry, b, lib, flag, watched, slot)
    requires call.lengthsFit && call.session == Some(Some(session)) && call.streamId == Some(streamId)
    modifies registry.Repr
    ensures registry.Valid() && fresh(registry.Repr - old(registry.Repr))
    ensures Explains(registry, b, lib, flag, watched, NextSlot(slot, call, flag, watched))
    ensures SlotOf(call) == Some((flag, watched)) ==> reply == Outcome(b, lib, call, flag, slot)
  {
    ghost var id := if session.sessFlag then session.sessionId else streamId;
    if slot.known { registry.OwnCache(flag, watched, flag, watched); }
    ServedNext(b, lib, call, flag, watched, slot);
    reply := registry.RunKernel(b, lib, call.job, session.sessionId, streamId, session.sessFlag, call.canAllocate);
    if slot.known && id in registry.Kernels(session.sessFlag) {
      registry.OwnCache(flag, watched, session.sessFlag, id);
    }
  }

  /** A call that goes to the watched slot, or to none, returns its outcome. */
  predicate Explained<NodeDef>(b: Builder<NodeDef>, lib: Library, calls: seq<Call>, flag: bool, id: Key, i: nat,
                               reply: Reply)
    requires i < |calls|
  {
    Returns(b, lib, calls[i], flag, id, SlotAfter(calls, flag, id, i), reply)
  }

  /** If call `i` has been replied to, it got its outcome. */
  predicate Replied<NodeDef>(b: Builder<NodeDef>, lib: Library, calls: seq<Call>, flag: bool, id: Key, i: nat,
                             replies: seq<Reply>)
    requires |replies| <= |calls|
  {
    i < |replies| ==> Explained(b, lib, calls, flag, id, i, replies[i])
  }

  lemma RepliedMore<NodeDef>(b: Builder<NodeDef>, lib: Library, calls: seq<Call>, flag: bool, id: Key, i: nat,
                             replies: seq<Reply>, reply: Reply)
    requires |replies| < |calls| && Replied(b, lib, calls, flag, id, i, replies)
    requires i == |replies| ==> Explained(b, lib, calls, flag, id, i, reply)
    ensures Replied(b, lib, calls, flag, id, i, replies + [reply])
  {
  }

  /** Call `k` of them. */
  method RunCall<NodeDef>(registry: SessionCache, b: Builder<NodeDef>, lib: Library, calls: seq<Call>, k: nat,
                          ghost flag: bool, ghost watched: Key, ghost i: nat) returns (reply: Reply)
    requires k < |calls| && registry.Valid() &&
      Explains(registry, b, lib, flag, watched, SlotAfter(calls, flag, watched, k))
    modifies registry.Repr
    ensures registry.Valid() && fresh(registry.Repr - old(registry.Repr))
    ensures Explains(registry, b, lib, flag, watched, SlotAfter(calls, flag, watched, k + 1))
    ensures i == k ==> Explained(b, lib, calls, flag, watched, i, reply)
  {
    reply := RunCpuKernel(registry, b, lib, calls[k], flag, watched, SlotAfter(calls, flag, watched, k));
  }

  /** The loop of `RunCalls`. */
  method RunAll<NodeDef>(b: Builder<NodeDef>, lib: Library, calls: seq<Call>, n: nat, ghost flag: bool,
                         ghost watched: Key, ghost i: nat)
    returns (registry: SessionCache, replies: seq<Reply>)
    requires n <= |calls|
    ensures registry.Valid() && fresh(registry.Repr) &&
      Explains(registry, b, lib, flag, watched, SlotAfter(calls, flag, watched, n))
    ensures |replies| == n && Replied(b, lib, calls, flag, watched, i, replies)
  {
    registry := new SessionCache();
    replies := [];
    for k := 0 to n
      invariant registry.Valid() && fresh(registry) && fresh(registry.Repr)
      invariant Explains(registry, b, lib, flag, watched, SlotAfter(calls, flag, watched, k))
      invariant |replies| == k && Replied(b, lib, calls, flag, watched, i, replies)
    {
      var reply := RunCall(registry, b, lib, calls, k, flag, watched, i);
      RepliedMore(b, lib, calls, flag, watched, i, replies, reply);
      replies := replies + [reply];
    }
  }

  /** Main result: run any calls, the first `n` of a list, from the start of the device and watch any slot and any
      call `i`.  If the call goes there it returns what serving the slot's own earlier runs from empty makes of it,
      whatever others have run in between. */
  method RunCalls<NodeDef>(b: Builder<NodeDef>, lib: Library, calls: seq<Call>, n: nat, ghost flag: bool,
                           ghost watched: Key, ghost i: nat)
    returns (registry: SessionCache, replies: seq<Reply>)
    requires n <= |calls|
    ensures registry.Valid() && fresh(registry.Repr) &&
      Explains(registry, b, lib, flag, watched, SlotAfter(calls, flag, watched, n))
    ensures |replies| == n && Replied(b, lib, calls, flag, watched, i, replies)
    ensures i < n ==> Result(b, lib, calls[i], flag, watched, SlotAfter(calls, flag, watched, i), replies[i])
  {
    registry, replies := RunAll(b, lib, calls, n, flag, watched, i);
    if i < n {
      ReturnsResult(b, lib, calls[i], flag, watched, SlotAfter(calls, flag, watched, i), replies[i]);
    }
  }

  /** Main result: a call that reaches its slot gets what it would get without any cache, whatever has run before and
      in between, if the earlier runs of its kernel that reached the slot carry the same content and leave no
      dimensions that matter to it; `SharedContext` has the converse. */
  lemma ClearCallIsFresh<NodeDef>(b: Builder<NodeDef>, lib: Library, calls: seq<Call>, flag: bool, id: Key, i: nat,
                                  reply: Reply,
                                  x: Run, n: nat, m: nat)
    requires i < |calls| && Explained(b, lib, calls, flag, id, i, reply)
    requires Reaches(calls[i], SlotAfter(calls, flag, id, i), flag, id) && calls[i].job == Some(x) &&
      Builds(b, x.request, n, m)
    requires SameContent(Requests(SlotAfter(calls, flag, id, i).runs), x.request)
    requires Clear(SlotAfter(calls, flag, id, i).runs, x, n, m)
    ensures reply == Returned(FreshReply(b, lib, x))
  {
    ClearSuffices(b, lib, CapacityOf(flag), flag, SlotAfter(calls, flag, id, i).runs, x, n, m);
  }
}
