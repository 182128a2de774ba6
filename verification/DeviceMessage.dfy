/** Calls of `RunCpuKernel` as their messages make them (ops/built-in/device_cpu_kernel.cc and
    ops/built-in/cpu_kernel_cache.cc): the dispatch follows the first pass over the message, the run the second. */
module DeviceMessage {
  import opened Wrappers
  import opened CacheModel
  import opened TensorUpdate
  import opened ContextModel
  import opened Transparency
  import opened SharedContext
  import opened SessionCache
  import opened DeviceKernel
  import ExtMsg

  /** A parameter block without its extension message, and what the run will meet: whether the lengths are within
      their limits, the addresses (None if they cannot be parsed), the node definition, memory, the stream, the
      kernel, and whether a new cache can be allocated. */
  datatype Block = Block(lengthsFit: bool, addrs: Option<seq<int>>, nodeDef: Bytes, memory: int -> Reading,
                         streamId: Option<Key>, ret: int, sets: map<nat, seq<int>>, canAllocate: bool)

  /** How a session record and a shape record are read. */
  datatype Decoder = Decoder(session: Bytes -> SessionInfo, dims: nat -> seq<int>)

  function DimsAt(d: Decoder, shapes: seq<nat>): seq<seq<int>> {
    seq(|shapes|, i requires 0 <= i < |shapes| => d.dims(shapes[i]))
  }

  /** The run that a parsed message asks for. */
  function RunOf(d: Decoder, block: Block, addrs: seq<int>, msg: ExtMsg.Msg): Run {
    Run(Request(msg.hasSessInfo, msg.kernelId, msg.waitType, msg.waitId, msg.hostFlag, block.nodeDef),
        Arguments(addrs, Message(msg.unknownShape, DimsAt(d, msg.inputShapes), DimsAt(d, msg.outputShapes),
                                 msg.inputIndex, msg.outputIndex), block.memory),
        Kernel(msg.asyncFlag, block.ret, block.sets))
  }

  /** The two passes agree on whether there is a session. */
  predicate Matched(call: DeviceKernel.Call) {
    call.job.Some? ==> call.session.Some? && call.job.value.request.hasSessInfo == call.session.value.Some?
  }

  /** The run has what the message collected, the shapes decoded, and what comes with the block. */
  ghost predicate RunFrom(d: Decoder, block: Block, m: ExtMsg.Msg, x: Run) {
    && x.request.hasSessInfo == m.hasSessInfo && x.request.kernelId == m.kernelId
    && x.request.waitType == m.waitType && x.request.waitId == m.waitId && x.request.host == m.hostFlag
    && x.request.nodeDef == block.nodeDef
    && block.addrs == Some(x.args.addrs) && x.args.memory == block.memory
    && x.args.msg.unknownShape == m.unknownShape
    && |x.args.msg.inputRecords| == |m.inputShapes| && |x.args.msg.outputRecords| == |m.outputShapes|
    && (forall i :: 0 <= i < |m.inputShapes| ==> x.args.msg.inputRecords[i] == d.dims(m.inputShapes[i]))
    && (forall i :: 0 <= i < |m.outputShapes| ==> x.args.msg.outputRecords[i] == d.dims(m.outputShapes[i]))
    && x.args.msg.inputIndex == m.inputIndex && x.args.msg.outputIndex == m.outputIndex
    && x.kernel.async == m.asyncFlag && x.kernel.ret == block.ret && x.kernel.sets == block.sets
  }

  /** The call that a message of well-formed records makes.  Its session is that of the first session record.  It has
      a job exactly if the addresses can be parsed and all record lengths are accepted; the job is made from what the
      message collects (`ExtMsg.Collected`), and it is cached exactly if it goes to a registry. */
  method CallOf(l: ExtMsg.Layout, d: Decoder, block: Block, buf: Bytes, ghost rs: seq<ExtMsg.Record>, ghost tail: Bytes)
    returns (call: DeviceKernel.Call)
    requires l.Valid() && buf == ExtMsg.Flat(rs) + tail && |tail| < l.head
    requires forall i :: 0 <= i < |rs| ==> ExtMsg.Good(l, rs[i])
    ensures call.lengthsFit == block.lengthsFit && call.streamId == block.streamId &&
      call.canAllocate == block.canAllocate
    ensures call.session == Some(None) <==> ExtMsg.NoneOf(l, rs, ExtMsg.Session)
    ensures forall i :: 0 <= i < |rs| && ExtMsg.FirstAt(l, rs, ExtMsg.Session, i) ==>
      call.session == if |rs[i].info| == l.sessionSize then Some(Some(d.session(rs[i].info))) else None
    ensures Matched(call) && (call.job.Some? <==> block.addrs.Some? && ExtMsg.LengthsOk(l, rs))
    ensures call.job.Some? ==>
      ExtMsg.Fold(l, rs).Some? && RunFrom(d, block, ExtMsg.Fold(l, rs).value, call.job.value)
    ensures call.job.Some? ==> call.job.value.request.hasSessInfo == !ExtMsg.NoneOf(l, rs, ExtMsg.Session)
    ensures SlotOf(call).Some? ==> call.job.Some? ==> call.job.value.request.hasSessInfo
  {
    var session, msg := ExtMsg.BothPasses(l, buf, rs, tail);
    ExtMsg.SucceedsExactly(l, rs);
    var info := match session
      case None => None
      case Some(None) => Some(None)
      case Some(Some(bytes)) => Some(Some(d.session(bytes)));
    var job := if block.addrs.None? || msg.None? then None else Some(RunOf(d, block, block.addrs.value, msg.value));
    call := DeviceKernel.Call(block.lengthsFit, info, block.streamId, job, block.canAllocate);
  }

  /** Every run that has reached a slot looks its context up there. */
  lemma {:induction false} SlotRunsCached(calls: seq<DeviceKernel.Call>, flag: bool, id: Key, n: nat)
    requires n <= |calls| && forall i :: 0 <= i < |calls| ==> Matched(calls[i])
    ensures forall x :: x in SlotAfter(calls, flag, id, n).runs ==> x.request.hasSessInfo
  {
    if n > 0 { SlotRunsCached(calls, flag, id, n - 1); }
  }

  /** Main result: take any calls made from messages.  One that goes to the cache of a session gets, whatever
      builder and tensor library there are, what it would get without any cache exactly if the runs of its kernel
      that have reached this cache carry its content and leave no dimensions that matter to it. */
  lemma SessionCallExactly(calls: seq<DeviceKernel.Call>, id: Key, i: nat, x: Run, n: nat, m: nat)
    requires i < |calls| && forall k :: 0 <= k < |calls| ==> Matched(calls[k])
    requires SlotOf(calls[i]) == Some((true, id)) && calls[i].job == Some(x)
    ensures var runs := SlotAfter(calls, true, id, i).runs;
      RunUnnoticed(CapacityOf(true), true, runs, x, n, m) <==>
        (forall k :: 0 <= k < |runs| && runs[k].request.kernelId == x.request.kernelId ==>
           ContentOf(runs[k].request) == ContentOf(x.request)) && Clear(runs, x, n, m)
  {
    var runs := SlotAfter(calls, true, id, i).runs;
    SlotRunsCached(calls, true, id, i);
    RunTransparentExactly(CapacityOf(true), runs, x, n, m);
    assert forall k :: 0 <= k < |runs| ==> Requests(runs)[k] == runs[k].request && runs[k] in runs;
  }
}
