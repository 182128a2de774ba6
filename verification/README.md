# Verified models of the operator schedules and the AICPU kernel runtime

Dafny models of the parts of this repository whose correctness is hardest to see from the code, with proofs
of what they promise. `dafny verify dfyconfig.toml` checks all of it. Where the code does not keep a promise on
all inputs, the code is modelled as it is and the exact condition under which it does is proved, as an
if-and-only-if over something a caller can check beforehand.

## What is modelled

**Layout conversions** (`Arith`, `Tiling`, `VectorUnit`, `Layout`, `Five2Four*`, `Four2Five*`, `LayoutRoundTrip`).
`dim_conv.py` defines the conversions between NCHW and NC1HWC0 twice: by a one-line formula, and as a tiled loop nest
of block copies and 16x16 transposes. The loop nests are run as methods over arrays for global memory and the unified
buffer (UB); every cell of the result is accounted for, rounded-up spills and stale padding included, and compared
with the formula:

- five2four is the formula exactly if its last chunk is not empty and, where H*W is not a multiple of 16 and N > 1, no
  partial channel group follows a full one. One partial channel whose spill stays within a row is an exception: it
  spills the very values that are there already.
- four2five is the formula on real channels exactly if the plane fits one chunk, or its last chunk is not empty and the
  batch stride of line 424, the cube of the batch size, does no harm (N = 1 or N^3 = C*H*W). Padding channels hold
  stale data where the formula has zeros, so with them counted it is right only if there is no padding.
- The last chunk is empty exactly if the plane takes several chunks and, rounded up to blocks, whole ones.

Assumptions, made once: a copy moves `len_burst` blocks of 16 fp16 elements; repeat `r` of `scatter_vnchwconv_b16`
transposes one 16x16 block whose row addresses come from the address registers, strides counting blocks of 16 elements;
in the UB the input half starts at 0, the output half at the half's size and the head buffer behind both; `UB_SIZE` is a
multiple of 1024, larger than 1024 and below 8 MiB; memory past the ends of the tensors is readable and writable as far
as the last rounded block; and one `scatter_vnchwconv_b16` takes as many repeats as a chunk has blocks of 16 positions,
whatever the width of its repeat field.

**Kernel cache runtime** (`CacheModel`, `CacheTheorems`, `KernelCache`, `ContextModel`, `Transparency`,
`SharedContext`, `ContextCache`, `SessionCache`, `DeviceKernel`, `DeviceMessage`). The list plus iterator map is a
class over node objects that refines an abstract cache; about runs of the abstract cache the LRU, inclusion and
session properties are proved. On top of it stand the cache of contexts, which every run changes in place, and the
session and stream registries, down to runs of any calls of `RunCpuKernel` from the start of the device, each made
from its message. Outside sessions a cache holds up to capacity + 1 entries, since the test before an eviction is
strict.

A call may get a context from the cache that another request built and other runs have used. It has the wait
information of the request that built it, and the dimensions that the last runs left on its tensors, refused ones
included. So a session cache goes unnoticed, whatever parsing, construction and the tensor library do, exactly if

- all earlier requests with the id carried the same definition, wait information and device flag (this alone decides
  which context is found, as it was built); and
- the call brings dimensions for every tensor that an earlier run of the kernel has left dimensions on, or it cannot be
  bound anyway: its numbers of addresses or records are wrong, or the rank at some input's descriptor is none.

A call brings dimensions for an input if it has unknown shapes or an unknown-shape index for it, and for an output if it
has unknown shapes. A run leaves those it brings, on the inputs as far as it can get and on the outputs if it can be
bound, together with the shapes that its kernel gives to outputs.

Outside sessions both together suffice, and eviction can make up for a difference. Requests are taken one at a time, as
the mutexes order them. What a kernel does is a parameter: the status it returns and the shapes it gives to outputs; it
is taken to leave those of its inputs alone.

**Extension messages and tensors** (`ExtMsg`, `TensorUpdate`). The record parser equals a left fold and is then
described without it; the binding of tensors and the writing back of shapes follow, with the state they leave when
they stop half-way. A negative rank at an input's descriptor passes the check and is taken for a huge one: where that
is met is told apart from a refusal. A shape record written back has no end flag added, so it reads back only where
one already stands behind it or the record is full. Record layouts come from headers that are not part of this
repository: sizes and field decoders are parameters, the size of `ExtInfo` is taken to be `kExtInfoHeadSize`, and
element counts and byte sizes of shapes are functions of a tensor library.

**Notification** (`Notification`). A step model of one owner and any number of notifiers over mutex, condition
variable (spurious wakeups included) and flag, atomics sequentially consistent. Under the mutex, testing the flag and
acting on it is one step, since nobody else can write it then. The object is safe to destroy after the wait exactly if
`Notify` is called at most once, and nobody gets stuck exactly if it is called at all; its client makes one call, and
then every run that is over has ended with the object destroyed and the caller gone.

**Vector kernels** (`VectorMask`, `VectorKernels`, `CastRounds`). Masked tails are exact up to 128 lanes. One repeat
is taken to run the lanes its strides advance by, all reading before any writes. With the vector length as `alignLen`,
as its documentation has it, the two-operand kernel is right in place and on separate operands, and with partial
overlap exactly if no later repeat reads a result; with any other `alignLen` it is right exactly if there is no full
repeat and the tail fits one, or `alignLen` is shorter, the full repeats still end within the data, and the tail,
which computes their last elements once more, reads no result (given room for all lanes that are issued). The
conversion kernel advances 64 elements a repeat whatever `alignLen` it is given, and gives its last round a repeat
count of 0 when the number of full repeats is a positive multiple of 255. With the length of one block, which its
documentation names, it is right only for data shorter than that; in general exactly if

- there is no full repeat and the tail has at most 64 elements; or
- the number of full repeats is not a multiple of 255, `alignLen` is at most 64, and neither the last round nor, where
  there is one, the round before it reaches past the data (for 64, always); or
- it is a multiple of 255 greater than 255 and `alignLen` is 32, where each repeat also covers the next one's elements.

**Reductions and combinatorics** (`Segment`, `Sums`, `TupleReduce`, `TupleReduceTheorem`, `NameOrder`,
`InterfaceDiff`, `Cartesian`, `CaseFields`, `CaseCross`, `Windows`). Values are reals, rounding is not modelled.
Segments are modelled a column at a time; the reducers' identities are neutral. For the minimum and the maximum, list
form and tensor form differ: the tensor form lets the initial value take part for every row outside the segment. For
the product it takes 1 there whatever it is given, so the forms differ only on empty segments, and not if the list
form is given 1. A repeated reduce axis adds a reduce dimension that multiplies the result or misplaces ranges; the
exact condition is proved. The strings compared by the interface checker are ordered by code point, and a function's
name is not empty. In a padded list a name of underscores alone cannot be told from padding. A test case whose format
is optional or whose type is undefined loses both, one with a dynamic shape gets the typical one and may lose its
range; when two crossed rows come out as the same case is proved exactly.

## Model

| member | source | states |
|---|---|---|
| Tiling.PlanWellTiled | auto_schedule/python/dim_conv.py:313-339 | for every plane size and UB size: a chunk is the rounded plane if half the UB can hold its 16 channels, and otherwise the widest whole number of blocks that fits two halves and, where rows need one, the head buffer; input, output and head buffers fit the UB, the chunks partition the plane, the head buffer is allocated exactly when several chunks and a ragged tail need it, and the last chunk is empty exactly when the plane does not fit one chunk and rounds up to a whole number of the widest ones |
| VectorUnit.EmitCopy | auto_schedule/python/dim_conv.py:196-239 | a copy moves whole blocks of 16 elements, so up to 15 past the asked size, and nothing of whole 2^21-element bursts; everything else is untouched |
| VectorUnit.CopyRows | auto_schedule/python/dim_conv.py:419-432 | the row loops: where rounded rows overlap the later row wins, element by element |
| VectorUnit.RowCell | auto_schedule/python/dim_conv.py:419-432 | element t of row r stands r strides and t elements behind the destination and comes from r strides and t elements behind the source, unless the next row has been written over it |
| VectorUnit.RowReaches | auto_schedule/python/dim_conv.py:419-432 | and only what no row gets to keeps its value |
| VectorUnit.SetArrayConfig | auto_schedule/python/dim_conv.py:271-295 | byte addresses of the 16 source and 16 destination rows of the transpose |
| VectorUnit.Scatter | auto_schedule/python/dim_conv.py:429-436 | repeat r moves one 16x16 block transposed between the addressed rows, and touches nothing else |
| Five2Four.RunGroup | auto_schedule/python/dim_conv.py:592-760 | the chunk loop of one 16-channel group, with saving and restoring of row heads: every element of the tensor holds the value of the last row reaching it, spills past the group included |
| Five2FourProgram.Intrin | auto_schedule/python/dim_conv.py:575-763 | the loops over images and groups keep, for every cell, an exact account of own values and of spills that were or were not overwritten again |
| Five2FourTheorem.Run | auto_schedule/python/dim_conv.py:522-763 | the whole emitted program leaves in every cell the element named by `Source54`, for every shape, and changes nothing behind the tensor but the last spill |
| Five2FourTheorem.Five2FourExact | auto_schedule/python/dim_conv.py:132-141 | the emitted program equals the defining formula on every input exactly on the shapes `Safe54`: no empty last chunk and, where rows are rounded and there is more than one image, no partial group after a full one (one channel that spills within its row excepted) |
| Five2FourTheorem.Five2FourOnShapes | auto_schedule/python/dim_conv.py:132-141 | the same condition in H, W, N, C and the UB size alone |
| Five2FourTheorem.SafeIsRight | auto_schedule/python/dim_conv.py:132-141 | on those shapes every cell has the element [n, c / 16, h, w, c % 16] |
| Four2Five.RunGroup | auto_schedule/python/dim_conv.py:408-513 | the chunk loop of one group: what each seat and each UB row holds afterwards, the row of the last chunk included |
| Four2FiveProgram.Intrin | auto_schedule/python/dim_conv.py:390-513 | the loops over images and groups keep the values of finished groups and the UB rows past the pass's channels |
| Four2FiveTheorem.Run | auto_schedule/python/dim_conv.py:342-519 | the whole emitted program leaves in every seat the value `Value45`, stale padding included, for every shape |
| Four2FiveTheorem.Four2FiveExact | auto_schedule/python/dim_conv.py:68-80 | on real channels the program equals the formula on every input exactly on the shapes `Safe45`: one chunk, or no empty last chunk and a batch for which the cube of line 424 does no harm |
| Four2FiveTheorem.Four2FiveOnShapes | auto_schedule/python/dim_conv.py:68-80 | the same condition in H, W, N, C and the UB size alone |
| Four2FiveTheorem.Four2FivePaddingExact | auto_schedule/python/dim_conv.py:68-80 | with the padding counted it equals the formula exactly if there is, besides, no padding: the program leaves stale rows where the formula has zeros |
| LayoutRoundTrip.FormulasInverse | auto_schedule/python/dim_conv.py:68-141 | the two formulas are inverse on every element of the NCHW tensor |
| LayoutRoundTrip.FormulaIndices | auto_schedule/python/dim_conv.py:68-141 | in the indices of the tensors: element [n, c, h, w] of the one is element [n, c / 16, h, w, c % 16] of the other, both row-major |
| LayoutRoundTrip.RoundTrip | auto_schedule/python/dim_conv.py:342-763 | where both programs are safe, running five2four after four2five restores the tensor |
| CacheModel.RunBounded | ops/built-in/kernel_cache.h:89-121 | in every reachable state the keys are distinct and, outside sessions, at most capacity + 1 |
| CacheTheorems.LruPrefix | ops/built-in/kernel_cache.h:65-121 | outside sessions the list is exactly the capacity + 1 most recently used keys in order, a miss not being a use |
| CacheTheorems.HitExactly | ops/built-in/kernel_cache.h:65-82 | a lookup hits exactly if its key is among those |
| CacheTheorems.HitIsLastSet | ops/built-in/kernel_cache.h:65-121 | a hit returns the last value set; a session cache is an exact map |
| CacheTheorems.Inclusion | ops/built-in/kernel_cache.h:65-121 | on the same calls the smaller cache's list is an order-preserving part of the larger one's |
| CacheTheorems.HitsMonotonic | ops/built-in/kernel_cache.h:65-121 | so raising the capacity never turns a hit into a miss |
| KernelCache.KernelCache.GetCache | ops/built-in/kernel_cache.h:65-82 | over list and iterator map: the result and the whole new state are those of the abstract cache, the map keeps pointing at the nodes, and in a session no node moves |
| KernelCache.KernelCache.SetCache | ops/built-in/kernel_cache.h:89-121 | the same for storing, eviction included |
| ContextCache.CpuKernelCache.GetCpuKernelContext | ops/built-in/cpu_kernel_cache.cc:521-575 | the context kept for the kernel of a request with a session; otherwise, and on a miss, one parsed, given the wait type and the wait id, and constructed for the host or the device; the cache looked up, and the new context stored, through failing builds as well; a cached context can be changed in place, any other is the caller's own |
| ContextModel.CachedIsInstalled | ops/built-in/cpu_kernel_cache.cc:521-575 | after any run, what is cached under an id is, as it was built, what the last request that installed it built |
| Transparency.TransparentExactly | ops/built-in/cpu_kernel_cache.cc:521-575 | which context is found, as it was built (kernel, attributes, dimensions at construction): after any run, in either mode, no builder lets the cache be noticed in it exactly if the request has no session or, whichever contents can be built, the one kept for its id is its own |
| Transparency.SessionTransparentExactly | ops/built-in/cpu_kernel_cache.cc:521-575 | for session caches that is: exactly if every earlier request with the id has the same definition, wait information and device flag; what runs do to the context is `SharedContext` |
| Transparency.EvictionForgets | ops/built-in/cpu_kernel_cache.cc:521-575 | outside sessions that is not necessary: after more than capacity other kernels the context is built afresh |
| ContextModel.StaleWaitInfo | ops/built-in/cpu_kernel_cache.cc:527-550 | when the wait information of a kernel changes, a hit returns the first build's |
| SharedContext.RunTransparentExactly | ops/built-in/cpu_kernel_cache.cc:124-237 | the whole run: through a session cache a call gets the same status, context and bindings as without it, for every builder of contexts with the given numbers of tensors and every tensor library, exactly if it has no session, or all earlier requests of the kernel carry its content and it brings dimensions for every tensor that an earlier run, refused ones included, or its kernel has left dimensions on |
| SharedContext.RunTransparent | ops/built-in/cpu_kernel_cache.cc:124-237 | in either mode those conditions are enough |
| SharedContext.SecondCallNoticed | ops/built-in/cpu_kernel_cache.cc:178-190 | two runs of one request, the first with unknown shapes and the second with known ones: the same context, bound differently |
| SessionCache.SessionCache.RunKernel | ops/built-in/session_cache.h:76-99 | an id keeps its cache for good, the job is run on that cache, the reply is that of the cache (or -1 if none can be made), and no other cache notices |
| SessionCache.SessionCache.GetOrCreateKernelCache | ops/built-in/session_cache.h:108-131 | found, created and initialised for its mode, or an error that changes nothing |
| ContextCache.CpuKernelCache.RunKernel | ops/built-in/cpu_kernel_cache.cc:580-631 | over context objects changed in place: -1 for a job that cannot be parsed, 2 without a context; else 0 exactly if the call is acceptable, the kernel returned 0 and, when synchronous, every output to write back is there with at most 32 dimensions, 201 exactly if the call is acceptable and an asynchronous kernel returned 201, and -1 otherwise; the bindings, every dimension afterwards, and the rest of the cache |
| DeviceKernel.RunCpuKernel | ops/built-in/device_cpu_kernel.cc:77-126 | one call: 1, 2, the answer of an empty cache of 256, that of the slot's cache, or -1, as an unsigned number of 32 bits; and a slot's cache, dimensions included, is still explained by the runs that reached it |
| DeviceKernel.RunCalls | ops/built-in/device_cpu_kernel.cc:77-126 | any calls from the start of the device, any slot, any call that goes there: it gets what serving the slot's own earlier runs from empty makes of it |
| DeviceKernel.ClearCallIsFresh | ops/built-in/device_cpu_kernel.cc:77-126 | and that is what it would get without any cache, if the slot's earlier runs of its kernel carry its content and left no dimensions that matter to it |
| DeviceMessage.CallOf | ops/built-in/device_cpu_kernel.cc:98-126 | the call that one message makes: its session is that of the first session record; it has a job exactly if addresses and record lengths are accepted, it is cached exactly if the dispatch sends it to a registry, and every field of it is what `ExtMsg.Collected` says of the records, or comes with the block |
| DeviceMessage.SessionCallExactly | ops/built-in/device_cpu_kernel.cc:98-126 | for any calls made from messages: one that goes to the cache of a session gets, whatever the builder and the tensor library, what it would get without a cache exactly if the runs of its kernel that reached that cache carry its content and left no dimensions that matter to it |
| Notification.RunInv | ops/built-in/notification.h:28-52 | what every step of every thread keeps, for any number of notifiers |
| Notification.NoLostWakeup | ops/built-in/notification.h:45-52 | the wait returns only after notification, and a waiter asleep after it has a wakeup still to come |
| Notification.NeverDestroyedInside | ops/built-in/notification.h:29-39 | destruction never finishes while a thread is inside `Notify`, fast path included |
| Notification.SafeExactly | ops/built-in/notification.h:28-52 | no interleaving uses the object after its destruction exactly if `Notify` is called at most once |
| Notification.SecondCallUnsafe | ops/built-in/async_cpu_kernel.cc:21-28 | a second call can come too late: a concrete run |
| Notification.NeverStuckExactly | ops/built-in/async_cpu_kernel.cc:21-28 | no reachable state is a deadlock exactly if `Notify` is called at all |
| Notification.RunsEnd | ops/built-in/notification.h:28-52 | every run without spurious wakeups ends: its length is bounded |
| Notification.EndsWell | ops/built-in/async_cpu_kernel.cc:21-28 | with a call, a run in which nothing more can happen has ended with the wait over and the object destroyed, and a single caller has left `Notify` |
| Notification.CanEnd | ops/built-in/async_cpu_kernel.cc:21-28 | and every run can be brought to such an end |
| ExtMsg.ParseExtMsg | ops/built-in/cpu_kernel_cache.cc:388-466 | on well-formed messages the loop visits each record once, in order, and computes the left fold of the handlers, which the next rows describe |
| ExtMsg.SucceedsExactly | ops/built-in/cpu_kernel_cache.cc:242-385 | it succeeds exactly if every record has an accepted length under the unknown-shape flag in force when it is reached |
| ExtMsg.Collected | ops/built-in/cpu_kernel_cache.cc:242-466 | what a successful parse collects, without the fold: shape k of a shape record lies k shapes behind the head of the record, from those that come while shapes are unknown; the last session, wait and topic records, asynchronous exactly if some record asks, and the word at every multiple of 4 of the unknown-shape records as indices, bound to 0 |
| ExtMsg.AddressesAt | ops/built-in/cpu_kernel_cache.cc:260-281 | of the bytes of a shape record there are as many whole shapes as fit, each its own size behind the one before |
| ExtMsg.MultipleExactly | ops/built-in/cpu_kernel_cache.cc:260-281 | and the length is accepted exactly if nothing is left over |
| ExtMsg.FindSession | ops/built-in/device_cpu_kernel.cc:34-73 | the first pass finds the first session record, or reports a wrong length, or that there is none |
| ExtMsg.BothPasses | ops/built-in/device_cpu_kernel.cc:98-126 | when the second pass succeeds so did the first, and they agree on whether there is a session |
| TensorUpdate.UpdateTensor | ops/built-in/cpu_kernel_cache.cc:124-237 | it ends well exactly if the numbers of addresses and records fit, every input is sound and its number of elements not negative, and the outputs' are not, where none can be unknown; every tensor is then bound to its own address of this call or to the data of the descriptor there, with the dimensions of its record, else of its descriptor, else from before, and their size modulo 2^64; every in-range unknown-shape index holds that address. It reads on behind a descriptor only if some rank is negative |
| TensorUpdate.AfterIsLeft | ops/built-in/cpu_kernel_cache.cc:124-237 | the dimensions it leaves, refused or not: an input takes the call's once all inputs before it are fine, an output once all inputs are |
| TensorUpdate.UpdateFWKOutputShape | ops/built-in/cpu_kernel_cache.cc:54-94 | with unknown shapes every record has its output's dimensions at the front and is otherwise as it was; descriptors are written in increasing order up to the first whose output is missing or has more than 32 dimensions: rank and dimensions in both shapes, what is behind them untouched; the others are as they were, and it succeeds exactly if there is none |
| TensorUpdate.RecordReadsBack | ops/built-in/cpu_kernel_cache.cc:65-111 | a shape record reads back exactly if it is full or an end flag happens to stand behind it: none is written |
| TensorUpdate.DimsBeforeFlag | ops/built-in/cpu_kernel_cache.cc:97-111 | what is read from a record is what stands before its first LLONG_MIN |
| VectorMask.GetLoopnumAndMasklist | auto_schedule/python/irbuilder_api.py:47-65 | full repeats and tail split the length; the two mask words have as many low bits set as the tail needs of each, switch on exactly its lanes, and are 64-bit words exactly if it has at most 128 |
| VectorKernels.KernelTwoToOne | auto_schedule/python/irbuilder_api.py:119-141 | the kernel's effect on one buffer for every placement of operands and result and every `alignLen`, the mask register left all ones; where `Fitting`, element k of the result is the operation on elements k of the old operands, and nothing else changes |
| VectorKernels.KernelExact | auto_schedule/python/irbuilder_api.py:119-141 | each index is computed once from the old operands and nothing else is touched, for all data and operations, exactly on the shapes and placements `Fitting`, given above in words |
| VectorKernels.VectorLength | auto_schedule/python/irbuilder_api.py:107-108 | with the documented `alignLen` that is: exactly if the result does not stand less than the data length after an operand, or one repeat does all |
| CastRounds.KernelCast | auto_schedule/python/irbuilder_api.py:315-347 | for every `alignLen`, exactly which elements the rounds of 255 repeats, the last round of as many as are left over, and the tail of at most 64 elements convert |
| CastRounds.CastExact | auto_schedule/python/irbuilder_api.py:315-347 | these are the elements to convert, for all data, exactly on the shapes `Fitting`, given above in words |
| CastRounds.ShortAlignment | auto_schedule/python/irbuilder_api.py:292 | with `alignLen` below 32, one block included, only before the first full repeat |
| CastRounds.OneBlock | auto_schedule/python/irbuilder_api.py:292 | one block of 16 elements converts 64 |
| Segment.ComputeOuterDim | auto_schedule/python/segment_compute.py:219-244 | mark-and-search visits every row of a segment once, in increasing order: the result is the fold of its rows, and what the next row says of that |
| Segment.RowHolds | auto_schedule/python/segment_compute.py:219-256 | a segment with rows holds their sum, their product, the one of them that none is less or greater than, or what times their number is their sum; one without holds the initial value |
| Segment.SegmentOp | auto_schedule/python/segment_compute.py:207-302 | errors exactly on wrong lengths or ids that are too large; otherwise every segment holds that, also when all ids are negative |
| Segment.SumConserved | auto_schedule/python/segment_compute.py:219-256 | summing with 0 for empty segments conserves the total over rows with non-negative ids |
| Segment.ProdAgree | auto_schedule/python/segment_compute.py:98-103 | list-form and tensor-form product, as callers get them, agree on all data exactly if the list form is given 1 or no segment is empty |
| Segment.ExtremeAgree | auto_schedule/python/segment_compute.py:186-196 | for minimum and maximum: exactly if every segment has no row or all rows |
| TupleReduce.RefineAxis | auto_schedule/python/util.py:845-866 | every position as often as it is named, by an axis from the front or by a negative one from the end; in order; an error exactly for an axis out of range |
| TupleReduce.ComputeFunc | auto_schedule/python/reduction_compute.py:153-174 | each reduced position has the reduce index that as many reduced positions come before; each other one the output index at its own place, with keepdims, or as far in front as reduced positions come before it |
| TupleReduce.ResReshape | auto_schedule/python/reduction_compute.py:178-188 | with keepdims 1 at the reduced positions and the lengths of the others; without, those lengths in order; [1] if nothing is left |
| TupleReduce.IndexBijection | auto_schedule/python/reduction_compute.py:159-171 | output index and reduce index together name every input position exactly once |
| TupleReduce.KeepdimsSame | auto_schedule/python/reduction_compute.py:153-192 | with and without keepdims there are the same output cells |
| TupleReduceTheorem.FibreSum | auto_schedule/python/reduction_compute.py:169-176 | the sum over the reduced positions is the sum over the input entries that project to the cell |
| TupleReduceTheorem.ReduceExact | auto_schedule/python/reduction_compute.py:151-198 | for every sorted axis list, repetitions included, every cell is that sum on all data exactly if `Fine`; distinct axes always are |
| TupleReduceTheorem.TotalConserved | auto_schedule/python/reduction_compute.py:151-198 | and then the total of the tensor is conserved |
| TupleReduceTheorem.KeepdimsSameValues | auto_schedule/python/reduction_compute.py:153-193 | each output value without keepdims is the one with keepdims at the index with 0 at the reduced positions |
| InterfaceDiff.BuildDiffListResult | auto_schedule/cann_interface_checker/cann_check_interface.py:343-387 | for any two lists: equally long results; at each position a name beside itself or beside as many underscores; padding removed gives each input back in order, by looking at underscores alone if names are public; on increasing inputs every common name stands beside itself |
| InterfaceDiff.AgreeOnNames | auto_schedule/cann_interface_checker/cann_check_interface.py:476-480 | the lists agree exactly where a name stands beside itself, which both files have, or where an unmatched name consists of underscores |
| InterfaceDiff.CompareFunc | auto_schedule/cann_interface_checker/cann_check_interface.py:459-480 | answers true exactly if nothing had failed before, the names that are not empty and do not begin with an underscore are the same, and their stripped parameters agree as multisets |
| InterfaceDiff.StripExactly | auto_schedule/cann_interface_checker/cann_check_interface.py:328-340 | stripping leaves the part that neither begins nor ends with white space, all around it being white space |
| NameOrder.SortedEqual | auto_schedule/cann_interface_checker/cann_check_interface.py:328-340 | sorted lists are equal exactly if the elements are, with multiplicities |
| NameOrder.LessExactly | auto_schedule/cann_interface_checker/cann_check_interface.py:328-340 | names are ordered by the first place where they differ, a shorter one before its continuations |
| Cartesian.RowHolds | main/subcase_design_cross.py:44-45 | each row of the product takes one value of each list, at the positions that its number stands for |
| Cartesian.LastVariesFastest | main/subcase_design_cross.py:44-45 | with one list more every row comes once with each of its values, the last list varying fastest |
| Cartesian.ChoiceHasRow | main/subcase_design_cross.py:44-45 | and each combination of positions is some row |
| CaseCross.CombineOriFieldToCross | main/subcase_design_cross.py:19-50 | the keys with the original ones put beside theirs, and in every row the format and its original one, the shape and its original one, and the other values, at the positions that its number stands for |
| CaseCross.CrossTensor | main/subcase_design_cross.py:259-291 | over the operator's keys and those of shape_range, value and is_const that the tensor has, every case takes each key's value from its own list, formats and shapes sharing positions with their original ones, and is then finished field by field; there is no result exactly if some case has a dynamic shape and no typical one |
| CaseFields.CheckCurParamsUndefined | main/subcase_design.py:62-66 | format and type are both left UNDEFINED exactly if the format was UNDEFINED or RESERVED, or the type UNDEFINED |
| CaseFields.SetTypicalShape | main/dynamic_handle.py:57-78 | a shape with a -1 or a -2 gets the typical one, with a -2 it loses a range that is not empty, and without a typical shape there is an error |
| CaseFields.FinishedFields | main/subcase_design_cross.py:259-268 | both together, field by field, for every case put together |
| CaseFields.AlikeExactly | main/subcase_design_cross.py:259-268 | two cases put together are finished as the same case exactly if they agree on every field, except for formats and types that both become undefined, typical shapes that both are given, and ranges that are dropped |
| CaseCross.EachCombinationOnce | main/subcase_design_cross.py:259-291 | each combination of positions is crossed in exactly one row |
| CaseCross.SameCaseExactly | main/subcase_design_cross.py:259-291 | two combinations of positions come out as the same case exactly if they choose the same values, with the same exceptions |
| CaseCross.RowsAligned | main/const_manager.py:245-248 | where the further fields are single-valued, row r of every input and output is crossed from the same format, shape and type positions |
| Windows.ValidGreatest | auto_schedule/python/common.py:274-278 | VALID: window i exists exactly if it fits the input |
| Windows.SameFits | auto_schedule/python/common.py:279-284 | SAME: padding is balanced, every window fits the padded input, positive padding is needed in full |
| Windows.SameCoversExactly | auto_schedule/python/common.py:279-284 | SAME: every cell is in a window exactly if the dilated filter reaches the stride or the whole input |

## Left out

- VectorKernels.KernelExact: one operand buffer; operations with one source, a scalar or a constant repeat the same two instructions and would add the same result again. Hardware limits on the repeat field are not modelled there.
- CaseCross.CrossTensor: the wrap-around of output rows when inputs have several distributions or ranges, and the checks made on the lists before they are crossed.
- InterfaceDiff.CompareFunc: the comparison of global variables, and that of classes, which walks the first padded list only and looks its names up in the second file without testing that they are there; all printing.
- ExtMsg.ParseExtMsg: messages whose record lengths do not add up, and lengths that wrap around 32 bits.
- TensorUpdate.UpdateTensor: null tensors and shapes, and what happens once a negative rank has been taken for a huge one; runs after such an end are modelled as after a refusal.
- ContextCache.CpuKernelCache.RunKernel: an asynchronous kernel that still changes shapes after its call has returned; its shapes count as given by the call.
- TensorUpdate.UpdateFWKOutputShape: outputs whose rank exceeds their shape record, which the code does not check.
- DeviceKernel.RunCpuKernel: calls that overlap in time on one cache.
- `GetCpuKernelContextWithBlock` and the `WithBlock` entry points: they store without looking up when there are several blocks.
- Protobuf parsing, logging, allocation failure inside the standard containers, and use of the pointer returned by `GetCache` after another thread evicts it.
- The mean over a column of integers, casts between tensor types and the schedules built around the reductions.
- Memory orderings weaker than sequential consistency.
- Runtime calls, deprecated wrappers, constant tables, report and argument modules, random data and the Eigen sharders: foreign code, data or shallow logic.
