/** Binding tensors to the addresses of a call and writing shapes back (ops/built-in/cpu_kernel_cache.cc).
    How many elements and bytes a shape has is the tensor library's business: parameters. */
module TensorUpdate {

  /** LLONG_MIN, the end flag of a shape record. */
  const END_FLAG: int := -0x8000_0000_0000_0000

  /** The largest rank of a runtime tensor descriptor. */
  const MAX_DIM_SIZE: nat := 32

  class Tensor {
    var dims: seq<int>
    var data: int
    var dataSize: int

    function Bound(): Binding
      reads this
    {
      Binding(data, dims, dataSize)
    }
  }

  /** A runtime tensor descriptor: element 0 of either shape is the rank. */
  class Descriptor {
    var dataAddr: int
    var shape: seq<int>
    var originalShape: seq<int>

    function Shapes(): (seq<int>, seq<int>)
      reads this
    {
      (shape, originalShape)
    }

    predicate Valid()
      reads this
    {
      |shape| == |originalShape| == MAX_DIM_SIZE + 1
    }

    /** Write a shape into both. */
    method Describe(dims: seq<int>)
      requires Valid() && |dims| <= MAX_DIM_SIZE
      modifies this`shape, this`originalShape
      ensures Valid()
      ensures Shapes() == DescribedBoth(old(Shapes()), dims)
    {
      shape := shape[0 := |dims|];
      originalShape := originalShape[0 := |dims|];
      for index := 0 to |dims|
        invariant shape == Overwritten(old(shape)[0 := |dims|], 1, dims[..index])
        invariant originalShape == Overwritten(old(originalShape)[0 := |dims|], 1, dims[..index])
      {
        shape := shape[index + 1 := dims[index]];
        originalShape := originalShape[index + 1 := dims[index]];
        assert dims[..index + 1] == dims[..index] + [dims[index]];
      }
      assert dims[..|dims|] == dims;
      assert shape == Described(old(shape), dims) && originalShape == Described(old(originalShape), dims);
    }
  }

  /** The dimensions of all of them. */
  ghost function AllDims(ts: seq<Tensor>): (dims: seq<seq<int>>)
    reads ts
    ensures |dims| == |ts| && forall i :: 0 <= i < |ts| ==> dims[i] == ts[i].dims
  {
    seq(|ts|, i requires 0 <= i < |ts| reads ts => ts[i].dims)
  }

  // ---- Reading shapes ----

  /** The dimensions before the end flag, all of them if there is none. */
  function DimsOf(record: seq<int>): (dims: seq<int>)
  {
    if record == [] || record[0] == END_FLAG then [] else [record[0]] + DimsOf(record[1..])
  }

  lemma {:induction false} DimsOfPrefix(record: seq<int>, n: nat)
    requires n <= |record| && forall k :: 0 <= k < n ==> record[k] != END_FLAG
    ensures DimsOf(record) == record[..n] + DimsOf(record[n..])
  {
    if n == 0 {
      assert record[0..] == record;
    } else {
      DimsOfPrefix(record[1..], n - 1);
      assert record[1..][n - 1..] == record[n..];
      assert record[..n] == [record[0]] + record[1..][..n - 1];
    }
  }

  /** They are the elements before the first LLONG_MIN, which none of them is. */
  lemma DimsBeforeFlag(record: seq<int>, n: nat)
    requires n <= |record|
    ensures DimsOf(record) == record[..n] <==>
      (forall k :: 0 <= k < n ==> record[k] != -9223372036854775808) &&
      (n < |record| ==> record[n] == -9223372036854775808)
  {
    DimsNoFlag(record);
    if DimsOf(record) == record[..n] {
      assert forall k :: 0 <= k < n ==> record[k] == DimsOf(record)[k];
    }
    if forall k :: 0 <= k < n ==> record[k] != END_FLAG {
      DimsOfPrefix(record, n);
      assert DimsOf(record[n..]) == [] <==> n == |record| || record[n] == END_FLAG;
      assert |DimsOf(record)| == n + |DimsOf(record[n..])|;
    }
  }

  lemma {:induction false} DimsNoFlag(record: seq<int>)
    ensures forall k :: 0 <= k < |DimsOf(record)| ==> DimsOf(record)[k] != END_FLAG
  {
    if record != [] && record[0] != END_FLAG { DimsNoFlag(record[1..]); }
  }

  /** `GetDimsFromShapeAndType`. */
  method GetDimsFromShapeAndType(record: seq<int>) returns (dims: seq<int>)
    ensures dims == DimsOf(record)
  {
    dims := [];
    var index := 0;
    while index < |record|
      invariant 0 <= index <= |record| && dims == record[..index]
      invariant forall k :: 0 <= k < index ==> record[k] != END_FLAG
    {
      if record[index] == END_FLAG { break; }
      dims := dims + [record[index]];
      index := index + 1;
    }
    DimsOfPrefix(record, index);
  }

  /** `GetDimsFromArrays`, for the `len` elements from `start`. */
  method GetDimsFromArrays(shape: seq<int>, start: nat, len: nat) returns (dims: seq<int>)
    requires start + len <= |shape|
    ensures dims == shape[start..start + len]
  {
    dims := [];
    for index := 0 to len
      invariant dims == shape[start..start + index]
    {
      dims := dims + [shape[start + index]];
    }
  }

  // ---- Writing shapes back ----

  /** `s` with `dims` written over it from `start`. */
  function Overwritten(s: seq<int>, start: nat, dims: seq<int>): seq<int>
    requires start + |dims| <= |s|
  {
    seq(|s|, i requires 0 <= i < |s| => if start <= i < start + |dims| then dims[i - start] else s[i])
  }

  method WriteDims(record: array<int>, start: nat, dims: seq<int>)
    requires start + |dims| <= record.Length
    modifies record
    ensures record[..] == Overwritten(old(record[..]), start, dims)
  {
    for index := 0 to |dims|
      invariant forall k :: 0 <= k < record.Length ==>
        record[k] == if start <= k < start + index then dims[k - start] else old(record[k])
    {
      record[start + index] := dims[index];
    }
  }

  /** A shape record written back is read as what was written exactly if it fills the record or an end flag
      happens to stand behind it: the code writes none. */
  lemma RecordReadsBack(record: seq<int>, dims: seq<int>)
    requires |dims| <= |record| && forall k :: 0 <= k < |dims| ==> dims[k] != END_FLAG
    ensures DimsOf(dims + record[|dims|..]) == dims <==>
      |dims| == |record| || record[|dims|] == -9223372036854775808
  {
    var now, n := dims + record[|dims|..], |dims|;
    assert now[..n] == dims;
    DimsBeforeFlag(now, n);
  }

  /** A descriptor's shape as `UpdateFWKOutputShape` leaves it. */
  function Described(was: seq<int>, dims: seq<int>): seq<int> {
    if |was| == MAX_DIM_SIZE + 1 && |dims| <= MAX_DIM_SIZE then Overwritten(was[0 := |dims|], 1, dims) else was
  }

  function DescribedBoth(was: (seq<int>, seq<int>), dims: seq<int>): (seq<int>, seq<int>) {
    (Described(was.0, dims), Described(was.1, dims))
  }

  /** No two of the records are the same memory. */
  ghost predicate Apart(records: seq<array<int>>) {
    forall i, j :: 0 <= i < j < |records| ==> records[i] != records[j]
  }

  ghost predicate ApartDescriptors(descs: map<nat, Descriptor>)
    reads descs.Values
  {
    && (forall k :: k in descs ==> descs[k].Valid())
    && (forall k, l :: k in descs && l in descs && k != l ==> descs[k] != descs[l])
  }

  ghost function RecordArrays(records: seq<array<int>>): set<object> {
    set i | 0 <= i < |records| :: records[i]
  }

  /** Each output's shape fits its record. */
  predicate FitRecords(outputs: seq<Tensor>, records: seq<array<int>>)
    reads outputs
  {
    |records| == |outputs| && forall i :: 0 <= i < |outputs| ==> |outputs[i].dims| <= records[i].Length
  }

  /** Every record holds the shape of its output. */
  method WriteRecords(outputs: seq<Tensor>, records: seq<array<int>>)
    requires Apart(records) && FitRecords(outputs, records)
    modifies RecordArrays(records)
    ensures forall i :: 0 <= i < |outputs| ==> records[i][..] == Overwritten(old(records[i][..]), 0, outputs[i].dims)
  {
    for i := 0 to |outputs|
      invariant forall j :: 0 <= j < i ==> records[j][..] == Overwritten(old(records[j][..]), 0, outputs[j].dims)
      invariant forall j :: i <= j < |records| ==> records[j][..] == old(records[j][..])
    {
      WriteDims(records[i], 0, outputs[i].dims);
    }
  }

  /** The output exists and its rank fits a descriptor. */
  predicate Writable(dims: seq<seq<int>>, k: nat) {
    k < |dims| && |dims[k]| <= MAX_DIM_SIZE
  }

  /** Every output up to this one can be written. */
  predicate Reached(dims: seq<seq<int>>, keys: set<nat>, k: nat) {
    forall l :: l in keys && l <= k ==> Writable(dims, l)
  }

  /** A set of numbers that has one has a least one. */
  lemma LeastFrom(s: set<nat>, x: nat) returns (least: nat)
    requires x in s
    ensures least in s && forall l :: l in s ==> least <= l
  {
    least := x;
    if y :| y in s && y < x { least := LeastFrom(s, y); }
  }

  lemma HasLeast(s: set<nat>)
    requires s != {}
    ensures exists k :: k in s && forall l :: l in s ==> k <= l
  {
    var x :| x in s;
    var least := LeastFrom(s, x);
  }

  ghost function AllShapes(descs: map<nat, Descriptor>): map<nat, (seq<int>, seq<int>)>
    reads descs.Values
  {
    map k | k in descs :: descs[k].Shapes()
  }

  /** The shapes written in increasing order, up to the first one that cannot be. */
  function DescribedUpTo(was: map<nat, (seq<int>, seq<int>)>, dims: seq<seq<int>>): map<nat, (seq<int>, seq<int>)> {
    map k | k in was :: if Reached(dims, was.Keys, k) then DescribedBoth(was[k], dims[k]) else was[k]
  }

  /** The shapes once all but those of `todo` are written. */
  function DescribedBut(was: map<nat, (seq<int>, seq<int>)>, dims: seq<seq<int>>,
                        todo: set<nat>): map<nat, (seq<int>, seq<int>)>
  {
    map k | k in was :: if k in todo || k >= |dims| then was[k] else DescribedBoth(was[k], dims[k])
  }

  /** Writing stops at the least one left, if there is one. */
  lemma DescribedAll(was: map<nat, (seq<int>, seq<int>)>, dims: seq<seq<int>>, todo: set<nat>)
    requires todo <= was.Keys && forall k :: k in was && k !in todo ==> Writable(dims, k) && forall l :: l in todo ==>
      k < l
    requires todo != {} ==> exists k :: k in todo && !Writable(dims, k) && forall l :: l in todo ==> k <= l
    ensures DescribedBut(was, dims, todo) == DescribedUpTo(was, dims)
  {
    forall k | k in was ensures Reached(dims, was.Keys, k) <==> k !in todo {
      if k in todo {
        var least :| least in todo && !Writable(dims, least) && forall l :: l in todo ==> least <= l;
        assert least in was.Keys && least <= k;
      } else {
        forall l | l in was.Keys && l <= k ensures Writable(dims, l) { assert l !in todo; }
      }
    }
  }

  method DescribeOne(descs: map<nat, Descriptor>, k: nat, dims: seq<int>)
    requires ApartDescriptors(descs) && k in descs && |dims| <= MAX_DIM_SIZE
    modifies descs[k]
    ensures ApartDescriptors(descs)
    ensures AllShapes(descs) == old(AllShapes(descs))[k := DescribedBoth(old(AllShapes(descs))[k], dims)]
  {
    descs[k].Describe(dims);
    assert forall l :: l in descs && l != k ==> descs[l].Shapes() == old(descs[l].Shapes());
  }

  lemma DescribedMore(was: map<nat, (seq<int>, seq<int>)>, dims: seq<seq<int>>, todo: set<nat>, k: nat)
    requires k in was && k in todo && k < |dims|
    ensures DescribedBut(was, dims, todo)[k := DescribedBoth(was[k], dims[k])] == DescribedBut(was, dims, todo - {k})
  {
  }

  /** All but the descriptors of `todo` are written, which come behind them. */
  ghost predicate Underway(outputs: seq<Tensor>, descs: map<nat, Descriptor>, dims: seq<seq<int>>,
                           was: map<nat, (seq<int>, seq<int>)>, todo: set<nat>)
    reads outputs, descs.Values
  {
    && todo <= descs.Keys == was.Keys && AllDims(outputs) == dims && ApartDescriptors(descs)
    && (forall k :: k in descs && k !in todo ==> Writable(dims, k) && forall l :: l in todo ==> k < l)
    && AllShapes(descs) == DescribedBut(was, dims, todo)
  }

  /** The next descriptor, unless it cannot be written. */
  method WriteNext(outputs: seq<Tensor>, descs: map<nat, Descriptor>, ghost dims: seq<seq<int>>,
                   ghost was: map<nat, (seq<int>, seq<int>)>, todo: set<nat>) returns (ok: bool, rest: set<nat>)
    requires todo != {} && Underway(outputs, descs, dims, was, todo)
    modifies descs.Values
    ensures ok ==> rest < todo && Underway(outputs, descs, dims, was, rest)
    ensures !ok ==> (exists k :: k in descs && !Writable(dims, k)) && AllDims(outputs) == dims
    ensures !ok ==> AllShapes(descs) == DescribedUpTo(was, dims)
  {
    HasLeast(todo);
    var k :| k in todo && forall l :: l in todo ==> k <= l;
    if k >= |outputs| || |outputs[k].dims| > MAX_DIM_SIZE {
      assert !Writable(dims, k);
      DescribedAll(was, dims, todo);
      return false, todo;
    }
    DescribeOne(descs, k, outputs[k].dims);
    DescribedMore(was, dims, todo, k);
    ok, rest := true, todo - {k};
  }

  /** The descriptors in increasing order of their outputs, up to the first one that cannot be written. */
  method WriteDescriptors(outputs: seq<Tensor>, descs: map<nat, Descriptor>, ghost dims: seq<seq<int>>,
                          ghost was: map<nat, (seq<int>, seq<int>)>) returns (ok: bool)
    requires ApartDescriptors(descs) && dims == AllDims(outputs) && was == AllShapes(descs)
    modifies descs.Values
    ensures ok <==> forall k :: k in descs ==> Writable(dims, k)
    ensures AllShapes(descs) == DescribedUpTo(was, dims) && AllDims(outputs) == dims
  {
    var todo := descs.Keys;
    while todo != {}
      invariant Underway(outputs, descs, dims, was, todo)
    {
      ok, todo := WriteNext(outputs, descs, dims, was, todo);
      if !ok { return; }
    }
    DescribedAll(was, dims, todo);
    ok := true;
  }

  /** The records as they are afterwards. */
  ghost predicate RecordsWritten(unknownShape: bool, dims: seq<seq<int>>, records: seq<array<int>>, was: seq<seq<int>>)
    requires |was| == |records|
    reads RecordArrays(records)
  {
    if unknownShape then
      |records| == |dims| && forall i :: 0 <= i < |dims| ==>
        |dims[i]| <= |was[i]| && records[i][..] == Overwritten(was[i], 0, dims[i])
    else forall i :: 0 <= i < |records| ==> records[i][..] == was[i]
  }

  ghost function AllRecords(records: seq<array<int>>): (all: seq<seq<int>>)
    reads RecordArrays(records)
    ensures |all| == |records| && forall i :: 0 <= i < |records| ==> all[i] == records[i][..]
  {
    seq(|records|, i requires 0 <= i < |records| reads RecordArrays(records) => records[i][..])
  }

  /** The records come first; outputs and descriptors do not change. */
  method WriteAllRecords(unknownShape: bool, outputs: seq<Tensor>, records: seq<array<int>>,
                         ghost descs: map<nat, Descriptor>)
    requires Apart(records) && ApartDescriptors(descs) && (unknownShape ==> FitRecords(outputs, records))
    modifies RecordArrays(records)
    ensures RecordsWritten(unknownShape, AllDims(outputs), records, old(AllRecords(records)))
    ensures AllDims(outputs) == old(AllDims(outputs)) && AllShapes(descs) == old(AllShapes(descs)) &&
      ApartDescriptors(descs)
  {
    if unknownShape {
      WriteRecords(outputs, records);
    }
  }

  /** With unknown shapes every record has the dimensions of its output at its front, and is otherwise as it was. */
  ghost predicate RecordsNow(unknownShape: bool, dims: seq<seq<int>>, now: seq<seq<int>>, was: seq<seq<int>>) {
    |now| == |was| && forall i :: 0 <= i < |was| ==>
      if unknownShape then i < |dims| && |dims[i]| <= |was[i]| && now[i] == dims[i] + was[i][|dims[i]|..]
      else now[i] == was[i]
  }

  /** One shape of a descriptor now: the rank, the dimensions, and what was behind them. */
  ghost predicate ShapeNow(now: seq<int>, was: seq<int>, dims: seq<int>) {
    |dims| < |was| && now == [|dims|] + dims + was[1 + |dims|..]
  }

  /** Output `k` and all those before it that have descriptors are there and have at most 32 dimensions. */
  ghost predicate UpTo(keys: set<nat>, dims: seq<seq<int>>, k: nat) {
    forall l :: l in keys && l <= k ==> l < |dims| && |dims[l]| <= 32
  }

  /** Both shapes of those descriptors have been written, those of the others are as they were. */
  ghost predicate ShapesNow(now: map<nat, (seq<int>, seq<int>)>, was: map<nat, (seq<int>, seq<int>)>,
                            dims: seq<seq<int>>)
  {
    now.Keys == was.Keys && forall k :: k in was ==>
      if UpTo(was.Keys, dims, k) then
        k < |dims| && ShapeNow(now[k].0, was[k].0, dims[k]) && ShapeNow(now[k].1, was[k].1, dims[k])
      else now[k] == was[k]
  }

  lemma DescribedIsNow(was: seq<int>, dims: seq<int>)
    requires |was| == MAX_DIM_SIZE + 1 && |dims| <= MAX_DIM_SIZE
    ensures ShapeNow(Described(was, dims), was, dims)
  {
    assert Described(was, dims) == [|dims|] + dims + was[1 + |dims|..];
  }

  lemma ShapesAreNow(now: map<nat, (seq<int>, seq<int>)>, was: map<nat, (seq<int>, seq<int>)>, dims: seq<seq<int>>)
    requires now == DescribedUpTo(was, dims)
    requires forall k :: k in was ==> |was[k].0| == |was[k].1| == MAX_DIM_SIZE + 1
    ensures ShapesNow(now, was, dims)
  {
    forall k | k in was
      ensures if UpTo(was.Keys, dims, k) then
        k < |dims| && ShapeNow(now[k].0, was[k].0, dims[k]) && ShapeNow(now[k].1, was[k].1, dims[k])
        else now[k] == was[k]
    {
      assert UpTo(was.Keys, dims, k) <==> Reached(dims, was.Keys, k);
      if UpTo(was.Keys, dims, k) {
        DescribedIsNow(was[k].0, dims[k]);
        DescribedIsNow(was[k].1, dims[k]);
      }
    }
  }

  lemma RecordsAreNow(unknownShape: bool, dims: seq<seq<int>>, records: seq<array<int>>, was: seq<seq<int>>)
    requires |was| == |records| && RecordsWritten(unknownShape, dims, records, was)
    ensures RecordsNow(unknownShape, dims, AllRecords(records), was)
  {
    if unknownShape {
      forall i | 0 <= i < |was| ensures AllRecords(records)[i] == dims[i] + was[i][|dims[i]|..] {
        assert Overwritten(was[i], 0, dims[i]) == dims[i] + was[i][|dims[i]|..];
      }
    }
  }

  /** `UpdateFWKOutputShape`: the records, and the descriptors up to the first whose output is missing or has too many
      dimensions. */
  method UpdateFWKOutputShape(unknownShape: bool, outputs: seq<Tensor>, records: seq<array<int>>,
                              descs: map<nat, Descriptor>) returns (ok: bool)
    requires Apart(records) && ApartDescriptors(descs) && (unknownShape ==> FitRecords(outputs, records))
    modifies RecordArrays(records), descs.Values
    ensures AllDims(outputs) == old(AllDims(outputs))
    ensures ok <==> forall k :: k in descs ==> k < |outputs| && |outputs[k].dims| <= 32
    ensures RecordsNow(unknownShape, AllDims(outputs), AllRecords(records), old(AllRecords(records)))
    ensures ShapesNow(AllShapes(descs), old(AllShapes(descs)), AllDims(outputs))
  {
    ghost var dims, was, wasRecords := AllDims(outputs), AllShapes(descs), AllRecords(records);
    assert forall k :: k in was ==> |was[k].0| == |was[k].1| == MAX_DIM_SIZE + 1;
    WriteAllRecords(unknownShape, outputs, records, descs);
    RecordsAreNow(unknownShape, dims, records, wasRecords);
    ok := WriteDescriptors(outputs, descs, dims, was);
    ShapesAreNow(AllShapes(descs), was, dims);
  }

  // ---- Binding tensors ----

  /** What lies at the address of an unknown-shape tensor, read as a descriptor. */
  datatype Words = Words(dataAddr: int, shape: seq<int>)
  type Reading = w: Words | |w.shape| == MAX_DIM_SIZE + 1 witness Words(0, seq(MAX_DIM_SIZE + 1, i => 0))

  /** The tensor library: how many elements and bytes a shape has. */
  datatype Library = Library(elements: seq<int> -> int, bytes: seq<int> -> int)

  function Uint64(x: int): int { x % 0x1_0000_0000_0000_0000 }

  /** What one tensor is bound to; `Overrun` if the code takes a negative rank for a huge one and reads on
      behind the descriptor. */
  datatype Binding = Refused | Overrun | Binding(data: int, dims: seq<int>, dataSize: int)

  /** How binding all of them ends. */
  datatype End = Done | Invalid | Crash

  function EndOf(b: Binding): End {
    match b
    case Refused => Invalid
    case Overrun => Crash
    case Binding(_, _, _) => Done
  }

  /** What the inputs, or the outputs, are bound from: this call's addresses, the shape records if the call has
      unknown shapes, the unknown-shape indices, and memory. */
  datatype Source = Source(outputs: bool, addrs: seq<int>, unknownShape: bool, records: seq<seq<int>>,
                           index: map<nat, int>, memory: int -> Reading)
  {
    /** There is an address and, where they are used, a record for each of `n` tensors. */
    predicate Fits(n: nat) {
      |addrs| == n && (unknownShape ==> |records| == n)
    }

    predicate Has(i: nat) {
      i < |addrs| && (unknownShape ==> i < |records|)
    }

    /** The rank at the descriptor of an unknown-shape input. */
    function Rank(i: nat): int
      requires Has(i)
    {
      memory(addrs[i]).shape[0]
    }

    /** It is a rank; nobody looks at the one of an output. */
    predicate Sound(i: nat)
      requires Has(i)
    {
      !outputs && i in index ==> 0 <= Rank(i) <= MAX_DIM_SIZE
    }

    /** The call brings dimensions for this tensor: a record or, for an input only, a descriptor. */
    predicate Brings(i: nat) {
      unknownShape || (!outputs && i in index)
    }

    /** The record comes before the descriptor. */
    function Brought(i: nat): seq<int>
      requires Has(i) && Sound(i) && Brings(i)
    {
      if unknownShape then DimsOf(records[i]) else memory(addrs[i]).shape[1..1 + Rank(i)]
    }

    /** The dimensions of tensor `i` once it has been reached, bound or not, `was` being those before. */
    function Taken(i: nat, was: seq<int>): seq<int>
      requires Has(i)
    {
      if Sound(i) && Brings(i) then Brought(i) else was
    }

    /** Its own address, or what the descriptor there says. */
    function DataAt(i: nat): int
      requires Has(i)
    {
      if i in index then memory(addrs[i]).dataAddr else addrs[i]
    }

    /** An input needs a number of elements; an output only if no output has unknown dimensions. */
    predicate Counted() {
      outputs ==> !unknownShape && index == map[]
    }

    /** What tensor `i` is bound to. */
    function Bind(lib: Library, i: nat, was: seq<int>): Binding
      requires Has(i)
    {
      if !Sound(i) then if Rank(i) < 0 then Overrun else Refused
      else if Counted() && lib.elements(Taken(i, was)) < 0 then Refused
      else Binding(DataAt(i), Taken(i, was), Uint64(lib.bytes(Taken(i, was))))
    }

    /** How it ends, after `n` of them. */
    function Ending(lib: Library, was: seq<seq<int>>, n: nat): End
      requires n <= |was| && Fits(|was|)
    {
      if n == 0 then Done
      else if Ending(lib, was, n - 1) != Done then Ending(lib, was, n - 1)
      else EndOf(Bind(lib, n - 1, was[n - 1]))
    }

    /** The dimensions afterwards: those behind the one where it ended are as before. */
    function After(lib: Library, was: seq<seq<int>>): (dims: seq<seq<int>>)
      requires Fits(|was|)
    {
      seq(|was|, i requires 0 <= i < |was| => if Ending(lib, was, i).Done? then Taken(i, was[i]) else was[i])
    }

    /** The map now holds this call's addresses for the first `n` tensors; nothing else in it has changed. */
    predicate Rebound(next: map<nat, int>, n: nat) {
      && n <= |addrs| && next.Keys == index.Keys
      && forall k :: k in index ==> next[k] == if k < n then addrs[k] else index[k]
    }
  }

  /** It ends well exactly if every tensor is bound. */
  lemma {:induction false} DoneIffBound(src: Source, lib: Library, was: seq<seq<int>>, n: nat)
    requires n <= |was| && src.Fits(|was|)
    ensures src.Ending(lib, was, n) == Done <==> forall i :: 0 <= i < n ==> src.Bind(lib, i, was[i]).Binding?
  {
    if n > 0 { DoneIffBound(src, lib, was, n - 1); }
  }

  ghost predicate AllDifferent(ts: seq<Tensor>) {
    forall i, j :: 0 <= i < j < |ts| ==> ts[i] != ts[j]
  }

  /** One input; the map changes only at `i`. */
  method BindInput(t: Tensor, i: nat, src: Source, lib: Library, index: map<nat, int>)
    returns (end: End, next: map<nat, int>)
    requires !src.outputs && src.Has(i) && src.Rebound(index, i)
    modifies t
    ensures src.Rebound(next, i + 1)
    ensures t.dims == src.Taken(i, old(t.dims))
    ensures end == EndOf(src.Bind(lib, i, old(t.dims)))
    ensures end == Done ==> t.Bound() == src.Bind(lib, i, old(t.dims))
  {
    next := index;
    if i in index {
      next := next[i := src.addrs[i]];
      var d := src.memory(src.addrs[i]);
      if d.shape[0] > MAX_DIM_SIZE { return Invalid, next; }
      if d.shape[0] < 0 { return Crash, next; }
      t.dims := GetDimsFromArrays(d.shape, 1, d.shape[0]);
      t.data := d.dataAddr;
    } else {
      t.data := src.addrs[i];
    }
    if src.unknownShape {
      t.dims := GetDimsFromShapeAndType(src.records[i]);
    }
    if lib.elements(t.dims) < 0 { return Invalid, next; }
    t.dataSize := Uint64(lib.bytes(t.dims));
    end := Done;
  }

  /** One output. */
  method BindOutput(t: Tensor, i: nat, src: Source, lib: Library, noTiling: bool, index: map<nat, int>)
    returns (end: End, next: map<nat, int>)
    requires src.outputs && src.Has(i) && src.Rebound(index, i) && (noTiling <==> src.index == map[])
    modifies t
    ensures src.Rebound(next, i + 1)
    ensures t.dims == src.Taken(i, old(t.dims))
    ensures end == EndOf(src.Bind(lib, i, old(t.dims)))
    ensures end == Done ==> t.Bound() == src.Bind(lib, i, old(t.dims))
  {
    next := index;
    if i in index {
      next := next[i := src.addrs[i]];
      t.data := src.memory(src.addrs[i]).dataAddr;
    } else {
      t.data := src.addrs[i];
    }
    if src.unknownShape {
      t.dims := GetDimsFromShapeAndType(src.records[i]);
    }
    if !(src.unknownShape || !noTiling || lib.elements(t.dims) >= 0) { return Invalid, next; }
    t.dataSize := Uint64(lib.bytes(t.dims));
    end := Done;
  }

  /** The first `n` tensors are done, the others as they were. */
  ghost predicate BoundUpTo(ts: seq<Tensor>, src: Source, lib: Library, was: seq<seq<int>>, n: nat)
    requires n <= |ts| == |was| && src.Fits(|was|)
    reads ts
  {
    && src.Ending(lib, was, n) == Done
    && (forall i :: 0 <= i < n ==> ts[i].Bound() == src.Bind(lib, i, was[i]))
    && (forall i :: n <= i < |ts| ==> ts[i].dims == was[i])
  }

  /** Binding has ended with tensor `n`, or behind the last. */
  ghost predicate EndsAt(src: Source, lib: Library, was: seq<seq<int>>, dims: seq<seq<int>>, n: nat)
    requires n <= |was| == |dims| && src.Fits(|was|)
  {
    && src.Ending(lib, was, n) == Done && (n < |was| ==> src.Ending(lib, was, n + 1) != Done)
    && (forall i :: 0 <= i <= n && i < |was| ==> dims[i] == src.Taken(i, was[i]))
    && (forall i :: n < i < |was| ==> dims[i] == was[i])
  }

  lemma DimsAfter(src: Source, lib: Library, was: seq<seq<int>>, dims: seq<seq<int>>, n: nat)
    requires n <= |was| == |dims| && src.Fits(|was|) && EndsAt(src, lib, was, dims, n)
    ensures dims == src.After(lib, was) &&
      src.Ending(lib, was, |was|) == if n < |was| then src.Ending(lib, was, n + 1) else Done
  {
    forall i | 0 <= i <= |was|
      ensures src.Ending(lib, was, i) == if i <= n then Done else src.Ending(lib, was, n + 1)
    {
      EndingStays(src, lib, was, if i <= n then i else n + 1, if i <= n then n else i);
    }
  }

  lemma {:induction false} EndingStays(src: Source, lib: Library, was: seq<seq<int>>, m: nat, n: nat)
    requires m <= n <= |was| && src.Fits(|was|)
    ensures src.Ending(lib, was, m) != Done ==> src.Ending(lib, was, n) == src.Ending(lib, was, m)
  {
    if m < n { EndingStays(src, lib, was, m, n - 1); }
  }

  lemma AllAreBound(ts: seq<Tensor>, src: Source, lib: Library, was: seq<seq<int>>)
    requires |ts| == |was| && src.Fits(|was|) && BoundUpTo(ts, src, lib, was, |ts|)
    ensures AllDims(ts) == src.After(lib, was)
  {
    DimsAfter(src, lib, was, AllDims(ts), |ts|);
  }

  /** One input more. */
  method BindNextInput(ts: seq<Tensor>, i: nat, src: Source, lib: Library, ghost was: seq<seq<int>>,
                       index: map<nat, int>)
    returns (end: End, next: map<nat, int>)
    requires AllDifferent(ts) && !src.outputs && |was| == |ts| && src.Fits(|was|)
    requires i < |ts| && src.Rebound(index, i) && BoundUpTo(ts, src, lib, was, i)
    modifies ts[i]
    ensures src.Rebound(next, i + 1) && end == src.Ending(lib, was, i + 1)
    ensures if end == Done then BoundUpTo(ts, src, lib, was, i + 1) else EndsAt(src, lib, was, AllDims(ts), i)
  {
    assert ts[i].dims == was[i];
    end, next := BindInput(ts[i], i, src, lib, index);
    assert forall j :: 0 <= j < |ts| && j != i ==> ts[j].Bound() == old(ts[j].Bound());
    assert end == src.Ending(lib, was, i + 1);
  }

  /** The inputs, `was` being their dimensions before.  Where one is refused, its own dimensions and those of the
      ones before it have been taken over all the same. */
  method BindInputs(ts: seq<Tensor>, src: Source, lib: Library, ghost was: seq<seq<int>>)
    returns (end: End, next: map<nat, int>)
    requires AllDifferent(ts) && !src.outputs && was == AllDims(ts) && src.Fits(|was|)
    modifies ts
    ensures end == src.Ending(lib, was, |ts|) && AllDims(ts) == src.After(lib, was)
    ensures end == Done ==> src.Rebound(next, |ts|) && BoundUpTo(ts, src, lib, was, |ts|)
  {
    next := src.index;
    for i := 0 to |ts|
      invariant src.Rebound(next, i) && BoundUpTo(ts, src, lib, was, i)
    {
      end, next := BindNextInput(ts, i, src, lib, was, next);
      if end != Done {
        DimsAfter(src, lib, was, AllDims(ts), i);
        return;
      }
    }
    AllAreBound(ts, src, lib, was);
    end := Done;
  }

  /** One output more. */
  method BindNextOutput(ts: seq<Tensor>, i: nat, src: Source, lib: Library, noTiling: bool, ghost was: seq<seq<int>>,
                        index: map<nat, int>)
    returns (end: End, next: map<nat, int>)
    requires AllDifferent(ts) && src.outputs && |was| == |ts| && src.Fits(|was|)
    requires i < |ts| && src.Rebound(index, i) && BoundUpTo(ts, src, lib, was, i) && (noTiling <==> src.index == map[])
    modifies ts[i]
    ensures src.Rebound(next, i + 1) && end == src.Ending(lib, was, i + 1)
    ensures if end == Done then BoundUpTo(ts, src, lib, was, i + 1) else EndsAt(src, lib, was, AllDims(ts), i)
  {
    assert ts[i].dims == was[i];
    end, next := BindOutput(ts[i], i, src, lib, noTiling, index);
    assert forall j :: 0 <= j < |ts| && j != i ==> ts[j].Bound() == old(ts[j].Bound());
    assert end == src.Ending(lib, was, i + 1);
  }

  /** The outputs. */
  method BindOutputs(ts: seq<Tensor>, src: Source, lib: Library, ghost was: seq<seq<int>>)
    returns (end: End, next: map<nat, int>)
    requires AllDifferent(ts) && src.outputs && was == AllDims(ts) && src.Fits(|was|)
    modifies ts
    ensures end == src.Ending(lib, was, |ts|) && AllDims(ts) == src.After(lib, was)
    ensures end == Done ==> src.Rebound(next, |ts|) && BoundUpTo(ts, src, lib, was, |ts|)
  {
    next := src.index;
    var noTiling := src.index == map[];
    for i := 0 to |ts|
      invariant src.Rebound(next, i) && BoundUpTo(ts, src, lib, was, i)
    {
      end, next := BindNextOutput(ts, i, src, lib, noTiling, was, next);
      if end != Done {
        DimsAfter(src, lib, was, AllDims(ts), i);
        return;
      }
    }
    AllAreBound(ts, src, lib, was);
    end := Done;
  }

  /** The extension message of one call, as far as tensors go. */
  datatype Message = Message(unknownShape: bool, inputRecords: seq<seq<int>>, outputRecords: seq<seq<int>>,
                             inputIndex: map<nat, int>, outputIndex: map<nat, int>)

  /** The dimensions of a context's tensors. */
  datatype Dims = Dims(ins: seq<seq<int>>, outs: seq<seq<int>>)

  /** What a call brings to a context with `n` inputs. */
  datatype Arguments = Arguments(addrs: seq<int>, msg: Message, memory: int -> Reading)
  {
    function Inputs(n: nat): Source {
      Source(false, if n <= |addrs| then addrs[..n]
        else addrs, msg.unknownShape, msg.inputRecords, msg.inputIndex, memory)
    }

    function Outputs(n: nat): Source {
      Source(true, if n <= |addrs| then addrs[n..]
        else [], msg.unknownShape, msg.outputRecords, msg.outputIndex, memory)
    }

    predicate Fits(n: nat, m: nat) {
      |addrs| == n + m && (msg.unknownShape ==> |msg.inputRecords| == n && |msg.outputRecords| == m)
    }

    function Ending(lib: Library, was: Dims): End {
      var n, m := |was.ins|, |was.outs|;
      if !Fits(n, m) then Invalid
      else if Inputs(n).Ending(lib, was.ins, n) != Done then Inputs(n).Ending(lib, was.ins, n)
      else Outputs(n).Ending(lib, was.outs, m)
    }

    /** The dimensions afterwards: the outputs are reached if all inputs are bound. */
    function After(lib: Library, was: Dims): Dims {
      var n, m := |was.ins|, |was.outs|;
      if !Fits(n, m) then was
      else if Inputs(n).Ending(lib, was.ins, n) != Done then was.(ins := Inputs(n).After(lib, was.ins))
      else Dims(Inputs(n).After(lib, was.ins), Outputs(n).After(lib, was.outs))
    }
  }

  /** The size of dimensions in bytes, modulo 2^64. */
  ghost predicate SizeOf(size: int, dims: seq<int>, lib: Library) {
    0 <= size < 0x1_0000_0000_0000_0000 && (size - lib.bytes(dims)) % 0x1_0000_0000_0000_0000 == 0
  }

  /** What input `i` is bound to: the data of its descriptor or else its own address, and the dimensions of its record,
      else of its descriptor, else those from before. */
  ghost predicate InputBound(data: int, dims: seq<int>, args: Arguments, was: seq<int>, i: nat) {
    && i < |args.addrs| && (args.msg.unknownShape ==> i < |args.msg.inputRecords|)
    && (i in args.msg.inputIndex ==> 0 <= args.memory(args.addrs[i]).shape[0] <= 32)
    && data == (if i in args.msg.inputIndex then args.memory(args.addrs[i]).dataAddr else args.addrs[i])
    && dims == if args.msg.unknownShape then DimsOf(args.msg.inputRecords[i])
               else if i in args.msg.inputIndex then
                 args.memory(args.addrs[i]).shape[1..1 + args.memory(args.addrs[i]).shape[0]]
               else was
  }

  /** And output `i` behind `n` inputs; it takes no dimensions from a descriptor. */
  ghost predicate OutputBound(data: int, dims: seq<int>, args: Arguments, was: seq<int>, i: nat, n: nat) {
    && n + i < |args.addrs| && (args.msg.unknownShape ==> i < |args.msg.outputRecords|)
    && data == (if i in args.msg.outputIndex then args.memory(args.addrs[n + i]).dataAddr else args.addrs[n + i])
    && dims == if args.msg.unknownShape then DimsOf(args.msg.outputRecords[i]) else was
  }

  ghost predicate InputsBound(ts: seq<Tensor>, args: Arguments, lib: Library, was: seq<seq<int>>)
    reads ts
  {
    |ts| == |was| && forall i :: 0 <= i < |ts| ==>
      InputBound(ts[i].data, ts[i].dims, args, was[i], i) && SizeOf(ts[i].dataSize, ts[i].dims, lib)
  }

  ghost predicate OutputsBound(ts: seq<Tensor>, args: Arguments, lib: Library, was: seq<seq<int>>, n: nat)
    reads ts
  {
    |ts| == |was| && forall i :: 0 <= i < |ts| ==>
      OutputBound(ts[i].data, ts[i].dims, args, was[i], i, n) && SizeOf(ts[i].dataSize, ts[i].dims, lib)
  }

  /** The rank of input `i`, if it is looked at, is one, and its number of elements is not negative: of the dimensions
      that it takes from its record, else from its descriptor, else from before. */
  ghost predicate InputFine(args: Arguments, lib: Library, was: seq<int>, i: nat) {
    && i < |args.addrs| && (args.msg.unknownShape ==> i < |args.msg.inputRecords|)
    && (i in args.msg.inputIndex ==> 0 <= args.memory(args.addrs[i]).shape[0] <= 32)
    && lib.elements(
         if args.msg.unknownShape then DimsOf(args.msg.inputRecords[i])
         else if i in args.msg.inputIndex then
           args.memory(args.addrs[i]).shape[1..1 + args.memory(args.addrs[i]).shape[0]]
         else was) >= 0
  }

  /** The numbers fit, and all inputs are fine; for outputs the dimensions from before matter, when none of them can
      be unknown. */
  ghost predicate Acceptable(args: Arguments, lib: Library, was: Dims) {
    var n, m, msg := |was.ins|, |was.outs|, args.msg;
    && |args.addrs| == n + m
    && (msg.unknownShape ==> |msg.inputRecords| == n && |msg.outputRecords| == m)
    && (forall i :: 0 <= i < n ==> InputFine(args, lib, was.ins[i], i))
    && (!msg.unknownShape && msg.outputIndex == map[] ==>
          forall i :: 0 <= i < m ==> lib.elements(was.outs[i]) >= 0)
  }

  /** Some descriptor is read past its end: its rank is negative, and no input before it is refused. */
  ghost predicate ReadsOn(args: Arguments, n: nat) {
    exists i :: 0 <= i < n && i < |args.addrs| && i in args.msg.inputIndex && args.memory(args.addrs[i]).shape[0] < 0
  }

  /** Every index of one of the `n` tensors behind address `from` now has that tensor's address, the others what they
      had. */
  ghost predicate Addressed(next: map<nat, int>, index: map<nat, int>, addrs: seq<int>, from: nat, n: nat) {
    next.Keys == index.Keys && forall k :: k in index ==>
      next[k] == if k < n && from + k < |addrs| then addrs[from + k] else index[k]
  }

  /** The dimensions left on input `i` once it is reached: those of its record, else of its descriptor, else those from
      before; also if the rank at the descriptor is none. */
  ghost function LeftOn(args: Arguments, was: seq<int>, i: nat): seq<int>
    requires i < |args.addrs| && (args.msg.unknownShape ==> i < |args.msg.inputRecords|)
  {
    if i in args.msg.inputIndex && !(0 <= args.memory(args.addrs[i]).shape[0] <= 32) then was
    else if args.msg.unknownShape then DimsOf(args.msg.inputRecords[i])
    else if i in args.msg.inputIndex then args.memory(args.addrs[i]).shape[1..1 + args.memory(args.addrs[i]).shape[0]]
    else was
  }

  /** The dimensions left on the inputs: an input is reached if all before it are fine; the others keep theirs. */
  ghost predicate InputsLeft(now: seq<seq<int>>, args: Arguments, lib: Library, was: Dims) {
    |now| == |was.ins| && forall i :: 0 <= i < |now| ==>
      now[i] ==
        if !args.Fits(|was.ins|, |was.outs|) || !(forall j :: 0 <= j < i ==> InputFine(args, lib, was.ins[j], j))
        then was.ins[i] else LeftOn(args, was.ins[i], i)
  }

  /** And on the outputs: those of their records, once all inputs are fine.  With records no output is refused. */
  ghost predicate OutputsLeft(now: seq<seq<int>>, args: Arguments, lib: Library, was: Dims) {
    |now| == |was.outs| && forall i :: 0 <= i < |now| ==>
      now[i] ==
        if args.Fits(|was.ins|, |was.outs|) && args.msg.unknownShape &&
          (forall j :: 0 <= j < |was.ins| ==> InputFine(args, lib, was.ins[j], j))
        then DimsOf(args.msg.outputRecords[i]) else was.outs[i]
  }

  lemma {:induction false} CrashIsOverrun(src: Source, lib: Library, was: seq<seq<int>>, n: nat)
    requires n <= |was| && src.Fits(|was|) && src.Ending(lib, was, n) == Crash
    ensures !src.outputs && exists i :: 0 <= i < n && i in src.index && src.memory(src.addrs[i]).shape[0] < 0
  {
    if src.Ending(lib, was, n - 1) == Crash { CrashIsOverrun(src, lib, was, n - 1); }
  }

  lemma InputsFine(args: Arguments, lib: Library, was: seq<seq<int>>, m: nat)
    requires args.Fits(|was|, m)
    ensures args.Inputs(|was|).Ending(lib, was, |was|) == Done <==>
      forall i :: 0 <= i < |was| ==> InputFine(args, lib, was[i], i)
  {
    var src := args.Inputs(|was|);
    DoneIffBound(src, lib, was, |was|);
    forall i | 0 <= i < |was| ensures src.Bind(lib, i, was[i]).Binding? <==> InputFine(args, lib, was[i], i) {
      assert src.addrs[i] == args.addrs[i];
    }
  }

  lemma OutputsFine(args: Arguments, lib: Library, was: seq<seq<int>>, n: nat)
    requires args.Fits(n, |was|)
    ensures args.Outputs(n).Ending(lib, was, |was|) == Done <==>
      (!args.msg.unknownShape && args.msg.outputIndex == map[] ==>
         forall i :: 0 <= i < |was| ==> lib.elements(was[i]) >= 0)
  {
    var src := args.Outputs(n);
    DoneIffBound(src, lib, was, |was|);
    forall i | 0 <= i < |was|
      ensures src.Bind(lib, i, was[i]).Binding? <==>
        (!args.msg.unknownShape && args.msg.outputIndex == map[] ==> lib.elements(was[i]) >= 0)
    {
    }
  }

  lemma DoneIsAcceptable(args: Arguments, lib: Library, was: Dims)
    ensures args.Ending(lib, was) == Done <==> Acceptable(args, lib, was)
    ensures args.Ending(lib, was) == Crash ==> ReadsOn(args, |was.ins|)
  {
    var n, m := |was.ins|, |was.outs|;
    if args.Fits(n, m) {
      InputsFine(args, lib, was.ins, m);
      OutputsFine(args, lib, was.outs, n);
      if args.Inputs(n).Ending(lib, was.ins, n) == Crash { CrashIsOverrun(args.Inputs(n), lib, was.ins, n); }
      if args.Outputs(n).Ending(lib, was.outs, m) == Crash { CrashIsOverrun(args.Outputs(n), lib, was.outs, m); }
    }
  }

  lemma {:induction false} ReachedIffFine(args: Arguments, lib: Library, was: seq<seq<int>>, m: nat, n: nat)
    requires args.Fits(|was|, m) && n <= |was|
    ensures args.Inputs(|was|).Ending(lib, was, n) == Done <==>
      forall j :: 0 <= j < n ==> InputFine(args, lib, was[j], j)
  {
    var src := args.Inputs(|was|);
    DoneIffBound(src, lib, was, n);
    forall i | 0 <= i < n ensures src.Bind(lib, i, was[i]).Binding? <==> InputFine(args, lib, was[i], i) {
      assert src.addrs[i] == args.addrs[i];
    }
  }

  /** With records no output is refused. */
  lemma {:induction false} OutputsReached(args: Arguments, lib: Library, was: seq<seq<int>>, n: nat)
    requires args.Fits(n, |was|) && args.msg.unknownShape
    ensures forall i :: 0 <= i <= |was| ==> args.Outputs(n).Ending(lib, was, i) == Done
  {
    forall i | 0 <= i <= |was| ensures args.Outputs(n).Ending(lib, was, i) == Done {
      DoneIffBound(args.Outputs(n), lib, was, i);
    }
  }

  /** Input `i` is reached if all before it are fine. */
  lemma InputLeft(args: Arguments, lib: Library, was: seq<seq<int>>, m: nat, i: nat)
    requires args.Fits(|was|, m) && i < |was|
    ensures var now := args.Inputs(|was|).After(lib, was);
      |now| == |was| && now[i] ==
        if !(forall j :: 0 <= j < i ==> InputFine(args, lib, was[j], j)) then was[i] else
        LeftOn(args, was[i], i)
  {
    ReachedIffFine(args, lib, was, m, i);
    assert args.Inputs(|was|).addrs[i] == args.addrs[i];
  }

  lemma InputsAreLeft(args: Arguments, lib: Library, was: Dims)
    requires args.Fits(|was.ins|, |was.outs|)
    ensures InputsLeft(args.Inputs(|was.ins|).After(lib, was.ins), args, lib, was)
  {
    forall i | 0 <= i < |was.ins| { InputLeft(args, lib, was.ins, |was.outs|, i); }
  }

  lemma OutputsAreLeft(args: Arguments, lib: Library, was: Dims)
    requires args.Fits(|was.ins|, |was.outs|) && forall j :: 0 <= j < |was.ins| ==> InputFine(args, lib, was.ins[j], j)
    ensures OutputsLeft(args.Outputs(|was.ins|).After(lib, was.outs), args, lib, was)
  {
    if args.msg.unknownShape { OutputsReached(args, lib, was.outs, |was.ins|); }
  }

  /** The dimensions that a call leaves, whether it is refused or not. */
  lemma AfterIsLeft(args: Arguments, lib: Library, was: Dims)
    ensures InputsLeft(args.After(lib, was).ins, args, lib, was)
    ensures OutputsLeft(args.After(lib, was).outs, args, lib, was)
  {
    var n, m := |was.ins|, |was.outs|;
    if args.Fits(n, m) {
      InputsAreLeft(args, lib, was);
      ReachedIffFine(args, lib, was.ins, m, n);
      if args.Inputs(n).Ending(lib, was.ins, n) == Done { OutputsAreLeft(args, lib, was); }
    }
  }

  lemma ReboundAddresses(args: Arguments, n: nat, m: nat, ins: map<nat, int>, outs: map<nat, int>)
    requires args.Fits(n, m) && args.Inputs(n).Rebound(ins, n) && args.Outputs(n).Rebound(outs, m)
    ensures Addressed(ins, args.msg.inputIndex, args.addrs, 0, n)
    ensures Addressed(outs, args.msg.outputIndex, args.addrs, n, m)
  {
    assert forall k :: 0 <= k < n ==> args.Inputs(n).addrs[k] == args.addrs[k];
    assert forall k :: 0 <= k < m ==> args.Outputs(n).addrs[k] == args.addrs[n + k];
  }

  /** The inputs, and then the outputs. */
  method BindTensors(args: Arguments, inputs: seq<Tensor>, outputs: seq<Tensor>, lib: Library, ghost was: Dims)
    returns (end: End, next: Message)
    requires AllDifferent(inputs) && AllDifferent(outputs)
    requires forall i, j :: 0 <= i < |inputs| && 0 <= j < |outputs| ==> inputs[i] != outputs[j]
    requires was == Dims(AllDims(inputs), AllDims(outputs))
    modifies inputs, outputs
    ensures end == args.Ending(lib, was)
    ensures Dims(AllDims(inputs), AllDims(outputs)) == args.After(lib, was)
    ensures end == Done ==> args.Fits(|inputs|, |outputs|)
    ensures end == Done ==>
      BoundUpTo(inputs, args.Inputs(|inputs|), lib, was.ins, |inputs|) &&
      args.Inputs(|inputs|).Rebound(next.inputIndex, |inputs|)
    ensures end == Done ==>
      BoundUpTo(outputs, args.Outputs(|inputs|), lib, was.outs, |outputs|) &&
      args.Outputs(|inputs|).Rebound(next.outputIndex, |outputs|)
  {
    var msg := args.msg;
    next := msg;
    if |args.addrs| != |inputs| + |outputs| { return Invalid, next; }
    if msg.unknownShape && (|msg.inputRecords| != |inputs| || |msg.outputRecords| != |outputs|) {
      return Invalid, next;
    }
    var ins, outs := args.Inputs(|inputs|), args.Outputs(|inputs|);
    var inputIndex, outputIndex;
    end, inputIndex := BindInputs(inputs, ins, lib, was.ins);
    assert AllDims(outputs) == was.outs;
    if end != Done { return; }
    end, outputIndex := BindOutputs(outputs, outs, lib, was.outs);
    assert AllDims(inputs) == ins.After(lib, was.ins);
    if end != Done { return; }
    next := msg.(inputIndex := inputIndex, outputIndex := outputIndex);
  }

  /** `UpdateTensor`: it ends well exactly if the call is acceptable, and leaves dimensions either way
      (`AfterIsLeft`).  If it ends well every tensor is bound to its own address of this call, directly or through the
      descriptor there, and every unknown-shape index in range holds that address. */
  method UpdateTensor(args: Arguments, inputs: seq<Tensor>, outputs: seq<Tensor>, lib: Library)
    returns (end: End, next: Message)
    requires AllDifferent(inputs) && AllDifferent(outputs)
    requires forall i, j :: 0 <= i < |inputs| && 0 <= j < |outputs| ==> inputs[i] != outputs[j]
    modifies inputs, outputs
    ensures end == args.Ending(lib, old(Dims(AllDims(inputs), AllDims(outputs))))
    ensures Dims(AllDims(inputs), AllDims(outputs)) == args.After(lib, old(Dims(AllDims(inputs), AllDims(outputs))))
    ensures end == Done <==> Acceptable(args, lib, old(Dims(AllDims(inputs), AllDims(outputs))))
    ensures end == Crash ==> ReadsOn(args, |inputs|)
    ensures end == Done ==> InputsBound(inputs, args, lib, old(AllDims(inputs)))
    ensures end == Done ==> OutputsBound(outputs, args, lib, old(AllDims(outputs)), |inputs|)
    ensures end == Done ==> Addressed(next.inputIndex, args.msg.inputIndex, args.addrs, 0, |inputs|)
    ensures end == Done ==> Addressed(next.outputIndex, args.msg.outputIndex, args.addrs, |inputs|, |outputs|)
  {
    ghost var was := Dims(AllDims(inputs), AllDims(outputs));
    end, next := BindTensors(args, inputs, outputs, lib, was);
    DoneIsAcceptable(args, lib, was);
    if end == Done {
      ReboundAddresses(args, |inputs|, |outputs|, next.inputIndex, next.outputIndex);
      InputsCarry(inputs, args, lib, was.ins, |outputs|);
      OutputsCarry(outputs, args, lib, was.outs, |inputs|);
    }
  }

  lemma InputCarries(b: Binding, args: Arguments, lib: Library, was: seq<seq<int>>, m: nat, i: nat)
    requires i < |was| && args.Fits(|was|, m) && b.Binding? && b == args.Inputs(|was|).Bind(lib, i, was[i])
    ensures InputBound(b.data, b.dims, args, was[i], i) && SizeOf(b.dataSize, b.dims, lib)
  {
    assert args.Inputs(|was|).Sound(i) && args.Inputs(|was|).addrs[i] == args.addrs[i];
  }

  lemma OutputCarries(b: Binding, args: Arguments, lib: Library, was: seq<seq<int>>, n: nat, i: nat)
    requires i < |was| && args.Fits(n, |was|) && b.Binding? && b == args.Outputs(n).Bind(lib, i, was[i])
    ensures OutputBound(b.data, b.dims, args, was[i], i, n) && SizeOf(b.dataSize, b.dims, lib)
  {
    assert args.Outputs(n).addrs[i] == args.addrs[n + i] && args.Outputs(n).Sound(i);
  }

  lemma InputsCarry(ts: seq<Tensor>, args: Arguments, lib: Library, was: seq<seq<int>>, m: nat)
    requires |ts| == |was| && args.Fits(|was|, m) && BoundUpTo(ts, args.Inputs(|was|), lib, was, |ts|)
    ensures InputsBound(ts, args, lib, was)
  {
    DoneIffBound(args.Inputs(|was|), lib, was, |was|);
    forall i | 0 <= i < |ts|
      ensures InputBound(ts[i].data, ts[i].dims, args, was[i], i) && SizeOf(ts[i].dataSize, ts[i].dims, lib)
    {
      InputCarries(ts[i].Bound(), args, lib, was, m, i);
    }
  }

  lemma OutputsCarry(ts: seq<Tensor>, args: Arguments, lib: Library, was: seq<seq<int>>, n: nat)
    requires |ts| == |was| && args.Fits(n, |was|) && BoundUpTo(ts, args.Outputs(n), lib, was, |ts|)
    ensures OutputsBound(ts, args, lib, was, n)
  {
    DoneIffBound(args.Outputs(n), lib, was, |was|);
    forall i | 0 <= i < |ts|
      ensures OutputBound(ts[i].data, ts[i].dims, args, was[i], i, n) && SizeOf(ts[i].dataSize, ts[i].dims, lib)
    {
      OutputCarries(ts[i].Bound(), args, lib, was, n, i);
    }
  }
}
