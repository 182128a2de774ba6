/** Extension messages: the type-length-value records that `ParseExtMsg` (ops/built-in/cpu_kernel_cache.cc)
    and, before it, `ParseExtSessionInfo` (ops/built-in/device_cpu_kernel.cc) walk over.  Record layouts are
    declared in a header that is not part of this model, so sizes and field decoders are parameters. */
module ExtMsg {
  import opened Arith
  import opened Wrappers

  type Bytes = seq<bv8>

  datatype Kind = ShapeType | InputShape | OutputShape | Session | BitMap | TopicType | AsyncWait
                | UnknownShapeInputIndex | UnknownShapeOutputIndex | Ignored

  /** `head` is both the size of a record's fixed part and what the offset advances by besides `infoLen`. */
  datatype Layout = Layout(
    head: nat, shapeAndTypeSize: nat, sessionSize: nat, asyncWaitSize: nat, waitNull: nat, waitInvalid: nat,
    kindOf: Bytes -> Kind, lenOf: Bytes -> nat,
    kernelId: Bytes -> nat, word: Bytes -> nat, waitType: Bytes -> nat, waitId: Bytes -> nat)
  {
    predicate Valid() { 0 < head && 0 < shapeAndTypeSize }
  }

  /** `ExtInfoMsg`; shapes are kept as addresses in the buffer. */
  datatype Msg = Msg(hasSessInfo: bool, kernelId: nat, unknownShape: bool, asyncFlag: bool, hostFlag: bool,
                     waitType: nat, waitId: nat, inputShapes: seq<nat>, outputShapes: seq<nat>,
                     inputIndex: map<nat, nat>, outputIndex: map<nat, nat>)

  const EMPTY := Msg(false, 0, false, false, false, 0, 0, [], [], map[], map[])

  datatype Record = Record(header: Bytes, info: Bytes)

  predicate Good(l: Layout, r: Record) {
    |r.header| == l.head && l.lenOf(r.header) == |r.info|
  }

  function Flat(rs: seq<Record>): Bytes {
    if rs == [] then [] else Flat(rs[..|rs| - 1]) + rs[|rs| - 1].header + rs[|rs| - 1].info
  }

  /** Addresses of the whole elements of `width` bytes in `bytes` bytes from `at`, and whether they fill them. */
  function Addresses(at: nat, width: nat, bytes: nat): seq<nat>
    requires 0 < width
    decreases bytes
  {
    if bytes < width then [] else [at] + Addresses(at + width, width, bytes - width)
  }

  predicate Multiple(bytes: nat, width: nat)
    requires 0 < width
    decreases bytes
  {
    if bytes < width then bytes == 0 else Multiple(bytes - width, width)
  }

  /** Element `k` is `k` elements from the start. */
  lemma {:induction false} AddressesAt(at: nat, width: nat, bytes: nat)
    requires 0 < width
    ensures |Addresses(at, width, bytes)| == bytes / width
    ensures forall k :: 0 <= k < bytes / width ==> Addresses(at, width, bytes)[k] == at + k * width
    decreases bytes
  {
    if width <= bytes {
      AddressesAt(at + width, width, bytes - width);
      OneLess(bytes, width);
      forall k | 0 < k < bytes / width ensures Addresses(at, width, bytes)[k] == at + k * width {
        OneFurther(k, width);
      }
    } else {
      Few(bytes, width);
    }
  }

  lemma {:induction false} MultipleExactly(bytes: nat, width: nat)
    requires 0 < width
    ensures Multiple(bytes, width) <==> bytes % width == 0
    decreases bytes
  {
    if width <= bytes {
      MultipleExactly(bytes - width, width);
      OneLess(bytes, width);
    } else {
      Few(bytes, width);
    }
  }

  lemma OneFurther(k: int, width: int)
    ensures (k - 1) * width + width == k * width
  {
  }

  lemma Few(bytes: nat, width: nat)
    requires bytes < width
    ensures bytes / width == 0 && bytes % width == bytes
  {
  }

  lemma OneLess(bytes: nat, width: nat)
    requires 0 < width <= bytes
    ensures bytes / width == (bytes - width) / width + 1 && bytes % width == (bytes - width) % width
  {
    var q, r := (bytes - width) / width, (bytes - width) % width;
    assert bytes == (q + 1) * width + r;
    DivModUnique(bytes, width, q + 1, r);
  }

  /** The indices in an unknown-shape record, all bound to 0 for now. */
  function Indexed(l: Layout, info: Bytes, m: map<nat, nat>): map<nat, nat> {
    if |info| < 4 then m else Indexed(l, info[4..], m[l.word(info[..4]) := 0])
  }

  /** One record's handler: the new message, or None with the error status.  `at` is the address of the
      record's info. */
  function Handle(l: Layout, m: Msg, kind: Kind, at: nat, info: Bytes): Option<Msg>
    requires l.Valid()
  {
    match kind
    case ShapeType => if |info| != 4 then None else Some(m.(unknownShape := true))
    case InputShape =>
      if !m.unknownShape then Some(m)
      else if !Multiple(|info|, l.shapeAndTypeSize) then None
      else Some(m.(inputShapes := m.inputShapes + Addresses(at, l.shapeAndTypeSize, |info|)))
    case OutputShape =>
      if !m.unknownShape then Some(m)
      else if !Multiple(|info|, l.shapeAndTypeSize) then None
      else Some(m.(outputShapes := m.outputShapes + Addresses(at, l.shapeAndTypeSize, |info|)))
    case Session => if |info| != l.sessionSize then None
      else Some(m.(hasSessInfo := true, kernelId := l.kernelId(info)))
    case BitMap => if |info| != 8 then None else Some(m.(unknownShape := l.word(info) % 2 == 0))
    case TopicType => if |info| != 4 then None else Some(m.(hostFlag := l.word(info) / 128 % 2 == 1))
    case AsyncWait =>
      if |info| != l.asyncWaitSize then None
      else
        var w := l.waitType(info);
        Some(m.(waitType := w, waitId := l.waitId(info),
                asyncFlag := m.asyncFlag || (w != l.waitNull && w != l.waitInvalid)))
    case UnknownShapeInputIndex => if |info| % 4 != 0 then None
      else Some(m.(inputIndex := Indexed(l, info, m.inputIndex)))
    case UnknownShapeOutputIndex => if |info| % 4 != 0 then None
      else Some(m.(outputIndex := Indexed(l, info, m.outputIndex)))
    case Ignored => Some(m)
  }

  /** The left fold of the handlers over the records; None once one has failed. */
  function Fold(l: Layout, rs: seq<Record>): Option<Msg>
    requires l.Valid()
  {
    if rs == [] then Some(EMPTY) else
    var before, r := rs[..|rs| - 1], rs[|rs| - 1];
    match Fold(l, before)
    case None => None
    case Some(m) => Handle(l, m, l.kindOf(r.header), |Flat(before)| + l.head, r.info)
  }

  lemma {:induction false} FoldFails(l: Layout, rs: seq<Record>, k: nat)
    requires l.Valid() && k <= |rs| && Fold(l, rs[..k]).None?
    ensures Fold(l, rs).None?
    decreases |rs|
  {
    if k == |rs| {
      assert rs[..k] == rs;
    } else {
      assert rs[..|rs| - 1][..k] == rs[..k];
      FoldFails(l, rs[..|rs| - 1], k);
    }
  }

  /** Where record `k` of a buffer starts, and what follows it. */
  lemma {:induction false} FlatAt(l: Layout, rs: seq<Record>, tail: Bytes, k: nat)
    requires k < |rs| && forall i :: 0 <= i < |rs| ==> Good(l, rs[i])
    ensures var o, buf := |Flat(rs[..k])|, Flat(rs) + tail;
            && o + l.head + |rs[k].info| <= |Flat(rs)|
            && buf[o..o + l.head] == rs[k].header
            && buf[o + l.head..o + l.head + |rs[k].info|] == rs[k].info
            && |Flat(rs[..k + 1])| == o + l.head + |rs[k].info|
    decreases |rs|
  {
    var last := |rs| - 1;
    assert rs[..k + 1][..k] == rs[..k];
    if k < last {
      assert rs[..last][..k] == rs[..k];
      FlatAt(l, rs[..last], rs[last].header + rs[last].info + tail, k);
      assert Flat(rs) + tail == Flat(rs[..last]) + (rs[last].header + rs[last].info + tail);
    } else {
      assert rs[..k + 1] == rs;
    }
  }

  /** On a well-formed message, perhaps with a few bytes after it, the loop visits each record once, in
      order, and computes the fold of their handlers. */
  method ParseExtMsg(l: Layout, buf: Bytes, ghost rs: seq<Record>, ghost tail: Bytes) returns (ret: Option<Msg>)
    requires l.Valid() && buf == Flat(rs) + tail && |tail| < l.head
    requires forall i :: 0 <= i < |rs| ==> Good(l, rs[i])
    ensures ret == Fold(l, rs)
  {
    var msg := EMPTY;
    var offset := 0;
    ghost var k := 0;
    while offset + l.head <= |buf|
      invariant 0 <= k <= |rs| && offset == |Flat(rs[..k])| && Fold(l, rs[..k]) == Some(msg)
      decreases |rs| - k
    {
      var handled, next := ParseRecord(l, buf, rs, tail, k, msg, offset);
      if handled.None? {
        FoldFails(l, rs, k + 1);
        return None;
      }
      msg := handled.value;
      offset := next;
      k := k + 1;
    }
    LastRecord(l, rs, tail, k);
    ret := Some(msg);
  }

  /** The record at `offset`. */
  method ReadRecord(l: Layout, buf: Bytes, ghost rs: seq<Record>, ghost tail: Bytes, ghost k: nat, offset: nat)
    returns (kind: Kind, info: Bytes)
    requires l.Valid() && buf == Flat(rs) + tail && |tail| < l.head && k <= |rs|
    requires forall i :: 0 <= i < |rs| ==> Good(l, rs[i])
    requires offset == |Flat(rs[..k])| && offset + l.head <= |buf|
    ensures k < |rs| && kind == KindAt(l, rs, k) && info == rs[k].info
    ensures offset + l.head + |info| == |Flat(rs[..k + 1])|
  {
    NextRecord(l, rs, tail, k);
    var header := buf[offset..offset + l.head];
    var infoLen := l.lenOf(header);
    kind, info := l.kindOf(header), buf[offset + l.head..offset + l.head + infoLen];
  }

  /** One round: the record at `offset` is handled, and the next one found behind its info. */
  method ParseRecord(l: Layout, buf: Bytes, ghost rs: seq<Record>, ghost tail: Bytes, ghost k: nat, msg: Msg,
                     offset: nat)
    returns (handled: Option<Msg>, next: nat)
    requires l.Valid() && buf == Flat(rs) + tail && |tail| < l.head && k <= |rs|
    requires forall i :: 0 <= i < |rs| ==> Good(l, rs[i])
    requires offset == |Flat(rs[..k])| && offset + l.head <= |buf| && Fold(l, rs[..k]) == Some(msg)
    ensures k < |rs| && handled == Fold(l, rs[..k + 1]) && next == |Flat(rs[..k + 1])|
  {
    var kind, info := ReadRecord(l, buf, rs, tail, k, offset);
    FoldOneMore(l, rs, k, msg);
    next := offset + l.head;
    handled := Handle(l, msg, kind, next, info);
    next := next + |info|;
  }

  lemma FoldOneMore(l: Layout, rs: seq<Record>, k: nat, msg: Msg)
    requires l.Valid() && k < |rs| && Fold(l, rs[..k]) == Some(msg)
    ensures Fold(l, rs[..k + 1]) == Handle(l, msg, l.kindOf(rs[k].header), |Flat(rs[..k])| + l.head, rs[k].info)
  {
    assert rs[..k + 1][..k] == rs[..k];
  }

  lemma NextRecord(l: Layout, rs: seq<Record>, tail: Bytes, k: nat)
    requires l.Valid() && k <= |rs| && |tail| < l.head && forall i :: 0 <= i < |rs| ==> Good(l, rs[i])
    requires |Flat(rs[..k])| + l.head <= |Flat(rs) + tail|
    ensures k < |rs|
    ensures var o, buf := |Flat(rs[..k])|, Flat(rs) + tail;
            && o + l.head + |rs[k].info| <= |buf|
            && buf[o..o + l.head] == rs[k].header
            && buf[o + l.head..o + l.head + |rs[k].info|] == rs[k].info
            && |Flat(rs[..k + 1])| == o + l.head + |rs[k].info|
  {
    assert rs[..|rs|] == rs;
    FlatAt(l, rs, tail, k);
  }

  lemma LastRecord(l: Layout, rs: seq<Record>, tail: Bytes, k: nat)
    requires l.Valid() && k <= |rs| && forall i :: 0 <= i < |rs| ==> Good(l, rs[i])
    requires |Flat(rs[..k])| + l.head > |Flat(rs) + tail|
    ensures rs[..k] == rs
  {
    if k < |rs| { FlatAt(l, rs, tail, k); }
  }

  // ---- What the fold comes to, record by record ----

  function KindAt(l: Layout, rs: seq<Record>, i: nat): Kind
    requires i < |rs|
  {
    l.kindOf(rs[i].header)
  }

  /** A record whose length its handler accepts; shape records are only looked at while shapes are unknown. */
  predicate LengthOk(l: Layout, r: Record, unknown: bool)
    requires l.Valid()
  {
    match l.kindOf(r.header)
    case ShapeType => |r.info| == 4
    case InputShape => unknown ==> |r.info| % l.shapeAndTypeSize == 0
    case OutputShape => unknown ==> |r.info| % l.shapeAndTypeSize == 0
    case Session => |r.info| == l.sessionSize
    case BitMap => |r.info| == 8
    case TopicType => |r.info| == 4
    case AsyncWait => |r.info| == l.asyncWaitSize
    case UnknownShapeInputIndex => |r.info| % 4 == 0
    case UnknownShapeOutputIndex => |r.info| % 4 == 0
    case Ignored => true
  }

  /** The last record of a kind. */
  function LastOf(l: Layout, rs: seq<Record>, kind: Kind): Option<Record> {
    if rs == [] then None
    else if l.kindOf(rs[|rs| - 1].header) == kind then Some(rs[|rs| - 1])
    else LastOf(l, rs[..|rs| - 1], kind)
  }

  lemma HandleSucceeds(l: Layout, m: Msg, r: Record, at: nat)
    requires l.Valid()
    ensures var handled := Handle(l, m, l.kindOf(r.header), at, r.info);
            && (handled.Some? <==> LengthOk(l, r, m.unknownShape))
            && (handled.Some? ==> handled.value.unknownShape == match l.kindOf(r.header)
                                    case ShapeType => true
                                    case BitMap => l.word(r.info) % 2 == 0
                                    case _ => m.unknownShape)
  {
    MultipleExactly(|r.info|, l.shapeAndTypeSize);
  }

  /** Of the shape-type and bitmap records before record `i` the last one is record `j`. */
  ghost predicate LastFlag(l: Layout, rs: seq<Record>, i: nat, j: nat)
    requires i <= |rs|
  {
    && j < i && (KindAt(l, rs, j) == ShapeType || KindAt(l, rs, j) == BitMap)
    && forall k :: j < k < i ==> KindAt(l, rs, k) != ShapeType && KindAt(l, rs, k) != BitMap
  }

  /** Shapes are unknown when record `i` is reached: that is a shape-type record, or a bitmap with bit 0 clear. */
  ghost predicate UnknownAt(l: Layout, rs: seq<Record>, i: nat)
    requires i <= |rs|
  {
    exists j: nat :: LastFlag(l, rs, i, j) && (KindAt(l, rs, j) == ShapeType || l.word(rs[j].info) % 2 == 0)
  }

  lemma UnknownNext(l: Layout, rs: seq<Record>, i: nat)
    requires i < |rs|
    ensures UnknownAt(l, rs, i + 1) ==
      match KindAt(l, rs, i)
      case ShapeType => true
      case BitMap => l.word(rs[i].info) % 2 == 0
      case _ => UnknownAt(l, rs, i)
  {
    var kind := KindAt(l, rs, i);
    if kind == ShapeType || kind == BitMap {
      assert LastFlag(l, rs, i + 1, i);
    } else {
      assert forall j: nat :: LastFlag(l, rs, i + 1, j) <==> LastFlag(l, rs, i, j);
    }
  }

  ghost predicate RecordOk(l: Layout, rs: seq<Record>, i: nat)
    requires l.Valid() && i < |rs|
  {
    LengthOk(l, rs[i], UnknownAt(l, rs, i))
  }

  /** Every record has a length its handler accepts under the unknown-shape flag in force when it is reached. */
  ghost predicate LengthsOk(l: Layout, rs: seq<Record>)
    requires l.Valid()
  {
    forall i :: 0 <= i < |rs| ==> RecordOk(l, rs, i)
  }

  lemma FoldStep(l: Layout, rs: seq<Record>, n: nat) returns (at: nat)
    requires l.Valid() && n < |rs|
    ensures at == |Flat(rs[..n])| + l.head
    ensures Fold(l, rs[..n + 1]) == match Fold(l, rs[..n])
                                    case None => None
                                    case Some(m) => Handle(l, m, KindAt(l, rs, n), at, rs[n].info)
  {
    at := |Flat(rs[..n])| + l.head;
    assert rs[..n + 1][..n] == rs[..n];
  }

  /** The flag is the one in force. */
  lemma {:induction false} FlagInForce(l: Layout, rs: seq<Record>, n: nat)
    requires l.Valid() && n <= |rs| && Fold(l, rs[..n]).Some?
    ensures Fold(l, rs[..n]).value.unknownShape == UnknownAt(l, rs, n)
  {
    if n > 0 {
      var at := FoldStep(l, rs, n - 1);
      FlagInForce(l, rs, n - 1);
      UnknownNext(l, rs, n - 1);
      HandleSucceeds(l, Fold(l, rs[..n - 1]).value, rs[n - 1], at);
    }
  }

  lemma StepSucceeds(l: Layout, rs: seq<Record>, n: nat)
    requires l.Valid() && n < |rs|
    ensures Fold(l, rs[..n + 1]).Some? <==> Fold(l, rs[..n]).Some? && RecordOk(l, rs, n)
  {
    var at := FoldStep(l, rs, n);
    if Fold(l, rs[..n]).Some? {
      FlagInForce(l, rs, n);
      HandleSucceeds(l, Fold(l, rs[..n]).value, rs[n], at);
    }
  }

  lemma {:induction false} FoldSucceeds(l: Layout, rs: seq<Record>, n: nat)
    requires l.Valid() && n <= |rs|
    ensures Fold(l, rs[..n]).Some? <==> forall i :: 0 <= i < n ==> RecordOk(l, rs, i)
  {
    if n > 0 {
      FoldSucceeds(l, rs, n - 1);
      StepSucceeds(l, rs, n - 1);
    }
  }

  /** Main result: parsing succeeds exactly if all lengths are accepted, and leaves the flag of the last
      record that sets it. */
  lemma SucceedsExactly(l: Layout, rs: seq<Record>)
    requires l.Valid()
    ensures Fold(l, rs).Some? <==> LengthsOk(l, rs)
    ensures Fold(l, rs).Some? ==> Fold(l, rs).value.unknownShape == UnknownAt(l, rs, |rs|)
  {
    assert rs[..|rs|] == rs;
    FoldSucceeds(l, rs, |rs|);
    if Fold(l, rs).Some? { FlagInForce(l, rs, |rs|); }
  }

  /** Whether a record asks for an asynchronous run. */
  predicate AsksAsync(l: Layout, r: Record) {
    l.kindOf(r.header) == AsyncWait && l.waitType(r.info) != l.waitNull && l.waitType(r.info) != l.waitInvalid
  }

  /** The words of one record's info. */
  function WordsOf(l: Layout, info: Bytes): set<nat> {
    if |info| < 4 then {} else {l.word(info[..4])} + WordsOf(l, info[4..])
  }

  /** The words of all records of a kind. */
  function Indexes(l: Layout, rs: seq<Record>, kind: Kind): set<nat> {
    if rs == [] then {} else
    var r := rs[|rs| - 1];
    Indexes(l, rs[..|rs| - 1], kind) + if l.kindOf(r.header) == kind then WordsOf(l, r.info) else {}
  }

  function ZeroAt(keys: set<nat>): map<nat, nat> {
    map k | k in keys :: 0
  }

  lemma {:induction false} IndexedIs(l: Layout, info: Bytes, keys: set<nat>)
    ensures Indexed(l, info, ZeroAt(keys)) == ZeroAt(keys + WordsOf(l, info))
  {
    if |info| >= 4 {
      var word := l.word(info[..4]);
      assert ZeroAt(keys)[word := 0] == ZeroAt(keys + {word});
      IndexedIs(l, info[4..], keys + {word});
      assert keys + {word} + WordsOf(l, info[4..]) == keys + WordsOf(l, info);
    } else {
      assert keys + {} == keys;
    }
  }

  lemma {:induction false} CollectedIndexes(l: Layout, rs: seq<Record>)
    requires l.Valid() && Fold(l, rs).Some?
    ensures Fold(l, rs).value.inputIndex == ZeroAt(Indexes(l, rs, UnknownShapeInputIndex))
    ensures Fold(l, rs).value.outputIndex == ZeroAt(Indexes(l, rs, UnknownShapeOutputIndex))
  {
    if rs != [] {
      var before, r := rs[..|rs| - 1], rs[|rs| - 1];
      CollectedIndexes(l, before);
      HandleIndexes(l, Fold(l, before).value, r, |Flat(before)| + l.head);
      IndexedIs(l, r.info, Indexes(l, before, UnknownShapeInputIndex));
      IndexedIs(l, r.info, Indexes(l, before, UnknownShapeOutputIndex));
      assert Indexes(l, before, UnknownShapeInputIndex) + {} == Indexes(l, before, UnknownShapeInputIndex);
      assert Indexes(l, before, UnknownShapeOutputIndex) + {} == Indexes(l, before, UnknownShapeOutputIndex);
    }
  }

  lemma HandleIndexes(l: Layout, m: Msg, r: Record, at: nat)
    requires l.Valid() && Handle(l, m, l.kindOf(r.header), at, r.info).Some?
    ensures var next, kind := Handle(l, m, l.kindOf(r.header), at, r.info).value, l.kindOf(r.header);
            && next.inputIndex == (if kind == UnknownShapeInputIndex then Indexed(l, r.info, m.inputIndex)
              else m.inputIndex)
            && next.outputIndex == (if kind == UnknownShapeOutputIndex then Indexed(l, r.info, m.outputIndex)
              else m.outputIndex)
  {
  }

  /** Record `i` is a shape record of this kind that comes while shapes are unknown. */
  ghost predicate Looked(l: Layout, rs: seq<Record>, kind: Kind, i: nat)
    requires i < |rs|
  {
    KindAt(l, rs, i) == kind && UnknownAt(l, rs, i)
  }

  /** Their addresses, from the first `n` records. */
  ghost function Shapes(l: Layout, rs: seq<Record>, kind: Kind, n: nat): seq<nat>
    requires l.Valid() && n <= |rs|
  {
    if n == 0 then [] else
    var at := |Flat(rs[..n - 1])| + l.head;
    Shapes(l, rs, kind, n - 1)
    + if Looked(l, rs, kind, n - 1) then Addresses(at, l.shapeAndTypeSize, |rs[n - 1].info|) else []
  }

  /** The number of shapes in the shape records of one kind that come while shapes are unknown. */
  ghost function Count(l: Layout, rs: seq<Record>, kind: Kind, n: nat): nat
    requires l.Valid() && n <= |rs|
  {
    if n == 0 then 0 else
    Count(l, rs, kind, n - 1) + if Looked(l, rs, kind, n - 1) then |rs[n - 1].info| / l.shapeAndTypeSize else 0
  }

  /** Of these addresses the ones from `from` to `to` are `width` apart and start with `at`. */
  ghost predicate InOrder(addrs: seq<nat>, from: nat, to: nat, at: nat, width: nat) {
    && to <= |addrs| && (from < to ==> addrs[from] == at)
    && forall p :: from < p < to ==> addrs[p] == addrs[p - 1] + width
  }

  /** Of the shapes those from `Count(.., i)` are the ones of record `i`, each at its place behind the record's head. */
  ghost predicate RecordShapes(l: Layout, rs: seq<Record>, kind: Kind, i: nat, shapes: seq<nat>)
    requires l.Valid() && i < |rs|
  {
    InOrder(shapes, Count(l, rs, kind, i), Count(l, rs, kind, i + 1), |Flat(rs[..i])| + l.head, l.shapeAndTypeSize)
  }

  ghost predicate AreShapes(l: Layout, rs: seq<Record>, kind: Kind, shapes: seq<nat>)
    requires l.Valid()
  {
    |shapes| == Count(l, rs, kind, |rs|) && forall i :: 0 <= i < |rs| ==> RecordShapes(l, rs, kind, i, shapes)
  }

  lemma AddressesBehind(s: seq<nat>, at: nat, width: nat, bytes: nat)
    requires 0 < width
    ensures var all := s + Addresses(at, width, bytes);
      |all| == |s| + bytes / width && InOrder(all, |s|, |all|, at, width)
  {
    AddressesAt(at, width, bytes);
    var own := Addresses(at, width, bytes);
    forall k | 0 < k < |own| ensures own[k] == own[k - 1] + width { OneFurther(k, width); }
  }

  lemma {:induction false} CountIs(l: Layout, rs: seq<Record>, kind: Kind, n: nat)
    requires l.Valid() && n <= |rs|
    ensures |Shapes(l, rs, kind, n)| == Count(l, rs, kind, n)
  {
    if n > 0 {
      CountIs(l, rs, kind, n - 1);
      CountNext(l, rs, kind, n - 1);
      var at := |Flat(rs[..n - 1])| + l.head;
      ShapesNext(l, rs, kind, n - 1, at);
      AddressesAt(at, l.shapeAndTypeSize, |rs[n - 1].info|);
    }
  }

  lemma RecordShapesAre(l: Layout, rs: seq<Record>, kind: Kind, i: nat)
    requires l.Valid() && i < |rs|
    ensures var before, after := Shapes(l, rs, kind, i), Shapes(l, rs, kind, i + 1);
      before <= after && InOrder(after, |before|, |after|, |Flat(rs[..i])| + l.head, l.shapeAndTypeSize)
  {
    var at := |Flat(rs[..i])| + l.head;
    ShapesNext(l, rs, kind, i, at);
    if Looked(l, rs, kind, i) {
      AddressesBehind(Shapes(l, rs, kind, i), at, l.shapeAndTypeSize, |rs[i].info|);
    }
  }

  lemma CountNext(l: Layout, rs: seq<Record>, kind: Kind, i: nat)
    requires l.Valid() && i < |rs|
    ensures Count(l, rs, kind, i + 1) ==
      if Looked(l, rs, kind, i) then Count(l, rs, kind, i) + |rs[i].info| / l.shapeAndTypeSize
      else Count(l, rs, kind, i)
  {
  }

  lemma ShapesNext(l: Layout, rs: seq<Record>, kind: Kind, i: nat, at: nat)
    requires l.Valid() && i < |rs| && at == |Flat(rs[..i])| + l.head
    ensures Shapes(l, rs, kind, i + 1) ==
      if Looked(l, rs, kind, i) then Shapes(l, rs, kind, i) + Addresses(at, l.shapeAndTypeSize, |rs[i].info|)
      else Shapes(l, rs, kind, i)
  {
    assert Shapes(l, rs, kind, i) + [] == Shapes(l, rs, kind, i);
  }

  lemma {:induction false} ShapesStay(l: Layout, rs: seq<Record>, kind: Kind, m: nat, n: nat)
    requires l.Valid() && m <= n <= |rs|
    ensures Shapes(l, rs, kind, m) <= Shapes(l, rs, kind, n)
  {
    if m < n {
      ShapesStay(l, rs, kind, m, n - 1);
      RecordShapesAre(l, rs, kind, n - 1);
    }
  }

  lemma InOrderStays(before: seq<nat>, after: seq<nat>, from: nat, to: nat, at: nat, width: nat)
    requires before <= after && InOrder(before, from, to, at, width)
    ensures InOrder(after, from, to, at, width)
  {
  }

  lemma ShapesAre(l: Layout, rs: seq<Record>, kind: Kind, i: nat)
    requires l.Valid() && i < |rs|
    ensures RecordShapes(l, rs, kind, i, Shapes(l, rs, kind, |rs|))
  {
    RecordShapesAre(l, rs, kind, i);
    CountIs(l, rs, kind, i);
    CountIs(l, rs, kind, i + 1);
    ShapesStay(l, rs, kind, i + 1, |rs|);
    InOrderStays(Shapes(l, rs, kind, i + 1), Shapes(l, rs, kind, |rs|), Count(l, rs, kind, i),
      Count(l, rs, kind, i + 1), |Flat(rs[..i])| + l.head, l.shapeAndTypeSize);
  }

  lemma AllShapesAre(l: Layout, rs: seq<Record>, kind: Kind)
    requires l.Valid()
    ensures AreShapes(l, rs, kind, Shapes(l, rs, kind, |rs|))
  {
    CountIs(l, rs, kind, |rs|);
    forall i | 0 <= i < |rs| { ShapesAre(l, rs, kind, i); }
  }

  /** Record `i` is the last of its kind. */
  ghost predicate LastAt(l: Layout, rs: seq<Record>, kind: Kind, i: nat)
    requires i < |rs|
  {
    KindAt(l, rs, i) == kind && forall j :: i < j < |rs| ==> KindAt(l, rs, j) != kind
  }

  ghost predicate NoneOf(l: Layout, rs: seq<Record>, kind: Kind) {
    forall i :: 0 <= i < |rs| ==> KindAt(l, rs, i) != kind
  }

  lemma {:induction false} LastOfIs(l: Layout, rs: seq<Record>, kind: Kind)
    ensures forall i :: 0 <= i < |rs| && LastAt(l, rs, kind, i) ==> LastOf(l, rs, kind) == Some(rs[i])
    ensures NoneOf(l, rs, kind) ==> LastOf(l, rs, kind) == None
  {
    if rs != [] {
      var before := rs[..|rs| - 1];
      LastOfIs(l, before, kind);
      assert KindAt(l, rs, |rs| - 1) == l.kindOf(rs[|rs| - 1].header);
      assert forall j :: 0 <= j < |before| ==> KindAt(l, before, j) == KindAt(l, rs, j);
    }
  }

  ghost function WordAt(l: Layout, info: Bytes, o: nat): nat
    requires o + 4 <= |info|
  {
    l.word(info[o..o + 4])
  }

  /** A word of a record's info: it starts at a multiple of 4. */
  ghost predicate HasWord(l: Layout, info: Bytes, w: nat) {
    exists o :: 0 <= o && o + 4 <= |info| && o % 4 == 0 && WordAt(l, info, o) == w
  }

  /** The indices are the words of all records of this kind, all bound to 0. */
  ghost predicate AreIndexes(l: Layout, rs: seq<Record>, kind: Kind, index: map<nat, nat>) {
    && (forall w :: w in index ==> index[w] == 0)
    && forall w :: w in index <==> exists i :: 0 <= i < |rs| && KindAt(l, rs, i) == kind && HasWord(l, rs[i].info, w)
  }

  lemma {:induction false} WordsAre(l: Layout, info: Bytes, w: nat)
    ensures w in WordsOf(l, info) <==> HasWord(l, info, w)
  {
    if |info| >= 4 {
      WordsAre(l, info[4..], w);
      forall o | 4 <= o && o + 4 <= |info| ensures WordAt(l, info, o) == WordAt(l, info[4..], o - 4) {
        assert info[o..o + 4] == info[4..][o - 4..o];
      }
      assert WordAt(l, info, 0) == l.word(info[..4]);
      if HasWord(l, info[4..], w) {
        var o :| 0 <= o && o + 4 <= |info[4..]| && o % 4 == 0 && WordAt(l, info[4..], o) == w;
        assert WordAt(l, info, o + 4) == w && (o + 4) % 4 == 0;
      }
    }
  }

  lemma {:induction false} IndexesAre(l: Layout, rs: seq<Record>, kind: Kind, w: nat)
    ensures w in Indexes(l, rs, kind) <==>
      exists i :: 0 <= i < |rs| && KindAt(l, rs, i) == kind && HasWord(l, rs[i].info, w)
  {
    if rs != [] {
      var before := rs[..|rs| - 1];
      IndexesAre(l, before, kind, w);
      WordsAre(l, rs[|rs| - 1].info, w);
      assert KindAt(l, rs, |rs| - 1) == l.kindOf(rs[|rs| - 1].header);
      assert forall j :: 0 <= j < |before| ==> KindAt(l, before, j) == KindAt(l, rs, j) && before[j] == rs[j];
    }
  }

  lemma IndexesAreWords(l: Layout, rs: seq<Record>, kind: Kind)
    ensures AreIndexes(l, rs, kind, ZeroAt(Indexes(l, rs, kind)))
  {
    forall w { IndexesAre(l, rs, kind, w); }
  }

  /** Main result: what a successful parse has collected, without reference to the fold. */
  lemma Collected(l: Layout, rs: seq<Record>)
    requires l.Valid() && Fold(l, rs).Some?
    ensures var m := Fold(l, rs).value;
      && AreShapes(l, rs, InputShape, m.inputShapes) && AreShapes(l, rs, OutputShape, m.outputShapes)
      && AreIndexes(l, rs, UnknownShapeInputIndex, m.inputIndex)
      && AreIndexes(l, rs, UnknownShapeOutputIndex, m.outputIndex)
    ensures var m := Fold(l, rs).value;
      && (forall i :: 0 <= i < |rs| && LastAt(l, rs, Session, i) ==>
            m.hasSessInfo && m.kernelId == l.kernelId(rs[i].info))
      && (NoneOf(l, rs, Session) ==> !m.hasSessInfo && m.kernelId == 0)
      && (forall i :: 0 <= i < |rs| && LastAt(l, rs, AsyncWait, i) ==>
            m.waitType == l.waitType(rs[i].info) && m.waitId == l.waitId(rs[i].info))
      && (NoneOf(l, rs, AsyncWait) ==> m.waitType == 0 && m.waitId == 0)
      && (forall i :: 0 <= i < |rs| && LastAt(l, rs, TopicType, i) ==>
            (m.hostFlag <==> l.word(rs[i].info) / 128 % 2 == 1))
      && (NoneOf(l, rs, TopicType) ==> !m.hostFlag)
      && (m.asyncFlag <==>
            exists i :: 0 <= i < |rs| && KindAt(l, rs, i) == AsyncWait && l.waitType(rs[i].info) != l.waitNull &&
              l.waitType(rs[i].info) != l.waitInvalid)
  {
    assert rs[..|rs|] == rs;
    CollectedShapes(l, rs, |rs|);
    AllShapesAre(l, rs, InputShape);
    AllShapesAre(l, rs, OutputShape);
    CollectedIndexes(l, rs);
    IndexesAreWords(l, rs, UnknownShapeInputIndex);
    IndexesAreWords(l, rs, UnknownShapeOutputIndex);
    CollectedLast(l, rs);
    CollectedFlags(l, rs);
  }

  lemma CollectedLast(l: Layout, rs: seq<Record>)
    requires l.Valid() && Fold(l, rs).Some?
    ensures var m := Fold(l, rs).value;
      && (forall i :: 0 <= i < |rs| && LastAt(l, rs, Session, i) ==>
            m.hasSessInfo && m.kernelId == l.kernelId(rs[i].info))
      && (NoneOf(l, rs, Session) ==> !m.hasSessInfo && m.kernelId == 0)
      && (forall i :: 0 <= i < |rs| && LastAt(l, rs, AsyncWait, i) ==>
            m.waitType == l.waitType(rs[i].info) && m.waitId == l.waitId(rs[i].info))
      && (NoneOf(l, rs, AsyncWait) ==> m.waitType == 0 && m.waitId == 0)
  {
    CollectedSession(l, rs);
    CollectedWait(l, rs);
    LastOfIs(l, rs, Session);
    LastOfIs(l, rs, AsyncWait);
  }

  lemma CollectedFlags(l: Layout, rs: seq<Record>)
    requires l.Valid() && Fold(l, rs).Some?
    ensures var m := Fold(l, rs).value;
      && (forall i :: 0 <= i < |rs| && LastAt(l, rs, TopicType, i) ==>
            (m.hostFlag <==> l.word(rs[i].info) / 128 % 2 == 1))
      && (NoneOf(l, rs, TopicType) ==> !m.hostFlag)
      && (m.asyncFlag <==>
            exists i :: 0 <= i < |rs| && KindAt(l, rs, i) == AsyncWait && l.waitType(rs[i].info) != l.waitNull &&
              l.waitType(rs[i].info) != l.waitInvalid)
  {
    CollectedTopic(l, rs);
    assert rs[..|rs|] == rs;
    AsyncExactly(l, rs, |rs|);
    LastOfIs(l, rs, TopicType);
    assert forall i :: 0 <= i < |rs| ==> KindAt(l, rs, i) == l.kindOf(rs[i].header);
  }

  lemma {:induction false} CollectedSession(l: Layout, rs: seq<Record>)
    requires l.Valid() && Fold(l, rs).Some?
    ensures var m, session := Fold(l, rs).value, LastOf(l, rs, Session);
            m.hasSessInfo == session.Some? && m.kernelId == if session.Some? then l.kernelId(session.value.info) else 0
  {
    if rs != [] {
      var before, r := rs[..|rs| - 1], rs[|rs| - 1];
      CollectedSession(l, before);
      HandleSession(l, Fold(l, before).value, r, |Flat(before)| + l.head);
    }
  }

  lemma HandleSession(l: Layout, m: Msg, r: Record, at: nat)
    requires l.Valid() && Handle(l, m, l.kindOf(r.header), at, r.info).Some?
    ensures var m', kind := Handle(l, m, l.kindOf(r.header), at, r.info).value, l.kindOf(r.header);
            m'.hasSessInfo == (kind == Session || m.hasSessInfo) &&
              m'.kernelId == if kind == Session then l.kernelId(r.info) else m.kernelId
  {
  }

  lemma {:induction false} CollectedWait(l: Layout, rs: seq<Record>)
    requires l.Valid() && Fold(l, rs).Some?
    ensures var m, wait := Fold(l, rs).value, LastOf(l, rs, AsyncWait);
            && m.waitType == (if wait.Some? then l.waitType(wait.value.info) else 0)
            && m.waitId == (if wait.Some? then l.waitId(wait.value.info) else 0)
  {
    if rs != [] {
      var before, r := rs[..|rs| - 1], rs[|rs| - 1];
      CollectedWait(l, before);
      HandleWait(l, Fold(l, before).value, r, |Flat(before)| + l.head);
    }
  }

  lemma HandleWait(l: Layout, m: Msg, r: Record, at: nat)
    requires l.Valid() && Handle(l, m, l.kindOf(r.header), at, r.info).Some?
    ensures var m', kind := Handle(l, m, l.kindOf(r.header), at, r.info).value, l.kindOf(r.header);
            && m'.waitType == (if kind == AsyncWait then l.waitType(r.info) else m.waitType)
            && m'.waitId == (if kind == AsyncWait then l.waitId(r.info) else m.waitId)
  {
  }

  lemma {:induction false} CollectedTopic(l: Layout, rs: seq<Record>)
    requires l.Valid() && Fold(l, rs).Some?
    ensures var m, topic := Fold(l, rs).value, LastOf(l, rs, TopicType);
            m.hostFlag == (topic.Some? && l.word(topic.value.info) / 128 % 2 == 1)
  {
    if rs != [] {
      var before, r := rs[..|rs| - 1], rs[|rs| - 1];
      CollectedTopic(l, before);
      HandleTopic(l, Fold(l, before).value, r, |Flat(before)| + l.head);
    }
  }

  lemma HandleTopic(l: Layout, m: Msg, r: Record, at: nat)
    requires l.Valid() && Handle(l, m, l.kindOf(r.header), at, r.info).Some?
    ensures Handle(l, m, l.kindOf(r.header), at, r.info).value.hostFlag
         == if l.kindOf(r.header) == TopicType then l.word(r.info) / 128 % 2 == 1 else m.hostFlag
  {
  }

  lemma ShapesMore(l: Layout, rs: seq<Record>, n: nat, m: Msg, at: nat)
    requires l.Valid() && n < |rs| && m.unknownShape == UnknownAt(l, rs, n) && at == |Flat(rs[..n])| + l.head
    requires Handle(l, m, KindAt(l, rs, n), at, rs[n].info).Some?
    requires m.inputShapes == Shapes(l, rs, InputShape, n) && m.outputShapes == Shapes(l, rs, OutputShape, n)
    ensures var next := Handle(l, m, KindAt(l, rs, n), at, rs[n].info).value;
      next.inputShapes == Shapes(l, rs, InputShape, n + 1) && next.outputShapes == Shapes(l, rs, OutputShape, n + 1)
  {
    ShapesNext(l, rs, InputShape, n, at);
    ShapesNext(l, rs, OutputShape, n, at);
    HandleShapes(l, m, rs[n], at);
  }

  lemma {:induction false} CollectedShapes(l: Layout, rs: seq<Record>, n: nat)
    requires l.Valid() && n <= |rs| && Fold(l, rs[..n]).Some?
    ensures Fold(l, rs[..n]).value.inputShapes == Shapes(l, rs, InputShape, n)
    ensures Fold(l, rs[..n]).value.outputShapes == Shapes(l, rs, OutputShape, n)
  {
    if n > 0 {
      var at := FoldStep(l, rs, n - 1);
      CollectedShapes(l, rs, n - 1);
      FlagInForce(l, rs, n - 1);
      ShapesMore(l, rs, n - 1, Fold(l, rs[..n - 1]).value, at);
    }
  }

  lemma HandleShapes(l: Layout, m: Msg, r: Record, at: nat)
    requires l.Valid() && Handle(l, m, l.kindOf(r.header), at, r.info).Some?
    ensures var m', kind := Handle(l, m, l.kindOf(r.header), at, r.info).value, l.kindOf(r.header);
            && m'.inputShapes == m.inputShapes +
              (if kind == InputShape && m.unknownShape then Addresses(at, l.shapeAndTypeSize, |r.info|) else [])
            && m'.outputShapes == m.outputShapes +
              (if kind == OutputShape && m.unknownShape then Addresses(at, l.shapeAndTypeSize, |r.info|) else [])
  {
    assert m.inputShapes + [] == m.inputShapes;
    assert m.outputShapes + [] == m.outputShapes;
  }

  lemma {:induction false} AsyncExactly(l: Layout, rs: seq<Record>, n: nat)
    requires l.Valid() && n <= |rs| && Fold(l, rs[..n]).Some?
    ensures Fold(l, rs[..n]).value.asyncFlag <==> exists i :: 0 <= i < n && AsksAsync(l, rs[i])
  {
    if n > 0 {
      var at := FoldStep(l, rs, n - 1);
      AsyncExactly(l, rs, n - 1);
      AsyncStep(l, Fold(l, rs[..n - 1]).value, rs[n - 1], at);
    }
  }

  lemma AsyncStep(l: Layout, m: Msg, r: Record, at: nat)
    requires l.Valid() && Handle(l, m, l.kindOf(r.header), at, r.info).Some?
    ensures Handle(l, m, l.kindOf(r.header), at, r.info).value.asyncFlag == (m.asyncFlag || AsksAsync(l, r))
  {
  }

  // ---- The first pass over the same records ----

  /** Record `i` is the first of its kind. */
  ghost predicate FirstAt(l: Layout, rs: seq<Record>, kind: Kind, i: nat)
    requires i < |rs|
  {
    KindAt(l, rs, i) == kind && forall j :: 0 <= j < i ==> KindAt(l, rs, j) != kind
  }

  /** `ParseExtSessionInfo` of device_cpu_kernel.cc: the info of the first session record.  The outer option
      is the status, the inner one whether there is a session. */
  method FindSession(l: Layout, buf: Bytes, ghost rs: seq<Record>, ghost tail: Bytes)
    returns (ret: Option<Option<Bytes>>)
    requires l.Valid() && buf == Flat(rs) + tail && |tail| < l.head
    requires forall i :: 0 <= i < |rs| ==> Good(l, rs[i])
    ensures ret == Some(None) <==> NoneOf(l, rs, Session)
    ensures forall i :: 0 <= i < |rs| && FirstAt(l, rs, Session, i) ==>
      ret == if |rs[i].info| == l.sessionSize then Some(Some(rs[i].info)) else None
  {
    var offset := 0;
    ghost var k := 0;
    while offset + l.head <= |buf|
      invariant 0 <= k <= |rs| && offset == |Flat(rs[..k])|
      invariant forall i :: 0 <= i < k ==> KindAt(l, rs, i) != Session
      decreases |rs| - k
    {
      var kind, info := ReadRecord(l, buf, rs, tail, k, offset);
      if kind == Session {
        assert forall i :: 0 <= i < |rs| && FirstAt(l, rs, Session, i) ==> i == k;
        if |info| != l.sessionSize {
          return None;
        }
        return Some(Some(info));
      }
      offset := offset + l.head;
      offset := offset + |info|;
      k := k + 1;
    }
    LastRecord(l, rs, tail, k);
    ret := Some(None);
  }

  predicate AtMostOne(l: Layout, rs: seq<Record>, kind: Kind) {
    forall i, j :: 0 <= i < j < |rs| ==> KindAt(l, rs, i) != kind || KindAt(l, rs, j) != kind
  }

  lemma {:induction false} LastOfIsThere(l: Layout, rs: seq<Record>, kind: Kind)
    ensures LastOf(l, rs, kind).Some? <==> exists i :: 0 <= i < |rs| && KindAt(l, rs, i) == kind
    ensures LastOf(l, rs, kind).Some? ==>
      exists i :: 0 <= i < |rs| && rs[i] == LastOf(l, rs, kind).value && KindAt(l, rs, i) == kind
  {
    if rs != [] {
      var before := rs[..|rs| - 1];
      LastOfIsThere(l, before, kind);
      assert forall i :: 0 <= i < |before| ==> KindAt(l, before, i) == KindAt(l, rs, i) && before[i] == rs[i];
      if l.kindOf(rs[|before|].header) == kind { assert KindAt(l, rs, |before|) == kind; }
    }
  }

  lemma PassesAgree(l: Layout, rs: seq<Record>, session: Option<Option<Bytes>>)
    requires l.Valid() && Fold(l, rs).Some?
    requires session == Some(None) <==> NoneOf(l, rs, Session)
    requires forall i :: 0 <= i < |rs| && FirstAt(l, rs, Session, i) ==>
      session == if |rs[i].info| == l.sessionSize then Some(Some(rs[i].info)) else None
    ensures session.Some? && Fold(l, rs).value.hasSessInfo == session.value.Some?
    ensures session.value.Some? && AtMostOne(l, rs, Session) ==>
      Fold(l, rs).value.kernelId == l.kernelId(session.value.value)
  {
    CollectedSession(l, rs);
    LastOfIsThere(l, rs, Session);
    if !NoneOf(l, rs, Session) {
      var f := FirstSession(l, rs);
      SucceedsExactly(l, rs);
      assert RecordOk(l, rs, f);
    }
  }

  /** Main result: whenever the second pass succeeds so does the first, and they agree on whether there is
      a session; the kernel id is that of the last session record, the session that of the first. */
  method BothPasses(l: Layout, buf: Bytes, ghost rs: seq<Record>, ghost tail: Bytes)
    returns (session: Option<Option<Bytes>>, msg: Option<Msg>)
    requires l.Valid() && buf == Flat(rs) + tail && |tail| < l.head
    requires forall i :: 0 <= i < |rs| ==> Good(l, rs[i])
    ensures msg == Fold(l, rs)
    ensures session == Some(None) <==> NoneOf(l, rs, Session)
    ensures forall i :: 0 <= i < |rs| && FirstAt(l, rs, Session, i) ==>
      session == if |rs[i].info| == l.sessionSize then Some(Some(rs[i].info)) else None
    ensures msg.Some? ==> session.Some? && msg.value.hasSessInfo == session.value.Some?
    ensures msg.Some? && session.value.Some? && AtMostOne(l, rs, Session) ==>
      msg.value.kernelId == l.kernelId(session.value.value)
  {
    session := FindSession(l, buf, rs, tail);
    msg := ParseExtMsg(l, buf, rs, tail);
    if msg.Some? {
      PassesAgree(l, rs, session);
    }
  }

  lemma {:induction false} FirstSession(l: Layout, rs: seq<Record>) returns (f: nat)
    requires exists i :: 0 <= i < |rs| && KindAt(l, rs, i) == Session
    ensures f < |rs| && FirstAt(l, rs, Session, f)
  {
    f := 0;
    while KindAt(l, rs, f) != Session
      invariant f < |rs| && (forall j :: 0 <= j < f ==> KindAt(l, rs, j) != Session)
      decreases |rs| - f
    {
      f := f + 1;
    }
  }
}
