/** Exactly when the context cache (ops/built-in/cpu_kernel_cache.cc, `GetCpuKernelContext`) finds the context that
    a fresh build would make, whatever parsing and construction do: a condition on the requests alone.  A context
    counts here as it was built; what runs have done to its tensors since is the subject of `SharedContext`. */
module Transparency {
  import opened Wrappers
  import opened CacheModel
  import opened CacheTheorems
  import opened ContextModel
  import opened TensorUpdate

  /** What of a request decides the context it would get from a fresh build. */
  datatype Content = Content(nodeDef: Bytes, waitType: int, waitId: int, host: bool)

  function ContentOf(r: Request): Content {
    Content(r.nodeDef, r.waitType, r.waitId, r.host)
  }

  function Made<NodeDef>(b: Builder<NodeDef>, x: Content): Option<Blueprint> {
    Fresh(b, Request(false, 0, x.waitType, x.waitId, x.host, x.nodeDef))
  }

  /** One run, followed by content only: `good` are the contents that can be built. */
  function Follow(c: Cache<Content>, r: Request, good: set<Content>): Cache<Content> {
    if !r.hasSessInfo then c
    else if Find(c.items, r.kernelId).Some? || ContentOf(r) !in good then AfterGet(c, r.kernelId)
    else AfterSet(AfterGet(c, r.kernelId), r.kernelId, ContentOf(r))
  }

  function Followed(capacity: nat, session: bool, requests: seq<Request>, good: set<Content>): Cache<Content> {
    if requests == [] then Cache(capacity, session, [])
    else Follow(Followed(capacity, session, requests[..|requests| - 1], good), requests[|requests| - 1], good)
  }

  /** The content that the context kept under `id` was built from. */
  function Kept(capacity: nat, session: bool, requests: seq<Request>, good: set<Content>, id: Key): Option<Content> {
    Find(Followed(capacity, session, requests, good).items, id)
  }

  /** `good` are the contents, of those that occur, for which the builder succeeds. */
  ghost predicate Succeeds<NodeDef>(b: Builder<NodeDef>, requests: seq<Request>, good: set<Content>) {
    forall i :: 0 <= i < |requests| ==> (ContentOf(requests[i]) in good <==> Fresh(b, requests[i]).Some?)
  }

  const NOTHING := Blueprint("", map[], Dims([], []))

  function MadeOrNothing<NodeDef>(b: Builder<NodeDef>): Content -> Blueprint {
    x => match Made(b, x) case Some(made) => made case None => NOTHING
  }

  /** The real cache is the followed one with every content built. */
  lemma {:induction false} ServedIsFollowed<NodeDef>(b: Builder<NodeDef>, capacity: nat, session: bool,
                                                     requests: seq<Request>, good: set<Content>)
    requires Succeeds(b, requests, good)
    ensures Served(b, capacity, session, requests) ==
      Mapped(Followed(capacity, session, requests, good), MadeOrNothing(b))
  {
    if requests != [] {
      var before, r := requests[..|requests| - 1], requests[|requests| - 1];
      assert forall i :: 0 <= i < |before| ==> before[i] == requests[i];
      ServedIsFollowed(b, capacity, session, before, good);
      var c := Followed(capacity, session, before, good);
      MappedGet(c, r.kernelId, MadeOrNothing(b));
      MappedSet(AfterGet(c, r.kernelId), r.kernelId, ContentOf(r), MadeOrNothing(b));
    }
  }

  /** A request with this id carries this content. */
  predicate Carried(requests: seq<Request>, id: Key, x: Content) {
    exists i :: 0 <= i < |requests| && requests[i].hasSessInfo && requests[i].kernelId == id &&
      ContentOf(requests[i]) == x
  }

  /** What is kept was buildable, and carried by a request with that id. */
  lemma {:induction false} KeptIsGood(capacity: nat, session: bool, requests: seq<Request>, good: set<Content>, id: Key)
    ensures var found := Kept(capacity, session, requests, good, id);
      found.Some? ==> found.value in good && Carried(requests, id, found.value)
  {
    if requests != [] {
      var before, r := requests[..|requests| - 1], requests[|requests| - 1];
      KeptIsGood(capacity, session, before, good, id);
      assert forall i :: 0 <= i < |before| ==> before[i] == requests[i];
      var c := Followed(capacity, session, before, good);
      FindAfter(c, Get(r.kernelId), id);
      FindAfter(AfterGet(c, r.kernelId), Set(r.kernelId, ContentOf(r)), id);
    }
  }

  /** A request finds the context that a fresh build would make, whatever the builder. */
  ghost predicate Unnoticed(capacity: nat, session: bool, requests: seq<Request>, r: Request) {
    forall b: Builder<Parsed> :: Response(b, Served(b, capacity, session, requests), r) == Fresh(b, r)
  }

  type Parsed = (Bytes, map<string, int>)

  /** The builder that succeeds on `good` and tells `x` from all others. */
  function Telling(good: set<Content>, x: Content, dims: Dims): Builder<Parsed> {
    Builder(
      bytes => Some((bytes, map[])),
      (def: Parsed, name, value) => (def.0, def.1[name := value]),
      (def: Parsed, device: DeviceType) =>
        if "wait_type" in def.1 && "wait_id" in def.1 then
          var y := Content(def.0, def.1["wait_type"], def.1["wait_id"], device == HOST);
          if y in good then Some(Blueprint(if y == x then "x" else "", map[], dims)) else None
        else None)
  }

  lemma Tells(good: set<Content>, x: Content, dims: Dims, r: Request)
    ensures Fresh(Telling(good, x, dims), r) ==
      if ContentOf(r) in good then Some(Blueprint(if ContentOf(r) == x then "x" else "", map[], dims)) else None
  {
    var attrs: map<string, int> := map[]["wait_type" := r.waitType]["wait_id" := r.waitId];
    assert attrs["wait_type"] == r.waitType && attrs["wait_id"] == r.waitId;
  }

  function BuiltFrom<NodeDef>(b: Builder<NodeDef>, requests: seq<Request>): set<Content> {
    set q | q in requests && Fresh(b, q).Some? :: ContentOf(q)
  }

  lemma BuiltSucceeds<NodeDef>(b: Builder<NodeDef>, requests: seq<Request>)
    ensures Succeeds(b, requests, BuiltFrom(b, requests))
  {
    forall q, r | ContentOf(q) == ContentOf(r) ensures Fresh(b, q) == Fresh(b, r) {
      assert Fresh(b, q) == Made(b, ContentOf(q));
    }
  }

  /** The content kept for a request is its own, whichever contents can be built. */
  ghost predicate KeepsOwn(capacity: nat, session: bool, requests: seq<Request>, r: Request) {
    forall good: set<Content> :: Kept(capacity, session, requests, good, r.kernelId).Some? ==>
      Kept(capacity, session, requests, good, r.kernelId).value == ContentOf(r)
  }

  lemma OwnIsUnnoticed<NodeDef>(b: Builder<NodeDef>, capacity: nat, session: bool, requests: seq<Request>, r: Request)
    requires KeepsOwn(capacity, session, requests, r)
    ensures Response(b, Served(b, capacity, session, requests), r) == Fresh(b, r)
  {
    var good := BuiltFrom(b, requests);
    BuiltSucceeds(b, requests);
    ServedIsFollowed(b, capacity, session, requests, good);
    FindMapped(Followed(capacity, session, requests, good).items, r.kernelId, MadeOrNothing(b));
    KeptIsGood(capacity, session, requests, good, r.kernelId);
    if Kept(capacity, session, requests, good, r.kernelId).Some? {
      var q :| q in requests && Fresh(b, q).Some? && ContentOf(q) == ContentOf(r);
      assert Fresh(b, q) == Made(b, ContentOf(q)) == Fresh(b, r);
    }
  }

  lemma OtherIsNoticed(capacity: nat, session: bool, requests: seq<Request>, r: Request, good: set<Content>, x: Content,
                       dims: Dims)
    requires r.hasSessInfo && Kept(capacity, session, requests, good, r.kernelId) == Some(x) && x != ContentOf(r)
    ensures Response(Telling(good, x, dims), Served(Telling(good, x, dims), capacity, session, requests),
      r) != Fresh(Telling(good, x, dims), r)
  {
    var b := Telling(good, x, dims);
    forall i | 0 <= i < |requests| ensures ContentOf(requests[i]) in good <==> Fresh(b, requests[i]).Some? {
      Tells(good, x, dims, requests[i]);
    }
    ServedIsFollowed(b, capacity, session, requests, good);
    FindMapped(Followed(capacity, session, requests, good).items, r.kernelId, MadeOrNothing(b));
    KeptIsGood(capacity, session, requests, good, r.kernelId);
    Tells(good, x, dims, Request(false, 0, x.waitType, x.waitId, x.host, x.nodeDef));
    Tells(good, x, dims, r);
  }

  /** Main result: after any run, in either mode, every builder's context is the one found exactly if the request
      has no session or the content kept for it, whichever contents can be built, is its own. */
  lemma TransparentExactly(capacity: nat, session: bool, requests: seq<Request>, r: Request)
    ensures Unnoticed(capacity, session, requests, r) <==> !r.hasSessInfo || KeepsOwn(capacity, session, requests, r)
  {
    if r.hasSessInfo && !KeepsOwn(capacity, session, requests, r) {
      var good: set<Content> :| Kept(capacity, session, requests, good, r.kernelId).Some? &&
        Kept(capacity, session, requests, good, r.kernelId).value != ContentOf(r);
      OtherIsNoticed(capacity, session, requests, r, good, Kept(capacity, session, requests, good, r.kernelId).value,
        Dims([], []));
    } else {
      forall b: Builder<Parsed>
        ensures Response(b, Served(b, capacity, session, requests), r) == Fresh(b, r)
      {
        if r.hasSessInfo { OwnIsUnnoticed(b, capacity, session, requests, r); }
      }
    }
  }

  /** Every earlier request with the same id carries the same definition, wait information and device flag. */
  predicate SameContent(requests: seq<Request>, r: Request) {
    forall i :: 0 <= i < |requests| && requests[i].hasSessInfo && requests[i].kernelId == r.kernelId ==>
      ContentOf(requests[i]) == ContentOf(r)
  }

  /** A session cache still keeps something for an id that could once be built. */
  lemma {:induction false} SessionKeeps(capacity: nat, requests: seq<Request>, good: set<Content>, i: nat)
    requires i < |requests| && requests[i].hasSessInfo && ContentOf(requests[i]) in good
    ensures Kept(capacity, true, requests, good, requests[i].kernelId).Some?
  {
    var before, r, id := requests[..|requests| - 1], requests[|requests| - 1], requests[i].kernelId;
    var c := Followed(capacity, true, before, good);
    RunOfFollowed(capacity, true, before, good);
    if i < |before| { SessionKeeps(capacity, before, good, i); }
    FindAfter(c, Get(r.kernelId), id);
    FindAfter(AfterGet(c, r.kernelId), Set(r.kernelId, ContentOf(r)), id);
  }

  lemma {:induction false} RunOfFollowed(capacity: nat, session: bool, requests: seq<Request>, good: set<Content>)
    ensures Followed(capacity, session, requests, good).session == session &&
      Followed(capacity, session, requests, good).capacity == capacity
    ensures Distinct(Keys(Followed(capacity, session, requests, good).items))
  {
    if requests != [] {
      var before, r := requests[..|requests| - 1], requests[|requests| - 1];
      var c := Followed(capacity, session, before, good);
      RunOfFollowed(capacity, session, before, good);
      KeysAfter(c, Get(r.kernelId));
      KeysAfter(AfterGet(c, r.kernelId), Set(r.kernelId, ContentOf(r)));
    }
  }

  /** Where they do not, some builder tells the two contents apart, whatever dimensions its contexts have. */
  lemma OtherContentTold(capacity: nat, requests: seq<Request>, r: Request, dims: Dims) returns (b: Builder<Parsed>)
    requires r.hasSessInfo && !SameContent(requests, r)
    ensures Response(b, Served(b, capacity, true, requests), r) != Fresh(b, r)
    ensures Fresh(b, r).Some? ==> Fresh(b, r).value.dims == dims
  {
    var i :| 0 <= i < |requests| && requests[i].hasSessInfo && requests[i].kernelId == r.kernelId &&
      ContentOf(requests[i]) != ContentOf(r);
    var x := ContentOf(requests[i]);
    SessionKeeps(capacity, requests, {x}, i);
    KeptIsGood(capacity, true, requests, {x}, r.kernelId);
    b := Telling({x}, x, dims);
    OtherIsNoticed(capacity, true, requests, r, {x}, x, dims);
    Tells({x}, x, dims, r);
  }

  /** Main result: for session caches that is a condition on the fields of the requests. */
  lemma SessionTransparentExactly(capacity: nat, requests: seq<Request>, r: Request)
    ensures Unnoticed(capacity, true, requests, r) <==> !r.hasSessInfo || SameContent(requests, r)
  {
    if !r.hasSessInfo {
    } else if SameContent(requests, r) {
      SameContentSuffices(capacity, true, requests, r);
    } else {
      var b := OtherContentTold(capacity, requests, r, Dims([], []));
    }
  }

  /** The same fields are enough in either mode. */
  lemma SameContentSuffices(capacity: nat, session: bool, requests: seq<Request>, r: Request)
    requires SameContent(requests, r)
    ensures Unnoticed(capacity, session, requests, r)
  {
    TransparentExactly(capacity, session, requests, r);
    forall good: set<Content> | Kept(capacity, session, requests, good, r.kernelId).Some?
      ensures Kept(capacity, session, requests, good, r.kernelId).value == ContentOf(r)
    {
      KeptIsGood(capacity, session, requests, good, r.kernelId);
    }
  }

  // ---- What eviction changes ----

  /** The ids of the requests, the last first. */
  function IdsBack(requests: seq<Request>): (ids: seq<Key>)
    ensures |ids| == |requests| && forall i :: 0 <= i < |ids| ==> ids[i] == requests[|requests| - 1 - i].kernelId
  {
    seq(|requests|, i requires 0 <= i < |requests| => requests[|requests| - 1 - i].kernelId)
  }

  /** Requests for different kernels, all carrying one content. */
  predicate OneContentEach(requests: seq<Request>, x: Content) {
    && (forall i :: 0 <= i < |requests| ==> requests[i].hasSessInfo && ContentOf(requests[i]) == x)
    && (forall i, j :: 0 <= i < j < |requests| ==> requests[i].kernelId != requests[j].kernelId)
  }

  lemma OneLess(requests: seq<Request>, x: Content)
    requires OneContentEach(requests, x) && requests != []
    ensures var before, r := requests[..|requests| - 1], requests[|requests| - 1];
      OneContentEach(before, x) && r.hasSessInfo && ContentOf(r) == x && r.kernelId !in IdsBack(before) &&
        IdsBack(requests) == [r.kernelId] + IdsBack(before)
  {
  }

  /** An LRU cache then holds the last of them. */
  lemma {:induction false} LastOnes(capacity: nat, requests: seq<Request>, x: Content, good: set<Content>)
    requires OneContentEach(requests, x) && x in good
    ensures Keys(Followed(capacity, false, requests, good).items) == Take(IdsBack(requests), capacity + 1)
  {
    if requests != [] {
      var before, r := requests[..|requests| - 1], requests[|requests| - 1];
      OneLess(requests, x);
      LastOnes(capacity, before, x, good);
      RunOfFollowed(capacity, false, before, good);
      NewKernel(Followed(capacity, false, before, good), r, good);
      NewFirst(IdsBack(before), r.kernelId, capacity);
    }
  }

  /** A kernel built for the first time. */
  lemma NewKernel(c: Cache<Content>, r: Request, good: set<Content>)
    requires !c.session && Distinct(Keys(c.items)) && r.hasSessInfo && ContentOf(r) in good &&
      r.kernelId !in Keys(c.items)
    ensures Keys(Follow(c, r, good).items) == [r.kernelId] + Shortened(Keys(c.items), c.capacity)
  {
    FindIsKey(c.items, r.kernelId);
    KeysAfter(c, Set(r.kernelId, ContentOf(r)));
  }

  function Shortened(ks: seq<Key>, capacity: nat): seq<Key> {
    if capacity < |ks| then ks[..|ks| - 1] else ks
  }

  lemma NewFirst(ks: seq<Key>, key: Key, capacity: nat)
    ensures [key] + Shortened(Take(ks, capacity + 1), capacity) == Take([key] + ks, capacity + 1)
  {
  }

  /** Outside sessions it is not necessary: once more than `capacity` other kernels have been built, a request
      is answered afresh although its id carried something else. */
  lemma EvictionForgets(capacity: nat, requests: seq<Request>, x: Content, r: Request)
    requires OneContentEach(requests, x) && |requests| == capacity + 2 && r.kernelId == requests[0].kernelId
    ensures Unnoticed(capacity, false, requests, r)
  {
    TransparentExactly(capacity, false, requests, r);
    forall good: set<Content> ensures Kept(capacity, false, requests, good, r.kernelId).None? {
      KeptIsGood(capacity, false, requests, good, r.kernelId);
      FindIsKey(Followed(capacity, false, requests, good).items, r.kernelId);
      if x in good { LastOnes(capacity, requests, x, good); }
    }
  }
}
