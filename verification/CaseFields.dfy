/** The fields of a test case, and what is done to a case once it is put together
    (main/subcase_design.py, main/dynamic_handle.py). */
module CaseFields {
  import opened Wrappers

  datatype Value = Text(text: string) | Dims(dims: seq<int>) | Ranges(ranges: seq<(int, int)>)

  type Description = map<string, seq<Value>>
  type Case = map<string, Value>

  const UNDEFINED := Text("UNDEFINED")
  const OPTIONAL_TYPES: set<Value> := {Text("UNDEFINED"), Text("RESERVED")}

  predicate Given(d: Description, key: string) { key in d && d[key] != [] }

  /** What Python takes for true: anything but what is empty. */
  predicate Truthy(v: Value) {
    match v
    case Text(text) => text != []
    case Dims(dims) => dims != []
    case Ranges(ranges) => ranges != []
  }

  // ---- Undefined formats and types ----

  predicate Optional(c: Case) { "format" in c && c["format"] in OPTIONAL_TYPES }
  predicate Untyped(c: Case) { "type" in c && c["type"] == UNDEFINED }

  /** Format and type of a case with an optional format, or without a type, are both undefined. */
  function WithUndefined(c: Case): Case {
    if Optional(c) || Untyped(c) then c["type" := UNDEFINED]["format" := UNDEFINED] else c
  }

  /** `_check_cur_params_undefined`. */
  method CheckCurParamsUndefined(c: Case) returns (checked: Case)
    ensures checked == WithUndefined(c)
    ensures checked ==
      if ("format" in c && (c["format"] == Text("UNDEFINED") || c["format"] == Text("RESERVED"))) ||
        ("type" in c && c["type"] == Text("UNDEFINED"))
      then c["format" := Text("UNDEFINED")]["type" := Text("UNDEFINED")] else c
  {
    checked := c;
    if "format" in checked && checked["format"] in OPTIONAL_TYPES {
      checked := checked["type" := UNDEFINED];
    }
    if "type" in checked && checked["type"] == UNDEFINED {
      checked := checked["format" := UNDEFINED];
    }
    assert Untyped(c) ==> c["type" := UNDEFINED] == c;
  }

  // ---- Dynamic shapes ----

  /** A dimension that is unknown, or stands for an unknown number of them. */
  predicate Dynamic(dim: int) { dim == -1 || dim == -2 }

  function ShapeOf(c: Case): seq<int> {
    if "shape" in c && c["shape"].Dims? then c["shape"].dims else []
  }

  /** The case with a typical shape if its own is dynamic, and without the range of a shape of unknown rank; None
      if there is no typical shape. */
  function WithTypical(d: Description, c: Case, dims: seq<int>): Option<Case> {
    if !(exists i :: 0 <= i < |dims| && Dynamic(dims[i])) then Some(c)
    else if !Given(d, "typical_shape") then None
    else
      var typical := c["typical_shape" := d["typical_shape"][0]];
      Some(if -2 in dims && "shape_range" in c && Truthy(c["shape_range"]) then typical - {"shape_range"} else typical)
  }

  /** What one dimension does. */
  function AfterDim(d: Description, now: Case, dim: int): Option<Case> {
    if !Dynamic(dim) then Some(now)
    else if !Given(d, "typical_shape") then None
    else
      var typical := now["typical_shape" := d["typical_shape"][0]];
      Some(if dim == -2 && "shape_range" in typical && Truthy(typical["shape_range"])
        then typical - {"shape_range"} else typical)
  }

  lemma OneDimMore(d: Description, c: Case, dims: seq<int>, dim: int, now: Case)
    requires WithTypical(d, c, dims) == Some(now)
    ensures WithTypical(d, c, dims + [dim]) == AfterDim(d, now, dim)
  {
    var more := dims + [dim];
    assert forall i :: 0 <= i < |dims| ==> more[i] == dims[i];
    assert more[|dims|] == dim;
    if exists i :: 0 <= i < |dims| && Dynamic(dims[i]) {
      var i :| 0 <= i < |dims| && Dynamic(dims[i]);
      assert Dynamic(more[i]);
      assert now["typical_shape" := d["typical_shape"][0]] == now;
    }
  }

  lemma OneDimRefused(d: Description, c: Case, dims: seq<int>, i: nat)
    requires i < |dims| && Dynamic(dims[i]) && !Given(d, "typical_shape")
    ensures WithTypical(d, c, dims) == None
  {
  }

  lemma TypicalIs(d: Description, c: Case, dims: seq<int>)
    ensures var typical := WithTypical(d, c, dims);
      && (typical.None? <==> (-1 in dims || -2 in dims) && !("typical_shape" in d && d["typical_shape"] != []))
      && (typical.Some? ==>
        typical.value ==
          if -1 !in dims && -2 !in dims then c
          else if -2 in dims && "shape_range" in c &&
            c["shape_range"] != Text("") && c["shape_range"] != Dims([]) && c["shape_range"] != Ranges([])
          then c["typical_shape" := d["typical_shape"][0]] - {"shape_range"}
          else c["typical_shape" := d["typical_shape"][0]])
  {
    DynamicIn(dims);
  }

  lemma DynamicIn(dims: seq<int>)
    ensures (exists i :: 0 <= i < |dims| && Dynamic(dims[i])) <==> -1 in dims || -2 in dims
  {
    if -1 in dims { var i :| 0 <= i < |dims| && dims[i] == -1; assert Dynamic(dims[i]); }
    if -2 in dims { var i :| 0 <= i < |dims| && dims[i] == -2; assert Dynamic(dims[i]); }
  }

  /** `set_typical_shape_in_cur_params`. */
  method SetTypicalShape(d: Description, c: Case, dims: seq<int>) returns (typical: Option<Case>)
    ensures typical == WithTypical(d, c, dims)
    ensures typical.None? <==> (-1 in dims || -2 in dims) && !("typical_shape" in d && d["typical_shape"] != [])
    ensures typical.Some? ==>
      typical.value ==
        if -1 !in dims && -2 !in dims then c
        else if -2 in dims && "shape_range" in c &&
          c["shape_range"] != Text("") && c["shape_range"] != Dims([]) && c["shape_range"] != Ranges([])
        then c["typical_shape" := d["typical_shape"][0]] - {"shape_range"}
        else c["typical_shape" := d["typical_shape"][0]]
  {
    TypicalIs(d, c, dims);
    var now := c;
    for i := 0 to |dims|
      invariant WithTypical(d, c, dims[..i]) == Some(now)
    {
      assert dims[..i + 1] == dims[..i] + [dims[i]];
      OneDimMore(d, c, dims[..i], dims[i], now);
      if Dynamic(dims[i]) {
        if !Given(d, "typical_shape") {
          OneDimRefused(d, c, dims, i);
          return None;
        }
        now := now["typical_shape" := d["typical_shape"][0]];
        if dims[i] == -2 && "shape_range" in now && Truthy(now["shape_range"]) {
          now := now - {"shape_range"};
        }
      }
    }
    assert dims[..|dims|] == dims;
    typical := Some(now);
  }

  // ---- Both ----

  /** A case put together is finished, or refused for want of a typical shape. */
  function Finished(d: Description, c: Case): Option<Case> {
    WithTypical(d, WithUndefined(c), ShapeOf(c))
  }

  /** All of them, unless one is refused. */
  function AllFinished(d: Description, raw: seq<Case>): Option<seq<Case>> {
    if raw == [] then Some([])
    else match (AllFinished(d, raw[..|raw| - 1]), Finished(d, raw[|raw| - 1]))
      case (Some(cases), Some(c)) => Some(cases + [c])
      case _ => None
  }

  lemma {:induction false} AllFinishedAt(d: Description, raw: seq<Case>)
    ensures AllFinished(d, raw).Some? <==> forall r :: 0 <= r < |raw| ==> Finished(d, raw[r]).Some?
    ensures AllFinished(d, raw).Some? ==> |AllFinished(d, raw).value| == |raw|
    ensures AllFinished(d, raw).Some? ==> forall r :: 0 <= r < |raw| ==>
      Finished(d, raw[r]) == Some(AllFinished(d, raw).value[r])
  {
    if raw != [] {
      var init := raw[..|raw| - 1];
      AllFinishedAt(d, init);
      assert forall r :: 0 <= r < |init| ==> raw[r] == init[r];
    }
  }

  /** The fields that finishing may change. */
  const CHANGED := ["format", "type", "typical_shape", "shape_range"]

  /** A field as far as it is there. */
  function ValueAt(c: Case, key: string): Option<Value> {
    if key in c then Some(c[key]) else None
  }

  /** An optional format, or an undefined type. */
  predicate Blank(c: Case) {
    || ("format" in c && (c["format"] == Text("UNDEFINED") || c["format"] == Text("RESERVED")))
    || ("type" in c && c["type"] == Text("UNDEFINED"))
  }

  predicate ShapeHas(c: Case, dim: int) { "shape" in c && c["shape"].Dims? && dim in c["shape"].dims }

  predicate HasDynamic(c: Case) { ShapeHas(c, -1) || ShapeHas(c, -2) }

  /** The range that is left in the end: none for an unknown rank. */
  function RangeLeft(c: Case): Option<Value> {
    if ShapeHas(c, -2) && "shape_range" in c &&
      c["shape_range"] != Text("") && c["shape_range"] != Dims([]) && c["shape_range"] != Ranges([])
    then None else ValueAt(c, "shape_range")
  }

  /** Two cases as put together agree wherever that still shows: format and type unless both lose theirs, the
      typical shape unless both are given one, and the range that is left. */
  ghost predicate Alike(a: Case, b: Case) {
    && (forall k :: k !in CHANGED ==> ValueAt(a, k) == ValueAt(b, k))
    && (Blank(a) <==> Blank(b)) &&
      (!Blank(a) ==> ValueAt(a, "format") == ValueAt(b, "format") && ValueAt(a, "type") == ValueAt(b, "type"))
    && (!HasDynamic(a) ==> ValueAt(a, "typical_shape") == ValueAt(b, "typical_shape"))
    && RangeLeft(a) == RangeLeft(b)
  }

  /** What finishing makes of a case put together, field by field. */
  ghost predicate FinishedFrom(d: Description, raw: Case, c: Case) {
    && (forall k :: k !in CHANGED ==> ValueAt(c, k) == ValueAt(raw, k))
    && ValueAt(c, "format") == (if Blank(raw) then Some(Text("UNDEFINED")) else ValueAt(raw, "format"))
    && ValueAt(c, "type") == (if Blank(raw) then Some(Text("UNDEFINED")) else ValueAt(raw, "type"))
    && (HasDynamic(raw) ==> "typical_shape" in d && d["typical_shape"] != [])
    && ValueAt(c, "typical_shape") ==
      (if HasDynamic(raw) then Some(d["typical_shape"][0]) else ValueAt(raw, "typical_shape"))
    && ValueAt(c, "shape_range") == RangeLeft(raw)
  }

  lemma ShapeStays(raw: Case)
    ensures ShapeOf(WithUndefined(raw)) == ShapeOf(raw)
    ensures forall dim :: ShapeHas(raw, dim) <==> dim in ShapeOf(raw)
  {
  }

  /** A case is refused exactly if its shape is dynamic and there is no typical one; else it is finished. */
  lemma FinishedFields(d: Description, raw: Case)
    ensures Finished(d, raw).None? <==> HasDynamic(raw) && !("typical_shape" in d && d["typical_shape"] != [])
    ensures Finished(d, raw).Some? ==> FinishedFrom(d, raw, Finished(d, raw).value)
  {
    ShapeStays(raw);
    TypicalIs(d, WithUndefined(raw), ShapeOf(raw));
  }

  lemma SameFields(a: Case, b: Case)
    requires forall k :: ValueAt(a, k) == ValueAt(b, k)
    ensures a == b
  {
    forall k ensures (k in a <==> k in b) && (k in a ==> a[k] == b[k]) { assert ValueAt(a, k) == ValueAt(b, k); }
  }

  lemma AlikeIsSame(d: Description, raw1: Case, raw2: Case)
    requires Finished(d, raw1).Some? && Finished(d, raw2).Some? && Alike(raw1, raw2)
    ensures Finished(d, raw1) == Finished(d, raw2)
  {
    var a, b := Finished(d, raw1).value, Finished(d, raw2).value;
    FinishedFields(d, raw1);
    FinishedFields(d, raw2);
    assert ValueAt(raw1, "shape") == ValueAt(raw2, "shape");
    forall k ensures ValueAt(a, k) == ValueAt(b, k) {
      if k !in CHANGED { assert ValueAt(raw1, k) == ValueAt(raw2, k); }
    }
    SameFields(a, b);
  }

  lemma SameIsAlike(d: Description, raw1: Case, raw2: Case, c: Case)
    requires Finished(d, raw1) == Some(c) == Finished(d, raw2)
    ensures Alike(raw1, raw2)
  {
    FinishedFields(d, raw1);
    FinishedFields(d, raw2);
    forall k | k !in CHANGED ensures ValueAt(raw1, k) == ValueAt(raw2, k) {
      assert ValueAt(c, k) == ValueAt(raw1, k);
    }
    assert ValueAt(raw1, "shape") == ValueAt(raw2, "shape");
    assert Blank(raw1) <==> ValueAt(c, "format") == Some(UNDEFINED);
  }

  /** Main result: two cases put together come out as the same case exactly if they are alike. */
  lemma AlikeExactly(d: Description, raw1: Case, raw2: Case)
    requires Finished(d, raw1).Some? && Finished(d, raw2).Some?
    ensures Finished(d, raw1) == Finished(d, raw2) <==> Alike(raw1, raw2)
  {
    if Alike(raw1, raw2) { AlikeIsSame(d, raw1, raw2); }
    if Finished(d, raw1) == Finished(d, raw2) { SameIsAlike(d, raw1, raw2, Finished(d, raw1).value); }
  }
}
