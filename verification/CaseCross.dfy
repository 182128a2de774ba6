/** Test cases by crossing the values of the fields of a tensor (main/subcase_design_cross.py). */
module CaseCross {
  import opened Wrappers
  import opened Cartesian
  import opened CaseFields

  /** A field of a crossed row: one value, or a value with its original one. */
  datatype Field = Plain(value: Value) | Both(value: Value, ori: Value)

  /** Python's `list.insert`. */
  function Insert(keys: seq<string>, at: nat, key: string): seq<string> {
    if at <= |keys| then keys[..at] + [key] + keys[at..] else keys + [key]
  }

  function Zip(xs: seq<Value>, ys: seq<Value>): seq<Field> {
    seq(if |xs| < |ys| then |xs| else |ys|, i requires 0 <= i < |xs| && i < |ys| => Both(xs[i], ys[i]))
  }

  function Plains(xs: seq<Value>): seq<Field> {
    seq(|xs|, i requires 0 <= i < |xs| => Plain(xs[i]))
  }

  function Flat(row: seq<Field>): seq<Value> {
    if row == [] then []
    else Flat(row[..|row| - 1]) + match row[|row| - 1] case Plain(v) => [v] case Both(v, w) => [v, w]
  }

  /** `_get_data_list`. */
  method GetDataList(row: seq<Field>) returns (data: seq<Value>)
    ensures data == Flat(row)
  {
    data := [];
    for i := 0 to |row|
      invariant data == Flat(row[..i])
    {
      assert row[..i + 1][..i] == row[..i];
      match row[i] {
        case Both(v, w) => data := data + [v] + [w];
        case Plain(v) => data := data + [v];
      }
    }
    assert row[..|row|] == row;
  }

  /** The fields that are crossed alone. */
  function Others(keys: seq<string>): seq<string> {
    if keys == [] then []
    else Others(keys[..|keys| - 1]) + if keys[|keys| - 1] in ["format", "shape"] then [] else [keys[|keys| - 1]]
  }

  function PlainLists(d: Description, keys: seq<string>): seq<seq<Field>>
    requires forall k :: k in keys ==> k in d
  {
    seq(|keys|, i requires 0 <= i < |keys| => Plains(d[keys[i]]))
  }

  predicate HasAll(d: Description, keys: seq<string>) {
    forall k :: k in keys ==> k in d
  }

  const PAIRED: seq<string> := ["format", "ori_format", "shape", "ori_shape"]

  /** The lists that are crossed when there are original formats and shapes. */
  function PairedLists(d: Description, keys: seq<string>): seq<seq<Field>>
    requires HasAll(d, PAIRED) && HasAll(d, keys)
  {
    [Zip(d["format"], d["ori_format"]), Zip(d["shape"], d["ori_shape"])] + PlainLists(d, keys)
  }

  /** All the keys, and the lists of those that are crossed alone. */
  method SplitKeys(d: Description, crossKeys: seq<string>) returns (keys: seq<string>, crossed: seq<seq<Field>>)
    requires HasAll(d, crossKeys)
    ensures keys == crossKeys && HasAll(d, Others(crossKeys)) && crossed == PlainLists(d, Others(crossKeys))
  {
    crossed := [];
    keys := [];
    for i := 0 to |crossKeys|
      invariant keys == crossKeys[..i] && HasAll(d, Others(crossKeys[..i])) &&
        crossed == PlainLists(d, Others(crossKeys[..i]))
    {
      assert crossKeys[..i + 1][..i] == crossKeys[..i];
      keys := keys + [crossKeys[i]];
      if crossKeys[i] !in ["format", "shape"] {
        crossed := crossed + [Plains(d[crossKeys[i]])];
      }
    }
    assert crossKeys[..|crossKeys|] == crossKeys;
  }

  /** The keys with the original ones behind the first and, then, in the fourth place, or as far as there are keys. */
  ghost predicate Beside(keys: seq<string>, crossKeys: seq<string>) {
    var one, two := if |crossKeys| < 1 then 0 else 1, if |crossKeys| < 2 then |crossKeys| else 2;
    keys == crossKeys[..one] + ["ori_format"] + crossKeys[one..two] + ["ori_shape"] + crossKeys[two..]
  }

  lemma InsertedBeside(crossKeys: seq<string>)
    ensures Beside(Insert(Insert(crossKeys, 1, "ori_format"), 3, "ori_shape"), crossKeys)
  {
  }

  /** The numbers of values that are crossed: formats and shapes as far as both they and the original ones go. */
  ghost function Counts(formats: (seq<Value>, seq<Value>), shapes: (seq<Value>, seq<Value>),
                        others: seq<seq<Value>>): seq<nat>
  {
    [if |formats.0| < |formats.1| then |formats.0| else |formats.1|,
     if |shapes.0| < |shapes.1| then |shapes.0| else |shapes.1|] + Sizes(others)
  }

  /** The row of these positions: format and original format, shape and original shape, and the others. */
  ghost predicate PairedRow(formats: (seq<Value>, seq<Value>), shapes: (seq<Value>, seq<Value>),
                            others: seq<seq<Value>>, digits: seq<int>, row: seq<Value>)
  {
    && |digits| == |others| + 2 && |row| == |others| + 4
    && 0 <= digits[0] < |formats.0| && digits[0] < |formats.1|
    && 0 <= digits[1] < |shapes.0| && digits[1] < |shapes.1|
    && row[0] == formats.0[digits[0]] && row[1] == formats.1[digits[0]]
    && row[2] == shapes.0[digits[1]] && row[3] == shapes.1[digits[1]]
    && forall j :: 0 <= j < |others| ==>
         0 <= digits[j + 2] < |others[j]| && row[j + 4] == others[j][digits[j + 2]]
  }

  /** The lists that are crossed. */
  ghost function Paired(formats: (seq<Value>, seq<Value>), shapes: (seq<Value>, seq<Value>),
                        others: seq<seq<Value>>): seq<seq<Field>>
  {
    [Zip(formats.0, formats.1), Zip(shapes.0, shapes.1)] +
      seq(|others|, i requires 0 <= i < |others| => Plains(others[i]))
  }

  lemma CountsAre(formats: (seq<Value>, seq<Value>), shapes: (seq<Value>, seq<Value>), others: seq<seq<Value>>)
    ensures Sizes(Paired(formats, shapes, others)) == Counts(formats, shapes, others)
  {
  }

  lemma DigitsFit(formats: (seq<Value>, seq<Value>), shapes: (seq<Value>, seq<Value>), others: seq<seq<Value>>,
                  digits: seq<int>)
    requires Choice(digits, Counts(formats, shapes, others))
    ensures |digits| == |others| + 2 && Choice(digits[2..], Sizes(others))
    ensures 0 <= digits[0] < |formats.0| && digits[0] < |formats.1|
    ensures 0 <= digits[1] < |shapes.0| && digits[1] < |shapes.1|
  {
    var sizes := Counts(formats, shapes, others);
    assert digits[0] < sizes[0] && digits[1] < sizes[1];
    forall j | 0 <= j < |others| ensures 0 <= digits[2..][j] < Sizes(others)[j] {
      assert sizes[j + 2] == Sizes(others)[j];
    }
  }

  lemma PickedPaired(formats: (seq<Value>, seq<Value>), shapes: (seq<Value>, seq<Value>), others: seq<seq<Value>>,
                     digits: seq<int>)
    requires Choice(digits, Counts(formats, shapes, others))
    requires |digits| == |others| + 2 && Choice(digits[2..], Sizes(others))
    requires 0 <= digits[0] < |formats.0| && digits[0] < |formats.1|
    requires 0 <= digits[1] < |shapes.0| && digits[1] < |shapes.1|
    requires Sizes(Paired(formats, shapes, others)) == Counts(formats, shapes, others)
    ensures Picked(digits, Paired(formats, shapes, others)) ==
      [Both(formats.0[digits[0]], formats.1[digits[0]]), Both(shapes.0[digits[1]], shapes.1[digits[1]])] +
        Plains(Picked(digits[2..], others))
  {
    var lists, vs := Paired(formats, shapes, others), Picked(digits[2..], others);
    forall j | 0 <= j < |others| ensures Picked(digits, lists)[j + 2] == Plain(vs[j]) {
      assert lists[j + 2] == Plains(others[j]);
    }
  }

  lemma PairedRowIs(formats: (seq<Value>, seq<Value>), shapes: (seq<Value>, seq<Value>), others: seq<seq<Value>>,
                    r: nat)
    requires r < |Product(Paired(formats, shapes, others))|
    ensures PairedRow(formats, shapes, others, Digits(r, Counts(formats, shapes, others)),
      Flat(Product(Paired(formats, shapes, others))[r]))
  {
    var digits := Digits(r, Counts(formats, shapes, others));
    CountsAre(formats, shapes, others);
    RowHolds(Paired(formats, shapes, others), r);
    DigitsFit(formats, shapes, others, digits);
    PickedPaired(formats, shapes, others, digits);
    FlatPairs(formats.0[digits[0]], formats.1[digits[0]], shapes.0[digits[1]], shapes.1[digits[1]],
      Picked(digits[2..], others));
  }

  /** Every row has the values at the positions that its number stands for. */
  ghost predicate PairedRows(d: Description, others: seq<string>, rows: seq<seq<Value>>)
    requires HasAll(d, PAIRED) && HasAll(d, others)
  {
    var formats, shapes, lists := (d["format"], d["ori_format"]), (d["shape"], d["ori_shape"]), Lists(d, others);
    forall r :: 0 <= r < |rows| ==>
      PairedRow(formats, shapes, lists, Digits(r, Counts(formats, shapes, lists)), rows[r])
  }

  lemma RowsArePaired(d: Description, others: seq<string>, rows: seq<seq<Value>>)
    requires HasAll(d, PAIRED) && HasAll(d, others) && |rows| == |Product(PairedLists(d, others))|
    requires forall r :: 0 <= r < |rows| ==> rows[r] == Flat(Product(PairedLists(d, others))[r])
    ensures PairedRows(d, others, rows)
  {
    PairedListsAre(d, others);
    forall r | 0 <= r < |rows| {
      PairedRowIs((d["format"], d["ori_format"]), (d["shape"], d["ori_shape"]), Lists(d, others), r);
    }
  }

  lemma PairedListsAre(d: Description, others: seq<string>)
    requires HasAll(d, PAIRED) && HasAll(d, others)
    ensures PairedLists(d, others) ==
      Paired((d["format"], d["ori_format"]), (d["shape"], d["ori_shape"]), Lists(d, others))
  {
    assert PlainLists(d, others) ==
      seq(|others|, i requires 0 <= i < |others| => Plains(Lists(d, others)[i]));
  }

  /** `combine_ori_field_to_cross`. */
  method CombineOriFieldToCross(d: Description, crossKeys: seq<string>)
    returns (keys: seq<string>, rows: seq<seq<Value>>)
    requires HasAll(d, PAIRED) && HasAll(d, crossKeys)
    ensures keys == Insert(Insert(crossKeys, 1, "ori_format"), 3, "ori_shape")
    ensures HasAll(d, Others(crossKeys)) && |rows| == |Product(PairedLists(d, Others(crossKeys)))|
    ensures forall r :: 0 <= r < |rows| ==> rows[r] == Flat(Product(PairedLists(d, Others(crossKeys)))[r])
    ensures Beside(keys, crossKeys)
    ensures PairedRows(d, Others(crossKeys), rows)
  {
    InsertedBeside(crossKeys);
    var crossed: seq<seq<Field>>;
    keys, crossed := SplitKeys(d, crossKeys);
    keys := Insert(keys, 1, "ori_format");
    keys := Insert(keys, 3, "ori_shape");
    var product := Product([Zip(d["format"], d["ori_format"]), Zip(d["shape"], d["ori_shape"])] + crossed);
    rows := [];
    for r := 0 to |product|
      invariant |rows| == r && forall q :: 0 <= q < r ==> rows[q] == Flat(product[q])
    {
      var data := GetDataList(product[r]);
      rows := rows + [data];
    }
    RowsArePaired(d, Others(crossKeys), rows);
  }

  /** A row as a dictionary: a key that comes twice keeps its last value. */
  function CaseOf(keys: seq<string>, row: seq<Value>): Case
    requires |keys| <= |row|
  {
    if keys == [] then map[] else CaseOf(keys[..|keys| - 1], row)[keys[|keys| - 1] := row[|keys| - 1]]
  }

  predicate Distinct(keys: seq<string>) {
    forall i, j :: 0 <= i < j < |keys| ==> keys[i] != keys[j]
  }

  lemma {:induction false} CaseAt(keys: seq<string>, row: seq<Value>)
    requires |keys| <= |row| && Distinct(keys)
    ensures forall k :: k in CaseOf(keys, row) <==> k in keys
    ensures forall j :: 0 <= j < |keys| ==> CaseOf(keys, row)[keys[j]] == row[j]
  {
    if keys != [] {
      var n := |keys| - 1;
      CaseAt(keys[..n], row);
      assert keys == keys[..n] + [keys[n]];
      forall j | 0 <= j < |keys| ensures CaseOf(keys, row)[keys[j]] == row[j] {
        if j < n { assert keys[..n][j] == keys[j]; }
      }
    }
  }

  /** The rows as dictionaries, before anything else is done to them. */
  function RawCases(rows: seq<seq<Value>>, keys: seq<string>): (raw: seq<Case>)
    requires forall r :: 0 <= r < |rows| ==> |keys| <= |rows[r]|
    ensures |raw| == |rows|
  {
    seq(|rows|, r requires 0 <= r < |rows| => CaseOf(keys, rows[r]))
  }

  /** One row. */
  method GetCase(row: seq<Value>, keys: seq<string>) returns (c: Case)
    requires |keys| <= |row|
    ensures c == CaseOf(keys, row)
  {
    c := map[];
    for x := 0 to |keys|
      invariant c == CaseOf(keys[..x], row)
    {
      assert keys[..x + 1][..x] == keys[..x];
      c := c[keys[x] := row[x]];
    }
    assert keys[..|keys|] == keys;
  }

  /** One case, finished or refused. */
  method FinishCase(d: Description, row: seq<Value>, keys: seq<string>) returns (finished: Option<Case>)
    requires |keys| <= |row|
    ensures finished == Finished(d, CaseOf(keys, row))
  {
    var curParams := GetCase(row, keys);
    curParams := CheckCurParamsUndefined(curParams);
    finished := Some(curParams);
    if ShapeOf(curParams) != [] {
      finished := SetTypicalShape(d, curParams, ShapeOf(curParams));
    }
  }

  /** `_get_case_list`; nothing if a dynamic shape has no typical one. */
  method GetCaseList(d: Description, rows: seq<seq<Value>>, keys: seq<string>) returns (cases: Option<seq<Case>>)
    requires forall r :: 0 <= r < |rows| ==> |keys| <= |rows[r]|
    ensures cases == AllFinished(d, RawCases(rows, keys))
  {
    ghost var raw := RawCases(rows, keys);
    var list: seq<Case> := [];
    for r := 0 to |rows|
      invariant AllFinished(d, raw[..r]) == Some(list)
    {
      assert raw[..r + 1][..r] == raw[..r];
      var finished := FinishCase(d, rows[r], keys);
      assert finished == Finished(d, raw[r]);
      if finished.None? {
        AllFinishedAt(d, raw);
        return None;
      }
      list := list + [finished.value];
    }
    assert raw[..|rows|] == raw;
    cases := Some(list);
  }

  const NEW_KEYS: seq<string> := ["shape_range", "value", "is_const"]

  function NewKeysOf(d: Description, n: nat): seq<string>
    requires n <= |NEW_KEYS|
  {
    if n == 0 then [] else NewKeysOf(d, n - 1) + if Given(d, NEW_KEYS[n - 1]) then [NEW_KEYS[n - 1]] else []
  }

  /** The keys that are crossed: those of the operator, and the optional ones that the tensor has. */
  function CrossKeys(d: Description, opKeys: seq<string>): seq<string> {
    opKeys + NewKeysOf(d, |NEW_KEYS|)
  }

  function Lists(d: Description, keys: seq<string>): seq<seq<Value>>
    requires HasAll(d, keys)
  {
    seq(|keys|, i requires 0 <= i < |keys| => d[keys[i]])
  }

  predicate Original(d: Description) { Given(d, "ori_format") && Given(d, "ori_shape") }

  /** The fields are all there; original ones come one for one, and their keys are put where format and shape
      stand first. */
  predicate Crossable(d: Description, opKeys: seq<string>) {
    && HasAll(d, opKeys) && Distinct(CrossKeys(d, opKeys))
    && (Original(d) ==>
          && "ori_format" !in opKeys && "ori_shape" !in opKeys
          && |opKeys| >= 2 && opKeys[0] == "format" && opKeys[1] == "shape"
          && |d["ori_format"]| == |d["format"]| && |d["ori_shape"]| == |d["shape"]|)
  }

  /** The case takes, for each crossed key, the value of its own list at the given position; format and
      original format share theirs, and so do shape and original shape. */
  predicate Takes(c: Case, d: Description, keys: seq<string>, digits: seq<int>)
    requires HasAll(d, keys)
  {
    && Choice(digits, Sizes(Lists(d, keys)))
    && (forall j :: 0 <= j < |keys| ==> keys[j] in c && c[keys[j]] == d[keys[j]][digits[j]])
    && (Original(d) ==>
          && |digits| >= 2 && digits[0] < |d["ori_format"]| && digits[1] < |d["ori_shape"]|
          && "ori_format" in c && c["ori_format"] == d["ori_format"][digits[0]]
          && "ori_shape" in c && c["ori_shape"] == d["ori_shape"][digits[1]])
    && forall k :: k in c ==> k in keys || (Original(d) && k in ["ori_format", "ori_shape"])
  }

  lemma NewKeysGiven(d: Description, n: nat)
    requires n <= |NEW_KEYS|
    ensures forall k :: k in NewKeysOf(d, n) ==> k in d && k in NEW_KEYS
  {
  }

  /** Without original fields. */
  lemma PlainCase(d: Description, keys: seq<string>, row: nat)
    requires HasAll(d, keys) && Distinct(keys) && !Original(d) && row < |Product(Lists(d, keys))|
    ensures |Product(Lists(d, keys))[row]| == |keys|
    ensures Takes(CaseOf(keys, Product(Lists(d, keys))[row]), d, keys, Digits(row, Sizes(Lists(d, keys))))
  {
    RowHolds(Lists(d, keys), row);
    CaseAt(keys, Product(Lists(d, keys))[row]);
  }

  lemma {:induction false} FlatPairs(a: Value, b: Value, c: Value, e: Value, vs: seq<Value>)
    ensures Flat([Both(a, b), Both(c, e)] + Plains(vs)) == [a, b, c, e] + vs
  {
    var row := [Both(a, b), Both(c, e)] + Plains(vs);
    if vs == [] {
      assert row == [Both(a, b), Both(c, e)];
      assert [Both(a, b)][..0] == [] && Flat([Both(a, b)]) == [a, b];
      assert row[..1] == [Both(a, b)];
    } else {
      var n := |vs| - 1;
      FlatPairs(a, b, c, e, vs[..n]);
      assert row[..|row| - 1] == [Both(a, b), Both(c, e)] + Plains(vs[..n]);
    }
  }

  lemma {:induction false} OthersOf(keys: seq<string>, rest: seq<string>)
    requires keys == ["format", "shape"] + rest && Distinct(keys)
    ensures Others(keys) == rest
  {
    if rest == [] {
      assert keys[..1][..0] == [];
      assert Others(keys[..1]) == [];
    } else {
      var n := |rest| - 1;
      assert keys[..|keys| - 1] == ["format", "shape"] + rest[..n];
      assert keys[0] != keys[|keys| - 1] && keys[1] != keys[|keys| - 1];
      OthersOf(keys[..|keys| - 1], rest[..n]);
    }
  }

  /** The crossed lists, the first two of them paired with others. */
  function Combined(lists: seq<seq<Value>>, ori0: seq<Value>, ori1: seq<Value>): seq<seq<Field>>
    requires |lists| >= 2
  {
    [Zip(lists[0], ori0), Zip(lists[1], ori1)] +
      seq(|lists| - 2, i requires 0 <= i < |lists| - 2 => Plains(lists[i + 2]))
  }

  lemma CombinedSizes(lists: seq<seq<Value>>, ori0: seq<Value>, ori1: seq<Value>)
    requires |lists| >= 2 && |ori0| == |lists[0]| && |ori1| == |lists[1]|
    ensures Sizes(Combined(lists, ori0, ori1)) == Sizes(lists) &&
      |Product(Combined(lists, ori0, ori1))| == |Product(lists)|
  {
    SizesDecide(Combined(lists, ori0, ori1), lists);
  }

  lemma PickedCombined(lists: seq<seq<Value>>, ori0: seq<Value>, ori1: seq<Value>, digits: seq<int>)
    requires |lists| >= 2 && |ori0| == |lists[0]| && |ori1| == |lists[1]| && Choice(digits, Sizes(lists))
    requires Sizes(Combined(lists, ori0, ori1)) == Sizes(lists) && digits[0] < |ori0| && digits[1] < |ori1|
    ensures Picked(digits, Combined(lists, ori0, ori1)) ==
      [Both(lists[0][digits[0]], ori0[digits[0]]), Both(lists[1][digits[1]], ori1[digits[1]])] +
        Plains(Picked(digits, lists)[2..])
  {
    var combined, plains := Combined(lists, ori0, ori1), Plains(Picked(digits, lists)[2..]);
    var left := Picked(digits, combined);
    var right := [Both(lists[0][digits[0]], ori0[digits[0]]), Both(lists[1][digits[1]], ori1[digits[1]])] + plains;
    assert |left| == |right| == |lists|;
    forall j | 0 <= j < |lists|
      ensures left[j] == right[j]
    {
      assert 0 <= digits[j] < Sizes(lists)[j] == |lists[j]|;
      if j >= 2 {
        assert combined[j] == Plains(lists[j]);
        assert right[j] == plains[j - 2] == Plain(lists[j][digits[j]]);
      }
    }
  }

  /** A flattened row of them. */
  lemma CombinedRow(lists: seq<seq<Value>>, ori0: seq<Value>, ori1: seq<Value>, row: nat, digits: seq<int>)
    requires |lists| >= 2 && |ori0| == |lists[0]| && |ori1| == |lists[1]| && row < |Product(lists)| &&
      digits == Digits(row, Sizes(lists))
    ensures row < |Product(Combined(lists, ori0, ori1))|
    ensures Choice(digits, Sizes(lists)) && 0 <= digits[0] < |ori0| && 0 <= digits[1] < |ori1|
    ensures Flat(Product(Combined(lists, ori0, ori1))[row]) ==
      [lists[0][digits[0]], ori0[digits[0]], lists[1][digits[1]], ori1[digits[1]]] + Picked(digits, lists)[2..]
  {
    var combined := Combined(lists, ori0, ori1);
    CombinedSizes(lists, ori0, ori1);
    RowHolds(combined, row);
    assert Sizes(lists)[0] == |ori0| && Sizes(lists)[1] == |ori1|;
    var vs := Picked(digits, lists)[2..];
    PickedCombined(lists, ori0, ori1, digits);
    FlatPairs(lists[0][digits[0]], ori0[digits[0]], lists[1][digits[1]], ori1[digits[1]], vs);
  }

  /** The lists that are crossed are those of the keys, paired. */
  lemma PairedIsCombined(d: Description, keys: seq<string>, rest: seq<string>)
    requires keys == ["format", "shape"] + rest && HasAll(d, keys) && HasAll(d, PAIRED)
    ensures HasAll(d, rest) && PairedLists(d, rest) == Combined(Lists(d, keys), d["ori_format"], d["ori_shape"])
  {
    assert keys[0] == "format" && keys[1] == "shape" && keys[2..] == rest;
    assert forall k :: k in rest ==> k in keys;
    assert PlainLists(d, rest) == seq(|rest|, i requires 0 <= i < |rest| => Plains(Lists(d, keys)[i + 2]));
  }

  /** And its keys, with the original ones put beside theirs. */
  lemma PairedKeys(keys: seq<string>, rest: seq<string>)
    requires keys == ["format", "shape"] + rest && Distinct(keys) && "ori_format" !in rest && "ori_shape" !in rest
    ensures Insert(Insert(keys, 1, "ori_format"), 3, "ori_shape") == PAIRED + rest
    ensures Distinct(PAIRED + rest)
  {
    assert Insert(keys, 1, "ori_format") == ["format", "ori_format", "shape"] + rest;
    forall i, j | 0 <= i < j < |PAIRED + rest|
      ensures (PAIRED + rest)[i] != (PAIRED + rest)[j]
    {
      if j >= 4 {
        assert (PAIRED + rest)[j] == keys[j - 2] == rest[j - 4];
        if i >= 4 { assert (PAIRED + rest)[i] == keys[i - 2]; }
        assert keys[0] == "format" && keys[1] == "shape";
      }
    }
  }

  /** The values of a paired case. */
  lemma PairedCase(keys: seq<string>, rest: seq<string>, lists: seq<seq<Value>>, digits: seq<int>, v: Value, w: Value,
                   flat: seq<Value>)
    requires keys == ["format", "shape"] + rest && Distinct(PAIRED + rest) && |lists| == |keys| &&
      Choice(digits, Sizes(lists))
    requires |Picked(digits, lists)| == |keys|
    requires flat == [Picked(digits, lists)[0], v, Picked(digits, lists)[1], w] + Picked(digits, lists)[2..]
    ensures |flat| == |PAIRED + rest|
    ensures forall k :: k in CaseOf(PAIRED + rest, flat) <==> k in keys || k == "ori_format" || k == "ori_shape"
    ensures CaseOf(PAIRED + rest, flat)["ori_format"] == v && CaseOf(PAIRED + rest, flat)["ori_shape"] == w
    ensures forall j :: 0 <= j < |keys| ==> CaseOf(PAIRED + rest, flat)[keys[j]] == Picked(digits, lists)[j]
  {
    var all := PAIRED + rest;
    CaseAt(all, flat);
    assert all[0] == "format" && all[1] == "ori_format" && all[2] == "shape" && all[3] == "ori_shape";
    forall j | 0 <= j < |keys|
      ensures CaseOf(all, flat)[keys[j]] == Picked(digits, lists)[j]
    {
      var at := if j == 0 then 0 else j + if j == 1 then 1 else 2;
      assert all[at] == keys[j];
    }
    forall k ensures k in all <==> k in keys || k == "ori_format" || k == "ori_shape" {
      Members(PAIRED, rest, k);
      Members(["format", "shape"], rest, k);
    }
  }

  lemma Members(a: seq<string>, b: seq<string>, k: string)
    ensures k in a + b <==> k in a || k in b
  {
  }

  lemma {:induction false} SizesDecide<S, T>(xs: seq<seq<S>>, ys: seq<seq<T>>)
    requires Sizes(xs) == Sizes(ys)
    ensures |Product(xs)| == |Product(ys)|
  {
    assert |xs| == |Sizes(xs)| == |Sizes(ys)| == |ys|;
    if xs != [] {
      var n := |xs| - 1;
      ListsSplit(xs);
      ListsSplit(ys);
      ProductMore(xs[..n], xs[n]);
      ProductMore(ys[..n], ys[n]);
      assert Sizes(xs)[n] == |xs[n]| && Sizes(ys)[n] == |ys[n]|;
      assert Sizes(xs)[..n] == Sizes(xs[..n]) && Sizes(ys)[..n] == Sizes(ys[..n]);
      SizesDecide(xs[..n], ys[..n]);
      EachWithSize(Product(xs[..n]), xs[n]);
      EachWithSize(Product(ys[..n]), ys[n]);
    }
  }

  /** The cases of one tensor. */
  predicate Crossed(cases: seq<Case>, d: Description, keys: seq<string>)
    requires HasAll(d, keys)
  {
    && |cases| == |Product(Lists(d, keys))|
    && forall r :: 0 <= r < |cases| ==> Takes(cases[r], d, keys, Digits(r, Sizes(Lists(d, keys))))
  }

  lemma PairedTakes(d: Description, keys: seq<string>, rest: seq<string>, row: nat)
    requires keys == ["format", "shape"] + rest && HasAll(d, keys) && HasAll(d, PAIRED) && Original(d) &&
      Distinct(PAIRED + rest)
    requires |d["ori_format"]| == |Lists(d, keys)[0]| && |d["ori_shape"]| == |Lists(d, keys)[1]| &&
      row < |Product(Lists(d, keys))|
    ensures HasAll(d, rest) && row < |Product(PairedLists(d, rest))| &&
      |Flat(Product(PairedLists(d, rest))[row])| == |PAIRED + rest|
    ensures Takes(CaseOf(PAIRED + rest, Flat(Product(PairedLists(d, rest))[row])), d, keys,
      Digits(row, Sizes(Lists(d, keys))))
  {
    var lists := Lists(d, keys);
    var digits, v, w := Digits(row, Sizes(lists)), d["ori_format"], d["ori_shape"];
    PairedIsCombined(d, keys, rest);
    CombinedRow(lists, v, w, row, digits);
    PairedCase(keys, rest, lists, digits, v[digits[0]], w[digits[1]], Flat(Product(PairedLists(d, rest))[row]));
  }

  /** A tensor with original formats and shapes. */
  method CrossPaired(d: Description, crossKeys: seq<string>, ghost rest: seq<string>)
    returns (cases: Option<seq<Case>>, ghost raw: seq<Case>)
    requires crossKeys == ["format", "shape"] + rest && Distinct(crossKeys) && "ori_format" !in rest &&
      "ori_shape" !in rest
    requires HasAll(d, crossKeys) && HasAll(d, PAIRED) && Original(d)
    requires |d["ori_format"]| == |Lists(d, crossKeys)[0]| && |d["ori_shape"]| == |Lists(d, crossKeys)[1]|
    ensures Crossed(raw, d, crossKeys) && cases == AllFinished(d, raw)
  {
    OthersOf(crossKeys, rest);
    PairedKeys(crossKeys, rest);
    PairedIsCombined(d, crossKeys, rest);
    CombinedSizes(Lists(d, crossKeys), d["ori_format"], d["ori_shape"]);
    var keys, rows := CombineOriFieldToCross(d, crossKeys);
    forall r | 0 <= r < |rows|
      ensures |keys| <= |rows[r]| && Takes(CaseOf(keys, rows[r]), d, crossKeys, Digits(r, Sizes(Lists(d, crossKeys))))
    {
      PairedTakes(d, crossKeys, rest, r);
    }
    raw := RawCases(rows, keys);
    cases := GetCaseList(d, rows, keys);
  }

  /** A tensor without. */
  method CrossPlain(d: Description, crossKeys: seq<string>) returns (cases: Option<seq<Case>>, ghost raw: seq<Case>)
    requires HasAll(d, crossKeys) && Distinct(crossKeys) && !Original(d)
    ensures Crossed(raw, d, crossKeys) && cases == AllFinished(d, raw)
  {
    var lists: seq<seq<Value>> := [];
    for i := 0 to |crossKeys|
      invariant lists == Lists(d, crossKeys)[..i]
    {
      lists := lists + [d[crossKeys[i]]];
    }
    assert lists == Lists(d, crossKeys);
    var rows := Product(lists);
    forall r | 0 <= r < |rows|
      ensures |crossKeys| <= |rows[r]| &&
        Takes(CaseOf(crossKeys, rows[r]), d, crossKeys, Digits(r, Sizes(Lists(d, crossKeys))))
    {
      PlainCase(d, crossKeys, r);
    }
    raw := RawCases(rows, crossKeys);
    cases := GetCaseList(d, rows, crossKeys);
  }

  /** What `Crossable` gives where there are original fields. */
  lemma PairedFits(d: Description, opKeys: seq<string>, keys: seq<string>)
    requires Crossable(d, opKeys) && Original(d) && keys == CrossKeys(d, opKeys)
    ensures HasAll(d, keys) && HasAll(d, PAIRED) && |keys| >= 2 && keys == ["format", "shape"] + keys[2..]
    ensures "ori_format" !in keys[2..] && "ori_shape" !in keys[2..]
    ensures |d["ori_format"]| == |Lists(d, keys)[0]| && |d["ori_shape"]| == |Lists(d, keys)[1]|
  {
    NewKeysGiven(d, |NEW_KEYS|);
    assert keys[0] == opKeys[0] == "format" && keys[1] == opKeys[1] == "shape";
    assert "format" in opKeys && "shape" in opKeys;
    forall k | k in keys[2..] ensures k != "ori_format" && k != "ori_shape" {
      assert k in keys;
      assert k in opKeys || k in NEW_KEYS;
    }
  }

  /** One optional key, if the tensor has values for it. */
  ghost function IfGiven(d: Description, key: string): seq<string> {
    if key in d && d[key] != [] then [key] else []
  }

  lemma CrossedByKeys(raw: seq<Case>, d: Description, opKeys: seq<string>)
    requires HasAll(d, CrossKeys(d, opKeys)) && Crossed(raw, d, CrossKeys(d, opKeys))
    ensures CrossedCases(raw, d, opKeys)
  {
    CrossKeysAre(d, opKeys);
  }

  lemma CrossKeysAre(d: Description, opKeys: seq<string>)
    ensures CrossKeys(d, opKeys) == opKeys + IfGiven(d, "shape_range") + IfGiven(d, "value") + IfGiven(d, "is_const")
  {
    assert NewKeysOf(d, 1) == NewKeysOf(d, 0) + IfGiven(d, NEW_KEYS[0]) && NewKeysOf(d, 0) == [];
    assert NewKeysOf(d, 2) == NewKeysOf(d, 1) + IfGiven(d, NEW_KEYS[1]);
    assert NewKeysOf(d, 3) == NewKeysOf(d, 2) + IfGiven(d, NEW_KEYS[2]);
  }

  /** The cases of a tensor as crossed: over the operator's keys and the optional ones that the tensor has. */
  ghost predicate CrossedCases(raw: seq<Case>, d: Description, opKeys: seq<string>) {
    var keys := opKeys + IfGiven(d, "shape_range") + IfGiven(d, "value") + IfGiven(d, "is_const");
    HasAll(d, keys) && Crossed(raw, d, keys)
  }

  /** All cases finished, one for one. */
  ghost predicate FinishedAll(d: Description, raw: seq<Case>, cases: seq<Case>) {
    |cases| == |raw| && forall r :: 0 <= r < |raw| ==> FinishedFrom(d, raw[r], cases[r])
  }

  /** Some case has a dynamic shape, and there is no typical one. */
  ghost predicate Refuses(d: Description, raw: seq<Case>) {
    exists r :: 0 <= r < |raw| && HasDynamic(raw[r]) && !("typical_shape" in d && d["typical_shape"] != [])
  }

  lemma FinishedOrRefused(d: Description, raw: seq<Case>)
    ensures AllFinished(d, raw).None? <==> Refuses(d, raw)
    ensures AllFinished(d, raw).Some? ==> FinishedAll(d, raw, AllFinished(d, raw).value)
  {
    AllFinishedAt(d, raw);
    forall r | 0 <= r < |raw|
      ensures Finished(d, raw[r]).None? <==>
        HasDynamic(raw[r]) && !("typical_shape" in d && d["typical_shape"] != [])
      ensures Finished(d, raw[r]).Some? ==> FinishedFrom(d, raw[r], Finished(d, raw[r]).value)
    {
      FinishedFields(d, raw[r]);
    }
  }

  /** One tensor of `_cross_tensor`. */
  method CrossOne(d: Description, opKeys: seq<string>) returns (cases: Option<seq<Case>>, ghost raw: seq<Case>)
    requires Crossable(d, opKeys)
    ensures CrossedCases(raw, d, opKeys) && cases == AllFinished(d, raw)
  {
    var crossKeys := opKeys;
    for i := 0 to |NEW_KEYS|
      invariant crossKeys == opKeys + NewKeysOf(d, i)
    {
      if Given(d, NEW_KEYS[i]) { crossKeys := crossKeys + [NEW_KEYS[i]]; }
    }
    NewKeysGiven(d, |NEW_KEYS|);
    if Given(d, "ori_format") && Given(d, "ori_shape") {
      PairedFits(d, opKeys, crossKeys);
      cases, raw := CrossPaired(d, crossKeys, crossKeys[2..]);
    } else {
      cases, raw := CrossPlain(d, crossKeys);
    }
    CrossedByKeys(raw, d, opKeys);
  }

  /** `_cross_tensor`, watched at any one tensor: `raw` are the cases of tensor `at` as crossed.  There is a result,
      with the finished cases of every tensor, exactly if none of them refuses, for which `at` is one that does. */
  method CrossTensor(tensors: seq<Description>, opKeys: seq<string>, ghost watched: nat)
    returns (all: Option<seq<seq<Case>>>, ghost raw: seq<Case>, ghost at: nat)
    requires forall t :: 0 <= t < |tensors| ==> Crossable(tensors[t], opKeys)
    ensures watched < |tensors| || all.None? ==> at < |tensors| && CrossedCases(raw, tensors[at], opKeys)
    ensures all.Some? ==> |all.value| == |tensors|
    ensures all.Some? && watched < |tensors| ==>
      at == watched && FinishedAll(tensors[at], raw, all.value[at]) && !Refuses(tensors[at], raw)
    ensures all.None? ==> Refuses(tensors[at], raw)
  {
    var list: seq<seq<Case>> := [];
    raw, at := [], watched;
    for t := 0 to |tensors|
      invariant |list| == t && at == watched
      invariant watched < t ==>
        CrossedCases(raw, tensors[at], opKeys) && AllFinished(tensors[at], raw) == Some(list[at])
    {
      var cases;
      ghost var crossed;
      cases, crossed := CrossOne(tensors[t], opKeys);
      if cases.None? {
        FinishedOrRefused(tensors[t], crossed);
        return None, crossed, t;
      }
      if t == watched { raw := crossed; }
      list := list + [cases.value];
    }
    if watched < |tensors| { FinishedOrRefused(tensors[at], raw); }
    all := Some(list);
  }

  /** Main result: each combination of positions is the case of exactly one row. */
  lemma EachCombinationOnce(cases: seq<Case>, d: Description, keys: seq<string>, digits: seq<int>)
    requires HasAll(d, keys) && Crossed(cases, d, keys) && Choice(digits, Sizes(Lists(d, keys)))
    ensures exists r :: TakesRow(cases, d, keys, digits, r) && forall q :: TakesRow(cases, d, keys, digits, q) ==>
      q == r
  {
    var lists := Lists(d, keys);
    ChoiceHasRow(lists, digits);
    var r := RowOf(digits, Sizes(lists));
    forall q | TakesRow(cases, d, keys, digits, q) ensures q == r { RowHolds(lists, q); }
    assert TakesRow(cases, d, keys, digits, r);
  }

  /** Row `r` is the case of these positions. */
  predicate TakesRow(cases: seq<Case>, d: Description, keys: seq<string>, digits: seq<int>, r: nat)
    requires HasAll(d, keys)
  {
    r < |cases| && Digits(r, Sizes(Lists(d, keys))) == digits && Takes(cases[r], d, keys, digits)
  }

  /** Two cases take the values of some keys from the same positions. */
  predicate SamePositions(input: Description, output: Description, a: Case, b: Case, keys: seq<string>,
                          digits: seq<int>)
  {
    |digits| == |keys| && forall j :: 0 <= j < |keys| ==>
      var k := keys[j];
      && k in input && k in output && k in a && k in b && 0 <= digits[j] < |input[k]| && digits[j] < |output[k]|
      && a[k] == input[k][digits[j]] && b[k] == output[k][digits[j]]
  }

  lemma PrefixAligned(input: Description, output: Description, a: Case, b: Case, inKeys: seq<string>,
                      outKeys: seq<string>,
                      shared: seq<string>, sizes: seq<nat>, r: nat)
    requires HasAll(input, inKeys) && Takes(a, input, inKeys, Digits(r, Sizes(Lists(input, inKeys))))
    requires HasAll(output, outKeys) && Takes(b, output, outKeys, Digits(r, Sizes(Lists(output, outKeys))))
    requires |shared| == 3 && |inKeys| >= 3 && |outKeys| >= 3 && inKeys[..3] == outKeys[..3] == shared
    requires forall k :: k in inKeys[3..] ==> |input[k]| == 1
    requires forall k :: k in outKeys[3..] ==> |output[k]| == 1
    requires |sizes| == 3 && forall j :: 0 <= j < 3 ==> |input[inKeys[j]]| == |output[outKeys[j]]| == sizes[j]
    ensures SamePositions(input, output, a, b, shared, Digits(r, sizes))
  {
    ByDigits(input, a, inKeys, shared, sizes, r);
    ByDigits(output, b, outKeys, shared, sizes, r);
    BothBy(input, output, a, b, shared, Digits(r, sizes));
  }

  lemma BothBy(input: Description, output: Description, a: Case, b: Case, shared: seq<string>, digits: seq<int>)
    requires |shared| == |digits| == 3 && ByPositions(input, a, shared, digits) &&
      ByPositions(output, b, shared, digits)
    ensures SamePositions(input, output, a, b, shared, digits)
  {
  }

  /** A case takes the values of some keys from these positions. */
  predicate ByPositions(d: Description, c: Case, keys: seq<string>, digits: seq<int>)
    requires |digits| == |keys|
  {
    forall j :: 0 <= j < |keys| ==>
      keys[j] in d && keys[j] in c && 0 <= digits[j] < |d[keys[j]]| && c[keys[j]] == d[keys[j]][digits[j]]
  }

  /** A case takes its first three values from the positions that the row has in their lists alone. */
  lemma ByDigits(d: Description, c: Case, keys: seq<string>, shared: seq<string>, sizes: seq<nat>, r: nat)
    requires HasAll(d, keys) && Takes(c, d, keys, Digits(r, Sizes(Lists(d, keys))))
    requires |shared| == 3 && |keys| >= 3 && keys[..3] == shared && |sizes| == 3
    requires forall j :: 0 <= j < 3 ==> sizes[j] == |d[keys[j]]|
    requires forall k :: k in keys[3..] ==> |d[k]| == 1
    ensures ByPositions(d, c, shared, Digits(r, sizes))
  {
    OnesAfter(d, keys, sizes, r);
    var all := Digits(r, Sizes(Lists(d, keys)));
    forall j | 0 <= j < 3
      ensures shared[j] in d && shared[j] in c && 0 <= Digits(r, sizes)[j] < |d[shared[j]]| &&
        c[shared[j]] == d[shared[j]][Digits(r, sizes)[j]]
    {
      assert keys[j] == keys[..3][j] == shared[j];
      assert all[j] == all[..3][j] == Digits(r, sizes)[j];
      assert Sizes(Lists(d, keys))[j] == |d[keys[j]]|;
    }
  }

  /** Main result: where all further fields have one value, row `r` of every input and of every output takes
      the same positions in the lists of formats, shapes and types, provided those lists are equally long. */
  lemma RowsAligned(input: Description, output: Description, ins: seq<Case>, outs: seq<Case>, inKeys: seq<string>,
                    outKeys: seq<string>, r: nat)
    requires inKeys == CrossKeys(input, ["format", "shape", "type", "data_distribute", "value_range"])
    requires outKeys == CrossKeys(output, ["format", "shape", "type"])
    requires HasAll(input, inKeys) && Crossed(ins, input, inKeys) && r < |ins|
    requires HasAll(output, outKeys) && Crossed(outs, output, outKeys) && r < |outs|
    requires forall j :: 0 <= j < 3 ==> |input[inKeys[j]]| == |output[outKeys[j]]|
    requires forall k :: k in inKeys[3..] ==> |input[k]| == 1
    requires forall k :: k in outKeys[3..] ==> |output[k]| == 1
    ensures exists digits :: SamePositions(input, output, ins[r], outs[r], ["format", "shape", "type"], digits)
  {
    var shared := ["format", "shape", "type"];
    assert inKeys[..3] == shared && outKeys[..3] == shared;
    var sizes := seq(3, j requires 0 <= j < 3 => |output[outKeys[j]]|);
    PrefixAligned(input, output, ins[r], outs[r], inKeys, outKeys, shared, sizes, r);
  }

  lemma OnesAfter(d: Description, keys: seq<string>, sizes: seq<nat>, r: nat)
    requires HasAll(d, keys) && |keys| >= 3 && |sizes| == 3 && (forall j :: 0 <= j < 3 ==> sizes[j] == |d[keys[j]]|)
    requires forall k :: k in keys[3..] ==> |d[k]| == 1
    ensures Digits(r, Sizes(Lists(d, keys)))[..3] == Digits(r, sizes)
  {
    var ones := Sizes(Lists(d, keys))[3..];
    assert Sizes(Lists(d, keys)) == sizes + ones;
    forall j | 0 <= j < |ones| ensures ones[j] == 1 { assert keys[3..][j] == keys[3 + j]; }
    SingleValues(r, sizes, ones);
  }

  /** The two positions of key `j` hold the same value. */
  predicate SameChoice(d: Description, keys: seq<string>, x: seq<int>, y: seq<int>, j: nat)
    requires HasAll(d, keys) && Choice(x, Sizes(Lists(d, keys))) && Choice(y, Sizes(Lists(d, keys))) && j < |keys|
  {
    d[keys[j]][x[j]] == d[keys[j]][y[j]]
  }

  /** Key by key. */
  predicate SameAt(d: Description, keys: seq<string>, x: seq<int>, y: seq<int>, key: string)
    requires HasAll(d, keys) && Choice(x, Sizes(Lists(d, keys))) && Choice(y, Sizes(Lists(d, keys)))
  {
    forall j :: 0 <= j < |keys| && keys[j] == key ==> SameChoice(d, keys, x, y, j)
  }

  lemma ValuesChosen(d: Description, keys: seq<string>, x: seq<int>, y: seq<int>, a: Case, b: Case, key: string)
    requires HasAll(d, keys) && Takes(a, d, keys, x) && Takes(b, d, keys, y)
    requires key in keys || key !in ["ori_format", "ori_shape"]
    ensures ValueAt(a, key) == ValueAt(b, key) <==> SameAt(d, keys, x, y, key)
  {
    if key in keys {
      var j :| 0 <= j < |keys| && keys[j] == key;
      assert SameChoice(d, keys, x, y, j) <==> a[key] == b[key];
    }
  }

  /** The original fields, which follow the ones they belong to. */
  predicate SameOriginal(d: Description, x: seq<int>, y: seq<int>) {
    Original(d) && |x| >= 2 && |y| >= 2 ==>
      && 0 <= x[0] < |d["ori_format"]| && 0 <= y[0] < |d["ori_format"]| &&
        d["ori_format"][x[0]] == d["ori_format"][y[0]]
      && 0 <= x[1] < |d["ori_shape"]| && 0 <= y[1] < |d["ori_shape"]| && d["ori_shape"][x[1]] == d["ori_shape"][y[1]]
  }

  lemma OriginalChosen(d: Description, keys: seq<string>, x: seq<int>, y: seq<int>, a: Case, b: Case)
    requires HasAll(d, keys) && Takes(a, d, keys, x) && Takes(b, d, keys, y)
    requires "ori_format" !in keys && "ori_shape" !in keys
    ensures SameOriginal(d, x, y) <==>
      ValueAt(a, "ori_format") == ValueAt(b, "ori_format") && ValueAt(a, "ori_shape") == ValueAt(b, "ori_shape")
  {
  }

  lemma OthersChosen(d: Description, keys: seq<string>, x: seq<int>, y: seq<int>, a: Case, b: Case)
    requires HasAll(d, keys) && Takes(a, d, keys, x) && Takes(b, d, keys, y)
    requires "ori_format" !in keys && "ori_shape" !in keys
    ensures (forall k :: k !in CHANGED ==> ValueAt(a, k) == ValueAt(b, k)) <==>
      (forall k :: k in keys && k !in CHANGED ==> SameAt(d, keys, x, y, k)) && SameOriginal(d, x, y)
  {
    OriginalChosen(d, keys, x, y, a, b);
    forall k | k !in ["ori_format", "ori_shape"] ensures ValueAt(a, k) == ValueAt(b, k) <==> SameAt(d, keys, x, y, k) {
      ValuesChosen(d, keys, x, y, a, b, k);
    }
    if forall k :: k !in CHANGED ==> ValueAt(a, k) == ValueAt(b, k) {
      assert "ori_format" !in CHANGED && "ori_shape" !in CHANGED;
    }
  }

  /** Main result: two combinations come out as the same case exactly if they choose the same values, except for
      formats and types that both become undefined, ranges that are dropped, and typical shapes that are replaced. */
  lemma SameCaseExactly(d: Description, keys: seq<string>, x: seq<int>, y: seq<int>, a: Case, b: Case)
    requires HasAll(d, keys) && "ori_format" !in keys && "ori_shape" !in keys
    requires Takes(a, d, keys, x) && Takes(b, d, keys, y) && Finished(d, a).Some? && Finished(d, b).Some?
    ensures Finished(d, a) == Finished(d, b) <==>
      && (forall k :: k in keys && k !in CHANGED ==> SameAt(d, keys, x, y, k)) && SameOriginal(d, x, y)
      && (Blank(a) <==> Blank(b))
      && (!Blank(a) ==> SameAt(d, keys, x, y, "format") && SameAt(d, keys, x, y, "type"))
      && (!HasDynamic(a) ==> SameAt(d, keys, x, y, "typical_shape"))
      && RangeLeft(a) == RangeLeft(b)
  {
    AlikeExactly(d, a, b);
    OthersChosen(d, keys, x, y, a, b);
    ValuesChosen(d, keys, x, y, a, b, "format");
    ValuesChosen(d, keys, x, y, a, b, "type");
    ValuesChosen(d, keys, x, y, a, b, "typical_shape");
  }
}
