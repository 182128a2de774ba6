/** Comparing the public functions of two interface files
    (auto_schedule/cann_interface_checker/cann_check_interface.py). */
module InterfaceDiff {
  import opened NameOrder

  /** Neither empty nor starting with an underscore. */
  predicate Public(name: Name) {
    name != [] && name[0] != '_'
  }

  predicate AllPublic(names: seq<Name>) {
    forall i :: 0 <= i < |names| ==> Public(names[i])
  }

  /** Padding as long as the name it stands beside. */
  function Padding(name: Name): Name {
    seq(|name|, i => '_')
  }

  /** Which lists a position of the printed ones stands for. */
  datatype Side = Both | Left | Right

  predicate OnlyUnderscores(name: Name) {
    forall i :: 0 <= i < |name| ==> name[i] == '_'
  }

  /** One position: the same name on both sides, or a name and underscores as long as it. */
  predicate Paired(x: Name, y: Name, side: Side) {
    match side
    case Both => x == y
    case Left => |y| == |x| && OnlyUnderscores(y)
    case Right => |x| == |y| && OnlyUnderscores(x)
  }

  lemma PaddingIs(x: Name, y: Name)
    ensures y == Padding(x) <==> |y| == |x| && OnlyUnderscores(y)
  {
    if |y| == |x| && OnlyUnderscores(y) { assert forall i :: 0 <= i < |y| ==> y[i] == Padding(x)[i]; }
  }

  /** What is left of a printed list when the positions of the other list are taken out. */
  function Kept(diff: seq<Name>, sides: seq<Side>, other: Side): seq<Name>
    requires |diff| == |sides|
  {
    if diff == [] then []
    else Kept(diff[..|diff| - 1], sides[..|diff| - 1], other) + if sides[|diff| - 1] == other then []
      else [diff[|diff| - 1]]
  }

  /** The two printed lists of `names1` and `names2`: equally long, position by position a pair, giving
      back each input when the padding is removed. */
  ghost predicate Aligned(names1: seq<Name>, names2: seq<Name>, diff1: seq<Name>, diff2: seq<Name>, sides: seq<Side>) {
    && |diff1| == |diff2| == |sides|
    && (forall k :: 0 <= k < |diff1| ==> Paired(diff1[k], diff2[k], sides[k]))
    && Kept(diff1, sides, Right) == names1 && Kept(diff2, sides, Left) == names2
  }

  /** Every name that both lists have stands beside itself. */
  predicate CommonMeet(names1: seq<Name>, names2: seq<Name>, diff1: seq<Name>, diff2: seq<Name>) {
    forall x :: x in names1 && x in names2 ==> exists k :: 0 <= k < |diff1| && k < |diff2| && diff1[k] == diff2[k] == x
  }

  /** None of the names still to come in one list has gone by in the other. */
  ghost predicate Apart(a: seq<Name>, b: seq<Name>, i: nat, j: nat)
    requires i <= |a| && j <= |b|
  {
    && (forall p, q :: 0 <= p < i && j <= q < |b| ==> a[p] != b[q])
    && (forall p, q :: i <= p < |a| && 0 <= q < j ==> a[p] != b[q])
  }

  /** The lists after `i` and `j` names have been dealt with. */
  ghost predicate Progress(a: seq<Name>, b: seq<Name>, i: nat, j: nat, d1: seq<Name>, d2: seq<Name>, sides: seq<Side>) {
    && i <= |a| && j <= |b| && Aligned(a[..i], b[..j], d1, d2, sides)
    && (Increasing(a) && Increasing(b) ==> Apart(a, b, i, j) && CommonMeet(a[..i], b[..j], d1, d2))
  }

  lemma Extend(d: seq<Name>, sides: seq<Side>, x: Name, side: Side, other: Side)
    requires |d| == |sides|
    ensures Kept(d + [x], sides + [side], other) == Kept(d, sides, other) + if side == other then [] else [x]
  {
    assert (d + [x])[..|d|] == d && (sides + [side])[..|d|] == sides;
  }

  lemma MeetMore(a: seq<Name>, b: seq<Name>, d1: seq<Name>, d2: seq<Name>, x: Name, y: Name, a': seq<Name>,
                 b': seq<Name>)
    requires CommonMeet(a, b, d1, d2) && |d1| == |d2|
    requires forall n :: n in a' && n in b' ==> (n in a && n in b) || n == x == y
    ensures CommonMeet(a', b', d1 + [x], d2 + [y])
  {
    var e1, e2 := d1 + [x], d2 + [y];
    forall n | n in a' && n in b'
      ensures exists k :: 0 <= k < |e1| && k < |e2| && e1[k] == e2[k] == n
    {
      if n in a && n in b {
        var k :| 0 <= k < |d1| && k < |d2| && d1[k] == d2[k] == n;
        assert e1[k] == e2[k] == n;
      } else {
        assert e1[|d1|] == e2[|d1|] == n;
      }
    }
  }

  lemma StepBoth(a: seq<Name>, b: seq<Name>, i: nat, j: nat, d1: seq<Name>, d2: seq<Name>, sides: seq<Side>)
    requires Progress(a, b, i, j, d1, d2, sides) && i < |a| && j < |b| && a[i] == b[j]
    ensures Progress(a, b, i + 1, j + 1, d1 + [a[i]], d2 + [b[j]], sides + [Both])
  {
    Extend(d1, sides, a[i], Both, Right);
    Extend(d2, sides, b[j], Both, Left);
    assert a[..i + 1] == a[..i] + [a[i]] && b[..j + 1] == b[..j] + [b[j]];
    if Increasing(a) && Increasing(b) {
      forall p | 0 <= p < |a| ensures p != i ==> a[p] != a[i] { LessTotal(a[p], a[i]); }
      forall q | 0 <= q < |b| ensures q != j ==> b[q] != b[j] { LessTotal(b[q], b[j]); }
      MeetMore(a[..i], b[..j], d1, d2, a[i], b[j], a[..i + 1], b[..j + 1]);
    }
  }

  lemma StepRight(a: seq<Name>, b: seq<Name>, i: nat, j: nat, d1: seq<Name>, d2: seq<Name>, sides: seq<Side>)
    requires Progress(a, b, i, j, d1, d2, sides) && j < |b|
    requires Increasing(a) && Increasing(b) ==> b[j] !in a[i..]
    ensures Progress(a, b, i, j + 1, d1 + [Padding(b[j])], d2 + [b[j]], sides + [Right])
  {
    Extend(d1, sides, Padding(b[j]), Right, Right);
    PaddingIs(b[j], Padding(b[j]));
    Extend(d2, sides, b[j], Right, Left);
    assert b[..j + 1] == b[..j] + [b[j]];
    assert a[..i] + [] == a[..i];
    if Increasing(a) && Increasing(b) {
      assert forall p :: i <= p < |a| ==> a[p] == a[i..][p - i];
      assert b[j] !in a[..i];
      MeetMore(a[..i], b[..j], d1, d2, Padding(b[j]), b[j], a[..i], b[..j + 1]);
    }
  }

  lemma StepLeft(a: seq<Name>, b: seq<Name>, i: nat, j: nat, d1: seq<Name>, d2: seq<Name>, sides: seq<Side>)
    requires Progress(a, b, i, j, d1, d2, sides) && i < |a|
    requires Increasing(a) && Increasing(b) ==> a[i] !in b[j..]
    ensures Progress(a, b, i + 1, j, d1 + [a[i]], d2 + [Padding(a[i])], sides + [Left])
  {
    Extend(d1, sides, a[i], Left, Right);
    Extend(d2, sides, Padding(a[i]), Left, Left);
    PaddingIs(a[i], Padding(a[i]));
    assert a[..i + 1] == a[..i] + [a[i]];
    assert b[..j] + [] == b[..j];
    if Increasing(a) && Increasing(b) {
      assert forall q :: j <= q < |b| ==> b[q] == b[j..][q - j];
      assert a[i] !in b[..j];
      MeetMore(a[..i], b[..j], d1, d2, a[i], Padding(a[i]), a[..i + 1], b[..j]);
    }
  }

  /** If `a[i]` is still to come in the other list, what comes before it there is not in this one any more. */
  lemma SkipRight(a: seq<Name>, b: seq<Name>, i: nat, j: nat, d1: seq<Name>, d2: seq<Name>, sides: seq<Side>)
    requires Progress(a, b, i, j, d1, d2, sides) && i < |a| && j < |b| && a[i] in b && a[i] != b[j]
    ensures Progress(a, b, i, j + 1, d1 + [Padding(b[j])], d2 + [b[j]], sides + [Right])
  {
    if Increasing(a) && Increasing(b) { NotToCome(a, b, i, j); }
    StepRight(a, b, i, j, d1, d2, sides);
  }

  lemma NotToCome(a: seq<Name>, b: seq<Name>, i: nat, j: nat)
    requires i < |a| && j < |b| && a[i] in b && a[i] != b[j] && Increasing(a) && Increasing(b) && Apart(a, b, i, j)
    ensures b[j] !in a[i..]
  {
    var q :| 0 <= q < |b| && b[q] == a[i];
    assert j < q;
    forall p | i <= p < |a|
      ensures a[p] != b[j]
    {
      LessTotal(b[j], a[p]);
      if i < p { LessTransitive(b[j], a[i], a[p]); }
    }
  }

  /** The padded lists, for any two lists; `sides` says which positions stand for which. */
  method BuildDiffListResult(names1: seq<Name>, names2: seq<Name>)
    returns (diff1: seq<Name>, diff2: seq<Name>, ghost sides: seq<Side>)
    ensures Aligned(names1, names2, diff1, diff2, sides)
    ensures Increasing(names1) && Increasing(names2) ==> CommonMeet(names1, names2, diff1, diff2)
    ensures AllPublic(names1) ==> Unpadded(diff1) == names1
    ensures AllPublic(names2) ==> Unpadded(diff2) == names2
  {
    diff1, diff2, sides := [], [], [];
    var len1, len2 := |names1|, |names2|;
    var i, j := 0, 0;
    while i < len1 || j < len2
      invariant Progress(names1, names2, i, j, diff1, diff2, sides)
      decreases len1 + len2 - i - j
    {
      if i < len1 && j < len2 {
        var x, y := names1[i], names2[j];
        if x == y {
          StepBoth(names1, names2, i, j, diff1, diff2, sides);
          diff1, diff2, sides := diff1 + [x], diff2 + [y], sides + [Both];
          i := i + 1;
          j := j + 1;
        } else if x in names2 {
          SkipRight(names1, names2, i, j, diff1, diff2, sides);
          diff1, diff2, sides := diff1 + [Padding(y)], diff2 + [y], sides + [Right];
          j := j + 1;
        } else if y in names1 {
          StepLeft(names1, names2, i, j, diff1, diff2, sides);
          diff1, diff2, sides := diff1 + [x], diff2 + [Padding(x)], sides + [Left];
          i := i + 1;
        } else {
          StepLeft(names1, names2, i, j, diff1, diff2, sides);
          diff1, diff2, sides := diff1 + [x], diff2 + [Padding(x)], sides + [Left];
          i := i + 1;
          StepRight(names1, names2, i, j, diff1, diff2, sides);
          diff1, diff2, sides := diff1 + [Padding(y)], diff2 + [y], sides + [Right];
          j := j + 1;
        }
      } else if i == len1 {
        while j < len2
          invariant Progress(names1, names2, i, j, diff1, diff2, sides)
        {
          StepRight(names1, names2, i, j, diff1, diff2, sides);
          diff1, diff2, sides := diff1 + [Padding(names2[j])], diff2 + [names2[j]], sides + [Right];
          j := j + 1;
        }
      } else {
        while i < len1
          invariant Progress(names1, names2, i, j, diff1, diff2, sides)
        {
          StepLeft(names1, names2, i, j, diff1, diff2, sides);
          diff1, diff2, sides := diff1 + [names1[i]], diff2 + [Padding(names1[i])], sides + [Left];
          i := i + 1;
        }
      }
    }
    assert names1[..i] == names1 && names2[..j] == names2;
    if AllPublic(names1) { PublicUnpadded(names1, diff1, diff2, sides, Right); }
    if AllPublic(names2) { PublicUnpadded(names2, diff2, diff1, sides, Left); }
  }

  /** Where the two sides agree it is on a name of both lists, or on one of underscores alone, which its own
      padding is taken for. */
  lemma AgreeOnNames(names1: seq<Name>, names2: seq<Name>, diff1: seq<Name>, diff2: seq<Name>, sides: seq<Side>, k: nat)
    requires Aligned(names1, names2, diff1, diff2, sides) && k < |diff1|
    ensures diff1[k] == diff2[k] <==>
      sides[k] == Both || (sides[k] == Left && OnlyUnderscores(diff1[k])) ||
        (sides[k] == Right && OnlyUnderscores(diff2[k]))
    ensures sides[k] == Both ==> diff1[k] in names1 && diff1[k] in names2
    ensures sides[k] == Left ==> diff1[k] in names1
    ensures sides[k] == Right ==> diff2[k] in names2
  {
    assert Paired(diff1[k], diff2[k], sides[k]);
    if sides[k] != Right { KeptKeeps(diff1, sides, Right, k); }
    if sides[k] != Left { KeptKeeps(diff2, sides, Left, k); }
    PaddingIs(diff1[k], diff1[k]);
    PaddingIs(diff2[k], diff2[k]);
    PaddingIs(diff1[k], diff2[k]);
    PaddingIs(diff2[k], diff1[k]);
  }

  lemma {:induction false} KeptKeeps(d: seq<Name>, sides: seq<Side>, other: Side, k: nat)
    requires k < |d| == |sides| && sides[k] != other
    ensures d[k] in Kept(d, sides, other)
  {
    if k < |d| - 1 { KeptKeeps(d[..|d| - 1], sides[..|d| - 1], other, k); }
  }

  /** The names of a padded list that padding cannot be taken for. */
  function Unpadded(list: seq<Name>): seq<Name> {
    if list == [] then []
    else Unpadded(list[..|list| - 1]) + if Public(list[|list| - 1]) then [list[|list| - 1]] else []
  }

  /** For public names the padding shows without being told: leaving out what starts with an underscore
      gives back each input. */
  lemma {:induction false} PublicUnpadded(names: seq<Name>, diff: seq<Name>, others: seq<Name>, sides: seq<Side>,
                                          other: Side)
    requires |diff| == |others| == |sides| && AllPublic(names) && Kept(diff, sides, other) == names
    requires forall k :: 0 <= k < |diff| && sides[k] == other ==> OnlyUnderscores(diff[k])
    ensures Unpadded(diff) == names
    decreases |diff|
  {
    if diff != [] {
      var n := |diff| - 1;
      var init := Kept(diff[..n], sides[..n], other);
      assert forall i :: 0 <= i < |init| ==> names[i] == init[i];
      if sides[n] != other {
        assert names == init + [diff[n]] && names[|init|] == diff[n];
      } else {
        assert names == init;
      }
      PublicUnpadded(init, diff[..n], others[..n], sides[..n], other);
    }
  }

  // ---- The comparison ----

  datatype Func = Func(name: Name, params: seq<Name>)

  /** What Python's `strip` takes for white space. */
  predicate Space(c: char) {
    || '\t' <= c <= '\r' || '\U{1c}' <= c <= ' ' || '\U{2000}' <= c <= '\U{200a}'
    || c in ['\U{85}', '\U{a0}', '\U{1680}', '\U{2028}', '\U{2029}', '\U{202f}', '\U{205f}', '\U{3000}']
  }

  function StripLeft(s: Name): Name { if s != [] && Space(s[0]) then StripLeft(s[1..]) else s }
  function StripRight(s: Name): Name { if s != [] && Space(s[|s| - 1]) then StripRight(s[..|s| - 1]) else s }
  function Strip(s: Name): Name { StripRight(StripLeft(s)) }

  /** White space ends behind `i` and begins again at `j`, and between them it neither begins nor ends. */
  ghost predicate Bare(s: Name, i: nat, j: nat) {
    && i <= j <= |s| && (i < j ==> !Space(s[i]) && !Space(s[j - 1]))
    && (forall k :: 0 <= k < i ==> Space(s[k])) && (forall k :: j <= k < |s| ==> Space(s[k]))
  }

  lemma {:induction false} LeftIs(s: Name) returns (i: nat)
    ensures i <= |s| && StripLeft(s) == s[i..] && (i < |s| ==> !Space(s[i])) && forall k :: 0 <= k < i ==> Space(s[k])
  {
    i := 0;
    if s != [] && Space(s[0]) {
      var rest := LeftIs(s[1..]);
      i := rest + 1;
      assert s[1..][rest..] == s[i..];
      assert forall k :: 0 < k < i ==> s[k] == s[1..][k - 1];
    }
  }

  lemma {:induction false} RightIs(s: Name) returns (j: nat)
    ensures j <= |s| && StripRight(s) == s[..j] && (j > 0 ==> !Space(s[j - 1]))
    ensures forall k :: j <= k < |s| ==> Space(s[k])
  {
    j := |s|;
    if s != [] && Space(s[|s| - 1]) { j := RightIs(s[..|s| - 1]); }
  }

  /** What `strip` leaves is the part between the white space at either end. */
  lemma StripExactly(s: Name, t: Name)
    ensures Strip(s) == t <==> exists i: nat, j: nat :: Bare(s, i, j) && t == s[i..j]
  {
    var i := LeftIs(s);
    var rest := RightIs(s[i..]);
    var j := i + rest;
    assert s[i..][..rest] == s[i..j];
    assert forall k :: i <= k < |s| ==> s[k] == s[i..][k - i];
    assert Bare(s, i, j);
    forall a: nat, b: nat | Bare(s, a, b) ensures s[a..b] == s[i..j] { BareOnce(s, a, b, i, j); }
  }

  lemma BareOnce(s: Name, a: nat, b: nat, i: nat, j: nat)
    requires Bare(s, a, b) && Bare(s, i, j)
    ensures s[a..b] == s[i..j]
  {
    if a < b { assert i <= a && b <= j; }
    if i < j { assert a <= i && j <= b; }
  }

  function Stripped(params: seq<Name>): seq<Name> {
    seq(|params|, i requires 0 <= i < |params| => Strip(params[i]))
  }

  /** `compare_func_spec`: the stripped parameters, in any order. */
  predicate CompareFuncSpec(f: Func, g: Func) {
    Sorted(Stripped(f.params)) == Sorted(Stripped(g.params))
  }

  /** A dictionary of functions by name, in insertion order. */
  predicate Dictionary(fs: seq<Func>) {
    forall i, j :: 0 <= i < j < |fs| ==> fs[i].name != fs[j].name
  }

  function PublicNames(fs: seq<Func>): seq<Name> {
    if fs == [] then [] else (if Public(fs[0].name) then [fs[0].name] else []) + PublicNames(fs[1..])
  }

  predicate HasName(fs: seq<Func>, name: Name) {
    exists i :: 0 <= i < |fs| && fs[i].name == name
  }

  function Lookup(fs: seq<Func>, name: Name): Func
    requires HasName(fs, name)
  {
    if fs[0].name == name then fs[0] else Lookup(fs[1..], name)
  }

  lemma {:induction false} PublicNamesFacts(fs: seq<Func>)
    requires Dictionary(fs)
    ensures AllPublic(PublicNames(fs)) && NoDuplicates(PublicNames(fs))
    ensures forall x :: x in PublicNames(fs) <==> Public(x) && HasName(fs, x)
  {
    if fs != [] {
      var f, rest := fs[0], fs[1..];
      PublicNamesFacts(rest);
      assert forall i :: 0 <= i < |rest| ==> rest[i] == fs[i + 1];
      assert forall x :: HasName(fs, x) <==> x == f.name || HasName(rest, x);
      assert !HasName(rest, f.name);
    }
  }

  /** The same public functions, with the same parameters up to order and surrounding space. */
  ghost predicate SameInterface(fs: seq<Func>, gs: seq<Func>) {
    && (forall x: Name :: x != [] && x[0] != '_' ==>
          ((exists i :: 0 <= i < |fs| && fs[i].name == x) <==> (exists j :: 0 <= j < |gs| && gs[j].name == x)))
    && (forall i, j ::
          0 <= i < |fs| && 0 <= j < |gs| && fs[i].name == gs[j].name && fs[i].name != [] && fs[i].name[0] != '_' ==>
          multiset(Stripped(fs[i].params)) == multiset(Stripped(gs[j].params)))
  }

  /** The same by looking functions up. */
  ghost predicate SameLookedUp(fs: seq<Func>, gs: seq<Func>) {
    && (forall x :: Public(x) ==> (HasName(fs, x) <==> HasName(gs, x)))
    && (forall x :: Public(x) && HasName(fs, x) && HasName(gs, x) ==>
          multiset(Stripped(Lookup(fs, x).params)) == multiset(Stripped(Lookup(gs, x).params)))
  }

  lemma {:induction false} LookupAt(fs: seq<Func>, i: nat)
    requires Dictionary(fs) && i < |fs|
    ensures HasName(fs, fs[i].name) && Lookup(fs, fs[i].name) == fs[i]
  {
    if i > 0 {
      assert fs[0].name != fs[i].name && fs[1..][i - 1] == fs[i];
      LookupAt(fs[1..], i - 1);
    }
  }

  lemma LookupIsSame(fs: seq<Func>, gs: seq<Func>)
    requires Dictionary(fs) && Dictionary(gs)
    ensures SameInterface(fs, gs) <==> SameLookedUp(fs, gs)
  {
    forall i | 0 <= i < |fs| ensures HasName(fs, fs[i].name) && Lookup(fs, fs[i].name) == fs[i] { LookupAt(fs, i); }
    forall j | 0 <= j < |gs| ensures HasName(gs, gs[j].name) && Lookup(gs, gs[j].name) == gs[j] { LookupAt(gs, j); }
    if SameInterface(fs, gs) {
      forall x | Public(x) && HasName(fs, x) && HasName(gs, x)
        ensures multiset(Stripped(Lookup(fs, x).params)) == multiset(Stripped(Lookup(gs, x).params))
      {
        var i :| 0 <= i < |fs| && fs[i].name == x;
        var j :| 0 <= j < |gs| && gs[j].name == x;
      }
    }
  }

  lemma SortedPublic(fs: seq<Func>)
    requires Dictionary(fs)
    ensures AllPublic(Sorted(PublicNames(fs))) && Increasing(Sorted(PublicNames(fs)))
    ensures forall x :: x in Sorted(PublicNames(fs)) <==> Public(x) && HasName(fs, x)
  {
    PublicNamesFacts(fs);
    SortedIncreasing(PublicNames(fs));
    var ys := Sorted(PublicNames(fs));
    forall i | 0 <= i < |ys| ensures Public(ys[i]) { assert ys[i] in ys; }
  }

  /** Interfaces with the same public names list them alike. */
  lemma SameNames(fs: seq<Func>, gs: seq<Func>)
    requires Dictionary(fs) && Dictionary(gs)
    requires forall x :: Public(x) ==> (HasName(fs, x) <==> HasName(gs, x))
    ensures Sorted(PublicNames(fs)) == Sorted(PublicNames(gs))
  {
    var xs, ys := PublicNames(fs), PublicNames(gs);
    PublicNamesFacts(fs);
    PublicNamesFacts(gs);
    OnceEach(xs);
    OnceEach(ys);
    forall x ensures multiset(xs)[x] == multiset(ys)[x] {
      assert x in xs <==> x in multiset(xs);
      assert x in ys <==> x in multiset(ys);
    }
    assert multiset(xs) == multiset(ys);
    SortedEqual(xs, ys);
  }

  function BothSides(n: nat): seq<Side> { seq(n, k => Both) }

  lemma {:induction false} AlignedSelf(names: seq<Name>)
    ensures Aligned(names, names, names, names, BothSides(|names|))
  {
    if names != [] {
      var init := names[..|names| - 1];
      AlignedSelf(init);
      assert names == init + [names[|names| - 1]];
      assert BothSides(|names|) == BothSides(|init|) + [Both];
      Extend(init, BothSides(|init|), names[|names| - 1], Both, Right);
      Extend(init, BothSides(|init|), names[|names| - 1], Both, Left);
    }
  }

  /** The stripped parameters of `x` on both sides, up to order. */
  predicate SameParams(fs: seq<Func>, gs: seq<Func>, x: Name) {
    HasName(fs, x) && HasName(gs, x) && CompareFuncSpec(Lookup(fs, x), Lookup(gs, x))
  }

  lemma ParamsAsMultisets(fs: seq<Func>, gs: seq<Func>, x: Name)
    requires HasName(fs, x) && HasName(gs, x)
    ensures SameParams(fs, gs, x) <==>
      multiset(Stripped(Lookup(fs, x).params)) == multiset(Stripped(Lookup(gs, x).params))
  {
    SortedEqual(Stripped(Lookup(fs, x).params), Stripped(Lookup(gs, x).params));
  }

  /** Same names and all of them with the same parameters: the same interface. */
  lemma AllSame(fs: seq<Func>, gs: seq<Func>, names: seq<Name>)
    requires Dictionary(fs) && Dictionary(gs)
    requires names == Sorted(PublicNames(fs)) == Sorted(PublicNames(gs))
    requires forall i :: 0 <= i < |names| ==> SameParams(fs, gs, names[i])
    ensures SameLookedUp(fs, gs)
  {
    SortedPublic(fs);
    SortedPublic(gs);
    forall x | Public(x) && HasName(fs, x) && HasName(gs, x)
      ensures multiset(Stripped(Lookup(fs, x).params)) == multiset(Stripped(Lookup(gs, x).params))
    {
      assert x in names;
      ParamsAsMultisets(fs, gs, x);
    }
  }

  /** A difference at one name is a difference of the interfaces. */
  lemma OneDiffers(fs: seq<Func>, gs: seq<Func>, x: Name)
    requires Public(x) && HasName(fs, x) && HasName(gs, x) && !SameParams(fs, gs, x)
    ensures !SameLookedUp(fs, gs)
  {
    ParamsAsMultisets(fs, gs, x);
  }

  /** A name that stands beside itself is a public name of both files. */
  lemma PairIsCommon(fs: seq<Func>, gs: seq<Func>, diff1: seq<Name>, diff2: seq<Name>, sides: seq<Side>, k: nat)
    requires Dictionary(fs) && Dictionary(gs) && k < |diff1| && k < |diff2| && diff1[k] == diff2[k]
    requires Aligned(Sorted(PublicNames(fs)), Sorted(PublicNames(gs)), diff1, diff2, sides)
    ensures Public(diff1[k]) && HasName(fs, diff1[k]) && HasName(gs, diff1[k])
  {
    SortedPublic(fs);
    SortedPublic(gs);
    AgreeOnNames(Sorted(PublicNames(fs)), Sorted(PublicNames(gs)), diff1, diff2, sides, k);
    assert forall x :: Public(x) ==> x[0] != '_' && !OnlyUnderscores(x);
  }

  lemma NamesDiffer(fs: seq<Func>, gs: seq<Func>)
    requires Dictionary(fs) && Dictionary(gs) && Sorted(PublicNames(fs)) != Sorted(PublicNames(gs))
    ensures !SameLookedUp(fs, gs)
  {
    if SameLookedUp(fs, gs) { SameNames(fs, gs); }
  }

  /** The loop over the two padded lists. */
  method ComparePositions(compareMatched: bool, fs: seq<Func>, gs: seq<Func>, diff1: seq<Name>, diff2: seq<Name>)
    returns (matched: bool)
    requires |diff1| == |diff2|
    requires forall k :: 0 <= k < |diff1| && diff1[k] == diff2[k] ==> HasName(fs, diff1[k]) && HasName(gs, diff1[k])
    ensures matched <==>
      compareMatched && diff1 == diff2 && forall k :: 0 <= k < |diff1| ==> SameParams(fs, gs, diff1[k])
  {
    matched := compareMatched;
    var k := 0;
    while k < |diff1|
      invariant 0 <= k <= |diff1|
      invariant matched <==>
        compareMatched && forall i :: 0 <= i < k ==> diff1[i] == diff2[i] && SameParams(fs, gs, diff1[i])
    {
      if diff1[k] != diff2[k] {
        matched := false;
      } else if !CompareFuncSpec(Lookup(fs, diff1[k]), Lookup(gs, diff2[k])) {
        matched := false;
      }
      k := k + 1;
    }
  }

  /** What the loop decides is whether the interfaces are the same. */
  lemma PositionsDecide(fs: seq<Func>, gs: seq<Func>)
    requires Dictionary(fs) && Dictionary(gs) && Sorted(PublicNames(fs)) == Sorted(PublicNames(gs))
    ensures SameLookedUp(fs, gs) <==>
      forall k :: 0 <= k < |Sorted(PublicNames(fs))| ==> SameParams(fs, gs, Sorted(PublicNames(fs))[k])
  {
    var names := Sorted(PublicNames(fs));
    SortedPublic(fs);
    SortedPublic(gs);
    if forall k :: 0 <= k < |names| ==> SameParams(fs, gs, names[k]) {
      AllSame(fs, gs, names);
    } else {
      var k :| 0 <= k < |names| && !SameParams(fs, gs, names[k]);
      assert names[k] in names;
      OneDiffers(fs, gs, names[k]);
    }
  }

  /** The comparison answers exactly whether the interfaces are the same (given that nothing had failed
      before), and only ever looks up names that both files have. A function's name is never empty: it was
      read off a `def` line. */
  method CompareFunc(compareMatched: bool, fs: seq<Func>, gs: seq<Func>) returns (matched: bool)
    requires Dictionary(fs) && Dictionary(gs)
    requires !HasName(fs, []) && !HasName(gs, [])
    ensures matched <==> compareMatched && SameInterface(fs, gs)
  {
    matched := compareMatched;
    LookupIsSame(fs, gs);
    var names1, names2 := Sorted(PublicNames(fs)), Sorted(PublicNames(gs));
    SortedPublic(fs);
    SortedPublic(gs);
    var diff1, diff2 := names1, names2;
    ghost var sides := BothSides(|names1|);
    if names1 != names2 {
      matched := false;
      diff1, diff2, sides := BuildDiffListResult(names1, names2);
      NamesDiffer(fs, gs);
    } else {
      AlignedSelf(names1);
      PositionsDecide(fs, gs);
    }
    forall k | 0 <= k < |diff1| && diff1[k] == diff2[k]
      ensures HasName(fs, diff1[k]) && HasName(gs, diff1[k])
    {
      PairIsCommon(fs, gs, diff1, diff2, sides, k);
    }
    matched := ComparePositions(matched, fs, gs, diff1, diff2);
  }
}
