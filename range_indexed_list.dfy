/**
 * RangeIndexedList: a sorted list of closed ranges
 * [bounds[2j], bounds[2j+1]], each with a value (or one value shared by
 * every range). A lookup finds the key's range by binary search over the
 * bounds; `insert` adds ranges to the list in place.
 */
module RangeIndexed {
  import opened Base

  /** `RangeIndexedList.DEFAULT_VALUE`, Python's `True`. */
  const DefaultValue: Val := Number(1)

  ghost predicate Increasing(b: seq<int>)
  {
    forall i, j :: 0 <= i < j < |b| ==> b[i] < b[j]
  }

  /** What validation establishes of the bounds: non-empty, even length, strictly increasing. */
  ghost predicate ValidBounds(b: seq<int>)
  {
    |b| > 0 && |b| % 2 == 0 && Increasing(b)
  }

  /** One value shared by every range, or one value per range. */
  ghost predicate ValueCountOk(b: seq<int>, vals: seq<Val>)
  {
    |vals| == 1 || 2 * |vals| == |b|
  }

  /** `key` lies in the `j`-th range. */
  ghost predicate InRange(b: seq<int>, j: int, key: int)
  {
    0 <= j && 2 * j + 1 < |b| && b[2 * j] <= key <= b[2 * j + 1]
  }

  /** The `j`-th range shares at least one key with [ks, ke]. */
  ghost predicate Meets(b: seq<int>, j: int, ks: int, ke: int)
  {
    0 <= j && 2 * j + 1 < |b| && !(b[2 * j + 1] < ks || ke < b[2 * j])
  }

  /** Reference definition of the search: the number of leading bounds below `key`. */
  function LowerBound(b: seq<int>, key: int): (i: nat)
    ensures i <= |b|
    decreases |b|
  {
    if b == [] || key <= b[0] then 0 else 1 + LowerBound(b[1..], key)
  }

  lemma IncreasingTail(b: seq<int>)
    requires Increasing(b) && b != []
    ensures Increasing(b[1..])
  {
    forall i, j | 0 <= i < j < |b[1..]|
      ensures b[1..][i] < b[1..][j]
    {
      assert b[1..][i] == b[i + 1] && b[1..][j] == b[j + 1];
    }
  }

  /** On increasing bounds, `LowerBound` splits the bounds into those below `key` and the rest. */
  lemma {:induction false} LowerBoundSpec(b: seq<int>, key: int)
    requires Increasing(b)
    ensures forall j :: 0 <= j < LowerBound(b, key) ==> b[j] < key
    ensures forall j :: LowerBound(b, key) <= j < |b| ==> key <= b[j]
    decreases |b|
  {
    if b != [] && key > b[0] {
      IncreasingTail(b);
      LowerBoundSpec(b[1..], key);
      forall j | 1 <= j < |b|
        ensures b[1..][j - 1] == b[j]
      {
      }
    }
  }

  /** The split point is unique: any index that splits the bounds is the lower bound. */
  lemma {:induction false} LowerBoundUnique(b: seq<int>, key: int, i: nat)
    requires i <= |b|
    requires forall j :: 0 <= j < i ==> b[j] < key
    requires forall j :: i <= j < |b| ==> key <= b[j]
    ensures LowerBound(b, key) == i
    decreases |b|
  {
    if b != [] && 0 < i {
      forall j | 0 <= j < |b| - 1
        ensures b[1..][j] == b[j + 1]
      {
      }
      LowerBoundUnique(b[1..], key, i - 1);
    }
  }

  /** What `_do_index` returns: the lower bound and whether the key is itself a bound. */
  function IndexOf(b: seq<int>, key: int): (nat, bool)
  {
    var i := LowerBound(b, key);
    (i, i < |b| && b[i] == key)
  }

  /** The value of the `j`-th range: the only value if there is one, else `values[j]`. */
  function ValueFor(vals: seq<Val>, j: nat): Result<Val>
  {
    if |vals| == 1 then Success(vals[0])
    else if j < |vals| then Success(vals[j])
    else Failure(IndexError)
  }

  /**
   * The `copy_key` post-processing: U+FFFC in a string value becomes
   * `chr(key)`; testing `in` on a number raises `TypeError`.
   */
  function CopyKey(out: Val, key: int, copyKey: bool): Result<Val>
  {
    if !copyKey then Success(out)
    else
      match out
      case Nothing => Success(Nothing)
      case Number(_) => Failure(TypeError)
      case Text(s) =>
        if SubPoint in s then
          (match Chr(key) case Success(c) => Success(Text(ReplaceAll(s, SubPoint, [c]))) case Failure(e) => Failure(e))
        else Success(out)
  }

  function Select(vals: seq<Val>, j: nat, key: int, copyKey: bool): Result<Val>
  {
    match ValueFor(vals, j)
    case Failure(e) => Failure(e)
    case Success(out) => CopyKey(out, key, copyKey)
  }

  /** `ril[key]`. */
  function Lookup(b: seq<int>, vals: seq<Val>, copyKey: bool, key: int): (r: Result<Val>)
    ensures !copyKey && r.Success? ==> r.value in vals
    ensures |vals| == 1 && !copyKey && r.Success? ==> r.value == vals[0]
  {
    var (i, found) := IndexOf(b, key);
    if !found && (i == 0 || i == |b| || i % 2 == 0) then Failure(LookupError)
    else Select(vals, i / 2, key, copyKey)
  }

  /** A key inside the `j`-th range gets that range's value. */
  lemma LookupInRange(b: seq<int>, vals: seq<Val>, copyKey: bool, key: int, j: int)
    requires ValidBounds(b) && InRange(b, j, key)
    ensures Lookup(b, vals, copyKey, key) == Select(vals, j, key, copyKey)
  {
    if b[2 * j] == key {
      forall x | 0 <= x < 2 * j
        ensures b[x] < key
      {
        assert b[x] < b[2 * j];
      }
      forall x | 2 * j < x < |b|
        ensures key <= b[x]
      {
        assert b[2 * j] < b[x];
      }
      LowerBoundUnique(b, key, 2 * j);
    } else {
      forall x | 0 <= x < 2 * j
        ensures b[x] < key
      {
        assert b[x] < b[2 * j];
      }
      forall x | 2 * j + 1 < x < |b|
        ensures key <= b[x]
      {
        assert b[2 * j + 1] < b[x];
      }
      LowerBoundUnique(b, key, 2 * j + 1);
    }
  }

  /** A key outside every range raises `LookupError`. */
  lemma LookupOutside(b: seq<int>, vals: seq<Val>, copyKey: bool, key: int)
    requires ValidBounds(b)
    requires forall j :: !InRange(b, j, key)
    ensures Lookup(b, vals, copyKey, key) == Failure(LookupError)
  {
    LowerBoundSpec(b, key);
    var i := LowerBound(b, key);
    if 0 < i < |b| {
      assert b[i - 1] < key <= b[i];
      assert !InRange(b, i / 2, key);
      assert i % 2 == 0;
      assert b[i] < b[i + 1];
    } else if i == 0 {
      assert !InRange(b, 0, key);
      assert b[0] < b[1];
    }
  }

  /** The values a list holds, as a value: what a translation bundle keeps of a list. */
  datatype RangeTable = RangeTable(bounds: seq<int>, values: seq<Val>, copyKey: bool)

  /** An entry of the expanded dict. */
  function Entry(t: RangeTable, k: Key): Result<Val>
  {
    match k
    case IntKey(i) => Lookup(t.bounds, t.values, t.copyKey, i)
    case StrKey(_) => Failure(TypeError)
  }

  /** The keys of the ranges from the `i`-th bound on, in ascending order. */
  function CoveredFrom(b: seq<int>, i: nat): seq<Key>
    decreases |b| - i
  {
    if i + 1 < |b| then IntervalKeys(b[i], b[i + 1]) + CoveredFrom(b, i + 2) else []
  }

  lemma IntervalKeysMember(lo: int, hi: int, k: Key)
    ensures k in IntervalKeys(lo, hi) <==> k.IntKey? && lo <= k.i <= hi
  {
    if k.IntKey? && lo <= k.i <= hi {
      assert IntervalKeys(lo, hi)[k.i - lo] == k;
    }
  }

  /** A key of the `j`-th range is among the keys from any earlier even bound on. */
  lemma {:induction false} CoveredFromHas(b: seq<int>, i: nat, j: int, key: int)
    requires i % 2 == 0 && i / 2 <= j && InRange(b, j, key)
    ensures IntKey(key) in CoveredFrom(b, i)
    decreases |b| - i
  {
    if j == i / 2 {
      IntervalKeysMember(b[i], b[i + 1], IntKey(key));
    } else {
      CoveredFromHas(b, i + 2, j, key);
    }
  }

  /** Every key from the `i`-th bound on lies in a range at or after it. */
  lemma {:induction false} CoveredFromIn(b: seq<int>, i: nat, k: Key) returns (j: int)
    requires i % 2 == 0 && k in CoveredFrom(b, i)
    ensures k.IntKey? && i / 2 <= j && InRange(b, j, k.i)
    decreases |b| - i
  {
    IntervalKeysMember(b[i], b[i + 1], k);
    if k in IntervalKeys(b[i], b[i + 1]) {
      j := i / 2;
    } else {
      j := CoveredFromIn(b, i + 2, k);
    }
  }

  /** The keys `dict()` visits are those of the ranges. */
  lemma CoveredKeys(b: seq<int>)
    ensures forall k :: k in CoveredFrom(b, 0) <==> k.IntKey? && exists j :: InRange(b, j, k.i)
  {
    forall k
      ensures k in CoveredFrom(b, 0) <==> k.IntKey? && exists j :: InRange(b, j, k.i)
    {
      if k in CoveredFrom(b, 0) {
        var j := CoveredFromIn(b, 0, k);
      }
      if k.IntKey? && exists j :: InRange(b, j, k.i) {
        var j :| InRange(b, j, k.i);
        CoveredFromHas(b, 0, j, k.i);
      }
    }
  }

  /** The dict `ril.dict()` returns. */
  function DictOf(t: RangeTable): Result<PyDict<Key, Val>>
  {
    Tabulate(CoveredFrom(t.bounds, 0), k => Entry(t, k), EmptyDict())
  }

  /** The expanded dict exists exactly when every covered key's lookup succeeds. */
  lemma DictOfSucceeds(t: RangeTable)
    ensures DictOf(t).Success? <==>
      forall j, key :: InRange(t.bounds, j, key) ==> Lookup(t.bounds, t.values, t.copyKey, key).Success?
  {
    var keys := CoveredFrom(t.bounds, 0);
    var f := k => Entry(t, k);
    TabulateSpec(keys, f, EmptyDict());
    CoveredKeys(t.bounds);
    if DictOf(t).Success? {
      forall j, key | InRange(t.bounds, j, key)
        ensures Lookup(t.bounds, t.values, t.copyKey, key).Success?
      {
        assert IntKey(key) in keys;
        var x :| 0 <= x < |keys| && keys[x] == IntKey(key);
        assert f(keys[x]).Success?;
      }
    } else {
      var x :| 0 <= x < |keys| && !f(keys[x]).Success?;
      assert keys[x] in keys;
      var j :| InRange(t.bounds, j, keys[x].i);
    }
  }

  /**
   * When the expanded dict exists, its keys are the covered keys and each
   * holds the value the list returns for it.
   */
  lemma DictOfSpec(t: RangeTable)
    ensures DictOf(t).Success? <==>
      forall j, key :: InRange(t.bounds, j, key) ==> Lookup(t.bounds, t.values, t.copyKey, key).Success?
    ensures DictOf(t).Success? ==>
      && DictWf(DictOf(t).value)
      && (forall k :: k in DictOf(t).value.m <==> k.IntKey? && exists j :: InRange(t.bounds, j, k.i))
      && (forall k :: k in DictOf(t).value.m ==> Success(DictOf(t).value.m[k]) == Lookup(t.bounds, t.values, t.copyKey, k.i))
  {
    DictOfSucceeds(t);
    if DictOf(t).Success? {
      var keys := CoveredFrom(t.bounds, 0);
      var f := k => Entry(t, k);
      TabulateSpec(keys, f, EmptyDict());
      CoveredKeys(t.bounds);
      var r := DictOf(t).value;
      forall k | k in r.m
        ensures Success(r.m[k]) == Lookup(t.bounds, t.values, t.copyKey, k.i)
      {
        var j :| InRange(t.bounds, j, k.i);
        assert r.m[k] == f(k).value;
      }
    }
  }

  /**
   * The lookups `dict()` makes from key `kn` of the `i`-th range on: the
   * rest of that range, then the ranges after it.
   */
  function DictFrom(t: RangeTable, i: nat, kn: int, acc: PyDict<Key, Val>): Result<PyDict<Key, Val>>
    decreases |t.bounds| - i, if i + 1 < |t.bounds| then t.bounds[i + 1] + 1 - kn else 0
  {
    if i + 1 >= |t.bounds| then Success(acc)
    else if kn > t.bounds[i + 1] then
      if i + 3 < |t.bounds| then DictFrom(t, i + 2, t.bounds[i + 2], acc) else Success(acc)
    else
      match Lookup(t.bounds, t.values, t.copyKey, kn)
      case Failure(e) => Failure(e)
      case Success(v) => DictFrom(t, i, kn + 1, Put(acc, IntKey(kn), v))
  }

  /** Past the last key of range `i`, the keys still to tabulate are those of the later ranges. */
  lemma CoveredAfterRange(b: seq<int>, i: nat, kn: int)
    requires i + 1 < |b| && kn > b[i + 1]
    ensures IntervalKeys(kn, b[i + 1]) + CoveredFrom(b, i + 2) ==
      if i + 3 < |b| then IntervalKeys(b[i + 2], b[i + 3]) + CoveredFrom(b, i + 4) else []
  {
    assert IntervalKeys(kn, b[i + 1]) == [];
  }

  /** Within range `i`, the next key to tabulate is `kn`. */
  lemma CoveredWithinRange(lo: int, hi: int, rest: seq<Key>)
    requires lo <= hi
    ensures IntervalKeys(lo, hi) + rest == [IntKey(lo)] + (IntervalKeys(lo + 1, hi) + rest)
  {
  }

  lemma {:induction false} DictFromTabulates(t: RangeTable, f: Key -> Result<Val>, i: nat, kn: int, acc: PyDict<Key, Val>)
    requires i + 1 < |t.bounds|
    requires forall k :: f(k) == Entry(t, k)
    ensures DictFrom(t, i, kn, acc) == Tabulate(IntervalKeys(kn, t.bounds[i + 1]) + CoveredFrom(t.bounds, i + 2), f, acc)
    decreases |t.bounds| - i, t.bounds[i + 1] + 1 - kn, 1
  {
    if kn > t.bounds[i + 1] {
      CoveredAfterRange(t.bounds, i, kn);
      if i + 3 < |t.bounds| {
        DictFromTabulates(t, f, i + 2, t.bounds[i + 2], acc);
      }
    } else {
      DictFromKeyTabulates(t, f, i, kn, acc);
    }
  }

  /** The step of `DictFromTabulates` at a key `kn` of range `i`. */
  lemma {:induction false} DictFromKeyTabulates(t: RangeTable, f: Key -> Result<Val>, i: nat, kn: int, acc: PyDict<Key, Val>)
    requires i + 1 < |t.bounds| && kn <= t.bounds[i + 1]
    requires forall k :: f(k) == Entry(t, k)
    ensures DictFrom(t, i, kn, acc) == Tabulate(IntervalKeys(kn, t.bounds[i + 1]) + CoveredFrom(t.bounds, i + 2), f, acc)
    decreases |t.bounds| - i, t.bounds[i + 1] + 1 - kn, 0
  {
    var tail := IntervalKeys(kn + 1, t.bounds[i + 1]) + CoveredFrom(t.bounds, i + 2);
    CoveredWithinRange(kn, t.bounds[i + 1], CoveredFrom(t.bounds, i + 2));
    TabulateCons(IntKey(kn), tail, f, acc);
    assert f(IntKey(kn)) == Lookup(t.bounds, t.values, t.copyKey, kn);
    match Lookup(t.bounds, t.values, t.copyKey, kn)
    case Failure(e) =>
    case Success(v) => DictFromTabulates(t, f, i, kn + 1, Put(acc, IntKey(kn), v));
  }

  /** `dict()` starts at the first key of the first range. */
  lemma DictFromStart(t: RangeTable)
    requires 1 < |t.bounds|
    ensures DictFrom(t, 0, t.bounds[0], EmptyDict()) == DictOf(t)
  {
    DictFromTabulates(t, k => Entry(t, k), 0, t.bounds[0], EmptyDict());
  }

  /**
   * The value-count check of `validate` as intended, deciding between one
   * shared value and exactly one value per range.
   */
  function CountCheck(nb: nat, nv: nat): (r: Outcome)
    ensures r == Pass <==> nv == 1 || (0 < nv && 2 * nv == nb)
    ensures r.Fail? ==> r.error == (if nv == 0 then ZeroDivisionError else ValueError)
  {
    if nv == 0 then Fail(ZeroDivisionError)
    else if nv != 1 && 2 * nv != nb then Fail(ValueError)
    else Pass
  }

  /**
   * The check as the source writes it, with floor division: it passes
   * whenever the bounds number at least twice and less than three times
   * the values.
   */
  function CountCheckAsWritten(nb: nat, nv: nat): (r: Outcome)
    ensures r == Pass <==> nv == 1 || (0 < nv && 2 * nv <= nb < 3 * nv)
    ensures r.Fail? ==> r.error == (if nv == 0 then ZeroDivisionError else ValueError)
  {
    if nv == 0 then Fail(ZeroDivisionError)
    else if nb / nv != 2 && nv != 1 then Fail(ValueError)
    else Pass
  }

  /** Every count the intended check accepts, the written one accepts too. */
  lemma CountCheckAsWrittenWeaker(nb: nat, nv: nat)
    ensures CountCheck(nb, nv) == Pass ==> CountCheckAsWritten(nb, nv) == Pass
    ensures CountCheck(nb, nv).Fail? && CountCheckAsWritten(nb, nv) == Pass ==> 2 * nv < nb < 3 * nv
  {
  }

  /**
   * As written, eight bounds (four ranges) with three values pass the
   * check, and the lookup of a key in the fourth range then raises
   * `IndexError`.
   */
  lemma CountCheckAsWrittenAcceptsTooFewValues()
    ensures CountCheckAsWritten(8, 3) == Pass
    ensures CountCheck(8, 3) == Fail(ValueError)
    ensures Lookup([0, 1, 2, 3, 4, 5, 6, 7], [Number(1), Number(2), Number(3)], false, 6) == Failure(IndexError)
  {
    var b := [0, 1, 2, 3, 4, 5, 6, 7];
    assert forall j :: 0 <= j < |b| ==> b[j] == j;
    LowerBoundUnique(b, 6, 6);
    assert IndexOf(b, 6) == (6, true);
  }

  /**
   * `validate(bounds, values)` as written, apart from its element-type
   * check: odd length, then the value count, then `bounds[0]`, then strict
   * increase.
   */
  function ValidateSpec(b: seq<int>, values: Option<seq<Val>>): (r: Outcome)
    ensures |b| % 2 == 1 ==> r == Fail(ValueError)
    ensures |b| % 2 == 0 && values.Some? ==>
      (CountCheckAsWritten(|b|, |values.value|).Fail? ==> r == CountCheckAsWritten(|b|, |values.value|))
    ensures r.Fail? ==> r.error in {ValueError, IndexError, ZeroDivisionError}
  {
    if |b| % 2 == 1 then Fail(ValueError)
    else if values.Some? && CountCheckAsWritten(|b|, |values.value|).Fail? then CountCheckAsWritten(|b|, |values.value|)
    else if |b| == 0 then Fail(IndexError)
    else if exists i | 1 <= i < |b| :: b[i] <= b[i - 1] then Fail(ValueError)
    else Pass
  }

  /** `validate` as intended: the same checks, with the count check corrected. */
  function ValidateIntended(b: seq<int>, values: Option<seq<Val>>): (r: Outcome)
    ensures |b| % 2 == 1 ==> r == Fail(ValueError)
    ensures |b| % 2 == 0 && values.Some? ==>
      (CountCheck(|b|, |values.value|).Fail? ==> r == CountCheck(|b|, |values.value|))
    ensures r.Fail? ==> r.error in {ValueError, IndexError, ZeroDivisionError}
  {
    if |b| % 2 == 1 then Fail(ValueError)
    else if values.Some? && CountCheck(|b|, |values.value|).Fail? then CountCheck(|b|, |values.value|)
    else if |b| == 0 then Fail(IndexError)
    else if exists i | 1 <= i < |b| :: b[i] <= b[i - 1] then Fail(ValueError)
    else Pass
  }

  lemma {:induction false} AdjacentIncreasing(b: seq<int>)
    requires forall i :: 1 <= i < |b| ==> b[i - 1] < b[i]
    ensures Increasing(b)
    decreases |b|
  {
    if |b| > 1 {
      var c := b[..|b| - 1];
      forall i | 1 <= i < |c|
        ensures c[i - 1] < c[i]
      {
        assert c[i - 1] == b[i - 1] && c[i] == b[i];
      }
      AdjacentIncreasing(c);
      forall i, j | 0 <= i < j < |b|
        ensures b[i] < b[j]
      {
        if j < |b| - 1 {
          assert c[i] < c[j];
        } else if i < |b| - 2 {
          assert c[i] < c[|b| - 2];
        }
      }
    }
  }

  /** A bounds list with no adjacent pair out of order is valid exactly when it is increasing. */
  lemma NoDescentIffIncreasing(b: seq<int>)
    ensures (!exists i | 1 <= i < |b| :: b[i] <= b[i - 1]) <==> Increasing(b)
  {
    if Increasing(b) {
      assert !exists i | 1 <= i < |b| :: b[i] <= b[i - 1] by {
        forall i | 1 <= i < |b|
          ensures b[i - 1] < b[i]
        {
        }
      }
    }
    if !exists i | 1 <= i < |b| :: b[i] <= b[i - 1] {
      AdjacentIncreasing(b);
    }
  }

  /**
   * Corrected validation passes exactly on well-formed lists: an even,
   * non-empty, strictly increasing bounds list and one value, or one value
   * per range.
   */
  lemma ValidateAccepts(b: seq<int>, values: Option<seq<Val>>)
    ensures ValidateIntended(b, values) == Pass <==>
      ValidBounds(b) && (values.Some? ==> ValueCountOk(b, values.value))
  {
    NoDescentIffIncreasing(b);
  }

  /**
   * Validation as written passes exactly on even, non-empty, strictly
   * increasing bounds with one value, or with at least one and fewer than
   * one and a half values per range; it passes wherever the corrected one does.
   */
  lemma ValidateAsWrittenAccepts(b: seq<int>, values: Option<seq<Val>>)
    ensures ValidateSpec(b, values) == Pass <==>
      ValidBounds(b) && (values.Some? ==> |values.value| == 1 || 2 * |values.value| <= |b| < 3 * |values.value|)
    ensures ValidateIntended(b, values) == Pass ==> ValidateSpec(b, values) == Pass
  {
    NoDescentIffIncreasing(b);
  }

  /** `validate`: the count checks, then one pass over the bounds. */
  method Validate(b: seq<int>, values: Option<seq<Val>>) returns (r: Outcome)
    ensures r == ValidateSpec(b, values)
  {
    if |b| % 2 == 1 {
      return Fail(ValueError);
    }
    if values.Some? {
      var c := CountCheckAsWritten(|b|, |values.value|);
      if c.Fail? {
        return c;
      }
    }
    if |b| == 0 {
      return Fail(IndexError);
    }
    var i := 1;
    while i < |b|
      invariant 1 <= i <= |b|
      invariant forall j :: 1 <= j < i ==> b[j - 1] < b[j]
    {
      if b[i] <= b[i - 1] {
        return Fail(ValueError);
      }
      i := i + 1;
    }
    return Pass;
  }

  /** A Python `range` object, or anything else. */
  datatype PyRange = PyRange(start: int, stop: int, step: int) | NotARange

  /** The checks `bounds_from_ranges` applies to one range, given the last stop seen. */
  function RangeCheck(r: PyRange, lastStop: int): (e: Option<Error>)
    ensures e.None? <==> r.PyRange? && r.step == 1 && lastStop <= r.start < r.stop
  {
    if r.NotARange? then Some(TypeError)
    else if r.start > r.stop || r.step != 1 then Some(ValueError)
    else if lastStop > r.start then Some(ValueError)
    else if r.stop - r.start < 1 then Some(ValueError)
    else None
  }

  /** `bounds_from_ranges` continued from the range list `ranges`, after the stop `lastStop`. */
  function BoundsFrom(ranges: seq<PyRange>, lastStop: int): (r: Result<seq<int>>)
    ensures r.Success? ==> |r.value| == 2 * |ranges|
    ensures r.Failure? ==> r.error == TypeError || r.error == ValueError
    decreases |ranges|
  {
    if ranges == [] then Success([])
    else
      match RangeCheck(ranges[0], lastStop)
      case Some(e) => Failure(e)
      case None =>
        match BoundsFrom(ranges[1..], ranges[0].stop)
        case Failure(e) => Failure(e)
        case Success(rest) => Success([ranges[0].start, ranges[0].stop] + rest)
  }

  /** The stop `bounds_from_ranges` compares the `i`-th range's start against. */
  function PrevStop(ranges: seq<PyRange>, i: nat, lastStop: int): int
    requires i < |ranges|
  {
    if i == 0 then lastStop else StopOf(ranges[i - 1])
  }

  function StopOf(r: PyRange): int
  {
    if r.PyRange? then r.stop else 0
  }

  /** The bounds are the ranges' starts and stops, in order, once every range passes its check. */
  lemma {:induction false} BoundsFromSpec(ranges: seq<PyRange>, lastStop: int)
    ensures BoundsFrom(ranges, lastStop).Success? <==>
      forall i :: 0 <= i < |ranges| ==> RangeCheck(ranges[i], PrevStop(ranges, i, lastStop)).None?
    ensures BoundsFrom(ranges, lastStop).Success? ==>
      var out := BoundsFrom(ranges, lastStop).value;
      |out| == 2 * |ranges| &&
      forall i :: 0 <= i < |ranges| ==> out[2 * i] == ranges[i].start && out[2 * i + 1] == ranges[i].stop
    decreases |ranges|
  {
    if ranges != [] && ranges[0].PyRange? {
      BoundsFromSpec(ranges[1..], ranges[0].stop);
      forall i | 1 <= i < |ranges|
        ensures ranges[1..][i - 1] == ranges[i]
        ensures PrevStop(ranges[1..], i - 1, ranges[0].stop) == PrevStop(ranges, i, lastStop)
      {
        if 1 < i {
          assert ranges[1..][i - 2] == ranges[i - 1];
        }
      }
      if BoundsFrom(ranges, lastStop).Success? {
        var out := BoundsFrom(ranges, lastStop).value;
        var rest := BoundsFrom(ranges[1..], ranges[0].stop).value;
        forall i | 1 <= i < |ranges|
          ensures out[2 * i] == ranges[i].start && out[2 * i + 1] == ranges[i].stop
        {
          assert out[2 * i] == rest[2 * (i - 1)] && out[2 * i + 1] == rest[2 * (i - 1) + 1];
        }
      }
    }
  }

  function Prefixed(out: seq<int>, r: Result<seq<int>>): Result<seq<int>>
  {
    match r
    case Failure(e) => Failure(e)
    case Success(v) => Success(out + v)
  }

  /** `bounds_from_ranges`: checks each range in turn and lists its start and stop. */
  method BoundsFromRanges(ranges: seq<PyRange>) returns (r: Result<seq<int>>)
    ensures r == BoundsFrom(ranges, 0)
  {
    var out: seq<int> := [];
    var lastStop := 0;
    var i := 0;
    assert ranges[0..] == ranges;
    match BoundsFrom(ranges, 0) {
      case Failure(_) =>
      case Success(v) => assert [] + v == v;
    }
    while i < |ranges|
      invariant 0 <= i <= |ranges|
      invariant BoundsFrom(ranges, 0) == Prefixed(out, BoundsFrom(ranges[i..], lastStop))
      decreases |ranges| - i
    {
      var rg := ranges[i];
      assert ranges[i..][0] == rg && ranges[i..][1..] == ranges[i + 1..];
      var e := RangeCheck(rg, lastStop);
      if e.Some? {
        return Failure(e.value);
      }
      var tail := BoundsFrom(ranges[i + 1..], rg.stop);
      if tail.Success? {
        assert out + ([rg.start, rg.stop] + tail.value) == (out + [rg.start, rg.stop]) + tail.value;
      }
      out := out + [rg.start, rg.stop];
      lastStop := rg.stop;
      i := i + 1;
    }
    assert out + [] == out;
    r := Success(out);
  }

  /**
   * Ranges listed with their exclusive Python stops: two ranges that touch
   * give a repeated bound, which validation rejects, and a range's stop
   * becomes a key the list covers.
   */
  lemma BoundsFromRangesQuirks()
    ensures BoundsFrom([PyRange(0, 5, 1), PyRange(5, 8, 1)], 0) == Success([0, 5, 5, 8])
    ensures ValidateSpec([0, 5, 5, 8], None) == Fail(ValueError)
    ensures BoundsFrom([PyRange(7, 10, 1)], 0) == Success([7, 10])
    ensures Lookup([7, 10], [DefaultValue], false, 10) == Success(DefaultValue)
  {
    var rs := [PyRange(0, 5, 1), PyRange(5, 8, 1)];
    var last := [PyRange(5, 8, 1)];
    assert rs[1..] == last && last[1..] == [];
    assert BoundsFrom(last[1..], 8) == Success([]);
    assert [5, 8] + [] == [5, 8];
    assert BoundsFrom(last, 5) == Success([5, 8]);
    assert [0, 5] + [5, 8] == [0, 5, 5, 8];
    var one := [PyRange(7, 10, 1)];
    assert one[1..] == [];
    assert BoundsFrom(one[1..], 10) == Success([]);
    assert [7, 10] + [] == [7, 10];
    var b := [0, 5, 5, 8];
    assert b[2] <= b[2 - 1];
    assert InRange([7, 10], 0, 10);
    LookupInRange([7, 10], [DefaultValue], false, 10, 0);
  }

  /** The outcome of `insert`: the new bounds and values, and whether it raised. */
  datatype InsertResult = InsertResult(bounds: seq<int>, values: seq<Val>, outcome: Outcome)

  /** Inserting one range [ks, ke] with value `v`, as one iteration of `insert` does it. */
  function InsertOne(b: seq<int>, vals: seq<Val>, ks: int, ke: int, v: Val): (r: Result<(seq<int>, seq<Val>)>)
    ensures r.Failure? ==> r.error == ValueError
    ensures r.Success? ==> ks < ke && |r.value.0| == |b| + 2 && |r.value.1| == |vals| + 1 && v in r.value.1
  {
    var (ist, ksFound) := IndexOf(b, ks);
    var (iend, keFound) := IndexOf(b, ke);
    if ist != iend then Failure(ValueError)
    else if ist % 2 == 1 || ksFound || keFound then Failure(ValueError)
    else if ke - ks < 1 then Failure(ValueError)
    else Success((ListInsert(ListInsert(b, ist, ke), ist, ks), ListInsert(vals, iend / 2, v)))
  }

  /** Inserting the ranges in order; a range that raises stops the rest, the earlier ones stay. */
  function InsertPairs(b: seq<int>, vals: seq<Val>, keys: seq<int>, nvs: seq<Val>): (r: InsertResult)
    requires |keys| == 2 * |nvs|
    ensures r.outcome.Fail? ==> r.outcome.error == ValueError
    ensures r.outcome.Pass? ==> |r.bounds| == |b| + |keys| && |r.values| == |vals| + |nvs|
    decreases |nvs|
  {
    if nvs == [] then InsertResult(b, vals, Pass)
    else
      match InsertOne(b, vals, keys[0], keys[1], nvs[0])
      case Failure(e) => InsertResult(b, vals, Fail(e))
      case Success(bv) => InsertPairs(bv.0, bv.1, keys[2..], nvs[1..])
  }

  /** The values `insert` pairs with the new ranges: the given ones, or the default for each range. */
  function InsertValues(newKeys: seq<int>, newValues: Option<seq<Val>>): seq<Val>
  {
    if newValues.Some? then newValues.value else seq(|newKeys| / 2, _ => DefaultValue)
  }

  /** `insert(new_keys, new_values)`. */
  function InsertSpec(b: seq<int>, vals: seq<Val>, newKeys: seq<int>, newValues: Option<seq<Val>>): (r: InsertResult)
    ensures |newKeys| % 2 == 1 ==> r == InsertResult(b, vals, Fail(ValueError))
    ensures newValues.Some? && 2 * |newValues.value| != |newKeys| ==> r == InsertResult(b, vals, Fail(ValueError))
    ensures r.outcome.Fail? ==> r.outcome.error == ValueError
    ensures r.outcome.Pass? ==> |r.bounds| == |b| + |newKeys| && 2 * (|r.values| - |vals|) == |newKeys|
  {
    var nvs := InsertValues(newKeys, newValues);
    if |newKeys| % 2 == 1 then InsertResult(b, vals, Fail(ValueError))
    else if |nvs| != |newKeys| / 2 then InsertResult(b, vals, Fail(ValueError))
    else InsertPairs(b, vals, newKeys, nvs)
  }

  /** An accepted range shares no key with an existing range. */
  lemma InsertOneAccepted(b: seq<int>, vals: seq<Val>, ks: int, ke: int, v: Val, j: int)
    requires ValidBounds(b)
    requires InsertOne(b, vals, ks, ke, v).Success?
    ensures ks < ke && !Meets(b, j, ks, ke)
  {
    LowerBoundSpec(b, ks);
    LowerBoundSpec(b, ke);
    var l := LowerBound(b, ks);
    if 0 <= j && 2 * j + 1 < |b| {
      if 2 * j < l {
        assert b[2 * j + 1] < ks;
      } else {
        assert ke <= b[2 * j];
        assert ke != b[2 * j] || 2 * j != l;
        assert 2 * j == l || b[l] < b[2 * j];
      }
    }
  }

  /** A range with at least two keys sharing none with an existing range is accepted. */
  lemma InsertOneFits(b: seq<int>, vals: seq<Val>, ks: int, ke: int, v: Val)
    requires ValidBounds(b)
    requires ks < ke && forall j :: !Meets(b, j, ks, ke)
    ensures InsertOne(b, vals, ks, ke, v).Success?
  {
    LowerBoundSpec(b, ks);
    var l := LowerBound(b, ks);
    forall x | 0 <= x < |b|
      ensures b[x] < ks || ke < b[x]
    {
      assert !Meets(b, x / 2, ks, ke);
      if x % 2 == 0 {
        assert b[x] < b[x + 1];
      } else {
        assert b[x - 1] < b[x];
      }
    }
    LowerBoundUnique(b, ke, l);
    if 0 < l < |b| {
      assert !Meets(b, l / 2, ks, ke);
      assert b[l - 1] < ks && ke < b[l];
    }
  }

  /**
   * One range is accepted exactly when it has at least two keys and
   * shares no key with any existing range; touching a bound counts as
   * sharing it.
   */
  lemma InsertOneSucceedsIff(b: seq<int>, vals: seq<Val>, ks: int, ke: int, v: Val)
    requires ValidBounds(b)
    ensures InsertOne(b, vals, ks, ke, v).Success? <==> ks < ke && forall j :: !Meets(b, j, ks, ke)
  {
    if InsertOne(b, vals, ks, ke, v).Success? {
      forall j
        ensures !Meets(b, j, ks, ke)
      {
        InsertOneAccepted(b, vals, ks, ke, v, j);
      }
      InsertOneAccepted(b, vals, ks, ke, v, 0);
    }
    if ks < ke && forall j :: !Meets(b, j, ks, ke) {
      InsertOneFits(b, vals, ks, ke, v);
    }
  }

  lemma InsertedIncreasing(b: seq<int>, l: nat, ks: int, ke: int)
    requires Increasing(b) && l <= |b|
    requires forall j :: 0 <= j < l ==> b[j] < ks
    requires forall j :: l <= j < |b| ==> ke < b[j]
    requires ks < ke
    ensures Increasing(b[..l] + [ks, ke] + b[l..])
  {
    var nb := b[..l] + [ks, ke] + b[l..];
    forall x | 0 <= x < |nb|
      ensures nb[x] == if x < l then b[x] else if x == l then ks else if x == l + 1 then ke else b[x - 2]
    {
    }
  }

  /** Where an accepted range lands: its bounds at the lower bound of `ks`, its value at half that. */
  lemma InsertOneShape(b: seq<int>, vals: seq<Val>, ks: int, ke: int, v: Val)
    requires ValidBounds(b)
    requires InsertOne(b, vals, ks, ke, v).Success?
    ensures var l := LowerBound(b, ks);
      && l % 2 == 0
      && InsertOne(b, vals, ks, ke, v).value.0 == b[..l] + [ks, ke] + b[l..]
      && InsertOne(b, vals, ks, ke, v).value.1 == ListInsert(vals, l / 2, v)
  {
    LowerBoundSpec(b, ks);
    var l := LowerBound(b, ks);
    var once := ListInsert(b, l, ke);
    assert once == b[..l] + [ke] + b[l..];
    assert once[..l] == b[..l];
    assert once[l..] == [ke] + b[l..];
  }

  /** How an accepted range lands, and that the bounds stay valid. */
  lemma InsertOneLayout(b: seq<int>, vals: seq<Val>, ks: int, ke: int, v: Val)
    requires ValidBounds(b)
    requires InsertOne(b, vals, ks, ke, v).Success?
    ensures var l := LowerBound(b, ks);
      && l % 2 == 0
      && InsertOne(b, vals, ks, ke, v).value.0 == b[..l] + [ks, ke] + b[l..]
      && InsertOne(b, vals, ks, ke, v).value.1 == ListInsert(vals, l / 2, v)
      && ValidBounds(InsertOne(b, vals, ks, ke, v).value.0)
  {
    InsertOneShape(b, vals, ks, ke, v);
    LowerBoundSpec(b, ks);
    LowerBoundSpec(b, ke);
    var l := LowerBound(b, ks);
    assert LowerBound(b, ke) == l;
    forall j | l <= j < |b|
      ensures ke < b[j]
    {
      assert ke <= b[j];
    }
    InsertedIncreasing(b, l, ks, ke);
  }

  /** The ranges of the bounds after two bounds are inserted at the even position `l`. */
  lemma InsertedRanges(b: seq<int>, l: nat, ks: int, ke: int, key: int, j: int)
    requires l <= |b| && l % 2 == 0
    ensures var nb := b[..l] + [ks, ke] + b[l..];
      && (j == l / 2 ==> (InRange(nb, j, key) <==> ks <= key <= ke))
      && (j < l / 2 ==> (InRange(nb, j, key) <==> InRange(b, j, key)))
      && (l / 2 < j ==> (InRange(nb, j, key) <==> InRange(b, j - 1, key)))
  {
    var nb := b[..l] + [ks, ke] + b[l..];
    if 0 <= j < l / 2 {
      assert nb[2 * j] == b[2 * j] && nb[2 * j + 1] == b[2 * j + 1];
    } else if l / 2 < j && 2 * j + 1 < |nb| {
      assert nb[2 * j] == b[2 * j - 2] && nb[2 * j + 1] == b[2 * j - 1];
    } else if j == l / 2 {
      assert nb[l] == ks && nb[l + 1] == ke;
    }
  }

  /** A key of no old range and outside [ks, ke] stays outside every range. */
  lemma InsertedOutside(b: seq<int>, l: nat, ks: int, ke: int, key: int)
    requires l <= |b| && l % 2 == 0
    requires !(ks <= key <= ke) && forall j :: !InRange(b, j, key)
    ensures forall j :: !InRange(b[..l] + [ks, ke] + b[l..], j, key)
  {
    forall j
      ensures !InRange(b[..l] + [ks, ke] + b[l..], j, key)
    {
      InsertedRanges(b, l, ks, ke, key, j);
    }
  }

  /** After a value is inserted at `p`, the old `j`-th value sits at `j`, or at `j + 1` from `p` on. */
  lemma ValueForInserted(vals: seq<Val>, p: nat, v: Val, j: nat)
    requires j < |vals| && p <= |vals|
    ensures ValueFor(ListInsert(vals, p, v), if j < p then j else j + 1) == ValueFor(vals, j)
  {
    ListInsertAt(vals, p, v, if j < p then j else j + 1);
  }

  /** A key of the old `j`-th range is found in the same range, one place further if it lies after the new one. */
  lemma InsertedOldRange(b: seq<int>, vals: seq<Val>, copyKey: bool, l: nat, ks: int, ke: int, v: Val, key: int, j: int)
    requires ValidBounds(b) && 2 * |vals| == |b| && l <= |b| && l % 2 == 0
    requires ValidBounds(b[..l] + [ks, ke] + b[l..])
    requires InRange(b, j, key) && !(ks <= key <= ke)
    ensures Lookup(b[..l] + [ks, ke] + b[l..], ListInsert(vals, l / 2, v), copyKey, key) == Lookup(b, vals, copyKey, key)
  {
    var nb := b[..l] + [ks, ke] + b[l..];
    var nv := ListInsert(vals, l / 2, v);
    var j' := if j < l / 2 then j else j + 1;
    InsertedRanges(b, l, ks, ke, key, j');
    LookupInRange(nb, nv, copyKey, key, j');
    LookupInRange(b, vals, copyKey, key, j);
    ValueForInserted(vals, l / 2, v, j);
  }

  /**
   * Inserting into a list with one value per range keeps one value per
   * range; the new range's keys get the new value and every other key
   * keeps its lookup.
   */
  lemma InsertOneLookups(b: seq<int>, vals: seq<Val>, copyKey: bool, ks: int, ke: int, v: Val, key: int)
    requires ValidBounds(b) && 2 * |vals| == |b|
    requires InsertOne(b, vals, ks, ke, v).Success?
    ensures var (nb, nv) := InsertOne(b, vals, ks, ke, v).value;
      && 2 * |nv| == |nb|
      && Lookup(nb, nv, copyKey, key) ==
           if ks <= key <= ke then CopyKey(v, key, copyKey) else Lookup(b, vals, copyKey, key)
  {
    InsertOneLayout(b, vals, ks, ke, v);
    var l := LowerBound(b, ks);
    var nb := b[..l] + [ks, ke] + b[l..];
    var nv := ListInsert(vals, l / 2, v);
    if ks <= key <= ke {
      InsertedRanges(b, l, ks, ke, key, l / 2);
      LookupInRange(nb, nv, copyKey, key, l / 2);
      ListInsertAt(vals, l / 2, v, l / 2);
    } else if exists j :: InRange(b, j, key) {
      var j :| InRange(b, j, key);
      InsertedOldRange(b, vals, copyKey, l, ks, ke, v, key, j);
    } else {
      InsertedOutside(b, l, ks, ke, key);
      LookupOutside(nb, nv, copyKey, key);
      LookupOutside(b, vals, copyKey, key);
    }
  }

  /**
   * Inserting into a list whose one value is shared by two ranges: the
   * new value is appended, the second old range now reports it, and the
   * new range has no value left.
   */
  lemma InsertIntoSharedValueList()
    ensures InsertOne([5, 10, 15, 20], [Text([0x41])], 25, 30, Text([0x42]))
      == Success(([5, 10, 15, 20, 25, 30], [Text([0x41]), Text([0x42])]))
    ensures Lookup([5, 10, 15, 20], [Text([0x41])], false, 15) == Success(Text([0x41]))
    ensures Lookup([5, 10, 15, 20, 25, 30], [Text([0x41]), Text([0x42])], false, 15) == Success(Text([0x42]))
    ensures Lookup([5, 10, 15, 20, 25, 30], [Text([0x41]), Text([0x42])], false, 25) == Failure(IndexError)
  {
    SharedValueInsertOne();
    SharedValueBefore();
    SharedValueAfter();
  }

  lemma SharedValueBefore()
    ensures Lookup([5, 10, 15, 20], [Text([0x41])], false, 15) == Success(Text([0x41]))
  {
    LowerBoundUnique([5, 10, 15, 20], 15, 2);
  }

  lemma SharedValueAfter()
    ensures Lookup([5, 10, 15, 20, 25, 30], [Text([0x41]), Text([0x42])], false, 15) == Success(Text([0x42]))
    ensures Lookup([5, 10, 15, 20, 25, 30], [Text([0x41]), Text([0x42])], false, 25) == Failure(IndexError)
  {
    LowerBoundUnique([5, 10, 15, 20, 25, 30], 15, 2);
    LowerBoundUnique([5, 10, 15, 20, 25, 30], 25, 4);
  }

  lemma SharedValueInsertOne()
    ensures InsertOne([5, 10, 15, 20], [Text([0x41])], 25, 30, Text([0x42]))
      == Success(([5, 10, 15, 20, 25, 30], [Text([0x41]), Text([0x42])]))
  {
    var b := [5, 10, 15, 20];
    LowerBoundUnique(b, 25, 4);
    LowerBoundUnique(b, 30, 4);
    assert ListInsert(b, 4, 30) == [5, 10, 15, 20, 30];
    assert ListInsert([5, 10, 15, 20, 30], 4, 25) == [5, 10, 15, 20, 25, 30];
    assert ListInsert([Text([0x41])], 2, Text([0x42])) == [Text([0x41]), Text([0x42])];
  }

  /** An `insert` with one range raises `ValueError` and changes nothing unless the range fits. */
  lemma InsertSingleRange(b: seq<int>, vals: seq<Val>, ks: int, ke: int, newValues: Option<seq<Val>>)
    requires ValidBounds(b)
    ensures var res := InsertSpec(b, vals, [ks, ke], newValues);
      && (res.outcome == Pass <==>
            (newValues.None? || |newValues.value| == 1) && ks < ke && forall j :: !Meets(b, j, ks, ke))
      && (res.outcome.Fail? ==> res.outcome.error == ValueError && res.bounds == b && res.values == vals)
  {
    var nvs := InsertValues([ks, ke], newValues);
    if |nvs| == 1 {
      assert [ks, ke][0] == ks && [ks, ke][1] == ke;
      InsertOneSucceedsIff(b, vals, ks, ke, nvs[0]);
      match InsertOne(b, vals, ks, ke, nvs[0]) {
        case Failure(e) =>
        case Success(bv) => assert InsertPairs(bv.0, bv.1, [], []) == InsertResult(bv.0, bv.1, Pass);
      }
      assert [ks, ke][2..] == [];
      assert nvs[1..] == [];
    }
  }

  /** Every accepted range keeps the bounds well formed, and one value per range stays so. */
  lemma {:induction false} InsertPairsKeepsBounds(b: seq<int>, vals: seq<Val>, keys: seq<int>, nvs: seq<Val>)
    requires ValidBounds(b) && |keys| == 2 * |nvs|
    ensures ValidBounds(InsertPairs(b, vals, keys, nvs).bounds)
    ensures 2 * |vals| == |b| ==>
      2 * |InsertPairs(b, vals, keys, nvs).values| == |InsertPairs(b, vals, keys, nvs).bounds|
    decreases |nvs|
  {
    if nvs != [] {
      match InsertOne(b, vals, keys[0], keys[1], nvs[0])
      case Failure(e) =>
      case Success(bv) =>
        InsertOneLayout(b, vals, keys[0], keys[1], nvs[0]);
        InsertPairsKeepsBounds(bv.0, bv.1, keys[2..], nvs[1..]);
    }
  }

  class RangeIndexedList {
    var bounds: seq<int>
    var values: seq<Val>
    var copyKey: bool
    var defaultValue: Val

    /** The invariant validation establishes and `insert` keeps. */
    ghost predicate Valid()
      reads this
    {
      ValidBounds(bounds)
    }

    function Table(): RangeTable
      reads this
    {
      RangeTable(bounds, values, copyKey)
    }

    /** The field assignments of `__init__`; `values` of `None` gives the default as the one value. */
    constructor (bounds: seq<int>, values: Option<seq<Val>>, copyKey: bool, defaultValue: Val)
      ensures this.bounds == bounds
      ensures this.values == if values.Some? then values.value else [defaultValue]
      ensures this.copyKey == copyKey && this.defaultValue == defaultValue
    {
      this.bounds := bounds;
      this.values := if values.Some? then values.value else [defaultValue];
      this.copyKey := copyKey;
      this.defaultValue := defaultValue;
    }

    /** `RangeIndexedList(bounds, values, copy_key=..., default=...)` with validation on. */
    static method Create(bounds: seq<int>, values: Option<seq<Val>>, copyKey: bool, defaultValue: Val)
      returns (r: Result<RangeIndexedList>)
      ensures r.Success? <==> ValidateSpec(bounds, values) == Pass
      ensures r.Failure? ==> r.error == ValidateSpec(bounds, values).error
      ensures r.Success? ==>
        && fresh(r.value) && r.value.Valid()
        && r.value.bounds == bounds
        && r.value.values == (if values.Some? then values.value else [defaultValue])
        && r.value.copyKey == copyKey && r.value.defaultValue == defaultValue
    {
      var l := new RangeIndexedList(bounds, values, copyKey, defaultValue);
      var ok := Validate(bounds, values);
      if ok.Fail? {
        return Failure(ok.error);
      }
      ValidateAsWrittenAccepts(bounds, values);
      return Success(l);
    }

    /**
     * `_do_index(key)`: binary search for the first bound not below
     * `key`, and whether it equals `key`.
     */
    method DoIndex(key: int) returns (i: nat, found: bool)
      requires Valid()
      ensures (i, found) == IndexOf(bounds, key)
      ensures i <= |bounds| && (found <==> i < |bounds| && bounds[i] == key)
      ensures forall j :: 0 <= j < i ==> bounds[j] < key
      ensures forall j :: i <= j < |bounds| ==> key <= bounds[j]
    {
      var iLen := |bounds|;
      var iStart := 0;
      var iEnd := iLen - 1;
      if key > bounds[iEnd] {
        i, found := iLen, false;
        LowerBoundUnique(bounds, key, i);
        return;
      }
      while iEnd - iStart > 1
        invariant 0 <= iStart <= iEnd < iLen
        invariant key <= bounds[iEnd]
        invariant iStart == 0 || bounds[iStart] < key
        decreases iEnd - iStart
      {
        var mid := iStart + (iEnd - iStart) / 2;
        if key == bounds[mid] {
          i, found := mid, true;
          LowerBoundUnique(bounds, key, i);
          return;
        }
        if key <= bounds[mid] {
          iEnd := mid;
        } else {
          iStart := mid;
        }
      }
      if key > bounds[iStart] {
        i, found := iEnd, key == bounds[iEnd];
      } else {
        i, found := iStart, key == bounds[iStart];
      }
      LowerBoundUnique(bounds, key, i);
    }

    /**
     * The inner loop of `dict()`: the lookups of the keys of the `i`-th
     * range, in ascending order, until one raises.
     */
    method DictRange(i: nat, out: PyDict<Key, Val>) returns (r: Result<PyDict<Key, Val>>)
      requires i + 1 < |bounds|
      ensures DictFrom(Table(), i, bounds[i], out) ==
        if r.Failure? then r
        else if i + 3 < |bounds| then DictFrom(Table(), i + 2, bounds[i + 2], r.value)
        else r
    {
      var t := Table();
      var hi := t.bounds[i + 1];
      var acc := out;
      var kn := t.bounds[i];
      while kn <= hi
        invariant DictFrom(t, i, t.bounds[i], out) == DictFrom(t, i, kn, acc)
        decreases hi - kn
      {
        var x := Lookup(t.bounds, t.values, t.copyKey, kn);
        if x.Failure? {
          return Failure(x.error);
        }
        acc := Put(acc, IntKey(kn), x.value);
        kn := kn + 1;
      }
      r := Success(acc);
    }

    /**
     * `dict()`: for every range in order and every key of the range in
     * ascending order, the key's lookup; the first lookup that raises ends it.
     */
    method Dict() returns (r: Result<PyDict<Key, Val>>)
      requires Valid()
      ensures r == DictOf(Table())
    {
      var t := Table();
      var n := |t.bounds|;
      ghost var pairs := n / 2;
      assert n == 2 * pairs && 0 < pairs;
      DictFromStart(t);
      var out: PyDict<Key, Val> := EmptyDict();
      var i := 0;
      ghost var j := 0;
      while i < n
        invariant i == 2 * j && j <= pairs
        invariant i < n ==> DictOf(t) == DictFrom(t, i, t.bounds[i], out)
        invariant i == n ==> DictOf(t) == Success(out)
        decreases n - i
      {
        var x := DictRange(i, out);
        if x.Failure? {
          return x;
        }
        out := x.value;
        i, j := i + 2, j + 1;
      }
      r := Success(out);
    }

    /**
     * One iteration of `insert`: the first range [keys[0], keys[1]] left
     * with value `vs[0]` goes in where it fits, or `ValueError` is raised
     * and nothing changes.
     */
    method InsertRange(keys: seq<int>, vs: seq<Val>) returns (r: Outcome)
      requires Valid() && |keys| == 2 * |vs| && vs != []
      modifies this
      ensures Valid()
      ensures copyKey == old(copyKey) && defaultValue == old(defaultValue)
      ensures r.Fail? ==> bounds == old(bounds) && values == old(values)
      ensures InsertPairs(old(bounds), old(values), keys, vs) ==
        if r.Fail? then InsertResult(bounds, values, r) else InsertPairs(bounds, values, keys[2..], vs[1..])
    {
      var ks, ke, v := keys[0], keys[1], vs[0];
      var ist, ksFound := DoIndex(ks);
      var iend, keFound := DoIndex(ke);
      if ist != iend {
        return Fail(ValueError);
      }
      if ist % 2 == 1 || ksFound || keFound {
        return Fail(ValueError);
      }
      if ke - ks < 1 {
        return Fail(ValueError);
      }
      InsertOneLayout(bounds, values, ks, ke, v);
      bounds := ListInsert(bounds, ist, ke);
      bounds := ListInsert(bounds, ist, ks);
      values := ListInsert(values, iend / 2, v);
      r := Pass;
    }

    /**
     * The loop of `insert`: the ranges are inserted one by one; the first
     * that does not fit raises and stops the rest. The source walks an
     * index over the pairs of `new_keys`; here the pairs not yet inserted
     * are the suffixes `keys` and `vs`.
     */
    method InsertAll(newKeys: seq<int>, nvs: seq<Val>) returns (r: Outcome)
      requires Valid() && |newKeys| == 2 * |nvs|
      modifies this
      ensures Valid()
      ensures copyKey == old(copyKey) && defaultValue == old(defaultValue)
      ensures InsertPairs(old(bounds), old(values), newKeys, nvs) == InsertResult(bounds, values, r)
    {
      ghost var spec := InsertPairs(bounds, values, newKeys, nvs);
      var keys, vs := newKeys, nvs;
      while vs != []
        invariant |keys| == 2 * |vs|
        invariant Valid()
        invariant copyKey == old(copyKey) && defaultValue == old(defaultValue)
        invariant spec == InsertPairs(bounds, values, keys, vs)
        decreases |vs|
      {
        var res := InsertRange(keys, vs);
        if res.Fail? {
          return res;
        }
        keys, vs := keys[2..], vs[1..];
      }
      return Pass;
    }

    /** `insert(new_keys, new_values)`: the key and value counts are checked before any range goes in. */
    method Insert(newKeys: seq<int>, newValues: Option<seq<Val>>) returns (r: Outcome)
      requires Valid()
      modifies this
      ensures Valid()
      ensures copyKey == old(copyKey) && defaultValue == old(defaultValue)
      ensures bounds == InsertSpec(old(bounds), old(values), newKeys, newValues).bounds
      ensures values == InsertSpec(old(bounds), old(values), newKeys, newValues).values
      ensures r == InsertSpec(old(bounds), old(values), newKeys, newValues).outcome
    {
      var nvs := InsertValues(newKeys, newValues);
      if |newKeys| % 2 == 1 {
        return Fail(ValueError);
      }
      if |nvs| != |newKeys| / 2 {
        return Fail(ValueError);
      }
      r := InsertAll(newKeys, nvs);
    }
  }
}
