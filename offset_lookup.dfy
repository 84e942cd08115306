/**
 * CodePointOffsetLookup: a read-only mapping from the code points of one
 * closed interval [start, end] to the character `chr(key + offset)`.
 * Its fields never change after construction, so it is a value.
 */
module OffsetLookup {
  import opened Base

  /** A constructor argument or key, as Python's `isinstance(x, int)` sees it. */
  datatype Arg = Int(i: int) | NonInt

  /** Python compares two lookups by their three fields, which is datatype equality here. */
  datatype CodePointOffsetLookup = CodePointOffsetLookup(start: int, end: int, offset: int)

  /** What the constructor guarantees of every lookup it returns. */
  ghost predicate Valid(c: CodePointOffsetLookup)
  {
    0 <= c.start <= c.end && 0 <= c.start + c.offset
  }

  /** The constructor: every rejected argument raises `ValueError`. */
  function New(start: Arg, end: Arg, offset: Arg): (r: Result<CodePointOffsetLookup>)
    ensures r.Success? <==>
      start.Int? && end.Int? && offset.Int? && 0 <= start.i <= end.i && 0 <= start.i + offset.i
    ensures r.Success? ==> Valid(r.value) && r.value == CodePointOffsetLookup(start.i, end.i, offset.i)
    ensures r.Failure? ==> r.error == ValueError
  {
    if !start.Int? || !end.Int? then Failure(ValueError)
    else if start.i < 0 || end.i < 0 then Failure(ValueError)
    else if start.i > end.i then Failure(ValueError)
    else if !offset.Int? then Failure(ValueError)
    else if start.i + offset.i < 0 then Failure(ValueError)
    else Success(CodePointOffsetLookup(start.i, end.i, offset.i))
  }

  /** `lookup[key]`: the code point `key + offset` for a key inside the interval. */
  function Get(c: CodePointOffsetLookup, key: Arg): (r: Result<CodePoint>)
    ensures r.Success? <==> key.Int? && c.start <= key.i <= c.end && 0 <= key.i + c.offset <= MaxCodePoint
    ensures r.Success? ==> r.value == key.i + c.offset
    ensures !key.Int? ==> r == Failure(ValueError)
    ensures key.Int? && (key.i < c.start || c.end < key.i) ==> r == Failure(LookupError)
    ensures key.Int? && c.start <= key.i <= c.end && key.i + c.offset < 0 ==> r == Failure(ValueError)
    ensures key.Int? && c.start <= key.i <= c.end && MaxCodePoint < key.i + c.offset ==> r == Failure(LookupError)
  {
    if !key.Int? then Failure(ValueError)
    else if key.i > c.end then Failure(LookupError)
    else if key.i < c.start then Failure(LookupError)
    else if key.i + c.offset < 0 then Failure(ValueError)
    else if key.i + c.offset > MaxCodePoint then Failure(LookupError)
    else Success(key.i + c.offset)
  }

  /** An entry of the expanded dict: the key's string value. */
  function Entry(c: CodePointOffsetLookup, k: Key): Result<Val>
  {
    match k
    case IntKey(i) => (match Get(c, Int(i)) case Success(v) => Success(Text([v])) case Failure(e) => Failure(e))
    case StrKey(_) => Failure(ValueError)
  }

  /** The dict `lookup.dict()` returns: one entry per key of the interval, in ascending order. */
  function DictOf(c: CodePointOffsetLookup): Result<PyDict<Key, Val>>
  {
    Tabulate(IntervalKeys(c.start, c.end), k => Entry(c, k), EmptyDict())
  }

  /**
   * The expanded dict exists exactly when the whole interval maps below
   * U+10FFFF; then its keys are the interval and each key `k` holds
   * `chr(k + offset)`. A lookup running past U+10FFFF raises `LookupError`.
   */
  lemma DictOfSpec(c: CodePointOffsetLookup)
    requires Valid(c)
    ensures DictOf(c).Success? <==> c.end + c.offset <= MaxCodePoint
    ensures DictOf(c).Failure? ==> DictOf(c).error == LookupError
    ensures DictOf(c).Success? ==>
      && DictWf(DictOf(c).value)
      && (forall k :: k in DictOf(c).value.m <==> k.IntKey? && c.start <= k.i <= c.end)
      && (forall i :: c.start <= i <= c.end ==> DictOf(c).value.m[IntKey(i)] == Text([i + c.offset]))
  {
    DictFromStart(c);
    DictFromOutcome(c, c.start, EmptyDict());
    if c.end + c.offset <= MaxCodePoint {
      DictFromKeys(c, c.start, EmptyDict());
      DictFromValues(c, c.start, EmptyDict());
    }
  }

  /** The dict loop of `lookup.dict()` from key `i` on, with the entries `acc` built so far. */
  function DictFrom(c: CodePointOffsetLookup, i: int, acc: PyDict<Key, Val>): Result<PyDict<Key, Val>>
    decreases c.end + 1 - i
  {
    if i > c.end then Success(acc)
    else
      match Entry(c, IntKey(i))
      case Failure(e) => Failure(e)
      case Success(v) => DictFrom(c, i + 1, Put(acc, IntKey(i), v))
  }

  /** The loop from key `i` fails, with `LookupError`, exactly when a key past it maps above U+10FFFF. */
  lemma {:induction false} DictFromOutcome(c: CodePointOffsetLookup, i: int, acc: PyDict<Key, Val>)
    requires Valid(c) && c.start <= i
    ensures DictFrom(c, i, acc).Success? <==> i > c.end || c.end + c.offset <= MaxCodePoint
    ensures DictFrom(c, i, acc).Failure? ==> DictFrom(c, i, acc).error == LookupError
    decreases c.end + 1 - i
  {
    if i <= c.end {
      if i + c.offset <= MaxCodePoint {
        var v := Text([i + c.offset]);
        assert Entry(c, IntKey(i)) == Success(v);
        DictFromOutcome(c, i + 1, Put(acc, IntKey(i), v));
      } else {
        assert Entry(c, IntKey(i)) == Failure(LookupError);
      }
    }
  }

  /** The loop from key `i` adds the keys `i..end` and keeps the dict well formed. */
  lemma {:induction false} DictFromKeys(c: CodePointOffsetLookup, i: int, acc: PyDict<Key, Val>)
    requires Valid(c) && c.start <= i && c.end + c.offset <= MaxCodePoint
    ensures DictFrom(c, i, acc).Success?
    ensures DictWf(acc) ==> DictWf(DictFrom(c, i, acc).value)
    ensures forall k :: k in DictFrom(c, i, acc).value.m <==> k in acc.m || (k.IntKey? && i <= k.i <= c.end)
    decreases c.end + 1 - i
  {
    if i <= c.end {
      var v := Text([i + c.offset]);
      assert Entry(c, IntKey(i)) == Success(v);
      var acc' := Put(acc, IntKey(i), v);
      assert DictFrom(c, i, acc) == DictFrom(c, i + 1, acc');
      DictFromKeys(c, i + 1, acc');
    }
  }

  /** Each key `i..end` gets its shifted character; every other entry stays. */
  lemma {:induction false} DictFromValues(c: CodePointOffsetLookup, i: int, acc: PyDict<Key, Val>)
    requires Valid(c) && c.start <= i && c.end + c.offset <= MaxCodePoint
    ensures DictFrom(c, i, acc).Success?
    ensures var r := DictFrom(c, i, acc).value;
      && (forall j :: i <= j <= c.end ==> IntKey(j) in r.m && r.m[IntKey(j)] == Text([j + c.offset]))
      && (forall k :: k in acc.m && !(k.IntKey? && i <= k.i <= c.end) ==> k in r.m && r.m[k] == acc.m[k])
    decreases c.end + 1 - i
  {
    if i <= c.end {
      var v := Text([i + c.offset]);
      assert Entry(c, IntKey(i)) == Success(v);
      var acc' := Put(acc, IntKey(i), v);
      assert DictFrom(c, i, acc) == DictFrom(c, i + 1, acc');
      DictFromValues(c, i + 1, acc');
      var r := DictFrom(c, i, acc).value;
      assert IntKey(i) in acc'.m && acc'.m[IntKey(i)] == v;
      forall k | k in acc.m && !(k.IntKey? && i <= k.i <= c.end)
        ensures k in r.m && r.m[k] == acc.m[k]
      {
        assert k != IntKey(i) && acc'.m[k] == acc.m[k];
      }
    }
  }

  lemma {:induction false} DictFromTabulates(c: CodePointOffsetLookup, f: Key -> Result<Val>, i: int, acc: PyDict<Key, Val>)
    requires forall k :: f(k) == Entry(c, k)
    ensures DictFrom(c, i, acc) == Tabulate(IntervalKeys(i, c.end), f, acc)
    decreases c.end + 1 - i
  {
    if i <= c.end {
      TabulateCons(IntKey(i), IntervalKeys(i + 1, c.end), f, acc);
      assert f(IntKey(i)) == Entry(c, IntKey(i));
      match Entry(c, IntKey(i))
      case Failure(e) =>
      case Success(v) => DictFromTabulates(c, f, i + 1, Put(acc, IntKey(i), v));
    }
  }

  lemma DictFromStart(c: CodePointOffsetLookup)
    ensures DictFrom(c, c.start, EmptyDict()) == DictOf(c)
  {
    var f := k => Entry(c, k);
    DictFromTabulates(c, f, c.start, EmptyDict());
  }

  /**
   * `lookup.dict()`: one lookup per key of the interval, in ascending
   * order, stopping at the first that raises.
   */
  method Dict(c: CodePointOffsetLookup) returns (r: Result<PyDict<Key, Val>>)
    requires Valid(c)
    ensures r == DictOf(c)
  {
    DictFromStart(c);
    var out: PyDict<Key, Val> := EmptyDict();
    var i := c.start;
    while i <= c.end
      invariant c.start <= i <= c.end + 1
      invariant DictOf(c) == DictFrom(c, i, out)
      decreases c.end - i
    {
      var x := Get(c, Int(i));
      if x.Failure? {
        return Failure(x.error);
      }
      out := Put(out, IntKey(i), Text([x.value]));
      i := i + 1;
    }
    r := Success(out);
  }

  /**
   * The lookup a reversed database builds from the lookup `c`: the image
   * interval, shifted back by the same offset.
   */
  function Reversed(c: CodePointOffsetLookup): Result<CodePointOffsetLookup>
  {
    New(Int(c.offset + c.start), Int(c.offset + c.end), Int(-c.offset))
  }

  /**
   * Reversing a constructed lookup is always accepted, reversing twice
   * gives the lookup back, and the reversed lookup maps every image of
   * `c` back to its key.
   */
  lemma ReversedRoundTrip(c: CodePointOffsetLookup, k: int)
    requires Valid(c)
    ensures Reversed(c).Success?
    ensures Reversed(Reversed(c).value) == Success(c)
    ensures c.start <= k <= c.end && k <= MaxCodePoint && k + c.offset <= MaxCodePoint ==>
      Get(c, Int(k)) == Success(k + c.offset) && Get(Reversed(c).value, Int(k + c.offset)) == Success(k)
  {
  }
}
