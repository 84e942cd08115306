/**
 * The substitution-function prototype: range tests, the code point offset
 * shift, dictionary substitution with U+FFFC as the placeholder for the
 * character, and multi-substitution lists that group successive
 * character-scope functions into runs.
 *
 * A substitution function is a closure over its construction arguments;
 * here it is the datatype `SubFn` of those arguments, and `Apply` is the
 * call.
 */
module Sfunc {
  import opened Base

  /**
   * The scope tags. Any other string is an invalid scope: the module
   * warns about it through `warn`, a name it never imports, so the call
   * raises `NameError` instead.
   */
  const ScopeChar: string := "C"
  const ScopeStr: string := "S"
  const ScopeNop: string := ""

  /** A call argument, as `isinstance(c, str)` sees it. */
  datatype Input = StrInput(s: Str) | OtherInput

  /** The `dic` argument of `sfunc_from_dict`, as `isinstance(dic, dict)` sees it. */
  datatype DictArg = ADict(m: map<Str, Val>) | NotADict

  /**
   * A substitution function: `fn_covar`, `fn_dict` or `fn_multi`, with the
   * arguments it closes over. A list entry pairs a function with its scope.
   */
  datatype SubFn =
    | Covar(rStart: Option<int>, rEnd: Option<int>, offset: int)
    | DictSub(rStart: Option<int>, rEnd: Option<int>, dic: map<Str, Val>)
    | Multi(subs: seq<(SubFn, string)>)

  /**
   * `in_range(r_start, r_end, char)`: true when either bound is `None`;
   * reversed bounds reach the undefined `warn` and raise `NameError`;
   * otherwise whether the first code point lies in [r_start, r_end], and
   * `ord('')` raises `TypeError`.
   */
  function InRange(rStart: Option<int>, rEnd: Option<int>, c: Str): (r: Result<bool>)
    ensures (rStart.None? || rEnd.None?) ==> r == Success(true)
    ensures rStart.Some? && rEnd.Some? && rStart.value > rEnd.value ==> r == Failure(NameError)
    ensures rStart.Some? && rEnd.Some? && rStart.value <= rEnd.value && c == [] ==> r == Failure(TypeError)
    ensures rStart.Some? && rEnd.Some? && rStart.value <= rEnd.value && c != [] ==>
      r == Success(rStart.value <= c[0] <= rEnd.value)
  {
    if rStart.None? || rEnd.None? then Success(true)
    else if rStart.value > rEnd.value then Failure(NameError)
    else if |c| == 0 then Failure(TypeError)
    else Success(c[0] >= rStart.value && c[0] <= rEnd.value)
  }

  /**
   * `fn_covar(c)`: an in-range character has its first code point moved by
   * `offset`, the rest copied; any other character is returned as is.
   */
  function FnCovar(rStart: Option<int>, rEnd: Option<int>, offset: int, c: Input): (r: Result<Str>)
    ensures c.OtherInput? ==> r == Failure(TypeError)
    ensures c.StrInput? && InRange(rStart, rEnd, c.s).Failure? ==> r == Failure(InRange(rStart, rEnd, c.s).error)
    ensures c.StrInput? && InRange(rStart, rEnd, c.s) == Success(false) ==> r == Success(c.s)
    ensures c.StrInput? && InRange(rStart, rEnd, c.s) == Success(true) && c.s == [] ==> r == Failure(IndexError)
    ensures c.StrInput? && InRange(rStart, rEnd, c.s) == Success(true) && c.s != [] ==>
      (r.Success? <==> 0 <= c.s[0] + offset <= MaxCodePoint) &&
      (r.Failure? ==> r.error == ValueError) &&
      (r.Success? ==> |r.value| == |c.s| && r.value[0] == c.s[0] + offset && r.value[1..] == c.s[1..])
  {
    if c.OtherInput? then Failure(TypeError)
    else
      match InRange(rStart, rEnd, c.s)
      case Failure(e) => Failure(e)
      case Success(inside) =>
        if !inside then Success(c.s)
        else if |c.s| == 0 then Failure(IndexError)
        else
          match Chr(c.s[0] + offset)
          case Failure(e) => Failure(e)
          case Success(n) => Success(if |c.s| > 1 then [n] + c.s[1..] else [n])
  }

  /** `out.replace(SUBPOINT, c)` on a value looked up in the dictionary. */
  function Fill(out: Val, c: Str): Result<Str>
  {
    match out
    case Text(t) => Success(ReplaceAll(t, SubPoint, c))
    case _ => Failure(AttributeError)
  }

  /**
   * `fn_dict(c)`: an in-range character is replaced by its entry, or by
   * the '' entry (U+FFFC when there is none), with U+FFFC filled in by the
   * character. A stored `None` counts as a missing entry, as `dic.get` makes it.
   * A string longer than one code point reaches the undefined `warn` and
   * raises `NameError` before the range test.
   */
  function FnDict(rStart: Option<int>, rEnd: Option<int>, dic: map<Str, Val>, c: Input): (r: Result<Str>)
    ensures c.OtherInput? ==> r == Failure(TypeError)
    ensures c.StrInput? && |c.s| > 1 ==> r == Failure(NameError)
    ensures c.StrInput? && |c.s| <= 1 && InRange(rStart, rEnd, c.s).Failure? ==>
      r == Failure(InRange(rStart, rEnd, c.s).error)
    ensures c.StrInput? && |c.s| <= 1 && InRange(rStart, rEnd, c.s) == Success(false) ==> r == Success(c.s)
  {
    if c.OtherInput? then Failure(TypeError)
    else if |c.s| > 1 then Failure(NameError)
    else
      match InRange(rStart, rEnd, c.s)
      case Failure(e) => Failure(e)
      case Success(inside) =>
        if !inside then Success(c.s)
        else
          var preOutDefault := if [] in dic then dic[[]] else Text([SubPoint]);
          var out := if c.s in dic then dic[c.s] else Nothing;
          if out != Nothing then Fill(out, c.s) else Fill(preOutDefault, c.s)
  }

  /** `sfunc_from_dict(r_start, r_end, dic)`: only a dict is accepted. */
  function FromDict(rStart: Option<int>, rEnd: Option<int>, dic: DictArg): (r: Result<(SubFn, string)>)
    ensures r.Failure? <==> dic.NotADict?
    ensures r.Failure? ==> r.error == TypeError
    ensures r.Success? ==> r.value.1 == ScopeChar && r.value.0 == DictSub(rStart, rEnd, dic.m)
  {
    if dic.NotADict? then Failure(TypeError) else Success((DictSub(rStart, rEnd, dic.m), ScopeChar))
  }

  /** Calling a substitution function on a string. */
  function Apply(f: SubFn, s: Str): Result<Str>
    decreases f, 3
  {
    match f
    case Covar(rs, re, off) => FnCovar(rs, re, off, StrInput(s))
    case DictSub(rs, re, dic) => FnDict(rs, re, dic, StrInput(s))
    case Multi(subs) => MultiFrom(subs, 0, 0, 0, None, s)
  }

  /**
   * The inner loop of `do_fns_char` on one character: the functions at
   * positions `j` to `end` of the list, in order.
   */
  function ApplyRun(subs: seq<(SubFn, string)>, j: nat, end: nat, x: Str): Result<Str>
    decreases Multi(subs), 0, end + 1 - j
  {
    if j > end then Success(x)
    else if j >= |subs| then Failure(IndexError)
    else
      match Apply(subs[j].0, x)
      case Failure(e) => Failure(e)
      case Success(y) => ApplyRun(subs, j + 1, end, y)
  }

  /** `do_fns_char()`: the run `start..end` applied to each character, the results joined. */
  function CharPass(subs: seq<(SubFn, string)>, start: nat, end: nat, out: Str): Result<Str>
    decreases Multi(subs), 1, |out|
  {
    if out == [] then Success([])
    else
      match ApplyRun(subs, start, end, [out[0]])
      case Failure(e) => Failure(e)
      case Success(x) =>
        match CharPass(subs, start, end, out[1..])
        case Failure(e) => Failure(e)
        case Success(y) => Success(x + y)
  }

  /**
   * The main loop of `fn_multi` from list position `k`, with the current
   * character run `start..end`, the previous scope and the output so far;
   * after the list, one more `do_fns_char()`.
   */
  function MultiFrom(subs: seq<(SubFn, string)>, k: nat, start: nat, end: nat, prev: Option<string>, out: Str): (r: Result<Str>)
    ensures r.Success? ==> forall j :: k <= j < |subs| ==> subs[j].1 == ScopeChar || subs[j].1 == ScopeStr
    decreases Multi(subs), 2, |subs| - k
  {
    if k >= |subs| then CharPass(subs, start, end, out)
    else
      var scope := subs[k].1;
      if scope == ScopeChar then
        MultiFrom(subs, k + 1, if prev != Some(scope) then k else start, k, Some(scope), out)
      else if scope == ScopeStr then
        match CharPass(subs, start, end, out)
        case Failure(e) => Failure(e)
        case Success(o) =>
          match Apply(subs[k].0, o)
          case Failure(e) => Failure(e)
          case Success(o') => MultiFrom(subs, k + 1, start, end, Some(scope), o')
      else Failure(NameError)
  }

  /** Every function of `fns`, in order, on one string: the reference for a character run. */
  function Compose(fns: seq<SubFn>, x: Str): Result<Str>
    decreases |fns|
  {
    if fns == [] then Success(x)
    else
      match Apply(fns[0], x)
      case Failure(e) => Failure(e)
      case Success(y) => Compose(fns[1..], y)
  }

  /** The functions of a list, without their scopes. */
  function Functions(subs: seq<(SubFn, string)>): (fns: seq<SubFn>)
    ensures |fns| == |subs| && forall i :: 0 <= i < |subs| ==> fns[i] == subs[i].0
  {
    seq(|subs|, i requires 0 <= i < |subs| => subs[i].0)
  }

  /** Every character through `Compose(fns, ...)`, the results joined. */
  function EachChar(fns: seq<SubFn>, s: Str): Result<Str>
    decreases |s|
  {
    if s == [] then Success([])
    else
      match Compose(fns, [s[0]])
      case Failure(e) => Failure(e)
      case Success(x) =>
        match EachChar(fns, s[1..])
        case Failure(e) => Failure(e)
        case Success(y) => Success(x + y)
  }

  /** `''.join((done, rest))` once `rest` has been computed. */
  function Prefixed(done: Str, rest: Result<Str>): Result<Str>
  {
    match rest
    case Failure(e) => Failure(e)
    case Success(t) => Success(done + t)
  }

  lemma PrefixedEmpty(r: Result<Str>)
    ensures Prefixed([], r) == r
  {
    if r.Success? {
      assert [] + r.value == r.value;
    }
  }

  lemma PrefixedTwice(a: Str, b: Str, r: Result<Str>)
    ensures Prefixed(a, Prefixed(b, r)) == Prefixed(a + b, r)
  {
    if r.Success? {
      assert a + (b + r.value) == (a + b) + r.value;
    }
  }

  /** One character run is the composition of its functions. */
  lemma {:induction false} ApplyRunIsCompose(subs: seq<(SubFn, string)>, j: nat, end: nat, x: Str)
    requires j <= end + 1 && end < |subs|
    ensures ApplyRun(subs, j, end, x) == Compose(Functions(subs)[j..end + 1], x)
    decreases end + 1 - j
  {
    var fns := Functions(subs)[j..end + 1];
    if j <= end {
      assert fns[0] == subs[j].0 && fns[1..] == Functions(subs)[j + 1..end + 1];
      match Apply(subs[j].0, x)
      case Failure(e) =>
      case Success(y) => ApplyRunIsCompose(subs, j + 1, end, y);
    }
  }

  /** `do_fns_char()` sends every character through the whole run. */
  lemma {:induction false} CharPassIsEachChar(subs: seq<(SubFn, string)>, start: nat, end: nat, s: Str)
    requires start <= end + 1 && end < |subs|
    ensures CharPass(subs, start, end, s) == EachChar(Functions(subs)[start..end + 1], s)
    decreases |s|
  {
    if s != [] {
      ApplyRunIsCompose(subs, start, end, [s[0]]);
      CharPassIsEachChar(subs, start, end, s[1..]);
    }
  }

  lemma {:induction false} AllCharFrom(subs: seq<(SubFn, string)>, k: nat, s: Str)
    requires 1 <= k <= |subs|
    requires forall i :: 0 <= i < |subs| ==> subs[i].1 == ScopeChar
    ensures MultiFrom(subs, k, 0, k - 1, Some(ScopeChar), s) == CharPass(subs, 0, |subs| - 1, s)
    decreases |subs| - k
  {
    if k < |subs| {
      AllCharFrom(subs, k + 1, s);
    }
  }

  /**
   * A list of character-scope functions only is one run: every function,
   * in list order, on each character, the results joined.
   */
  lemma CharOnlyList(subs: seq<(SubFn, string)>, s: Str)
    requires subs != []
    requires forall i :: 0 <= i < |subs| ==> subs[i].1 == ScopeChar
    ensures Apply(Multi(subs), s) == EachChar(Functions(subs), s)
  {
    AllCharFrom(subs, 1, s);
    CharPassIsEachChar(subs, 0, |subs| - 1, s);
    assert Functions(subs)[0..|subs|] == Functions(subs);
  }

  lemma {:induction false} CharRunThenInvalid(subs: seq<(SubFn, string)>, i: nat, k: nat, start: nat, end: nat, prev: Option<string>, s: Str)
    requires i <= k < |subs| && subs[k].1 != ScopeChar && subs[k].1 != ScopeStr
    requires forall j :: i <= j < k ==> subs[j].1 == ScopeChar
    ensures MultiFrom(subs, i, start, end, prev, s) == Failure(NameError)
    decreases k - i
  {
    if i < k {
      CharRunThenInvalid(subs, i + 1, k, if prev != Some(ScopeChar) then i else start, i, Some(ScopeChar), s);
    }
  }

  /**
   * An entry of invalid scope reached after character-scope entries only
   * makes the whole list raise `NameError`, whatever the string: the
   * documented skipping never happens.
   */
  lemma InvalidScopeRaises(subs: seq<(SubFn, string)>, k: nat, s: Str)
    requires k < |subs| && subs[k].1 != ScopeChar && subs[k].1 != ScopeStr
    requires forall j :: 0 <= j < k ==> subs[j].1 == ScopeChar
    ensures Apply(Multi(subs), s) == Failure(NameError)
  {
    CharRunThenInvalid(subs, 0, k, 0, 0, None, s);
  }

  /**
   * A `SCOPE_NOP` function, which the docstring of `fn_multi` says is
   * skipped, makes the list raise `NameError` when it follows
   * character-scope functions only.
   */
  lemma NopScopeRaises(subs: seq<(SubFn, string)>, f: SubFn, s: Str)
    requires forall j :: 0 <= j < |subs| ==> subs[j].1 == ScopeChar
    ensures Apply(Multi(subs + [(f, ScopeNop)]), s) == Failure(NameError)
  {
    var all := subs + [(f, ScopeNop)];
    assert forall j :: 0 <= j < |subs| ==> all[j] == subs[j];
    InvalidScopeRaises(all, |subs|, s);
  }

  /** An empty list raises `IndexError` on any non-empty string: the final pass reads entry 0. */
  lemma EmptyListRaises(s: Str)
    ensures Apply(Multi([]), s) == if s == [] then Success([]) else Failure(IndexError)
  {
  }

  /** The run of the first function alone is that function on each character. */
  lemma FirstRunIsEachChar(subs: seq<(SubFn, string)>, s: Str)
    requires subs != []
    ensures CharPass(subs, 0, 0, s) == EachChar([subs[0].0], s)
  {
    assert Functions(subs)[0..1] == [subs[0].0];
    CharPassIsEachChar(subs, 0, 0, s);
  }

  /** A character-scope entry that starts a run: the run begins and ends at it. */
  lemma MultiStartsRun(subs: seq<(SubFn, string)>, k: nat, start: nat, end: nat, prev: Option<string>, out: Str)
    requires k < |subs| && subs[k].1 == ScopeChar && prev != Some(ScopeChar)
    ensures MultiFrom(subs, k, start, end, prev, out) == MultiFrom(subs, k + 1, k, k, Some(ScopeChar), out)
  {
  }

  /** A string-scope entry: the pending run over the output, then the function on the whole string. */
  lemma MultiStringStep(subs: seq<(SubFn, string)>, k: nat, start: nat, end: nat, prev: Option<string>, out: Str, o: Str, o': Str)
    requires k < |subs| && subs[k].1 == ScopeStr
    requires CharPass(subs, start, end, out) == Success(o) && Apply(subs[k].0, o) == Success(o')
    ensures MultiFrom(subs, k, start, end, prev, out) == MultiFrom(subs, k + 1, start, end, Some(ScopeStr), o')
  {
    assert ScopeStr != ScopeChar;
  }

  /**
   * A string-scope function after a character run: the run is applied, then
   * the string-scope function, and then the same run once more by the
   * final pass.
   */
  lemma RunReappliedAfterStringScope(f: SubFn, g: SubFn, s: Str, a: Str, b: Str)
    requires EachChar([f], s) == Success(a) && Apply(g, a) == Success(b)
    ensures Apply(Multi([(f, ScopeChar), (g, ScopeStr)]), s) == EachChar([f], b)
  {
    var subs := [(f, ScopeChar), (g, ScopeStr)];
    FirstRunIsEachChar(subs, s);
    FirstRunIsEachChar(subs, b);
    MultiStartsRun(subs, 0, 0, 0, None, s);
    MultiStringStep(subs, 1, 0, 0, Some(ScopeChar), s, a, b);
  }

  /** Shifting by `offset` and then, over the shifted range, by `-offset` gives the character back. */
  lemma CovarRoundTrip(rStart: int, rEnd: int, offset: int, c: Str)
    requires c != [] && rStart <= c[0] <= rEnd && 0 <= c[0] + offset <= MaxCodePoint
    ensures FnCovar(Some(rStart), Some(rEnd), offset, StrInput(c)).Success?
    ensures var d := FnCovar(Some(rStart), Some(rEnd), offset, StrInput(c)).value;
      FnCovar(Some(rStart + offset), Some(rEnd + offset), -offset, StrInput(d)) == Success(c)
  {
    var d := FnCovar(Some(rStart), Some(rEnd), offset, StrInput(c)).value;
    assert d[0] == c[0] + offset && d[1..] == c[1..];
    var e := FnCovar(Some(rStart + offset), Some(rEnd + offset), -offset, StrInput(d)).value;
    assert e[0] == c[0] && e[1..] == c[1..];
    assert e == [e[0]] + e[1..] && c == [c[0]] + c[1..];
  }

  /** Replacing U+FFFC in U+FFFC alone by `c` gives `c`. */
  lemma FillSubPoint(c: Str)
    ensures ReplaceAll([SubPoint], SubPoint, c) == c
  {
    var t: Str := [SubPoint];
    assert t[1..] == [];
    assert ReplaceAll(t, SubPoint, c) == c + ReplaceAll([], SubPoint, c);
  }

  /**
   * `fn_dict` on an in-range character: a present entry with U+FFFC filled
   * in; an absent one with no '' entry gives the character back; an absent
   * one with a '' entry gives that entry, filled in. An in-range string of
   * more than one code point raises `NameError` instead.
   */
  lemma DictSubstitution(rStart: Option<int>, rEnd: Option<int>, dic: map<Str, Val>, c: Str)
    requires InRange(rStart, rEnd, c) == Success(true)
    ensures |c| > 1 ==> FnDict(rStart, rEnd, dic, StrInput(c)) == Failure(NameError)
    ensures |c| <= 1 && c in dic && dic[c].Text? ==>
      FnDict(rStart, rEnd, dic, StrInput(c)) == Success(ReplaceAll(dic[c].s, SubPoint, c))
    ensures |c| <= 1 && c in dic && dic[c].Text? && SubPoint !in dic[c].s ==>
      FnDict(rStart, rEnd, dic, StrInput(c)) == Success(dic[c].s)
    ensures |c| <= 1 && (c !in dic || dic[c] == Nothing) && [] !in dic ==>
      FnDict(rStart, rEnd, dic, StrInput(c)) == Success(c)
    ensures |c| <= 1 && (c !in dic || dic[c] == Nothing) && [] in dic && dic[[]].Text? ==>
      FnDict(rStart, rEnd, dic, StrInput(c)) == Success(ReplaceAll(dic[[]].s, SubPoint, c))
  {
    FillSubPoint(c);
    if c in dic && dic[c].Text? && SubPoint !in dic[c].s {
      ReplaceAllAbsent(dic[c].s, SubPoint, c);
    }
  }

  /**
   * An out-of-range character passes through `fn_dict` unchanged; a longer
   * string raises `NameError` whatever the range says.
   */
  lemma DictOutOfRange(rStart: Option<int>, rEnd: Option<int>, dic: map<Str, Val>, c: Str)
    requires InRange(rStart, rEnd, c) == Success(false)
    ensures |c| <= 1 ==> FnDict(rStart, rEnd, dic, StrInput(c)) == Success(c)
    ensures |c| > 1 ==> FnDict(rStart, rEnd, dic, StrInput(c)) == Failure(NameError)
    ensures FnDict(rStart, rEnd, dic, OtherInput) == Failure(TypeError)
  {
  }

  /**
   * Reversed bounds make every string substitution function raise
   * `NameError` on a single character: `in_range` reaches the undefined `warn`.
   */
  lemma ReversedBoundsRaise(rStart: int, rEnd: int, offset: int, dic: map<Str, Val>, c: Str)
    requires rStart > rEnd && |c| == 1
    ensures Apply(Covar(Some(rStart), Some(rEnd), offset), c) == Failure(NameError)
    ensures Apply(DictSub(Some(rStart), Some(rEnd), dic), c) == Failure(NameError)
  {
  }

  /** Calling a substitution function. */
  method ApplyFn(f: SubFn, s: Str) returns (r: Result<Str>)
    ensures r == Apply(f, s)
    decreases f, 3
  {
    match f
    case Covar(rs, re, off) =>
      r := FnCovar(rs, re, off, StrInput(s));
    case DictSub(rs, re, dic) =>
      r := FnDict(rs, re, dic, StrInput(s));
    case Multi(subs) =>
      r := FnMulti(subs, s);
  }

  /** `do_fns_char()`: rebuilds the output character by character through the run `start..end`. */
  method DoFnsChar(subs: seq<(SubFn, string)>, start: nat, end: nat, out: Str) returns (r: Result<Str>)
    ensures r == CharPass(subs, start, end, out)
    decreases Multi(subs), 1
  {
    var tmp: Str := [];
    var idx := 0;
    assert out[0..] == out;
    PrefixedEmpty(CharPass(subs, start, end, out));
    while idx < |out|
      invariant 0 <= idx <= |out|
      invariant CharPass(subs, start, end, out) == Prefixed(tmp, CharPass(subs, start, end, out[idx..]))
      decreases |out| - idx
    {
      assert out[idx..][0] == out[idx] && out[idx..][1..] == out[idx + 1..];
      var tmpC: Str := [out[idx]];
      var j := start;
      while j <= end
        invariant start <= j
        invariant ApplyRun(subs, start, end, [out[idx]]) == ApplyRun(subs, j, end, tmpC)
        decreases end + 1 - j
      {
        if j >= |subs| {
          return Failure(IndexError);
        }
        var y := ApplyFn(subs[j].0, tmpC);
        if y.Failure? {
          return Failure(y.error);
        }
        tmpC := y.value;
        j := j + 1;
      }
      assert CharPass(subs, start, end, out[idx..]) == Prefixed(tmpC, CharPass(subs, start, end, out[idx + 1..]));
      PrefixedTwice(tmp, tmpC, CharPass(subs, start, end, out[idx + 1..]));
      tmp := tmp + tmpC;
      idx := idx + 1;
    }
    assert out[idx..] == [] && tmp + [] == tmp;
    r := Success(tmp);
  }

  /**
   * `fn_multi(s)`: successive character-scope entries widen the current
   * run, a string-scope entry flushes the run and then runs on the whole
   * string, any other scope raises `NameError` from the undefined `warn`;
   * a final pass flushes the run.
   */
  method FnMulti(subs: seq<(SubFn, string)>, s: Str) returns (r: Result<Str>)
    ensures r == Apply(Multi(subs), s)
    decreases Multi(subs), 2
  {
    var i := 0;
    var start, end := 0, 0;
    var out := s;
    var prev: Option<string> := None;
    while i < |subs|
      invariant 0 <= i <= |subs|
      invariant Apply(Multi(subs), s) == MultiFrom(subs, i, start, end, prev, out)
      decreases |subs| - i
    {
      var scope := subs[i].1;
      if scope == ScopeChar {
        if prev != Some(scope) {
          start := i;
        }
        end := i;
      } else if scope == ScopeStr {
        var o := DoFnsChar(subs, start, end, out);
        if o.Failure? {
          return Failure(o.error);
        }
        var o' := ApplyFn(subs[i].0, o.value);
        if o'.Failure? {
          return Failure(o'.error);
        }
        out := o'.value;
      } else {
        return Failure(NameError);
      }
      i := i + 1;
      prev := Some(scope);
    }
    r := DoFnsChar(subs, start, end, out);
  }
}
