/**
 * TextProcessor: named translation bundles, an ordered list of the
 * bundles to apply, and `translate`, which runs a string through them in
 * turn. A bundle is what `get_trans(n, one_dict=True)` returns: one
 * lookup dict, then the regex substitutions.
 */
module TextProcessors {
  import opened Base
  import TD = TranslationDicts
  import B = Bundles

  /** An argument that Python code tests with `isinstance`: an `int`, a `str`, or anything else. */
  datatype OpArg = IntArg(i: int) | NameArg(s: string) | OtherArg

  /** The regex engine: `re.compile(pattern).sub(repl, s)`. */
  type RegexSub = (Str, Str, Str) -> Str

  /**
   * `key_by_index(d, i)` on the keys of `d` in insertion order: only an
   * int is accepted, an index past the end gives the default `None`, and
   * a negative index counts from the end.
   */
  function KeyByIndex<K>(keys: seq<K>, i: OpArg): (r: Result<Option<K>>)
    ensures !i.IntArg? ==> r == Failure(TypeError)
    ensures i.IntArg? && i.i >= |keys| ==> r == Success(None)
    ensures i.IntArg? && 0 <= i.i < |keys| ==> r == Success(Some(keys[i.i]))
    ensures i.IntArg? && -|keys| <= i.i < 0 ==> r == Success(Some(keys[|keys| + i.i]))
    ensures i.IntArg? && i.i < -|keys| ==> r == Failure(IndexError)
  {
    match i
    case IntArg(n) =>
      if n >= |keys| then Success(None)
      else
        (match PyIndex(keys, n)
         case Failure(e) => Failure(e)
         case Success(k) => Success(Some(k)))
    case _ => Failure(TypeError)
  }

  /** `[key_by_index(self.trans_dicts, i) for i in order]`. */
  function OrderNames(keys: seq<string>, order: seq<OpArg>): (r: Result<seq<Option<string>>>)
    ensures r.Success? ==> |r.value| == |order| && forall j :: 0 <= j < |order| ==> KeyByIndex(keys, order[j]) == Success(r.value[j])
    ensures r.Failure? ==> exists j :: 0 <= j < |order| && KeyByIndex(keys, order[j]).Failure?
  {
    if order == [] then Success([])
    else
      match KeyByIndex(keys, order[0])
      case Failure(e) => Failure(e)
      case Success(k) =>
        match OrderNames(keys, order[1..])
        case Failure(e) => Failure(e)
        case Success(ks) => Success([k] + ks)
  }

  // ---------------------------------------------------------------------
  // The operations list

  /**
   * `add_trans_ops(k, p)`: an int `k` inserts the name `key_by_index`
   * picks (possibly `None`), a name of a loaded bundle inserts that name,
   * and any other `k` changes nothing; `p` defaults to the end.
   */
  function AddOps(ops: seq<Option<string>>, names: PyDict<string, B.OneDict>, k: OpArg, p: Option<int>): (r: Result<seq<Option<string>>>)
    ensures (k.OtherArg? || (k.NameArg? && k.s !in names.m)) ==> r == Success(ops)
    ensures k.NameArg? && k.s in names.m ==> r.Success? && |r.value| == |ops| + 1 && Some(k.s) in r.value
    ensures r.Failure? ==> k.IntArg?
  {
    var pos := if p.None? then |ops| else p.value;
    match k
    case IntArg(_) =>
      (match KeyByIndex(names.keys, k)
       case Failure(e) => Failure(e)
       case Success(d) => Success(ListInsert(ops, pos, d)))
    case NameArg(s) => if s in names.m then Success(ListInsert(ops, pos, Some(s))) else Success(ops)
    case OtherArg => Success(ops)
  }

  /** Python's `lst.index(x)`: the first position of `x`. */
  function IndexOf<T(==)>(s: seq<T>, x: T): (r: Option<nat>)
    ensures r.None? <==> x !in s
    ensures r.Some? ==> r.value < |s| && s[r.value] == x && x !in s[..r.value]
  {
    if s == [] then None
    else if s[0] == x then Some(0)
    else
      match IndexOf(s[1..], x)
      case None => None
      case Some(j) =>
        assert s[..j + 1] == [s[0]] + s[1..][..j];
        Some(j + 1)
  }

  /** Python's `lst.pop(i)`: the list without the element, and the element. */
  function ListPop<T>(s: seq<T>, i: int): (r: Result<(seq<T>, T)>)
    ensures r.Success? <==> -|s| <= i < |s|
    ensures r.Failure? ==> r.error == IndexError
    ensures r.Success? ==> var j := if i < 0 then |s| + i else i;
      r.value.1 == s[j] && r.value.0 == s[..j] + s[j + 1..]
  {
    var j := if i < 0 then |s| + i else i;
    if 0 <= j < |s| then Success((s[..j] + s[j + 1..], s[j])) else Failure(IndexError)
  }

  /**
   * `pop_trans_ops(i)`: an empty list, a name not on the list and an
   * argument of another type raise `ValueError`; an int at or past the
   * end raises `NameError`, because the message names an undefined
   * variable; otherwise the element goes as `list.pop` removes it.
   */
  function PopOps(ops: seq<Option<string>>, i: OpArg): (r: Result<(seq<Option<string>>, Option<string>)>)
    ensures |ops| == 0 || i.OtherArg? ==> r == Failure(ValueError)
    ensures r.Success? ==> |r.value.0| + 1 == |ops| && r.value.1 in ops
  {
    if |ops| == 0 then Failure(ValueError)
    else
      match i
      case NameArg(s) =>
        (match IndexOf(ops, Some(s))
         case None => Failure(ValueError)
         case Some(j) => ListPop(ops, j))
      case IntArg(j) => if j >= |ops| then Failure(NameError) else ListPop(ops, j)
      case OtherArg => Failure(ValueError)
  }

  /**
   * Adding a loaded bundle's name and popping the position it landed at
   * restores the list and returns the name.
   */
  lemma AddThenPop(ops: seq<Option<string>>, names: PyDict<string, B.OneDict>, s: string, p: Option<int>)
    requires s in names.m
    ensures var pos := InsertIndex(|ops|, if p.None? then |ops| else p.value);
      && AddOps(ops, names, NameArg(s), p).Success?
      && PopOps(AddOps(ops, names, NameArg(s), p).value, IntArg(pos)) == Success((ops, Some(s)))
  {
    var pos := InsertIndex(|ops|, if p.None? then |ops| else p.value);
    var ops' := ListInsert(ops, if p.None? then |ops| else p.value, Some(s));
    assert ops'[..pos] + ops'[pos + 1..] == ops[..pos] + ops[pos..];
    assert ops[..pos] + ops[pos..] == ops;
  }

  /** A name of a loaded bundle lands at the position `list.insert` picks, the rest in order around it. */
  lemma AddOpsInserts(ops: seq<Option<string>>, names: PyDict<string, B.OneDict>, k: OpArg, p: Option<int>)
    ensures k.NameArg? && k.s !in names.m ==> AddOps(ops, names, k, p) == Success(ops)
    ensures k.OtherArg? ==> AddOps(ops, names, k, p) == Success(ops)
    ensures (k.NameArg? && k.s in names.m) || (k.IntArg? && KeyByIndex(names.keys, k).Success?) ==>
      var x := if k.NameArg? then Some(k.s) else KeyByIndex(names.keys, k).value;
      var pos := InsertIndex(|ops|, if p.None? then |ops| else p.value);
      && AddOps(ops, names, k, p).Success?
      && var r := AddOps(ops, names, k, p).value;
        |r| == |ops| + 1 && r[pos] == x && r[..pos] + r[pos + 1..] == ops
    ensures k.IntArg? && KeyByIndex(names.keys, k).Failure? ==> AddOps(ops, names, k, p) == Failure(IndexError)
  {
    if (k.NameArg? && k.s in names.m) || (k.IntArg? && KeyByIndex(names.keys, k).Success?) {
      var pos := InsertIndex(|ops|, if p.None? then |ops| else p.value);
      var r := AddOps(ops, names, k, p).value;
      assert r[..pos] + r[pos + 1..] == ops[..pos] + ops[pos..];
      assert ops[..pos] + ops[pos..] == ops;
    }
  }

  /** Popping by name succeeds exactly when the name is on the list, removes its first occurrence and returns it. */
  lemma PopByName(ops: seq<Option<string>>, s: string)
    ensures PopOps(ops, NameArg(s)).Success? <==> Some(s) in ops
    ensures PopOps(ops, NameArg(s)).Success? ==>
      var j := IndexOf(ops, Some(s)).value;
      PopOps(ops, NameArg(s)).value == (ops[..j] + ops[j + 1..], Some(s)) && Some(s) !in ops[..j]
  {
  }

  // ---------------------------------------------------------------------
  // Applying one bundle

  /** How `str.translate` uses a mapped value: `None` deletes, an int is a code point, a string replaces. */
  function MapOut(v: Val): (r: Result<Str>)
    ensures v.Text? ==> r == Success(v.s)
    ensures v.Nothing? ==> r == Success([])
    ensures v.Number? ==> (r.Success? <==> 0 <= v.i <= MaxCodePoint) && (r.Success? ==> r.value == [v.i])
    ensures r.Failure? ==> r.error == ValueError
  {
    match v
    case Text(s) => Success(s)
    case Nothing => Success([])
    case Number(i) => if 0 <= i <= MaxCodePoint then Success([i]) else Failure(ValueError)
  }

  /**
   * `str.translate` on one character: a plain dict leaves a character
   * without an entry as it is; a translation dict always answers, with
   * its default output for a missing key.
   */
  function TranslateChar(h: B.Head, c: CodePoint): Result<Str>
  {
    match h
    case PlainDict(d) => if IntKey(c) in d.m then MapOut(d.m[IntKey(c)]) else Success([c])
    case AutoDict(td) =>
      match TD.Get(td, IntKey(c))
      case Failure(e) => Failure(e)
      case Success(v) => MapOut(v)
  }

  /** `s.translate(tdict)`: the characters' translations in order, or the first character's error. */
  function TranslateStr(h: B.Head, s: Str): Result<Str>
  {
    if s == [] then Success([])
    else
      match TranslateChar(h, s[0])
      case Failure(e) => Failure(e)
      case Success(x) =>
        match TranslateStr(h, s[1..])
        case Failure(e) => Failure(e)
        case Success(t) => Success(x + t)
  }

  /** The raw stored entries of a bundle's dict, as `dict.get` sees them. */
  function Entries(h: B.Head): map<Key, Val>
  {
    match h
    case PlainDict(d) => d.m
    case AutoDict(td) => td.entries.m
  }

  /** `tdict.get(ord(c), c)` joined into a string: a stored non-string fails the join. */
  function RawGet(h: B.Head, c: CodePoint): (r: Result<Str>)
    ensures IntKey(c) !in Entries(h) ==> r == Success([c])
    ensures IntKey(c) in Entries(h) ==> (r.Success? <==> Entries(h)[IntKey(c)].Text?)
    ensures IntKey(c) in Entries(h) && r.Success? ==> r.value == Entries(h)[IntKey(c)].s
    ensures r.Failure? ==> r.error == TypeError
  {
    var m := Entries(h);
    if IntKey(c) !in m then Success([c])
    else if m[IntKey(c)].Text? then Success(m[IntKey(c)].s)
    else Failure(TypeError)
  }

  /** The `reverse-out` loop from the accumulated `tmp_rev`: each lookup goes in front. */
  function RevFrom(h: B.Head, s: Str, acc: Str): Result<Str>
  {
    if s == [] then Success(acc)
    else
      match RawGet(h, s[0])
      case Failure(e) => Failure(e)
      case Success(x) => RevFrom(h, s[1..], x + acc)
  }

  /** The `reverse-out` branch of `translate`. */
  function ReverseOut(h: B.Head, s: Str): Result<Str>
  {
    RevFrom(h, s, [])
  }

  /** The regex pre-pass: every regex pair substitutes in turn. */
  function RegexPass(rs: seq<B.Lookup>, s: Str, sub: RegexSub): Str
  {
    if rs == [] then s
    else RegexPass(rs[1..], if rs[0].RegexLookup? then sub(rs[0].pattern, rs[0].repl, s) else s, sub)
  }

  /** Whether a bundle's metadata asks for reversed output. */
  predicate ReversedOut(m: Meta)
  {
    Truthy(MetaGet(m, "reverse-out", MBool(false)))
  }

  /**
   * One step of `translate`: a name that is no loaded bundle, `None`
   * among them, raises `KeyError`; otherwise the regex pass, then the
   * lookup pass.
   */
  function ApplyOp(bundles: PyDict<string, B.OneDict>, meta: map<string, Meta>, tn: Option<string>, s: Str, sub: RegexSub): (r: Result<Str>)
    ensures tn.None? || tn.value !in bundles.m || tn.value !in meta ==> r == Failure(KeyError)
  {
    if tn.None? || tn.value !in bundles.m then Failure(KeyError)
    else
      var b := bundles.m[tn.value];
      var pre := RegexPass(b.regexes, s, sub);
      if tn.value !in meta then Failure(KeyError)
      else if ReversedOut(meta[tn.value]) then ReverseOut(b.head, pre)
      else TranslateStr(b.head, pre)
  }

  /** `for tn in olist: ...`: each bundle works on the previous one's output. */
  function RunOps(bundles: PyDict<string, B.OneDict>, meta: map<string, Meta>, olist: seq<Option<string>>, s: Str, sub: RegexSub): (r: Result<Str>)
    ensures olist == [] ==> r == Success(s)
    ensures r.Success? ==> forall tn :: tn in olist ==> tn.Some? && tn.value in bundles.m && tn.value in meta
  {
    if olist == [] then Success(s)
    else
      match ApplyOp(bundles, meta, olist[0], s, sub)
      case Failure(e) => Failure(e)
      case Success(out) => RunOps(bundles, meta, olist[1..], out, sub)
  }

  /** `translate(s, order)`: the operations list, unless `order` names the bundles by index. */
  function TranslateSpec(bundles: PyDict<string, B.OneDict>, meta: map<string, Meta>, ops: seq<Option<string>>, s: Str, order: seq<OpArg>, sub: RegexSub): (r: Result<Str>)
    ensures r.Success? && |order| == 0 ==> forall tn :: tn in ops ==> tn.Some? && tn.value in bundles.m
    ensures |order| > 0 && OrderNames(bundles.keys, order).Failure? ==> r.Failure?
    ensures |order| == 0 && ops == [] ==> r == Success(s)
  {
    if |order| == 0 then RunOps(bundles, meta, ops, s, sub)
    else
      match OrderNames(bundles.keys, order)
      case Failure(e) => Failure(e)
      case Success(olist) => RunOps(bundles, meta, olist, s, sub)
  }

  // ---------------------------------------------------------------------
  // Properties of translation

  /** `str.translate` works character by character, so it splits over concatenation. */
  lemma {:induction false} TranslateConcat(h: B.Head, a: Str, b: Str)
    ensures TranslateStr(h, a + b) ==
      match TranslateStr(h, a)
      case Failure(e) => Failure(e)
      case Success(x) =>
        match TranslateStr(h, b)
        case Failure(e) => Failure(e)
        case Success(y) => Success(x + y)
  {
    if a == [] {
      assert a + b == b;
      match TranslateStr(h, b)
      case Failure(e) =>
      case Success(y) => assert [] + y == y;
    } else {
      assert (a + b)[0] == a[0] && (a + b)[1..] == a[1..] + b;
      TranslateConcat(h, a[1..], b);
      match TranslateChar(h, a[0])
      case Failure(e) =>
      case Success(x) =>
        match TranslateStr(h, a[1..])
        case Failure(e) =>
        case Success(t) =>
          match TranslateStr(h, b)
          case Failure(e) =>
          case Success(y) =>
            assert x + (t + y) == (x + t) + y;
    }
  }

  /** With a plain dict, characters without an entry pass through unchanged. */
  lemma {:induction false} TranslatePassThrough(d: PyDict<Key, Val>, s: Str)
    requires forall i :: 0 <= i < |s| ==> IntKey(s[i]) !in d.m
    ensures TranslateStr(B.PlainDict(d), s) == Success(s)
  {
    if s != [] {
      assert IntKey(s[0]) !in d.m;
      assert TranslateChar(B.PlainDict(d), s[0]) == Success([s[0]]);
      assert forall i :: 0 <= i < |s[1..]| ==> s[1..][i] == s[i + 1];
      TranslatePassThrough(d, s[1..]);
      assert [s[0]] + s[1..] == s;
    }
  }

  /**
   * With a translation dict, a character without an entry reads the ''
   * entry with U+FFFC replaced by the character, and with no '' entry it
   * passes through.
   */
  lemma TranslateMissingChar(td: TD.TdState, c: CodePoint)
    requires TD.Wf(td) && IntKey(c) !in td.entries.m
    ensures TD.DefaultKey !in td.entries.m ==> TranslateChar(B.AutoDict(td), c) == Success([c])
    ensures TD.DefaultKey in td.entries.m ==>
      TranslateChar(B.AutoDict(td), c) ==
        match TD.Expand(td.entries.m[TD.DefaultKey], IntKey(c))
        case Failure(e) => Failure(e)
        case Success(v) => MapOut(v)
  {
    if TD.DefaultKey !in td.entries.m {
      TD.MissingKeyReadsItself(td, c);
    } else {
      TD.MissingKeyReadsDefault(td, IntKey(c));
    }
  }

  /** The `reverse-out` loop puts what it has already built after the rest. */
  lemma {:induction false} RevFromAcc(h: B.Head, s: Str, acc: Str)
    ensures RevFrom(h, s, acc) ==
      match RevFrom(h, s, [])
      case Failure(e) => Failure(e)
      case Success(x) => Success(x + acc)
  {
    if s == [] {
      assert [] + acc == acc;
    } else {
      match RawGet(h, s[0])
      case Failure(e) =>
      case Success(x) =>
        assert x + [] == x;
        RevFromAcc(h, s[1..], x + acc);
        RevFromAcc(h, s[1..], x);
        match RevFrom(h, s[1..], [])
        case Failure(e) =>
        case Success(y) =>
          assert y + (x + acc) == (y + x) + acc;
    }
  }

  /** Reversed output reverses concatenation: the second part's lookups come first. */
  lemma {:induction false} ReverseOutConcat(h: B.Head, a: Str, b: Str)
    ensures ReverseOut(h, a + b) ==
      match ReverseOut(h, a)
      case Failure(e) => Failure(e)
      case Success(x) =>
        match ReverseOut(h, b)
        case Failure(e) => Failure(e)
        case Success(y) => Success(y + x)
  {
    if a == [] {
      assert a + b == b;
      match ReverseOut(h, b)
      case Failure(e) =>
      case Success(y) => assert y + [] == y;
    } else {
      assert (a + b)[0] == a[0] && (a + b)[1..] == a[1..] + b;
      assert ReverseOut(h, a + b) == RevFrom(h, a + b, []);
      assert ReverseOut(h, a) == RevFrom(h, a, []);
      match RawGet(h, a[0])
      case Failure(e) =>
      case Success(x0) =>
        assert x0 + [] == x0;
        RevFromAcc(h, a[1..] + b, x0);
        RevFromAcc(h, a[1..], x0);
        ReverseOutConcat(h, a[1..], b);
        match RevFrom(h, a[1..], [])
        case Failure(e) =>
        case Success(t) =>
          match ReverseOut(h, b)
          case Failure(e) =>
          case Success(y) =>
            assert (y + t) + x0 == y + (t + x0);
    }
  }

  function Reverse<T>(s: seq<T>): seq<T>
  {
    if s == [] then [] else Reverse(s[1..]) + [s[0]]
  }

  /** Reversed output of characters without entries is the string reversed. */
  lemma {:induction false} ReverseOutWithoutEntries(h: B.Head, s: Str)
    requires forall i :: 0 <= i < |s| ==> IntKey(s[i]) !in Entries(h)
    ensures ReverseOut(h, s) == Success(Reverse(s))
  {
    if s != [] {
      assert IntKey(s[0]) !in Entries(h);
      assert RawGet(h, s[0]) == Success([s[0]]);
      assert forall i :: 0 <= i < |s[1..]| ==> s[1..][i] == s[i + 1];
      ReverseOutWithoutEntries(h, s[1..]);
      assert [s[0]] + [] == [s[0]];
      assert ReverseOut(h, s) == RevFrom(h, s[1..], [s[0]]);
      RevFromAcc(h, s[1..], [s[0]]);
    }
  }

  /** Reversed output of one character is its raw lookup. */
  lemma ReverseOutChar(h: B.Head, c: CodePoint)
    ensures ReverseOut(h, [c]) == RawGet(h, c)
  {
    assert [c][0] == c && [c][1..] == [];
    assert ReverseOut(h, [c]) == RevFrom(h, [c], []);
    match RawGet(h, c)
    case Failure(e) =>
    case Success(x) =>
      assert x + [] == x;
      assert RevFrom(h, [c], []) == RevFrom(h, [], x);
  }

  /** Queued bundles compose: running two lists is running the second on the first's output. */
  lemma {:induction false} RunOpsConcat(bundles: PyDict<string, B.OneDict>, meta: map<string, Meta>, a: seq<Option<string>>, b: seq<Option<string>>, s: Str, sub: RegexSub)
    ensures RunOps(bundles, meta, a + b, s, sub) ==
      match RunOps(bundles, meta, a, s, sub)
      case Failure(e) => Failure(e)
      case Success(x) => RunOps(bundles, meta, b, x, sub)
  {
    if a == [] {
      assert a + b == b;
    } else {
      assert (a + b)[0] == a[0] && (a + b)[1..] == a[1..] + b;
      match ApplyOp(bundles, meta, a[0], s, sub)
      case Failure(e) =>
      case Success(out) => RunOpsConcat(bundles, meta, a[1..], b, out, sub);
    }
  }

  /** With nothing queued and no order given, `translate` returns its input. */
  lemma TranslateNothingQueued(bundles: PyDict<string, B.OneDict>, meta: map<string, Meta>, s: Str, sub: RegexSub)
    ensures TranslateSpec(bundles, meta, [], s, [], sub) == Success(s)
  {
  }

  // ---------------------------------------------------------------------
  // The processor object

  class TextProcessor {
    /** `trans_dicts`: the loaded bundles by key, in the order they were added. */
    var transDicts: PyDict<string, B.OneDict>
    /** `meta`: each bundle's database metadata. */
    var meta: map<string, Meta>
    /** `trans_ops_list`: the bundles `translate` applies, in order. */
    var transOpsList: seq<Option<string>>

    /** `TextProcessor()`: no bundles, nothing queued. */
    constructor ()
      ensures transDicts == EmptyDict() && meta == map[] && transOpsList == []
    {
      transDicts := EmptyDict();
      meta := map[];
      transOpsList := [];
    }

    /**
     * The end of `add_trans_dict`: the bundle and the metadata of the
     * database it came from are stored under the key `k`.
     */
    method AddTransDict(k: string, b: B.OneDict, m: Meta)
      modifies this
      ensures transDicts == Put(old(transDicts), k, b)
      ensures meta == old(meta)[k := m]
      ensures transOpsList == old(transOpsList)
    {
      transDicts := Put(transDicts, k, b);
      meta := meta[k := m];
    }

    /** `add_trans_ops(k, p)`. */
    method AddTransOps(k: OpArg, p: Option<int>) returns (r: Outcome)
      modifies this
      ensures var a := AddOps(old(transOpsList), transDicts, k, p);
        && (r.Pass? <==> a.Success?)
        && (a.Success? ==> transOpsList == a.value)
        && (a.Failure? ==> r.error == a.error && transOpsList == old(transOpsList))
      ensures transDicts == old(transDicts) && meta == old(meta)
    {
      var pos := if p.None? then |transOpsList| else p.value;
      match k {
        case IntArg(_) =>
          var dname := KeyByIndex(transDicts.keys, k);
          if dname.Failure? {
            return Fail(dname.error);
          }
          transOpsList := ListInsert(transOpsList, pos, dname.value);
        case NameArg(s) =>
          if s in transDicts.m {
            transOpsList := ListInsert(transOpsList, pos, Some(s));
          }
        case OtherArg =>
      }
      return Pass;
    }

    /** `clear_trans()`: the bundles and the queue go; the metadata stays. */
    method ClearTrans()
      modifies this
      ensures transDicts == EmptyDict() && transOpsList == [] && meta == old(meta)
    {
      transDicts := EmptyDict();
      transOpsList := [];
    }

    /** `pop_trans_ops(i)`. */
    method PopTransOps(i: OpArg) returns (r: Result<Option<string>>)
      modifies this
      ensures var p := PopOps(old(transOpsList), i);
        && (r.Success? <==> p.Success?)
        && (p.Success? ==> r.value == p.value.1 && transOpsList == p.value.0)
        && (p.Failure? ==> r.error == p.error && transOpsList == old(transOpsList))
      ensures transDicts == old(transDicts) && meta == old(meta)
    {
      if |transOpsList| <= 0 {
        return Failure(ValueError);
      }
      var j: int;
      match i {
        case NameArg(s) =>
          var found := IndexOf(transOpsList, Some(s));
          if found.None? {
            return Failure(ValueError);
          }
          j := found.value;
        case IntArg(n) =>
          if n >= |transOpsList| {
            return Failure(NameError);
          }
          j := n;
        case OtherArg =>
          return Failure(ValueError);
      }
      var popped := ListPop(transOpsList, j);
      if popped.Failure? {
        return Failure(popped.error);
      }
      transOpsList := popped.value.0;
      return Success(popped.value.1);
    }

    /** `translate(s, order)`, with the regex engine given as `sub`. */
    method Translate(s: Str, order: seq<OpArg>, sub: RegexSub) returns (r: Result<Str>)
      ensures r == TranslateSpec(transDicts, meta, transOpsList, s, order, sub)
    {
      var olist: seq<Option<string>>;
      if |order| == 0 {
        olist := transOpsList;
      } else {
        var names := OrderNames(transDicts.keys, order);
        if names.Failure? {
          return Failure(names.error);
        }
        olist := names.value;
      }
      var out := s;
      var i := 0;
      assert olist[0..] == olist;
      while i < |olist|
        invariant 0 <= i <= |olist|
        invariant RunOps(transDicts, meta, olist, s, sub) == RunOps(transDicts, meta, olist[i..], out, sub)
        decreases |olist| - i
      {
        assert olist[i..][0] == olist[i] && olist[i..][1..] == olist[i + 1..];
        var tn := olist[i];
        if tn.None? || tn.value !in transDicts.m {
          return Failure(KeyError);
        }
        var tdata := transDicts.m[tn.value];
        ghost var before := out;
        var j := 0;
        assert tdata.regexes[0..] == tdata.regexes;
        while j < |tdata.regexes|
          invariant 0 <= j <= |tdata.regexes|
          invariant RegexPass(tdata.regexes, before, sub) == RegexPass(tdata.regexes[j..], out, sub)
          decreases |tdata.regexes| - j
        {
          assert tdata.regexes[j..][0] == tdata.regexes[j] && tdata.regexes[j..][1..] == tdata.regexes[j + 1..];
          var p := tdata.regexes[j];
          if p.RegexLookup? {
            out := sub(p.pattern, p.repl, out);
          }
          j := j + 1;
        }
        assert out == RegexPass(tdata.regexes, before, sub);
        if tn.value !in meta {
          return Failure(KeyError);
        }
        if ReversedOut(meta[tn.value]) {
          var tmpRev: Str := [];
          var c := 0;
          assert out[0..] == out;
          while c < |out|
            invariant 0 <= c <= |out|
            invariant ReverseOut(tdata.head, out) == RevFrom(tdata.head, out[c..], tmpRev)
            decreases |out| - c
          {
            assert out[c..][0] == out[c] && out[c..][1..] == out[c + 1..];
            var x := RawGet(tdata.head, out[c]);
            if x.Failure? {
              return Failure(x.error);
            }
            tmpRev := x.value + tmpRev;
            c := c + 1;
          }
          out := tmpRev;
        } else {
          var t := TranslateStr(tdata.head, out);
          if t.Failure? {
            return Failure(t.error);
          }
          out := t.value;
        }
        i := i + 1;
      }
      return Success(out);
    }
  }
}
