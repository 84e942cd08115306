/**
 * The translation builder of uilaat's JSON repository: `get_trans` runs
 * every loaded database through the handler its keys select and collects
 * a list of lookups, a translation dict first and then offset lookups,
 * range-indexed lists and regex pairs; `_prep_one_dict` condenses that
 * list into a single dict followed by the regex pairs.
 */
module Bundles {
  import opened Base
  import OL = OffsetLookup
  import RI = RangeIndexed
  import TD = TranslationDicts

  /** The key prefixes `CODE_OFFSET`, `CODE_REGEX` and `CODE_RANGE`. */
  const CodeOffset: CodePoint := 0xF811
  const CodeRegex: CodePoint := 0xF812
  const CodeRange: CodePoint := 0xF813

  /** The value of an offset entry: `[s, e, off]`, or one such list per alternate. */
  datatype OffsetSpec = OffsetArgs(args: seq<OL.Arg>) | OffsetAlts(alts: seq<seq<OL.Arg>>)

  /** The value of a range entry: `[bounds, values]`, or one such pair per alternate. */
  datatype RangeSpec = RangeArgs(bounds: seq<int>, values: seq<Str>) | RangeAlts(alts: seq<(seq<int>, seq<Str>)>)

  /** The value of a regex entry: `[pattern, replacement]`, or one such list per alternate. */
  datatype RegexSpec = RegexArgs(args: seq<Str>) | RegexAlts(alts: seq<seq<Str>>)

  /** A parsed translation value, in one of the shapes the handlers read. */
  datatype EntryValue =
    | Plain(raw: RawValue)
    | Offset(offset: OffsetSpec)
    | Ranges(ranges: RangeSpec)
    | Pattern(regex: RegexSpec)

  /** A loaded database of `_tmp`: its metadata and its translation entries in file order. */
  datatype Db = Db(meta: Meta, trans: seq<(Str, EntryValue)>)

  /** A lookup after the first dict; a regex pair keeps its pattern uncompiled. */
  datatype Lookup =
    | CpLookup(cp: OL.CodePointOffsetLookup)
    | RangeLookup(table: RI.RangeTable)
    | RegexLookup(pattern: Str, repl: Str)

  /** `trans_dicts`: the translation dict `first_dict`, then the other lookups in order. */
  datatype TransList = TransList(first: TD.TdState, rest: seq<Lookup>)

  /** The head of a condensed list: a plain dict, or a translation dict when it has a '' entry. */
  datatype Head = PlainDict(d: PyDict<Key, Val>) | AutoDict(td: TD.TdState)

  /** The list `_prep_one_dict` returns: one dict, then the regex pairs. */
  datatype OneDict = OneDict(head: Head, regexes: seq<Lookup>)

  /** What `get_trans` returns once a database is selected. */
  datatype Built = Layered(list: TransList) | Flat(flat: OneDict)

  datatype Handler = PlainHandler | OffsetHandler | RangeHandler | RegexHandler

  /** The handler the main loop picks from the first character of the key. */
  function HandlerOf(k: Str): (h: Handler)
    ensures h == OffsetHandler <==> k != [] && k[0] == CodeOffset
    ensures h == RangeHandler <==> k != [] && k[0] == CodeRange
    ensures h == RegexHandler <==> k != [] && k[0] == CodeRegex
  {
    if k == [] then PlainHandler
    else if k[0] == CodeOffset then OffsetHandler
    else if k[0] == CodeRange then RangeHandler
    else if k[0] == CodeRegex then RegexHandler
    else PlainHandler
  }

  /** `trans_dicts` before the first database: an empty translation dict alone. */
  function Start(): (tl: TransList)
    ensures TD.Wf(tl.first) && tl.first.entries.m == map[] && tl.rest == []
  {
    TransList(TD.Empty(), [])
  }

  // ---------------------------------------------------------------------
  // Alternate selection in the offset, regex and range handlers

  /**
   * The alternate the offset, regex and range handlers take: they fall
   * back to the first alternate only when `n > len(v)`.
   */
  function SelectAltAsWritten<T>(alts: seq<T>, n: int): Result<T>
  {
    PyIndex(alts, if n > |alts| then 0 else n)
  }

  /**
   * The handlers' test agrees with the documented selection except at
   * `n == len(v)`, where it raises `IndexError` instead of taking `v[0]`.
   */
  lemma SelectAltAsWrittenOffByOne<T>(alts: seq<T>, n: int)
    ensures n != |alts| ==> SelectAltAsWritten(alts, n) == SelectAlt(alts, n)
    ensures alts != [] ==>
      SelectAltAsWritten(alts, |alts|) == Failure(IndexError) && SelectAlt(alts, |alts|) == Success(alts[0])
  {
  }

  /**
   * Which reading of the builder to follow. `AsWritten` is the code: the
   * offset, regex and range handlers fall back to the first alternate only
   * when `n > len(v)`, and a range list's values are counted with floor
   * division. `Corrected` is the evident intent: `n >= len(v)`, as the plain
   * handler and the metadata describe it, and exactly one value per range.
   */
  datatype Revision = AsWritten | Corrected

  /** The alternate the offset, regex and range handlers take under `rev`. */
  function HandlerAlt<T>(rev: Revision, alts: seq<T>, n: int): Result<T>
  {
    if rev == AsWritten then SelectAltAsWritten(alts, n) else SelectAlt(alts, n)
  }

  /** The validation a range list gets under `rev`. */
  function RangeValidation(rev: Revision, b: seq<int>, values: seq<Val>): Outcome
  {
    if rev == AsWritten then RI.ValidateSpec(b, Some(values)) else RI.ValidateIntended(b, Some(values))
  }

  // ---------------------------------------------------------------------
  // The handlers

  /** `for item in items: dls[0][item] = k`. */
  function StoreEach(st: TD.TdState, items: seq<Str>, k: Str): TD.TdState
    decreases |items|
  {
    if items == [] then st else StoreEach(TD.Store(st, StrKey(items[0]), Text(k)), items[1..], k)
  }

  /**
   * `_prep_trans` without `maketrans`: pick the alternate, then store
   * `k -> v`, or under reversal `v -> k` for every alternate, skipping the
   * key ''.
   */
  function PrepPlain(k: Str, v: RawValue, n: int, reverse: bool, st: TD.TdState): (r: Result<TD.TdState>)
    ensures r.Failure? <==> SelectValue(v, n).Failure?
    ensures r.Failure? ==> r.error == IndexError
    ensures !reverse && r.Success? ==> r.value == TD.Store(st, StrKey(k), Text(SelectValue(v, n).value))
    ensures reverse && k == [] && r.Success? ==> r.value == st
  {
    match SelectValue(v, n)
    case Failure(e) => Failure(e)
    case Success(out) =>
      if !reverse then Success(TD.Store(st, StrKey(k), Text(out)))
      else if k == [] then Success(st)
      else if v.Alts? then Success(StoreEach(st, v.alts, k))
      else Success(TD.Store(st, StrKey(out), Text(k)))
  }

  /** The argument list an offset entry selects. */
  function OffsetArgsOf(rev: Revision, v: OffsetSpec, n: int): Result<seq<OL.Arg>>
  {
    match v
    case OffsetArgs(args) => if args == [] then Failure(IndexError) else Success(args)
    case OffsetAlts(alts) => HandlerAlt(rev, alts, n)
  }

  /**
   * `_prep_trans_cpoff`: the lookup of `[start, end, offset]`, or under
   * reversal the lookup of `[start + offset, end + offset, -offset]`.
   */
  function PrepOffset(rev: Revision, v: OffsetSpec, n: int, reverse: bool): (r: Result<OL.CodePointOffsetLookup>)
    ensures r.Success? ==> OL.Valid(r.value)
    ensures OffsetArgsOf(rev, v, n).Failure? ==> r == Failure(OffsetArgsOf(rev, v, n).error)
    ensures !reverse && r.Success? ==>
      var args := OffsetArgsOf(rev, v, n).value;
      |args| >= 3 && args[0].Int? && args[1].Int? && args[2].Int? &&
      r.value == OL.CodePointOffsetLookup(args[0].i, args[1].i, args[2].i)
  {
    match OffsetArgsOf(rev, v, n)
    case Failure(e) => Failure(e)
    case Success(args) =>
      if |args| < 3 then Failure(IndexError)
      else if !reverse then OL.New(args[0], args[1], args[2])
      else if !(args[0].Int? && args[1].Int? && args[2].Int?) then Failure(TypeError)
      else OL.New(OL.Int(args[2].i + args[0].i), OL.Int(args[2].i + args[1].i), OL.Int(-args[2].i))
  }

  /** The bounds and values a range entry selects. */
  function RangeArgsOf(rev: Revision, v: RangeSpec, n: int): Result<(seq<int>, seq<Str>)>
  {
    match v
    case RangeArgs(bs, vs) => if bs == [] then Failure(IndexError) else Success((bs, vs))
    case RangeAlts(alts) => HandlerAlt(rev, alts, n)
  }

  function Texts(vs: seq<Str>): (r: seq<Val>)
    ensures |r| == |vs| && forall i :: 0 <= i < |vs| ==> r[i] == Text(vs[i])
  {
    seq(|vs|, i requires 0 <= i < |vs| => Text(vs[i]))
  }

  /**
   * `_prep_trans_ril`: a validated range-indexed list with `copy_key`;
   * the reversal branch names an undefined variable and raises `NameError`.
   */
  function PrepRange(rev: Revision, v: RangeSpec, n: int, reverse: bool): (r: Result<RI.RangeTable>)
    ensures reverse ==> r == Failure(NameError)
    ensures r.Success? ==>
      && r.value.copyKey && RangeArgsOf(rev, v, n).Success?
      && r.value.bounds == RangeArgsOf(rev, v, n).value.0 && r.value.values == Texts(RangeArgsOf(rev, v, n).value.1)
    ensures !reverse && RangeArgsOf(rev, v, n).Success? ==>
      var p := RangeArgsOf(rev, v, n).value;
      (r.Success? <==> RangeValidation(rev, p.0, Texts(p.1)) == Pass)
  {
    if reverse then Failure(NameError)
    else
      match RangeArgsOf(rev, v, n)
      case Failure(e) => Failure(e)
      case Success(p) =>
        match RangeValidation(rev, p.0, Texts(p.1))
        case Fail(e) => Failure(e)
        case Pass => Success(RI.RangeTable(p.0, Texts(p.1), true))
  }

  /** The pattern and replacement a regex entry selects. */
  function RegexArgsOf(rev: Revision, v: RegexSpec, n: int): Result<seq<Str>>
  {
    match v
    case RegexArgs(args) => if args == [] then Failure(IndexError) else Success(args)
    case RegexAlts(alts) => HandlerAlt(rev, alts, n)
  }

  /** `_prep_trans_regex`, with the pattern left uncompiled. */
  function PrepRegex(rev: Revision, v: RegexSpec, n: int, reverse: bool): (r: Result<Lookup>)
    ensures reverse ==> r == Failure(NameError)
    ensures r.Success? ==>
      && RegexArgsOf(rev, v, n).Success?
      && |RegexArgsOf(rev, v, n).value| >= 2
      && r.value == RegexLookup(RegexArgsOf(rev, v, n).value[0], RegexArgsOf(rev, v, n).value[1])
  {
    if reverse then Failure(NameError)
    else
      match RegexArgsOf(rev, v, n)
      case Failure(e) => Failure(e)
      case Success(args) => if |args| < 2 then Failure(IndexError) else Success(RegexLookup(args[0], args[1]))
  }

  /**
   * One entry through its handler: a plain entry writes into the first
   * dict, the others append a lookup. A value in a shape its handler
   * cannot read raises `TypeError`.
   */
  function PrepEntry(rev: Revision, k: Str, v: EntryValue, n: int, reverse: bool, tl: TransList): (r: Result<TransList>)
    ensures r.Success? && HandlerOf(k) == PlainHandler ==> r.value.rest == tl.rest
    ensures r.Success? && HandlerOf(k) != PlainHandler ==>
      r.value.first == tl.first && |r.value.rest| == |tl.rest| + 1 && r.value.rest[..|tl.rest|] == tl.rest
    ensures reverse && (HandlerOf(k) == RangeHandler || HandlerOf(k) == RegexHandler) ==> r.Failure?
  {
    match (HandlerOf(k), v)
    case (PlainHandler, Plain(raw)) =>
      (match PrepPlain(k, raw, n, reverse, tl.first)
       case Failure(e) => Failure(e)
       case Success(st) => Success(TransList(st, tl.rest)))
    case (OffsetHandler, Offset(o)) =>
      (match PrepOffset(rev, o, n, reverse)
       case Failure(e) => Failure(e)
       case Success(c) => Success(TransList(tl.first, tl.rest + [CpLookup(c)])))
    case (RangeHandler, Ranges(x)) =>
      (match PrepRange(rev, x, n, reverse)
       case Failure(e) => Failure(e)
       case Success(t) => Success(TransList(tl.first, tl.rest + [RangeLookup(t)])))
    case (RegexHandler, Pattern(x)) =>
      (match PrepRegex(rev, x, n, reverse)
       case Failure(e) => Failure(e)
       case Success(l) => Success(TransList(tl.first, tl.rest + [l])))
    case _ => Failure(TypeError)
  }

  // ---------------------------------------------------------------------
  // The main loop

  /**
   * The reversal flag of a database: `reverse-trans`, or the legacy
   * `reverse`. A legacy `reverse` that is not `False` triggers a
   * deprecation message that reads `_db_name`.
   */
  function ReverseFlag(meta: Meta): (r: Result<bool>)
    ensures r.Failure? <==> "reverse" in meta && meta["reverse"] != MBool(false) && "_db_name" !in meta
    ensures r.Failure? ==> r.error == KeyError
    ensures r.Success? && "reverse-trans" in meta ==> r.value == Truthy(meta["reverse-trans"])
    ensures "reverse-trans" !in meta && "reverse" !in meta ==> r == Success(false)
  {
    var legacy := MetaGet(meta, "reverse", MBool(false));
    if legacy != MBool(false) && "_db_name" !in meta then Failure(KeyError)
    else Success(Truthy(MetaGet(meta, "reverse-trans", legacy)))
  }

  /** The entries of one database, in order, through their handlers. */
  function BuildEntries(rev: Revision, trans: seq<(Str, EntryValue)>, n: int, reverse: bool, tl: TransList): (r: Result<TransList>)
    ensures r.Success? ==> tl.rest <= r.value.rest && |r.value.rest| <= |tl.rest| + |trans|
    decreases |trans|
  {
    if trans == [] then Success(tl)
    else
      match PrepEntry(rev, trans[0].0, trans[0].1, n, reverse, tl)
      case Failure(e) => Failure(e)
      case Success(t) => BuildEntries(rev, trans[1..], n, reverse, t)
  }

  /** Continue with the entries `trans` after a partial result. */
  function EntriesAfter(rev: Revision, r: Result<TransList>, trans: seq<(Str, EntryValue)>, n: int, reverse: bool): Result<TransList>
  {
    match r
    case Failure(e) => Failure(e)
    case Success(t) => BuildEntries(rev, trans, n, reverse, t)
  }

  /** Continue with the databases `dbs` after a partial result. */
  function DbsAfter(rev: Revision, r: Result<TransList>, dbs: seq<Db>, n: int): (r': Result<TransList>)
    ensures r'.Success? ==> r.Success? && r.value.rest <= r'.value.rest
    decreases |dbs|, 1
  {
    match r
    case Failure(e) => Failure(e)
    case Success(t) => BuildDbs(rev, dbs, n, t)
  }

  /** `for d in self._tmp: ...`: every database, first to last. */
  function BuildDbs(rev: Revision, dbs: seq<Db>, n: int, tl: TransList): (r: Result<TransList>)
    ensures dbs == [] ==> r == Success(tl)
    ensures r.Success? ==> tl.rest <= r.value.rest
    decreases |dbs|, 0
  {
    if dbs == [] then Success(tl)
    else
      match ReverseFlag(dbs[0].meta)
      case Failure(e) => Failure(e)
      case Success(reverse) => DbsAfter(rev, BuildEntries(rev, dbs[0].trans, n, reverse, tl), dbs[1..], n)
  }

  /** All dicts of the lookups of `rest` merged into `out`, and the regex pairs appended to `regexes`. */
  function FlattenRest(rest: seq<Lookup>, out: PyDict<Key, Val>, regexes: seq<Lookup>): (r: Result<(PyDict<Key, Val>, seq<Lookup>)>)
    ensures r.Success? ==> regexes <= r.value.1 && |r.value.1| <= |regexes| + |rest|
    ensures r.Success? ==> forall i :: |regexes| <= i < |r.value.1| ==> r.value.1[i].RegexLookup?
    decreases |rest|
  {
    if rest == [] then Success((out, regexes))
    else
      match rest[0]
      case RegexLookup(_, _) => FlattenRest(rest[1..], out, regexes + [rest[0]])
      case CpLookup(c) =>
        (match OL.DictOf(c)
         case Failure(e) => Failure(e)
         case Success(d) => FlattenRest(rest[1..], Merge(out, d), regexes))
      case RangeLookup(t) =>
        (match RI.DictOf(t)
         case Failure(e) => Failure(e)
         case Success(d) => FlattenRest(rest[1..], Merge(out, d), regexes))
  }

  /**
   * `_prep_one_dict`: the first dict's `get_dict()` and every other
   * dict-capable lookup merged in order; with a '' entry the result
   * becomes a translation dict whose '' entry is the first dict's raw
   * default again.
   */
  function OneDictSpec(tl: TransList): (r: Result<OneDict>)
    ensures r.Success? ==> TD.DictOfState(tl.first).Success?
    ensures r.Success? ==> |r.value.regexes| <= |tl.rest| && forall i :: 0 <= i < |r.value.regexes| ==> r.value.regexes[i].RegexLookup?
  {
    match TD.DictOfState(tl.first)
    case Failure(e) => Failure(e)
    case Success(d0) =>
      match FlattenRest(tl.rest, Merge(EmptyDict(), d0), [])
      case Failure(e) => Failure(e)
      case Success(p) =>
        if TD.DefaultKey in p.0.m then
          Success(OneDict(AutoDict(TD.Store(TD.FromDictState(p.0), TD.DefaultKey, tl.first.outDefault)), p.1))
        else Success(OneDict(PlainDict(p.0), p.1))
  }

  /**
   * `get_trans(n, one_dict=...)` over the loaded databases `tmp`: nothing
   * when no database is selected, `n` of `None` read as 0.
   */
  function GetTransSpec(rev: Revision, currentDbName: Option<string>, tmp: seq<Db>, n: Option<int>, oneDict: bool): (r: Result<Option<Built>>)
    ensures currentDbName.None? ==> r == Success(None)
    ensures currentDbName.Some? && r.Success? ==> r.value.Some? && (r.value.value.Flat? <==> oneDict)
  {
    if currentDbName.None? then Success(None)
    else
      var nn := if n.None? then 0 else n.value;
      match BuildDbs(rev, tmp, nn, Start())
      case Failure(e) => Failure(e)
      case Success(tl) =>
        if !oneDict then Success(Some(Layered(tl)))
        else
          match OneDictSpec(tl)
          case Failure(e) => Failure(e)
          case Success(od) => Success(Some(Flat(od)))
  }

  // ---------------------------------------------------------------------
  // Well-formedness of the lookups

  /** What the constructors guarantee of each lookup. */
  ghost predicate LookupWf(l: Lookup)
  {
    match l
    case CpLookup(c) => OL.Valid(c)
    case RangeLookup(t) => RI.ValidBounds(t.bounds)
    case RegexLookup(_, _) => true
  }

  ghost predicate TransListWf(tl: TransList)
  {
    TD.Wf(tl.first) && forall i :: 0 <= i < |tl.rest| ==> LookupWf(tl.rest[i])
  }

  /** The keys the reversed entries `items` are stored under. */
  ghost function ReversedKeys(items: seq<Str>): set<Key>
  {
    set x | x in items :: TD.StoredKey(StrKey(x))
  }

  /**
   * Storing every alternate reversed maps each item to the key and leaves
   * every other entry as it was.
   */
  lemma {:induction false} StoreEachSpec(st: TD.TdState, items: seq<Str>, k: Str)
    requires TD.Wf(st)
    ensures TD.Wf(StoreEach(st, items, k))
    ensures forall x :: x in items ==>
      TD.StoredKey(StrKey(x)) in StoreEach(st, items, k).entries.m &&
      StoreEach(st, items, k).entries.m[TD.StoredKey(StrKey(x))] == Text(k)
    ensures forall key :: key in st.entries.m && key !in ReversedKeys(items) ==>
      key in StoreEach(st, items, k).entries.m && StoreEach(st, items, k).entries.m[key] == st.entries.m[key]
    decreases |items|
  {
    if items != [] {
      var key0 := TD.StoredKey(StrKey(items[0]));
      var st' := TD.Store(st, StrKey(items[0]), Text(k));
      assert st'.entries.m == st.entries.m[key0 := Text(k)];
      StoreEachSpec(st', items[1..], k);
      var r := StoreEach(st, items, k);
      assert r == StoreEach(st', items[1..], k);
      assert key0 in r.entries.m && r.entries.m[key0] == Text(k) by {
        if key0 in ReversedKeys(items[1..]) {
          var y :| y in items[1..] && TD.StoredKey(StrKey(y)) == key0;
        }
      }
      forall x | x in items
        ensures TD.StoredKey(StrKey(x)) in r.entries.m && r.entries.m[TD.StoredKey(StrKey(x))] == Text(k)
      {
        if x !in items[1..] {
          assert x == items[0];
        }
      }
      forall key | key in st.entries.m && key !in ReversedKeys(items)
        ensures key in r.entries.m && r.entries.m[key] == st.entries.m[key]
      {
        assert key != key0;
      }
    }
  }

  /** The handlers only ever add well-formed lookups, after the ones already there. */
  lemma PrepEntryWf(rev: Revision, k: Str, v: EntryValue, n: int, reverse: bool, tl: TransList)
    requires TransListWf(tl)
    requires PrepEntry(rev, k, v, n, reverse, tl).Success?
    ensures TransListWf(PrepEntry(rev, k, v, n, reverse, tl).value)
    ensures tl.rest <= PrepEntry(rev, k, v, n, reverse, tl).value.rest
  {
    var r := PrepEntry(rev, k, v, n, reverse, tl).value;
    match (HandlerOf(k), v)
    case (PlainHandler, Plain(raw)) =>
      if reverse && k != [] && raw.Alts? {
        StoreEachSpec(tl.first, raw.alts, k);
      }
    case (OffsetHandler, Offset(o)) =>
      assert r.rest[|tl.rest|].CpLookup?;
    case (RangeHandler, Ranges(x)) =>
      var p := RangeArgsOf(rev, x, n).value;
      RI.ValidateAccepts(p.0, Some(Texts(p.1)));
      RI.ValidateAsWrittenAccepts(p.0, Some(Texts(p.1)));
    case (RegexHandler, Pattern(x)) =>
    case _ =>
  }

  lemma {:induction false} BuildEntriesWf(rev: Revision, trans: seq<(Str, EntryValue)>, n: int, reverse: bool, tl: TransList)
    requires TransListWf(tl)
    requires BuildEntries(rev, trans, n, reverse, tl).Success?
    ensures TransListWf(BuildEntries(rev, trans, n, reverse, tl).value)
    ensures tl.rest <= BuildEntries(rev, trans, n, reverse, tl).value.rest
    decreases |trans|
  {
    if trans != [] {
      PrepEntryWf(rev, trans[0].0, trans[0].1, n, reverse, tl);
      var t := PrepEntry(rev, trans[0].0, trans[0].1, n, reverse, tl).value;
      BuildEntriesWf(rev, trans[1..], n, reverse, t);
    }
  }

  /** Every list `get_trans` builds is well formed. */
  lemma {:induction false} BuildDbsWf(rev: Revision, dbs: seq<Db>, n: int, tl: TransList)
    requires TransListWf(tl)
    requires BuildDbs(rev, dbs, n, tl).Success?
    ensures TransListWf(BuildDbs(rev, dbs, n, tl).value)
    ensures tl.rest <= BuildDbs(rev, dbs, n, tl).value.rest
    decreases |dbs|
  {
    if dbs != [] {
      var reverse := ReverseFlag(dbs[0].meta).value;
      BuildEntriesWf(rev, dbs[0].trans, n, reverse, tl);
      var t := BuildEntries(rev, dbs[0].trans, n, reverse, tl).value;
      BuildDbsWf(rev, dbs[1..], n, t);
    }
  }

  // ---------------------------------------------------------------------
  // Properties of the handlers

  /**
   * A reversed database builds the reversed lookup of the forward one,
   * which maps every image back to the key it came from.
   */
  lemma ReversedOffsetEntry(rev: Revision, v: OffsetSpec, n: int, c: OL.CodePointOffsetLookup, k: int)
    requires PrepOffset(rev, v, n, false) == Success(c)
    ensures PrepOffset(rev, v, n, true).Success? && PrepOffset(rev, v, n, true) == OL.Reversed(c)
    ensures c.start <= k <= c.end && k <= MaxCodePoint && k + c.offset <= MaxCodePoint ==>
      OL.Get(PrepOffset(rev, v, n, true).value, OL.Int(k + c.offset)) == Success(k)
  {
    OL.ReversedRoundTrip(c, k);
  }

  /** The alternates of a plain value under reversal: every item, or the one string. */
  function ReversedItems(v: RawValue): seq<Str>
  {
    match v
    case Single(t) => [t]
    case Alts(a) => a
  }

  /**
   * A reversed plain entry: the key '' changes nothing; any other key
   * becomes the value of every alternate, each of which then reads as the
   * key; and every other entry of the dict is kept.
   */
  lemma ReversedPlainEntry(k: Str, v: RawValue, n: int, st: TD.TdState)
    requires TD.Wf(st)
    requires PrepPlain(k, v, n, true, st).Success?
    ensures k == [] ==> PrepPlain(k, v, n, true, st) == Success(st)
    ensures k != [] ==>
      var r := PrepPlain(k, v, n, true, st).value;
      && TD.Wf(r)
      && (forall x :: x in ReversedItems(v) ==>
            TD.StoredKey(StrKey(x)) in r.entries.m && r.entries.m[TD.StoredKey(StrKey(x))] == Text(k))
      && (SubPoint !in k ==> forall x :: x in ReversedItems(v) ==> TD.Get(r, TD.StoredKey(StrKey(x))) == Success(Text(k)))
      && (forall key :: key in st.entries.m && key !in ReversedKeys(ReversedItems(v)) ==>
            key in r.entries.m && r.entries.m[key] == st.entries.m[key])
  {
    if k != [] {
      StoreEachSpec(st, ReversedItems(v), k);
      var r := PrepPlain(k, v, n, true, st).value;
      if v.Single? {
        assert StoreEach(st, [v.text], k) == TD.Store(st, StrKey(v.text), Text(k));
      }
      assert r == StoreEach(st, ReversedItems(v), k);
    }
  }

  /** Whether an entry may write `key` into the first dict, in either direction. */
  ghost predicate MayStore(e: (Str, EntryValue), key: Key)
  {
    && HandlerOf(e.0) == PlainHandler
    && e.1.Plain?
    && (key == TD.StoredKey(StrKey(e.0)) || key in ReversedKeys(ReversedItems(e.1.raw)))
  }

  /** An entry that cannot write `key` leaves its entry as it was. */
  lemma PrepEntryKeeps(rev: Revision, e: (Str, EntryValue), n: int, reverse: bool, tl: TransList, key: Key)
    requires TD.Wf(tl.first) && key in tl.first.entries.m && !MayStore(e, key)
    requires PrepEntry(rev, e.0, e.1, n, reverse, tl).Success?
    ensures var r := PrepEntry(rev, e.0, e.1, n, reverse, tl).value;
      key in r.first.entries.m && r.first.entries.m[key] == tl.first.entries.m[key]
  {
    if HandlerOf(e.0) == PlainHandler && e.1.Plain? {
      var raw := e.1.raw;
      if reverse && e.0 != [] {
        ReversedPlainEntry(e.0, raw, n, tl.first);
      }
    }
  }

  lemma {:induction false} BuildEntriesKeeps(rev: Revision, trans: seq<(Str, EntryValue)>, n: int, reverse: bool, tl: TransList, key: Key)
    requires TransListWf(tl) && key in tl.first.entries.m
    requires forall i :: 0 <= i < |trans| ==> !MayStore(trans[i], key)
    requires BuildEntries(rev, trans, n, reverse, tl).Success?
    ensures var r := BuildEntries(rev, trans, n, reverse, tl).value;
      key in r.first.entries.m && r.first.entries.m[key] == tl.first.entries.m[key]
    decreases |trans|
  {
    if trans != [] {
      assert !MayStore(trans[0], key);
      PrepEntryKeeps(rev, trans[0], n, reverse, tl, key);
      PrepEntryWf(rev, trans[0].0, trans[0].1, n, reverse, tl);
      var t := PrepEntry(rev, trans[0].0, trans[0].1, n, reverse, tl).value;
      BuildEntriesKeeps(rev, trans[1..], n, reverse, t, key);
    }
  }

  lemma {:induction false} BuildDbsKeeps(rev: Revision, dbs: seq<Db>, n: int, tl: TransList, key: Key)
    requires TransListWf(tl) && key in tl.first.entries.m
    requires forall d, i :: d in dbs && 0 <= i < |d.trans| ==> !MayStore(d.trans[i], key)
    requires BuildDbs(rev, dbs, n, tl).Success?
    ensures var r := BuildDbs(rev, dbs, n, tl).value;
      key in r.first.entries.m && r.first.entries.m[key] == tl.first.entries.m[key]
    decreases |dbs|
  {
    if dbs != [] {
      var reverse := ReverseFlag(dbs[0].meta).value;
      assert dbs[0] in dbs;
      BuildEntriesKeeps(rev, dbs[0].trans, n, reverse, tl, key);
      var t := BuildEntries(rev, dbs[0].trans, n, reverse, tl).value;
      BuildEntriesWf(rev, dbs[0].trans, n, reverse, tl);
      forall d, i | d in dbs[1..] && 0 <= i < |d.trans|
        ensures !MayStore(d.trans[i], key)
      {
        assert d in dbs;
      }
      BuildDbsKeeps(rev, dbs[1..], n, t, key);
    }
  }

  /** Running the entries of `a + b` runs those of `a`, then those of `b`. */
  lemma {:induction false} BuildEntriesConcat(rev: Revision, a: seq<(Str, EntryValue)>, b: seq<(Str, EntryValue)>, n: int, reverse: bool, tl: TransList)
    ensures BuildEntries(rev, a + b, n, reverse, tl) == EntriesAfter(rev, BuildEntries(rev, a, n, reverse, tl), b, n, reverse)
    decreases |a|
  {
    if a == [] {
      assert a + b == b;
    } else {
      assert (a + b)[0] == a[0] && (a + b)[1..] == a[1..] + b;
      match PrepEntry(rev, a[0].0, a[0].1, n, reverse, tl)
      case Failure(e) =>
      case Success(t) =>
        BuildEntriesConcat(rev, a[1..], b, n, reverse, t);
    }
  }

  /** Running the databases of `a + b` runs those of `a`, then those of `b`. */
  lemma {:induction false} BuildDbsConcat(rev: Revision, a: seq<Db>, b: seq<Db>, n: int, tl: TransList)
    ensures BuildDbs(rev, a + b, n, tl) == DbsAfter(rev, BuildDbs(rev, a, n, tl), b, n)
    decreases |a|
  {
    if a == [] {
      assert a + b == b;
    } else {
      assert (a + b)[0] == a[0] && (a + b)[1..] == a[1..] + b;
      match ReverseFlag(a[0].meta)
      case Failure(e) =>
      case Success(reverse) =>
        match BuildEntries(rev, a[0].trans, n, reverse, tl)
        case Failure(e) =>
        case Success(t) =>
          BuildDbsConcat(rev, a[1..], b, n, t);
    }
  }

  /**
   * Later entries win: when a forward database `db` translates `k`, and
   * no later entry of `db` nor any entry of the databases after it can
   * write that key, the built dict holds `k`'s selected alternate.
   */
  lemma LaterEntryWins(rev: Revision, pre: seq<Db>, db: Db, post: seq<Db>, n: int, i: int)
    requires 0 <= i < |db.trans| && HandlerOf(db.trans[i].0) == PlainHandler && db.trans[i].1.Plain?
    requires ReverseFlag(db.meta) == Success(false)
    requires forall j :: i < j < |db.trans| ==> !MayStore(db.trans[j], TD.StoredKey(StrKey(db.trans[i].0)))
    requires forall d, j :: d in post && 0 <= j < |d.trans| ==> !MayStore(d.trans[j], TD.StoredKey(StrKey(db.trans[i].0)))
    requires BuildDbs(rev, pre + [db] + post, n, Start()).Success?
    ensures var key := TD.StoredKey(StrKey(db.trans[i].0));
      var r := BuildDbs(rev, pre + [db] + post, n, Start()).value;
      && SelectValue(db.trans[i].1.raw, n).Success?
      && key in r.first.entries.m
      && r.first.entries.m[key] == Text(SelectValue(db.trans[i].1.raw, n).value)
  {
    var key := TD.StoredKey(StrKey(db.trans[i].0));
    BuildDbsConcat(rev, pre, [db] + post, n, Start());
    assert pre + [db] + post == pre + ([db] + post);
    var t0 := BuildDbs(rev, pre, n, Start()).value;
    BuildDbsWf(rev, pre, n, Start());
    assert ([db] + post)[0] == db && ([db] + post)[1..] == post;
    var trans := db.trans;
    assert BuildDbs(rev, [db] + post, n, t0) == DbsAfter(rev, BuildEntries(rev, trans, n, false, t0), post, n);
    assert BuildEntries(rev, trans, n, false, t0).Success?;
    assert trans == trans[..i] + trans[i..];
    BuildEntriesConcat(rev, trans[..i], trans[i..], n, false, t0);
    var t1 := BuildEntries(rev, trans[..i], n, false, t0).value;
    BuildEntriesWf(rev, trans[..i], n, false, t0);
    assert trans[i..][0] == trans[i] && trans[i..][1..] == trans[i + 1..];
    var t2 := PrepEntry(rev, trans[i].0, trans[i].1, n, false, t1).value;
    assert key in t2.first.entries.m && t2.first.entries.m[key] == Text(SelectValue(trans[i].1.raw, n).value);
    PrepEntryWf(rev, trans[i].0, trans[i].1, n, false, t1);
    var later := trans[i + 1..];
    forall j | 0 <= j < |later|
      ensures !MayStore(later[j], key)
    {
      assert later[j] == trans[i + 1 + j];
    }
    assert BuildEntries(rev, trans[i..], n, false, t1) == BuildEntries(rev, later, n, false, t2);
    BuildEntriesKeeps(rev, later, n, false, t2, key);
    var t3 := BuildEntries(rev, later, n, false, t2).value;
    BuildEntriesWf(rev, later, n, false, t2);
    BuildDbsKeeps(rev, post, n, t3, key);
  }

  /**
   * An offset entry with two alternates read with `n == 2`: as written,
   * `get_trans` raises `IndexError` at `v[2]`; corrected, it builds the
   * lookup of the first alternate.
   */
  lemma AlternateAtLengthInGetTrans()
    ensures var db := Db(map[], [([CodeOffset, 0x78], Offset(OffsetAlts([[OL.Int(65), OL.Int(90), OL.Int(1)], [OL.Int(97), OL.Int(122), OL.Int(1)]])))]);
      && GetTransSpec(AsWritten, Some("d"), [db], Some(2), false) == Failure(IndexError)
      && GetTransSpec(Corrected, Some("d"), [db], Some(2), false) ==
           Success(Some(Layered(TransList(TD.Empty(), [CpLookup(OL.CodePointOffsetLookup(65, 90, 1))]))))
  {
    var v := OffsetAlts([[OL.Int(65), OL.Int(90), OL.Int(1)], [OL.Int(97), OL.Int(122), OL.Int(1)]]);
    var k: Str := [CodeOffset, 0x78];
    var db := Db(map[], [(k, Offset(v))]);
    assert ReverseFlag(db.meta) == Success(false);
    assert HandlerOf(k) == OffsetHandler;
    assert db.trans[1..] == [] && [db][1..] == [];
    assert OffsetArgsOf(AsWritten, v, 2) == Failure(IndexError);
    assert PrepEntry(AsWritten, k, Offset(v), 2, false, Start()) == Failure(IndexError);
    assert BuildEntries(AsWritten, db.trans, 2, false, Start()) == Failure(IndexError);
    assert BuildDbs(AsWritten, [db], 2, Start()) == Failure(IndexError);
    var c := OL.CodePointOffsetLookup(65, 90, 1);
    var t := TransList(TD.Empty(), [CpLookup(c)]);
    assert OffsetArgsOf(Corrected, v, 2) == Success(v.alts[0]);
    assert PrepOffset(Corrected, v, 2, false) == Success(c);
    assert Start().rest + [CpLookup(c)] == t.rest;
    assert PrepEntry(Corrected, k, Offset(v), 2, false, Start()) == Success(t);
    assert BuildEntries(Corrected, db.trans, 2, false, Start()) == BuildEntries(Corrected, [], 2, false, t);
    assert BuildDbs(Corrected, [db], 2, Start()) == DbsAfter(Corrected, Success(t), [], 2);
  }

  /**
   * A range entry of four ranges with three values: as written, the list
   * is built (and a key of the fourth range later raises `IndexError`);
   * corrected, `get_trans` raises `ValueError`.
   */
  lemma TooFewRangeValuesInGetTrans()
    ensures var b := [0, 1, 2, 3, 4, 5, 6, 7];
      var vs: seq<Str> := [[0x61], [0x62], [0x63]];
      var db := Db(map[], [([CodeRange, 0x72], Ranges(RangeArgs(b, vs)))]);
      && GetTransSpec(AsWritten, Some("d"), [db], None, false) ==
           Success(Some(Layered(TransList(TD.Empty(), [RangeLookup(RI.RangeTable(b, Texts(vs), true))]))))
      && GetTransSpec(Corrected, Some("d"), [db], None, false) == Failure(ValueError)
  {
    var b := [0, 1, 2, 3, 4, 5, 6, 7];
    var vs: seq<Str> := [[0x61], [0x62], [0x63]];
    var k: Str := [CodeRange, 0x72];
    var x := RangeArgs(b, vs);
    var db := Db(map[], [(k, Ranges(x))]);
    assert ReverseFlag(db.meta) == Success(false);
    assert HandlerOf(k) == RangeHandler;
    assert db.trans[1..] == [] && [db][1..] == [];
    assert forall j :: 0 <= j < |b| ==> b[j] == j;
    RI.ValidateAsWrittenAccepts(b, Some(Texts(vs)));
    RI.ValidateAccepts(b, Some(Texts(vs)));
    assert RI.Increasing(b);
    var t := TransList(TD.Empty(), [RangeLookup(RI.RangeTable(b, Texts(vs), true))]);
    assert PrepRange(AsWritten, x, 0, false) == Success(RI.RangeTable(b, Texts(vs), true));
    assert Start().rest + [RangeLookup(RI.RangeTable(b, Texts(vs), true))] == t.rest;
    assert PrepEntry(AsWritten, k, Ranges(x), 0, false, Start()) == Success(t);
    assert BuildEntries(AsWritten, db.trans, 0, false, Start()) == BuildEntries(AsWritten, [], 0, false, t);
    assert BuildDbs(AsWritten, [db], 0, Start()) == DbsAfter(AsWritten, Success(t), [], 0);
    assert RI.ValidateIntended(b, Some(Texts(vs))) == Fail(ValueError);
    assert PrepEntry(Corrected, k, Ranges(x), 0, false, Start()) == Failure(ValueError);
    assert BuildEntries(Corrected, db.trans, 0, false, Start()) == Failure(ValueError);
    assert BuildDbs(Corrected, [db], 0, Start()) == Failure(ValueError);
  }

  // ---------------------------------------------------------------------
  // Properties of the condensed dict

  /** The regex pairs of `rest`, in order. */
  function Regexes(rest: seq<Lookup>): seq<Lookup>
    decreases |rest|
  {
    if rest == [] then []
    else if rest[0].RegexLookup? then [rest[0]] + Regexes(rest[1..])
    else Regexes(rest[1..])
  }

  /** The entries of the expanded dicts of `rest`, each later one overriding, over `acc`. */
  ghost function UnionOf(rest: seq<Lookup>, acc: map<Key, Val>): map<Key, Val>
    decreases |rest|
  {
    if rest == [] then acc
    else
      match rest[0]
      case RegexLookup(_, _) => UnionOf(rest[1..], acc)
      case CpLookup(c) => UnionOf(rest[1..], acc + (if OL.DictOf(c).Success? then OL.DictOf(c).value.m else map[]))
      case RangeLookup(t) => UnionOf(rest[1..], acc + (if RI.DictOf(t).Success? then RI.DictOf(t).value.m else map[]))
  }

  /** Merging the expanded dict of a code point offset lookup adds its entries, none of them one-character strings. */
  lemma MergeCpDict(out: PyDict<Key, Val>, c: OL.CodePointOffsetLookup)
    requires OL.Valid(c) && OL.DictOf(c).Success?
    requires DictWf(out) && forall k :: k in out.m ==> !TD.OneChar(k)
    ensures var m := Merge(out, OL.DictOf(c).value);
      && DictWf(m) && (forall k :: k in m.m ==> !TD.OneChar(k))
      && m.m == out.m + OL.DictOf(c).value.m
  {
    OL.DictOfSpec(c);
    MergeIsUnion(out, OL.DictOf(c).value);
  }

  /** Merging the expanded dict of a range-indexed list adds its entries, none of them one-character strings. */
  lemma MergeRangeDict(out: PyDict<Key, Val>, t: RI.RangeTable)
    requires RI.DictOf(t).Success?
    requires DictWf(out) && forall k :: k in out.m ==> !TD.OneChar(k)
    ensures var m := Merge(out, RI.DictOf(t).value);
      && DictWf(m) && (forall k :: k in m.m ==> !TD.OneChar(k))
      && m.m == out.m + RI.DictOf(t).value.m
  {
    RI.DictOfSpec(t);
    MergeIsUnion(out, RI.DictOf(t).value);
  }

  lemma LookupsWfTail(rest: seq<Lookup>)
    requires rest != [] && forall i :: 0 <= i < |rest| ==> LookupWf(rest[i])
    ensures forall i :: 0 <= i < |rest[1..]| ==> LookupWf(rest[1..][i])
  {
    forall i | 0 <= i < |rest[1..]|
      ensures LookupWf(rest[1..][i])
    {
      assert rest[1..][i] == rest[i + 1];
    }
  }

  lemma {:induction false} FlattenRestSpec(rest: seq<Lookup>, out: PyDict<Key, Val>, regexes: seq<Lookup>)
    requires DictWf(out) && forall k :: k in out.m ==> !TD.OneChar(k)
    requires forall i :: 0 <= i < |rest| ==> LookupWf(rest[i])
    requires FlattenRest(rest, out, regexes).Success?
    ensures var p := FlattenRest(rest, out, regexes).value;
      && DictWf(p.0)
      && (forall k :: k in p.0.m ==> !TD.OneChar(k))
      && p.0.m == UnionOf(rest, out.m)
      && p.1 == regexes + Regexes(rest)
    decreases |rest|
  {
    if rest == [] {
      assert regexes + [] == regexes;
    } else {
      assert LookupWf(rest[0]);
      LookupsWfTail(rest);
      match rest[0]
      case RegexLookup(_, _) =>
        FlattenRestSpec(rest[1..], out, regexes + [rest[0]]);
        assert regexes + [rest[0]] + Regexes(rest[1..]) == regexes + ([rest[0]] + Regexes(rest[1..]));
      case CpLookup(c) =>
        MergeCpDict(out, c);
        FlattenRestSpec(rest[1..], Merge(out, OL.DictOf(c).value), regexes);
      case RangeLookup(t) =>
        MergeRangeDict(out, t);
        FlattenRestSpec(rest[1..], Merge(out, RI.DictOf(t).value), regexes);
    }
  }

  /**
   * The condensed list: its dict holds the first dict's reads overridden
   * by each later lookup's entries in order, followed by the regex pairs
   * in order; with a '' entry it is a translation dict whose '' entry and
   * default are the first dict's raw default.
   */
  lemma OneDictShape(tl: TransList)
    requires TransListWf(tl)
    requires OneDictSpec(tl).Success?
    ensures TD.DictOfState(tl.first).Success?
    ensures var od := OneDictSpec(tl).value;
      var merged := UnionOf(tl.rest, TD.DictOfState(tl.first).value.m);
      && od.regexes == Regexes(tl.rest)
      && (TD.DefaultKey in merged ==>
            && od.head.AutoDict?
            && TD.Wf(od.head.td)
            && od.head.td.entries.m == merged[TD.DefaultKey := tl.first.outDefault]
            && od.head.td.outDefault == tl.first.outDefault)
      && (TD.DefaultKey !in merged ==> od.head.PlainDict? && od.head.d.m == merged)
  {
    TD.DictOfStateSpec(tl.first);
    var d0 := TD.DictOfState(tl.first).value;
    assert DictWf(d0);
    MergeIsUnion(EmptyDict(), d0);
    assert map[] + d0.m == d0.m;
    FlattenRestSpec(tl.rest, Merge(EmptyDict(), d0), []);
    var p := FlattenRest(tl.rest, Merge(EmptyDict(), d0), []).value;
    assert [] + Regexes(tl.rest) == Regexes(tl.rest);
    if TD.DefaultKey in p.0.m {
      TD.FromDictStateSpec(p.0);
    }
  }

  // ---------------------------------------------------------------------
  // The builder as the source runs it

  /** `for k in ktmp: out[0][k] = tmp[k]`. */
  method MergeInto(out: PyDict<Key, Val>, d: PyDict<Key, Val>) returns (r: PyDict<Key, Val>)
    ensures r == Merge(out, d)
  {
    r := out;
    var i := 0;
    assert d.keys[0..] == d.keys;
    while i < |d.keys|
      invariant 0 <= i <= |d.keys|
      invariant Merge(out, d) == MergeKeys(r, d.keys[i..], d.m)
      decreases |d.keys| - i
    {
      assert d.keys[i..][0] == d.keys[i] && d.keys[i..][1..] == d.keys[i + 1..];
      if d.keys[i] in d.m {
        r := Put(r, d.keys[i], d.m[d.keys[i]]);
      }
      i := i + 1;
    }
  }

  /** `_prep_trans` writing into the translation dict object `first`. */
  method PrepTrans(first: TD.TranslationDict, k: Str, v: RawValue, n: int, reverse: bool) returns (r: Outcome)
    requires first.Valid()
    modifies first
    ensures first.Valid()
    ensures PrepPlain(k, v, n, reverse, old(first.State())) == if r.Fail? then Failure(r.error) else Success(first.State())
  {
    var vOut := SelectValue(v, n);
    if vOut.Failure? {
      return Fail(vOut.error);
    }
    if !reverse {
      first.Set(StrKey(k), Text(vOut.value));
      return Pass;
    }
    if k == [] {
      return Pass;
    }
    if v.Alts? {
      ghost var st0 := first.State();
      var i := 0;
      assert v.alts[0..] == v.alts;
      while i < |v.alts|
        invariant 0 <= i <= |v.alts|
        invariant first.Valid()
        invariant StoreEach(st0, v.alts, k) == StoreEach(first.State(), v.alts[i..], k)
        decreases |v.alts| - i
      {
        assert v.alts[i..][0] == v.alts[i] && v.alts[i..][1..] == v.alts[i + 1..];
        first.Set(StrKey(v.alts[i]), Text(k));
        i := i + 1;
      }
      return Pass;
    }
    first.Set(StrKey(vOut.value), Text(k));
    return Pass;
  }

  /** One entry of the main loop: its handler, writing into `first` or returning the longer lookup list. */
  method PrepEntryInto(rev: Revision, first: TD.TranslationDict, rest: seq<Lookup>, k: Str, v: EntryValue, n: int, reverse: bool)
    returns (r: Result<seq<Lookup>>)
    requires first.Valid()
    modifies first
    ensures first.Valid()
    ensures PrepEntry(rev, k, v, n, reverse, TransList(old(first.State()), rest)) ==
      if r.Failure? then Failure(r.error) else Success(TransList(first.State(), r.value))
  {
    var h := HandlerOf(k);
    if h == PlainHandler && v.Plain? {
      var o := PrepTrans(first, k, v.raw, n, reverse);
      if o.Fail? {
        return Failure(o.error);
      }
      return Success(rest);
    } else if h == OffsetHandler && v.Offset? {
      var c := PrepOffset(rev, v.offset, n, reverse);
      if c.Failure? {
        return Failure(c.error);
      }
      return Success(rest + [CpLookup(c.value)]);
    } else if h == RangeHandler && v.Ranges? {
      var t := PrepRange(rev, v.ranges, n, reverse);
      if t.Failure? {
        return Failure(t.error);
      }
      return Success(rest + [RangeLookup(t.value)]);
    } else if h == RegexHandler && v.Pattern? {
      var l := PrepRegex(rev, v.regex, n, reverse);
      if l.Failure? {
        return Failure(l.error);
      }
      return Success(rest + [l.value]);
    }
    return Failure(TypeError);
  }

  /**
   * One lookup of the loop of `_prep_one_dict` after the first: the dict
   * of a dict-capable lookup merged into `out`, or a regex pair kept.
   */
  method FlattenStep(todo: seq<Lookup>, out: PyDict<Key, Val>, regexes: seq<Lookup>)
    returns (r: Result<(PyDict<Key, Val>, seq<Lookup>)>)
    requires todo != [] && LookupWf(todo[0]) && DictWf(out)
    ensures r.Failure? ==> FlattenRest(todo, out, regexes) == Failure(r.error)
    ensures r.Success? ==>
      DictWf(r.value.0) && FlattenRest(todo, out, regexes) == FlattenRest(todo[1..], r.value.0, r.value.1)
  {
    match todo[0] {
      case RegexLookup(_, _) =>
        r := Success((out, regexes + [todo[0]]));
      case CpLookup(c) =>
        var d := OL.Dict(c);
        if d.Failure? {
          return Failure(d.error);
        }
        OL.DictOfSpec(c);
        MergeIsUnion(out, d.value);
        var merged := MergeInto(out, d.value);
        r := Success((merged, regexes));
      case RangeLookup(t) =>
        var d := RI.DictOf(t);
        if d.Failure? {
          return Failure(d.error);
        }
        RI.DictOfSpec(t);
        MergeIsUnion(out, d.value);
        var merged := MergeInto(out, d.value);
        r := Success((merged, regexes));
    }
  }

  /** `_prep_one_dict(trans_dicts)`. */
  method PrepOneDict(first: TD.TranslationDict, rest: seq<Lookup>) returns (r: Result<OneDict>)
    requires first.Valid()
    requires forall i :: 0 <= i < |rest| ==> LookupWf(rest[i])
    ensures r == OneDictSpec(TransList(first.State(), rest))
  {
    var d0 := first.GetDict();
    if d0.Failure? {
      return Failure(d0.error);
    }
    TD.DictOfStateSpec(first.State());
    MergeIsUnion(EmptyDict(), d0.value);
    var out := MergeInto(EmptyDict(), d0.value);
    var regexes: seq<Lookup> := [];
    var todo := rest;
    while todo != []
      invariant DictWf(out)
      invariant forall i :: 0 <= i < |todo| ==> LookupWf(todo[i])
      invariant FlattenRest(rest, Merge(EmptyDict(), d0.value), []) == FlattenRest(todo, out, regexes)
      decreases |todo|
    {
      var x := FlattenStep(todo, out, regexes);
      if x.Failure? {
        return Failure(x.error);
      }
      out, regexes := x.value.0, x.value.1;
      todo := todo[1..];
    }
    r := Condense(out, regexes, first.outDefault);
  }

  /** The end of `_prep_one_dict`: a merged dict with a '' entry becomes a translation dict. */
  method Condense(out: PyDict<Key, Val>, regexes: seq<Lookup>, firstDefault: Val) returns (r: Result<OneDict>)
    requires DictWf(out)
    ensures r == Success(
      if TD.DefaultKey in out.m then OneDict(AutoDict(TD.Store(TD.FromDictState(out), TD.DefaultKey, firstDefault)), regexes)
      else OneDict(PlainDict(out), regexes))
  {
    if TD.DefaultKey in out.m {
      var td := TD.TranslationDict.FromDict(out);
      td.Set(TD.DefaultKey, firstDefault);
      return Success(OneDict(AutoDict(td.State()), regexes));
    }
    return Success(OneDict(PlainDict(out), regexes));
  }

  /** The loop over the entries of one database, writing into `first` and extending the lookup list. */
  method BuildEntriesInto(rev: Revision, first: TD.TranslationDict, rest: seq<Lookup>, trans: seq<(Str, EntryValue)>, n: int, reverse: bool)
    returns (r: Result<seq<Lookup>>)
    requires first.Valid() && TransListWf(TransList(first.State(), rest))
    modifies first
    ensures first.Valid()
    ensures r.Success? ==> TransListWf(TransList(first.State(), r.value))
    ensures BuildEntries(rev, trans, n, reverse, TransList(old(first.State()), rest)) ==
      if r.Failure? then Failure(r.error) else Success(TransList(first.State(), r.value))
  {
    ghost var tl0 := TransList(first.State(), rest);
    var cur := rest;
    var todo := trans;
    while todo != []
      invariant first.Valid()
      invariant TransListWf(TransList(first.State(), cur))
      invariant BuildEntries(rev, trans, n, reverse, tl0) == BuildEntries(rev, todo, n, reverse, TransList(first.State(), cur))
      decreases |todo|
    {
      ghost var tl := TransList(first.State(), cur);
      var e := PrepEntryInto(rev, first, cur, todo[0].0, todo[0].1, n, reverse);
      if e.Failure? {
        return Failure(e.error);
      }
      PrepEntryWf(rev, todo[0].0, todo[0].1, n, reverse, tl);
      cur := e.value;
      todo := todo[1..];
    }
    return Success(cur);
  }

  /** `get_trans(n, one_dict=...)`, filling the translation dict `first_dict` in place. */
  method GetTrans(rev: Revision, currentDbName: Option<string>, tmp: seq<Db>, n: Option<int>, oneDict: bool) returns (r: Result<Option<Built>>)
    ensures r == GetTransSpec(rev, currentDbName, tmp, n, oneDict)
  {
    var first := new TD.TranslationDict();
    var rest: seq<Lookup> := [];
    if currentDbName.None? {
      return Success(None);
    }
    var nn := if n.None? then 0 else n.value;
    var dbs := tmp;
    while dbs != []
      invariant fresh(first) && first.Valid()
      invariant TransListWf(TransList(first.State(), rest))
      invariant BuildDbs(rev, tmp, nn, Start()) == BuildDbs(rev, dbs, nn, TransList(first.State(), rest))
      decreases |dbs|
    {
      var reverse := ReverseFlag(dbs[0].meta);
      if reverse.Failure? {
        return Failure(reverse.error);
      }
      var e := BuildEntriesInto(rev, first, rest, dbs[0].trans, nn, reverse.value);
      if e.Failure? {
        return Failure(e.error);
      }
      rest := e.value;
      dbs := dbs[1..];
    }
    if oneDict {
      var od := PrepOneDict(first, rest);
      if od.Failure? {
        return Failure(od.error);
      }
      return Success(Some(Flat(od.value)));
    }
    return Success(Some(Layered(TransList(first.State(), rest))));
  }
}
