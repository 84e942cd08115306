/**
 * TranslationDict: a dict for `str.translate` that stores one-character
 * string keys under their code point, keeps the entry of the key '' as
 * the default output in `out_default`, and on every read replaces U+FFFC
 * in the output by a copy of the key.
 */
module TranslationDicts {
  import opened Base

  /** The key '' whose entry is the default output. */
  const DefaultKey: Key := StrKey([])

  /** The default output when there is no '' entry: U+FFFC alone, which a read turns into the key. */
  const SubText: Val := Text([SubPoint])

  /** The contents of a translation dict: the stored entries and `out_default`. */
  datatype TdState = TdState(entries: PyDict<Key, Val>, outDefault: Val)

  predicate OneChar(k: Key)
  {
    k.StrKey? && |k.s| == 1
  }

  /** The key `__setitem__` stores under: a one-character string becomes its code point. */
  function StoredKey(key: Key): Key
  {
    if OneChar(key) then IntKey(key.s[0]) else key
  }

  /** What `out_default` mirrors: the '' entry, or U+FFFC when there is none. */
  function DefaultOf(m: map<Key, Val>): Val
  {
    if DefaultKey in m then m[DefaultKey] else SubText
  }

  /**
   * What every operation keeps: an insertion-ordered dict with no
   * one-character string key, and `out_default` equal to its '' entry.
   */
  ghost predicate Wf(st: TdState)
  {
    && DictWf(st.entries)
    && (forall k :: k in st.entries.m ==> !OneChar(k))
    && st.outDefault == DefaultOf(st.entries.m)
  }

  function Empty(): (st: TdState)
    ensures Wf(st) && st.entries.m == map[]
  {
    TdState(EmptyDict(), SubText)
  }

  /** `td[key] = value`. */
  function Store(st: TdState, key: Key, value: Val): (r: TdState)
    ensures Wf(st) ==> Wf(r)
  {
    var entries := Put(st.entries, StoredKey(key), value);
    TdState(entries, if key == DefaultKey then value else st.outDefault)
  }

  /**
   * The output of a read of `key` that found `out`: `None` is returned as
   * is, a number cannot be searched for U+FFFC (`TypeError`), and in a
   * string every U+FFFC becomes `chr(key)`, or the key itself for a string
   * key.
   */
  function Expand(out: Val, key: Key): (r: Result<Val>)
    ensures out.Nothing? ==> r == Success(Nothing)
    ensures out.Number? ==> r == Failure(TypeError)
    ensures out.Text? && SubPoint !in out.s ==> r == Success(out)
    ensures out.Text? && SubPoint in out.s && key.StrKey? ==> r == Success(Text(ReplaceAll(out.s, SubPoint, key.s)))
    ensures r.Failure? ==> r.error == TypeError || r.error == ValueError
  {
    match out
    case Nothing => Success(Nothing)
    case Number(_) => Failure(TypeError)
    case Text(s) =>
      if SubPoint !in s then Success(out)
      else
        match key
        case StrKey(t) => Success(Text(ReplaceAll(s, SubPoint, t)))
        case IntKey(i) =>
          match Chr(i)
          case Failure(e) => Failure(e)
          case Success(c) => Success(Text(ReplaceAll(s, SubPoint, [c])))
  }

  /** `td[key]`: the stored entry, or `out_default` when there is none, expanded. */
  function Get(st: TdState, key: Key): (r: Result<Val>)
    ensures key in st.entries.m ==> r == Expand(st.entries.m[key], key)
    ensures Wf(st) && key !in st.entries.m ==> r == Expand(DefaultOf(st.entries.m), key)
  {
    Expand(if key in st.entries.m then st.entries.m[key] else st.outDefault, key)
  }

  /** `reset_default()`: `out_default` is read back from the raw '' entry. */
  function ResetState(st: TdState): (r: TdState)
    ensures r.entries == st.entries && r.outDefault == DefaultOf(st.entries.m)
    ensures DictWf(st.entries) && (forall k :: k in st.entries.m ==> !OneChar(k)) ==> Wf(r)
  {
    TdState(st.entries, if DefaultKey in st.entries.m then st.entries.m[DefaultKey] else SubText)
  }

  /** `get_dict()`: every stored key, in order, with its read. */
  function DictOfState(st: TdState): (r: Result<PyDict<Key, Val>>)
    ensures st.entries.keys == [] ==> r == Success(EmptyDict())
  {
    Tabulate(st.entries.keys, k => Get(st, k), EmptyDict())
  }

  /** `for k in keys: td[k] = m[k]`. */
  function StoreAll(st: TdState, keys: seq<Key>, m: map<Key, Val>): (r: TdState)
    ensures Wf(st) ==> Wf(r)
    decreases |keys|
  {
    if keys == [] then st
    else if keys[0] in m then StoreAll(Store(st, keys[0], m[keys[0]]), keys[1..], m)
    else StoreAll(st, keys[1..], m)
  }

  /** `TranslationDict.from_dict(d)`, and `TranslationDict(d)`, which ends with the same default. */
  function FromDictState(d: PyDict<Key, Val>): (st: TdState)
    ensures Wf(st)
    ensures d.keys == [] ==> st.entries.m == map[]
  {
    StoreAll(Empty(), d.keys, d.m)
  }

  /**
   * After `td[key] = value`, a read of the stored key expands `value`; a
   * read of any other present key is unchanged; and a missing key now
   * reads `value` if `key` was '' and the old default otherwise.
   */
  lemma StoreThenGet(st: TdState, key: Key, value: Val, other: Key)
    requires Wf(st)
    ensures Get(Store(st, key, value), StoredKey(key)) == Expand(value, StoredKey(key))
    ensures other != StoredKey(key) && other in st.entries.m ==>
      Get(Store(st, key, value), other) == Get(st, other)
    ensures other != StoredKey(key) && other !in st.entries.m ==>
      Get(Store(st, key, value), other) == Expand(if key == DefaultKey then value else st.outDefault, other)
  {
  }

  /** A one-character string key is stored under its code point, never as a string. */
  lemma OneCharKeyStoredAsCodePoint(st: TdState, c: CodePoint, value: Val)
    requires Wf(st)
    ensures var r := Store(st, StrKey([c]), value);
      && r.entries.m[IntKey(c)] == value
      && StrKey([c]) !in r.entries.m
      && Get(r, IntKey(c)) == Expand(value, IntKey(c))
  {
  }

  /** With no '' entry, a missing code point reads as its own character. */
  lemma {:induction false} MissingKeyReadsItself(st: TdState, c: CodePoint)
    requires Wf(st) && DefaultKey !in st.entries.m && IntKey(c) !in st.entries.m
    ensures Get(st, IntKey(c)) == Success(Text([c]))
  {
    var t: Str := [SubPoint];
    assert t[1..] == [];
    assert ReplaceAll(t, SubPoint, [c]) == [c] + ReplaceAll([], SubPoint, [c]);
    assert [c] + ReplaceAll([], SubPoint, [c]) == [c];
    assert st.outDefault == SubText;
    assert Chr(c) == Success(c);
  }

  /** With a '' entry, a missing key reads as that entry with U+FFFC replaced by the key. */
  lemma MissingKeyReadsDefault(st: TdState, key: Key)
    requires Wf(st) && DefaultKey in st.entries.m && key !in st.entries.m
    ensures Get(st, key) == Expand(st.entries.m[DefaultKey], key)
  {
  }

  /** On a well-formed dict `reset_default()` changes nothing. */
  lemma ResetStateIdle(st: TdState)
    requires Wf(st)
    ensures ResetState(st) == st
  {
  }

  /** `get_dict()` succeeds exactly when every stored key reads without raising. */
  lemma DictOfStateSucceeds(st: TdState)
    requires Wf(st)
    ensures DictOfState(st).Success? <==> forall k :: k in st.entries.m ==> Get(st, k).Success?
  {
    var keys := st.entries.keys;
    var f := k => Get(st, k);
    TabulateSpec(keys, f, EmptyDict());
    if forall k :: k in st.entries.m ==> Get(st, k).Success? {
      forall i | 0 <= i < |keys|
        ensures f(keys[i]).Success?
      {
        assert keys[i] in st.entries.m;
      }
    }
    if DictOfState(st).Success? {
      forall k | k in st.entries.m
        ensures Get(st, k).Success?
      {
        var i :| 0 <= i < |keys| && keys[i] == k;
        assert f(keys[i]).Success?;
      }
    }
  }

  /**
   * `get_dict()` succeeds exactly when every stored key reads without
   * raising; it then has the stored keys, in order, each with its read.
   */
  lemma DictOfStateSpec(st: TdState)
    requires Wf(st)
    ensures DictOfState(st).Success? <==> forall k :: k in st.entries.m ==> Get(st, k).Success?
    ensures DictOfState(st).Success? ==>
      && DictOfState(st).value.keys == st.entries.keys
      && (forall k :: k in DictOfState(st).value.m <==> k in st.entries.m)
      && (forall k :: k in st.entries.m ==> DictOfState(st).value.m[k] == Get(st, k).value)
  {
    DictOfStateSucceeds(st);
    if DictOfState(st).Success? {
      var f := k => Get(st, k);
      TabulateSpec(st.entries.keys, f, EmptyDict());
      TabulateKeys(st.entries.keys, f, EmptyDict());
    }
  }

  /** Tabulating distinct keys into an empty dict keeps their order. */
  lemma {:induction false} TabulateKeys(keys: seq<Key>, f: Key -> Result<Val>, acc: PyDict<Key, Val>)
    requires DictWf(acc)
    requires forall i, j :: 0 <= i < j < |keys| ==> keys[i] != keys[j]
    requires forall k :: k in keys ==> k !in acc.m
    ensures Tabulate(keys, f, acc).Success? ==> Tabulate(keys, f, acc).value.keys == acc.keys + keys
    decreases |keys|
  {
    if keys != [] {
      match f(keys[0])
      case Failure(_) =>
      case Success(v) =>
        var acc' := Put(acc, keys[0], v);
        forall k | k in keys[1..]
          ensures k !in acc'.m
        {
          var i :| 1 <= i < |keys| && keys[i] == k;
        }
        TabulateKeys(keys[1..], f, acc');
        assert acc.keys + [keys[0]] + keys[1..] == acc.keys + keys;
    }
  }

  /** The keys `td[x] = ...` stores under, for every `x` of `keys`. */
  ghost function StoredKeys(keys: seq<Key>): set<Key>
  {
    set x | x in keys :: StoredKey(x)
  }

  /** Storing keeps the dict well formed and adds the stored keys of `keys`. */
  lemma {:induction false} StoreAllKeys(st: TdState, keys: seq<Key>, m: map<Key, Val>)
    requires Wf(st)
    requires forall k :: k in keys ==> k in m
    ensures Wf(StoreAll(st, keys, m))
    ensures StoreAll(st, keys, m).entries.m.Keys == st.entries.m.Keys + StoredKeys(keys)
    decreases |keys|
  {
    if keys != [] {
      var st' := Store(st, keys[0], m[keys[0]]);
      StoreAllKeys(st', keys[1..], m);
      assert keys == [keys[0]] + keys[1..];
      assert StoredKeys(keys) == {StoredKey(keys[0])} + StoredKeys(keys[1..]);
    }
  }

  /** Storing keys that are never one-character strings adds exactly those entries. */
  lemma {:induction false} StoreAllPlain(st: TdState, keys: seq<Key>, m: map<Key, Val>)
    requires forall k :: k in keys ==> k in m && !OneChar(k)
    ensures forall k :: k in StoreAll(st, keys, m).entries.m <==> k in st.entries.m || k in keys
    ensures forall k :: k in StoreAll(st, keys, m).entries.m ==>
      StoreAll(st, keys, m).entries.m[k] == if k in keys then m[k] else st.entries.m[k]
    decreases |keys|
  {
    if keys != [] {
      var st' := Store(st, keys[0], m[keys[0]]);
      assert forall k :: k in keys[1..] ==> k in keys;
      StoreAllPlain(st', keys[1..], m);
      assert st'.entries.m == st.entries.m[keys[0] := m[keys[0]]];
      assert forall k :: k in keys <==> k == keys[0] || k in keys[1..] by {
        assert keys == [keys[0]] + keys[1..];
      }
    }
  }

  /**
   * `from_dict(d)` of a dict with no one-character string key holds
   * exactly `d`'s entries, and its default is `d['']` or U+FFFC.
   */
  lemma FromDictStateSpec(d: PyDict<Key, Val>)
    requires DictWf(d)
    requires forall k :: k in d.m ==> !OneChar(k)
    ensures Wf(FromDictState(d))
    ensures FromDictState(d).entries.m == d.m
    ensures FromDictState(d).outDefault == DefaultOf(d.m)
  {
    StoreAllKeys(Empty(), d.keys, d.m);
    FromDictEntries(d);
  }

  lemma FromDictEntries(d: PyDict<Key, Val>)
    requires DictWf(d)
    requires forall k :: k in d.m ==> !OneChar(k)
    ensures FromDictState(d).entries.m == d.m
  {
    StoreAllPlain(Empty(), d.keys, d.m);
    var r := FromDictState(d).entries.m;
    assert r.Keys == d.m.Keys;
    assert forall k :: k in r ==> r[k] == d.m[k];
  }

  /** A translation dict object: a dict of entries and the `out_default` attribute. */
  class TranslationDict {
    var entries: PyDict<Key, Val>
    var outDefault: Val

    ghost predicate Valid()
      reads this
    {
      Wf(State())
    }

    function State(): TdState
      reads this
    {
      TdState(entries, outDefault)
    }

    /** `TranslationDict()`: no entries, U+FFFC as the default. */
    constructor ()
      ensures Valid() && State() == Empty()
    {
      entries := EmptyDict();
      outDefault := SubText;
    }

    /** `td[key] = value`. */
    method Set(key: Key, value: Val)
      requires Valid()
      modifies this
      ensures Valid()
      ensures State() == Store(old(State()), key, value)
    {
      if key == DefaultKey {
        outDefault := value;
        entries := Put(entries, DefaultKey, value);
      } else if OneChar(key) {
        entries := Put(entries, IntKey(key.s[0]), value);
      } else {
        entries := Put(entries, key, value);
      }
    }

    /** `td[key]`. */
    method GetItem(key: Key) returns (r: Result<Val>)
      requires Valid()
      ensures r == Get(State(), key)
    {
      var out := if key in entries.m then entries.m[key] else outDefault;
      if out.Nothing? {
        return Success(Nothing);
      }
      if out.Number? {
        return Failure(TypeError);
      }
      if SubPoint in out.s {
        if key.IntKey? {
          var c := Chr(key.i);
          if c.Failure? {
            return Failure(c.error);
          }
          return Success(Text(ReplaceAll(out.s, SubPoint, [c.value])));
        }
        return Success(Text(ReplaceAll(out.s, SubPoint, key.s)));
      }
      return Success(out);
    }

    /** `get_dict()`: one read per stored key, in order. */
    method GetDict() returns (r: Result<PyDict<Key, Val>>)
      requires Valid()
      ensures r == DictOfState(State())
    {
      var st := State();
      var f := k => Get(st, k);
      var keys := entries.keys;
      var temp: PyDict<Key, Val> := EmptyDict();
      var i := 0;
      assert keys[0..] == keys;
      while i < |keys|
        invariant 0 <= i <= |keys|
        invariant DictOfState(st) == Tabulate(keys[i..], f, temp)
        decreases |keys| - i
      {
        assert keys[i..][0] == keys[i] && keys[i..][1..] == keys[i + 1..];
        var x := GetItem(keys[i]);
        if x.Failure? {
          return Failure(x.error);
        }
        temp := Put(temp, keys[i], x.value);
        i := i + 1;
      }
      r := Success(temp);
    }

    /** `reset_default()`. */
    method ResetDefault()
      requires Valid()
      modifies this
      ensures Valid()
      ensures State() == ResetState(old(State()))
    {
      outDefault := if DefaultKey in entries.m then entries.m[DefaultKey] else SubText;
    }

    /** `TranslationDict.from_dict(d)`: every entry of `d`, in order, stored as by `td[k] = d[k]`. */
    static method FromDict(d: PyDict<Key, Val>) returns (out: TranslationDict)
      requires DictWf(d)
      ensures fresh(out) && out.Valid()
      ensures out.State() == FromDictState(d)
    {
      out := new TranslationDict();
      var i := 0;
      assert d.keys[0..] == d.keys;
      while i < |d.keys|
        invariant 0 <= i <= |d.keys|
        invariant fresh(out) && out.Valid()
        invariant FromDictState(d) == StoreAll(out.State(), d.keys[i..], d.m)
        decreases |d.keys| - i
      {
        assert d.keys[i..][0] == d.keys[i] && d.keys[i..][1..] == d.keys[i + 1..];
        out.Set(d.keys[i], d.m[d.keys[i]]);
        i := i + 1;
      }
    }
  }
}
