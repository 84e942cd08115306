/**
 * Python-level vocabulary shared by every component of the model:
 * code points and strings, the exceptions the code raises, stored values,
 * database metadata and insertion-ordered dictionaries.
 */
module Base {

  /** The largest value Python's `chr` accepts. */
  const MaxCodePoint: int := 0x10FFFF

  /** A Python code point; surrogates are included, as in a Python `str`. */
  type CodePoint = c: int | 0 <= c <= MaxCodePoint

  /** A Python `str`. */
  type Str = seq<CodePoint>

  /** U+FFFC OBJECT REPLACEMENT CHARACTER, the substitution point. */
  const SubPoint: CodePoint := 0xFFFC

  datatype Option<+T> = None | Some(value: T)

  /** The exceptions raised by the modelled code. */
  datatype Error =
    | ValueError
    | LookupError
    | IndexError
    | KeyError
    | TypeError
    | NameError
    | AttributeError
    | ZeroDivisionError
    | FileNotFoundError

  datatype Result<+T> = Success(value: T) | Failure(error: Error)

  /** The result of an operation that returns nothing but may raise. */
  datatype Outcome = Pass | Fail(error: Error)

  /** Python's `chr`. */
  function Chr(i: int): (r: Result<CodePoint>)
    ensures r.Success? <==> 0 <= i <= MaxCodePoint
    ensures r.Success? ==> r.value == i
    ensures r.Failure? ==> r.error == ValueError
  {
    if 0 <= i <= MaxCodePoint then Success(i) else Failure(ValueError)
  }

  /** Python's `s.replace(c, r)` for a one-character `c`: every occurrence is replaced. */
  function ReplaceAll(s: Str, c: CodePoint, r: Str): Str
  {
    if s == [] then [] else (if s[0] == c then r else [s[0]]) + ReplaceAll(s[1..], c, r)
  }

  lemma {:induction false} ReplaceAllAbsent(s: Str, c: CodePoint, r: Str)
    requires c !in s
    ensures ReplaceAll(s, c, r) == s
  {
    if s != [] {
      assert c !in s[1..];
      ReplaceAllAbsent(s[1..], c, r);
    }
  }

  lemma {:induction false} ReplaceAllConcat(s: Str, t: Str, c: CodePoint, r: Str)
    ensures ReplaceAll(s + t, c, r) == ReplaceAll(s, c, r) + ReplaceAll(t, c, r)
  {
    if s == [] {
      assert s + t == t;
    } else {
      assert (s + t)[1..] == s[1..] + t;
      ReplaceAllConcat(s[1..], t, c, r);
    }
  }

  /** The position Python's `lst.insert(i, x)` puts `x` at in a list of length `n`. */
  function InsertIndex(n: nat, i: int): (j: nat)
    ensures j <= n
    ensures 0 <= i <= n ==> j == i
    ensures i > n ==> j == n
    ensures i < 0 ==> j == if n + i < 0 then 0 else n + i
  {
    if i < 0 then (if n + i < 0 then 0 else n + i) else if i > n then n else i
  }

  /** Python's `lst.insert(i, x)` on the list's contents. */
  function ListInsert<T>(s: seq<T>, i: int, x: T): (r: seq<T>)
    ensures |r| == |s| + 1
    ensures r[InsertIndex(|s|, i)] == x
    ensures r[..InsertIndex(|s|, i)] == s[..InsertIndex(|s|, i)]
    ensures r[InsertIndex(|s|, i) + 1..] == s[InsertIndex(|s|, i)..]
  {
    var j := InsertIndex(|s|, i);
    s[..j] + [x] + s[j..]
  }

  /** The element at position `y` after `lst.insert(i, x)`. */
  lemma ListInsertAt<T>(s: seq<T>, i: int, x: T, y: int)
    requires 0 <= y <= |s|
    ensures ListInsert(s, i, x)[y] ==
      if y < InsertIndex(|s|, i) then s[y] else if y == InsertIndex(|s|, i) then x else s[y - 1]
  {
    var j := InsertIndex(|s|, i);
    var r := ListInsert(s, i, x);
    if y < j {
      assert r[..j][y] == s[..j][y];
    } else if y > j {
      assert r[j + 1..][y - j - 1] == s[j..][y - j - 1];
    }
  }

  /** Python's `s[i]`: a negative index counts from the end. */
  function PyIndex<T>(s: seq<T>, i: int): (r: Result<T>)
    ensures r.Success? <==> -|s| <= i < |s|
    ensures 0 <= i < |s| ==> r == Success(s[i])
    ensures -|s| <= i < 0 ==> r == Success(s[|s| + i])
    ensures r.Failure? ==> r.error == IndexError
  {
    if 0 <= i < |s| then Success(s[i]) else if -|s| <= i < 0 then Success(s[|s| + i]) else Failure(IndexError)
  }

  /**
   * Alternate selection `v[0] if n >= len(v) else v[n]`: an out-of-range
   * selector falls back to the first alternate.
   */
  function SelectAlt<T>(alts: seq<T>, n: int): (r: Result<T>)
    ensures alts == [] ==> r == Failure(IndexError)
    ensures alts != [] && n >= |alts| ==> r == Success(alts[0])
    ensures 0 <= n < |alts| ==> r == Success(alts[n])
    ensures -|alts| <= n < 0 ==> r == Success(alts[|alts| + n])
    ensures n < -|alts| ==> r == Failure(IndexError)
  {
    if n >= |alts| then PyIndex(alts, 0) else PyIndex(alts, n)
  }

  /** A key of a modelled Python dict: an `int` or a `str`. */
  datatype Key = IntKey(i: int) | StrKey(s: Str)

  /** The `int` keys of the closed interval [lo, hi], in ascending order. */
  function IntervalKeys(lo: int, hi: int): (ks: seq<Key>)
    ensures |ks| == if lo <= hi then hi - lo + 1 else 0
    ensures forall i :: 0 <= i < |ks| ==> ks[i] == IntKey(lo + i)
    decreases hi - lo
  {
    if lo <= hi then [IntKey(lo)] + IntervalKeys(lo + 1, hi) else []
  }

  /** A value stored in a lookup table. A Python `bool` is an `int`, so `True` is `Number(1)`. */
  datatype Val = Text(s: Str) | Nothing | Number(i: int)

  /** The value of a translation entry in a database: a string or a list of alternates. */
  datatype RawValue = Single(text: Str) | Alts(alts: seq<Str>)

  /** The string a translation entry gives for selector `n`. */
  function SelectValue(v: RawValue, n: int): (r: Result<Str>)
    ensures v.Single? ==> r == Success(v.text)
    ensures v.Alts? ==> r == SelectAlt(v.alts, n)
  {
    match v
    case Single(t) => Success(t)
    case Alts(a) => SelectAlt(a, n)
  }

  /** A value in a database's metadata object. */
  datatype MetaValue =
    | MBool(b: bool)
    | MInt(i: int)
    | MText(t: string)
    | MNull
    | MOther(truthy: bool)

  type Meta = map<string, MetaValue>

  /** Python truthiness of a metadata value. */
  predicate Truthy(v: MetaValue)
  {
    match v
    case MBool(b) => b
    case MInt(i) => i != 0
    case MText(t) => t != ""
    case MNull => false
    case MOther(t) => t
  }

  /** Python's `meta.get(key, default)`. */
  function MetaGet(m: Meta, key: string, default: MetaValue): (r: MetaValue)
    ensures key in m ==> r == m[key]
    ensures key !in m ==> r == default
  {
    if key in m then m[key] else default
  }

  /**
   * An insertion-ordered Python `dict`: `keys` lists the keys in the
   * order they were first stored, `m` holds the entries.
   */
  datatype PyDict<K, V> = PyDict(keys: seq<K>, m: map<K, V>)

  ghost predicate DictWf<K(!new), V>(d: PyDict<K, V>)
  {
    && (forall i, j :: 0 <= i < j < |d.keys| ==> d.keys[i] != d.keys[j])
    && (forall k :: k in d.m <==> k in d.keys)
  }

  function EmptyDict<K(!new), V>(): (d: PyDict<K, V>)
    ensures DictWf(d) && d.m == map[]
  {
    PyDict([], map[])
  }

  /** `d[k] = v`: an existing key keeps its position, a new key goes last. */
  function Put<K(!new), V>(d: PyDict<K, V>, k: K, v: V): (r: PyDict<K, V>)
    ensures r.m == d.m[k := v]
    ensures k in d.m ==> r.keys == d.keys
    ensures k !in d.m ==> r.keys == d.keys + [k]
  {
    if k in d.m then PyDict(d.keys, d.m[k := v]) else PyDict(d.keys + [k], d.m[k := v])
  }

  /** Storing a key keeps the keys distinct and in step with the map. */
  lemma PutWf<K(!new), V>(d: PyDict<K, V>, k: K, v: V)
    requires DictWf(d)
    ensures DictWf(Put(d, k, v))
  {
  }

  /**
   * `out = {}; for k in keys: out[k] = f(k)`, stopping at the first key
   * whose value raises.
   */
  function Tabulate<K(!new), V>(keys: seq<K>, f: K -> Result<V>, acc: PyDict<K, V>): Result<PyDict<K, V>>
    decreases |keys|
  {
    if keys == [] then Success(acc)
    else
      match f(keys[0])
      case Failure(e) => Failure(e)
      case Success(v) => Tabulate(keys[1..], f, Put(acc, keys[0], v))
  }

  lemma TabulateCons<K(!new), V>(x: K, rest: seq<K>, f: K -> Result<V>, acc: PyDict<K, V>)
    ensures Tabulate([x] + rest, f, acc) ==
      if f(x).Failure? then Failure(f(x).error) else Tabulate(rest, f, Put(acc, x, f(x).value))
  {
    assert ([x] + rest)[0] == x && ([x] + rest)[1..] == rest;
  }

  /** Tabulating succeeds exactly when every key's value does, and then holds those values. */
  lemma {:induction false} TabulateSpec<K(!new), V>(keys: seq<K>, f: K -> Result<V>, acc: PyDict<K, V>)
    requires DictWf(acc)
    ensures Tabulate(keys, f, acc).Success? <==> forall i :: 0 <= i < |keys| ==> f(keys[i]).Success?
    ensures Tabulate(keys, f, acc).Success? ==>
      var r := Tabulate(keys, f, acc).value;
      && DictWf(r)
      && (forall k :: k in r.m <==> k in acc.m || k in keys)
      && (forall k :: k in keys ==> r.m[k] == f(k).value)
      && (forall k :: k in acc.m && k !in keys ==> r.m[k] == acc.m[k])
    decreases |keys|
  {
    if keys != [] {
      match f(keys[0])
      case Failure(e) =>
      case Success(v) =>
        var acc' := Put(acc, keys[0], v);
        TabulateSpec(keys[1..], f, acc');
        forall i | 0 <= i < |keys[1..]|
          ensures keys[1..][i] == keys[i + 1]
        {
        }
        if Tabulate(keys, f, acc).Success? {
          var r := Tabulate(keys, f, acc).value;
          forall k | k in keys
            ensures r.m[k] == f(k).value
          {
            if k !in keys[1..] {
              assert k == keys[0];
            }
          }
        }
    }
  }

  /** `for k in keys: out[k] = m[k]`. */
  function MergeKeys<K(!new), V>(out: PyDict<K, V>, keys: seq<K>, m: map<K, V>): PyDict<K, V>
    decreases |keys|
  {
    if keys == [] then out
    else if keys[0] in m then MergeKeys(Put(out, keys[0], m[keys[0]]), keys[1..], m)
    else MergeKeys(out, keys[1..], m)
  }

  /** `for k in d.keys(): out[k] = d[k]`: the later dict's entries win. */
  function Merge<K(!new), V>(out: PyDict<K, V>, d: PyDict<K, V>): PyDict<K, V>
  {
    MergeKeys(out, d.keys, d.m)
  }

  lemma {:induction false} MergeKeysSpec<K(!new), V>(out: PyDict<K, V>, keys: seq<K>, m: map<K, V>)
    requires DictWf(out)
    requires forall k :: k in keys ==> k in m
    ensures DictWf(MergeKeys(out, keys, m))
    ensures forall k :: k in MergeKeys(out, keys, m).m <==> k in out.m || k in keys
    ensures forall k :: k in keys ==> MergeKeys(out, keys, m).m[k] == m[k]
    ensures forall k :: k in out.m && k !in keys ==> MergeKeys(out, keys, m).m[k] == out.m[k]
    decreases |keys|
  {
    if keys != [] {
      var out' := Put(out, keys[0], m[keys[0]]);
      MergeKeysSpec(out', keys[1..], m);
      forall k | k in keys
        ensures MergeKeys(out, keys, m).m[k] == m[k]
      {
        if k !in keys[1..] {
          assert k == keys[0];
        }
      }
    }
  }

  /** Merging a well-formed dict into another is the right-biased union of their entries. */
  lemma MergeIsUnion<K(!new), V>(out: PyDict<K, V>, d: PyDict<K, V>)
    requires DictWf(out) && DictWf(d)
    ensures DictWf(Merge(out, d))
    ensures Merge(out, d).m == out.m + d.m
  {
    MergeKeysSpec(out, d.keys, d.m);
  }
}
