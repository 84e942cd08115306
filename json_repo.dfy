/**
 * The older JSON repository of json_repo.py. `load_db` walks a database
 * and the databases it includes into the list `_tmp`, newest first,
 * remembering every loaded name in `_filename_memo`; `get_trans` folds
 * `_tmp` into one plain translation dict and caches it.
 */
module JsonRepos {
  import opened Base

  /** A database file as decoded: its `meta` object if it has one, its `trans` entries, its `trans-include` list. */
  datatype FileDb = FileDb(meta: Option<Meta>, trans: seq<(Str, RawValue)>, includes: seq<string>)

  /** A database of `_tmp`: a decoded file with `_db_name` written into its metadata. */
  datatype LoadedDb = LoadedDb(meta: Meta, trans: seq<(Str, RawValue)>, includes: seq<string>)

  /** `_tmp`, `_filename_memo` and how the walk ended. */
  datatype Walked = Walked(tmp: seq<LoadedDb>, memo: seq<string>, outcome: Outcome)

  /** The fields of a repository object. */
  datatype RepoState = RepoState(tmp: seq<LoadedDb>, memo: seq<string>, currentDbName: Option<string>, currentTrans: PyDict<Str, Str>)

  ghost function Names(s: seq<string>): set<string>
  {
    set x | x in s
  }

  /** `memo'` remembers every name `memo` does. */
  ghost predicate Remembers(memo': seq<string>, memo: seq<string>)
  {
    forall x :: x in memo ==> x in memo'
  }

  /** Remembering more names leaves fewer files unseen, strictly fewer when a new file is among them. */
  lemma Unseen(files: set<string>, memo: seq<string>, memo': seq<string>, x: string)
    requires Remembers(memo', memo)
    ensures |files - Names(memo')| <= |files - Names(memo)|
    ensures x in files && x !in memo && x in memo' ==> |files - Names(memo')| < |files - Names(memo)|
  {
    var a := files - Names(memo);
    var b := files - Names(memo');
    assert Names(memo) <= Names(memo');
    assert a == b + (a - b);
    if x in files && x !in memo && x in memo' {
      assert x in a - b;
    }
  }

  /** The database a file gives once loaded under `name`. */
  function LoadOf(f: FileDb, name: string): LoadedDb
  {
    LoadedDb((if f.meta.Some? then f.meta.value else map[])["_db_name" := MText(name)], f.trans, f.includes)
  }

  // ---------------------------------------------------------------------
  // The inclusion walk

  /**
   * `_do_load_db(name)` over the repository `files`: a missing file
   * raises `FileNotFoundError` and a file without `meta` raises
   * `KeyError`; otherwise the database and its name go to the front of
   * `_tmp` and `_filename_memo`, and its includes are walked.
   */
  function Walk(files: map<string, FileDb>, name: string, tmp: seq<LoadedDb>, memo: seq<string>): (r: Walked)
    requires name !in memo
    ensures Remembers(r.memo, memo)
    ensures r.outcome.Pass? ==> name in r.memo
    decreases |files.Keys - Names(memo)|, 0
  {
    if name !in files then Walked(tmp, memo, Fail(FileNotFoundError))
    else if files[name].meta.None? then Walked(tmp, memo, Fail(KeyError))
    else
      Unseen(files.Keys, memo, [name] + memo, name);
      WalkIncludes(files, name, files[name].includes, [LoadOf(files[name], name)] + tmp, [name] + memo)
  }

  /**
   * `for e in incs: ...`: an include of the database itself or of a name
   * already remembered is skipped with a warning, any other is walked.
   */
  function WalkIncludes(files: map<string, FileDb>, name: string, incs: seq<string>, tmp: seq<LoadedDb>, memo: seq<string>): (r: Walked)
    ensures Remembers(r.memo, memo)
    decreases |files.Keys - Names(memo)|, |incs|
  {
    if incs == [] then Walked(tmp, memo, Pass)
    else if incs[0] == name || incs[0] in memo then WalkIncludes(files, name, incs[1..], tmp, memo)
    else
      var w := Walk(files, incs[0], tmp, memo);
      if w.outcome.Fail? then w
      else
        Unseen(files.Keys, memo, w.memo, incs[0]);
        WalkIncludes(files, name, incs[1..], w.tmp, w.memo)
  }

  /** `s` ends with `t`. */
  ghost predicate EndsWith<T>(s: seq<T>, t: seq<T>)
  {
    |t| <= |s| && s[|s| - |t|..] == t
  }

  /**
   * What the walk keeps of `_tmp` and `_filename_memo`: one database per
   * remembered name, at the same position, and no name twice.
   */
  ghost predicate LoadedWf(files: map<string, FileDb>, tmp: seq<LoadedDb>, memo: seq<string>)
  {
    && |tmp| == |memo|
    && (forall i, j :: 0 <= i < j < |memo| ==> memo[i] != memo[j])
    && (forall i :: 0 <= i < |memo| ==> memo[i] in files && tmp[i] == LoadOf(files[memo[i]], memo[i]))
  }

  lemma EndsWithTrans<T>(a: seq<T>, b: seq<T>, c: seq<T>)
    requires EndsWith(a, b) && EndsWith(b, c)
    ensures EndsWith(a, c)
  {
    assert a[|a| - |c|..] == a[|a| - |b|..][|b| - |c|..];
  }

  /** Loading one more database in front keeps the lists well formed. */
  lemma PrependWf(files: map<string, FileDb>, name: string, tmp: seq<LoadedDb>, memo: seq<string>)
    requires name !in memo && name in files && LoadedWf(files, tmp, memo)
    ensures LoadedWf(files, [LoadOf(files[name], name)] + tmp, [name] + memo)
  {
    var tmp' := [LoadOf(files[name], name)] + tmp;
    var memo' := [name] + memo;
    forall i | 0 <= i < |memo'|
      ensures memo'[i] in files && tmp'[i] == LoadOf(files[memo'[i]], memo'[i])
    {
      if i > 0 {
        assert memo'[i] == memo[i - 1] && tmp'[i] == tmp[i - 1];
      }
    }
    forall i, j | 0 <= i < j < |memo'|
      ensures memo'[i] != memo'[j]
    {
      assert memo'[j] == memo[j - 1];
      if i > 0 {
        assert memo'[i] == memo[i - 1];
      }
    }
  }

  /** The walk only puts databases in front: the old lists are kept at the end. */
  lemma {:induction false} WalkExtends(files: map<string, FileDb>, name: string, tmp: seq<LoadedDb>, memo: seq<string>)
    requires name !in memo
    ensures EndsWith(Walk(files, name, tmp, memo).tmp, tmp) && EndsWith(Walk(files, name, tmp, memo).memo, memo)
    ensures Walk(files, name, tmp, memo).outcome.Pass? ==>
      EndsWith(Walk(files, name, tmp, memo).tmp, [LoadOf(files[name], name)] + tmp)
    decreases |files.Keys - Names(memo)|, 0
  {
    if name in files && files[name].meta.Some? {
      var tmp' := [LoadOf(files[name], name)] + tmp;
      var memo' := [name] + memo;
      Unseen(files.Keys, memo, memo', name);
      WalkIncludesExtends(files, name, files[name].includes, tmp', memo');
      var r := Walk(files, name, tmp, memo);
      assert EndsWith(tmp', tmp) && EndsWith(memo', memo);
      EndsWithTrans(r.tmp, tmp', tmp);
      EndsWithTrans(r.memo, memo', memo);
    }
  }

  lemma {:induction false} WalkIncludesExtends(files: map<string, FileDb>, name: string, incs: seq<string>, tmp: seq<LoadedDb>, memo: seq<string>)
    ensures EndsWith(WalkIncludes(files, name, incs, tmp, memo).tmp, tmp)
    ensures EndsWith(WalkIncludes(files, name, incs, tmp, memo).memo, memo)
    decreases |files.Keys - Names(memo)|, |incs|
  {
    if incs == [] {
      assert tmp[|tmp| - |tmp|..] == tmp && memo[|memo| - |memo|..] == memo;
    } else if incs[0] == name || incs[0] in memo {
      WalkIncludesExtends(files, name, incs[1..], tmp, memo);
    } else {
      WalkExtends(files, incs[0], tmp, memo);
      var w := Walk(files, incs[0], tmp, memo);
      if w.outcome.Pass? {
        Unseen(files.Keys, memo, w.memo, incs[0]);
        WalkIncludesExtends(files, name, incs[1..], w.tmp, w.memo);
        var r := WalkIncludes(files, name, incs, tmp, memo);
        EndsWithTrans(r.tmp, w.tmp, tmp);
        EndsWithTrans(r.memo, w.memo, memo);
      }
    }
  }

  /** The walk keeps one database per remembered name and loads no name twice. */
  lemma {:induction false} WalkKeeps(files: map<string, FileDb>, name: string, tmp: seq<LoadedDb>, memo: seq<string>)
    requires name !in memo && LoadedWf(files, tmp, memo)
    ensures LoadedWf(files, Walk(files, name, tmp, memo).tmp, Walk(files, name, tmp, memo).memo)
    decreases |files.Keys - Names(memo)|, 0
  {
    if name in files && files[name].meta.Some? {
      Unseen(files.Keys, memo, [name] + memo, name);
      PrependWf(files, name, tmp, memo);
      WalkIncludesKeeps(files, name, files[name].includes, [LoadOf(files[name], name)] + tmp, [name] + memo);
    }
  }

  lemma {:induction false} WalkIncludesKeeps(files: map<string, FileDb>, name: string, incs: seq<string>, tmp: seq<LoadedDb>, memo: seq<string>)
    requires LoadedWf(files, tmp, memo)
    ensures LoadedWf(files, WalkIncludes(files, name, incs, tmp, memo).tmp, WalkIncludes(files, name, incs, tmp, memo).memo)
    decreases |files.Keys - Names(memo)|, |incs|
  {
    if incs != [] {
      if incs[0] == name || incs[0] in memo {
        WalkIncludesKeeps(files, name, incs[1..], tmp, memo);
      } else {
        WalkKeeps(files, incs[0], tmp, memo);
        var w := Walk(files, incs[0], tmp, memo);
        if w.outcome.Pass? {
          Unseen(files.Keys, memo, w.memo, incs[0]);
          WalkIncludesKeeps(files, name, incs[1..], w.tmp, w.memo);
        }
      }
    }
  }

  /**
   * Loading from empty lists: no name is remembered twice, every
   * database of `_tmp` carries the name remembered at its position, and
   * after a successful load the requested database is the last of `_tmp`.
   */
  lemma LoadedOnce(files: map<string, FileDb>, name: string)
    ensures var r := Walk(files, name, [], []);
      && |r.tmp| == |r.memo|
      && (forall i, j :: 0 <= i < j < |r.memo| ==> r.memo[i] != r.memo[j])
      && (forall i :: 0 <= i < |r.tmp| ==> "_db_name" in r.tmp[i].meta && r.tmp[i].meta["_db_name"] == MText(r.memo[i]))
      && (r.outcome.Pass? ==> r.tmp != [] && r.tmp[|r.tmp| - 1] == LoadOf(files[name], name))
  {
    var r := Walk(files, name, [], []);
    WalkKeeps(files, name, [], []);
    assert LoadedWf(files, r.tmp, r.memo);
    forall i | 0 <= i < |r.tmp|
      ensures "_db_name" in r.tmp[i].meta && r.tmp[i].meta["_db_name"] == MText(r.memo[i])
    {
      assert r.tmp[i] == LoadOf(files[r.memo[i]], r.memo[i]);
    }
    if r.outcome.Pass? {
      WalkExtends(files, name, [], []);
      assert EndsWith(r.tmp, [LoadOf(files[name], name)]);
      assert r.tmp[|r.tmp| - 1..][0] == r.tmp[|r.tmp| - 1];
    }
  }

  /** The repository of the source's inclusion-loop test: last includes second, second first, first last. */
  function LoopFiles(): map<string, FileDb>
  {
    map[
      "first" := FileDb(Some(map[]), [], ["last"]),
      "second" := FileDb(Some(map[]), [], ["first"]),
      "last" := FileDb(Some(map[]), [], ["second"])]
  }

  /** The loop is cut where it closes: each database is loaded once, innermost first. */
  lemma InclusionLoopStops()
    ensures Walk(LoopFiles(), "last", [], []).outcome == Pass
    ensures Walk(LoopFiles(), "last", [], []).memo == ["first", "second", "last"]
  {
    var files := LoopFiles();
    var f, sd, l := LoadOf(files["first"], "first"), LoadOf(files["second"], "second"), LoadOf(files["last"], "last");
    var done := Walked([f, sd, l], ["first", "second", "last"], Pass);
    assert WalkIncludes(files, "first", [], done.tmp, done.memo) == done;
    assert WalkIncludes(files, "first", ["last"], done.tmp, done.memo) == done;
    assert Walk(files, "first", [sd, l], ["second", "last"]) == done;
    assert WalkIncludes(files, "second", [], done.tmp, done.memo) == done;
    assert WalkIncludes(files, "second", ["first"], [sd, l], ["second", "last"]) == done;
    assert [sd] + [l] == [sd, l] && ["second"] + ["last"] == ["second", "last"];
    assert "second" in files && files["second"].includes == ["first"];
    assert Walk(files, "second", [l], ["last"]) == done;
    assert WalkIncludes(files, "last", [], done.tmp, done.memo) == done;
    assert "second" != "last" && "second" !in ["last"];
    assert WalkIncludes(files, "last", ["second"], [l], ["last"]) == done;
    assert [l] + [] == [l] && ["last"] + [] == ["last"];
    assert "last" in files && files["last"].includes == ["second"];
    assert Walk(files, "last", [], []) == WalkIncludes(files, "last", ["second"], [l], ["last"]);
  }

  /** A database that includes itself is loaded once, after what it was included from. */
  lemma SelfIncludeStops()
    ensures var files := map["first" := FileDb(Some(map[]), [], ["first"]), "last" := FileDb(Some(map[]), [], ["first"])];
      Walk(files, "last", [], []).outcome == Pass && Walk(files, "last", [], []).memo == ["first", "last"]
  {
    var files := map["first" := FileDb(Some(map[]), [], ["first"]), "last" := FileDb(Some(map[]), [], ["first"])];
    var f, l := LoadOf(files["first"], "first"), LoadOf(files["last"], "last");
    var done := Walked([f, l], ["first", "last"], Pass);
    assert WalkIncludes(files, "first", [], done.tmp, done.memo) == done;
    assert WalkIncludes(files, "first", ["first"], done.tmp, done.memo) == done;
    assert Walk(files, "first", [l], ["last"]) == done;
    assert WalkIncludes(files, "last", [], done.tmp, done.memo) == done;
    assert "first" != "last" && "first" !in ["last"];
    assert WalkIncludes(files, "last", ["first"], [l], ["last"]) == done;
    assert [l] + [] == [l] && ["last"] + [] == ["last"];
    assert "last" in files && files["last"].includes == ["first"];
    assert Walk(files, "last", [], []) == WalkIncludes(files, "last", ["first"], [l], ["last"]);
  }

  // ---------------------------------------------------------------------
  // Building the translation dict

  /** Whether a database is reversed: only a `reverse` that is `True` itself. */
  predicate Reversed(meta: Meta)
  {
    MetaGet(meta, "reverse", MBool(false)) == MBool(true)
  }

  /**
   * The entries of one database into `trans_tmp`: `k -> val`, or reversed
   * `val -> k`, skipping '', with `val` the selected alternate.
   */
  function MergeEntries(trans: seq<(Str, RawValue)>, n: int, reverse: bool, acc: PyDict<Str, Str>): (r: Result<PyDict<Str, Str>>)
    ensures r.Failure? ==> r.error == IndexError
    decreases |trans|
  {
    if trans == [] then Success(acc)
    else
      match SelectValue(trans[0].1, n)
      case Failure(e) => Failure(e)
      case Success(val) =>
        if !reverse then MergeEntries(trans[1..], n, reverse, Put(acc, trans[0].0, val))
        else if trans[0].0 == [] then MergeEntries(trans[1..], n, reverse, acc)
        else MergeEntries(trans[1..], n, reverse, Put(acc, val, trans[0].0))
  }

  /** Continue with the databases `tmp` after a partial result. */
  function MergeAfter(r: Result<PyDict<Str, Str>>, tmp: seq<LoadedDb>, n: int): (r': Result<PyDict<Str, Str>>)
    ensures r.Failure? ==> r' == Failure(r.error)
    ensures r.Success? && r'.Failure? ==> r'.error == IndexError
    decreases |tmp|, 1
  {
    match r
    case Failure(e) => Failure(e)
    case Success(acc) => MergeTrans(tmp, n, acc)
  }

  /** `for d in self._tmp: ...`, left to right. */
  function MergeTrans(tmp: seq<LoadedDb>, n: int, acc: PyDict<Str, Str>): (r: Result<PyDict<Str, Str>>)
    ensures tmp == [] ==> r == Success(acc)
    ensures r.Failure? ==> r.error == IndexError
    decreases |tmp|, 0
  {
    if tmp == [] then Success(acc)
    else MergeAfter(MergeEntries(tmp[0].trans, n, Reversed(tmp[0].meta), acc), tmp[1..], n)
  }

  /**
   * `get_trans(n)`: `{}` with no database selected; with `n` of `None`
   * the cache when it is not empty; otherwise the merge of `_tmp`, which
   * also becomes the cache.
   */
  function GetTransState(st: RepoState, n: Option<int>): (p: (RepoState, Result<PyDict<Str, Str>>))
    ensures p.0.tmp == st.tmp && p.0.memo == st.memo && p.0.currentDbName == st.currentDbName
    ensures p.1.Failure? ==> p.1.error == IndexError && p.0 == st
    ensures p.1.Success? && st.currentDbName.Some? ==> p.0.currentTrans == p.1.value
  {
    if st.currentDbName.None? then (st, Success(EmptyDict()))
    else if n.None? && st.currentTrans.m != map[] then (st, Success(st.currentTrans))
    else
      match MergeTrans(st.tmp, if n.None? then 0 else n.value, EmptyDict())
      case Failure(e) => (st, Failure(e))
      case Success(t) => (st.(currentTrans := t), Success(t))
  }

  /**
   * The results of `get_trans`: `{}` with no database, the unchanged
   * cache for `n` of `None`, and otherwise the merge of `_tmp` for `n`
   * (0 for `None`), which a following `get_trans()` returns again.
   */
  lemma GetTransResults(st: RepoState, n: Option<int>)
    ensures st.currentDbName.None? ==> GetTransState(st, n) == (st, Success(EmptyDict()))
    ensures st.currentDbName.Some? && n.None? && st.currentTrans.m != map[] ==>
      GetTransState(st, n) == (st, Success(st.currentTrans))
    ensures st.currentDbName.Some? && (n.Some? || st.currentTrans.m == map[]) ==>
      GetTransState(st, n).1 == MergeTrans(st.tmp, if n.None? then 0 else n.value, EmptyDict())
    ensures var (st', r) := GetTransState(st, n);
      r.Success? && r.value.m != map[] ==> GetTransState(st', None) == (st', r)
  {
  }

  /**
   * Every entry a database adds comes from one of its entries: forward
   * `k -> val`; reversed `val -> k` with `k` never ''.
   */
  lemma {:induction false} MergeEntriesFrom(trans: seq<(Str, RawValue)>, n: int, reverse: bool, acc: PyDict<Str, Str>)
    requires MergeEntries(trans, n, reverse, acc).Success?
    ensures var r := MergeEntries(trans, n, reverse, acc).value;
      forall key :: key in r.m ==>
        || (key in acc.m && r.m[key] == acc.m[key])
        || (!reverse && exists i :: 0 <= i < |trans| && trans[i].0 == key && SelectValue(trans[i].1, n) == Success(r.m[key]))
        || (reverse && exists i :: 0 <= i < |trans| && trans[i].0 == r.m[key] && r.m[key] != [] && SelectValue(trans[i].1, n) == Success(key))
    decreases |trans|
  {
    if trans != [] {
      var val := SelectValue(trans[0].1, n).value;
      var acc' := if !reverse then Put(acc, trans[0].0, val) else if trans[0].0 == [] then acc else Put(acc, val, trans[0].0);
      MergeEntriesFrom(trans[1..], n, reverse, acc');
      var r := MergeEntries(trans, n, reverse, acc).value;
      assert r == MergeEntries(trans[1..], n, reverse, acc').value;
      forall key | key in r.m
        ensures || (key in acc.m && r.m[key] == acc.m[key])
                || (!reverse && exists i :: 0 <= i < |trans| && trans[i].0 == key && SelectValue(trans[i].1, n) == Success(r.m[key]))
                || (reverse && exists i :: 0 <= i < |trans| && trans[i].0 == r.m[key] && r.m[key] != [] && SelectValue(trans[i].1, n) == Success(key))
      {
        if !reverse && exists i :: 0 <= i < |trans[1..]| && trans[1..][i].0 == key && SelectValue(trans[1..][i].1, n) == Success(r.m[key]) {
          var i :| 0 <= i < |trans[1..]| && trans[1..][i].0 == key && SelectValue(trans[1..][i].1, n) == Success(r.m[key]);
          assert trans[i + 1] == trans[1..][i];
        } else if reverse && exists i :: 0 <= i < |trans[1..]| && trans[1..][i].0 == r.m[key] && r.m[key] != [] && SelectValue(trans[1..][i].1, n) == Success(key) {
          var i :| 0 <= i < |trans[1..]| && trans[1..][i].0 == r.m[key] && r.m[key] != [] && SelectValue(trans[1..][i].1, n) == Success(key);
          assert trans[i + 1] == trans[1..][i];
        } else if key in acc'.m && r.m[key] == acc'.m[key] && !(key in acc.m && r.m[key] == acc.m[key]) {
          assert trans[0].0 == (if !reverse then key else r.m[key]);
        }
      }
    }
  }

  /** Whether an entry of a database with the given direction writes `key`. */
  ghost predicate Writes(e: (Str, RawValue), reverse: bool, n: int, key: Str)
  {
    if reverse then e.0 != [] && SelectValue(e.1, n) == Success(key) else e.0 == key
  }

  lemma {:induction false} MergeEntriesKeeps(trans: seq<(Str, RawValue)>, n: int, reverse: bool, acc: PyDict<Str, Str>, key: Str)
    requires key in acc.m && forall i :: 0 <= i < |trans| ==> !Writes(trans[i], reverse, n, key)
    requires MergeEntries(trans, n, reverse, acc).Success?
    ensures key in MergeEntries(trans, n, reverse, acc).value.m
    ensures MergeEntries(trans, n, reverse, acc).value.m[key] == acc.m[key]
    decreases |trans|
  {
    if trans != [] {
      assert !Writes(trans[0], reverse, n, key);
      var val := SelectValue(trans[0].1, n).value;
      var acc' := if !reverse then Put(acc, trans[0].0, val) else if trans[0].0 == [] then acc else Put(acc, val, trans[0].0);
      assert forall i :: 0 <= i < |trans[1..]| ==> trans[1..][i] == trans[i + 1];
      MergeEntriesKeeps(trans[1..], n, reverse, acc', key);
    }
  }

  lemma {:induction false} MergeTransKeeps(tmp: seq<LoadedDb>, n: int, acc: PyDict<Str, Str>, key: Str)
    requires key in acc.m
    requires forall d, i :: d in tmp && 0 <= i < |d.trans| ==> !Writes(d.trans[i], Reversed(d.meta), n, key)
    requires MergeTrans(tmp, n, acc).Success?
    ensures key in MergeTrans(tmp, n, acc).value.m && MergeTrans(tmp, n, acc).value.m[key] == acc.m[key]
    decreases |tmp|
  {
    if tmp != [] {
      assert tmp[0] in tmp;
      MergeEntriesKeeps(tmp[0].trans, n, Reversed(tmp[0].meta), acc, key);
      var a := MergeEntries(tmp[0].trans, n, Reversed(tmp[0].meta), acc).value;
      forall d, i | d in tmp[1..] && 0 <= i < |d.trans|
        ensures !Writes(d.trans[i], Reversed(d.meta), n, key)
      {
        assert d in tmp;
      }
      MergeTransKeeps(tmp[1..], n, a, key);
    }
  }

  lemma {:induction false} MergeEntriesConcat(a: seq<(Str, RawValue)>, b: seq<(Str, RawValue)>, n: int, reverse: bool, acc: PyDict<Str, Str>)
    ensures MergeEntries(a + b, n, reverse, acc) ==
      match MergeEntries(a, n, reverse, acc) case Failure(e) => Failure(e) case Success(x) => MergeEntries(b, n, reverse, x)
    decreases |a|
  {
    if a == [] {
      assert a + b == b;
    } else {
      assert (a + b)[0] == a[0] && (a + b)[1..] == a[1..] + b;
      match SelectValue(a[0].1, n)
      case Failure(e) =>
      case Success(val) =>
        var acc' := if !reverse then Put(acc, a[0].0, val) else if a[0].0 == [] then acc else Put(acc, val, a[0].0);
        MergeEntriesConcat(a[1..], b, n, reverse, acc');
    }
  }

  lemma {:induction false} MergeTransConcat(a: seq<LoadedDb>, b: seq<LoadedDb>, n: int, acc: PyDict<Str, Str>)
    ensures MergeTrans(a + b, n, acc) == MergeAfter(MergeTrans(a, n, acc), b, n)
    decreases |a|
  {
    if a == [] {
      assert a + b == b;
    } else {
      assert (a + b)[0] == a[0] && (a + b)[1..] == a[1..] + b;
      match MergeEntries(a[0].trans, n, Reversed(a[0].meta), acc)
      case Failure(e) =>
      case Success(x) =>
        MergeTransConcat(a[1..], b, n, x);
    }
  }

  /**
   * Later databases override earlier ones: when a forward database
   * translates `k` and nothing after that entry, in it or in the
   * databases after it, writes `k`, the result maps `k` to its alternate.
   */
  lemma LaterDbOverrides(pre: seq<LoadedDb>, db: LoadedDb, post: seq<LoadedDb>, n: int, i: int)
    requires 0 <= i < |db.trans| && !Reversed(db.meta)
    requires forall j :: i < j < |db.trans| ==> !Writes(db.trans[j], false, n, db.trans[i].0)
    requires forall d, j :: d in post && 0 <= j < |d.trans| ==> !Writes(d.trans[j], Reversed(d.meta), n, db.trans[i].0)
    requires MergeTrans(pre + [db] + post, n, EmptyDict()).Success?
    ensures SelectValue(db.trans[i].1, n).Success?
    ensures var r := MergeTrans(pre + [db] + post, n, EmptyDict()).value;
      db.trans[i].0 in r.m && r.m[db.trans[i].0] == SelectValue(db.trans[i].1, n).value
  {
    var key := db.trans[i].0;
    assert pre + [db] + post == pre + ([db] + post);
    MergeTransConcat(pre, [db] + post, n, EmptyDict());
    var a0 := MergeTrans(pre, n, EmptyDict()).value;
    assert ([db] + post)[0] == db && ([db] + post)[1..] == post;
    var trans := db.trans;
    assert MergeTrans([db] + post, n, a0) == MergeAfter(MergeEntries(trans, n, false, a0), post, n);
    assert trans == trans[..i] + trans[i..];
    MergeEntriesConcat(trans[..i], trans[i..], n, false, a0);
    var a1 := MergeEntries(trans[..i], n, false, a0).value;
    assert trans[i..][0] == trans[i] && trans[i..][1..] == trans[i + 1..];
    var a2 := Put(a1, key, SelectValue(trans[i].1, n).value);
    var later := trans[i + 1..];
    forall j | 0 <= j < |later|
      ensures !Writes(later[j], false, n, key)
    {
      assert later[j] == trans[i + 1 + j];
    }
    assert MergeEntries(trans[i..], n, false, a1) == MergeEntries(later, n, false, a2);
    MergeEntriesKeeps(later, n, false, a2, key);
    var a3 := MergeEntries(later, n, false, a2).value;
    MergeTransKeeps(post, n, a3, key);
  }

  /** The documented example: selector 2 takes the third alternate, or the first when there are only two. */
  lemma AlternatesExample()
    ensures var trans := [([97], Single([52])), ([98], Alts([[124, 51], [0xA7B4], [0x1D7AB]])), ([99], Alts([[60], [0x1F30A]]))];
      MergeEntries(trans, 2, false, EmptyDict()) ==
        Success(PyDict([[97], [98], [99]], map[[97] := [52], [98] := [0x1D7AB], [99] := [60]]))
  {
    var trans := [([97], Single([52])), ([98], Alts([[124, 51], [0xA7B4], [0x1D7AB]])), ([99], Alts([[60], [0x1F30A]]))];
    var d1 := Put(EmptyDict<Str, Str>(), [97], [52]);
    var d2 := Put(d1, [98], [0x1D7AB]);
    var d3 := Put(d2, [99], [60]);
    assert [98] !in d1.m && [99] !in d2.m;
    assert SelectValue(trans[1].1, 2) == Success([0x1D7AB]);
    assert SelectValue(trans[2].1, 2) == Success([60]);
    assert MergeEntries(trans[3..], 2, false, d3) == Success(d3);
    assert MergeEntries(trans[2..], 2, false, d2) == Success(d3);
    assert MergeEntries(trans[1..], 2, false, d1) == Success(d3);
    assert d3 == PyDict([[97], [98], [99]], map[[97] := [52], [98] := [0x1D7AB], [99] := [60]]);
  }

  // ---------------------------------------------------------------------
  // Loading

  /** `load_db(name)` as the repository intends it: the cache is dropped with the old databases. */
  function LoadState(files: map<string, FileDb>, name: string): (p: (RepoState, Outcome))
    ensures p.0.currentTrans == EmptyDict()
    ensures p.0.currentDbName == Some(name) <==> p.1.Pass?
    ensures p.0.currentDbName.None? <==> p.1.Fail?
  {
    var w := Walk(files, name, [], []);
    (RepoState(w.tmp, w.memo, if w.outcome.Pass? then Some(name) else None, EmptyDict()), w.outcome)
  }

  /** `load_db(name)` as written: `_current_trans` survives the reload. */
  function LoadStateAsWritten(files: map<string, FileDb>, st: RepoState, name: string): (p: (RepoState, Outcome))
    ensures p.0.currentTrans == st.currentTrans
    ensures p.0.currentDbName == Some(name) <==> p.1.Pass?
    ensures p.0.tmp == LoadState(files, name).0.tmp && p.0.memo == LoadState(files, name).0.memo
  {
    var w := Walk(files, name, [], []);
    (RepoState(w.tmp, w.memo, if w.outcome.Pass? then Some(name) else None, st.currentTrans), w.outcome)
  }

  /** Two one-entry databases that translate `a` differently. */
  function StaleFiles(): map<string, FileDb>
  {
    map["a" := FileDb(Some(map[]), [([97], Single([120]))], []), "b" := FileDb(Some(map[]), [([97], Single([121]))], [])]
  }

  /**
   * As written, `get_trans()` after loading another database returns the
   * translation cached for the previous one; with the cache dropped it
   * returns the new database's translation.
   */
  lemma StaleCacheAfterReload()
    ensures var st := LoadStateAsWritten(StaleFiles(), RepoState([], [], None, EmptyDict()), "a").0;
      var st' := GetTransState(st, Some(0)).0;
      && GetTransState(LoadStateAsWritten(StaleFiles(), st', "b").0, None).1 == Success(PyDict([[97]], map[[97] := [120]]))
      && GetTransState(LoadState(StaleFiles(), "b").0, None).1 == Success(PyDict([[97]], map[[97] := [121]]))
  {
    var files := StaleFiles();
    var da, db := LoadOf(files["a"], "a"), LoadOf(files["b"], "b");
    assert Walk(files, "a", [], []) == Walked([da], ["a"], Pass);
    assert Walk(files, "b", [], []) == Walked([db], ["b"], Pass);
    assert !Reversed(da.meta) && !Reversed(db.meta);
    var ta := Put(EmptyDict<Str, Str>(), [97], [120]);
    var tb := Put(EmptyDict<Str, Str>(), [97], [121]);
    assert MergeEntries(da.trans, 0, false, EmptyDict()) == Success(ta);
    assert MergeEntries(db.trans, 0, false, EmptyDict()) == Success(tb);
    assert MergeTrans([da], 0, EmptyDict()) == Success(ta);
    assert MergeTrans([db], 0, EmptyDict()) == Success(tb);
    var st := LoadStateAsWritten(files, RepoState([], [], None, EmptyDict()), "a").0;
    assert st == RepoState([da], ["a"], Some("a"), EmptyDict());
    var st' := GetTransState(st, Some(0)).0;
    assert st' == st.(currentTrans := ta);
    assert LoadStateAsWritten(files, st', "b").0 == RepoState([db], ["b"], Some("b"), ta);
    assert LoadState(files, "b").0 == RepoState([db], ["b"], Some("b"), EmptyDict());
    assert ta.m != map[] by { assert [97] in ta.m; }
    assert GetTransState(LoadStateAsWritten(files, st', "b").0, None).1 == Success(ta);
    assert GetTransState(LoadState(files, "b").0, None).1 == Success(tb);
    assert ta == PyDict([[97]], map[[97] := [120]]) && tb == PyDict([[97]], map[[97] := [121]]);
  }

  // ---------------------------------------------------------------------
  // The repository object

  class JsonRepo {
    /** The repository directory: every database file by name, as decoded. */
    const files: map<string, FileDb>
    var tmp: seq<LoadedDb>
    var filenameMemo: seq<string>
    var currentDbName: Option<string>
    var currentTrans: PyDict<Str, Str>

    function State(): RepoState
      reads this
    {
      RepoState(tmp, filenameMemo, currentDbName, currentTrans)
    }

    /** `JSONRepo(repo_dir)`: nothing loaded, nothing cached. */
    constructor (files: map<string, FileDb>)
      ensures this.files == files
      ensures State() == RepoState([], [], None, EmptyDict())
    {
      this.files := files;
      tmp := [];
      filenameMemo := [];
      currentDbName := None;
      currentTrans := EmptyDict();
    }

    /**
     * `get_meta(key)`: an item of the metadata of the last database of
     * `_tmp`, the one `load_db` was asked for.
     */
    function GetMeta(key: string): (r: Result<Option<MetaValue>>)
      reads this
      ensures tmp == [] ==> r == Failure(IndexError)
      ensures tmp != [] ==> r.Success? && (r.value.Some? <==> key in tmp[|tmp| - 1].meta)
      ensures tmp != [] && key in tmp[|tmp| - 1].meta ==> r.value == Some(tmp[|tmp| - 1].meta[key])
    {
      match PyIndex(tmp, -1)
      case Failure(e) => Failure(e)
      case Success(d) => Success(if key in d.meta then Some(d.meta[key]) else None)
    }

    /** `_do_load_db(name)`. */
    method DoLoadDb(name: string) returns (o: Outcome)
      requires name !in filenameMemo
      modifies this
      ensures Walked(tmp, filenameMemo, o) == Walk(files, name, old(tmp), old(filenameMemo))
      ensures currentDbName == old(currentDbName) && currentTrans == old(currentTrans)
      decreases |files.Keys - Names(filenameMemo)|, 0
    {
      if name !in files {
        return Fail(FileNotFoundError);
      }
      var f := files[name];
      if f.meta.None? {
        return Fail(KeyError);
      }
      ghost var memo0 := filenameMemo;
      tmp := [LoadOf(f, name)] + tmp;
      filenameMemo := [name] + filenameMemo;
      ghost var tmp1, memo1 := tmp, filenameMemo;
      // The source walks an index over the includes; the loop here consumes them.
      var incs := f.includes;
      while incs != []
        invariant Remembers(filenameMemo, memo1)
        invariant WalkIncludes(files, name, f.includes, tmp1, memo1) == WalkIncludes(files, name, incs, tmp, filenameMemo)
        invariant currentDbName == old(currentDbName) && currentTrans == old(currentTrans)
        decreases |incs|
      {
        var e := incs[0];
        if e != name && e !in filenameMemo {
          Unseen(files.Keys, memo0, filenameMemo, name);
          var sub := DoLoadDb(e);
          if sub.Fail? {
            return sub;
          }
        }
        incs := incs[1..];
      }
      return Pass;
    }

    /** `load_db(name)`, dropping the cached translation with the old databases. */
    method LoadDb(name: string) returns (o: Outcome)
      modifies this
      ensures (State(), o) == LoadState(files, name)
    {
      tmp := [];
      filenameMemo := [];
      currentDbName := None;
      currentTrans := EmptyDict();
      o := DoLoadDb(name);
      if o.Pass? {
        currentDbName := Some(name);
      }
    }

    /** `load_db(name)` as written, keeping `_current_trans`. */
    method LoadDbAsWritten(name: string) returns (o: Outcome)
      modifies this
      ensures (State(), o) == LoadStateAsWritten(files, old(State()), name)
    {
      tmp := [];
      filenameMemo := [];
      currentDbName := None;
      o := DoLoadDb(name);
      if o.Pass? {
        currentDbName := Some(name);
      }
    }

    /** `get_trans(n)` without `maketrans`. */
    method GetTrans(n: Option<int>) returns (r: Result<PyDict<Str, Str>>)
      modifies this
      ensures (State(), r) == GetTransState(old(State()), n)
    {
      var transTmp: PyDict<Str, Str> := EmptyDict();
      if currentDbName.None? {
        return Success(transTmp);
      }
      if n.None? && currentTrans.m != map[] {
        return Success(currentTrans);
      }
      var nn := if n.None? then 0 else n.value;
      var i := 0;
      assert tmp[0..] == tmp;
      while i < |tmp|
        invariant 0 <= i <= |tmp|
        invariant MergeTrans(tmp, nn, EmptyDict()) == MergeTrans(tmp[i..], nn, transTmp)
        decreases |tmp| - i
      {
        assert tmp[i..][0] == tmp[i] && tmp[i..][1..] == tmp[i + 1..];
        var d := tmp[i];
        var reverse := MetaGet(d.meta, "reverse", MBool(false)) == MBool(true);
        var j := 0;
        assert d.trans[0..] == d.trans;
        while j < |d.trans|
          invariant 0 <= j <= |d.trans|
          invariant MergeTrans(tmp, nn, EmptyDict()) == MergeAfter(MergeEntries(d.trans[j..], nn, reverse, transTmp), tmp[i + 1..], nn)
          decreases |d.trans| - j
        {
          assert d.trans[j..][0] == d.trans[j] && d.trans[j..][1..] == d.trans[j + 1..];
          var k := d.trans[j].0;
          var val := SelectValue(d.trans[j].1, nn);
          if val.Failure? {
            return Failure(val.error);
          }
          if reverse {
            if k != [] {
              transTmp := Put(transTmp, val.value, k);
            }
          } else {
            transTmp := Put(transTmp, k, val.value);
          }
          j := j + 1;
        }
        assert d.trans[j..] == [];
        i := i + 1;
      }
      assert tmp[i..] == [];
      currentTrans := transTmp;
      return Success(transTmp);
    }
  }
}
