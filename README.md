# uilaat translation engine in Dafny

UILAAT, the Unicode Interlingual Aesthetic Appropriation Toolkit, turns text into
"fancy text". It applies translation databases to each character. This
project models the in-memory core of that engine and proves properties of
the model. `uilaat.py` is the current implementation. `json_repo.py` and
`sfunc.py` are the older prototype.

- **`CodePointOffsetLookup`** (module `OffsetLookup`) is a read-only dict.
  - It maps the interval `[start, end]` to `chr(key + offset)`.
  - Its constructor checks its arguments.
  - It expands itself with `dict()`.
  - A reversed lookup maps every image back to its key.
- **`RangeIndexedList`** (module `RangeIndexed`) is a class whose fields are `bounds`, `values`, `copy_key` and `default`.
  - `_do_index` is a binary search with its loop invariant.
  - `__getitem__` is the lookup, including the U+FFFC (`copy_key`) expansion.
  - `dict()` is done with nested loops.
  - `validate` and `bounds_from_ranges` are the construction checks.
  - `insert` splices ranges into bounds and values in place, range by range. With one range, a rejected range leaves both lists unchanged. With several, the ranges before the failing one stay inserted.
- **`TranslationDict`** (module `TranslationDicts`) is a class.
  - Its setter stores a one-character key under its code point.
  - It keeps the '' entry mirrored in `out_default`.
  - A read expands U+FFFC.
  - It also has `get_dict`, `reset_default` and `from_dict`.
- **Building a translation** (module `Bundles`) is `JSONRepo.get_trans` of `uilaat.py`.
  - It runs over the already-parsed databases `_tmp`.
  - Entries go through their handlers `_prep_trans`, `_prep_trans_cpoff`, `_prep_trans_ril` and `_prep_trans_regex`.
  - Alternates are selected and reversal is handled.
  - `_prep_one_dict` condenses all dict-capable lookups into one dict, with later entries winning.
  - The builder takes a `Revision`. `AsWritten` follows the code: the offset, regex and range handlers fall back to the first alternate only when `n > len(v)`, and a range list's values are counted with floor division. `Corrected` is the evident intent: `n >= len(v)`, and one value per range. The lemmas about the builder hold under both readings.
- **`TextProcessor`** (module `TextProcessors`) is a class.
  - It covers `key_by_index`, `add_trans_ops`, `pop_trans_ops` and `clear_trans`.
  - It covers the storing step of `add_trans_dict`.
  - It covers `translate`, with both the `str.translate` pass and the `reverse-out` pass.
- **The prototype repository `json_repo.py`** (module `JsonRepos`) is a class over an abstract map from database name to parsed file.
  - The results of `get_trans` are a left-to-right merge with a cache.
  - It covers `get_meta` and `load_db`.
  - The recursive inclusion walk `_do_load_db` keeps its visited list.
- **The substitution closures of `sfunc.py`** (module `Sfunc`):
  - `in_range`;
  - `fn_covar`, the offset shift;
  - `fn_dict`, dictionary substitution with U+FFFC;
  - `fn_multi`, which groups character-scope functions into runs and rebuilds the output character by character.
  - `sfunc.py` never imports `warn`, so each of its three warnings raises `NameError`: reversed bounds in `in_range`, a multi-character string in `fn_dict`, and a function with an invalid scope in `fn_multi`.
- **The UTF-16 surrogate helpers** `utf16_hs`, `utf16_ls` and `surr` (module `Surrogates`) are proved against the formulas of section 2.1 of RFC 2781.

Module `Base` holds the Python semantics the model relies on:
- `chr`;
- `str.replace`;
- `list.insert`, which clamps its index;
- negative indexing;
- insertion-ordered dicts (`PyDict`: a key sequence plus a map);
- the alternate selection `v[0] if n >= len(v) else v[n]`.

Strings are sequences of code points. Python exceptions are an `Error` value in a `Result`.

## Model

| member | source | states |
|---|---|---|
| Base.Chr | uilaat.py:583-584 | `chr(i)` succeeds exactly for 0 <= i <= 0x10FFFF and gives that code point; otherwise it is a `ValueError` |
| Base.ReplaceAllConcat | uilaat.py:585 | replacing every U+FFFC distributes over concatenation |
| Base.ReplaceAllAbsent | uilaat.py:581-587 | a string without U+FFFC is returned unchanged by the replacement |
| Base.InsertIndex | uilaat.py:397-399 | the position `list.insert(i, x)` uses: i when 0 <= i <= n, n past the end, n + i (at least 0) for negative i |
| Base.ListInsert | uilaat.py:397-399 | `list.insert` makes the list one longer, with x at the clamped position and the old elements on either side in order |
| Base.ListInsertAt | uilaat.py:397-399 | the element at each position after `list.insert`: the old one before the insertion point, x at it, the old one shifted by one after it |
| Base.PyIndex | uilaat.py:130 | `s[i]` succeeds exactly for -len(s) <= i < len(s), counts negative indexes from the end, and raises `IndexError` otherwise |
| Base.SelectAlt | uilaat.py:803-808 | alternate selection: `v[n]` in range, `v[0]` when n >= len(v), from the end for negative n, `IndexError` for an empty list or n < -len(v) |
| Base.SelectValue | uilaat.py:803-810 | a plain value is taken as is; a list value goes through the alternate selection |
| Base.IntervalKeys | uilaat.py:341-343 | the keys of `range(lo, hi + 1)`: hi - lo + 1 of them, ascending, the i-th being lo + i |
| Base.MetaGet | uilaat.py:770-771 | `meta.get(key, default)` gives the stored item when the key is present and the default otherwise |
| Base.Put | uilaat.py:741-742 | `d[k] = v` sets the entry; an existing key keeps its position, a new key goes last |
| Base.PutWf | uilaat.py:741-748 | storing a key keeps the key list duplicate-free and in step with the map |
| Base.TabulateSpec | uilaat.py:341-343 | a loop storing `f(k)` for each key succeeds exactly when every `f(k)` does; it then holds the old entries plus each key with its value |
| Base.MergeKeysSpec | uilaat.py:740-748 | copying every key of one dict into another gives the union of the keys, with the copied keys holding the source values |
| Base.MergeIsUnion | uilaat.py:736-748 | merging a dict into `out[0]` is the right-biased union of their entries, and the result stays well formed |
| OffsetLookup.New | uilaat.py:160-177 | the constructor succeeds exactly for int arguments with 0 <= start <= end and start + offset >= 0; every rejection is a `ValueError` |
| OffsetLookup.Get | uilaat.py:190-205 | a lookup gives key + offset for an int key inside [start, end]; `ValueError` for a non-int key or a negative result; `LookupError` outside the interval or above U+10FFFF |
| OffsetLookup.DictOfSpec | uilaat.py:147-158 | `dict()` succeeds exactly when end + offset <= U+10FFFF, else `LookupError`; its keys are the interval and each key k holds `chr(k + offset)` |
| OffsetLookup.DictFromOutcome | uilaat.py:155-157 | the expansion loop from key i fails, always with `LookupError`, exactly when a key at or after i maps above U+10FFFF |
| OffsetLookup.DictFromKeys | uilaat.py:155-157 | the loop from i adds exactly the keys i..end and keeps the dict well formed |
| OffsetLookup.DictFromValues | uilaat.py:155-157 | the loop from i gives each key i..end its shifted character and keeps every other entry |
| OffsetLookup.DictFromTabulates | uilaat.py:155-157 | the loop is the tabulation of the lookup over the interval's keys |
| OffsetLookup.DictFromStart | uilaat.py:147-158 | `dict()` is the loop started at `start` on an empty dict |
| OffsetLookup.Dict | uilaat.py:147-158 | the method's loop computes exactly the expanded dict |
| OffsetLookup.ReversedRoundTrip | uilaat.py:852-861 | the reversed lookup `[start+off, end+off, -off]` is always accepted, reversing twice gives the lookup back, and it maps k + off back to k for every key k inside the interval |
| Surrogates.Decompose | uilaat.py:46-50 | a value is its high part times 2^k plus its low k bits |
| Surrogates.AndLowMask | uilaat.py:50 | masking with 2^k - 1 keeps the low k bits |
| Surrogates.AndShifted | uilaat.py:46 | masking with m shifted left by k is masking the high part with m, shifted back |
| Surrogates.OrDisjoint | uilaat.py:46-50 | or-ing bits below bit k into a multiple of 2^k adds them |
| Surrogates.PlaneField | uilaat.py:46 | `v & 0x1F0000` is the plane of v times 0x10000 |
| Surrogates.MidField | uilaat.py:46 | `v & 0xFC00` is the top six bits of the offset within the plane |
| Surrogates.LowField | uilaat.py:50 | `v & 0x3FF` is v mod 0x400 |
| Surrogates.Split | uilaat.py:46-50 | a code point is its plane, six middle bits and ten low bits |
| Surrogates.SurrogatesOfSupplementary | uilaat.py:46-52 | for v >= 0x10000, `utf16_hs(v)` is 0xD800 + (v - 0x10000) / 0x400 and `utf16_ls(v)` is 0xDC00 + (v - 0x10000) % 0x400, as in section 2.1 of RFC 2781; both lie in their surrogate ranges |
| Surrogates.PlaneOfBasic | uilaat.py:46 | below U+10000 the plane field is zero |
| Surrogates.PyOrNegative | uilaat.py:46 | Python's `|` of a negative int and a non-negative int is negative |
| Surrogates.HighSurrogateOfBasicIsNegative | uilaat.py:46 | for v < 0x10000, `utf16_hs(v)` is negative |
| Surrogates.Surr | uilaat.py:54-65 | `surr(c)` raises `TypeError` unless c is one character; it succeeds exactly for c >= U+10000 and then gives a high and a low surrogate that decode back to c; below U+10000 it raises `ValueError` |
| RangeIndexed.LowerBoundSpec | uilaat.py:499-520 | on increasing bounds, the reference search splits the bounds into those below the key and those not below it |
| RangeIndexed.LowerBoundUnique | uilaat.py:499-520 | any index that splits the bounds that way is the reference search's answer |
| RangeIndexed.RangeIndexedList.DoIndex | uilaat.py:480-520 | the binary search returns the first index whose bound is not below the key, with found exactly when that bound equals the key; this is len(bounds) for a key above the last bound |
| RangeIndexed.LookupInRange | uilaat.py:297-320 | a key inside the j-th range gets the j-th value, or the one shared value, with U+FFFC replaced by the key under `copy_key` |
| RangeIndexed.LookupOutside | uilaat.py:297-306 | a key below the first range, above the last or in a gap raises `LookupError` |
| RangeIndexed.Lookup | uilaat.py:279-320 | without `copy_key` a lookup that succeeds returns one of the stored values, and the one shared value when there is only one |
| RangeIndexed.CoveredKeys | uilaat.py:341-343 | the keys `dict()` visits are exactly the keys of the ranges |
| RangeIndexed.IntervalKeysMember | uilaat.py:342 | a key of `range(lo, hi + 1)` is an int key between lo and hi |
| RangeIndexed.CoveredFromHas | uilaat.py:341-343 | every key of a range at or after the i-th bound is visited from that bound on |
| RangeIndexed.CoveredFromIn | uilaat.py:341-343 | every key visited from the i-th bound on lies in a range at or after it |
| RangeIndexed.DictOfSucceeds | uilaat.py:328-344 | `dict()` succeeds exactly when every covered key's lookup succeeds |
| RangeIndexed.DictOfSpec | uilaat.py:328-344 | `dict()` succeeds exactly when every covered key's lookup succeeds; its keys are the covered keys, each holding the value the list returns for it |
| RangeIndexed.CoveredAfterRange | uilaat.py:341-343 | past the last key of a range, the keys still to visit start at the next range |
| RangeIndexed.CoveredWithinRange | uilaat.py:342-343 | inside a range the next key visited is the current one |
| RangeIndexed.DictFromTabulates | uilaat.py:341-343 | the nested loops are the tabulation of the lookup over the covered keys |
| RangeIndexed.DictFromKeyTabulates | uilaat.py:342-343 | one step of the inner loop keeps the same tabulation |
| RangeIndexed.DictFromStart | uilaat.py:328-344 | `dict()` is the nested loop started at the first key of the first range |
| RangeIndexed.RangeIndexedList.DictRange | uilaat.py:342-343 | the inner loop over one range computes that range's part of the expansion, stopping at the first lookup that raises |
| RangeIndexed.RangeIndexedList.Dict | uilaat.py:328-344 | the method's nested loops compute exactly the expanded dict |
| RangeIndexed.CountCheck | uilaat.py:463-467 | the corrected value-count check passes exactly for one shared value or one value per range; no values raise `ZeroDivisionError`, any other rejection is `ValueError` |
| RangeIndexed.CountCheckAsWritten | uilaat.py:463-467 | the check as written, with floor division, passes exactly for one value or when the bounds number at least twice and less than three times the values; no values raise `ZeroDivisionError`, any other rejection is `ValueError` |
| RangeIndexed.CountCheckAsWrittenWeaker | uilaat.py:463-467 | every count the corrected check accepts, the written one accepts too; they differ only when the bounds number strictly between twice and three times the values |
| RangeIndexed.CountCheckAsWrittenAcceptsTooFewValues | uilaat.py:463-467 | as written, 8 bounds with 3 values pass the check, which the corrected check rejects, and looking up a key of the fourth range then raises `IndexError` |
| RangeIndexed.AdjacentIncreasing | uilaat.py:470-477 | bounds that increase at each neighbouring pair are increasing |
| RangeIndexed.NoDescentIffIncreasing | uilaat.py:469-478 | the loop finds no bound at or below its predecessor exactly when the bounds are strictly increasing |
| RangeIndexed.ValidateSpec | uilaat.py:459-478 | `validate` as written: an odd length raises `ValueError` before anything else; a failing count check (as written) is raised next; every failure is `ValueError`, `IndexError` (at `bounds[0]` of an empty list) or `ZeroDivisionError` |
| RangeIndexed.ValidateIntended | uilaat.py:459-478 | the same checks in the same order with the corrected count check, failing with the same three errors |
| RangeIndexed.ValidateAccepts | uilaat.py:437-478 | corrected validation (`ValidateIntended`) passes exactly for an even-length, non-empty, strictly increasing bounds list with no values given, one value, or one value per range, as the docstring describes |
| RangeIndexed.ValidateAsWrittenAccepts | uilaat.py:437-478 | validation as written passes exactly for such a bounds list with no values given, one value, or at least one and fewer than one and a half values per range; it passes wherever the corrected validation passes |
| RangeIndexed.Validate | uilaat.py:437-478 | the method's checks and loop compute exactly validation as written |
| RangeIndexed.RangeCheck | uilaat.py:420-433 | a range passes exactly when it is a range object with step 1 whose start is at least the last stop and below its own stop |
| RangeIndexed.BoundsFromSpec | uilaat.py:409-435 | the conversion succeeds exactly when every range passes its check against the previous stop; then the bounds are the starts and stops, in order |
| RangeIndexed.BoundsFrom | uilaat.py:409-435 | a successful conversion gives two bounds per range; every failure is `TypeError` or `ValueError` |
| RangeIndexed.BoundsFromRanges | uilaat.py:409-435 | the method's loop computes exactly the bounds of the reference definition |
| RangeIndexed.BoundsFromRangesQuirks | uilaat.py:409-435 | two ranges that touch give a repeated bound that validation rejects, and a range's exclusive stop becomes a covered key |
| RangeIndexed.InsertOneSucceedsIff | uilaat.py:370-399 | one range is accepted exactly when it has at least two keys and shares no key with an existing range; touching a bound counts as sharing |
| RangeIndexed.InsertOne | uilaat.py:382-399 | a rejected range raises `ValueError`; an accepted one has its start below its end and makes the bounds two longer and the values one longer, holding its value |
| RangeIndexed.InsertSpec | uilaat.py:370-400 | an odd number of keys or a value count other than half the keys raises `ValueError` with both lists unchanged; every failure is `ValueError`; on success the bounds grow by the keys and the values by one per range |
| RangeIndexed.InsertOneAccepted | uilaat.py:370-395 | an accepted range shares no key with any existing range |
| RangeIndexed.InsertOneFits | uilaat.py:370-399 | a range of two or more keys that shares no key with an existing range is accepted |
| RangeIndexed.InsertedIncreasing | uilaat.py:397-398 | splicing a range between the bounds below it and those above it keeps the bounds increasing |
| RangeIndexed.InsertOneShape | uilaat.py:396-399 | an accepted range's bounds land at the lower bound of its start, and its value at half that position |
| RangeIndexed.InsertOneLayout | uilaat.py:396-399 | where an accepted range lands, and that the bounds stay well formed |
| RangeIndexed.InsertedRanges | uilaat.py:397-398 | after two bounds are spliced in at an even position, the ranges before are unchanged, the new one is [ks, ke], and those after shift by one |
| RangeIndexed.InsertedOutside | uilaat.py:397-398 | a key in no old range and outside the new one stays outside every range |
| RangeIndexed.ValueForInserted | uilaat.py:399 | after a value is inserted, every old value sits at its old position, or one further on from the insertion point |
| RangeIndexed.InsertedOldRange | uilaat.py:396-399 | a key of an old range keeps its lookup after the insertion |
| RangeIndexed.InsertOneLookups | uilaat.py:346-400 | with one value per range, insertion keeps one value per range; the new range's keys get the new value and every other key keeps its lookup |
| RangeIndexed.InsertIntoSharedValueList | uilaat.py:396-399 | inserting into a list whose single value is shared by two ranges appends the value: the second old range then reports the new value, and the new range's lookup raises `IndexError` |
| RangeIndexed.SharedValueBefore | uilaat.py:314-315 | before the insertion, the second range of a shared-value list reads the shared value |
| RangeIndexed.SharedValueAfter | uilaat.py:314-317 | after it, that range reads the new value and the new range has none |
| RangeIndexed.SharedValueInsertOne | uilaat.py:396-399 | the insertion appends the new range and the new value |
| RangeIndexed.InsertSingleRange | uilaat.py:346-400 | `insert` with one range succeeds exactly when the value count is right and the range fits; otherwise it raises `ValueError` and bounds and values are exactly unchanged |
| RangeIndexed.InsertPairsKeepsBounds | uilaat.py:370-399 | every sequence of insertions keeps the bounds well formed, and keeps one value per range |
| RangeIndexed.RangeIndexedList.constructor | uilaat.py:218-265 | the fields are set from the arguments, with `None` values giving the default as the one value |
| RangeIndexed.RangeIndexedList.Create | uilaat.py:218-265 | construction with validation succeeds exactly when validation as written passes, raises its error otherwise, and sets the fields |
| RangeIndexed.RangeIndexedList.InsertRange | uilaat.py:370-399 | one iteration of the insert loop: the range goes in where it fits, or `ValueError` is raised with both lists unchanged |
| RangeIndexed.RangeIndexedList.InsertAll | uilaat.py:370-400 | the insert loop leaves the object in the state of the reference insertion and returns its outcome |
| RangeIndexed.RangeIndexedList.Insert | uilaat.py:346-400 | `insert` checks the counts, then inserts range by range; the new bounds, values and outcome are those of the reference insertion, and the list stays valid |
| TranslationDicts.Empty | uilaat.py:552-555 | a new dict has no entries and U+FFFC as its default |
| TranslationDicts.Expand | uilaat.py:577-587 | what a read does with a found value: `None` is returned as is, a number raises `TypeError`, a string without U+FFFC is returned as is, and in a string with U+FFFC read under a string key each U+FFFC becomes that key; every failure is `TypeError` or `ValueError` |
| TranslationDicts.Get | uilaat.py:577-587 | a stored key reads its own entry expanded; on a well-formed dict a missing key reads the '' entry, or U+FFFC, expanded |
| TranslationDicts.Store | uilaat.py:565-575 | storing keeps a well-formed dict well formed |
| TranslationDicts.StoreThenGet | uilaat.py:565-587 | after `td[key] = value`, the stored key reads `value` expanded; other present keys read as before; a missing key reads the new value if key was '' and the old default otherwise |
| TranslationDicts.OneCharKeyStoredAsCodePoint | uilaat.py:568-570 | a one-character string key is stored under its code point and never as a string |
| TranslationDicts.MissingKeyReadsItself | uilaat.py:577-587 | with no '' entry, a missing code point reads as its own character |
| TranslationDicts.MissingKeyReadsDefault | uilaat.py:577-587 | with a '' entry, a missing key reads as that entry with U+FFFC replaced by the key |
| TranslationDicts.ResetStateIdle | uilaat.py:599-600 | on a well-formed dict `reset_default()` changes nothing |
| TranslationDicts.ResetState | uilaat.py:599-600 | `reset_default()` keeps the entries and sets the default to the '' entry, or U+FFFC; the dict is then well formed when its entries are |
| TranslationDicts.DictOfState | uilaat.py:589-597 | an empty dict gives `{}`; its full contract is `DictOfStateSpec` |
| TranslationDicts.DictOfStateSucceeds | uilaat.py:589-597 | `get_dict()` succeeds exactly when every stored key reads without raising |
| TranslationDicts.DictOfStateSpec | uilaat.py:589-597 | `get_dict()` then has exactly the stored keys, in their order, each with its read |
| TranslationDicts.TabulateKeys | uilaat.py:595-596 | tabulating distinct new keys appends them in order |
| TranslationDicts.StoreAllKeys | uilaat.py:611-613 | storing every key of a dict keeps the dict well formed and adds their stored keys |
| TranslationDicts.StoreAll | uilaat.py:611-613 | storing every key keeps a well-formed dict well formed |
| TranslationDicts.FromDictState | uilaat.py:603-614 | `from_dict(d)` is well formed, and has no entries for an empty d |
| TranslationDicts.StoreAllPlain | uilaat.py:611-613 | storing keys that are never one-character strings adds exactly those entries with their values |
| TranslationDicts.FromDictStateSpec | uilaat.py:603-614 | `from_dict(d)` of a dict without one-character string keys holds exactly d's entries, and its default is d[''] or U+FFFC |
| TranslationDicts.FromDictEntries | uilaat.py:603-614 | `from_dict(d)` holds exactly d's entries |
| TranslationDicts.TranslationDict.constructor | uilaat.py:552-555 | `TranslationDict()` is the empty dict |
| TranslationDicts.TranslationDict.Set | uilaat.py:565-575 | `td[key] = value` changes the object to the stored state |
| TranslationDicts.TranslationDict.GetItem | uilaat.py:577-587 | `td[key]` is the read of that key |
| TranslationDicts.TranslationDict.GetDict | uilaat.py:589-597 | the method's loop computes exactly `get_dict()` |
| TranslationDicts.TranslationDict.ResetDefault | uilaat.py:599-600 | `reset_default()` sets the default from the '' entry |
| TranslationDicts.TranslationDict.FromDict | uilaat.py:603-614 | the method's loop builds a fresh dict in exactly the `from_dict` state |
| Bundles.Start | uilaat.py:722-723 | the list starts as one empty translation dict |
| Bundles.HandlerOf | uilaat.py:757-786 | the key's first character picks the offset, range or regex handler exactly when it is U+F811, U+F813 or U+F812; every other key, '' included, goes to `_prep_trans` |
| Bundles.SelectAltAsWrittenOffByOne | uilaat.py:844-848 | the handlers' selection `n > len(v)` agrees with the documented one except at n == len(v), where it raises `IndexError` instead of taking `v[0]`; the builder follows it under `AsWritten` |
| Bundles.Texts | uilaat.py:928-933 | the strings of a range entry become string values one for one |
| Bundles.PrepPlain | uilaat.py:792-828 | `_prep_trans` fails exactly when the alternate selection does, with `IndexError`; forward it stores the selected alternate under k; reversed, the key '' changes nothing |
| Bundles.PrepOffset | uilaat.py:831-861 | `_prep_trans_cpoff` builds only valid lookups; a failing alternate selection is raised; forward, the lookup is exactly `[start, end, offset]` of the selected int arguments |
| Bundles.PrepRange | uilaat.py:896-933 | `_prep_trans_ril` reversed raises `NameError`; a built list has `copy_key` and exactly the selected bounds and values; forward it is built exactly when validation passes (as written, or corrected) |
| Bundles.PrepRegex | uilaat.py:864-894 | `_prep_trans_regex` reversed raises `NameError`; a built lookup is exactly the selected pattern and replacement |
| Bundles.PrepEntry | uilaat.py:776-786 | a plain entry leaves the appended lookups alone; any other entry leaves the first dict alone and appends exactly one lookup; a reversed range or regex entry fails |
| Bundles.ReverseFlag | uilaat.py:770-775 | a database's reversal is `reverse-trans`, defaulting to the legacy `reverse`, and false with neither; it raises `KeyError` exactly when `reverse` is present, not `False`, and `_db_name` is missing |
| Bundles.BuildEntries | uilaat.py:776-786 | one database's entries only append lookups, at most one per entry |
| Bundles.BuildDbs | uilaat.py:764-786 | no database leaves the list as it is; the databases only append lookups |
| Bundles.StoreEachSpec | uilaat.py:823-825 | storing every alternate reversed maps each one to the key and keeps every other entry |
| Bundles.ReversedPlainEntry | uilaat.py:819-828 | a reversed plain entry: the '' key changes nothing; any other key becomes the value of every alternate, which then reads as the key; every other entry is kept |
| Bundles.PrepTrans | uilaat.py:792-828 | the handler writing into the first translation dict leaves it in exactly the state of the reference handler |
| Bundles.ReversedOffsetEntry | uilaat.py:852-861 | a reversed database builds the reversed lookup of the forward one, which maps every image back to its key |
| Bundles.PrepEntryWf | uilaat.py:776-786 | a handler only appends well-formed lookups after the ones already there |
| Bundles.BuildEntriesWf | uilaat.py:776-786 | so does every database's loop over its entries |
| Bundles.BuildDbsWf | uilaat.py:764-786 | every lookup list `get_trans` builds is well formed |
| Bundles.PrepEntryKeeps | uilaat.py:776-786 | an entry that cannot write a key leaves that key's entry unchanged |
| Bundles.BuildEntriesKeeps | uilaat.py:776-786 | entries that cannot write a key leave that key's entry unchanged |
| Bundles.BuildDbsKeeps | uilaat.py:764-786 | databases none of whose entries can write a key leave that key's entry unchanged |
| Bundles.BuildEntriesConcat | uilaat.py:776-786 | a database's entries are processed in order: `a + b` runs a, then b |
| Bundles.BuildDbsConcat | uilaat.py:764-786 | the databases are processed in order: `a + b` runs a, then b |
| Bundles.LaterEntryWins | uilaat.py:764-828 | later entries win: a forward plain entry that no later entry can overwrite ends up in the first dict with its selected alternate |
| Bundles.MergeCpDict | uilaat.py:737-742 | merging an offset lookup's `dict()` adds its entries, none of them a one-character string |
| Bundles.MergeRangeDict | uilaat.py:737-742 | likewise for a range-indexed list's `dict()` |
| Bundles.LookupsWfTail | uilaat.py:736 | the lookups after the first are still well formed |
| Bundles.FlattenRest | uilaat.py:735-750 | condensing keeps the regex pairs already collected and appends only regex pairs, at most one per lookup |
| Bundles.FlattenRestSpec | uilaat.py:735-750 | condensing the lookups merges every dict-capable lookup's entries in order and keeps the regex pairs in order |
| Bundles.OneDictShape | uilaat.py:727-755 | `_prep_one_dict` is the first dict's reads overridden by each later lookup's entries, followed by the regex pairs; with a '' entry the dict becomes a translation dict whose '' entry is the first dict's default |
| Bundles.OneDictSpec | uilaat.py:727-755 | `_prep_one_dict` succeeds only when the first dict's `get_dict()` does, and keeps at most the regex pairs of the list |
| Bundles.MergeInto | uilaat.py:739-748 | copying every key into `out[0]` is the merge |
| Bundles.FlattenStep | uilaat.py:736-750 | one lookup of the condensing loop is one step of the reference definition |
| Bundles.Condense | uilaat.py:751-755 | a merged dict with a '' entry becomes a translation dict with the first dict's default under '' |
| Bundles.PrepOneDict | uilaat.py:727-755 | the method computes exactly the reference `_prep_one_dict` |
| Bundles.PrepEntryInto | uilaat.py:776-786 | one entry of the main loop writes into the first dict or extends the lookup list, in exactly the reference way, under either reading |
| Bundles.BuildEntriesInto | uilaat.py:776-786 | the loop over one database's entries, writing in place, computes the reference result and keeps the list well formed |
| Bundles.GetTransSpec | uilaat.py:721-790 | `get_trans` gives nothing when no database is selected; a success gives a lookup list, condensed exactly when `one_dict` is set |
| Bundles.GetTrans | uilaat.py:672-790 | the method, filling the first dict in place, computes exactly the reference `get_trans`; with `AsWritten` that is the code's `get_trans` |
| Bundles.AlternateAtLengthInGetTrans | uilaat.py:840-848 | an offset entry with two alternates read with n == 2: as written `get_trans` raises `IndexError`; corrected it builds the lookup of the first alternate |
| Bundles.TooFewRangeValuesInGetTrans | uilaat.py:918-933 | a range entry of four ranges with three values: as written `get_trans` builds the list; corrected it raises `ValueError` |
| TextProcessors.KeyByIndex | uilaat.py:120-130 | `key_by_index` takes only an int index; it gives `None` past the end, counts negative indexes from the end, and raises `IndexError` before the start |
| TextProcessors.OrderNames | uilaat.py:1308-1311 | an explicit order is the list of each index's key, and fails when one of them does |
| TextProcessors.IndexOf | uilaat.py:1263-1264 | `list.index(x)` is the first position of x, and fails exactly when x is absent |
| TextProcessors.ListPop | uilaat.py:1270 | `list.pop(i)` succeeds exactly for an index in range and removes and returns that element |
| TextProcessors.AddOps | uilaat.py:1166-1193 | another argument or an unknown name leaves the queue unchanged; a loaded bundle's name is queued, making the queue one longer; only an index argument can fail |
| TextProcessors.PopOps | uilaat.py:1253-1270 | an empty queue or another argument raises `ValueError`; a pop that succeeds removes one item and returns an item of the queue |
| TextProcessors.AddOpsInserts | uilaat.py:1166-1193 | a loaded bundle's name, or the key at an index, lands where `list.insert` puts it, with the rest in order around it; an unknown name or another argument changes nothing |
| TextProcessors.AddThenPop | uilaat.py:1166-1270 | adding a loaded bundle's name and popping the position it landed at gives the list back and returns the name |
| TextProcessors.PopByName | uilaat.py:1253-1270 | popping by name succeeds exactly when the name is queued, and removes and returns its first occurrence |
| TextProcessors.TextProcessor.constructor | uilaat.py:1085-1101 | a new processor has no bundles, no metadata and nothing queued |
| TextProcessors.TextProcessor.AddTransDict | uilaat.py:1162-1164 | the bundle and its database's metadata are stored under the bundle's key; the queue is unchanged |
| TextProcessors.TextProcessor.AddTransOps | uilaat.py:1166-1193 | `add_trans_ops` changes the queue exactly as the reference edit does, and only the queue |
| TextProcessors.TextProcessor.ClearTrans | uilaat.py:1195-1197 | `clear_trans` empties the bundles and the queue and keeps the metadata |
| TextProcessors.TextProcessor.PopTransOps | uilaat.py:1253-1270 | `pop_trans_ops` returns and removes exactly as the reference pop does, and changes nothing on an error |
| TextProcessors.MapOut | uilaat.py:1331 | how `str.translate` uses a mapped value: `None` deletes, an int is a code point (else `ValueError`), a string replaces |
| TextProcessors.RawGet | uilaat.py:1328 | `tdict.get(ord(c), c)` is the raw stored string or c itself; a stored non-string makes the join raise `TypeError` |
| TextProcessors.TranslateConcat | uilaat.py:1331 | `str.translate` splits over concatenation |
| TextProcessors.TranslatePassThrough | uilaat.py:1331 | with a plain dict, characters without an entry pass through unchanged |
| TextProcessors.TranslateMissingChar | uilaat.py:1331 | with a translation dict, a character without an entry reads the '' entry with U+FFFC filled in, or passes through when there is none |
| TextProcessors.RevFromAcc | uilaat.py:1324-1329 | the `reverse-out` loop places what it has built after the rest |
| TextProcessors.ReverseOutConcat | uilaat.py:1324-1329 | reversed output reverses concatenation: the second part's lookups come first |
| TextProcessors.ReverseOutWithoutEntries | uilaat.py:1324-1329 | reversed output of characters without entries is the string reversed |
| TextProcessors.ReverseOutChar | uilaat.py:1324-1329 | reversed output of one character is its raw lookup |
| TextProcessors.ApplyOp | uilaat.py:1314-1331 | a queued entry that is `None`, names no bundle or names one without metadata raises `KeyError` |
| TextProcessors.RunOps | uilaat.py:1313-1332 | nothing queued returns the input; a run that succeeds had every queued name loaded, with its metadata |
| TextProcessors.TranslateSpec | uilaat.py:1290-1332 | with no order and nothing queued the input is returned; a bad index in the order fails; a success with no order had every queued name loaded |
| TextProcessors.RunOpsConcat | uilaat.py:1313-1332 | each queued bundle is applied to the previous bundle's output |
| TextProcessors.TranslateNothingQueued | uilaat.py:1308-1332 | with nothing queued and no order, `translate` returns its input |
| TextProcessors.TextProcessor.Translate | uilaat.py:1290-1332 | the method's loop computes exactly the reference translation |
| JsonRepos.Unseen | json_repo.py:182-196 | remembering more names leaves no more files unseen, and strictly fewer when a new file is among them |
| JsonRepos.Walk | json_repo.py:164-196 | the walk only adds remembered names, and remembers the requested name on success |
| JsonRepos.WalkIncludes | json_repo.py:182-196 | walking the includes only adds remembered names |
| JsonRepos.EndsWithTrans | json_repo.py:182-183 | being a suffix is transitive |
| JsonRepos.PrependWf | json_repo.py:180-183 | loading one more database at the front keeps one database per remembered name |
| JsonRepos.WalkExtends | json_repo.py:164-196 | the walk only adds databases at the front, so the old lists stay at the end; on success the requested database comes right before them |
| JsonRepos.WalkIncludesExtends | json_repo.py:182-196 | walking the includes keeps the old lists at the end |
| JsonRepos.WalkKeeps | json_repo.py:164-196 | the walk keeps one database per remembered name and loads no name twice |
| JsonRepos.WalkIncludesKeeps | json_repo.py:182-196 | so does walking the includes |
| JsonRepos.LoadedOnce | json_repo.py:138-196 | from empty lists, no name is remembered twice, each database carries the name at its position, and on success the requested database is the last one |
| JsonRepos.InclusionLoopStops | json_repo.py:182-196 | an inclusion loop is cut where it closes, each database loaded once, innermost first |
| JsonRepos.SelfIncludeStops | json_repo.py:186-190 | a database that includes itself is loaded once |
| JsonRepos.JsonRepo.DoLoadDb | json_repo.py:164-196 | the method's recursion and loop leave exactly the lists and outcome of the reference walk |
| JsonRepos.JsonRepo.LoadDb | json_repo.py:138-162 | `load_db`, corrected to drop the cached translation, leaves the reference state |
| JsonRepos.JsonRepo.LoadDbAsWritten | json_repo.py:138-162 | `load_db` as written, keeping `_current_trans`, leaves the reference as-written state |
| JsonRepos.LoadState | json_repo.py:138-162 | loading, with the cache dropped, leaves the cache empty and sets the current name exactly when the walk succeeds, and clears it exactly when it fails |
| JsonRepos.LoadStateAsWritten | json_repo.py:138-162 | loading as written keeps the cached translation, sets the current name exactly when the walk succeeds, and loads the same databases as the corrected one |
| JsonRepos.JsonRepo.GetMeta | json_repo.py:66-70 | `get_meta` raises `IndexError` with nothing loaded, otherwise gives the item from the last database's metadata, or `None` |
| JsonRepos.GetTransResults | json_repo.py:97-136 | `{}` with no database; the cache unchanged for n of `None` when it is non-empty; otherwise the merge of `_tmp` for n (0 for `None`), which a following `get_trans()` returns again |
| JsonRepos.MergeTrans | json_repo.py:117-134 | no database leaves the dict as it is; the only failure is `IndexError`, from an empty alternate list |
| JsonRepos.GetTransState | json_repo.py:97-136 | `get_trans` keeps `_tmp`, the memo and the current name; a failure is `IndexError` and changes nothing; a success with a database selected caches its result |
| JsonRepos.MergeEntriesFrom | json_repo.py:117-134 | every entry the merge writes comes from an entry: forward `k -> val`, reversed `val -> k` with k never '' |
| JsonRepos.MergeEntriesKeeps | json_repo.py:119-134 | entries that cannot write a key leave its entry unchanged |
| JsonRepos.MergeTransKeeps | json_repo.py:117-134 | so do databases none of whose entries can write it |
| JsonRepos.MergeEntriesConcat | json_repo.py:121-134 | a database's entries are merged in order |
| JsonRepos.MergeTransConcat | json_repo.py:117-134 | the databases are merged left to right |
| JsonRepos.LaterDbOverrides | json_repo.py:117-134 | later databases override earlier ones: a forward entry that nothing later overwrites ends up in the result with its selected alternate |
| JsonRepos.AlternatesExample | json_repo.py:78-85 | the documented example: selector 2 takes the third alternate, or the first when there are only two |
| JsonRepos.StaleCacheAfterReload | json_repo.py:138-162 | as written, `get_trans()` after loading another database returns the previous database's cached translation; with the cache dropped it returns the new one |
| JsonRepos.JsonRepo.constructor | json_repo.py:43-60 | a new repository has nothing loaded and nothing cached |
| JsonRepos.JsonRepo.GetTrans | json_repo.py:72-136 | the method's loops and cache update compute exactly the reference `get_trans` and its new state |
| Sfunc.InRange | sfunc.py:38-47 | true when either bound is `None`; reversed bounds reach the undefined `warn` and raise `NameError`; otherwise an empty string raises `TypeError` and anything else is whether its first code point lies in [start, end] |
| Sfunc.FnCovar | sfunc.py:78-88 | a non-string raises `TypeError`; an error of `in_range` is raised; an out-of-range character is returned as is; an in-range empty string raises `IndexError`; otherwise the first code point is shifted by the offset (`ValueError` past the code point range) and the rest copied |
| Sfunc.CovarRoundTrip | sfunc.py:78-88 | shifting by the offset and then, over the shifted range, by minus the offset gives the character back |
| Sfunc.FromDict | sfunc.py:122-141 | `sfunc_from_dict` raises `TypeError` exactly when given no dict, and otherwise gives the dict substitution with character scope |
| Sfunc.FillSubPoint | sfunc.py:137-139 | replacing U+FFFC in U+FFFC alone by c gives c |
| Sfunc.FnDict | sfunc.py:125-139 | a non-string raises `TypeError`; a string longer than one code point reaches the undefined `warn` and raises `NameError`; otherwise an error of `in_range` is raised and an out-of-range character is returned as is |
| Sfunc.DictSubstitution | sfunc.py:125-139 | an in-range string longer than one code point raises `NameError`; an in-range character: a present entry with U+FFFC filled in; an absent one gives the character back with no '' entry, or the '' entry filled in |
| Sfunc.DictOutOfRange | sfunc.py:125-133 | an out-of-range character passes through unchanged, a longer string raises `NameError`, and a non-string raises `TypeError` |
| Sfunc.ReversedBoundsRaise | sfunc.py:38-47 | with reversed bounds both the offset and the dict substitution of a character raise `NameError` |
| Sfunc.Functions | sfunc.py:184-210 | the functions of a list, one for one, without their scopes |
| Sfunc.PrefixedEmpty | sfunc.py:220-227 | prefixing nothing changes nothing |
| Sfunc.PrefixedTwice | sfunc.py:220-227 | prefixing twice is prefixing by the concatenation |
| Sfunc.ApplyRunIsCompose | sfunc.py:222-225 | one character run is the composition of its functions in list order |
| Sfunc.CharPassIsEachChar | sfunc.py:217-227 | `do_fns_char` sends every character through the whole run and joins the results |
| Sfunc.AllCharFrom | sfunc.py:229-249 | with only character-scope functions, the loop widens one run to the whole list |
| Sfunc.CharOnlyList | sfunc.py:211-250 | a list of character-scope functions only applies every function, in list order, to each character and joins the results |
| Sfunc.EmptyListRaises | sfunc.py:217-249 | an empty list raises `IndexError` on a non-empty string, because the final pass reads entry 0 |
| Sfunc.FirstRunIsEachChar | sfunc.py:217-227 | the run of the first function alone is that function on each character |
| Sfunc.MultiStartsRun | sfunc.py:233-238 | a character-scope entry after a non-character one starts a new run at itself |
| Sfunc.MultiStringStep | sfunc.py:239-242 | a string-scope entry applies the pending run and then itself to the whole string |
| Sfunc.RunReappliedAfterStringScope | sfunc.py:229-249 | after a string-scope function, the final pass applies the previous character run once more |
| Sfunc.MultiFrom | sfunc.py:229-249 | the loop succeeds only when every remaining function has character or string scope |
| Sfunc.CharRunThenInvalid | sfunc.py:229-246 | from a run of character-scope functions, the loop reaches an invalid scope and raises `NameError` |
| Sfunc.InvalidScopeRaises | sfunc.py:211-246 | a function with an invalid scope after only character-scope ones makes `fn_multi` raise `NameError` at the undefined `warn` |
| Sfunc.NopScopeRaises | sfunc.py:229-246 | a `SCOPE_NOP` function after character-scope functions only makes `fn_multi` raise `NameError`, where its docstring says such functions are skipped |
| Sfunc.ApplyFn | sfunc.py:78-139 | calling a substitution function computes exactly its reference result, errors included |
| Sfunc.DoFnsChar | sfunc.py:217-227 | the method's loop computes exactly the character pass |
| Sfunc.FnMulti | sfunc.py:211-250 | the method's loop computes exactly the reference `fn_multi`, `NameError` for an invalid scope included |

## Left out

- File and JSON input/output is left out: repository directories, `list_trans`, `_get_db_path`, opening and decoding files, and `_fh`. A parsed database is an input value. `json_repo.py`'s repository is a map from name to parsed file, with a missing name standing for `FileNotFoundError`.
- The `uilaat.py` loaders `load_db`, `_load_trans` and `_do_load_trans` (uilaat.py:986-1058) are left out. Their list of parsed databases `_tmp` is an input to `get_trans`. The `json_repo.py` walk is the one modelled.
- The regex engine is not modelled.
  - `_prep_trans_regex` keeps the pattern string uncompiled.
  - The regex pre-pass of `translate` is a function parameter `sub`, assumed not to raise.
  - `sfunc_from_re` is not modelled.
- The `maketrans` branches of `get_trans` and `_prep_trans` in both files are left out. They call `warn` with swapped arguments and read an undefined variable.
- The reversal branches of `_prep_trans_regex` and `_prep_trans_ril` read the undefined `dmeta`. They are modelled as raising `NameError`.
- The warnings of `uilaat.py` are not modelled, since `warn` is imported there and each one is a no-op. The exception is where producing the message raises: the legacy `reverse` flag reads `_db_name`. The warnings of `sfunc.py` raise `NameError` and are modelled.
- Bundles.PrepEntry: a database value is modelled only in the shapes its handler reads. A plain value is a string or a list of strings, an offset value holds int-or-other arguments, a range value holds int bounds and string values, and a regex value holds strings. A value of another shape for its key gives `TypeError` in the model, where the source may store it (a number, a list of numbers, `None`) or fail with another error.
- Bundles.GetTrans: because of that, a database whose plain entries store non-string values is not representable, and neither is the later effect of such a value on `translate`.
- Bundles.PrepOffset: a reversed offset entry whose arguments are not all ints gives `TypeError` in the model. In the source the outcome depends on the argument types: a `TypeError` from `+`, or a `ValueError` from the `CodePointOffsetLookup` constructor.
- JsonRepos.MergeEntries: the databases of `json_repo.py` hold only string values or lists of strings, so `MergeTrans` and `GetTransState` fail only with `IndexError` within that domain. The source keeps any JSON value. Forward, a number, `null` or a nested list is stored as it is. Reversed, `len(val)` raises `TypeError` for a number or `null`, and a list or object value raises `TypeError` as an unhashable key. None of these is representable.
- RangeIndexed.RangeIndexedList.constructor: this is construction with `validate=False`. Every other operation of the class requires the list to be valid, which the source does not demand. A list built without validation is therefore usable in the model only once it is valid.
- The `TextProcessor` repository management is left out: `add_repo`, `list_repos`, `list_trans`, `list_trans_ops` and `sample`. So are the repository search and naming in `add_trans_dict`. Only its storing of the bundle and metadata is modelled.
- `dump_code_page` and `dump_page` are left out. They are fixture dumps.
- `RangeIndexedList.remove` is left out, because it is unimplemented.
- `__repr__`, `__eq__` and `_dump_trans` are left out.
- `RangeIndexedList.validate` does not model the element-type checks on the bounds. Bounds are integers in the model.
- Python `bool` used as an `int` is not modelled: `True` is the number 1. Type checks of arguments are modelled only where the code branches on them.
- `TranslationDicts.TranslationDict.Set`: a key that is neither a string nor an int, which the source ignores, is not representable.
- `TranslationDict(d)` with an initial dict is modelled by `from_dict`, which produces the same state. The `TypeError` for a non-dict initialiser is not modelled.
- Object identity and aliasing are not modelled. This covers the cached `_current_trans` being the very dict handed to the caller, and lookups shared between bundles.
- A built bundle holds its lookups as values, not objects. These are a range-indexed list's table, an offset lookup and a translation dict's state.
- `uilaat.py`'s own `JSONRepo.get_meta` is left out. The modelled `get_meta` is the one in `json_repo.py`.
- `translate`'s docstring says `order` may hold names. The code passes every item to `key_by_index`, which rejects a name with `TypeError`, and the model follows the code.
- `pop_trans_ops` with an index at or past the end builds its error message from an undefined name. The model gives `NameError` there, as the code does. An empty list gives `ValueError`.

## Findings

| source | as written | input that shows it | evidently intended | confidence | as-written member | corrected member |
|---|---|---|---|---|---|---|
| uilaat.py:846 | the offset, regex and range handlers fall back to the first alternate only when `n > len(v)` | an offset entry with two alternates and `n == 2` makes `get_trans` raise `IndexError` | `v[0] if n >= len(v)`, as `_prep_trans` and the documentation do | not executed | Bundles.AlternateAtLengthInGetTrans | Base.SelectAlt |
| uilaat.py:463-467 | `validate` compares `len(bounds) // len(values)` with 2 | a range entry of 8 bounds with 3 values is built, and a key of the fourth range then raises `IndexError` | exactly one value, or one value per range | not executed | RangeIndexed.CountCheckAsWrittenAcceptsTooFewValues | RangeIndexed.ValidateAccepts |
| json_repo.py:138-162 | `load_db` clears `_tmp` and the memo but keeps `_current_trans` | load "a", call `get_trans(0)`, load "b", then `get_trans()` returns the translation of "a" | loading a database drops the cached translation | not executed | JsonRepos.StaleCacheAfterReload | JsonRepos.JsonRepo.LoadDb |
