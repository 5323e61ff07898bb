/** Names of database dumps and the rotation of one tier directory. */
module Backups {
  import opened Basics
  import opened Decimal
  import opened Lexicographic
  import opened Options
  import opened SetSizes
  import opened StableSort
  import opened Utf8

  const SUFFIX := ".sql.gz"

  /** `YYYYMMDD-HHMMSS` for daily dumps, six digits for weekly and monthly ones. */
  predicate IsKey(k: string) {
    || (|k| == 6 && AllDigits(k))
    || (|k| == 15 && AllDigits(k[..8]) && k[8] == '-' && AllDigits(k[9..]))
  }

  function Name(db: string, key: string): string {
    db + ("-" + (key + SUFFIX))
  }

  function StripPrefix(s: string, p: string): Option<string> {
    if p <= s then Some(s[|p|..]) else None
  }

  function StripSuffix(s: string, p: string): Option<string> {
    if |p| <= |s| && s[|s| - |p|..] == p then Some(s[..|s| - |p|]) else None
  }

  /** What stands between the prefix and the suffix of a dump's name. */
  function KeyText(name: string, db: string): Option<string> {
    var rest := StripPrefix(name, db);
    if rest.None? then None
    else
      var tail := StripPrefix(rest.value, "-");
      if tail.None? then None else StripSuffix(tail.value, SUFFIX)
  }

  /** The key is what stands in a name between `<db>-` and `.sql.gz`. */
  lemma KeyTextExactly(name: string, db: string, key: string)
    ensures KeyText(name, db) == Some(key) <==> name == db + "-" + key + ".sql.gz"
  {
    if KeyText(name, db) == Some(key) {
      var rest := name[|db|..];
      assert name == db + rest;
      assert rest == "-" + rest[1..];
      assert rest[1..] == key + ".sql.gz";
    }
    if name == db + "-" + key + ".sql.gz" {
      assert name[|db|..] == "-" + key + ".sql.gz";
      assert name[|db|..][1..] == key + ".sql.gz";
      assert (key + ".sql.gz")[|key|..] == ".sql.gz" && (key + ".sql.gz")[..|key|] == key;
    }
  }

  datatype Parsed = Key(key: string) | NotOurs | Panics

  /** The timestamp key of one of our own dumps; `NotOurs` for other files in the directory.
      Lengths are in bytes, and cutting a text inside a character panics. */
  function ParseDumpKey(name: string, db: string): Parsed {
    var text := KeyText(name, db);
    if text.None? then NotOurs
    else
      var key := text.value;
      if |key| == 6 then
        if AllDigits(key) then Key(key) else NotOurs
      else if |key| == 15 then
        if !IsBoundary(key, 8) then Panics
        else if !AllDigits(key[..8]) || key[8] != '-' then NotOurs
        else if !IsBoundary(key, 9) then Panics
        else if AllDigits(key[9..]) then Key(key)
        else NotOurs
      else NotOurs
  }

  predicate Ours(name: string, db: string) {
    ParseDumpKey(name, db).Key?
  }

  /** The recogniser accepts exactly the names we print, and reads the key back. */
  lemma ParseExactly(name: string, db: string, key: string)
    ensures ParseDumpKey(name, db) == Key(key) <==> IsKey(key) && name == Name(db, key)
  {
    assert |key| == 15 && AllDigits(key[9..]) ==> IsDigit(key[9..][0]) && key[9..][0] == key[9];
  }

  /** It returns at all, on a file name, unless the key has fifteen bytes and a character of
      more than one byte lies across the end of the date. */
  lemma ParsePanicsExactly(name: string, db: string)
    requires IsUtf8(name)
    ensures ParseDumpKey(name, db).Panics? <==>
            exists key :: name == db + "-" + key + ".sql.gz" && |key| == 15 && IsContinuation(key[8])
  {
    PanicsOnKey(name, db);
    if KeyText(name, db).Some? {
      KeyTextExactly(name, db, KeyText(name, db).value);
    }
    if key :| name == db + "-" + key + ".sql.gz" && |key| == 15 && IsContinuation(key[8]) {
      KeyTextExactly(name, db, key);
    }
  }

  lemma PanicsOnKey(name: string, db: string)
    requires IsUtf8(name)
    ensures ParseDumpKey(name, db).Panics? <==>
            KeyText(name, db).Some? && |KeyText(name, db).value| == 15 && IsContinuation(KeyText(name, db).value[8])
  {
    if KeyText(name, db).Some? && |KeyText(name, db).value| == 15 {
      var key := KeyText(name, db).value;
      assert forall i :: 0 <= i < 15 ==> name[|db| + 1 + i] == key[i];
      if key[8] == '-' {
        AsciiEndsCharacter(name, |db| + 1 + 8);
      }
    }
  }

  lemma KeysAreAscii(key: string)
    requires IsKey(key)
    ensures IsUtf8(key)
  {
    forall i | 0 <= i < |key|
      ensures IsAscii(key[i])
    {
      if |key| == 15 {
        assert key[i] == if i < 8 then key[..8][i] else if i == 8 then '-' else key[9..][i - 9];
      }
    }
    AsciiIsUtf8(key);
  }

  lemma NamesAreUtf8(db: string, key: string)
    requires IsUtf8(db) && IsUtf8(key)
    ensures IsUtf8(Name(db, key))
  {
    AsciiIsUtf8("-");
    AsciiIsUtf8(SUFFIX);
    Utf8Concat(key, SUFFIX);
    Utf8Concat("-", key + SUFFIX);
    Utf8Concat(db, "-" + (key + SUFFIX));
  }

  lemma AccentedKey() returns (key: string)
    ensures IsUtf8(key) && |key| == 15 && IsContinuation(key[8])
  {
    var front, back := "1234567", "123456";
    AsciiIsUtf8(front);
    AsciiIsUtf8(back);
    var accented := Encoded(0xe9);
    EncodedBegins(0xe9, "");
    assert accented + "" == accented;
    Utf8Concat(front, accented);
    Utf8Concat(front + accented, back);
    key := front + accented + back;
  }

  /** There is such a name for every database. */
  lemma SomeNamePanics(db: string) returns (name: string)
    requires IsUtf8(db)
    ensures IsUtf8(name) && ParseDumpKey(name, db).Panics?
  {
    var key := AccentedKey();
    name := Name(db, key);
    NamesAreUtf8(db, key);
    assert name == db + "-" + key + ".sql.gz";
    ParsePanicsExactly(name, db);
  }

  lemma OursAreUtf8(name: string, db: string)
    requires IsUtf8(db) && Ours(name, db)
    ensures IsUtf8(name)
  {
    var key := ParseDumpKey(name, db).key;
    ParseExactly(name, db, key);
    KeysAreAscii(key);
    NamesAreUtf8(db, key);
  }

  function KeyOf(name: string, db: string): string {
    var k := ParseDumpKey(name, db);
    if k.Key? then k.key else ""
  }

  /** The `-latest` links are never taken for dumps, although `latest` has six letters. */
  lemma LatestIsNotOurs(db: string)
    ensures ParseDumpKey(Name(db, "latest"), db) == NotOurs
  {
    assert !IsDigit("latest"[0]);
  }

  predicate Older(a: string, b: string, db: string) {
    Before(KeyOf(a, db), KeyOf(b, db))
  }

  lemma OlderIsStrictOrder(a: string, b: string, c: string, db: string)
    ensures a != b && Ours(a, db) && Ours(b, db) ==> Older(a, b, db) || Older(b, a, db)
    ensures !(Older(a, b, db) && Older(b, a, db)) && !Older(a, a, db)
    ensures Older(a, b, db) && Older(b, c, db) ==> Older(a, c, db)
  {
    BeforeIsStrictOrder(KeyOf(a, db), KeyOf(b, db), KeyOf(c, db));
    ParseExactly(a, db, KeyOf(a, db));
    ParseExactly(b, db, KeyOf(b, db));
  }

  // ---- the newest of a set ----------------------------------------------------

  /** `newest` are the `n` newest of `all`, or all of them if there are fewer. */
  ghost predicate IsNewest(newest: set<string>, all: set<string>, n: nat, db: string) {
    && newest <= all && |newest| == (if n < |all| then n else |all|)
    && forall a, b :: a in newest && b in all - newest ==> Older(b, a, db)
  }

  lemma NewestIsUnique(x: set<string>, y: set<string>, all: set<string>, n: nat, db: string)
    requires IsNewest(x, all, n, db) && IsNewest(y, all, n, db)
    ensures x == y
  {
    if x - y != {} && y - x != {} {
      var a, b :| a in x - y && b in y - x;
      OlderIsStrictOrder(a, b, a, db);
    } else if x - y == {} {
      assert forall a :: a in x ==> a !in x - y;
      SameSizeSubset(x, y);
    } else {
      assert forall b :: b in y ==> b !in y - x;
      SameSizeSubset(y, x);
    }
  }

  lemma {:induction false} Oldest(all: set<string>, db: string) returns (oldest: string)
    requires all != {} && forall m :: m in all ==> Ours(m, db)
    ensures oldest in all && forall m :: m in all && m != oldest ==> Older(oldest, m, db)
    decreases all
  {
    oldest :| oldest in all;
    if all != {oldest} {
      assert all - {oldest} != {};
      var other := Oldest(all - {oldest}, db);
      OlderIsStrictOrder(oldest, other, oldest, db);
      forall m | m in all
        ensures Older(oldest, other, db) && Older(other, m, db) ==> Older(oldest, m, db)
      {
        OlderIsStrictOrder(oldest, other, m, db);
      }
      if Older(other, oldest, db) {
        oldest := other;
      }
    }
  }

  lemma {:induction false} SomeAreNewest(all: set<string>, n: nat, db: string) returns (newest: set<string>)
    requires forall m :: m in all ==> Ours(m, db)
    ensures IsNewest(newest, all, n, db)
    decreases |all|
  {
    if |all| <= n {
      newest := all;
    } else {
      var oldest := Oldest(all, db);
      newest := SomeAreNewest(all - {oldest}, n, db);
    }
  }

  /** The newest of all are the newest of whatever holds them. */
  lemma NewestOfSubset(newest: set<string>, some: set<string>, all: set<string>, n: nat, db: string)
    requires IsNewest(newest, all, n, db) && newest <= some <= all
    ensures IsNewest(newest, some, n, db)
  {
    SubsetIsSmaller(newest, some);
    SubsetIsSmaller(some, all);
    if |some| == |newest| {
      SameSizeSubset(newest, some);
    }
  }

  /** A name that is not older than the others displaces none but the oldest that is kept: the
      newest of the larger set are among those of the smaller and the name itself. */
  lemma NewestOfGrowing(kept: set<string>, all: set<string>, n: nat, name: string, kept': set<string>, db: string)
    requires n > 0 && IsNewest(kept, all, n, db) && IsNewest(kept', all + {name}, n, db)
    requires Ours(name, db) && forall m :: m in all ==> Ours(m, db) && !Older(name, m, db)
    ensures kept' <= kept + {name}
  {
    forall a | a in kept'
      ensures a in kept + {name}
    {
      if a !in kept + {name} {
        AllNewerAreKept(kept, all, n, name, kept', a, db);
        SubsetIsSmaller(kept + {a}, kept');
      }
    }
  }

  /** Whoever keeps `a`, although it is none of the newest, keeps all of these too. */
  lemma AllNewerAreKept(kept: set<string>, all: set<string>, n: nat, name: string, kept': set<string>, a: string, db: string)
    requires IsNewest(kept, all, n, db) && IsNewest(kept', all + {name}, n, db)
    requires a in kept' && a in all && a !in kept
    ensures kept + {a} <= kept' && |kept| == n && |kept + {a}| > |kept'|
  {
    SubsetIsSmaller(kept + {a}, all);
    assert |kept + {a}| == |kept| + 1;
    forall k | k in kept
      ensures k in kept'
    {
      OlderIsStrictOrder(a, k, a, db);
      assert k !in kept' ==> Older(k, a, db);
    }
  }

  lemma PrintedIsOurs(db: string, key: string)
    requires IsKey(key)
    ensures Ours(Name(db, key), db) && KeyOf(Name(db, key), db) == key
  {
    ParseExactly(Name(db, key), db, key);
  }

  /** A name newer than all others displaces none but the oldest that is kept. */
  lemma NewestWithNew(kept: set<string>, all: set<string>, n: nat, name: string, kept': set<string>, db: string)
    requires n > 0 && IsNewest(kept, all, n - 1, db) && IsNewest(kept', all + {name}, n, db)
    requires name !in all && forall m :: m in all ==> !Older(name, m, db)
    ensures kept' == kept + {name}
  {
    assert |all + {name}| == |all| + 1;
    OlderIsStrictOrder(name, name, name, db);
    NewestIsKept(kept', all + {name}, n, name, db);
    var rest := kept' - {name};
    assert |rest| == |kept'| - 1;
    NewestIsUnique(rest, kept, all, n - 1, db);
  }

  lemma NewestIsKept(kept: set<string>, all: set<string>, n: nat, name: string, db: string)
    requires n > 0 && IsNewest(kept, all, n, db) && name in all
    requires forall m :: m in all ==> !Older(name, m, db)
    ensures name in kept
  {
    SubsetIsSmaller({name}, all);
    assert kept != {};
    var a :| a in kept;
    assert name !in kept ==> Older(name, a, db);
  }

  /** Without the newest of all, one fewer of the others are as new. */
  lemma NewestWithoutLast(kept: set<string>, all: set<string>, n: nat, name: string, db: string)
    requires n > 0 && IsNewest(kept, all, n, db) && name in all
    requires forall m :: m in all ==> !Older(name, m, db)
    ensures name in kept && IsNewest(kept - {name}, all - {name}, n - 1, db)
  {
    NewestIsKept(kept, all, n, name, db);
  }

  /** The fewer newest are among the more. */
  lemma FewerNewest(fewer: set<string>, more: set<string>, all: set<string>, m: nat, n: nat, db: string)
    requires m <= n && IsNewest(fewer, all, m, db) && IsNewest(more, all, n, db)
    ensures fewer <= more
  {
    if a :| a in fewer && a !in more {
      assert |more + {a}| == |more| + 1;
      SubsetIsSmaller(more + {a}, all);
      forall b | b in more
        ensures b in fewer
      {
        OlderIsStrictOrder(a, b, a, db);
      }
      SubsetIsSmaller(more + {a}, fewer);
    }
  }

  // ---- rotation ---------------------------------------------------------------

  ghost function Elements<T>(s: seq<T>): set<T> {
    set x | x in s
  }

  lemma {:induction false} DistinctHasSize<T>(s: seq<T>)
    requires Distinct(s)
    ensures |Elements(s)| == |s|
    decreases |s|
  {
    if s != [] {
      DistinctHasSize(s[1..]);
      assert Elements(s) == {s[0]} + Elements(s[1..]);
    }
  }

  lemma SameMultisetIsDistinct<T>(s: seq<T>, t: seq<T>)
    requires Distinct(s) && multiset(s) == multiset(t)
    ensures Distinct(t) && Elements(s) == Elements(t)
  {
    forall x
      ensures x in s <==> x in t
    {
      assert x in multiset(s) <==> x in multiset(t);
    }
    forall i, j | 0 <= i < j < |t|
      ensures t[i] != t[j]
    {
      if t[i] == t[j] {
        TwiceInMultiset(t, i, j);
        DistinctIsOnce(s, t[i]);
      }
    }
  }

  lemma TwiceInMultiset<T>(t: seq<T>, i: nat, j: nat)
    requires i < j < |t| && t[i] == t[j]
    ensures multiset(t)[t[i]] >= 2
  {
    assert t == t[..j] + [t[j]] + t[j + 1..];
    assert t[..j][i] in multiset(t[..j]);
  }

  lemma {:induction false} DistinctIsOnce<T>(s: seq<T>, x: T)
    requires Distinct(s)
    ensures multiset(s)[x] <= 1
    decreases |s|
  {
    if s != [] {
      DistinctIsOnce(s[1..], x);
      assert s == [s[0]] + s[1..];
      assert forall i :: 1 <= i < |s| ==> s[i] != s[0];
    }
  }

  function OursIn(names: set<string>, db: string): set<string> {
    set n | n in names && Ours(n, db)
  }

  function Max(a: nat, b: nat): nat {
    if a < b then b else a
  }

  /** The order of the sort: `a` may stand before `b`. */
  function NotNewer(db: string): (string, string) -> bool {
    (a, b) => !Older(b, a, db)
  }

  lemma NotNewerIsTotal(db: string)
    ensures TotalPreorder(NotNewer(db))
  {
    forall a, b, c
      ensures NotNewer(db)(a, b) || NotNewer(db)(b, a)
      ensures NotNewer(db)(a, b) && NotNewer(db)(b, c) ==> NotNewer(db)(a, c)
    {
      var x, y, z := KeyOf(a, db), KeyOf(b, db), KeyOf(c, db);
      BeforeIsStrictOrder(x, y, z);
      BeforeIsStrictOrder(z, x, y);
    }
  }

  ghost predicate Ascending(names: seq<string>, db: string) {
    forall i, j :: 0 <= i < j < |names| ==> Older(names[i], names[j], db)
  }

  lemma SortIsAscending(names: seq<string>, db: string)
    requires Distinct(names) && forall n :: n in names ==> Ours(n, db)
    ensures Ascending(Sort(names, NotNewer(db)), db) && Distinct(Sort(names, NotNewer(db)))
    ensures Elements(Sort(names, NotNewer(db))) == Elements(names)
  {
    var sorted := Sort(names, NotNewer(db));
    NotNewerIsTotal(db);
    SortIsStable(names, NotNewer(db));
    SameMultisetIsDistinct(names, sorted);
    forall i, j | 0 <= i < j < |sorted|
      ensures Older(sorted[i], sorted[j], db)
    {
      assert NotNewer(db)(sorted[i], sorted[j]) && sorted[i] in Elements(sorted) && sorted[j] in Elements(sorted);
      OlderIsStrictOrder(sorted[i], sorted[j], sorted[i], db);
    }
  }

  lemma CutKeepsNewest(sorted: seq<string>, n: nat, db: string)
    requires Distinct(sorted) && Ascending(sorted, db) && n <= |sorted|
    ensures Elements(sorted[..|sorted| - n]) <= Elements(sorted)
    ensures IsNewest(Elements(sorted) - Elements(sorted[..|sorted| - n]), Elements(sorted), n, db)
  {
    var cut := |sorted| - n;
    var gone, kept := Elements(sorted[..cut]), Elements(sorted[cut..]);
    assert sorted == sorted[..cut] + sorted[cut..];
    assert Elements(sorted) - gone == kept;
    DistinctHasSize(sorted[cut..]);
    DistinctHasSize(sorted);
  }

  ghost predicate SomePanics(names: seq<string>, db: string) {
    exists n :: n in names && ParseDumpKey(n, db).Panics?
  }

  /** Our own dumps among the files of a directory; `None` if a name makes the recogniser panic. */
  method Matching(names: seq<string>, db: string) returns (matching: Option<seq<string>>)
    requires Distinct(names)
    ensures matching.None? <==> SomePanics(names, db)
    ensures matching.Some? ==> Distinct(matching.value) && Elements(matching.value) == OursIn(Elements(names), db)
  {
    var found := [];
    for i := 0 to |names|
      invariant Distinct(found) && forall n :: n in names[..i] ==> !ParseDumpKey(n, db).Panics?
      invariant forall n :: n in found <==> n in names[..i] && Ours(n, db)
    {
      assert names[..i + 1] == names[..i] + [names[i]];
      assert names[i] !in names[..i] && names[i] in names;
      match ParseDumpKey(names[i], db) {
        case Panics => return None;
        case Key(_) => found := found + [names[i]];
        case NotOurs =>
      }
    }
    assert names[..|names|] == names;
    return Some(found);
  }

  /** Which files of one tier directory to delete: never one that is not ours, and exactly
      those that leave the newest `keep` of ours, or the newest one when `keep` is zero. */
  method RotationDeletions(names: seq<string>, db: string, keep: nat) returns (deleted: Option<seq<string>>)
    requires Distinct(names)
    ensures deleted.None? <==> SomePanics(names, db)
    ensures deleted.Some? ==>
              var ours := OursIn(Elements(names), db);
              && Elements(deleted.value) <= ours
              && IsNewest(ours - Elements(deleted.value), ours, if keep == 0 then 1 else keep, db)
  {
    var matching := Matching(names, db);
    if matching.None? {
      return None;
    }
    var sorted := Sort(matching.value, NotNewer(db));
    assert forall n :: n in matching.value ==> n in Elements(matching.value);
    SortIsAscending(matching.value, db);
    var kept := Max(keep, 1);
    if |sorted| <= kept {
      DistinctHasSize(sorted);
      assert Elements(sorted) - Elements([]) == Elements(sorted);
      return Some([]);
    } else {
      CutKeepsNewest(sorted, kept, db);
      return Some(sorted[..|sorted| - kept]);
    }
  }
}
