/** Matching a camera's reported make and model against the compatibility database. */
module CameraMatch {
  import opened Basics
  import opened Options
  import opened Wildcard

  datatype MatchBlock = MatchBlock(make: string, makeAliases: seq<string>, models: seq<string>, modelGlobs: seq<string>)
  datatype CompatEntry = CompatEntry(make: string, model: string, matchBlock: Option<MatchBlock>)
  datatype MatchLevel = Identified | Possible | NoMatch
  datatype CompatMatch = CompatMatch(level: MatchLevel, entry: Option<CompatEntry>)

  function Lower(c: char): char {
    if 'A' <= c <= 'Z' then (c as int + 32) as char else c
  }

  function Normalize(s: string): string {
    if s == "" then ""
    else if IsAlphanumeric(s[0]) then [Lower(s[0])] + Normalize(s[1..])
    else Normalize(s[1..])
  }

  function GlobNormalize(s: string): string {
    if s == "" then ""
    else if IsAlphanumeric(s[0]) || s[0] == '*' then [Lower(s[0])] + GlobNormalize(s[1..])
    else GlobNormalize(s[1..])
  }

  lemma {:induction false} NormalizeSplits(s: string, t: string)
    ensures Normalize(s + t) == Normalize(s) + Normalize(t)
    decreases |s|
  {
    if s == "" {
      assert s + t == t;
    } else {
      assert (s + t)[1..] == s[1..] + t;
      NormalizeSplits(s[1..], t);
    }
  }

  lemma {:induction false} NormalizeIsIdempotent(s: string)
    ensures Normalize(Normalize(s)) == Normalize(s)
    ensures GlobNormalize(GlobNormalize(s)) == GlobNormalize(s)
    ensures '*' !in Normalize(s)
    decreases |s|
  {
    if s != "" {
      NormalizeIsIdempotent(s[1..]);
      var c := Lower(s[0]);
      assert ([c] + Normalize(s[1..]))[1..] == Normalize(s[1..]);
      assert ([c] + GlobNormalize(s[1..]))[1..] == GlobNormalize(s[1..]);
    }
  }

  // ---- what normalising keeps and forgets -------------------------------------

  /** The letters and digits of a name, as they are written. */
  function LettersAndDigits(s: string): string {
    if s == "" then ""
    else
      (if 'a' <= s[0] <= 'z' || 'A' <= s[0] <= 'Z' || '0' <= s[0] <= '9' then [s[0]] else [])
      + LettersAndDigits(s[1..])
  }

  /** The same character, or the small and the capital form of one letter. */
  predicate SameButCase(c: char, d: char) {
    || c == d
    || ('a' <= c <= 'z' && 'A' <= d <= 'Z' && c as int - d as int == 'a' as int - 'A' as int)
    || ('A' <= c <= 'Z' && 'a' <= d <= 'z' && d as int - c as int == 'a' as int - 'A' as int)
  }

  predicate AgreeButCase(a: string, b: string) {
    |a| == |b| && forall i :: 0 <= i < |a| ==> SameButCase(a[i], b[i])
  }

  /** A normalised name has the letters and digits of the name and no capitals. */
  lemma {:induction false} NormalizeKeeps(s: string)
    ensures AgreeButCase(Normalize(s), LettersAndDigits(s))
    ensures forall i :: 0 <= i < |Normalize(s)| ==> !('A' <= Normalize(s)[i] <= 'Z')
    decreases |s|
  {
    if s != "" {
      NormalizeKeeps(s[1..]);
    }
  }

  /** Two names normalise alike exactly if their letters and digits agree but for case. */
  lemma NormalizeAlike(s: string, t: string)
    ensures Normalize(s) == Normalize(t) <==> AgreeButCase(LettersAndDigits(s), LettersAndDigits(t))
  {
    NormalizeKeeps(s);
    NormalizeKeeps(t);
    LoweredAlike(Normalize(s), LettersAndDigits(s), Normalize(t), LettersAndDigits(t));
  }

  lemma LoweredAlike(x: string, a: string, y: string, b: string)
    requires AgreeButCase(x, a) && AgreeButCase(y, b)
    requires forall i :: 0 <= i < |x| ==> !('A' <= x[i] <= 'Z')
    requires forall i :: 0 <= i < |y| ==> !('A' <= y[i] <= 'Z')
    ensures x == y <==> AgreeButCase(a, b)
  {
    if |x| == |y| {
      forall i | 0 <= i < |x|
        ensures x[i] == y[i] <==> SameButCase(a[i], b[i])
      {
        LoweredSame(x[i], a[i], y[i], b[i]);
      }
    }
  }

  lemma LoweredSame(c: char, a: char, d: char, b: char)
    requires SameButCase(c, a) && SameButCase(d, b) && !('A' <= c <= 'Z') && !('A' <= d <= 'Z')
    ensures c == d <==> SameButCase(a, b)
  {
  }

  /** A glob is normalised piece by piece: its stars stay, and what stands between them is
      normalised like a name. */
  lemma {:induction false} GlobNormalizeSplits(front: string, rest: string)
    requires '*' !in front
    ensures GlobNormalize(front) == Normalize(front)
    ensures GlobNormalize(front + "*" + rest) == Normalize(front) + "*" + GlobNormalize(rest)
    decreases |front|
  {
    if front == "" {
      assert front + "*" + rest == "*" + rest && ("*" + rest)[1..] == rest;
    } else {
      GlobNormalizeSplits(front[1..], rest);
      assert (front + "*" + rest)[1..] == front[1..] + "*" + rest;
    }
  }

  /** Normalising both sides never loses a match the raw strings had. */
  lemma {:induction false} NormalizingKeepsMatches(glob: string, text: string)
    requires Matches(glob, text)
    ensures Matches(GlobNormalize(glob), Normalize(text))
    decreases |glob|
  {
    if glob != "" {
      var g := GlobNormalize(glob[1..]);
      assert ([Lower(glob[0])] + g)[1..] == g;
      if glob[0] == '*' {
        var k :| 0 <= k <= |text| && Matches(glob[1..], text[k..]);
        NormalizingKeepsMatches(glob[1..], text[k..]);
        NormalizeSplits(text[..k], text[k..]);
        assert text[..k] + text[k..] == text;
        assert Normalize(text)[|Normalize(text[..k])|..] == Normalize(text[k..]);
      } else {
        NormalizingKeepsMatches(glob[1..], text[1..]);
        assert ([Lower(text[0])] + Normalize(text[1..]))[1..] == Normalize(text[1..]);
      }
    }
  }

  ghost predicate MakeHit(m: MatchBlock, makeN: string) {
    Normalize(m.make) == makeN || exists a :: a in m.makeAliases && Normalize(a) == makeN
  }

  ghost predicate ModelHit(m: MatchBlock, modelN: string) {
    && modelN != ""
    && ((exists s :: s in m.models && Normalize(s) == modelN)
        || exists g :: g in m.modelGlobs && Matches(GlobNormalize(g), modelN))
  }

  /** A model the raw glob already matched is a hit, unless nothing of it survives
      normalising. */
  lemma RawGlobMatchIsAHit(m: MatchBlock, glob: string, model: string)
    requires glob in m.modelGlobs && Matches(glob, model)
    ensures ModelHit(m, Normalize(model)) <==> Normalize(model) != ""
  {
    NormalizingKeepsMatches(glob, model);
  }

  method AnyNormalizesTo(names: seq<string>, n: string) returns (found: bool)
    ensures found <==> exists s :: s in names && Normalize(s) == n
  {
    for i := 0 to |names|
      invariant forall k :: 0 <= k < i ==> Normalize(names[k]) != n
    {
      if Normalize(names[i]) == n {
        assert names[i] in names;
        return true;
      }
    }
    return false;
  }

  method ComputeMakeHit(m: MatchBlock, makeN: string) returns (hit: bool)
    ensures hit <==> MakeHit(m, makeN)
  {
    if Normalize(m.make) == makeN {
      return true;
    }
    hit := AnyNormalizesTo(m.makeAliases, makeN);
  }

  method ComputeModelHit(m: MatchBlock, modelN: string) returns (hit: bool)
    requires '*' !in modelN
    ensures hit <==> ModelHit(m, modelN)
  {
    if modelN == "" {
      return false;
    }
    var listed := AnyNormalizesTo(m.models, modelN);
    if listed {
      return true;
    }
    for i := 0 to |m.modelGlobs|
      invariant forall k :: 0 <= k < i ==> !Matches(GlobNormalize(m.modelGlobs[k]), modelN)
    {
      var found := GlobMatches(GlobNormalize(m.modelGlobs[i]), modelN);
      if found {
        return true;
      }
    }
    return false;
  }

  function NormalizeOptional(s: Option<string>): string {
    if s.Some? then Normalize(s.value) else ""
  }

  ghost predicate EntryMakeHit(e: CompatEntry, makeN: string) {
    e.matchBlock.Some? && MakeHit(e.matchBlock.value, makeN)
  }

  ghost predicate EntryHit(e: CompatEntry, makeN: string, modelN: string) {
    EntryMakeHit(e, makeN) && ModelHit(e.matchBlock.value, modelN)
  }

  /** What the answer says about the database, in terms of the normalised names only. */
  ghost predicate Answers(r: CompatMatch, db: seq<CompatEntry>, makeN: string, modelN: string) {
    var hit := exists i :: 0 <= i < |db| && EntryHit(db[i], makeN, modelN);
    var known := exists i :: 0 <= i < |db| && EntryMakeHit(db[i], makeN);
    match r.level
    case Identified =>
      && makeN != "" && r.entry.Some?
      && exists i :: 0 <= i < |db| && r.entry.value == db[i] && EntryHit(db[i], makeN, modelN)
                     && forall k :: 0 <= k < i ==> !EntryHit(db[k], makeN, modelN)
    case Possible => makeN != "" && r.entry.None? && !hit && known
    case NoMatch => r.entry.None? && (makeN == "" || !known)
  }

  /** The answer is a function of the database and the normalised names: spelling, case
      and punctuation of what the camera reports cannot change it. */
  lemma AnswerIsUnique(r: CompatMatch, r': CompatMatch, db: seq<CompatEntry>, makeN: string, modelN: string)
    requires Answers(r, db, makeN, modelN) && Answers(r', db, makeN, modelN)
    ensures r == r'
  {
    if r.level == Identified && r'.level == Identified {
      var i :| 0 <= i < |db| && r.entry.value == db[i] && EntryHit(db[i], makeN, modelN)
               && forall k :: 0 <= k < i ==> !EntryHit(db[k], makeN, modelN);
      var j :| 0 <= j < |db| && r'.entry.value == db[j] && EntryHit(db[j], makeN, modelN)
               && forall k :: 0 <= k < j ==> !EntryHit(db[k], makeN, modelN);
      assert i == j;
    }
  }

  /** So a maker in the database, by name or by alias, together with a model one of its raw globs matches is
      always identified, however either string is spelled. */
  lemma RawMatchIdentifies(r: CompatMatch, db: seq<CompatEntry>, e: CompatEntry, glob: string, make: string,
                           model: string)
    requires Answers(r, db, Normalize(make), Normalize(model))
    requires e in db && e.matchBlock.Some? && glob in e.matchBlock.value.modelGlobs
    requires MakeHit(e.matchBlock.value, Normalize(make)) && Normalize(make) != ""
    requires Matches(glob, model) && Normalize(model) != ""
    ensures r.level == Identified
  {
    RawGlobMatchIsAHit(e.matchBlock.value, glob, model);
    assert EntryHit(e, Normalize(make), Normalize(model));
  }

  // ---- the answer, in terms of what the camera reports ------------------------

  /** The entry's maker or one of its aliases is spelled like `make`, but for case and
      punctuation. */
  ghost predicate NamesMake(m: MatchBlock, make: string) {
    || AgreeButCase(LettersAndDigits(m.make), LettersAndDigits(make))
    || exists a :: a in m.makeAliases && AgreeButCase(LettersAndDigits(a), LettersAndDigits(make))
  }

  /** One of its models is, or one of its globs matches. */
  ghost predicate NamesModel(m: MatchBlock, model: string) {
    && LettersAndDigits(model) != ""
    && ((exists s :: s in m.models && AgreeButCase(LettersAndDigits(s), LettersAndDigits(model)))
        || exists g :: g in m.modelGlobs && Matches(GlobNormalize(g), Normalize(model)))
  }

  lemma MakeHitExactly(m: MatchBlock, make: string)
    ensures MakeHit(m, Normalize(make)) <==> NamesMake(m, make)
  {
    NormalizeAlike(m.make, make);
    forall a | a in m.makeAliases
      ensures Normalize(a) == Normalize(make) <==> AgreeButCase(LettersAndDigits(a), LettersAndDigits(make))
    {
      NormalizeAlike(a, make);
    }
  }

  lemma ModelHitExactly(m: MatchBlock, model: string)
    ensures ModelHit(m, Normalize(model)) <==> NamesModel(m, model)
  {
    NormalizeKeeps(model);
    forall s | s in m.models
      ensures Normalize(s) == Normalize(model) <==> AgreeButCase(LettersAndDigits(s), LettersAndDigits(model))
    {
      NormalizeAlike(s, model);
    }
  }

  ghost predicate Names(e: CompatEntry, make: string, model: string) {
    e.matchBlock.Some? && NamesMake(e.matchBlock.value, make) && NamesModel(e.matchBlock.value, model)
  }

  lemma EntryHitExactly(e: CompatEntry, make: string, model: string)
    ensures EntryMakeHit(e, Normalize(make)) <==> e.matchBlock.Some? && NamesMake(e.matchBlock.value, make)
    ensures EntryHit(e, Normalize(make), Normalize(model)) <==> Names(e, make, model)
  {
    if e.matchBlock.Some? {
      MakeHitExactly(e.matchBlock.value, make);
      ModelHitExactly(e.matchBlock.value, model);
    }
  }

  /** A camera is identified as the first entry that names its maker and its model; it is not
      known at all exactly if no entry names its maker, or its maker has no letter or digit. */
  lemma AnswerExactly(r: CompatMatch, db: seq<CompatEntry>, make: string, model: string)
    requires Answers(r, db, Normalize(make), Normalize(model))
    ensures r.level == Identified <==>
      LettersAndDigits(make) != "" && exists i :: 0 <= i < |db| && Names(db[i], make, model)
    ensures r.level == Identified ==>
      exists i :: 0 <= i < |db| && r.entry == Some(db[i]) && Names(db[i], make, model)
                  && forall k :: 0 <= k < i ==> !Names(db[k], make, model)
    ensures r.level == NoMatch <==>
      LettersAndDigits(make) == ""
      || forall i :: 0 <= i < |db| && db[i].matchBlock.Some? ==> !NamesMake(db[i].matchBlock.value, make)
  {
    NormalizeKeeps(make);
    forall i | 0 <= i < |db|
      ensures EntryMakeHit(db[i], Normalize(make)) <==> db[i].matchBlock.Some? && NamesMake(db[i].matchBlock.value, make)
      ensures EntryHit(db[i], Normalize(make), Normalize(model)) <==> Names(db[i], make, model)
    {
      EntryHitExactly(db[i], make, model);
    }
  }

  method MatchCamera(db: seq<CompatEntry>, make: Option<string>, model: Option<string>) returns (r: CompatMatch)
    ensures Answers(r, db, NormalizeOptional(make), NormalizeOptional(model))
    ensures r.entry.Some? <==> r.level == Identified
  {
    var makeN := NormalizeOptional(make);
    var modelN := NormalizeOptional(model);
    if model.Some? {
      NormalizeIsIdempotent(model.value);
    }
    if makeN == "" {
      return CompatMatch(NoMatch, None);
    }
    var anyMake := false;
    for i := 0 to |db|
      invariant forall k :: 0 <= k < i ==> !EntryHit(db[k], makeN, modelN)
      invariant anyMake <==> exists k :: 0 <= k < i && EntryMakeHit(db[k], makeN)
    {
      if db[i].matchBlock.Some? {
        var m := db[i].matchBlock.value;
        var makeHit := ComputeMakeHit(m, makeN);
        if makeHit {
          anyMake := true;
          var modelHit := ComputeModelHit(m, modelN);
          if modelHit {
            return CompatMatch(Identified, Some(db[i]));
          }
        }
      }
    }
    return CompatMatch(if anyMake then Possible else NoMatch, None);
  }
}
