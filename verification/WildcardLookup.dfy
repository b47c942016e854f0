/**
 Pattern lookup by shortening a name, as http/HostMapper.cpp, http/Host.cpp and mime/MIMEModule.cpp each write it
 out, against "the most specific pattern wins".
 */
module WildcardLookup {
  import opened Bytes

  /** std::string::find("."): the first dot at or behind from, or -1 (npos). */
  function FindDot(s: string, from: nat): (i: int)
    ensures i == -1 || (from <= i < |s| && s[i] == '.')
    ensures forall j | from <= j < (if i == -1 then |s| else i) :: s[j] != '.'
    decreases |s| - from
  {
    if from >= |s| then -1 else if s[from] == '.' then from else FindDot(s, from + 1)
  }

  /** The key the loops go on with after key. */
  function NextKey(key: string): string
    requires key != ""
  {
    var idot := FindDot(key, if key[0] == '*' then 2 else 0);
    if idot == -1 then "*" else "*" + key[idot..]
  }

  datatype Outcome<+V> = Found(value: V) | NoMatch | Bailout

  function Search<V>(m: map<string, V>, key: string, tries: nat): Outcome<V>
    decreases tries, key
  {
    if tries == 0 then Bailout
    else if key in m then Found(m[key])
    else if key == "" || key == "*" then NoMatch
    else Search(m, NextKey(key), tries - 1)
  }

  /** What all three loops answer: they look up at most 99 keys. */
  function Looked<V>(m: map<string, V>, name: string): Outcome<V> {
    Search(m, name, 99)
  }

  lemma LookedStarts<V>(m: map<string, V>, name: string)
    ensures Looked(m, name) == Search(m, name, 99)
  {
  }

  lemma SearchStep<V>(m: map<string, V>, key: string, tries: nat)
    ensures Search(m, key, tries) ==
            if tries == 0 then Bailout
            else if key in m then Found(m[key])
            else if key == "" || key == "*" then NoMatch
            else Search(m, NextKey(key), tries - 1)
  {
  }

  // The specification: wildcards are "*" followed by a suffix of the name that starts with a dot, and "*" itself.

  /** A wildcard may stand for what precedes the dot at i; the dot of a leading "*." counts as part of the name. */
  predicate IsCut(name: string, i: int) {
    0 <= i < |name| && name[i] == '.' && (name[0] == '*' ==> i >= 2)
  }

  function Cuts(name: string, from: nat): nat
    decreases |name| - from
  {
    if from >= |name| then 0 else (if IsCut(name, from) then 1 else 0) + Cuts(name, from + 1)
  }

  function Wildcard(name: string, i: nat): string
    requires i <= |name|
  {
    "*" + name[i..]
  }

  ghost predicate Mapped<V>(m: map<string, V>, name: string, i: int) {
    IsCut(name, i) && Wildcard(name, i) in m
  }

  /** r is what the most specific pattern for name maps to. */
  ghost predicate MostSpecific<V>(m: map<string, V>, name: string, r: Option<V>) {
    if name in m then r == Some(m[name])
    else if exists i :: Mapped(m, name, i) then
      exists i :: Mapped(m, name, i) && (forall j | 0 <= j < i :: !Mapped(m, name, j))
                  && r == Some(m[Wildcard(name, i)])
    else if name != "" && "*" in m then r == Some(m["*"])
    else r == None
  }

  ghost predicate Answers<V>(m: map<string, V>, name: string, o: Outcome<V>) {
    match o
    case Found(v) => MostSpecific(m, name, Some(v))
    case NoMatch => MostSpecific<V>(m, name, None)
    case Bailout => false
  }

  method HostMapperLookup(m: map<string, string>, pattern: string, was: string) returns (found: bool, result: string)
    ensures found == Looked(m, pattern).Found?
    ensures result == if found then Looked(m, pattern).value else was
  {
    result := was;
    hide Search, Looked, FindDot;
    var bailout := 100 - 1;
    var key := pattern;
    LookedStarts(m, key);
    while bailout > 0
      invariant bailout >= 0 && Search(m, key, bailout) == Looked(m, pattern)
    {
      SearchStep(m, key, bailout);
      if key in m {
        return true, m[key];
      }
      if |key| <= 0 || key == "*" {
        return false, was;
      }
      var idot := FindDot(key, if key[0] == '*' then 2 else 0);
      if idot == -1 {
        key := "*";
      } else {
        key := "*" + key[idot..];
      }
      bailout := bailout - 1;
    }
    SearchStep(m, key, bailout);
    return false, was;
  }

  /** None stands for the null handler map. */
  method HostLookupExtnMap<V>(extnMods: map<string, V>, name: string) returns (r: Option<V>)
    ensures r == if Looked(extnMods, name).Found? then Some(Looked(extnMods, name).value) else None
  {
    hide Search, Looked, FindDot;
    var bailout := 100 - 1;
    var key := name;
    LookedStarts(extnMods, key);
    while bailout > 0
      invariant bailout >= 0 && Search(extnMods, key, bailout) == Looked(extnMods, name)
    {
      SearchStep(extnMods, key, bailout);
      if key in extnMods {
        return Some(extnMods[key]);
      }
      if |key| <= 0 || key == "*" {
        return None;
      }
      var idot := FindDot(key, if key[0] == '*' then 2 else 0);
      if idot == -1 {
        key := "*";
      } else {
        key := "*" + key[idot..];
      }
      bailout := bailout - 1;
    }
    SearchStep(extnMods, key, bailout);
    return None;
  }

  datatype MimeAnswer = MimeType(name: string) | ScriptError

  /** The map and the lookup, add and remove methods of the MIME module. */
  class MimeModule {
    var mimemap: map<string, string>

    constructor ()
      ensures mimemap == map[]
    {
      mimemap := map[];
    }

    method Add(pattern: string, mimeType: string)
      modifies this
      ensures mimemap == old(mimemap)[pattern := mimeType]
      ensures forall name | Cuts(name, 0) <= 97 ::
                Looked(mimemap, name) == if Matches(name, pattern) && !Shadowed(old(mimemap), name, pattern)
                                         then Found(mimeType) else Looked(old(mimemap), name)
    {
      hide Looked, Matches, Shadowed, Cuts;
      forall name | Cuts(name, 0) <= 97
        ensures Looked(mimemap[pattern := mimeType], name)
                == if Matches(name, pattern) && !Shadowed(mimemap, name, pattern)
                   then Found(mimeType) else Looked(mimemap, name)
      {
        AddedIsFound(mimemap, pattern, mimeType, name);
      }
      mimemap := mimemap[pattern := mimeType];
    }

    method Remove(pattern: string)
      modifies this
      ensures mimemap == old(mimemap) - {pattern}
      ensures forall name | Cuts(name, 0) <= 97 ::
                Looked(old(mimemap), name) ==
                if pattern in old(mimemap) && Matches(name, pattern) && !Shadowed(mimemap, name, pattern)
                then Found(old(mimemap)[pattern]) else Looked(mimemap, name)
    {
      hide Looked, Matches, Shadowed, Cuts;
      ghost var rest := mimemap - {pattern};
      forall name | Cuts(name, 0) <= 97
        ensures Looked(mimemap, name) ==
                if pattern in mimemap && Matches(name, pattern) && !Shadowed(rest, name, pattern)
                then Found(mimemap[pattern]) else Looked(rest, name)
      {
        if pattern in mimemap {
          assert rest[pattern := mimemap[pattern]] == mimemap;
          AddedIsFound(rest, pattern, mimemap[pattern], name);
        } else {
          assert rest == mimemap;
        }
      }
      mimemap := mimemap - {pattern};
    }

    method Lookup(filename: string) returns (r: MimeAnswer)
      ensures r == match Looked(mimemap, filename)
                   case Found(t) => MimeType(t)
                   case NoMatch => MimeType("")
                   case Bailout => ScriptError
    {
      var key := filename;
      hide Search, Looked, FindDot;
      var bailout := 100 - 1;
      LookedStarts(mimemap, key);
      while bailout > 0
        invariant bailout >= 0 && Search(mimemap, key, bailout) == Looked(mimemap, filename)
      {
        SearchStep(mimemap, key, bailout);
        if key in mimemap {
          return MimeType(mimemap[key]);
        }
        if |key| <= 0 || key == "*" {
          return MimeType("");
        }
        var idot := FindDot(key, if key[0] == '*' then 2 else 0);
        if idot == -1 {
          key := "*";
        } else {
          key := "*" + key[idot..];
        }
        bailout := bailout - 1;
      }
      SearchStep(mimemap, key, bailout);
      return ScriptError;
    }
  }

  /** The first cut at or behind from, or |name|. */
  function FirstCut(name: string, from: nat): (i: nat)
    requires from <= |name|
    ensures from <= i <= |name| && (i < |name| ==> IsCut(name, i))
    ensures forall j | from <= j < i :: !IsCut(name, j)
    ensures Cuts(name, from) == if i == |name| then 0 else 1 + Cuts(name, i + 1)
    decreases |name| - from
  {
    if from == |name| || IsCut(name, from) then from else FirstCut(name, from + 1)
  }

  /** The key for the cut at i; |name| stands for the bare "*". */
  function KeyAt(name: string, i: nat): string
    requires i <= |name|
  {
    Wildcard(name, i)
  }

  lemma NextOfName(name: string)
    requires name != ""
    ensures NextKey(name) == KeyAt(name, FirstCut(name, 0))
  {
    var from := if name[0] == '*' then 2 else 0;
    var i, dot := FirstCut(name, 0), FindDot(name, from);
    assert forall j | 0 <= j < |name| && j < from :: !IsCut(name, j);
    if dot == -1 {
      assert i == |name|;
      assert name[i..] == "";
    } else {
      assert IsCut(name, dot);
    }
  }

  lemma NextOfKey(name: string, i: nat)
    requires IsCut(name, i)
    ensures NextKey(KeyAt(name, i)) == KeyAt(name, FirstCut(name, i + 1))
  {
    var key := KeyAt(name, i);
    var dot, next := FindDot(key, 2), FirstCut(name, i + 1);
    assert forall k | 1 <= k < |key| :: key[k] == name[i + k - 1];
    assert forall j | i < j < |name| && IsCut(name, j) :: key[j - i + 1] == '.' && j - i + 1 >= 2;
    assert forall k | 2 <= k < |key| && key[k] == '.' :: IsCut(name, i + k - 1);
    if dot == -1 {
      assert name[|name|..] == "";
    } else {
      assert key[dot..] == name[next..];
    }
  }

  lemma StarIsMostSpecific<V>(m: map<string, V>, name: string)
    requires name !in m && name != "" && forall j | 0 <= j < |name| :: !Mapped(m, name, j)
    ensures MostSpecific(m, name, if "*" in m then Some(m["*"]) else None)
  {
  }

  lemma FirstCutIsMostSpecific<V>(m: map<string, V>, name: string, i: nat)
    requires name !in m && Mapped(m, name, i) && forall j | 0 <= j < i :: !Mapped(m, name, j)
    ensures MostSpecific(m, name, Some(m[KeyAt(name, i)]))
  {
  }

  lemma NoCutBetween<V>(m: map<string, V>, name: string, i: nat)
    requires i < |name| && forall j | 0 <= j <= i :: !Mapped(m, name, j)
    ensures forall j | 0 <= j < FirstCut(name, i + 1) :: !Mapped(m, name, j)
  {
  }

  /** Behind the name itself, the loop finds the first mapped cut, if its tries reach that far. */
  lemma {:induction false} SearchCuts<V>(m: map<string, V>, name: string, i: nat, tries: nat)
    requires i <= |name| && (i < |name| ==> IsCut(name, i))
    requires name !in m && name != "" && forall j | 0 <= j < i :: !Mapped(m, name, j)
    ensures var o := Search(m, KeyAt(name, i), tries);
            if o.Bailout? then tries <= Cuts(name, i) else Answers(m, name, o)
    decreases |name| - i
  {
    hide MostSpecific, Search, NextKey;
    var key := KeyAt(name, i);
    SearchStep(m, key, tries);
    if i == |name| {
      assert key == "*";
      StarIsMostSpecific(m, name);
    } else if tries > 0 && key in m {
      FirstCutIsMostSpecific(m, name, i);
    } else if tries > 0 {
      assert key != "*" by { assert |key| > 1; }
      NextOfKey(name, i);
      NoCutBetween(m, name, i);
      SearchCuts(m, name, FirstCut(name, i + 1), tries - 1);
    }
  }

  /** Whatever a lookup answers before it bails out is the most specific pattern's value. */
  lemma LookedIsMostSpecific<V>(m: map<string, V>, name: string)
    ensures if Looked(m, name).Bailout? then Cuts(name, 0) > 97 else Answers(m, name, Looked(m, name))
  {
    if name !in m && name != "" && name != "*" {
      NextOfName(name);
      SearchCuts(m, name, FirstCut(name, 0), 98);
    }
  }

  lemma {:induction false} SearchMissesStar<V>(v: V, name: string, i: nat, tries: nat)
    requires IsCut(name, i) && tries <= Cuts(name, i)
    ensures Search(map["*" := v], KeyAt(name, i), tries).Bailout?
    decreases tries
  {
    hide Search, NextKey;
    SearchStep(map["*" := v], KeyAt(name, i), tries);
    if tries > 0 {
      assert |KeyAt(name, i)| > 1;
      NextOfKey(name, i);
      var next := FirstCut(name, i + 1);
      if next < |name| {
        SearchMissesStar(v, name, next, tries - 1);
      } else {
        SearchStep(map["*" := v], KeyAt(name, next), tries - 1);
      }
    }
  }

  /** The loops let the most specific pattern win, whatever the map, exactly for names with at most 97 cuts. */
  lemma MostSpecificWins<V(!new)>(name: string, v: V)
    ensures (forall m: map<string, V> :: Answers(m, name, Looked(m, name))) <==> Cuts(name, 0) <= 97
  {
    if Cuts(name, 0) <= 97 {
      forall m: map<string, V>
        ensures Answers(m, name, Looked(m, name))
      {
        LookedIsMostSpecific(m, name);
      }
    } else {
      var m := map["*" := v];
      var i := FirstCut(name, 0);
      assert |name| > 1;
      NextOfName(name);
      SearchMissesStar(v, name, i, 98);
      assert !Answers(m, name, Looked(m, name));
    }
  }

  /** There is only one most specific answer. */
  lemma MostSpecificIsUnique<V>(m: map<string, V>, name: string, a: Option<V>, b: Option<V>)
    requires MostSpecific(m, name, a) && MostSpecific(m, name, b)
    ensures a == b
  {
  }

  // What adding a pattern changes

  /** The pattern is one of those that stand for name. */
  ghost predicate Matches(name: string, pattern: string) {
    pattern == name || (pattern == "*" && name != "") || exists i :: IsCut(name, i) && pattern == Wildcard(name, i)
  }

  /** The map holds a pattern for name that is more specific than the one given. */
  ghost predicate Shadowed<V>(m: map<string, V>, name: string, pattern: string) {
    pattern != name && (name in m || exists i :: Mapped(m, name, i) && |Wildcard(name, i)| > |pattern|)
  }

  function Answer<V>(o: Outcome<V>): Option<V> {
    if o.Found? then Some(o.value) else None
  }

  lemma NewIsMostSpecific<V>(m: map<string, V>, pattern: string, v: V, name: string)
    requires Matches(name, pattern) && !Shadowed(m, name, pattern)
    ensures MostSpecific(m[pattern := v], name, Some(v))
  {
    var m' := m[pattern := v];
    if name != pattern {
      if i :| IsCut(name, i) && pattern == Wildcard(name, i) {
        assert Mapped(m', name, i);
        forall j | 0 <= j < i
          ensures !Mapped(m', name, j)
        {
          assert |Wildcard(name, j)| > |pattern|;
        }
      } else {
        forall j
          ensures !Mapped(m', name, j)
        {
          if IsCut(name, j) {
            assert |Wildcard(name, j)| > |pattern|;
          }
        }
      }
    }
  }

  /** A cut that is mapped only because its pattern has been added has a mapped one before it. */
  lemma NewCutIsShadowed<V>(m: map<string, V>, pattern: string, v: V, name: string, j: int)
    requires Matches(name, pattern) ==> Shadowed(m, name, pattern)
    requires name !in m && Mapped(m[pattern := v], name, j) && (!Mapped(m, name, j) || Wildcard(name, j) == pattern)
    ensures exists i :: Mapped(m, name, i) && i < j
  {
    assert Wildcard(name, j) == pattern;
    assert Matches(name, pattern);
    var i :| Mapped(m, name, i) && |Wildcard(name, i)| > |pattern|;
  }

  lemma OldIsMostSpecific<V>(m: map<string, V>, pattern: string, v: V, name: string, r: Option<V>)
    requires Matches(name, pattern) ==> Shadowed(m, name, pattern)
    requires MostSpecific(m, name, r)
    ensures MostSpecific(m[pattern := v], name, r)
  {
    hide Shadowed;
    var m' := m[pattern := v];
    if pattern == name {
      NotShadowed(m, pattern, name);
    }
    if name !in m {
      if exists i :: Mapped(m, name, i) {
        var i :| Mapped(m, name, i) && (forall j | 0 <= j < i :: !Mapped(m, name, j))
                 && r == Some(m[Wildcard(name, i)]);
        assert Mapped(m', name, i);
        if Wildcard(name, i) == pattern {
          NewCutIsShadowed(m, pattern, v, name, i);
        }
        forall j | 0 <= j < i
          ensures !Mapped(m', name, j)
        {
          if Mapped(m', name, j) {
            NewCutIsShadowed(m, pattern, v, name, j);
          }
        }
      } else {
        forall j
          ensures !Mapped(m', name, j)
        {
          if Mapped(m', name, j) {
            NewCutIsShadowed(m, pattern, v, name, j);
          }
        }
        if pattern == "*" {
          NotShadowed(m, pattern, name);
        }
      }
    }
  }

  lemma NotShadowed<V>(m: map<string, V>, pattern: string, name: string)
    requires pattern == name || (name !in m && forall i :: !Mapped(m, name, i))
    ensures !Shadowed(m, name, pattern)
  {
  }

  /** A pattern added is what is found for the names it stands for, unless the map holds a more specific one. */
  lemma AddedIsFound<V>(m: map<string, V>, pattern: string, v: V, name: string)
    requires Cuts(name, 0) <= 97
    ensures Looked(m[pattern := v], name)
            == if Matches(name, pattern) && !Shadowed(m, name, pattern) then Found(v) else Looked(m, name)
  {
    hide Looked, Search, MostSpecific, Matches, Shadowed;
    var m' := m[pattern := v];
    LookedIsMostSpecific(m, name);
    LookedIsMostSpecific(m', name);
    if Matches(name, pattern) && !Shadowed(m, name, pattern) {
      NewIsMostSpecific(m, pattern, v, name);
      MostSpecificIsUnique(m', name, Answer(Looked(m', name)), Some(v));
    } else {
      OldIsMostSpecific(m, pattern, v, name, Answer(Looked(m, name)));
      MostSpecificIsUnique(m', name, Answer(Looked(m', name)), Answer(Looked(m, name)));
    }
  }
}
