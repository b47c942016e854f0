/**
 The article table behind sconesite/Profile.cpp: links are found by walking up from an id, ids by walking down a link.
 */
module Articles {
  import opened Bytes

  /** A row of the article table. The root article has id 1; its own row is never looked at and is left out here. */
  datatype Row = Row(parent: int, path: string)

  type Table = map<int, Row>

  const ROOT := 1

  predicate GoodName(name: string) {
    name != "" && '/' !in name
  }

  /** Walking up from id reaches the root in n steps. */
  predicate Reaches(db: Table, id: int, n: nat)
    decreases n
  {
    if n == 0 then id == ROOT else id != ROOT && id in db && Reaches(db, db[id].parent, n - 1)
  }

  ghost predicate Rooted(db: Table, id: int) {
    exists n: nat :: Reaches(db, id, n)
  }

  ghost predicate NamesAreSet(db: Table) {
    forall id | id in db :: db[id].path != ""
  }

  ghost predicate NamesAreGood(db: Table) {
    forall id | id in db :: GoodName(db[id].path)
  }

  predicate Siblings(db: Table, a: int, b: int) {
    a in db && b in db && db[a].parent == db[b].parent && db[a].path == db[b].path
  }

  /** A table that is a tree below the root, with names that differ between siblings, and that may have slashes. */
  ghost predicate LooseTree(db: Table) {
    && ROOT !in db && NamesAreSet(db)
    && (forall a, b | Siblings(db, a, b) :: a == b)
    && (forall id | id in db :: Rooted(db, id))
  }

  /** The same with good names. */
  ghost predicate Tree(db: Table) {
    LooseTree(db) && NamesAreGood(db)
  }

  predicate Known(db: Table, id: int) {
    id == ROOT || id in db
  }

  lemma {:induction false} ReachesOnce(db: Table, id: int, m: nat, n: nat)
    requires Reaches(db, id, m) && Reaches(db, id, n)
    ensures m == n
    decreases m
  {
    if m > 0 && n > 0 {
      ReachesOnce(db, db[id].parent, m - 1, n - 1);
    }
  }

  ghost function Depth(db: Table, id: int): (n: nat)
    requires Tree(db) && Known(db, id)
    ensures Reaches(db, id, n)
  {
    assert Reaches(db, ROOT, 0);
    var n: nat :| Reaches(db, id, n);
    n
  }

  function LinkUp(db: Table, id: int, n: nat): string
    requires Reaches(db, id, n)
    decreases n
  {
    if n == 0 then "" else LinkUp(db, db[id].parent, n - 1) + db[id].path + "/"
  }

  /** The link that the table gives an article. */
  ghost function LinkOf(db: Table, id: int): string
    requires Tree(db) && Known(db, id)
  {
    LinkUp(db, id, Depth(db, id))
  }

  lemma LinkOfIs(db: Table, id: int, n: nat)
    requires Tree(db) && Reaches(db, id, n)
    ensures Known(db, id) && Depth(db, id) == n && LinkOf(db, id) == LinkUp(db, id, n)
  {
    ReachesOnce(db, id, n, Depth(db, id));
  }

  lemma LinkOfRoot(db: Table)
    requires Tree(db)
    ensures LinkOf(db, ROOT) == ""
  {
  }

  lemma LinkOfChild(db: Table, id: int)
    requires Tree(db) && id in db
    ensures Known(db, db[id].parent)
    ensures Depth(db, id) == Depth(db, db[id].parent) + 1
    ensures LinkOf(db, id) == LinkOf(db, db[id].parent) + db[id].path + "/"
  {
    var n := Depth(db, id);
    LinkOfIs(db, db[id].parent, n - 1);
  }

  // Walking down

  predicate IsChild(db: Table, c: int, id: int, path: string) {
    c in db && db[c] == Row(id, path)
  }

  ghost function Child(db: Table, id: int, path: string): (r: Option<int>)
    ensures r.Some? ==> IsChild(db, r.value, id, path)
    ensures r.None? ==> forall c :: !IsChild(db, c, id, path)
  {
    if c :| IsChild(db, c, id, path) then Some(c) else None
  }

  lemma ChildIs(db: Table, c: int)
    requires LooseTree(db) && c in db
    ensures Child(db, db[c].parent, db[c].path) == Some(c)
  {
    var r := Child(db, db[c].parent, db[c].path);
    assert IsChild(db, c, db[c].parent, db[c].path);
    assert Siblings(db, c, r.value);
  }

  /** The position of the first slash of key, or -1. */
  function FindSlash(key: string): (i: int)
    ensures i == -1 || (0 <= i < |key| && key[i] == '/')
    ensures '/' !in key[..if i == -1 then |key| else i]
  {
    if key == "" then -1 else if key[0] == '/' then 0
    else
      var i := FindSlash(key[1..]);
      assert key == [key[0]] + key[1..];
      assert i >= 0 ==> key[..i + 1] == [key[0]] + key[1..][..i];
      if i == -1 then -1 else i + 1
  }

  function FirstName(key: string): string {
    if FindSlash(key) == -1 then key else key[..FindSlash(key)]
  }

  function RestOfKey(key: string): string {
    if FindSlash(key) == -1 then "" else key[FindSlash(key) + 1..]
  }

  /** Where the walk down from id along key ends: the article, its link, and what is left of key. */
  ghost function Walk(db: Table, id: int, key: string, link: string): (int, string, string)
    requires NamesAreSet(db)
    decreases |key|
  {
    var c := Child(db, id, FirstName(key));
    if c.None? then (id, link, key)
    else
      assert db[c.value].path != "";
      Walk(db, c.value, RestOfKey(key), link + FirstName(key) + "/")
  }

  lemma {:induction false} FirstSlash(key: string, i: nat)
    requires i < |key| && key[i] == '/' && '/' !in key[..i]
    ensures FindSlash(key) == i
  {
  }

  lemma NameThenSlash(name: string, tail: string)
    requires '/' !in name
    ensures FirstName(name + "/" + tail) == name && RestOfKey(name + "/" + tail) == tail
    ensures FindSlash(name + "/" + tail) == |name|
  {
    var key := name + "/" + tail;
    assert key[..|name|] == name;
    FirstSlash(key, |name|);
  }

  lemma TreeMeans(db: Table)
    requires Tree(db)
    ensures LooseTree(db) && NamesAreSet(db) && ROOT !in db
    ensures forall id | id in db :: GoodName(db[id].path)
  {
  }

  lemma WalkStep(db: Table, id: int, key: string, link: string)
    requires NamesAreSet(db)
    ensures var c := Child(db, id, FirstName(key));
            Walk(db, id, key, link) ==
            if c.None? then (id, link, key) else Walk(db, c.value, RestOfKey(key), link + FirstName(key) + "/")
  {
  }

  // Names with slashes

  /** Neither the article nor any above it, n steps up to the root, has a slash in its name. */
  predicate CleanUp(db: Table, id: int, n: nat)
    requires Reaches(db, id, n)
    decreases n
  {
    n == 0 || ('/' !in db[id].path && CleanUp(db, db[id].parent, n - 1))
  }

  ghost predicate Clean(db: Table, id: int) {
    exists n: nat :: Reaches(db, id, n) && CleanUp(db, id, n)
  }

  /** Walking down the link of an article without slashes above it leads to the article, whatever follows the link. */
  lemma {:induction false} WalkThroughClean(db: Table, id: int, n: nat, tail: string)
    requires LooseTree(db) && Reaches(db, id, n) && CleanUp(db, id, n)
    ensures NamesAreSet(db)
    ensures Walk(db, ROOT, LinkUp(db, id, n) + tail, "") == Walk(db, id, tail, LinkUp(db, id, n))
    decreases n
  {
    hide LooseTree, Walk, Child, FirstName, RestOfKey;
    LooseMeans(db);
    if n == 0 {
      assert "" + tail == tail;
    } else {
      var pid, name := db[id].parent, db[id].path;
      var up := LinkUp(db, pid, n - 1);
      WalkThroughClean(db, pid, n - 1, name + "/" + tail);
      ConcatAssoc(up + name, "/", tail);
      ConcatAssoc(up, name, "/" + tail);
      ConcatAssoc(name, "/", tail);
      NameThenSlash(name, tail);
      ChildIs(db, id);
      WalkStep(db, pid, name + "/" + tail, up);
    }
  }

  lemma LooseMeans(db: Table)
    requires LooseTree(db)
    ensures NamesAreSet(db) && ROOT !in db
  {
  }

  /** Walking down leads only to articles without a slash in their names, or in those above them. */
  lemma {:induction false} WalkStaysClean(db: Table, id: int, key: string, link: string)
    requires LooseTree(db) && Clean(db, id)
    ensures NamesAreSet(db) && Clean(db, Walk(db, id, key, link).0)
    decreases |key|
  {
    hide LooseTree, Walk, FindSlash, Clean;
    LooseMeans(db);
    WalkStep(db, id, key, link);
    var c := Child(db, id, FirstName(key));
    if c.Some? {
      assert '/' !in FirstName(key) by {
        FirstNameIsClean(key);
      }
      CleanStep(db, c.value);
      assert db[c.value].path != "";
      RestIsShorter(key);
      WalkStaysClean(db, c.value, RestOfKey(key), link + FirstName(key) + "/");
    }
  }

  lemma RestIsShorter(key: string)
    ensures FirstName(key) != "" ==> |RestOfKey(key)| < |key|
  {
  }

  lemma FirstNameIsClean(key: string)
    ensures '/' !in FirstName(key)
  {
  }

  lemma CleanStep(db: Table, id: int)
    requires id in db && id != ROOT
    ensures Clean(db, id) <==> '/' !in db[id].path && Clean(db, db[id].parent)
  {
    if Clean(db, db[id].parent) && '/' !in db[id].path {
      var n: nat :| Reaches(db, db[id].parent, n) && CleanUp(db, db[id].parent, n);
      assert Reaches(db, id, n + 1) && CleanUp(db, id, n + 1);
    }
    if Clean(db, id) {
      var n: nat :| Reaches(db, id, n) && CleanUp(db, id, n);
      assert Reaches(db, db[id].parent, n - 1) && CleanUp(db, db[id].parent, n - 1);
    }
  }

  /** The link that the walk up gives an article, whatever the names. */
  ghost function UpLink(db: Table, id: int): string
    requires Rooted(db, id)
  {
    var n: nat :| Reaches(db, id, n);
    LinkUp(db, id, n)
  }

  lemma UpLinkIs(db: Table, id: int, n: nat)
    requires Reaches(db, id, n)
    ensures Rooted(db, id) && UpLink(db, id) == LinkUp(db, id, n)
  {
    var m: nat :| Reaches(db, id, m) && UpLink(db, id) == LinkUp(db, id, m);
    ReachesOnce(db, id, m, n);
  }

  /** An article can be found by walking down exactly if there are no slashes; and then its own link leads to it. */
  lemma FoundIf(db: Table, id: int)
    requires LooseTree(db) && Rooted(db, id)
    ensures NamesAreSet(db)
    ensures (exists href :: Walk(db, ROOT, href, "").0 == id) <==> Clean(db, id)
    ensures Walk(db, ROOT, UpLink(db, id), "") == (id, UpLink(db, id), "") <==> Clean(db, id)
  {
    hide LooseTree, Walk, Clean;
    LooseMeans(db);
    RootIsClean(db);
    forall href | Walk(db, ROOT, href, "").0 == id
      ensures Clean(db, id)
    {
      WalkStaysClean(db, ROOT, href, "");
    }
    if Clean(db, id) {
      var n := CleanDepth(db, id);
      UpLinkIs(db, id, n);
      WalkThroughClean(db, id, n, "");
      assert UpLink(db, id) + "" == UpLink(db, id);
      NoChildOfNothing(db, id, UpLink(db, id));
      assert Walk(db, ROOT, UpLink(db, id), "").0 == id;
    }
  }

  lemma RootIsClean(db: Table)
    ensures Clean(db, ROOT)
  {
    assert Reaches(db, ROOT, 0) && CleanUp(db, ROOT, 0);
  }

  lemma CleanDepth(db: Table, id: int) returns (n: nat)
    requires Clean(db, id)
    ensures Reaches(db, id, n) && CleanUp(db, id, n)
  {
    n :| Reaches(db, id, n) && CleanUp(db, id, n);
  }

  lemma {:induction false} TreeIsClean(db: Table, id: int, n: nat)
    requires Tree(db) && Reaches(db, id, n)
    ensures CleanUp(db, id, n)
    decreases n
  {
    if n > 0 {
      assert GoodName(db[id].path);
      TreeIsClean(db, db[id].parent, n - 1);
    }
  }

  lemma LinksAreSame(db: Table, id: int)
    requires Tree(db) && Known(db, id)
    ensures Rooted(db, id) && UpLink(db, id) == LinkOf(db, id) && Clean(db, id)
  {
    UpLinkIs(db, id, Depth(db, id));
    TreeIsClean(db, id, Depth(db, id));
  }

  /** Walking down an article's link leads to the article, whatever follows the link. */
  lemma WalkThrough(db: Table, id: int, tail: string)
    requires Tree(db) && Known(db, id)
    ensures NamesAreSet(db)
    ensures Walk(db, ROOT, LinkOf(db, id) + tail, "") == Walk(db, id, tail, LinkOf(db, id))
  {
    hide Walk;
    TreeMeans(db);
    TreeIsClean(db, id, Depth(db, id));
    WalkThroughClean(db, id, Depth(db, id), tail);
  }

  /** The walk down undoes the walk up. */
  lemma WalkUndoesLink(db: Table, id: int)
    requires Tree(db) && Known(db, id)
    ensures Walk(db, ROOT, LinkOf(db, id), "") == (id, LinkOf(db, id), "")
  {
    WalkThrough(db, id, "");
    assert LinkOf(db, id) + "" == LinkOf(db, id);
    assert FirstName("") == "";
  }

  lemma LinksDiffer(db: Table, a: int, b: int)
    requires Tree(db) && Known(db, a) && Known(db, b) && LinkOf(db, a) == LinkOf(db, b)
    ensures a == b
  {
    WalkUndoesLink(db, a);
    WalkUndoesLink(db, b);
  }

  /** Walking up k steps from x leads to a. */
  predicate Above(db: Table, a: int, x: int, k: nat)
    decreases k
  {
    if k == 0 then x == a else x in db && Above(db, a, db[x].parent, k - 1)
  }

  ghost predicate Ancestor(db: Table, a: int, x: int) {
    exists k: nat :: Above(db, a, x, k)
  }

  lemma {:induction false} AboveOneMore(db: Table, a: int, x: int, k: nat)
    requires a in db && Above(db, a, x, k)
    ensures Above(db, db[a].parent, x, k + 1)
    decreases k
  {
    if k == 0 {
      assert Above(db, db[a].parent, db[a].parent, 0);
    } else {
      AboveOneMore(db, a, db[x].parent, k - 1);
    }
  }

  lemma {:induction false} AncestorsLink(db: Table, a: int, x: int, k: nat)
    requires Tree(db) && Known(db, x) && Above(db, a, x, k)
    ensures Known(db, a) && LinkOf(db, a) <= LinkOf(db, x)
    decreases k
  {
    if k > 0 {
      LinkOfChild(db, x);
      AncestorsLink(db, a, db[x].parent, k - 1);
    }
  }

  /** Walking down from an article leads to it or below it, and the link, with what is left over, is the href. */
  lemma {:induction false} WalkDescends(db: Table, id: int, key: string)
    requires Tree(db) && Known(db, id)
    ensures NamesAreSet(db)
    ensures var (r, link, extra) := Walk(db, id, key, LinkOf(db, id));
            && Known(db, r) && link == LinkOf(db, r) && Ancestor(db, id, r)
            && (link + extra == LinkOf(db, id) + key || (extra == "" && link == LinkOf(db, id) + key + "/"))
    decreases |key|
  {
    hide Tree, Walk, LinkOf, FindSlash;
    TreeMeans(db);
    WalkStep(db, id, key, LinkOf(db, id));
    var name, rest, here := FirstName(key), RestOfKey(key), LinkOf(db, id);
    var c := Child(db, id, name);
    if c.None? {
      assert Above(db, id, id, 0);
    } else {
      LinkOfChild(db, c.value);
      assert LinkOf(db, c.value) == here + name + "/" && GoodName(name);
      WalkDescends(db, c.value, rest);
      var (r, link, extra) := Walk(db, c.value, rest, LinkOf(db, c.value));
      BelowChild(db, id, c.value, r);
      if rest == "" {
        NoChildOfNothing(db, c.value, LinkOf(db, c.value));
      }
      KeySplits(key);
      if FindSlash(key) != -1 {
        ConcatAssoc(here + name, "/", rest);
        ConcatAssoc(here, name, "/" + rest);
        ConcatAssoc(name, "/", rest);
      }
    }
  }

  lemma KeySplits(key: string)
    ensures if FindSlash(key) == -1 then FirstName(key) == key && RestOfKey(key) == ""
            else key == FirstName(key) + "/" + RestOfKey(key)
  {
  }

  lemma NoChildOfNothing(db: Table, id: int, link: string)
    requires NamesAreSet(db)
    ensures Walk(db, id, "", link) == (id, link, "")
  {
  }

  lemma BelowChild(db: Table, id: int, c: int, x: int)
    requires c in db && db[c].parent == id && Ancestor(db, c, x)
    ensures Ancestor(db, id, x)
  {
    var k: nat :| Above(db, c, x, k);
    AboveOneMore(db, c, x, k);
  }

  /** One link is a prefix of another exactly when its article is the other's ancestor, or the other itself. */
  lemma PrefixIsAncestor(db: Table, a: int, b: int)
    requires Tree(db) && Known(db, a) && Known(db, b)
    ensures LinkOf(db, a) <= LinkOf(db, b) <==> Ancestor(db, a, b)
  {
    if LinkOf(db, a) <= LinkOf(db, b) {
      var tail := LinkOf(db, b)[|LinkOf(db, a)|..];
      assert LinkOf(db, b) == LinkOf(db, a) + tail;
      WalkThrough(db, a, tail);
      WalkUndoesLink(db, b);
      WalkDescends(db, a, tail);
    }
    if Ancestor(db, a, b) {
      var k: nat :| Above(db, a, b, k);
      AncestorsLink(db, a, b, k);
    }
  }

  /** A lookup's link and extra make up the href, or the href and a final slash when there is no extra. */
  lemma HrefIsSplit(db: Table, href: string)
    requires Tree(db)
    ensures var (id, link, extra) := Walk(db, ROOT, href, "");
            && Known(db, id) && link == LinkOf(db, id)
            && (link + extra == href || (extra == "" && link == href + "/"))
  {
    LinkOfRoot(db);
    WalkDescends(db, ROOT, href);
    assert "" + href == href;
  }

  // Changing the table

  /** db' has the rows of db, but for the row of id. */
  ghost predicate SameBut(db: Table, db': Table, id: int) {
    && (forall x | x in db && x != id :: x in db' && db'[x] == db[x])
    && (forall x | x in db' && x != id :: x in db)
  }

  lemma {:induction false} ReachesKept(db: Table, db': Table, id: int, x: int, n: nat)
    requires Reaches(db, x, n) && SameBut(db, db', id) && !Ancestor(db, id, x)
    ensures Reaches(db', x, n) && LinkUp(db', x, n) == LinkUp(db, x, n)
    decreases n
  {
    assert x != id by {
      assert Above(db, x, x, 0);
    }
    if n > 0 {
      NotBelow(db, id, x);
      ReachesKept(db, db', id, db[x].parent, n - 1);
    }
  }

  lemma NotBelow(db: Table, id: int, x: int)
    requires x in db && !Ancestor(db, id, x)
    ensures !Ancestor(db, id, db[x].parent)
  {
    if Ancestor(db, id, db[x].parent) {
      var k: nat :| Above(db, id, db[x].parent, k);
      assert Above(db, id, x, k + 1);
    }
  }

  /** An article that is not below the changed one keeps its link. */
  lemma LinkKept(db: Table, db': Table, id: int, x: int)
    requires Tree(db) && Known(db, x) && SameBut(db, db', id) && !Ancestor(db, id, x)
    ensures Rooted(db', x)
    ensures Tree(db') ==> Known(db', x) && LinkOf(db', x) == LinkOf(db, x)
  {
    var n := Depth(db, x);
    ReachesKept(db, db', id, x, n);
    if Tree(db') {
      LinkOfIs(db', x, n);
    }
  }

  lemma {:induction false} StillRootedBelow(db: Table, db': Table, id: int, x: int, k: nat)
    requires Tree(db) && x in db && Above(db, id, x, k) && SameBut(db, db', id) && ROOT !in db' && Rooted(db', id)
    ensures Rooted(db', x)
    decreases k
  {
    if x != id {
      var p := db[x].parent;
      LinkOfChild(db, x);
      if p == ROOT {
        assert Reaches(db', p, 0);
      } else {
        StillRootedBelow(db, db', id, p, k - 1);
      }
      OneStepUp(db', x);
    }
  }

  lemma OneStepUp(db: Table, x: int)
    requires x in db && x != ROOT && Rooted(db, db[x].parent)
    ensures Rooted(db, x)
  {
    var n: nat :| Reaches(db, db[x].parent, n);
    assert Reaches(db, x, n + 1);
  }

  lemma UnknownIsNoAncestor(db: Table, id: int, x: int)
    requires Tree(db) && Known(db, x) && !Known(db, id)
    ensures !Ancestor(db, id, x)
  {
    if Ancestor(db, id, x) {
      var k: nat :| Above(db, id, x, k);
      AncestorsLink(db, id, x, k);
    }
  }

  /** A row may stand under an article that is not below it, with a good name that no other article there has. */
  ghost predicate Fits(db: Table, id: int, row: Row) {
    && Known(db, row.parent) && !Ancestor(db, id, row.parent) && GoodName(row.path)
    && forall c | IsChild(db, c, row.parent, row.path) :: c == id
  }

  /** The same whatever the name. */
  ghost predicate LooselyFits(db: Table, id: int, row: Row) {
    && Known(db, row.parent) && !Ancestor(db, id, row.parent) && row.path != ""
    && forall c | IsChild(db, c, row.parent, row.path) :: c == id
  }

  /** Writing a row keeps a tree, and where all articles are that are not below the written one. */
  lemma WriteKeepsLooseTree(db: Table, id: int, row: Row)
    requires Tree(db) && id != ROOT && LooselyFits(db, id, row)
    ensures LooseTree(db[id := row])
    ensures forall x | Known(db, x) && !Ancestor(db, id, x) ::
              Reaches(db[id := row], x, Depth(db, x)) && LinkUp(db[id := row], x, Depth(db, x)) == LinkOf(db, x)
  {
    var db' := db[id := row];
    forall x | Known(db, x) && !Ancestor(db, id, x)
      ensures Reaches(db', x, Depth(db, x)) && LinkUp(db', x, Depth(db, x)) == LinkOf(db, x) && Rooted(db', x)
    {
      ReachesKept(db, db', id, x, Depth(db, x));
    }
    OneStepUp(db', id);
    forall x | x in db'
      ensures Rooted(db', x)
    {
      if x != id && Ancestor(db, id, x) {
        var k: nat :| Above(db, id, x, k);
        StillRootedBelow(db, db', id, x, k);
      }
    }
    forall a, b | Siblings(db', a, b)
      ensures a == b
    {
      assert a != id && b != id ==> Siblings(db, a, b);
      assert a != id && b == id ==> IsChild(db, a, row.parent, row.path);
      assert a == id && b != id ==> IsChild(db, b, row.parent, row.path);
    }
  }

  /** Writing a row that fits keeps the tree, and the links of all articles that are not below the written one. */
  lemma WriteKeepsTree(db: Table, id: int, row: Row)
    requires Tree(db) && id != ROOT && Fits(db, id, row)
    ensures var db' := db[id := row];
            && Tree(db')
            && forall x | Known(db, x) && !Ancestor(db, id, x) :: LinkOf(db', x) == LinkOf(db, x)
    ensures LinkOf(db[id := row], id) == LinkOf(db, row.parent) + row.path + "/"
  {
    var db' := db[id := row];
    WriteKeepsLooseTree(db, id, row);
    assert Tree(db');
    forall x | Known(db, x) && !Ancestor(db, id, x)
      ensures LinkOf(db', x) == LinkOf(db, x)
    {
      LinkKept(db, db', id, x);
    }
    LinkOfChild(db', id);
  }

  /** A new row keeps the tree exactly if it fits. */
  lemma InsertKeepsTreeIf(db: Table, id: int, row: Row)
    requires Tree(db) && !Known(db, id) && row.parent != id
    ensures Tree(db[id := row]) <==> Fits(db, id, row)
    ensures Fits(db, id, row) <==> Known(db, row.parent) && GoodName(row.path) && Child(db, row.parent, row.path).None?
  {
    var db' := db[id := row];
    if Known(db, row.parent) {
      UnknownIsNoAncestor(db, id, row.parent);
    }
    assert forall c | IsChild(db, c, row.parent, row.path) :: c != id;
    if Fits(db, id, row) {
      WriteKeepsTree(db, id, row);
    }
    if Tree(db') {
      LinkOfChild(db', id);
      forall c | IsChild(db, c, row.parent, row.path)
        ensures false
      {
        assert Siblings(db', c, id);
      }
    }
  }

  ghost predicate Leaf(db: Table, id: int) {
    forall c | c in db :: db[c].parent != id
  }

  lemma {:induction false} LeafIsNoAncestor(db: Table, id: int, x: int, k: nat)
    requires Leaf(db, id) && Above(db, id, x, k)
    ensures x == id
    decreases k
  {
    if k > 0 {
      LeafIsNoAncestor(db, id, db[x].parent, k - 1);
    }
  }

  /** Removing a row keeps the tree exactly if no article hangs below it, and then all other links. */
  lemma RemoveKeepsTreeIf(db: Table, id: int)
    requires Tree(db) && id in db
    ensures Tree(db - {id}) <==> Leaf(db, id)
    ensures Leaf(db, id) ==> forall x | Known(db, x) && x != id :: LinkOf(db - {id}, x) == LinkOf(db, x)
  {
    var db' := db - {id};
    if Leaf(db, id) {
      forall x | Known(db, x) && x != id
        ensures !Ancestor(db, id, x) && Rooted(db', x)
      {
        if Ancestor(db, id, x) {
          var k: nat :| Above(db, id, x, k);
          LeafIsNoAncestor(db, id, x, k);
        }
        LinkKept(db, db', id, x);
      }
      assert forall a, b | Siblings(db', a, b) :: Siblings(db, a, b);
      forall x | Known(db, x) && x != id
        ensures LinkOf(db', x) == LinkOf(db, x)
      {
        LinkKept(db, db', id, x);
      }
    } else {
      var c :| c in db && db[c].parent == id;
      assert c != id by {
        LinkOfChild(db, c);
      }
      if Tree(db') {
        LinkOfChild(db', c);
      }
    }
  }
}
