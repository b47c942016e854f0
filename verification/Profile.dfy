/**
 The article caches of sconesite/Profile.cpp against the article table.
 */
module Profiles {
  import opened Bytes
  import opened Articles

  datatype Article = Article(link: string, pid: int, name: string)

  /** Every cached link is the one the table gives to its article. */
  ghost predicate LinksAgree(db: Table, links: map<string, int>)
    requires Tree(db)
  {
    forall l | l in links :: Known(db, links[l]) && LinkOf(db, links[l]) == l
  }

  function ParentIn(db: Table, id: int): int {
    if id in db then db[id].parent else 0
  }

  function NameIn(db: Table, id: int): string {
    if id in db then db[id].path else ""
  }

  /** Every cached article is as the table has it, and its link is cached too. */
  ghost predicate ArticlesAgree(db: Table, articles: map<int, Article>, links: map<string, int>)
    requires Tree(db)
  {
    forall id | id in articles ::
      Known(db, id) && articles[id] == Article(LinkOf(db, id), ParentIn(db, id), NameIn(db, id)) &&
      articles[id].link in links
  }

  ghost predicate Agree(db: Table, articles: map<int, Article>, links: map<string, int>) {
    Tree(db) && LinksAgree(db, links) && ArticlesAgree(db, articles, links)
  }

  /**
   The caches agree with the table as the two walks see it, whatever the names in it: every cached link leads to its
   article with nothing left over, and every cached article has the link that the walk up gives it, which is cached for
   it too.
   */
  ghost predicate WalksAgree(db: Table, articles: map<int, Article>, links: map<string, int>) {
    && LooseTree(db)
    && (forall l | l in links :: Walk(db, ROOT, l, "") == (links[l], l, ""))
    && (forall id | id in articles ::
          Rooted(db, id) && articles[id] == Article(UpLink(db, id), ParentIn(db, id), NameIn(db, id)) &&
          articles[id].link in links && links[articles[id].link] == id)
  }

  class Profile {
    var db: Table
    var nextId: int
    var articles: map<int, Article>
    var links: map<string, int>

    ghost predicate Valid()
      reads this
    {
      Agree(db, articles, links) && nextId > ROOT && forall id | id in db :: id < nextId
    }

    constructor (db: Table, nextId: int)
      requires Tree(db) && nextId > ROOT && forall id | id in db :: id < nextId
      ensures Valid() && this.db == db && articles == map[] && links == map[]
    {
      this.db := db;
      this.nextId := nextId;
      articles := map[];
      links := map[];
    }

    /** Drops the cached articles that have not been looked at for long enough; their links stay. */
    method Refresh(stale: set<int>)
      requires Valid()
      modifies this
      ensures Valid() && db == old(db) && links == old(links) && articles == old(articles) - stale
    {
      articles := articles - stale;
    }

    method LoadArticle(id: int, pid: int, link: string) returns (a: Article)
      modifies `articles
      ensures a == Article(link, pid, NameIn(db, id)) && articles == old(articles)[id := a]
    {
      a := Article(link, pid, NameIn(db, id));
      articles := articles[id := a];
    }

    /** The walk up the table of lookup_article: the link and the parent of an article. */
    method WalkUp(id: int) returns (r: Option<(string, int)>)
      requires Tree(db)
      ensures r.Some? == Known(db, id)
      ensures r.Some? ==> r.value == (LinkOf(db, id), ParentIn(db, id))
    {
      var link, cid, pid := "", id, 0;
      ghost var n: nat := if Known(db, id) then Depth(db, id) else 0;
      while cid != ROOT
        invariant Known(db, id) ==> Reaches(db, cid, n) && LinkUp(db, cid, n) + link == LinkOf(db, id)
        invariant !Known(db, id) ==> cid == id
        invariant pid == if link == "" then 0 else ParentIn(db, id)
        invariant link == "" <==> (!Known(db, id) || n == Depth(db, id))
        invariant link == "" ==> cid == id
        decreases n
      {
        if cid !in db {
          return None;
        }
        ConcatAssoc(LinkUp(db, db[cid].parent, n - 1) + db[cid].path, "/", link);
        ConcatAssoc(LinkUp(db, db[cid].parent, n - 1), db[cid].path, "/" + link);
        ConcatAssoc(db[cid].path, "/", link);
        if cid == id {
          pid := db[cid].parent;
        }
        link := db[cid].path + "/" + link;
        cid := db[cid].parent;
        n := n - 1;
      }
      assert "" + link == link;
      TreeMeans(db);
      return Some((link, pid));
    }

    method LookupId(id: int) returns (r: Option<Article>)
      requires Valid()
      modifies this
      ensures Valid() && db == old(db) && nextId == old(nextId)
      ensures r.Some? == Known(db, id)
      ensures r.Some? ==> r.value == Article(LinkOf(db, id), ParentIn(db, id), NameIn(db, id))
      ensures r.Some? ==> articles == old(articles)[id := r.value] && links == old(links)[LinkOf(db, id) := id]
      ensures r.None? ==> articles == old(articles) && links == old(links)
      ensures id == ROOT ==> r == Some(Article("", 0, ""))
    {
      if id in articles {
        CachedLink(db, articles, links, id);
        return Some(articles[id]);
      }
      var found := WalkUp(id);
      if found.None? {
        return None;
      }
      var (link, pid) := found.value;
      if link !in links {
        links := links[link := id];
      } else {
        LinksDiffer(db, links[link], id);
      }
      var a := LoadArticle(id, pid, link);
      r := Some(a);
    }

    /** The query for a child with this path. */
    method QueryChild(id: int, path: string) returns (c: Option<int>)
      requires Tree(db)
      ensures c == Child(db, id, path)
    {
      if c1 :| c1 in db && db[c1] == Row(id, path) {
        ChildIs(db, c1);
        return Some(c1);
      }
      return None;
    }

    /** The walk down the table of lookup_article: the article's id, its parent, its link, and the extra. */
    method WalkDown(href: string) returns (id: int, pid: int, link: string, extra: string)
      requires Tree(db)
      ensures (id, link, extra) == Walk(db, ROOT, href, "")
      ensures Known(db, id) && link == LinkOf(db, id) && pid == ParentIn(db, id)
    {
      hide Tree, Walk, LinkOf, Child, GoodName, FindSlash;
      TreeMeans(db);
      var key := href;
      id, pid, link := ROOT, 0, "";
      LinkOfRoot(db);
      while true
        invariant NamesAreGood(db) && Walk(db, id, key, link) == Walk(db, ROOT, href, "")
        invariant Known(db, id) && link == LinkOf(db, id) && pid == ParentIn(db, id)
        decreases |key|
      {
        WalkStep(db, id, key, link);
        KeySplits(key);
        var slash := FindSlash(key);
        var path := if slash == -1 then key else key[..slash];
        var c := QueryChild(id, path);
        if c.None? {
          extra := key;
          return;
        }
        LinkOfChild(db, c.value);
        ChildHasName(db, id, path);
        pid, id := id, c.value;
        if slash == -1 {
          key := "";
        } else {
          key := key[slash + 1..];
        }
        link := link + path + "/";
      }
    }

    /** lookup_article by href; the caller's extra stays as it is when the link cache knows the href. */
    method LookupHref(href: string, wasExtra: string) returns (a: Article, id: int, extra: string)
      requires Valid()
      modifies this
      ensures Valid() && db == old(db) && nextId == old(nextId)
      ensures (id, a.link) == (Walk(db, ROOT, href, "").0, Walk(db, ROOT, href, "").1)
      ensures if href in old(links) then extra == wasExtra && Walk(db, ROOT, href, "").2 == ""
              else extra == Walk(db, ROOT, href, "").2
      ensures Known(db, id) && a == Article(LinkOf(db, id), ParentIn(db, id), NameIn(db, id))
      ensures articles == old(articles)[id := a] && links == old(links)[a.link := id]
    {
      hide Walk, LinkOf, Tree;
      TreeMeans(db);
      if href in links {
        id := links[href];
        WalkUndoesLink(db, id);
        var r := LookupId(id);
        return r.value, id, wasExtra;
      }
      var pid, link;
      id, pid, link, extra := WalkDown(href);
      if link !in links {
        links := links[link := id];
      } else {
        LinksDiffer(db, links[link], id);
      }
      if id in articles {
        return articles[id], id, extra;
      }
      a := LoadArticle(id, pid, link);
    }

    /**
     made tells whether the article's directory could be created. Names are not checked for slashes: an article with one
     is entered into the table and into the caches, where its link leads elsewhere.
     */
    method CreateArticle(pid: int, name: string, made: bool) returns (r: Option<int>)
      requires Valid()
      modifies this
      ensures r.Some? == (name != "" && Known(old(db), pid) && made &&
                          Walk(old(db), ROOT, LinkOf(old(db), pid) + name + "/", "").2 != "")
      ensures r.Some? ==> r.value == old(nextId) && db == old(db)[r.value := Row(pid, name)] && nextId == r.value + 1
      ensures r.Some? ==> r.value in articles && articles[r.value].link == LinkOf(old(db), pid) + name + "/"
      ensures r.Some? ==> articles[r.value].link in links && links[articles[r.value].link] == r.value
      ensures r.Some? && '/' !in name ==> Valid()
      ensures r.Some? ==> (WalksAgree(db, articles, links) <==> '/' !in name)
      ensures r.None? ==> Valid() && db == old(db) && nextId == old(nextId)
    {
      hide Walk, LinkOf, Fits, LinksAgree, ArticlesAgree, Child, Tree, WalksAgree;
      TreeMeans(db);
      if name == "" {
        return None;
      }
      var parent := LookupId(pid);
      if parent.None? {
        return None;
      }
      var link := parent.value.link + name + "/";
      var existing, at, extra := LookupHref(link, "");
      if extra == "" {
        return None;
      }
      if !made {
        return None;
      }
      var id := nextId;
      CreateKeepsWalks(db, articles, links, id, Row(pid, name));
      db := db[id := Row(pid, name)];
      nextId := nextId + 1;
      var a := LoadArticle(id, pid, link);
      links := links[link := id];
      return Some(id);
    }

    /** removed tells whether the article's directory could be removed. */
    method RemoveArticle(id: int, removed: bool) returns (ok: bool)
      requires Valid()
      modifies this
      ensures ok == (Known(old(db), id) && removed)
      ensures ok ==> db == old(db) - {id} && id !in articles && LinkOf(old(db), id) !in links
      ensures ok ==> (Valid() <==> (id == ROOT || Leaf(old(db), id)))
      ensures !ok ==> Valid() && db == old(db)
      ensures nextId == old(nextId)
    {
      hide LinkOf, Tree, Leaf, LinksAgree, ArticlesAgree;
      var article := LookupId(id);
      if article.None? {
        return false;
      }
      var link := article.value.link;
      if !removed {
        return false;
      }
      RemoveKeepsCaches(db, articles, links, id);
      db := db - {id};
      articles := articles - {id};
      links := links - {link};
      return true;
    }

    /**
     moved tells whether the article's directory could be moved, which the file system refuses when there is another
     directory in the new place, or when the new place is inside the article's own directory.
     */
    method RenameArticle(id: int, newName: string, newPid: int, moved: bool) returns (ok: bool)
      requires Valid() && (moved ==> Movable(db, id, newName, newPid))
      modifies this
      ensures ok == (Known(old(db), id) && moved && !SamePlace(old(db), id, newName, newPid))
      ensures db == if ok && id != ROOT then old(db)[id := NewRow(old(db), id, newName, newPid)] else old(db)
      ensures ok ==> forall l | l in links :: !(LinkOf(old(db), id) <= l)
      ensures ok ==> forall x | x in articles :: Known(old(db), x) && !(LinkOf(old(db), id) <= LinkOf(old(db), x))
      ensures ok ==> forall l | l in old(links) && !(LinkOf(old(db), id) <= l) :: l in links
      ensures ok ==> forall x | x in old(articles) && !(LinkOf(old(db), id) <= LinkOf(old(db), x)) :: x in articles
      ensures ok ==> WalksAgree(db, articles, links)
      ensures ok ==> (Clean(db, id) <==> (id == ROOT || '/' !in newName))
      ensures !ok || id == ROOT || '/' !in newName ==> Valid()
      ensures nextId == old(nextId)
    {
      hide LinkOf, Tree, LinksAgree, Movable, SamePlace, NewRow, KeptLinks, KeptArticles, WalksAgree, Clean;
      TreeMeans(db);
      var article := LookupId(id);
      if article.None? {
        return false;
      }
      var link := article.value.link;
      var newParent := LookupId(newPid);
      SamePlaceMeans(db, id, newName, newPid);
      if id != ROOT {
        var place := if newParent.Some? then newParent.value.link else link[..|link| - |article.value.name| - 1];
        var name := if newName != "" then newName else article.value.name;
        if place + name + "/" == link {
          return false;
        }
      }
      if !moved {
        return false;
      }
      MoveRow(id, newName, newPid, newParent.Some?, link);
      return true;
    }

    /** The part of rename_article behind the move of the directory: the table is updated and the caches are purged. */
    method MoveRow(id: int, newName: string, newPid: int, newParent: bool, link: string)
      requires Valid() && Known(db, id) && link == LinkOf(db, id) && newParent == Known(db, newPid)
      requires Movable(db, id, newName, newPid)
      modifies this
      ensures db == if id in old(db) then old(db)[id := NewRow(old(db), id, newName, newPid)] else old(db)
      ensures forall l :: l in links <==> l in old(links) && !(link <= l)
      ensures forall x :: x in articles <==> x in old(articles) && !(link <= LinkOf(old(db), x))
      ensures WalksAgree(db, articles, links)
      ensures Clean(db, id) <==> (id == ROOT || '/' !in newName)
      ensures id == ROOT || '/' !in newName ==> Valid()
      ensures nextId == old(nextId)
    {
      hide LinkOf, Tree, LinksAgree, Movable, NewRow, KeptLinks, KeptArticles, WalksAgree, Clean;
      TreeMeans(db);
      RenameKeepsCaches(db, articles, links, id, newName, newPid);
      PurgeSpares(db, articles, links, id);
      UpdateRow(id, newName, newPid, newParent);
      articles := articles - {id};
      links := links - {link};
      PurgeBelow(link);
    }

    /** The updates of the article's row; the root has none. */
    method UpdateRow(id: int, newName: string, newPid: int, newParent: bool)
      requires newParent == Known(db, newPid)
      modifies `db
      ensures db == if id in old(db) then old(db)[id := NewRow(old(db), id, newName, newPid)] else old(db)
    {
      if id in db {
        if newParent {
          db := db[id := db[id].(parent := newPid)];
        }
        if newName != "" {
          db := db[id := db[id].(path := newName)];
        }
      }
    }

    /** Takes the links that start with link out of the caches, and their articles. */
    method PurgeBelow(link: string)
      modifies `articles, `links
      ensures links == KeptLinks(old(links), link)
      ensures articles == KeptArticles(old(articles), old(links), link)
    {
      var all := links;
      var todo := set l | l in links && link <= l;
      while todo != {}
        invariant todo <= links.Keys <= all.Keys && forall l | l in links :: links[l] == all[l]
        invariant forall l | l in all :: l in links <==> (l in todo || !(link <= l))
        invariant forall l | l in todo :: link <= l
        invariant articles == old(articles) - (set l | l in all && l !in links :: all[l])
        decreases todo
      {
        var l :| l in todo;
        ghost var gone := set k | k in all && k !in links :: all[k];
        articles := articles - {links[l]};
        links := links - {l};
        todo := todo - {l};
        assert (set k | k in all && k !in links :: all[k]) == gone + {all[l]};
      }
    }
  }

  /** Whether a rename asks for the place where the article is already. */
  ghost predicate SamePlace(db: Table, id: int, newName: string, newPid: int)
    requires Tree(db)
  {
    Known(db, id) && id != ROOT &&
    var row := NewRow(db, id, newName, newPid);
    LinkOf(db, id) == (if Known(db, row.parent) then LinkOf(db, row.parent) else "") + row.path + "/"
  }

  /** The row that a rename writes: an unknown new parent and an empty new name leave things as they are. */
  function NewRow(db: Table, id: int, newName: string, newPid: int): Row {
    Row(if Known(db, newPid) then newPid else ParentIn(db, id), if newName != "" then newName else NameIn(db, id))
  }

  /** Where the file system can move an article's directory. */
  ghost predicate Movable(db: Table, id: int, newName: string, newPid: int) {
    var row := NewRow(db, id, newName, newPid);
    if id == ROOT then !Known(db, newPid)
    else !Ancestor(db, id, row.parent) && forall c | IsChild(db, c, row.parent, row.path) :: c == id
  }

  lemma RemoveKeepsCaches(db: Table, articles: map<int, Article>, links: map<string, int>, id: int)
    requires Agree(db, articles, links) && Known(db, id)
    ensures Agree(db - {id}, articles - {id}, links - {LinkOf(db, id)}) <==> (id == ROOT || Leaf(db, id))
  {
    var db', link := db - {id}, LinkOf(db, id);
    if id == ROOT {
      TreeMeans(db);
      assert db' == db;
    } else {
      RemoveKeepsTreeIf(db, id);
    }
    if id == ROOT || Leaf(db, id) {
      forall x | x in articles && x != id
        ensures LinkOf(db, x) != link
      {
        if LinkOf(db, x) == link {
          LinksDiffer(db, x, id);
        }
      }
    }
  }

  lemma SamePlaceMeans(db: Table, id: int, newName: string, newPid: int)
    requires Tree(db) && Known(db, id)
    ensures id == ROOT ==> !SamePlace(db, id, newName, newPid)
    ensures var link, name := LinkOf(db, id), NameIn(db, id);
            id != ROOT ==>
            && |link| > |name|
            && var place := if Known(db, newPid) then LinkOf(db, newPid) else link[..|link| - |name| - 1];
               SamePlace(db, id, newName, newPid) <==>
               place + (if newName != "" then newName else name) + "/" == link
  {
    if id == ROOT {
      return;
    }
    var link, name := LinkOf(db, id), NameIn(db, id);
    LinkOfChild(db, id);
    assert link[..|link| - |name| - 1] == LinkOf(db, db[id].parent);
  }

  /** The links that do not start with link. */
  function KeptLinks(links: map<string, int>, link: string): map<string, int> {
    map l | l in links && !(link <= l) :: links[l]
  }

  /** The articles to which no link that starts with link leads. */
  function KeptArticles(articles: map<int, Article>, links: map<string, int>, link: string): map<int, Article> {
    articles - (set l | l in links && link <= l :: links[l])
  }

  /** With good names the walks see what Agree says. */
  lemma AgreeByWalks(db: Table, articles: map<int, Article>, links: map<string, int>)
    requires Tree(db)
    ensures Agree(db, articles, links) <==> WalksAgree(db, articles, links)
  {
    hide Walk, LinkOf, Tree, LooseTree;
    TreeMeans(db);
    forall x | Known(db, x)
      ensures Rooted(db, x) && UpLink(db, x) == LinkOf(db, x)
    {
      LinksAreSame(db, x);
    }
    forall l | l in links
      ensures Walk(db, ROOT, l, "") == (links[l], l, "") <==> Known(db, links[l]) && LinkOf(db, links[l]) == l
    {
      HrefIsSplit(db, l);
      if Known(db, links[l]) {
        WalkUndoesLink(db, links[l]);
      }
    }
    forall x | Rooted(db, x)
      ensures Known(db, x)
    {
      RootedIsKnown(db, x);
    }
    forall x, y | Known(db, x) && Known(db, y) && LinkOf(db, x) == LinkOf(db, y)
      ensures x == y
    {
      LinksDiffer(db, x, y);
    }
  }

  lemma RootedIsKnown(db: Table, x: int)
    requires Rooted(db, x)
    ensures Known(db, x)
  {
  }

  /**
   Caching an article, and its link if that is not cached for another one, keeps the caches in agreement exactly if the
   article can be found by walking.
   */
  lemma CachingKeepsWalksIf(db: Table, articles: map<int, Article>, links: map<string, int>, id: int)
    requires WalksAgree(db, articles, links) && Rooted(db, id)
    ensures var link := UpLink(db, id);
            var articles' := articles[id := Article(link, ParentIn(db, id), NameIn(db, id))];
            var links' := if link in links then links else links[link := id];
            WalksAgree(db, articles', links') <==> Clean(db, id)
  {
    hide Walk, UpLink, Clean, LooseTree;
    FoundIf(db, id);
  }

  /** The caches after an article has been entered: its link leads to it exactly if its name has no slash. */
  lemma CreateKeepsWalks(db: Table, articles: map<int, Article>, links: map<string, int>, id: int, row: Row)
    requires Agree(db, articles, links) && !Known(db, id) && Known(db, row.parent) && row.path != ""
    requires Walk(db, ROOT, LinkOf(db, row.parent) + row.path + "/", "").2 != ""
    ensures var link := LinkOf(db, row.parent) + row.path + "/";
            var articles', links' := articles[id := Article(link, row.parent, row.path)], links[link := id];
            && (WalksAgree(db[id := row], articles', links') <==> '/' !in row.path)
            && ('/' !in row.path ==> Agree(db[id := row], articles', links'))
  {
    hide Walk, LinkOf, Fits, LinksAgree, ArticlesAgree, Child, LooseTree, Clean, UpLink;
    TreeMeans(db);
    var db', link := db[id := row], LinkOf(db, row.parent) + row.path + "/";
    var articles', links' := articles[id := Article(link, row.parent, row.path)], links[link := id];
    if '/' !in row.path {
      NewLink(db, row.parent, row.path);
      InsertKeepsTreeIf(db, id, row);
      InsertKeepsCaches(db, articles, links, id, row);
      AgreeByWalks(db', articles', links');
    } else if WalksAgree(db', articles', links') {
      assert Rooted(db', id) && links'[link] == id;
      FoundIf(db', id);
      CleanStep(db', id);
      assert false;
    }
  }

  /** What is left in the caches after a rename belongs to articles that are not below the renamed one. */
  lemma RenameKeepsCaches(db: Table, articles: map<int, Article>, links: map<string, int>, id: int, newName: string,
                          newPid: int)
    requires Agree(db, articles, links) && Known(db, id) && Movable(db, id, newName, newPid)
    ensures var link := LinkOf(db, id);
            var db' := if id == ROOT then db else db[id := NewRow(db, id, newName, newPid)];
            var articles' := KeptArticles(articles - {id}, links - {link}, link);
            var links' := KeptLinks(links - {link}, link);
            && WalksAgree(db', articles', links')
            && (Clean(db', id) <==> (id == ROOT || '/' !in newName))
            && (id == ROOT || '/' !in newName ==> Agree(db', articles', links'))
  {
    hide KeptLinks, KeptArticles, Walk, Clean, LooseTree, Agree, WalksAgree, Ancestor;
    AgreeMeans(db, articles, links);
    var link, row := LinkOf(db, id), NewRow(db, id, newName, newPid);
    var db' := if id == ROOT then db else db[id := row];
    RootIsClean(db');
    if id == ROOT {
      RootStays(db);
      PurgeLeaves(db, db', articles, links, id);
      AgreeByWalks(db', KeptArticles(articles - {id}, links - {link}, link), KeptLinks(links - {link}, link));
    } else {
      NewRowFits(db, id, newName, newPid);
      WriteKeepsLooseTree(db, id, row);
      PurgeLeaves(db, db', articles, links, id);
      RenamedIsClean(db, id, newName, newPid);
      if '/' !in newName {
        WriteKeepsTree(db, id, row);
        AgreeByWalks(db', KeptArticles(articles - {id}, links - {link}, link), KeptLinks(links - {link}, link));
      }
    }
  }

  lemma AgreeMeans(db: Table, articles: map<int, Article>, links: map<string, int>)
    requires Agree(db, articles, links)
    ensures Tree(db)
  {
  }

  lemma RootStays(db: Table)
    requires Tree(db)
    ensures LooseTree(db)
    ensures forall x | Known(db, x) && !Ancestor(db, ROOT, x) ::
              Reaches(db, x, Depth(db, x)) && LinkUp(db, x, Depth(db, x)) == LinkOf(db, x)
  {
  }

  lemma RenamedIsClean(db: Table, id: int, newName: string, newPid: int)
    requires Tree(db) && id in db && Movable(db, id, newName, newPid)
    ensures Clean(db[id := NewRow(db, id, newName, newPid)], id) <==> '/' !in newName
  {
    hide Clean, Tree, LooseTree, Ancestor;
    var row := NewRow(db, id, newName, newPid);
    var db' := db[id := row];
    TreeMeans(db);
    LinkOfChild(db, id);
    NewRowFits(db, id, newName, newPid);
    WriteKeepsLooseTree(db, id, row);
    CleanStep(db', id);
    CleanBeside(db, db', id, row.parent);
    assert GoodName(db[id].path);
  }

  /** Articles that are not below the written one have no slashes above them, as before. */
  lemma CleanBeside(db: Table, db': Table, id: int, x: int)
    requires Tree(db) && Known(db, x) && SameBut(db, db', id) && !Ancestor(db, id, x)
    requires Reaches(db', x, Depth(db, x))
    ensures Clean(db', x)
  {
    TreeIsClean(db, x, Depth(db, x));
    CleanKept(db, db', id, x, Depth(db, x));
  }

  lemma {:induction false} CleanKept(db: Table, db': Table, id: int, x: int, n: nat)
    requires Reaches(db, x, n) && Reaches(db', x, n) && CleanUp(db, x, n)
    requires SameBut(db, db', id) && !Ancestor(db, id, x)
    ensures CleanUp(db', x, n)
    decreases n
  {
    if n > 0 {
      assert x != id by {
        assert Above(db, x, x, 0);
      }
      NotBelow(db, id, x);
      CleanKept(db, db', id, db[x].parent, n - 1);
    }
  }

  /** A purge takes out nothing but the links that start with link, and their articles. */
  lemma PurgeSpares(db: Table, articles: map<int, Article>, links: map<string, int>, id: int)
    requires Agree(db, articles, links) && Known(db, id)
    ensures var link := LinkOf(db, id);
            && (forall l :: l in KeptLinks(links - {link}, link) <==> l in links && !(link <= l))
            && (forall x :: x in KeptArticles(articles - {id}, links - {link}, link) <==>
                            x in articles && !(link <= LinkOf(db, x)))
  {
    hide LinkOf, Tree;
    var link, rest := LinkOf(db, id), links - {LinkOf(db, id)};
    forall x | x in articles
      ensures x in KeptArticles(articles - {id}, rest, link) <==> !(link <= LinkOf(db, x))
    {
      CachedLink(db, articles, links, x);
      if x != id && LinkOf(db, x) == link {
        LinksDiffer(db, x, id);
      }
      if x != id && link <= LinkOf(db, x) {
        assert LinkOf(db, x) in rest && rest[LinkOf(db, x)] == x;
      }
    }
  }

  lemma NewRowFits(db: Table, id: int, newName: string, newPid: int)
    requires Tree(db) && id in db && Movable(db, id, newName, newPid)
    ensures LooselyFits(db, id, NewRow(db, id, newName, newPid))
    ensures '/' !in newName ==> Fits(db, id, NewRow(db, id, newName, newPid))
  {
    LinkOfChild(db, id);
    assert GoodName(db[id].path);
  }

  /**
   Purging what is below id leaves caches that agree with any table in which all other articles are where they were,
   whatever has become of id and those below it.
   */
  lemma PurgeLeaves(db: Table, db': Table, articles: map<int, Article>, links: map<string, int>, id: int)
    requires Agree(db, articles, links) && Tree(db) && Known(db, id) && LooseTree(db') && SameBut(db, db', id)
    requires forall x | Known(db, x) && !Ancestor(db, id, x) ::
               Reaches(db', x, Depth(db, x)) && LinkUp(db', x, Depth(db, x)) == LinkOf(db, x)
    ensures var link := LinkOf(db, id);
            WalksAgree(db', KeptArticles(articles - {id}, links - {link}, link), KeptLinks(links - {link}, link))
  {
    hide LinkOf, Tree, Ancestor, LooseTree, Walk, UpLink, Reaches, LinkUp;
    var link := LinkOf(db, id);
    forall x | Known(db, x) && !(link <= LinkOf(db, x))
      ensures x != id && Rooted(db', x) && UpLink(db', x) == LinkOf(db, x)
      ensures NamesAreSet(db') && Walk(db', ROOT, LinkOf(db, x), "") == (x, LinkOf(db, x), "")
    {
      PrefixIsAncestor(db, id, x);
      UpLinkIs(db', x, Depth(db, x));
      CleanBeside(db, db', id, x);
      FoundIf(db', x);
    }
    LooseMeans(db');
    var rest := links - {link};
    var purged := set l | l in rest && link <= l :: rest[l];
    forall x | x in articles - {id} - purged
      ensures Known(db, x) && !(link <= LinkOf(db, x)) && LinkOf(db, x) in KeptLinks(rest, link)
      ensures articles[x] == Article(LinkOf(db, x), ParentIn(db', x), NameIn(db', x))
    {
      CachedLink(db, articles, links, x);
      if LinkOf(db, x) == link {
        LinksDiffer(db, x, id);
      }
      var l := LinkOf(db, x);
      assert l in rest && rest[l] == x;
      assert !(link <= l);
    }
    assert KeptArticles(articles - {id}, rest, link) == articles - {id} - purged;
  }

  lemma ChildHasName(db: Table, id: int, path: string)
    requires Tree(db) && Child(db, id, path).Some?
    ensures var c := Child(db, id, path).value;
            c in db && c != ROOT && db[c] == Row(id, path) && path != ""
  {
  }

  /** Looking up the link of a child leaves no extra exactly if there is such a child. */
  lemma NewLink(db: Table, pid: int, name: string)
    requires Tree(db) && Known(db, pid) && GoodName(name)
    ensures var (id, link, extra) := Walk(db, ROOT, LinkOf(db, pid) + name + "/", "");
            extra == "" <==> Child(db, pid, name).Some?
  {
    WalkThrough(db, pid, name + "/");
    ConcatAssoc(LinkOf(db, pid), name, "/");
    NameThenSlash(name, "");
    assert name + "/" + "" == name + "/";
    WalkStep(db, pid, name + "/", LinkOf(db, pid));
    var c := Child(db, pid, name);
    if c.Some? {
      NoChildOfNothing(db, c.value, LinkOf(db, pid) + name + "/");
    }
  }

  /** The caches agree with the table after a row that fits has been entered, and its article has been cached. */
  lemma InsertKeepsCaches(db: Table, articles: map<int, Article>, links: map<string, int>, id: int, row: Row)
    requires Agree(db, articles, links) && !Known(db, id) && Fits(db, id, row)
    ensures var link := LinkOf(db, row.parent) + row.path + "/";
            Agree(db[id := row], articles[id := Article(link, row.parent, row.path)], links[link := id])
  {
    WriteKeepsTree(db, id, row);
    forall x | Known(db, x)
      ensures !Ancestor(db, id, x)
    {
      UnknownIsNoAncestor(db, id, x);
    }
    LinkOfChild(db[id := row], id);
  }

  lemma CachedLink(db: Table, articles: map<int, Article>, links: map<string, int>, id: int)
    requires Agree(db, articles, links) && id in articles
    ensures Known(db, id) && LinkOf(db, id) in links && links[LinkOf(db, id)] == id
  {
    LinksDiffer(db, links[articles[id].link], id);
  }
}
