/**
 The heading tree of sconesite/Heading.cpp.
 */
module Headings {
  import opened Bytes
  import opened Decimals

  /** The value of a Heading object and all that hangs below it. */
  datatype Tree = Node(level: int, name: string, index: int, subs: seq<Tree>)

  datatype Mark = Mark(level: int, name: string, index: int)

  /** One map of the list that get_tree gives to scripts. */
  datatype Entry = Entry(level: int, name: string, anchor: string, section: string, subsection: nat, subs: seq<Entry>)

  lemma SplitAtDot(a: string, x: string, b: string, y: string)
    requires '.' !in a && '.' !in b && a + x == b + y
    requires (x == [] || x[0] == '.') && (y == [] || y[0] == '.')
    ensures a == b && x == y
  {
    var s := a + x;
    assert forall i | 0 <= i < |a| :: s[i] == a[i] && s[i] != '.';
    assert s == b + y && forall i | 0 <= i < |b| :: s[i] == b[i] && s[i] != '.';
    assert (|a| < |s| ==> s[|a|] == x[0]) && (|b| < |s| ==> s[|b|] == y[0]);
    assert |a| == |b|;
    assert a == s[..|a|] && b == s[..|b|];
    assert x == s[|a|..] && y == s[|b|..];
  }

  /** A section number is the same as another only if its first component and the rest are. */
  lemma ComponentsDiffer(m: nat, x: string, n: nat, y: string)
    requires (x == [] || x[0] == '.') && (y == [] || y[0] == '.')
    requires Decimal(m) + x == Decimal(n) + y
    ensures m == n && x == y
  {
    hide Decimal, FromDecimal;
    DecimalHasDigits(m);
    DecimalHasDigits(n);
    SplitAtDot(Decimal(m), x, Decimal(n), y);
    FromDecimalOfDecimal(m);
    FromDecimalOfDecimal(n);
  }

  // name_encode

  predicate IsAlnum(c: char) {
    '0' <= c <= '9' || 'A' <= c <= 'Z' || 'a' <= c <= 'z'
  }

  function ToUpper(c: char): char {
    if 'a' <= c <= 'z' then (c as int - 32) as char else c
  }

  function Encoded(name: string, first: bool): string {
    if name == [] then []
    else if IsAlnum(name[0]) then [if first then ToUpper(name[0]) else name[0]] + Encoded(name[1..], false)
    else Encoded(name[1..], true)
  }

  function Anchor(name: string): string {
    Encoded(name, true)
  }

  method NameEncode(name: string) returns (ret: string)
    ensures ret == Anchor(name)
  {
    ret := [];
    var first := true;
    for i := 0 to |name|
      invariant ret + Encoded(name[i..], first) == Anchor(name)
    {
      var c := name[i];
      assert name[i..][1..] == name[i + 1..];
      if IsAlnum(c) {
        ConcatAssoc(ret, [if first then ToUpper(c) else c], Encoded(name[i + 1..], false));
        ret := ret + [if first then ToUpper(c) else c];
        first := false;
      } else {
        first := true;
      }
    }
  }

  /** Letters and digits are those of ASCII, and a small letter is raised to its capital. */
  lemma AsciiLetters(c: char)
    ensures IsAlnum(c) <==> c in DIGITS || c in SMALL || c in CAPITALS
    ensures c !in SMALL ==> ToUpper(c) == c
    ensures forall k | 0 <= k < 26 :: ToUpper(SMALL[k]) == CAPITALS[k]
  {
    LetterCount();
    hide DIGITS, SMALL, CAPITALS;
    forall k: nat | k < 26
      ensures ToUpper(SMALL[k]) == CAPITALS[k]
    {
      LetterAt(k);
    }
    InAlphabet(c);
  }

  lemma InAlphabet(c: char)
    ensures |SMALL| == |CAPITALS| == 26 && |DIGITS| == 10
    ensures c in SMALL <==> 'a' <= c <= 'z'
    ensures c in CAPITALS <==> 'A' <= c <= 'Z'
    ensures c in DIGITS <==> '0' <= c <= '9'
  {
    LetterCount();
    hide DIGITS, SMALL, CAPITALS;
    if c in SMALL {
      var k: nat :| k < 26 && SMALL[k] == c;
      LetterAt(k);
    } else if 'a' <= c <= 'z' {
      LetterAt(c as int - 'a' as int);
    }
    if c in CAPITALS {
      var k: nat :| k < 26 && CAPITALS[k] == c;
      LetterAt(k);
    } else if 'A' <= c <= 'Z' {
      LetterAt(c as int - 'A' as int);
    }
    if c in DIGITS {
      var k: nat :| k < 10 && DIGITS[k] == c;
      DigitAt(k);
    } else if '0' <= c <= '9' {
      DigitAt(c as int - '0' as int);
    }
  }

  function CountAlnum(s: string): nat {
    if s == "" then 0 else (if IsAlnum(s[0]) then 1 else 0) + CountAlnum(s[1..])
  }

  /**
   An anchor has the letters and digits of the name in their order, with those raised that stand first or behind
   another character.
   */
  lemma {:induction false} EncodedAt(name: string, first: bool, i: nat)
    requires i < |name| && IsAlnum(name[i])
    ensures |Encoded(name, first)| == CountAlnum(name) > CountAlnum(name[..i])
    ensures Encoded(name, first)[CountAlnum(name[..i])] ==
            if (if i == 0 then first else !IsAlnum(name[i - 1])) then ToUpper(name[i]) else name[i]
    decreases |name|
  {
    hide IsAlnum, ToUpper;
    EncodedLength(name, first);
    if i > 0 {
      assert name[..i][1..] == name[1..][..i - 1] && name[..i][0] == name[0];
      EncodedAt(name[1..], !IsAlnum(name[0]), i - 1);
    }
  }

  /** The same for whole anchors, of which the first character is raised. */
  lemma AnchorAt(name: string, i: nat)
    requires i < |name| && IsAlnum(name[i])
    ensures |Anchor(name)| == CountAlnum(name) > CountAlnum(name[..i])
    ensures Anchor(name)[CountAlnum(name[..i])] ==
            if i == 0 || !IsAlnum(name[i - 1]) then ToUpper(name[i]) else name[i]
  {
    EncodedAt(name, true, i);
  }

  lemma {:induction false} EncodedLength(name: string, first: bool)
    ensures |Encoded(name, first)| == CountAlnum(name)
  {
    hide IsAlnum, ToUpper;
    if name != "" {
      EncodedLength(name[1..], !IsAlnum(name[0]));
    }
  }

  /** An anchor is empty exactly when the name has no letter and no digit. */
  lemma {:induction false} EmptyEncoded(name: string, first: bool)
    ensures Encoded(name, first) == [] <==> forall i | 0 <= i < |name| :: !IsAlnum(name[i])
  {
    if name != [] {
      EmptyEncoded(name[1..], true);
      assert forall i | 1 <= i < |name| :: name[i] == name[1..][i - 1];
    }
  }

  // The operations on values

  function Added(t: Tree, level: int, name: string, index: int): Tree
    decreases t
  {
    var n := |t.subs|;
    if n == 0 || t.subs[n - 1].level >= level then t.(subs := t.subs + [Node(level, name, index, [])])
    else t.(subs := t.subs[..n - 1] + [Added(t.subs[n - 1], level, name, index)])
  }

  lemma AddedOnce(t: Tree, level: int, name: string, index: int)
    ensures var n := |t.subs|;
            Added(t, level, name, index) ==
            if n == 0 || t.subs[n - 1].level >= level then t.(subs := t.subs + [Node(level, name, index, [])])
            else t.(subs := t.subs[..n - 1] + [Added(t.subs[n - 1], level, name, index)])
    ensures Root(Added(t, level, name, index)) == Root(t)
  {
  }

  function IndexLookup(t: Tree, k: int): Option<Tree>
    decreases t, 1
  {
    if t.index == k then Some(t) else IndexLookupIn(t.subs, k)
  }

  function IndexLookupIn(ts: seq<Tree>, k: int): Option<Tree>
    decreases ts, 0
  {
    if ts == [] then None
    else
      var f := IndexLookup(ts[0], k);
      if f.Some? then f else IndexLookupIn(ts[1..], k)
  }

  function AnchorLookup(t: Tree, k: int): string
    decreases t, 1
  {
    if t.index == k then Anchor(t.name)
    else
      var p := AnchorLookupIn(t.subs, k);
      if p == "" || t.index == 0 then p else Anchor(t.name) + "_" + p
  }

  function AnchorLookupIn(ts: seq<Tree>, k: int): string
    decreases ts, 0
  {
    if ts == [] then ""
    else
      var p := AnchorLookup(ts[0], k);
      if p != "" then p else AnchorLookupIn(ts[1..], k)
  }

  /** lookup_section over the children ts, the first of which has number sec. */
  function SectionLookup(ts: seq<Tree>, k: int, sec: nat): string
    decreases ts
  {
    if ts == [] then ""
    else if ts[0].index == k then Decimal(sec)
    else
      var s := SectionLookup(ts[0].subs, k, 1);
      if s != "" then Decimal(sec) + "." + s else SectionLookup(ts[1..], k, sec + 1)
  }

  function Join(nested: bool, prefix: string, sep: string, s: string): string {
    if nested then prefix + sep + s else s
  }

  /** get_tree over the children ts of a node, nested if that node's index is not 0. */
  function Entries(ts: seq<Tree>, sec: nat, nested: bool, anchor: string, section: string): seq<Entry>
    decreases ts
  {
    if ts == [] then []
    else
      var h := ts[0];
      var a := Join(nested, anchor, "_", Anchor(h.name));
      var s := Join(nested, section, ".", Decimal(sec));
      [Entry(h.level, h.name, a, s, sec, Entries(h.subs, 1, h.index != 0, a, s))] +
      Entries(ts[1..], sec + 1, nested, anchor, section)
  }

  lemma EntriesParts(ts: seq<Tree>, sec: nat, nested: bool, anchor: string, section: string)
    requires ts != []
    ensures var (h, es) := (ts[0], Entries(ts, sec, nested, anchor, section));
            var a, s := Join(nested, anchor, "_", Anchor(h.name)), Join(nested, section, ".", Decimal(sec));
            && es == [Entry(h.level, h.name, a, s, sec, Entries(h.subs, 1, h.index != 0, a, s))] + es[1..]
            && es[1..] == Entries(ts[1..], sec + 1, nested, anchor, section)
  {
    hide Join, Decimal, Anchor;
  }

  lemma NoEntries(nested: bool, sec: nat, anchor: string, section: string)
    ensures Entries([], sec, nested, anchor, section) == []
  {
  }

  // The class

  class Heading {
    const level: int
    const name: string
    const index: int
    var subs: seq<Heading>
    ghost var tree: Tree
    ghost var Repr: set<object>

    ghost predicate Valid()
      reads this, Repr
      decreases Repr
      ensures Valid() ==> this in Repr
    {
      && this in Repr
      && tree.level == level && tree.name == name && tree.index == index
      && |tree.subs| == |subs|
      && (forall i | 0 <= i < |subs| ::
            subs[i] in Repr && subs[i].Repr <= Repr && this !in subs[i].Repr &&
            subs[i].Valid() && subs[i].tree == tree.subs[i])
      && (forall i, j | 0 <= i < j < |subs| :: subs[i].Repr !! subs[j].Repr)
    }

    constructor (level: int, name: string, index: int)
      ensures Valid() && fresh(Repr)
      ensures tree == Node(level, name, index, [])
    {
      this.level := level;
      this.name := name;
      this.index := index;
      subs := [];
      tree := Node(level, name, index, []);
      Repr := {this};
    }

    method Clear()
      requires Valid()
      modifies this
      ensures Valid() && Repr <= old(Repr)
      ensures tree == old(tree).(subs := [])
    {
      subs := [];
      tree := tree.(subs := []);
      Repr := {this};
    }

    method PushBack(h: Heading)
      requires Valid() && h.Valid() && h.Repr !! Repr
      modifies this
      ensures Valid() && Repr == old(Repr) + h.Repr
      ensures tree == old(tree).(subs := old(tree).subs + [h.tree])
    {
      subs := subs + [h];
      tree := tree.(subs := tree.subs + [h.tree]);
      Repr := Repr + h.Repr;
    }

    method Add(level: int, name: string, index: int)
      requires Valid()
      modifies Repr
      decreases Repr
      ensures Valid() && fresh(Repr - old(Repr))
      ensures tree == Added(old(tree), level, name, index)
    {
      hide Added;
      AddedOnce(tree, level, name, index);
      var n := |subs|;
      if n == 0 || subs[n - 1].level >= level {
        var h := new Heading(level, name, index);
        PushBack(h);
      } else {
        var last := subs[n - 1];
        last.Add(level, name, index);
        tree := tree.(subs := tree.subs[..n - 1] + [last.tree]);
        Repr := Repr + last.Repr;
      }
    }

    method LookupIndex(k: int) returns (h: Heading?)
      requires Valid()
      decreases Repr
      ensures (h == null) == IndexLookup(tree, k).None?
      ensures h != null ==> h in Repr && h.Repr <= Repr && h.Valid() && Some(h.tree) == IndexLookup(tree, k)
    {
      if k == index {
        return this;
      }
      for i := 0 to |subs|
        invariant IndexLookup(tree, k) == IndexLookupIn(tree.subs[i..], k)
      {
        h := subs[i].LookupIndex(k);
        assert tree.subs[i..][1..] == tree.subs[i + 1..];
        if h != null {
          return;
        }
      }
      return null;
    }

    method LookupAnchor(k: int) returns (s: string)
      requires Valid()
      decreases Repr
      ensures s == AnchorLookup(tree, k)
    {
      if k == index {
        s := NameEncode(name);
        return;
      }
      for i := 0 to |subs|
        invariant AnchorLookupIn(tree.subs, k) == AnchorLookupIn(tree.subs[i..], k)
      {
        var p := subs[i].LookupAnchor(k);
        assert tree.subs[i..][1..] == tree.subs[i + 1..];
        if p != "" {
          if index == 0 {
            return p;
          }
          var own := NameEncode(name);
          return own + "_" + p;
        }
      }
      return "";
    }

    method LookupSection(k: int) returns (s: string)
      requires Valid()
      decreases Repr
      ensures s == SectionLookup(tree.subs, k, 1)
    {
      var sec := 0;
      for i := 0 to |subs|
        invariant sec == i
        invariant SectionLookup(tree.subs, k, 1) == SectionLookup(tree.subs[i..], k, i + 1)
      {
        var h := subs[i];
        sec := sec + 1;
        assert tree.subs[i..][1..] == tree.subs[i + 1..];
        if h.index == k {
          return Decimal(sec);
        } else {
          var str := h.LookupSection(k);
          if str != "" {
            return Decimal(sec) + "." + str;
          }
        }
      }
      return "";
    }

    method GetTree(anchorPrefix: string, sectionPrefix: string) returns (list: seq<Entry>)
      requires Valid()
      decreases Repr
      ensures list == Entries(tree.subs, 1, index != 0, anchorPrefix, sectionPrefix)
    {
      hide Entries, Decimal, Anchor;
      list := [];
      var s := 0;
      for i := 0 to |subs|
        invariant s == i
        invariant list + Entries(tree.subs[i..], i + 1, index != 0, anchorPrefix, sectionPrefix)
               == Entries(tree.subs, 1, index != 0, anchorPrefix, sectionPrefix)
      {
        var h := subs[i];
        var anchor := NameEncode(h.name);
        s := s + 1;
        var section := Decimal(s);
        if index != 0 {
          anchor := anchorPrefix + "_" + anchor;
          section := sectionPrefix + "." + section;
        }
        var below := h.GetTree(anchor, section);
        assert tree.subs[i..][1..] == tree.subs[i + 1..];
        EntriesParts(tree.subs[i..], i + 1, index != 0, anchorPrefix, sectionPrefix);
        ghost var rest := Entries(tree.subs[i + 1..], i + 2, index != 0, anchorPrefix, sectionPrefix);
        ConcatAssoc(list, [Entry(h.level, h.name, anchor, section, s, below)], rest);
        list := list + [Entry(h.level, h.name, anchor, section, s, below)];
      }
      NoEntries(index != 0, |subs| + 1, anchorPrefix, sectionPrefix);
    }
  }

  // What the tree looks like

  function Root(t: Tree): Mark {
    Mark(t.level, t.name, t.index)
  }

  /** All headings of a forest, parents first. */
  function Preorder(ts: seq<Tree>): seq<Mark>
    decreases ts
  {
    if ts == [] then [] else [Root(ts[0])] + Preorder(ts[0].subs) + Preorder(ts[1..])
  }

  function PreEntries(es: seq<Entry>): seq<Entry>
    decreases es
  {
    if es == [] then [] else [es[0]] + PreEntries(es[0].subs) + PreEntries(es[1..])
  }

  ghost predicate Deeper(ts: seq<Tree>, level: int) {
    forall i | 0 <= i < |ts| :: ts[i].level > level
  }

  ghost predicate Outline(t: Tree)
    decreases t, 1
  {
    Deeper(t.subs, t.level) && Shaped(t.subs)
  }

  /** Children are deeper than their parent, and no sibling is deeper than one before it. */
  ghost predicate Shaped(ts: seq<Tree>)
    decreases ts, 0
  {
    (forall i | 0 <= i < |ts| :: Outline(ts[i])) && (forall i, j | 0 <= i < j < |ts| :: ts[i].level >= ts[j].level)
  }

  lemma {:induction false} PreorderConcat(a: seq<Tree>, b: seq<Tree>)
    ensures Preorder(a + b) == Preorder(a) + Preorder(b)
    decreases |a|
  {
    if a == [] {
      assert a + b == b;
    } else {
      assert (a + b)[1..] == a[1..] + b;
      PreorderConcat(a[1..], b);
    }
  }

  lemma {:induction false} AddAppends(t: Tree, level: int, name: string, index: int)
    ensures Preorder(Added(t, level, name, index).subs) == Preorder(t.subs) + [Mark(level, name, index)]
    decreases t
  {
    var n := |t.subs|;
    var x := Node(level, name, index, []);
    if n == 0 || t.subs[n - 1].level >= level {
      PreorderConcat(t.subs, [x]);
      assert Preorder([x]) == [Root(x)];
    } else {
      var init, last := t.subs[..n - 1], t.subs[n - 1];
      var last' := Added(last, level, name, index);
      AddAppends(last, level, name, index);
      assert t.subs == init + [last];
      PreorderConcat(init, [last]);
      PreorderConcat(init, [last']);
      assert Preorder([last]) == [Root(last)] + Preorder(last.subs);
      assert Preorder([last']) == [Root(last)] + Preorder(last'.subs);
    }
  }

  lemma {:induction false} AddKeepsShape(t: Tree, level: int, name: string, index: int)
    requires Shaped(t.subs)
    ensures Shaped(Added(t, level, name, index).subs)
    ensures Deeper(t.subs, t.level) && level > t.level ==> Deeper(Added(t, level, name, index).subs, t.level)
    decreases t
  {
    hide Outline;
    var n, subs' := |t.subs|, Added(t, level, name, index).subs;
    if n == 0 || t.subs[n - 1].level >= level {
      LeafIsOutline(level, name, index);
    } else {
      var last := t.subs[n - 1];
      assert Outline(last);
      OutlineMeans(last);
      AddKeepsShape(last, level, name, index);
      OutlineMeans(Added(last, level, name, index));
    }
    assert forall i | 0 <= i < |subs'| :: Outline(subs'[i]);
  }

  lemma OutlineMeans(t: Tree)
    ensures Outline(t) <==> Deeper(t.subs, t.level) && Shaped(t.subs)
  {
  }

  lemma LeafIsOutline(level: int, name: string, index: int)
    ensures Outline(Node(level, name, index, []))
  {
  }

  /** A tree after one add for each of marks. */
  function Built(t: Tree, marks: seq<Mark>): Tree {
    if marks == [] then t
    else
      var m := marks[|marks| - 1];
      Added(Built(t, marks[..|marks| - 1]), m.level, m.name, m.index)
  }

  /** After any adds to an empty heading, its headings in preorder are those added, in order, and well shaped. */
  lemma {:induction false} BuiltIsOutline(t: Tree, marks: seq<Mark>)
    requires t.subs == []
    ensures Root(Built(t, marks)) == Root(t)
    ensures Preorder(Built(t, marks).subs) == marks && Shaped(Built(t, marks).subs)
  {
    if marks != [] {
      var init, m := marks[..|marks| - 1], marks[|marks| - 1];
      BuiltIsOutline(t, init);
      AddAppends(Built(t, init), m.level, m.name, m.index);
      AddKeepsShape(Built(t, init), m.level, m.name, m.index);
      assert marks == init + [m];
    }
  }

  lemma {:induction false} DeeperBelow(ts: seq<Tree>, level: int)
    requires Shaped(ts) && Deeper(ts, level)
    ensures forall p | 0 <= p < |Preorder(ts)| :: Preorder(ts)[p].level > level
    decreases ts
  {
    if ts != [] {
      DeeperBelow(ts[0].subs, level);
      DeeperBelow(ts[1..], level);
    }
  }

  /** The order of the headings and the shape leave no choice: there is only one such outline. */
  lemma {:induction false} OutlineIsUnique(f: seq<Tree>, g: seq<Tree>)
    requires Shaped(f) && Shaped(g) && Preorder(f) == Preorder(g)
    ensures f == g
    decreases f
  {
    hide Shaped;
    if f != [] && g != [] {
      var a, b, level := f[0], g[0], f[0].level;
      var fs, ft, gs, gt := Preorder(a.subs), Preorder(f[1..]), Preorder(b.subs), Preorder(g[1..]);
      FirstTree(f);
      FirstTree(g);
      SameSplit(fs, ft, gs, gt, Preorder(f)[1..], level);
      OutlineIsUnique(a.subs, b.subs);
      OutlineIsUnique(f[1..], g[1..]);
      assert f == [a] + f[1..] && g == [b] + g[1..];
    }
  }

  /** Of a well-shaped forest the first tree takes all headings up to the first that is no deeper than its root. */
  lemma FirstTree(f: seq<Tree>)
    requires f != [] && Shaped(f)
    ensures Shaped(f[0].subs) && Shaped(f[1..])
    ensures var (level, fs, ft) := (f[0].level, Preorder(f[0].subs), Preorder(f[1..]));
            && Preorder(f)[0] == Root(f[0]) && Preorder(f)[1..] == fs + ft
            && (forall p | 0 <= p < |fs| :: fs[p].level > level)
            && (ft != [] ==> ft[0].level <= level)
  {
    assert Outline(f[0]);
    DeeperBelow(f[0].subs, f[0].level);
    assert f[1..] != [] ==> Preorder(f[1..])[0] == Root(f[1]);
    ConcatAssoc([Root(f[0])], Preorder(f[0].subs), Preorder(f[1..]));
  }

  lemma SameSplit(fs: seq<Mark>, ft: seq<Mark>, gs: seq<Mark>, gt: seq<Mark>, all: seq<Mark>, level: int)
    requires all == fs + ft == gs + gt
    requires forall p | 0 <= p < |fs| :: fs[p].level > level
    requires forall p | 0 <= p < |gs| :: gs[p].level > level
    requires ft != [] ==> ft[0].level <= level
    requires gt != [] ==> gt[0].level <= level
    ensures fs == gs && ft == gt
  {
    assert forall p | 0 <= p < |fs| :: all[p] == fs[p];
    assert forall p | 0 <= p < |gs| :: all[p] == gs[p];
    assert (|fs| < |all| ==> all[|fs|] == ft[0]) && (|gs| < |all| ==> all[|gs|] == gt[0]);
    assert fs == all[..|fs|] && gs == all[..|gs|];
    assert ft == all[|fs|..] && gt == all[|gs|..];
  }

  // What the lookups find

  ghost predicate Has(ms: seq<Mark>, k: int) {
    exists m :: m in ms && m.index == k
  }

  ghost predicate Numbered(ms: seq<Mark>) {
    && (forall p | 0 <= p < |ms| :: ms[p].index != 0)
    && (forall p, q | 0 <= p < q < |ms| :: ms[p].index != ms[q].index)
  }

  lemma NumberedParts(a: seq<Mark>, b: seq<Mark>, k: int)
    ensures Has(a + b, k) <==> Has(a, k) || Has(b, k)
    ensures Numbered(a + b) ==> Numbered(a) && Numbered(b) && !(Has(a, k) && Has(b, k))
  {
    var all := a + b;
    assert forall m :: m in all <==> m in a || m in b;
    if Numbered(all) {
      assert forall p | 0 <= p < |b| :: b[p] == all[|a| + p];
      assert forall p | 0 <= p < |a| :: a[p] == all[p];
      if Has(a, k) {
        var m :| m in a && m.index == k;
        var p :| 0 <= p < |a| && a[p] == m;
        assert forall q | 0 <= q < |b| :: all[p].index != all[|a| + q].index && all[|a| + q] == b[q];
      }
    }
  }

  /** The three parts of a forest's preorder: the first root, the headings below it, and the rest. */
  lemma PreorderParts(ts: seq<Tree>, k: int)
    requires ts != []
    ensures var (all, below, rest) := (Preorder(ts), Preorder(ts[0].subs), Preorder(ts[1..]));
            && all == [Root(ts[0])] + below + rest
            && (Has(all, k) <==> ts[0].index == k || Has(below, k) || Has(rest, k))
            && (Numbered(all) ==>
                 && Numbered(below) && Numbered(rest) && ts[0].index != 0
                 && !(Has(below, k) && Has(rest, k)) && (ts[0].index == k ==> !Has(below, k) && !Has(rest, k)))
  {
    hide Has, Numbered;
    var first, below, rest := [Root(ts[0])], Preorder(ts[0].subs), Preorder(ts[1..]);
    NumberedParts(first + below, rest, k);
    NumberedParts(first, below, k);
    OneMark(first[0], k);
  }

  lemma OneMark(m: Mark, k: int)
    ensures Has([m], k) <==> m.index == k
    ensures Numbered([m]) <==> m.index != 0
  {
    assert m in [m] && [m][0] == m;
  }

  lemma {:induction false} LookupsMiss(ts: seq<Tree>, k: int, sec: nat)
    requires !Has(Preorder(ts), k)
    ensures SectionLookup(ts, k, sec) == "" && AnchorLookupIn(ts, k) == "" && IndexLookupIn(ts, k).None?
    decreases ts
  {
    if ts != [] {
      PreorderParts(ts, k);
      LookupsMiss(ts[0].subs, k, 1);
      LookupsMiss(ts[1..], k, sec + 1);
    }
  }

  /** lookup_index finds exactly the headings there are, and the one it was asked for. */
  lemma {:induction false} IndexIsFound(ts: seq<Tree>, k: int)
    ensures IndexLookupIn(ts, k).Some? <==> Has(Preorder(ts), k)
    ensures IndexLookupIn(ts, k).Some? ==>
              var m := Root(IndexLookupIn(ts, k).value);
              m.index == k && m in Preorder(ts)
    decreases ts
  {
    if ts != [] {
      PreorderParts(ts, k);
      assert Root(ts[0]) == Preorder(ts)[0];
      IndexIsFound(ts[0].subs, k);
      IndexIsFound(ts[1..], k);
    }
  }

  ghost predicate AtTop(ts: seq<Tree>, k: int) {
    exists i :: 0 <= i < |ts| && ts[i].index == k
  }

  lemma {:induction false} TopIsIn(ts: seq<Tree>, k: int)
    ensures AtTop(ts, k) ==> Has(Preorder(ts), k)
    ensures ts != [] ==> (AtTop(ts, k) <==> ts[0].index == k || AtTop(ts[1..], k))
    decreases |ts|
  {
    if ts != [] {
      PreorderParts(ts, k);
      TopIsIn(ts[1..], k);
      assert forall i | 1 <= i < |ts| :: ts[i] == ts[1..][i - 1];
    }
  }

  /** The entry e of get_tree, under anchor prefix pre, is the one the lookups describe for the heading m. */
  ghost predicate Described(e: Entry, m: Mark, ts: seq<Tree>, sec: nat, nested: bool, anchor: string, section: string) {
    var found := AnchorLookupIn(ts, m.index);
    && e.level == m.level && e.name == m.name
    && e.section == Join(nested, section, ".", SectionLookup(ts, m.index, sec))
    && SectionLookup(ts, m.index, sec) != ""
    && (found == "" <==> Anchor(m.name) == "")
    && |e.anchor| >= |Join(nested, anchor, "_", "")|
    && (e.anchor == Join(nested, anchor, "_", found) <==> Anchor(m.name) != "" || AtTop(ts, m.index))
  }

  lemma HeadDescribed(ts: seq<Tree>, sec: nat, nested: bool, anchor: string, section: string)
    requires ts != [] && Numbered(Preorder(ts))
    ensures Described(Entries(ts, sec, nested, anchor, section)[0], Root(ts[0]), ts, sec, nested, anchor, section)
  {
    PreorderParts(ts, ts[0].index);
    LookupsMiss(ts[1..], ts[0].index, sec + 1);
  }

  lemma BelowDescribed(e: Entry, m: Mark, ts: seq<Tree>, sec: nat, nested: bool, anchor: string, section: string)
    requires ts != [] && Numbered(Preorder(ts)) && Has(Preorder(ts[0].subs), m.index)
    requires Described(e, m, ts[0].subs, 1, true, Join(nested, anchor, "_", Anchor(ts[0].name)),
                       Join(nested, section, ".", Decimal(sec)))
    ensures Described(e, m, ts, sec, nested, anchor, section)
  {
    hide Decimal, Anchor, Has;
    PreorderParts(ts, m.index);
    TopIsIn(ts, m.index);
    TopIsIn(ts[1..], m.index);
    LookupsMiss(ts[1..], m.index, sec + 1);
    var h, k := ts[0], m.index;
    var found, number := AnchorLookupIn(h.subs, k), SectionLookup(h.subs, k, 1);
    assert SectionLookup(ts, k, sec) == Decimal(sec) + "." + number;
    assert AnchorLookupIn(ts, k) == if found == "" then "" else Anchor(h.name) + "_" + found;
    JoinAssoc(nested, section, ".", Decimal(sec), number);
    JoinAssoc(nested, anchor, "_", Anchor(h.name), found);
  }

  lemma JoinAssoc(nested: bool, prefix: string, sep: string, s: string, t: string)
    ensures Join(true, Join(nested, prefix, sep, s), sep, t) == Join(nested, prefix, sep, s + sep + t)
  {
  }

  lemma RestDescribed(e: Entry, m: Mark, ts: seq<Tree>, sec: nat, nested: bool, anchor: string, section: string)
    requires ts != [] && Numbered(Preorder(ts)) && Has(Preorder(ts[1..]), m.index)
    requires Described(e, m, ts[1..], sec + 1, nested, anchor, section)
    ensures Described(e, m, ts, sec, nested, anchor, section)
  {
    hide Decimal, Anchor, Has;
    PreorderParts(ts, m.index);
    TopIsIn(ts, m.index);
    LookupsMiss(ts[0].subs, m.index, 1);
    assert SectionLookup(ts, m.index, sec) == SectionLookup(ts[1..], m.index, sec + 1);
    assert AnchorLookupIn(ts, m.index) == AnchorLookupIn(ts[1..], m.index);
  }

  lemma {:induction false} EntriesDescribed(ts: seq<Tree>, sec: nat, nested: bool, anchor: string, section: string,
                                            p: nat)
    requires Numbered(Preorder(ts)) && p < |Preorder(ts)|
    ensures var es := PreEntries(Entries(ts, sec, nested, anchor, section));
            |es| == |Preorder(ts)| && Described(es[p], Preorder(ts)[p], ts, sec, nested, anchor, section)
    decreases ts
  {
    hide Described, Numbered, Entries, Preorder, Join, Decimal, Anchor;
    PreorderIsSome(ts);
    var h, m := ts[0], Preorder(ts)[p];
    var a, s := Join(nested, anchor, "_", Anchor(h.name)), Join(nested, section, ".", Decimal(sec));
    var n := |Preorder(h.subs)|;
    var es, below := Entries(ts, sec, nested, anchor, section), Entries(h.subs, 1, true, a, s);
    EntriesParts(ts, sec, nested, anchor, section);
    PreorderParts(ts, m.index);
    EntryCount(h.subs, 1, true, a, s);
    EntryCount(ts[1..], sec + 1, nested, anchor, section);
    assert PreEntries(es) == [es[0]] + PreEntries(below) + PreEntries(es[1..]);
    if p == 0 {
      HeadDescribed(ts, sec, nested, anchor, section);
    } else if p <= n {
      EntriesDescribed(h.subs, 1, true, a, s, p - 1);
      assert m == Preorder(h.subs)[p - 1] && m in Preorder(h.subs);
      BelowDescribed(PreEntries(es)[p], m, ts, sec, nested, anchor, section);
    } else {
      EntriesDescribed(ts[1..], sec + 1, nested, anchor, section, p - 1 - n);
      assert m == Preorder(ts[1..])[p - 1 - n] && m in Preorder(ts[1..]);
      RestDescribed(PreEntries(es)[p], m, ts, sec, nested, anchor, section);
    }
  }

  lemma PreorderIsSome(ts: seq<Tree>)
    ensures Preorder(ts) != [] ==> ts != []
  {
  }

  lemma {:induction false} EntryCount(ts: seq<Tree>, sec: nat, nested: bool, anchor: string, section: string)
    ensures |PreEntries(Entries(ts, sec, nested, anchor, section))| == |Preorder(ts)|
    decreases ts
  {
    if ts != [] {
      var h := ts[0];
      var a, s := Join(nested, anchor, "_", Anchor(h.name)), Join(nested, section, ".", Decimal(sec));
      EntryCount(h.subs, 1, h.index != 0, a, s);
      EntryCount(ts[1..], sec + 1, nested, anchor, section);
      assert Entries(ts, sec, nested, anchor, section)[1..] == Entries(ts[1..], sec + 1, nested, anchor, section);
    }
  }

  /** Different headings have different sections. */
  lemma {:induction false} SectionsDiffer(ts: seq<Tree>, j: int, k: int, sec: nat)
    requires SectionLookup(ts, j, sec) == SectionLookup(ts, k, sec) != ""
    ensures j == k
    decreases ts
  {
    var m, x := SectionHead(ts, j, sec);
    var n, y := SectionHead(ts, k, sec);
    ComponentsDiffer(m, x, n, y);
    var h := ts[m - sec];
    if x != "" {
      assert x[1..] == SectionLookup(h.subs, j, 1) && y[1..] == SectionLookup(h.subs, k, 1);
      SectionsDiffer(h.subs, j, k, 1);
    }
  }

  /** A section is the number of a top heading, followed by nothing or by the section below that heading. */
  lemma {:induction false} SectionHead(ts: seq<Tree>, k: int, sec: nat) returns (m: nat, x: string)
    requires SectionLookup(ts, k, sec) != ""
    ensures sec <= m < sec + |ts|
    ensures SectionLookup(ts, k, sec) == Decimal(m) + x
    ensures x == "" ==> ts[m - sec].index == k
    ensures x != "" ==> SectionLookup(ts[m - sec].subs, k, 1) != "" && x == "." + SectionLookup(ts[m - sec].subs, k, 1)
    decreases |ts|
  {
    if ts[0].index == k {
      m, x := sec, "";
    } else if SectionLookup(ts[0].subs, k, 1) != "" {
      m, x := sec, "." + SectionLookup(ts[0].subs, k, 1);
    } else {
      m, x := SectionHead(ts[1..], k, sec + 1);
    }
  }

  /**
   For every heading of a document, get_tree gives the section that lookup_section gives; and it gives the anchor
   that lookup_anchor gives exactly when the name has a letter or digit or the heading is at the top.
   */
  lemma LookupsAgree(doc: Tree, marks: seq<Mark>, p: nat)
    requires doc.subs == [] && doc.index == 0 && Numbered(marks) && p < |marks|
    ensures var t := Built(doc, marks);
            var es := PreEntries(Entries(t.subs, 1, t.index != 0, "", ""));
            && |es| == |marks| && es[p].level == marks[p].level && es[p].name == marks[p].name
            && es[p].section == SectionLookup(t.subs, marks[p].index, 1) != ""
            && (es[p].anchor == AnchorLookup(t, marks[p].index) <==>
                 Anchor(marks[p].name) != "" || AtTop(t.subs, marks[p].index))
            && IndexLookup(t, marks[p].index).Some? && Root(IndexLookup(t, marks[p].index).value) == marks[p]
  {
    var t, k := Built(doc, marks), marks[p].index;
    BuiltIsOutline(doc, marks);
    EntriesDescribed(t.subs, 1, false, "", "", p);
    IndexIsFound(t.subs, k);
    assert Has(marks, k);
  }

  /** A heading named "-" below a heading "A": lookup_anchor gives nothing where get_tree gives "A_". */
  lemma AnchorsDisagree()
    ensures var subs := [Node(2, "A", 1, [Node(3, "-", 2, [])])];
            && AnchorLookup(Node(1, "doc", 0, subs), 2) == ""
            && Entries(subs, 1, false, "", "")[0].subs[0].anchor == "A_"
  {
  }
}
