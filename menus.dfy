/** The dashboard's two-level menu (src/app/Services/Dashboard.php): top-level
    items keyed by normalised slug, each holding its own keyed children.
    The menu is a value here; the Dashboard class holds it in a field that
    its methods reassign. */
module Menus {
  import opened Values
  import opened PhpStrings
  import opened OrderedMaps
  import opened Sorting

  datatype SubItem = SubItem(slug: string, title: string, callback: Value, icon: string, position: int, parent: string)

  datatype TopItem = TopItem(slug: string, title: string, callback: Value, icon: string, position: int,
                             children: Dict<SubItem>)

  type Menu = Dict<TopItem>

  /** The arguments of one addMenu call. */
  datatype MenuOp = MenuOp(slug: string, title: string, callback: Value, icon: Option<string>, position: int,
                           parent: Option<string>)

  /** What findMenuItemBySlug returns when it finds something. */
  datatype Found = Top(top: TopItem) | Child(child: SubItem)

  const DefaultIcon := "dashicons-admin-generic"

  /** `str($slug)->trim('/')->lower()` */
  function Normalize(s: string): string {
    Lower(Trim(s, {'/'}))
  }

  lemma {:induction false} LowerKeepsTrimmed(t: string)
    requires Trimmed(t, {'/'})
    ensures Trimmed(Lower(t), {'/'})
  {
  }

  lemma LowerHasNoUpper(t: string)
    ensures forall i :: 0 <= i < |Lower(t)| ==> !('A' <= Lower(t)[i] <= 'Z')
  {
    forall i | 0 <= i < |Lower(t)| ensures !('A' <= Lower(t)[i] <= 'Z') {
      assert Lower(t)[i] == LowerChar(t[i]);
    }
  }

  /** A normalised slug has no slash at either end and no upper-case ASCII
      letter. */
  lemma NormalizeShape(s: string)
    ensures Trimmed(Normalize(s), {'/'})
    ensures forall i :: 0 <= i < |Normalize(s)| ==> !('A' <= Normalize(s)[i] <= 'Z')
  {
    TrimSpec(s, {'/'});
    LowerKeepsTrimmed(Trim(s, {'/'}));
    LowerHasNoUpper(Trim(s, {'/'}));
  }

  /** Normalising a normalised slug changes nothing. */
  lemma NormalizeIdempotent(s: string)
    ensures Normalize(Normalize(s)) == Normalize(s)
  {
    var n := Normalize(s);
    NormalizeShape(s);
    TrimLeftOfTrimmed(n, {'/'});
    TrimRightOfTrimmed(n, {'/'});
    assert Trim(n, {'/'}) == n;
    LowerIdempotent(Trim(s, {'/'}));
  }

  /** `$this->menu->firstWhere('slug', $slug)`, as the index it is found at. */
  function FirstWithSlug(menu: Menu, slug: string): (r: Option<nat>)
    ensures r.Some? ==> r.value < |menu| && menu[r.value].1.slug == slug
    ensures r.Some? ==> forall j :: 0 <= j < r.value ==> menu[j].1.slug != slug
    ensures r.None? ==> forall j :: 0 <= j < |menu| ==> menu[j].1.slug != slug
    decreases |menu|
  {
    if menu == [] then None
    else if menu[0].1.slug == slug then Some(0)
    else match FirstWithSlug(menu[1..], slug)
      case None => None
      case Some(i) => Some(i + 1)
  }

  /** addMenu: a top-level item is stored (or overwritten, children and
      all) under its normalised slug; an item with a truthy parent goes into
      the children of the first top-level item whose slug is the
      normalised parent, and nowhere when there is none. */
  function AddMenuTo(menu: Menu, op: MenuOp): Menu {
    var slug := Normalize(op.slug);
    var icon := op.icon.GetOr(DefaultIcon);
    if TruthyText(op.parent) then
      var parent := Normalize(op.parent.value);
      match FirstWithSlug(menu, parent)
      case None => menu
      case Some(i) =>
        var top := menu[i].1;
        var child := SubItem(slug, op.title, op.callback, icon, op.position, parent);
        menu[i := (menu[i].0, top.(children := Put(top.children, slug, child)))]
    else
      Put(menu, slug, TopItem(slug, op.title, op.callback, icon, op.position, []))
  }

  /** A sequence of addMenu calls, in order. */
  function ApplyOps(menu: Menu, ops: seq<MenuOp>): Menu
    decreases |ops|
  {
    if ops == [] then menu else AddMenuTo(ApplyOps(menu, ops[..|ops| - 1]), ops[|ops| - 1])
  }

  lemma ApplyOpsSnoc(menu: Menu, ops: seq<MenuOp>, op: MenuOp)
    ensures ApplyOps(menu, ops + [op]) == AddMenuTo(ApplyOps(menu, ops), op)
  {
    assert (ops + [op])[..|ops|] == ops;
  }

  /** One more operation of a list being applied in order. */
  lemma ApplyOpsStep(menu: Menu, done: seq<MenuOp>, rest: seq<MenuOp>, i: int)
    requires 0 <= i < |rest|
    ensures ApplyOps(menu, done + rest[..i + 1]) == AddMenuTo(ApplyOps(menu, done + rest[..i]), rest[i])
  {
    assert done + rest[..i + 1] == (done + rest[..i]) + [rest[i]];
    ApplyOpsSnoc(menu, done + rest[..i], rest[i]);
  }

  lemma ApplyTwo(menu: Menu, a: MenuOp, b: MenuOp)
    ensures ApplyOps(menu, [a, b]) == AddMenuTo(AddMenuTo(menu, a), b)
  {
    var ab := [a, b];
    assert ab[..1] == [a] && [a][..0] == [];
    assert ApplyOps(menu, ab) == AddMenuTo(ApplyOps(menu, [a]), b);
    assert ApplyOps(menu, [a]) == AddMenuTo(ApplyOps(menu, []), a);
  }

  lemma ApplyThree(menu: Menu, a: MenuOp, b: MenuOp, c: MenuOp)
    ensures ApplyOps(menu, [a, b, c]) == AddMenuTo(AddMenuTo(AddMenuTo(menu, a), b), c)
  {
    var ab, abc := [a, b], [a, b, c];
    assert abc[..2] == ab && ab[..1] == [a] && [a][..0] == [];
    assert ApplyOps(menu, abc) == AddMenuTo(ApplyOps(menu, ab), c);
    assert ApplyOps(menu, ab) == AddMenuTo(ApplyOps(menu, [a]), b);
    assert ApplyOps(menu, [a]) == AddMenuTo(ApplyOps(menu, []), a);
  }

  lemma {:induction false} ApplyOpsAppend(menu: Menu, a: seq<MenuOp>, b: seq<MenuOp>)
    ensures ApplyOps(menu, a + b) == ApplyOps(ApplyOps(menu, a), b)
    decreases |b|
  {
    if b == [] {
      assert a + b == a;
    } else {
      assert (a + b)[..|a + b| - 1] == a + b[..|b| - 1];
      ApplyOpsAppend(menu, a, b[..|b| - 1]);
    }
  }

  /** Keys are slugs, children are keyed by their slugs and name their
      parent's slug. */
  predicate WellFormed(menu: Menu) {
    DistinctKeys(menu) &&
    forall i :: 0 <= i < |menu| ==>
      menu[i].1.slug == menu[i].0 && DistinctKeys(menu[i].1.children) &&
      forall j :: 0 <= j < |menu[i].1.children| ==>
        menu[i].1.children[j].1.slug == menu[i].1.children[j].0 && menu[i].1.children[j].1.parent == menu[i].0
  }

  lemma ChildrenWellFormed(children: Dict<SubItem>, slug: string, child: SubItem, parent: string)
    requires DistinctKeys(children) && child.slug == slug && child.parent == parent
    requires forall j :: 0 <= j < |children| ==> children[j].1.slug == children[j].0 && children[j].1.parent == parent
    ensures DistinctKeys(Put(children, slug, child))
    ensures forall j :: 0 <= j < |Put(children, slug, child)| ==>
      Put(children, slug, child)[j].1.slug == Put(children, slug, child)[j].0 && Put(children, slug, child)[j].1.parent == parent
  {
    PutDistinct(children, slug, child);
    forall j | 0 <= j < |Put(children, slug, child)|
      ensures Put(children, slug, child)[j].1.slug == Put(children, slug, child)[j].0
      ensures Put(children, slug, child)[j].1.parent == parent
    {
      PutKeepsEntries(children, slug, child, j);
    }
  }

  lemma TopWellFormed(menu: Menu, slug: string, item: TopItem)
    requires WellFormed(menu) && item.slug == slug && item.children == []
    ensures WellFormed(Put(menu, slug, item))
  {
    var r := Put(menu, slug, item);
    PutDistinct(menu, slug, item);
    forall i | 0 <= i < |r|
      ensures r[i].1.slug == r[i].0 && DistinctKeys(r[i].1.children)
      ensures forall j :: 0 <= j < |r[i].1.children| ==>
        r[i].1.children[j].1.slug == r[i].1.children[j].0 && r[i].1.children[j].1.parent == r[i].0
    {
      PutKeepsEntries(menu, slug, item, i);
    }
  }

  /** addMenu keeps the menu well formed. */
  lemma AddMenuWellFormed(menu: Menu, op: MenuOp)
    requires WellFormed(menu)
    ensures WellFormed(AddMenuTo(menu, op))
  {
    var slug := Normalize(op.slug);
    var icon := op.icon.GetOr(DefaultIcon);
    if TruthyText(op.parent) {
      var parent := Normalize(op.parent.value);
      var found := FirstWithSlug(menu, parent);
      if found.Some? {
        var i := found.value;
        var top := menu[i].1;
        var child := SubItem(slug, op.title, op.callback, icon, op.position, parent);
        ChildrenWellFormed(top.children, slug, child, parent);
        var r := AddMenuTo(menu, op);
        assert r == menu[i := (menu[i].0, top.(children := Put(top.children, slug, child)))];
        assert Keys(r) == Keys(menu);
      }
    } else {
      TopWellFormed(menu, slug, TopItem(slug, op.title, op.callback, icon, op.position, []));
    }
  }

  lemma ApplyOpsWellFormed(menu: Menu, ops: seq<MenuOp>)
    requires WellFormed(menu)
    ensures WellFormed(ApplyOps(menu, ops))
    decreases |ops|
  {
    if ops != [] {
      ApplyOpsWellFormed(menu, ops[..|ops| - 1]);
      AddMenuWellFormed(ApplyOps(menu, ops[..|ops| - 1]), ops[|ops| - 1]);
    }
  }

  /** Without a parent, addMenu stores a fresh childless item under the
      normalised slug, replacing whatever was there, and leaves every other
      slug's item alone. */
  lemma AddTopLevel(menu: Menu, op: MenuOp, k: string)
    requires !TruthyText(op.parent)
    ensures Get(AddMenuTo(menu, op), Normalize(op.slug))
         == Some(TopItem(Normalize(op.slug), op.title, op.callback, op.icon.GetOr(DefaultIcon), op.position, []))
    ensures k != Normalize(op.slug) ==> Get(AddMenuTo(menu, op), k) == Get(menu, k)
  {
    var item := TopItem(Normalize(op.slug), op.title, op.callback, op.icon.GetOr(DefaultIcon), op.position, []);
    GetPut(menu, Normalize(op.slug), item, Normalize(op.slug));
    GetPut(menu, Normalize(op.slug), item, k);
  }

  /** With a truthy parent that no top-level item carries, addMenu stores
      nothing. */
  lemma AddOrphan(menu: Menu, op: MenuOp)
    requires TruthyText(op.parent)
    requires forall i :: 0 <= i < |menu| ==> menu[i].1.slug != Normalize(op.parent.value)
    ensures AddMenuTo(menu, op) == menu
  {
  }

  /** With a truthy parent that a top-level item carries, addMenu puts the
      item, tagged with that parent, among the parent's children under its
      normalised slug; the top-level keys do not change. */
  lemma AddChild(menu: Menu, op: MenuOp)
    requires WellFormed(menu) && TruthyText(op.parent)
    requires Has(menu, Normalize(op.parent.value))
    ensures Keys(AddMenuTo(menu, op)) == Keys(menu)
    ensures var p := Normalize(op.parent.value);
      Get(AddMenuTo(menu, op), p).Some? &&
      Get(Get(AddMenuTo(menu, op), p).value.children, Normalize(op.slug))
        == Some(SubItem(Normalize(op.slug), op.title, op.callback, op.icon.GetOr(DefaultIcon), op.position, p))
  {
    var p := Normalize(op.parent.value);
    var k :| 0 <= k < |menu| && menu[k].0 == p;
    var found := FirstWithSlug(menu, p);
    var i := found.value;
    assert menu[i].0 == p;
    assert i == k;
    var r := AddMenuTo(menu, op);
    var child := SubItem(Normalize(op.slug), op.title, op.callback, op.icon.GetOr(DefaultIcon), op.position, p);
    assert Keys(r) == Keys(menu);
    assert r[i].1.children == Put(menu[i].1.children, Normalize(op.slug), child);
    AddMenuWellFormed(menu, op);
    GetAt(r, i);
    GetPut(menu[i].1.children, Normalize(op.slug), child, Normalize(op.slug));
  }

  /** A top-level item without its children. */
  function Header(t: TopItem): TopItem {
    t.(children := [])
  }

  /** With a truthy parent, addMenu touches at most the children of the
      item stored under the normalised parent: every top-level slug keeps
      its item's own fields, and every other slug keeps its whole item. */
  lemma AddChildKeepsHeaders(menu: Menu, op: MenuOp, k: string)
    requires WellFormed(menu) && TruthyText(op.parent)
    ensures Get(AddMenuTo(menu, op), k).Some? == Get(menu, k).Some?
    ensures Get(menu, k).Some? ==> Header(Get(AddMenuTo(menu, op), k).value) == Header(Get(menu, k).value)
    ensures k != Normalize(op.parent.value) ==> Get(AddMenuTo(menu, op), k) == Get(menu, k)
  {
    var p := Normalize(op.parent.value);
    var found := FirstWithSlug(menu, p);
    if found.Some? {
      var i := found.value;
      var top := menu[i].1;
      var child := SubItem(Normalize(op.slug), op.title, op.callback, op.icon.GetOr(DefaultIcon), op.position, p);
      var newTop := top.(children := Put(top.children, Normalize(op.slug), child));
      assert menu[i].0 == p;
      PutAt(menu, p, newTop, i);
      GetPut(menu, p, newTop, k);
      GetAt(menu, i);
    }
  }

  /** Every operation of `ops` names a truthy parent. */
  predicate ChildOps(ops: seq<MenuOp>) {
    forall i :: 0 <= i < |ops| ==> TruthyText(ops[i].parent)
  }

  lemma {:induction false} ApplyChildOpsKeepsHeaders(menu: Menu, ops: seq<MenuOp>, k: string)
    requires WellFormed(menu) && ChildOps(ops)
    ensures Get(ApplyOps(menu, ops), k).Some? == Get(menu, k).Some?
    ensures Get(menu, k).Some? ==> Header(Get(ApplyOps(menu, ops), k).value) == Header(Get(menu, k).value)
    decreases |ops|
  {
    if ops != [] {
      var init := ops[..|ops| - 1];
      ApplyChildOpsKeepsHeaders(menu, init, k);
      ApplyOpsWellFormed(menu, init);
      AddChildKeepsHeaders(ApplyOps(menu, init), ops[|ops| - 1], k);
    }
  }

  /** A top-level item followed by items below existing parents: the item
      stays under its normalised slug with the fields it was added with,
      every other top-level item keeps its own fields, and no top-level
      slug goes. */
  lemma TopThenChildren(menu: Menu, top: MenuOp, children: seq<MenuOp>, k: string)
    requires WellFormed(menu) && !TruthyText(top.parent) && ChildOps(children)
    ensures var r := ApplyOps(menu, [top] + children);
      Get(r, Normalize(top.slug)).Some? &&
      Header(Get(r, Normalize(top.slug)).value)
        == TopItem(Normalize(top.slug), top.title, top.callback, top.icon.GetOr(DefaultIcon), top.position, [])
    ensures Has(menu, k) ==> Has(ApplyOps(menu, [top] + children), k)
    ensures k != Normalize(top.slug) && Get(menu, k).Some? ==>
      Get(ApplyOps(menu, [top] + children), k).Some? &&
      Header(Get(ApplyOps(menu, [top] + children), k).value) == Header(Get(menu, k).value)
  {
    var m1 := AddMenuTo(menu, top);
    ApplyOpsAppend(menu, [top], children);
    assert ApplyOps(menu, [top]) == m1 by {
      assert [top][..0] == [];
    }
    AddTopLevel(menu, top, k);
    AddMenuWellFormed(menu, top);
    ApplyChildOpsKeepsHeaders(m1, children, Normalize(top.slug));
    ApplyChildOpsKeepsHeaders(m1, children, k);
    if Has(menu, k) {
      AddMenuKeepsKeys(menu, top, k);
      assert Get(m1, k).Some?;
    }
  }

  /** addMenu never removes a top-level slug. */
  lemma AddMenuKeepsKeys(menu: Menu, op: MenuOp, k: string)
    requires Has(menu, k)
    ensures Has(AddMenuTo(menu, op), k)
  {
    if !TruthyText(op.parent) {
      PutKeys(menu, Normalize(op.slug), TopItem(Normalize(op.slug), op.title, op.callback, op.icon.GetOr(DefaultIcon), op.position, []));
    } else {
      assert Keys(AddMenuTo(menu, op)) == Keys(menu);
    }
  }

  lemma {:induction false} ApplyOpsKeepsKeys(menu: Menu, ops: seq<MenuOp>, k: string)
    requires Has(menu, k)
    ensures Has(ApplyOps(menu, ops), k)
    decreases |ops|
  {
    if ops != [] {
      ApplyOpsKeepsKeys(menu, ops[..|ops| - 1], k);
      AddMenuKeepsKeys(ApplyOps(menu, ops[..|ops| - 1]), ops[|ops| - 1], k);
    }
  }

  /** The first child whose slug is `slug`, scanning in order. */
  function FindChild(children: Dict<SubItem>, slug: string): (r: Option<SubItem>)
    ensures r.Some? ==> r.value.slug == slug && exists j :: 0 <= j < |children| && children[j].1 == r.value
    ensures r.None? ==> forall j :: 0 <= j < |children| ==> children[j].1.slug != slug
    decreases |children|
  {
    if children == [] then None
    else if children[0].1.slug == slug then Some(children[0].1)
    else
      var rest := FindChild(children[1..], slug);
      if rest.Some? then
        ghost var j :| 0 <= j < |children[1..]| && children[1..][j].1 == rest.value;
        assert children[j + 1].1 == rest.value;
        rest
      else rest
  }

  /** findMenuItemBySlug on an already normalised slug: each top-level item
      in order, then its children, first match wins. */
  function Find(menu: Menu, slug: string): Option<Found>
    decreases |menu|
  {
    if menu == [] then None
    else if menu[0].1.slug == slug then Some(Top(menu[0].1))
    else match FindChild(menu[0].1.children, slug)
      case Some(c) => Some(Child(c))
      case None => Find(menu[1..], slug)
  }

  predicate Carries(menu: Menu, slug: string) {
    exists i :: 0 <= i < |menu| && (menu[i].1.slug == slug || exists j :: 0 <= j < |menu[i].1.children| && menu[i].1.children[j].1.slug == slug)
  }

  /** findMenuItemBySlug finds something exactly when a top-level item or a
      child carries the slug, and what it finds is such an item. */
  lemma {:induction false} FindSpec(menu: Menu, slug: string)
    ensures Find(menu, slug).Some? <==> Carries(menu, slug)
    ensures Find(menu, slug).Some? && Find(menu, slug).value.Top? ==>
      Find(menu, slug).value.top.slug == slug && exists i :: 0 <= i < |menu| && menu[i].1 == Find(menu, slug).value.top
    ensures Find(menu, slug).Some? && Find(menu, slug).value.Child? ==>
      Find(menu, slug).value.child.slug == slug &&
      exists i, j :: 0 <= i < |menu| && 0 <= j < |menu[i].1.children| && menu[i].1.children[j].1 == Find(menu, slug).value.child
    decreases |menu|
  {
    if menu != [] && menu[0].1.slug != slug && FindChild(menu[0].1.children, slug).None? {
      FindSpec(menu[1..], slug);
      if Carries(menu, slug) {
        var i :| 0 <= i < |menu| && (menu[i].1.slug == slug || exists j :: 0 <= j < |menu[i].1.children| && menu[i].1.children[j].1.slug == slug);
        assert i > 0;
        assert menu[1..][i - 1] == menu[i];
      }
      if Carries(menu[1..], slug) {
        var i :| 0 <= i < |menu[1..]| && (menu[1..][i].1.slug == slug || exists j :: 0 <= j < |menu[1..][i].1.children| && menu[1..][i].1.children[j].1.slug == slug);
        assert menu[i + 1] == menu[1..][i];
      }
      if Find(menu, slug).Some? && Find(menu, slug).value.Top? {
        var i :| 0 <= i < |menu[1..]| && menu[1..][i].1 == Find(menu, slug).value.top;
        assert menu[i + 1] == menu[1..][i];
      }
      if Find(menu, slug).Some? && Find(menu, slug).value.Child? {
        var i, j :| 0 <= i < |menu[1..]| && 0 <= j < |menu[1..][i].1.children| && menu[1..][i].1.children[j].1 == Find(menu, slug).value.child;
        assert menu[i + 1] == menu[1..][i];
      }
    } else if menu != [] && menu[0].1.slug != slug {
      var c := FindChild(menu[0].1.children, slug).value;
      var j :| 0 <= j < |menu[0].1.children| && menu[0].1.children[j].1 == c;
      assert menu[0].1.children[j].1.slug == slug;
    }
  }

  function Position(e: (string, TopItem)): int { e.1.position }

  /** getMenu: the top-level items by ascending position. */
  function SortedMenu(menu: Menu): Menu {
    SortBy(menu, Position)
  }

  /** getMenu returns every top-level item once, by ascending position,
      items of equal position in the order they were added. */
  lemma SortedMenuSpec(menu: Menu)
    ensures Sorted(SortedMenu(menu), Position)
    ensures multiset(SortedMenu(menu)) == multiset(menu)
    ensures forall p :: Select(SortedMenu(menu), Position, p) == Select(menu, Position, p)
  {
    SortBySpec(menu, Position);
  }
}
