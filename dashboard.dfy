/** The dashboard service (src/app/Services/Dashboard.php): the registry of
    post types, settings and the admin menu, and the hook manager it fires
    its actions through. Its collections are fields that its methods
    reassign; the post type records it holds are objects whose taxonomy
    and meta-box maps it writes in place. */
module Dashboards {
  import opened Values
  import opened PhpStrings
  import opened OrderedMaps
  import opened Sorting
  import opened HookRegistry
  import opened PostTypes
  import opened Menus

  /** The arguments the dashboard passes to its actions. */
  datatype Arg = Text(text: string) | PostTypeArg(postType: CustomPostType) | DashboardArg(dashboard: Dashboard)

  /** A `string|array` post type argument: one id or a list of ids. */
  datatype Targets = One(id: string) | Many(ids: seq<string>)

  /** `is_array($postType) ? $postType : [$postType]` */
  function TargetIds(t: Targets): seq<string> {
    match t
    case One(id) => [id]
    case Many(ids) => ids
  }

  ghost function ObjectsIn(pts: Dict<CustomPostType>): set<CustomPostType> {
    set i | 0 <= i < |pts| :: pts[i].1
  }

  /** `$a['key'] ?? $fallback` read from an array-valued property and used
      as a string: the fallback when the array has no non-null entry under
      the key. */
  function TextOr(v: Value, key: string, fallback: string): string {
    if v.Dict? && key in v.entries && !v.entries[key].Null? then ToText(v.entries[key]) else fallback
  }

  /** The same lookup on a configuration map. */
  function EntryTextOr(m: map<string, Value>, key: string, fallback: string): string {
    if key in m && !m[key].Null? then ToText(m[key]) else fallback
  }

  // ---------------------------------------------------------------------
  // Meta boxes

  /** The configuration addMetaBox hands to registerMetaBox. */
  function MetaBoxConfig(id: string, title: string, callback: Value, priority: int, callbackArgs: seq<Value>): map<string, Value> {
    map["id" := Str(id), "title" := Str(title), "callback" := callback, "priority" := Int(priority),
        "callback_args" := List(callbackArgs)]
  }

  /** A meta box added through the dashboard has the id, title, callback,
      priority and arguments it was given, and the `normal` context, which
      addMetaBox never overrides. */
  lemma AddedMetaBoxSpec(id: string, title: string, callback: Value, priority: int, callbackArgs: seq<Value>)
    ensures var box := MetaBoxDefaults(id) + MetaBoxConfig(id, title, callback, priority, callbackArgs);
      box == map["id" := Str(id), "title" := Str(title), "callback" := callback, "context" := Str("normal"),
                 "priority" := Int(priority), "callback_args" := List(callbackArgs)]
  {
    var box := MetaBoxDefaults(id) + MetaBoxConfig(id, title, callback, priority, callbackArgs);
    assert box.Keys == {"id", "title", "callback", "context", "priority", "callback_args"};
  }

  /** `$context === null || $metaBox['context'] === $context` */
  predicate ContextMatches(box: map<string, Value>, context: Option<string>) {
    context.None? || ("context" in box && box["context"] == Str(context.value))
  }

  /** The sort key of getMetaBoxes: an integer priority (see README for
      priorities of other types). */
  function BoxPriority(e: (string, map<string, Value>)): int {
    if "priority" in e.1 && e.1["priority"].Int? then e.1["priority"].i else 0
  }

  function ContextFlags(boxes: Dict<map<string, Value>>, context: Option<string>): (r: seq<bool>)
    ensures |r| == |boxes| && forall i :: 0 <= i < |boxes| ==> r[i] == ContextMatches(boxes[i].1, context)
  {
    seq(|boxes|, i requires 0 <= i < |boxes| => ContextMatches(boxes[i].1, context))
  }

  /** The boxes of one post type that getMetaBoxes returns. */
  function MetaBoxesOf(boxes: Dict<map<string, Value>>, context: Option<string>): Dict<map<string, Value>> {
    SortBy(Where(boxes, ContextFlags(boxes, context)), BoxPriority)
  }

  /** getMetaBoxes returns exactly the boxes in the requested context (all
      of them without one), keyed as they were stored, by ascending
      priority, boxes of equal priority in the order they were added. */
  lemma MetaBoxesSpec(boxes: Dict<map<string, Value>>, context: Option<string>)
    ensures Sorted(MetaBoxesOf(boxes, context), BoxPriority)
    ensures forall j :: 0 <= j < |MetaBoxesOf(boxes, context)| ==>
      MetaBoxesOf(boxes, context)[j] in boxes && ContextMatches(MetaBoxesOf(boxes, context)[j].1, context)
    ensures forall i :: 0 <= i < |boxes| && ContextMatches(boxes[i].1, context) ==> boxes[i] in MetaBoxesOf(boxes, context)
    ensures forall p :: Select(MetaBoxesOf(boxes, context), BoxPriority, p) == Select(Where(boxes, ContextFlags(boxes, context)), BoxPriority, p)
  {
    var kept := Where(boxes, ContextFlags(boxes, context));
    SortBySpec(kept, BoxPriority);
    var r := MetaBoxesOf(boxes, context);
    forall j | 0 <= j < |r| ensures r[j] in boxes && ContextMatches(r[j].1, context) {
      assert r[j] in multiset(kept);
      WhereMatches(boxes, context, r[j]);
    }
    forall i | 0 <= i < |boxes| && ContextMatches(boxes[i].1, context) ensures boxes[i] in r {
      assert boxes[i] in multiset(kept);
    }
  }

  lemma {:induction false} WhereMatches(boxes: Dict<map<string, Value>>, context: Option<string>, e: (string, map<string, Value>))
    requires e in Where(boxes, ContextFlags(boxes, context))
    ensures e in boxes && ContextMatches(e.1, context)
    decreases |boxes|
  {
    var flags := ContextFlags(boxes, context);
    if boxes != [] {
      assert flags[1..] == ContextFlags(boxes[1..], context);
      if !(flags[0] && e == boxes[0]) {
        WhereMatches(boxes[1..], context, e);
      }
    }
  }

  // ---------------------------------------------------------------------
  // Taxonomies

  /** What the dashboard reads of a registered post type when it derives
      menu items and looks up taxonomies. */
  datatype PostTypeView = PostTypeView(
    id: string, showUi: bool, showInMenu: bool, labels: Value, menuIcon: string, menuPosition: int,
    taxonomies: Dict<map<string, Value>>)

  function ViewOf(id: string, t: CustomPostType): PostTypeView
    reads t
  {
    PostTypeView(id, t.showUi, t.showInMenu, t.labels, t.menuIcon, t.menuPosition, t.taxonomies)
  }

  lemma ObjectsInTail(pts: Dict<CustomPostType>)
    requires pts != []
    ensures ObjectsIn(pts[1..]) <= ObjectsIn(pts)
  {
    forall t | t in ObjectsIn(pts[1..]) ensures t in ObjectsIn(pts) {
      var i :| 0 <= i < |pts[1..]| && pts[1..][i].1 == t;
      assert pts[i + 1].1 == t;
    }
  }

  /** The registered post types as the dashboard sees them, in order. */
  function Views(pts: Dict<CustomPostType>): (r: seq<PostTypeView>)
    reads ObjectsIn(pts)
    ensures |r| == |pts|
    ensures forall i :: 0 <= i < |pts| ==> r[i] == ViewOf(pts[i].0, pts[i].1)
    decreases |pts|
  {
    if pts == [] then []
    else
      assert pts[0].1 in ObjectsIn(pts);
      ObjectsInTail(pts);
      [ViewOf(pts[0].0, pts[0].1)] + Views(pts[1..])
  }

  /** The configuration of the first post type, in registration order,
      that has a taxonomy under `key`. */
  function FirstTaxonomy(views: seq<PostTypeView>, key: string): (r: Option<map<string, Value>>)
    decreases |views|
  {
    if views == [] then None
    else if Has(views[0].taxonomies, key) then Get(views[0].taxonomies, key)
    else FirstTaxonomy(views[1..], key)
  }

  /** A taxonomy lookup finds something exactly when some post type has a
      taxonomy under the key, and what it finds is that post type's
      configuration for it. */
  lemma {:induction false} FirstTaxonomySpec(views: seq<PostTypeView>, key: string)
    ensures FirstTaxonomy(views, key).Some? <==> exists i :: 0 <= i < |views| && Has(views[i].taxonomies, key)
    ensures FirstTaxonomy(views, key).Some? ==>
      exists i :: 0 <= i < |views| && Get(views[i].taxonomies, key) == FirstTaxonomy(views, key)
    decreases |views|
  {
    if views != [] && !Has(views[0].taxonomies, key) {
      FirstTaxonomySpec(views[1..], key);
      if exists i :: 0 <= i < |views| && Has(views[i].taxonomies, key) {
        var i :| 0 <= i < |views| && Has(views[i].taxonomies, key);
        assert views[1..][i - 1] == views[i];
      }
      if FirstTaxonomy(views, key).Some? {
        var i :| 0 <= i < |views[1..]| && Get(views[1..][i].taxonomies, key) == FirstTaxonomy(views, key);
        assert views[i + 1] == views[1..][i];
      }
    }
  }

  /** getTaxonomy as written looks up the null key, which PHP reads as "":
      a post type with a "category" taxonomy and nothing registered under ""
      makes `getTaxonomy('category')` null, while the lookup by the name it
      was given finds the taxonomy. */
  lemma GetTaxonomyMissesRegistered()
    ensures var views := [PostTypeView("post", true, true, Null, "dashicons-admin-post", 5,
                                       [("category", TaxonomyDefaults("category"))])];
      FirstTaxonomy(views, "") == None && FirstTaxonomy(views, "category") == Some(TaxonomyDefaults("category"))
  {
    var views := [PostTypeView("post", true, true, Null, "dashicons-admin-post", 5,
                               [("category", TaxonomyDefaults("category"))])];
    assert Keys(views[0].taxonomies) == ["category"];
  }

  // ---------------------------------------------------------------------
  // Settings

  /** The defaults registerSetting spreads the caller's arguments over. */
  function SettingDefaults(id: string, inflect: Inflector): map<string, Value> {
    map["label" := Str(inflect.headline(id)), "icon" := Str("dashicons-admin-tools"), "view" := Null, "callback" := Null]
  }

  /** A registered setting is labelled with the headline form of its id and
      has the tools icon, no view and no callback, unless the arguments say
      otherwise; every argument is kept as given. */
  lemma SettingSpec(id: string, args: map<string, Value>, inflect: Inflector)
    ensures var s := SettingDefaults(id, inflect) + args;
      s.Keys == args.Keys + {"label", "icon", "view", "callback"} &&
      s["label"] == (if "label" in args then args["label"] else Str(inflect.headline(id))) &&
      s["icon"] == (if "icon" in args then args["icon"] else Str("dashicons-admin-tools")) &&
      s["view"] == (if "view" in args then args["view"] else Null) &&
      s["callback"] == (if "callback" in args then args["callback"] else Null) &&
      forall k :: k in args ==> s[k] == args[k]
  {
  }

  // ---------------------------------------------------------------------
  // Registrations made by `cms_init` listeners

  /** What a `cms_init` listener does to the dashboard it is given: register
      a post type or a setting. */
  datatype Registration =
    | PostTypeRegistration(id: string, config: map<string, Value>)
    | SettingRegistration(id: string, args: map<string, Value>)

  /** Every post type registration carries a configuration PHP accepts. */
  predicate WellTypedRegistrations(regs: seq<Registration>) {
    forall r :: r in regs && r.PostTypeRegistration? ==> WellTypedConfig(r.config)
  }

  /** The settings after the setting registrations of `regs`, in order:
      registerSetting appends a new id and refuses a known one. */
  function SettingsAfter(settings: Dict<map<string, Value>>, regs: seq<Registration>, inflect: Inflector)
    : Dict<map<string, Value>>
    decreases |regs|
  {
    if regs == [] then settings
    else
      var n := |regs| - 1;
      var before := SettingsAfter(settings, regs[..n], inflect);
      match regs[n]
      case SettingRegistration(id, args) =>
        if Has(before, id) then before else before + [(id, SettingDefaults(id, inflect) + args)]
      case _ => before
  }

  /** The post type registrations of `regs` that registerPostType accepts,
      in order, given the ids registered before: the first registration of
      each id that is not registered yet. */
  function NewPostTypes(ids: seq<string>, regs: seq<Registration>): seq<(string, map<string, Value>)>
    decreases |regs|
  {
    if regs == [] then []
    else
      var n := |regs| - 1;
      var before := NewPostTypes(ids, regs[..n]);
      match regs[n]
      case PostTypeRegistration(id, config) =>
        if id in ids || Has(before, id) then before else before + [(id, config)]
      case _ => before
  }

  /** One more registration: a setting registration extends the settings
      and a post type registration the accepted post types, as their
      methods decide. */
  lemma RegistrationStep(ids: seq<string>, settings: Dict<map<string, Value>>, prefix: seq<Registration>,
                         reg: Registration, inflect: Inflector)
    ensures SettingsAfter(settings, prefix + [reg], inflect)
      == if reg.SettingRegistration? && !Has(SettingsAfter(settings, prefix, inflect), reg.id)
         then SettingsAfter(settings, prefix, inflect) + [(reg.id, SettingDefaults(reg.id, inflect) + reg.args)]
         else SettingsAfter(settings, prefix, inflect)
    ensures NewPostTypes(ids, prefix + [reg])
      == if reg.PostTypeRegistration? && !(reg.id in ids || Has(NewPostTypes(ids, prefix), reg.id))
         then NewPostTypes(ids, prefix) + [(reg.id, reg.config)]
         else NewPostTypes(ids, prefix)
  {
    assert (prefix + [reg])[..|prefix|] == prefix;
  }

  /** Every accepted registration is one of `regs` and names an id not
      registered before, each id at most once; every post type registration
      of `regs` names an id that was registered before or is accepted. */
  lemma {:induction false} NewPostTypesSpec(ids: seq<string>, regs: seq<Registration>)
    ensures DistinctKeys(NewPostTypes(ids, regs))
    ensures forall k :: 0 <= k < |NewPostTypes(ids, regs)| ==>
      NewPostTypes(ids, regs)[k].0 !in ids &&
      PostTypeRegistration(NewPostTypes(ids, regs)[k].0, NewPostTypes(ids, regs)[k].1) in regs
    ensures forall j :: 0 <= j < |regs| && regs[j].PostTypeRegistration? ==>
      regs[j].id in ids || Has(NewPostTypes(ids, regs), regs[j].id)
    decreases |regs|
  {
    if regs != [] {
      var n := |regs| - 1;
      var before := NewPostTypes(ids, regs[..n]);
      NewPostTypesSpec(ids, regs[..n]);
      assert regs == regs[..n] + [regs[n]];
      var r := NewPostTypes(ids, regs);
      forall k | k in Keys(before) ensures k in Keys(r) {
        var i :| 0 <= i < |before| && Keys(before)[i] == k;
        assert r[i] == before[i];
      }
      forall j | 0 <= j < |regs| && regs[j].PostTypeRegistration?
        ensures regs[j].id in ids || Has(r, regs[j].id)
      {
        if j < n {
          assert regs[..n][j] == regs[j];
        } else if r != before {
          assert r == before + [(regs[n].id, regs[n].config)];
          assert Keys(r)[|r| - 1] == regs[j].id;
        }
      }
    }
  }

  /** `t` is the record registerPostType builds for `id` and `config`:
      the configured properties, and no taxonomies or meta boxes yet. */
  ghost predicate BuiltFrom(t: CustomPostType, id: string, config: map<string, Value>, inflect: Inflector)
    reads t
  {
    WellTypedConfig(config) && t.id == id && t.taxonomies == [] && t.metaBoxes == [] &&
    forall p :: t.Property(p) == Coerced(p, Configured(p, id, config, inflect))
  }

  /** The records `added` are those registerPostType built for the
      accepted registrations `accepted`, one each, in order. */
  ghost predicate BuiltAll(added: Dict<CustomPostType>, accepted: seq<(string, map<string, Value>)>, inflect: Inflector)
    reads set k | 0 <= k < |added| :: added[k].1
  {
    |added| == |accepted| &&
    forall k :: 0 <= k < |added| ==> added[k].0 == accepted[k].0 && BuiltFrom(added[k].1, accepted[k].0, accepted[k].1, inflect)
  }

  lemma BuiltAllKeys(added: Dict<CustomPostType>, accepted: seq<(string, map<string, Value>)>, inflect: Inflector)
    requires BuiltAll(added, accepted, inflect)
    ensures Keys(added) == Keys(accepted)
  {
  }

  lemma BuiltAllAppend(a: Dict<CustomPostType>, x: seq<(string, map<string, Value>)>,
                       b: Dict<CustomPostType>, y: seq<(string, map<string, Value>)>, inflect: Inflector)
    requires BuiltAll(a, x, inflect) && BuiltAll(b, y, inflect)
    ensures BuiltAll(a + b, x + y, inflect)
  {
    forall k | 0 <= k < |a + b|
      ensures (a + b)[k].0 == (x + y)[k].0 && BuiltFrom((a + b)[k].1, (x + y)[k].0, (x + y)[k].1, inflect)
    {
      if k >= |a| {
        assert (a + b)[k] == b[k - |a|] && (x + y)[k] == y[k - |a|];
      }
    }
  }

  // ---------------------------------------------------------------------
  // Menu items derived by init

  const DashboardItem := MenuOp("/", "Dashboard", Null, Some("dashicons-dashboard"), 1, None)
  const SettingsItem := MenuOp("/settings", "Settings", Null, Some("dashicons-admin-generic"), 50, None)

  /** The child item of one setting. */
  function SettingMenuOp(key: string, setting: map<string, Value>, inflect: Inflector): MenuOp {
    MenuOp("/settings/" + key, EntryTextOr(setting, "label", inflect.headline(key)), Null,
           Some(EntryTextOr(setting, "icon", "dashicons-admin-tools")), 10, Some("/settings"))
  }

  function SettingMenuOps(settings: Dict<map<string, Value>>, inflect: Inflector): (r: seq<MenuOp>)
    ensures |r| == |settings|
    ensures forall i :: 0 <= i < |settings| ==> r[i] == SettingMenuOp(settings[i].0, settings[i].1, inflect)
  {
    seq(|settings|, i requires 0 <= i < |settings| => SettingMenuOp(settings[i].0, settings[i].1, inflect))
  }

  /** registerMenusItems: the dashboard item, then, when there are settings,
      the settings item and one child per setting. */
  function DefaultMenuOps(settings: Dict<map<string, Value>>, inflect: Inflector): seq<MenuOp> {
    [DashboardItem] + if |settings| > 0 then [SettingsItem] + SettingMenuOps(settings, inflect) else []
  }

  /** The plural name of a post type. */
  function PostTypeName(v: PostTypeView, inflect: Inflector): string {
    TextOr(v.labels, "name", inflect.plural(Ucfirst(v.id)))
  }

  /** The top-level item of a shown post type and its two children. */
  function PostTypeHeadOps(v: PostTypeView, inflect: Inflector): seq<MenuOp> {
    [ MenuOp(v.id, PostTypeName(v, inflect), Null, Some(v.menuIcon), v.menuPosition, None),
      MenuOp(v.id, "All " + PostTypeName(v, inflect), Null, Some("dashicons-editor-table"), 10, Some(v.id)),
      MenuOp(v.id + "/create", "Create " + TextOr(v.labels, "singular_name", inflect.singular(Ucfirst(v.id))), Null,
             Some("dashicons-plus"), 10, Some(v.id)) ]
  }

  function TaxonomyMenuOp(id: string, taxonomyId: string, taxonomy: map<string, Value>): MenuOp {
    var labels := if "labels" in taxonomy then taxonomy["labels"] else Null;
    MenuOp(id + "/" + taxonomyId, TextOr(labels, "name", Ucfirst(id)), Null, Some("dashicons-tag"), 20, Some(id))
  }

  function TaxonomyMenuOps(id: string, taxonomies: Dict<map<string, Value>>): (r: seq<MenuOp>)
    ensures |r| == |taxonomies|
    ensures forall i :: 0 <= i < |taxonomies| ==> r[i] == TaxonomyMenuOp(id, taxonomies[i].0, taxonomies[i].1)
  {
    seq(|taxonomies|, i requires 0 <= i < |taxonomies| => TaxonomyMenuOp(id, taxonomies[i].0, taxonomies[i].1))
  }

  /** The menu items of one post type: none unless it is shown in the UI
      and in the menu. */
  function PostTypeMenuOps(v: PostTypeView, inflect: Inflector): seq<MenuOp> {
    if v.showUi && v.showInMenu then PostTypeHeadOps(v, inflect) + TaxonomyMenuOps(v.id, v.taxonomies) else []
  }

  /** registerMenuItemsForCustomPostTypes: the items of every post type, in
      registration order. */
  function AllPostTypeMenuOps(views: seq<PostTypeView>, inflect: Inflector): seq<MenuOp>
    decreases |views|
  {
    if views == [] then []
    else AllPostTypeMenuOps(views[..|views| - 1], inflect) + PostTypeMenuOps(views[|views| - 1], inflect)
  }

  lemma NormalizeFixed()
    ensures Normalize("/") == ""
    ensures Normalize("/settings") == "settings"
  {
    var slash := {'/'};
    assert "/"[1..] == "";
    assert TrimLeft("/", slash) == TrimLeft("", slash);
    var s := "settings";
    assert "/settings"[1..] == s;
    assert TrimLeft("/settings", slash) == TrimLeft(s, slash);
    TrimLeftOfTrimmed(s, slash);
    TrimRightOfTrimmed(s, slash);
    assert Lower(s) == s by {
      forall i | 0 <= i < |s| ensures Lower(s)[i] == s[i] {
        assert !('A' <= s[i] <= 'Z');
      }
    }
  }

  lemma SettingMenuOpsAreChildren(settings: Dict<map<string, Value>>, inflect: Inflector)
    ensures ChildOps(SettingMenuOps(settings, inflect))
  {
    assert TruthyText(Some("/settings"));
  }

  /** After registerMenusItems the dashboard item sits at the empty slug
      with the fields it was added with, the settings item exists whenever
      a setting does, and no top-level slug has gone. */
  lemma DefaultMenuSpec(menu: Menu, settings: Dict<map<string, Value>>, inflect: Inflector, k: string)
    requires WellFormed(menu)
    ensures Get(ApplyOps(menu, DefaultMenuOps(settings, inflect)), "").Some?
    ensures Header(Get(ApplyOps(menu, DefaultMenuOps(settings, inflect)), "").value)
         == TopItem("", "Dashboard", Null, "dashicons-dashboard", 1, [])
    ensures |settings| > 0 ==> Has(ApplyOps(menu, DefaultMenuOps(settings, inflect)), "settings")
    ensures Has(menu, k) ==> Has(ApplyOps(menu, DefaultMenuOps(settings, inflect)), k)
  {
    NormalizeFixed();
    var ops := DefaultMenuOps(settings, inflect);
    if |settings| > 0 {
      var rest := SettingMenuOps(settings, inflect);
      SettingMenuOpsAreChildren(settings, inflect);
      assert ops == [DashboardItem] + ([SettingsItem] + rest);
      TwoTopsThenChildren(menu, DashboardItem, SettingsItem, rest, k);
    } else {
      assert ops == [DashboardItem] + [];
      TopThenChildren(menu, DashboardItem, [], "");
      TopThenChildren(menu, DashboardItem, [], k);
    }
  }

  lemma DefaultMenuOpsSplit(settings: Dict<map<string, Value>>, inflect: Inflector)
    requires |settings| > 0
    ensures DefaultMenuOps(settings, inflect) == [DashboardItem, SettingsItem] + SettingMenuOps(settings, inflect)
  {
  }

  lemma DefaultMenuOpsApplied(m0: Menu, m1: Menu, m2: Menu, m3: Menu, settings: Dict<map<string, Value>>, inflect: Inflector)
    requires |settings| > 0
    requires m1 == AddMenuTo(m0, DashboardItem) && m2 == AddMenuTo(m1, SettingsItem)
    requires m3 == ApplyOps(m2, SettingMenuOps(settings, inflect))
    ensures m3 == ApplyOps(m0, DefaultMenuOps(settings, inflect))
  {
    var rest := SettingMenuOps(settings, inflect);
    DefaultMenuOpsSplit(settings, inflect);
    calc {
      ApplyOps(m0, DefaultMenuOps(settings, inflect));
      ApplyOps(m0, [DashboardItem, SettingsItem] + rest);
      { ApplyOpsAppend(m0, [DashboardItem, SettingsItem], rest); }
      ApplyOps(ApplyOps(m0, [DashboardItem, SettingsItem]), rest);
      { ApplyTwo(m0, DashboardItem, SettingsItem); }
      ApplyOps(m2, rest);
    }
  }

  lemma AllPostTypeMenuOpsStep(menu: Menu, views: seq<PostTypeView>, i: int, inflect: Inflector)
    requires 0 <= i < |views|
    ensures ApplyOps(menu, AllPostTypeMenuOps(views[..i + 1], inflect))
         == ApplyOps(ApplyOps(menu, AllPostTypeMenuOps(views[..i], inflect)), PostTypeMenuOps(views[i], inflect))
  {
    assert views[..i + 1][..i] == views[..i];
    ApplyOpsAppend(menu, AllPostTypeMenuOps(views[..i], inflect), PostTypeMenuOps(views[i], inflect));
  }

  lemma PostTypeOpsApplied(m0: Menu, m1: Menu, m2: Menu, v: PostTypeView, inflect: Inflector)
    requires v.showUi
    requires var h := PostTypeHeadOps(v, inflect);
      if v.showInMenu then m1 == AddMenuTo(AddMenuTo(AddMenuTo(m0, h[0]), h[1]), h[2]) else m1 == m0
    requires m2 == ApplyOps(m1, if v.showInMenu then TaxonomyMenuOps(v.id, v.taxonomies) else [])
    ensures m2 == ApplyOps(m0, PostTypeMenuOps(v, inflect))
  {
    var h := PostTypeHeadOps(v, inflect);
    if v.showInMenu {
      ApplyThree(m0, h[0], h[1], h[2]);
      assert h == [h[0], h[1], h[2]];
      ApplyOpsAppend(m0, h, TaxonomyMenuOps(v.id, v.taxonomies));
    }
  }

  lemma TwoTopsThenChildren(menu: Menu, a: MenuOp, b: MenuOp, rest: seq<MenuOp>, k: string)
    requires WellFormed(menu) && !TruthyText(a.parent) && !TruthyText(b.parent) && ChildOps(rest)
    requires Normalize(a.slug) != Normalize(b.slug)
    ensures var r := ApplyOps(menu, [a] + ([b] + rest));
      Get(r, Normalize(a.slug)).Some? &&
      Header(Get(r, Normalize(a.slug)).value)
        == TopItem(Normalize(a.slug), a.title, a.callback, a.icon.GetOr(DefaultIcon), a.position, []) &&
      Has(r, Normalize(b.slug)) &&
      (Has(menu, k) ==> Has(r, k))
  {
    var m1 := ApplyOps(menu, [a]);
    assert [a] + [] == [a];
    TopThenChildren(menu, a, [], Normalize(a.slug));
    TopThenChildren(menu, a, [], k);
    ApplyOpsWellFormed(menu, [a]);
    ApplyOpsAppend(menu, [a], [b] + rest);
    TopThenChildren(m1, b, rest, Normalize(a.slug));
    TopThenChildren(m1, b, rest, k);
  }

  lemma PostTypeChildOps(v: PostTypeView, inflect: Inflector)
    requires v.showUi && v.showInMenu && TruthyText(Some(v.id))
    ensures PostTypeMenuOps(v, inflect)[0].parent.None?
    ensures ChildOps(PostTypeMenuOps(v, inflect)[1..])
  {
    var ops := PostTypeMenuOps(v, inflect);
    forall i | 0 <= i < |ops[1..]| ensures TruthyText(ops[1..][i].parent) {
      assert ops[1..][i] == ops[i + 1];
    }
  }

  /** After the items of a shown post type with a truthy id are added, its
      top-level item carries the post type's name, icon and position; its
      own children and the taxonomy items go below it. */
  lemma PostTypeMenuTop(menu: Menu, v: PostTypeView, inflect: Inflector)
    requires WellFormed(menu) && v.showUi && v.showInMenu && TruthyText(Some(v.id))
    ensures var r := ApplyOps(menu, PostTypeMenuOps(v, inflect));
      Get(r, Normalize(v.id)).Some? &&
      Header(Get(r, Normalize(v.id)).value)
        == TopItem(Normalize(v.id), PostTypeName(v, inflect), Null, v.menuIcon, v.menuPosition, [])
  {
    var ops := PostTypeMenuOps(v, inflect);
    PostTypeChildOps(v, inflect);
    assert ops == [ops[0]] + ops[1..];
    TopThenChildren(menu, ops[0], ops[1..], "");
  }

  /** Every post type shown in the UI and the menu gets a top-level item
      under its normalised id, and no earlier top-level slug goes. */
  lemma {:induction false} AllPostTypeMenuKeys(menu: Menu, views: seq<PostTypeView>, inflect: Inflector, k: string)
    requires Has(menu, k)
    ensures Has(ApplyOps(menu, AllPostTypeMenuOps(views, inflect)), k)
    decreases |views|
  {
    if views != [] {
      var n := |views| - 1;
      var initOps := AllPostTypeMenuOps(views[..n], inflect);
      AllPostTypeMenuKeys(menu, views[..n], inflect, k);
      ApplyOpsAppend(menu, initOps, PostTypeMenuOps(views[n], inflect));
      ApplyOpsKeepsKeys(ApplyOps(menu, initOps), PostTypeMenuOps(views[n], inflect), k);
    }
  }

  /** Every post type shown in the UI and the menu gets a top-level item
      under its normalised id, whatever the post types after it add. */
  lemma {:induction false} AllPostTypeMenuHas(menu: Menu, views: seq<PostTypeView>, inflect: Inflector, i: int)
    requires 0 <= i < |views| && views[i].showUi && views[i].showInMenu
    ensures Has(ApplyOps(menu, AllPostTypeMenuOps(views, inflect)), Normalize(views[i].id))
    decreases |views|
  {
    var n := |views| - 1;
    var initOps := AllPostTypeMenuOps(views[..n], inflect);
    var m := ApplyOps(menu, initOps);
    var ops := PostTypeMenuOps(views[n], inflect);
    ApplyOpsAppend(menu, initOps, ops);
    if i == n {
      var top := ops[0];
      assert ops == [top] + ops[1..];
      ApplyOpsAppend(m, [top], ops[1..]);
      assert ApplyOps(m, [top]) == AddMenuTo(m, top) by {
        assert [top][..0] == [];
      }
      AddTopLevel(m, top, Normalize(views[i].id));
      ApplyOpsKeepsKeys(AddMenuTo(m, top), ops[1..], Normalize(views[i].id));
    } else {
      assert views[..n][i] == views[i];
      AllPostTypeMenuHas(menu, views[..n], inflect, i);
      ApplyOpsKeepsKeys(m, ops, Normalize(views[i].id));
    }
  }

  // ---------------------------------------------------------------------

  class Dashboard {
    var menu: Menu
    const hooks: Hooks
    var postTypes: Dict<CustomPostType>
    var settings: Dict<map<string, Value>>
    /** The framework's inflection, which the dashboard and its post types use. */
    const inflect: Inflector

    ghost function Objects(): set<CustomPostType>
      reads this`postTypes
    {
      ObjectsIn(postTypes)
    }

    /** Post types and settings are keyed uniquely, each post type under its
        own id; the menu is well formed. */
    ghost predicate Valid()
      reads this, Objects()
    {
      DistinctKeys(postTypes) && DistinctKeys(settings) && WellFormed(menu) &&
      forall i :: 0 <= i < |postTypes| ==> postTypes[i].1.id == postTypes[i].0 && postTypes[i].1.Valid()
    }

    constructor (inflect: Inflector)
      ensures Valid() && this.inflect == inflect
      ensures menu == [] && postTypes == [] && settings == []
      ensures fresh(hooks) && hooks.Valid() && hooks.actions == map[] && hooks.filters == map[]
    {
      menu := [];
      hooks := new Hooks();
      postTypes := [];
      settings := [];
      this.inflect := inflect;
    }

    /** The registered post types as the menu derivation sees them. */
    function PostTypeViews(): seq<PostTypeView>
      reads this`postTypes, Objects()
    {
      Views(postTypes)
    }

    /** getPostType */
    function GetPostType(id: string): (r: Option<CustomPostType>)
      reads this
      ensures r.Some? <==> Has(postTypes, id)
      ensures r.Some? ==> r.value in Objects()
    {
      var r := Get(postTypes, id);
      if r.Some? then
        ghost var i :| 0 <= i < |postTypes| && postTypes[i] == (id, r.value);
        assert r.value == postTypes[i].1;
        r
      else r
    }

    /** A post type object of the dashboard is the one getPostType returns
        for its id. */
    lemma ObjectById(t: CustomPostType)
      requires Valid() && t in Objects()
      ensures GetPostType(t.id) == Some(t)
    {
      var i :| 0 <= i < |postTypes| && postTypes[i].1 == t;
      GetAt(postTypes, i);
    }

    /** registerPostType: a new id gets a fresh record, stored last, and
        fires `cms_registered_post_type` with the id and the record; an id
        already registered changes nothing and fires nothing. */
    method RegisterPostType(id: string, config: map<string, Value> := map[]) returns (ok: bool, calls: seq<Invocation<Arg>>)
      requires Valid() && WellTypedConfig(config)
      modifies this`postTypes
      ensures Valid()
      ensures ok == !Has(old(postTypes), id)
      ensures !ok ==> postTypes == old(postTypes) && calls == []
      ensures ok ==> |postTypes| == |old(postTypes)| + 1 && postTypes[..|old(postTypes)|] == old(postTypes)
      ensures ok ==> var t := postTypes[|postTypes| - 1].1;
        postTypes[|postTypes| - 1].0 == id && fresh(t) && t.id == id &&
        t.taxonomies == [] && t.metaBoxes == [] &&
        (forall p :: t.Property(p) == Coerced(p, Configured(p, id, config, inflect))) &&
        calls == CallsFor(hooks.actions, "cms_registered_post_type", [Text(id), PostTypeArg(t)])
    {
      if Has(postTypes, id) {
        return false, [];
      }
      var postType := new CustomPostType(id, inflect, config);
      PutAbsent(postTypes, id, postType);
      PutDistinct(postTypes, id, postType);
      postTypes := Put(postTypes, id, postType);
      calls := hooks.DoAction("cms_registered_post_type", [Text(id), PostTypeArg(postType)]);
      ok := true;
    }

    /** addMetaBox: the box is registered on every listed post type that
        exists, once however often it is listed; unknown ids are skipped
        and no other state changes. */
    method AddMetaBox(id: string, title: string, callback: Value, postType: Targets := One("post"), priority: int := 0,
                      callbackArgs: seq<Value> := [])
      returns (ok: bool)
      requires Valid()
      modifies Objects()
      ensures Valid() && ok
      ensures forall t :: t in Objects() ==> t.taxonomies == old(t.taxonomies)
      ensures forall t :: t in Objects() ==>
        t.metaBoxes == if t.id in TargetIds(postType)
          then Put(old(t.metaBoxes), id, MetaBoxDefaults(id) + MetaBoxConfig(id, title, callback, priority, callbackArgs))
          else old(t.metaBoxes)
    {
      var types := TargetIds(postType);
      var config := MetaBoxConfig(id, title, callback, priority, callbackArgs);
      var box := MetaBoxDefaults(id) + config;
      ghost var done: set<string> := {};
      var i := 0;
      while i < |types|
        invariant 0 <= i <= |types|
        invariant forall x :: x in done <==> x in types[..i]
        invariant Valid()
        invariant forall t :: t in Objects() ==> t.taxonomies == old(t.taxonomies)
        invariant forall t :: t in Objects() ==>
          t.metaBoxes == if t.id in done then Put(old(t.metaBoxes), id, box) else old(t.metaBoxes)
      {
        AttachMetaBox(types[i], id, config);
        forall t | t in Objects() && t.id == types[i]
          ensures t.metaBoxes == Put(old(t.metaBoxes), id, box)
        {
          PutTwice(old(t.metaBoxes), id, box, box);
        }
        assert types[..i + 1] == types[..i] + [types[i]];
        done := done + {types[i]};
        i := i + 1;
      }
      assert types[..i] == types;
      ok := true;
    }

    /** One step of addMetaBox: the post type registered under `k`, if
        any, gets the box. */
    method AttachMetaBox(k: string, id: string, config: map<string, Value>)
      requires Valid()
      modifies Objects()
      ensures Valid()
      ensures forall t :: t in Objects() ==> t.taxonomies == old(t.taxonomies)
      ensures forall t :: t in Objects() ==>
        t.metaBoxes == if t.id == k then Put(old(t.metaBoxes), id, MetaBoxDefaults(id) + config) else old(t.metaBoxes)
    {
      var found := GetPostType(k);
      if found.Some? {
        var t := found.value;
        assert t.Valid() by {
          var j :| 0 <= j < |postTypes| && postTypes[j].1 == t;
        }
        SameIdSameObject(t, k);
        t.RegisterMetaBox(id, config);
      } else {
        NoObjectWithId(k);
      }
    }

    lemma SameIdSameObject(t: CustomPostType, k: string)
      requires Valid() && t in Objects() && GetPostType(k) == Some(t)
      ensures forall u :: u in Objects() && u.id == k ==> u == t
    {
      forall u | u in Objects() && u.id == k ensures u == t {
        ObjectById(u);
      }
    }

    lemma NoObjectWithId(k: string)
      requires Valid() && GetPostType(k).None?
      ensures forall u :: u in Objects() ==> u.id != k
    {
      forall u | u in Objects() ensures u.id != k {
        ObjectById(u);
      }
    }

    /** getMetaBoxes: nothing for an unknown post type. */
    function GetMetaBoxes(postType: string, context: Option<string> := None): (r: Dict<map<string, Value>>)
      reads this, Objects()
      ensures GetPostType(postType).None? ==> r == []
      ensures GetPostType(postType).Some? ==> Sorted(r, BoxPriority)
      ensures GetPostType(postType).Some? ==>
        forall j :: 0 <= j < |r| ==> r[j] in GetPostType(postType).value.metaBoxes && ContextMatches(r[j].1, context)
    {
      match GetPostType(postType)
      case None => []
      case Some(t) =>
        MetaBoxesSpec(t.metaBoxes, context);
        MetaBoxesOf(t.metaBoxes, context)
    }

    /** registerTaxonomy: the taxonomy is registered on every listed post
        type that exists, once however often it is listed; unknown ids are
        skipped and no other state changes. */
    method RegisterTaxonomy(taxonomy: string, postTypeIds: Targets, args: map<string, Value> := map[]) returns (ok: bool)
      requires Valid()
      modifies Objects()
      ensures Valid() && ok
      ensures forall t :: t in Objects() ==> t.metaBoxes == old(t.metaBoxes)
      ensures forall t :: t in Objects() ==>
        t.taxonomies == if t.id in TargetIds(postTypeIds)
          then Put(old(t.taxonomies), taxonomy, TaxonomyDefaults(taxonomy) + args)
          else old(t.taxonomies)
    {
      var types := TargetIds(postTypeIds);
      var config := TaxonomyDefaults(taxonomy) + args;
      var i := 0;
      while i < |types|
        invariant 0 <= i <= |types|
        invariant Valid()
        invariant forall t :: t in Objects() ==> t.metaBoxes == old(t.metaBoxes)
        invariant forall t :: t in Objects() ==>
          t.taxonomies == if t.id in types[..i] then Put(old(t.taxonomies), taxonomy, config) else old(t.taxonomies)
      {
        AttachTaxonomy(types[i], taxonomy, args);
        forall t | t in Objects()
          ensures t.taxonomies ==
            if t.id in types[..i + 1] then Put(old(t.taxonomies), taxonomy, config) else old(t.taxonomies)
        {
          assert t.id in types[..i + 1] <==> t.id in types[..i] || t.id == types[i] by {
            assert types[..i + 1] == types[..i] + [types[i]];
          }
          if t.id == types[i] {
            PutTwice(old(t.taxonomies), taxonomy, config, config);
          }
        }
        i := i + 1;
      }
      assert types[..i] == types;
      ok := true;
    }

    /** One step of registerTaxonomy: the post type registered under `k`,
        if any, gets the taxonomy. */
    method AttachTaxonomy(k: string, taxonomy: string, args: map<string, Value>)
      requires Valid()
      modifies Objects()
      ensures Valid()
      ensures forall t :: t in Objects() ==> t.metaBoxes == old(t.metaBoxes)
      ensures forall t :: t in Objects() ==>
        t.taxonomies == if t.id == k then Put(old(t.taxonomies), taxonomy, TaxonomyDefaults(taxonomy) + args)
                        else old(t.taxonomies)
    {
      var found := GetPostType(k);
      if found.Some? {
        var t := found.value;
        assert t.Valid() by {
          var j :| 0 <= j < |postTypes| && postTypes[j].1 == t;
        }
        SameIdSameObject(t, k);
        t.RegisterTaxonomy(taxonomy, args);
      } else {
        NoObjectWithId(k);
      }
    }

    /** getTaxonomy, as written: the parameter is overwritten with null
        before the search, so the search is for the key "" whatever the
        argument. */
    method GetTaxonomy(taxonomy: string) returns (r: Option<map<string, Value>>)
      requires Valid()
      ensures r == FirstTaxonomy(PostTypeViews(), "")
    {
      var key := "";
      r := None;
      var i := 0;
      while i < |postTypes|
        invariant 0 <= i <= |postTypes|
        invariant FirstTaxonomy(PostTypeViews(), key) == FirstTaxonomy(PostTypeViews()[i..], key)
      {
        var taxonomies := postTypes[i].1.taxonomies;
        assert PostTypeViews()[i..][0].taxonomies == taxonomies;
        assert PostTypeViews()[i..][1..] == PostTypeViews()[i + 1..];
        if Has(taxonomies, key) {
          return Get(taxonomies, key);
        }
        i := i + 1;
      }
    }

    /** taxonomyExists, as written. */
    method TaxonomyExists(taxonomy: string) returns (b: bool)
      requires Valid()
      ensures b == FirstTaxonomy(PostTypeViews(), "").Some?
    {
      var r := GetTaxonomy(taxonomy);
      b := r.Some?;
    }

    /** The lookup getTaxonomy is evidently meant to do: the first post
        type's configuration for the taxonomy named by the argument. */
    method FindTaxonomy(taxonomy: string) returns (r: Option<map<string, Value>>)
      requires Valid()
      ensures r == FirstTaxonomy(PostTypeViews(), taxonomy)
    {
      r := None;
      var i := 0;
      while i < |postTypes|
        invariant 0 <= i <= |postTypes|
        invariant FirstTaxonomy(PostTypeViews(), taxonomy) == FirstTaxonomy(PostTypeViews()[i..], taxonomy)
      {
        var taxonomies := postTypes[i].1.taxonomies;
        assert PostTypeViews()[i..][0].taxonomies == taxonomies;
        assert PostTypeViews()[i..][1..] == PostTypeViews()[i + 1..];
        if Has(taxonomies, taxonomy) {
          return Get(taxonomies, taxonomy);
        }
        i := i + 1;
      }
    }

    /** addMenu */
    method AddMenu(slug: string, title: string, callback: Value := Null, icon: Option<string> := None,
                   position: int := 10, parent: Option<string> := None)
      returns (ok: bool)
      requires Valid()
      modifies this`menu
      ensures Valid() && ok
      ensures menu == AddMenuTo(old(menu), MenuOp(slug, title, callback, icon, position, parent))
    {
      AddMenuWellFormed(menu, MenuOp(slug, title, callback, icon, position, parent));
      menu := AddMenuTo(menu, MenuOp(slug, title, callback, icon, position, parent));
      ok := true;
    }

    /** findMenuItemBySlug */
    method FindMenuItemBySlug(slug: string) returns (r: Option<Found>)
      ensures r == Find(menu, Normalize(slug))
    {
      var s := Lower(Trim(slug, {'/'}));
      var i := 0;
      while i < |menu|
        invariant 0 <= i <= |menu|
        invariant Find(menu, s) == Find(menu[i..], s)
      {
        var item := menu[i].1;
        assert menu[i..][0] == menu[i] && menu[i..][1..] == menu[i + 1..];
        if item.slug == s {
          return Some(Top(item));
        }
        var j := 0;
        while j < |item.children|
          invariant 0 <= j <= |item.children|
          invariant FindChild(item.children, s) == FindChild(item.children[j..], s)
        {
          assert item.children[j..][0] == item.children[j] && item.children[j..][1..] == item.children[j + 1..];
          if item.children[j].1.slug == s {
            return Some(Child(item.children[j].1));
          }
          j := j + 1;
        }
        i := i + 1;
      }
      return None;
    }

    /** getMenu: the top-level items by ascending position, items of equal
        position in the order they were added. */
    function GetMenu(): (r: Menu)
      reads this
      ensures Sorted(r, Position) && multiset(r) == multiset(menu)
    {
      SortedMenuSpec(menu);
      SortedMenu(menu)
    }

    /** registerSetting: a new id stores the defaults overridden by the
        arguments, last; an id already registered changes nothing. */
    method RegisterSetting(id: string, args: map<string, Value> := map[]) returns (ok: bool)
      requires Valid()
      modifies this`settings
      ensures Valid()
      ensures ok == !Has(old(settings), id)
      ensures settings == if ok then old(settings) + [(id, SettingDefaults(id, inflect) + args)] else old(settings)
    {
      if Has(settings, id) {
        return false;
      }
      PutAbsent(settings, id, SettingDefaults(id, inflect) + args);
      PutDistinct(settings, id, SettingDefaults(id, inflect) + args);
      settings := Put(settings, id, SettingDefaults(id, inflect) + args);
      ok := true;
    }

    /** getSetting */
    function GetSetting(id: string): (r: Option<map<string, Value>>)
      reads this
      ensures r.Some? <==> Has(settings, id)
      ensures r.Some? ==> exists i :: 0 <= i < |settings| && settings[i] == (id, r.value)
    {
      Get(settings, id)
    }

    /** init: fires `cms_init` with the dashboard, whose listeners make the
        registrations `regs`, in order; only then adds the default items and
        the items of the post types, so that what the listeners registered
        is in the menu. */
    method Init(regs: seq<Registration>) returns (calls: seq<Invocation<Arg>>)
      requires Valid() && WellTypedRegistrations(regs)
      modifies this`menu, this`postTypes, this`settings
      ensures Valid()
      ensures calls == CallsFor(hooks.actions, "cms_init", [DashboardArg(this)])
      ensures settings == SettingsAfter(old(settings), regs, inflect)
      ensures |postTypes| >= |old(postTypes)| && postTypes[..|old(postTypes)|] == old(postTypes)
      ensures forall k :: |old(postTypes)| <= k < |postTypes| ==> fresh(postTypes[k].1)
      ensures BuiltAll(postTypes[|old(postTypes)|..], NewPostTypes(Keys(old(postTypes)), regs), inflect)
      ensures menu == ApplyOps(ApplyOps(old(menu), DefaultMenuOps(settings, inflect)),
                               AllPostTypeMenuOps(PostTypeViews(), inflect))
    {
      calls := hooks.DoAction("cms_init", [DashboardArg(this)]);
      ListenerRegistrations(regs);
      ghost var added := postTypes[|old(postTypes)|..];
      assert BuiltAll(added, NewPostTypes(Keys(old(postTypes)), regs), inflect);
      RegisterMenusItems();
      RegisterMenuItemsForCustomPostTypes();
      assert postTypes[|old(postTypes)|..] == added;
    }

    /** The registrations `cms_init` listeners make, in order. */
    method ListenerRegistrations(regs: seq<Registration>)
      requires Valid() && WellTypedRegistrations(regs)
      modifies this`postTypes, this`settings
      ensures Valid()
      ensures settings == SettingsAfter(old(settings), regs, inflect)
      ensures |postTypes| >= |old(postTypes)| && postTypes[..|old(postTypes)|] == old(postTypes)
      ensures forall k :: |old(postTypes)| <= k < |postTypes| ==> fresh(postTypes[k].1)
      ensures BuiltAll(postTypes[|old(postTypes)|..], NewPostTypes(Keys(old(postTypes)), regs), inflect)
    {
      ghost var ids := Keys(postTypes);
      ghost var added: Dict<CustomPostType> := [];
      ghost var accepted: seq<(string, map<string, Value>)> := [];
      var i := 0;
      while i < |regs|
        invariant 0 <= i <= |regs|
        invariant Valid()
        invariant settings == SettingsAfter(old(settings), regs[..i], inflect)
        invariant accepted == NewPostTypes(ids, regs[..i])
        invariant postTypes == old(postTypes) + added
        invariant forall k :: 0 <= k < |added| ==> fresh(added[k].1)
        invariant BuiltAll(added, accepted, inflect)
      {
        assert regs[i] in regs;
        ghost var more;
        more, accepted := RegisterNext(regs[i], ids, regs[..i], old(settings), old(postTypes), added, accepted);
        added := added + more;
        assert regs[..i + 1] == regs[..i] + [regs[i]];
        i := i + 1;
      }
      assert regs[..i] == regs;
      assert postTypes[|old(postTypes)|..] == added;
    }

    /** One step of ListenerRegistrations: `reg` follows the registrations
        `prefix`, made on top of `base`; `added` and `accepted` are the post
        types stored so far and the registrations they were built from, and
        `more` is what this step stores. */
    method RegisterNext(reg: Registration, ghost ids: seq<string>, ghost prefix: seq<Registration>,
                        ghost settings0: Dict<map<string, Value>>, ghost base: Dict<CustomPostType>,
                        ghost added: Dict<CustomPostType>, ghost accepted: seq<(string, map<string, Value>)>)
      returns (ghost more: Dict<CustomPostType>, ghost accepted': seq<(string, map<string, Value>)>)
      requires Valid() && (reg.PostTypeRegistration? ==> WellTypedConfig(reg.config))
      requires ids == Keys(base) && postTypes == base + added
      requires settings == SettingsAfter(settings0, prefix, inflect)
      requires accepted == NewPostTypes(ids, prefix)
      requires BuiltAll(added, accepted, inflect)
      modifies this`postTypes, this`settings
      ensures Valid()
      ensures settings == SettingsAfter(settings0, prefix + [reg], inflect)
      ensures accepted' == NewPostTypes(ids, prefix + [reg])
      ensures postTypes == base + (added + more)
      ensures forall k :: 0 <= k < |more| ==> fresh(more[k].1)
      ensures BuiltAll(added + more, accepted', inflect)
    {
      RegistrationStep(ids, settings0, prefix, reg, inflect);
      assert Has(postTypes, reg.id) <==> reg.id in ids || Has(accepted, reg.id) by {
        BuiltAllKeys(added, accepted, inflect);
        KeysAppend(base, added);
      }
      ghost var step := if reg.PostTypeRegistration? && !(reg.id in ids || Has(accepted, reg.id))
                  then [(reg.id, reg.config)] else [];
      more := Register(reg);
      AppendAssoc(base, added, more);
      BuiltAllAppend(added, accepted, more, step, inflect);
      accepted' := accepted + step;
    }

    /** One registration a `cms_init` listener makes: a post type through
        registerPostType or a setting through registerSetting. The ghost
        `added` is the record it stores, if any. */
    method Register(reg: Registration) returns (ghost added: Dict<CustomPostType>)
      requires Valid() && (reg.PostTypeRegistration? ==> WellTypedConfig(reg.config))
      modifies this`postTypes, this`settings
      ensures Valid()
      ensures postTypes == old(postTypes) + added
      ensures forall k :: 0 <= k < |added| ==> fresh(added[k].1)
      ensures BuiltAll(added, if reg.PostTypeRegistration? && !Has(old(postTypes), reg.id) then [(reg.id, reg.config)] else [],
                       inflect)
      ensures settings == if reg.SettingRegistration? && !Has(old(settings), reg.id)
                          then old(settings) + [(reg.id, SettingDefaults(reg.id, inflect) + reg.args)]
                          else old(settings)
    {
      added := [];
      if reg.PostTypeRegistration? {
        var ok, _ := RegisterPostType(reg.id, reg.config);
        if ok {
          added := [postTypes[|postTypes| - 1]];
          assert postTypes == old(postTypes) + added;
        }
      } else {
        var _ := RegisterSetting(reg.id, reg.args);
      }
    }

    /** registerMenusItems */
    method RegisterMenusItems()
      requires Valid()
      modifies this`menu
      ensures Valid()
      ensures menu == ApplyOps(old(menu), DefaultMenuOps(settings, inflect))
    {
      var _ := AddMenu("/", "Dashboard", Null, Some("dashicons-dashboard"), 1);
      ghost var m1 := menu;
      if |settings| > 0 {
        var _ := AddMenu("/settings", "Settings", Null, Some("dashicons-admin-generic"), 50);
        ghost var m2 := menu;
        AddSettingItems();
        DefaultMenuOpsApplied(old(menu), m1, m2, menu, settings, inflect);
      } else {
        ApplyOpsSnoc(old(menu), [], DashboardItem);
        assert [] + [DashboardItem] == DefaultMenuOps(settings, inflect);
      }
    }

    /** The settings loop of registerMenusItems: one child of the settings
        item per setting, in order. */
    method AddSettingItems()
      requires Valid()
      modifies this`menu
      ensures Valid()
      ensures menu == ApplyOps(old(menu), SettingMenuOps(settings, inflect))
    {
      ghost var rest := SettingMenuOps(settings, inflect);
      var i := 0;
      while i < |settings|
        invariant 0 <= i <= |settings|
        invariant Valid()
        invariant menu == ApplyOps(old(menu), [] + rest[..i])
      {
        var key := settings[i].0;
        var setting := settings[i].1;
        var _ := AddMenu("/settings/" + key, EntryTextOr(setting, "label", inflect.headline(key)), Null,
                         Some(EntryTextOr(setting, "icon", "dashicons-admin-tools")), parent := Some("/settings"));
        ApplyOpsStep(old(menu), [], rest, i);
        i := i + 1;
      }
      assert [] + rest[..i] == rest;
    }

    /** registerMenuItemsForCustomPostTypes, without its route registration. */
    method RegisterMenuItemsForCustomPostTypes()
      requires Valid()
      modifies this`menu
      ensures Valid()
      ensures menu == ApplyOps(old(menu), AllPostTypeMenuOps(PostTypeViews(), inflect))
    {
      ghost var views := Views(postTypes);
      var i := 0;
      while i < |postTypes|
        invariant 0 <= i <= |postTypes|
        invariant postTypes == old(postTypes) && |views| == |postTypes|
        invariant Valid()
        invariant menu == ApplyOps(old(menu), AllPostTypeMenuOps(views[..i], inflect))
      {
        var id := postTypes[i].0;
        var postType := postTypes[i].1;
        assert views[i] == ViewOf(id, postType);
        AddPostTypeItems(id, postType, views[i]);
        AllPostTypeMenuOpsStep(old(menu), views, i, inflect);
        i := i + 1;
      }
      assert views[..i] == views;
      assert Views(postTypes) == views;
    }

    /** The menu items of one post type, as the loop body of
        registerMenuItemsForCustomPostTypes adds them. */
    method AddPostTypeItems(id: string, postType: CustomPostType, ghost v: PostTypeView)
      requires Valid() && v == ViewOf(id, postType)
      modifies this`menu
      ensures Valid()
      ensures menu == ApplyOps(old(menu), PostTypeMenuOps(v, inflect))
    {
      if postType.showUi {
        if postType.showInMenu {
          var _ := AddMenu(id, TextOr(postType.labels, "name", inflect.plural(Ucfirst(id))), Null,
                           Some(postType.menuIcon), postType.menuPosition);
          var _ := AddMenu(id, "All " + TextOr(postType.labels, "name", inflect.plural(Ucfirst(id))), Null,
                           Some("dashicons-editor-table"), parent := Some(id));
          var _ := AddMenu(id + "/create",
                           "Create " + TextOr(postType.labels, "singular_name", inflect.singular(Ucfirst(id))), Null,
                           Some("dashicons-plus"), parent := Some(id));
        }
        ghost var m1 := menu;
        AddTaxonomyItems(id, postType.taxonomies, postType.showInMenu);
        PostTypeOpsApplied(old(menu), m1, menu, v, inflect);
      } else {
        assert PostTypeMenuOps(v, inflect) == [];
      }
    }

    /** The taxonomy loop of registerMenuItemsForCustomPostTypes: one child
        of the post type's item per taxonomy, when the post type is shown
        in the menu. */
    method AddTaxonomyItems(id: string, taxonomies: Dict<map<string, Value>>, showInMenu: bool)
      requires Valid()
      modifies this`menu
      ensures Valid()
      ensures menu == ApplyOps(old(menu), if showInMenu then TaxonomyMenuOps(id, taxonomies) else [])
    {
      if showInMenu {
        ghost var tops := TaxonomyMenuOps(id, taxonomies);
        var j := 0;
        while j < |taxonomies|
          invariant 0 <= j <= |taxonomies|
          invariant Valid()
          invariant menu == ApplyOps(old(menu), tops[..j])
        {
          AddTaxonomyItem(id, taxonomies[j].0, taxonomies[j].1);
          ApplyOpsStep(old(menu), [], tops, j);
          assert [] + tops[..j] == tops[..j] && [] + tops[..j + 1] == tops[..j + 1];
          j := j + 1;
        }
        assert tops[..j] == tops;
      } else {
        assert ApplyOps(old(menu), []) == old(menu);
      }
    }

    /** The menu item of one taxonomy of a post type. */
    method AddTaxonomyItem(id: string, taxonomyId: string, taxonomy: map<string, Value>)
      requires Valid()
      modifies this`menu
      ensures Valid()
      ensures menu == AddMenuTo(old(menu), TaxonomyMenuOp(id, taxonomyId, taxonomy))
    {
      var labels := if "labels" in taxonomy then taxonomy["labels"] else Null;
      var _ := AddMenu(id + "/" + taxonomyId, TextOr(labels, "name", Ucfirst(id)), Null, Some("dashicons-tag"), 20, Some(id));
    }
  }
}
