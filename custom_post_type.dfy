/** A post type record (src/app/Modules/CustomPostType.php): twelve typed
    properties fixed by the constructor from the caller's configuration
    spread over documented defaults, and two keyed maps, taxonomies and
    meta boxes, that later registrations write in place. */
module PostTypes {
  import opened Values
  import opened PhpStrings
  import opened OrderedMaps

  /** The eleven configurable properties, in declaration order (the
      twelfth, `id`, comes from the constructor's first argument only). */
  datatype Prop =
    | Label | Labels | Public | PubliclyQueryable | ShowUi | ShowInMenu
    | MenuPosition | MenuIcon | Supports | HasArchive | Rewrite

  const AllProps: seq<Prop> :=
    [Label, Labels, Public, PubliclyQueryable, ShowUi, ShowInMenu, MenuPosition, MenuIcon, Supports, HasArchive, Rewrite]

  /** The configuration key of a property. */
  function PropName(p: Prop): string {
    match p
    case Label => "label"
    case Labels => "labels"
    case Public => "public"
    case PubliclyQueryable => "publicly_queryable"
    case ShowUi => "show_ui"
    case ShowInMenu => "show_in_menu"
    case MenuPosition => "menu_position"
    case MenuIcon => "menu_icon"
    case Supports => "supports"
    case HasArchive => "has_archive"
    case Rewrite => "rewrite"
  }

  /** The property a key names, if any. */
  function PropOf(k: string): (r: Option<Prop>)
    ensures r.Some? ==> PropName(r.value) == k
  {
    if k == "label" then Some(Label)
    else if k == "labels" then Some(Labels)
    else if k == "public" then Some(Public)
    else if k == "publicly_queryable" then Some(PubliclyQueryable)
    else if k == "show_ui" then Some(ShowUi)
    else if k == "show_in_menu" then Some(ShowInMenu)
    else if k == "menu_position" then Some(MenuPosition)
    else if k == "menu_icon" then Some(MenuIcon)
    else if k == "supports" then Some(Supports)
    else if k == "has_archive" then Some(HasArchive)
    else if k == "rewrite" then Some(Rewrite)
    else None
  }

  /** The position of a property in declaration order. */
  function PropIndex(p: Prop): (i: nat)
    ensures i < |AllProps| && AllProps[i] == p
  {
    match p
    case Label => 0
    case Labels => 1
    case Public => 2
    case PubliclyQueryable => 3
    case ShowUi => 4
    case ShowInMenu => 5
    case MenuPosition => 6
    case MenuIcon => 7
    case Supports => 8
    case HasArchive => 9
    case Rewrite => 10
  }

  /** Each property is listed once in AllProps. */
  lemma PropIndexOf(i: int)
    requires 0 <= i < |AllProps|
    ensures PropIndex(AllProps[i]) == i
  {
  }

  /** Two properties at different positions have different keys. */
  lemma PropNamesDistinct(i: int, j: int)
    requires 0 <= i < j < |AllProps|
    ensures PropName(AllProps[i]) != PropName(AllProps[j])
  {
    PropOfName(AllProps[i]);
    PropOfName(AllProps[j]);
    PropIndexOf(i);
    PropIndexOf(j);
  }

  /** Every property's key names that property and no other. */
  lemma PropOfName(p: Prop)
    ensures PropOf(PropName(p)) == Some(p)
    ensures PropName(p) != "id"
  {
  }

  predicate IsArray(v: Value) {
    v.List? || v.Dict?
  }

  predicate Scalar(v: Value) {
    v.Bool? || v.Int? || v.Str?
  }

  /** Whether PHP (in its default, coercive typing mode) accepts `v` for the
      typed property `p`: an array for the array properties, an int, a bool
      or an integer numeric string for `menu_position`, and a bool, int or
      string for the other scalar properties. */
  predicate Assignable(p: Prop, v: Value) {
    match p
    case Labels | Supports | Rewrite => IsArray(v)
    case MenuPosition => v.Int? || v.Bool? || (v.Str? && IntegerText(v.s))
    case _ => Scalar(v)
  }

  predicate WellTypedConfig(config: map<string, Value>) {
    forall p: Prop :: PropName(p) in config ==> Assignable(p, config[PropName(p)])
  }

  /** PHP's conversion of a value `menu_position` accepts to int. */
  function ToInt(v: Value): int {
    match v
    case Int(i) => i
    case Bool(b) => if b then 1 else 0
    case Str(s) => if IntegerText(s) then ParseInt(s) else 0
    case _ => 0
  }

  /** A menu position given as the decimal text of a number is accepted and
      stored as that number, as an int given directly is. */
  lemma MenuPositionFromText(i: int)
    ensures Assignable(MenuPosition, Str(IntToString(i)))
    ensures Coerced(MenuPosition, Str(IntToString(i))) == Coerced(MenuPosition, Int(i)) == Int(i)
  {
    ParseIntToString(i);
  }

  /** The value a typed property holds once `v` is assigned to it. */
  function Coerced(p: Prop, v: Value): Value {
    match p
    case Labels | Supports | Rewrite => v
    case MenuPosition => Int(ToInt(v))
    case Label | MenuIcon => Str(ToText(v))
    case _ => Bool(Truthy(v))
  }

  /** The default `labels` of a post type, from the plural and singular
      title-case forms of its id. */
  function PostTypeLabels(id: string, inflect: Inflector): Value {
    var name := inflect.plural(inflect.title(id));
    var singular := inflect.singular(inflect.title(id));
    Dict(map[
      "name" := Str(name),
      "singular_name" := Str(singular),
      "add_new" := Str("Add New"),
      "add_new_item" := Str("Add New " + singular),
      "edit_item" := Str("Edit " + singular),
      "new_item" := Str("New " + singular),
      "view_item" := Str("View " + singular),
      "search_items" := Str("Search " + singular),
      "not_found" := Str("No " + singular + " found"),
      "not_found_in_trash" := Str("No " + singular + " found in Trash")
    ])
  }

  /** The constructor's default for each property. */
  function PostTypeDefault(p: Prop, id: string, inflect: Inflector): Value {
    match p
    case Label => Str(Ucfirst(id))
    case Labels => PostTypeLabels(id, inflect)
    case Public => Bool(true)
    case PubliclyQueryable => Bool(true)
    case ShowUi => Bool(true)
    case ShowInMenu => Bool(true)
    case MenuPosition => Int(5)
    case MenuIcon => Str("dashicons-admin-post")
    case Supports => List([Str("title"), Str("editor"), Str("thumbnail"), Str("excerpt")])
    case HasArchive => Bool(true)
    case Rewrite => Dict(map["slug" := Str(id)])
  }

  /** `[...defaults, ...$config][$key]`: the caller's value when it supplies
      one, whole, and the default otherwise. */
  function Configured(p: Prop, id: string, config: map<string, Value>, inflect: Inflector): (r: Value)
    requires WellTypedConfig(config)
    ensures Assignable(p, r)
  {
    if PropName(p) in config then config[PropName(p)] else PostTypeDefault(p, id, inflect)
  }

  /** Without configuration a post type is public, queryable, shown in the
      UI and the menu, has an archive, sits at menu position 5, supports
      title, editor, thumbnail and excerpt, rewrites to its own id, and its
      label is the id with an upper-case first letter. */
  lemma DefaultsSpec(id: string, inflect: Inflector)
    ensures forall p :: p in {Public, PubliclyQueryable, ShowUi, ShowInMenu, HasArchive} ==>
      Coerced(p, Configured(p, id, map[], inflect)) == Bool(true)
    ensures Coerced(Label, Configured(Label, id, map[], inflect)) == Str(Ucfirst(id))
    ensures Coerced(MenuPosition, Configured(MenuPosition, id, map[], inflect)) == Int(5)
    ensures Configured(Supports, id, map[], inflect) == List([Str("title"), Str("editor"), Str("thumbnail"), Str("excerpt")])
    ensures Configured(Rewrite, id, map[], inflect) == Dict(map["slug" := Str(id)])
  {
  }

  /** A supplied value replaces the default whole: a `labels` or `rewrite`
      array in the configuration is not merged into the default one. */
  lemma ConfiguredOverrides(p: Prop, id: string, config: map<string, Value>, inflect: Inflector)
    requires WellTypedConfig(config) && PropName(p) in config
    ensures Configured(p, id, config, inflect) == config[PropName(p)]
    ensures Configured(p, id, config, inflect) == Configured(p, id, map[PropName(p) := config[PropName(p)]], inflect)
  {
  }

  /** The taxonomy defaults of registerTaxonomy. */
  function TaxonomyDefaults(taxonomyId: string): map<string, Value> {
    var t := Ucfirst(taxonomyId);
    map[
      "label" := Str(t),
      "labels" := Dict(map[
        "name" := Str(t),
        "singular_name" := Str(t),
        "search_items" := Str("Search " + t),
        "all_items" := Str("All " + t),
        "parent_item" := Str("Parent " + t),
        "parent_item_colon" := Str("Parent " + t + ":"),
        "edit_item" := Str("Edit " + t),
        "update_item" := Str("Update " + t),
        "add_new_item" := Str("Add New " + t),
        "new_item_name" := Str("New " + t + " Name"),
        "menu_name" := Str(t)
      ]),
      "public" := Bool(true),
      "publicly_queryable" := Bool(true),
      "hierarchical" := Bool(false),
      "show_ui" := Bool(true),
      "show_in_menu" := Bool(true),
      "show_admin_column" := Bool(true),
      "query_var" := Bool(true),
      "rewrite" := Dict(map["slug" := Str(taxonomyId)])
    ]
  }

  /** The meta-box defaults of registerMetaBox. */
  function MetaBoxDefaults(metaBoxId: string): map<string, Value> {
    map[
      "id" := Str(metaBoxId),
      "title" := Str(metaBoxId + " Meta Box"),
      "callback" := Null,
      "context" := Str("normal"),
      "priority" := Str("default"),
      "callback_args" := List([])
    ]
  }

  /** A stored taxonomy's rewrite slug is the taxonomy id unless the caller
      supplies a rewrite of its own; a stored meta box is a normal-context,
      default-priority box titled after its id unless the caller says
      otherwise. */
  lemma RegisteredConfigSpec(id: string, config: map<string, Value>)
    ensures (TaxonomyDefaults(id) + config)["rewrite"]
         == if "rewrite" in config then config["rewrite"] else Dict(map["slug" := Str(id)])
    ensures (MetaBoxDefaults(id) + config)["context"]
         == if "context" in config then config["context"] else Str("normal")
    ensures (MetaBoxDefaults(id) + config)["title"]
         == if "title" in config then config["title"] else Str(id + " Meta Box")
    ensures forall k :: k in config ==>
      (TaxonomyDefaults(id) + config)[k] == config[k] && (MetaBoxDefaults(id) + config)[k] == config[k]
  {
  }

  /** A keyed map of configuration arrays, as one PHP value. */
  function AsValue(d: Dict<map<string, Value>>): Value {
    Dict(map k | k in Keys(d) :: Dict(Get(d, k).value))
  }

  class CustomPostType {
    const id: string
    const labelText: string
    const labels: Value
    const isPublic: bool
    const publiclyQueryable: bool
    const showUi: bool
    const showInMenu: bool
    const menuPosition: int
    const menuIcon: string
    const supports: Value
    const hasArchive: bool
    const rewrite: Value
    var taxonomies: Dict<map<string, Value>>
    var metaBoxes: Dict<map<string, Value>>

    ghost predicate Valid()
      reads this
    {
      DistinctKeys(taxonomies) && DistinctKeys(metaBoxes)
    }

    /** The value held by a property. */
    function Property(p: Prop): Value {
      match p
      case Label => Str(labelText)
      case Labels => labels
      case Public => Bool(isPublic)
      case PubliclyQueryable => Bool(publiclyQueryable)
      case ShowUi => Bool(showUi)
      case ShowInMenu => Bool(showInMenu)
      case MenuPosition => Int(menuPosition)
      case MenuIcon => Str(menuIcon)
      case Supports => supports
      case HasArchive => Bool(hasArchive)
      case Rewrite => rewrite
    }

    /** toArray: `id` and the eleven properties in declaration order, never
        the taxonomies or meta boxes. */
    function ToArray(): Dict<Value> {
      [("id", Str(id))] + seq(|AllProps|, i requires 0 <= i < |AllProps| => (PropName(AllProps[i]), Property(AllProps[i])))
    }

    /** `$postType[$offset]`: the property of that name, or null when there
        is none. */
    function OffsetGet(offset: string): Value
      reads this
    {
      if offset == "id" then Str(id)
      else if PropOf(offset).Some? then Property(PropOf(offset).value)
      else if offset == "taxonomies" then AsValue(taxonomies)
      else if offset == "metaBoxes" then AsValue(metaBoxes)
      else Null
    }

    /** The id is the constructor's argument whatever the configuration
        says, and every other property is the merged configuration value
        converted to the property's declared type. */
    constructor (id: string, inflect: Inflector, config: map<string, Value> := map[])
      requires WellTypedConfig(config)
      ensures Valid() && this.id == id
      ensures forall p :: Property(p) == Coerced(p, Configured(p, id, config, inflect))
      ensures taxonomies == [] && metaBoxes == []
    {
      this.id := id;
      labelText := ToText(Configured(Label, id, config, inflect));
      labels := Configured(Labels, id, config, inflect);
      isPublic := Truthy(Configured(Public, id, config, inflect));
      publiclyQueryable := Truthy(Configured(PubliclyQueryable, id, config, inflect));
      showUi := Truthy(Configured(ShowUi, id, config, inflect));
      showInMenu := Truthy(Configured(ShowInMenu, id, config, inflect));
      menuPosition := ToInt(Configured(MenuPosition, id, config, inflect));
      menuIcon := ToText(Configured(MenuIcon, id, config, inflect));
      supports := Configured(Supports, id, config, inflect);
      hasArchive := Truthy(Configured(HasArchive, id, config, inflect));
      rewrite := Configured(Rewrite, id, config, inflect);
      taxonomies := [];
      metaBoxes := [];
      new;
      forall p ensures Property(p) == Coerced(p, Configured(p, id, config, inflect)) {
        match p
        case Label =>
        case Labels =>
        case Public =>
        case PubliclyQueryable =>
        case ShowUi =>
        case ShowInMenu =>
        case MenuPosition =>
        case MenuIcon =>
        case Supports =>
        case HasArchive =>
        case Rewrite =>
      }
    }

    method RegisterTaxonomy(taxonomyId: string, config: map<string, Value> := map[])
      requires Valid()
      modifies this`taxonomies
      ensures Valid()
      ensures taxonomies == Put(old(taxonomies), taxonomyId, TaxonomyDefaults(taxonomyId) + config)
    {
      PutDistinct(taxonomies, taxonomyId, TaxonomyDefaults(taxonomyId) + config);
      taxonomies := Put(taxonomies, taxonomyId, TaxonomyDefaults(taxonomyId) + config);
    }

    method RegisterMetaBox(metaBoxId: string, config: map<string, Value> := map[])
      requires Valid()
      modifies this`metaBoxes
      ensures Valid()
      ensures metaBoxes == Put(old(metaBoxes), metaBoxId, MetaBoxDefaults(metaBoxId) + config)
    {
      PutDistinct(metaBoxes, metaBoxId, MetaBoxDefaults(metaBoxId) + config);
      metaBoxes := Put(metaBoxes, metaBoxId, MetaBoxDefaults(metaBoxId) + config);
    }
  }

  /** toArray lists `id` and the eleven properties, each once. */
  lemma ToArrayKeys(t: CustomPostType)
    ensures |t.ToArray()| == 12
    ensures DistinctKeys(t.ToArray())
  {
    var a := t.ToArray();
    forall i, j | 0 <= i < j < |a| ensures a[i].0 != a[j].0 {
      assert a[j].0 == PropName(AllProps[j - 1]);
      if i == 0 {
        PropOfName(AllProps[j - 1]);
      } else {
        assert a[i].0 == PropName(AllProps[i - 1]);
        PropNamesDistinct(i - 1, j - 1);
      }
    }
  }

  /** offsetGet answers every key of toArray with the value toArray gives
      it, so the record's id is its constructor argument even when the
      configuration carries an "id"; a key that names no property reads as
      null. */
  lemma ToArrayOffsetGet(t: CustomPostType, k: string)
    ensures Has(t.ToArray(), k) ==> Get(t.ToArray(), k) == Some(t.OffsetGet(k))
    ensures !Has(t.ToArray(), k) && k != "taxonomies" && k != "metaBoxes" ==> t.OffsetGet(k) == Null
  {
    var a := t.ToArray();
    ToArrayKeys(t);
    if PropOf(k).Some? {
      assert Keys(a)[PropIndex(PropOf(k).value) + 1] == k;
    }
    if k == "id" {
      assert Keys(a)[0] == k;
    }
    if Has(a, k) {
      var i :| 0 <= i < |a| && a[i].0 == k;
      GetAt(a, i);
      if i > 0 {
        PropOfName(AllProps[i - 1]);
      }
    }
  }
}
