# tinymvc/cms core registries in Dafny

This project models the in-memory core of the tinymvc/cms content
management system:

- the WordPress-style action and filter registry (`Hooks`);
- the dashboard service, which registers post types, meta boxes,
  taxonomies, settings and the two-level admin menu (`Dashboard`);
- the post-type record (`CustomPostType`);
- the fluent "Bread" builders for forms and tables (`Field`, `Column`,
  `Form`, `Table`);
- the per-post meta cache and the `admin_url` helper of `helpers.php`.

The model keeps the source's form. Objects whose methods update fields
become classes whose methods carry `modifies` clauses and loop
invariants. Those methods are proved against specification functions,
and lemmas prove the promised properties about those functions. Pure
computations become functions and lemmas.

Modules, one per file:

| file | module | models |
|---|---|---|
| values.dfy | Values | PHP `mixed` values (`Value`), callables as opaque `Callback` handles, truthiness, integer and string casts, array-key coercion |
| strings.dfy | PhpStrings | ASCII lower- and upper-casing (for `strtolower`, `strtoupper` and Stringable's `lower`), `ucfirst`, `trim`/`ltrim`/`rtrim` with a character set, `explode`, `implode`, `str_replace` |
| ordered_maps.dfy | OrderedMaps | string-keyed PHP arrays and Collections whose insertion order is observed: `Put` (overwrite in place, or append), `Get`, `Forget`, `Where` (filter), `Merge` (`array_merge`), grouping into buckets |
| sorting.dfy | Sorting | the stable `sortBy` of Collections (PHP 8 sorting is stable) as an insertion sort, with sortedness, permutation and stability proved |
| hooks.dfy | HookRegistry | `Hooks` |
| custom_post_type.dfy | PostTypes | `CustomPostType` |
| menus.dfy | Menus | the dashboard menu tree: slug normalisation (`trim('/')` then ASCII lower-casing), `addMenu`, `findMenuItemBySlug`, `getMenu` |
| dashboard.dfy | Dashboards | `Dashboard` |
| field.dfy, column.dfy, form.dfy, table.dfy | Fields, Columns, Forms, Tables | the Bread builders |
| helpers.dfy | Helpers | the post-meta cache and `admin_url` |

Outside effects become parameters:

- Callback bodies become function-typed parameters (`call`), and the
  action calls a dispatch makes are returned as a trace of invocations.
- The database fetch of `get_post_meta` is a function from post id to
  rows. The outcomes of the `update_post_meta`, `add_post_meta` and
  `delete_post_meta` queries are boolean or optional-id parameters.
- The validator, a model's `save`, and a `beforeSave` callback are
  parameters too.
- String inflection (`title`, `plural`, `singular`, `headline`),
  `htmlspecialchars`, `http_build_query`, `route_url('cms.dashboard')`
  and `date`/`strtotime` are uninterpreted parameters.

## Model

| member | source | states |
|---|---|---|
| HookRegistry.SliceFromStart | src/app/Modules/Hooks.php:70 | `array_slice($args, 0, $n)` is a prefix of the arguments: `min(n, len)` of them for a non-negative `n`, all but the last `-n` for a negative one |
| HookRegistry.Dispatched | src/app/Modules/Hooks.php:62-63 | the entries of a tag in dispatch order: `sortBy('priority')` |
| HookRegistry.FilterChain | src/app/Modules/Hooks.php:93-104 | the value threaded through the filters in order, each getting the current value and its share of the arguments |
| HookRegistry.Added | src/app/Modules/Hooks.php:197-215 | the store after addHook: the entry appended under its tag, creating the list if needed |
| HookRegistry.Removed | src/app/Modules/Hooks.php:226-254 | the store after removeHook: absent tag unchanged, no callback drops the tag, otherwise the filtered list, dropping the tag when it is empty |
| HookRegistry.CallsFor | src/app/Modules/Hooks.php:54-72 | the calls doAction makes for a tag: none when absent, otherwise one per entry in dispatch order |
| HookRegistry.Keeps | src/app/Modules/Hooks.php:241-245 | the `array_filter` predicate of removeHook as written: keep an entry when its callback differs, or when a priority is given and equals the entry's |
| HookRegistry.Kept | src/app/Modules/Hooks.php:241-250 | `array_values(array_filter(...))` of a tag's list: the entries `Keeps` accepts, in their order (its properties are `KeptMembers`, `KeptAppend`, `KeptSingle`, `KeptCount` and `KeptSelect`) |
| HookRegistry.KeptMembers | src/app/Modules/Hooks.php:241-245 | the entries the removal filter keeps are exactly the stored entries satisfying the predicate, and never more than were stored |
| HookRegistry.KeptAppend | src/app/Modules/Hooks.php:241-245 | the filter keeps the survivors in their order: filtering a concatenation concatenates the filtered parts |
| HookRegistry.KeptSingle | src/app/Modules/Hooks.php:241-245 | a single entry survives exactly when the predicate keeps it |
| HookRegistry.KeptCount | src/app/Modules/Hooks.php:241-245 | multiplicity is kept: an entry stored several times survives as many times, or not at all |
| HookRegistry.KeptSelect | src/app/Modules/Hooks.php:241-245 | among the entries of any one priority, the survivors keep their relative order |
| HookRegistry.FilterChainAppend | src/app/Modules/Hooks.php:93-104 | threading a value through the filters of `xs + ys` is threading it through `xs` and then through `ys` |
| HookRegistry.DispatchOrder | src/app/Modules/Hooks.php:62-63 | dispatch order is sorted by ascending priority, is a permutation of the stored entries, and keeps registration order among equal priorities |
| HookRegistry.ActionCallsSpec | src/app/Modules/Hooks.php:54-72 | doAction on an unregistered tag calls nothing; otherwise it makes one call per entry, in dispatch order, passing that entry's callback a prefix of the arguments of the length `array_slice` gives for its `accepted_args` |
| HookRegistry.AddedSpec | src/app/Modules/Hooks.php:197-215 | after addHook the tag is present and has the new callback, no tag is left with an empty list, and every other tag is unchanged |
| HookRegistry.AddedRunsLast | src/app/Modules/Hooks.php:206-212 | the new entry is dispatched after every earlier entry of the same priority, and the order of the other priorities is unchanged |
| HookRegistry.KeptNoMatch | src/app/Modules/Hooks.php:241-245 | when no entry has the callback, the removal filter keeps every entry, whatever the priority |
| HookRegistry.RemovedSpec | src/app/Modules/Hooks.php:226-254 | removal leaves an absent tag unchanged; a null callback deletes the whole tag; a callback with a null priority removes every entry with that callback; entries with other callbacks stay; a remaining list is the filtered list, in order and with multiplicity, and each priority's dispatch order is its filtered order; other tags never change |
| HookRegistry.RemovedKeeps | src/app/Modules/Hooks.php:241-253 | entries with another callback survive the removal, and with no priority no entry with the callback is left |
| HookRegistry.RemovedOrder | src/app/Modules/Hooks.php:241-253 | a tag that survives holds the filtered list, and within each priority it dispatches the survivors in their old order |
| HookRegistry.RemovedWithPriority | src/app/Modules/Hooks.php:241-245 | with a priority, removal keeps the callback's entries whose priority equals the argument and drops those whose priority differs (the predicate as written) |
| HookRegistry.KeepsIntended | src/app/Modules/Hooks.php:107-113 | the removal the doc comment describes: a hook goes when it holds the callback and, when a priority is given, sits at that priority |
| HookRegistry.KeptIntended | src/app/Modules/Hooks.php:241-250 | the removal filter with the intended predicate, in the hooks' order |
| HookRegistry.KeptIntendedMembers | src/app/Modules/Hooks.php:241-250 | the intended filter keeps exactly the stored hooks the intended predicate accepts |
| HookRegistry.RemovedIntended | src/app/Modules/Hooks.php:228-253 | removeHook with the intended predicate |
| HookRegistry.RemovedIntendedSpec | src/app/Modules/Hooks.php:107-113 | under the intended removal a hook of the tag survives iff it holds another callback or sits at another priority than the one given; other tags are unchanged |
| HookRegistry.RemovedIntendedWithPriority | src/app/Modules/Hooks.php:107-113 | with a priority given, the intended removal drops the callback's hooks at that priority and keeps its hooks at every other priority |
| HookRegistry.RemovedWithPriorityInverted | src/app/Modules/Hooks.php:242-244 | one callback at priorities 10 and 20, removed at priority 10: as written the priority-10 hook stays and the priority-20 hook goes; the intended removal does the reverse |
| HookRegistry.Hooks.constructor | src/app/Modules/Hooks.php:13-17 | a new registry has no actions and no filters |
| HookRegistry.Hooks.AddHook | src/app/Modules/Hooks.php:197-215 | returns true and appends one entry to the tag's list of the given kind, creating the list if needed; the other kind's store is unchanged |
| HookRegistry.Hooks.AddAction | src/app/Modules/Hooks.php:28-31 | returns true and appends one entry under the tag in `actions`; `filters` is unchanged |
| HookRegistry.Hooks.AddFilter | src/app/Modules/Hooks.php:42-45 | returns true and appends one entry under the tag in `filters`; `actions` is unchanged |
| HookRegistry.Hooks.DoAction | src/app/Modules/Hooks.php:54-72 | the calls made are exactly the dispatch trace of the stored actions for the tag |
| HookRegistry.Hooks.ApplyFilters | src/app/Modules/Hooks.php:82-105 | returns the input unchanged for an unregistered tag; otherwise returns the value threaded through the sorted filters, each given the current value followed by `accepted_args - 1` arguments |
| HookRegistry.Hooks.RemoveHook | src/app/Modules/Hooks.php:226-254 | returns whether the tag was present, and leaves the store equal to the removal function of the old store; the other kind's store is unchanged |
| HookRegistry.Hooks.RemoveAction | src/app/Modules/Hooks.php:115-118 | removeHook on `actions`; `filters` is unchanged |
| HookRegistry.Hooks.RemoveFilter | src/app/Modules/Hooks.php:128-131 | removeHook on `filters`; `actions` is unchanged |
| HookRegistry.Hooks.HasHook | src/app/Modules/Hooks.php:264-284 | true iff the tag exists and, when a callback is given, some entry under the tag has that callback |
| HookRegistry.Hooks.HasAction | src/app/Modules/Hooks.php:140-143 | hasHook on `actions` |
| HookRegistry.Hooks.HasFilter | src/app/Modules/Hooks.php:152-155 | hasHook on `filters` |
| HookRegistry.Hooks.RemoveAllActions | src/app/Modules/Hooks.php:163-170 | returns whether the tag was present and deletes it from `actions` only |
| HookRegistry.Hooks.RemoveAllFilters | src/app/Modules/Hooks.php:178-185 | returns whether the tag was present and deletes it from `filters` only |
| PostTypes.PropOf | src/app/Modules/CustomPostType.php:214-217 | a key names a property only when it is that property's name |
| PostTypes.PropIndex | src/app/Modules/CustomPostType.php:191-207 | every property has a position in the declaration order that toArray uses |
| PostTypes.PropOfName | src/app/Modules/CustomPostType.php:214-217 | each property is found by its own name, and no property is named `id` |
| PostTypes.PropIndexOf | src/app/Modules/CustomPostType.php:191-207 | each property appears once in declaration order |
| PostTypes.PropNamesDistinct | src/app/Modules/CustomPostType.php:191-207 | properties at different positions have different keys |
| PostTypes.Assignable | src/app/Modules/CustomPostType.php:13-23 | which values each typed property accepts under PHP's coercive typing: `menu_position` takes an int, a bool or an integer numeric string; a string property takes a scalar; a bool property a scalar (not null); an array property an array |
| PostTypes.Coerced | src/app/Modules/CustomPostType.php:58-69 | the value a typed property holds after the assignment: the accepted value converted to the declared type |
| PostTypes.MenuPositionFromText | src/app/Modules/CustomPostType.php:65 | a `menu_position` given as the decimal text of an integer is accepted and stored as that integer |
| Values.ParseIntToString | src/app/Modules/CustomPostType.php:65 | the decimal text of any integer is an integer numeric string, and reading it back gives the integer |
| Values.DigitsValueOf | src/app/Modules/CustomPostType.php:65 | the digits of a natural number's decimal text spell that number |
| PostTypes.Configured | src/app/Modules/CustomPostType.php:32-56 | the merged configuration value of each property has a type the typed property accepts |
| PostTypes.PostTypeDefault | src/app/Modules/CustomPostType.php:32-55 | each property's declared default: `ucfirst(id)` as label, the generated labels, true for the five visibility flags and `has_archive`, menu position 5, the `dashicons-admin-post` icon, title/editor/thumbnail/excerpt support, and the id as rewrite slug |
| PostTypes.DefaultsSpec | src/app/Modules/CustomPostType.php:32-55 | without configuration: `public`, `publicly_queryable`, `show_ui`, `show_in_menu` and `has_archive` are true, `label` is `ucfirst(id)`, `menu_position` is 5, `supports` is title, editor, thumbnail and excerpt, and `rewrite` is `{slug: id}` |
| PostTypes.ConfiguredOverrides | src/app/Modules/CustomPostType.php:55 | a supplied key wins, whole: the result is the caller's value and does not depend on the other keys |
| PostTypes.TaxonomyDefaults | src/app/Modules/CustomPostType.php:147-171 | a taxonomy's defaults: `ucfirst(id)` as label and in every generated label, public, queryable, not hierarchical, shown in the UI, the menu and the admin column, a query var, and the id as rewrite slug |
| PostTypes.MetaBoxDefaults | src/app/Modules/CustomPostType.php:178-186 | a meta box's defaults: its id, the title "<id> Meta Box", a null callback, the `normal` context, the `default` priority and no callback arguments |
| PostTypes.RegisteredConfigSpec | src/app/Modules/CustomPostType.php:145-189 | a taxonomy's rewrite slug defaults to its id; a meta box defaults to the `normal` context and the title "<id> Meta Box"; every caller key overrides the default |
| PostTypes.CustomPostType.constructor | src/app/Modules/CustomPostType.php:27-73 | the id is the argument; each property holds the merged value, coerced to its declared type; taxonomies and meta boxes start empty; the configuration defaults to empty |
| PostTypes.CustomPostType.RegisterTaxonomy | src/app/Modules/CustomPostType.php:145-174 | stores the defaults overridden by the config under the taxonomy id, replacing an earlier entry in place or appending; the configuration defaults to empty |
| PostTypes.CustomPostType.RegisterMetaBox | src/app/Modules/CustomPostType.php:176-189 | stores the defaults overridden by the config under the meta-box id, replacing an earlier entry in place or appending; the configuration defaults to empty |
| PostTypes.ToArrayKeys | src/app/Modules/CustomPostType.php:191-207 | toArray has exactly twelve distinct keys |
| PostTypes.ToArrayOffsetGet | src/app/Modules/CustomPostType.php:191-217 | offsetGet agrees with toArray on every key toArray has, and gives null for any other key except the two collections |
| Dashboards.AddedMetaBoxSpec | src/app/Services/Dashboard.php:104-129 | a box added through the dashboard has the given id, title, callback, priority and arguments, and the `normal` context |
| Dashboards.MetaBoxesOf | src/app/Services/Dashboard.php:146-150 | the boxes in the requested context (all for a null context), sorted by priority |
| Dashboards.ContextMatches | src/app/Services/Dashboard.php:147 | a box matches a null context, and otherwise exactly when its `context` is the asked one |
| Dashboards.BoxPriority | src/app/Services/Dashboard.php:150 | the key `sortBy('priority')` orders boxes by: an integer priority, 0 otherwise |
| Dashboards.ContextFlags | src/app/Services/Dashboard.php:146-149 | flags exactly the boxes whose context matches (all boxes for a null context) |
| Dashboards.MetaBoxesSpec | src/app/Services/Dashboard.php:138-151 | getMetaBoxes returns exactly the stored boxes in the requested context, sorted by priority, with equal priorities in insertion order |
| Dashboards.WhereMatches | src/app/Services/Dashboard.php:146-149 | every box the filter keeps is a stored box whose context matches |
| Dashboards.ObjectsInTail | src/app/Services/Dashboard.php:88-91 | the post-type objects of a suffix of the registry are objects of the registry |
| Dashboards.Views | src/app/Services/Dashboard.php:373 | one view per registered post type, in registration order |
| Dashboards.FirstTaxonomy | src/app/Services/Dashboard.php:214-219 | corrected lookup: the first post type's entry under the asked taxonomy id, in registration order |
| Dashboards.FirstTaxonomySpec | src/app/Services/Dashboard.php:210-222 | the corrected lookup finds a taxonomy iff some post type has it, and what it returns is that post type's entry |
| Dashboards.GetTaxonomyMissesRegistered | src/app/Services/Dashboard.php:212 | with `category` registered on `post`, the lookup as written (key `""`) finds nothing while the corrected lookup finds it |
| Dashboards.SettingDefaults | src/app/Services/Dashboard.php:335-339 | the defaults a setting starts from: the headline of its id as label, the `dashicons-admin-tools` icon, a null view and a null callback |
| Dashboards.SettingSpec | src/app/Services/Dashboard.php:329-346 | a setting has the headline label, the tools icon, a null view and a null callback unless the arguments give them; every argument is kept |
| Dashboards.SettingMenuOp | src/app/Services/Dashboard.php:436-442 | one setting's item: slug `/settings/<key>`, its label or the headline of the key, its icon or the tools icon, under `/settings` |
| Dashboards.SettingMenuOps | src/app/Services/Dashboard.php:435-443 | one child of `/settings` per setting, in registration order |
| Dashboards.TaxonomyMenuOp | src/app/Services/Dashboard.php:403-410 | one taxonomy's item: slug `<post type>/<taxonomy>`, its `labels.name` or `ucfirst` of the post type id, the tag icon, position 20, under the post type |
| Dashboards.TaxonomyMenuOps | src/app/Services/Dashboard.php:400-411 | one child of the post type's item per taxonomy, in registration order |
| Dashboards.SettingMenuOpsAreChildren | src/app/Services/Dashboard.php:435-443 | every settings item is added with a parent |
| Dashboards.DefaultMenuOps | src/app/Services/Dashboard.php:428-445 | the default item sequence: Dashboard; then, when settings exist, Settings and one child per setting |
| Dashboards.DefaultMenuSpec | src/app/Services/Dashboard.php:428-445 | after the default items the menu has the Dashboard item (position 1) and, when settings exist, the settings item; existing slugs stay |
| Dashboards.DefaultMenuOpsSplit | src/app/Services/Dashboard.php:430-443 | with settings, the default items are Dashboard, Settings, then one item per setting |
| Dashboards.DefaultMenuOpsApplied | src/app/Services/Dashboard.php:428-445 | adding Dashboard, Settings and then the settings' items one by one gives the menu of the default item sequence |
| Dashboards.AllPostTypeMenuOpsStep | src/app/Services/Dashboard.php:373-423 | adding the items of the first `i + 1` post types is adding those of the first `i`, then those of post type `i` |
| Dashboards.PostTypeOpsApplied | src/app/Services/Dashboard.php:374-420 | the three head items followed by the taxonomy items, all guarded by `show_in_menu`, give the menu of the post type's item sequence |
| Dashboards.TwoTopsThenChildren | src/app/Services/Dashboard.php:430-443 | two top-level items followed by child items leave the first item's own fields as added, the second present, and every earlier slug present |
| Dashboards.PostTypeHeadOps | src/app/Services/Dashboard.php:377-397 | a shown post type's top-level item (its plural name, icon and position) and its two children, `All <name>` and `Create <singular name>` |
| Dashboards.PostTypeMenuOps | src/app/Services/Dashboard.php:374-420 | one post type's item sequence: nothing without `show_ui`; with `show_in_menu` its top item, `All …`, `Create …` and one child per taxonomy |
| Dashboards.PostTypeChildOps | src/app/Services/Dashboard.php:377-397 | a shown post type's first item is top-level and the rest are children |
| Dashboards.PostTypeMenuTop | src/app/Services/Dashboard.php:377-383 | a shown post type's top-level item has its plural name, its icon and its menu position |
| Dashboards.AllPostTypeMenuKeys | src/app/Services/Dashboard.php:369-426 | deriving the post-type items never removes a top-level slug |
| Dashboards.AllPostTypeMenuHas | src/app/Services/Dashboard.php:374-383 | every post type with `show_ui` and `show_in_menu` has a top-level item under its normalised id |
| Dashboards.SettingsAfter | src/app/Services/Dashboard.php:329-346 | the settings after a run of registrations: each setting registration with a new id appends its defaults overridden by its arguments |
| Dashboards.NewPostTypes | src/app/Services/Dashboard.php:56-70 | the post type registrations a run accepts: each with an id neither registered before nor accepted earlier |
| Dashboards.RegistrationStep | src/app/Services/Dashboard.php:56-70 | one more registration extends the settings or the accepted post types exactly as registerSetting and registerPostType decide |
| Dashboards.NewPostTypesSpec | src/app/Services/Dashboard.php:56-70 | every accepted registration is one of the run's, with an id not registered before, each id once; every post type registration of the run names an id registered before or accepted |
| Dashboards.BuiltAllKeys | src/app/Services/Dashboard.php:56-70 | the records built for the accepted registrations carry their ids, in order |
| Dashboards.BuiltAllAppend | src/app/Services/Dashboard.php:56-70 | records built for two runs of registrations, concatenated, are those built for the concatenated runs |
| Dashboards.Dashboard.constructor | src/app/Services/Dashboard.php:29-35 | a new dashboard has an empty menu, no post types, no settings and a fresh, empty hook registry |
| Dashboards.Dashboard.GetPostType | src/app/Services/Dashboard.php:78-81 | finds a record iff the id is registered, and the record is one of the registry's |
| Dashboards.Dashboard.ObjectById | src/app/Services/Dashboard.php:78-81 | every registered record is found by its own id |
| Dashboards.Dashboard.RegisterPostType | src/app/Services/Dashboard.php:56-70 | a duplicate id returns false, changes nothing and fires nothing; a fresh id appends a new record with that id and the merged configuration, fires `cms_registered_post_type` with `(id, record)`, and returns true; the arguments default to empty |
| Dashboards.Dashboard.AddMetaBox | src/app/Services/Dashboard.php:104-129 | returns true; each registered post type named in the target list gets the box, the others (and every taxonomy map) are unchanged |
| Dashboards.Dashboard.AttachMetaBox | src/app/Services/Dashboard.php:114-125 | one iteration of the loop: only the post type with that id gets the box |
| Dashboards.Dashboard.SameIdSameObject | src/app/Services/Dashboard.php:78-81 | distinct registered records have distinct ids |
| Dashboards.Dashboard.NoObjectWithId | src/app/Services/Dashboard.php:78-81 | when the lookup fails no registered record has that id |
| Dashboards.Dashboard.GetMetaBoxes | src/app/Services/Dashboard.php:138-151 | empty for an unknown post type; otherwise sorted by priority, and only the post type's boxes in the requested context |
| Dashboards.Dashboard.RegisterTaxonomy | src/app/Services/Dashboard.php:161-175 | returns true; each registered post type named in the target list gets the taxonomy with its defaults, the others (and every meta-box map) are unchanged |
| Dashboards.Dashboard.AttachTaxonomy | src/app/Services/Dashboard.php:166-171 | one iteration of the loop: only the post type with that id gets the taxonomy |
| Dashboards.Dashboard.GetTaxonomy | src/app/Services/Dashboard.php:210-222 | as written: the search runs for the key that the nulled parameter becomes, whatever taxonomy was asked for |
| Dashboards.Dashboard.TaxonomyExists | src/app/Services/Dashboard.php:260-263 | as written: true only when some post type has a taxonomy under the empty key |
| Dashboards.Dashboard.FindTaxonomy | src/app/Services/Dashboard.php:210-222 | corrected: the first taxonomy registered under the asked id, scanning post types in registration order |
| Dashboards.Dashboard.AddMenu | src/app/Services/Dashboard.php:276-310 | returns true and applies one addMenu step to the menu tree |
| Dashboards.Dashboard.FindMenuItemBySlug | src/app/Services/Dashboard.php:183-202 | the scan returns the first item or child carrying the normalised slug |
| Dashboards.Dashboard.GetMenu | src/app/Services/Dashboard.php:317-320 | the top-level items sorted by position, each exactly once |
| Dashboards.Dashboard.RegisterSetting | src/app/Services/Dashboard.php:329-346 | a duplicate id returns false with no change; otherwise appends the defaults overridden by the arguments and returns true |
| Dashboards.Dashboard.GetSetting | src/app/Services/Dashboard.php:354-357 | finds a setting iff the id is registered, and returns the stored entry |
| Dashboards.Dashboard.Init | src/app/Services/Dashboard.php:37-47 | fires `cms_init` with the dashboard; its listeners' post-type and setting registrations take effect in order (new records built from the accepted ones, existing records kept); then the default items for the resulting settings and the items of every resulting post type are added |
| Dashboards.Dashboard.ListenerRegistrations | src/app/Services/Dashboard.php:39-40 | a run of registrations made by `cms_init` listeners: the settings and the post-type registry grow exactly as the run decides, each new record fresh and built from its registration |
| Dashboards.Dashboard.RegisterNext | src/app/Services/Dashboard.php:56-70 | one registration of the run keeps the run's invariant: settings, accepted post types and built records extended by that registration |
| Dashboards.Dashboard.Register | src/app/Services/Dashboard.php:56-70 | one listener registration: a post type with a new id appends a fresh record built from its configuration; a setting with a new id appends its defaults overridden by its arguments; a repeated id changes nothing |
| Dashboards.Dashboard.RegisterMenusItems | src/app/Services/Dashboard.php:428-445 | the menu after the default item sequence |
| Dashboards.Dashboard.AddSettingItems | src/app/Services/Dashboard.php:435-443 | the menu after one child of `/settings` per setting, in order |
| Dashboards.Dashboard.RegisterMenuItemsForCustomPostTypes | src/app/Services/Dashboard.php:369-426 | the menu after every post type's items, in registration order |
| Dashboards.Dashboard.AddPostTypeItems | src/app/Services/Dashboard.php:374-420 | one post type's items: none without `show_ui`; the three head items and the taxonomy items with `show_in_menu` |
| Dashboards.Dashboard.AddTaxonomyItems | src/app/Services/Dashboard.php:400-411 | one child per taxonomy when the post type is shown in the menu, none otherwise |
| Dashboards.Dashboard.AddTaxonomyItem | src/app/Services/Dashboard.php:403-410 | the taxonomy's item: slug `id/taxonomy`, its label name or `ucfirst(id)`, position 20, parent the post type |
| Menus.Normalize | src/app/Services/Dashboard.php:284 | a slug with surrounding `/` trimmed and then lower-cased |
| Menus.AddMenuTo | src/app/Services/Dashboard.php:276-310 | one addMenu call: a top-level item stored under its slug, or a child stored under its parent when the parent exists, and dropped otherwise |
| Menus.ApplyOps | src/app/Services/Dashboard.php:276-310 | a run of addMenu calls, applied in order |
| Menus.Find | src/app/Services/Dashboard.php:183-202 | findMenuItemBySlug's scan: each top-level item, then its children, in order; the first with the slug |
| Menus.LowerKeepsTrimmed | src/app/Services/Dashboard.php:284 | lowercasing a slug keeps it free of leading and trailing `/` |
| Menus.LowerHasNoUpper | src/app/Services/Dashboard.php:284 | a lowercased slug has no upper-case ASCII letter |
| Menus.NormalizeShape | src/app/Services/Dashboard.php:284 | a normalised slug has no surrounding `/` and no upper-case letter |
| Menus.NormalizeIdempotent | src/app/Services/Dashboard.php:284-297 | normalising twice is normalising once |
| Menus.FirstWithSlug | src/app/Services/Dashboard.php:298 | the first top-level item with the parent's slug, or none when no item has it |
| Menus.ApplyOpsSnoc | src/app/Services/Dashboard.php:276-310 | one more addMenu call is one more step |
| Menus.ApplyOpsStep | src/app/Services/Dashboard.php:276-310 | adding items `0..i` is adding items `0..i-1`, then item `i` |
| Menus.ApplyOpsAppend | src/app/Services/Dashboard.php:276-310 | adding `a + b` is adding `a`, then `b` |
| Menus.ChildrenWellFormed | src/app/Services/Dashboard.php:299-302 | storing a child keeps the children keyed by their slugs and pointing at their parent |
| Menus.TopWellFormed | src/app/Services/Dashboard.php:304-307 | storing a top-level item under its slug keeps the tree well formed |
| Menus.AddMenuWellFormed | src/app/Services/Dashboard.php:276-310 | addMenu keeps the tree well formed: keys equal slugs, children carry their parent |
| Menus.ApplyOpsWellFormed | src/app/Services/Dashboard.php:276-310 | any sequence of addMenu calls keeps the tree well formed |
| Menus.AddTopLevel | src/app/Services/Dashboard.php:304-307 | without a parent the item is stored (or overwritten) under its normalised slug with no children, and every other slug keeps its item |
| Menus.AddOrphan | src/app/Services/Dashboard.php:295-303 | a child whose parent is missing is dropped: the menu is unchanged |
| Menus.AddChild | src/app/Services/Dashboard.php:295-303 | with a present parent the top-level slugs are unchanged and the parent's children hold the new child under its normalised slug |
| Menus.AddChildKeepsHeaders | src/app/Services/Dashboard.php:295-303 | adding a child changes no top-level item's own fields and no slug other than the parent's |
| Menus.ApplyChildOpsKeepsHeaders | src/app/Services/Dashboard.php:295-303 | a run of child additions keeps every top-level slug and its own fields |
| Menus.TopThenChildren | src/app/Services/Dashboard.php:276-310 | a top-level item followed by children keeps that item's fields as added and every other slug's fields |
| Menus.AddMenuKeepsKeys | src/app/Services/Dashboard.php:276-310 | addMenu never removes a top-level slug |
| Menus.ApplyOpsKeepsKeys | src/app/Services/Dashboard.php:276-310 | no sequence of addMenu calls removes a top-level slug |
| Menus.FindChild | src/app/Services/Dashboard.php:193-198 | the first child with the slug, or none when no child has it |
| Menus.FindSpec | src/app/Services/Dashboard.php:183-202 | findMenuItemBySlug finds something iff an item or a child carries the slug, and what it finds carries the slug and is in the menu |
| Menus.SortedMenuSpec | src/app/Services/Dashboard.php:317-320 | getMenu is sorted by position, a permutation of the items, and stable among equal positions |
| OrderedMaps.FirstOccurrencesSpec | src/app/Modules/Bread/Form.php:549-564 | the first-occurrence list holds every key that occurs, each once, and a key before another only when it occurs first |
| OrderedMaps.GroupByKeysOrder | src/app/Modules/Bread/Form.php:549-564 | grouping creates the buckets in the order their keys first occur |
| Sorting.SortBy | src/app/Modules/Hooks.php:62-63 | Collection's stable `sortBy` on an integer key |
| Sorting.SortBySpec | src/app/Modules/Hooks.php:62-63 | `sortBy` gives a sorted permutation of its input that keeps the input order among equal keys |
| PhpStrings.Lower | src/app/Services/Dashboard.php:284 | each character lower-cased (ASCII letters only), the length kept |
| PhpStrings.Ucfirst | src/app/Modules/CustomPostType.php:33 | the first character upper-cased (ASCII letters only), the rest kept |
| Fields.RulesFromString | src/app/Modules/Bread/Field.php:86-87 | one rule per `|`-separated piece, each piece trimmed |
| Fields.Strs | src/app/Modules/Bread/Field.php:86-87 | the pieces as string values, in order |
| Fields.RulesRoundTrip | src/app/Modules/Bread/Field.php:84-98 | joining trimmed rule names without `|` and splitting the result again gives those names back |
| Fields.TrimEachTrimmed | src/app/Modules/Bread/Field.php:86-87 | trimming pieces that are already trimmed changes nothing |
| Fields.ClampSpan | src/app/Modules/Bread/Field.php:191-195 | the span is always between 1 and 12; a span in range is kept, and the others are clamped to the nearer bound |
| Fields.CustomParts | src/app/Modules/Bread/Field.php:386-394 | the rendered custom attributes, in insertion order |
| Fields.CustomPartsSnoc | src/app/Modules/Bread/Field.php:386-394 | rendering one more custom attribute appends that attribute's part |
| Fields.CustomPartsAppend | src/app/Modules/Bread/Field.php:386-394 | the custom attributes render in insertion order |
| Fields.CustomPartsCount | src/app/Modules/Bread/Field.php:386-394 | every custom attribute gives one part except a false boolean, which gives none |
| Fields.Field.constructor | src/app/Modules/Bread/Field.php:15-42 | a new field has its name and type, a null value and default, no label, rules or options, no flags set, span 12 and at most 10 repeats; the type defaults to `text` |
| Fields.Field.Label | src/app/Modules/Bread/Field.php:55-59 | sets the label |
| Fields.Field.Placeholder | src/app/Modules/Bread/Field.php:64-68 | sets the placeholder |
| Fields.Field.HelperText | src/app/Modules/Bread/Field.php:73-77 | sets the helper text |
| Fields.Field.Rules | src/app/Modules/Bread/Field.php:84-98 | a rule string is split and trimmed; `required` becomes true when a rule is `required` and is otherwise left as it was |
| Fields.Field.RulesList | src/app/Modules/Bread/Field.php:84-98 | a rule array is stored as given; `required` becomes true when it holds `required` and is otherwise left as it was |
| Fields.Field.Options | src/app/Modules/Bread/Field.php:105-109 | sets the options |
| Fields.Field.Required | src/app/Modules/Bread/Field.php:114-121 | sets the flag, `true` when no argument is given; `required(true)` appends the `required` rule only if absent, so the rule is never duplicated; `required(false)` leaves the rules alone |
| Fields.Field.Disabled | src/app/Modules/Bread/Field.php:126-130 | sets the flag, `true` when no argument is given |
| Fields.Field.Readonly | src/app/Modules/Bread/Field.php:135-139 | sets the flag, `true` when no argument is given |
| Fields.Field.Attributes | src/app/Modules/Bread/Field.php:144-148 | replaces the custom attributes |
| Fields.Field.Formatter | src/app/Modules/Bread/Field.php:153-157 | sets the formatter |
| Fields.Field.When | src/app/Modules/Bread/Field.php:164-168 | sets the visibility condition |
| Fields.Field.Group | src/app/Modules/Bread/Field.php:173-177 | sets the group |
| Fields.Field.Tab | src/app/Modules/Bread/Field.php:182-186 | sets the tab |
| Fields.Field.ColumnSpan | src/app/Modules/Bread/Field.php:191-195 | stores the clamped span, so the span stays in [1, 12] |
| Fields.Field.Default | src/app/Modules/Bread/Field.php:200-204 | sets the default |
| Fields.Field.DependsOn | src/app/Modules/Bread/Field.php:209-214 | sets the controlling field and its values, none when no values are given |
| Fields.Field.Repeatable | src/app/Modules/Bread/Field.php:219-224 | sets the flag and the maximum, `true` and 10 when not given |
| Fields.Field.SetValue | src/app/Modules/Bread/Field.php:229-233 | sets the value |
| Fields.Field.GetValue | src/app/Modules/Bread/Field.php:254-257 | the value when it is not null, the default otherwise |
| Fields.Field.GetLabel | src/app/Modules/Bread/Field.php:262-270 | the label when it is truthy, the headline form of the name otherwise |
| Fields.Field.IsVisible | src/app/Modules/Bread/Field.php:315-321 | true without a condition; otherwise the truthiness of the condition's answer on the form data; the form data defaults to the empty array |
| Fields.Field.GetFormattedValue | src/app/Modules/Bread/Field.php:326-332 | getValue without a formatter, the formatter's answer on getValue with one |
| Fields.Field.GetAttributesString | src/app/Modules/Bread/Field.php:366-397 | the parts `required`, `disabled`, `readonly`, the escaped placeholder, then the custom attributes in insertion order, joined by single spaces |
| Fields.Field.FlagAttributes | src/app/Modules/Bread/Field.php:368-384 | the flag parts, in the order required, disabled, readonly, placeholder |
| Fields.Field.ToArray | src/app/Modules/Bread/Field.php:337-361 | toArray's twenty entries, in the source's order |
| Fields.ArrayKeysDistinct | src/app/Modules/Bread/Field.php:337-361 | toArray's twenty keys are distinct |
| Fields.ToArraySpec | src/app/Modules/Bread/Field.php:337-361 | toArray has twenty distinct keys; `label` is getLabel, `value` is getValue, and `tab` and `group` are the field's own (null when unset) |
| Columns.LabelSource | src/app/Modules/Bread/Column.php:177-179 | the name with every `_` and `-` replaced by a space, so neither is left |
| Columns.Column.constructor | src/app/Modules/Bread/Column.php:14-29 | a new column has its name and type `text`, and is not sortable, searchable or hidden, with no label, formatter, condition, alignment, width or badge colours |
| Columns.Column.Label | src/app/Modules/Bread/Column.php:42-46 | sets the label |
| Columns.Column.Sortable | src/app/Modules/Bread/Column.php:51-55 | sets the flag, `true` when no argument is given |
| Columns.Column.Searchable | src/app/Modules/Bread/Column.php:60-64 | sets the flag, `true` when no argument is given |
| Columns.Column.SetFormatter | src/app/Modules/Bread/Column.php:69-73 | sets a custom formatter |
| Columns.Column.Align | src/app/Modules/Bread/Column.php:78-82 | sets the alignment |
| Columns.Column.Hidden | src/app/Modules/Bread/Column.php:87-91 | sets the flag, `true` when no argument is given |
| Columns.Column.When | src/app/Modules/Bread/Column.php:96-100 | sets the visibility condition |
| Columns.Column.Badge | src/app/Modules/Bread/Column.php:105-110 | sets the type to `badge` and replaces the colour map, with an empty one when none is given |
| Columns.Column.Image | src/app/Modules/Bread/Column.php:115-119 | sets the type to `image` |
| Columns.Column.Date | src/app/Modules/Bread/Column.php:124-129 | sets the type to `date` and a date formatter with the format |
| Columns.Column.Datetime | src/app/Modules/Bread/Column.php:134-139 | also sets the type to `date`, with its own format |
| Columns.Column.Boolean | src/app/Modules/Bread/Column.php:144-148 | sets the type to `boolean` |
| Columns.Column.Width | src/app/Modules/Bread/Column.php:153-157 | sets the width |
| Columns.Column.GetLabel | src/app/Modules/Bread/Column.php:170-182 | the label when it is truthy; otherwise the title case of the name with `_` and `-` as spaces |
| Columns.Column.IsVisible | src/app/Modules/Bread/Column.php:211-217 | with a condition, its answer alone, ignoring `hidden`; otherwise not hidden; the data defaults to the empty array |
| Columns.Column.FormatValue | src/app/Modules/Bread/Column.php:222-228 | the value itself without a formatter; a custom formatter's answer on the value and the record; for a date column, `-` for a falsy value and the formatted date otherwise; the record defaults to null |
| Columns.Column.GetBadgeColor | src/app/Modules/Bread/Column.php:241-244 | the colour mapped to the value's key, else `bg-gray-500` |
| Forms.PutKeyed | src/app/Modules/Bread/Form.php:244-249 | storing a field under its own name keeps every key equal to its field's name and the keys distinct |
| Forms.FieldItems | src/app/Modules/Bread/Form.php:39-43 | an item becomes an entry under its name exactly when it is a field object |
| Forms.Supplied | src/app/Modules/Bread/Form.php:368-372 | a source supplies a field's value iff it has the name with a non-null value |
| Forms.Names | src/app/Modules/Bread/Form.php:497-498 | the fields' names, in order |
| Forms.SingleRule | src/app/Modules/Bread/Form.php:160-228 | a single rule name without `|` or surrounding blanks is split into just itself |
| Forms.RuleMap | src/app/Modules/Bread/Form.php:398-405 | the rules of every field that has any, under its name, in field order |
| Forms.RuleMapAbsent | src/app/Modules/Bread/Form.php:398-405 | no rule entry exists for a name no field has |
| Forms.RuleMapAt | src/app/Modules/Bread/Form.php:398-405 | a field has a rule entry iff its rules are non-empty, and the entry is its rules |
| Forms.RuleMapEmpty | src/app/Modules/Bread/Form.php:398-405 | when no field has rules the rule map is empty |
| Forms.CheckInput | src/app/Modules/Bread/Form.php:393-424 | no input is rejected before anything else; with no rules the input is accepted as is; otherwise the validator's errors or validated data are the outcome |
| Forms.NoRulesAcceptsAll | src/app/Modules/Bread/Form.php:404-411 | a form whose fields have no rules accepts any data unchanged |
| Forms.FillableData | src/app/Modules/Bread/Form.php:487-502 | the data entries of field names that are fillable (all when the list is empty) |
| Forms.FillableDataSpec | src/app/Modules/Bread/Form.php:487-502 | the saved data holds exactly the field names that are fillable (all when the list is empty) and present in the data, with the data's values and distinct keys |
| Forms.SectionKeys | src/app/Modules/Bread/Form.php:549-564 | each field's tab (or group), `default` when it has none |
| Forms.Form.constructor | src/app/Modules/Bread/Form.php:34-47 | keeps only field objects, keyed by name with later ones replacing earlier; fills values from the model when there is one; method `POST`, submit label `Save`, everything else empty; the field list defaults to empty |
| Forms.Form.AddField | src/app/Modules/Bread/Form.php:244-249 | stores a fresh field of that name and type under its name, replacing an earlier one; the type defaults to `text` |
| Forms.Form.Email | src/app/Modules/Bread/Form.php:160-166 | an `email` field with the rule `email` |
| Forms.Form.Image | src/app/Modules/Bread/Form.php:191-197 | an `image` field with the rule `image` |
| Forms.Form.Url | src/app/Modules/Bread/Form.php:222-228 | a `url` field with the rule `url` |
| Forms.Form.Repeater | src/app/Modules/Bread/Form.php:233-239 | a repeatable `repeater` field with at most 10 repeats |
| Forms.Form.AddFields | src/app/Modules/Bread/Form.php:254-264 | field objects are stored by name, names become fresh text fields, anything else is ignored, in order |
| Forms.Form.Action | src/app/Modules/Bread/Form.php:269-273 | sets the action |
| Forms.Form.Method | src/app/Modules/Bread/Form.php:278-282 | stores the method upper-cased |
| Forms.Form.SubmitLabel | src/app/Modules/Bread/Form.php:287-291 | sets the submit label |
| Forms.Form.Tab | src/app/Modules/Bread/Form.php:296-300 | stores the tab's label under its name |
| Forms.Form.Group | src/app/Modules/Bread/Form.php:305-309 | stores the group's label under its name |
| Forms.Form.BeforeSave | src/app/Modules/Bread/Form.php:314-318 | sets the before-save callback |
| Forms.Form.AfterSave | src/app/Modules/Bread/Form.php:323-327 | sets the after-save callback |
| Forms.Form.Fillable | src/app/Modules/Bread/Form.php:340-344 | sets the fillable list |
| Forms.Form.FillValues | src/app/Modules/Bread/Form.php:349-359 | each field takes the source's non-null value under its name and keeps its value otherwise |
| Forms.Form.FillFromRequest | src/app/Modules/Bread/Form.php:364-376 | the same fill from the request's input |
| Forms.Form.CollectRules | src/app/Modules/Bread/Form.php:398-405 | the rule map of the fields |
| Forms.Form.Validate | src/app/Modules/Bread/Form.php:384-425 | returns true iff the input is accepted, and then the validated data is the accepted data; the validator's errors replace the errors on rejection; with no input it returns false and changes nothing; the data defaults to none |
| Forms.Form.CollectFillable | src/app/Modules/Bread/Form.php:487-502 | the fillable data of the input |
| Forms.Form.Prepared | src/app/Modules/Bread/Form.php:487-507 | the data save hands to the model: the fillable fields' entries of the data (`FillableData`), replaced by the `beforeSave` callback's answer when one is set and the answer is not null |
| Forms.Form.Save | src/app/Modules/Bread/Form.php:466-523 | with validation on, the errors and validated data are validate's (the validator's errors on rejection, the accepted data on acceptance) and a rejected input saves nothing; the saved data is the accepted data, filtered by fillable and passed through `beforeSave` (kept when it returns null); the outcome is the model save's; the data defaults to none and validation to on |
| Forms.Form.GetError | src/app/Modules/Bread/Form.php:438-441 | the first message for the field, or nothing when it has none |
| Forms.Form.HasError | src/app/Modules/Bread/Form.php:446-449 | true iff the field has an errors entry, in particular whenever getError finds a message |
| Forms.Form.GetField | src/app/Modules/Bread/Form.php:536-539 | finds a field iff one is stored under the name, and it has that name |
| Forms.Form.GroupFields | src/app/Modules/Bread/Form.php:544-569 | groups the fields into buckets by their section key, in field order |
| Forms.Form.GetFieldsByTabs | src/app/Modules/Bread/Form.php:544-554 | one bucket per distinct tab (`default` for none), buckets in the order their tabs first occur, each holding that tab's fields in field order |
| Forms.Form.GetFieldsByGroups | src/app/Modules/Bread/Form.php:559-569 | one bucket per distinct group (`default` for none), buckets in the order their groups first occur, each holding that group's fields in field order |
| Tables.ActionEntrySpec | src/app/Modules/Bread/Table.php:138-145 | an action is `label` and `url` first, then the options; an option of either name overrides it, and every other option is kept |
| Tables.FilterApplies | src/app/Modules/Bread/Table.php:311-316 | a filter applies when the request has its key with a value neither null nor `""` and the filter has a query |
| Tables.FilterCalls | src/app/Modules/Bread/Table.php:310-320 | the query calls of the applying filters, in filter order, each with the request's value |
| Tables.FilterCallsSpec | src/app/Modules/Bread/Table.php:311-321 | a filter's query runs, with the request's value, iff the request has its key with a value neither null nor `""` and the filter has a query |
| Tables.Table.constructor | src/app/Modules/Bread/Table.php:31-45 | no columns, filters or actions; 15 per page; sort `id desc`; the default empty-state message |
| Tables.Table.AddColumn | src/app/Modules/Bread/Table.php:58-63 | stores a fresh text column under its name, replacing an earlier one |
| Tables.Table.PutColumn | src/app/Modules/Bread/Table.php:72-73 | stores a column object under its name |
| Tables.Table.AddColumns | src/app/Modules/Bread/Table.php:68-78 | column objects are stored by name, names become fresh text columns, anything else is ignored, in order |
| Tables.Table.AddFilter | src/app/Modules/Bread/Table.php:88-96 | stores the filter under its name; the query defaults to none |
| Tables.Table.StatusFilter | src/app/Modules/Bread/Table.php:101-115 | a `status` filter with the given statuses, or published, draft, pending and trash when none are given (the argument defaults to `[]`) |
| Tables.Table.DateRangeFilter | src/app/Modules/Bread/Table.php:120-128 | a `date_range` filter on the column, `created_at` by default |
| Tables.Table.Action | src/app/Modules/Bread/Table.php:138-145 | stores the action entry under its name; the options default to empty |
| Tables.Table.EditAction | src/app/Modules/Bread/Table.php:150-156 | the `edit` action with the pencil icon and the primary colour |
| Tables.Table.ViewAction | src/app/Modules/Bread/Table.php:161-167 | the `view` action with the eye icon and the secondary colour |
| Tables.Table.DeleteAction | src/app/Modules/Bread/Table.php:172-179 | the `delete` action with its confirmation options |
| Tables.Table.PerPage | src/app/Modules/Bread/Table.php:219-223 | sets the page size |
| Tables.Table.DefaultSort | src/app/Modules/Bread/Table.php:246-250 | stores the column and the lower-cased direction |
| Tables.Input | src/app/Modules/Bread/Table.php:324-325 | `$request->input($key, $default)`: the request's value under the key, or the default when the key is absent |
| Tables.Table.SortableColumn | src/app/Modules/Bread/Table.php:328 | the key names a declared column whose `sortable` flag is set |
| Tables.Table.SortOrder | src/app/Modules/Bread/Table.php:323-332 | the requested column (the default column when absent) and the requested direction (the default direction when absent) when the column is a sortable declared column; otherwise the default column and the default direction |
| Tables.Table.ApplyFilters | src/app/Modules/Bread/Table.php:311-321 | the query calls are exactly those of the filters that apply, in filter order |
| Tables.Table.GetVisibleColumns | src/app/Modules/Bread/Table.php:349-352 | every visible column is kept under its key, and nothing else is; the j-th column kept is the column at the j-th visible position, so declaration order is kept |
| OrderedMaps.Flagged | src/app/Modules/Bread/Table.php:351 | the positions `array_filter` keeps, each a position of the input |
| OrderedMaps.FlaggedSpec | src/app/Modules/Bread/Table.php:351 | the flagged positions are exactly the positions whose flag is set, in increasing order |
| OrderedMaps.WhereAt | src/app/Modules/Bread/Table.php:351 | `array_filter` keeps the flagged entries in their order: its j-th entry is the input entry at the j-th flagged position |
| Tables.Table.GetActionUrl | src/app/Modules/Bread/Table.php:381-396 | nothing for an unregistered action; for a closure url, the closure's answer on the record; otherwise the url with every `{id}` replaced by the text of the record's id |
| Tables.RecordId | src/app/Modules/Bread/Table.php:395 | the record's id when it has a non-null one, otherwise the empty string; never null |
| Tables.VisibleFlags | src/app/Modules/Bread/Table.php:351 | one flag per column, its isVisible |
| Tables.ActionUrlWithoutPlaceholder | src/app/Modules/Bread/Table.php:381-396 | an action with a string url and no `url` option links to that url, unchanged when it has no `{id}` |
| Tables.ActionUrlWithPlaceholder | src/app/Modules/Bread/Table.php:392-395 | a url with one `{id}` placeholder and no other brace links to the url with the record's id in its place |
| Helpers.GroupRows | src/helpers.php:453-461 | the rows grouped per key, keys in first-occurrence order, values in row order |
| Helpers.Lookup | src/helpers.php:463-475 | the answer from a post's cached meta: all of it for the empty key; null or an empty list for a missing key; the first value or all values otherwise |
| Helpers.LookupLoaded | src/helpers.php:451-475 | in freshly loaded meta, a key gives the values of exactly its rows in row order (the first when single); a missing key gives null or an empty list |
| Helpers.ValuesFor | src/helpers.php:455-461 | the values of the rows with the key, in row order, as the loading loop appends them |
| Helpers.ValuesForSpec | src/helpers.php:455-461 | a value is listed under a key iff some row has that key and value |
| Helpers.Loaded | src/helpers.php:451-462 | a post is loaded only when it has no entry; other posts' entries never change |
| Helpers.CachedReadsIgnoreDatabase | src/helpers.php:451-462 | once a post is cached, later reads give the same answer whatever the database now holds |
| Helpers.Invalidated | src/helpers.php:425-426 | removes exactly that post's entry |
| Helpers.ReadAfterInvalidation | src/helpers.php:417-462 | after invalidation a read reloads that post from the database, while other posts are still served from the cache |
| Helpers.PostMetaCache.constructor | src/helpers.php:446-448 | the cache starts empty |
| Helpers.PostMetaCache.LoadRows | src/helpers.php:453-461 | the grouping loop gives the rows grouped per key in row order |
| Helpers.PostMetaCache.GetPostMeta | src/helpers.php:442-476 | loads the post only when it is not cached, then answers from its cached meta; the key defaults to `""` (all meta) and `single` to false |
| Helpers.PostMetaCache.ClearPostMetaCache | src/helpers.php:417-430 | clears one post's entry, or the whole cache for null; the post id defaults to null |
| Helpers.PostMetaCache.UpdatePostMeta | src/helpers.php:489-520 | updating an existing row returns whether it saved and invalidates the post only then; otherwise adds a row and returns its id or false |
| Helpers.PostMetaCache.AddPostMeta | src/helpers.php:533-561 | a unique key that exists gives false and no change; otherwise returns the new id or false and invalidates the post only on success; `unique` defaults to false |
| Helpers.PostMetaCache.DeletePostMeta | src/helpers.php:573-593 | returns whether rows were deleted and invalidates the post only then |
| Helpers.CreatedResult | src/helpers.php:558-560 | the new row's id, or false when no row was created |
| Helpers.AdminUrl | src/helpers.php:1163-1176 | the url never ends with `/`; the path defaults to `""` and the parameters to empty |
| Helpers.TrimRightSlash | src/helpers.php:1175 | one more trailing `/` does not change the right-trimmed url |
| Helpers.AdminUrlPath | src/helpers.php:1167-1169 | a truthy path adds `/` and the path without surrounding slashes |
| Helpers.AdminUrlSlashesOnly | src/helpers.php:1167-1175 | a path made only of slashes gives the dashboard url without trailing slashes |
| Helpers.AdminUrlFalsyPath | src/helpers.php:1167-1175 | an empty path or `"0"` adds nothing |
| Helpers.AdminUrlQuery | src/helpers.php:1171-1173 | parameters are joined with `&` when the url already has `?`, and with `?` otherwise |

## Left out

- Callback bodies: callables are opaque handles compared by identity, and what they do is a function parameter. The actions a dispatch calls are returned as a trace.
- Database access: the rows `get_post_meta` loads, whether `update_post_meta` found and saved a row, the id `add_post_meta` obtained, and whether `delete_post_meta` deleted rows are all parameters. The queries themselves and the `json_encode` of stored values are not modelled.
- The validator's rule checking, a model's `fill`/`save`, `Table::getData`'s query building, search, sorting and pagination, and every `render` method are not modelled. Of `getData` the model keeps the filter decision (`Tables.Table.ApplyFilters`) and the sort decision (`Tables.Table.SortOrder`).
- `Route::group` and `Route::resource` in `registerMenuItemsForCustomPostTypes` are routing and are not modelled. So is the taxonomy rewrite slug they use.
- String inflection (`title`, `plural`, `singular`, `headline`), `htmlspecialchars`, `http_build_query`, `route_url`, `date` and `strtotime` are uninterpreted parameters.
- Fluent `return $this` and the static `make` factories are not modelled: the setters return nothing.
- Plain getters that only return a field are not modelled, because the fields are readable directly. These are `getId`, `isPublic`, `getColumns`, `getFilters`, `getActions`, `getPerPage`, `getErrors`, `getFields`, `getModel` and their kind.
- `CustomPostType::offsetExists`, `offsetSet` and `offsetUnset` are left out. Only `offsetGet` is modelled.
- `Column::toArray` is left out, as are the display setters of `Table`: `searchable`, `searchPlaceholder`, `emptyStateMessage`, `striped`, `hoverable`, `bulkAction`, `bulkDeleteAction` and `modifyQuery`. None of them takes part in a modelled decision.
- Forms.Form.AddField: the other type builders of `Form` (`text`, `textarea`, `select`, `date` and so on) each amount to `AddField` with their type name, so they are not written out one by one. `email`, `image`, `url` and `repeater`, which add rules or flags, are.
- Forms.Form.AfterSave: the after-save callback is stored but never called, because its effects are outside the model.
- PostTypes.CustomPostType.constructor: requires a configuration whose values the typed properties accept, as `PostTypes.Assignable` defines acceptance. For a value no typed property accepts PHP raises a TypeError, and that error path is not modelled. `Dashboards.Dashboard.RegisterPostType` and `Dashboards.Dashboard.Init` have the same requirement.
- PostTypes.Assignable: `menu_position` accepts an int, a bool, or an integer numeric string (decimal digits with an optional sign). PHP's coercive typing also accepts a float with an integral value and other numeric strings, such as `"5.0"`, `" 5"`, `"5 "` or `"5e0"`. Those forms are left out, so the constructor's requirement excludes them.
- Menus.Normalize: lower-cases ASCII letters only. Stringable's `lower` is multibyte and also lower-cases non-ASCII letters.
- Menus.FirstWithSlug: compares slugs exactly. `firstWhere('slug', $parent)` compares loosely, so in PHP 8 two different numeric strings of the same value (`"1"` and `"01"`) also match. That case is not modelled.
- PhpStrings.Lower: ASCII only. Stringable's `lower` is multibyte.
- PhpStrings.Ucfirst: ASCII only. Stringable's `ucfirst` is multibyte, and PHP's `ucfirst` is byte-wise.
- Dashboards.Dashboard.Init: the `cms_init` listeners are modelled by the registrations they make, as a sequence of post-type and setting registrations applied in order after the dispatch. Any other effect of a listener is not modelled. The `cms_registered_post_type` actions fired during those registrations are not in the returned trace.
- Fields.Field.IsVisible: the condition's answer is read by truthiness. PHP's `bool` return type coerces a scalar the same way, but raises a TypeError for a null, array or object answer, and the model has no error path for it.
- Columns.Column.IsVisible: as for `Fields.Field.IsVisible`, a null, array or object answer from the condition is read by truthiness, where PHP's `bool` return type raises a TypeError.
- Tables.RecordId: a record is a value; an Eloquent model is modelled as the `Dict` of its attributes, so `$record->id` and `$record['id']` read the same entry.
- Values.ToText: an array or a closure used where PHP needs a string is rendered as `""`, where PHP raises a TypeError. An example is a setting's `label` given as an array and passed on as a menu title.
- Dashboards.BoxPriority: sorts a meta box whose `priority` is not an integer as if it were 0. PHP 8 compares such a value with integers as a string, and that comparison is not modelled. `addMetaBox` always stores an integer priority.
- Dashboards.Dashboard.AddPostTypeItems: the `show_in_menu` test that the source repeats for each taxonomy is made once before the taxonomy loop. This is the same decision, because the flag does not change inside the loop.
- Tables.Table.SortOrder: requires the `sort` input, when present, to be usable as an array key. Other values make PHP raise an error, which is not modelled.
- Columns.Column.GetBadgeColor: requires the value to be usable as an array key, for the same reason. The badge colours are a map from string keys to strings.
- Integer-like string keys: PHP turns them into integer keys and renumbers integer keys in `array_merge`. The model keeps every key a string.
- Forms.Form.CollectFillable: `in_array` on the fillable list uses loose comparison, and the model compares names exactly.
- Forms.Form.FillValues: beyond the values it sets, the contract says only that each field's rules, tab and group are kept. It does not list every other property of the field.
- Forms.Form.FillFromRequest: request input is a map from names to values. Only the non-null values it supplies are used, as `fillFromRequest` does. Like `FillValues`, beyond the values it sets, the contract says only that each field's rules, tab and group are kept. It does not list every other property of the field.
- HookRegistry.RemovedWithPriority: `Hooks.RemoveHook` and its callers apply the removal predicate as written (src/app/Modules/Hooks.php:241-245). The intended removal is defined and proved beside it (`RemovedIntended`), and the discrepancy is recorded under Findings.
- Dashboards.Dashboard.GetTaxonomy and `Dashboards.Dashboard.TaxonomyExists`: modelled as written, and recorded under Findings. `getTaxonomies` and `getTaxonomiesForPostType` are not modelled.
- Helper methods split the source's loops into one method per loop body: `AttachMetaBox`, `AttachTaxonomy`, `AddSettingItems`, `AddPostTypeItems`, `AddTaxonomyItems`, `AddTaxonomyItem`, `PutColumn`, `CollectRules`, `CollectFillable`, `GroupFields` and `LoadRows`. `RegisterNext` is one step of `ListenerRegistrations`.

## Findings

| source | as written | input that shows it | evidently intended | confidence | as-written member | corrected member |
|---|---|---|---|---|---|---|
| src/app/Services/Dashboard.php:212 | `getTaxonomy` assigns `null` to its `$taxonomy` parameter before searching, so every lookup is for the key `null` (the array key `""`) | register taxonomy `category` on post type `post`, then call `getTaxonomy('category')`: it returns null, and `taxonomyExists('category')` returns false | return the first registered taxonomy under the asked id | not executed | Dashboards.GetTaxonomyMissesRegistered (about Dashboards.Dashboard.GetTaxonomy) | Dashboards.Dashboard.FindTaxonomy, with Dashboards.FirstTaxonomySpec |
| src/app/Modules/Hooks.php:242-244 | the `array_filter` callback keeps a hook of the removed callback when `$priorityMatch` is false, that is, only when a priority is given and the hook sits at it; so with a priority given the callback's hooks at that priority stay and those at every other priority are removed | register one callback under `init` at priorities 10 and 20, then `removeAction('init', $cb, 10)`: the priority-10 hook stays and the priority-20 hook is removed | remove only the callback's hooks at the given priority, as the doc comment of removeAction and removeFilter says (lines 107-113) | not executed | HookRegistry.RemovedWithPriorityInverted (about HookRegistry.RemovedWithPriority and HookRegistry.Hooks.RemoveHook) | HookRegistry.RemovedIntended, with HookRegistry.RemovedIntendedSpec and HookRegistry.RemovedIntendedWithPriority |


