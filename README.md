# A verified model of the beautiful-page writing app's stores

beautiful-page is a desktop writing tool for long web novels. Its in-memory state lives in Pinia
stores:

- the **outline store** holds the book / volume / chapter / scene nodes and derives a nested tree
  view, the four per-type lists and a word-count total;
- the **lore store** holds world rules and factions, grouped by category and by a keyword
  classification of each faction's ideology;
- the **character store** holds the characters, their count and their grouping by project;
- the **character composable** validates the character form and retries the store's create call
  with a growing back-off;
- the **application store** holds the UI settings (theme, layout, panel widths), the collapsed
  panels and the one-time initialisation.

This project models those stores in Dafny and proves what they promise.

Getters are functions on the store's lists. Actions that change a store are methods of a `class`
whose fields are the store's refs. Each method's `ensures` gives the whole new state in terms of
the old one, and lemmas state what that new state keeps.

| file | module | models |
|---|---|---|
| `wrappers.dfy` | `Wrappers` | `Option`, `Result`, `Outcome` |
| `lists.dfy` | `Lists` | `filter`, `find`/`findIndex` and the `Map` grouping loop, generic over a key |
| `types.dfy` | `Types` | the records of `src/types` the stores use, and the errors they throw |
| `text.dfy` | `Text` | `includes`, `trim` and `length` (UTF-16 code units) on strings |
| `outline_tree.dfy` | `OutlineTree` | `treeData`: the child lists, the stable sort by `order`, the nested view |
| `outline_store.dfy` | `OutlineStore` | the type filters, `wordCountTotal`, `createNode`, `updateNode` |
| `lore_store.dfy` | `LoreStore` | `rulesByCategory`, `factionsByType`, the rule and faction actions |
| `character_store.dfy` | `CharacterStore` | `charactersCount`, `charactersByProject`, the character actions |
| `use_character.dfy` | `UseCharacter` | `validateData`, `withRetry`, the composable's `createCharacter` |
| `app_store.dfy` | `AppStore` | settings, widths, theme, toggles, `loadSettings`, `initialize` |

The environment becomes parameters:

- `freshId` stands for `crypto.randomUUID()` and `now` for `Date.now()`.
- `writeOk` says whether the IndexedDB write succeeds. A failed write throws before the in-memory
  list is touched, so the model returns `WriteFailed` and leaves the state as it was.
- `writes(i)` says what the `i`-th database write of the composable's retried call does.
- `prefersDark` stands for `matchMedia('(prefers-color-scheme: dark)').matches`.
- `saved` is what `localStorage` holds under the settings key, already parsed.
- `dbInit` is what the database store's `initialize` throws, if anything.

A thrown `Error('… not found')` becomes `NotFound("… not found")`.

The model follows the code as written, including these behaviours:

- `updateSettings` and `loadSettings` do not clamp the panel widths. Only the two width setters do,
  so "the widths stay in 200..500" is not an invariant of the store (`AppStore.MergeCanLeaveRange`).
- `loadSettings` merges what was saved over the defaults, not over the current settings.
- In the composable, a form that fails validation returns with `currentOperation` still `'create'`.
- In `createNode` an omitted parent finds no siblings, so the order restarts at 0, while the node
  is stored as a root (`OutlineStore.OmittedParentCollides`). An empty-string parent is also stored
  as a root, but its lookup finds the nodes whose stored `parentId` is `""`. `createNode` never
  stores such a node, since it turns `""` into `null`, so for nodes it created the order also
  restarts at 0.
- Sibling orders are computed over all loaded nodes, not per project.

## Model

| member | source | states |
|---|---|---|
| `Lists.WithKey` | src/stores/domain/outlineStore.ts:38-41 | an element of `s` is kept iff its key is `k`, and the result is no longer than `s` (multiplicity: `WithKeyMultiplicity`; order: `WithKeyAppend`) |
| `Lists.WithKeyMultiplicity` | src/stores/domain/outlineStore.ts:38-41 | each element is kept as many times as it occurs when its key is `k`, and never otherwise |
| `Lists.WithoutKey` | src/stores/domain/loreStore.ts:117 | an element of `s` is kept iff its key is not `k`, and the result is no longer than `s` (multiplicity: `WithoutKeyMultiplicity`; order: `WithoutKeyAppend`) |
| `Lists.WithoutKeyMultiplicity` | src/stores/domain/loreStore.ts:117 | each element is kept as many times as it occurs when its key is not `k`, and never otherwise |
| `Lists.WithKeyAppend` | src/stores/domain/outlineStore.ts:38-41 | filtering distributes over concatenation |
| `Lists.WithKeySplit` | src/stores/domain/loreStore.ts:117 | the two filters split the list: lengths add up and multisets add up |
| `Lists.WithoutAbsentKey` | src/stores/domain/loreStore.ts:117 | removing a key nobody carries returns the list unchanged |
| `Lists.WithoutKeyAppend` | src/stores/domain/loreStore.ts:117 | the filter that drops a key distributes over concatenation |
| `Lists.RemoveAppended` | src/stores/domain/loreStore.ts:88 | removing the key of a freshly appended element undoes the append |
| `Lists.WithKeyUnique` | src/stores/domain/characterStore.ts:99 | with unique keys a key selects one element or none |
| `Lists.IndexOfKey` | src/stores/domain/loreStore.ts:105 | `findIndex`: None iff no element has the key; otherwise the first such index |
| `Lists.GroupBy` | src/stores/domain/loreStore.ts:17-23 | the map the `forEach` loop builds: each key maps to the elements carrying it, appended in list order (proved in `GroupByIsFilter`) |
| `Lists.GroupEach` | src/stores/domain/loreStore.ts:17-23 | the `forEach` loop over the map builds exactly `GroupBy` |
| `Lists.GroupByIsFilter` | src/stores/domain/loreStore.ts:16-24 | a key has a group iff some element has it; the group is the filter by that key, in list order |
| `Text.ContainsIff` | src/stores/domain/loreStore.ts:31-33 | `includes` finds a substring iff it occurs at some position |
| `Text.Contains` | src/stores/domain/loreStore.ts:31-33 | `includes`: `sub` is a prefix of `s` or of one of its suffixes (characterized by `ContainsIff`) |
| `Text.TrimStartSpec` | src/composables/useCharacter.ts:25 | the leading trim removes exactly a whitespace prefix, stopping at a non-whitespace character |
| `Text.TrimEndSpec` | src/composables/useCharacter.ts:25 | the trailing trim removes exactly a whitespace suffix, stopping at a non-whitespace character |
| `Text.TrimIsInfix` | src/composables/useCharacter.ts:25 | `trim` keeps a contiguous slice, removes only whitespace, and the slice has no whitespace at either end |
| `Text.TrimEmptyIff` | src/composables/useCharacter.ts:25 | `s.trim() === ''` iff every character of `s` is whitespace |
| `Text.Trim` | src/composables/useCharacter.ts:25 | `trim`: the trailing trim after the leading one (characterized by `TrimIsInfix` and `TrimEmptyIff`) |
| `Text.Utf16LengthBounds` | src/composables/useCharacter.ts:28 | `length` lies between the code-point count and twice that, and equals it on the Basic Multilingual Plane |
| `Text.Utf16Length` | src/composables/useCharacter.ts:28 | `length`: one unit per code point up to U+FFFF and two above (bounded by `Utf16LengthBounds`) |
| `OutlineTree.ChildIndices` | src/stores/domain/outlineStore.ts:27 | the positions are increasing and are exactly the nodes whose `parentId` equals the parent |
| `OutlineTree.Insert` | src/stores/domain/outlineStore.ts:28 | inserting a position that precedes the rest into a sorted list keeps it sorted by `order`, stable on ties, and adds exactly that position |
| `OutlineTree.SortByOrder` | src/stores/domain/outlineStore.ts:28 | the stable sort is a permutation, sorted by `order` and by list position on ties |
| `OutlineTree.Kids` | src/stores/domain/outlineStore.ts:26-28 | a parent's children are exactly the nodes with that `parentId`, each once, sorted by `order`, stable |
| `OutlineTree.RootPathBounded` | src/stores/domain/outlineStore.ts:32 | with unique ids a chain of parent links is never longer than the list, so `buildTree` stops |
| `OutlineTree.RootPathUnique` | src/stores/domain/outlineStore.ts:32 | with unique ids a node is reached by at most one chain from a root |
| `OutlineTree.ExtendRootPath` | src/stores/domain/outlineStore.ts:32 | a child of a chain's end extends the chain |
| `OutlineTree.BuildTree` | src/stores/domain/outlineStore.ts:25-34 | `buildTree(parent, level)` lists the parent's children in `Kids` order, each tagged `level`, with children built one level down |
| `OutlineTree.BuildEntries` | src/stores/domain/outlineStore.ts:29-33 | the mapped entries: one per child, in order, each with its own exact subtree |
| `OutlineTree.TreeData` | src/stores/domain/outlineStore.ts:24-36 | `treeData` is an exact view: at every depth, the children of each entry are exactly its child nodes, sorted by `order` |
| `OutlineTree.FlattenTree` | src/stores/domain/outlineStore.ts:24-36 | each entry of the flattened view is the end of its own chain from a root |
| `OutlineTree.PathsSound` | src/stores/domain/outlineStore.ts:24-36 | every chain below a chain extends it |
| `OutlineTree.PathsDistinct` | src/stores/domain/outlineStore.ts:24-36 | the chains of the flattened view are pairwise distinct |
| `OutlineTree.RootPathInPaths` | src/stores/domain/outlineStore.ts:24-36 | every chain from a root appears in the view |
| `OutlineTree.TreeDataNoDuplicates` | src/stores/domain/outlineStore.ts:24-36 | with unique ids no node appears twice in `treeData`, which has at most as many entries as nodes |
| `OutlineTree.TreeDataIsReachable` | src/stores/domain/outlineStore.ts:24-36 | a node is in `treeData` iff its parent links lead to a root; nodes on a cycle or under a missing parent are not |
| `OutlineStore.OfType` | src/stores/domain/outlineStore.ts:38-41 | the filter for a type holds exactly the nodes of that type |
| `OutlineStore.TypeFiltersPartition` | src/stores/domain/outlineStore.ts:38-41 | `books`, `volumes`, `chapters` and `scenes` partition the nodes: multisets and lengths add up to the list |
| `OutlineStore.WordCountTotalAppend` | src/stores/domain/outlineStore.ts:43-49 | the total is additive over concatenation |
| `OutlineStore.WordCountTotalReplace` | src/stores/domain/outlineStore.ts:43-49 | replacing a node changes the total by the difference of the two counts |
| `OutlineStore.WordCountTotalBounds` | src/stores/domain/outlineStore.ts:43-49 | with no negative counts the total is non-negative and at least each node's count |
| `OutlineStore.WordCountTotal` | src/stores/domain/outlineStore.ts:43-49 | `wordCountTotal`: the left-to-right sum over the nodes of `metadata.wordCount`, or 0 where it is missing (laws in the three `WordCountTotal…` lemmas) |
| `OutlineStore.StoredParentMatches` | src/stores/domain/outlineStore.ts:81-88 | the sibling lookup agrees with the stored parent iff the argument is `null` or a non-empty id |
| `OutlineStore.SameParent` | src/stores/domain/outlineStore.ts:81 | `n.parentId === data.parentId` for a stored string or `null`: an omitted argument matches no stored parent |
| `OutlineStore.StoredParent` | src/stores/domain/outlineStore.ts:88 | `data.parentId` or `null`: an omitted, `null` or empty parent is stored as `null` |
| `OutlineStore.Siblings` | src/stores/domain/outlineStore.ts:81 | the siblings are exactly the nodes whose `parentId` is strictly equal to the argument |
| `OutlineStore.MaxOrder` | src/stores/domain/outlineStore.ts:82 | at least -1 and every order; -1 or attained |
| `OutlineStore.NextOrder` | src/stores/domain/outlineStore.ts:81-91 | the new order is non-negative and above every sibling's, and is 0 or one past an existing sibling's |
| `OutlineStore.SiblingMaxAttained` | src/stores/domain/outlineStore.ts:81-91 | with siblings present, the new order is one past the largest sibling order, when that is at least -1 |
| `OutlineStore.NewNode` | src/stores/domain/outlineStore.ts:84-98 | the node `createNode` builds: the drawn id and time, the stored parent, `maxOrder + 1`, collapsed, draft, goal 0, metadata or `{}` |
| `OutlineStore.MergeNode` | src/stores/domain/outlineStore.ts:110-114 | `{ ...node, ...updates, updatedAt }`: each field given in the patch wins, the time is the new stamp |
| `OutlineStore.Store.CreateNode` | src/stores/domain/outlineStore.ts:73-104 | on a failed write nothing changes; otherwise the built node (fresh id, stored parent, next order, draft, defaults) is appended and returned |
| `OutlineStore.Store.UpdateNode` | src/stores/domain/outlineStore.ts:106-126 | an unknown id fails with `Node not found`; otherwise the first match is replaced by the merge stamped `now`, and the selection is refreshed if it has that id |
| `OutlineStore.CreateKeepsSiblingOrdersDistinct` | src/stores/domain/outlineStore.ts:81-91 | creating under `null` or a non-empty parent keeps the orders of siblings distinct |
| `OutlineStore.OmittedParentRestartsAtZero` | src/stores/domain/outlineStore.ts:81-91 | an omitted parent gives a root of order 0 |
| `OutlineStore.OmittedParentCollides` | src/stores/domain/outlineStore.ts:81-91 | so with a root of order 0 present, an omitted parent breaks distinct sibling orders |
| `OutlineStore.UpdateKeepsSiblingOrdersDistinct` | src/stores/domain/outlineStore.ts:106-121 | an update that changes neither parent nor order keeps sibling orders distinct |
| `OutlineStore.CreateKeepsIdsUnique` | src/stores/domain/outlineStore.ts:85-101 | a fresh id keeps ids unique |
| `OutlineStore.UpdateKeepsIdsUnique` | src/stores/domain/outlineStore.ts:110-120 | an update that leaves the id alone keeps ids unique |
| `OutlineStore.CreateAddsWordCount` | src/stores/domain/outlineStore.ts:95-101 | a created node adds its own word count to the total |
| `OutlineStore.RootPathGrows` | src/stores/domain/outlineStore.ts:101 | appending nodes keeps every existing chain |
| `OutlineStore.CreatedNodeIsListed` | src/stores/domain/outlineStore.ts:73-104 | a node created as a root, or under a node reachable from a root, appears in `treeData` |
| `LoreStore.RulesByCategoryGroups` | src/stores/domain/loreStore.ts:16-24 | a category has a group iff some rule has it; the group is that category's rules in list order |
| `LoreStore.RulesByCategory` | src/stores/domain/loreStore.ts:16-24 | `rulesByCategory`: the rules grouped by `category` (characterized by `RulesByCategoryGroups`) |
| `LoreStore.FactionTypeIff` | src/stores/domain/loreStore.ts:29-35 | 正道 iff 天道 or 正义 occurs; 魔道 iff neither does and 强者为尊 or 魔 does; 中立 iff none occurs |
| `LoreStore.FactionType` | src/stores/domain/loreStore.ts:29-35 | the label of an ideology: 正道 for 天道 or 正义, else 魔道 for 强者为尊 or 魔, else 中立 (characterized by `FactionTypeIff`) |
| `LoreStore.FactionsByTypeGroups` | src/stores/domain/loreStore.ts:26-41 | only the three labels are keys; a label has a group iff some faction gets it; the group is those factions in list order |
| `LoreStore.FactionsByType` | src/stores/domain/loreStore.ts:26-41 | `factionsByType`: the factions grouped by that label (characterized by `FactionsByTypeGroups`) |
| `LoreStore.MergeRule` | src/stores/domain/loreStore.ts:97-101 | `{ ...rule, ...updates, updatedAt }`: each field given in the patch wins, the time is the new stamp |
| `LoreStore.MergeFaction` | src/stores/domain/loreStore.ts:174-178 | `{ ...faction, ...updates, updatedAt }`: each field given in the patch wins, the time is the new stamp |
| `LoreStore.Store.CreateWorldRule` | src/stores/domain/loreStore.ts:65-91 | on a failed write nothing changes; otherwise the rule with defaulted lists and both stamps `now` is appended and returned |
| `LoreStore.Store.UpdateWorldRule` | src/stores/domain/loreStore.ts:93-113 | an unknown id fails with `World rule not found`; otherwise the first match is replaced by the merge and the selection refreshed |
| `LoreStore.Store.DeleteWorldRule` | src/stores/domain/loreStore.ts:115-122 | after a write every rule with the id is gone and a selection with that id is cleared |
| `LoreStore.Store.SetCurrentRule` | src/stores/domain/loreStore.ts:213-215 | only the selected rule changes |
| `LoreStore.Store.CreateFaction` | src/stores/domain/loreStore.ts:146-168 | on a failed write nothing changes; otherwise a faction without relationships or members is appended and returned |
| `LoreStore.Store.UpdateFaction` | src/stores/domain/loreStore.ts:170-190 | an unknown id fails with `Faction not found`; otherwise the first match is replaced by the merge and the selection refreshed |
| `LoreStore.Store.DeleteFaction` | src/stores/domain/loreStore.ts:192-199 | after a write every faction with the id is gone and a selection with that id is cleared |
| `LoreStore.Store.AddFactionRelationship` | src/stores/domain/loreStore.ts:201-210 | an unknown faction fails; otherwise the relationship is appended and only the timestamp changes besides |
| `LoreStore.Store.SetCurrentFaction` | src/stores/domain/loreStore.ts:217-219 | only the selected faction changes |
| `LoreStore.DeleteUndoesCreateRule` | src/stores/domain/loreStore.ts:65-122 | deleting a freshly created rule restores the list |
| `LoreStore.DeleteUndoesCreateFaction` | src/stores/domain/loreStore.ts:146-199 | deleting a freshly created faction restores the list |
| `LoreStore.DeleteAbsentRule` | src/stores/domain/loreStore.ts:115-117 | deleting an unknown id leaves the rules unchanged |
| `LoreStore.DeleteRuleRemovesExactly` | src/stores/domain/loreStore.ts:115-117 | after a deletion no rule has the id, and the survivors plus the removed rules are the old list |
| `CharacterStore.CharactersByProjectGroups` | src/stores/domain/characterStore.ts:16-24 | a project has a group iff one of its characters is listed; the group is that project's characters in list order |
| `CharacterStore.CharactersCount` | src/stores/domain/characterStore.ts:14 | `charactersCount`: the number of characters (used by `DeleteCharacterCount`) |
| `CharacterStore.CharactersByProject` | src/stores/domain/characterStore.ts:16-24 | `charactersByProject`: the characters grouped by project id (characterized by `CharactersByProjectGroups`) |
| `CharacterStore.CreatedEmotionalState` | src/stores/domain/characterStore.ts:58-63 | given fields win, missing ones get `''`, `[]` and 50, so the state is always complete |
| `CharacterStore.NewCharacter` | src/stores/domain/characterStore.ts:50-67 | the character `createCharacter` builds: the drawn id and time, the form's fields, lists defaulting to `[]`, the defaulted emotional state, empty history |
| `CharacterStore.MergeCharacter` | src/stores/domain/characterStore.ts:79-83 | `{ ...character, ...updates, updatedAt }`: each form field given wins, a given emotional state replaces the stored one whole |
| `CharacterStore.Store.CreateCharacter` | src/stores/domain/characterStore.ts:48-73 | on a failed write nothing changes; otherwise the character with defaulted lists, completed state, empty history and both stamps `now` is appended |
| `CharacterStore.Store.UpdateCharacter` | src/stores/domain/characterStore.ts:75-95 | an unknown id fails with `Character not found`; otherwise the first match is replaced by the merge and the selection refreshed |
| `CharacterStore.Store.DeleteCharacter` | src/stores/domain/characterStore.ts:97-104 | after a write every character with the id is gone and a selection with that id is cleared |
| `CharacterStore.Store.SetCurrentCharacter` | src/stores/domain/characterStore.ts:106-108 | only the selection changes |
| `CharacterStore.DeleteCharacterCount` | src/stores/domain/characterStore.ts:14 | with unique ids a deletion lowers `charactersCount` by one iff the id is present |
| `CharacterStore.CreateKeepsIdsUnique` | src/stores/domain/characterStore.ts:48-73 | a fresh id keeps ids unique |
| `CharacterStore.UpdateKeepsIdsUnique` | src/stores/domain/characterStore.ts:75-95 | a form update never changes an id, so ids stay unique |
| `CharacterStore.DeleteUndoesCreate` | src/stores/domain/characterStore.ts:48-104 | deleting a freshly created character restores the list |
| `CharacterStore.UpdateEmotionalStateComplete` | src/stores/domain/characterStore.ts:79-83 | after an update the state is complete iff it was kept and complete, or replaced by a complete one |
| `UseCharacter.ValidateDataIff` | src/composables/useCharacter.ts:24-35 | each outcome of the validation, in terms of the form: the name first, then its length, then the identity |
| `UseCharacter.ValidateData` | src/composables/useCharacter.ts:24-35 | `validateData`: the message of the first failing check (blank name, name over 50 UTF-16 units, blank identity), or `null` (characterized by `ValidateDataIff`) |
| `UseCharacter.NameLimitOnBasicPlane` | src/composables/useCharacter.ts:28 | on the Basic Multilingual Plane a name is too long iff it has more than 50 characters |
| `UseCharacter.FirstSuccess` | src/composables/useCharacter.ts:43-45 | the first succeeding attempt below `retries`, with all before it failing, or None when all fail |
| `UseCharacter.WithRetry` | src/composables/useCharacter.ts:37-55 | returns the first success after that many calls; otherwise makes `retries` calls and rejects with the last error (`null` when none); the wait after failed call `i` is `1000 * (i + 1)` ms, and no wait follows the last call |
| `UseCharacter.FirstSuccessAt` | src/composables/useCharacter.ts:43-45 | a success preceded only by failures is the first success |
| `UseCharacter.Composable.CreateCharacter` | src/composables/useCharacter.ts:58-93 | an invalid form records its message and leaves the store alone; otherwise the created character is appended and returned, or the last error (default `创建角色失败`) is recorded |
| `UseCharacter.Composable.CreateValidated` | src/composables/useCharacter.ts:72-92 | the retried create, then the loading flags reset |
| `AppStore.MergeSettingsLaws` | src/stores/appStore.ts:106-107 | the empty patch changes nothing, two merges are one merge, a repeated merge is idempotent |
| `AppStore.MergeSettingsUnchangedIff` | src/stores/appStore.ts:106-107 | a merge leaves the settings as they were iff every field the patch carries already had its value |
| `AppStore.MergeSettings` | src/stores/appStore.ts:106-107 | `{ ...settings, ...patch }`: each field the patch carries wins (laws in `MergeSettingsLaws`) |
| `AppStore.SaveThenLoad` | src/stores/appStore.ts:86-104 | loading what was saved gives back the saved settings |
| `AppStore.LoadFallsBackToDefaults` | src/stores/appStore.ts:86-96 | a field missing from the saved settings takes its default |
| `AppStore.LoadedSettings` | src/stores/appStore.ts:86-96 | the settings after `loadSettings`: the saved keys over the defaults, or the current settings when nothing usable is saved |
| `AppStore.ClampWidth` | src/stores/appStore.ts:135-143 | the width is in 200..500, unchanged inside that range, and saturates at either end |
| `AppStore.ClampWidthLaws` | src/stores/appStore.ts:135-143 | clamping is idempotent and monotone |
| `AppStore.EffectiveWidthsBounded` | src/stores/appStore.ts:50-56 | with widths in range the sidebar is 48 iff collapsed and in 200..500 otherwise; the right panel is 0 iff collapsed and in 200..500 otherwise |
| `AppStore.EffectiveSidebarWidth` | src/stores/appStore.ts:50-52 | `effectiveSidebarWidth`: 48 when collapsed, otherwise the stored width (bounded by `EffectiveWidthsBounded`) |
| `AppStore.EffectiveRightPanelWidth` | src/stores/appStore.ts:54-56 | `effectiveRightPanelWidth`: 0 when collapsed, otherwise the stored width (bounded by `EffectiveWidthsBounded`) |
| `AppStore.MergeCanLeaveRange` | src/stores/appStore.ts:86-112 | the defaults are in range, but an update or a load can take a width out of it |
| `AppStore.CurrentTheme` | src/stores/appStore.ts:41-46 | never `system`; an explicit theme is kept; `system` becomes dark iff the OS prefers dark |
| `AppStore.IsDarkIff` | src/stores/appStore.ts:48 | dark iff the theme is dark, or it is `system` and the OS prefers dark |
| `AppStore.IsDark` | src/stores/appStore.ts:48 | `isDark`: the resolved theme is dark (characterized by `IsDarkIff`) |
| `AppStore.Store.constructor` | src/stores/appStore.ts:32-38 | the initial state: not initialised, default settings, `explorer`, nothing collapsed |
| `AppStore.Store.SetSidebarWidth` | src/stores/appStore.ts:135-138 | only the sidebar width changes, to the clamped width; widths in range stay in range |
| `AppStore.Store.SetRightPanelWidth` | src/stores/appStore.ts:140-143 | only the right panel width changes, to the clamped width; widths in range stay in range |
| `AppStore.Store.ToggleSidebar` | src/stores/appStore.ts:123-125 | only the sidebar flag flips |
| `AppStore.Store.ToggleRightPanel` | src/stores/appStore.ts:127-129 | only the right panel flag flips |
| `AppStore.Store.SetActivePanel` | src/stores/appStore.ts:131-133 | only the active panel changes |
| `AppStore.Store.UpdateSettings` | src/stores/appStore.ts:106-112 | only the settings change, to the merge, unclamped |
| `AppStore.Store.LoadSettings` | src/stores/appStore.ts:86-96 | only the settings change, to the saved keys over the defaults; with nothing usable saved nothing changes |
| `AppStore.Store.Initialize` | src/stores/appStore.ts:59-84 | a no-op once initialised; otherwise settings are loaded, then success marks the store initialised, while failure records the message (`初始化失败` for a non-Error) and rethrows; loading ends either way |

## Left out

- Database reads (`loadNodes`, `loadWorldRules`, `loadFactions`, `loadCharacters`) and the stores'
  `isLoading` / `error` refs they drive are I/O on IndexedDB and are not modelled.
- The outline store's `sceneDetails`, `currentSceneDetail` and `expandedNodes` have no action
  in the modelled core.
- `saveSettings` and `applyTheme` write to `localStorage` and the DOM. They are not modelled:
  `SaveThenLoad` takes the saved value to be the settings' own fields.
- Strings are sequences of Unicode scalar values. A JavaScript string holding a lone surrogate
  cannot be represented, and `length` is computed from the code points.
- `lineHeight` is a floating-point setting and is left out of `Settings`.
- `AppStore.LoadedSettings`: a saved value `JSON.parse` accepts but that is not an object (a
  number, `null`, an array) is modelled only as the patch the caller passes. Keys that are not
  settings are dropped.
- Patches: a key present with the value `undefined`, which object spread would copy, is not
  modelled. A missing key is `None`.
- Panel widths, font size, autosave interval, `order` and word counts are integers. `NaN` and
  fractional values are not modelled.
- `UseCharacter.WithRetry`: `retries` is an integer. A fractional count, and the timer itself, are
  not modelled; the waits are returned as a list of milliseconds.
- Store actions run one at a time: each runs to completion before another starts, although the
  source awaits its database call between reading the state and writing it back. This covers
  `OutlineStore.Store.CreateNode`, `OutlineStore.Store.UpdateNode`,
  `LoreStore.Store.UpdateWorldRule`, `LoreStore.Store.UpdateFaction`,
  `CharacterStore.Store.UpdateCharacter` and `AppStore.Store.Initialize`. Overlapping
  `createNode` calls under one parent would compute the same `maxOrder` and draw equal orders,
  which `OutlineStore.CreateKeepsSiblingOrdersDistinct` does not cover. The update methods reuse
  the index they found, so the `index !== -1` re-check never fails. `initialize` called again
  while the database initializes would run twice.
- `UseCharacter.Composable.CreateCharacter`: calls are sequential, so the `cancelToken` check never
  discards a result. Interleaved calls are not modelled. Each failed attempt's id and clock value
  are not drawn.
- `OutlineTree.TreeData` requires unique node ids. With a duplicated id a node can be its own
  ancestor and `buildTree` never returns.
- `charactersByProject`, `rulesByCategory` and `factionsByType` return a JavaScript `Map`. The model
  uses a Dafny `map`, so it keeps each group's contents and order but not the order in which keys
  were inserted.
- Moving and deleting outline nodes, cascading deletes, version diffs, snapshots and the chronicle
  have no implementation in the modelled source files.
