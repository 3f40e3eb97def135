# Yoast SEO: settings import, snippet preview and workouts rules in Dafny

This project models three small pieces of pure logic from the Yoast SEO WordPress plugin and proves properties about them.

1. **The AIOSEO default-archive settings importing action.**
   - `get_source_option_name` names the option row AIOSEO keeps its settings in: `aioseo_options`. It is `ArchiveImport.SourceOptionName`.
   - `flatten_settings` turns a nested settings array into one PHP array keyed by `/`-joined paths. It is `Settings.Flatten`, over PHP's insertion-ordered arrays in `PhpArray`.
   - `query` picks `searchAppearance.archives` out of the decoded blob and flattens it. It is `ArchiveImport.Query`.
   - `map` moves one flattened setting into this plugin's options through a path table. It is `ArchiveImport.Map`, which returns the calls it makes on the options and replacement-variable helpers.

   The importing action's class is not part of this model. Only its unit test is. So the importer is modelled from the test: its fixtures, its data providers and the call counts its mocks expect.
2. **`mapEditorDataToPreview` in the Elementor snippet editor.** Empty titles and descriptions fall back to the templates. Whitespace runs in the URL become dashes, and up to two dashes are removed. The module also covers the rewrite of empty replacement variables to `%%name%%`. All of this is `SnippetPreview`.
3. **The workouts admin integration's decisions** (`Workouts`):
   - submenu filtering and appending;
   - the "Yoast page or dashboard" predicate;
   - whether the configuration workout notice shows;
   - the subscription states;
   - the "update Premium" notice variant.

   Every WordPress lookup is an input: the Premium version, the subscription, `pagenow`, the `page` query argument, the user capability, the stored options and the clock.

Modules:
- `Optional`: `Option`. It stands for PHP `null` and JavaScript `undefined`.
- `PhpArray`: ordered string-keyed arrays. It covers `$a[$k] = $v` (`Put`) and `array_merge` (`Merge`).
- `Settings`: the settings tree and `flatten_settings`, with a reference definition by leaf paths.
- `ArchiveImport`: `query`, `map`, the option store, and the test's fixtures and providers.
- `SnippetPreview`: the snippet preview URL normaliser and the replacement variables.
- `Workouts`: the workouts integration.

## Model

| member | source | states |
|---|---|---|
| Settings.Flatten | tests/unit/actions/importing/aioseo-default-archive-settings-importing-action-test.php:157-162 | The flattened array never repeats a key and has no more entries than the tree has leaves. |
| Settings.FlattenMatchesLeaves | tests/unit/actions/importing/aioseo-default-archive-settings-importing-action-test.php:57-102 | For a tree whose keys are unique per level and `/`-free, flattening lists exactly the leaves, depth first and in source key order. Each leaf appears once, under the `/`-joined path of its ancestors with a leading `/`, with its value unchanged. Every key lies below the prefix under one of the top-level names. |
| Settings.NodeMatchesLeaves | tests/unit/actions/importing/aioseo-default-archive-settings-importing-action-test.php:62-64 | A single member contributes its own leaves under `prefix/key`, with unique keys that all start with that member's segment. |
| Settings.FlattenSnoc | tests/unit/actions/importing/aioseo-default-archive-settings-importing-action-test.php:89-102 | Appending a member appends its entries after every entry of the earlier members, so source order is kept. |
| ArchiveImport.FlattenOnePerLeaf | tests/unit/actions/importing/aioseo-default-archive-settings-importing-action-test.php:89-102 | Flattening emits exactly one entry per leaf, at any depth. |
| ArchiveImport.FlattenFixture | tests/unit/actions/importing/aioseo-default-archive-settings-importing-action-test.php:157-162 | `$full_settings_to_import` flattens to `$flattened_settings_to_import`, entry for entry and in order: strict `===`. |
| ArchiveImport.ArchiveFixtureFlat | tests/unit/actions/importing/aioseo-default-archive-settings-importing-action-test.php:58-65 | One archive of the fixture (show, title, metaDescription, advanced/showDateInGooglePreview) flattens to its four paths, including the depth-3 one. |
| ArchiveImport.Lookup | tests/unit/actions/importing/aioseo-default-archive-settings-importing-action-test.php:218-220 | `$array[$key]` finds a value exactly when the key is among the member names, and the value found is that member's. |
| ArchiveImport.Query | tests/unit/actions/importing/aioseo-default-archive-settings-importing-action-test.php:138-150 | Without `searchAppearance.archives`, or when it is not an array, the result is empty. Otherwise it is exactly the archive leaves under their paths, one per leaf, and nothing from the sibling subtrees. |
| ArchiveImport.QueryFullSettings | tests/unit/actions/importing/aioseo-default-archive-settings-importing-action-test.php:218-236 | The full blob yields `$flattened_settings_to_import`. `postypes` and `taxonomies` contribute nothing. |
| ArchiveImport.QueryMissingSettings | tests/unit/actions/importing/aioseo-default-archive-settings-importing-action-test.php:238-255 | A blob without `archives` yields the empty array. |
| ArchiveImport.QueryMalformedSettings | tests/unit/actions/importing/aioseo-default-archive-settings-importing-action-test.php:257-275 | An `archives` value `'not_array'` yields the empty array. |
| ArchiveImport.QueryMatchesProvider | tests/unit/actions/importing/aioseo-default-archive-settings-importing-action-test.php:277-281 | Every row of the query provider holds, with the third row built from the malformed blob. |
| ArchiveImport.ProviderQueryRepeatsRow | tests/unit/actions/importing/aioseo-default-archive-settings-importing-action-test.php:280 | As written, the third provider row equals the second, and no row queries the malformed blob. |
| ArchiveImport.Map | tests/unit/actions/importing/aioseo-default-archive-settings-importing-action-test.php:175-191 | An unmapped path makes no call. A mapped path first reads the default of its destination, once, and reads no other option's default. When that default is not `null`, the value is written once to the destination. The replacement-variable handler runs once, only for replacement-variable rules, and is handed the setting value itself. The written value is the transformed one. |
| ArchiveImport.MapStore | tests/unit/actions/importing/aioseo-default-archive-settings-importing-action-test.php:188-191 | After `map`, the option store is unchanged for an unmapped path or a `null` default. Otherwise only the destination changes, to the transformed value. |
| ArchiveImport.ApplyOverrides | tests/unit/actions/importing/aioseo-default-archive-settings-importing-action-test.php:188-189 | Running a call sequence overrides the store with what it sets and leaves every other option alone. |
| ArchiveImport.ApplyIdempotent | tests/unit/actions/importing/aioseo-default-archive-settings-importing-action-test.php:188-189 | Replaying the same writes changes nothing further. |
| ArchiveImport.MapMatchesProvider | tests/unit/actions/importing/aioseo-default-archive-settings-importing-action-test.php:199-209 | For any table that agrees with the provider and has non-`null` defaults (the mock answers `'not_null'`), each row makes its expected numbers of `get_default`, `set` and transform calls. Every transform call receives the row's setting value, and every `get_default` call asks for the row's destination. |
| SnippetPreview.BaseUrlOffset | js/src/elementor/containers/SnippetEditor.js:35-39 | The offset is positive exactly for a non-empty string base URL, and is then its length. Otherwise it is 0. |
| SnippetPreview.ReplaceLeavesNoWhitespace | js/src/elementor/containers/SnippetEditor.js:42 | No character of the regular-expression class `\s` survives the replacement. |
| SnippetPreview.ReplaceMatchesPieces | js/src/elementor/containers/SnippetEditor.js:42 | The replacement equals a per-character reference. Each non-whitespace character is kept, the first character of every whitespace run becomes `-`, and the rest of the run is dropped. So each maximal run becomes exactly one dash. |
| SnippetPreview.ReplaceKeepsText | js/src/elementor/containers/SnippetEditor.js:42 | The characters that are neither whitespace nor `-` are kept, in order. |
| SnippetPreview.SkipRunDropsRun | js/src/elementor/containers/SnippetEditor.js:42 | The greedy `\s+` match takes a prefix made only of whitespace, and the rest of the string follows it unchanged. |
| SnippetPreview.ReplaceExample | js/src/elementor/containers/SnippetEditor.js:42 | `"a/ b c "` becomes `"a/-b-c-"`. |
| SnippetPreview.TrimTrailingDash | js/src/elementor/containers/SnippetEditor.js:43-45 | The result is the URL itself, or the URL with exactly one trailing `-` removed. It is the URL itself exactly when the URL is empty or does not end in `-`. |
| SnippetPreview.TrimOnlyOne | js/src/elementor/containers/SnippetEditor.js:43-45 | A URL ending in `--` still ends in `-` after the trim. |
| SnippetPreview.DropDashAt | js/src/elementor/containers/SnippetEditor.js:48-50 | The character at the offset is removed exactly when it is `-`. Putting the dash back gives the input, the characters before the offset never change, and an out-of-range offset changes nothing. |
| SnippetPreview.BothDrops | js/src/elementor/containers/SnippetEditor.js:43-50 | The trailing trim followed by the drop at the offset deletes exactly the dashes `DashesDroppedAt` names. A dash ending the replaced URL goes. A dash at the offset goes when the offset lies inside the trimmed URL. So at an offset that is the last index, a final dash is deleted once. Only `-` characters are deleted. The characters before the offset stay in place. The URL is unchanged exactly when it neither ends in `-` nor has `-` at the offset. |
| SnippetPreview.DashesRemovedTrans | js/src/elementor/containers/SnippetEditor.js:43-50 | Deleting dashes in two rounds is deleting dashes, so the two drops compose. |
| SnippetPreview.NormalizeUrl | js/src/elementor/containers/SnippetEditor.js:41-50 | The final URL has no whitespace. It is the replaced URL with the dashes `DashesDroppedAt` names deleted: the last character when it is `-`, and the character at the offset when it is `-` and lies inside the trimmed URL. So at most two `-` characters are deleted and every other character kept in place and order. The characters before the offset are unchanged. It equals the replaced URL exactly when that neither ends in `-` nor has `-` at the offset. |
| SnippetPreview.MapEditorDataToPreview | js/src/elementor/containers/SnippetEditor.js:24-53 | An empty title or description takes the template's and a non-empty one is kept. The URL is the whitespace-replaced URL with exactly the dashes `DashesDroppedAt` names deleted: the one ending it, if any, and the one at the base-URL offset, if that lies inside the trimmed URL. The base URL in front of the offset is kept, and the URL is left as replaced exactly when neither place holds a dash. |
| SnippetPreview.ReplaceKeepsPlainUrl | js/src/elementor/containers/SnippetEditor.js:42 | A URL without whitespace comes through the replacement unchanged. |
| SnippetPreview.DashAtOffsetGoes | js/src/elementor/containers/SnippetEditor.js:46-50 | With the offset 2, `ab-c-d` becomes `abc-d`. The dash at the offset goes and the later one stays. |
| SnippetPreview.MapKeepsBaseUrl | js/src/elementor/containers/SnippetEditor.js:46-50 | When the replaced URL is longer than the base-URL offset, the characters before the offset are unchanged. |
| SnippetPreview.SpaceAfterBaseUrl | js/src/elementor/containers/SnippetEditor.js:46-50 | With base URL `a/`, the URL `"a/ b c "` is previewed as `"a/b-c"`. The stray space after the base URL and the trailing one both vanish. |
| SnippetPreview.FillEmpty | js/src/elementor/containers/SnippetEditor.js:116-121 | The variable list keeps its length, order and names. An empty value becomes `%%name%%` unless the name is `title`, `excerpt` or `excerpt_only`. Every other value is unchanged. |
| SnippetPreview.FilledOnlyExemptEmpty | js/src/elementor/containers/SnippetEditor.js:117-121 | After the rewrite, only `title`, `excerpt` and `excerpt_only` can still be empty. |
| SnippetPreview.FillIdempotent | js/src/elementor/containers/SnippetEditor.js:117-121 | Running the rewrite twice gives the same list as running it once. |
| Workouts.DropWorkouts | src/integrations/admin/workouts-integration.php:92-97 | No `wpseo_workouts` page is left. Every other page keeps its number of occurrences. |
| Workouts.DropWorkoutsAppend | src/integrations/admin/workouts-integration.php:92-97 | Filtering a concatenation filters each part, so kept pages keep their relative order. |
| Workouts.DropWorkoutsIdempotent | src/integrations/admin/workouts-integration.php:92-97 | Filtering twice is filtering once. |
| Workouts.AddSubmenuPage | src/integrations/admin/workouts-integration.php:89-111 | The workouts page (parent `wpseo_dashboard`, capability `edit_others_posts`, slug `wpseo_workouts`) is always last. When Premium is not outdated, the result is the input plus that page. When it is outdated, the result is the filtered input, in its order, plus that page. Exactly one `wpseo_workouts` page then remains, and every other page keeps its occurrences. |
| Workouts.ShouldUpdatePremium | src/integrations/admin/workouts-integration.php:300-303 | Never true when Premium is not installed (its version is `null`). |
| Workouts.NoPremiumKeepsPages | src/integrations/admin/workouts-integration.php:89-111 | Without Premium, the submenu is the input plus the workouts page. |
| Workouts.Expired | src/integrations/admin/workouts-integration.php:310-314 | Expired only when a subscription with an expiry date exists. For a readable date, expired exactly when that date lies before now. |
| Workouts.UnparseableExpiry | src/integrations/admin/workouts-integration.php:313 | An expiry date that `strtotime` cannot read counts as expired whenever the clock is past the epoch. |
| Workouts.Unactivated | src/integrations/admin/workouts-integration.php:321-323 | A valid subscription is never unactivated. Without a subscription object, or with one that has no expiry date, unactivated means exactly "no valid subscription". `ExpiredOrUnactivated` and `ChooseVariant` carry the rest. |
| Workouts.ExpiredOrUnactivated | src/integrations/admin/workouts-integration.php:310-323 | Expired and unactivated never hold together. |
| Workouts.ChooseVariant | src/integrations/admin/workouts-integration.php:247-283 | The clock is read twice: once for the expiry check at line 248, and again inside the unactivated check at line 322. The renew notice is chosen exactly when the first reading finds the subscription expired. If the clock does not go back, the activate notice is chosen exactly when the subscription is unactivated at the second reading. The update notice is chosen exactly when the subscription is not expired at the first reading and is valid, or has expired by the second. With one reading, the update notice means a valid, unexpired subscription. |
| Workouts.ExpiresBetweenReadings | src/integrations/admin/workouts-integration.php:248-283 | A subscription without a valid licence that expires between the two readings gets the update notice, with no button. |
| Workouts.ExpiredLater | src/integrations/admin/workouts-integration.php:313 | Once expired at some time, a subscription stays expired at every later time. |
| Workouts.UpdatePremiumNotice | src/integrations/admin/workouts-integration.php:247-283 | Only the update notice has no button. The renew and activate notices link to their `yoa.st` addresses, with the button URLs of the source. |
| Workouts.VariantsPartition | src/integrations/admin/workouts-integration.php:247-283 | Every state falls under one of the three variants. |
| Workouts.Strpos | src/integrations/admin/workouts-integration.php:350 | `strpos` returns the first index where the needle occurs, and `false` only when it occurs nowhere. |
| Workouts.StrposZero | src/integrations/admin/workouts-integration.php:350 | `strpos( $s, $p ) === 0` holds exactly when `s` starts with `p`. |
| Workouts.OnAdminPageOrDashboard | src/integrations/admin/workouts-integration.php:339-362 | True on `index.php`. On `admin.php`, true exactly when the `page` argument starts with `wpseo` and is neither `wpseo_workouts` nor `wpseo_installation_successful`. False otherwise, including when `page` is absent. |
| Workouts.ShouldDisplayNotice | src/integrations/admin/workouts-integration.php:164-178 | A truthy dismiss option suppresses the notice, and so does a user without `wpseo_manage_options`. Otherwise it shows exactly when fewer than five steps are finished and the page predicate holds. |
| Workouts.NoNoticeOnExceptions | src/integrations/admin/workouts-integration.php:351-358 | The notice never shows on the workouts page or on the installation success page. |
| Workouts.NoticeOnDashboard | src/integrations/admin/workouts-integration.php:164-178 | On the dashboard, the notice shows when the dismiss option is missing or falsy (`"0"`), the user may manage options, and the workout is unfinished. |

## Findings

| source | as written | input that shows it | evidently intended | confidence | as-written member | corrected member |
|---|---|---|---|---|---|---|
| tests/unit/actions/importing/aioseo-default-archive-settings-importing-action-test.php:280 | The third `provider_query` row passes `$missing_settings` again. | `$malformed_settings` (`archives => 'not_array'`) is built at lines 257-273 but never reaches `query`. | The row should be `[ json_encode( $malformed_settings ), $malformed_settings_expected ]`. | high (not executed) | ArchiveImport.ProviderQueryRepeatsRow | ArchiveImport.QueryMatchesProvider |

## Left out

- Host I/O for `query`:
  - reading the option with `get_option` and decoding its JSON are left out. `query` works on the decoded tree, and `None` stands for a blob that did not decode.
  - `get_unimported_chunk` and its cursor and limit are left out. The test mocks it to return its input.
- ArchiveImport.Map:
  - The importing action's class is not part of this model, so its path table is a parameter.
  - The `noindex` transform method is an opaque function.
  - The replacement-variable handler is also an opaque function.
- ArchiveImport.Map: the gate on a non-`null` registered default is an assumption about the importing action. The test does not pin it down, because its mock always answers non-`null`. No "skip an already customised value" rule is modelled, because the test never reads the current value.
- Settings.Scalar: a JSON number with a fraction is kept as an exact `real`, not as an IEEE double. Flattening never looks at leaf values, so this does not affect any stated property.
- ArchiveImport.Query:
  - Its full characterisation assumes a tree whose keys are unique at each level and free of `/`.
  - PHP arrays always have unique keys. A key containing `/` would make paths ambiguous, so for such trees only uniqueness and the entry bound are stated.
  - Integer list indexes are modelled as their decimal strings.
- Translation: the `__()` calls, titles, copy and HTML of the notices are left out. Of a notice, only its variant, link and button target are kept.
- Workouts: `register_hooks`, `enqueue_assets`, `render_target`, `configuration_workout_notice` (rendering and inline script) and `get_workouts_option` are host glue and are left out.
- Workouts.ShouldUpdatePremium: PHP `version_compare` is a parameter. Only the `null` case and the constant `17.7-RC1` are modelled.
- Workouts.Expired: `strtotime` is read as a fixed function of the stored date, so its two calls agree. `strtotime` and `time()` are inputs: a parsed timestamp or "unparseable", and `now`. An unreadable date reads as 0.
- Workouts.UpdatePremiumNotice: the plugin-update URL built by `wp_nonce_url` and `self_admin_url` is a parameter.
- Workouts.AddSubmenuPage: PHP keeps the original keys after `array_filter`, and `[]` appends at the next integer key. The model keeps only the iteration order, which is what the menu uses.
- Workouts.ShouldDisplayNotice: a missing `finishedSteps` entry is not modelled, and the list is always present. On PHP 8, `count( null )` throws a `TypeError` there. On PHP 7.2 to 7.4 it warns and returns 0, so the step test would pass.
- Workouts.OnAdminPageOrDashboard: `filter_input` returning `false` for a failed filter is not modelled. The `page` argument is a string or absent.
- SnippetPreview: JavaScript strings are UTF-16 code units, while the model indexes by Unicode characters. The two agree on URLs without characters outside the Basic Multilingual Plane, and every `\s` character lies inside it.
- SnippetPreview.MapEditorDataToPreview:
  - The final `applyReplaceUsingPlugin` pass and the editor-store `select` are foreign calls.
  - The templates are a parameter, and the function returns the data handed to that pass.
  - JavaScript updates `data` in place, while the model returns a new record.
- SnippetPreview.FillEmpty: JavaScript rewrites `.value` in place on the objects `getReplaceVars()` returns, and hands that same array on as a prop. The model returns a fresh list and does not model the aliasing. Because the rewrite is idempotent (`FillIdempotent`), running `withSelect` again on the already rewritten objects changes nothing.
- SnippetPreview.FillEmpty: the other `withSelect` selectors and the `withDispatch` wiring are store access and are left out.
- The React wrapper component and everything else in the repository are out of scope.
