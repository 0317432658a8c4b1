# PCC Drupal module: a verified model of its query backend and helpers

This project models, in Dafny, the logic of the Pantheon Content Cloud (PCC)
Drupal module (`pcx_connect`). The module shows articles from a remote
headless CMS in Drupal Views. The models are:

- **ViewQuery**: the Views query backend `PccSiteViewQuery`.
  - `addField` and `addWhere` record the requested fields, the WHERE groups and the group-0 "contextual filters".
  - `query()` renders them into a GraphQL-like document. Its root is `articles`, or `article` once any contextual filter was recorded.
  - `execute` chooses one call of the articles service: by slug, else by id, else the whole list.
  - `renderMultipleArticles`, `renderSingleArticle` and `toRow` turn the returned records into result rows. They keep only the requested fields, convert the two millisecond timestamps to seconds, and number the rows.
- **Tags**: the `PccTags` field. It validates the link path, collects the tags of all rows into one shared item list, and renders a tag either as text or as a link. The link path has `{{ tag }}` replaced by the lower-cased, hyphenated tag.
- **Metadata**: the `PccMetadata` field. It renders the selected metadata entry of a row (the `msSinceEpoch` of `Post Date`), validates the selection, and builds the radio options from the site's metadata fields.
- **SmartComponents**: the `SmartComponentManager` of the smart components sub-module. It keeps the single-directory components flagged `pcc_component`, converts each one to a smart component description keyed by its upper-cased machine name, and caches that map.
- **ExportSubscriber**: `PccSiteEventSubscriber`. On config export, every config whose name starts with `pcx_connect.pcc_site` is written back with `site_key` and `site_token` set to `''`.
- **ApiClients**: the per-site client cache of `PccApiClient`, which has a refresh flag, and the set-once client of `PccApiTrait`.
- **ArticlesMapper**: `PccArticlesMapper`. It turns an article into its property array and a page of articles into a list in the same order.
- **ViewHelper**: `PccSiteViewHelper::getMapping`. It is a first-match search of the typed-config definitions for a config entity with a given prefix.
- **Php**: the part of PHP the code relies on. It covers:
  - truthiness (`empty`);
  - string interpolation and `(int)` casts;
  - integer normalisation of array keys;
  - insertion-ordered arrays and `$a[$k] = $v`;
  - `str_starts_with`, `str_replace`, `strtolower` and `strtoupper` on ASCII;
  - truncating integer division.

Objects that the source updates in place are classes in the model:

- `SiteViewQuery`;
- `TagsField`;
- `SmartComponentManager` and its cache;
- the config storage;
- the two client holders.

Loops that build a result step by step are methods. Each is proved equal to a specification function, and that function's properties are proved as lemmas. Drupal services, the SDK, the network and the renderer are parameters:

- the articles service is a function from a request and an attempt number to an outcome;
- the config storage and the cache are state;
- `strip_tags` is a function argument.

The model follows the code as written. Some behaviour one might expect is absent from the code, and some is not what a reader might assume:

- Timestamps are divided with truncation toward zero, which is what `(int)((int)$v / 1000)` and `intdiv` compute. It is not `floor`.
- The code has no field aliases, no alias deduplication or capping, and no injected `previewActiveUntil` field, although the unit test tests/src/Unit/PccSiteViewQueryTest.php:83-99 expects `previewActiveUntil` in the document.
- Values in the query document are not quoted, although the same unit test expects a quoted string value (`slug: "test-article"`).
- The code has no cursor or pager argument, although the same unit test (lines 28-50) builds its request with a cursor. It has no filters or sorting sent to the service.
- A contextual filter other than `slug` or `id` still makes the document singular, while `execute` asks for the whole list.

## Model

| member | source | states |
|---|---|---|
| ViewQuery.WithField | src/Plugin/views/query/PccSiteViewQuery.php:214-217 | the field is present afterwards; the names are exactly the old ones plus this one; re-adding a name adds no duplicate and keeps every position; distinct names stay distinct |
| ViewQuery.SiteViewQuery.AddField | src/Plugin/views/query/PccSiteViewQuery.php:214-217 | table, alias and params are ignored; the field name is returned unchanged and the field list becomes `WithField` of the old one |
| ViewQuery.GroupKey | src/Plugin/views/query/PccSiteViewQuery.php:238-241 | every empty group (`0`, `''`, `'0'`, NULL, false, empty array) is filed as group 0; `true` is group 1; an integer group keeps its number; a non-empty string group is filed under the key PHP makes of that string |
| ViewQuery.WithCondition | src/Plugin/views/query/PccSiteViewQuery.php:247-255 | exactly one condition is appended at the end of its group; an absent group is first created as an empty AND group at the end of the group order; every other group is unchanged |
| ViewQuery.SiteViewQuery.AddWhere | src/Plugin/views/query/PccSiteViewQuery.php:237-256 | an empty group records the value under the dot-free field name in the contextual filters, overwriting an earlier one; a non-empty group leaves them alone; the condition is filed by `WithCondition` |
| ViewQuery.ConditionInLastGroupIsLastArgument | src/Plugin/views/query/PccSiteViewQuery.php:247-255 | a condition filed under a new group or under the last group becomes the last condition of the flattened condition list |
| ViewQuery.ConditionInLastGroupAddsOneLine | src/Plugin/views/query/PccSiteViewQuery.php:264-274 | filing such a condition adds exactly its own `field: value` line at the end of the argument list |
| ViewQuery.ArgumentsIgnoreOperators | src/Plugin/views/query/PccSiteViewQuery.php:266-271 | two condition lists with the same fields and values give the same argument text, whatever their operators |
| ViewQuery.DocumentIgnoresOperatorsAndGroups | src/Plugin/views/query/PccSiteViewQuery.php:264-274 | group structure, group conjunctions and operators never reach the document: equal flattened fields and values give equal documents |
| ViewQuery.DocumentRoot | src/Plugin/views/query/PccSiteViewQuery.php:288-296 | the document starts with `article ` exactly when a contextual filter was recorded and with `articles ` exactly when none was, followed by the `contentType: TREE_PANTHEON_V2` argument |
| ViewQuery.SiteViewQuery.Query | src/Plugin/views/query/PccSiteViewQuery.php:263-298 | the nested loops build the document: root, content type, one line per condition across groups in insertion order with dots removed and values unquoted, then the fields one per line in insertion order; `getCount` changes nothing |
| ViewQuery.BuildArguments | src/Plugin/views/query/PccSiteViewQuery.php:265-273 | the text the nested loops append is the argument lines of every condition, group after group in insertion order |
| ViewQuery.AppendArguments | src/Plugin/views/query/PccSiteViewQuery.php:267-271 | the inner loop appends the argument lines of one group's conditions, in their order, to those already built |
| ViewQuery.BuildSelection | src/Plugin/views/query/PccSiteViewQuery.php:275-287 | the loop over the fields gives the field names in insertion order, one per line |
| ViewQuery.SiteViewQuery.Build | src/Plugin/views/query/PccSiteViewQuery.php:230-231 | the query and the count query are the same document |
| ViewQuery.RequestFor | src/Plugin/views/query/PccSiteViewQuery.php:314-324 | a set `slug` filter asks for one article by slug; else a set `id` asks by id; otherwise the whole list is requested; the site's key and token are passed |
| ViewQuery.OtherContextualFilterKeepsListRequest | src/Plugin/views/query/PccSiteViewQuery.php:288-324 | a contextual filter other than slug or id makes the document singular while the list is requested |
| ViewQuery.SiteViewQuery.Execute | src/Plugin/views/query/PccSiteViewQuery.php:306-349 | no call and no rows when the site does not load; otherwise the site's credentials are stored, the request chosen by `RequestFor` is made (once more if it throws), and the rows of the response are appended: the list first, then the single article |
| ViewQuery.ConvertValue | src/Plugin/views/query/PccSiteViewQuery.php:367-370 | every value other than `publishedDate` and `updatedAt` is kept as it is; those two become an integer `q` with `1000 * q` within 1000 of the integer value and on the same side of 0 (division truncating toward zero, not floor) |
| ViewQuery.MergeRecordKeys | src/Plugin/views/query/PccSiteViewQuery.php:363-371 | after one article the row holds its earlier keys plus exactly the article's keys that are requested fields |
| ViewQuery.MergeRecordValue | src/Plugin/views/query/PccSiteViewQuery.php:363-371 | a requested key the article carries holds the article's converted value; one it does not carry keeps the row's earlier value |
| ViewQuery.ListRowsShape | src/Plugin/views/query/PccSiteViewQuery.php:359-376 | one row per article, in API order, the i-th with `index` i and equal to the row variable after the first i+1 articles |
| ViewQuery.RowAfterKeys | src/Plugin/views/query/PccSiteViewQuery.php:360-374 | the row variable is never reset: it holds `index` and exactly the requested fields that this article or an earlier one carried |
| ViewQuery.RowAfterLatestValue | src/Plugin/views/query/PccSiteViewQuery.php:361-371 | a requested field holds, converted, the value of the latest article so far that carries it |
| ViewQuery.SiteViewQuery.RenderMultipleArticles | src/Plugin/views/query/PccSiteViewQuery.php:359-376 | the result becomes the old result followed by `ListRows` of the articles |
| ViewQuery.SingleRowKeys | src/Plugin/views/query/PccSiteViewQuery.php:386-401 | the single row holds `index` 0 and exactly the requested fields the record carries |
| ViewQuery.SingleRowIsFirstListRow | src/Plugin/views/query/PccSiteViewQuery.php:386-401 | rendering a single article gives the same row as rendering a one-article list |
| ViewQuery.SiteViewQuery.RenderSingleArticle | src/Plugin/views/query/PccSiteViewQuery.php:386-402 | exactly one row is appended when some returned key is a requested field, and the result is unchanged otherwise |
| ViewQuery.ToRowValues | src/Plugin/views/query/PccSiteViewQuery.php:444-454 | a key the article lacks gives NULL, except `publishedDate` and `updatedAt`, which give 0; a key it has gives its value, a timestamp converted to seconds as `ConvertValue` states |
| ViewQuery.ToRowAgreesWithSingleRow | src/Plugin/views/query/PccSiteViewQuery.php:444-453 | when exactly the six keys are requested and present, `toRow` with index 0 builds the row `renderSingleArticle` builds |
| ViewQuery.FailingServiceRecursesForever | src/Plugin/views/query/PccSiteViewQuery.php:344-347 | as written: a service that always throws makes `execute` recurse past every bound |
| ViewQuery.RetryOnce | src/Plugin/views/query/PccSiteViewQuery.php:344-347 | the bounded policy: one or two calls, two exactly when the first throws, and no response exactly when both throw |
| ViewQuery.RetryOnceAgreesWithinTwoCalls | src/Plugin/views/query/PccSiteViewQuery.php:344-347 | whenever the unbounded recursion succeeds within two calls, the bounded policy gives the same call count and response |
| ViewQuery.AbortNeverReturnsOnceQuerySet | src/Plugin/views/query/PccSiteViewQuery.php:192-194 | as written: once the query document is set, `abort` never returns, whatever the bound |
| ViewQuery.SiteViewQuery.Abort | src/Plugin/views/query/PccSiteViewQuery.php:187-195 | corrected: the message is recorded by `AbortErrors` and the abort flag is set, without the self-call |
| ViewQuery.SiteViewQuery.constructor | src/Plugin/views/query/PccSiteViewQuery.php:32-112 | no fields, no WHERE groups, no contextual filters, no errors, not aborted, empty credentials |
| Php.TruncDiv | src/Plugin/views/query/PccSiteViewQuery.php:369 | the quotient truncated toward zero: for a non-negative dividend it rounds down, for a negative one it rounds up |
| Php.RemoveChar | src/Plugin/views/query/PccSiteViewQuery.php:242 | `str_replace('.', '', $field)`: no dot is left, nothing is added and the text does not grow |
| Php.RemoveCharAppend | src/Plugin/views/query/PccSiteViewQuery.php:242 | removing the dots distributes over concatenation; with `RemoveCharOfOne` this makes it a filter that drops each dot and keeps every other character, in order |
| Php.RemoveCharOfOne | src/Plugin/views/query/PccSiteViewQuery.php:242 | a single dot is removed and any other single character is kept |
| Tags.TagsPathError | src/Plugin/views/field/PccTags.php:61-65 | an error exactly when the path does not start with `/`, so also for the default `''` and for `<front>` |
| Tags.RenderItem | src/Plugin/views/field/PccTags.php:97-99 | the item's `tags` entry: the tag stored by `preRender` |
| Tags.TagEntries | src/Plugin/views/field/PccTags.php:74-76 | an empty field value contributes nothing; an array contributes its entries |
| Tags.PutTagsContents | src/Plugin/views/field/PccTags.php:76-78 | after the entries are stored a key is present exactly when it was before or some entry has it; it holds the item of the last such entry; other keys keep their items and positions |
| Tags.TagItemsLastWins | src/Plugin/views/field/PccTags.php:70-81 | after `preRender` a key has an item exactly when some row's tags have it, and the item renders the tag of the last such entry |
| Tags.EmptyRowAddsNothing | src/Plugin/views/field/PccTags.php:74-75 | a row whose tags are empty or not an array leaves the items unchanged |
| Tags.TagsField.PreRender | src/Plugin/views/field/PccTags.php:70-81 | the nested loops clear the items and store every tag of every row in order: the items become `TagItems` of the rows |
| Tags.TagsField.GetItems | src/Plugin/views/field/PccTags.php:86-92 | whatever the row, the shared items, or the empty list when there are none |
| Tags.TagsField.constructor | src/Plugin/views/field/PccTags.php:71 | the items start empty |
| Tags.Slug | src/Plugin/views/field/PccTags.php:129 | the slug has the tag's length, no spaces and no upper-case letters; each space became `-` and every other character was lower-cased |
| Tags.TagLink | src/Plugin/views/field/PccTags.php:125-140 | the value is returned unchanged exactly when the path is `<front>`; otherwise a link titled with the value |
| Tags.RenderText | src/Plugin/views/field/PccTags.php:104-112 | a link exactly when links are on and the path is not `<front>`; the shown text or link title is always the tag value |
| Tags.PathWithoutTokenIsKept | src/Plugin/views/field/PccTags.php:128-130 | a stripped path without the token is the link path as it is |
| Tags.ReplaceFirstToken | src/Plugin/views/field/PccTags.php:130 | the first occurrence of the token is replaced by the slug and the text before it is kept |
| Tags.TokenAtEndIsSlug | src/Plugin/views/field/PccTags.php:126-130 | a pattern ending in the token links to its head followed by the slug |
| Metadata.Render | src/Plugin/views/field/PccMetadata.php:122-136 | nothing unless the value is non-empty and the selected entry is set; then its `msSinceEpoch` for exactly `Post Date`, and the entry itself for any other field |
| Metadata.RenderShowsStoredEntry | src/Plugin/views/field/PccMetadata.php:126-134 | for a field other than `Post Date` the result is non-NULL exactly when the entry is set, and is then the stored entry |
| Metadata.SelectionError | src/Plugin/views/field/PccMetadata.php:113-117 | an error exactly for a falsy selection: NULL, false, 0, `''`, `'0'` or the empty array |
| Metadata.OptionsKeys | src/Plugin/views/field/PccMetadata.php:83-88 | the options are keyed by the titles: a key is present exactly when some title gives it, duplicates collapse, there are at most as many keys as fields, the keys are listed in the order of the first field giving each, and each key is labelled by the title of the last field giving it |
| Metadata.OptionLabel | src/Plugin/views/field/PccMetadata.php:86 | an option's label is the title of the last field whose title gives its key, since a later assignment to `$options[$data['title']]` overwrites an earlier one |
| Php.PutAllKeysInFirstOrder | src/Plugin/views/field/PccMetadata.php:83-88 | assigning pairs into an empty PHP array lists each key once, exactly the keys some pair has, in the order of each key's first pair |
| Metadata.CollectOptions | src/Plugin/views/field/PccMetadata.php:83-88 | the loop yields `Options` of the fields: the options, or the illegal-offset failure for an array title |
| Metadata.BuildOptionsForm | src/Plugin/views/field/PccMetadata.php:75-106 | no element exactly when the site does not load; an illegal offset exactly when some title is an array; radios exactly when the site loads, no title is an array and there is at least one metadata field, with the collected options; otherwise the not-available markup |
| Metadata.OptionsNonEmpty | src/Plugin/views/field/PccMetadata.php:83-88 | every title, NULL included, gives a key, so the options are non-empty exactly when there is a metadata field |
| SmartComponents.PccComponentsMembers | modules/pcx_smart_components/src/Service/SmartComponentManager.php:128-133 | exactly the Component plugins with a non-empty `pcc_component` are kept, each as many times as it occurs, in their original order (a subsequence), and nothing is added |
| SmartComponents.GetAllPccComponents | modules/pcx_smart_components/src/Service/SmartComponentManager.php:121-136 | the loop keeps the flagged components in their order |
| SmartComponents.FieldType | modules/pcx_smart_components/src/Service/SmartComponentManager.php:173 | the first listed type when non-empty, `object` otherwise; never empty |
| SmartComponents.FieldsContents | modules/pcx_smart_components/src/Service/SmartComponentManager.php:164-179 | one field per property name; display name = title; required exactly when listed in `required` (none by default); type = first type or `object`; no properties give no fields |
| SmartComponents.GetFields | modules/pcx_smart_components/src/Service/SmartComponentManager.php:164-179 | the loop yields `Fields` of the schema |
| SmartComponents.SmartComponentMapContents | modules/pcx_smart_components/src/Service/SmartComponentManager.php:62-65 | a key is present exactly when some component's upper-cased machine name gives it, and it holds the smart component of the last such component |
| SmartComponents.CollectSmartComponents | modules/pcx_smart_components/src/Service/SmartComponentManager.php:61-65 | the loop yields `SmartComponentMap` of the PCC components |
| SmartComponents.LastMatchIsLast | modules/pcx_smart_components/src/Service/SmartComponentManager.php:105-112 | none exactly when no component has the machine name; otherwise the last component with exactly that name |
| SmartComponents.SmartComponentManager.GetAllSmartComponents | modules/pcx_smart_components/src/Service/SmartComponentManager.php:53-69 | a cache entry is returned unchanged without recomputing; on a miss the map is computed, written to the cache and returned |
| SmartComponents.SmartComponentManager.GetSmartComponent | modules/pcx_smart_components/src/Service/SmartComponentManager.php:80-90 | the entry under the id from the cache, or from the computed map, which is then cached; none (the empty array) exactly when the map has no such entry |
| SmartComponents.SmartComponentManager.GetSDCComponent | modules/pcx_smart_components/src/Service/SmartComponentManager.php:101-113 | the last PCC component whose machine name equals the argument exactly, or none |
| SmartComponents.SmartComponentManager.constructor | modules/pcx_smart_components/src/Service/SmartComponentManager.php:42-45 | the manager holds the given components and cache |
| ExportSubscriber.MatchingIsFilter | src/EventSubscriber/PccSiteEventSubscriber.php:56-68 | a name is selected exactly when it is listed and starts with the prefix; the selection is a subsequence of the list |
| ExportSubscriber.LongerNameMatches | src/EventSubscriber/PccSiteEventSubscriber.php:32 | without a trailing dot, `pcx_connect.pcc_site_x` is selected too |
| ExportSubscriber.GetPccSiteConfigs | src/EventSubscriber/PccSiteEventSubscriber.php:56-68 | the loop yields `Matching` of the names |
| ExportSubscriber.BlankSecrets | src/EventSubscriber/PccSiteEventSubscriber.php:37-38 | both secrets become `''`; every other entry keeps its value; existing entries keep their order; blanking twice is blanking once |
| ExportSubscriber.ExportTransformBlanksSecrets | src/EventSubscriber/PccSiteEventSubscriber.php:33-42 | every selected config has both secrets blanked and its other entries unchanged; other configs are as they were; no config is added or removed |
| ExportSubscriber.ExportTransformIdempotent | src/EventSubscriber/PccSiteEventSubscriber.php:37-40 | transforming twice gives the storage that transforming once gives |
| ExportSubscriber.ProgressStep | src/EventSubscriber/PccSiteEventSubscriber.php:35-40 | reading, blanking and writing back one more name extends the finished part by that name |
| ExportSubscriber.BlankSiteConfig | src/EventSubscriber/PccSiteEventSubscriber.php:35-40 | one pass of the loop: the storage goes from the first j selected names blanked to the first j+1, and the name is logged as written once |
| ExportSubscriber.ProgressDone | src/EventSubscriber/PccSiteEventSubscriber.php:33-42 | once every selected name is done, the storage is the export transform of the original |
| ExportSubscriber.OnExportTransform | src/EventSubscriber/PccSiteEventSubscriber.php:28-43 | the storage becomes `ExportTransform` of the old storage, and the names written are exactly the selected names, in listing order |
| ExportSubscriber.ConfigStorage.ListAll | src/EventSubscriber/PccSiteEventSubscriber.php:31 | every stored config name, in order |
| ExportSubscriber.ConfigStorage.Read | src/EventSubscriber/PccSiteEventSubscriber.php:35 | the stored data, or none (PHP `false`) exactly when nothing is stored under the name |
| ExportSubscriber.ConfigStorage.Write | src/EventSubscriber/PccSiteEventSubscriber.php:40 | the data is stored under the name and the write is logged |
| ExportSubscriber.ConfigStorage.constructor | src/EventSubscriber/PccSiteEventSubscriber.php:30 | the storage holds the given configs and has no writes |
| ApiClients.PccClient.constructor | src/Pcc/Service/PccApiClient.php:38-40 | the client is configured with the given site id and token |
| ApiClients.PccApiClient.constructor | src/Pcc/Service/PccApiClient.php:18 | the client list starts empty |
| ApiClients.PccApiClient.GetPccClient | src/Pcc/Service/PccApiClient.php:33-43 | without refresh, a stored client for the id is returned and nothing changes, even for another token; otherwise a new client for the id and token is stored under the id; afterwards the id maps to the returned client, and other ids keep their clients |
| ApiClients.PccApiClient.GetPccClientTwice | src/Pcc/Service/PccApiClient.php:34-42 | two calls in a row for the same id without refresh return the same client |
| ApiClients.ClientHolder.constructor | src/PccApiTrait.php:18 | the client property starts unset |
| ApiClients.ClientHolder.GetPccClient | src/PccApiTrait.php:31-42 | the first call creates the client from its id and token; every later call returns the stored client, and the property is never reassigned |
| ApiClients.ClientHolder.GetPccClientForTwoSites | src/PccApiTrait.php:32-41 | a later call with another site id and token still gets the first site's client |
| ArticlesMapper.ToArticleData | src/Pcc/Mapper/PccArticlesMapper.php:16-18 | one entry per property of the article, in order, under the key PHP makes of its name, and no other input |
| ArticlesMapper.ArticleDataHoldsProperty | src/Pcc/Mapper/PccArticlesMapper.php:16-18 | reading a property's name in the array gives that property's value |
| ArticlesMapper.ToArticlesList | src/Pcc/Mapper/PccArticlesMapper.php:23-29 | the list has the page's length and its i-th element is `toArticleData` of the i-th article; an empty page gives `[]` |
| ViewHelper.GetMapping | src/PccSiteViewHelper.php:21-37 | the `mapping` of the first definition whose type is `config_entity` and whose key starts with the prefix; `[]` when none matches |
| ViewHelper.MatchWithoutMappingStops | src/PccSiteViewHelper.php:28 | a first match with no mapping gives NULL, whatever follows it |

## Left out

- Logging is not modelled: the error logs in `execute`, and the logging of response errors.
- The Drupal plugin glue is not modelled:
  - `create`, the constructor's dependency injection, `init` and `alter`;
  - the pager and `ResultRow` objects (a row is a map);
  - `defineOptions` and the form arrays of `buildOptionsForm`, except the metadata options;
  - `t()`, `Markup::create`, `Url::fromUserInput` and the renderer. A link is a title and a path, and `strip_tags` is a function parameter.
- Service calls and site loading are inputs, not modelled: `PccSite::load`, the content API and `Json::decode`. The articles service is a function of the request and the attempt number. It returns only the `data.articles` and `data.article` parts that `execute` reads.
- `getArticle` and `getAllArticles` of the SDK wrappers are not part of this model.
- `getConfigPrefix`, `getConfigTypedDefinitions` and `getConfigLabel` of the view helper are not part of this model. They only look up Drupal services. Their results are parameters of `GetMapping`.
- The component plugin manager and the cache backend are not modelled. The manager is the fixed component list, and the cache is an optional map. Cache expiry and invalidation are not modelled. `instanceof Component` is a boolean of the component.
- Floats are not modelled. `(int)$v / 1000` is exact integer division truncating toward zero, which ignores the precision loss above 2^53.
- 64-bit overflow of `(int)` casts and `intdiv` is not modelled.
- Numeric strings with a fraction or an exponent (`"1.5e3"`) are cast using only their leading integer part.
- String offsets are not modelled: `$value[$field]` on a string value, or `$data['title']` on a string metadata entry. The model reads these as NULL. `SmartComponents.FieldType` treats a `type` that is a string, not a list, the same way, because component metadata stores the types as a list.
- The TypeErrors PHP raises are not modelled:
  - an array-valued `slug` or `id` filter passed to the string parameter of `getArticleBySlugOrId` (the model sends `Array`);
  - a non-integer argument to `intdiv` in `toRow`;
  - a non-array `required` given to `in_array`. The model treats that as listing nothing.
  - a matching definition whose `mapping` is set but is not an array. `getMapping` is declared to return `?array`, so PHP raises a TypeError at its `return`; `ViewHelper.GetMapping` returns the value.
- An array-valued WHERE group is not modelled: it is an illegal offset in PHP, and `AddWhere` excludes it by its precondition.
- SmartComponents.LooseEquals: `in_array`'s loose comparison is modelled for canonical keys and values only. Non-canonical numeric strings such as `" 1"` or `"1.0"` in `required` are compared as plain strings.
- ViewQuery.SiteViewQuery.Execute: it makes one retry after a failed call. The code retries without bound, which is recorded under Findings and modelled by `AttemptsAsWritten`.
- ViewQuery.SiteViewQuery.Abort: it omits the self-call, recorded under Findings and modelled by `AbortAsWritten`. The abort flag is set but, as in the code, `execute` never reads it.
- ViewQuery.SiteViewQuery.Query: it gathers the condition lines before prefixing the content type argument. The code appends them directly to that prefix, which gives the same text.
- Metadata.CollectOptions and SmartComponents.CollectSmartComponents are the loops of `buildOptionsForm` and `getAllSmartComponents`, written as helper methods. Labels are plain strings, not translated markup.
- Record keys stay strings. PHP's integer normalisation of numeric record keys is not applied, because fields and records are compared by the same text either way.

## Findings

| source | as written | input that shows it | evidently intended | confidence | as-written member | corrected member |
|---|---|---|---|---|---|---|
| src/Plugin/views/query/PccSiteViewQuery.php:344-347 | on any exception `execute` logs and calls itself again, with no bound | a service that throws on every call (for example a revoked site token): the recursion never ends | retry a bounded number of times, then leave the view empty | not executed | ViewQuery.FailingServiceRecursesForever | ViewQuery.RetryOnce |
| src/Plugin/views/query/PccSiteViewQuery.php:192-194 | once the query document is set, `abort` calls itself with the same message, forever, appending the message each time | any `abort('msg')` from a handler after `init` has stored the query | record the message, set the flag and return | not executed | ViewQuery.AbortNeverReturnsOnceQuerySet | ViewQuery.SiteViewQuery.Abort |
