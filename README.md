# Webcrawler connector and shared file pipeline, modelled in Dafny

This project models two parts of the Dust connectors service.

- **The webcrawler connector** (`connectors/src/connectors/webcrawler/index.ts`).
  - Creating a connector: check the crawl depth, persist the connector and its crawl configuration, then launch the crawl workflow.
  - Updating a connector: check that it exists and the depth, write the configuration, stop the workflow, then relaunch it.
  - Listing the permission tree under a parent folder. Folders whose url is also a page are dropped, and those pages become expandable. The list is sorted by title.
  - Walking a folder's `parentUrl` chain up to the root, so that it ends even on cyclic data.
  - Resolving folder urls to titles.
- **The shared file pipeline** (`connectors/src/connectors/shared/file.ts`). It turns a fetched buffer into a document section or `null`:
  - plain text is trimmed;
  - CSV is upserted as a table and answered with an empty marker section;
  - PDF and PowerPoint are converted into one tagged sub-section per extracted page.

Modules, one concern each:

| file | module | contents |
|---|---|---|
| `results.dfy` | `Results` | `Option` for null or undefined, `Result`, `Outcome` for calls that only succeed or fail, JavaScript truthiness |
| `decimal.dfy` | `Decimal` | `toString()` of integers and its inverse |
| `js_text.dfy` | `JsText` | `trim`, `split`, `join`, `filter` and `substring(0, n)` |
| `content_pipeline.dfy` | `ContentPipeline` | the three file handlers and `pagePrefixesPerMimeType` |
| `webcrawler_records.dfy` | `WebcrawlerRecords` | connector, crawl-configuration, folder and page rows |
| `permission_tree.dfy` | `PermissionTree` | the permission listing and the titles lookup |
| `ancestor_chain.dfy` | `AncestorChain` | the parent walk, as a method with a loop |
| `connector_lifecycle.dfy` | `ConnectorLifecycle` | a class holding the connector tables and a log of workflow signals, with `Create` and `Update` |

Database tables are in-memory sequences and maps, filtered as the Sequelize queries filter them. `findOne` returns the first matching row.

Collaborators whose code is not part of this model are function-valued parameters with no assumed properties:
- the UTF-8 decoder;
- `slugify`, `parseAndStringifyCsv`, `upsertTableFromCsv`;
- `isTextExtractionSupportedContentType` and the text-extraction service;
- the webcrawler `lib/utils` helpers (`normalizeFolderUrl`, `stableIdForUrl`, `getDisplayNameForPage`);
- `new URL(u).pathname`.

`isDepthOption(d)` is modelled as membership of `d` in `DepthOptions`, the list the update's error message prints. That list is given when the connector tables are created.

`localeCompare` is any total preorder on titles. The answers of the Temporal workflow client to a launch or a stop are `Outcome` arguments. The class appends each signal it sends to `signals`.

## Model

| member | source | states |
|---|---|---|
| ContentPipeline.HandleTextFile | connectors/src/connectors/shared/file.ts:26-38 | `null` exactly when the buffer exceeds 4 × maxDocumentLen, so a buffer of exactly 4 × maxDocumentLen is kept. Otherwise: a null prefix, no sub-sections, and content equal to the trimmed decoding, with no whitespace at either end. |
| ContentPipeline.CsvUpsertRequest | connectors/src/connectors/shared/file.ts:60-81 | The table id is `file.id ?? ""` and the table name is `slugify` applied to the first 32 characters of `file.name ?? ""`. The CSV is the parsed content, and `truncate` is set. |
| ContentPipeline.DescriptionOfNamedFile | connectors/src/connectors/shared/file.ts:65 | A Microsoft data source and the file "sales.csv" give the description "Structured data from Microsoft (sales.csv)". |
| ContentPipeline.DescriptionOfNullName | connectors/src/connectors/shared/file.ts:65 | A `null` file name renders as "null": "Structured data from Google Drive (null)". |
| ContentPipeline.DescriptionOfUnknownConnector | connectors/src/connectors/shared/file.ts:65 | A data source missing from `dataSourceNameToConnectorName`, and an absent file name, both render as "undefined". |
| ContentPipeline.HandleCsvFile | connectors/src/connectors/shared/file.ts:40-90 | An oversize buffer gives `null` and no upsert. A parse failure gives `null` and no upsert. After a successful parse, exactly the request of `CsvUpsertRequest` is issued, and a section is returned iff the upsert succeeds. That section is always the empty marker `{prefix: null, content: null, sections: []}`. |
| ContentPipeline.HandleTextExtraction | connectors/src/connectors/shared/file.ts:92-142 | An unsupported mime type gives `null` whatever the extractor would answer. A supported one gives `null` iff extraction fails or returns no page. Otherwise the section has null prefix and null content, and holds exactly one sub-section per page, in extractor order. Sub-section i holds page i's content, no sub-sections, and the prefix built from page i's own `pageNumber` and the page count. |
| ContentPipeline.PagePrefixByMimeType | connectors/src/connectors/shared/file.ts:15-19 | The page prefix is `"\n$pdfPage: n/total\n"` for `application/pdf` and `"\n$slideNumber: n/total\n"` for the pptx mime type. It is null for every other mime type, the lookup being a map with only those two keys. |
| ContentPipeline.ThreePagePdf | connectors/src/connectors/shared/file.ts:129-141 | A three-page PDF yields the sub-sections tagged `$pdfPage: 1/3`, `2/3` and `3/3`, carrying the three contents in order. |
| ContentPipeline.PagePrefixDistinguishesPages | connectors/src/connectors/shared/file.ts:134-136 | For a tagged mime type and a fixed page count, two pages get the same prefix iff they have the same page number. |
| Decimal.NatToString | connectors/src/connectors/webcrawler/index.ts:73 | `connector.id.toString()` is a non-empty string of decimal digits with no leading zero. It has one digit exactly for ids below 10. |
| Decimal.IntToStringRoundTrip | connectors/src/connectors/shared/file.ts:135 | The rendering of a page number or page count reads back as the same integer. |
| Decimal.IntToStringInjective | connectors/src/connectors/shared/file.ts:135 | Distinct integers render differently. |
| JsText.TrimSpec | connectors/src/connectors/shared/file.ts:35 | `trim()` returns one contiguous run of its input with no whitespace at either end, and drops only whitespace before and after that run. |
| JsText.TrimIdempotent | connectors/src/connectors/shared/file.ts:62 | Trimming an already trimmed text changes nothing. |
| JsText.TrimKeepsTrimmed | connectors/src/connectors/shared/file.ts:35 | A text with no edge whitespace is returned unchanged. |
| JsText.Split | connectors/src/connectors/webcrawler/index.ts:201 | `split("/")` always gives at least one part, and no part holds the separator. |
| JsText.JoinSplit | connectors/src/connectors/webcrawler/index.ts:201 | Joining the parts of `split` with the separator gives back the original pathname. |
| JsText.SplitJoin | connectors/src/connectors/webcrawler/index.ts:201 | Splitting the join of separator-free parts gives back those parts. |
| JsText.Filter | connectors/src/connectors/webcrawler/index.ts:202 | `filter` keeps exactly the elements the predicate accepts and never lengthens the array. |
| JsText.FilterCount | connectors/src/connectors/webcrawler/index.ts:202 | Every accepted element is kept as often as it occurs, and no rejected element is kept. |
| JsText.FilterSingleton | connectors/src/connectors/webcrawler/index.ts:202 | One element is kept exactly when the predicate accepts it. |
| JsText.FilterAppend | connectors/src/connectors/webcrawler/index.ts:202 | Filtering a concatenation concatenates the filtered halves, so the kept elements keep their order. With `FilterSingleton` this determines the result on every input. |
| JsText.NonEmptyLast | connectors/src/connectors/webcrawler/index.ts:202-203 | After `filter((x) => x)`, the element `pop()` returns is the last non-empty segment of the split. |
| JsText.Prefix | connectors/src/connectors/shared/file.ts:64 | `substring(0, 32)` is a prefix of the name. It is exactly 32 characters long for a longer name, and the whole name otherwise. |
| PermissionTree.ExcludedFolderUrls | connectors/src/connectors/webcrawler/index.ts:177-183 | A url is excluded iff it is the url of a folder in scope and the normalized url of a page in scope. |
| PermissionTree.KeptFolders | connectors/src/connectors/webcrawler/index.ts:186-188 | A folder is listed iff it is in scope and its url is not the normalized url of any page in scope. |
| PermissionTree.FindOne | connectors/src/connectors/webcrawler/index.ts:148-154 | `findOne` yields nothing iff no row matches; otherwise it yields a matching row of the table. |
| PermissionTree.ResolveScope | connectors/src/connectors/webcrawler/index.ts:146-159 | A falsy `parentInternalId` lists the root (parent url null). A truthy one with no folder of that connector, configuration and internal id gives `Err("Parent not found")`. A truthy one that finds its folder lists that folder's url. |
| PermissionTree.SortByTitle | connectors/src/connectors/webcrawler/index.ts:241 | The sort returns a permutation of its input that is in order by title. |
| PermissionTree.Project | connectors/src/connectors/webcrawler/index.ts:185-241 | The listing is sorted by title and is a permutation of the kept folders' nodes followed by every page's node. |
| PermissionTree.RetrievePermissions | connectors/src/connectors/webcrawler/index.ts:129-243 | The error cases, checked in this order: `Connector not found`, `Webcrawler configuration not found`, then the parent lookup. Otherwise the result is sorted by title and is a permutation of the projection of the folder and page rows under the resolved parent url, for the same connector and configuration. |
| PermissionTree.ListingMembership | connectors/src/connectors/webcrawler/index.ts:185-240 | A successful listing has one node per kept folder plus one per page, and contains every kept folder's node and every page's node. It contains no other node. |
| PermissionTree.FolderNodeFields | connectors/src/connectors/webcrawler/index.ts:189-211 | A folder node is expandable and has type folder. It has a null source url, a null document id and the folder's own internal id. Its parent id is the folder-kind stable id of a non-empty `parentUrl`, and null otherwise. |
| PermissionTree.FolderTitleIsLastSegment | connectors/src/connectors/webcrawler/index.ts:199-203 | A folder's title is the last non-empty segment of its pathname, which never contains `/`. It is the full url when every segment is empty. |
| PermissionTree.PageNodeFields | connectors/src/connectors/webcrawler/index.ts:213-238 | A page node is expandable iff the page's normalized url is a folder url in scope. It is then identified by the folder-kind stable id of that url, and otherwise by its document id. It always has type file, the page url as source url, the document id, the display name as title, and the parent id rule for `parentUrl`. |
| PermissionTree.PageAndFolderCollision | connectors/src/connectors/webcrawler/index.ts:177-224 | When a page and a folder share the normalized url, the folder is not listed, and the page is listed as expandable under the folder's stable id. |
| PermissionTree.TitlesOf | connectors/src/connectors/webcrawler/index.ts:287-290 | The `reduce` has exactly the folders' urls as keys, each mapped to itself. |
| PermissionTree.RetrieveObjectsTitles | connectors/src/connectors/webcrawler/index.ts:276-293 | The titles lookup always succeeds. Its keys are exactly the requested ids that are the url of some folder of the connector, and each title is the url itself. |
| AncestorChain.ParentOf | connectors/src/connectors/webcrawler/index.ts:305-313 | A parent pointer that is followed is non-empty, and it is one of the connector's parent urls. |
| AncestorChain.RetrieveObjectsParents | connectors/src/connectors/webcrawler/index.ts:295-332 | The walk always terminates (on cyclic data too) with `Ok`. The chain starts at `internalId`, each next entry is the `parentUrl` of the folder at the previous one, and the entries after the first are pairwise distinct. It ends at a missing folder, at an empty parent, or at a parent already visited. |
| AncestorChain.ExtendChain | connectors/src/connectors/webcrawler/index.ts:326-328 | Pushing a parent that is not yet visited keeps the chain following parent pointers and repetition-free after its first entry. |
| AncestorChain.ParentChainUnique | connectors/src/connectors/webcrawler/index.ts:299-331 | The chain is determined by the folder table: two chains from the same start are equal. |
| AncestorChain.ParentChainLength | connectors/src/connectors/webcrawler/index.ts:302-328 | The chain has at most one entry more than the connector has distinct parent urls. |
| AncestorChain.ThreeCycle | connectors/src/connectors/webcrawler/index.ts:315-328 | On the folder cycle A → B → C → A, the walk from A returns [A, B, C, A], and no other chain is possible. |
| ConnectorLifecycle.UpdatedConfigurations | connectors/src/connectors/webcrawler/index.ts:97-110 | The update writes only the named connector's configuration. It keeps that configuration's id, connector id and `lastCrawledAt`. It sets the url, `maxPageToCrawl` (from `maxPages`), crawl mode, depth and crawl frequency to the new values. |
| ConnectorLifecycle.UpdateLeavesSession | connectors/src/connectors/webcrawler/index.ts:111-126 | After an update, the crawl workflow runs iff the stop and the relaunch both succeeded, or the stop failed while it was running before. The update returns `Ok` exactly when both succeeded. |
| ConnectorLifecycle.OtherSignalsIrrelevant | connectors/src/connectors/webcrawler/index.ts:111-118 | A workflow signal for one connector never changes whether another connector's workflow runs. |
| ConnectorLifecycle.CreateKeepsTablesValid | connectors/src/connectors/webcrawler/index.ts:53-67 | Filing a new connector and its configuration under the next ids, then launching, uses an id that was free. Each connector stays filed under its own id, each configuration belongs to a filed connector, and every signal names a handed-out id. The new workflow runs exactly when the launch succeeded. |
| ConnectorLifecycle.LaunchOfFreshId | connectors/src/connectors/webcrawler/index.ts:64-67 | The first launch for a new connector leaves its workflow running iff the launch succeeded. |
| ConnectorLifecycle.WebcrawlerConnectors.constructor | connectors/src/connectors/webcrawler/index.ts:9 | The allowed depths are `DepthOptions`. The tables and the signal log start empty. |
| ConnectorLifecycle.WebcrawlerConnectors.Create | connectors/src/connectors/webcrawler/index.ts:35-74 | A depth outside `DepthOptions` returns `Err("Invalid depth option")`. It writes and signals nothing, and hands out no id. Otherwise, under a fresh id, it records the connector (type webcrawler, connection id the url, the data source fields) and a configuration with `lastCrawledAt` null, then sends exactly one launch. A failed launch returns its error as is, the records are kept, and the workflow is not running. A success returns the id's decimal string, which reads back as the id, and the workflow is running. |
| ConnectorLifecycle.WebcrawlerConnectors.Update | connectors/src/connectors/webcrawler/index.ts:76-127 | An unknown connector gives `connector_not_found`. A bad depth gives `invalid_request_error` with the message listing `DepthOptions` joined by commas. In both cases nothing is written and nothing is signalled. Otherwise the configuration is written and a stop is sent. A failed stop gives `internal_server_error` with its message and no launch. After a successful stop a launch is sent, and its failure also gives `internal_server_error`. Success returns the id's decimal string. Connector rows are never changed. |

## Left out

- `stopWebcrawlerConnector` and `cleanupWebcrawlerConnector` (index.ts:245-274) only forward to the workflow stop and to the connector's `delete`, so they are not modelled.
- `_getWebcrawlerConfiguration` and `getWebcrawlerConfiguration` (index.ts:334-374) are not modelled. They are HTTP request and response plumbing.
- Logging (`logger`, `localLogger`) writes nothing the callers see, so it is not modelled.
- The Temporal workflow client is not modelled. Its launch and stop answers are arguments, and "running" means that the last successful signal for the connector was a launch.
- Asynchrony and concurrent calls are not modelled. Each operation runs to completion on the state it was given.
- Persistence is not modelled as a database. Tables are in-memory values, so Sequelize's `update` of several rows with the same `connectorId` becomes an update of the single configuration keyed by that connector.
- UTF-8 decoding, `slugify`, CSV parsing, the table upsert, text extraction and the URL helpers have no assumed properties. So the full-replace meaning of `truncate: true` is not modelled, only that the flag is passed.
- `localeCompare` is any total preorder: the model does not fix a collation.
- PermissionTree.SortByTitle: it is proved sorted and a permutation, but the stability of `Array.prototype.sort` is not stated.
- ContentPipeline.CsvUpsertRequest: the table description ("Structured data from {connector name} ({file name})") is not stated in the contract. It is built as the template literal renders it: "undefined" for a missing connector name or file name, "null" for a `null` file name. The three `ContentPipeline.DescriptionOf…` lemmas show the three cases.
- ContentPipeline.PagePrefixByMimeType: the lookup `pagePrefixesPerMimeType[mimeType]` is modelled as a map with no inherited keys. In JavaScript the plain object also answers the keys of `Object.prototype`. For a mime type such as "constructor" the source would therefore build a prefix from the rendered `Object` function, where the model gives `null`. Only `isTextExtractionSupportedContentType`, whose code is not part of this model, keeps such a mime type out. The model leaves that check unconstrained.
- PermissionTree.RetrievePermissions: the URL parser is total in the model. In the source, `new URL(folder.url)` (index.ts:200) throws on a malformed folder url, which rejects the whole listing. The model instead titles that folder with some pathname.
- JsText.Prefix: characters are Unicode scalar values, whereas `substring` counts UTF-16 code units, so the cut differs for names containing characters outside the Basic Multilingual Plane.
- Decimal.NatToString: models integers only. `Number.prototype.toString` switches to exponent notation for huge numbers and renders fractions, and neither arises for row ids or page numbers.
- `connectors/src/lib/temporal_monitoring.ts`, the React components, the generated analytics SDK, the icon re-exports and the migration and init scripts are not part of this model.

## Notes on the code

- **No size check in `handleTextExtraction`.** `handleTextExtraction` (file.ts:92-142) takes no size limit and checks none. Only `handleTextFile` and `handleCsvFile` compare the buffer against 4 × maxDocumentLen. An oversize PDF or PowerPoint file is therefore still extracted.
- **Every skip is `null`.** The handlers return no skip reason. Oversize, parse or upsert failure, unsupported type, extraction failure and zero pages all give `null`.
- **`documentId` is used as a string.** A page's `documentId` becomes a node's `internalId` (index.ts:224), a string field, so the model makes it a string.
- **The start can repeat.** The ancestor walk never puts the starting id into `visited` (index.ts:299-302). On a cycle through the start, the chain therefore ends by repeating the start once, as `AncestorChain.ThreeCycle` shows.
