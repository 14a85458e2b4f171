/**
 * The records the webcrawler connector reads and writes (connectors/src/connectors/webcrawler/index.ts),
 * held in memory: the connector rows, the crawl configurations, and the Folder and Page rows a crawl
 * produces. The identifier helpers of the webcrawler's `lib/utils`, whose code lies elsewhere, are
 * carried as function values.
 */
module WebcrawlerRecords {
  import opened Results

  /** A `ConnectorResource` row of type "webcrawler". */
  datatype ConnectorRecord = ConnectorRecord(
    id: nat,
    connectorType: string,
    connectionId: string,
    workspaceAPIKey: string,
    workspaceId: string,
    dataSourceName: string)

  /** A `WebCrawlerConfiguration` row. */
  datatype CrawlConfiguration = CrawlConfiguration(
    id: nat,
    connectorId: nat,
    url: string,
    maxPageToCrawl: int,
    crawlMode: string,
    depth: int,
    crawlFrequency: string,
    lastCrawledAt: Option<int>)

  /** A `WebCrawlerFolder` row; `parentUrl` is null at the root. */
  datatype Folder = Folder(
    connectorId: nat,
    configurationId: nat,
    url: string,
    internalId: string,
    parentUrl: Option<string>,
    updatedAt: int)

  /** A `WebCrawlerPage` row. */
  datatype Page = Page(
    connectorId: nat,
    configurationId: nat,
    url: string,
    documentId: string,
    parentUrl: Option<string>,
    updatedAt: int)

  /** The `ressourceType` argument of `stableIdForUrl`. */
  datatype ResourceType = FolderResource | FileResource

  /**
   * The helpers of the webcrawler's `lib/utils` and the URL parser: `normalizeFolderUrl`,
   * `stableIdForUrl`, `getDisplayNameForPage`, and `new URL(url).pathname`.
   */
  datatype UrlHelpers = UrlHelpers(
    normalizeFolderUrl: string -> string,
    stableIdForUrl: (string, ResourceType) -> string,
    displayNameForPage: string -> string,
    pathname: string -> string)
}
