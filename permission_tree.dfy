/**
 * `retrieveWebcrawlerConnectorPermissions` and `retrieveWebCrawlerObjectsTitles`
 * (connectors/src/connectors/webcrawler/index.ts): the read-side projection of the Folder and
 * Page rows under one parent into the browsable node list, resolving the case of a page that is
 * also a folder.
 */
module PermissionTree {
  import opened Results
  import opened JsText
  import opened WebcrawlerRecords

  datatype NodeType = FolderNode | FileNode

  /** `ConnectorNode`, as the webcrawler fills it in. */
  datatype ConnectorNode = ConnectorNode(
    provider: string,
    internalId: string,
    parentInternalId: Option<string>,
    title: string,
    sourceUrl: Option<string>,
    expandable: bool,
    permission: string,
    dustDocumentId: Option<string>,
    nodeType: NodeType,
    lastUpdatedAt: int)

  /**
   * The order `localeCompare` puts on titles, as "a sorts no later than b": any total preorder
   * (distinct titles may collate as equal).
   */
  ghost predicate TotalPreorder(le: (string, string) -> bool) {
    && (forall a, b :: le(a, b) || le(b, a))
    && (forall a, b, c :: le(a, b) && le(b, c) ==> le(a, c))
  }

  ghost predicate SortedByTitle(le: (string, string) -> bool, nodes: seq<ConnectorNode>) {
    forall i, j :: 0 <= i < j < |nodes| ==> le(nodes[i].title, nodes[j].title)
  }

  ghost predicate AdjacentSortedByTitle(le: (string, string) -> bool, nodes: seq<ConnectorNode>) {
    forall i :: 0 <= i < |nodes| - 1 ==> le(nodes[i].title, nodes[i + 1].title)
  }

  /** For a transitive order, neighbours in order means every pair in order. */
  lemma {:induction false} AdjacentSortedIsSorted(le: (string, string) -> bool, nodes: seq<ConnectorNode>)
    requires TotalPreorder(le) && AdjacentSortedByTitle(le, nodes)
    ensures SortedByTitle(le, nodes)
  {
    if |nodes| > 1 {
      var tail := nodes[1..];
      assert AdjacentSortedByTitle(le, tail) by {
        forall i | 0 <= i < |tail| - 1 ensures le(tail[i].title, tail[i + 1].title) {
          assert tail[i] == nodes[i + 1] && tail[i + 1] == nodes[i + 2];
        }
      }
      AdjacentSortedIsSorted(le, tail);
      forall i, j | 0 <= i < j < |nodes| ensures le(nodes[i].title, nodes[j].title) {
        if i > 0 {
          assert nodes[i] == tail[i - 1] && nodes[j] == tail[j - 1];
        } else if j > 1 {
          assert nodes[1] == tail[0] && nodes[j] == tail[j - 1];
          assert le(nodes[1].title, nodes[j].title);
        }
      }
    }
  }

  /** Inserts `x` before the first node it sorts no later than. */
  function InsertByTitle(le: (string, string) -> bool, x: ConnectorNode, nodes: seq<ConnectorNode>): (r: seq<ConnectorNode>)
    requires TotalPreorder(le) && AdjacentSortedByTitle(le, nodes)
    ensures AdjacentSortedByTitle(le, r)
    ensures multiset(r) == multiset(nodes) + multiset{x}
    ensures |r| == |nodes| + 1 && (r[0] == x || (|nodes| > 0 && r[0] == nodes[0]))
  {
    if |nodes| == 0 then [x]
    else if le(x.title, nodes[0].title) then [x] + nodes
    else
      var rest := InsertByTitle(le, x, nodes[1..]);
      assert nodes == [nodes[0]] + nodes[1..];
      assert le(nodes[0].title, rest[0].title);
      [nodes[0]] + rest
  }

  /** `Array.prototype.sort((a, b) => a.title.localeCompare(b.title))`: an insertion sort by title. */
  function SortByTitle(le: (string, string) -> bool, nodes: seq<ConnectorNode>): (r: seq<ConnectorNode>)
    requires TotalPreorder(le)
    ensures AdjacentSortedByTitle(le, r)
    ensures multiset(r) == multiset(nodes)
  {
    if |nodes| == 0 then []
    else
      assert nodes == [nodes[0]] + nodes[1..];
      InsertByTitle(le, nodes[0], SortByTitle(le, nodes[1..]))
  }

  /** The `parentInternalId` of a node: the folder-kind stable id of its parent url, or null at the root. */
  function ParentInternalId(h: UrlHelpers, parentUrl: Option<string>): Option<string> {
    if Truthy(parentUrl) then Some(h.stableIdForUrl(parentUrl.value, FolderResource)) else None
  }

  /** The `split("/")` of a folder url's pathname. */
  function PathParts(h: UrlHelpers, url: string): seq<string> {
    Split(h.pathname(url), '/')
  }

  /** A folder's title: the last non-empty segment of its url's pathname, or the whole url. */
  function FolderTitle(h: UrlHelpers, url: string): string {
    var segments := NonEmpty(PathParts(h, url));
    if |segments| > 0 && segments[|segments| - 1] != "" then segments[|segments| - 1] else url
  }

  function FolderToNode(h: UrlHelpers, folder: Folder): ConnectorNode {
    ConnectorNode(
      "webcrawler", folder.internalId, ParentInternalId(h, folder.parentUrl), FolderTitle(h, folder.url),
      None, true, "read", None, FolderNode, folder.updatedAt)
  }

  /** A page's node; `excluded` holds the folder urls that are also pages. */
  function PageToNode(h: UrlHelpers, excluded: set<string>, page: Page): ConnectorNode {
    var isFileAndFolder := h.normalizeFolderUrl(page.url) in excluded;
    ConnectorNode(
      "webcrawler",
      if isFileAndFolder then h.stableIdForUrl(h.normalizeFolderUrl(page.url), FolderResource) else page.documentId,
      ParentInternalId(h, page.parentUrl), h.displayNameForPage(page.url), Some(page.url),
      isFileAndFolder, "read", Some(page.documentId), FileNode, page.updatedAt)
  }

  /** `normalizedPagesSet`. */
  function NormalizedPageUrls(h: UrlHelpers, pages: seq<Page>): set<string> {
    set p | p in pages :: h.normalizeFolderUrl(p.url)
  }

  /** `excludedFoldersSet`: the folder urls that are also the normalized url of a page. */
  function ExcludedFolderUrls(h: UrlHelpers, folders: seq<Folder>, pages: seq<Page>): (r: set<string>)
    ensures forall u :: u in r <==> (exists f :: f in folders && f.url == u) && (exists p :: p in pages && h.normalizeFolderUrl(p.url) == u)
  {
    var normalized := NormalizedPageUrls(h, pages);
    set f | f in folders && f.url in normalized :: f.url
  }

  /** The folders that are listed: those whose url is not the normalized url of a page. */
  function KeptFolders(h: UrlHelpers, folders: seq<Folder>, pages: seq<Page>): (r: seq<Folder>)
    ensures forall f :: f in r <==> f in folders && f.url !in NormalizedPageUrls(h, pages)
  {
    var excluded := ExcludedFolderUrls(h, folders, pages);
    Filter(folders, (f: Folder) => f.url !in excluded)
  }

  function FolderNodes(h: UrlHelpers, folders: seq<Folder>): (r: seq<ConnectorNode>)
    ensures |r| == |folders| && forall i :: 0 <= i < |folders| ==> r[i] == FolderToNode(h, folders[i])
  {
    seq(|folders|, i requires 0 <= i < |folders| => FolderToNode(h, folders[i]))
  }

  function PageNodes(h: UrlHelpers, excluded: set<string>, pages: seq<Page>): (r: seq<ConnectorNode>)
    ensures |r| == |pages| && forall i :: 0 <= i < |pages| ==> r[i] == PageToNode(h, excluded, pages[i])
  {
    seq(|pages|, i requires 0 <= i < |pages| => PageToNode(h, excluded, pages[i]))
  }

  /** The node list for the folders and pages of one scope: kept folders, then all pages, sorted by title. */
  function Project(h: UrlHelpers, le: (string, string) -> bool, folders: seq<Folder>, pages: seq<Page>): (r: seq<ConnectorNode>)
    requires TotalPreorder(le)
    ensures SortedByTitle(le, r)
    ensures multiset(r) == multiset(FolderNodes(h, KeptFolders(h, folders, pages))
                                    + PageNodes(h, ExcludedFolderUrls(h, folders, pages), pages))
  {
    var excluded := ExcludedFolderUrls(h, folders, pages);
    var sorted := SortByTitle(le, FolderNodes(h, KeptFolders(h, folders, pages)) + PageNodes(h, excluded, pages));
    AdjacentSortedIsSorted(le, sorted);
    sorted
  }

  /** The first row `keep` accepts: Sequelize's `findOne` over the table `rows`. */
  function FindOne<T(!new)>(rows: seq<T>, keep: T -> bool): (r: Option<T>)
    ensures r.None? <==> forall x :: x in rows ==> !keep(x)
    ensures r.Some? ==> r.value in rows && keep(r.value)
  {
    if |rows| == 0 then None
    else if keep(rows[0]) then Some(rows[0])
    else FindOne(rows[1..], keep)
  }

  /** The folder a non-empty `parentInternalId` names within one connector and configuration. */
  function FindParentFolder(folders: seq<Folder>, connectorId: nat, configurationId: nat, internalId: string): Option<Folder> {
    FindOne(folders, (f: Folder) => f.connectorId == connectorId && f.configurationId == configurationId && f.internalId == internalId)
  }

  /** The rows `findAll` returns for one connector, configuration and exact parent url. */
  function FoldersUnder(folders: seq<Folder>, connectorId: nat, configurationId: nat, parentUrl: Option<string>): seq<Folder> {
    Filter(folders, (f: Folder) => f.connectorId == connectorId && f.configurationId == configurationId && f.parentUrl == parentUrl)
  }

  function PagesUnder(pages: seq<Page>, connectorId: nat, configurationId: nat, parentUrl: Option<string>): seq<Page> {
    Filter(pages, (p: Page) => p.connectorId == connectorId && p.configurationId == configurationId && p.parentUrl == parentUrl)
  }

  /** The parent url a listing is for: null for the root, the named folder's url otherwise. */
  function ResolveScope(folders: seq<Folder>, connectorId: nat, configurationId: nat, parentInternalId: Option<string>): (r: Result<Option<string>, string>)
    ensures r.Err? <==> Truthy(parentInternalId) && FindParentFolder(folders, connectorId, configurationId, parentInternalId.value).None?
    ensures r.Err? ==> r.error == "Parent not found"
    ensures !Truthy(parentInternalId) ==> r == Ok(None)
    ensures r.Ok? && r.value.Some? ==>
      exists f :: f in folders && f.connectorId == connectorId && f.configurationId == configurationId
        && f.internalId == parentInternalId.value && f.url == r.value.value
  {
    if Truthy(parentInternalId) then
      match FindParentFolder(folders, connectorId, configurationId, parentInternalId.value)
      case None => Err("Parent not found")
      case Some(parent) => Ok(Some(parent.url))
    else Ok(None)
  }

  /**
   * `retrieveWebcrawlerConnectorPermissions`. `configurations` maps a connector id to its crawl
   * configuration; `folders` and `pages` are the Folder and Page tables.
   */
  function RetrievePermissions(
    connectors: map<nat, ConnectorRecord>, configurations: map<nat, CrawlConfiguration>,
    folders: seq<Folder>, pages: seq<Page>, connectorId: nat, parentInternalId: Option<string>,
    h: UrlHelpers, le: (string, string) -> bool): (r: Result<seq<ConnectorNode>, string>)
    requires TotalPreorder(le)
    ensures connectorId !in connectors ==> r == Err("Connector not found")
    ensures connectorId in connectors && connectorId !in configurations ==> r == Err("Webcrawler configuration not found")
    ensures connectorId in connectors && connectorId in configurations ==>
      var configurationId := configurations[connectorId].id;
      match ResolveScope(folders, connectorId, configurationId, parentInternalId)
      case Err(e) => r == Err(e)
      case Ok(parentUrl) =>
        && r.Ok?
        && SortedByTitle(le, r.value)
        && var scopeFolders := FoldersUnder(folders, connectorId, configurationId, parentUrl);
           var scopePages := PagesUnder(pages, connectorId, configurationId, parentUrl);
           multiset(r.value) == multiset(FolderNodes(h, KeptFolders(h, scopeFolders, scopePages))
                                         + PageNodes(h, ExcludedFolderUrls(h, scopeFolders, scopePages), scopePages))
  {
    if connectorId !in connectors then Err("Connector not found")
    else if connectorId !in configurations then Err("Webcrawler configuration not found")
    else
      var configurationId := configurations[connectorId].id;
      match ResolveScope(folders, connectorId, configurationId, parentInternalId)
      case Err(e) => Err(e)
      case Ok(parentUrl) =>
        Ok(Project(h, le,
          FoldersUnder(folders, connectorId, configurationId, parentUrl),
          PagesUnder(pages, connectorId, configurationId, parentUrl)))
  }

  /** A folder's title is the last non-empty pathname segment (never empty, never holding '/'), or the url itself when there is none. */
  lemma FolderTitleIsLastSegment(h: UrlHelpers, url: string)
    ensures (forall k :: 0 <= k < |PathParts(h, url)| ==> PathParts(h, url)[k] == "") ==> FolderTitle(h, url) == url
    ensures (exists k :: 0 <= k < |PathParts(h, url)| && PathParts(h, url)[k] != "") ==>
      exists k :: IsLastNonEmpty(PathParts(h, url), k) && PathParts(h, url)[k] == FolderTitle(h, url) && '/' !in FolderTitle(h, url)
  {
    var parts := PathParts(h, url);
    var segments := NonEmpty(parts);
    if k0 :| 0 <= k0 < |parts| && parts[k0] != "" {
      assert parts[k0] in segments;
      NonEmptyLast(parts);
      var k :| IsLastNonEmpty(parts, k) && parts[k] == segments[|segments| - 1];
      assert FolderTitle(h, url) == parts[k];
    } else {
      NonEmptyOfEmptyParts(parts);
    }
  }

  /** A folder node is always expandable and carries no source url and no document id. */
  lemma FolderNodeFields(h: UrlHelpers, folder: Folder)
    ensures var n := FolderToNode(h, folder);
      && n.nodeType == FolderNode && n.expandable && n.sourceUrl.None? && n.dustDocumentId.None?
      && n.internalId == folder.internalId
      && n.parentInternalId == (if Truthy(folder.parentUrl) then Some(h.stableIdForUrl(folder.parentUrl.value, FolderResource)) else None)
  {
  }

  /**
   * A page is expandable exactly when its normalized url is the url of a folder in the same scope;
   * it then carries the folder-kind stable id of that url, and otherwise its own document id.
   */
  lemma PageNodeFields(h: UrlHelpers, folders: seq<Folder>, pages: seq<Page>, page: Page)
    requires page in pages
    ensures var n := PageToNode(h, ExcludedFolderUrls(h, folders, pages), page);
      && (n.expandable <==> exists f :: f in folders && f.url == h.normalizeFolderUrl(page.url))
      && n.internalId == (if n.expandable then h.stableIdForUrl(h.normalizeFolderUrl(page.url), FolderResource) else page.documentId)
      && n.nodeType == FileNode && n.sourceUrl == Some(page.url) && n.dustDocumentId == Some(page.documentId)
      && n.title == h.displayNameForPage(page.url)
      && n.parentInternalId == (if Truthy(page.parentUrl) then Some(h.stableIdForUrl(page.parentUrl.value, FolderResource)) else None)
  {
  }

  /**
   * A page and a folder sharing the normalized url: the folder is not listed, and the page is
   * listed as expandable under the folder-kind stable id.
   */
  lemma PageAndFolderCollision(h: UrlHelpers, folders: seq<Folder>, pages: seq<Page>, folder: Folder, page: Page)
    requires folder in folders && page in pages
    requires h.normalizeFolderUrl(page.url) == folder.url
    ensures folder !in KeptFolders(h, folders, pages)
    ensures var n := PageToNode(h, ExcludedFolderUrls(h, folders, pages), page);
      n.expandable && n.internalId == h.stableIdForUrl(folder.url, FolderResource)
  {
    assert folder.url in NormalizedPageUrls(h, pages);
    PageNodeFields(h, folders, pages, page);
  }

  /** Two sequences with the same multiset have the same length and the same elements. */
  lemma SameMultiset<T>(xs: seq<T>, ys: seq<T>)
    requires multiset(xs) == multiset(ys)
    ensures |xs| == |ys|
    ensures forall x :: x in xs <==> x in ys
  {
    assert |multiset(xs)| == |multiset(ys)|;
    forall x ensures x in xs <==> x in ys {
      assert x in xs <==> x in multiset(xs);
      assert x in ys <==> x in multiset(ys);
    }
  }

  /** The nodes of kept folders, then the nodes of all pages: what the listing sorts. */
  function Unsorted(h: UrlHelpers, folders: seq<Folder>, pages: seq<Page>): seq<ConnectorNode> {
    FolderNodes(h, KeptFolders(h, folders, pages)) + PageNodes(h, ExcludedFolderUrls(h, folders, pages), pages)
  }

  /** Every folder whose url is not a page's normalized url has its node in the unsorted list. */
  lemma UnsortedHasKeptFolders(h: UrlHelpers, folders: seq<Folder>, pages: seq<Page>)
    ensures forall f :: f in folders && f.url !in NormalizedPageUrls(h, pages) ==> FolderToNode(h, f) in Unsorted(h, folders, pages)
  {
    var kept := KeptFolders(h, folders, pages);
    var folderNodes := FolderNodes(h, kept);
    var all := Unsorted(h, folders, pages);
    forall f | f in folders && f.url !in NormalizedPageUrls(h, pages)
      ensures FolderToNode(h, f) in all
    {
      assert f in kept;
      var i :| 0 <= i < |kept| && kept[i] == f;
      assert all[i] == folderNodes[i];
    }
  }

  /** Every page has its node in the unsorted list. */
  lemma UnsortedHasPages(h: UrlHelpers, folders: seq<Folder>, pages: seq<Page>)
    ensures forall p :: p in pages ==> PageToNode(h, ExcludedFolderUrls(h, folders, pages), p) in Unsorted(h, folders, pages)
  {
    var kept := KeptFolders(h, folders, pages);
    var pageNodes := PageNodes(h, ExcludedFolderUrls(h, folders, pages), pages);
    var all := Unsorted(h, folders, pages);
    forall p | p in pages ensures PageToNode(h, ExcludedFolderUrls(h, folders, pages), p) in all {
      var i :| 0 <= i < |pages| && pages[i] == p;
      assert all[|kept| + i] == pageNodes[i];
    }
  }

  /** Entry `i` of the unsorted list is the node of a kept folder or, past them, of a page. */
  lemma UnsortedAt(h: UrlHelpers, folders: seq<Folder>, pages: seq<Page>, i: int)
    requires 0 <= i < |Unsorted(h, folders, pages)|
    ensures var kept := KeptFolders(h, folders, pages);
      if i < |kept| then Unsorted(h, folders, pages)[i] == FolderToNode(h, kept[i])
      else (0 <= i - |kept| < |pages|
        && Unsorted(h, folders, pages)[i] == PageToNode(h, ExcludedFolderUrls(h, folders, pages), pages[i - |kept|]))
  {
  }

  /** The unsorted list holds nothing but kept folders' and pages' nodes. */
  lemma UnsortedHasNothingElse(h: UrlHelpers, folders: seq<Folder>, pages: seq<Page>)
    ensures forall n :: n in Unsorted(h, folders, pages) ==>
      (exists f :: f in KeptFolders(h, folders, pages) && n == FolderToNode(h, f))
      || (exists p :: p in pages && n == PageToNode(h, ExcludedFolderUrls(h, folders, pages), p))
  {
    var kept := KeptFolders(h, folders, pages);
    var excluded := ExcludedFolderUrls(h, folders, pages);
    var all := Unsorted(h, folders, pages);
    forall n | n in all
      ensures (exists f :: f in kept && n == FolderToNode(h, f))
        || (exists p :: p in pages && n == PageToNode(h, excluded, p))
    {
      var i :| 0 <= i < |all| && all[i] == n;
      UnsortedAt(h, folders, pages, i);
      if i < |kept| {
        assert kept[i] in kept;
      } else {
        assert pages[i - |kept|] in pages;
      }
    }
  }

  /**
   * A node list with the multiset of the projection of `folders` and `pages` (as every successful
   * listing has) holds one node per kept folder and one per page, and nothing else.
   */
  lemma ListingMembership(h: UrlHelpers, folders: seq<Folder>, pages: seq<Page>, nodes: seq<ConnectorNode>)
    requires multiset(nodes) == multiset(FolderNodes(h, KeptFolders(h, folders, pages))
                                         + PageNodes(h, ExcludedFolderUrls(h, folders, pages), pages))
    ensures |nodes| == |KeptFolders(h, folders, pages)| + |pages|
    ensures forall f :: f in folders && f.url !in NormalizedPageUrls(h, pages) ==> FolderToNode(h, f) in nodes
    ensures forall p :: p in pages ==> PageToNode(h, ExcludedFolderUrls(h, folders, pages), p) in nodes
    ensures forall n :: n in nodes ==>
      (exists f :: f in KeptFolders(h, folders, pages) && n == FolderToNode(h, f))
      || (exists p :: p in pages && n == PageToNode(h, ExcludedFolderUrls(h, folders, pages), p))
  {
    SameMultiset(nodes, Unsorted(h, folders, pages));
    UnsortedHasKeptFolders(h, folders, pages);
    UnsortedHasPages(h, folders, pages);
    UnsortedHasNothingElse(h, folders, pages);
  }

  /** The folders of one connector whose url is among `urls` (Sequelize's `url: urls` filter). */
  function FoldersWithUrls(folders: seq<Folder>, connectorId: nat, urls: seq<string>): seq<Folder> {
    Filter(folders, (f: Folder) => f.connectorId == connectorId && f.url in urls)
  }

  /** The `reduce` of `retrieveWebCrawlerObjectsTitles`: each folder's url mapped to itself. */
  function TitlesOf(folders: seq<Folder>): (titles: map<string, string>)
    ensures forall u :: u in titles <==> exists f :: f in folders && f.url == u
    ensures forall u :: u in titles ==> titles[u] == u
  {
    if |folders| == 0 then map[]
    else
      var last := folders[|folders| - 1];
      assert forall f :: f in folders <==> f in folders[..|folders| - 1] || f == last;
      TitlesOf(folders[..|folders| - 1])[last.url := last.url]
  }

  /**
   * `retrieveWebCrawlerObjectsTitles`: the requested urls that are folder urls of the connector,
   * each titled with the url itself.
   */
  function RetrieveObjectsTitles(folders: seq<Folder>, connectorId: nat, internalIds: seq<string>): (r: Result<map<string, string>, string>)
    ensures r.Ok?
    ensures forall u :: u in r.value <==> u in internalIds && exists f :: f in folders && f.connectorId == connectorId && f.url == u
    ensures forall u :: u in r.value ==> r.value[u] == u
  {
    var matching := FoldersWithUrls(folders, connectorId, internalIds);
    assert forall u :: (exists f :: f in matching && f.url == u) <==>
      u in internalIds && exists f :: f in folders && f.connectorId == connectorId && f.url == u;
    Ok(TitlesOf(matching))
  }
}
