/**
 * `createWebcrawlerConnector` and `updateWebcrawlerConnector`
 * (connectors/src/connectors/webcrawler/index.ts): validate the crawl depth, persist the
 * connector and its crawl configuration, then start (create) or stop and restart (update) the
 * crawl workflow, failing fast at each step. The workflow runtime's answers to a start or a stop
 * are parameters; every signal sent is appended to a log.
 */
module ConnectorLifecycle {
  import opened Results
  import opened Decimal
  import opened WebcrawlerRecords

  /** `CreateConnectorUrlRequestBody`. */
  datatype UrlConfig = UrlConfig(url: string, maxPages: int, crawlMode: string, depth: int, crawlFrequency: string)

  /** The fields of `DataSourceConfig` a new connector records. */
  datatype DataSourceConfig = DataSourceConfig(workspaceAPIKey: string, workspaceId: string, dataSourceName: string)

  /** `ConnectorsAPIError`. */
  datatype ApiError = ApiError(message: string, errorType: string)

  datatype SignalKind = Launch | Stop

  /** One call to `launchCrawlWebsiteWorkflow` or `stopCrawlWebsiteWorkflow`, and whether it succeeded. */
  datatype WorkflowSignal = WorkflowSignal(kind: SignalKind, connectorId: nat, succeeded: bool)

  /** `xs.join(sep)` on numbers. */
  function JoinInts(xs: seq<int>, sep: string): string {
    if |xs| == 0 then ""
    else if |xs| == 1 then IntToString(xs[0])
    else IntToString(xs[0]) + sep + JoinInts(xs[1..], sep)
  }

  /** Whether the crawl workflow of `id` is running after `signals`: its last successful signal was a launch. */
  function IsRunning(signals: seq<WorkflowSignal>, id: nat): bool {
    if |signals| == 0 then false
    else
      var s := signals[|signals| - 1];
      if s.connectorId == id && s.succeeded then s.kind == Launch
      else IsRunning(signals[..|signals| - 1], id)
  }

  /** The signals `updateWebcrawlerConnector` sends once the configuration is written: a stop, then a launch only if the stop succeeded. */
  function UpdateSignals(id: nat, stop: Outcome, launch: Outcome): seq<WorkflowSignal> {
    [WorkflowSignal(Stop, id, stop.Pass?)] + if stop.Pass? then [WorkflowSignal(Launch, id, launch.Pass?)] else []
  }

  /** The result of `updateWebcrawlerConnector` once both checks have passed. */
  function UpdateResult(id: nat, stop: Outcome, launch: Outcome): Result<string, ApiError> {
    match stop
    case Fail(m) => Err(ApiError(m, "internal_server_error"))
    case Pass =>
      match launch
      case Fail(m) => Err(ApiError(m, "internal_server_error"))
      case Pass => Ok(NatToString(id))
  }

  /**
   * After an update the workflow runs exactly when both the stop and the relaunch succeeded, or the
   * stop failed and it was running before; a failed relaunch leaves it stopped.
   */
  lemma UpdateLeavesSession(signals: seq<WorkflowSignal>, id: nat, stop: Outcome, launch: Outcome)
    ensures IsRunning(signals + UpdateSignals(id, stop, launch), id)
      <==> (stop.Pass? && launch.Pass?) || (stop.Fail? && IsRunning(signals, id))
    ensures UpdateResult(id, stop, launch).Ok? <==> stop.Pass? && launch.Pass?
  {
    var after := signals + UpdateSignals(id, stop, launch);
    if stop.Pass? {
      assert after[..|after| - 1] == signals + [WorkflowSignal(Stop, id, true)];
      assert (signals + [WorkflowSignal(Stop, id, true)])[..|signals|] == signals;
    } else {
      assert after[..|after| - 1] == signals;
    }
  }

  /** Signals about other connectors do not change whether a connector's workflow runs. */
  lemma {:induction false} OtherSignalsIrrelevant(signals: seq<WorkflowSignal>, more: seq<WorkflowSignal>, id: nat)
    requires forall k :: 0 <= k < |more| ==> more[k].connectorId != id
    ensures IsRunning(signals + more, id) == IsRunning(signals, id)
  {
    if |more| > 0 {
      var init := more[..|more| - 1];
      assert (signals + more)[..|signals + more| - 1] == signals + init;
      assert (signals + more)[|signals + more| - 1] == more[|more| - 1];
      OtherSignalsIrrelevant(signals, init, id);
    } else {
      assert signals + more == signals;
    }
  }

  /** The crawl configuration after `WebCrawlerConfiguration.update(...)` for one connector: the five fields replaced, if a row exists. */
  function UpdatedConfigurations(configurations: map<nat, CrawlConfiguration>, id: nat, urlConfig: UrlConfig): (r: map<nat, CrawlConfiguration>)
    ensures r.Keys == configurations.Keys
    ensures forall k :: k in r && k != id ==> r[k] == configurations[k]
    ensures id in r ==> (r[id].id == configurations[id].id && r[id].connectorId == configurations[id].connectorId
      && r[id].lastCrawledAt == configurations[id].lastCrawledAt
      && r[id].url == urlConfig.url && r[id].maxPageToCrawl == urlConfig.maxPages
      && r[id].crawlMode == urlConfig.crawlMode && r[id].depth == urlConfig.depth
      && r[id].crawlFrequency == urlConfig.crawlFrequency)
  {
    if id in configurations then
      configurations[id := configurations[id].(
        url := urlConfig.url, maxPageToCrawl := urlConfig.maxPages, crawlMode := urlConfig.crawlMode,
        depth := urlConfig.depth, crawlFrequency := urlConfig.crawlFrequency)]
    else configurations
  }

  /**
   * The shape the connector tables keep: each connector is filed under its own id, below the next
   * id to hand out; each configuration belongs to a filed connector and has an id below the next
   * configuration id; each signal is for an id already handed out.
   */
  ghost predicate TablesValid(
    connectors: map<nat, ConnectorRecord>, configurations: map<nat, CrawlConfiguration>,
    nextConnectorId: nat, nextConfigurationId: nat, signals: seq<WorkflowSignal>)
  {
    && 0 < nextConnectorId && 0 < nextConfigurationId
    && (forall id :: id in connectors ==> 0 < id < nextConnectorId && connectors[id].id == id)
    && (forall id :: id in configurations ==>
          id in connectors && configurations[id].connectorId == id && configurations[id].id < nextConfigurationId)
    && (forall k :: 0 <= k < |signals| ==> signals[k].connectorId < nextConnectorId)
  }

  /**
   * Filing a connector and its configuration under the next ids, then launching its workflow,
   * keeps the tables' shape; the id was free, and the workflow runs exactly when the launch succeeded.
   */
  lemma CreateKeepsTablesValid(
    connectors: map<nat, ConnectorRecord>, configurations: map<nat, CrawlConfiguration>,
    nextConnectorId: nat, nextConfigurationId: nat, signals: seq<WorkflowSignal>,
    connector: ConnectorRecord, configuration: CrawlConfiguration, launched: bool)
    requires TablesValid(connectors, configurations, nextConnectorId, nextConfigurationId, signals)
    requires connector.id == nextConnectorId
    requires configuration.id == nextConfigurationId && configuration.connectorId == nextConnectorId
    ensures nextConnectorId !in connectors
    ensures TablesValid(connectors[nextConnectorId := connector], configurations[nextConnectorId := configuration],
      nextConnectorId + 1, nextConfigurationId + 1, signals + [WorkflowSignal(Launch, nextConnectorId, launched)])
    ensures IsRunning(signals + [WorkflowSignal(Launch, nextConnectorId, launched)], nextConnectorId) == launched
  {
    LaunchOfFreshId(signals, nextConnectorId, launched);
  }

  /** The workflow of an id no signal has named yet runs after its first launch exactly when that launch succeeded. */
  lemma LaunchOfFreshId(signals: seq<WorkflowSignal>, id: nat, launched: bool)
    requires forall k :: 0 <= k < |signals| ==> signals[k].connectorId < id
    ensures IsRunning(signals + [WorkflowSignal(Launch, id, launched)], id) == launched
  {
    var after := signals + [WorkflowSignal(Launch, id, launched)];
    assert after[..|after| - 1] == signals;
    assert [] + signals == signals;
    OtherSignalsIrrelevant([], signals, id);
  }

  /** Rewriting a filed connector's configuration, or signalling its workflow, keeps the tables' shape. */
  lemma UpdateKeepsTablesValid(
    connectors: map<nat, ConnectorRecord>, configurations: map<nat, CrawlConfiguration>,
    nextConnectorId: nat, nextConfigurationId: nat, signals: seq<WorkflowSignal>,
    id: nat, urlConfig: UrlConfig, signal: WorkflowSignal)
    requires TablesValid(connectors, configurations, nextConnectorId, nextConfigurationId, signals)
    requires id in connectors && signal.connectorId == id
    ensures TablesValid(connectors, UpdatedConfigurations(configurations, id, urlConfig),
      nextConnectorId, nextConfigurationId, signals)
    ensures TablesValid(connectors, configurations, nextConnectorId, nextConfigurationId, signals + [signal])
  {
  }

  /** The connectors' tables and the workflow signal log. */
  class WebcrawlerConnectors {
    /** `DepthOptions`: `isDepthOption(d)` holds exactly for these values. */
    const depthOptions: seq<int>
    var connectors: map<nat, ConnectorRecord>
    /** The crawl configuration of each connector, by connector id. */
    var configurations: map<nat, CrawlConfiguration>
    var nextConnectorId: nat
    var nextConfigurationId: nat
    var signals: seq<WorkflowSignal>

    ghost predicate Valid()
      reads this
    {
      TablesValid(connectors, configurations, nextConnectorId, nextConfigurationId, signals)
    }

    constructor (depthOptions: seq<int>)
      ensures Valid() && this.depthOptions == depthOptions
      ensures connectors == map[] && configurations == map[] && signals == []
    {
      this.depthOptions := depthOptions;
      connectors := map[];
      configurations := map[];
      nextConnectorId := 1;
      nextConfigurationId := 1;
      signals := [];
    }

    predicate IsDepthOption(depth: int) {
      depth in depthOptions
    }

    /** The message of the update's depth error, listing the allowed depths. */
    function InvalidDepthMessage(): string {
      "Invalid depth option. Expected one of: (" + JoinInts(depthOptions, ",") + ")"
    }

    /**
     * `createWebcrawlerConnector`: reject a bad depth before anything is written; otherwise persist
     * the connector and its configuration, then launch its workflow. A launch failure is returned
     * as it is, and the connector stays.
     */
    method Create(dataSourceConfig: DataSourceConfig, urlConfig: UrlConfig, launch: Outcome)
      returns (r: Result<string, string>)
      requires Valid()
      modifies this
      ensures Valid()
      ensures !IsDepthOption(urlConfig.depth) ==>
        && r == Err("Invalid depth option")
        && connectors == old(connectors) && configurations == old(configurations) && signals == old(signals)
        && nextConnectorId == old(nextConnectorId) && nextConfigurationId == old(nextConfigurationId)
      ensures IsDepthOption(urlConfig.depth) ==>
        var id := old(nextConnectorId);
        && id !in old(connectors)
        && connectors == old(connectors)[id := ConnectorRecord(id, "webcrawler", urlConfig.url,
             dataSourceConfig.workspaceAPIKey, dataSourceConfig.workspaceId, dataSourceConfig.dataSourceName)]
        && configurations == old(configurations)[id := CrawlConfiguration(old(nextConfigurationId), id,
             urlConfig.url, urlConfig.maxPages, urlConfig.crawlMode, urlConfig.depth, urlConfig.crawlFrequency, None)]
        && signals == old(signals) + [WorkflowSignal(Launch, id, launch.Pass?)]
        && IsRunning(signals, id) == launch.Pass?
        && r == (if launch.Pass? then Ok(NatToString(id)) else Err(launch.message))
        && (r.Ok? ==> ParseInt(r.value) == Some(id as int))
    {
      if !IsDepthOption(urlConfig.depth) {
        return Err("Invalid depth option");
      }
      // ConnectorResource.makeNew: the connector row and its crawl configuration.
      var id := nextConnectorId;
      var connector := ConnectorRecord(id, "webcrawler", urlConfig.url,
        dataSourceConfig.workspaceAPIKey, dataSourceConfig.workspaceId, dataSourceConfig.dataSourceName);
      var configuration := CrawlConfiguration(nextConfigurationId, id,
        urlConfig.url, urlConfig.maxPages, urlConfig.crawlMode, urlConfig.depth, urlConfig.crawlFrequency, None);
      CreateKeepsTablesValid(connectors, configurations, nextConnectorId, nextConfigurationId, signals,
        connector, configuration, launch.Pass?);
      connectors := connectors[id := connector];
      configurations := configurations[id := configuration];
      nextConnectorId := nextConnectorId + 1;
      nextConfigurationId := nextConfigurationId + 1;

      signals := signals + [WorkflowSignal(Launch, id, launch.Pass?)];
      if launch.Fail? {
        return Err(launch.message);
      }
      IntToStringRoundTrip(id);
      return Ok(NatToString(id));
    }

    /**
     * `updateWebcrawlerConnector`: an unknown connector or a bad depth fails before anything is
     * written or signalled; otherwise the configuration is written, the workflow stopped, and
     * relaunched only if the stop succeeded.
     */
    method Update(connectorId: nat, urlConfig: UrlConfig, stop: Outcome, launch: Outcome)
      returns (r: Result<string, ApiError>)
      requires Valid()
      modifies this
      ensures Valid()
      ensures connectors == old(connectors)
      ensures nextConnectorId == old(nextConnectorId) && nextConfigurationId == old(nextConfigurationId)
      ensures connectorId !in connectors ==>
        && r == Err(ApiError("Connector not found", "connector_not_found"))
        && configurations == old(configurations) && signals == old(signals)
      ensures connectorId in connectors && !IsDepthOption(urlConfig.depth) ==>
        && r == Err(ApiError(InvalidDepthMessage(), "invalid_request_error"))
        && configurations == old(configurations) && signals == old(signals)
      ensures connectorId in connectors && IsDepthOption(urlConfig.depth) ==>
        && configurations == UpdatedConfigurations(old(configurations), connectorId, urlConfig)
        && signals == old(signals) + UpdateSignals(connectorId, stop, launch)
        && r == UpdateResult(connectorId, stop, launch)
    {
      if connectorId !in connectors {
        return Err(ApiError("Connector not found", "connector_not_found"));
      }
      if !IsDepthOption(urlConfig.depth) {
        return Err(ApiError(InvalidDepthMessage(), "invalid_request_error"));
      }
      var stopped := WorkflowSignal(Stop, connectorId, stop.Pass?);
      UpdateKeepsTablesValid(connectors, configurations, nextConnectorId, nextConfigurationId, signals,
        connectorId, urlConfig, stopped);
      configurations := UpdatedConfigurations(configurations, connectorId, urlConfig);

      UpdateKeepsTablesValid(connectors, configurations, nextConnectorId, nextConfigurationId, signals,
        connectorId, urlConfig, stopped);
      signals := signals + [stopped];
      if stop.Fail? {
        return Err(ApiError(stop.message, "internal_server_error"));
      }
      var launched := WorkflowSignal(Launch, connectorId, launch.Pass?);
      UpdateKeepsTablesValid(connectors, configurations, nextConnectorId, nextConfigurationId, signals,
        connectorId, urlConfig, launched);
      signals := signals + [launched];
      if launch.Fail? {
        return Err(ApiError(launch.message, "internal_server_error"));
      }
      return Ok(NatToString(connectorId));
    }
  }
}
