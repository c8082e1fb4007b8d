/**
 The control-plane record of an alias: which collection is live, which one it replaced, and
 the model identity of both. The repository's three updates are proved against functions on rows.
 */
module AliasRecords {
  import opened Options

  /** A model identity as the record stores it: absent until the first promotion. */
  datatype Block = Block(
    provider: Option<string>,
    model: Option<string>,
    dimensions: Option<int>,
    configVersion: Option<string>)

  datatype Identity = Identity(provider: string, model: string, dimensions: int, configVersion: string)

  function Pin(id: Identity): Block {
    Block(Some(id.provider), Some(id.model), Some(id.dimensions), Some(id.configVersion))
  }

  const EMPTY_BLOCK := Block(None, None, None, None)

  datatype Row = Row(
    collection: Option<string>,
    buildId: Option<int>,
    live: Block,
    promotedAt: Option<int>,
    previous: Option<string>,
    previousLive: Block)

  const EMPTY_ROW := Row(None, None, EMPTY_BLOCK, None, None, EMPTY_BLOCK)

  datatype RepoError = RecordNotFound | NoPreviousCollection

  // ----- the updates, on values -----

  /** Promotion and repair differ in where the new values come from, not in what they do to the row. */
  function Advance(r: Row, collection: string, build: int, id: Identity, at: int): Row {
    Row(Some(collection), Some(build), Pin(id), Some(at), r.collection, r.live)
  }

  /** An absent and an empty previous collection both forbid a rollback. */
  predicate CanRollBack(r: Row) {
    r.previous.Some? && r.previous.value != ""
  }

  /** The build number is not part of the exchange. */
  function SwapBack(r: Row, at: int): Row {
    Row(r.previous, r.buildId, r.previousLive, Some(at), r.collection, r.live)
  }

  // ----- the records and their repository -----

  class AliasRecord {
    const alias: string
    const kbId: string
    const workspaceId: string
    var collectionName: Option<string>
    var buildId: Option<int>
    var embeddingProvider: Option<string>
    var embeddingModel: Option<string>
    var embeddingDimensions: Option<int>
    var configVersion: Option<string>
    var promotedAt: Option<int>
    var previousCollection: Option<string>
    var previousEmbeddingProvider: Option<string>
    var previousEmbeddingModel: Option<string>
    var previousEmbeddingDimensions: Option<int>
    var previousConfigVersion: Option<string>

    constructor (alias: string, kbId: string, workspaceId: string)
      ensures this.alias == alias && this.kbId == kbId && this.workspaceId == workspaceId
      ensures View() == EMPTY_ROW
      ensures collectionName == None && buildId == None && promotedAt == None && previousCollection == None
      ensures embeddingProvider == None && embeddingModel == None
      ensures embeddingDimensions == None && configVersion == None
      ensures previousEmbeddingProvider == None && previousEmbeddingModel == None
      ensures previousEmbeddingDimensions == None && previousConfigVersion == None
    {
      this.alias, this.kbId, this.workspaceId := alias, kbId, workspaceId;
      collectionName, buildId := None, None;
      embeddingProvider, embeddingModel, embeddingDimensions, configVersion := None, None, None, None;
      promotedAt, previousCollection := None, None;
      previousEmbeddingProvider, previousEmbeddingModel := None, None;
      previousEmbeddingDimensions, previousConfigVersion := None, None;
    }

    function View(): Row
      reads this
    {
      Row(collectionName, buildId,
          Block(embeddingProvider, embeddingModel, embeddingDimensions, configVersion),
          promotedAt, previousCollection,
          Block(previousEmbeddingProvider, previousEmbeddingModel, previousEmbeddingDimensions, previousConfigVersion))
    }

    /** The live values become the previous ones, then the new ones are installed. */
    method Serve(collection: string, build: int, id: Identity, at: int)
      modifies this
      ensures View() == Advance(old(View()), collection, build, id, at)
      ensures collectionName == Some(collection) && buildId == Some(build) && promotedAt == Some(at)
      ensures embeddingProvider == Some(id.provider) && embeddingModel == Some(id.model)
      ensures embeddingDimensions == Some(id.dimensions) && configVersion == Some(id.configVersion)
      ensures previousCollection == old(collectionName)
      ensures previousEmbeddingProvider == old(embeddingProvider) && previousEmbeddingModel == old(embeddingModel)
      ensures previousEmbeddingDimensions == old(embeddingDimensions)
      ensures previousConfigVersion == old(configVersion)
    {
      previousCollection := collectionName;
      previousEmbeddingProvider := embeddingProvider;
      previousEmbeddingModel := embeddingModel;
      previousEmbeddingDimensions := embeddingDimensions;
      previousConfigVersion := configVersion;
      collectionName := Some(collection);
      buildId := Some(build);
      embeddingProvider := Some(id.provider);
      embeddingModel := Some(id.model);
      embeddingDimensions := Some(id.dimensions);
      configVersion := Some(id.configVersion);
      promotedAt := Some(at);
    }

    /** Exchanges the live and the previous values through temporaries. */
    method Exchange(now: int)
      modifies this
      ensures View() == SwapBack(old(View()), now)
      ensures collectionName == old(previousCollection) && previousCollection == old(collectionName)
      ensures embeddingProvider == old(previousEmbeddingProvider) && previousEmbeddingProvider == old(embeddingProvider)
      ensures embeddingModel == old(previousEmbeddingModel) && previousEmbeddingModel == old(embeddingModel)
      ensures embeddingDimensions == old(previousEmbeddingDimensions)
      ensures previousEmbeddingDimensions == old(embeddingDimensions)
      ensures configVersion == old(previousConfigVersion) && previousConfigVersion == old(configVersion)
      ensures buildId == old(buildId) && promotedAt == Some(now)
    {
      var oldCollection := collectionName;
      var oldProvider := embeddingProvider;
      var oldModel := embeddingModel;
      var oldDimensions := embeddingDimensions;
      var oldConfigVersion := configVersion;
      collectionName := previousCollection;
      embeddingProvider := previousEmbeddingProvider;
      embeddingModel := previousEmbeddingModel;
      embeddingDimensions := previousEmbeddingDimensions;
      configVersion := previousConfigVersion;
      previousCollection := oldCollection;
      previousEmbeddingProvider := oldProvider;
      previousEmbeddingModel := oldModel;
      previousEmbeddingDimensions := oldDimensions;
      previousConfigVersion := oldConfigVersion;
      promotedAt := Some(now);
    }
  }

  class AliasRepository {
    var records: map<string, AliasRecord>

    constructor ()
      ensures records == map[] && Valid()
    {
      records := map[];
    }

    /** Each record knows its alias, so no two aliases share a record. */
    ghost predicate Valid()
      reads this
    {
      forall a | a in records :: records[a].alias == a
    }

    /** Every record but the one of this alias is as it was. */
    twostate predicate OthersUnchanged(alias: string)
      reads this, records.Values
    {
      && records == old(records)
      && forall a | a in records && a != alias :: records[a].View() == old(records[a].View())
    }

    method Create(alias: string, kbId: string, workspaceId: string) returns (record: AliasRecord)
      requires Valid() && alias !in records
      modifies this
      ensures Valid() && fresh(record) && records == old(records)[alias := record]
      ensures record.kbId == kbId && record.workspaceId == workspaceId
      ensures record.alias == alias && record.View() == EMPTY_ROW
    {
      record := new AliasRecord(alias, kbId, workspaceId);
      records := records[alias := record];
    }

    method Promote(alias: string, collection: string, build: int, id: Identity, promotedAt: int)
      returns (result: Result<AliasRecord, RepoError>)
      requires Valid()
      modifies if alias in records then {records[alias]} else {}
      ensures Valid() && OthersUnchanged(alias)
      ensures alias !in records ==> result == Err(RecordNotFound)
      ensures alias in records ==>
        && result == Ok(records[alias])
        && records[alias].View() == Advance(old(records[alias].View()), collection, build, id, promotedAt)
      ensures alias in records ==>
        var r := records[alias];
        && r.collectionName == Some(collection) && r.buildId == Some(build) && r.promotedAt == Some(promotedAt)
        && r.embeddingProvider == Some(id.provider) && r.embeddingModel == Some(id.model)
        && r.embeddingDimensions == Some(id.dimensions) && r.configVersion == Some(id.configVersion)
        && r.previousCollection == old(records[alias].collectionName)
        && r.previousEmbeddingProvider == old(records[alias].embeddingProvider)
        && r.previousEmbeddingModel == old(records[alias].embeddingModel)
        && r.previousEmbeddingDimensions == old(records[alias].embeddingDimensions)
        && r.previousConfigVersion == old(records[alias].configVersion)
    {
      if alias !in records {
        return Err(RecordNotFound);
      }
      var record := records[alias];
      record.Serve(collection, build, id, promotedAt);
      return Ok(record);
    }

    method RollbackToPrevious(alias: string, now: int) returns (result: Result<AliasRecord, RepoError>)
      requires Valid()
      modifies if alias in records then {records[alias]} else {}
      ensures Valid() && OthersUnchanged(alias)
      ensures alias !in records ==> result == Err(RecordNotFound)
      ensures alias in records && old(records[alias].previousCollection) in {None, Some("")} ==>
        && result == Err(NoPreviousCollection) && !old(CanRollBack(records[alias].View()))
        && unchanged(records[alias])
      ensures alias in records && old(records[alias].previousCollection) !in {None, Some("")} ==>
        && result == Ok(records[alias]) && old(CanRollBack(records[alias].View()))
        && records[alias].View() == SwapBack(old(records[alias].View()), now)
    {
      if alias !in records {
        return Err(RecordNotFound);
      }
      var record := records[alias];
      if record.previousCollection.None? || record.previousCollection.value == "" {
        return Err(NoPreviousCollection);
      }
      record.Exchange(now);
      return Ok(record);
    }

    method ReconcileFromQdrant(alias: string, collection: string, id: Identity, build: int, now: int)
      returns (result: Result<AliasRecord, RepoError>)
      requires Valid()
      modifies if alias in records then {records[alias]} else {}
      ensures Valid() && OthersUnchanged(alias)
      ensures alias !in records ==> result == Err(RecordNotFound)
      ensures alias in records ==>
        && result == Ok(records[alias])
        && records[alias].View() == Advance(old(records[alias].View()), collection, build, id, now)
      ensures alias in records ==>
        var r := records[alias];
        && r.collectionName == Some(collection) && r.buildId == Some(build) && r.promotedAt == Some(now)
        && r.embeddingProvider == Some(id.provider) && r.embeddingModel == Some(id.model)
        && r.embeddingDimensions == Some(id.dimensions) && r.configVersion == Some(id.configVersion)
        && r.previousCollection == old(records[alias].collectionName)
        && r.previousEmbeddingProvider == old(records[alias].embeddingProvider)
        && r.previousEmbeddingModel == old(records[alias].embeddingModel)
        && r.previousEmbeddingDimensions == old(records[alias].embeddingDimensions)
        && r.previousConfigVersion == old(records[alias].configVersion)
    {
      if alias !in records {
        return Err(RecordNotFound);
      }
      var record := records[alias];
      record.Serve(collection, build, id, now);
      return Ok(record);
    }
  }
}
