/**
 * The outbox event record (app/models/outbox.go): its status values, the
 * two status transitions a publisher applies, the status tests and the key
 * under which the record is cached.
 */
module Outbox {
  import opened Wrappers
  import opened Decimal

  const STATUS_PENDING: string := "pending"
  const STATUS_PROCESSED: string := "processed"
  const STATUS_FAILED: string := "failed"

  const CACHE_PREFIX: string := "outbox_events:"

  class OutboxEvent {
    var id: int64
    var eventType: string
    var aggregateId: string
    var aggregateType: string
    /** The JSON payload, as text. */
    var eventData: string
    var status: string
    var version: int
    var createdAt: int64
    var processedAt: Option<int64>

    /** A new event as the outbox builder fills it in: pending, the ID left to the database, not yet processed. */
    constructor (eventType: string, aggregateId: string, aggregateType: string, eventData: string,
                 version: int, now: int64)
      ensures this.id == 0 && this.status == STATUS_PENDING && this.processedAt == None
      ensures this.eventType == eventType && this.aggregateId == aggregateId
      ensures this.aggregateType == aggregateType && this.eventData == eventData
      ensures this.version == version && this.createdAt == now
    {
      id := 0;
      this.eventType := eventType;
      this.aggregateId := aggregateId;
      this.aggregateType := aggregateType;
      this.eventData := eventData;
      status := STATUS_PENDING;
      this.version := version;
      createdAt := now;
      processedAt := None;
    }

    /** The cache key of the record: the prefix, then the ID in decimal. */
    function CacheKey(): (k: string)
      reads this
      ensures |CACHE_PREFIX| < |k| && k[..|CACHE_PREFIX|] == CACHE_PREFIX
    {
      CACHE_PREFIX + FormatInt(id)
    }

    predicate IsPending()
      reads this
    {
      status == STATUS_PENDING
    }

    predicate IsProcessed()
      reads this
    {
      status == STATUS_PROCESSED
    }

    /** MarkAsProcessed, with `now` standing for time.Now().Unix(). */
    method MarkAsProcessed(now: int64)
      modifies this
      ensures status == STATUS_PROCESSED && processedAt == Some(now)
      ensures IsProcessed() && !IsPending()
      ensures id == old(id) && eventType == old(eventType) && aggregateId == old(aggregateId)
      ensures aggregateType == old(aggregateType) && eventData == old(eventData)
      ensures version == old(version) && createdAt == old(createdAt)
    {
      status := STATUS_PROCESSED;
      processedAt := Some(now);
    }

    /** MarkAsFailed changes the status only; any processing time stays as it was. */
    method MarkAsFailed()
      modifies this
      ensures status == STATUS_FAILED
      ensures !IsPending() && !IsProcessed()
      ensures processedAt == old(processedAt)
      ensures id == old(id) && eventType == old(eventType) && aggregateId == old(aggregateId)
      ensures aggregateType == old(aggregateType) && eventData == old(eventData)
      ensures version == old(version) && createdAt == old(createdAt)
    {
      status := STATUS_FAILED;
    }
  }

  /** No status is both pending and processed, and a failed event is neither. */
  lemma StatusTestsExclusive(e: OutboxEvent)
    ensures !(e.IsPending() && e.IsProcessed())
    ensures e.status == STATUS_FAILED ==> !e.IsPending() && !e.IsProcessed()
  {
  }

  /** The ID can be read back from the cache key. */
  lemma CacheKeyReadsBack(e: OutboxEvent)
    ensures ParseInt64(e.CacheKey()[|CACHE_PREFIX|..]) == Some(e.id)
  {
    assert e.CacheKey()[|CACHE_PREFIX|..] == FormatInt(e.id);
    ParseFormatInt(e.id);
  }

  /** Two records share a cache key exactly when they share an ID. */
  lemma CacheKeyInjective(a: OutboxEvent, b: OutboxEvent)
    ensures a.CacheKey() == b.CacheKey() <==> a.id == b.id
  {
    CacheKeyReadsBack(a);
    CacheKeyReadsBack(b);
  }
}
