/** The process-wide event bus as the device core uses it: `has(topic)` and
    `publish(topic, ...)`. Delivery to the handlers is not modelled; what
    was published is kept as a log. */
module Bus {
  import opened Snapshots

  class Broker {
    /** The topics that have at least one subscriber. */
    const topics: set<string>
    /** Every publication so far, oldest first. */
    ghost var log: seq<Publication>

    constructor (topics: set<string>)
      ensures this.topics == topics && log == []
    {
      this.topics := topics;
      log := [];
    }

    /** `broker.has(topic)`. */
    predicate Has(topic: string) {
      topic in topics
    }

    /** `broker.publish(topic, message)`. */
    method Publish(p: Publication)
      modifies this`log
      ensures log == old(log) + [p]
    {
      log := log + [p];
    }
  }
}
