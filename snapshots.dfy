/** The pure core of the change/notification engine: the redacted device
    snapshot that `proplist` builds, the bus messages, the dedup decision
    that `changed` makes, and the process-wide high-water mark `lastupdated`. */
module Snapshots {
  import opened Values

  /** What a redacted `info` entry is replaced by. */
  const Mask := "********"
  /** The telemetry topic that state deltas and alerts go to. */
  const Egress := "beacon-egress"
  /** The command/control topic that `attention` is raised on. */
  const Actors := "actors"

  /** The snapshot without its `updated` stamp: what `changed` serialises and
      compares against `prev`. */
  datatype Body = Body(
    whatami: string,
    whoami: string,
    name: Value,
    status: string,
    info: map<string, Value>)

  /** The result of `proplist`; `updated` is `None` where the source puts `null`. */
  datatype Snapshot = Snapshot(body: Body, updated: Option<int>)

  /** A message published on the bus. */
  datatype Message =
    | Updates(snapshot: Snapshot)
    | Attention
    | AlertUpdate(updated: int, message: string, whoami: string, name: Value, info: Body)

  datatype Publication = Publication(topic: string, message: Message)

  /** The copy of `info` in which every `elide`-listed key whose value is
      truthy is masked, one key after the other. */
  function Redact(info: map<string, Value>, elide: seq<string>): (r: map<string, Value>)
    ensures r.Keys == info.Keys
    ensures forall k :: k in r ==>
              r[k] == if k in elide && Truthy(info[k]) then Str(Mask) else info[k]
    decreases |elide|
  {
    if elide == [] then info
    else
      var r := Redact(info, elide[..|elide| - 1]);
      var k := elide[|elide| - 1];
      assert forall j :: j in elide <==> j in elide[..|elide| - 1] || j == k;
      if k in r && Truthy(r[k]) then r[k := Str(Mask)] else r
  }

  /** The snapshot `proplist` builds from a device's state: `info` without
      its `name` key, with the truthy elided entries masked; the `name` or
      `''`; the stamp, or none when the device was never stamped (0). */
  function SnapshotOf(whatami: string, deviceID: string, name: Value, status: string,
                      info: map<string, Value>, elide: seq<string>, updated: int): (s: Snapshot)
    ensures s.body.whatami == whatami && s.body.status == status
    ensures s.body.whoami == "device/" + deviceID
    ensures s.body.name == if Truthy(name) then name else Str("")
    ensures "name" !in s.body.info && s.body.info.Keys == info.Keys - {"name"}
    ensures forall k :: k in s.body.info ==>
              s.body.info[k] == if k in elide && Truthy(info[k]) then Str(Mask) else info[k]
    ensures s.updated.Some? <==> updated != 0
    ensures s.updated.Some? ==> s.updated.value == updated
  {
    var body := Body(whatami, "device/" + deviceID, if Truthy(name) then name else Str(""),
                     status, Redact(info - {"name"}, elide));
    Snapshot(body, if updated != 0 then Some(updated) else None)
  }

  /** The body as `stringify` writes it: an `info` entry holding `undefined`
      is left out. Two bodies serialise alike exactly when their
      serialisations are equal; this is what `prev` holds. */
  function Serialised(b: Body): Body {
    b.(info := map k | k in b.info && b.info[k] != Undefined :: b.info[k])
  }

  /** What one `changed` call does with the dedup state: the new `prev` and
      the publications it makes. */
  datatype Outcome = Outcome(prev: Option<Body>, published: seq<Publication>)

  predicate Alarming(status: string) {
    status == "reset" || status == "error"
  }

  /** The dedup decision of `changed`: nothing when the body equals `prev`;
      otherwise `prev` is replaced and, if anybody listens on the telemetry
      topic, the snapshot is published, followed by `attention` for an
      alarming status. */
  function Dedup(prev: Option<Body>, snap: Snapshot, listening: bool): (r: Outcome)
    ensures r.prev == Some(Serialised(snap.body))
    ensures r.published == [] <==> prev == Some(Serialised(snap.body)) || !listening
    ensures r.published != [] ==> r.published[0] == Publication(Egress, Updates(snap))
    ensures Publication(Actors, Attention) in r.published <==>
              r.published != [] && Alarming(snap.body.status)
    ensures r.published != [] ==>
              r.published == [Publication(Egress, Updates(snap))] +
                             (if Alarming(snap.body.status) then [Publication(Actors, Attention)] else [])
    ensures |r.published| <= 2
  {
    var text := Serialised(snap.body);
    if prev == Some(text) then Outcome(prev, [])
    else if !listening then Outcome(Some(text), [])
    else if Alarming(snap.body.status) then
      Outcome(Some(text), [Publication(Egress, Updates(snap)), Publication(Actors, Attention)])
    else Outcome(Some(text), [Publication(Egress, Updates(snap))])
  }

  /** A second `changed` whose snapshot body serialises as the first one's
      publishes nothing, whatever the stamps and whoever listens. */
  lemma DedupIdempotent(prev: Option<Body>, s1: Snapshot, s2: Snapshot, l1: bool, l2: bool)
    requires Serialised(s1.body) == Serialised(s2.body)
    ensures Dedup(Dedup(prev, s1, l1).prev, s2, l2).published == []
  {
  }

  /** An `info` entry that holds `undefined` is invisible to `changed`:
      adding one to an unchanged body publishes nothing, since `stringify`
      leaves it out of the text compared. */
  lemma UndefinedEntryIsUnseen(prev: Option<Body>, s1: Snapshot, s2: Snapshot, k: string, l1: bool, l2: bool)
    requires k !in s1.body.info
    requires s2.body == s1.body.(info := s1.body.info[k := Undefined])
    ensures Dedup(Dedup(prev, s1, l1).prev, s2, l2).published == []
  {
    assert Serialised(s1.body).info == Serialised(s2.body).info;
    DedupIdempotent(prev, s1, s2, l1, l2);
  }

  /** `prev` moves on even when nobody listens, so a state reached while the
      telemetry topic had no subscriber is not published again by `changed`
      until the state changes; the `ping` batch, which is not part of this
      model, does carry it. */
  lemma UnheardChangeIsNotRepublished(prev: Option<Body>, s1: Snapshot, s2: Snapshot)
    requires Serialised(s1.body) == Serialised(s2.body)
    ensures Dedup(prev, s1, false).published == []
    ensures Dedup(Dedup(prev, s1, false).prev, s2, true).published == []
  {
  }

  /** A change inside a nested object of `info` is a change of the body:
      `changed` publishes it, as `stringify` tells the two objects apart. */
  lemma NestedChangeIsPublished(prev: Option<Body>, s1: Snapshot, s2: Snapshot)
    requires "color" in s1.body.info && s1.body.info["color"] == Obj("{\"r\":1}")
    requires "color" in s2.body.info && s2.body.info["color"] == Obj("{\"r\":2}")
    ensures Dedup(Dedup(prev, s1, true).prev, s2, true).published != []
  {
    assert Serialised(s1.body).info["color"] != Serialised(s2.body).info["color"];
  }

  /** The message `alert` publishes: the snapshot's stamp, or the clock when
      the device was never stamped. */
  function AlertOf(snap: Snapshot, message: string, now: int): (m: Message)
    ensures m.AlertUpdate? && m.info == snap.body && m.message == message
    ensures m.whoami == snap.body.whoami && m.name == snap.body.name
    ensures m.updated == if snap.updated.Some? then snap.updated.value else now
  {
    AlertUpdate(snap.updated.GetOr(now), message, snap.body.whoami, snap.body.name, snap.body)
  }

  /** `lastupdated` after a `changed(now)`: the larger of the two. */
  function HighWater(last: int, now: int): (r: int)
    ensures r >= last && r >= now
    ensures r == last || r == now
  {
    if last < now then now else last
  }

  /** `lastupdated` after a sequence of `changed` calls stamped `times`. */
  function HighWaterAll(last: int, times: seq<int>): int
    decreases |times|
  {
    if times == [] then last
    else HighWater(HighWaterAll(last, times[..|times| - 1]), times[|times| - 1])
  }

  /** Across any sequence of `changed` calls `lastupdated` never decreases, ends
      at or above every stamp, and is the start value or one of the stamps. */
  lemma {:induction false} HighWaterAllBounds(last: int, times: seq<int>)
    ensures HighWaterAll(last, times) >= last
    ensures forall i :: 0 <= i < |times| ==> HighWaterAll(last, times) >= times[i]
    ensures HighWaterAll(last, times) == last || HighWaterAll(last, times) in times
    decreases |times|
  {
    if times != [] {
      var init := times[..|times| - 1];
      HighWaterAllBounds(last, init);
      assert forall i :: 0 <= i < |init| ==> times[i] == init[i];
      assert forall x :: x in init ==> x in times;
    }
  }

  /** Extending the sequence of calls never lowers the mark. */
  lemma {:induction false} HighWaterAllMonotone(last: int, times: seq<int>, more: seq<int>)
    ensures HighWaterAll(last, times + more) >= HighWaterAll(last, times)
    decreases |more|
  {
    if more == [] {
      assert times + more == times;
    } else {
      var init := more[..|more| - 1];
      assert (times + more)[..|times + more| - 1] == times + init;
      HighWaterAllMonotone(last, times, init);
    }
  }
}
