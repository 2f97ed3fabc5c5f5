# Steward device core, modelled in Dafny

This project models the device core of the steward home-automation hub
(`steward/core/device.js`). That file holds three things:

- the registry of devices. `devices` maps a discovered unique id (a
  `deviceUID`) to a slot, and the slot holds a device once one is made.
- the behaviour every device shares: the snapshot (`proplist`), the change
  notifications (`changed`, `alert`), naming, and the `nv` payload helper.
- the helpers drivers use: the integer clamps and scales, the `set name`
  command protocol, and the `.[entity.field].` template expander.

The modules follow the parts of that file:

| module | file | what it holds |
|---|---|---|
| `Values` | values.dfy | the JavaScript values found in a device's `info` bag, truthiness, string conversion |
| `Text` | text.dfy | `indexOf` of a two-character marker and `split`, with the facts the expander needs |
| `Bytes` | bytes.dfy | `nv`: trailing-zero stripping, hex, the ASCII test |
| `Scales` | scales.dfy | `boundedValue`, `percentageValue`, `scaledPercentage`, `degreesValue`, `scaledDegrees` |
| `Command` | command.dfy | `validate_perform` and the decision part of `perform` |
| `Snapshots` | snapshots.dfy | the redacted snapshot, the dedup decision of `changed`, the `lastupdated` high-water mark |
| `Bus` | bus.dfy | the broker: which topics have subscribers, and a ghost log of what was published |
| `Expansion` | expansion.dfy | `expand` and its reference language |
| `Devices` | devices.dfy | the `Device` and `Registry` classes: lookup, id list, review, discovery, `changed`, `alert`, `setName`, `perform` |

The source changes state step by step in several places, and the model does
the same there:

- `Registry` is a class. Its `devices` map and its `lastupdated` mark are
  updated in place.
- `Device` is a class. `name`, `status`, `info`, `updated` and `prev` are its
  mutable fields.
- A method with loops models each loop of the source: `idlist`, `id2device`,
  `review`, the trimming in `nv`, the normalising in `scaledDegrees`, and the
  scan in `expand`.

Each such method is proved against a specification function (for example
`Registry.IdList` returns `Ids()`, and `Expansion.Expand` returns
`Expanded(line, sc)`). Separate lemmas then prove the source's promises about
those functions.

A few conventions hold throughout:

- `Registry.order` records the order in which `for … in` visits the
  registry's keys. That is insertion order when no unique id is an array
  index (see "## Left out").
- The store is not modelled. What the store answers (a SELECT that finds a
  row, finds none, or fails; an INSERT that assigns an id or fails; whether
  an UPDATE of the name succeeded) is passed in as method arguments.
- The clock is also an argument. A time is an integer of milliseconds, and 0
  means never stamped.
- `JSON.parse` is a function argument. It can throw, yield `null`, or yield a
  value's own properties.
- `expand` sees devices through a table from ids to entities. The lemmas
  that speak of the registry take that table to be `Registry.Table()`, the
  view of every device `id2device` finds.

In these places the code does something other than one might expect; the
model follows the code:

- Only elided values that are truthy are masked (steward/core/device.js:191).
  Empty or falsy secrets are shown as they are.
- When an entity cannot be resolved, the whole reference is not kept. Only a
  literal `.[` is written, and the reference's body and its closing `].` are
  dropped (steward/core/device.js:424-427).
- When the SELECT of the discovery fails, the error is only logged. The code
  then goes on to INSERT a new row (steward/core/device.js:140-151).
- `prev` moves on even when nobody subscribes to `beacon-egress`
  (steward/core/device.js:288-292). A change made while nobody listens is
  therefore not published again by `changed` until the state changes; the
  `ping` batch (lines 78-95), which is not modelled, does carry it.
- A failed discovery does not roll back its placeholder slot, so the same
  unique id can never be rediscovered.

## Model

| member | source | states |
|---|---|---|
| `Devices.Registry.Find` | steward/core/device.js:18-38 | `id2device(id)` gives a device exactly when `id` is truthy and appears in `idlist()`; the device has that `deviceID` and is one of the listed devices or children |
| `Devices.FindIn` | steward/core/device.js:18-38 | over the devices in registry order: found exactly when the id is non-empty and among their ids; the result is the first device with that id |
| `Devices.Registry.Id2Device` | steward/core/device.js:18-38 | the loops of `id2device` return what `Find` specifies |
| `Devices.Search` | steward/core/device.js:23-37 | the outer loop over slots, skipping slots without a device, returns the first match over devices and children |
| `Devices.SearchSlot` | steward/core/device.js:26-34 | one slot: the device itself first, then its children, or no match for a placeholder |
| `Devices.SearchChildren` | steward/core/device.js:30-34 | the inner loop returns the index of the first child with the id, or -1 |
| `Devices.Registry.IdList` | steward/core/device.js:40-54 | `idlist()` returns every slot's device followed by its children, slot by slot, skipping placeholders |
| `Devices.Registry.Review` | steward/core/device.js:100-118 | `review()` returns the counts of the statuses of the devices `id2device` finds for the ids of `idlist()`; the three counts add up to at most the number of ids |
| `Devices.Count` | steward/core/device.js:106-114 | one id adds at most one to the counts |
| `Devices.TallyByStatus` | steward/core/device.js:109-114 | `warning` counts exactly the waiting and busy devices, `attention` the reset ones, `error` the ones in error; other statuses are in no bucket |
| `Devices.TallyBound` | steward/core/device.js:103-115 | each id lands in at most one bucket, so the sum is at most the number of ids |
| `Devices.ResolveType` | steward/core/device.js:132 | the type is `deviceType` or `deviceType2`; `deviceType2` is chosen exactly when there is no maker for `deviceType` and `deviceType2` is present |
| `Devices.Registry.Discover` | steward/core/device.js:120-137 | a known unique id answers `(null, null)` and changes nothing; otherwise a placeholder slot is reserved first, then a missing maker answers an error naming `deviceType` and leaves the placeholder, else the store lookup is pending; the listed devices do not change |
| `Devices.Registry.Resume` | steward/core/device.js:139-170 | a row found answers `(null, null)` and makes the device under the stored id; no row or a failed SELECT inserts; a failed INSERT answers its error and leaves the placeholder; a new id is answered; the device is made into the reserved slot and nothing else changes |
| `Devices.ResolveBareId` | steward/core/device.js:422 | a bare device id in a template resolves to the view of the device `id2device` finds for it, and to nothing when it finds none |
| `Devices.TemplateUnknownDevice` | steward/core/device.js:422-427 | `.[id].` or `.[id.field…].` for an id `id2device` does not find becomes just `.[` |
| `Devices.TemplateDeviceStatus` | steward/core/device.js:422-438 | `.[id.status].` for an id `id2device` finds becomes that device's status |
| `Devices.TemplateDeviceName` | steward/core/device.js:422-438 | `.[id.name].` for an id `id2device` finds becomes that device's name as text |
| `Devices.Device.constructor` | steward/core/device.js:174-180 | a new device is `unknown`, has no elided keys, has never been stamped and has published nothing |
| `Snapshots.Redact` | steward/core/device.js:191 | same keys; every elided key whose value is truthy becomes `'********'`, every other value is kept |
| `Snapshots.SnapshotOf` | steward/core/device.js:185-201 | `proplist()`: `info` without `name`, truthy elided values masked, the rest unchanged; `whoami` is `'device/' + deviceID`; `name` is `''` when falsy; `updated` is null when never stamped; the device itself is only read |
| `Snapshots.Dedup` | steward/core/device.js:283-295 | `prev` becomes the new body as `stringify` writes it (without the `undefined` entries of `info`) in every case; something is published exactly when that differs from `prev` and `beacon-egress` has a subscriber; what is published is then exactly the update, followed by `attention` when the status is `reset` or `error` |
| `Snapshots.DedupIdempotent` | steward/core/device.js:287-288 | a second `changed` with a body that serialises as the first one's publishes nothing, whatever the stamps and subscribers |
| `Snapshots.UndefinedEntryIsUnseen` | steward/core/device.js:287-288 | adding an `info` entry that holds `undefined` to an unchanged body publishes nothing, since `stringify` leaves it out |
| `Snapshots.UnheardChangeIsNotRepublished` | steward/core/device.js:288-295 | a change seen while nobody listened is not published by a later `changed` with a body that serialises alike |
| `Snapshots.NestedChangeIsPublished` | steward/core/device.js:287-293 | a change inside a nested object of `info` (`{r:1}` to `{r:2}`) is published by the next `changed` |
| `Snapshots.AlertOf` | steward/core/device.js:305-311 | the alert carries the snapshot, the message, `whoami` and `name`, and the snapshot's stamp or else the clock |
| `Snapshots.HighWater` | steward/core/device.js:281 | `lastupdated` after a `changed(now)` is at least its old value and at least `now`, and is one of them |
| `Snapshots.HighWaterAllBounds` | steward/core/device.js:270-281 | across any sequence of `changed` calls, `lastupdated` never falls below its start or below any stamp, and is the start or one of the stamps |
| `Snapshots.HighWaterAllMonotone` | steward/core/device.js:281 | more `changed` calls never lower `lastupdated` |
| `Devices.Device.Changed` | steward/core/device.js:272-296 | `updated` becomes `now`, `lastupdated` the high-water mark, and `prev` and the bus log follow the dedup decision on the new snapshot |
| `Devices.Device.Alert` | steward/core/device.js:299-313 | publishes one alert exactly when `beacon-egress` has a subscriber, and leaves `prev` alone |
| `Devices.Device.SetName` | steward/core/device.js:220-236 | answers whether the name is truthy; with a falsy name or a failed store write nothing changes; otherwise the name is taken and `changed` runs |
| `Devices.Perform` | steward/core/device.js:316-326 | answers true exactly for `set` with a truthy `name`; with that name, when the store has written it, the name is taken, `updated` becomes `now`, `lastupdated` the high-water mark, `prev` the new snapshot and the log grows by the dedup decision; otherwise the device, `lastupdated` and the log do not change |
| `Command.ValidatePerformAsWritten` | steward/core/device.js:328-347 | the source throws exactly for `set` with a non-empty body that parses to `null` |
| `Command.ValidateNullBodyThrows` | steward/core/device.js:342-344 | `validate_perform('set', 'null')` throws |
| `Command.ValidatePerform` | steward/core/device.js:328-347 | a non-`set` command gives `invalid=['perform']`; a missing body gives `requires=['parameter']`; an unparsable body gives `invalid=['parameter']` and `requires=['name']`; a parsed body gives no `invalid` entry, and `requires=['name']` unless it has a truthy `name`, in which case both lists are empty |
| `Command.ValidatePerformAgrees` | steward/core/device.js:328-347 | wherever the source answers, the corrected validation gives the same lists |
| `Command.PerformNameAsWritten` | steward/core/device.js:316-326 | the source's `perform` throws exactly for `set` with a body that parses to `null` |
| `Command.PerformNullBodyThrows` | steward/core/device.js:319-323 | `perform(self, taskID, 'set', 'null')` throws |
| `Command.PerformName` | steward/core/device.js:316-326 | a name reaches `setName` exactly for `set` with a truthy `params.name`; it is that value |
| `Command.PerformNameAgrees` | steward/core/device.js:316-326 | wherever the source's `perform` answers, the corrected one agrees |
| `Command.PerformAgreesWithValidation` | steward/core/device.js:316-347 | `perform` acts exactly on the requests that `validate_perform` passes with empty lists |
| `Bytes.TrimZeros` | steward/core/device.js:259-260 | the buffer without its trailing zero bytes: a prefix followed only by zeros, not itself ending in zero |
| `Bytes.Hex` | steward/core/device.js:260 | `toString('hex')` has two digits per byte |
| `Bytes.UnhexHex` | steward/core/device.js:262 | decoding the hex gives the buffer back |
| `Bytes.Nv` | steward/core/device.js:256-268 | the trimming loop returns the text of the trimmed buffer when something was trimmed and the rest is ASCII, else the hex of the whole buffer |
| `Bytes.NvUnpaddedIsHex` | steward/core/device.js:259-267 | a buffer without a trailing zero byte is always hex |
| `Bytes.HexAppend` | steward/core/device.js:260 | the hex of two buffers joined is the two hex texts joined |
| `Bytes.HexZeros` | steward/core/device.js:259-260 | zero bytes are written as `00` each |
| `Bytes.HexStripped` | steward/core/device.js:259-262 | stripping `00` from the end of the hex removes whole zero bytes: the hex of a buffer with a zero tail is the hex of its head followed by `0`s, and decoding that head's hex gives the head |
| `Bytes.NvStrippedBuffer` | steward/core/device.js:259-262 | the text the stripping loop leaves is the hex of the trimmed buffer, and `new Buffer(h, 'hex')` gives the trimmed buffer |
| `Bytes.NvTextRoundTrip` | steward/core/device.js:259-265 | a text answer is ASCII, does not end in NUL, is shorter than the buffer, and with the stripped zeros appended gives the buffer back |
| `Scales.FloorDiv` | steward/core/device.js:364 | `Math.floor(a / b)` for either sign of `b` |
| `Scales.Round` | steward/core/device.js:369 | `Math.round(a / b)`, halves rounded up |
| `Scales.BoundedValue` | steward/core/device.js:358-360 | for `lower <= upper` the result is in range, is `value` when `value` is in range, and is the point of the range nearest `value` |
| `Scales.PercentageValue` | steward/core/device.js:363-365 | for `maximum > 0` the result is in `[0, 100]`, and for an in-range value it is the floor of `value * 100 / maximum` |
| `Scales.ScaledPercentage` | steward/core/device.js:368-370 | the result is in `[minimum, maximum]`; for a range holding 0 and a percentage in `[0, 100]` it is the rounded `percentage * maximum / 100` |
| `Scales.DegreesValue` | steward/core/device.js:373-375 | for `maximum > 0` the result is in `[0, 360]`, and for an in-range value it is the floor of `value * 360 / maximum` |
| `Scales.Normalize` | steward/core/device.js:379-380 | the two loops bring the degrees into `[0, 360)` by whole turns |
| `Scales.ScaledDegrees` | steward/core/device.js:378-383 | the normalised degrees scaled to `maximum` and clamped; for `maximum >= 0` the result is in `[0, maximum]` |
| `Scales.ScaledDegreesUnclamped` | steward/core/device.js:382 | for `maximum >= 0` the final clamp never changes the rounded value |
| `Scales.RoundScaled` | steward/core/device.js:369 | rounding `x * maximum / base` for `x` in `[0, base]` stays in `[0, maximum]` |
| `Text.IndexOf2` | steward/core/device.js:404 | `indexOf` of a two-character marker: the first index where it starts, or -1 when there is none |
| `Text.Split` | steward/core/device.js:414 | `split` never gives an empty list, gives at least two parts when the separator occurs, and no part holds the separator |
| `Text.SplitCons` | steward/core/device.js:414 | the text before the first separator is the first part, and the parts of the rest follow |
| `Text.JoinSplit` | steward/core/device.js:414 | joining the parts of a split gives the string back |
| `Expansion.Expand` | steward/core/device.js:400-442 | the while loop terminates and returns the expansion of `line` |
| `Expansion.ReadFields` | steward/core/device.js:428-436 | the field loop gives the value the segments read left to right |
| `Expansion.FieldsAllHit` | steward/core/device.js:430-436 | when every segment can be read, the last one's value wins |
| `Expansion.FieldsFirstMiss` | steward/core/device.js:430-436 | reading stops at the first segment that is neither `name`, `status` nor a truthy `info` entry, keeping the value before it (or `''`) |
| `Expansion.ExpandedNoClose` | steward/core/device.js:404-412 | a line without `].` comes back unchanged |
| `Expansion.ExpandedReference` | steward/core/device.js:404-438 | the first complete reference is replaced by its value, the text before it is kept, and expansion goes on after its `].` |
| `Expansion.ExpandedDefaultName` | steward/core/device.js:417 | `.[.name].` expands to the default entity's name |
| `Expansion.ExpandedUnresolved` | steward/core/device.js:414-427 | a reference whose head names no entity (no default, an unknown `category/id`, an unknown device id) becomes just `.[`; its body, field segments included, and its `].` are dropped |
| `Expansion.ExpandedDeviceField` | steward/core/device.js:422-438 | `.[id.field].` for a known bare device id becomes that field of the device as text, or nothing when the field cannot be read |
| `Expansion.ReferenceDeviceField` | steward/core/device.js:414-437 | the body `id.field` of a known bare device id reads that one field |
| `Expansion.ExpandedUnknownDevice` | steward/core/device.js:422-427 | in particular `.[id].` and `.[id.field…].` for a device id the registry does not know become just `.[` |

## Findings

| source | as written | input that shows it | evidently intended | confidence | as-written member | corrected member |
|---|---|---|---|---|---|---|
| steward/core/device.js:342-344 | `params` is `null` when the body parses to `null`, and `params.name` then throws a `TypeError` out of `validate_perform` | `validate_perform('set', 'null')` | a structured answer, `requires=['name']`, as for any body without a name | medium, not executed | `Command.ValidateNullBodyThrows` | `Command.ValidatePerform` |
| steward/core/device.js:319-323 | the same `null` makes `params.name` throw out of `perform` | `perform(self, taskID, 'set', 'null')` | answer `false`, as for a body without a name | medium, not executed | `Command.PerformNullBodyThrows` | `Command.PerformName` |

The rest of the model (`Devices.Perform`) uses the corrected members.

## Left out

- `exports.start` (steward/core/device.js:57-97) is not modelled. It covers module loading, the retry timer, registering the `device` actor, and the `ping` batch. The batch re-reads `prev` with `JSON.parse` and works with `Date` objects.
- Database work is not modelled: the SQL in `discover`, `getName`, `setName` and `setInfo`. Their outcomes are method arguments instead.
- `getName` and `setInfo` are not modelled as operations. Each one only passes a store answer on to `changed`.
- `traverse` prints to the console, and `rainbow` is a table of constants. Neither is modelled.
- Filling `ipaddress` from `url.parse(info.url)` (line 129) is not modelled. Nothing in the core reads it.
- Caching `Device.prototype.proplist` on the slot (lines 146 and 165) is not modelled.
- `Snapshots.SnapshotOf`: `info.lastSample` is kept as stored. In the source, `proplist()` wraps a truthy `lastSample` in a `Date` (line 192), so the snapshot, the text `changed` compares (`stringify` writes the date as text) and the `info` that `alert` publishes carry a `Date` (or an invalid one for a non-numeric value). Line 284 looks for `lastSample` on the snapshot's top level, where there is none, so it converts nothing back.
- `Devices.Registry.Resume`: the maker is not modelled as a factory. The model's maker sets `deviceID` to the stored id, `deviceUID` to the unique id, `whatami` to the resolved device type, `name` to the discovery's name, status `unknown`, no elided keys, an empty `info` and no children. The base constructor (lines 174-180) sets only `whatami = '/device'`, `status` and `elide`; each driver's own constructor sets the rest, and those constructors are not part of this model.
- `Devices.Registry.Resume`: the callback and the new slot come back together. In the source, on the row-found path the callback `(null, null)` runs before the device is stored (lines 143-145); on the insert path it runs after (lines 164-168). A caller that looks the device up from inside the callback sees the difference.
- `Devices.Registry.order`: `for … in` in V8 first visits the keys that are array indices (a unique id such as `1234`) in ascending numeric order, then the other keys in insertion order. The model always uses insertion order, so the first match of `id2device` and the order of `idlist()` follow the source only for unique ids that are not array indices.
- `Devices.Registry.Discover` / `Resume`: the ids the store hands out are written as their decimal text. `id2device` compares ids with `===`, which the model reads as string equality.
- `Devices.Device.Changed` / `Alert`: `now` is the time after `now \|\| new Date()` has been worked out. The clock is an argument.
- `Devices.Count`, `Devices.Registry.Discover`, `Devices.ResolveType`, `Expansion.Read`, `Snapshots.Redact`: keys inherited from `Object.prototype` (`constructor`, `toString`, …) are not modelled. In `review`, a status such as `toString` finds such a key in the lookup table and adds a stray key to the result; the model only knows the four statuses in the table. In `expand`, `!!info[part]` (line 434) reads such a key as a truthy field; in `proplist`, `!!info[self.elide[i]]` (line 191) masks such a key as a new own `'********'` entry. In `discover`, `!!devices[deviceUID]` (line 124) takes a unique id such as `constructor` for a known one, answers `(null, null)` and reserves nothing, where the model reserves a slot. `makers[...]` (lines 132-133) likewise finds a maker for a device type such as `toString`. The model reads only a map's own keys.
- `ResolveType`: for the reason just given, a `deviceType` that names an `Object.prototype` key counts as having a maker in the source, but not in the model.
- `Expansion.Reference`: the model assumes that every actor category has a `$lookup` and every entity has an `info` bag. The source throws when either is missing.
- `Snapshots.Dedup`: bodies are compared as values where the source compares the `json-stringify-safe` text of `info` (lines 287-288). Entries holding `undefined` are dropped before the comparison, as `stringify` drops them. An object-valued entry carries its serialised text (`Obj(json)`), so nested changes are seen. Non-integer numbers such as a reading of 21.5 cannot be held, and key order, which `stringify` sees, is not: two bags with the same entries in a different order are equal in the model and differ in the source.
- `Values.ToText`: only integers, strings, booleans, `null`, `undefined` and plain objects are converted. Arrays and non-integer numbers are not.
- `Scales.PercentageValue` / `Scales.DegreesValue`: they require `maximum != 0`. In the source, 0 divided by 0 gives `NaN`, and the model has no such value.
- `Scales.BoundedValue`: the `isNaN` test is not modelled, because all values are integers.
- `EventEmitter` is not modelled, nor is delivery to the broker's handlers. A publication is just appended to `Broker.log`.
