/** `expand(line, defentity)`: the `.[entity.field…].` template expander.
    Entities are read through a `Scope`: the caller's default entity, the
    `$lookup` table of every actor category (`steward.actors`), and the
    device registry's `id2device` for a bare device id. */
module Expansion {
  import opened Values
  import opened Text

  /** What the expander reads of an entity. */
  datatype Entity = Entity(name: Value, status: string, info: map<string, Value>)

  datatype Scope = Scope(
    default: Option<Entity>,
    actors: map<string, map<string, Entity>>,
    devices: map<string, Entity>)

  /** The entity a reference's first segment names: empty for the default,
      `category/subID` through that category's lookup, otherwise a device id. */
  function Resolve(sc: Scope, head: string): Option<Entity> {
    if head == "" then sc.default
    else if '/' in head then
      var who := Split(head, '/');
      if who[0] in sc.actors && who[1] in sc.actors[who[0]] then Some(sc.actors[who[0]][who[1]])
      else None
    else if head in sc.devices then Some(sc.devices[head])
    else None
  }

  /** One field segment: `name` and `status` are entity fields, anything
      else must be a truthy `info` entry. */
  function Read(e: Entity, part: string): Option<Value> {
    if part == "name" then Some(e.name)
    else if part == "status" then Some(Str(e.status))
    else if part in e.info && Truthy(e.info[part]) then Some(e.info[part])
    else None
  }

  /** The field segments read left to right, each overwriting `acc`, until
      the first one that cannot be read. */
  function Fields(e: Entity, parts: seq<string>, acc: Value): Value
    decreases |parts|
  {
    if parts == [] then acc
    else
      match Read(e, parts[0])
      case None => acc
      case Some(v) => Fields(e, parts[1..], v)
  }

  /** What the text between `.[` and `].` is replaced by: the field value,
      or just `.[` when the entity cannot be resolved. */
  function Reference(sc: Scope, body: string): string {
    var parts := Split(body, '.');
    match Resolve(sc, parts[0])
    case None => ".["
    case Some(e) => ToText(Fields(e, parts[1..], Str("")))
  }

  /** The expansion of `line`, one `.[` at a time. */
  function Expanded(line: string, sc: Scope): string
    decreases |line|
  {
    var x := IndexOf2(line, '.', '[');
    if x < 0 then line
    else
      var rest := line[x + 2..];
      var y := IndexOf2(rest, ']', '.');
      if y < 0 then line[..x] + ".[" + Expanded(rest, sc)
      else line[..x] + Reference(sc, rest[..y]) + Expanded(rest[y + 2..], sc)
  }

  /** One step of `Expanded`, for a line holding a `.[`. */
  lemma {:induction false} ExpandedOpen(line: string, sc: Scope)
    requires IndexOf2(line, '.', '[') >= 0
    ensures var x := IndexOf2(line, '.', '[');
            var tail := line[x + 2..];
            var y := IndexOf2(tail, ']', '.');
            Expanded(line, sc) ==
              if y < 0 then line[..x] + ".[" + Expanded(tail, sc)
              else line[..x] + Reference(sc, tail[..y]) + Expanded(tail[y + 2..], sc)
  {
  }

  /** Re-association of the text emitted by one step of `expand`. */
  lemma Regroup(done: string, pre: string, emitted: string, next: string)
    ensures done + pre + emitted + next == done + (pre + emitted + next)
  {
  }

  /** `expand(line, defentity)`: consumes `line` and appends to `result`. */
  method Expand(line: string, sc: Scope) returns (result: string)
    ensures result == Expanded(line, sc)
  {
    result := "";
    var rest := line;
    while true
      invariant result + Expanded(rest, sc) == Expanded(line, sc)
      decreases |rest|
    {
      var x := IndexOf2(rest, '.', '[');
      if x < 0 {
        break;
      }
      ExpandedOpen(rest, sc);
      ghost var done, pre := result, rest[..x];
      if x > 0 {
        result := result + rest[..x];
      }
      assert result == done + pre;
      rest := rest[x + 2..];
      ghost var tail := rest;
      x := IndexOf2(rest, ']', '.');
      if x < 0 {
        result := result + ".[";
        Regroup(done, pre, ".[", Expanded(rest, sc));
        continue;
      }
      var parts := Split(rest[..x], '.');
      rest := rest[x + 2..];
      ghost var reference := Reference(sc, tail[..x]);
      var entity := Resolve(sc, parts[0]);
      if entity.None? {
        result := result + ".[";
        Regroup(done, pre, reference, Expanded(rest, sc));
        continue;
      }
      var field := ReadFields(entity.value, parts);
      result := result + ToText(field);
      Regroup(done, pre, reference, Expanded(rest, sc));
    }
    result := result + rest;
  }

  /** The `for` loop of `expand` over the field segments `parts[1..]`. */
  method ReadFields(e: Entity, parts: seq<string>) returns (field: Value)
    requires |parts| >= 1
    ensures field == Fields(e, parts[1..], Str(""))
  {
    field := Str("");
    var p := 1;
    while p < |parts|
      invariant 1 <= p <= |parts|
      invariant Fields(e, parts[p..], field) == Fields(e, parts[1..], Str(""))
    {
      var part := parts[p];
      assert parts[p..][1..] == parts[p + 1..];
      if part == "name" {
        field := e.name;
      } else if part == "status" {
        field := Str(e.status);
      } else if part in e.info && Truthy(e.info[part]) {
        field := e.info[part];
      } else {
        break;
      }
      p := p + 1;
    }
  }

  /** All field segments readable: the value of the last one. */
  lemma {:induction false} FieldsAllHit(e: Entity, parts: seq<string>, acc: Value)
    requires forall i :: 0 <= i < |parts| ==> Read(e, parts[i]).Some?
    ensures Fields(e, parts, acc) == if parts == [] then acc else Read(e, parts[|parts| - 1]).value
    decreases |parts|
  {
    if parts != [] {
      var tail := parts[1..];
      assert forall i :: 0 <= i < |tail| ==> tail[i] == parts[i + 1];
      FieldsAllHit(e, tail, Read(e, parts[0]).value);
    }
  }

  /** The first unreadable segment stops the reading: the value is that of
      the segment before it, or `acc` when it is the first. */
  lemma {:induction false} FieldsFirstMiss(e: Entity, parts: seq<string>, k: nat, acc: Value)
    requires k < |parts| && Read(e, parts[k]).None?
    requires forall i :: 0 <= i < k ==> Read(e, parts[i]).Some?
    ensures Fields(e, parts, acc) == if k == 0 then acc else Read(e, parts[k - 1]).value
    decreases k
  {
    if k > 0 {
      var tail := parts[1..];
      assert forall i :: 0 <= i < |tail| ==> tail[i] == parts[i + 1];
      FieldsFirstMiss(e, tail, k - 1, Read(e, parts[0]).value);
    }
  }

  /** A line without a closing `].` comes back unchanged: every `.[` in it
      is re-emitted. */
  lemma {:induction false} ExpandedNoClose(line: string, sc: Scope)
    requires IndexOf2(line, ']', '.') < 0
    ensures Expanded(line, sc) == line
    decreases |line|
  {
    var x := IndexOf2(line, '.', '[');
    if x >= 0 {
      var rest := line[x + 2..];
      NoOccurrenceInSuffix(line, x + 2, ']', '.');
      ExpandedNoClose(rest, sc);
      assert line == line[..x] + ".[" + rest;
    }
  }

  /** The first complete reference is replaced by its expansion: text before
      it without a `.[` is kept, and expansion goes on after the `].`. */
  lemma {:induction false} ExpandedReference(pre: string, body: string, after: string, sc: Scope)
    requires IndexOf2(pre, '.', '[') < 0
    requires IndexOf2(body, ']', '.') < 0
    ensures Expanded(pre + ".[" + body + "]." + after, sc) ==
              pre + Reference(sc, body) + Expanded(after, sc)
  {
    var tail := body + "]." + after;
    var line := pre + ".[" + tail;
    assert pre + ".[" + body + "]." + after == line;
    MarkerAt(pre, '.', '[', tail);
    MarkerAt(body, ']', '.', after);
    ExpandedOpen(line, sc);
  }

  /** A marker that `pre` does not hold is found right after `pre`. */
  lemma MarkerAt(pre: string, a: char, b: char, tail: string)
    requires a != b && IndexOf2(pre, a, b) < 0
    ensures var line := pre + [a, b] + tail;
            IndexOf2(line, a, b) == |pre| && line[..|pre|] == pre && line[|pre| + 2..] == tail
  {
    IndexOfAfter(pre, [a, b] + tail, a, b);
    MarkerFirst(a, b, tail);
    Slices(pre, [a, b], tail);
  }

  /** A line that starts with the marker finds it at 0. */
  lemma MarkerFirst(a: char, b: char, tail: string)
    ensures IndexOf2([a, b] + tail, a, b) == 0
  {
  }

  /** The pieces of `pre + mid + tail` are recovered by slicing. */
  lemma Slices(pre: string, mid: string, tail: string)
    ensures var line := pre + mid + tail;
            line == pre + (mid + tail) && line[..|pre|] == pre && line[|pre| + |mid|..] == tail
  {
    var line := pre + mid + tail;
    assert line[..|pre|] == pre;
    assert line[|pre| + |mid|..] == tail;
  }

  /** `.[.name].` expands to the default entity's name. */
  lemma {:induction false} ExpandedDefaultName(sc: Scope)
    requires sc.default.Some?
    ensures Expanded(".[.name].", sc) == ToText(sc.default.value.name)
  {
    assert IndexOf2("", '.', '[') < 0;
    NoFirstChar(".name", ']', '.');
    ExpandedReference("", ".name", "", sc);
    DefaultNameLine();
    ReferenceDefaultName(sc);
    assert Expanded("", sc) == "";
  }

  /** `.[.name].` is the reference with body `.name` and nothing around it. */
  lemma DefaultNameLine()
    ensures "" + ".[" + ".name" + "]." + "" == ".[.name]."
  {
    assert "" + ".[" == ".[";
    assert ".[" + ".name" == ".[.name";
    assert ".[.name" + "]." == ".[.name].";
    assert ".[.name]." + "" == ".[.name].";
  }

  /** The body `.name` reads the default entity's name. */
  lemma ReferenceDefaultName(sc: Scope)
    requires sc.default.Some?
    ensures Reference(sc, ".name") == ToText(sc.default.value.name)
  {
    SplitWithout("name", '.');
    assert ".name"[1..] == "name";
    assert Split(".name", '.') == ["", "name"];
  }

  /** A reference whose entity cannot be resolved (an unknown device id,
      an unknown `category/id`, or the default when there is none) is
      replaced by just `.[`: its body, field segments included, and the `].`
      vanish. */
  lemma {:induction false} ExpandedUnresolved(pre: string, body: string, after: string, sc: Scope)
    requires IndexOf2(pre, '.', '[') < 0
    requires IndexOf2(body, ']', '.') < 0
    requires Resolve(sc, Split(body, '.')[0]).None?
    ensures Expanded(pre + ".[" + body + "]." + after, sc) == pre + ".[" + Expanded(after, sc)
  {
    ExpandedReference(pre, body, after, sc);
  }

  /** In particular, a bare device id (`.[id].` or `.[id.field…].`) that
      the registry does not know. */
  lemma {:induction false} ExpandedUnknownDevice(pre: string, id: string, fields: string, after: string, sc: Scope)
    requires IndexOf2(pre, '.', '[') < 0
    requires id != "" && '/' !in id && '.' !in id && id !in sc.devices
    requires IndexOf2(id + fields, ']', '.') < 0
    requires fields == [] || fields[0] == '.'
    ensures Expanded(pre + ".[" + id + fields + "]." + after, sc) == pre + ".[" + Expanded(after, sc)
  {
    SplitHead(id, fields, '.');
    assert Resolve(sc, id).None?;
    ExpandedUnresolved(pre, id + fields, after, sc);
    assert pre + ".[" + (id + fields) == pre + ".[" + id + fields;
  }

  /** A known bare device id with one field segment, `.[id.field].`, is
      replaced by that field of the device, or by nothing when the field
      cannot be read. */
  lemma {:induction false} ExpandedDeviceField(pre: string, id: string, part: string, after: string, sc: Scope)
    requires IndexOf2(pre, '.', '[') < 0
    requires id != "" && '/' !in id && '.' !in id && id in sc.devices
    requires '.' !in part
    requires IndexOf2(id + "." + part, ']', '.') < 0
    ensures Expanded(pre + ".[" + id + "." + part + "]." + after, sc) ==
              pre + (match Read(sc.devices[id], part)
                     case Some(v) => ToText(v)
                     case None => "") + Expanded(after, sc)
  {
    ReferenceDeviceField(id, part, sc);
    ExpandedReference(pre, id + "." + part, after, sc);
    assert pre + ".[" + (id + "." + part) == pre + ".[" + id + "." + part;
  }

  /** The body `id.field` of a known bare device id reads that field. */
  lemma ReferenceDeviceField(id: string, part: string, sc: Scope)
    requires id != "" && '/' !in id && '.' !in id && id in sc.devices
    requires '.' !in part
    ensures Reference(sc, id + "." + part) ==
              match Read(sc.devices[id], part)
              case Some(v) => ToText(v)
              case None => ""
  {
    SplitCons(id, part, '.');
    SplitWithout(part, '.');
    var parts := Split(id + "." + part, '.');
    assert parts == [id, part];
    assert parts[1..] == [part] && [part][1..] == [];
    assert Resolve(sc, id) == Some(sc.devices[id]);
    assert Fields(sc.devices[id], [part], Str("")) ==
             match Read(sc.devices[id], part) case Some(v) => v case None => Str("");
  }
}
