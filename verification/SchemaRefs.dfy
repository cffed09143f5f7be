/**
 Models backend/scripts/generate-openapi.js: collecting every schema a JSON
 value refers to, directly or through other schemas, and cutting an OpenAPI
 document down to its /company paths and the schemas those need.

 A JSON object is its entries in `Object.keys` order.
 */
module SchemaRefs {
  import opened Wrappers

  datatype Json =
    | Null
    | Bool(b: bool)
    | Num(n: int)
    | Str(s: string)
    | Arr(items: seq<Json>)
    | Obj(entries: seq<(string, Json)>)

  /** The `components.schemas` table; a name that is not a key is `undefined`. */
  type Schemas = map<string, Json>

  // ----- what a single reference is -----

  const REF_PREFIX := "#/components/schemas/"

  /** The characters a JavaScript `.` does not match. */
  predicate IsLineTerminator(c: char) {
    c == '\n' || c == '\r' || c as int == 0x2028 || c as int == 0x2029
  }

  /** What `/^#\/components\/schemas\/(.+)$/` captures, if it matches. */
  function RefName(s: string): (r: Option<string>)
    ensures r.Some? <==> exists name: string :: s == REF_PREFIX + name && name != "" && forall c | c in name ::
        !IsLineTerminator(c)
    ensures r.Some? ==> s == REF_PREFIX + r.value
  {
    if REF_PREFIX <= s && |s| > |REF_PREFIX| && forall c | c in s[|REF_PREFIX|..] :: !IsLineTerminator(c) then
      assert s == REF_PREFIX + s[|REF_PREFIX|..];
      Some(s[|REF_PREFIX|..])
    else
      assert forall name: string | s == REF_PREFIX + name :: s[|REF_PREFIX|..] == name;
      None
  }

  /** `value[key]`, `None` for `undefined`. */
  function Lookup(entries: seq<(string, Json)>, key: string): (r: Option<Json>)
    ensures r.Some? ==> (key, r.value) in entries
    ensures r.None? <==> forall e | e in entries :: e.0 != key
  {
    if entries == [] then None
    else if entries[0].0 == key then Some(entries[0].1)
    else
      assert forall e | e in entries :: e == entries[0] || e in entries[1..];
      Lookup(entries[1..], key)
  }

  /** The schema an object's own `$ref` names. */
  function OwnRef(entries: seq<(string, Json)>): Option<string> {
    var ref := Lookup(entries, "$ref");
    if ref.Some? && ref.value.Str? then RefName(ref.value.s) else None
  }

  function OwnRefs(entries: seq<(string, Json)>): set<string> {
    if OwnRef(entries).Some? then {OwnRef(entries).value} else {}
  }

  // ----- the reference graph -----

  /** Every schema name that occurs in a `$ref` somewhere inside `v`, without following any. */
  function Refs(v: Json): set<string> {
    match v
    case Arr(items) => set i, n | 0 <= i < |items| && n in Refs(items[i]) :: n
    case Obj(entries) =>
      OwnRefs(entries) +
      set i, n | 0 <= i < |entries| && n in Refs(entries[i].1) :: n
    case _ => {}
  }

  // ----- the same, said of positions instead of by recursion -----

  /** The value at a position: at each step, which item or which entry to go into. */
  function At(v: Json, position: seq<nat>): Option<Json>
    decreases |position|
  {
    if position == [] then Some(v)
    else
      match v
      case Arr(items) => if position[0] < |items| then At(items[position[0]], position[1..]) else None
      case Obj(entries) => if position[0] < |entries| then At(entries[position[0]].1, position[1..]) else None
      case _ => None
  }

  /** An object whose `$ref` is a string that names this schema. */
  ghost predicate NamesSchema(v: Json, n: string) {
    && v.Obj?
    && n != "" && (forall c | c in n :: c != '\n' && c != '\r' && c as int != 0x2028 && c as int != 0x2029)
    && exists i :: 0 <= i < |v.entries| && v.entries[i] == ("$ref", Str("#/components/schemas/" + n))
         && forall j | 0 <= j < i :: v.entries[j].0 != "$ref"
  }

  /** Such an object is somewhere inside `v`. */
  ghost predicate Mentions(v: Json, n: string) {
    exists position: seq<nat> :: At(v, position).Some? && NamesSchema(At(v, position).value, n)
  }

  lemma {:induction false} LookupIsFirst(entries: seq<(string, Json)>, key: string, value: Json)
    ensures Lookup(entries, key) == Some(value) <==>
      exists i :: 0 <= i < |entries| && entries[i] == (key, value) && forall j | 0 <= j < i :: entries[j].0 != key
  {
    if entries == [] {
    } else if entries[0].0 == key {
      if entries[0].1 == value {
        assert entries[0] == (key, value);
      }
    } else {
      LookupIsFirst(entries[1..], key, value);
      if i :| 0 <= i < |entries[1..]| && entries[1..][i] == (key, value) && forall j | 0 <= j < i ::
          entries[1..][j].0 != key {
        assert entries[i + 1] == (key, value);
        assert forall j | 0 < j < i + 1 :: entries[j] == entries[1..][j - 1];
      }
      if i :| 0 <= i < |entries| && entries[i] == (key, value) && forall j | 0 <= j < i :: entries[j].0 != key {
        assert entries[1..][i - 1] == (key, value);
        assert forall j | 0 <= j < i - 1 :: entries[1..][j] == entries[j + 1];
      }
    }
  }

  lemma OwnRefNamesSchema(entries: seq<(string, Json)>, n: string)
    ensures n in OwnRefs(entries) <==> NamesSchema(Obj(entries), n)
  {
    LookupIsFirst(entries, "$ref", Str(REF_PREFIX + n));
    if n in OwnRefs(entries) {
      var s := Lookup(entries, "$ref").value.s;
      assert s == REF_PREFIX + n;
      RefNameExactly(s, n);
    }
    if NamesSchema(Obj(entries), n) {
      RefNameExactly(REF_PREFIX + n, n);
    }
  }

  lemma RefNameExactly(s: string, n: string)
    ensures RefName(s) == Some(n) <==>
      && s == "#/components/schemas/" + n
      && n != "" && forall c | c in n :: c != '\n' && c != '\r' && c as int != 0x2028 && c as int != 0x2029
  {
    if s == REF_PREFIX + n {
      assert s[|REF_PREFIX|..] == n;
    }
  }

  /** A name is among the references of a value exactly when it is mentioned at some position inside it. */
  lemma {:induction false} RefsAreMentions(v: Json, n: string)
    ensures n in Refs(v) <==> Mentions(v, n)
  {
    match v
    case Arr(items) =>
      forall i | 0 <= i < |items|
          ensures n in Refs(items[i]) <==> Mentions(items[i], n) { RefsAreMentions(items[i], n); }
      MentionsInParts(v, items, n);
    case Obj(entries) =>
      forall i | 0 <= i < |entries| ensures n in Refs(entries[i].1) <==> Mentions(entries[i].1, n) {
        RefsAreMentions(entries[i].1, n);
      }
      OwnRefNamesSchema(entries, n);
      MentionsInParts(v, Values(entries), n);
    case _ =>
      assert forall position: seq<nat> | At(v, position).Some? :: position == [];
  }

  /** The parts of a value are what a position goes into first. */
  ghost predicate HasParts(v: Json, parts: seq<Json>) {
    match v
    case Arr(items) => parts == items
    case Obj(entries) => |parts| == |entries| && forall i | 0 <= i < |parts| :: parts[i] == entries[i].1
    case _ => parts == []
  }

  lemma MentionsInParts(v: Json, parts: seq<Json>, n: string)
    requires HasParts(v, parts)
    ensures Mentions(v, n) <==> NamesSchema(v, n) || exists i :: 0 <= i < |parts| && Mentions(parts[i], n)
  {
    if Mentions(v, n) {
      var position: seq<nat> :| At(v, position).Some? && NamesSchema(At(v, position).value, n);
      if position != [] {
        assert At(parts[position[0]], position[1..]) == At(v, position);
        assert Mentions(parts[position[0]], n);
      }
    }
    if NamesSchema(v, n) {
      assert At(v, []) == Some(v);
    }
    if i :| 0 <= i < |parts| && Mentions(parts[i], n) {
      var position: seq<nat> :| At(parts[i], position).Some? && NamesSchema(At(parts[i], position).value, n);
      var longer: seq<nat> := [i] + position;
      assert longer[1..] == position && At(v, longer) == At(parts[i], position);
    }
  }

  /** A chain of mentions leads from `v` through the table to `name`; what the last name stands for need not exist. */
  ghost predicate Leads(schemas: Schemas, v: Json, name: string) {
    exists path: seq<string> :: IsMentionPath(schemas, v, path) && path[|path| - 1] == name
  }

  ghost predicate IsMentionPath(schemas: Schemas, v: Json, path: seq<string>) {
    && path != [] && Mentions(v, path[0])
    && forall i | 0 <= i < |path| - 1 :: path[i] in schemas && Mentions(schemas[path[i]], path[i + 1])
  }

  lemma RefStepsAgree(schemas: Schemas, name: string, next: string)
    ensures next in RefsOfSchema(schemas, name) <==> name in schemas && Mentions(schemas[name], next)
  {
    if name in schemas { RefsAreMentions(schemas[name], next); }
  }

  lemma PathsAgree(schemas: Schemas, v: Json, path: seq<string>)
    ensures IsRefPath(schemas, Refs(v), path) <==> IsMentionPath(schemas, v, path)
  {
    hide Mentions, Refs, RefsOfSchema;
    if path != [] {
      RefsAreMentions(v, path[0]);
      forall i | 0 <= i < |path| - 1
        ensures path[i + 1] in RefsOfSchema(schemas, path[i]) <==>
                path[i] in schemas && Mentions(schemas[path[i]], path[i + 1])
      {
        RefStepsAgree(schemas, path[i], path[i + 1]);
      }
      if IsMentionPath(schemas, v, path) {
        forall i | 0 <= i < |path| - 1 ensures path[i + 1] in RefsOfSchema(schemas, path[i]) {
          assert path[i] in schemas && Mentions(schemas[path[i]], path[i + 1]);
        }
      }
      if IsRefPath(schemas, Refs(v), path) {
        forall i | 0 <= i < |path| - 1 ensures path[i] in schemas && Mentions(schemas[path[i]], path[i + 1]) {
          assert path[i + 1] in RefsOfSchema(schemas, path[i]);
        }
      }
    }
  }

  lemma ReachableIsLeads(schemas: Schemas, v: Json, name: string)
    ensures Reachable(schemas, v, name) <==> Leads(schemas, v, name)
  {
    hide IsRefPath, IsMentionPath, Refs;
    if Reachable(schemas, v, name) {
      var path: seq<string> :| path != [] && IsRefPath(schemas, Refs(v), path) && path[|path| - 1] == name by {
        NonEmptyRefPath(schemas, v, name);
      }
      PathsAgree(schemas, v, path);
    }
    if Leads(schemas, v, name) {
      var path: seq<string> :| path != [] && IsMentionPath(schemas, v, path) && path[|path| - 1] == name by {
        NonEmptyMentionPath(schemas, v, name);
      }
      PathsAgree(schemas, v, path);
    }
  }

  lemma NonEmptyRefPath(schemas: Schemas, v: Json, name: string)
    requires Reachable(schemas, v, name)
    ensures exists path: seq<string> :: path != [] && IsRefPath(schemas, Refs(v), path) && path[|path| - 1] == name
  {
    hide Refs, RefsOfSchema;
  }

  lemma NonEmptyMentionPath(schemas: Schemas, v: Json, name: string)
    requires Leads(schemas, v, name)
    ensures exists path: seq<string> :: path != [] && IsMentionPath(schemas, v, path) && path[|path| - 1] == name
  {
    hide Mentions;
  }

  // ----- the reference graph, continued -----

  function RefsOfSchema(schemas: Schemas, name: string): set<string> {
    if name in schemas then Refs(schemas[name]) else {}
  }

  /** `s` contains what each of its own schemas refers to. */
  ghost predicate Closed(schemas: Schemas, s: set<string>) {
    forall n | n in s :: RefsOfSchema(schemas, n) <= s
  }

  /** `path` starts at a name in `from` and follows one `$ref` at each step. */
  ghost predicate IsRefPath(schemas: Schemas, from: set<string>, path: seq<string>) {
    && path != []
    && path[0] in from
    && forall i | 0 <= i < |path| - 1 :: path[i + 1] in RefsOfSchema(schemas, path[i])
  }

  /** The reference definition of what is needed: some chain of references leads from `v` to `name`. */
  ghost predicate Reachable(schemas: Schemas, v: Json, name: string) {
    exists path: seq<string> :: IsRefPath(schemas, Refs(v), path) && path[|path| - 1] == name
  }

  /** Every name the walk could ever meet; finite, which is what bounds the walk over a cyclic graph. */
  ghost function Universe(schemas: Schemas, v: Json): (u: set<string>)
    ensures Refs(v) <= u && forall n | n in schemas :: Refs(schemas[n]) <= u
  {
    Refs(v) + set n, m | n in schemas && m in Refs(schemas[n]) :: m
  }

  lemma ReachableIsClosed(schemas: Schemas, v: Json, name: string)
    requires Reachable(schemas, v, name)
    ensures forall m | m in RefsOfSchema(schemas, name) :: Reachable(schemas, v, m)
  {
    var path :| IsRefPath(schemas, Refs(v), path) && path[|path| - 1] == name;
    forall m | m in RefsOfSchema(schemas, name) ensures Reachable(schemas, v, m) {
      assert IsRefPath(schemas, Refs(v), path + [m]);
    }
  }

  /** A path never leaves a closed set that holds its start. */
  lemma {:induction false} PathStaysInside(schemas: Schemas, from: set<string>, path: seq<string>, s: set<string>)
    requires IsRefPath(schemas, from, path) && from <= s && Closed(schemas, s)
    ensures path[|path| - 1] in s
  {
    if |path| == 1 {
    } else {
      var shorter := path[..|path| - 1];
      PathStaysInside(schemas, from, shorter, s);
      assert path[|path| - 2 + 1] in RefsOfSchema(schemas, path[|path| - 2]);
    }
  }

  // ----- the walk -----

  /** The JavaScript `Set` all recursive calls share. */
  class Found {
    var names: set<string>

    constructor ()
      ensures names == {}
    {
      names := {};
    }
  }

  /** What a walk over `v` may add: nothing outside any closed set that holds the references in `v`. */
  ghost predicate AddsOnlyNeeded(schemas: Schemas, refs: set<string>, before: set<string>, after: set<string>) {
    forall s: set<string> | refs <= s && Closed(schemas, s) :: after <= before + s
  }

  /** The contract of every call, nested ones included: `before` may hold names whose schemas are still being walked. */
  ghost predicate Walked(schemas: Schemas, refs: set<string>, before: set<string>, after: set<string>) {
    && before <= after
    && refs <= after
    && (forall n | n in after - before :: RefsOfSchema(schemas, n) <= after)
    && AddsOnlyNeeded(schemas, refs, before, after)
  }

  lemma WalkedTwice(schemas: Schemas, refs1: set<string>, refs2: set<string>, s0: set<string>, s1: set<string>,
      s2: set<string>)
    requires Walked(schemas, refs1, s0, s1) && Walked(schemas, refs2, s1, s2)
    ensures Walked(schemas, refs1 + refs2, s0, s2)
  {
    forall n | n in s2 - s0 ensures RefsOfSchema(schemas, n) <= s2 {
      if n in s1 { assert n in s1 - s0; } else { assert n in s2 - s1; }
    }
    forall s: set<string> | refs1 + refs2 <= s && Closed(schemas, s) ensures s2 <= s0 + s {
      assert s1 <= s0 + s;
      assert s2 <= s1 + s;
    }
  }

  /** Following one reference: the name is added, then its schema is walked. */
  lemma WalkedRef(schemas: Schemas, name: string, s0: set<string>, s1: set<string>)
    requires name !in s0
    requires Walked(schemas, RefsOfSchema(schemas, name), s0 + {name}, s1)
    ensures Walked(schemas, {name}, s0, s1)
  {
    forall n | n in s1 - s0 ensures RefsOfSchema(schemas, n) <= s1 {
      if n != name { assert n in s1 - (s0 + {name}); }
    }
    forall s: set<string> | {name} <= s && Closed(schemas, s) ensures s1 <= s0 + s {
      assert name in s;
      assert RefsOfSchema(schemas, name) <= s;
      assert s1 <= s0 + {name} + s;
    }
  }

  ghost function RefsOfItems(items: seq<Json>): set<string> {
    set i, n | 0 <= i < |items| && n in Refs(items[i]) :: n
  }

  ghost function Values(entries: seq<(string, Json)>): (r: seq<Json>)
    ensures |r| == |entries| && forall i | 0 <= i < |entries| :: r[i] == entries[i].1
  {
    seq(|entries|, i requires 0 <= i < |entries| => entries[i].1)
  }

  lemma RefsOfOneMoreItem(items: seq<Json>, i: nat)
    requires i < |items|
    ensures RefsOfItems(items[..i + 1]) == RefsOfItems(items[..i]) + Refs(items[i])
  {
    var longer := items[..i + 1];
    forall n | n in RefsOfItems(items[..i]) + Refs(items[i]) ensures n in RefsOfItems(longer) {
      if n in Refs(items[i]) {
        assert n in Refs(longer[i]);
      } else {
        var k :| 0 <= k < i && n in Refs(items[..i][k]);
        assert n in Refs(longer[k]);
      }
    }
    forall n | n in RefsOfItems(longer) ensures n in RefsOfItems(items[..i]) + Refs(items[i]) {
      var k :| 0 <= k <= i && n in Refs(longer[k]);
      if k < i { assert n in Refs(items[..i][k]); }
    }
  }

  /**
   The recursive walk. `universe` only bounds it: each followed reference adds
   a name of it to `found`, and every other call goes to a part of `value`.
   */
  method CollectSchemaRefs(value: Json, schemas: Schemas, found: Found, ghost universe: set<string>)
    requires Refs(value) <= universe
    requires forall n | n in schemas :: Refs(schemas[n]) <= universe
    modifies found
    ensures Walked(schemas, Refs(value), old(found.names), found.names)
    decreases universe - found.names, value, 1
  {
    ghost var before := found.names;
    if value.Arr? {
      for i := 0 to |value.items|
        invariant Walked(schemas, RefsOfItems(value.items[..i]), before, found.names)
      {
        ghost var mid := found.names;
        CollectSchemaRefs(value.items[i], schemas, found, universe);
        WalkedTwice(schemas, RefsOfItems(value.items[..i]), Refs(value.items[i]), before, mid, found.names);
        RefsOfOneMoreItem(value.items, i);
      }
      assert value.items[..|value.items|] == value.items;
    } else if value.Obj? {
      FollowOwnRef(value, schemas, found, universe);
      ghost var own := found.names;
      ghost var values := Values(value.entries);
      for i := 0 to |value.entries|
        invariant Walked(schemas, RefsOfItems(values[..i]), own, found.names)
      {
        ghost var mid := found.names;
        CollectSchemaRefs(value.entries[i].1, schemas, found, universe);
        WalkedTwice(schemas, RefsOfItems(values[..i]), Refs(values[i]), own, mid, found.names);
        RefsOfOneMoreItem(values, i);
      }
      assert values[..|value.entries|] == values;
      WalkedTwice(schemas, OwnRefs(value.entries), RefsOfItems(values), before, own, found.names);
    }
  }

  /** The `$ref` branch: a name met for the first time is recorded before its schema is walked. */
  method FollowOwnRef(value: Json, schemas: Schemas, found: Found, ghost universe: set<string>)
    requires value.Obj? && OwnRefs(value.entries) <= universe
    requires forall n | n in schemas :: Refs(schemas[n]) <= universe
    modifies found
    ensures Walked(schemas, OwnRefs(value.entries), old(found.names), found.names)
    decreases universe - found.names, value, 0
  {
    ghost var before := found.names;
    var name := OwnRef(value.entries);
    if name.Some? && name.value !in found.names {
      found.names := found.names + {name.value};
      if name.value in schemas {
        assert name.value in universe - before;
        CollectSchemaRefs(schemas[name.value], schemas, found, universe);
      }
      WalkedRef(schemas, name.value, before, found.names);
    }
  }

  /** The top-level call: an empty `found`, and a bound that always exists. */
  method CollectFrom(value: Json, schemas: Schemas) returns (names: set<string>)
    ensures forall n :: n in names <==> Leads(schemas, value, n)
    ensures forall n :: n in names <==> Reachable(schemas, value, n)
  {
    var found := new Found();
    CollectSchemaRefs(value, schemas, found, Universe(schemas, value));
    WalkFindsExactlyTheReachable(schemas, value, found.names);
    names := found.names;
    forall n ensures Reachable(schemas, value, n) <==> Leads(schemas, value, n) {
      ReachableIsLeads(schemas, value, n);
    }
  }

  /** Every name found is reached by some chain: the reachable names are themselves closed. */
  lemma WalkFindsOnlyReachable(schemas: Schemas, v: Json, names: set<string>)
    requires Walked(schemas, Refs(v), {}, names)
    ensures forall n | n in names :: Reachable(schemas, v, n)
  {
    var reachable := set n | n in Universe(schemas, v) && Reachable(schemas, v, n);
    forall n | n in Refs(v) ensures n in reachable {
      assert IsRefPath(schemas, Refs(v), [n]) && [n][0] == n;
    }
    forall n | n in reachable ensures RefsOfSchema(schemas, n) <= reachable {
      ReachableIsClosed(schemas, v, n);
    }
    assert names <= {} + reachable;
  }

  /** Started with nothing found, the walk leaves exactly the reachable names, dangling ones included. */
  lemma WalkFindsExactlyTheReachable(schemas: Schemas, v: Json, names: set<string>)
    requires Walked(schemas, Refs(v), {}, names)
    ensures forall n :: n in names <==> Reachable(schemas, v, n)
    ensures forall n :: n in names <==> Leads(schemas, v, n)
  {
    forall n ensures Reachable(schemas, v, n) <==> Leads(schemas, v, n) {
      ReachableIsLeads(schemas, v, n);
    }
    hide Leads;
    WalkFindsOnlyReachable(schemas, v, names);
    assert Closed(schemas, names) by {
      assert forall n | n in names :: n in names - {};
    }
    forall n | Reachable(schemas, v, n) ensures n in names {
      var path :| IsRefPath(schemas, Refs(v), path) && path[|path| - 1] == n;
      PathStaysInside(schemas, Refs(v), path, names);
    }
  }

  // ----- the scoped document -----

  /** `{ ...doc.components }`: the schemas and the other component kinds, which are carried over unread. */
  datatype Components = Components(schemas: Option<seq<(string, Json)>>, others: seq<(string, Json)>)

  /** The parts of an OpenAPI document the script touches, and `rest` for those it copies. */
  datatype Doc = Doc(title: string, description: Option<string>, paths: seq<(string, Json)>,
      components: Option<Components>, rest: seq<(string, Json)>)

  predicate IsCompanyPath(p: string) {
    "/company/" <= p || p == "/company"
  }

  /** `Object.fromEntries(Object.entries(o).filter(([k]) => keep(k)))`. */
  function Keep(entries: seq<(string, Json)>, keep: string -> bool): (r: seq<(string, Json)>)
    ensures forall e :: e in r <==> e in entries && keep(e.0)
    ensures |r| <= |entries|
  {
    if entries == [] then []
    else (if keep(entries[0].0) then [entries[0]] else []) + Keep(entries[1..], keep)
  }

  lemma {:induction false} KeepTwice(entries: seq<(string, Json)>, keep1: string -> bool, keep2: string -> bool)
    ensures (forall e | e in entries && keep1(e.0) :: keep2(e.0))
        ==> Keep(Keep(entries, keep1), keep2) == Keep(entries, keep1)
  {
    if entries == [] {
    } else {
      KeepTwice(entries[1..], keep1, keep2);
      var tail := Keep(entries[1..], keep1);
      if keep1(entries[0].0) {
        assert Keep(entries, keep1) == [entries[0]] + tail;
        assert ([entries[0]] + tail)[1..] == tail;
      } else {
        assert Keep(entries, keep1) == tail;
      }
    }
  }

  /** `(doc.components && doc.components.schemas) || {}`. */
  function SchemaEntries(doc: Doc): seq<(string, Json)> {
    if doc.components.Some? && doc.components.value.schemas.Some? then doc.components.value.schemas.value else []
  }

  /** Reading `schemas[name]`. */
  function AsTable(entries: seq<(string, Json)>): Schemas {
    map e | e in entries :: e.0 := Lookup(entries, e.0).value
  }

  /** The table a list of entries stands for: under each key the value listed first. */
  lemma TableExactly(entries: seq<(string, Json)>, name: string, value: Json)
    ensures name in AsTable(entries) <==> exists e :: e in entries && e.0 == name
    ensures (name in AsTable(entries) && AsTable(entries)[name] == value) <==>
      exists i :: 0 <= i < |entries| && entries[i] == (name, value) && forall j | 0 <= j < i :: entries[j].0 != name
  {
    LookupIsFirst(entries, name, value);
  }

  const SCOPED_TITLE_SUFFIX := " - Company API"
  const SCOPED_DESCRIPTION :=
    "Scoped to just the /company/* endpoints (CompanyController): company " +
    "CRUD, access groups, physical assets (CompanyAsset/GateWay/Server), " +
    "and factory-keyed lookups. See openapi.yaml for the full API surface."

  function InSet(names: set<string>): string -> bool {
    n => n in names
  }

  /** `used` is what the kept paths need, and the schemas of `scoped` are those of `doc` with such a name. */
  ghost predicate IsScoping(doc: Doc, scoped: Doc, used: set<string>) {
    && scoped.paths == Keep(doc.paths, IsCompanyPath)
    && (forall n :: n in used <==> Reachable(AsTable(SchemaEntries(doc)), Obj(scoped.paths), n))
    && SchemaEntries(scoped) == Keep(SchemaEntries(doc), InSet(used))
  }

  method BuildCompanyScopedDoc(doc: Doc) returns (scoped: Doc, ghost used: set<string>)
    ensures IsScoping(doc, scoped, used)
    ensures forall e :: e in scoped.paths <==> e in doc.paths && (e.0 == "/company" || "/company/" <= e.0)
    ensures scoped.components.Some? && scoped.components.value.schemas.Some?
    ensures doc.components.None? || doc.components.value.schemas.None? ==> scoped.components.value.schemas.value == []
    ensures doc.components.Some? && doc.components.value.schemas.Some? ==>
              forall e :: e in scoped.components.value.schemas.value <==>
                e in doc.components.value.schemas.value
                && Leads(AsTable(doc.components.value.schemas.value), Obj(scoped.paths), e.0)
    ensures scoped.components.value.others == if doc.components.Some? then doc.components.value.others else []
    ensures scoped.title == doc.title + " - Company API"
    ensures scoped.description == Some(SCOPED_DESCRIPTION) && scoped.rest == doc.rest
  {
    var paths := Keep(doc.paths, IsCompanyPath);
    var allSchemas := AsTable(SchemaEntries(doc));
    var usedSchemas := CollectFrom(Obj(paths), allSchemas);
    used := usedSchemas;
    var schemas := Keep(SchemaEntries(doc), InSet(usedSchemas));
    scoped := Doc(
      doc.title + SCOPED_TITLE_SUFFIX,
      Some(SCOPED_DESCRIPTION),
      paths,
      Some(Components(Some(schemas), if doc.components.Some? then doc.components.value.others else [])),
      doc.rest);
  }

  lemma {:induction false} LookupAfterKeep(entries: seq<(string, Json)>, keep: string -> bool, key: string)
    ensures Lookup(Keep(entries, keep), key) == if keep(key) then Lookup(entries, key) else None
  {
    if entries == [] {
    } else {
      LookupAfterKeep(entries[1..], keep, key);
      var tail := Keep(entries[1..], keep);
      if keep(entries[0].0) {
        assert Keep(entries, keep)[1..] == tail;
      } else {
        assert Keep(entries, keep) == tail;
      }
    }
  }

  lemma TableAfterKeep(entries: seq<(string, Json)>, keep: string -> bool)
    ensures forall n :: n in AsTable(Keep(entries, keep)) <==> n in AsTable(entries) && keep(n)
    ensures forall n | n in AsTable(Keep(entries, keep)) :: AsTable(Keep(entries, keep))[n] == AsTable(entries)[n]
  {
    forall n
      ensures n in AsTable(Keep(entries, keep)) <==> n in AsTable(entries) && keep(n)
      ensures n in AsTable(Keep(entries, keep)) ==> AsTable(Keep(entries, keep))[n] == AsTable(entries)[n]
    {
      LookupAfterKeep(entries, keep, n);
    }
  }

  /** Filtering takes the entries one by one and keeps their order. */
  lemma KeepIsOneByOne(e: (string, Json), rest: seq<(string, Json)>, keep: string -> bool)
    ensures Keep([], keep) == []
    ensures Keep([e] + rest, keep) == (if keep(e.0) then [e] else []) + Keep(rest, keep)
  {
    assert ([e] + rest)[1..] == rest;
  }

  /** No dangling cut: whatever a kept path or a kept schema refers to is kept unchanged if the full document has it. */
  lemma ScopedDocIsSelfContained(doc: Doc, scoped: Doc, used: set<string>)
    requires IsScoping(doc, scoped, used)
    ensures var all, kept := AsTable(SchemaEntries(doc)), AsTable(SchemaEntries(scoped));
      && (forall n | n in kept :: n in all && kept[n] == all[n])
      && (forall n | Mentions(Obj(scoped.paths), n) && n in all :: n in kept)
      && (forall m, n | m in kept && Mentions(kept[m], n) && n in all :: n in kept)
  {
    var all, kept := AsTable(SchemaEntries(doc)), AsTable(SchemaEntries(scoped));
    KeptRefsAreUsed(doc, scoped, used);
    TableAfterKeep(SchemaEntries(doc), InSet(used));
    hide Mentions, Refs, IsScoping;
    forall n | Mentions(Obj(scoped.paths), n) ensures n in used {
      RefsAreMentions(Obj(scoped.paths), n);
    }
    forall m, n | m in kept && Mentions(kept[m], n) ensures n in used {
      RefsAreMentions(kept[m], n);
    }
  }

  lemma KeptRefsAreUsed(doc: Doc, scoped: Doc, used: set<string>)
    requires IsScoping(doc, scoped, used)
    ensures SchemaEntries(scoped) == Keep(SchemaEntries(doc), InSet(used))
    ensures Refs(Obj(scoped.paths)) <= used
    ensures var kept := AsTable(SchemaEntries(scoped)); forall m | m in kept :: Refs(kept[m]) <= used
  {
    var all, kept := AsTable(SchemaEntries(doc)), AsTable(SchemaEntries(scoped));
    TableAfterKeep(SchemaEntries(doc), InSet(used));
    forall n | n in Refs(Obj(scoped.paths)) ensures n in used {
      assert IsRefPath(all, Refs(Obj(scoped.paths)), [n]);
    }
    forall m, n | m in kept && n in Refs(kept[m]) ensures n in used {
      assert m in used;
      ReachableIsClosed(all, Obj(scoped.paths), m);
      assert n in RefsOfSchema(all, m);
    }
  }

  /** Nothing extra: a schema is kept exactly when the full document has it and the /company paths lead to it. */
  lemma ScopedDocIsMinimal(doc: Doc, scoped: Doc, used: set<string>, name: string)
    requires IsScoping(doc, scoped, used)
    ensures name in AsTable(SchemaEntries(scoped)) <==>
      name in AsTable(SchemaEntries(doc)) && Leads(AsTable(SchemaEntries(doc)), Obj(scoped.paths), name)
  {
    TableAfterKeep(SchemaEntries(doc), InSet(used));
    ReachableIsLeads(AsTable(SchemaEntries(doc)), Obj(scoped.paths), name);
    hide Leads, Reachable;
  }

  /** References found in the kept schemas alone lead as far as references found in all schemas. */
  lemma ReachInScoped(doc: Doc, scoped: Doc, used: set<string>, path: seq<string>)
    requires IsScoping(doc, scoped, used)
    requires IsRefPath(AsTable(SchemaEntries(doc)), Refs(Obj(scoped.paths)), path)
    ensures IsRefPath(AsTable(SchemaEntries(scoped)), Refs(Obj(scoped.paths)), path)
  {
    var all, kept := AsTable(SchemaEntries(doc)), AsTable(SchemaEntries(scoped));
    TableAfterKeep(SchemaEntries(doc), InSet(used));
    forall i | 0 <= i < |path| - 1 ensures path[i + 1] in RefsOfSchema(kept, path[i]) {
      assert path[i + 1] in RefsOfSchema(all, path[i]);
      assert IsRefPath(all, Refs(Obj(scoped.paths)), path[..i + 1]);
      assert path[..i + 1][|path[..i + 1]| - 1] == path[i];
      assert path[i] in used;
    }
  }

  /** Scoping an already scoped document keeps its paths and schemas as they are. */
  lemma ScopingIsIdempotent(doc: Doc, once: Doc, used1: set<string>, twice: Doc, used2: set<string>)
    requires IsScoping(doc, once, used1) && IsScoping(once, twice, used2)
    ensures twice.paths == once.paths && SchemaEntries(twice) == SchemaEntries(once)
  {
    KeepTwice(doc.paths, IsCompanyPath, IsCompanyPath);
    forall n | n in used1 ensures n in used2 {
      var path :| IsRefPath(AsTable(SchemaEntries(doc)), Refs(Obj(once.paths)), path) && path[|path| - 1] == n;
      ReachInScoped(doc, once, used1, path);
    }
    KeepTwice(SchemaEntries(doc), InSet(used1), InSet(used2));
  }
}
