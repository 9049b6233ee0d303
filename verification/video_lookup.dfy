/** The pop-up video player's index: a walk over the parsed `abc.json` tree that files every
    video entry under its lower-cased letter key, the selection of the entry for a
    `videoKey`, and the reading of an entry's `[start, end]` timing pair. */
module VideoLookup {
  import opened Options
  import opened Strings

  /** A parsed JSON value. An object keeps its members in the order `Object.entries` reports
      them. */
  datatype Json =
    | JNull
    | JBool(b: bool)
    | JNum(n: int)
    | JStr(s: string)
    | JArr(items: seq<Json>)
    | JObj(fields: seq<(string, Json)>)

  /** Truthy with `typeof` equal to `'object'`: an array or an object, never `null`. */
  predicate IsObject(j: Json) {
    j.JArr? || j.JObj?
  }

  predicate HasKey(fields: seq<(string, Json)>, key: string) {
    exists i :: 0 <= i < |fields| && fields[i].0 == key
  }

  /** A video entry: an object with both a `link` and a `label` member. An array has
      neither. */
  predicate IsEntry(j: Json) {
    j.JObj? && HasKey(j.fields, "link") && HasKey(j.fields, "label")
  }

  /** `JSON.parse` never yields an object with two members of the same name. */
  predicate UniqueKeys(j: Json)
    decreases j
  {
    match j
    case JArr(items) => forall i :: 0 <= i < |items| ==> UniqueKeys(items[i])
    case JObj(fields) =>
      && (forall i, l :: 0 <= i < l < |fields| ==> fields[i].0 != fields[l].0)
      && (forall i :: 0 <= i < |fields| ==> UniqueKeys(fields[i].1))
    case _ => true
  }

  /** One filed entry: the entry's own members, the keys of the objects above it (its
      `section` is their join), and its key in upper case. */
  datatype VideoEntry = VideoEntry(data: seq<(string, Json)>, ancestors: seq<string>, key: string)
  {
    function Section(): string {
      Join(ancestors, " / ")
    }
  }

  /** An entry together with the lower-cased key it is filed under. */
  datatype Record = Record(index: string, entry: VideoEntry)

  // ---------------------------------------------------------------------------------------
  // Navigation by keys, the reference for where a record came from

  /** The number of members `Object.entries` reports. */
  function Width(node: Json): nat {
    match node
    case JArr(items) => |items|
    case JObj(fields) => |fields|
    case _ => 0
  }

  /** The key of the `k`-th member: the decimal index for an array element. */
  function KeyAt(node: Json, k: nat): string
    requires k < Width(node)
  {
    match node
    case JArr(_) => NatToString(k)
    case JObj(fields) => fields[k].0
  }

  function ValueAt(node: Json, k: nat): Json
    requires k < Width(node)
  {
    match node
    case JArr(items) => items[k]
    case JObj(fields) => fields[k].1
  }

  /** The value of the first member named `key`. */
  function FieldValue(fields: seq<(string, Json)>, key: string): Option<Json> {
    if fields == [] then None
    else if fields[0].0 == key then Some(fields[0].1)
    else FieldValue(fields[1..], key)
  }

  /** The element an array returns for the property name `key`, searching from index `i`:
      only the canonical decimal spelling of an index names an element. */
  function ItemByKey(items: seq<Json>, key: string, i: nat): Option<Json>
    decreases |items| - i
  {
    if i >= |items| then None
    else if NatToString(i) == key then Some(items[i])
    else ItemByKey(items, key, i + 1)
  }

  /** `node[key]` for an own member of an array or an object. */
  function Child(node: Json, key: string): Option<Json> {
    match node
    case JArr(items) => ItemByKey(items, key, 0)
    case JObj(fields) => FieldValue(fields, key)
    case _ => None
  }

  /** `node[keys[0]][keys[1]]...`, or `None` when a key names no member. */
  function Locate(node: Json, keys: seq<string>): Option<Json>
    decreases |keys|
  {
    if keys == [] then Some(node)
    else
      match Child(node, keys[0])
      case None => None
      case Some(c) => Locate(c, keys[1..])
  }

  /** With distinct member names, the `k`-th member is found by its key. */
  lemma {:induction false} ChildAt(node: Json, k: nat)
    requires UniqueKeys(node) && k < Width(node)
    ensures Child(node, KeyAt(node, k)) == Some(ValueAt(node, k))
  {
    match node
    case JArr(items) => ItemFound(items, k, 0);
    case JObj(fields) => FieldFound(fields, k);
  }

  lemma {:induction false} ItemFound(items: seq<Json>, k: nat, i: nat)
    requires i <= k < |items|
    ensures ItemByKey(items, NatToString(k), i) == Some(items[k])
    decreases k - i
  {
    if i < k {
      if NatToString(i) == NatToString(k) {
        NatToStringInjective(i, k);
      }
      ItemFound(items, k, i + 1);
    }
  }

  lemma {:induction false} FieldFound(fields: seq<(string, Json)>, k: nat)
    requires k < |fields|
    requires forall i, l :: 0 <= i < l < |fields| ==> fields[i].0 != fields[l].0
    ensures FieldValue(fields, fields[k].0) == Some(fields[k].1)
  {
    if k > 0 {
      assert fields[0].0 != fields[k].0;
      var rest := fields[1..];
      assert forall i, l :: 0 <= i < l < |rest| ==> rest[i].0 != rest[l].0 by {
        forall i, l | 0 <= i < l < |rest|
          ensures rest[i].0 != rest[l].0
        {
          assert rest[i] == fields[i + 1] && rest[l] == fields[l + 1];
        }
      }
      FieldFound(rest, k - 1);
    }
  }

  /** Stepping into a child and then following `keys` is following `[key] + keys`. */
  lemma {:induction false} LocateThrough(node: Json, key: string, child: Json, keys: seq<string>)
    requires Child(node, key) == Some(child)
    ensures Locate(node, [key] + keys) == Locate(child, keys)
  {
    assert ([key] + keys)[1..] == keys;
  }

  // ---------------------------------------------------------------------------------------
  // The traversal

  /** `recordEntry(letterKey, entry, path)`: the entry filed under the lower-cased key, with
      the upper-cased key and the path it was found under. */
  function RecordOf(key: string, value: Json, path: seq<string>): (r: Record)
    requires value.JObj?
    ensures r.index == Lower(r.entry.key) && r.entry.data == value.fields
    ensures r.entry.ancestors == path
  {
    LowerOfUpper(key);
    Record(Lower(key), VideoEntry(value.fields, path, Upper(key)))
  }

  /** `path` is where `r` was found, below the node the walk started from. */
  predicate Below(path: seq<string>, r: Record) {
    |path| <= |r.entry.ancestors| && r.entry.ancestors[..|path|] == path
  }

  /** A record keeps the promises of `recordEntry`: it is filed under the lower case of its
      key, it is an entry, and it was found under `path`. */
  predicate WellFiled(path: seq<string>, r: Record) {
    r.index == Lower(r.entry.key) && IsEntry(JObj(r.entry.data)) && Below(path, r)
  }

  /** `traverse(node, path)`: the records it files, in filing order. A node that is not an
      object files nothing. */
  function Traverse(node: Json, path: seq<string>): (r: seq<Record>)
    ensures !IsObject(node) ==> r == []
    ensures forall i :: 0 <= i < |r| ==> WellFiled(path, r[i])
    decreases node, 2
  {
    if IsObject(node) then TraverseFrom(node, 0, path) else []
  }

  /** The records filed by the members of `parent` from the `k`-th on. */
  function TraverseFrom(parent: Json, k: nat, path: seq<string>): (r: seq<Record>)
    requires IsObject(parent)
    ensures forall i :: 0 <= i < |r| ==> WellFiled(path, r[i])
    decreases parent, 1, Width(parent) - k
  {
    if k >= Width(parent) then []
    else
      match parent
      case JArr(items) => Visit(NatToString(k), items[k], path) + TraverseFrom(parent, k + 1, path)
      case JObj(fields) => Visit(fields[k].0, fields[k].1, path) + TraverseFrom(parent, k + 1, path)
  }

  /** One member: an entry is filed and not descended into; anything else is walked with
      its key appended to the path. */
  function Visit(key: string, value: Json, path: seq<string>): (r: seq<Record>)
    ensures forall i :: 0 <= i < |r| ==> WellFiled(path, r[i])
    decreases value, 3
  {
    if IsEntry(value) then [RecordOf(key, value, path)]
    else
      var r := Traverse(value, path + [key]);
      assert forall i :: 0 <= i < |r| ==> Below(path, r[i]) by {
        forall i | 0 <= i < |r|
          ensures Below(path, r[i])
        {
          var a := r[i].entry.ancestors;
          assert a[..|path|] == a[..|path| + 1][..|path|];
        }
      }
      r
  }

  /** Where a record was found: `rel` leads from the walked node down to the object holding
      the entry, the entry sits under a key `name` whose cases give the record's index and
      key, and no object on the way is itself an entry. */
  predicate Reaches(node: Json, rel: seq<string>, name: string, r: Record) {
    && Upper(name) == r.entry.key
    && Lower(name) == r.index
    && Locate(node, rel + [name]) == Some(JObj(r.entry.data))
    && forall j :: 1 <= j <= |rel| ==> Locate(node, rel[..j]).Some? && !IsEntry(Locate(node, rel[..j]).value)
  }

  ghost predicate Found(node: Json, path: seq<string>, r: Record)
    requires Below(path, r)
  {
    exists name :: Reaches(node, r.entry.ancestors[|path|..], name, r)
  }

  /** Every filed record is an entry that really sits in the tree at the place its ancestor
      keys name, and the walk did not pass through another entry to get there. */
  lemma {:induction false} TraverseSound(node: Json, path: seq<string>)
    requires UniqueKeys(node)
    ensures forall r :: r in Traverse(node, path) ==> Below(path, r) && Found(node, path, r)
    decreases node, 2
  {
    if IsObject(node) {
      TraverseFromSound(node, 0, path);
    }
  }

  lemma {:induction false} TraverseFromSound(parent: Json, k: nat, path: seq<string>)
    requires IsObject(parent) && UniqueKeys(parent)
    ensures forall r :: r in TraverseFrom(parent, k, path) ==> Below(path, r) && Found(parent, path, r)
    decreases parent, 1, Width(parent) - k
  {
    if k < Width(parent) {
      TraverseFromSound(parent, k + 1, path);
      ChildAt(parent, k);
      match parent
      case JArr(items) =>
        VisitSound(parent, NatToString(k), items[k], path);
      case JObj(fields) =>
        VisitSound(parent, fields[k].0, fields[k].1, path);
    }
  }

  lemma {:induction false} VisitSound(parent: Json, key: string, value: Json, path: seq<string>)
    requires Child(parent, key) == Some(value) && UniqueKeys(value)
    ensures forall r :: r in Visit(key, value, path) ==> Below(path, r) && Found(parent, path, r)
    decreases value, 3
  {
    if IsEntry(value) {
      var r := RecordOf(key, value, path);
      LocateThrough(parent, key, value, []);
      assert r.entry.ancestors[|path|..] == [];
      assert Reaches(parent, [], key, r);
    } else {
      TraverseSound(value, path + [key]);
      forall r | r in Traverse(value, path + [key])
        ensures Below(path, r) && Found(parent, path, r)
      {
        LiftFound(parent, key, value, path, r);
      }
    }
  }

  /** A record found below a child that is not an entry is found below its parent, one key
      further up. */
  lemma {:induction false} LiftFound(parent: Json, key: string, value: Json, path: seq<string>, r: Record)
    requires Child(parent, key) == Some(value) && !IsEntry(value)
    requires Below(path + [key], r) && Found(value, path + [key], r)
    ensures Below(path, r) && Found(parent, path, r)
  {
    var a := r.entry.ancestors;
    assert a[..|path|] == a[..|path| + 1][..|path|];
    var relv := a[|path| + 1..];
    var rel := a[|path|..];
    assert rel == [key] + relv;
    var name :| Reaches(value, relv, name, r);
    LocateThrough(parent, key, value, relv + [name]);
    assert rel + [name] == [key] + (relv + [name]);
    forall j | 1 <= j <= |rel|
      ensures Locate(parent, rel[..j]).Some? && !IsEntry(Locate(parent, rel[..j]).value)
    {
      assert rel[..j] == [key] + relv[..j - 1];
      LocateThrough(parent, key, value, relv[..j - 1]);
      if j == 1 {
        assert relv[..0] == [];
      }
    }
    assert Reaches(parent, rel, name, r);
  }

  /** Every member of an object is visited: an entry member is filed, and the records of
      any other member are among the object's. */
  lemma {:induction false} MemberVisited(parent: Json, j: nat, k: nat, path: seq<string>)
    requires IsObject(parent) && j <= k < Width(parent)
    ensures forall r :: r in Visit(KeyAt(parent, k), ValueAt(parent, k), path) ==> r in TraverseFrom(parent, j, path)
    decreases k - j
  {
    if j < k {
      MemberVisited(parent, j + 1, k, path);
    }
  }

  /** A member that is an entry is filed under the lower case of its key, with the parent's
      path as its section. */
  lemma {:induction false} EntryMemberFiled(parent: Json, k: nat, path: seq<string>)
    requires IsObject(parent) && k < Width(parent) && IsEntry(ValueAt(parent, k))
    ensures RecordOf(KeyAt(parent, k), ValueAt(parent, k), path) in Traverse(parent, path)
  {
    MemberVisited(parent, 0, k, path);
  }

  /** A member that is not an entry is walked with its key appended to the path. */
  lemma {:induction false} OtherMemberWalked(parent: Json, k: nat, path: seq<string>)
    requires IsObject(parent) && k < Width(parent) && !IsEntry(ValueAt(parent, k))
    ensures forall r :: r in Traverse(ValueAt(parent, k), path + [KeyAt(parent, k)]) ==> r in Traverse(parent, path)
  {
    MemberVisited(parent, 0, k, path);
  }

  // ---------------------------------------------------------------------------------------
  // The lookup table

  /** The lookup object: for every lower-cased key, its entries in filing order. */
  type Lookup = map<string, seq<VideoEntry>>

  /** Lower-case property names a plain object inherits: `lookup[name] || []` yields the
      inherited value, which has no `push`, so filing under one of them throws. */
  const InheritedNames: set<string> := {"constructor", "__proto__"}

  /** The entries of `records` filed under `index`, in order. */
  function EntriesFor(records: seq<Record>, index: string): seq<VideoEntry> {
    if records == [] then []
    else (if records[0].index == index then [records[0].entry] else []) + EntriesFor(records[1..], index)
  }

  lemma {:induction false} EntriesForSnoc(records: seq<Record>, r: Record, index: string)
    ensures EntriesFor(records + [r], index) == EntriesFor(records, index) + (if r.index == index then [r.entry] else [])
  {
    if records != [] {
      assert (records + [r])[1..] == records[1..] + [r];
      EntriesForSnoc(records[1..], r, index);
    }
  }

  /** `buildVideoLookup` over already-walked records, pushing one at a time; `None` when a
      push throws. */
  function Group(records: seq<Record>): (r: Option<Lookup>)
    ensures r.Some? <==> forall i :: 0 <= i < |records| ==> records[i].index !in InheritedNames
    ensures r.Some? ==> forall index :: index in r.value <==> exists i :: 0 <= i < |records| && records[i].index == index
    ensures r.Some? ==> forall index :: index in r.value ==> r.value[index] == EntriesFor(records, index)
    decreases |records|
  {
    if records == [] then Some(map[])
    else
      var init := records[..|records| - 1];
      var last := records[|records| - 1];
      var g := Group(init);
      PushKeeps(records, init, last, g);
      Push(g, last)
  }

  /** One `lookup[index].push(entry)`, after `lookup[index] = lookup[index] || []`. */
  function Push(g: Option<Lookup>, last: Record): Option<Lookup> {
    match g
    case None => None
    case Some(m) =>
      if last.index in InheritedNames then None
      else Some(m[last.index := (if last.index in m then m[last.index] else []) + [last.entry]])
  }

  /** Pushing the last record onto the table of the earlier ones gives the table of all. */
  lemma {:induction false} PushKeeps(records: seq<Record>, init: seq<Record>, last: Record, g: Option<Lookup>)
    requires records != [] && init == records[..|records| - 1] && last == records[|records| - 1]
    requires g.Some? <==> forall i :: 0 <= i < |init| ==> init[i].index !in InheritedNames
    requires g.Some? ==> forall index :: index in g.value <==> exists i :: 0 <= i < |init| && init[i].index == index
    requires g.Some? ==> forall index :: index in g.value ==> g.value[index] == EntriesFor(init, index)
    ensures Push(g, last).Some? <==> forall i :: 0 <= i < |records| ==> records[i].index !in InheritedNames
    ensures Push(g, last).Some? ==> forall index :: index in Push(g, last).value <==> exists i :: 0 <= i < |records| && records[i].index == index
    ensures Push(g, last).Some? ==> forall index :: index in Push(g, last).value ==> Push(g, last).value[index] == EntriesFor(records, index)
  {
    PushAllowed(records, init, last, g.Some?);
    if g.Some? && last.index !in InheritedNames {
      var m := g.value;
      var m' := m[last.index := (if last.index in m then m[last.index] else []) + [last.entry]];
      assert Push(g, last) == Some(m');
      PushKeys(records, init, last, m, m');
      GroupStep(records, init, last, m);
    }
  }

  lemma {:induction false} PushAllowed(records: seq<Record>, init: seq<Record>, last: Record, ok: bool)
    requires records != [] && init == records[..|records| - 1] && last == records[|records| - 1]
    requires ok <==> forall i :: 0 <= i < |init| ==> init[i].index !in InheritedNames
    ensures (ok && last.index !in InheritedNames) <==> forall i :: 0 <= i < |records| ==> records[i].index !in InheritedNames
  {
    assert forall i :: 0 <= i < |init| ==> records[i] == init[i];
  }

  lemma {:induction false} PushKeys(records: seq<Record>, init: seq<Record>, last: Record, m: Lookup, m': Lookup)
    requires records != [] && init == records[..|records| - 1] && last == records[|records| - 1]
    requires forall index :: index in m <==> exists i :: 0 <= i < |init| && init[i].index == index
    requires m' == m[last.index := (if last.index in m then m[last.index] else []) + [last.entry]]
    ensures forall index :: index in m' <==> exists i :: 0 <= i < |records| && records[i].index == index
  {
    forall index
      ensures index in m' <==> exists i :: 0 <= i < |records| && records[i].index == index
    {
      var inM := index in m || index == last.index;
      if inM && index != last.index {
        var i :| 0 <= i < |init| && init[i].index == index;
        assert records[i].index == index;
      }
      if inM && index == last.index {
        assert records[|records| - 1].index == index;
      }
      if !inM {
        forall i | 0 <= i < |records| ensures records[i].index != index {
          if i < |init| { assert records[i] == init[i]; }
        }
      }
    }
  }

  /** Pushing one more record onto a table that holds the entries of the earlier records
      gives a table that holds the entries of all of them. */
  lemma {:induction false} GroupStep(records: seq<Record>, init: seq<Record>, last: Record, m: Lookup)
    requires records != [] && init == records[..|records| - 1] && last == records[|records| - 1]
    requires forall index :: index in m <==> exists i :: 0 <= i < |init| && init[i].index == index
    requires forall index :: index in m ==> m[index] == EntriesFor(init, index)
    ensures var m' := m[last.index := (if last.index in m then m[last.index] else []) + [last.entry]];
      forall index :: index in m' ==> m'[index] == EntriesFor(records, index)
  {
    assert records == init + [last];
    var m' := m[last.index := (if last.index in m then m[last.index] else []) + [last.entry]];
    forall index | index in m'
      ensures m'[index] == EntriesFor(records, index)
    {
      EntriesForSnoc(init, last, index);
      if index != last.index {
        assert m'[index] == m[index];
      } else if last.index !in m {
        EntriesNone(init, index);
      }
    }
  }

  lemma {:induction false} EntriesNone(records: seq<Record>, index: string)
    requires forall i :: 0 <= i < |records| ==> records[i].index != index
    ensures EntriesFor(records, index) == []
  {
    if records != [] {
      assert records[0].index != index;
      EntriesNone(records[1..], index);
    }
  }

  /** `buildVideoLookup()` on the parsed data file; `None` when it throws. */
  function BuildVideoLookup(root: Json): Option<Lookup> {
    Group(Traverse(root, []))
  }

  // ---------------------------------------------------------------------------------------
  // Selecting an entry

  /** `(videoKey ?? '').trim().toLowerCase()`. */
  function NormalizeKey(videoKey: Option<string>): (r: string)
    ensures r == [] <==> videoKey.None? || AllSatisfy(videoKey.value, IsJsSpace)
    ensures forall i :: 0 <= i < |r| ==> !('A' <= r[i] <= 'Z')
  {
    Lower(JsTrim(videoKey.GetOr("")))
  }

  /** The component's `entryData`: nothing for a blank key, else the first entry filed under
      the normalised key. A key the table lacks, an inherited name included, selects
      nothing, since the inherited value has no element `0`. */
  function SelectEntry(lookup: Lookup, videoKey: Option<string>): Option<VideoEntry> {
    var normalized := NormalizeKey(videoKey);
    if normalized == [] then None
    else if normalized in lookup && lookup[normalized] != [] then Some(lookup[normalized][0])
    else None
  }

  /** The `i`-th record is the first one filed under `index`. */
  predicate FirstRecord(records: seq<Record>, index: string, i: int) {
    0 <= i < |records| && records[i].index == index && forall j :: 0 <= j < i ==> records[j].index != index
  }

  lemma {:induction false} EntriesForFirst(records: seq<Record>, index: string)
    ensures EntriesFor(records, index) == [] <==> forall i :: 0 <= i < |records| ==> records[i].index != index
    ensures EntriesFor(records, index) != [] ==>
      exists i :: FirstRecord(records, index, i) && EntriesFor(records, index)[0] == records[i].entry
  {
    if records != [] {
      EntriesForFirst(records[1..], index);
      if records[0].index == index {
        assert FirstRecord(records, index, 0);
      } else if EntriesFor(records, index) != [] {
        var i :| FirstRecord(records[1..], index, i) && EntriesFor(records[1..], index)[0] == records[1..][i].entry;
        assert FirstRecord(records, index, i + 1);
      } else {
        forall i | 0 <= i < |records|
          ensures records[i].index != index
        {
          if i > 0 {
            assert records[i] == records[1..][i - 1];
          }
        }
      }
    }
  }

  /** The player shows the first entry, in walking order, whose key matches the normalised
      `videoKey` without regard to ASCII case, and nothing when the key is blank or no key
      matches. */
  lemma {:induction false} SelectsFirstFiled(root: Json, lookup: Lookup, videoKey: Option<string>)
    requires BuildVideoLookup(root) == Some(lookup)
    ensures var index := NormalizeKey(videoKey);
            var records := Traverse(root, []);
            && (SelectEntry(lookup, videoKey).None? <==>
                  index == [] || forall i :: 0 <= i < |records| ==> records[i].index != index)
            && (SelectEntry(lookup, videoKey).Some? ==>
                  exists i :: FirstRecord(records, index, i) && SelectEntry(lookup, videoKey).value == records[i].entry)
  {
    var records := Traverse(root, []);
    assert Group(records) == Some(lookup);
    SelectFromGroup(records, lookup, videoKey);
  }

  lemma {:induction false} SelectFromGroup(records: seq<Record>, lookup: Lookup, videoKey: Option<string>)
    requires Group(records) == Some(lookup)
    ensures var index := NormalizeKey(videoKey);
            && (SelectEntry(lookup, videoKey).None? <==>
                  index == [] || forall i :: 0 <= i < |records| ==> records[i].index != index)
            && (SelectEntry(lookup, videoKey).Some? ==>
                  exists i :: FirstRecord(records, index, i) && SelectEntry(lookup, videoKey).value == records[i].entry)
  {
    var index := NormalizeKey(videoKey);
    SelectFromEntries(records, lookup, videoKey);
    EntriesForFirst(records, index);
  }

  /** The selected entry is the first of those filed under the normalised key. */
  lemma {:induction false} SelectFromEntries(records: seq<Record>, lookup: Lookup, videoKey: Option<string>)
    requires Group(records) == Some(lookup)
    ensures var index := NormalizeKey(videoKey); var e := EntriesFor(records, index);
      SelectEntry(lookup, videoKey) == if index == [] || e == [] then None else Some(e[0])
  {
    LookupIsEntriesFor(records, lookup, NormalizeKey(videoKey));
  }

  /** What the table holds under a name, none when absent, is the records filed under it. */
  lemma {:induction false} LookupIsEntriesFor(records: seq<Record>, lookup: Lookup, index: string)
    requires Group(records) == Some(lookup)
    ensures (if index in lookup then lookup[index] else []) == EntriesFor(records, index)
    ensures index in lookup ==> lookup[index] != []
  {
    if index in lookup {
      EntriesForFirst(records, index);
    } else {
      EntriesNone(records, index);
    }
  }

  // ---------------------------------------------------------------------------------------
  // Timing

  /** A number as `Number.parseInt` returns it: `NaN` or an integer. */
  datatype Num = NaN | Int(value: int)

  predicate HasDigit(s: string) {
    exists i :: 0 <= i < |s| && IsAsciiDigit(s[i])
  }

  /** `Number.parseInt(s, 10)`: leading whitespace skipped, an optional sign, then the
      longest run of decimal digits; `NaN` when there is none. */
  function ParseInt(s: string): (r: Num)
    ensures r.Int? ==> HasDigit(s)
  {
    var a := LeadingRun(s, IsJsSpace);
    var r := ParseSigned(s[a..]);
    assert r.Int? ==> HasDigit(s) by {
      if r.Int? {
        var i :| 0 <= i < |s[a..]| && IsAsciiDigit(s[a..][i]);
        assert s[a + i] == s[a..][i];
      }
    }
    r
  }

  /** `Number.parseInt` once the leading whitespace is gone. */
  function ParseSigned(t: string): (r: Num)
    ensures r.Int? ==> HasDigit(t)
  {
    var signed := |t| > 0 && (t[0] == '-' || t[0] == '+');
    var body := if signed then t[1..] else t;
    var n := LeadingRun(body, IsAsciiDigit);
    if n == 0 then NaN
    else
      assert IsAsciiDigit(t[|t| - |body|]) by { assert body[0] == t[|t| - |body|]; }
      var v: int := DigitsValue(body[..n]);
      Int(if signed && t[0] == '-' then -v else v)
  }

  /** A run of digits ends where the next character is not a digit. */
  lemma {:induction false} DigitRun(d: string, rest: string)
    requires AllSatisfy(d, IsAsciiDigit) && (rest == [] || !IsAsciiDigit(rest[0]))
    ensures LeadingRun(d + rest, IsAsciiDigit) == |d| && (d + rest)[..|d|] == d
  {
    assert (d + rest)[..|d|] == d;
    LeadingRunStops(d + rest, IsAsciiDigit, |d|);
  }

  /** A formatted integer reads back as itself, whatever non-digit text follows it. */
  lemma {:induction false} ParseIntOfIntToString(i: int, rest: string)
    requires rest == [] || !IsAsciiDigit(rest[0])
    ensures ParseInt(IntToString(i) + rest) == Int(i)
  {
    var s := IntToString(i) + rest;
    LeadingRunStops(s, IsJsSpace, 0);
    assert s[0..] == s;
    SignedOfIntToString(i, rest);
  }

  lemma {:induction false} SignedOfIntToString(i: int, rest: string)
    requires rest == [] || !IsAsciiDigit(rest[0])
    ensures ParseSigned(IntToString(i) + rest) == Int(i)
  {
    var s := IntToString(i) + rest;
    if i < 0 {
      var d := NatToString(-i);
      assert s == ['-'] + (d + rest);
      DigitsValueOfNatToString(-i);
      NegatedDigits(s, d, rest, -i);
    } else {
      var d := NatToString(i);
      assert s == d + rest;
      DigitsValueOfNatToString(i);
      UnsignedDigits(s, d, rest, i);
    }
  }

  /** Unsigned digits read back as their value. */
  lemma {:induction false} UnsignedDigits(s: string, d: string, rest: string, v: nat)
    requires d != [] && AllSatisfy(d, IsAsciiDigit) && (rest == [] || !IsAsciiDigit(rest[0]))
    requires s == d + rest && DigitsValue(d) == v
    ensures ParseSigned(s) == Int(v)
  {
    DigitRun(d, rest);
    assert (d + rest)[0] == d[0] && IsAsciiDigit(d[0]);
  }

  /** Digits after a minus sign read back as the negated value. */
  lemma {:induction false} NegatedDigits(s: string, d: string, rest: string, v: nat)
    requires d != [] && AllSatisfy(d, IsAsciiDigit) && (rest == [] || !IsAsciiDigit(rest[0]))
    requires s == ['-'] + (d + rest) && DigitsValue(d) == v
    ensures ParseSigned(s) == Int(-(v as int))
  {
    DigitRun(d, rest);
    assert (['-'] + (d + rest))[1..] == d + rest;
  }


  /** Leading whitespace does not change what is read. */
  lemma {:induction false} ParseIntSkipsSpace(space: string, s: string)
    requires AllSatisfy(space, IsJsSpace)
    ensures ParseInt(space + s) == ParseInt(s)
  {
    var k := LeadingRun(s, IsJsSpace);
    assert (space + s)[..|space| + k] == space + s[..k];
    LeadingRunStops(space + s, IsJsSpace, |space| + k);
    assert (space + s)[|space| + k..] == s[k..];
    assert ParseInt(space + s) == ParseSigned(s[k..]);
  }

  /** The `[start, end]` of an entry, in whole seconds. */
  datatype Timing = Timing(start: Num, end: Num)

  /** `Number.parseInt(x?.trim() ?? '', 10)` for one element of the pair: a missing element
      or `null` reads as `NaN`; any other non-string has no `trim` method and throws
      (`None`). */
  function ReadSeconds(x: Json): (r: Option<Num>)
    ensures r.None? <==> !(x.JNull? || x.JStr?)
    ensures x.JNull? ==> r == Some(NaN)
  {
    match x
    case JNull => Some(ParseInt(""))
    case JStr(s) => Some(ParseInt(JsTrim(s)))
    case _ => None
  }

  /** The `i`-th element of an array destructuring, `undefined` (here `JNull`) past the
      end. */
  function ElementAt(items: seq<Json>, i: nat): Json {
    if i < |items| then items[i] else JNull
  }

  /** `parseTiming(timeduration)`: both fields `NaN` for anything but an array, else the
      first two elements read independently; `None` when reading one throws. */
  function ParseTiming(timeduration: Json): (r: Option<Timing>)
    ensures !timeduration.JArr? ==> r == Some(Timing(NaN, NaN))
    ensures timeduration.JArr? ==>
      (r.Some? <==> ReadSeconds(ElementAt(timeduration.items, 0)).Some? && ReadSeconds(ElementAt(timeduration.items, 1)).Some?)
  {
    match timeduration
    case JArr(items) =>
      (match (ReadSeconds(ElementAt(items, 0)), ReadSeconds(ElementAt(items, 1)))
       case (Some(start), Some(end)) => Some(Timing(start, end))
       case _ => None)
    case _ => Some(Timing(NaN, NaN))
  }

  /** A pair of formatted integers, possibly padded with whitespace, reads back as those
      integers. */
  lemma {:induction false} TimingOfNumbers(a: int, b: int, pad: string, extra: seq<Json>)
    requires AllSatisfy(pad, IsJsSpace)
    ensures ParseTiming(JArr([JStr(pad + IntToString(a)), JStr(IntToString(b) + pad)] + extra)) == Some(Timing(Int(a), Int(b)))
  {
    PaddedNumberReads(pad, a, []);
    PaddedNumberReads([], b, pad);
    PairTiming(JStr(pad + IntToString(a) + []), JStr([] + IntToString(b) + pad), extra, Int(a), Int(b));
    Unpadded(pad, IntToString(a), IntToString(b));
  }

  lemma {:induction false} Unpadded(pad: string, x: string, y: string)
    ensures pad + x + [] == pad + x && [] + y + pad == y + pad
  {
  }

  /** The first two elements are read independently of each other and of the rest. */
  lemma {:induction false} PairTiming(u: Json, v: Json, extra: seq<Json>, start: Num, end: Num)
    requires ReadSeconds(u) == Some(start) && ReadSeconds(v) == Some(end)
    ensures ParseTiming(JArr([u, v] + extra)) == Some(Timing(start, end))
  {
    var items := [u, v] + extra;
    assert ElementAt(items, 0) == u && ElementAt(items, 1) == v;
  }

  /** One element holding a formatted integer between whitespace reads as that integer. */
  lemma {:induction false} PaddedNumberReads(front: string, i: int, back: string)
    requires AllSatisfy(front, IsJsSpace) && AllSatisfy(back, IsJsSpace)
    ensures ReadSeconds(JStr(front + IntToString(i) + back)) == Some(Int(i))
  {
    var core := IntToString(i);
    var m: nat := if i < 0 then -i else i;
    assert core[|core| - 1] == NatToString(m)[|NatToString(m)| - 1];
    JsTrimOfPadded(front, core, back);
    ParseIntOfIntToString(i, []);
    assert core + [] == core;
  }

  /** Trimming removes exactly the padding around a text that neither starts nor ends with
      whitespace. */
  lemma {:induction false} JsTrimOfPadded(front: string, core: string, back: string)
    requires AllSatisfy(front, IsJsSpace) && AllSatisfy(back, IsJsSpace)
    requires core != [] && !IsJsSpace(core[0]) && !IsJsSpace(core[|core| - 1])
    ensures JsTrim(front + core + back) == core
  {
    var s := front + core + back;
    assert s[..|front|] == front;
    LeadingRunStops(s, IsJsSpace, |front|);
    var t := s[|front|..];
    assert t == core + back;
    TrailingSpaceStops(t, |back|);
    assert t[..|t| - |back|] == core;
  }

  lemma {:induction false} TrailingSpaceStops(t: string, n: nat)
    requires n <= |t|
    requires forall i :: |t| - n <= i < |t| ==> IsJsSpace(t[i])
    requires n < |t| ==> !IsJsSpace(t[|t| - n - 1])
    ensures TrailingRun(t, IsJsSpace) == n
  {
    if n > 0 {
      var u := t[..|t| - 1];
      assert IsJsSpace(t[|t| - 1]);
      TrailingSpaceStops(u, n - 1);
    }
  }

  /** An element that does not read as a number spoils only its own field. */
  lemma {:induction false} UnreadableStartAlone(s: string, end: Json)
    requires !HasDigit(JsTrim(s)) && (end.JNull? || end.JStr?)
    ensures ParseTiming(JArr([JStr(s), end])).Some?
    ensures ParseTiming(JArr([JStr(s), end])).value == Timing(NaN, ReadSeconds(end).value)
  {
  }

  /** The timing the player uses: both `NaN` without a selected entry, otherwise the
      selected entry's `timeduration` member (`undefined`, here `JNull`, when absent). */
  function EntryTiming(entry: Option<VideoEntry>): (r: Option<Timing>)
    ensures entry.None? ==> r == Some(Timing(NaN, NaN))
  {
    match entry
    case None => Some(Timing(NaN, NaN))
    case Some(e) => ParseTiming(FieldValue(e.data, "timeduration").GetOr(JNull))
  }
}
