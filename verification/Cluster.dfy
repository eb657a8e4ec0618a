/**
 internal/agent/cluster.go: what the agent gets to see of a cluster object.

 The maps of a decoded object are mutable and redacted in place; a Tree says which map stands
 where and what it holds, and `Holds` that the heap is as the tree says.
 */
module Cluster {
  import opened Wrappers
  import opened Redaction

  // ----- The heap as a tree -----

  ghost function Footprint(t: Tree): set<Node> {
    match t
    case Object(node, fields) => {node} + (set k, n | k in fields && n in Footprint(fields[k]) :: n)
    case List(items) => set i, n | 0 <= i < |items| && n in Footprint(items[i]) :: n
    case _ => {}
  }

  /** No map stands in two places. */
  ghost predicate Proper(t: Tree) {
    && (t.Object? ==>
         && (forall k :: k in t.fields ==> Proper(t.fields[k]) && t.node !in Footprint(t.fields[k]))
         && (forall j, k :: j in t.fields && k in t.fields && j != k ==>
              Footprint(t.fields[j]) !! Footprint(t.fields[k])))
    && (t.List? ==>
         && (forall i :: 0 <= i < |t.items| ==> Proper(t.items[i]))
         && (forall i, j :: 0 <= i < j < |t.items| ==> Footprint(t.items[i]) !! Footprint(t.items[j])))
  }

  function ValueOf(t: Tree): Value {
    match t
    case Object(node, _) => Map(node)
    case List(items) => Items(seq(|items|, i requires 0 <= i < |items| => ValueOf(items[i])))
    case Scalar(text) => Text(text)
    case Null => Nil
  }

  ghost predicate Holds(t: Tree)
    reads Footprint(t)
  {
    && (t.Object? ==>
         && t.node.fields.Keys == t.fields.Keys
         && forall k :: k in t.fields ==> t.node.fields[k] == ValueOf(t.fields[k]) && Holds(t.fields[k]))
    && (t.List? ==> forall i :: 0 <= i < |t.items| ==> Holds(t.items[i]))
  }

  // ----- The code -----

  /** Nesting depth, which bounds the recursion. */
  ghost predicate DepthAtMost(v: Tree, d: nat) {
    match v
    case Object(_, fields) => d > 0 && forall k :: k in fields ==> DepthAtMost(fields[k], d - 1)
    case List(items) => d > 0 && forall i :: 0 <= i < |items| ==> DepthAtMost(items[i], d - 1)
    case _ => true
  }

  lemma {:induction false} DepthGrows(v: Tree, d: nat, e: nat)
    requires DepthAtMost(v, d) && d <= e
    ensures DepthAtMost(v, e)
  {
    match v
    case Object(_, fields) => forall k | k in fields { DepthGrows(fields[k], d - 1, e - 1); }
    case List(items) => forall i | 0 <= i < |items| { DepthGrows(items[i], d - 1, e - 1); }
    case _ =>
  }

  /** Every value has a depth. */
  lemma {:induction false} FindDepth(v: Tree) returns (d: nat)
    ensures DepthAtMost(v, d)
  {
    match v
    case Object(_, fields) =>
      d := 1;
      var left := fields.Keys;
      while left != {}
        invariant left <= fields.Keys && d > 0
        invariant forall k :: k in fields && k !in left ==> DepthAtMost(fields[k], d - 1)
        decreases left
      {
        var k :| k in left;
        var e := FindDepth(fields[k]);
        var top := if e > d then e else d;
        forall j | j in fields && (j !in left || j == k) ensures DepthAtMost(fields[j], top) {
          DepthGrows(fields[j], if j == k then e else d - 1, top);
        }
        d := top + 1;
        left := left - {k};
      }
    case List(items) =>
      d := 1;
      var i := 0;
      while i < |items|
        invariant 0 <= i <= |items| && d > 0
        invariant forall j :: 0 <= j < i ==> DepthAtMost(items[j], d - 1)
      {
        var e := FindDepth(items[i]);
        var top := if e > d then e else d;
        forall j | 0 <= j <= i ensures DepthAtMost(items[j], top) {
          DepthGrows(items[j], if j == i then e else d - 1, top);
        }
        d := top + 1;
        i := i + 1;
      }
    case _ => d := 0;
  }

  function StripEntry(e: Tree): Tree {
    if e.Object? then Object(e.node, e.fields - {"value"}) else e
  }

  function MapItems(f: Tree -> Tree, v: Tree): (r: Tree)
    requires v.List?
    ensures r.List? && |r.items| == |v.items| && forall i :: 0 <= i < |v.items| ==> r.items[i] == f(v.items[i])
  {
    List(seq(|v.items|, i requires 0 <= i < |v.items| => f(v.items[i])))
  }

  function StripContainer(c: Tree): Tree {
    if c.Object? && "env" in c.fields && c.fields["env"].List?
    then Object(c.node, c.fields["env" := MapItems(StripEntry, c.fields["env"])])
    else c
  }

  function StripContainers(t: Tree): Tree {
    if t.List? then MapItems(StripContainer, t) else t
  }

  /** The map once the container lists under `keys` are stripped. */
  function StripLists(t: Tree, keys: seq<string>): Tree
    requires t.Object?
  {
    Object(t.node, map k | k in t.fields :: if k in keys then StripContainers(t.fields[k]) else t.fields[k])
  }

  function WithField(t: Tree, key: string, s: Tree): Tree
    requires t.Object?
  {
    Object(t.node, t.fields[key := s])
  }

  function StripList(t: Tree, key: string): Tree
    requires t.Object?
  {
    if key in t.fields then WithField(t, key, StripContainers(t.fields[key])) else t
  }

  lemma StripListsStep(t: Tree, n: nat)
    requires t.Object? && n < |LIST_KEYS|
    ensures StripLists(t, LIST_KEYS[..0]) == t
    ensures StripLists(t, LIST_KEYS[..n + 1]) == StripList(StripLists(t, LIST_KEYS[..n]), LIST_KEYS[n])
  {
    assert LIST_KEYS[..n + 1] == LIST_KEYS[..n] + [LIST_KEYS[n]] && LIST_KEYS[n] !in LIST_KEYS[..n];
  }

  /** s stands where t stood, on the same maps or fewer. */
  ghost predicate Within(s: Tree, t: Tree) {
    Proper(s) && Footprint(s) <= Footprint(t) && ValueOf(s) == ValueOf(t)
  }

  lemma ListWithin(s: Tree, t: Tree)
    requires s.List? && t.List? && |s.items| == |t.items| && Proper(t)
    requires forall i :: 0 <= i < |s.items| ==> Within(s.items[i], t.items[i])
    ensures Within(s, t)
  {
  }

  lemma ObjectWithin(s: Tree, t: Tree)
    requires s.Object? && t.Object? && s.node == t.node && s.fields.Keys <= t.fields.Keys && Proper(t)
    requires forall k :: k in s.fields ==> Within(s.fields[k], t.fields[k])
    ensures Within(s, t)
  {
  }

  lemma StripEntryWithin(e: Tree)
    requires Proper(e)
    ensures Within(StripEntry(e), e)
  {
    if e.Object? { ObjectWithin(StripEntry(e), e); }
  }

  /** A tree none of whose maps changed still holds. */
  twostate lemma StillHolds(t: Tree)
    requires old(allocated(Footprint(t))) && old(Holds(t)) && unchanged(Footprint(t))
    ensures Holds(t)
  {
  }

  /** delete(env, "value"), if the entry is a map. */
  method RedactEntry(entry: Value, ghost t: Tree)
    requires entry == ValueOf(t) && Proper(t) && Holds(t)
    modifies Footprint(t)
    ensures Holds(StripEntry(t))
  {
    if entry.Map? {
      var env := entry.node;
      env.fields := env.fields - {"value"};
    }
  }

  /** Each item of a list stands on its own maps. */
  lemma ItemsApart(t: Tree, i: nat)
    requires t.List? && Proper(t) && i < |t.items|
    ensures Proper(t.items[i]) && Footprint(t.items[i]) <= Footprint(t)
    ensures forall j :: 0 <= j < |t.items| && j != i ==> Footprint(t.items[j]) !! Footprint(t.items[i])
  {
  }

  method RedactEntries(entries: seq<Value>, ghost t: Tree)
    requires t.List? && Items(entries) == ValueOf(t) && Proper(t) && Holds(t)
    modifies Footprint(t)
    ensures Holds(MapItems(StripEntry, t))
  {
    var i := 0;
    while i < |entries|
      invariant 0 <= i <= |entries| == |t.items|
      invariant forall j :: 0 <= j < i ==> Holds(StripEntry(t.items[j]))
      invariant forall j :: i <= j < |t.items| ==> Holds(t.items[j])
    {
      ItemsApart(t, i);
      forall j | 0 <= j < i ensures Footprint(StripEntry(t.items[j])) !! Footprint(t.items[i]) {
        StripEntryWithin(t.items[j]);
      }
      label before:
      RedactEntry(entries[i], t.items[i]);
      forall j | 0 <= j < i ensures Holds(StripEntry(t.items[j])) { StillHolds@before(StripEntry(t.items[j])); }
      forall j | i < j < |t.items| ensures Holds(t.items[j]) { StillHolds@before(t.items[j]); }
      i := i + 1;
    }
  }

  lemma EntriesWithin(t: Tree)
    requires t.List? && Proper(t)
    ensures Within(MapItems(StripEntry, t), t)
  {
    forall i | 0 <= i < |t.items| ensures Within(StripEntry(t.items[i]), t.items[i]) { StripEntryWithin(t.items[i]); }
    ListWithin(MapItems(StripEntry, t), t);
  }

  lemma StripContainerWithin(c: Tree)
    requires Proper(c)
    ensures Within(StripContainer(c), c)
  {
    if c.Object? && "env" in c.fields && c.fields["env"].List? {
      EntriesWithin(c.fields["env"]);
      ObjectWithin(StripContainer(c), c);
    }
  }

  lemma ContainersWithin(t: Tree)
    requires Proper(t)
    ensures Within(StripContainers(t), t)
  {
    if t.List? {
      forall i | 0 <= i < |t.items|
        ensures Within(StripContainer(t.items[i]), t.items[i]) { StripContainerWithin(t.items[i]); }
      ListWithin(StripContainers(t), t);
    }
  }

  /** The env entries of one container, if it is a map with a list of them. */
  method RedactContainer(container: Value, ghost t: Tree)
    requires container == ValueOf(t) && Proper(t) && Holds(t)
    modifies Footprint(t)
    ensures Holds(StripContainer(t))
  {
    if !container.Map? { return; }
    var c := container.node;
    if "env" !in c.fields || !c.fields["env"].Items? { return; }
    ghost var env := t.fields["env"];
    label before:
    RedactEntries(c.fields["env"].items, env);
    EntriesWithin(env);
    forall k | k in t.fields && k != "env" ensures Holds(t.fields[k]) { StillHolds@before(t.fields[k]); }
  }

  method RedactContainers(containers: seq<Value>, ghost t: Tree)
    requires t.List? && Items(containers) == ValueOf(t) && Proper(t) && Holds(t)
    modifies Footprint(t)
    ensures Holds(MapItems(StripContainer, t))
  {
    var i := 0;
    while i < |containers|
      invariant 0 <= i <= |containers| == |t.items|
      invariant forall j :: 0 <= j < i ==> Holds(StripContainer(t.items[j]))
      invariant forall j :: i <= j < |t.items| ==> Holds(t.items[j])
    {
      ItemsApart(t, i);
      forall j | 0 <= j < i ensures Footprint(StripContainer(t.items[j])) !! Footprint(t.items[i]) {
        StripContainerWithin(t.items[j]);
      }
      label before:
      RedactContainer(containers[i], t.items[i]);
      forall j | 0 <= j < i ensures Holds(StripContainer(t.items[j])) { StillHolds@before(StripContainer(t.items[j])); }
      forall j | i < j < |t.items| ensures Holds(t.items[j]) { StillHolds@before(t.items[j]); }
      i := i + 1;
    }
  }

  /** Each field of a map stands on its own maps. */
  lemma FieldsApart(t: Tree, key: string)
    requires t.Object? && Proper(t) && key in t.fields
    ensures Proper(t.fields[key]) && Footprint(t.fields[key]) <= Footprint(t) && t.node !in Footprint(t.fields[key])
    ensures forall k :: k in t.fields && k != key ==> Footprint(t.fields[k]) !! Footprint(t.fields[key])
  {
  }

  lemma FieldWithin(t: Tree, key: string, s: Tree)
    requires t.Object? && Proper(t) && key in t.fields && Within(s, t.fields[key])
    ensures Within(WithField(t, key, s), t)
  {
    ObjectWithin(WithField(t, key, s), t);
  }

  twostate lemma OthersHold(t: Tree, new key: string)
    requires t.Object? && Proper(t) && key in t.fields && old(allocated(Footprint(t))) && old(Holds(t))
    requires unchanged(Footprint(t) - Footprint(t.fields[key]))
    ensures t.node.fields == old(t.node.fields)
    ensures forall k :: k in t.fields && k != key ==> Holds(t.fields[k])
  {
    FieldsApart(t, key);
    forall k | k in t.fields && k != key ensures Holds(t.fields[k]) {
      FieldsApart(t, k);
      StillHolds(t.fields[k]);
    }
  }

  /** Changing one field in place leaves the others as they were. */
  twostate lemma FieldReplaced(t: Tree, new key: string, new s: Tree)
    requires t.Object? && Proper(t) && key in t.fields && old(allocated(Footprint(t))) && old(Holds(t))
    requires unchanged(Footprint(t) - Footprint(t.fields[key]))
    requires Within(s, t.fields[key]) && Holds(s)
    ensures Holds(WithField(t, key, s)) && Within(WithField(t, key, s), t)
  {
    FieldWithin(t, key, s);
    OthersHold(t, key);
    var u := WithField(t, key, s);
    forall k | k in u.fields ensures u.node.fields[k] == ValueOf(u.fields[k]) && Holds(u.fields[k]) {
      assert old(t.node.fields[k]) == ValueOf(t.fields[k]);
    }
  }

  /** Strips one container list of a map, if there is a list under the key. */
  method RedactList(typed: Node, key: string, ghost t: Tree)
    requires t.Object? && t.node == typed && Proper(t) && Holds(t)
    modifies Footprint(t)
    ensures Holds(StripList(t, key)) && Within(StripList(t, key), t)
  {
    if key !in typed.fields || !typed.fields[key].Items? {
      assert StripList(t, key) == t;
      return;
    }
    ghost var list := t.fields[key];
    ContainersWithin(list);
    FieldsApart(t, key);
    label before:
    RedactContainers(typed.fields[key].items, list);
    FieldReplaced@before(t, key, StripContainers(list));
  }

  lemma WithinTransitive(a: Tree, b: Tree, c: Tree)
    requires Within(a, b) && Within(b, c)
    ensures Within(a, c)
  {
  }

  /** Strips the container lists of one map. */
  method RedactLists(typed: Node, ghost t: Tree)
    requires t.Object? && t.node == typed && Proper(t) && Holds(t)
    modifies Footprint(t)
    ensures Holds(StripLists(t, LIST_KEYS)) && Within(StripLists(t, LIST_KEYS), t)
  {
    StripListsStep(t, 0);
    var n := 0;
    while n < |LIST_KEYS|
      invariant 0 <= n <= |LIST_KEYS|
      invariant Holds(StripLists(t, LIST_KEYS[..n])) && Within(StripLists(t, LIST_KEYS[..n]), t)
    {
      ghost var stripped := StripLists(t, LIST_KEYS[..n]);
      StripListsStep(t, n);
      RedactList(typed, LIST_KEYS[n], stripped);
      WithinTransitive(StripList(stripped, LIST_KEYS[n]), stripped, t);
      n := n + 1;
    }
    assert LIST_KEYS[..n] == LIST_KEYS;
  }

  lemma {:induction false} CleanWithin(place: Place, t: Tree)
    requires Proper(t)
    ensures Within(Clean(place, t), t)
    decreases t
  {
    if t.Object? {
      forall k | k in Clean(place, t).fields ensures Within(Clean(place, t).fields[k], t.fields[k]) {
        CleanWithin(FieldPlace(place, k), t.fields[k]);
      }
      ObjectWithin(Clean(place, t), t);
    } else if t.List? {
      forall i | 0 <= i < |t.items| ensures Within(Clean(place, t).items[i], t.items[i]) {
        CleanWithin(ItemPlace(place), t.items[i]);
      }
      ListWithin(Clean(place, t), t);
    }
  }

  /** The map with the fields outside `left` redacted. */
  function Visited(t: Tree, left: set<string>): Tree
    requires t.Object?
  {
    Object(t.node, map k | k in t.fields :: if k in left then t.fields[k] else Clean(Elsewhere, t.fields[k]))
  }

  lemma VisitedNone(t: Tree)
    requires t.Object?
    ensures Visited(t, t.fields.Keys) == t
  {
    assert Visited(t, t.fields.Keys).fields == t.fields;
  }

  lemma VisitedStep(t: Tree, left: set<string>, k: string)
    requires t.Object? && k in left && left <= t.fields.Keys
    ensures Visited(t, left).fields[k] == t.fields[k]
    ensures Visited(t, left - {k}) == WithField(Visited(t, left), k, Clean(Elsewhere, t.fields[k]))
  {
    var a, b := Visited(t, left - {k}), WithField(Visited(t, left), k, Clean(Elsewhere, t.fields[k]));
    assert a.fields.Keys == b.fields.Keys;
    assert a.fields == b.fields;
  }

  /** A place for lists means nothing to other values, nor one for maps to non-maps. */
  lemma NotAList(v: Tree)
    ensures !v.List? ==> Clean(ContainerList, v) == Clean(Elsewhere, v) && Clean(EnvList, v) == Clean(Elsewhere, v)
    ensures !v.Object? ==> Clean(Container, v) == Clean(Elsewhere, v) && Clean(EnvEntry, v) == Clean(Elsewhere, v)
  {
    if v.Object? {
      assert Clean(ContainerList, v).fields == Clean(Elsewhere, v).fields == Clean(EnvList, v).fields;
    } else if v.List? {
      assert Clean(Container, v).items == Clean(Elsewhere, v).items == Clean(EnvEntry, v).items;
    }
  }

  lemma StrippedEnv(v: Tree, d: nat)
    requires v.List? && DepthAtMost(v, d)
    ensures DepthAtMost(MapItems(StripEntry, v), d) && Clean(Elsewhere, MapItems(StripEntry, v)) == Clean(EnvList, v)
  {
    var s := MapItems(StripEntry, v);
    forall i | 0 <= i < |v.items|
      ensures DepthAtMost(s.items[i], d - 1) && Clean(Elsewhere, s.items[i]) == Clean(EnvEntry, v.items[i]) {
      if v.items[i].Object? {
        assert Clean(Elsewhere, s.items[i]).fields == Clean(EnvEntry, v.items[i]).fields;
      } else {
        NotAList(v.items[i]);
      }
    }
  }

  lemma StrippedContainer(c: Tree, d: nat)
    requires DepthAtMost(c, d)
    ensures DepthAtMost(StripContainer(c), d) && Clean(Elsewhere, StripContainer(c)) == Clean(Container, c)
  {
    if c.Object? {
      if "env" in c.fields {
        NotAList(c.fields["env"]);
        if c.fields["env"].List? { StrippedEnv(c.fields["env"], d - 1); }
      }
      assert Clean(Elsewhere, StripContainer(c)).fields == Clean(Container, c).fields;
    } else {
      NotAList(c);
    }
  }

  /** Stripping a container list first and cleaning the result is cleaning it where it stands. */
  lemma StrippedField(v: Tree, key: string, d: nat)
    requires DepthAtMost(v, d)
    ensures var s := if key in LIST_KEYS then StripContainers(v) else v;
      DepthAtMost(s, d) && Clean(Elsewhere, s) == Clean(FieldPlace(Elsewhere, key), v)
  {
    if key in LIST_KEYS && v.List? {
      var s := StripContainers(v);
      forall i | 0 <= i < |v.items|
        ensures DepthAtMost(s.items[i], d - 1) && Clean(Elsewhere, s.items[i]) == Clean(Container, v.items[i]) {
        StrippedContainer(v.items[i], d - 1);
      }
    } else {
      NotAList(v);
    }
  }

  /** Stripping the lists of a map and then redacting below it is cleaning it. */
  lemma StrippedFields(t: Tree, d: nat)
    requires t.Object? && DepthAtMost(t, d)
    ensures var s := StripLists(t, LIST_KEYS); DepthAtMost(s, d) && Visited(s, {}) == Clean(Elsewhere, t)
  {
    var s := StripLists(t, LIST_KEYS);
    forall k | k in t.fields
      ensures DepthAtMost(s.fields[k], d - 1)
        && Clean(Elsewhere, s.fields[k]) == Clean(FieldPlace(Elsewhere, k), t.fields[k])
    {
      StrippedField(t.fields[k], k, d - 1);
    }
  }

  /** Redacts everything below a map, in the order the map yields it. */
  method RedactFields(typed: Node, ghost t: Tree, ghost d: nat)
    requires t.Object? && t.node == typed && Proper(t) && Holds(t) && DepthAtMost(t, d)
    modifies Footprint(t)
    ensures Holds(Visited(t, {}))
    decreases d, 0
  {
    var left := typed.fields.Keys;
    VisitedNone(t);
    while left != {}
      invariant left <= t.fields.Keys == typed.fields.Keys
      invariant Holds(Visited(t, left)) && Within(Visited(t, left), t)
      decreases left
    {
      var k :| k in left;
      ghost var cur := Visited(t, left);
      FieldsApart(cur, k);
      label before:
      Redact(typed.fields[k], cur.fields[k], d - 1);
      CleanWithin(Elsewhere, cur.fields[k]);
      FieldReplaced@before(cur, k, Clean(Elsewhere, cur.fields[k]));
      VisitedStep(t, left, k);
      left := left - {k};
      WithinTransitive(Visited(t, left), cur, t);
    }
  }

  /** Walks the value: strips the container lists of each map, then visits everything below it. */
  method Redact(v: Value, ghost t: Tree, ghost d: nat)
    requires v == ValueOf(t) && Proper(t) && Holds(t) && DepthAtMost(t, d)
    modifies Footprint(t)
    ensures Holds(Clean(Elsewhere, t))
    decreases d, 1
  {
    match v {
      case Map(typed) =>
        RedactLists(typed, t);
        StrippedFields(t, d);
        RedactFields(typed, StripLists(t, LIST_KEYS), d);
      case Items(items) => RedactItems(items, t, d);
      case _ =>
    }
  }

  method RedactItems(items: seq<Value>, ghost t: Tree, ghost d: nat)
    requires t.List? && Items(items) == ValueOf(t) && Proper(t) && Holds(t) && DepthAtMost(t, d)
    modifies Footprint(t)
    ensures Holds(Clean(Elsewhere, t))
    decreases d, 0
  {
    var i := 0;
    while i < |items|
      invariant 0 <= i <= |items| == |t.items|
      invariant forall j :: 0 <= j < i ==> Holds(Clean(Elsewhere, t.items[j]))
      invariant forall j :: i <= j < |t.items| ==> Holds(t.items[j])
    {
      ItemsApart(t, i);
      forall j | 0 <= j < i ensures Footprint(Clean(Elsewhere, t.items[j])) !! Footprint(t.items[i]) {
        CleanWithin(Elsewhere, t.items[j]);
      }
      label before:
      Redact(items[i], t.items[i], d - 1);
      forall j | 0 <= j < i
        ensures Holds(Clean(Elsewhere, t.items[j])) { StillHolds@before(Clean(Elsewhere, t.items[j])); }
      forall j | i < j < |t.items| ensures Holds(t.items[j]) { StillHolds@before(t.items[j]); }
      i := i + 1;
    }
  }

  // ----- Trimming an object -----

  const KEPT_KEYS := ["spec", "status", "webhooks", "rules", "roleRef", "subjects"]

  function TreeOr(fields: map<string, Tree>, key: string): Tree {
    if key in fields then fields[key] else Null
  }

  function ValueOr(fields: map<string, Value>, key: string): Value {
    if key in fields then fields[key] else Nil
  }

  function ValuesOf(fields: map<string, Tree>): map<string, Value> {
    map k | k in fields :: ValueOf(fields[k])
  }

  const IDENTITY_KEYS: set<string> := {"name", "namespace", "labels"}

  function IdentityFields(fields: map<string, Tree>): map<string, Tree> {
    map k | k in IDENTITY_KEYS :: TreeOr(fields, k)
  }

  /** The identity subset of the metadata, on a map of its own. */
  function Identity(t: Tree, meta: Node): Tree
    requires t.Object?
  {
    Object(meta, IdentityFields(t.fields))
  }

  predicate HasIdentity(t: Tree)
    requires t.Object?
  {
    "metadata" in t.fields && t.fields["metadata"].Object?
  }

  predicate Keeps(t: Tree, keys: seq<string>, k: string)
    requires t.Object?
  {
    (k == "metadata" && HasIdentity(t)) || (k in t.fields && k in keys)
  }

  /** What is kept of the field under a kept key. */
  function KeptField(t: Tree, meta: Node, k: string): Tree
    requires t.Object?
  {
    if k == "metadata" then (if HasIdentity(t) then Identity(t.fields[k], meta) else Null) else TreeOr(t.fields, k)
  }

  /** What is kept of an object before redaction, with the sections under the keys. */
  function Kept(t: Tree, trimmed: Node, meta: Node, keys: seq<string>): Tree
    requires t.Object?
  {
    Object(trimmed, map k | k in t.fields && Keeps(t, keys, k) :: KeptField(t, meta, k))
  }

  lemma ObjectProper(t: Tree, base: set<Node>)
    requires t.Object? && t.node !in base
    requires forall k :: k in t.fields ==> Proper(t.fields[k]) && Footprint(t.fields[k]) <= base
    requires forall j, k :: j in t.fields && k in t.fields && j != k ==>
      Footprint(t.fields[j]) !! Footprint(t.fields[k])
    ensures Proper(t) && Footprint(t) <= base + {t.node}
  {
  }

  /** Any two fields, where there are any, stand apart, below the map. */
  lemma TreesApart(t: Tree, j: string, k: string)
    requires t.Object? && Proper(t)
    ensures Proper(TreeOr(t.fields, k)) && Footprint(TreeOr(t.fields, k)) <= Footprint(t) - {t.node}
    ensures j != k ==> Footprint(TreeOr(t.fields, j)) !! Footprint(TreeOr(t.fields, k))
  {
    if k in t.fields { FieldsApart(t, k); }
  }

  lemma IdentityProper(t: Tree, meta: Node)
    requires t.Object? && Proper(t) && meta !in Footprint(t)
    ensures Proper(Identity(t, meta))
    ensures Footprint(Identity(t, meta)) <= Footprint(t) - {t.node} + {meta}
  {
    var r := Identity(t, meta);
    forall k | k in r.fields ensures Proper(r.fields[k]) && Footprint(r.fields[k]) <= Footprint(t) - {t.node} {
      TreesApart(t, k, k);
    }
    forall j, k | j in r.fields && k in r.fields && j != k ensures Footprint(r.fields[j]) !! Footprint(r.fields[k]) {
      TreesApart(t, j, k);
    }
    ObjectProper(r, Footprint(t) - {t.node});
  }

  /** The map made for the identity subset, if there is one. */
  function Own(t: Tree, meta: Node): set<Node>
    requires t.Object?
  {
    if HasIdentity(t) then {meta} else {}
  }

  lemma KeptFieldWithin(t: Tree, meta: Node, k: string)
    requires t.Object? && Proper(t) && Own(t, meta) !! Footprint(t)
    ensures Proper(KeptField(t, meta, k))
    ensures Footprint(KeptField(t, meta, k)) <= Footprint(TreeOr(t.fields, k)) +
      if k == "metadata" then Own(t, meta) else {}
  {
    TreesApart(t, k, k);
    if k == "metadata" && HasIdentity(t) {
      IdentityProper(t.fields[k], meta);
    }
  }

  /** What is kept stands on the object's own maps below its top, and on the new ones. */
  lemma KeptProper(t: Tree, trimmed: Node, meta: Node)
    requires t.Object? && Proper(t) && trimmed !in Footprint(t) && Own(t, meta) !! Footprint(t) + {trimmed}
    ensures Proper(Kept(t, trimmed, meta, KEPT_KEYS))
    ensures Footprint(Kept(t, trimmed, meta, KEPT_KEYS)) <= Footprint(t) - {t.node} + {trimmed} + Own(t, meta)
  {
    var r, base := Kept(t, trimmed, meta, KEPT_KEYS), Footprint(t) - {t.node} + Own(t, meta);
    forall k | k in r.fields ensures Proper(r.fields[k]) && Footprint(r.fields[k]) <= base {
      KeptFieldWithin(t, meta, k);
      TreesApart(t, k, k);
    }
    forall j, k | j in r.fields && k in r.fields && j != k ensures Footprint(r.fields[j]) !! Footprint(r.fields[k]) {
      KeptFieldWithin(t, meta, j);
      KeptFieldWithin(t, meta, k);
      TreesApart(t, j, k);
      TreesApart(t, k, j);
    }
    ObjectProper(r, base);
  }

  lemma KeptStep(t: Tree, trimmed: Node, meta: Node, keys: seq<string>, key: string)
    requires t.Object? && key != "metadata"
    ensures ValuesOf(Kept(t, trimmed, meta, keys + [key]).fields) ==
      if key in t.fields then ValuesOf(Kept(t, trimmed, meta, keys).fields)[key := ValueOf(t.fields[key])]
      else ValuesOf(Kept(t, trimmed, meta, keys).fields)
  {
  }

  lemma IdentityValues(t: Tree)
    requires t.Object? && Holds(t)
    ensures (map k | k in IDENTITY_KEYS :: ValueOr(t.node.fields, k)) == ValuesOf(IdentityFields(t.fields))
  {
  }

  lemma KeptIdentity(t: Tree, trimmed: Node, meta: Node)
    requires t.Object?
    ensures ValuesOf(Kept(t, trimmed, meta, []).fields) ==
      if HasIdentity(t) then map["metadata" := Map(meta)] else map[]
  {
  }

  /** A new map of the name, namespace and labels, if the object has metadata. */
  method KeepIdentity(obj: Node, trimmed: Node, ghost t: Tree) returns (ghost meta: Node)
    requires t.Object? && t.node == obj && Holds(t) && trimmed !in Footprint(t) && trimmed.fields == map[]
    modifies trimmed
    ensures HasIdentity(t) ==> fresh(meta) && meta.fields == ValuesOf(Identity(t.fields["metadata"], meta).fields)
    ensures trimmed.fields == ValuesOf(Kept(t, trimmed, meta, []).fields)
  {
    meta := trimmed;
    if "metadata" in obj.fields && obj.fields["metadata"].Map? {
      var f := obj.fields["metadata"].node.fields;
      IdentityValues(t.fields["metadata"]);
      var identity := new Node(map k | k in IDENTITY_KEYS :: ValueOr(f, k));
      meta := identity;
      trimmed.fields := trimmed.fields["metadata" := Map(identity)];
    }
    KeptIdentity(t, trimmed, meta);
  }

  lemma IdentityHolds(t: Tree, meta: Node)
    requires t.Object? && Holds(t) && meta.fields == ValuesOf(Identity(t, meta).fields)
    ensures Holds(Identity(t, meta))
  {
    forall k | k in IDENTITY_KEYS ensures Holds(TreeOr(t.fields, k)) {}
  }

  /** The kept tree holds once its maps hold what they should. */
  lemma KeptHolds(t: Tree, trimmed: Node, meta: Node)
    requires t.Object? && Holds(t) && trimmed.fields == ValuesOf(Kept(t, trimmed, meta, KEPT_KEYS).fields)
    requires HasIdentity(t) ==> meta.fields == ValuesOf(Identity(t.fields["metadata"], meta).fields)
    ensures Holds(Kept(t, trimmed, meta, KEPT_KEYS))
  {
    var kept := Kept(t, trimmed, meta, KEPT_KEYS);
    if HasIdentity(t) { IdentityHolds(t.fields["metadata"], meta); }
    forall k | k in kept.fields ensures Holds(kept.fields[k]) {
      assert k in t.fields;
    }
  }

  /** The sections under the kept keys, shared with the object. */
  method KeepSections(obj: Node, trimmed: Node, ghost t: Tree, ghost meta: Node)
    requires t.Object? && t.node == obj && Holds(t) && trimmed !in Footprint(t)
    requires trimmed.fields == ValuesOf(Kept(t, trimmed, meta, []).fields)
    modifies trimmed
    ensures trimmed.fields == ValuesOf(Kept(t, trimmed, meta, KEPT_KEYS).fields)
  {
    var n := 0;
    while n < |KEPT_KEYS|
      invariant 0 <= n <= |KEPT_KEYS|
      invariant trimmed.fields == ValuesOf(Kept(t, trimmed, meta, KEPT_KEYS[..n]).fields)
    {
      var key := KEPT_KEYS[n];
      assert KEPT_KEYS[..n + 1] == KEPT_KEYS[..n] + [key];
      KeptStep(t, trimmed, meta, KEPT_KEYS[..n], key);
      if key in obj.fields {
        trimmed.fields := trimmed.fields[key := obj.fields[key]];
      }
      n := n + 1;
    }
    assert KEPT_KEYS[..n] == KEPT_KEYS;
  }

  /** The new top map with what is kept, sharing the sections with the fetched object. */
  method Keep(obj: Node, ghost t: Tree) returns (trimmed: Node, ghost meta: Node)
    requires t.Object? && t.node == obj && Proper(t) && Holds(t)
    ensures fresh(Own(t, meta) + {trimmed})
    ensures var kept := Kept(t, trimmed, meta, KEPT_KEYS);
      Holds(kept) && Proper(kept) && Footprint(kept) <= Footprint(t) - {obj} + {trimmed} + Own(t, meta)
  {
    assert allocated(Footprint(t));
    trimmed := new Node(map[]);
    meta := KeepIdentity(obj, trimmed, t);
    KeepSections(obj, trimmed, t, meta);
    KeptProper(t, trimmed, meta);
    KeptHolds(t, trimmed, meta);
  }

  /** What the agent gets to see of an object. */
  function Trimmed(t: Tree, trimmed: Node, meta: Node): Tree
    requires t.Object?
  {
    Clean(Elsewhere, Kept(t, trimmed, meta, KEPT_KEYS))
  }

  /** The trimmed object is the cleaned kept part; the fetched object's own top map is left alone. */
  method TrimObject(obj: Node, ghost t: Tree) returns (trimmed: Node, ghost meta: Node)
    requires t.Object? && t.node == obj && Proper(t) && Holds(t)
    modifies Footprint(t) - {obj}
    ensures fresh(trimmed) && Trimmed(t, trimmed, meta).node == trimmed && Holds(Trimmed(t, trimmed, meta))
  {
    trimmed, meta := Keep(obj, t);
    ghost var kept := Kept(t, trimmed, meta, KEPT_KEYS);
    ghost var d := FindDepth(kept);
    Redact(Map(trimmed), kept, d);
  }

  /** Nothing the agent sees of an object holds an env value. */
  lemma TrimmedHidesEnvValues(t: Tree, trimmed: Node, meta: Node, path: seq<Step>)
    requires t.Object? && EndsInEnvEntry(path)
    ensures At(Trimmed(t, trimmed, meta), path + [Key("value")]) == None
  {
    var longer := path + [Key("value")];
    RedactedPaths(Kept(t, trimmed, meta, KEPT_KEYS), longer);
    assert longer[..|path|] == path && longer[|path|] == Key("value");
  }

  /** The path stays within the identity, the spec and status, and the other sections kept of an object. */
  predicate Shown(t: Tree, path: seq<Step>)
    requires t.Object?
  {
    if path == [] then true
    else if path[0] == Key("metadata") then
      && "metadata" in t.fields && t.fields["metadata"].Object?
      && (|path| == 1 ||
          ((path[1] == Key("name") || path[1] == Key("namespace") || path[1] == Key("labels"))
           && (|path| == 2 || At(t, path).Some?)))
    else
      && (path[0] == Key("spec") || path[0] == Key("status") || path[0] == Key("webhooks") || path[0] == Key("rules")
          || path[0] == Key("roleRef") || path[0] == Key("subjects"))
      && At(t, path).Some?
  }

  lemma AtStep(v: Tree, path: seq<Step>)
    requires path != []
    ensures At(v, path) == if Child(v, path[0]).None? then None else At(Child(v, path[0]).value, path[1..])
  {
  }

  /** Below the metadata, and below each section, what is kept is what is there. */
  lemma KeptPaths(t: Tree, trimmed: Node, meta: Node, path: seq<Step>)
    requires t.Object?
    ensures var kept := Kept(t, trimmed, meta, KEPT_KEYS);
      && (At(kept, path).Some? <==> Shown(t, path))
      && (At(kept, path).Some? ==>
           if At(t, path).Some? then Alike(At(kept, path).value, At(t, path).value) else At(kept, path) == Some(Null))
  {
    var kept := Kept(t, trimmed, meta, KEPT_KEYS);
    if path != [] {
      AtStep(kept, path);
      AtStep(t, path);
      if path[0] == Key("metadata") && HasIdentity(t) && |path| > 1 {
        AtStep(kept.fields["metadata"], path[1..]);
        AtStep(t.fields["metadata"], path[1..]);
      }
    }
  }

  /**
   What the agent sees of an object: exactly the identity, the spec and status and the other kept sections, without
   the values of env entries; everything there as it is in the object, and null for an identity field it lacks.
   */
  lemma TrimmedPaths(t: Tree, trimmed: Node, meta: Node, path: seq<Step>)
    requires t.Object?
    ensures At(Trimmed(t, trimmed, meta), path).Some? <==> Shown(t, path) && !ThroughEnv(path)
    ensures At(Trimmed(t, trimmed, meta), path).Some? ==>
      if At(t, path).Some? then Alike(At(Trimmed(t, trimmed, meta), path).value, At(t, path).value)
      else At(Trimmed(t, trimmed, meta), path) == Some(Null)
  {
    KeptPaths(t, trimmed, meta, path);
    RedactedPaths(Kept(t, trimmed, meta, KEPT_KEYS), path);
  }

  /** In particular no annotation, and nothing of a "data" section. */
  lemma NothingElseShown(t: Tree, trimmed: Node, meta: Node, rest: seq<Step>)
    requires t.Object?
    ensures At(Trimmed(t, trimmed, meta), [Key("metadata"), Key("annotations")] + rest) == None
    ensures At(Trimmed(t, trimmed, meta), [Key("data")] + rest) == None
  {
    TrimmedPaths(t, trimmed, meta, [Key("metadata"), Key("annotations")] + rest);
    TrimmedPaths(t, trimmed, meta, [Key("data")] + rest);
  }
}
