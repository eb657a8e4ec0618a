/**
 What internal/agent/cluster.go removes from a decoded cluster object: the literal "value" of
 every container env entry, by where it stands in the tree of maps and lists.
 */
module Redaction {
  import opened Wrappers

  /** A decoded map. */
  class Node {
    var fields: map<string, Value>

    constructor (fields: map<string, Value>)
      ensures this.fields == fields
    {
      this.fields := fields;
    }
  }

  datatype Value = Map(node: Node) | Items(items: seq<Value>) | Text(text: string) | Nil

  datatype Tree = Object(node: Node, fields: map<string, Tree>) | List(items: seq<Tree>) | Scalar(text: string) | Null

  const LIST_KEYS := ["containers", "initContainers", "ephemeralContainers"]

  // ----- The reference: what is removed, by where a value stands -----

  /** Where a value stands relative to the nearest container list above it. */
  datatype Place = Elsewhere | ContainerList | Container | EnvList | EnvEntry

  function FieldPlace(place: Place, key: string): Place {
    if key in LIST_KEYS then ContainerList
    else if place == Container && key == "env" then EnvList
    else Elsewhere
  }

  function ItemPlace(place: Place): Place {
    match place
    case ContainerList => Container
    case EnvList => EnvEntry
    case _ => Elsewhere
  }

  /** The value with the "value" of every env entry gone. */
  function Clean(place: Place, v: Tree): Tree
    decreases v
  {
    match v
    case Object(node, fields) =>
      Object(node,
             map k | k in fields && !(place == EnvEntry && k == "value") :: Clean(FieldPlace(place, k), fields[k]))
    case List(items) =>
      List(seq(|items|, i requires 0 <= i < |items| => Clean(ItemPlace(place), items[i])))
    case Scalar(_) => v
    case Null => v
  }

  // ----- What exactly is gone -----

  datatype Step = Key(key: string) | Index(i: nat)

  function Child(v: Tree, s: Step): Option<Tree> {
    match (v, s)
    case (Object(_, fields), Key(k)) => if k in fields then Some(fields[k]) else None
    case (List(items), Index(i)) => if i < |items| then Some(items[i]) else None
    case _ => None
  }

  /** The value at the end of a path. */
  function At(v: Tree, path: seq<Step>): Option<Tree> {
    if path == [] then Some(v)
    else
      var c := Child(v, path[0]);
      if c.None? then None else At(c.value, path[1..])
  }

  function StepPlace(place: Place, s: Step): Place {
    match s
    case Key(k) => FieldPlace(place, k)
    case Index(_) => ItemPlace(place)
  }

  function PlaceAfter(place: Place, path: seq<Step>): Place
    decreases path
  {
    if path == [] then place else PlaceAfter(StepPlace(place, path[0]), path[1..])
  }

  /** The path leads through the "value" of an env entry. */
  predicate ThroughEnvValue(place: Place, path: seq<Step>)
    decreases path
  {
    path != []
      && ((place == EnvEntry && path[0] == Key("value")) || ThroughEnvValue(StepPlace(place, path[0]), path[1..]))
  }

  lemma CleanChild(place: Place, v: Tree, s: Step)
    ensures Child(Clean(place, v), s) ==
      if (place == EnvEntry && s == Key("value")) || Child(v, s).None? then None
      else Some(Clean(StepPlace(place, s), Child(v, s).value))
  {
  }

  /** Exactly the paths through an env entry's "value" are gone; whatever else there was is there, cleaned in turn. */
  lemma {:induction false} CleanAt(place: Place, v: Tree, path: seq<Step>)
    ensures At(Clean(place, v), path) ==
      if ThroughEnvValue(place, path) || At(v, path).None? then None
      else Some(Clean(PlaceAfter(place, path), At(v, path).value))
    decreases |path|
  {
    if path != [] {
      CleanChild(place, v, path[0]);
      var c := Child(v, path[0]);
      if c.Some? {
        CleanAt(StepPlace(place, path[0]), c.value, path[1..]);
      }
    }
  }

  /** From a place outside any container list, an env entry is where the last four steps spell one out. */
  predicate EndsInEnvEntry(path: seq<Step>) {
    var n := |path|;
    && n >= 4
    && (path[n - 4] == Key("containers") || path[n - 4] == Key("initContainers")
        || path[n - 4] == Key("ephemeralContainers"))
    && path[n - 3].Index? && path[n - 2] == Key("env") && path[n - 1].Index?
  }

  lemma {:induction false} PlaceAfterLast(place: Place, path: seq<Step>, s: Step)
    ensures PlaceAfter(place, path + [s]) == StepPlace(PlaceAfter(place, path), s)
    decreases path
  {
    if path == [] {
      assert [s][1..] == [];
    } else {
      assert (path + [s])[1..] == path[1..] + [s];
      PlaceAfterLast(StepPlace(place, path[0]), path[1..], s);
    }
  }

  lemma PlaceAfterFront(path: seq<Step>)
    requires path != []
    ensures PlaceAfter(Elsewhere, path) == StepPlace(PlaceAfter(Elsewhere, path[..|path| - 1]), path[|path| - 1])
  {
    var front, last := path[..|path| - 1], path[|path| - 1];
    assert front + [last] == path;
    PlaceAfterLast(Elsewhere, front, last);
  }

  lemma PlaceSpelledOut(path: seq<Step>)
    ensures PlaceAfter(Elsewhere, path) == EnvEntry <==> EndsInEnvEntry(path)
  {
    var n := |path|;
    if n >= 1 {
      PlaceAfterFront(path);
      if n >= 2 {
        PlaceAfterFront(path[..n - 1]);
        assert path[..n - 1][..n - 2] == path[..n - 2];
        if n >= 3 {
          PlaceAfterFront(path[..n - 2]);
          assert path[..n - 2][..n - 3] == path[..n - 3];
          if n >= 4 {
            PlaceAfterFront(path[..n - 3]);
            assert path[..n - 3][..n - 4] == path[..n - 4];
          }
        }
      }
    }
  }

  lemma {:induction false} ThroughAt(place: Place, path: seq<Step>)
    ensures ThroughEnvValue(place, path) <==>
      exists n :: 0 <= n < |path| && PlaceAfter(place, path[..n]) == EnvEntry && path[n] == Key("value")
    decreases path
  {
    if path != [] {
      var rest, next := path[1..], StepPlace(place, path[0]);
      ThroughAt(next, rest);
      assert forall n :: 0 < n < |path| ==> path[..n][1..] == rest[..n - 1] && path[n] == rest[n - 1];
      if ThroughEnvValue(next, rest) {
        var n :| 0 <= n < |rest| && PlaceAfter(next, rest[..n]) == EnvEntry && rest[n] == Key("value");
        assert path[..n + 1][1..] == rest[..n];
        assert PlaceAfter(place, path[..n + 1]) == EnvEntry;
      }
      if place == EnvEntry && path[0] == Key("value") {
        assert PlaceAfter(place, path[..0]) == EnvEntry;
      }
    }
  }

  /** What stands there is of the same kind, and a scalar is the same. */
  predicate Alike(a: Tree, b: Tree) {
    (a.Object? && b.Object?) || (a.List? && b.List?) || ((a.Scalar? || a.Null?) && a == b)
  }

  /** The path leads through the literal value of an env entry of a container. */
  predicate ThroughEnv(path: seq<Step>) {
    exists n :: 0 <= n < |path| && EndsInEnvEntry(path[..n]) && path[n] == Key("value")
  }

  /**
   After redaction a path exists exactly if it existed and nowhere on it a "value" follows
   <container list>[i].env[j]; what stands at the end of it is of the same kind, scalars unchanged.
   */
  lemma RedactedPaths(v: Tree, path: seq<Step>)
    ensures At(Clean(Elsewhere, v), path).Some? <==> At(v, path).Some? && !ThroughEnv(path)
    ensures At(Clean(Elsewhere, v), path).Some? ==> Alike(At(Clean(Elsewhere, v), path).value, At(v, path).value)
  {
    CleanAt(Elsewhere, v, path);
    ThroughAt(Elsewhere, path);
    forall n | 0 <= n < |path| ensures PlaceAfter(Elsewhere, path[..n]) == EnvEntry <==> EndsInEnvEntry(path[..n]) {
      PlaceSpelledOut(path[..n]);
    }
  }

  /** Redacting again changes nothing. */
  lemma {:induction false} CleanIdempotent(place: Place, v: Tree)
    ensures Clean(place, Clean(place, v)) == Clean(place, v)
    decreases v
  {
    var w := Clean(place, v);
    match v
    case Object(_, fields) =>
      forall k | k in w.fields ensures Clean(FieldPlace(place, k), w.fields[k]) == w.fields[k] {
        CleanIdempotent(FieldPlace(place, k), fields[k]);
      }
    case List(items) =>
      forall i | 0 <= i < |items| ensures Clean(ItemPlace(place), w.items[i]) == w.items[i] {
        CleanIdempotent(ItemPlace(place), items[i]);
      }
    case _ =>
  }
}
