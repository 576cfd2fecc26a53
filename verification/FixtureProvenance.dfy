/**
 The search for fixture data in an arbitrary object graph, cycles and sharing included: depth first, with
 one set of visited objects shared by the whole search. The composition root reports where it found one,
 the account authority only whether there is one.
 */
module FixtureProvenance {
  import opened Collections
  import CanonicalJson
  import opened Text

  /** The identity of an object on the heap. */
  datatype Ref = Ref(address: int)

  datatype Value = Undefined | Scalar(text: string) | Text(chars: string) | Object(ref: Ref)

  /** An array, or a record with its own keys in enumeration order. */
  datatype Node = Items(items: seq<Value>) | Record(keys: seq<string>, values: map<string, Value>)

  type Heap = map<Ref, Node>

  /** Every reference leads to an object; a record enumerates exactly its keys. */
  ghost predicate HeapOk(h: Heap) {
    forall r :: r in h ==> NodeOk(h, h[r])
  }

  ghost predicate NodeOk(h: Heap, n: Node) {
    && (n.Record? ==> Distinct(n.keys) && forall k :: k in n.keys <==> k in n.values)
    && (forall v :: Holds(n, v) ==> ValueOk(h, v))
  }

  predicate ValueOk(h: Heap, v: Value) {
    v.Object? ==> v.ref in h
  }

  /** `v` is an entry or a property of `n`. */
  ghost predicate Holds(n: Node, v: Value) {
    match n
    case Items(items) => v in items
    case Record(_, values) => exists k :: k in values && values[k] == v
  }

  predicate Marked(n: Node) {
    && n.Record?
    && (|| ("kind" in n.values && n.values["kind"] == Text("fixture"))
        || "scenarioId" in n.values
        || "fixtureVersion" in n.values)
  }

  // ---------------------------------------------------------------- paths

  datatype Step = Index(index: nat) | Property(key: string)

  function Child(n: Node, s: Step): Option<Value> {
    match s
    case Index(i) => if n.Items? && i < |n.items| then Some(n.items[i]) else None
    case Property(k) => if n.Record? && k in n.values then Some(n.values[k]) else None
  }

  function Follow(h: Heap, v: Value, steps: seq<Step>): Option<Value>
    decreases |steps|
  {
    if steps == [] then Some(v)
    else if !v.Object? || v.ref !in h then None
    else
      var child := Child(h[v.ref], steps[0]);
      if child.None? then None else Follow(h, child.value, steps[1..])
  }

  predicate IsMarked(h: Heap, v: Value) {
    v.Object? && v.ref in h && Marked(h[v.ref])
  }

  predicate LeadsToFixture(h: Heap, v: Value, steps: seq<Step>) {
    Follow(h, v, steps).Some? && IsMarked(h, Follow(h, v, steps).value)
  }

  /** A marked object can be reached. */
  ghost predicate ReachesFixture(h: Heap, v: Value) {
    exists steps :: LeadsToFixture(h, v, steps)
  }

  function StepText(s: Step): string {
    match s
    case Index(i) => "[" + Decimal(i) + "]"
    case Property(k) => "." + k
  }

  function PathText(root: string, steps: seq<Step>): string
    decreases |steps|
  {
    if steps == [] then root else PathText(root + StepText(steps[0]), steps[1..])
  }

  /** Where a marked object was found, as steps and as the text that is reported. */
  datatype Finding = Finding(steps: seq<Step>, text: string)

  // ---------------------------------------------------------------- what a search leaves behind

  /** Everything visited in between is unmarked, and whatever it holds has been visited too. */
  ghost predicate Explored(h: Heap, before: set<Ref>, after: set<Ref>) {
    && before <= after
    && forall r :: r in after - before ==> r in h && Finished(h, after, r)
  }

  ghost predicate Finished(h: Heap, visited: set<Ref>, r: Ref)
    requires r in h
  {
    !Marked(h[r]) && forall v :: Holds(h[r], v) ==> Seen(visited, v)
  }

  predicate Seen(visited: set<Ref>, v: Value) {
    v.Object? ==> v.ref in visited
  }

  predicate SeenUpTo(visited: set<Ref>, entries: seq<Value>, i: nat)
    requires i <= |entries|
  {
    forall j :: 0 <= j < i ==> Seen(visited, entries[j])
  }

  lemma OneMoreSeen(before: set<Ref>, after: set<Ref>, entries: seq<Value>, i: nat)
    requires i < |entries| && before <= after && SeenUpTo(before, entries, i) && Seen(after, entries[i])
    ensures SeenUpTo(after, entries, i + 1)
  {
  }

  lemma ExploredComposes(h: Heap, a: set<Ref>, b: set<Ref>, c: set<Ref>)
    requires Explored(h, a, b) && Explored(h, b, c)
    ensures Explored(h, a, c)
  {
    forall r | r in c - a
      ensures r in h && Finished(h, c, r)
    {
      if r in b {
        assert Finished(h, b, r);
      }
    }
  }

  /** An object whose every entry has been visited is finished as well. */
  lemma Finish(h: Heap, before: set<Ref>, r: Ref, after: set<Ref>)
    requires r in h && r !in before && Explored(h, before + {r}, after) && Finished(h, after, r)
    ensures Explored(h, before, after)
  {
  }

  /** A path from a visited value through explored objects stays among them. */
  lemma {:induction false} PathsStayInside(h: Heap, visited: set<Ref>, v: Value, steps: seq<Step>)
    requires Explored(h, {}, visited) && Seen(visited, v)
    ensures !LeadsToFixture(h, v, steps)
    decreases |steps|
  {
    if v.Object? {
      assert v.ref in visited - {} && Finished(h, visited, v.ref);
      if steps != [] && Child(h[v.ref], steps[0]).Some? {
        var child := Child(h[v.ref], steps[0]).value;
        assert Holds(h[v.ref], child);
        PathsStayInside(h, visited, child, steps[1..]);
      }
    }
  }

  lemma ExploredMeansNoFixture(h: Heap, visited: set<Ref>, v: Value)
    requires Explored(h, {}, visited) && Seen(visited, v)
    ensures !ReachesFixture(h, v)
  {
    forall steps
      ensures !LeadsToFixture(h, v, steps)
    {
      PathsStayInside(h, visited, v, steps);
    }
  }

  /** These are the keys of the record, in some order. */
  ghost predicate Enumerates(n: Node, keys: seq<string>) {
    n.Record? && forall k :: k in keys <==> k in n.values
  }

  lemma SortedKeysEnumerate(h: Heap, r: Ref)
    requires HeapOk(h) && r in h && h[r].Record?
    ensures Enumerates(h[r], Sort(CanonicalJson.StringLeq, h[r].keys))
  {
    assert NodeOk(h, h[r]);
    var sorted := Sort(CanonicalJson.StringLeq, h[r].keys);
    SortPermutes(CanonicalJson.StringLeq, h[r].keys);
    MultisetToSet(sorted, h[r].keys);
    assert forall k :: k in sorted <==> k in ToSet(sorted);
    assert forall k :: k in h[r].keys <==> k in ToSet(h[r].keys);
  }

  /** The values of a record, in the order of these keys. */
  function PropertyValues(n: Node, keys: seq<string>): seq<Value>
    requires n.Record? && Enumerates(n, keys)
  {
    seq(|keys|, i requires 0 <= i < |keys| => assert keys[i] in keys; n.values[keys[i]])
  }

  /** The entries of an array, or the values of a record in enumeration order. */
  function Entries(n: Node): seq<Value>
    requires n.Record? ==> Enumerates(n, n.keys)
  {
    match n
    case Items(items) => items
    case Record(keys, _) => PropertyValues(n, keys)
  }

  lemma PropertiesAreHeld(n: Node, keys: seq<string>, v: Value)
    requires Enumerates(n, keys)
    ensures v in PropertyValues(n, keys) <==> Holds(n, v)
  {
    var entries := PropertyValues(n, keys);
    if v in entries {
      var i :| 0 <= i < |entries| && entries[i] == v;
      assert keys[i] in keys;
    }
    if k :| k in n.values && n.values[k] == v {
      var i :| 0 <= i < |keys| && keys[i] == k;
      assert entries[i] == v;
    }
  }

  lemma PropertyIsHeld(h: Heap, r: Ref, keys: seq<string>, i: nat)
    requires HeapOk(h) && r in h && Enumerates(h[r], keys) && i < |keys|
    ensures var v := PropertyValues(h[r], keys)[i];
            Holds(h[r], v) && ValueOk(h, v) && Child(h[r], Property(keys[i])) == Some(v)
  {
    assert keys[i] in keys;
  }

  // ---------------------------------------------------------------- the shared set

  class WeakSet {
    var visited: set<Ref>

    constructor ()
      ensures visited == {}
    {
      visited := {};
    }
  }

  lemma OneStep(h: Heap, r: Ref, s: Step, child: Value, steps: seq<Step>)
    requires r in h && Child(h[r], s) == Some(child) && LeadsToFixture(h, child, steps)
    ensures LeadsToFixture(h, Object(r), [s] + steps)
  {
    assert ([s] + steps)[1..] == steps;
  }

  /** The finding is the text of a path from `v` to a marked object. */
  predicate Reports(h: Heap, v: Value, path: string, f: Finding) {
    LeadsToFixture(h, v, f.steps) && f.text == PathText(path, f.steps)
  }

  /** A finding below a child, seen from its parent. */
  function Above(s: Step, f: Finding): Finding {
    Finding([s] + f.steps, f.text)
  }

  lemma ReportedAbove(h: Heap, r: Ref, s: Step, child: Value, path: string, f: Finding)
    requires r in h && Child(h[r], s) == Some(child) && Reports(h, child, path + StepText(s), f)
    ensures Reports(h, Object(r), path, Above(s, f))
  {
    OneStep(h, r, s, child, f.steps);
    assert ([s] + f.steps)[1..] == f.steps;
  }

  // ---------------------------------------------------------------- the search as a function

  /** Where an object leads: its entries in order, its properties in the order of their keys. */
  function Leads(n: Node): seq<(Step, Value)> {
    match n
    case Items(items) => seq(|items|, i requires 0 <= i < |items| => (Index(i), items[i]))
    case Record(keys, values) => Properties(Sort(CanonicalJson.StringLeq, keys), values)
  }

  function Properties(keys: seq<string>, values: map<string, Value>): seq<(Step, Value)> {
    if keys == [] then []
    else
      (if keys[0] in values then [(Property(keys[0]), values[keys[0]])] else []) + Properties(keys[1..], values)
  }

  /** The first marked object below a value that was not visited before, and what has been visited then. */
  function Search(h: Heap, value: Value, path: string, visited: set<Ref>): (r: (Option<Finding>, set<Ref>))
    ensures visited <= r.1
    decreases h.Keys - visited, 0
  {
    if !value.Object? || value.ref !in h || value.ref in visited then (None, visited)
    else if Marked(h[value.ref]) then (Some(Finding([], path)), visited + {value.ref})
    else SearchAll(h, Leads(h[value.ref]), path, visited + {value.ref})
  }

  function SearchAll(h: Heap, leads: seq<(Step, Value)>, path: string, visited: set<Ref>): (r: (Option<Finding>, set<Ref>))
    ensures visited <= r.1
    decreases h.Keys - visited, 1 + |leads|
  {
    if leads == [] then (None, visited)
    else
      var first := Search(h, leads[0].1, path + StepText(leads[0].0), visited);
      if first.0.Some? then (Some(Above(leads[0].0, first.0.value)), first.1)
      else
        assert h.Keys - first.1 <= h.Keys - visited;
        SearchAll(h, leads[1..], path, first.1)
  }

  lemma {:induction false} SearchInOrder(h: Heap, leads: seq<(Step, Value)>, path: string, visited: set<Ref>, i: nat)
    requires i < |leads| && SearchAll(h, leads[..i], path, visited).0.None?
    ensures var before := SearchAll(h, leads[..i], path, visited);
            var next := Search(h, leads[i].1, path + StepText(leads[i].0), before.1);
            SearchAll(h, leads[..i + 1], path, visited) ==
              if next.0.Some? then (Some(Above(leads[i].0, next.0.value)), next.1) else (None, next.1)
    ensures SearchAll(h, leads[..i + 1], path, visited).0.Some? ==>
              SearchAll(h, leads, path, visited) == SearchAll(h, leads[..i + 1], path, visited)
    decreases |leads|
  {
    var head := leads[0];
    if i == 0 {
      assert leads[..1][0] == head && leads[..1][1..] == [] && leads[..0] == [];
    } else {
      var first := Search(h, head.1, path + StepText(head.0), visited);
      assert leads[..i][0] == head && leads[..i][1..] == leads[1..][..i - 1];
      assert leads[..i + 1][0] == head && leads[..i + 1][1..] == leads[1..][..i];
      assert leads[1..][i - 1] == leads[i];
      SearchInOrder(h, leads[1..], path, first.1, i - 1);
    }
  }

  lemma {:induction false} PropertiesAre(keys: seq<string>, values: map<string, Value>)
    requires forall k :: k in keys ==> k in values
    ensures |Properties(keys, values)| == |keys|
    ensures forall i :: 0 <= i < |keys| ==> keys[i] in values && Properties(keys, values)[i] == (Property(keys[i]), values[keys[i]])
  {
    if keys != [] {
      assert keys[0] in keys;
      PropertiesAre(keys[1..], values);
    }
  }

  // ---------------------------------------------------------------- the two searches as they run

  method Find(h: Heap, value: Value, path: string, seen: WeakSet) returns (finding: Option<Finding>)
    requires HeapOk(h) && ValueOk(h, value)
    modifies seen
    ensures (finding, seen.visited) == Search(h, value, path, old(seen.visited))
    ensures finding.None? ==> Explored(h, old(seen.visited), seen.visited) && Seen(seen.visited, value)
    ensures finding.Some? ==> Reports(h, value, path, finding.value)
    ensures old(seen.visited) <= seen.visited
    decreases h.Keys - seen.visited, 0
  {
    if !value.Object? {
      return None;
    }
    var r := value.ref;
    if r in seen.visited {
      return None;
    }
    seen.visited := seen.visited + {r};
    match h[r]
    case Items(_) =>
      finding := FindInItems(h, r, path, seen);
    case Record(_, _) =>
      if Marked(h[r]) {
        return Some(Finding([], path));
      }
      SortedKeysEnumerate(h, r);
      finding := FindInRecord(h, r, Sort(CanonicalJson.StringLeq, h[r].keys), path, seen);
    if finding.None? {
      Finish(h, old(seen.visited), r, seen.visited);
    }
  }

  method FindInItems(h: Heap, r: Ref, path: string, seen: WeakSet) returns (finding: Option<Finding>)
    requires HeapOk(h) && r in h && h[r].Items?
    modifies seen
    ensures (finding, seen.visited) == SearchAll(h, Leads(h[r]), path, old(seen.visited))
    ensures finding.None? ==> Explored(h, old(seen.visited), seen.visited) && Finished(h, seen.visited, r)
    ensures finding.Some? ==> Reports(h, Object(r), path, finding.value)
    ensures old(seen.visited) <= seen.visited
    decreases h.Keys - seen.visited, 1
  {
    var items := h[r].items;
    ghost var leads := Leads(h[r]);
    for index := 0 to |items|
      invariant SearchAll(h, leads[..index], path, old(seen.visited)) == (None, seen.visited)
      invariant Explored(h, old(seen.visited), seen.visited)
      invariant SeenUpTo(seen.visited, items, index)
    {
      assert Holds(h[r], items[index]);
      ghost var before := seen.visited;
      SearchInOrder(h, leads, path, old(seen.visited), index);
      finding := Find(h, items[index], path + StepText(Index(index)), seen);
      if finding.Some? {
        ReportedAbove(h, r, Index(index), items[index], path, finding.value);
        return Some(Above(Index(index), finding.value));
      }
      ExploredComposes(h, old(seen.visited), before, seen.visited);
      OneMoreSeen(before, seen.visited, items, index);
    }
    assert leads[..|items|] == leads;
    return None;
  }

  method FindInRecord(h: Heap, r: Ref, sorted: seq<string>, path: string, seen: WeakSet)
    returns (finding: Option<Finding>)
    requires HeapOk(h) && r in h && h[r].Record? && !Marked(h[r]) && Enumerates(h[r], sorted)
    modifies seen
    ensures (finding, seen.visited) == SearchAll(h, Properties(sorted, h[r].values), path, old(seen.visited))
    ensures finding.None? ==> Explored(h, old(seen.visited), seen.visited) && Finished(h, seen.visited, r)
    ensures finding.Some? ==> Reports(h, Object(r), path, finding.value)
    ensures old(seen.visited) <= seen.visited
    decreases h.Keys - seen.visited, 1
  {
    var entries := PropertyValues(h[r], sorted);
    ghost var leads := Properties(sorted, h[r].values);
    PropertiesAre(sorted, h[r].values);
    for i := 0 to |sorted|
      invariant SearchAll(h, leads[..i], path, old(seen.visited)) == (None, seen.visited)
      invariant Explored(h, old(seen.visited), seen.visited)
      invariant SeenUpTo(seen.visited, entries, i)
    {
      var step := Property(sorted[i]);
      PropertyIsHeld(h, r, sorted, i);
      ghost var before := seen.visited;
      SearchInOrder(h, leads, path, old(seen.visited), i);
      finding := Find(h, entries[i], path + StepText(step), seen);
      if finding.Some? {
        ReportedAbove(h, r, step, entries[i], path, finding.value);
        return Some(Above(step, finding.value));
      }
      ExploredComposes(h, old(seen.visited), before, seen.visited);
      OneMoreSeen(before, seen.visited, entries, i);
    }
    assert leads[..|sorted|] == leads;
    forall v | Holds(h[r], v)
      ensures Seen(seen.visited, v)
    {
      PropertiesAreHeld(h[r], sorted, v);
    }
    return None;
  }

  method Has(h: Heap, value: Value, seen: WeakSet) returns (found: bool)
    requires HeapOk(h) && ValueOk(h, value)
    modifies seen
    ensures !found ==> Explored(h, old(seen.visited), seen.visited) && Seen(seen.visited, value)
    ensures found ==> ReachesFixture(h, value)
    ensures old(seen.visited) <= seen.visited
    decreases h.Keys - seen.visited, 0
  {
    if !value.Object? {
      return false;
    }
    var r := value.ref;
    if r in seen.visited {
      return false;
    }
    seen.visited := seen.visited + {r};
    if Marked(h[r]) {
      assert LeadsToFixture(h, value, []);
      return true;
    }
    ghost var entered := seen.visited;
    EntriesAreHeld(h, r, value);
    var entries := Entries(h[r]);
    for i := 0 to |entries|
      invariant Explored(h, entered, seen.visited)
      invariant forall j :: 0 <= j < i ==> Seen(seen.visited, entries[j])
    {
      EntriesAreHeld(h, r, entries[i]);
      ghost var before := seen.visited;
      found := Has(h, entries[i], seen);
      if found {
        FixtureAbove(h, r, entries[i]);
        return true;
      }
      ExploredComposes(h, entered, before, seen.visited);
    }
    forall v | Holds(h[r], v)
      ensures v in entries
    {
      EntriesAreHeld(h, r, v);
    }
    Finish(h, old(seen.visited), r, seen.visited);
    return false;
  }

  lemma EntriesAreHeld(h: Heap, r: Ref, v: Value)
    requires HeapOk(h) && r in h
    ensures h[r].Record? ==> Enumerates(h[r], h[r].keys)
    ensures v in Entries(h[r]) <==> Holds(h[r], v)
  {
    assert NodeOk(h, h[r]);
    if h[r].Record? {
      PropertiesAreHeld(h[r], h[r].keys, v);
    }
  }

  lemma FixtureAbove(h: Heap, r: Ref, v: Value)
    requires HeapOk(h) && r in h && Holds(h[r], v) && ReachesFixture(h, v)
    ensures ReachesFixture(h, Object(r))
  {
    var steps :| LeadsToFixture(h, v, steps);
    match h[r]
    case Items(items) =>
      var i :| 0 <= i < |items| && items[i] == v;
      OneStep(h, r, Index(i), v, steps);
    case Record(_, values) =>
      var k :| k in values && values[k] == v;
      OneStep(h, r, Property(k), v, steps);
  }

  /** Finds nothing exactly when no fixture can be reached; what it finds is the text of a path to one. */
  method FindFixtureProvenance(h: Heap, value: Value, path: string) returns (finding: Option<Finding>)
    requires HeapOk(h) && ValueOk(h, value)
    ensures finding.Some? <==> ReachesFixture(h, value)
    ensures finding.Some? ==> Reports(h, value, path, finding.value)
    ensures finding == Search(h, value, path, {}).0
  {
    var seen := new WeakSet();
    finding := Find(h, value, path, seen);
    if finding.None? {
      ExploredMeansNoFixture(h, seen.visited, value);
    }
  }

  /** Answers the same question. */
  method HasFixtureProvenance(h: Heap, value: Value) returns (found: bool)
    requires HeapOk(h) && ValueOk(h, value)
    ensures found <==> ReachesFixture(h, value)
  {
    var seen := new WeakSet();
    found := Has(h, value, seen);
    if !found {
      ExploredMeansNoFixture(h, seen.visited, value);
    }
  }

  // ---------------------------------------------------------------- what is looked for, and in which order

  /** The last step is a property called `scenarioId` or `fixtureVersion`, or one `kind` with the text `fixture`. */
  predicate EndsAtAMark(h: Heap, value: Value, steps: seq<Step>) {
    && Follow(h, value, steps).Some? && steps != []
    && (|| steps[|steps| - 1] in {Property("scenarioId"), Property("fixtureVersion")}
        || (steps[|steps| - 1] == Property("kind") && Follow(h, value, steps).value == Text("fixture")))
  }

  lemma MarkBelow(h: Heap, value: Value, steps: seq<Step>) returns (key: string)
    requires LeadsToFixture(h, value, steps)
    ensures EndsAtAMark(h, value, steps + [Property(key)])
  {
    var at := Follow(h, value, steps).value;
    key := if "scenarioId" in h[at.ref].values then "scenarioId"
           else if "fixtureVersion" in h[at.ref].values then "fixtureVersion" else "kind";
    FollowOn(h, value, steps, Property(key));
  }

  lemma MarkedAbove(h: Heap, value: Value, steps: seq<Step>)
    requires EndsAtAMark(h, value, steps)
    ensures LeadsToFixture(h, value, steps[..|steps| - 1])
  {
    var front, last := steps[..|steps| - 1], steps[|steps| - 1];
    assert steps == front + [last];
    FollowOn(h, value, front, last);
  }

  /** A fixture can be reached exactly when some path leads to such a property. */
  lemma FixtureIsReachedExactlyWhen(h: Heap, value: Value)
    ensures ReachesFixture(h, value) <==> exists steps :: EndsAtAMark(h, value, steps)
  {
    if steps :| LeadsToFixture(h, value, steps) {
      var key := MarkBelow(h, value, steps);
      assert EndsAtAMark(h, value, steps + [Property(key)]);
    }
    if steps :| EndsAtAMark(h, value, steps) {
      MarkedAbove(h, value, steps);
    }
  }

  lemma {:induction false} FollowOn(h: Heap, v: Value, steps: seq<Step>, last: Step)
    ensures Follow(h, v, steps + [last]) ==
            if Follow(h, v, steps).None? || !Follow(h, v, steps).value.Object? || Follow(h, v, steps).value.ref !in h then None
            else Child(h[Follow(h, v, steps).value.ref], last)
    decreases |steps|
  {
    var all := steps + [last];
    if steps == [] {
      assert all == [last] && all[1..] == [];
      if v.Object? && v.ref in h && Child(h[v.ref], last).Some? {
        assert Follow(h, Child(h[v.ref], last).value, []) == Child(h[v.ref], last);
      }
    } else {
      assert all[0] == steps[0] && all[1..] == steps[1..] + [last];
      if v.Object? && v.ref in h && Child(h[v.ref], steps[0]).Some? {
        FollowOn(h, Child(h[v.ref], steps[0]).value, steps[1..], last);
      }
    }
  }

  /** A path is written as its root followed by each step: an index in brackets, a key after a dot. */
  lemma {:induction false} PathIsWritten(root: string, steps: seq<Step>, i: nat, key: string)
    ensures PathText(root, []) == root
    ensures PathText(root, steps + [Index(i)]) == PathText(root, steps) + "[" + Decimal(i) + "]"
    ensures PathText(root, steps + [Property(key)]) == PathText(root, steps) + "." + key
    decreases |steps|
  {
    if steps != [] {
      assert (steps + [Index(i)])[1..] == steps[1..] + [Index(i)] && (steps + [Property(key)])[1..] == steps[1..] + [Property(key)];
      PathIsWritten(root + StepText(steps[0]), steps[1..], i, key);
    } else {
      assert [Index(i)][1..] == [] && [Property(key)][1..] == [];
      assert steps + [Index(i)] == [Index(i)] && steps + [Property(key)] == [Property(key)];
    }
  }

  /** Two heaps with the same objects, whose records may enumerate their keys differently. */
  ghost predicate SameObjects(h: Heap, g: Heap) {
    && h.Keys == g.Keys
    && forall r :: r in h ==> SameNode(h[r], g[r])
  }

  ghost predicate SameNode(a: Node, b: Node) {
    match a
    case Items(_) => a == b
    case Record(keys, values) => b.Record? && b.values == values && multiset(b.keys) == multiset(keys)
  }

  lemma SameLeads(a: Node, b: Node)
    requires SameNode(a, b)
    ensures Leads(a) == Leads(b) && (Marked(a) <==> Marked(b))
  {
    if a.Record? {
      CanonicalJson.KeyOrders();
      SortSorted(CanonicalJson.StringLeq, a.keys);
      SortSorted(CanonicalJson.StringLeq, b.keys);
      SortPermutes(CanonicalJson.StringLeq, a.keys);
      SortPermutes(CanonicalJson.StringLeq, b.keys);
      var x, y := Sort(CanonicalJson.StringLeq, a.keys), Sort(CanonicalJson.StringLeq, b.keys);
      CanonicalJson.StringTieless(x);
      CanonicalJson.StringTieless(y);
      SortedUnique(CanonicalJson.StringLeq, x, y);
    }
  }

  /** The report does not depend on the order in which records enumerate their keys. */
  lemma {:induction false} ReportIgnoresEnumeration(h: Heap, g: Heap, value: Value, path: string, visited: set<Ref>)
    requires SameObjects(h, g)
    ensures Search(h, value, path, visited) == Search(g, value, path, visited)
    decreases h.Keys - visited, 0
  {
    if value.Object? && value.ref in h && value.ref !in visited {
      assert SameNode(h[value.ref], g[value.ref]);
      SameLeads(h[value.ref], g[value.ref]);
      if !Marked(h[value.ref]) {
        ReportsIgnoreEnumeration(h, g, Leads(h[value.ref]), path, visited + {value.ref});
      }
    }
  }

  lemma {:induction false} ReportsIgnoreEnumeration(h: Heap, g: Heap, leads: seq<(Step, Value)>, path: string, visited: set<Ref>)
    requires SameObjects(h, g)
    ensures SearchAll(h, leads, path, visited) == SearchAll(g, leads, path, visited)
    decreases h.Keys - visited, 1 + |leads|
  {
    if leads != [] {
      var first := Search(h, leads[0].1, path + StepText(leads[0].0), visited);
      ReportIgnoresEnumeration(h, g, leads[0].1, path + StepText(leads[0].0), visited);
      assert h.Keys - first.1 <= h.Keys - visited;
      ReportsIgnoreEnumeration(h, g, leads[1..], path, first.1);
    }
  }
}
