/**
  The Mullvad exit-node dialog of mullvad.js as objects: the location and
  node items with their `selected`/`expanded` properties, the flat list of
  children of `_listBox`, and `MullvadExitNodeDialog`, which builds the list
  from the processed catalog, expands and collapses locations in place and
  writes the chosen node to the client's `exit_node`.

  Widgets are reduced to the values they show; `_listBox` is the sequence of
  its children. A container holds each actor at most once, so the children
  never repeat.
 */
module MullvadDialog {
  import opened Wrappers
  import Seqs
  import opened MullvadCatalog
  import TC = TailscaleClient

  // ---- notifying properties ----

  /** A boolean GObject property and the notifications emitted for it so far. */
  datatype Property = Property(value: bool, notifications: seq<string>)

  /** The `selected`/`expanded` setters: store and notify only when the value changes. */
  function Assign(p: Property, value: bool, name: string): Property {
    if p.value != value then Property(value, p.notifications + [name]) else p
  }

  /**
    After a set the property holds the new value; exactly one notification is
    emitted when it changed and none otherwise, so setting twice is setting once.
   */
  lemma AssignSpec(p: Property, value: bool, name: string)
    ensures Assign(p, value, name).value == value
    ensures p.value != value ==> Assign(p, value, name).notifications == p.notifications + [name]
    ensures p.value == value ==> Assign(p, value, name) == p
    ensures Assign(Assign(p, value, name), value, name) == Assign(p, value, name)
  {
  }

  // ---- the items ----

  /** `MullvadNodeItem`: one node of an expanded location. */
  class NodeItem {
    const name: string
    const nodeId: string
    const priority: int
    var selected: bool
    var notifications: seq<string>

    function Selected(): Property
      reads this
    {
      Property(selected, notifications)
    }

    constructor(name: string, nodeId: string, priority: int, isSelected: bool)
      ensures this.name == name && this.nodeId == nodeId && this.priority == priority
      ensures selected == isSelected && notifications == []
    {
      this.name, this.nodeId, this.priority := name, nodeId, priority;
      selected, notifications := isSelected, [];
    }

    /** The `selected` setter. */
    method SetSelected(value: bool)
      modifies this
      ensures Selected() == Assign(old(Selected()), value, "selected")
    {
      if selected != value {
        selected := value;
        notifications := notifications + ["selected"];
      }
    }
  }

  /** `MullvadLocationItem`: one location, with its best node and all its nodes. */
  class LocationItem {
    const city: string
    const country: string
    const nodeCount: nat
    const bestNode: Option<MullvadNode>
    const nodes: seq<MullvadNode>
    const countryCode: string
    var selected: bool
    var expanded: bool
    var notifications: seq<string>

    function Selected(): Property
      reads this
    {
      Property(selected, notifications)
    }

    function Expanded(): Property
      reads this
    {
      Property(expanded, notifications)
    }

    /** The item shows `location`. */
    predicate Shows(location: Location) {
      && city == location.city && country == location.country
      && nodeCount == location.nodeCount && bestNode == location.bestNode
      && nodes == location.nodes && countryCode == location.countryCode
    }

    constructor(location: Location)
      ensures Shows(location)
      ensures !selected && !expanded && notifications == []
    {
      city, country, nodeCount := location.city, location.country, location.nodeCount;
      bestNode, nodes, countryCode := location.bestNode, location.nodes, location.countryCode;
      selected, expanded, notifications := false, false, [];
    }

    /** The `selected` setter. */
    method SetSelected(value: bool)
      modifies this
      ensures Selected() == Assign(old(Selected()), value, "selected")
      ensures expanded == old(expanded)
    {
      if selected != value {
        selected := value;
        notifications := notifications + ["selected"];
      }
    }

    /** The `expanded` setter. */
    method SetExpanded(value: bool)
      modifies this
      ensures Expanded() == Assign(old(Expanded()), value, "expanded")
      ensures selected == old(selected)
    {
      if expanded != value {
        expanded := value;
        notifications := notifications + ["expanded"];
      }
    }
  }

  /** A child of `_listBox`: a location item, a node item or the "No locations found" box. */
  datatype ListChild = LocationChild(location: LocationItem) | NodeChild(node: NodeItem) | NoResults

  function NodeChildren(items: seq<NodeItem>): (r: seq<ListChild>)
    ensures |r| == |items|
    ensures forall j :: 0 <= j < |items| ==> r[j] == NodeChild(items[j])
  {
    seq(|items|, j requires 0 <= j < |items| => NodeChild(items[j]))
  }

  function LocationChildren(items: seq<LocationItem>): (r: seq<ListChild>)
    ensures |r| == |items|
    ensures forall j :: 0 <= j < |items| ==> r[j] == LocationChild(items[j])
  {
    seq(|items|, j requires 0 <= j < |items| => LocationChild(items[j]))
  }

  predicate AllNodeChildren(run: seq<ListChild>) {
    forall j :: 0 <= j < |run| ==> run[j].NodeChild?
  }

  // ---- expanding and collapsing in the flat list ----

  /**
    The end of the run of node items starting at `from`: the first position
    at or after `from` that is not a node item, or the end of the list.
   */
  function RunEnd(c: seq<ListChild>, from: nat): (r: nat)
    requires from <= |c|
    ensures from <= r <= |c|
    ensures forall j :: from <= j < r ==> c[j].NodeChild?
    ensures r < |c| ==> !c[r].NodeChild?
    decreases |c| - from
  {
    if from == |c| || !c[from].NodeChild? then from else RunEnd(c, from + 1)
  }

  /** `_removeNodeItemsForLocation`: drop the node items right after the location, if it is listed. */
  function Collapse(c: seq<ListChild>, loc: LocationItem): seq<ListChild> {
    var i := Seqs.IndexOf(c, LocationChild(loc));
    if i == -1 then c else c[..i + 1] + c[RunEnd(c, i + 1)..]
  }

  /** Insert `run` right after the location, if it is listed. */
  function InsertAfter(c: seq<ListChild>, loc: LocationItem, run: seq<ListChild>): seq<ListChild> {
    var i := Seqs.IndexOf(c, LocationChild(loc));
    if i == -1 then c else c[..i + 1] + run + c[i + 1..]
  }

  /** `_onLocationItemExpandToggled(loc, true)`, given the node items it creates. */
  function ExpandWith(c: seq<ListChild>, loc: LocationItem, run: seq<ListChild>): seq<ListChild> {
    InsertAfter(Collapse(c, loc), loc, run)
  }

  /** A run of node items is exactly as long as the characterisation of `RunEnd` says. */
  lemma {:induction false} RunEndUnique(c: seq<ListChild>, from: nat, r: nat)
    requires from <= r <= |c|
    requires forall j :: from <= j < r ==> c[j].NodeChild?
    requires r < |c| ==> !c[r].NodeChild?
    ensures RunEnd(c, from) == r
    decreases r - from
  {
    if from < r {
      RunEndUnique(c, from + 1, r);
    }
  }

  /**
    Collapsing keeps everything up to the location and everything from the
    end of the run of node items after it; afterwards no node item follows
    the location.
   */
  lemma CollapseShape(c: seq<ListChild>, loc: LocationItem)
    requires LocationChild(loc) in c
    ensures var i := Seqs.IndexOf(c, LocationChild(loc));
      var r := Collapse(c, loc);
      && i + 1 <= |r|
      && r[..i + 1] == c[..i + 1]
      && r[i + 1..] == c[RunEnd(c, i + 1)..]
      && (i + 1 < |r| ==> !r[i + 1].NodeChild?)
  {
  }

  lemma CollapseFrom(c: seq<ListChild>, loc: LocationItem, k: int)
    requires LocationChild(loc) in c && 0 <= k < |Collapse(c, loc)|
    ensures Collapse(c, loc)[k] in c
  {
    var i := Seqs.IndexOf(c, LocationChild(loc));
    var e := RunEnd(c, i + 1);
    var pre, post := c[..i + 1], c[e..];
    assert Collapse(c, loc) == pre + post;
    if k <= i {
      assert (pre + post)[k] == pre[k];
    } else {
      assert (pre + post)[k] == post[k - i - 1];
    }
  }

  lemma CollapseKeeps(c: seq<ListChild>, loc: LocationItem, k: int)
    requires LocationChild(loc) in c && 0 <= k < |c| && !c[k].NodeChild?
    ensures c[k] in Collapse(c, loc)
  {
    var i := Seqs.IndexOf(c, LocationChild(loc));
    var e := RunEnd(c, i + 1);
    var pre, post := c[..i + 1], c[e..];
    assert Collapse(c, loc) == pre + post;
    if k <= i {
      assert (pre + post)[k] == pre[k];
    } else {
      assert k >= e;
      assert (pre + post)[k - e + i + 1] == post[k - e];
    }
  }

  /**
    Collapsing removes only node items, and does nothing when the location
    is not listed.
   */
  lemma CollapseSpec(c: seq<ListChild>, loc: LocationItem)
    ensures LocationChild(loc) !in c ==> Collapse(c, loc) == c
    ensures forall x :: x in Collapse(c, loc) ==> x in c
    ensures forall x :: x in c && !x.NodeChild? ==> x in Collapse(c, loc)
  {
    if LocationChild(loc) in c {
      forall x | x in Collapse(c, loc) ensures x in c {
        var k :| 0 <= k < |Collapse(c, loc)| && Collapse(c, loc)[k] == x;
        CollapseFrom(c, loc, k);
      }
      forall x | x in c && !x.NodeChild? ensures x in Collapse(c, loc) {
        var k :| 0 <= k < |c| && c[k] == x;
        CollapseKeeps(c, loc, k);
      }
    }
  }

  /** A listed location stays listed when it is collapsed. */
  lemma CollapseKeepsLocation(c: seq<ListChild>, loc: LocationItem)
    requires LocationChild(loc) in c
    ensures LocationChild(loc) in Collapse(c, loc)
  {
    var i := Seqs.IndexOf(c, LocationChild(loc));
    assert Collapse(c, loc)[i] == c[i];
  }

  /** The location keeps its position when the list is collapsed. */
  lemma CollapseKeepsIndex(c: seq<ListChild>, loc: LocationItem)
    requires LocationChild(loc) in c
    ensures Seqs.IndexOf(Collapse(c, loc), LocationChild(loc)) == Seqs.IndexOf(c, LocationChild(loc))
  {
    var i := Seqs.IndexOf(c, LocationChild(loc));
    var r := Collapse(c, loc);
    assert r[..i + 1] == c[..i + 1];
    Seqs.IndexOfSamePrefix(c, r, LocationChild(loc));
  }

  /** The location keeps its position when items are inserted after it. */
  lemma InsertAfterKeepsIndex(c: seq<ListChild>, loc: LocationItem, run: seq<ListChild>)
    requires LocationChild(loc) in c
    ensures Seqs.IndexOf(InsertAfter(c, loc, run), LocationChild(loc)) == Seqs.IndexOf(c, LocationChild(loc))
  {
    var i := Seqs.IndexOf(c, LocationChild(loc));
    var r := InsertAfter(c, loc, run);
    assert r[..i + 1] == c[..i + 1];
    Seqs.IndexOfSamePrefix(c, r, LocationChild(loc));
  }

  /** Collapsing twice is collapsing once. */
  lemma CollapseIdempotent(c: seq<ListChild>, loc: LocationItem)
    ensures Collapse(Collapse(c, loc), loc) == Collapse(c, loc)
  {
    var i := Seqs.IndexOf(c, LocationChild(loc));
    if i != -1 {
      var r := Collapse(c, loc);
      CollapseShape(c, loc);
      CollapseKeepsIndex(c, loc);
      RunEndUnique(r, i + 1, i + 1);
      assert r[..i + 1] + r[i + 1..] == r;
    }
  }

  /** The first occurrence of the location is the last element of `pre`. */
  predicate EndsWithFirst(pre: seq<ListChild>, loc: LocationItem) {
    pre != [] && pre[|pre| - 1] == LocationChild(loc) && LocationChild(loc) !in pre[..|pre| - 1]
  }

  lemma IndexOfEndsWithFirst(pre: seq<ListChild>, rest: seq<ListChild>, loc: LocationItem)
    requires EndsWithFirst(pre, loc)
    ensures Seqs.IndexOf(pre + rest, LocationChild(loc)) == |pre| - 1
  {
    var s := pre + rest;
    assert s[..|pre| - 1] == pre[..|pre| - 1];
    assert s[|pre| - 1] == LocationChild(loc);
  }

  /** Node items inserted after a collapsed location are exactly what collapsing it removes. */
  lemma CollapseInserted(pre: seq<ListChild>, run: seq<ListChild>, post: seq<ListChild>, loc: LocationItem)
    requires EndsWithFirst(pre, loc)
    requires post != [] ==> !post[0].NodeChild?
    requires AllNodeChildren(run)
    ensures Collapse(pre + run + post, loc) == pre + post
  {
    var e := pre + run + post;
    assert e == pre + (run + post);
    IndexOfEndsWithFirst(pre, run + post, loc);
    var i := |pre| - 1;
    forall j | i + 1 <= j < i + 1 + |run| ensures e[j].NodeChild? {
      assert e[j] == run[j - |pre|];
    }
    if |pre| + |run| < |e| {
      assert e[|pre| + |run|] == post[0];
    }
    RunEndUnique(e, |pre|, |pre| + |run|);
    assert e[..|pre|] == pre;
    assert e[|pre| + |run|..] == post;
  }

  /** Collapsing after an expansion removes exactly the inserted node items. */
  lemma CollapseUndoesExpand(c: seq<ListChild>, loc: LocationItem, run: seq<ListChild>)
    requires AllNodeChildren(run)
    ensures Collapse(ExpandWith(c, loc, run), loc) == Collapse(c, loc)
  {
    if LocationChild(loc) in c {
      var i := Seqs.IndexOf(c, LocationChild(loc));
      var r := Collapse(c, loc);
      CollapseShape(c, loc);
      CollapseKeepsIndex(c, loc);
      var pre, post := r[..i + 1], r[i + 1..];
      assert pre[..i] == c[..i];
      assert ExpandWith(c, loc, run) == pre + run + post;
      CollapseInserted(pre, run, post, loc);
      assert pre + post == r;
    } else {
      CollapseSpec(c, loc);
    }
  }

  /**
    Expanding a location that is already expanded replaces its node items
    instead of adding a second copy.
   */
  lemma ExpandTwice(c: seq<ListChild>, loc: LocationItem, first: seq<ListChild>, second: seq<ListChild>)
    requires AllNodeChildren(first)
    ensures ExpandWith(ExpandWith(c, loc, first), loc, second) == ExpandWith(c, loc, second)
  {
    CollapseUndoesExpand(c, loc, first);
  }

  /**
    After an expansion the location is followed by exactly the inserted node
    items and then by what followed its old run of node items.
   */
  lemma ExpandWithSpec(c: seq<ListChild>, loc: LocationItem, run: seq<ListChild>)
    requires LocationChild(loc) in c
    ensures var i := Seqs.IndexOf(c, LocationChild(loc));
      var e := ExpandWith(c, loc, run);
      && e[..i + 1] == c[..i + 1]
      && e[i + 1..i + 1 + |run|] == run
      && e[i + 1 + |run|..] == c[RunEnd(c, i + 1)..]
  {
    CollapseKeepsIndex(c, loc);
  }

  /** Collapsing keeps the children distinct. */
  lemma CollapseNoDuplicates(c: seq<ListChild>, loc: LocationItem)
    requires Seqs.NoDuplicates(c)
    ensures Seqs.NoDuplicates(Collapse(c, loc))
  {
    var i := Seqs.IndexOf(c, LocationChild(loc));
    if i != -1 {
      Seqs.NoDuplicatesSplice(c, i + 1, RunEnd(c, i + 1));
    }
  }

  /** Distinct new node items inserted after a listed location keep the children distinct. */
  lemma InsertAfterNoDuplicates(c: seq<ListChild>, loc: LocationItem, run: seq<ListChild>)
    requires Seqs.NoDuplicates(c) && Seqs.NoDuplicates(run)
    requires forall x :: x in run ==> x !in c
    ensures Seqs.NoDuplicates(InsertAfter(c, loc, run))
  {
    var i := Seqs.IndexOf(c, LocationChild(loc));
    if i != -1 {
      Seqs.NoDuplicatesInsert(c, i + 1, run);
    }
  }


  lemma LocationChildrenSnoc(items: seq<LocationItem>, item: LocationItem)
    ensures LocationChildren(items + [item]) == LocationChildren(items) + [LocationChild(item)]
  {
  }

  lemma NodeChildrenSnoc(items: seq<NodeItem>, item: NodeItem)
    ensures NodeChildren(items + [item]) == NodeChildren(items) + [NodeChild(item)]
  {
  }

  /**
    Removing the node items of a run one by one from the front: once `k` of
    them are gone, the next one sits right after the kept prefix, and
    removing it leaves one fewer.
   */
  lemma RemoveRunStep(c: seq<ListChild>, a: nat, k: nat, s: seq<ListChild>, child: ListChild)
    requires a + k < |c| && s == c[..a] + c[a + k..] && child == c[a + k] && child !in c[..a]
    ensures Seqs.RemoveFirst(s, child) == c[..a] + c[a + (k + 1)..]
  {
    assert c[a + k..] == [child] + c[a + (k + 1)..];
    assert s == c[..a] + [child] + c[a + (k + 1)..];
    Seqs.RemoveFirstAfter(c[..a], child, c[a + (k + 1)..]);
  }

  /** In a sequence without duplicates, what follows position `a` does not occur before it. */
  lemma NoDuplicatesDisjoint(c: seq<ListChild>, a: nat, b: nat)
    requires Seqs.NoDuplicates(c) && a <= b <= |c|
    ensures forall x :: x in c[a..b] ==> x !in c[..a]
  {
    forall x | x in c[a..b] ensures x !in c[..a] {
      var j :| a <= j < b && c[j] == x;
      forall i | 0 <= i < a ensures c[..a][i] != x {
        assert c[..a][i] == c[i] != c[j];
      }
    }
  }

  /** Inserting one more child at the end of a run inserted at `a` extends the run. */
  lemma InsertRunSnoc(c: seq<ListChild>, a: nat, run: seq<ListChild>, x: ListChild)
    requires a <= |c|
    ensures var s := c[..a] + run + c[a..];
      s[..a + |run|] + [x] + s[a + |run|..] == c[..a] + (run + [x]) + c[a..]
  {
    var s := c[..a] + run + c[a..];
    assert s[..a + |run|] == c[..a] + run;
    assert s[a + |run|..] == c[a..];
  }

  /**
    The collecting loop of `_removeNodeItemsForLocation`: the children from
    `from` on, up to the first one that is not a node item.
   */
  method CollectNodeItems(children: seq<ListChild>, from: nat) returns (nodesToRemove: seq<ListChild>)
    requires from <= |children|
    ensures nodesToRemove == children[from..RunEnd(children, from)]
    ensures AllNodeChildren(nodesToRemove)
  {
    nodesToRemove := [];
    var i := from;
    while i < |children|
      invariant from <= i <= |children|
      invariant nodesToRemove == children[from..i]
      invariant forall j :: from <= j < i ==> children[j].NodeChild?
      decreases |children| - i
    {
      var child := children[i];
      if child.NodeChild? {
        nodesToRemove := nodesToRemove + [child];
      } else {
        break;
      }
      i := i + 1;
    }
    RunEndUnique(children, from, i);
  }

  /** A node item made for `node`: its name, id and shown priority, selected exactly when it is the current exit node. */
  predicate NodeItemFor(item: NodeItem, node: MullvadNode, exitNode: string)
    reads item
  {
    && item.name == node.name && item.nodeId == node.id && item.priority == ShownPriority(node)
    && item.Selected() == Property(node.id == exitNode, [])
  }

  /** The `selected` property of a list child; the no-results box has none. */
  function SelectedOf(child: ListChild): Option<Property>
    reads ObjectsOf(Some(child))
  {
    match child
    case LocationChild(l) => Some(l.Selected())
    case NodeChild(n) => Some(n.Selected())
    case NoResults => None
  }

  // ---- the dialog ----

  /** The location shows as the current exit node: its best node is the client's `exit_node`. */
  predicate IsCurrent(location: Location, exitNode: string) {
    location.bestNode.Some? && location.bestNode.value.id == exitNode
  }

  /** The last location that is the current exit node, or -1. */
  function LastCurrent(locations: seq<Location>, exitNode: string): (m: int)
    ensures -1 <= m < |locations|
    ensures m >= 0 ==> IsCurrent(locations[m], exitNode)
    ensures forall j :: m < j < |locations| ==> !IsCurrent(locations[j], exitNode)
  {
    if locations == [] then -1
    else if IsCurrent(locations[|locations| - 1], exitNode) then |locations| - 1
    else LastCurrent(locations[..|locations| - 1], exitNode)
  }

  // ---- the catalog steps, one key at a time ----

  /** The grouping after `_findBestNodesForLocations` has visited the keys `done`. */
  ghost function BestSoFar(g: Grouping, done: seq<string>): Grouping {
    Grouping(g.keys, map k | k in g.data :: if k in done then WithBest(g.data[k]) else g.data[k])
  }

  lemma BestSoFarStart(g: Grouping)
    ensures BestSoFar(g, []) == g
  {
    assert BestSoFar(g, []).data == g.data;
  }

  /** Visiting one more key replaces its entry, still untouched, by the entry with its best node. */
  lemma BestSoFarStep(g: Grouping, done: seq<string>, key: string)
    requires key in g.data && key !in done
    ensures BestSoFar(g, done).data[key] == g.data[key]
    ensures BestSoFar(g, done + [key]) ==
      BestSoFar(g, done).(data := BestSoFar(g, done).data[key := WithBest(g.data[key])])
  {
    var before, after := BestSoFar(g, done), BestSoFar(g, done + [key]);
    assert after.data == before.data[key := WithBest(g.data[key])];
  }

  lemma BestSoFarDone(g: Grouping)
    requires WellFormed(g)
    ensures BestSoFar(g, g.keys) == WithBestAll(g)
  {
    assert BestSoFar(g, g.keys).data == WithBestAll(g).data;
  }

  /** The grouping after `_removeInvalidLocations` has visited its first `i` keys. */
  ghost function PrunedSoFar(g: Grouping, i: nat): Grouping
    requires i <= |g.keys|
  {
    Grouping(Seqs.Filter(g.keys[..i], Keeps(g)) + g.keys[i..],
             map k | k in g.data && (k in g.keys[..i] ==> IsValidLocation(g.data[k])) :: g.data[k])
  }

  lemma PrunedSoFarStart(g: Grouping)
    ensures PrunedSoFar(g, 0) == g
  {
    assert g.keys[..0] == [] && g.keys[0..] == g.keys;
    assert PrunedSoFar(g, 0).data == g.data;
  }

  /** Visiting key `i` keeps its key when the location is valid and deletes the key otherwise. */
  lemma PrunedKeysStep(g: Grouping, i: nat)
    requires WellFormed(g) && i < |g.keys|
    ensures var p, key := PrunedSoFar(g, i), g.keys[i];
      PrunedSoFar(g, i + 1).keys == if IsValidLocation(g.data[key]) then p.keys else Seqs.RemoveFirst(p.keys, key)
  {
    var key, done, rest := g.keys[i], g.keys[..i], g.keys[i + 1..];
    var keep := Keeps(g);
    var f := Seqs.Filter(done, keep);
    assert g.keys[..i + 1] == done + [key];
    assert g.keys[i..] == [key] + rest;
    assert PrunedSoFar(g, i).keys == f + [key] + rest;
    assert PrunedSoFar(g, i + 1).keys == Seqs.Filter(done + [key], keep) + rest;
    Seqs.FilterAppend(done, [key], keep);
    if IsValidLocation(g.data[key]) {
      assert keep(key);
      assert Seqs.Filter([key], keep) == [key];
      assert Seqs.Filter(done + [key], keep) == f + [key];
    } else {
      assert !keep(key);
      assert Seqs.Filter([key], keep) == [];
      assert Seqs.Filter(done + [key], keep) == f;
      assert key !in done;
      Seqs.FilterSpec(done, keep);
      Seqs.RemoveFirstAfter(f, key, rest);
    }
  }

  /** Visiting key `i` keeps its entry when the location is valid and deletes it otherwise. */
  lemma PrunedDataStep(g: Grouping, i: nat)
    requires WellFormed(g) && i < |g.keys|
    ensures var p, key := PrunedSoFar(g, i), g.keys[i];
      && key in p.data && p.data[key] == g.data[key]
      && PrunedSoFar(g, i + 1).data == if IsValidLocation(g.data[key]) then p.data else p.data - {key}
  {
    var key := g.keys[i];
    assert key !in g.keys[..i];
    assert g.keys[..i + 1] == g.keys[..i] + [key];
  }

  /** Visiting key `i` keeps a valid location and deletes an invalid one from the keys and the map. */
  lemma PrunedSoFarStep(g: Grouping, i: nat)
    requires WellFormed(g) && i < |g.keys|
    ensures var p, key := PrunedSoFar(g, i), g.keys[i];
      && key in p.data && p.data[key] == g.data[key]
      && PrunedSoFar(g, i + 1) ==
           if IsValidLocation(g.data[key]) then p else Grouping(Seqs.RemoveFirst(p.keys, key), p.data - {key})
  {
    PrunedKeysStep(g, i);
    PrunedDataStep(g, i);
  }

  lemma PrunedSoFarDone(g: Grouping)
    requires WellFormed(g)
    ensures PrunedSoFar(g, |g.keys|) == RemoveInvalid(g)
  {
    assert g.keys[..|g.keys|] == g.keys;
    assert g.keys[|g.keys|..] == [];
    assert PrunedSoFar(g, |g.keys|).data == RemoveInvalid(g).data;
  }

  /** Scanning one more location moves the last current one to it exactly when it is current. */
  lemma LastCurrentSnoc(locations: seq<Location>, i: nat, exitNode: string)
    requires i < |locations|
    ensures LastCurrent(locations[..i + 1], exitNode) ==
      if IsCurrent(locations[i], exitNode) then i else LastCurrent(locations[..i], exitNode)
  {
    assert locations[..i + 1][..i] == locations[..i];
  }

  /**
    The selection after items were created for `locations` one by one,
    starting from `selected`: the item of the last current location, if any.
   */
  function SelectedAfter(locations: seq<Location>, items: seq<LocationItem>, selected: Option<ListChild>, exitNode: string): Option<ListChild>
    requires |items| == |locations|
  {
    var m := LastCurrent(locations, exitNode);
    if m == -1 then selected else Some(LocationChild(items[m]))
  }

  /** One more created item moves the selection to it exactly when its location is current. */
  lemma SelectedAfterSnoc(locations: seq<Location>, i: nat, items: seq<LocationItem>, item: LocationItem, selected: Option<ListChild>, exitNode: string)
    requires i < |locations| && |items| == i
    ensures SelectedAfter(locations[..i + 1], items + [item], selected, exitNode) ==
      if IsCurrent(locations[i], exitNode) then Some(LocationChild(item)) else SelectedAfter(locations[..i], items, selected, exitNode)
  {
    LastCurrentSnoc(locations, i, exitNode);
    var m := LastCurrent(locations[..i], exitNode);
    assert m != -1 ==> (items + [item])[m] == items[m];
  }

  /** Every location shown from a processed catalog has a best node. */
  lemma ShownHaveBestNodes(g: Grouping, query: string)
    requires IsProcessed(g)
    ensures forall j :: 0 <= j < |FilteredAndSorted(g, query)| ==> FilteredAndSorted(g, query)[j].bestNode.Some?
  {
    var shown := FilteredAndSorted(g, query);
    FilteredAndSortedSpec(g, query);
    forall j | 0 <= j < |shown| ensures shown[j].bestNode.Some? {
      assert shown[j] in shown;
    }
  }

  /** The item for `location` as `_createLocationItems` leaves it: collapsed, selected when current. */
  predicate CreatedFor(item: LocationItem, location: Location, exitNode: string)
    reads item
  {
    && item.Shows(location)
    && !item.expanded
    && item.Selected() == Property(IsCurrent(location, exitNode), if IsCurrent(location, exitNode) then ["selected"] else [])
  }

  /**
    `_listBox` and `_locationItems` show `locations`: one collapsed location
    item per location, in order, each selected exactly when it is the current
    exit node; or, for no locations, only the no-results box. The children
    are distinct.
   */
  predicate Lists(listBox: seq<ListChild>, items: seq<LocationItem>, locations: seq<Location>, exitNode: string)
    reads items
  {
    && |items| == |locations|
    && (if locations == [] then listBox == [NoResults] else listBox == LocationChildren(items))
    && Seqs.NoDuplicates(listBox)
    && forall j :: 0 <= j < |items| ==> CreatedFor(items[j], locations[j], exitNode)
  }

  /** Location items created into an empty list show the locations. */
  lemma CreatedLists(listBox0: seq<ListChild>, listBox: seq<ListChild>, items0: seq<LocationItem>,
                     locationItems: seq<LocationItem>, created: seq<LocationItem>,
                     locations: seq<Location>, exitNode: string)
    requires listBox0 == [] && items0 == []
    requires listBox == listBox0 + LocationChildren(created) && locationItems == items0 + created
    requires |created| == |locations| > 0 && Seqs.NoDuplicates(created)
    requires forall j :: 0 <= j < |created| ==> CreatedFor(created[j], locations[j], exitNode)
    ensures locationItems == created
    ensures Lists(listBox, locationItems, locations, exitNode) && Seqs.NoDuplicates(listBox)
  {
    assert locationItems == created;
    assert listBox == LocationChildren(created);
  }

  /** The no-results box alone lists no locations. */
  lemma NoResultsLists(listBox0: seq<ListChild>, listBox: seq<ListChild>, exitNode: string)
    requires listBox0 == [] && listBox == listBox0 + [NoResults]
    ensures Lists(listBox, [], [], exitNode) && Seqs.NoDuplicates(listBox)
  {
  }

  /** The objects a click on a child may update. */
  function ObjectsOf(c: Option<ListChild>): set<object> {
    match c
    case Some(LocationChild(l)) => {l}
    case Some(NodeChild(n)) => {n}
    case _ => {}
  }

  /** The `selected` setter applied to a property that may be absent. */
  function AssignSelected(p: Option<Property>, value: bool): Option<Property> {
    match p
    case None => None
    case Some(q) => Some(Assign(q, value, "selected"))
  }

  /** `child.selected = value`. */
  method SetChildSelected(child: ListChild, value: bool)
    modifies ObjectsOf(Some(child))
    ensures SelectedOf(child) == AssignSelected(old(SelectedOf(child)), value)
    ensures child.LocationChild? ==> child.location.expanded == old(child.location.expanded)
  {
    match child
    case LocationChild(l) => l.SetSelected(value);
    case NodeChild(n) => n.SetSelected(value);
    case NoResults =>
  }

  /** `MullvadExitNodeDialog`. */
  class ExitNodeDialog {
    const nodes: seq<MullvadNode>
    const tailscale: TC.Tailscale
    var selectedItem: Option<ListChild>
    var searchQuery: string
    var locationItems: seq<LocationItem>
    var locationData: Grouping
    var listBox: seq<ListChild>
    var closed: bool

    /** The children are distinct, and the catalog is processed: well formed, every location valid. */
    predicate Valid()
      reads this
    {
      Seqs.NoDuplicates(listBox) && IsProcessed(locationData)
    }

    /** `_init`: store the arguments, process the catalog and show every location. */
    constructor(mullvadNodes: seq<MullvadNode>, tailscale: TC.Tailscale)
      ensures this.nodes == mullvadNodes && this.tailscale == tailscale
      ensures locationData == MullvadCatalog.ProcessNodeData(mullvadNodes)
      ensures Valid()
      ensures searchQuery == "" && !closed
      ensures Lists(listBox, locationItems, FilteredAndSorted(locationData, ""), tailscale.exitNode)
      ensures var m := LastCurrent(FilteredAndSorted(locationData, ""), tailscale.exitNode);
        selectedItem == if m == -1 then None else Some(LocationChild(locationItems[m]))
    {
      nodes := mullvadNodes;
      this.tailscale := tailscale;
      selectedItem, searchQuery, locationItems := None, "", [];
      locationData, listBox, closed := EmptyGrouping, [], false;
      new;
      ProcessNodeData();
      assert selectedItem == None;
      PopulateLocationsList();
    }

    /** `_processNodeData`. */
    method ProcessNodeData()
      modifies this`locationData
      ensures locationData == MullvadCatalog.ProcessNodeData(nodes)
      ensures IsProcessed(locationData)
      ensures searchQuery == old(searchQuery) && closed == old(closed) && listBox == old(listBox)
    {
      locationData := EmptyGrouping;
      GroupNodesByLocation();
      GroupKeysSpec(nodes);
      FindBestNodesForLocations();
      RemoveInvalidLocations();
      ProcessNodeDataValid(nodes);
    }

    /** `_groupNodesByLocation`, run on the empty object `_processNodeData` starts from. */
    method GroupNodesByLocation()
      requires locationData == EmptyGrouping
      modifies this`locationData
      ensures locationData == GroupByLocation(nodes)
    {
      for i := 0 to |nodes|
        invariant locationData == GroupByLocation(nodes[..i])
      {
        var node := nodes[i];
        var country := CountryOf(node);
        var city := CityOf(node);
        var countryCode := CountryCodeOf(node);
        var locationKey := city + " " + country;
        var keys, data := locationData.keys, locationData.data;
        if locationKey !in data {
          data := data[locationKey := Location(city, country, countryCode, [], None, 0)];
          keys := keys + [locationKey];
        }
        data := data[locationKey := data[locationKey].(nodes := data[locationKey].nodes + [node])];
        locationData := Grouping(keys, data);
        assert nodes[..i + 1][..i] == nodes[..i];
      }
      assert nodes[..|nodes|] == nodes;
    }

    /** `_findBestNode`: the first node of the nodes sorted by effective priority. */
    method FindBestNode(candidates: seq<MullvadNode>) returns (best: MullvadNode)
      requires candidates != []
      ensures best == Sorting.SortBy(candidates, PriorityLe)[0]
      ensures best in candidates
      ensures forall n :: n in candidates ==> EffectivePriority(best) <= EffectivePriority(n)
    {
      PriorityLeIsTotalPreorder();
      ghost var i := Sorting.SortByFirst(candidates, PriorityLe);
      best := Sorting.SortBy(candidates, PriorityLe)[0];
    }

    /** `_findBestNodesForLocations`: count online nodes and pick a best node, location by location. */
    method FindBestNodesForLocations()
      requires WellFormed(locationData)
      modifies this`locationData
      ensures locationData == WithBestAll(old(locationData))
    {
      ghost var g := locationData;
      var keys := locationData.keys;
      BestSoFarStart(g);
      for i := 0 to |keys|
        invariant locationData == BestSoFar(g, keys[..i])
      {
        var key := keys[i];
        assert key !in keys[..i];
        assert keys[..i + 1] == keys[..i] + [key];
        BestSoFarStep(g, keys[..i], key);
        var location := locationData.data[key];
        var onlineNodes := Seqs.Filter(location.nodes, IsOnline);
        location := location.(nodeCount := |onlineNodes|);
        if |onlineNodes| > 0 {
          var best := FindBestNode(onlineNodes);
          location := location.(bestNode := Some(best));
        } else if |location.nodes| > 0 {
          location := location.(bestNode := Some(location.nodes[0]));
        }
        locationData := locationData.(data := locationData.data[key := location]);
      }
      assert keys[..|keys|] == keys;
      BestSoFarDone(g);
    }

    /** `_removeInvalidLocations`: delete, key by key, the locations without a best node or online node. */
    method RemoveInvalidLocations()
      requires WellFormed(locationData)
      modifies this`locationData
      ensures locationData == RemoveInvalid(old(locationData))
    {
      ghost var g := locationData;
      var keys := locationData.keys;
      PrunedSoFarStart(g);
      for i := 0 to |keys|
        invariant locationData == PrunedSoFar(g, i)
      {
        var key := keys[i];
        PrunedSoFarStep(g, i);
        var location := locationData.data[key];
        if location.bestNode.None? || location.nodeCount == 0 {
          locationData := Grouping(Seqs.RemoveFirst(locationData.keys, key), locationData.data - {key});
        }
      }
      PrunedSoFarDone(g);
    }

    /** `_clearList`: destroy every child and forget the location items. */
    method ClearList()
      modifies this`listBox, this`locationItems
      ensures listBox == [] && locationItems == []
      ensures selectedItem == old(selectedItem)
    {
      listBox, locationItems := [], [];
    }

    /** `_showNoResultsMessage`: append the "No locations found" box. */
    method ShowNoResultsMessage()
      modifies this`listBox
      ensures listBox == old(listBox) + [NoResults]
      ensures searchQuery == old(searchQuery) && closed == old(closed) && locationData == old(locationData)
    {
      listBox := listBox + [NoResults];
    }

    /** `_populateLocationsList`: clear the list, then show the filtered and sorted locations or the no-results box. */
    method PopulateLocationsList()
      requires Valid()
      modifies this`listBox, this`locationItems, this`selectedItem
      ensures Valid()
      ensures searchQuery == old(searchQuery) && closed == old(closed) && locationData == old(locationData)
      ensures Lists(listBox, locationItems, FilteredAndSorted(locationData, searchQuery), tailscale.exitNode)
      ensures var m := LastCurrent(FilteredAndSorted(locationData, searchQuery), tailscale.exitNode);
        selectedItem == if m == -1 then old(selectedItem) else Some(LocationChild(locationItems[m]))
    {
      ClearList();
      var filteredLocations := FilteredAndSorted(locationData, searchQuery);
      ShownHaveBestNodes(locationData, searchQuery);
      ShowLocations(filteredLocations);
    }

    /** The rest of `_populateLocationsList` once the list is cleared: the no-results box, or the location items. */
    method ShowLocations(locations: seq<Location>)
      requires listBox == [] && locationItems == []
      requires forall j :: 0 <= j < |locations| ==> locations[j].bestNode.Some?
      modifies this`listBox, this`locationItems, this`selectedItem
      ensures Lists(listBox, locationItems, locations, tailscale.exitNode)
      ensures Seqs.NoDuplicates(listBox)
      ensures searchQuery == old(searchQuery) && closed == old(closed) && locationData == old(locationData)
      ensures var m := LastCurrent(locations, tailscale.exitNode);
        selectedItem == if m == -1 then old(selectedItem) else Some(LocationChild(locationItems[m]))
    {
      ghost var listBox0, items0 := listBox, locationItems;
      if |locations| == 0 {
        ShowNoResultsMessage();
        NoResultsLists(listBox0, listBox, tailscale.exitNode);
        return;
      }
      var created := CreateLocationItems(locations);
      CreatedLists(listBox0, listBox, items0, locationItems, created, locations, tailscale.exitNode);
    }

    /**
      The callback `_createLocationItems` runs for each location: a new item,
      selected and remembered when it is the current exit node, appended to
      the list box and to `_locationItems`.
     */
    method AddLocationItem(location: Location) returns (locationItem: LocationItem)
      requires location.bestNode.Some?
      modifies this`listBox, this`locationItems, this`selectedItem
      ensures fresh(locationItem) && CreatedFor(locationItem, location, tailscale.exitNode)
      ensures selectedItem == if IsCurrent(location, tailscale.exitNode) then Some(LocationChild(locationItem)) else old(selectedItem)
      ensures listBox == old(listBox) + [LocationChild(locationItem)]
      ensures locationItems == old(locationItems) + [locationItem]
      ensures searchQuery == old(searchQuery) && closed == old(closed) && locationData == old(locationData)
    {
      locationItem := new LocationItem(location);
      if tailscale.exitNode == location.bestNode.value.id {
        locationItem.SetSelected(true);
        selectedItem := Some(LocationChild(locationItem));
      }
      listBox := listBox + [LocationChild(locationItem)];
      locationItems := locationItems + [locationItem];
    }

    /** `_createLocationItems`: one new location item per location, selected when it is the current exit node. */
    method CreateLocationItems(locations: seq<Location>) returns (created: seq<LocationItem>)
      requires forall j :: 0 <= j < |locations| ==> locations[j].bestNode.Some?
      modifies this`listBox, this`locationItems, this`selectedItem
      ensures |created| == |locations|
      ensures listBox == old(listBox) + LocationChildren(created)
      ensures locationItems == old(locationItems) + created
      ensures searchQuery == old(searchQuery) && closed == old(closed) && locationData == old(locationData)
      ensures Seqs.NoDuplicates(created)
      ensures forall j :: 0 <= j < |created| ==> CreatedFor(created[j], locations[j], tailscale.exitNode)
      ensures selectedItem == SelectedAfter(locations, created, old(selectedItem), tailscale.exitNode)
    {
      created := [];
      ghost var listBox0, locationItems0, selected0 := listBox, locationItems, selectedItem;
      for i := 0 to |locations|
        invariant |created| == i
        invariant listBox == listBox0 + LocationChildren(created)
        invariant locationItems == locationItems0 + created
        invariant Seqs.NoDuplicates(created)
        invariant forall j :: 0 <= j < i ==> CreatedFor(created[j], locations[j], tailscale.exitNode)
        invariant selectedItem == SelectedAfter(locations[..i], created, selected0, tailscale.exitNode)
      {
        ghost var before, listBox1, locationItems1 := created, listBox, locationItems;
        var locationItem := AddLocationItem(locations[i]);
        SelectedAfterSnoc(locations, i, before, locationItem, selected0, tailscale.exitNode);
        LocationChildrenSnoc(before, locationItem);
        assert listBox0 + LocationChildren(before + [locationItem]) == listBox1 + [LocationChild(locationItem)];
        assert locationItems0 + (before + [locationItem]) == locationItems1 + [locationItem];
        created := created + [locationItem];
        forall j | 0 <= j <= i ensures CreatedFor(created[j], locations[j], tailscale.exitNode) {
          if j < i {
            assert created[j] == before[j] != locationItem;
          }
        }
        Seqs.NoDuplicatesSnoc(before, locationItem);
      }
      assert locations[..|locations|] == locations;
    }

    /** `_onSearchQueryChanged`, given the entry's text. */
    method OnSearchQueryChanged(text: string)
      requires Valid()
      modifies this`searchQuery, this`listBox, this`locationItems, this`selectedItem
      ensures Valid() && searchQuery == text
      ensures locationData == old(locationData) && closed == old(closed)
      ensures Lists(listBox, locationItems, FilteredAndSorted(locationData, text), tailscale.exitNode)
      ensures var m := LastCurrent(FilteredAndSorted(locationData, text), tailscale.exitNode);
        selectedItem == if m == -1 then old(selectedItem) else Some(LocationChild(locationItems[m]))
    {
      searchQuery := text;
      PopulateLocationsList();
    }

    /**
      `_removeNodeItemsForLocation`: collect the run of node items after the
      location, then remove each of them from the list box.
     */
    method RemoveNodeItemsFor(locationItem: LocationItem)
      requires Seqs.NoDuplicates(listBox)
      modifies this`listBox
      ensures listBox == Collapse(old(listBox), locationItem)
      ensures Seqs.NoDuplicates(listBox)
      ensures locationData == old(locationData)
    {
      var locationIndex := Seqs.IndexOf(listBox, LocationChild(locationItem));
      if locationIndex == -1 {
        return;
      }
      var children := listBox;
      var nodesToRemove := CollectNodeItems(children, locationIndex + 1);
      ghost var i := RunEnd(children, locationIndex + 1);
      NoDuplicatesDisjoint(children, locationIndex + 1, i);
      RemoveChildren(nodesToRemove, locationIndex + 1);
      assert Collapse(children, locationItem) == children[..locationIndex + 1] + children[i..];
      CollapseNoDuplicates(children, locationItem);
    }

    /**
      The removing loop of `_removeNodeItemsForLocation`: `remove_child` of
      each collected child, which here are the children from `a` on.
     */
    method RemoveChildren(nodesToRemove: seq<ListChild>, a: nat)
      requires a + |nodesToRemove| <= |listBox|
      requires nodesToRemove == listBox[a..a + |nodesToRemove|]
      requires forall x :: x in nodesToRemove ==> x !in listBox[..a]
      modifies this`listBox
      ensures listBox == old(listBox)[..a] + old(listBox)[a + |nodesToRemove|..]
    {
      ghost var children := listBox;
      ghost var prefix := children[..a];
      for k := 0 to |nodesToRemove|
        invariant listBox == prefix + children[a + k..]
      {
        var child := nodesToRemove[k];
        assert child == children[a + k];
        assert child !in prefix by {
          assert child in nodesToRemove;
        }
        RemoveRunStep(children, a, k, listBox, child);
        listBox := Seqs.RemoveFirst(listBox, child);
      }
    }

    /**
      `_createNodeItemsForLocation`: when the location is listed, one new node
      item per online node, by ascending effective priority, each inserted
      after the location and the node items before it.
     */
    method CreateNodeItemsFor(locationItem: LocationItem) returns (created: seq<NodeItem>)
      requires Seqs.NoDuplicates(listBox)
      modifies this`listBox
      ensures LocationChild(locationItem) !in old(listBox) ==> created == []
      ensures LocationChild(locationItem) in old(listBox) ==> |created| == |OnlineByPriority(locationItem.nodes)|
      ensures forall j :: 0 <= j < |created| ==>
        fresh(created[j]) && NodeItemFor(created[j], OnlineByPriority(locationItem.nodes)[j], tailscale.exitNode)
      ensures listBox == InsertAfter(old(listBox), locationItem, NodeChildren(created))
      ensures Seqs.NoDuplicates(listBox)
      ensures locationData == old(locationData)
    {
      var locationIndex := Seqs.IndexOf(listBox, LocationChild(locationItem));
      if locationIndex == -1 {
        return [];
      }
      var onlineNodes := OnlineByPriority(locationItem.nodes);
      created := [];
      ghost var c := listBox;
      for i := 0 to |onlineNodes|
        invariant |created| == i
        invariant listBox == c[..locationIndex + 1] + NodeChildren(created) + c[locationIndex + 1..]
        invariant forall j :: 0 <= j < i ==> fresh(created[j]) && NodeItemFor(created[j], onlineNodes[j], tailscale.exitNode)
        invariant Seqs.NoDuplicates(created)
      {
        var node := onlineNodes[i];
        var nodeItem := new NodeItem(node.name, node.id, ShownPriority(node), node.id == tailscale.exitNode);
        InsertRunSnoc(c, locationIndex + 1, NodeChildren(created), NodeChild(nodeItem));
        NodeChildrenSnoc(created, nodeItem);
        listBox := listBox[..locationIndex + 1 + i] + [NodeChild(nodeItem)] + listBox[locationIndex + 1 + i..];
        created := created + [nodeItem];
      }
      ghost var run := NodeChildren(created);
      forall x | x in run ensures x !in c {
        var j :| 0 <= j < |run| && run[j] == x;
        assert x == NodeChild(created[j]);
      }
      InsertAfterNoDuplicates(c, locationItem, run);
    }

    /** The expanding half of `_onLocationItemExpandToggled`: remove the old run, then create a new one. */
    method ExpandLocation(locationItem: LocationItem) returns (created: seq<NodeItem>)
      requires Valid()
      modifies this`listBox
      ensures Valid()
      ensures listBox == ExpandWith(old(listBox), locationItem, NodeChildren(created))
      ensures LocationChild(locationItem) !in old(listBox) ==> created == []
      ensures LocationChild(locationItem) in old(listBox) ==> |created| == |OnlineByPriority(locationItem.nodes)|
      ensures forall j :: 0 <= j < |created| ==>
        fresh(created[j]) && NodeItemFor(created[j], OnlineByPriority(locationItem.nodes)[j], tailscale.exitNode)
    {
      ghost var c := listBox;
      RemoveNodeItemsFor(locationItem);
      if LocationChild(locationItem) in c {
        CollapseKeepsLocation(c, locationItem);
      }
      created := CreateNodeItemsFor(locationItem);
    }

    /**
      `_onLocationItemExpandToggled(locationItem, expanded)`: the location's
      node items are always removed; when it is expanded, one node item per
      online member, by priority, is inserted right after it.
     */
    method OnExpandToggled(locationItem: LocationItem, expanded: bool) returns (created: seq<NodeItem>)
      requires Valid()
      modifies this`listBox
      ensures Valid()
      ensures listBox == if expanded then ExpandWith(old(listBox), locationItem, NodeChildren(created))
                         else Collapse(old(listBox), locationItem)
      ensures !expanded || LocationChild(locationItem) !in old(listBox) ==> created == []
      ensures expanded && LocationChild(locationItem) in old(listBox) ==> |created| == |OnlineByPriority(locationItem.nodes)|
      ensures forall j :: 0 <= j < |created| ==>
        fresh(created[j]) && NodeItemFor(created[j], OnlineByPriority(locationItem.nodes)[j], tailscale.exitNode)
    {
      if expanded {
        created := ExpandLocation(locationItem);
      } else {
        RemoveNodeItemsFor(locationItem);
        created := [];
      }
    }

    /**
      A click on a location item's expand button: the item flips `expanded`
      and emits `expand-toggled` with the new value, which runs the handler
      above.
     */
    method OnExpandButtonClicked(locationItem: LocationItem) returns (created: seq<NodeItem>)
      requires Valid()
      modifies this`listBox, locationItem
      ensures Valid()
      ensures locationItem.Expanded() == Assign(old(locationItem.Expanded()), !old(locationItem.expanded), "expanded")
      ensures locationItem.selected == old(locationItem.selected)
      ensures listBox == if locationItem.expanded then ExpandWith(old(listBox), locationItem, NodeChildren(created))
                         else Collapse(old(listBox), locationItem)
      ensures !locationItem.expanded || LocationChild(locationItem) !in old(listBox) ==> created == []
      ensures locationItem.expanded && LocationChild(locationItem) in old(listBox) ==>
        |created| == |OnlineByPriority(locationItem.nodes)|
      ensures forall j :: 0 <= j < |created| ==>
        fresh(created[j]) && NodeItemFor(created[j], OnlineByPriority(locationItem.nodes)[j], tailscale.exitNode)
    {
      locationItem.SetExpanded(!locationItem.expanded);
      created := OnExpandToggled(locationItem, locationItem.expanded);
    }

    /**
      `_onNodeItemClicked`: deselect the previous item, select the node item,
      make its node the exit node and close the dialog.
     */
    method OnNodeItemClicked(nodeItem: NodeItem)
      modifies this`selectedItem, this`closed, ObjectsOf(selectedItem), nodeItem, tailscale
      ensures selectedItem == Some(NodeChild(nodeItem)) && nodeItem.selected && closed
      ensures var prev := old(selectedItem);
        prev.Some? && prev.value != NodeChild(nodeItem) ==>
          SelectedOf(prev.value) == AssignSelected(old(SelectedOf(prev.value)), false)
      ensures old(selectedItem) != Some(NodeChild(nodeItem)) ==>
        nodeItem.Selected() == Assign(old(nodeItem.Selected()), true, "selected")
      ensures old(selectedItem) == Some(NodeChild(nodeItem)) ==>
        nodeItem.Selected() == Assign(Assign(old(nodeItem.Selected()), false, "selected"), true, "selected")
      ensures tailscale.State() == TC.SetExitNode(old(tailscale.State()), nodeItem.nodeId)
    {
      if selectedItem.Some? {
        SetChildSelected(selectedItem.value, false);
      }
      nodeItem.SetSelected(true);
      selectedItem := Some(NodeChild(nodeItem));
      tailscale.SetExitNodeTo(nodeItem.nodeId);
      closed := true;
    }

    /**
      `_onLocationItemClicked`: deselect the previous item unless it is this
      one, select the location item, and when it has a best node make that
      the exit node and close the dialog.
     */
    method OnLocationItemClicked(locationItem: LocationItem)
      modifies this`selectedItem, this`closed, ObjectsOf(selectedItem), locationItem, tailscale
      ensures selectedItem == Some(LocationChild(locationItem))
      ensures locationItem.Selected() == Assign(old(locationItem.Selected()), true, "selected")
      ensures locationItem.expanded == old(locationItem.expanded)
      ensures var prev := old(selectedItem);
        prev.Some? && prev.value != LocationChild(locationItem) ==>
          SelectedOf(prev.value) == AssignSelected(old(SelectedOf(prev.value)), false)
      ensures tailscale.State() ==
        if locationItem.bestNode.Some? then TC.SetExitNode(old(tailscale.State()), locationItem.bestNode.value.id)
        else old(tailscale.State())
      ensures closed == (old(closed) || locationItem.bestNode.Some?)
    {
      if selectedItem.Some? && selectedItem.value != LocationChild(locationItem) {
        SetChildSelected(selectedItem.value, false);
      }
      locationItem.SetSelected(true);
      selectedItem := Some(LocationChild(locationItem));
      if locationItem.bestNode.Some? {
        tailscale.SetExitNodeTo(locationItem.bestNode.value.id);
        closed := true;
      }
    }
  }
}
