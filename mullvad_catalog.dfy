/**
  The pure part of the Mullvad exit-node picker (tailscale@joaophi.github.com/mullvad.js):
  the node records, the flag of a country code, the provider-node filter, the
  grouping of nodes into locations, the choice of each location's best node,
  the removal of locations without online nodes, and the search filter and
  sort of the location list.

  The grouping is kept as the object the dialog builds: its keys in insertion
  order, which is the order `Object.keys`/`Object.values` report for keys that
  are not array indices (a key always contains a space), and a map from key to
  location record.
 */
module MullvadCatalog {
  import opened Wrappers
  import opened Strings
  import Seqs
  import Sorting

  /** The `location` object of a node; every field may be absent. */
  datatype GeoLocation = GeoLocation(
    City: Option<string>,
    Country: Option<string>,
    CountryCode: Option<string>,
    Priority: Option<int>)

  datatype MullvadNode = MullvadNode(
    id: string,
    name: string,
    online: bool,
    mullvad: bool,
    location: Option<GeoLocation>)

  /** `Number.MAX_SAFE_INTEGER`. */
  const MAX_SAFE_INTEGER: int := 9007199254740991

  // ---- country flags ----

  /** The UTF-16 code units of `s`, the units `split('')` yields. */
  function Utf16(s: string): (units: seq<int>)
    ensures forall k :: 0 <= k < |units| ==> 0 <= units[k] < 0x10000
    ensures |units| >= |s|
  {
    if s == [] then []
    else
      var c := s[0] as int;
      (if c < 0x10000 then [c] else [0xD800 + (c - 0x10000) / 0x400, 0xDC00 + (c - 0x10000) % 0x400])
      + Utf16(s[1..])
  }

  /** `String.fromCodePoint(unit + 127397)`; the sum is above the surrogates and below 0x110000. */
  function RegionalIndicator(unit: int): char
    requires 0 <= unit < 0x10000
  {
    (unit + 127397) as char
  }

  /** `getCountryFlag`: `""` for an empty code, otherwise one shifted code point per code unit. */
  function CountryFlag(countryCode: string): string {
    if countryCode == [] then ""
    else
      var units := Utf16(countryCode);
      seq(|units|, k requires 0 <= k < |units| => RegionalIndicator(units[k]))
  }

  /** A string of characters below U+10000 has one code unit per character, namely the character. */
  lemma {:induction false} Utf16Bmp(s: string)
    requires forall k :: 0 <= k < |s| ==> (s[k] as int) < 0x10000
    ensures |Utf16(s)| == |s|
    ensures forall k :: 0 <= k < |s| ==> Utf16(s)[k] == s[k] as int
  {
    if s != [] {
      Utf16Bmp(s[1..]);
    }
  }

  /**
    An empty code gives the empty string; otherwise the flag has one code
    point per UTF-16 unit, each the unit plus 127397, so an ASCII code gives
    one regional indicator per letter ('A' becomes U+1F1E6).
   */
  lemma CountryFlagSpec(countryCode: string)
    ensures countryCode == [] ==> CountryFlag(countryCode) == ""
    ensures countryCode != [] ==>
      && |CountryFlag(countryCode)| == |Utf16(countryCode)|
      && forall k :: 0 <= k < |Utf16(countryCode)| ==> CountryFlag(countryCode)[k] as int == Utf16(countryCode)[k] + 127397
    ensures (forall k :: 0 <= k < |countryCode| ==> (countryCode[k] as int) < 0x10000) ==>
      && |CountryFlag(countryCode)| == |countryCode|
      && forall k :: 0 <= k < |countryCode| ==> CountryFlag(countryCode)[k] as int == countryCode[k] as int + 127397
  {
    if forall k :: 0 <= k < |countryCode| ==> (countryCode[k] as int) < 0x10000 {
      Utf16Bmp(countryCode);
    }
  }

  /** The two regional indicators of "SE", and the first regional indicator for 'A'. */
  lemma CountryFlagExamples()
    ensures CountryFlag("SE") == [0x1F1F8 as char, 0x1F1EA as char]
    ensures CountryFlag("A") == [0x1F1E6 as char]
  {
    assert Utf16("SE") == [0x53, 0x45] by {
      assert "SE"[1..] == "E";
      assert "E"[1..] == "";
    }
    assert Utf16("A") == [0x41] by {
      assert "A"[1..] == "";
    }
  }

  // ---- provider nodes ----

  predicate IsMullvadOnline(n: MullvadNode) {
    n.mullvad && n.online
  }

  /** `filterMullvadNodes`: `None` stands for an input that is not an array. */
  function FilterMullvadNodes(nodes: Option<seq<MullvadNode>>): (r: seq<MullvadNode>)
    ensures nodes.None? ==> r == []
    ensures nodes.Some? ==> forall n :: n in r <==> n in nodes.value && n.mullvad && n.online
    ensures nodes.Some? ==> forall n :: multiset(r)[n] == if n.mullvad && n.online then multiset(nodes.value)[n] else 0
    ensures nodes.Some? ==> Seqs.IsSubsequence(r, nodes.value)
  {
    match nodes
    case None => []
    case Some(ns) => Seqs.FilterSpec(ns, IsMullvadOnline); Seqs.Filter(ns, IsMullvadOnline)
  }

  // ---- locations ----

  /** `value || fallback` on an optional string: absent and empty both give the fallback. */
  function OrElse(value: Option<string>, fallback: string): string {
    if value.None? || value.value == "" then fallback else value.value
  }

  /** `node.location?.City || 'Unknown'`. */
  function CityOf(n: MullvadNode): string {
    OrElse(if n.location.Some? then n.location.value.City else None, "Unknown")
  }

  /** `node.location?.Country || 'Unknown'`. */
  function CountryOf(n: MullvadNode): string {
    OrElse(if n.location.Some? then n.location.value.Country else None, "Unknown")
  }

  /** `node.location?.CountryCode || ''`. */
  function CountryCodeOf(n: MullvadNode): string {
    OrElse(if n.location.Some? then n.location.value.CountryCode else None, "")
  }

  /** `` `${city} ${country}` ``. */
  function LocationKey(n: MullvadNode): string {
    CityOf(n) + " " + CountryOf(n)
  }

  /** `node.location?.Priority || Number.MAX_SAFE_INTEGER`: absent and 0 both sort last. */
  function EffectivePriority(n: MullvadNode): int {
    if n.location.None? || n.location.value.Priority.None? || n.location.value.Priority.value == 0 then MAX_SAFE_INTEGER
    else n.location.value.Priority.value
  }

  /** `node.location?.Priority || 0`, the priority a node item shows. */
  function ShownPriority(n: MullvadNode): int {
    if n.location.None? || n.location.value.Priority.None? then 0 else n.location.value.Priority.value
  }

  /** The comparator `aPriority - bPriority` as `compare(a, b) <= 0`. */
  predicate PriorityLe(a: MullvadNode, b: MullvadNode) {
    EffectivePriority(a) - EffectivePriority(b) <= 0
  }

  lemma PriorityLeIsTotalPreorder()
    ensures Sorting.TotalPreorder(PriorityLe)
  {
  }

  /** One entry of `_locationData`. */
  datatype Location = Location(
    city: string,
    country: string,
    countryCode: string,
    nodes: seq<MullvadNode>,
    bestNode: Option<MullvadNode>,
    nodeCount: nat)

  /** `_locationData`: its keys in insertion order and its entries. */
  datatype Grouping = Grouping(keys: seq<string>, data: map<string, Location>)

  /** The keys listed are exactly the keys of the map, each once. */
  predicate WellFormed(g: Grouping) {
    && Seqs.NoDuplicates(g.keys)
    && (forall k :: k in g.keys ==> k in g.data)
    && (forall k :: k in g.data ==> k in g.keys)
  }

  const EmptyGrouping := Grouping([], map[])

  /** The record `_groupNodesByLocation` creates for the first node of a location, before the push. */
  function NewLocation(n: MullvadNode): Location {
    Location(CityOf(n), CountryOf(n), CountryCodeOf(n), [], None, 0)
  }

  /** One iteration of the loop of `_groupNodesByLocation`. */
  function AddToGroup(g: Grouping, n: MullvadNode): Grouping {
    var key := LocationKey(n);
    var loc := if key in g.data then g.data[key] else NewLocation(n);
    Grouping(if key in g.data then g.keys else g.keys + [key],
             g.data[key := loc.(nodes := loc.nodes + [n])])
  }

  /** `_groupNodesByLocation` run on `nodes` from an empty object. */
  function GroupByLocation(nodes: seq<MullvadNode>): Grouping {
    if nodes == [] then EmptyGrouping
    else AddToGroup(GroupByLocation(nodes[..|nodes| - 1]), nodes[|nodes| - 1])
  }

  predicate HasKey(k: string, n: MullvadNode) {
    LocationKey(n) == k
  }

  /** The nodes of location `k`, in input order. */
  function MembersOf(nodes: seq<MullvadNode>, k: string): seq<MullvadNode> {
    Seqs.Filter(nodes, n => HasKey(k, n))
  }

  lemma MembersOfSnoc(nodes: seq<MullvadNode>, n: MullvadNode, k: string)
    ensures MembersOf(nodes + [n], k) == MembersOf(nodes, k) + (if LocationKey(n) == k then [n] else [])
  {
    Seqs.FilterAppend(nodes, [n], m => HasKey(k, m));
    assert [n][1..] == [];
  }

  /** The keys of the grouping are distinct and are exactly the keys of the input nodes. */
  lemma {:induction false} GroupKeysSpec(nodes: seq<MullvadNode>)
    ensures WellFormed(GroupByLocation(nodes))
    ensures forall k :: k in GroupByLocation(nodes).data <==> exists n :: n in nodes && LocationKey(n) == k
  {
    if nodes != [] {
      var init, n := nodes[..|nodes| - 1], nodes[|nodes| - 1];
      assert nodes == init + [n];
      GroupKeysSpec(init);
      var g := GroupByLocation(init);
      forall k ensures k in GroupByLocation(nodes).data <==> exists m :: m in nodes && LocationKey(m) == k {
        if k in g.data {
          var m :| m in init && LocationKey(m) == k;
          assert m in nodes;
        }
      }
    }
  }

  /**
    What grouping produces for one location: exactly the nodes with its key,
    in input order; its city, country and country code come from the node
    that created it; no best node or count yet.
   */
  lemma {:induction false} GroupEntrySpec(nodes: seq<MullvadNode>, k: string)
    requires k in GroupByLocation(nodes).data
    ensures var loc := GroupByLocation(nodes).data[k];
      && loc.nodes == MembersOf(nodes, k)
      && loc.nodes != []
      && loc.city == CityOf(loc.nodes[0]) && loc.country == CountryOf(loc.nodes[0])
      && loc.countryCode == CountryCodeOf(loc.nodes[0])
      && loc.bestNode == None && loc.nodeCount == 0
  {
    var init, n := nodes[..|nodes| - 1], nodes[|nodes| - 1];
    assert nodes == init + [n];
    var g := GroupByLocation(init);
    MembersOfSnoc(init, n, k);
    if k in g.data {
      GroupEntrySpec(init, k);
    } else {
      GroupKeysSpec(init);
      Seqs.FilterSpec(init, m => HasKey(k, m));
    }
  }

  /** Every node lands in exactly one location: the one of its key. */
  lemma EachNodeInOneLocation(nodes: seq<MullvadNode>, n: MullvadNode)
    requires n in nodes
    ensures LocationKey(n) in GroupByLocation(nodes).data
    ensures forall k :: k in GroupByLocation(nodes).data ==> (n in GroupByLocation(nodes).data[k].nodes <==> k == LocationKey(n))
  {
    GroupKeysSpec(nodes);
    forall k | k in GroupByLocation(nodes).data
      ensures n in GroupByLocation(nodes).data[k].nodes <==> k == LocationKey(n)
    {
      GroupEntrySpec(nodes, k);
      Seqs.FilterSpec(nodes, m => HasKey(k, m));
    }
  }

  predicate IsOnline(n: MullvadNode) {
    n.online
  }

  /** `location.nodes.filter(node => node.online)`. */
  function OnlineNodes(nodes: seq<MullvadNode>): seq<MullvadNode> {
    Seqs.Filter(nodes, IsOnline)
  }

  /** The online nodes by ascending effective priority, earlier nodes first among ties. */
  function OnlineByPriority(nodes: seq<MullvadNode>): seq<MullvadNode> {
    Sorting.SortBy(OnlineNodes(nodes), PriorityLe)
  }

  /** The effect of `_findBestNodesForLocations` (with `_findBestNode`) on one location. */
  function WithBest(loc: Location): Location {
    var online := OnlineNodes(loc.nodes);
    loc.(nodeCount := |online|,
         bestNode := if |online| > 0 then Some(OnlineByPriority(loc.nodes)[0])
                     else if |loc.nodes| > 0 then Some(loc.nodes[0])
                     else loc.bestNode)
  }

  /**
    The head of the priority order is an online node of least effective
    priority, and every online node before it in input order has a strictly
    larger one: `_findBestNode` keeps the first of the cheapest.
   */
  lemma BestOnlineNode(nodes: seq<MullvadNode>)
    requires |OnlineNodes(nodes)| > 0
    ensures var best := OnlineByPriority(nodes)[0];
      && best in nodes && best.online
      && (forall n :: n in nodes && n.online ==> EffectivePriority(best) <= EffectivePriority(n))
      && (exists i :: 0 <= i < |OnlineNodes(nodes)| && OnlineNodes(nodes)[i] == best
            && forall j :: 0 <= j < i ==> EffectivePriority(OnlineNodes(nodes)[j]) > EffectivePriority(best))
  {
    var online := OnlineNodes(nodes);
    Seqs.FilterSpec(nodes, IsOnline);
    PriorityLeIsTotalPreorder();
    var i := Sorting.SortByFirst(online, PriorityLe);
    assert online[i] in online;
  }

  /**
    `nodeCount` is the number of online members. With an online member,
    `bestNode` is an online member of least effective priority, and every
    online member before it has a strictly larger one; without, it is the
    first member.
   */
  lemma WithBestSpec(loc: Location)
    ensures WithBest(loc).nodeCount == |Seqs.Filter(loc.nodes, IsOnline)|
    ensures WithBest(loc).nodes == loc.nodes
    ensures WithBest(loc).nodeCount > 0 ==>
      var best := WithBest(loc).bestNode.value;
      && WithBest(loc).bestNode.Some?
      && best in loc.nodes && best.online
      && (forall n :: n in loc.nodes && n.online ==> EffectivePriority(best) <= EffectivePriority(n))
      && (exists i :: 0 <= i < |OnlineNodes(loc.nodes)| && OnlineNodes(loc.nodes)[i] == best
            && forall j :: 0 <= j < i ==> EffectivePriority(OnlineNodes(loc.nodes)[j]) > EffectivePriority(best))
    ensures WithBest(loc).nodeCount == 0 && loc.nodes != [] ==> WithBest(loc).bestNode == Some(loc.nodes[0])
  {
    if |OnlineNodes(loc.nodes)| > 0 {
      BestOnlineNode(loc.nodes);
    }
  }

  /** `_findBestNodesForLocations` over the whole grouping. */
  function WithBestAll(g: Grouping): Grouping {
    Grouping(g.keys, map k | k in g.data :: WithBest(g.data[k]))
  }

  /** `!location.bestNode || location.nodeCount === 0` is false. */
  predicate IsValidLocation(loc: Location) {
    loc.bestNode.Some? && loc.nodeCount != 0
  }

  /** The keys `_removeInvalidLocations` keeps. */
  function Keeps(g: Grouping): string -> bool {
    k => k in g.data && IsValidLocation(g.data[k])
  }

  /** `_removeInvalidLocations`. */
  function RemoveInvalid(g: Grouping): Grouping {
    Grouping(Seqs.Filter(g.keys, Keeps(g)),
             map k | k in g.data && IsValidLocation(g.data[k]) :: g.data[k])
  }

  /**
    Removal only deletes: every remaining location is valid and unchanged,
    the remaining keys keep their order, and a valid location is never removed.
   */
  lemma RemoveInvalidSpec(g: Grouping)
    requires WellFormed(g)
    ensures WellFormed(RemoveInvalid(g))
    ensures forall k :: k in RemoveInvalid(g).data <==> k in g.data && IsValidLocation(g.data[k])
    ensures forall k :: k in RemoveInvalid(g).data ==> RemoveInvalid(g).data[k] == g.data[k]
    ensures forall k :: k in RemoveInvalid(g).data ==>
      RemoveInvalid(g).data[k].bestNode.Some? && RemoveInvalid(g).data[k].nodeCount >= 1
    ensures Seqs.IsSubsequence(RemoveInvalid(g).keys, g.keys)
  {
    var p := Keeps(g);
    Seqs.FilterSpec(g.keys, p);
    Seqs.FilterNoDuplicates(g.keys, p);
  }

  /** `_processNodeData`: group, pick best nodes, drop invalid locations. */
  function ProcessNodeData(nodes: seq<MullvadNode>): Grouping {
    RemoveInvalid(WithBestAll(GroupByLocation(nodes)))
  }

  /** A location is kept after the best-node step exactly when it has an online member. */
  lemma WithBestValid(loc: Location)
    ensures IsValidLocation(WithBest(loc)) <==> |OnlineNodes(loc.nodes)| > 0
  {
  }

  /** A location of the grouping has an online member exactly when some online input node has its key. */
  lemma OnlineMemberExists(nodes: seq<MullvadNode>, k: string)
    requires k in GroupByLocation(nodes).data
    ensures |OnlineNodes(GroupByLocation(nodes).data[k].nodes)| > 0 <==> exists n :: n in nodes && n.online && LocationKey(n) == k
  {
    var members := GroupByLocation(nodes).data[k].nodes;
    GroupEntrySpec(nodes, k);
    Seqs.FilterSpec(members, IsOnline);
    Seqs.FilterSpec(nodes, m => HasKey(k, m));
    if |OnlineNodes(members)| > 0 {
      assert OnlineNodes(members)[0] in OnlineNodes(members);
    }
    if exists n :: n in nodes && n.online && LocationKey(n) == k {
      var n :| n in nodes && n.online && LocationKey(n) == k;
      assert n in OnlineNodes(members);
    }
  }

  lemma ProcessNodeDataKey(nodes: seq<MullvadNode>, k: string)
    ensures k in ProcessNodeData(nodes).data <==> exists n :: n in nodes && n.online && LocationKey(n) == k
  {
    var g := GroupByLocation(nodes);
    GroupKeysSpec(nodes);
    assert k in ProcessNodeData(nodes).data <==> k in g.data && IsValidLocation(WithBest(g.data[k]));
    if k in g.data {
      WithBestValid(g.data[k]);
      OnlineMemberExists(nodes, k);
    }
  }

  /** A processed catalog: well formed, and every location it keeps is valid. */
  predicate IsProcessed(g: Grouping) {
    WellFormed(g) && forall k :: k in g.data ==> IsValidLocation(g.data[k])
  }

  /** Processing yields a well-formed grouping of valid locations only. */
  lemma ProcessNodeDataValid(nodes: seq<MullvadNode>)
    ensures IsProcessed(ProcessNodeData(nodes))
  {
    var g := GroupByLocation(nodes);
    GroupKeysSpec(nodes);
    var w := WithBestAll(g);
    assert WellFormed(w);
    RemoveInvalidSpec(w);
  }

  /** The locations that survive processing are exactly the keys of online nodes. */
  lemma ProcessNodeDataKeys(nodes: seq<MullvadNode>)
    ensures forall k :: k in ProcessNodeData(nodes).data <==> exists n :: n in nodes && n.online && LocationKey(n) == k
  {
    forall k ensures k in ProcessNodeData(nodes).data <==> exists n :: n in nodes && n.online && LocationKey(n) == k {
      ProcessNodeDataKey(nodes, k);
    }
  }

  /**
    Each location that survives processing holds all nodes with its key,
    counts at least one online node, and has an online best node.
   */
  lemma ProcessNodeDataEntry(nodes: seq<MullvadNode>, k: string)
    requires k in ProcessNodeData(nodes).data
    ensures var loc := ProcessNodeData(nodes).data[k];
      && loc.nodes == MembersOf(nodes, k)
      && loc.nodeCount >= 1
      && loc.bestNode.Some? && loc.bestNode.value in loc.nodes && loc.bestNode.value.online
  {
    var g := GroupByLocation(nodes);
    GroupEntrySpec(nodes, k);
    WithBestSpec(g.data[k]);
  }

  /** `Object.values(this._locationData)`. */
  function Values(g: Grouping): (r: seq<Location>)
    requires WellFormed(g)
    ensures |r| == |g.keys|
    ensures forall i :: 0 <= i < |g.keys| ==> r[i] == g.data[g.keys[i]]
  {
    seq(|g.keys|, i requires 0 <= i < |g.keys| => g.data[g.keys[i]])
  }

  // ---- search and order ----

  /** The search predicate of `_filterLocations` for a non-empty query. */
  predicate Matches(loc: Location, query: string) {
    Includes(Lower(loc.city), Lower(query)) || Includes(Lower(loc.country), Lower(query))
  }

  /** `_filterLocations`: an empty query keeps everything. */
  function FilterLocations(locations: seq<Location>, query: string): seq<Location> {
    if query == "" then locations
    else Seqs.Filter(locations, loc => Matches(loc, query))
  }

  /**
    The empty query keeps every location; otherwise a location is kept
    exactly when its lowercased city or country contains the lowercased
    query somewhere, and the kept ones stay in order.
   */
  lemma FilterLocationsSpec(locations: seq<Location>, query: string)
    ensures query == "" ==> FilterLocations(locations, query) == locations
    ensures query != "" ==> forall loc :: loc in FilterLocations(locations, query) <==>
      && loc in locations
      && ((exists i :: 0 <= i <= |loc.city| - |query| && Lower(loc.city)[i..][..|query|] == Lower(query))
        || (exists i :: 0 <= i <= |loc.country| - |query| && Lower(loc.country)[i..][..|query|] == Lower(query)))
    ensures Seqs.IsSubsequence(FilterLocations(locations, query), locations)
  {
    if query == "" {
      Seqs.SubsequenceReflexive(locations);
    } else {
      Seqs.FilterSpec(locations, loc => Matches(loc, query));
      forall loc: Location
        ensures Matches(loc, query) <==>
          (exists i :: 0 <= i <= |loc.city| - |query| && Lower(loc.city)[i..][..|query|] == Lower(query))
          || (exists i :: 0 <= i <= |loc.country| - |query| && Lower(loc.country)[i..][..|query|] == Lower(query))
      {
        IncludesAt(Lower(loc.city), Lower(query));
        IncludesAt(Lower(loc.country), Lower(query));
      }
    }
  }

  /** The comparator of `_sortLocationsByCountryAndCity` as `compare(a, b) <= 0`. */
  predicate LocationLe(a: Location, b: Location) {
    if a.country != b.country then Compare(a.country, b.country) <= 0
    else Compare(a.city, b.city) <= 0
  }

  lemma LocationLeIsTotalPreorder()
    ensures Sorting.TotalPreorder(LocationLe)
  {
    forall a: Location, b: Location ensures LocationLe(a, b) || LocationLe(b, a) {
      StrLeTotal(a.country, b.country);
      StrLeTotal(a.city, b.city);
    }
    forall a: Location, b: Location, c: Location | LocationLe(a, b) && LocationLe(b, c)
      ensures LocationLe(a, c)
    {
      if a.country != c.country {
        if a.country == b.country {
        } else if b.country == c.country {
        } else {
          StrLeTransitive(a.country, b.country, c.country);
        }
      } else if a.country != b.country {
        StrLeAntisymmetric(a.country, b.country);
      } else {
        StrLeReflexive(a.city);
        StrLeReflexive(b.city);
        StrLeTransitive(a.city, b.city, c.city);
      }
    }
  }

  /** `[...locations].sort(...)`: a sorted copy. */
  function SortLocations(locations: seq<Location>): seq<Location> {
    Sorting.SortBy(locations, LocationLe)
  }

  /**
    The sorted list is a permutation of its input, ordered by country and,
    within one country, by city.
   */
  lemma SortLocationsSpec(locations: seq<Location>)
    ensures multiset(SortLocations(locations)) == multiset(locations)
    ensures var r := SortLocations(locations);
      forall i, j :: 0 <= i < j < |r| ==>
        && StrLe(r[i].country, r[j].country)
        && (r[i].country == r[j].country ==> StrLe(r[i].city, r[j].city))
  {
    Sorting.SortByPermutation(locations, LocationLe);
    LocationLeIsTotalPreorder();
    Sorting.SortBySorted(locations, LocationLe);
    var r := SortLocations(locations);
    forall i, j | 0 <= i < j < |r|
      ensures StrLe(r[i].country, r[j].country)
      ensures r[i].country == r[j].country ==> StrLe(r[i].city, r[j].city)
    {
      assert LocationLe(r[i], r[j]);
      StrLeReflexive(r[i].country);
      StrLeReflexive(r[i].city);
    }
  }

  /** `_getFilteredAndSortedLocations` on the values of the grouping. */
  function FilteredAndSorted(g: Grouping, query: string): seq<Location>
    requires WellFormed(g)
  {
    SortLocations(FilterLocations(Values(g), query))
  }

  /** `Object.values` lists exactly the stored locations. */
  lemma ValuesMembers(g: Grouping)
    requires WellFormed(g)
    ensures forall loc :: loc in Values(g) <==> exists k :: k in g.data && g.data[k] == loc
  {
    forall loc | exists k :: k in g.data && g.data[k] == loc
      ensures loc in Values(g)
    {
      var k :| k in g.data && g.data[k] == loc;
      var i :| 0 <= i < |g.keys| && g.keys[i] == k;
      assert Values(g)[i] == loc;
    }
  }

  /** Sorting neither adds nor drops a location. */
  lemma SortLocationsMembers(locations: seq<Location>)
    ensures forall loc :: loc in SortLocations(locations) <==> loc in locations
  {
    SortLocationsSpec(locations);
    forall loc ensures loc in SortLocations(locations) <==> loc in locations {
      assert loc in SortLocations(locations) <==> loc in multiset(SortLocations(locations));
    }
  }

  /**
    The list shown for a query holds exactly the stored locations the query
    matches (all of them for the empty query), ordered by country and then
    city.
   */
  lemma FilteredAndSortedSpec(g: Grouping, query: string)
    requires WellFormed(g)
    ensures forall loc :: loc in FilteredAndSorted(g, query) <==>
      (exists k :: k in g.data && g.data[k] == loc) && (query == "" || Matches(loc, query))
    ensures var r := FilteredAndSorted(g, query);
      forall i, j :: 0 <= i < j < |r| ==>
        && StrLe(r[i].country, r[j].country)
        && (r[i].country == r[j].country ==> StrLe(r[i].city, r[j].city))
  {
    FilteredMembers(g, query);
    var filtered := FilterLocations(Values(g), query);
    SortLocationsSpec(filtered);
    SortLocationsMembers(filtered);
  }

  /** Before sorting: the filtered values are the stored locations the query matches. */
  lemma FilteredMembers(g: Grouping, query: string)
    requires WellFormed(g)
    ensures forall loc :: loc in FilterLocations(Values(g), query) <==>
      (exists k :: k in g.data && g.data[k] == loc) && (query == "" || Matches(loc, query))
  {
    var values := Values(g);
    ValuesMembers(g);
    if query != "" {
      Seqs.FilterSpec(values, loc => Matches(loc, query));
    }
  }

  /**
    The expanded node list of a location: its online nodes, a permutation of
    them ordered by ascending effective priority.
   */
  lemma OnlineByPrioritySpec(nodes: seq<MullvadNode>)
    ensures multiset(OnlineByPriority(nodes)) == multiset(OnlineNodes(nodes))
    ensures forall n :: n in OnlineByPriority(nodes) <==> n in nodes && n.online
    ensures var r := OnlineByPriority(nodes);
      forall i, j :: 0 <= i < j < |r| ==> EffectivePriority(r[i]) <= EffectivePriority(r[j])
  {
    Sorting.SortByPermutation(OnlineNodes(nodes), PriorityLe);
    PriorityLeIsTotalPreorder();
    Sorting.SortBySorted(OnlineNodes(nodes), PriorityLe);
    Seqs.FilterSpec(nodes, IsOnline);
    forall n ensures n in OnlineByPriority(nodes) <==> n in OnlineNodes(nodes) {
      assert n in OnlineByPriority(nodes) <==> n in multiset(OnlineByPriority(nodes));
    }
  }
}
