/**
  The Tailscale client of the extension (tailscale@joaophi.github.com/tailscale.js).

  A `Tailscale` object caches the daemon's state in fields. The `_process_*`
  methods turn a status or prefs document into field values and notify a
  property only when its value changes; the setters do nothing for an equal
  value and otherwise issue one CLI command and update the field at once
  (optimistically). Notifications are recorded in an appended log of property
  names, issued commands in an appended log of argument vectors.

  Each method of the class is specified by a function on `ClientState`, the
  value of all fields together; the properties of the client are lemmas about
  those functions.
 */
module TailscaleClient {
  import opened Wrappers
  import opened Documents
  import opened Strings
  import Sorting
  import Seqs

  /** One entry of the `nodes` property. */
  datatype Node = Node(
    name: string,
    os: string,
    exitNode: bool,
    exitNodeOption: bool,
    online: bool,
    ips: Option<seq<string>>)

  /** The `.map` step of `_process_nodes`. */
  function NodeOfPeer(peer: Peer, prefs: Prefs): Node {
    Node(FirstLabel(peer.DNSName), peer.OS, Some(peer.ID) == prefs.ExitNodeID,
         peer.ExitNodeOption, peer.Online, peer.TailscaleIPs)
  }

  /** `Object.values(status.Peer ?? {})`. */
  function PeersOf(status: Status): seq<Peer> {
    status.Peer.GetOr([])
  }

  function ProjectPeers(peers: seq<Peer>, prefs: Prefs): seq<Node> {
    seq(|peers|, i requires 0 <= i < |peers| => NodeOfPeer(peers[i], prefs))
  }

  /** A boolean used as a number in `b.online - a.online`. */
  function Bit(b: bool): int {
    if b then 1 else 0
  }

  /**
    The sort comparator of `_process_nodes`:
    `(b.online - a.online) || (b.exit_node_option - a.exit_node_option) || a.name.localeCompare(b.name)`.
   */
  function CompareNodes(a: Node, b: Node): int {
    if Bit(b.online) - Bit(a.online) != 0 then Bit(b.online) - Bit(a.online)
    else if Bit(b.exitNodeOption) - Bit(a.exitNodeOption) != 0 then Bit(b.exitNodeOption) - Bit(a.exitNodeOption)
    else Compare(a.name, b.name)
  }

  predicate NodeLe(a: Node, b: Node) {
    CompareNodes(a, b) <= 0
  }

  /** The comparator is consistent, so the stable sort is well defined. */
  lemma NodeLeIsTotalPreorder()
    ensures Sorting.TotalPreorder(NodeLe)
  {
    forall a: Node, b: Node ensures NodeLe(a, b) || NodeLe(b, a) {
      StrLeTotal(a.name, b.name);
    }
    forall a: Node, b: Node, c: Node | NodeLe(a, b) && NodeLe(b, c) ensures NodeLe(a, c) {
      if StrLe(a.name, b.name) && StrLe(b.name, c.name) {
        StrLeTransitive(a.name, b.name, c.name);
      }
    }
  }

  /** The `nodes` list `_process_nodes` derives from a prefs and a status document. */
  function DeriveNodes(prefs: Prefs, status: Status): seq<Node> {
    Sorting.SortBy(ProjectPeers(PeersOf(status), prefs), NodeLe)
  }

  /** The values of all fields of a `Tailscale` object. */
  datatype ClientState = ClientState(
    running: bool,
    acceptDns: bool,
    acceptRoutes: bool,
    allowLanAccess: bool,
    shieldsUp: bool,
    ssh: bool,
    exitNode: string,
    nodes: seq<Node>,
    lastStatus: Option<Status>,
    lastPrefs: Option<Prefs>,
    notifications: seq<string>,
    commands: seq<seq<string>>)

  /** The state `_init` sets up before it asks for the first documents. */
  const Initial := ClientState(false, false, false, false, false, false, "", [], None, None, [], [])

  /** The five boolean preferences. */
  datatype Flag = AcceptDns | AcceptRoutes | AllowLanAccess | ShieldsUp | Ssh

  function FlagValue(st: ClientState, f: Flag): bool {
    match f
    case AcceptDns => st.acceptDns
    case AcceptRoutes => st.acceptRoutes
    case AllowLanAccess => st.allowLanAccess
    case ShieldsUp => st.shieldsUp
    case Ssh => st.ssh
  }

  function WithFlag(st: ClientState, f: Flag, v: bool): (r: ClientState)
    ensures FlagValue(r, f) == v
    ensures forall g :: g != f ==> FlagValue(r, g) == FlagValue(st, g)
    ensures r.running == st.running && r.exitNode == st.exitNode && r.nodes == st.nodes
    ensures r.lastStatus == st.lastStatus && r.lastPrefs == st.lastPrefs
    ensures r.notifications == st.notifications && r.commands == st.commands
  {
    match f
    case AcceptDns => st.(acceptDns := v)
    case AcceptRoutes => st.(acceptRoutes := v)
    case AllowLanAccess => st.(allowLanAccess := v)
    case ShieldsUp => st.(shieldsUp := v)
    case Ssh => st.(ssh := v)
  }

  /** The prefs field each flag is read from. */
  function PrefsValue(prefs: Prefs, f: Flag): bool {
    match f
    case AcceptDns => prefs.CorpDNS
    case AcceptRoutes => prefs.RouteAll
    case AllowLanAccess => prefs.ExitNodeAllowLANAccess
    case ShieldsUp => prefs.ShieldsUp
    case Ssh => prefs.RunSSH
  }

  /** The property name `_process_*` notifies. */
  function PropertyName(f: Flag): string {
    match f
    case AcceptDns => "accept-dns"
    case AcceptRoutes => "accept-routes"
    case AllowLanAccess => "allow-lan-access"
    case ShieldsUp => "shields-up"
    case Ssh => "ssh"
  }

  /** The name the setter notifies: the `allow_lan_access` setter spells it with underscores. */
  function SetterNotifyName(f: Flag): string {
    if f == AllowLanAccess then "allow_lan_access" else PropertyName(f)
  }

  /** The `tailscale set` option each setter passes. */
  function CliFlag(f: Flag): string {
    match f
    case AcceptDns => "accept-dns"
    case AcceptRoutes => "accept-routes"
    case AllowLanAccess => "exit-node-allow-lan-access"
    case ShieldsUp => "shields-up"
    case Ssh => "ssh"
  }

  /** Appends `name` to the log when `changed`. */
  function NotifyIf(log: seq<string>, changed: bool, name: string): seq<string> {
    if changed then log + [name] else log
  }

  // ---- the `_process_*` methods ----

  function ProcessStatus(st: ClientState, status: Status): (r: ClientState)
    ensures r == st.(running := r.running, notifications := r.notifications)
  {
    var running := IsRunning(status);
    if running != st.running then st.(running := running, notifications := st.notifications + ["running"])
    else st
  }

  function ProcessFlag(st: ClientState, f: Flag, prefs: Prefs): (r: ClientState)
    ensures r.running == st.running && r.exitNode == st.exitNode && r.nodes == st.nodes
    ensures r.lastStatus == st.lastStatus && r.lastPrefs == st.lastPrefs && r.commands == st.commands
  {
    var v := PrefsValue(prefs, f);
    if v != FlagValue(st, f) then WithFlag(st, f, v).(notifications := st.notifications + [PropertyName(f)])
    else st
  }

  function ProcessNodes(st: ClientState, prefs: Prefs, status: Status): (r: ClientState)
    ensures r == st.(nodes := r.nodes, notifications := r.notifications)
  {
    var nodes := DeriveNodes(prefs, status);
    if nodes != st.nodes then st.(nodes := nodes, notifications := st.notifications + ["nodes"])
    else st
  }

  /** `Object.values(status.Peer ?? {}).find(peer => peer.ID == prefs.ExitNodeID)`. */
  function FindExitPeer(peers: seq<Peer>, prefs: Prefs): (r: Option<Peer>)
    ensures r.Some? ==> r.value in peers && Some(r.value.ID) == prefs.ExitNodeID
    ensures r.None? <==> forall p :: p in peers ==> Some(p.ID) != prefs.ExitNodeID
    ensures r.Some? ==>
      exists i :: 0 <= i < |peers| && peers[i] == r.value && (forall j :: 0 <= j < i ==> Some(peers[j].ID) != prefs.ExitNodeID)
  {
    if peers == [] then None
    else if Some(peers[0].ID) == prefs.ExitNodeID then Some(peers[0])
    else FindExitPeer(peers[1..], prefs)
  }

  /**
    `if (exit_node?.HostName != this._exit_node)`: without a matching peer the
    left side is `undefined`, which differs from every string.
   */
  function ProcessExitNode(st: ClientState, prefs: Prefs, status: Status): (r: ClientState)
    ensures r == st.(exitNode := r.exitNode, notifications := r.notifications)
  {
    var peer := FindExitPeer(PeersOf(status), prefs);
    if peer.None? || peer.value.HostName != st.exitNode then
      st.(exitNode := if peer.Some? then peer.value.HostName else "",
          notifications := st.notifications + ["exit-node"])
    else st
  }

  // ---- the setters ----

  function SetRunning(st: ClientState, v: bool): ClientState {
    if st.running == v then st
    else st.(commands := st.commands + [UpDownCommand(v)], running := v,
             notifications := st.notifications + ["running"])
  }

  function SetFlag(st: ClientState, f: Flag, v: bool): ClientState {
    if FlagValue(st, f) == v then st
    else WithFlag(st, f, v).(commands := st.commands + [SetCommand(CliFlag(f), BoolText(v))],
                             notifications := st.notifications + [SetterNotifyName(f)])
  }

  function SetExitNode(st: ClientState, v: string): ClientState {
    if st.exitNode == v then st
    else st.(commands := st.commands + [SetCommand("exit-node", v)], exitNode := v,
             notifications := st.notifications + ["exit-node"])
  }

  // ---- the refreshes ----

  /** The `exit_node` the two documents determine: the matching peer's host name, or `""`. */
  function ExitNodeName(prefs: Prefs, status: Status): string {
    var p := FindExitPeer(PeersOf(status), prefs);
    if p.Some? then p.value.HostName else ""
  }

  /** `_process_nodes` then `_process_exit_node`, run once both documents are known. */
  function Rederive(st: ClientState, prefs: Prefs, status: Status): (r: ClientState)
    ensures r == st.(nodes := r.nodes, exitNode := r.exitNode, notifications := r.notifications)
    ensures r.nodes == DeriveNodes(prefs, status)
    ensures r.exitNode == ExitNodeName(prefs, status)
  {
    ProcessExitNode(ProcessNodes(st, prefs, status), prefs, status)
  }

  /**
    The callback of `refresh_status`: the document is stored, `running` is
    updated, and the nodes and exit node are re-derived when a prefs document
    is already stored.
   */
  function AcceptStatus(st: ClientState, status: Status): (r: ClientState)
    ensures r.lastStatus == Some(status) && r.lastPrefs == st.lastPrefs && r.commands == st.commands
    ensures r.acceptDns == st.acceptDns && r.acceptRoutes == st.acceptRoutes
    ensures r.allowLanAccess == st.allowLanAccess && r.shieldsUp == st.shieldsUp && r.ssh == st.ssh
    ensures forall f :: FlagValue(r, f) == FlagValue(st, f)
    ensures r.running == IsRunning(status)
    ensures st.lastPrefs.None? ==> r.nodes == st.nodes && r.exitNode == st.exitNode
    ensures st.lastPrefs.Some? ==>
      r.nodes == DeriveNodes(st.lastPrefs.value, status) && r.exitNode == ExitNodeName(st.lastPrefs.value, status)
  {
    var st1 := ProcessStatus(st.(lastStatus := Some(status)), status);
    match st1.lastPrefs
    case None => st1
    case Some(prefs) => Rederive(st1, prefs, status)
  }

  /**
    `refresh_status`: the command is issued; `None` stands for a command that
    failed, whose callback never runs.
   */
  function StatusRefresh(st: ClientState, response: Option<Status>): ClientState {
    var issued := st.(commands := st.commands + [StatusCommand]);
    match response
    case None => issued
    case Some(status) => AcceptStatus(issued, status)
  }

  /** The boolean preferences in the order `refresh_prefs` processes them. */
  const PrefsFlags: seq<Flag> := [AcceptDns, AcceptRoutes, AllowLanAccess, ShieldsUp, Ssh]

  /** `_process_*` for each flag of `fs` in turn; only the flags and the log can change. */
  function ProcessFlags(st: ClientState, fs: seq<Flag>, prefs: Prefs): (r: ClientState)
    ensures r.running == st.running && r.exitNode == st.exitNode && r.nodes == st.nodes
    ensures r.lastStatus == st.lastStatus && r.lastPrefs == st.lastPrefs && r.commands == st.commands
    decreases |fs|
  {
    if fs == [] then st else ProcessFlags(ProcessFlag(st, fs[0], prefs), fs[1..], prefs)
  }

  /** The callback of `refresh_prefs`, the counterpart of `AcceptStatus`. */
  function AcceptPrefs(st: ClientState, prefs: Prefs): (r: ClientState)
    ensures r.lastPrefs == Some(prefs) && r.lastStatus == st.lastStatus
    ensures r.running == st.running && r.commands == st.commands
    ensures forall f :: FlagValue(r, f) == PrefsValue(prefs, f)
    ensures st.lastStatus.None? ==> r.nodes == st.nodes && r.exitNode == st.exitNode
    ensures st.lastStatus.Some? ==>
      r.nodes == DeriveNodes(prefs, st.lastStatus.value) && r.exitNode == ExitNodeName(prefs, st.lastStatus.value)
  {
    ProcessFlagsSpec(st.(lastPrefs := Some(prefs)), PrefsFlags, prefs);
    var st1 := ProcessFlags(st.(lastPrefs := Some(prefs)), PrefsFlags, prefs);
    assert forall f :: f in PrefsFlags by { assert PrefsFlags[0] == AcceptDns; }
    match st1.lastStatus
    case None => st1
    case Some(status) => Rederive(st1, prefs, status)
  }

  /** `refresh_prefs`, the counterpart of `StatusRefresh` for the prefs document. */
  function PrefsRefresh(st: ClientState, response: Option<Prefs>): ClientState {
    var issued := st.(commands := st.commands + [PrefsCommand]);
    match response
    case None => issued
    case Some(prefs) => AcceptPrefs(issued, prefs)
  }

  // ---- properties ----

  /**
    `running` becomes whether the backend is running, a notification is sent
    exactly when that changes it, and a second application of the same
    document changes nothing.
   */
  lemma ProcessStatusNotifiesOnChange(st: ClientState, status: Status)
    ensures ProcessStatus(st, status).running == (status.BackendState == "Running")
    ensures ProcessStatus(st, status).notifications
         == st.notifications + (if st.running != (status.BackendState == "Running") then ["running"] else [])
    ensures ProcessStatus(ProcessStatus(st, status), status) == ProcessStatus(st, status)
  {
  }

  /**
    Each boolean preference takes the value of its prefs field, is notified
    under its property name exactly when it changes, and re-processing the
    same document changes nothing.
   */
  lemma ProcessFlagNotifiesOnChange(st: ClientState, f: Flag, prefs: Prefs)
    ensures FlagValue(ProcessFlag(st, f, prefs), f) == PrefsValue(prefs, f)
    ensures forall g :: g != f ==> FlagValue(ProcessFlag(st, f, prefs), g) == FlagValue(st, g)
    ensures ProcessFlag(st, f, prefs).notifications
         == st.notifications + (if FlagValue(st, f) != PrefsValue(prefs, f) then [PropertyName(f)] else [])
    ensures ProcessFlag(ProcessFlag(st, f, prefs), f, prefs) == ProcessFlag(st, f, prefs)
  {
    assert FlagValue(ProcessFlag(st, f, prefs), f) == PrefsValue(prefs, f);
    ProcessFlagUnchanged(ProcessFlag(st, f, prefs), f, prefs);
  }

  /**
    `_process_nodes` yields one node per peer (none when the status has no
    `Peer` object), and orders them: online before offline, then exit-node
    capable before not, then by name.
   */
  lemma DeriveNodesSpec(prefs: Prefs, status: Status)
    ensures status.Peer.None? ==> DeriveNodes(prefs, status) == []
    ensures multiset(DeriveNodes(prefs, status)) == multiset(ProjectPeers(PeersOf(status), prefs))
    ensures var r := DeriveNodes(prefs, status);
      forall i, j :: 0 <= i < j < |r| ==>
        && (r[i].online || !r[j].online)
        && (r[i].online == r[j].online ==> r[i].exitNodeOption || !r[j].exitNodeOption)
        && (r[i].online == r[j].online && r[i].exitNodeOption == r[j].exitNodeOption ==> StrLe(r[i].name, r[j].name))
  {
    var r := DeriveNodes(prefs, status);
    Sorting.SortByPermutation(ProjectPeers(PeersOf(status), prefs), NodeLe);
    NodeLeIsTotalPreorder();
    Sorting.SortBySorted(ProjectPeers(PeersOf(status), prefs), NodeLe);
    forall i, j | 0 <= i < j < |r|
      ensures r[i].online == r[j].online && r[i].exitNodeOption == r[j].exitNodeOption ==> StrLe(r[i].name, r[j].name)
    {
      assert NodeLe(r[i], r[j]);
      StrLeReflexive(r[i].name);
    }
  }

  /** Each node stands for one peer: its name, OS, flags and addresses come from that peer. */
  lemma NodeOfPeerSpec(peer: Peer, prefs: Prefs)
    ensures var n := NodeOfPeer(peer, prefs);
      && '.' !in n.name && peer.DNSName[..|n.name|] == n.name
      && (|n.name| == |peer.DNSName| || peer.DNSName[|n.name|] == '.')
      && (n.exitNode <==> prefs.ExitNodeID == Some(peer.ID))
      && n.os == peer.OS && n.exitNodeOption == peer.ExitNodeOption
      && n.online == peer.Online && n.ips == peer.TailscaleIPs
  {
  }

  predicate IsCurrentExit(n: Node) {
    n.exitNode
  }

  function PeerIds(peers: seq<Peer>): seq<string> {
    seq(|peers|, i requires 0 <= i < |peers| => peers[i].ID)
  }

  lemma {:induction false} AtMostOneMatchingPeer(peers: seq<Peer>, prefs: Prefs)
    requires Seqs.NoDuplicates(PeerIds(peers))
    ensures |Seqs.Filter(ProjectPeers(peers, prefs), IsCurrentExit)| <= 1
    ensures FindExitPeer(peers, prefs).None? ==> Seqs.Filter(ProjectPeers(peers, prefs), IsCurrentExit) == []
  {
    if peers != [] {
      var ns := ProjectPeers(peers, prefs);
      assert ns[1..] == ProjectPeers(peers[1..], prefs);
      assert PeerIds(peers[1..]) == PeerIds(peers)[1..];
      AtMostOneMatchingPeer(peers[1..], prefs);
      if IsCurrentExit(ns[0]) {
        forall p | p in peers[1..] ensures Some(p.ID) != prefs.ExitNodeID {
          var k :| 0 <= k < |peers[1..]| && peers[1..][k] == p;
          assert PeerIds(peers)[0] != PeerIds(peers)[k + 1];
        }
      }
    }
  }

  /**
    Peer IDs are the keys of the status document's `Peer` object, so they are
    distinct; then at most one node is marked as the current exit node, and
    none when no peer has the selected exit node's ID.
   */
  lemma AtMostOneExitNode(prefs: Prefs, status: Status)
    requires Seqs.NoDuplicates(PeerIds(PeersOf(status)))
    ensures |Seqs.Filter(DeriveNodes(prefs, status), IsCurrentExit)| <= 1
    ensures FindExitPeer(PeersOf(status), prefs).None? ==> forall n :: n in DeriveNodes(prefs, status) ==> !n.exitNode
  {
    var ns := ProjectPeers(PeersOf(status), prefs);
    Sorting.SortByPermutation(ns, NodeLe);
    Seqs.FilterPermutationLength(DeriveNodes(prefs, status), ns, IsCurrentExit);
    AtMostOneMatchingPeer(PeersOf(status), prefs);
    Seqs.FilterSpec(DeriveNodes(prefs, status), IsCurrentExit);
  }

  /**
    `nodes` is replaced and notified only when the derived list differs from
    the stored one, so processing the same documents again notifies nothing.
   */
  lemma ProcessNodesNotifiesOnChange(st: ClientState, prefs: Prefs, status: Status)
    ensures ProcessNodes(st, prefs, status).nodes == DeriveNodes(prefs, status)
    ensures ProcessNodes(st, prefs, status).notifications
         == st.notifications + (if st.nodes != DeriveNodes(prefs, status) then ["nodes"] else [])
    ensures ProcessNodes(ProcessNodes(st, prefs, status), prefs, status) == ProcessNodes(st, prefs, status)
  {
  }

  /**
    `exit_node` becomes the host name of the peer whose ID is the selected exit
    node, or `""` when there is none. With a matching peer a second
    application changes nothing; without one every application notifies again.
   */
  lemma ProcessExitNodeSpec(st: ClientState, prefs: Prefs, status: Status)
    ensures var peer := FindExitPeer(PeersOf(status), prefs);
      ProcessExitNode(st, prefs, status).exitNode == (if peer.Some? then peer.value.HostName else "")
    ensures FindExitPeer(PeersOf(status), prefs).Some? ==>
      ProcessExitNode(ProcessExitNode(st, prefs, status), prefs, status) == ProcessExitNode(st, prefs, status)
    ensures FindExitPeer(PeersOf(status), prefs).None? ==>
      ProcessExitNode(ProcessExitNode(st, prefs, status), prefs, status).notifications
        == st.notifications + ["exit-node", "exit-node"]
  {
  }

  /**
    A setter given the cached value issues nothing and notifies nothing;
    otherwise it issues exactly one `tailscale set` command, stores the new
    value before any answer, and notifies once. Setting twice equals setting once.
   */
  lemma SetFlagSpec(st: ClientState, f: Flag, v: bool)
    ensures FlagValue(st, f) == v ==> SetFlag(st, f, v) == st
    ensures FlagValue(st, f) != v ==>
      && SetFlag(st, f, v).commands == st.commands + [["tailscale", "set", "--" + CliFlag(f) + "=" + BoolText(v)]]
      && SetFlag(st, f, v).notifications == st.notifications + [SetterNotifyName(f)]
      && FlagValue(SetFlag(st, f, v), f) == v
    ensures forall g :: g != f ==> FlagValue(SetFlag(st, f, v), g) == FlagValue(st, g)
    ensures var r := SetFlag(st, f, v);
      && r.running == st.running && r.exitNode == st.exitNode && r.nodes == st.nodes
      && r.lastStatus == st.lastStatus && r.lastPrefs == st.lastPrefs
    ensures SetFlag(SetFlag(st, f, v), f, v) == SetFlag(st, f, v)
  {
  }

  /** The `running` setter: `tailscale up` or `tailscale down`, once, for a changed value only. */
  lemma SetRunningSpec(st: ClientState, v: bool)
    ensures st.running == v ==> SetRunning(st, v) == st
    ensures st.running != v ==>
      && SetRunning(st, v).commands == st.commands + [["tailscale", if v then "up" else "down"]]
      && SetRunning(st, v).notifications == st.notifications + ["running"]
      && SetRunning(st, v).running == v
    ensures var r := SetRunning(st, v);
      r == st.(running := r.running, commands := r.commands, notifications := r.notifications)
    ensures SetRunning(SetRunning(st, v), v) == SetRunning(st, v)
  {
  }

  /** The `exit_node` setter: `tailscale set --exit-node=<value>`, once, for a changed value only. */
  lemma SetExitNodeSpec(st: ClientState, v: string)
    ensures st.exitNode == v ==> SetExitNode(st, v) == st
    ensures st.exitNode != v ==>
      && SetExitNode(st, v).commands == st.commands + [["tailscale", "set", "--exit-node=" + v]]
      && SetExitNode(st, v).notifications == st.notifications + ["exit-node"]
      && SetExitNode(st, v).exitNode == v
    ensures var r := SetExitNode(st, v);
      r == st.(exitNode := r.exitNode, commands := r.commands, notifications := r.notifications)
    ensures SetExitNode(SetExitNode(st, v), v) == SetExitNode(st, v)
  {
    assert "--" + "exit-node" + "=" + v == "--exit-node=" + v;
  }

  /**
    Before any prefs document has been stored, a status refresh only updates
    `running`: the nodes and the exit node are left alone and only "running"
    can be notified.
   */
  lemma RefreshStatusBeforePrefs(st: ClientState, status: Status)
    requires st.lastPrefs.None?
    ensures var r := StatusRefresh(st, Some(status));
      && r.nodes == st.nodes && r.exitNode == st.exitNode
      && r.running == (status.BackendState == "Running")
      && r.lastStatus == Some(status)
      && (r.notifications == st.notifications || r.notifications == st.notifications + ["running"])
  {
  }

  /** A failed command changes nothing but the command log. */
  lemma RefreshFailureOnlyLogs(st: ClientState)
    ensures StatusRefresh(st, None) == st.(commands := st.commands + [["tailscale", "status", "--json"]])
    ensures PrefsRefresh(st, None) == st.(commands := st.commands + [["tailscale", "debug", "prefs"]])
  {
  }

  /** A preference that already has the document's value is left alone. */
  lemma ProcessFlagUnchanged(st: ClientState, f: Flag, prefs: Prefs)
    requires FlagValue(st, f) == PrefsValue(prefs, f)
    ensures ProcessFlag(st, f, prefs) == st
  {
  }

  /**
    After the flags of `fs` are processed each of them holds the document's
    value; every other flag keeps its value.
   */
  lemma {:induction false} ProcessFlagsSpec(st: ClientState, fs: seq<Flag>, prefs: Prefs)
    ensures forall f :: f in fs ==> FlagValue(ProcessFlags(st, fs, prefs), f) == PrefsValue(prefs, f)
    ensures forall f :: f !in fs ==> FlagValue(ProcessFlags(st, fs, prefs), f) == FlagValue(st, f)
    decreases |fs|
  {
    if fs != [] {
      var s1 := ProcessFlag(st, fs[0], prefs);
      ProcessFlagNotifiesOnChange(st, fs[0], prefs);
      ProcessFlagsSpec(s1, fs[1..], prefs);
      assert forall f :: f in fs <==> f == fs[0] || f in fs[1..];
    }
  }

  /** Processing flags that already hold the document's values changes nothing. */
  lemma {:induction false} ProcessFlagsUnchanged(st: ClientState, fs: seq<Flag>, prefs: Prefs)
    requires forall f :: f in fs ==> FlagValue(st, f) == PrefsValue(prefs, f)
    ensures ProcessFlags(st, fs, prefs) == st
    decreases |fs|
  {
    if fs != [] {
      ProcessFlagUnchanged(st, fs[0], prefs);
      assert forall f :: f in fs[1..] ==> f in fs;
      ProcessFlagsUnchanged(st, fs[1..], prefs);
    }
  }

  /** Processing the same prefs document twice notifies nothing the second time. */
  lemma ProcessFlagsIdempotent(st: ClientState, fs: seq<Flag>, prefs: Prefs)
    ensures ProcessFlags(ProcessFlags(st, fs, prefs), fs, prefs) == ProcessFlags(st, fs, prefs)
  {
    ProcessFlagsSpec(st, fs, prefs);
    ProcessFlagsUnchanged(ProcessFlags(st, fs, prefs), fs, prefs);
  }

  /** With the nodes already derived and the exit peer found under the stored name, re-deriving changes nothing. */
  lemma RederiveUnchanged(st: ClientState, prefs: Prefs, status: Status)
    requires st.nodes == DeriveNodes(prefs, status)
    requires FindExitPeer(PeersOf(status), prefs).Some?
    requires st.exitNode == FindExitPeer(PeersOf(status), prefs).value.HostName
    ensures Rederive(st, prefs, status) == st
  {
  }

  /** Accepting a prefs document the state already reflects changes nothing. */
  lemma AcceptPrefsUnchanged(st: ClientState, prefs: Prefs)
    requires st.lastPrefs == Some(prefs)
    requires forall f :: FlagValue(st, f) == PrefsValue(prefs, f)
    requires st.lastStatus.Some? ==>
      var p := FindExitPeer(PeersOf(st.lastStatus.value), prefs);
      && p.Some?
      && st.nodes == DeriveNodes(prefs, st.lastStatus.value)
      && st.exitNode == p.value.HostName
    ensures AcceptPrefs(st, prefs) == st
  {
    assert st.(lastPrefs := Some(prefs)) == st;
    ProcessFlagsUnchanged(st, PrefsFlags, prefs);
    if st.lastStatus.Some? {
      RederiveUnchanged(st, prefs, st.lastStatus.value);
    }
  }

  /**
    Refreshing prefs twice with the same answer notifies nothing the second
    time, provided the selected exit node is found among the stored peers (or
    no status is stored yet); only the command log grows.
   */
  lemma RefreshPrefsTwice(st: ClientState, prefs: Prefs)
    requires st.lastStatus.None? || FindExitPeer(PeersOf(st.lastStatus.value), prefs).Some?
    ensures var once := PrefsRefresh(st, Some(prefs));
      PrefsRefresh(once, Some(prefs)) == once.(commands := once.commands + [["tailscale", "debug", "prefs"]])
  {
    var once := PrefsRefresh(st, Some(prefs));
    assert once == AcceptPrefs(st.(commands := st.commands + [PrefsCommand]), prefs);
    var issued := once.(commands := once.commands + [PrefsCommand]);
    assert forall f :: FlagValue(issued, f) == FlagValue(once, f);
    AcceptPrefsUnchanged(issued, prefs);
  }

  /** The status answer arrives first, then the prefs answer. */
  function StatusFirst(st: ClientState, status: Status, prefs: Prefs): ClientState {
    PrefsRefresh(StatusRefresh(st, Some(status)), Some(prefs))
  }

  /** The prefs answer arrives first, then the status answer. */
  function PrefsFirst(st: ClientState, status: Status, prefs: Prefs): ClientState {
    StatusRefresh(PrefsRefresh(st, Some(prefs)), Some(status))
  }

  /**
    Whichever answer arrives first, once both refreshes have succeeded the
    client shows what the two documents say: `running`, the five flags, the
    sorted nodes and the exit node.
   */
  lemma BothRefreshesAgree(st: ClientState, status: Status, prefs: Prefs)
    ensures StatusFirst(st, status, prefs).running == PrefsFirst(st, status, prefs).running == IsRunning(status)
    ensures forall f :: FlagValue(StatusFirst(st, status, prefs), f) == FlagValue(PrefsFirst(st, status, prefs), f) == PrefsValue(prefs, f)
    ensures StatusFirst(st, status, prefs).nodes == PrefsFirst(st, status, prefs).nodes == DeriveNodes(prefs, status)
    ensures StatusFirst(st, status, prefs).exitNode == PrefsFirst(st, status, prefs).exitNode == ExitNodeName(prefs, status)
  {
    StatusFirstSpec(st, status, prefs);
    PrefsFirstSpec(st, status, prefs);
  }

  lemma StatusFirstSpec(st: ClientState, status: Status, prefs: Prefs)
    ensures StatusFirst(st, status, prefs).running == IsRunning(status)
    ensures forall f :: FlagValue(StatusFirst(st, status, prefs), f) == PrefsValue(prefs, f)
    ensures StatusFirst(st, status, prefs).nodes == DeriveNodes(prefs, status)
    ensures StatusFirst(st, status, prefs).exitNode == ExitNodeName(prefs, status)
  {
    var s1 := StatusRefresh(st, Some(status));
    var s2 := s1.(commands := s1.commands + [PrefsCommand]);
    assert StatusFirst(st, status, prefs) == AcceptPrefs(s2, prefs);
    assert s2.lastStatus == Some(status) && s2.running == IsRunning(status);
  }

  lemma PrefsFirstSpec(st: ClientState, status: Status, prefs: Prefs)
    ensures PrefsFirst(st, status, prefs).running == IsRunning(status)
    ensures forall f :: FlagValue(PrefsFirst(st, status, prefs), f) == PrefsValue(prefs, f)
    ensures PrefsFirst(st, status, prefs).nodes == DeriveNodes(prefs, status)
    ensures PrefsFirst(st, status, prefs).exitNode == ExitNodeName(prefs, status)
  {
    var p1 := PrefsRefresh(st, Some(prefs));
    var p2 := p1.(commands := p1.commands + [StatusCommand]);
    assert PrefsFirst(st, status, prefs) == AcceptStatus(p2, status);
    assert p2.lastPrefs == Some(prefs);
    assert forall f :: FlagValue(p2, f) == FlagValue(p1, f);
  }

  /**
    The client object. Its fields are those of the source's class; `State()`
    reads them all as one value.
   */
  class Tailscale {
    var running: bool
    var dns: bool
    var routes: bool
    var allowLanAccess: bool
    var shieldsUp: bool
    var ssh: bool
    var exitNode: string
    var nodes: seq<Node>
    var lastStatus: Option<Status>
    var lastPrefs: Option<Prefs>
    /** The property names notified so far, in order. */
    var notifications: seq<string>
    /** The command lines issued so far, in order. */
    var commands: seq<seq<string>>

    function State(): ClientState
      reads this
    {
      ClientState(running, dns, routes, allowLanAccess, shieldsUp, ssh, exitNode, nodes,
                  lastStatus, lastPrefs, notifications, commands)
    }

    /**
      `_init`: every field at its default, then `refresh_status()` and
      `refresh_prefs()`, whose answers are the two parameters.
     */
    constructor(status: Option<Status>, prefs: Option<Prefs>)
      ensures State() == PrefsRefresh(StatusRefresh(Initial, status), prefs)
    {
      running, dns, routes, allowLanAccess, shieldsUp, ssh := false, false, false, false, false, false;
      exitNode, nodes := "", [];
      lastStatus, lastPrefs := None, None;
      notifications, commands := [], [];
      new;
      RefreshStatus(status);
      RefreshPrefs(prefs);
    }

    method Notify(name: string)
      modifies this
      ensures State() == old(State()).(notifications := old(notifications) + [name])
    {
      notifications := notifications + [name];
    }

    method ExecCmd(argv: seq<string>)
      modifies this
      ensures State() == old(State()).(commands := old(commands) + [argv])
    {
      commands := commands + [argv];
    }

    method ProcessStatusDoc(status: Status)
      modifies this
      ensures State() == ProcessStatus(old(State()), status)
    {
      var r := status.BackendState == "Running";
      if r != running {
        running := r;
        Notify("running");
      }
    }

    method ProcessNodesDoc(prefs: Prefs, status: Status)
      modifies this
      ensures State() == ProcessNodes(old(State()), prefs, status)
    {
      var derived := DeriveNodes(prefs, status);
      if derived != nodes {
        nodes := derived;
        Notify("nodes");
      }
    }

    method ProcessExitNodeDoc(prefs: Prefs, status: Status)
      modifies this
      ensures State() == ProcessExitNode(old(State()), prefs, status)
    {
      var peer := FindExitPeer(PeersOf(status), prefs);
      if peer.None? || peer.value.HostName != exitNode {
        exitNode := if peer.Some? then peer.value.HostName else "";
        Notify("exit-node");
      }
    }

    method ProcessDns(prefs: Prefs)
      modifies this
      ensures State() == ProcessFlag(old(State()), AcceptDns, prefs)
    {
      if prefs.CorpDNS != dns {
        dns := prefs.CorpDNS;
        Notify("accept-dns");
      }
    }

    method ProcessRoutes(prefs: Prefs)
      modifies this
      ensures State() == ProcessFlag(old(State()), AcceptRoutes, prefs)
    {
      if prefs.RouteAll != routes {
        routes := prefs.RouteAll;
        Notify("accept-routes");
      }
    }

    method ProcessLan(prefs: Prefs)
      modifies this
      ensures State() == ProcessFlag(old(State()), AllowLanAccess, prefs)
    {
      if prefs.ExitNodeAllowLANAccess != allowLanAccess {
        allowLanAccess := prefs.ExitNodeAllowLANAccess;
        Notify("allow-lan-access");
      }
    }

    method ProcessShields(prefs: Prefs)
      modifies this
      ensures State() == ProcessFlag(old(State()), ShieldsUp, prefs)
    {
      if prefs.ShieldsUp != shieldsUp {
        shieldsUp := prefs.ShieldsUp;
        Notify("shields-up");
      }
    }

    method ProcessSsh(prefs: Prefs)
      modifies this
      ensures State() == ProcessFlag(old(State()), Ssh, prefs)
    {
      if prefs.RunSSH != ssh {
        ssh := prefs.RunSSH;
        Notify("ssh");
      }
    }

    /** The five `_process_*` calls of `refresh_prefs` for the boolean preferences, in order. */
    method ProcessPrefsFlags(prefs: Prefs)
      modifies this
      ensures State() == ProcessFlags(old(State()), PrefsFlags, prefs)
    {
      ghost var goal := ProcessFlags(State(), PrefsFlags, prefs);
      ProcessDns(prefs);
      assert goal == ProcessFlags(State(), PrefsFlags[1..], prefs);
      ProcessRoutes(prefs);
      assert goal == ProcessFlags(State(), PrefsFlags[2..], prefs) by { assert PrefsFlags[1..][1..] == PrefsFlags[2..]; }
      ProcessLan(prefs);
      assert goal == ProcessFlags(State(), PrefsFlags[3..], prefs) by { assert PrefsFlags[2..][1..] == PrefsFlags[3..]; }
      ProcessShields(prefs);
      assert goal == ProcessFlags(State(), PrefsFlags[4..], prefs) by { assert PrefsFlags[3..][1..] == PrefsFlags[4..]; }
      ProcessSsh(prefs);
      assert goal == ProcessFlags(State(), [], prefs) by { assert PrefsFlags[4..][1..] == []; }
    }

    method SetRunningTo(value: bool)
      modifies this
      ensures State() == SetRunning(old(State()), value)
    {
      if running == value {
        return;
      }
      ExecCmd(UpDownCommand(value));
      running := value;
      Notify("running");
    }

    method SetAcceptDns(value: bool)
      modifies this
      ensures State() == SetFlag(old(State()), AcceptDns, value)
    {
      if dns == value {
        return;
      }
      ExecCmd(SetCommand("accept-dns", BoolText(value)));
      dns := value;
      Notify("accept-dns");
    }

    method SetAcceptRoutes(value: bool)
      modifies this
      ensures State() == SetFlag(old(State()), AcceptRoutes, value)
    {
      if routes == value {
        return;
      }
      ExecCmd(SetCommand("accept-routes", BoolText(value)));
      routes := value;
      Notify("accept-routes");
    }

    method SetAllowLanAccess(value: bool)
      modifies this
      ensures State() == SetFlag(old(State()), AllowLanAccess, value)
    {
      if allowLanAccess == value {
        return;
      }
      ExecCmd(SetCommand("exit-node-allow-lan-access", BoolText(value)));
      allowLanAccess := value;
      Notify("allow_lan_access");
    }

    method SetShieldsUp(value: bool)
      modifies this
      ensures State() == SetFlag(old(State()), ShieldsUp, value)
    {
      if shieldsUp == value {
        return;
      }
      ExecCmd(SetCommand("shields-up", BoolText(value)));
      shieldsUp := value;
      Notify("shields-up");
    }

    method SetSsh(value: bool)
      modifies this
      ensures State() == SetFlag(old(State()), Ssh, value)
    {
      if ssh == value {
        return;
      }
      ExecCmd(SetCommand("ssh", BoolText(value)));
      ssh := value;
      Notify("ssh");
    }

    /**
      The `exit_node` setter. Its command's success callback is
      `refresh_prefs`, which the caller runs as `RefreshPrefs` with the answer.
     */
    method SetExitNodeTo(value: string)
      modifies this
      ensures State() == SetExitNode(old(State()), value)
    {
      if exitNode == value {
        return;
      }
      ExecCmd(SetCommand("exit-node", value));
      exitNode := value;
      Notify("exit-node");
    }

    method RederiveDoc(prefs: Prefs, status: Status)
      modifies this
      ensures State() == Rederive(old(State()), prefs, status)
    {
      ProcessNodesDoc(prefs, status);
      ProcessExitNodeDoc(prefs, status);
    }

    /** The callback `refresh_status` passes to `exec_cmd`. */
    method OnStatus(status: Status)
      modifies this
      ensures State() == AcceptStatus(old(State()), status)
    {
      lastStatus := Some(status);
      ProcessStatusDoc(status);
      if lastPrefs.Some? {
        RederiveDoc(lastPrefs.value, status);
      }
    }

    method RefreshStatus(response: Option<Status>)
      modifies this
      ensures State() == StatusRefresh(old(State()), response)
    {
      ExecCmd(StatusCommand);
      if response.Some? {
        OnStatus(response.value);
      }
    }

    /** The callback `refresh_prefs` passes to `exec_cmd`. */
    method OnPrefs(prefs: Prefs)
      modifies this
      ensures State() == AcceptPrefs(old(State()), prefs)
    {
      lastPrefs := Some(prefs);
      ProcessPrefsFlags(prefs);
      if lastStatus.Some? {
        RederiveDoc(prefs, lastStatus.value);
      }
    }

    method RefreshPrefs(response: Option<Prefs>)
      modifies this
      ensures State() == PrefsRefresh(old(State()), response)
    {
      ExecCmd(PrefsCommand);
      if response.Some? {
        OnPrefs(response.value);
      }
    }
  }
}
