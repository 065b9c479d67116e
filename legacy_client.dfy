/**
  The first Tailscale client of the extension (tailscale.js at the repository
  root): the same caching scheme as `TailscaleClient` with three preferences
  (`running`, `accept-dns`, `accept-routes`) and a simpler `nodes` list.

  Its `_process_nodes` compares a freshly built array with the stored one by
  reference, so every status document notifies "nodes". A status without a
  `Peer` object makes `Object.values` throw; the exception escapes the callback
  and is logged, so `running` has been updated but `nodes` has not.
 */
module LegacyClient {
  import opened Wrappers
  import opened Documents

  /** One entry of the `nodes` property. */
  datatype LegacyNode = LegacyNode(name: string, phone: bool, exitNode: bool, exitNodeOption: bool)

  function NodeOfPeer(peer: Peer): LegacyNode {
    LegacyNode(peer.HostName, peer.OS == "android" || peer.OS == "ios", peer.ExitNode, peer.ExitNodeOption)
  }

  function Nodes(peers: seq<Peer>): (r: seq<LegacyNode>)
    ensures |r| == |peers|
    ensures forall i :: 0 <= i < |peers| ==> r[i] == NodeOfPeer(peers[i])
  {
    seq(|peers|, i requires 0 <= i < |peers| => NodeOfPeer(peers[i]))
  }

  /** The fields of a legacy `Tailscale` object; `nodes` is `None` until the first status arrives. */
  datatype LegacyState = LegacyState(
    running: bool,
    dns: bool,
    routes: bool,
    nodes: Option<seq<LegacyNode>>,
    notifications: seq<string>,
    commands: seq<seq<string>>)

  const Initial := LegacyState(false, false, false, None, [], [])

  function ProcessStatus(st: LegacyState, status: Status): LegacyState {
    var running := IsRunning(status);
    if running != st.running then st.(running := running, notifications := st.notifications + ["running"])
    else st
  }

  /** Without a `Peer` object nothing happens (the call throws); otherwise the list is replaced and notified. */
  function ProcessNodes(st: LegacyState, status: Status): LegacyState {
    match status.Peer
    case None => st
    case Some(peers) => st.(nodes := Some(Nodes(peers)), notifications := st.notifications + ["nodes"])
  }

  function ProcessDns(st: LegacyState, prefs: Prefs): LegacyState {
    if prefs.CorpDNS != st.dns then st.(dns := prefs.CorpDNS, notifications := st.notifications + ["accept-dns"])
    else st
  }

  function ProcessRoutes(st: LegacyState, prefs: Prefs): LegacyState {
    if prefs.RouteAll != st.routes then st.(routes := prefs.RouteAll, notifications := st.notifications + ["accept-routes"])
    else st
  }

  function SetAcceptDns(st: LegacyState, v: bool): LegacyState {
    if st.dns == v then st
    else st.(commands := st.commands + [SetCommand("accept-dns", if v then "true" else "false")],
             dns := v, notifications := st.notifications + ["accept-dns"])
  }

  function SetAcceptRoutes(st: LegacyState, v: bool): LegacyState {
    if st.routes == v then st
    else st.(commands := st.commands + [SetCommand("accept-routes", if v then "true" else "false")],
             routes := v, notifications := st.notifications + ["accept-routes"])
  }

  function SetRunning(st: LegacyState, v: bool): LegacyState {
    if st.running == v then st
    else st.(commands := st.commands + [UpDownCommand(v)], running := v,
             notifications := st.notifications + ["running"])
  }

  /** `refresh_status`; `None` stands for a failed command, whose callback never runs. */
  function StatusRefresh(st: LegacyState, response: Option<Status>): LegacyState {
    var issued := st.(commands := st.commands + [StatusCommand]);
    match response
    case None => issued
    case Some(status) => ProcessNodes(ProcessStatus(issued, status), status)
  }

  /** `refresh_prefs`. */
  function PrefsRefresh(st: LegacyState, response: Option<Prefs>): LegacyState {
    var issued := st.(commands := st.commands + [PrefsCommand]);
    match response
    case None => issued
    case Some(prefs) => ProcessRoutes(ProcessDns(issued, prefs), prefs)
  }

  // ---- properties ----

  /**
    Every entry of `nodes` stands for the peer at the same position: its host
    name, whether it runs a phone OS, and its exit-node flags.
   */
  lemma NodesSpec(peers: seq<Peer>)
    ensures |Nodes(peers)| == |peers|
    ensures forall i :: 0 <= i < |peers| ==>
      && Nodes(peers)[i].name == peers[i].HostName
      && (Nodes(peers)[i].phone <==> peers[i].OS in {"android", "ios"})
      && Nodes(peers)[i].exitNode == peers[i].ExitNode
      && Nodes(peers)[i].exitNodeOption == peers[i].ExitNodeOption
  {
  }

  /**
    A status document with peers always renotifies "nodes", even when the
    list is unchanged: a second refresh with the same answer notifies again.
   */
  lemma StatusRefreshAlwaysNotifiesNodes(st: LegacyState, status: Status)
    requires status.Peer.Some?
    ensures var once := StatusRefresh(st, Some(status));
      && once.nodes == Some(Nodes(status.Peer.value))
      && StatusRefresh(once, Some(status)).notifications == once.notifications + ["nodes"]
  {
  }

  /** Without a `Peer` object `running` is still updated but `nodes` is left as it was. */
  lemma StatusWithoutPeers(st: LegacyState, status: Status)
    requires status.Peer.None?
    ensures StatusRefresh(st, Some(status)).nodes == st.nodes
    ensures StatusRefresh(st, Some(status)).running == (status.BackendState == "Running")
  {
  }

  /** Appends `name` to the log when `changed`. */
  function NotifyIf(log: seq<string>, changed: bool, name: string): seq<string> {
    if changed then log + [name] else log
  }

  /**
    `_process_status`: `running` becomes whether the backend is running, and
    "running" is notified exactly when that changes it; nothing else changes.
   */
  lemma ProcessStatusSpec(st: LegacyState, status: Status)
    ensures var r := ProcessStatus(st, status);
      && r.running == (status.BackendState == "Running")
      && r.notifications == NotifyIf(st.notifications, r.running != st.running, "running")
      && r == st.(running := r.running, notifications := r.notifications)
      && ProcessStatus(r, status) == r
  {
  }

  /**
    `_process_dns` and `_process_routes`: each flag takes its prefs field and
    is notified exactly when that changes it; nothing else changes.
   */
  lemma ProcessPrefsSpec(st: LegacyState, prefs: Prefs)
    ensures var r := ProcessDns(st, prefs);
      && r.dns == prefs.CorpDNS
      && r.notifications == NotifyIf(st.notifications, prefs.CorpDNS != st.dns, "accept-dns")
      && r == st.(dns := r.dns, notifications := r.notifications)
      && ProcessDns(r, prefs) == r
    ensures var r := ProcessRoutes(st, prefs);
      && r.routes == prefs.RouteAll
      && r.notifications == NotifyIf(st.notifications, prefs.RouteAll != st.routes, "accept-routes")
      && r == st.(routes := r.routes, notifications := r.notifications)
      && ProcessRoutes(r, prefs) == r
  {
  }

  /**
    `refresh_status` with an answer: the command is logged, "running" is
    notified when it changed, and with peers the list is replaced and
    "nodes" notified after it. The two preferences are untouched.
   */
  lemma StatusRefreshSpec(st: LegacyState, status: Status)
    ensures var r := StatusRefresh(st, Some(status));
      && r.commands == st.commands + [StatusCommand]
      && r.running == (status.BackendState == "Running")
      && r.dns == st.dns && r.routes == st.routes
      && r.nodes == (if status.Peer.Some? then Some(Nodes(status.Peer.value)) else st.nodes)
      && r.notifications ==
           NotifyIf(NotifyIf(st.notifications, r.running != st.running, "running"), status.Peer.Some?, "nodes")
  {
    ProcessStatusSpec(st.(commands := st.commands + [StatusCommand]), status);
  }

  /**
    `refresh_prefs` with an answer: the command is logged, `accept-dns` and
    `accept-routes` take their prefs fields and are notified, in that order,
    exactly when they changed. `running` and `nodes` are untouched.
   */
  lemma PrefsRefreshSpec(st: LegacyState, prefs: Prefs)
    ensures var r := PrefsRefresh(st, Some(prefs));
      && r.commands == st.commands + [PrefsCommand]
      && r.dns == prefs.CorpDNS && r.routes == prefs.RouteAll
      && r.running == st.running && r.nodes == st.nodes
      && r.notifications ==
           NotifyIf(NotifyIf(st.notifications, prefs.CorpDNS != st.dns, "accept-dns"), prefs.RouteAll != st.routes, "accept-routes")
  {
    var issued := st.(commands := st.commands + [PrefsCommand]);
    ProcessPrefsSpec(issued, prefs);
    ProcessPrefsSpec(ProcessDns(issued, prefs), prefs);
  }

  /** The prefs refresh is idempotent apart from its command. */
  lemma PrefsRefreshTwice(st: LegacyState, prefs: Prefs)
    ensures var once := PrefsRefresh(st, Some(prefs));
      && once.dns == prefs.CorpDNS && once.routes == prefs.RouteAll
      && PrefsRefresh(once, Some(prefs)) == once.(commands := once.commands + [["tailscale", "debug", "prefs"]])
  {
  }

  /**
    The setters issue one command and notify once for a changed value, and
    nothing at all for an equal one.
   */
  lemma SettersSpec(st: LegacyState, v: bool)
    ensures st.dns == v ==> SetAcceptDns(st, v) == st
    ensures st.dns != v ==>
      && SetAcceptDns(st, v).dns == v
      && SetAcceptDns(st, v).commands == st.commands + [["tailscale", "set", "--accept-dns=" + (if v then "true" else "false")]]
      && SetAcceptDns(st, v).notifications == st.notifications + ["accept-dns"]
    ensures st.routes == v ==> SetAcceptRoutes(st, v) == st
    ensures st.routes != v ==>
      && SetAcceptRoutes(st, v).routes == v
      && SetAcceptRoutes(st, v).commands == st.commands + [["tailscale", "set", "--accept-routes=" + (if v then "true" else "false")]]
      && SetAcceptRoutes(st, v).notifications == st.notifications + ["accept-routes"]
    ensures st.running == v ==> SetRunning(st, v) == st
    ensures st.running != v ==>
      && SetRunning(st, v).running == v
      && SetRunning(st, v).commands == st.commands + [["tailscale", if v then "up" else "down"]]
      && SetRunning(st, v).notifications == st.notifications + ["running"]
    ensures var r := SetAcceptDns(st, v); r == st.(dns := r.dns, commands := r.commands, notifications := r.notifications)
    ensures var r := SetAcceptRoutes(st, v); r == st.(routes := r.routes, commands := r.commands, notifications := r.notifications)
    ensures var r := SetRunning(st, v); r == st.(running := r.running, commands := r.commands, notifications := r.notifications)
  {
    assert "--" + "accept-dns" + "=" + (if v then "true" else "false") == "--accept-dns=" + (if v then "true" else "false");
    assert "--" + "accept-routes" + "=" + (if v then "true" else "false") == "--accept-routes=" + (if v then "true" else "false");
  }

  /** The legacy client object. */
  class Tailscale {
    var running: bool
    var dns: bool
    var routes: bool
    var nodes: Option<seq<LegacyNode>>
    var notifications: seq<string>
    var commands: seq<seq<string>>

    function State(): LegacyState
      reads this
    {
      LegacyState(running, dns, routes, nodes, notifications, commands)
    }

    /** `_init`, then `refresh_status()` and `refresh_prefs()` with their answers. */
    constructor(status: Option<Status>, prefs: Option<Prefs>)
      ensures State() == PrefsRefresh(StatusRefresh(Initial, status), prefs)
    {
      running, dns, routes, nodes := false, false, false, None;
      notifications, commands := [], [];
      new;
      RefreshStatus(status);
      RefreshPrefs(prefs);
    }

    method ProcessStatusDoc(status: Status)
      modifies this
      ensures State() == ProcessStatus(old(State()), status)
    {
      var r := status.BackendState == "Running";
      if r != running {
        running := r;
        notifications := notifications + ["running"];
      }
    }

    method ProcessNodesDoc(status: Status)
      modifies this
      ensures State() == ProcessNodes(old(State()), status)
    {
      if status.Peer.Some? {
        nodes := Some(Nodes(status.Peer.value));
        notifications := notifications + ["nodes"];
      }
    }

    method ProcessDnsDoc(prefs: Prefs)
      modifies this
      ensures State() == ProcessDns(old(State()), prefs)
    {
      if prefs.CorpDNS != dns {
        dns := prefs.CorpDNS;
        notifications := notifications + ["accept-dns"];
      }
    }

    method ProcessRoutesDoc(prefs: Prefs)
      modifies this
      ensures State() == ProcessRoutes(old(State()), prefs)
    {
      if prefs.RouteAll != routes {
        routes := prefs.RouteAll;
        notifications := notifications + ["accept-routes"];
      }
    }

    method SetAcceptDnsTo(value: bool)
      modifies this
      ensures State() == SetAcceptDns(old(State()), value)
    {
      if dns == value {
        return;
      }
      commands := commands + [SetCommand("accept-dns", if value then "true" else "false")];
      dns := value;
      notifications := notifications + ["accept-dns"];
    }

    method SetAcceptRoutesTo(value: bool)
      modifies this
      ensures State() == SetAcceptRoutes(old(State()), value)
    {
      if routes == value {
        return;
      }
      commands := commands + [SetCommand("accept-routes", if value then "true" else "false")];
      routes := value;
      notifications := notifications + ["accept-routes"];
    }

    method SetRunningTo(value: bool)
      modifies this
      ensures State() == SetRunning(old(State()), value)
    {
      if running == value {
        return;
      }
      commands := commands + [UpDownCommand(value)];
      running := value;
      notifications := notifications + ["running"];
    }

    method RefreshStatus(response: Option<Status>)
      modifies this
      ensures State() == StatusRefresh(old(State()), response)
    {
      commands := commands + [StatusCommand];
      if response.Some? {
        ProcessStatusDoc(response.value);
        ProcessNodesDoc(response.value);
      }
    }

    method RefreshPrefs(response: Option<Prefs>)
      modifies this
      ensures State() == PrefsRefresh(old(State()), response)
    {
      commands := commands + [PrefsCommand];
      if response.Some? {
        ProcessDnsDoc(response.value);
        ProcessRoutesDoc(response.value);
      }
    }
  }
}
