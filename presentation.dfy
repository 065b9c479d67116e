/**
  The presentation rules of the Quick Settings menu (extension.js): the exit
  indicator next to the panel icon, and the device items rebuilt from the
  client's `nodes` list. Widgets are reduced to the values they are built
  from; a click on a device item is the `exit_node` assignment it performs.
 */
module Presentation {
  import opened Wrappers
  import Seqs
  import TC = TailscaleClient
  import Documents

  const OfflineIcon := "network-offline-symbolic"
  const PhoneIcon := "phone-symbolic"
  const ComputerIcon := "computer-symbolic"

  const DisableExitNode := "disable exit node"
  const UseAsExitNode := "use as exit node"

  /** The operating systems shown with a phone icon, spelled as the client reports them. */
  predicate IsMobile(os: string) {
    os == "android" || os == "iOS"
  }

  /** The icon of a device item. */
  function DeviceIcon(node: TC.Node): string {
    if !node.online then OfflineIcon
    else if IsMobile(node.os) then PhoneIcon
    else ComputerIcon
  }

  /** The subtitle of a device item (before translation). */
  function Subtitle(node: TC.Node): string {
    if node.exitNode then DisableExitNode
    else if node.exitNodeOption then UseAsExitNode
    else ""
  }

  /** The value the item's click handler assigns to `exit_node`, or `None` when it has no handler. */
  function ClickTarget(node: TC.Node): Option<string> {
    if !node.exitNodeOption then None
    else if node.exitNode then Some("")
    else Some(node.name)
  }

  /** What a long press does: whether it is handled and which address reaches the clipboards. */
  datatype LongClickResult = LongClickResult(handled: bool, copied: Option<string>)

  /**
    The long-press handler: without an `ips` array it declines; otherwise it
    copies `ips[0]` (nothing usable when the array is empty) and reports the
    press as handled.
   */
  function LongClick(node: TC.Node): LongClickResult {
    match node.ips
    case None => LongClickResult(false, None)
    case Some(ips) => LongClickResult(true, if ips == [] then None else Some(ips[0]))
  }

  /** One `TailscaleDeviceItem`: icon, label, subtitle and its two actions. */
  datatype DeviceItem = DeviceItem(
    icon: string,
    text: string,
    subtitle: string,
    onClick: Option<string>,
    onLongClick: LongClickResult)

  function ItemFor(node: TC.Node): DeviceItem {
    DeviceItem(DeviceIcon(node), node.name, Subtitle(node), ClickTarget(node), LongClick(node))
  }

  /** Activating an item: its handler, if any, goes through the client's `exit_node` setter. */
  function Activate(st: TC.ClientState, item: DeviceItem): TC.ClientState {
    match item.onClick
    case None => st
    case Some(target) => TC.SetExitNode(st, target)
  }

  // ---- item rules ----

  /**
    An offline device shows the offline icon whatever its OS; an online
    Android or iOS device the phone icon; every other one the computer icon.
   */
  lemma DeviceIconSpec(node: TC.Node)
    ensures DeviceIcon(node) == OfflineIcon <==> !node.online
    ensures DeviceIcon(node) == PhoneIcon <==> node.online && (node.os == "android" || node.os == "iOS")
    ensures DeviceIcon(node) == ComputerIcon <==> node.online && node.os != "android" && node.os != "iOS"
  {
  }

  /** The current exit node offers to be disabled, another capable node to be used, the rest nothing. */
  lemma SubtitleSpec(node: TC.Node)
    ensures Subtitle(node) == DisableExitNode <==> node.exitNode
    ensures Subtitle(node) == UseAsExitNode <==> !node.exitNode && node.exitNodeOption
    ensures Subtitle(node) == "" <==> !node.exitNode && !node.exitNodeOption
  {
  }

  /**
    Only exit-capable devices react to a click. Clicking the current exit
    node clears `exit_node`, clicking another one selects it by name; the
    setter then issues at most one command.
   */
  lemma ActivateSpec(st: TC.ClientState, node: TC.Node)
    ensures !node.exitNodeOption ==> Activate(st, ItemFor(node)) == st
    ensures node.exitNodeOption ==>
      Activate(st, ItemFor(node)).exitNode == (if node.exitNode then "" else node.name)
    ensures |Activate(st, ItemFor(node)).commands| <= |st.commands| + 1
    ensures Activate(Activate(st, ItemFor(node)), ItemFor(node)) == Activate(st, ItemFor(node))
  {
    TC.SetExitNodeSpec(st, if node.exitNode then "" else node.name);
  }

  /** A long press is declined exactly when there is no address list, and copies the first address otherwise. */
  lemma LongClickSpec(node: TC.Node)
    ensures !LongClick(node).handled <==> node.ips.None?
    ensures LongClick(node).copied.Some? <==> node.ips.Some? && node.ips.value != []
    ensures LongClick(node).copied.Some? ==> LongClick(node).copied.value == node.ips.value[0]
  {
  }

  // ---- the exit indicator ----

  /** The indicator's two locals and the visibility it last set. */
  datatype IndicatorState = IndicatorState(up: bool, exitNodeSet: bool, visible: bool)

  /** A property notification the indicator listens to. */
  datatype Event = RunningChanged(running: bool) | ExitNodeChanged(exitNode: string)

  const Hidden := IndicatorState(false, false, false)

  function Step(s: IndicatorState, e: Event): IndicatorState {
    match e
    case RunningChanged(running) => s.(up := running, visible := running && s.exitNodeSet)
    case ExitNodeChanged(exitNode) => s.(exitNodeSet := exitNode != "", visible := s.up && exitNode != "")
  }

  /** The indicator after a series of notifications, starting hidden. */
  function Replay(events: seq<Event>): IndicatorState {
    if events == [] then Hidden
    else Step(Replay(events[..|events| - 1]), events[|events| - 1])
  }

  /** The value carried by the last `running` notification, if any. */
  function LastRunning(events: seq<Event>): Option<bool> {
    if events == [] then None
    else if events[|events| - 1].RunningChanged? then Some(events[|events| - 1].running)
    else LastRunning(events[..|events| - 1])
  }

  /** The value carried by the last `exit-node` notification, if any. */
  function LastExitNode(events: seq<Event>): Option<string> {
    if events == [] then None
    else if events[|events| - 1].ExitNodeChanged? then Some(events[|events| - 1].exitNode)
    else LastExitNode(events[..|events| - 1])
  }

  /**
    Whatever the order of notifications, the exit indicator is visible
    exactly when the last `running` value was true and the last `exit_node`
    value was non-empty; before either arrives it is hidden.
   */
  lemma {:induction false} ReplaySpec(events: seq<Event>)
    ensures Replay(events).up <==> LastRunning(events) == Some(true)
    ensures Replay(events).exitNodeSet <==> LastExitNode(events).Some? && LastExitNode(events).value != ""
    ensures Replay(events).visible <==> Replay(events).up && Replay(events).exitNodeSet
  {
    if events != [] {
      ReplaySpec(events[..|events| - 1]);
    }
  }

  /** `TailscaleIndicator`'s exit icon and the two flags its handlers keep. */
  class ExitIndicator {
    var up: bool
    var exitNodeSet: bool
    var visible: bool

    function State(): IndicatorState
      reads this
    {
      IndicatorState(up, exitNodeSet, visible)
    }

    constructor()
      ensures State() == Replay([])
    {
      up, exitNodeSet, visible := false, false, false;
    }

    /** `setVisible`. */
    method SetVisible()
      modifies this
      ensures visible == (up && exitNodeSet)
      ensures up == old(up) && exitNodeSet == old(exitNodeSet)
    {
      visible := up && exitNodeSet;
    }

    /** The `notify::exit-node` handler. */
    method OnExitNodeNotify(exitNode: string)
      modifies this
      ensures State() == Step(old(State()), ExitNodeChanged(exitNode))
    {
      exitNodeSet := exitNode != "";
      SetVisible();
    }

    /** The `notify::running` handler. */
    method OnRunningNotify(running: bool)
      modifies this
      ensures State() == Step(old(State()), RunningChanged(running))
    {
      up := running;
      SetVisible();
    }
  }

  // ---- the device section ----

  /** The items of a section built from `nodes`, one per node in list order. */
  function ItemsFor(nodes: seq<TC.Node>): (items: seq<DeviceItem>)
    ensures |items| == |nodes|
    ensures forall i :: 0 <= i < |nodes| ==> items[i] == ItemFor(nodes[i])
  {
    seq(|nodes|, i requires 0 <= i < |nodes| => ItemFor(nodes[i]))
  }

  predicate OffersDisable(item: DeviceItem) {
    item.subtitle == DisableExitNode
  }

  /**
    When the nodes come from a status whose peers have distinct IDs, at most
    one device item offers to disable the exit node.
   */
  lemma AtMostOneDisableItem(prefs: Documents.Prefs, status: Documents.Status)
    requires Seqs.NoDuplicates(TC.PeerIds(TC.PeersOf(status)))
    ensures var items := ItemsFor(TC.DeriveNodes(prefs, status));
      forall i, j :: 0 <= i < j < |items| ==> !(OffersDisable(items[i]) && OffersDisable(items[j]))
  {
    var nodes := TC.DeriveNodes(prefs, status);
    var items := ItemsFor(nodes);
    TC.AtMostOneExitNode(prefs, status);
    forall i, j | 0 <= i < j < |items| ensures !(OffersDisable(items[i]) && OffersDisable(items[j])) {
      if OffersDisable(items[i]) && OffersDisable(items[j]) {
        SubtitleSpec(nodes[i]);
        SubtitleSpec(nodes[j]);
        Seqs.FilterTwo(nodes, TC.IsCurrentExit, i, j);
      }
    }
  }

  /** The `PopupMenuSection` of devices in the menu toggle. */
  class DeviceSection {
    var items: seq<DeviceItem>

    constructor()
      ensures items == []
    {
      items := [];
    }

    /** The `notify::nodes` handler: `removeAll`, then one `addMenuItem` per node. */
    method OnNodesNotify(nodes: seq<TC.Node>)
      modifies this
      ensures items == ItemsFor(nodes)
    {
      items := [];
      for i := 0 to |nodes|
        invariant items == ItemsFor(nodes[..i])
      {
        items := items + [ItemFor(nodes[i])];
      }
      assert nodes[..|nodes|] == nodes;
    }
  }
}
