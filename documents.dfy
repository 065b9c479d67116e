/**
  The JSON documents the Tailscale CLI prints, as records: `tailscale status
  --json` and `tailscale debug prefs`. Only the fields the extension reads are
  kept. Parsing is not modelled: a document is an input.
 */
module Documents {
  import opened Wrappers

  /** One value of the status document's `Peer` object. */
  datatype Peer = Peer(
    ID: string,
    HostName: string,
    DNSName: string,
    OS: string,
    Online: bool,
    ExitNode: bool,
    ExitNodeOption: bool,
    TailscaleIPs: Option<seq<string>>)

  /**
    The status document. `Peer` holds `Object.values(status.Peer)` in key
    order, or `None` when the document has no `Peer` object.
   */
  datatype Status = Status(BackendState: string, Peer: Option<seq<Peer>>)

  /** The prefs document. `ExitNodeID` is `None` when the field is absent. */
  datatype Prefs = Prefs(
    ExitNodeID: Option<string>,
    CorpDNS: bool,
    RouteAll: bool,
    ExitNodeAllowLANAccess: bool,
    ShieldsUp: bool,
    RunSSH: bool)

  /** `status.BackendState == "Running"`. */
  predicate IsRunning(status: Status) {
    status.BackendState == "Running"
  }

  /** The command lines the clients issue. */
  const StatusCommand: seq<string> := ["tailscale", "status", "--json"]
  const PrefsCommand: seq<string> := ["tailscale", "debug", "prefs"]

  /** `["tailscale", value ? "up" : "down"]`. */
  function UpDownCommand(up: bool): seq<string> {
    ["tailscale", if up then "up" else "down"]
  }

  /** `["tailscale", "set", "--<flag>=<value>"]`. */
  function SetCommand(flag: string, value: string): seq<string> {
    ["tailscale", "set", "--" + flag + "=" + value]
  }
}
