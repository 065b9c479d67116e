# Tailscale Quick Settings: a Dafny model

This is a Dafny model of the logic in the Tailscale GNOME Shell extension (`tailscale@joaophi.github.com`). It covers four parts.

- **The Tailscale client.** `Tailscale` objects cache the daemon's state in fields. They read it from `tailscale status --json` and `tailscale debug prefs`. They notify a property only when its value changes. Their setters run one `tailscale up|down|set` command and update the field at once.
  - The newer client is `tailscale_client.dfy`. It also derives a sorted list of nodes and the current exit node.
  - The older client at the repository root is `legacy_client.dfy`.
- **The Quick Settings presentation.** This covers the exit-node indicator and one device item per node, with its icon, subtitle, click action and long-press action (`presentation.dfy`).
- **The Mullvad exit-node picker.**
  - The catalog (`mullvad_catalog.dfy`) filters provider nodes and groups them into city/country locations. For each location it picks the best node: the online node of lowest priority. It drops locations with no node online. It filters locations by a search query and sorts them by country, then city. It also turns a country code into a flag.
  - The dialog (`mullvad_dialog.dfy`) holds the list of location items and node items. It expands and collapses a location in place in that flat list. Clicking an item selects it and writes `exit_node`.
- **The timer registry of `timeout.js`.** `setTimeout`/`setInterval` run on GLib sources. Every live handle is kept in `SOURCES`, so that disabling the extension can cancel them all (`timeout.dfy`).

Shared pieces:

- `documents.dfy`: the CLI documents and command lines.
- `seqs.dfy`: `indexOf`, `splice` of a found element, and `filter`.
- `sorting.dfy`: a stable sort with a comparator.
- `strings.dfy`: string order, ASCII lowercasing, `includes`, `split(".")[0]`, and the text of a boolean.
- `wrappers.dfy`: `Option`.

## How state is modelled

- **Classes and specification functions.** Each JavaScript class whose fields change becomes a Dafny class with those fields. Its methods are specified by a function on the value of all fields: `State() == Spec(old(State()), args)`. The properties are lemmas about those functions.
- **Logs.** Notifications are an appended log of property names. Commands are an appended log of argument vectors.
- **Failed commands.** A CLI answer is an `Option`. `None` is a command that failed, whose callback never runs.
- **The dialog's list.** The dialog's `_listBox` is the sequence of its children, a sum of location items, node items and the "No locations found" box. Items are objects whose `selected`/`expanded` properties change in place.
- **Timers.** GLib's live sources are a map from handle to timer. `GLib.timeout_add` hands out fresh handles, numbered from 1.

## Model

| member | source | states |
|---|---|---|
| TailscaleClient.NodeLeIsTotalPreorder | tailscale@joaophi.github.com/tailscale.js:106-110 | The node comparator (online first, then exit-capable first, then by name) is total and transitive, so the stable sort is well defined. |
| TailscaleClient.WithFlag | tailscale@joaophi.github.com/tailscale.js:128-166 | Writing one boolean preference sets that flag only; the other flags, `running`, `exit_node`, `nodes`, both documents and both logs are unchanged. |
| TailscaleClient.ProcessStatus | tailscale@joaophi.github.com/tailscale.js:88-94 | `_process_status` changes only `running` and the notification log. |
| TailscaleClient.ProcessFlag | tailscale@joaophi.github.com/tailscale.js:128-166 | A `_process_dns/_routes/_lan/_shields/_ssh` step never touches `running`, `exit_node`, `nodes`, the stored documents or the command log. |
| TailscaleClient.ProcessNodes | tailscale@joaophi.github.com/tailscale.js:96-116 | `_process_nodes` changes only `nodes` and the notification log. |
| TailscaleClient.FindExitPeer | tailscale@joaophi.github.com/tailscale.js:119-120 | `find` returns the first peer of the list whose ID is `ExitNodeID`, and returns nothing exactly when no peer has that ID. |
| TailscaleClient.ProcessExitNode | tailscale@joaophi.github.com/tailscale.js:118-126 | `_process_exit_node` changes only `exit_node` and the notification log. |
| TailscaleClient.Rederive | tailscale@joaophi.github.com/tailscale.js:276-277 | Re-deriving sets `nodes` to the sorted list derived from the two documents, and `exit_node` to the matching peer's host name or `""`. Nothing else changes except the log. |
| TailscaleClient.AcceptStatus | tailscale@joaophi.github.com/tailscale.js:271-279 | The status callback stores the status and keeps the prefs document, the command log and all five preference flags. `running` becomes `BackendState == "Running"`. Without a stored prefs document, `nodes` and `exit_node` are left alone. With one, `nodes` becomes the sorted list derived from both documents and `exit_node` the matching peer's host name or `""`. |
| TailscaleClient.ProcessFlags | tailscale@joaophi.github.com/tailscale.js:286-290 | The run of flag steps changes only the flags and the notification log. |
| TailscaleClient.AcceptPrefs | tailscale@joaophi.github.com/tailscale.js:283-295 | The prefs callback stores the prefs document and keeps the status, `running` and the command log. Every flag then holds its prefs field: `CorpDNS`, `RouteAll`, `ExitNodeAllowLANAccess`, `ShieldsUp`, `RunSSH`. Without a stored status, `nodes` and `exit_node` are left alone. With one, both are re-derived from the two documents. |
| TailscaleClient.ProcessStatusNotifiesOnChange | tailscale@joaophi.github.com/tailscale.js:88-94 | `running` becomes `BackendState == "Running"`, and "running" is notified exactly when that changes it. The same status a second time changes nothing. |
| TailscaleClient.ProcessFlagNotifiesOnChange | tailscale@joaophi.github.com/tailscale.js:128-166 | Each flag takes its prefs field and leaves the other flags alone. It is notified under its property name exactly when it changes. Re-processing changes nothing. |
| TailscaleClient.DeriveNodesSpec | tailscale@joaophi.github.com/tailscale.js:96-110 | The node list is empty without a `Peer` object and is a permutation of the projected peers. No offline node precedes an online one. Among equal online status, exit-capable nodes come first. Remaining ties are ordered by name. |
| TailscaleClient.NodeOfPeerSpec | tailscale@joaophi.github.com/tailscale.js:98-105 | A node's name is the `DNSName` text before the first `"."`. `exit_node` holds exactly when the peer's ID is `ExitNodeID`. OS, exit option, online and IPs are copied. |
| TailscaleClient.AtMostOneMatchingPeer | tailscale@joaophi.github.com/tailscale.js:101 | With distinct peer IDs at most one projected node is the current exit node, and none when no peer matches. |
| TailscaleClient.AtMostOneExitNode | tailscale@joaophi.github.com/tailscale.js:96-110 | In the sorted list at most one node is marked as the current exit node, and none when no peer has the selected ID. |
| TailscaleClient.ProcessNodesNotifiesOnChange | tailscale@joaophi.github.com/tailscale.js:112-115 | `nodes` becomes the derived list. "nodes" is notified exactly when it differs from the stored list, so the same documents again notify nothing. |
| TailscaleClient.ProcessExitNodeSpec | tailscale@joaophi.github.com/tailscale.js:118-126 | `exit_node` becomes the matching peer's `HostName`, or `""`. With a match a second run changes nothing. Without one every run notifies "exit-node" again (`undefined != ""`). |
| TailscaleClient.SetFlagSpec | tailscale@joaophi.github.com/tailscale.js:186-250 | An equal value issues no command and no notification. A new value issues exactly `tailscale set --<flag>=<value>`, stores the value and notifies once; the LAN setter notifies `allow_lan_access`. The other flags, `running`, `exit_node`, `nodes` and both stored documents are kept. Setting twice equals setting once. |
| TailscaleClient.SetRunningSpec | tailscale@joaophi.github.com/tailscale.js:172-180 | An equal value does nothing. A new one issues `tailscale up` or `tailscale down` once, stores it and notifies "running". Nothing else changes. The setter is idempotent. |
| TailscaleClient.SetExitNodeSpec | tailscale@joaophi.github.com/tailscale.js:256-264 | An equal value does nothing. A new one issues `tailscale set --exit-node=<value>` once, stores it and notifies "exit-node". Nothing else changes. The setter is idempotent. |
| TailscaleClient.RefreshStatusBeforePrefs | tailscale@joaophi.github.com/tailscale.js:270-280 | Before any prefs document is stored, a status refresh updates only `running` and the stored status. `nodes` and `exit_node` are untouched, and at most "running" is notified. |
| TailscaleClient.RefreshFailureOnlyLogs | tailscale@joaophi.github.com/tailscale.js:3-26 | A refresh whose command fails only logs the command. |
| TailscaleClient.ProcessFlagUnchanged | tailscale@joaophi.github.com/tailscale.js:128-134 | A flag that already holds the document's value is left alone and not notified. |
| TailscaleClient.ProcessFlagsSpec | tailscale@joaophi.github.com/tailscale.js:286-290 | After the flag steps each processed flag holds its prefs field, and every other flag keeps its value. |
| TailscaleClient.ProcessFlagsUnchanged | tailscale@joaophi.github.com/tailscale.js:286-290 | Flags that already hold the document's values are not changed or notified. |
| TailscaleClient.ProcessFlagsIdempotent | tailscale@joaophi.github.com/tailscale.js:286-290 | Processing the same prefs twice equals processing them once. |
| TailscaleClient.RederiveUnchanged | tailscale@joaophi.github.com/tailscale.js:292-293 | With `nodes` already derived and the exit peer found under the stored name, re-deriving changes nothing. |
| TailscaleClient.AcceptPrefsUnchanged | tailscale@joaophi.github.com/tailscale.js:283-295 | A prefs document the state already reflects changes nothing when accepted again. |
| TailscaleClient.RefreshPrefsTwice | tailscale@joaophi.github.com/tailscale.js:282-296 | The same prefs answer a second time notifies nothing, provided no status is stored yet or the exit peer is found; only the command log grows. |
| TailscaleClient.StatusFirstSpec | tailscale@joaophi.github.com/tailscale.js:270-296 | A status answer followed by a prefs answer leaves `running`, the five flags, `nodes` and `exit_node` as the two documents determine them. |
| TailscaleClient.PrefsFirstSpec | tailscale@joaophi.github.com/tailscale.js:270-296 | A prefs answer followed by a status answer leaves `running`, the five flags, `nodes` and `exit_node` as the two documents determine them. |
| TailscaleClient.BothRefreshesAgree | tailscale@joaophi.github.com/tailscale.js:270-296 | Whichever answer arrives first, both orders end with the same `running`, flags, `nodes` and `exit_node`: those the two documents determine. |
| TailscaleClient.Tailscale.constructor | tailscale@joaophi.github.com/tailscale.js:74-86 | All fields start at their defaults. The constructor then runs `refresh_status` and `refresh_prefs` with the given answers. |
| TailscaleClient.Tailscale.Notify | tailscale@joaophi.github.com/tailscale.js:92 | `notify` appends the property name to the log and changes nothing else. |
| TailscaleClient.Tailscale.ExecCmd | tailscale@joaophi.github.com/tailscale.js:3-26 | `exec_cmd` appends the argument vector to the command log and changes nothing else. |
| TailscaleClient.Tailscale.ProcessStatusDoc | tailscale@joaophi.github.com/tailscale.js:88-94 | The new state is `ProcessStatus` of the old one. |
| TailscaleClient.Tailscale.ProcessNodesDoc | tailscale@joaophi.github.com/tailscale.js:96-116 | The new state is `ProcessNodes` of the old one. |
| TailscaleClient.Tailscale.ProcessExitNodeDoc | tailscale@joaophi.github.com/tailscale.js:118-126 | The new state is `ProcessExitNode` of the old one. |
| TailscaleClient.Tailscale.ProcessDns | tailscale@joaophi.github.com/tailscale.js:128-134 | `_process_dns` is the flag step for `CorpDNS`. |
| TailscaleClient.Tailscale.ProcessRoutes | tailscale@joaophi.github.com/tailscale.js:136-142 | `_process_routes` is the flag step for `RouteAll`. |
| TailscaleClient.Tailscale.ProcessLan | tailscale@joaophi.github.com/tailscale.js:144-150 | `_process_lan` is the flag step for `ExitNodeAllowLANAccess`. |
| TailscaleClient.Tailscale.ProcessShields | tailscale@joaophi.github.com/tailscale.js:152-158 | `_process_shields` is the flag step for `ShieldsUp`. |
| TailscaleClient.Tailscale.ProcessSsh | tailscale@joaophi.github.com/tailscale.js:160-166 | `_process_ssh` is the flag step for `RunSSH`. |
| TailscaleClient.Tailscale.ProcessPrefsFlags | tailscale@joaophi.github.com/tailscale.js:286-290 | The five flag steps in order are `ProcessFlags` over the five flags. |
| TailscaleClient.Tailscale.SetRunningTo | tailscale@joaophi.github.com/tailscale.js:172-180 | The `running` setter is `SetRunning` on the state. |
| TailscaleClient.Tailscale.SetAcceptDns | tailscale@joaophi.github.com/tailscale.js:186-194 | The `accept_dns` setter is `SetFlag` for the DNS flag. |
| TailscaleClient.Tailscale.SetAcceptRoutes | tailscale@joaophi.github.com/tailscale.js:200-208 | The `accept_routes` setter is `SetFlag` for the routes flag. |
| TailscaleClient.Tailscale.SetAllowLanAccess | tailscale@joaophi.github.com/tailscale.js:214-222 | The `allow_lan_access` setter is `SetFlag` for the LAN flag, notifying `allow_lan_access`. |
| TailscaleClient.Tailscale.SetShieldsUp | tailscale@joaophi.github.com/tailscale.js:228-236 | The `shields_up` setter is `SetFlag` for the shields flag. |
| TailscaleClient.Tailscale.SetSsh | tailscale@joaophi.github.com/tailscale.js:242-250 | The `ssh` setter is `SetFlag` for the SSH flag. |
| TailscaleClient.Tailscale.SetExitNodeTo | tailscale@joaophi.github.com/tailscale.js:256-264 | The `exit_node` setter is `SetExitNode` on the state. |
| TailscaleClient.Tailscale.RederiveDoc | tailscale@joaophi.github.com/tailscale.js:276-277 | `_process_nodes` then `_process_exit_node` is `Rederive`. |
| TailscaleClient.Tailscale.OnStatus | tailscale@joaophi.github.com/tailscale.js:272-278 | The status callback is `AcceptStatus`. |
| TailscaleClient.Tailscale.RefreshStatus | tailscale@joaophi.github.com/tailscale.js:270-280 | `refresh_status` is `StatusRefresh`: the command, then the callback if it succeeded. |
| TailscaleClient.Tailscale.OnPrefs | tailscale@joaophi.github.com/tailscale.js:284-294 | The prefs callback is `AcceptPrefs`. |
| TailscaleClient.Tailscale.RefreshPrefs | tailscale@joaophi.github.com/tailscale.js:282-296 | `refresh_prefs` is `PrefsRefresh`: the command, then the callback if it succeeded. |
| LegacyClient.Nodes | tailscale.js:74-80 | The legacy node list has one entry per peer, in peer order, each built from that peer. |
| LegacyClient.NodesSpec | tailscale.js:73-80 | Each entry's name is the peer's `HostName`. `phone` holds exactly when the OS is `"android"` or lowercase `"ios"`. Both exit flags are copied. |
| LegacyClient.StatusRefreshAlwaysNotifiesNodes | tailscale.js:81-84 | With peers, a status refresh replaces `nodes`. A second refresh with the same answer notifies "nodes" again (reference comparison). |
| LegacyClient.StatusWithoutPeers | tailscale.js:150-153 | Without a `Peer` object, `running` is still updated but `nodes` is left as it was (the thrown error is caught and logged). |
| LegacyClient.PrefsRefreshTwice | tailscale.js:156-161 | `accept_dns` comes from `CorpDNS` and `accept_routes` from `RouteAll`. A second identical prefs refresh changes only the command log. |
| LegacyClient.ProcessStatusSpec | tailscale.js:65-71 | `running` becomes `BackendState == "Running"`. "running" is notified exactly when that changes it. Nothing else changes, and the same status again changes nothing. |
| LegacyClient.ProcessPrefsSpec | tailscale.js:87-101 | `accept_dns` takes `CorpDNS` and `accept_routes` takes `RouteAll`. Each is notified under its property name exactly when it changes. Nothing else changes, and re-processing changes nothing. |
| LegacyClient.StatusRefreshSpec | tailscale.js:149-154 | A status answer logs the command and sets `running`, notified when it changed. With peers, `nodes` is replaced and "nodes" notified after "running"; without, `nodes` is kept. The two preferences are untouched. |
| LegacyClient.PrefsRefreshSpec | tailscale.js:156-161 | A prefs answer logs the command and sets `accept_dns` and `accept_routes` from the document. Each is notified, in that order, exactly when it changed. `running` and `nodes` are untouched. |
| LegacyClient.SettersSpec | tailscale.js:107-143 | Each setter is a no-op for an equal value. Otherwise it issues exactly `tailscale set --accept-dns=…`, `--accept-routes=…` or `tailscale up/down`, stores the value and notifies once. Each setter changes only its own field and the two logs. |
| LegacyClient.Tailscale.constructor | tailscale.js:56-63 | The three flags start false and `nodes` unset. The constructor then runs `refresh_status` and `refresh_prefs` with the given answers. |
| LegacyClient.Tailscale.ProcessStatusDoc | tailscale.js:65-71 | The new state is `ProcessStatus` of the old: `running` from `BackendState`, notified on change. |
| LegacyClient.Tailscale.ProcessNodesDoc | tailscale.js:73-85 | The new state is `ProcessNodes` of the old: without peers nothing changes, with peers the list is replaced and always notified. |
| LegacyClient.Tailscale.ProcessDnsDoc | tailscale.js:87-93 | The new state is `ProcessDns` of the old: `accept_dns` from `CorpDNS`, notified on change. |
| LegacyClient.Tailscale.ProcessRoutesDoc | tailscale.js:95-101 | The new state is `ProcessRoutes` of the old: `accept_routes` from `RouteAll`, notified on change. |
| LegacyClient.Tailscale.SetAcceptDnsTo | tailscale.js:107-115 | The `accept_dns` setter is `SetAcceptDns` on the state. |
| LegacyClient.Tailscale.SetAcceptRoutesTo | tailscale.js:121-129 | The `accept_routes` setter is `SetAcceptRoutes` on the state. |
| LegacyClient.Tailscale.SetRunningTo | tailscale.js:135-143 | The `running` setter is `SetRunning` on the state. |
| LegacyClient.Tailscale.RefreshStatus | tailscale.js:149-154 | `refresh_status` logs the command, then processes the status and the nodes. |
| LegacyClient.Tailscale.RefreshPrefs | tailscale.js:156-161 | `refresh_prefs` logs the command, then processes DNS and routes. |
| Presentation.DeviceIconSpec | tailscale@joaophi.github.com/extension.js:145 | An offline node gets the offline icon whatever its OS. An online `android`/`iOS` node gets the phone icon. Every other node gets the computer icon. |
| Presentation.SubtitleSpec | tailscale@joaophi.github.com/extension.js:146 | "disable exit node" exactly for the current exit node. "use as exit node" exactly for another exit-capable node. Otherwise empty. |
| Presentation.ActivateSpec | tailscale@joaophi.github.com/extension.js:147 | Only exit-capable nodes react to a click. Clicking the current exit node sets `exit_node` to `""`; clicking another sets it to the node's name. At most one command is issued. A second click with the same item changes nothing. |
| Presentation.LongClickSpec | tailscale@joaophi.github.com/extension.js:148-156 | A long press is declined exactly when the node has no `ips`. Otherwise it is handled and copies `ips[0]` when there is one. |
| Presentation.ReplaySpec | tailscale@joaophi.github.com/extension.js:55-66 | After any sequence of notifications the exit indicator is visible exactly when the last `running` value was true and the last `exit_node` value was non-empty. It starts hidden. |
| Presentation.ExitIndicator.constructor | tailscale@joaophi.github.com/extension.js:53-56 | The indicator starts hidden with both flags false. |
| Presentation.ExitIndicator.SetVisible | tailscale@joaophi.github.com/extension.js:57 | Visibility becomes `up && exit_node`, and the two flags are kept. |
| Presentation.ExitIndicator.OnExitNodeNotify | tailscale@joaophi.github.com/extension.js:59-62 | The `notify::exit-node` handler updates only its own flag, then the visibility. |
| Presentation.ExitIndicator.OnRunningNotify | tailscale@joaophi.github.com/extension.js:63-66 | The `notify::running` handler updates only its own flag, then the visibility. |
| Presentation.ItemsFor | tailscale@joaophi.github.com/extension.js:144-159 | One device item per node, in list order, each built from its node. |
| Presentation.AtMostOneDisableItem | tailscale@joaophi.github.com/extension.js:146 | For nodes derived from a status with distinct peer IDs, at most one item offers "disable exit node". |
| Presentation.DeviceSection.constructor | tailscale@joaophi.github.com/extension.js:141 | The section starts empty. |
| Presentation.DeviceSection.OnNodesNotify | tailscale@joaophi.github.com/extension.js:142-160 | On every `nodes` notification the section is cleared and then holds exactly one item per node, in order. |
| Timeout.InitialValid | tailscale@joaophi.github.com/timeout.js:3 | `SOURCES` starts empty, and the registry invariant holds: recorded handles are exactly the live sources, each once. |
| Timeout.AddSpec | tailscale@joaophi.github.com/timeout.js:5-17 | `addSource` keeps the invariant. It appends exactly one fresh handle, which it returns, and registers its timer. Earlier handles and timers are untouched. |
| Timeout.ClearSpec | tailscale@joaophi.github.com/timeout.js:19-25 | `clearSource` keeps the invariant. An unknown handle leaves `SOURCES` unchanged. A recorded one is removed exactly once and its timer cancelled. The other handles keep their order and timers. |
| Timeout.ClearValid | tailscale@joaophi.github.com/timeout.js:19-25 | Clearing keeps the registry invariant and leaves the handle unrecorded. |
| Timeout.ClearAllSpec | tailscale@joaophi.github.com/timeout.js:27-31 | `clearSources` ends with `SOURCES` empty and no source left live. |
| Timeout.FireSpec | tailscale@joaophi.github.com/timeout.js:6-14 | When a timer fires, a one-shot timer removes its own handle and answers `SOURCE_REMOVE`. An interval keeps everything and answers `SOURCE_CONTINUE`. |
| Timeout.TimeoutFiresOnce | tailscale@joaophi.github.com/timeout.js:33 | A `setTimeout` that fires leaves `SOURCES` and the live sources as they were before it was added. |
| Timeout.Sources.constructor | tailscale@joaophi.github.com/timeout.js:3 | The module state starts as the initial registry. |
| Timeout.Sources.AddSource | tailscale@joaophi.github.com/timeout.js:5-17 | The new state is `Add` of the old, and the returned handle is the fresh one. |
| Timeout.Sources.ClearSource | tailscale@joaophi.github.com/timeout.js:19-25 | The new state is `Clear` of the old. |
| Timeout.Sources.ClearSources | tailscale@joaophi.github.com/timeout.js:27-31 | The drain loop reaches `ClearAll` of the old state and leaves `SOURCES` empty. |
| Timeout.Sources.SetTimeout | tailscale@joaophi.github.com/timeout.js:33 | `setTimeout` is `addSource` with removal. |
| Timeout.Sources.SetInterval | tailscale@joaophi.github.com/timeout.js:34 | `setInterval` is `addSource` without removal. |
| Timeout.Sources.ClearTimeout | tailscale@joaophi.github.com/timeout.js:36 | `clearTimeout` is `clearSource`. |
| Timeout.Sources.ClearInterval | tailscale@joaophi.github.com/timeout.js:37 | `clearInterval` is `clearSource`. |
| Timeout.Sources.Dispatch | tailscale@joaophi.github.com/timeout.js:6-14 | The GLib callback's effect and answer are `Fire`. |
| MullvadCatalog.Utf16 | tailscale@joaophi.github.com/mullvad.js:23 | `split('')` yields UTF-16 code units, each below 0x10000, at least one per character. |
| MullvadCatalog.Utf16Bmp | tailscale@joaophi.github.com/mullvad.js:23-24 | For characters below U+10000 there is one code unit per character, equal to the character. |
| MullvadCatalog.CountryFlagSpec | tailscale@joaophi.github.com/mullvad.js:16-26 | An empty code gives `""`. Otherwise each code unit becomes the code point `unit + 127397`, one per unit. For a code of BMP characters that is one per character. |
| MullvadCatalog.CountryFlagExamples | tailscale@joaophi.github.com/mullvad.js:16-26 | "SE" gives U+1F1F8 U+1F1EA, and "A" gives U+1F1E6. |
| MullvadCatalog.FilterMullvadNodes | tailscale@joaophi.github.com/mullvad.js:992-1001 | A non-array gives `[]`. Otherwise the result holds exactly the input nodes that are Mullvad and online, each as often as in the input, in input order. |
| MullvadCatalog.PriorityLeIsTotalPreorder | tailscale@joaophi.github.com/mullvad.js:487-491 | The priority comparator is total and transitive. |
| MullvadCatalog.MembersOfSnoc | tailscale@joaophi.github.com/mullvad.js:457 | One more node joins exactly the member list of its own key. |
| MullvadCatalog.GroupKeysSpec | tailscale@joaophi.github.com/mullvad.js:440-459 | The grouping's keys are distinct, listed exactly once, and are exactly the `"city country"` keys of the input nodes (`"Unknown"` for a missing part). |
| MullvadCatalog.GroupEntrySpec | tailscale@joaophi.github.com/mullvad.js:440-459 | A location holds exactly the nodes with its key, in input order, and is non-empty. City, country and country code come from its first node. It has no best node or count yet. |
| MullvadCatalog.EachNodeInOneLocation | tailscale@joaophi.github.com/mullvad.js:440-459 | Every input node is in the location of its own key and in no other. |
| MullvadCatalog.BestOnlineNode | tailscale@joaophi.github.com/mullvad.js:486-492 | The head of the priority order is an online member of least effective priority (absent or 0 counts as `MAX_SAFE_INTEGER`). Every online member before it has a strictly larger one. |
| MullvadCatalog.WithBestSpec | tailscale@joaophi.github.com/mullvad.js:465-477 | `nodeCount` is the number of online members. With one online, `bestNode` is the first online member of least effective priority. Without, it is `nodes[0]`. |
| MullvadCatalog.RemoveInvalidSpec | tailscale@joaophi.github.com/mullvad.js:498-504 | Locations are only deleted. Exactly the valid ones remain, unchanged. Each remaining one has a best node and `nodeCount >= 1`. The keys keep their order. |
| MullvadCatalog.WithBestValid | tailscale@joaophi.github.com/mullvad.js:500 | A location survives removal exactly when it has an online member. |
| MullvadCatalog.OnlineMemberExists | tailscale@joaophi.github.com/mullvad.js:467 | A location has an online member exactly when some online input node has its key. |
| MullvadCatalog.ProcessNodeDataKey | tailscale@joaophi.github.com/mullvad.js:429-434 | A key survives processing exactly when some online input node has it. |
| MullvadCatalog.ProcessNodeDataValid | tailscale@joaophi.github.com/mullvad.js:429-434 | Processing yields a well-formed catalog in which every location is valid. |
| MullvadCatalog.ProcessNodeDataKeys | tailscale@joaophi.github.com/mullvad.js:429-434 | The surviving locations are exactly the keys of the online nodes. |
| MullvadCatalog.ProcessNodeDataEntry | tailscale@joaophi.github.com/mullvad.js:429-434 | Every surviving location holds all nodes with its key, counts at least one online node, and has an online best node among them. |
| MullvadCatalog.Values | tailscale@joaophi.github.com/mullvad.js:698 | `Object.values` lists the entries in key insertion order, one per key. |
| MullvadCatalog.FilterLocationsSpec | tailscale@joaophi.github.com/mullvad.js:713-724 | The empty query keeps every location. Otherwise a location is kept exactly when its lowercased city or country contains the lowercased query at some position. The kept ones stay in order. |
| MullvadCatalog.LocationLeIsTotalPreorder | tailscale@joaophi.github.com/mullvad.js:733-738 | The country-then-city comparator is total and transitive. |
| MullvadCatalog.SortLocationsSpec | tailscale@joaophi.github.com/mullvad.js:732-739 | The sorted copy is a permutation of its input, ordered by country and, within one country, by city. |
| MullvadCatalog.ValuesMembers | tailscale@joaophi.github.com/mullvad.js:698 | `Object.values` lists exactly the stored locations. |
| MullvadCatalog.SortLocationsMembers | tailscale@joaophi.github.com/mullvad.js:733 | Sorting neither adds nor drops a location. |
| MullvadCatalog.FilteredAndSortedSpec | tailscale@joaophi.github.com/mullvad.js:697-705 | The shown list holds exactly the stored locations the query matches (all of them for `""`), ordered by country, then city. |
| MullvadCatalog.FilteredMembers | tailscale@joaophi.github.com/mullvad.js:698-701 | Before sorting, the filtered values are exactly the stored locations the query matches (all of them for `""`). |
| MullvadCatalog.OnlineByPrioritySpec | tailscale@joaophi.github.com/mullvad.js:872-878 | An expanded location's node list is a permutation of its online members, in ascending effective priority. |
| MullvadDialog.AssignSpec | tailscale@joaophi.github.com/mullvad.js:126-131 | After a set the property holds the value. It notifies once when the value changed and not at all otherwise. Setting twice is setting once. |
| MullvadDialog.NodeItem.constructor | tailscale@joaophi.github.com/mullvad.js:58-74 | A node item keeps its name, ID and priority, and starts selected as given, with no notification. |
| MullvadDialog.NodeItem.SetSelected | tailscale@joaophi.github.com/mullvad.js:126-131 | The `selected` setter is `Assign`. |
| MullvadDialog.LocationItem.constructor | tailscale@joaophi.github.com/mullvad.js:197-215 | A location item shows its location's city, country, count, best node, nodes and code. It starts unselected and collapsed. |
| MullvadDialog.LocationItem.SetSelected | tailscale@joaophi.github.com/mullvad.js:317-322 | The `selected` setter is `Assign` and keeps `expanded`. |
| MullvadDialog.LocationItem.SetExpanded | tailscale@joaophi.github.com/mullvad.js:336-341 | The `expanded` setter is `Assign` and keeps `selected`. |
| MullvadDialog.RunEnd | tailscale@joaophi.github.com/mullvad.js:842-850 | The collecting loop stops at the first child after the location that is not a node item, or at the end. |
| MullvadDialog.RunEndUnique | tailscale@joaophi.github.com/mullvad.js:842-850 | That stopping point is unique. |
| MullvadDialog.CollapseShape | tailscale@joaophi.github.com/mullvad.js:832-858 | Collapsing keeps everything up to the location and everything from the end of its run. No node item follows the location afterwards. |
| MullvadDialog.CollapseSpec | tailscale@joaophi.github.com/mullvad.js:832-858 | Collapsing an unlisted location changes nothing. Collapsing adds nothing and removes only node items. |
| MullvadDialog.CollapseKeepsLocation | tailscale@joaophi.github.com/mullvad.js:834-835 | A listed location stays listed when collapsed. |
| MullvadDialog.CollapseKeepsIndex | tailscale@joaophi.github.com/mullvad.js:868 | The location keeps its index when collapsed, so the creation step finds it where it was. |
| MullvadDialog.InsertAfterKeepsIndex | tailscale@joaophi.github.com/mullvad.js:898 | Inserting after the location keeps the location's index. |
| MullvadDialog.CollapseIdempotent | tailscale@joaophi.github.com/mullvad.js:832-858 | Collapsing twice is collapsing once. |
| MullvadDialog.CollapseInserted | tailscale@joaophi.github.com/mullvad.js:832-858 | Node items inserted right after a collapsed location are exactly what collapsing removes. |
| MullvadDialog.CollapseUndoesExpand | tailscale@joaophi.github.com/mullvad.js:816-858 | Collapsing after an expansion removes exactly the inserted node items. |
| MullvadDialog.ExpandTwice | tailscale@joaophi.github.com/mullvad.js:816-824 | Expanding an expanded location replaces its node items instead of duplicating them. |
| MullvadDialog.ExpandWithSpec | tailscale@joaophi.github.com/mullvad.js:866-900 | After an expansion, everything up to the location is as before. Then come exactly the new node items. Then comes what followed the old run. |
| MullvadDialog.CollapseNoDuplicates | tailscale@joaophi.github.com/mullvad.js:853-857 | Collapsing keeps the children distinct. |
| MullvadDialog.InsertAfterNoDuplicates | tailscale@joaophi.github.com/mullvad.js:898 | Inserting distinct new node items keeps the children distinct. |
| MullvadDialog.CollectNodeItems | tailscale@joaophi.github.com/mullvad.js:841-850 | The collecting loop gathers exactly the run of node items that starts after the location. |
| MullvadDialog.LastCurrent | tailscale@joaophi.github.com/mullvad.js:786-789 | The last location whose best node is the current exit node, or -1 when there is none. |
| MullvadDialog.BestSoFarStep | tailscale@joaophi.github.com/mullvad.js:466-476 | One `forEach` visit replaces one untouched location by its counted, best-node version. |
| MullvadDialog.BestSoFarDone | tailscale@joaophi.github.com/mullvad.js:466-476 | Visiting every key is `_findBestNodesForLocations` on the whole catalog. |
| MullvadDialog.PrunedSoFarStep | tailscale@joaophi.github.com/mullvad.js:499-503 | One visit keeps a valid location and deletes an invalid one from both the keys and the entries. |
| MullvadDialog.PrunedSoFarDone | tailscale@joaophi.github.com/mullvad.js:499-503 | Visiting every key is `_removeInvalidLocations` on the whole catalog. |
| MullvadDialog.SelectedAfterSnoc | tailscale@joaophi.github.com/mullvad.js:786-789 | One more created item becomes the selected item exactly when its location is current. |
| MullvadDialog.ShownHaveBestNodes | tailscale@joaophi.github.com/mullvad.js:786 | Every location shown from a processed catalog has a best node, so `location.bestNode.id` is defined. |
| MullvadDialog.CreatedLists | tailscale@joaophi.github.com/mullvad.js:670-681 | Location items created into an emptied list show the locations. |
| MullvadDialog.NoResultsLists | tailscale@joaophi.github.com/mullvad.js:675-678 | The no-results box alone shows an empty result. |
| MullvadDialog.SetChildSelected | tailscale@joaophi.github.com/mullvad.js:911 | `selected = value` on a child is `Assign` on that item's property. |
| MullvadDialog.ExitNodeDialog.constructor | tailscale@joaophi.github.com/mullvad.js:384-412 | The dialog stores its arguments, processes the catalog and lists every location. The query is empty and the catalog is valid. The selected item is the item of the last location whose best node is the current exit node, or none. |
| MullvadDialog.ExitNodeDialog.ProcessNodeData | tailscale@joaophi.github.com/mullvad.js:429-434 | The catalog becomes `ProcessNodeData` of the nodes: well formed, with every location valid. The list is untouched. |
| MullvadDialog.ExitNodeDialog.GroupNodesByLocation | tailscale@joaophi.github.com/mullvad.js:440-459 | The loop builds `GroupByLocation` of the nodes. |
| MullvadDialog.ExitNodeDialog.FindBestNode | tailscale@joaophi.github.com/mullvad.js:486-492 | The result is the head of the stable priority sort: a candidate of least effective priority. |
| MullvadDialog.ExitNodeDialog.FindBestNodesForLocations | tailscale@joaophi.github.com/mullvad.js:465-477 | The loop leaves the catalog as `WithBestAll` of what it was. |
| MullvadDialog.ExitNodeDialog.RemoveInvalidLocations | tailscale@joaophi.github.com/mullvad.js:498-504 | The deleting loop leaves the catalog as `RemoveInvalid` of what it was. |
| MullvadDialog.ExitNodeDialog.ClearList | tailscale@joaophi.github.com/mullvad.js:687-690 | The list and `_locationItems` are emptied, and the selection is kept. |
| MullvadDialog.ExitNodeDialog.ShowNoResultsMessage | tailscale@joaophi.github.com/mullvad.js:745-767 | The no-results box is appended to the list. |
| MullvadDialog.ExitNodeDialog.PopulateLocationsList | tailscale@joaophi.github.com/mullvad.js:670-681 | The list then shows the filtered, sorted locations, one collapsed item each and distinct, or only the no-results box. The last current location's item becomes the selected item. The catalog and query are kept. |
| MullvadDialog.ExitNodeDialog.ShowLocations | tailscale@joaophi.github.com/mullvad.js:675-680 | From an emptied list: the no-results box for no locations, otherwise one item per location. |
| MullvadDialog.ExitNodeDialog.AddLocationItem | tailscale@joaophi.github.com/mullvad.js:775-806 | One new item is created for the location, selected and remembered exactly when it is current, and appended to the list and to `_locationItems`. |
| MullvadDialog.ExitNodeDialog.CreateLocationItems | tailscale@joaophi.github.com/mullvad.js:774-807 | One distinct item per location, in order, appended to the list. Each is selected exactly when current. The selection ends on the last current one. |
| MullvadDialog.ExitNodeDialog.OnSearchQueryChanged | tailscale@joaophi.github.com/mullvad.js:950-953 | The query becomes the entry's text, and the list shows the locations it matches. The selection moves to the item of the last matching location whose best node is the current exit node; with none, it stays as it was. |
| MullvadDialog.ExitNodeDialog.RemoveNodeItemsFor | tailscale@joaophi.github.com/mullvad.js:832-858 | The list becomes `Collapse` of the old list, and stays distinct. |
| MullvadDialog.ExitNodeDialog.RemoveChildren | tailscale@joaophi.github.com/mullvad.js:853-857 | Removing the collected children one by one splices exactly that run out of the list. |
| MullvadDialog.ExitNodeDialog.CreateNodeItemsFor | tailscale@joaophi.github.com/mullvad.js:866-900 | For a listed location: one new node item per online member, in ascending effective priority, inserted at `locationIndex + 1 + i`. Each is selected exactly when it is the exit node. For an unlisted location nothing happens. |
| MullvadDialog.ExitNodeDialog.ExpandLocation | tailscale@joaophi.github.com/mullvad.js:818-823 | Expanding removes the old run and inserts the new node items: the list becomes `ExpandWith` of the old one. |
| MullvadDialog.ExitNodeDialog.OnExpandToggled | tailscale@joaophi.github.com/mullvad.js:816-824 | Expanded: the list becomes `ExpandWith` with the new node items. Otherwise it becomes `Collapse`. The children stay distinct. |
| MullvadDialog.ExitNodeDialog.OnExpandButtonClicked | tailscale@joaophi.github.com/mullvad.js:283-288 | The button flips `expanded` (notified once) and runs the toggle handler with the new value. Expanding inserts one new node item per online member, in ascending effective priority, each selected exactly when it is the exit node. Collapsing creates nothing. |
| MullvadDialog.ExitNodeDialog.OnNodeItemClicked | tailscale@joaophi.github.com/mullvad.js:908-921 | The previously selected item is deselected, even when it is this node item, which then notifies twice. The node item becomes the selected item. `exit_node` is set to its ID through the setter. The dialog closes. |
| MullvadDialog.ExitNodeDialog.OnLocationItemClicked | tailscale@joaophi.github.com/mullvad.js:929-944 | A different previous item is deselected, and the location item becomes the selected item. With a best node, `exit_node` is set to its ID and the dialog closes; otherwise the client is untouched. |
| Seqs.IndexOf | tailscale@joaophi.github.com/timeout.js:21 | `indexOf` returns the first position of the element, or -1 exactly when it is absent. |
| Seqs.RemoveFirstMultiset | tailscale@joaophi.github.com/timeout.js:21-24 | `indexOf` plus `splice(index, 1)` removes exactly one copy of the element. |
| Seqs.RemoveFirstIsSubsequence | tailscale@joaophi.github.com/timeout.js:21-24 | The removal keeps the order of the remaining elements. |
| Seqs.RemoveFirstMembers | tailscale@joaophi.github.com/timeout.js:21-24 | Without duplicates, the removal drops exactly the removed element. |
| Seqs.FilterSpec | tailscale@joaophi.github.com/mullvad.js:997-1000 | `filter` keeps exactly the elements satisfying the predicate, each as often as in the input, in input order. |
| Seqs.FilterPermutationLength | tailscale@joaophi.github.com/tailscale.js:106 | Reordering does not change how many elements satisfy a predicate. |
| Sorting.SortByPermutation | tailscale@joaophi.github.com/mullvad.js:733 | Sorting yields a permutation of its input. |
| Sorting.SortBySorted | tailscale@joaophi.github.com/mullvad.js:733-738 | With a consistent comparator the result is ordered. |
| Sorting.SortByStable | tailscale@joaophi.github.com/mullvad.js:487-491 | The sort is stable: elements the comparator ties keep their input order. |
| Sorting.SortByHeadLeast | tailscale@joaophi.github.com/mullvad.js:491 | The first element of the sorted order is least among the input. |
| Sorting.SortByFirst | tailscale@joaophi.github.com/mullvad.js:491 | The head of the sorted order is the first least element of the input: everything before it in the input is strictly greater. |
| Strings.Compare | tailscale@joaophi.github.com/mullvad.js:735-737 | The stand-in for `localeCompare` answers 0 exactly for equal strings and is negative exactly when the first sorts earlier. |
| Strings.StrLeTotal | tailscale@joaophi.github.com/tailscale.js:109 | Any two names compare. |
| Strings.StrLeTransitive | tailscale@joaophi.github.com/tailscale.js:109 | Name order chains. |
| Strings.StrLeAntisymmetric | tailscale@joaophi.github.com/mullvad.js:734-735 | Two strings that sort no later than each other are equal. |
| Strings.Lower | tailscale@joaophi.github.com/mullvad.js:718 | `toLowerCase` keeps the length and maps each ASCII capital to its small letter. |
| Strings.LowerIsLower | tailscale@joaophi.github.com/mullvad.js:718-721 | A lowercased string has no capital letters, and lowercasing is idempotent. |
| Strings.IncludesAt | tailscale@joaophi.github.com/mullvad.js:720-721 | `includes` holds exactly when some position starts a copy of the query. |
| Strings.IncludesEmpty | tailscale@joaophi.github.com/mullvad.js:714-716 | The empty query occurs in every string. |
| Strings.FirstLabel | tailscale@joaophi.github.com/tailscale.js:99 | `split(".")[0]` is a dot-free prefix that ends at the first dot or at the end. |
| Strings.BoolText | tailscale@joaophi.github.com/tailscale.js:190 | A boolean in a template literal is `"true"` or `"false"`, matching its value. |

## Left out

**Widgets, GObject and the desktop**
- Widget construction and styling (St, Clutter, PopupMenu, ModalDialog), key handling, and the dialog and list sizes. The sizes are computed from monitor geometry with floating-point factors.
- GObject property bindings (`bind_property`): the panel icon bound to `running`, and the toggle's bidirectional `checked`. Notifications are a log, not a binding system.
- The preference switches of the menu (extension.js:169-192) only forward to the client setters, which are modelled.
- The clipboard, the on-screen display and gettext translation. The subtitles are the untranslated strings.
- The poll timer of `enable()`/`disable()` in extension.js, and the root `extension.js`, which only wires widgets.
- `createMullvadExitNodeButton`, which only creates a menu entry that opens the dialog.
- The dialog's header, search box, close button and Escape key. Closing is only a `closed` flag.
- `destroy_all_children`: destroyed items are not modelled, only their removal from the list.

**Subprocesses and documents**
- `exec_cmd`, `Gio.Subprocess` and `JSON.parse`: a document is an input, and a command is a logged argument vector. Asynchronous ordering is not modelled; each callback runs when the model's caller supplies the answer.
- Documents carry only the fields the code reads. JSON `null` and an absent field are both `None`, so the JSON-serialisation comparison of `nodes` becomes structural equality.

**Locale and numbers**
- `localeCompare` is lexicographic code-point order, and `toLowerCase` is ASCII-only. No locale collation or Unicode case mapping is modelled.
- `filterMullvadNodes` reads `mullvad` and `online` as booleans. Non-boolean values, which `=== true` would reject, are not modelled.

**Timers**
- The user function a timer runs is not modelled.
- `GLib.Source.remove` of an unknown handle, which GLib reports as a warning, only removes nothing from the live-source map.

**Stated differently from the source**
- TailscaleClient.Tailscale.SetExitNodeTo: the setter's success callback `refresh_prefs` is not run inside the method. The caller runs `RefreshPrefs` with the answer, because the answer is an input.
- MullvadCatalog.GroupEntrySpec: a new location's `nodeCount` is 0 where the source leaves it undefined. `_findBestNodesForLocations` sets it for every location before it is read.
- Sorting.SortByStable: `Array.prototype.sort` is modelled as a stable insertion sort. A stable sort's result is determined by the comparator, so any stable implementation gives the same order.
- MullvadDialog.ExitNodeDialog.CreateLocationItems: this contract does not say that the created items are new objects (`AddLocationItem` does, item by item). What holds for them is stated through `CreatedFor` and `Seqs.NoDuplicates`.
- MullvadDialog.ExitNodeDialog.RemoveChildren: the `get_parent() === this._listBox` guard is not modelled. Every collected child is a child of the list when it is removed, so the guard always holds.
- The `activate` signal and `_activatable` flag of items are not modelled. The click handlers are methods called directly.
- `_createNodeItemsForLocation` creates the exit node's item already selected but does not update `_selectedItem`. The model does the same, and does not claim that only one item is selected in that case.
- Helper members split out of single source functions: `ShowLocations` and `AddLocationItem` (from `_populateLocationsList`/`_createLocationItems`), `CollectNodeItems` and `RemoveChildren` (the two loops of `_removeNodeItemsForLocation`), and `ExpandLocation` (the expanding branch of `_onLocationItemExpandToggled`).
