# routerd: a verified model

`routerd` turns one configuration into the state of a Linux router. This project models the parts of it
that decide something hard, and proves what they decide:

- **Reconciler** (`kernel`, `address_text`, `planner`, `link_run`, `link_convergence`, `link_limits`,
  `link_phase`, `address_convergence`, `route_convergence`, `service_convergence`, `convergence`, `apply_runs`,
  `reached`, `corner_case`, `engine`). The kernel is a class with mutable links, routes, ruleset, files and tunnels; one command is one partial function on
  its state. Planners are the program's loops over snapshots, tied to functions of what they saw. Plans are computed
  from a snapshot and executed on a state that changes under them: deletions free members, kill VLANs and
  drop routes. Convergence is stated as an if-and-only-if at every level.
- **Desired state and configuration** (`models`, `desired`, `built_state`, `built_exactly`,
  `built_convergence`, `defaults`, `prefixes`, `validate`, `valid_networks`, `fault_meaning`, `text`). What validation accepts, what defaults add, what is built from it, and the
  32-bit prefix arithmetic they share.
- **Firewall compiler** (`firewall`, `firewall_policy`, `firewall_limits`). The forward chain as a rule list
  with first-match evaluation, against a policy stated without sets, lines or order.
- **Commits** (`store`, `commits`, `commit_runs`, `requests`, `server`, `router_commits`). The revision store as a bounded
  window on an append-only log; confirmed commits, rollbacks, timeouts and transactions as steps of a state
  machine, the server's handlers tied to those steps, and the store as the program seeds it.
- **DHCPv4 client** (`dhcp_packet`, `dhcp_roundtrip`, `dhcp_wire`, `dhcp_lease`, `dhcp_client`, `lease_grant`,
  `lease_text`). The codec, lease maintenance under an ideal clock with the network as an input, and the address a lease asks for.

`wrappers` and `sequences` hold general helpers.

Check everything with `dafny verify dfyconfig.toml`.

## How it is read

- Commands are a datatype instead of argument vectors, and a plan is the list of its commands: the grouping
  into operations and their descriptions are not kept. A command whose failure is tolerated is marked so.
- A loaded ruleset is its marker and its text; the marker stands for the hash of the text.
- Go's map iteration is arbitrary: methods that range over a map return the order taken as a ghost result,
  and the theorems hold for every order.
- The configuration is compared by its stored JSON form, and configurations are not shared between a window
  and its callers. Stopped timers do not fire.
- Received DHCP packets parse; a receive error stands for everything else. Times are milliseconds of one
  clock, and the moment an ACK is read is the moment its lease starts. `up` says when a socket can be opened
  and written. What is delivered while no socket is open is lost.
- The kernel keeps an address as the text it was given, if that has a slash, and shows what comes before the
  first slash and the 64-bit number after it, 0 if there is none; planners compare what is shown.
- A DHCP client carries ghost records of every packet it read, with its transaction number, and of what the
  registry showed whenever time passed.
- Upper and lower case are those of ASCII letters. A log rule's rate limit is an oracle per rule.
- IPv4 texts are held as the value they parse to; Go accepts one spelling of each, and of a prefix length.

## What does not hold

Where a promise turns out false of the code, the model keeps the code and says exactly when it fails.

- **Link convergence** fails for a deleted or replaced link with VLAN children that are desired or come later
  in the plan, and for a replaced link with a member that is kept (`LinkLimits.LinkPassConverges`).
- **A VLAN's place** is not compared: one that an apply keeps ends on the desired parent with the
  desired number exactly if it was so before, and the apply verifies either way
  (`ApplyRuns.VlanPlacedExactlyWhen`).
- **Verified does not mean idempotent**: a second apply succeeds exactly if the physical interfaces are still
  there (`ApplyRuns.SecondApply`). A bridge member named like a VLAN of a bridge that goes is such a case: the
  configuration is valid, the apply verifies, and the next one fails its interface check
  (`CornerCase.VerifiedYetMissing`).
- **Routes**: a stale managed route without a device deletes by a pattern that can hit a desired route, and a
  stale route the kernel spells `default` is never found (`RouteConvergence.RoutePassConverges`).
- **Addresses** settle exactly if each wanted one is an address, a slash and a plain decimal length, and no
  address already there shows in another spelling as one to remove, since it is removed under that spelling
  (`AddressConvergence.AddressesExact`, `AddressConvergence.DevConverges`). Validation sees to it except for
  IPv6 subnets, which it never looks at, and leases (`BuiltConvergence.BuiltStateConverges`): no apply of
  `fd00::1` or `fd00::1/x` ever succeeds (`BuiltConvergence.ValidYetNeverApplied`), and a leased address is
  plain exactly if its mask is a prefix length or its hexadecimal digits read as a number
  (`LeaseText.LeasePlain`).
- **Codec**: an all-zero address reads back as no address, the hardware address overlaps the server name from
  byte 12 on, and fewer than three option bytes are refused (`DhcpRoundTrip.RoundTrip`). The magic cookie ends
  in 69 where section 3 of RFC 2131 has 99, and `sname` and `file` sit at 40 and 104 where section 2 has 44
  and 108; the model keeps the code's values.
- **Default timers**: seven eighths of a lease is computed in 32 bits, so T1 can exceed T2
  (`DhcpLease.DefaultTimersOrdered`).
- **Lease holding**: a server that sends T2 far beyond the lease makes the client hold its address until T2
  (`DhcpLease.HoldingBounded`).
- **Default pools** are unusable for prefixes longer than /30 and where `.220` leaves the address space
  (`Defaults.PoolUsable`).
- **Firewall scripts**: zones that differ only in case, or one called WAN, declare a set twice; a grant into
  the LAN without any LAN zone names a missing set (`FirewallLimits.LoadsExactlyWhen`).
- **Zones are shared**: grants belong to zones, so a network joining a zone in use opens them to its other
  interfaces too: exactly to new packets from the zone, not from the WAN, that no rule decides and no grant
  accepted, where the network brings internet, trust or access to the LAN
  (`FirewallLimits.NewNetworkChangesExactly`).
- **Members** of a bridge are not validated; a blank one breaks the desired links
  (`BuiltState.LinksWellFormed`).
- **Live equals effective**: a step parts the two exactly when it commits to files that cannot be written
  (`CommitRuns.ActSynced`); over runs without such a step they are equal exactly while the engine's last
  attempt worked or was recovered (`CommitRuns.LiveIsEffective`).
- **An open window commits** exactly if its own transaction applies immediately, the revision is written and
  the active file is not: the window stays open over a log that grew (`CommitRuns.OpenCommits`, over runs
  `CommitRuns.WindowHoldsStill`).
- **An unedited transaction** commits nothing new exactly when what was effective, completed by defaults, is
  the head already, or another transaction's window stands in the way (`CommitRuns.UntouchedTransaction`).
  What a store is seeded with is not complete, so the first one commits a second revision
  (`RouterCommits.FirstTransactionCommits`), and undoing a transaction gives back exactly what was effective
  only if that was complete (`CommitRuns.TransactionUndone`).
- **Rolling a transaction back** overwrites what others committed since its apply, accepted or refused,
  exactly when no window it may not end is open, engine and store work, and the head is not the completed
  configuration from before the apply (`CommitRuns.RollbackOverwritesExactlyWhen`, over runs
  `CommitRuns.TransactionRollback`). On a fresh store it takes back a renaming of the router
  (`RouterCommits.RenameIsLost`).
- **A rollback with no window open** rolls back and then crashes its handler, exactly if the engine works
  (`CommitRuns.RollbackWithoutWindow`).

## Model

| member | source | states |
|---|---|---|
| Kernel.Fake.Run | router/internal/platform/fake.go:160-378 | one command changes the kernel as the step function says; a rejected one, an address without a slash among them, changes nothing |
| Kernel.Fake.DeleteLink | router/internal/platform/fake.go:240-251 | deleting a link frees its members, kills its VLANs and drops its routes and tunnel configuration |
| Kernel.StepCommutes | router/internal/platform/fake.go:160-378 | working on the list of links and on links by name agree, and names stay unique |
| Kernel.DeletionLeaves | router/internal/platform/fake.go:233-257 | exactly which links a deletion leaves, and that it only frees members |
| Kernel.AdditionAppends | router/internal/platform/fake.go:175-200 | which links can be added, and how an added one looks |
| Text.AtoiDecimal | router/internal/platform/fake.go:336-337 | a 64-bit number read from its own numeral is that number |
| AddressText.PlainReadsBack | router/internal/state/state.go:217-237 | exactly an address, a slash and a plain decimal length reads back as it was written |
| AddressText.PlainLength | router/internal/platform/fake.go:336-343 | what follows an address and a slash is plain exactly if it is the numeral of the number it reads as |
| Planner.ObserveAddrs | router/internal/state/state.go:217-237 | each link is observed with its addresses as they read back |
| Planner.ApplyOps | router/internal/reconcile/engine.go:68-84 | commands run in order until one fails that is not tolerated |
| Planner.CheckInterfaces | router/internal/reconcile/engine.go:130-138 | true exactly if every physical interface of the desired state exists |
| Planner.PlanLinks | router/internal/reconcile/engine.go:140-197 | the plan is a function of the snapshot taken before any of it ran, though the loop writes masters into it |
| Planner.PlanAddrs | router/internal/reconcile/engine.go:213-240 | the plan for the devices in some order that visits each once |
| Planner.PlanRoutes | router/internal/reconcile/engine.go:260-295 | missing desired routes are added and stale managed ones deleted |
| Planner.DesiredHasRoute | router/internal/reconcile/engine.go:298-305 | true exactly if some desired route has the destination and device, and the gateway unless the route has none |
| Planner.PlanServices | router/internal/reconcile/engine.go:341-384 | files, unit and tunnels that differ are rewritten |
| LinkRun.Doomed | router/internal/platform/fake.go:240-251 | a VLAN whose parent a run deletes is gone after it unless the run adds it again |
| LinkRun.Freed | router/internal/platform/fake.go:240-251 | a member whose bridge a run deletes has no master after it unless the run sets one |
| LinkConvergence.SettledMeans | router/internal/reconcile/engine.go:140-197 | re-planning gives nothing exactly when every desired link is as desired and no managed link is left over |
| LinkConvergence.Sufficient | router/internal/reconcile/engine.go:140-197 | from every convergible snapshot the stale plan runs without failing and settles |
| LinkLimits.LinkPassConverges | router/internal/reconcile/engine.go:140-197 | one link pass succeeds and leaves nothing to plan exactly from the convergible snapshots |
| LinkLimits.NeedsDeletionSafe | router/internal/reconcile/engine.go:143-153 | convergence needs that no deleted link takes a desired link or a later deletion with it |
| LinkLimits.NeedsRecreationSafe | router/internal/reconcile/engine.go:155-178 | convergence needs that no replaced link takes a desired link with it or frees one that is not enslaved again |
| LinkLimits.LaterDeletionFails | router/internal/reconcile/engine.go:143-153 | deleting a parent before its own obsolete VLAN makes the pass fail |
| LinkLimits.MemberIsFreed | router/internal/reconcile/engine.go:163-178 | a kept member of a replaced bridge ends without a master |
| LinkPhase.RoutesAfterLinks | router/internal/platform/fake.go:240-251 | the link pass keeps exactly the routes whose device it does not delete |
| LinkPhase.OthersAfterLinks | router/internal/platform/fake.go:240-251 | of the links nobody asked for the link pass leaves exactly those of which neither it nor the parent is deleted, with their addresses |
| LinkPhase.StartsAs | router/internal/reconcile/engine.go:140-197 | which devices the address pass finds, and with which addresses, from the state before the link pass |
| AddressConvergence.AddressesExact | router/internal/reconcile/engine.go:213-240 | in any device order the pass succeeds exactly if each wanted address shows or has a slash, and changes exactly the stated addresses; it also settles exactly if wanted addresses are plain and old ones tidy, and what shows is then what was wanted, with link-local and unmanaged old addresses kept |
| AddressConvergence.DevConverges | router/internal/reconcile/engine.go:213-240 | a device whose plan ran has nothing left to plan exactly if its wanted addresses are plain and no old one shows as surplus in another spelling |
| AddressConvergence.RemovesFirst | router/internal/reconcile/engine.go:219-237 | of one device, addresses are removed before any is added |
| AddressConvergence.SettledInAnyOrder | router/internal/reconcile/engine.go:213-240 | whether anything is planned does not depend on the order of devices |
| RouteConvergence.RoutePassConverges | router/internal/reconcile/engine.go:260-295 | a route pass never fails and settles exactly when no stale route is misspelled or hits a desired one |
| RouteConvergence.OnlyDeviceless | router/internal/reconcile/engine.go:286-293 | only a stale route without a device can hit a desired route |
| ServiceConvergence.FirewallRun | router/internal/reconcile/engine.go:321-339 | the firewall pass loads the wanted ruleset unless its marker is live, and settles |
| ServiceConvergence.ServicesRun | router/internal/reconcile/engine.go:341-384 | the service pass succeeds, writes the wanted files, syncs the tunnels and settles |
| Convergence.FullConvergence | router/internal/reconcile/engine.go:545-590 | one apply succeeds with every interface present exactly from the convergible states, plain addresses included, in every order of devices |
| Convergence.ConvergesWhen | router/internal/reconcile/engine.go:492-590 | from a convergible state, plain addresses included, link, address, route, firewall and service phases succeed and never undo each other |
| Reached.DeletesExactly | router/internal/reconcile/engine.go:143-169 | the plan deletes exactly the bridges, tunnels and VLANs no desired link has the name of, and desired links of another kind, physical ones aside |
| Reached.LinksReached | router/internal/reconcile/engine.go:140-197 | after a successful apply each desired link has the desired kind, master, state and MTU, and every bridge, tunnel and VLAN is a desired one |
| Reached.AddressesReached | router/internal/reconcile/engine.go:213-240 | a desired device shows exactly what is wanted and, unless it was replaced, all it showed before or the link-local of that |
| ApplyRuns.VlanPlacedExactlyWhen | router/internal/reconcile/engine.go:155-197 | after a successful apply that leaves the interfaces present, a desired VLAN has its parent and number exactly if it was created or replaced, or had them before |
| Reached.ServicesReached | router/internal/reconcile/engine.go:321-384 | after a successful apply the wanted ruleset, unit and DHCP file are in place, other files are untouched, and each tunnel has its text but for white space around it |
| Reached.ServiceAsked | router/internal/reconcile/engine.go:341-370 | the DHCP service is reloaded exactly if its file changed, and enabled exactly if that or its unit did |
| Reached.ReloadedAfterWriting | router/internal/reconcile/engine.go:351-361 | it is reloaded after its file is written |
| Reached.TrimPads | router/internal/reconcile/engine.go:373 | trimming takes white space from both ends and nothing else |
| Reached.RoutesReached | router/internal/reconcile/engine.go:260-305 | the routes after a successful apply: those left and a new one with its metric for each desired one not seen, less what an unwanted managed route takes with it |
| ApplyRuns.SecondApply | router/internal/reconcile/engine.go:545-590 | a second apply on an untouched kernel plans nothing, changes nothing, and succeeds exactly if the interfaces exist |
| ApplyRuns.DroppedRoute | router/internal/reconcile/engine.go:286-293 | exactly which managed routes outlive an apply that no longer wants them |
| ApplyRuns.RouteProvenance | router/internal/reconcile/engine.go:545-567 | over a run, routes are foreign or desired, desired ones are present, and a foreign one is lost only with its device or to a stale deletion |
| CornerCase.CornerBuilt | router/internal/reconcile/desired.go:66-197 | the desired state the program builds from the seed configuration with a bridge member `old.5` |
| CornerCase.VerifiedYetMissing | router/internal/reconcile/engine.go:130-138 | a valid configuration and a kernel on which its apply verifies although it killed a desired physical interface |
| Engine.Engine.Apply | router/internal/reconcile/engine.go:545-567 | the kernel ends as the phases say for some order of devices, and provenance is replaced only on success |
| Engine.Engine.Verify | router/internal/reconcile/engine.go:571-590 | succeeds exactly if every planner has nothing to do |
| Engine.MemoryProvenance.Save | router/internal/reconcile/provenance.go:28 | replaces the stored routes |
| DesiredState.BuildWith | router/internal/reconcile/desired.go:66-197 | builds exactly from valid configurations, whatever order leases are taken in |
| DesiredState.LinkList.Add | router/internal/reconcile/desired.go:74-82 | a name mentioned again is ignored |
| BuiltState.FirstMentionWins | router/internal/reconcile/desired.go:74-82 | of each name the links hold exactly the first mention |
| BuiltState.LinksWellFormed | router/internal/reconcile/desired.go:74-125 | links of a valid configuration are unique, complete and after their masters exactly when no member is blank |
| BuiltState.GroupIs | router/internal/reconcile/desired.go:87-117 | the addresses of a device are those mentioned for it, in order |
| BuiltState.LeaseOrderFree | router/internal/reconcile/desired.go:162-171 | the order of the lease map never shows in the addresses |
| BuiltState.NoRouteSpelledDefault | router/internal/reconcile/desired.go:91-155 | no built route uses the short spelling of the default destination |
| BuiltExactly.RoutesExactly | router/internal/reconcile/desired.go:84-155 | exactly which routes are built: static uplinks' defaults with gateway and metric, what peers may reach, configured and leased ones |
| BuiltExactly.LinksExactly | router/internal/reconcile/desired.go:74-135 | exactly which links are built, with kind, parent, number and master, and who gets a name asked for twice |
| BuiltExactly.AddressesExactly | router/internal/reconcile/desired.go:87-171 | exactly which addresses are wanted where |
| BuiltExactly.RestExactly | router/internal/reconcile/desired.go:84-171 | exactly whose other addresses go, and which tunnel configurations, ruleset and DHCP file there are |
| BuiltConvergence.BuiltStateConverges | router/internal/reconcile/engine.go:545-590 | an apply of what a valid configuration builds succeeds with every interface present exactly if IPv6 subnets and leased addresses are plain and the kernel is convergible |
| BuiltConvergence.PlainWhen | router/pkg/models/validate.go:91-143 | in a valid configuration every wanted address is plain once IPv6 subnets and leased addresses are |
| BuiltConvergence.NeverApplies | router/internal/reconcile/engine.go:213-240 | with an IPv6 subnet that is not plain on a bridge, VLAN or tunnel no apply succeeds, from any kernel |
| BuiltConvergence.ValidYetNeverApplied | router/internal/reconcile/desired.go:120-121 | the seed configuration with IPv6 subnet `fd00::1` or `fd00::1/x` is valid, and no apply of it ever succeeds |
| Firewall.Generate | router/internal/firewall/ruleset.go:31-162 | the sets and forward chain are the compiled ones for some order of zones and of trusted pairs |
| Firewall.WriteRule | router/internal/firewall/ruleset.go:225-255 | the conditions and verdict of a user rule |
| Firewall.PortList | router/internal/firewall/ruleset.go:257-273 | ports as ranges, all of them when none are given |
| FirewallPolicy.SetsAreZones | router/internal/firewall/ruleset.go:39-90 | membership in the set a zone name selects is having a network or tunnel of that zone on the interface |
| FirewallPolicy.RulesDecide | router/internal/firewall/ruleset.go:132-137 | evaluating the rule lines is finding the first enabled rule that matches, with its meter allowing if it logs |
| FirewallPolicy.GrantsAccept | router/internal/firewall/ruleset.go:138-160 | the grant lines accept exactly for internet, trusted-zone and access-to-LAN grants |
| FirewallPolicy.CompiledMeansPolicy | router/internal/firewall/ruleset.go:126-162 | first-match evaluation of every script the compiler may emit is the configured policy, log rules included |
| FirewallPolicy.RuleAnswers | router/internal/firewall/ruleset.go:225-252 | a new packet from inside gets what the action of the first rule that decides it says |
| FirewallPolicy.SameLetters | router/internal/firewall/ruleset.go:52 | zone names are the same up to capital letters |
| FirewallPolicy.ZonesExactly | router/internal/firewall/ruleset.go:39-72 | exactly which zones have a set |
| FirewallPolicy.TrustedExactly | router/internal/firewall/ruleset.go:40-64 | exactly which zones are trusted |
| FirewallPolicy.PolicyDecides | router/internal/firewall/ruleset.go:126-162 | the policy fixes one verdict for every packet |
| FirewallPolicy.OrderIndependent | router/internal/firewall/ruleset.go:146-154 | every order of map-ordered lines gives the same verdict on every packet |
| FirewallLimits.LoadsExactlyWhen | router/internal/firewall/ruleset.go:39-90 | exactly which configurations give a script whose sets are declared once and whose references resolve |
| FirewallLimits.AddedGrants | router/internal/firewall/ruleset.go:138-160 | the grants after adding a network, off its interface, are those before and the internet, trust and LAN access it opens for its zone |
| FirewallLimits.NewNetworkChangesExactly | router/internal/firewall/ruleset.go:31-162 | exactly which packets off its interface a new network decides differently, and that it only turns drops into accepts |
| FirewallLimits.NewNetworkInterferesNowhere | router/internal/firewall/ruleset.go:41-74 | a network in a zone of its own changes no verdict off its own interface |
| FirewallLimits.SharedZoneInterferes | router/internal/firewall/ruleset.go:138-145 | a network with internet access joining a zone in use opens it to every packet of the zone that no rule decided and no grant accepted |
| DhcpPacket.Marshal | router/internal/dhcp4/packet.go:142-180 | marshals with the options each once, listed codes first, in some order |
| DhcpPacket.OptionOrder | router/internal/dhcp4/packet.go:281-298 | every option once, the listed codes first and in their order |
| DhcpPacket.Unmarshal | router/internal/dhcp4/packet.go:182-222 | parses as the parsing function says |
| DhcpRoundTrip.ParseEncoded | router/internal/dhcp4/packet.go:165-222 | the option loop reads back what the encoder wrote |
| DhcpRoundTrip.RoundTrip | router/internal/dhcp4/packet.go:142-222 | a packet survives marshalling and parsing exactly if it is faithful and has three option bytes |
| DhcpRoundTrip.ParsedIsFaithful | router/internal/dhcp4/packet.go:182-222 | whatever the parser accepts is faithful, overlap included |
| DhcpRoundTrip.ReprintStable | router/internal/dhcp4/packet.go:142-222 | re-marshalling an accepted buffer succeeds and parses to the same packet exactly with three option bytes |
| DhcpWire.NumbersOnWire | router/internal/dhcp4/packet.go:149-156 | the numbers of the header at their offsets, highest byte first |
| DhcpWire.AddressesOnWire | router/internal/dhcp4/packet.go:157-160 | the four addresses at 12, 16, 20 and 24, zeros for none |
| DhcpWire.TextsOnWire | router/internal/dhcp4/packet.go:161-163 | hardware address, server name and file from 28, 40 and 104 on, the later over the earlier |
| DhcpWire.MarksOnWire | router/internal/dhcp4/packet.go:164-179 | the cookie at 236 and 255 at the end |
| DhcpWire.OptionOnWire | router/internal/dhcp4/packet.go:165-177 | every option but padding and end is after the cookie, under code and length |
| DhcpWire.ListedOrder | router/internal/dhcp4/packet.go:281-298 | the options that come first, the message type before all |
| DhcpWire.FieldsRead | router/internal/dhcp4/packet.go:182-203 | where the fields of an accepted buffer are read, and which buffers are refused before |
| DhcpWire.NamesRead | router/internal/dhcp4/packet.go:198-199 | server name and file end at the first zero byte |
| DhcpWire.OptionRead | router/internal/dhcp4/packet.go:204-221 | every option read is in the buffer, under its code and length |
| DhcpLease.DefaultT2WithinLease | router/internal/dhcp4/packet.go:246-251 | the default T2 is within the lease for every 32-bit lease |
| DhcpLease.DefaultTimersOrdered | router/internal/dhcp4/packet.go:242-251 | the default T1 is at most T2 exactly if seven leases fit 32 bits |
| DhcpLease.RoundTime | router/internal/dhcp4/client.go:128-170 | a round renews with a sane, later lease or gives up within three request timeouts of the expiry, or at T2 |
| DhcpLease.HoldingBounded | router/internal/dhcp4/client.go:128-214 | every network has the client give up within 12 s of the expiry exactly if renewal starts after it or T2 is within 12 s of it |
| DhcpLease.DefaultedLeaseBounded | router/internal/dhcp4/packet.go:246-251 | a lease whose server leaves T2 to the client is given up within 12 s of its expiry on every network |
| DhcpLease.BoundTime | router/internal/dhcp4/client.go:128-170 | the bound phase ends within that time of the last lease's expiry |
| DhcpLease.AwaitTime | router/internal/dhcp4/client.go:218-239 | waiting stays within the deadline, and an answer is an ACK of the transaction with an address that was delivered by then |
| DhcpLease.AwaitIs | router/internal/dhcp4/client.go:218-239 | the first receive error, ACK with an address or NAK of the transaction decides a wait; without one it lasts to the deadline |
| DhcpLease.RenewTime | router/internal/dhcp4/client.go:175-214 | renewing takes at most three request timeouts, and its ACK was delivered by then and is of the transaction |
| LeaseGrant.GrantedTimes | router/internal/dhcp4/packet.go:238-252 | expiry, T1 and T2 from options 51, 58 and 59, or their defaults |
| LeaseGrant.GrantedAddresses | router/internal/dhcp4/packet.go:225-238 | address, mask, gateway, name servers and server from the packet and options 1, 3, 6 and 54 |
| LeaseGrant.RenewsExactlyWhenAsking | router/internal/dhcp4/client.go:128-214 | a lone answer renews exactly within twelve seconds of T1 or of T2, before the expiry, and from that moment |
| LeaseGrant.Bargain | router/internal/dhcp4/client.go:80-124 | an offer within four seconds and an ACK within four seconds of it make a lease, later ones do not |
| LeaseGrant.NoOffer | router/internal/dhcp4/client.go:92-105 | only an offer of the transaction with an address is taken |
| LeaseText.LeasePlain | router/internal/dhcp4/manager.go:31 | a leased address is plain exactly if its mask is a prefix length or its hexadecimal digits read as a decimal number |
| LeaseText.GrantedPlain | router/internal/dhcp4/client.go:241-253 | the same for the lease of any granting ACK, and one without a mask is plain |
| LeaseText.ShowIsPrefix | router/internal/dhcp4/manager.go:31 | a lease whose mask is a prefix length is written as that prefix |
| LeaseText.OnesAre | router/internal/dhcp4/manager.go:31 | a mask is a prefix length exactly if so many first bits, and no others, are ones |
| LeaseText.OddMask | router/internal/dhcp4/manager.go:31 | a lease with mask 255.0.255.0 is not plain |
| DhcpClient.Client.AwaitAck | router/internal/dhcp4/client.go:218-239 | the receive loop answers as the waiting function says |
| DhcpClient.Client.Receive | router/internal/dhcp4/client.go:218-239 | a packet read in time is recorded with the transaction, and the registry agrees across the wait |
| DhcpClient.Client.Adopt | router/internal/dhcp4/client.go:198-204 | the ACK just read in the transaction becomes the lease here and in the registry |
| DhcpClient.Client.Renew | router/internal/dhcp4/client.go:175-214 | an ACK replaces the lease here and in the registry; failure leaves both |
| DhcpClient.Client.Hold | router/internal/dhcp4/client.go:128-170 | the bound loop ends when and with what the bound function says, within the time bound; the recorded moments leave out no time, and at each the registry holds the lease then current, given by a packet delivered and read in its transaction |
| DhcpClient.Client.Acquire | router/internal/dhcp4/client.go:80-124 | a new transaction number, and an ACK only if it was just read, is of that transaction and has an address |
| DhcpClient.Client.Turn | router/internal/dhcp4/client.go:31-76 | a turn acquires and holds a lease to its end, or doubles the pause up to its cap |
| DhcpClient.Client.Run | router/internal/dhcp4/client.go:31-76 | between turns nothing is held or registered and other entries are untouched; the recorded moments leave out no time since the client began, and at each the registry had an entry exactly while a lease was held, given by a packet delivered and read in that transaction |
| DhcpClient.HonestReceipt | router/internal/dhcp4/client.go:218-239 | reading the next packet keeps everything recorded true: it was delivered, and earlier entries stay given by what was read |
| DhcpClient.DiscoverTime | router/internal/dhcp4/client.go:80-124 | acquiring takes at most the two timeouts, and its ACK was delivered by then and is of its transaction |
| DhcpClient.Registry.Remove | router/internal/dhcp4/manager.go:57-65 | forgets the entry and nudges only if there was one |
| DhcpClient.Manager.Sync | router/internal/dhcp4/manager.go:174-198 | afterwards exactly the enabled DHCP uplinks have a client; kept ones are untouched, the rest cancelled, new ones new |
| Store.Store.Save | router/internal/store/store.go:216-237 | appends to the log unless identical or unwritable, and reports success exactly then |
| Store.Store.AppendRevision | router/internal/store/store.go:142-161 | index and data stay the newest 64 of the log |
| Store.Store.Revision | router/internal/store/store.go:191-213 | finds exactly the retained revisions, as they were saved |
| Store.Store.Restore | router/internal/store/store.go:240-246 | a retained revision becomes the active configuration |
| Store.IndexIsNewest | router/internal/store/store.go:142-161 | the newest 64 revisions, numbered consecutively and newest first, with their authors and messages; data is kept for exactly those |
| Commits.LogGrows | router/internal/api/server.go:592-741 | no step rewrites committed revisions |
| CommitRuns.StepKeepsInv | router/internal/api/server.go:592-741 | committed, pending and base configurations are valid and buildable and drafts valid after every step |
| CommitRuns.ActSynced | router/internal/api/server.go:592-741 | a step parts live from effective exactly when it commits to files that cannot be written |
| CommitRuns.LiveIsEffective | router/internal/api/server.go:494-503 | over every run live is the pending configuration if a window is open and the committed one otherwise, except exactly while the last attempt of the engine failed unrecovered |
| CommitRuns.StepLive | router/internal/api/server.go:592-741 | after a step the live system is broken exactly if the last attempt of the engine failed unrecovered, and is effective otherwise |
| CommitRuns.LiveStaysEffective | router/internal/api/server.go:494-503 | while the engine works and failed applies recover, live never leaves effective |
| CommitRuns.EffectiveOnceReconciled | router/internal/api/server.go:1412-1423 | from any state, one completed reconciliation and then such a run end with live effective |
| CommitRuns.ReconcileRecovers | router/internal/api/server.go:1412-1423 | after any run one completed reconciliation makes live effective |
| CommitRuns.OnlyOwnTransactionSupersedes | router/internal/api/server.go:602-608 | a window is replaced only by an apply of the same transaction |
| CommitRuns.OpenCommits | router/internal/api/server.go:627-665 | exactly which step commits and leaves a window open |
| CommitRuns.WindowHoldsStill | router/internal/api/server.go:627-641 | however often it is superseded, an open window keeps its transaction, and commits nothing exactly if no immediate apply of its own loses the active file |
| CommitRuns.WindowLeavesNoTrace | router/internal/api/server.go:675-741 | abandoning a window returns live to what is committed, which is what was before it opened exactly if no commit leaked out of it |
| CommitRuns.OnlyAppliedCommits | router/internal/api/server.go:592-718 | every configuration a run commits was validated and applied in full earlier in it, or was pending at its start |
| CommitRuns.WindowUntouched | router/internal/api/server.go:592-718 | over every run of others, wrong tokens included, an open window and the committed revisions stay as they are |
| CommitRuns.StepCandidate | router/internal/api/server.go:592-718 | exactly when a step commits, and what: the window it confirms, or what it applies immediately |
| CommitRuns.EveryCommitHasItsMove | router/internal/api/server.go:592-718 | every revision of a run has the move that committed it: the confirmation of the window then open by its token, none, or its own transaction, or an immediate apply no foreign window stood against |
| CommitRuns.DraftsAreAccepted | router/internal/api/server.go:1254-1283 | no stored draft or base is ever refused as invalid |
| Requests.PutOpens | router/internal/api/server.go:627-641 | a configuration put to be confirmed runs in a window with its token, and nothing is committed |
| Requests.PutCommits | router/internal/api/server.go:643-665 | one put immediately runs and is committed once, with author and message |
| Requests.PutRefused | router/internal/api/server.go:592-626 | exactly when and why a configuration put is refused, and what that leaves alone |
| Requests.RestoreOpens | router/internal/api/server.go:1202-1212 | a kept revision restored to be confirmed runs in a window with the given token |
| Requests.RestoreExpires | router/internal/api/server.go:675-690 | if that window runs out, what was committed before runs again |
| Requests.RestoreCommits | router/internal/api/server.go:1202-1212 | restored immediately it is committed under a message that says where it comes from |
| Requests.RestoreRefused | router/internal/api/server.go:1202-1212 | exactly when a restore is refused, and that it then changes nothing |
| Requests.ConfirmAnswers | router/internal/api/server.go:692-718 | what confirming does, by token, and with which entry |
| Requests.DraftAnswers | router/internal/api/server.go:1216-1283 | what beginning, editing and applying do to a draft and its window |
| Requests.DraftImmediate | router/internal/api/server.go:1275-1323 | a draft applied without a window and its rollback, each with its entry |
| Requests.DraftCommitted | router/internal/api/server.go:1285-1301 | a transaction commits its own window and no other |
| Requests.DraftsOfOthers | router/internal/api/server.go:1216-1323 | only a transaction's own requests touch its draft |
| CommitRuns.TransactionCommits | router/internal/api/server.go:1216-1301 | begun, edited, applied in a window and committed, a transaction makes its completed draft the committed and live configuration |
| CommitRuns.UntouchedTransaction | router/internal/api/server.go:1216-1283 | applying a transaction as it was begun commits nothing new exactly if another window blocks it or the completed effective configuration is the head; otherwise it commits that |
| CommitRuns.SeedCommitsUnedited | router/internal/api/server.go:1216-1283 | on a fresh store it commits a second revision exactly if the seed is not complete |
| CommitRuns.TransactionUndone | router/internal/api/server.go:1275-1323 | rolling back a transaction applied immediately commits and runs what was effective before it, completed; that is the same exactly if it was complete |
| CommitRuns.RollbackOverwritesExactlyWhen | router/internal/api/server.go:1303-1323 | exactly when rolling a transaction back changes the committed configuration, which then is its completed base |
| CommitRuns.BaseIsRemembered | router/internal/api/server.go:1275-1283 | over every run of others the base an apply recorded stays |
| CommitRuns.TransactionRollback | router/internal/api/server.go:1275-1323 | over every run between an apply, whatever its reply, and its rollback, exactly when the rollback overwrites the head, and with what |
| CommitRuns.RefusedTransactionUndoesOthers | router/internal/api/server.go:1275-1323 | rolling back a transaction the engine refused overwrites another's commit exactly if that differs from what was effective at the apply, completed |
| CommitRuns.SeedLosesCommit | router/internal/api/server.go:1275-1323 | on a fresh store a refused transaction's rollback takes back another's commit exactly if that differs from the completed seed |
| Server.Server.ApplyNewConfig | router/internal/api/server.go:592-665 | the handler does the apply step, with one timer armed exactly while a window is open |
| Server.Server.CommitPendingConfig | router/internal/api/server.go:692-718 | the handler does the commit step and disarms the timer |
| Server.Server.RollbackPendingConfig | router/internal/api/server.go:720-741 | the handler does the rollback step and disarms the timer |
| Server.Server.AutoRollbackConfig | router/internal/api/server.go:675-690 | a firing timer does the timeout step |
| Server.Server.ReconcileLive | router/internal/api/server.go:1412-1423 | the repair loop does the reconcile step |
| Server.Server.RevisionRestore | router/internal/api/server.go:1202-1212 | restoring applies the stored configuration, or answers that it is unknown |
| Server.Server.ApplyTransaction | router/internal/api/server.go:1275-1283 | records the base and applies the draft in its own transaction |
| Server.Server.CommitTransaction | router/internal/api/server.go:1285-1301 | commits the transaction's own window and forgets it |
| Server.Server.RollbackTransaction | router/internal/api/server.go:1303-1323 | closes its own window or restores its base, and forgets it |
| RouterCommits.RouterRulesLawful | router/internal/api/server.go:592-601 | the router's defaults are idempotent and keep validity, and validity implies an uplink, as the commit theorems ask |
| RouterCommits.DefaultsKeepValid | router/internal/config/config.go:90-151 | filling in defaults never makes a valid configuration invalid |
| RouterCommits.DefaultValidNotComplete | router/internal/config/config.go:15-36 | the configuration a store is seeded with is valid but not complete |
| RouterCommits.RouterStaysLive | router/internal/api/server.go:494-503 | from the store the program seeds, every committed configuration is valid over every run, and live is effective exactly once and while the last attempt of the engine worked |
| RouterCommits.RouterStaysEffective | router/internal/api/server.go:1412-1423 | after its first completed reconciliation live stays effective while the engine works and failed applies recover |
| RouterCommits.FirstTransactionCommits | router/internal/api/server.go:1216-1283 | the first transaction of a fresh store commits a second revision though nobody edited anything |
| RouterCommits.RenameIsLost | router/internal/api/server.go:1275-1323 | on a fresh store the rollback of a refused transaction takes back a renaming committed since |
| Prefixes.OverlapIsIntersection | router/pkg/models/validate.go:126-139 | the IPv4 overlap test is exactly a shared address |
| Prefixes.OverlapIsIntersection6 | router/pkg/models/validate.go:126-139 | the IPv6 overlap test is exactly a shared address |
| Prefixes.BlockOf | router/pkg/models/validate.go:320-327 | a prefix is the block from its network to its broadcast address |
| Prefixes.DottedIs | router/internal/config/config.go:154-178 | the text of an address is its four bytes, the highest first |
| Validate.ValidateNetworks | router/pkg/models/validate.go:91-143 | reports the faults of every network against those before it |
| Validate.CheckDhcp | router/pkg/models/validate.go:306-347 | reports the faults of a DHCP service |
| ValidNetworks.CleanMeansValid | router/pkg/models/validate.go:91-143 | no fault is reported exactly when networks are sound and pairwise apart, subnets as address sets included |
| FaultMeaning.ReportedExactly | router/pkg/models/validate.go:91-143 | a fault is reported exactly if it is there, for every kind of fault |
| ValidNetworks.NoDhcpFaults | router/pkg/models/validate.go:306-347 | a DHCP service has no fault exactly if its pool and reservations lie in the subnet and its other fields are valid |
| ValidNetworks.VlanKeyInjective | router/pkg/models/validate.go:116-122 | the VLAN key identifies parent and number |
| ValidNetworks.MatchOrderFree | router/internal/monitor/monitor.go:181-191 | in a validated list an address belongs to the same network in any order |
| ValidNetworks.PoolsShareNothing | router/pkg/models/validate.go:306-347 | pools of two networks of a validated list share no address |
| ValidNetworks.DefaultedServicePasses | router/internal/config/config.go:84-169 | a service left to defaults validates exactly where the default pool is usable |
| Defaults.PoolUsable | router/internal/config/config.go:154-169 | the default pool lies strictly inside the subnet exactly up to /30 and while .220 does not wrap |
| Defaults.GatewayContained | router/internal/config/config.go:172-178 | the default router address lies in its subnet unless that is a single address |
| Defaults.Document.ApplyDefaults | router/internal/config/config.go:90-151 | fills in every default in place |
| Defaults.DefaultsIdempotent | router/internal/config/config.go:90-151 | filling in defaults twice is filling them in once |
| Defaults.SettingsFilled | router/internal/config/config.go:90-97 | the document's own settings are filled in |
| Defaults.UplinkFilled | router/internal/config/config.go:98-117 | what an uplink says it keeps, and what it gets otherwise |
| Defaults.NetworkFilled | router/internal/config/config.go:118-148 | what a network says it keeps, and what it gets otherwise |
| Defaults.PoolIs | router/internal/config/config.go:154-169 | the default pool is .100 to .220, cut to fit |
| Defaults.PoolFilled | router/internal/config/config.go:130-139 | unset ends of a pool are taken from the default pool |
| Defaults.ServiceFilled | router/internal/config/config.go:126-143 | what a DHCP service says it keeps, and what an enabled one gets otherwise |
| Defaults.NameServerFilled | router/internal/config/config.go:140-142 | without name servers it gets the address after the network's |

## Left out

- Executing `ip`, `nft`, `wg`, `tc` and `systemctl`, and the text and JSON they read and print: commands are structured values, and nft is assumed to accept a script whose sets are declared once and whose references resolve.
- Operations: the grouping of commands into named operations and their descriptions.
- Traffic shaping (`PlanQoS`, `internal/qos`): it compares substrings of `tc` output.
- Routing tables other than main, and route attributes beyond destination, gateway, device and metric.
- The file-backed provenance store: only the in-memory one is modelled.
- The systemd unit's text, the dnsmasq and WireGuard documents: opaque texts.
- Address and route spellings: compared as text, as the program does; kernels that print the address part of a prefix or a route in another spelling than they were given are not modelled.
- The simulation's scan of argument vectors: an interface name that contains a slash or is a keyword of `ip` is taken for nothing but a name.
- The firewall's input and NAT chains, ICMPv6 and port forwards: none decides forwarding between zones.
- IPv6 prefixes in `ip saddr` conditions: they match nothing here, where nft would refuse the script.
- Zone names outside ASCII: Go folds more letters than the model.
- Cancellation, RELEASE on shutdown, a link without a hardware address, and the goroutine left reading after a timeout.
- What the DHCP client sends: the fields and options of DISCOVER, REQUEST and RELEASE.
- Garbage datagrams: the receive loop hands its callers no packet for them, which they dereference.
- The registry's DNS and status projections and `Registry.Runtime`: the leased routes and addresses are an input of the desired state; of the addresses, LeaseText says what they look like.
- Audit log, events, device aliases, the store's reopening of files after a crash, and times in revisions.
- Handlers that edit one item of the effective configuration and then apply it: each amounts to an apply of the edited configuration.
- Interleavings inside one handler: each is one atomic step.
- DesiredState.BuildWith: validity outside networks is only the part that RestValid states, and generators are inputs that never fail, where the program gives up on their errors.
- Reached.LinksReached: a VLAN's parent and number are not part of what is reached, because the program compares neither; ApplyRuns.VlanPlacedExactlyWhen says when they are right.
- DesiredState.RestValid: outside networks only the checks of WANs, tunnels and routes that the desired state depends on are modelled, so it accepts more configurations than the program.
- Validate.ValidateNetworks: faults are values rather than field paths and messages, and an overlap names its position among the subnets that parsed, as the program's index does.
- Store.Store.Save: a configuration is equal to another if their stored forms are, so absent and empty lists are one.
