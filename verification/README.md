# Verified model of the multi-IP board and its control panel

The board runs lwIP with one physical network interface and up to seven alias interfaces. UDP sockets are
opened on an interface through a registry of sixteen slots; the receive callback fills a slot's mailbox from
an interrupt while the main loop opens, polls, closes and rebinds. The board is driven over a serial line: by a
menu with an in-place line editor, and by a command channel whose framed answers a C# panel collects, parses
and displays. This project models that behaviour in Dafny and proves what it keeps.

Modules, from the bottom up:

- `Words`, `Text`: machine words; decimal numbers, delimited lists and dotted addresses with their inverses.
- `Registry`: the ownership view of the sixteen slots (handles, binding, open, close, cascade, rebind, listing).
- `SlotMachine`: mailboxes, counters and generations under every interleaving of the receive callback with the
  single stores and critical sections of the main loop. Theorems are about every run from boot.
- `UdpSource`: the registry as an array updated in place; each method is proved to be a run of `SlotMachine`
  and an operation of `Registry`, for every callback that interrupts it.
- `NetManager`: interface list, alias pool and registry together, and every run of NETIF and SOCK commands and
  of the menu's address change.
- `BoundAddresses`: when the sockets' bound addresses agree with their interfaces, on every board and run.
- `Listing`, `CommandChannel`, `Protocol`, `SerialManager`: what the board prints, how bytes become lines, how
  the host reassembles chunks into responses and parses them, and whose answer completes a command.
- `MainLoop`: the menu key taken out of the byte stream, and datagrams printed as events.
- `EndToEnd`, `PanelActions`, `Answers`, `Session`: theorems that span board and panel: one answer per line,
  listings read back, buttons act on what is displayed, every status exactly for its cause, adding and deleting are inverse, and for every command of every
  session, with time-outs and late replies, exactly when it is completed by its own reply and by whose
  otherwise.
- `Firmware`: the board as an object; its handlers print and change state in place and refine the above.
- `LineEditor`, `Typing`: the in-place editor against a zipper, its echo against a terminal row, and what is
  entered by the bytes of given keys.
- `Clock`, `PingMachine`, `Ping`, `PingStats`, `PingCommand`: wrapped time, the one outstanding echo request of
  RFC 792, its driver, the session totals, and one ping from the wire to the panel.
- `Panel`, `PanelRefresh`: the change signature, the decision not to redraw, and the screen against the board.

Findings, each with a concrete input and the exact condition under which the intended property does hold:

- A command is completed by the first `#END` or `#ERR` line that arrives, whoever sent it
  (TmsControlPanel/SerialManager.cs:181-201). It gets its own answer if and only if its reply arrives before
  the next command and no such line arrives before it (`Session.EveryCommandGetsItsAnswer`, for one exchange
  `SerialManager.OwnAnswerIff`). After a time-out the answers stay one command behind: results are handed out
  in the order of the replies (`Session.ResultsComeInOrder`), so the response of a command is the reply to the
  command whose number is the count of results handed out before (`Session.ResponseIsReplyTo`,
  `Session.AnswersShift`, `Session.MissedReplyIsNext`). Inputs: a reply that arrives whole after a time-out
  (`SerialManager.WholeLateReply`), one cut by the time-out (`SerialManager.CutLateReply`), and, without any
  time-out, a datagram with a line feed in its first 64 bytes, which example/hdk/src/lwip_main.c:212-220 prints
  unescaped (`MainLoop.DatagramCompletesCommand`, exact condition `MainLoop.EventCompletesIff`).
- The result of `udp_bind` is ignored when an address changes (src/UDP_source.c:79), so NETIF SET answers OK
  and can leave a socket on an old address. All sockets of the interface move if and only if no pcb outside it
  holds one of its ports at the new address and no two of its sockets share a port
  (`BoundAddresses.RebindReachesIff`). Inputs for the two halves: `BoundAddresses.RefusedRebindExists`,
  `BoundAddresses.SharedPortExists`. The next listing does not show it (`PanelActions.EditIsDisplayed`).
- A command that contains a `q` never reaches its handler: the main loop takes the byte for the menu key
  (example/hdk/src/lwip_main.c:230-240), and the menu reads the rest of the line
  (src/terminal_interface.c:78). The command's line is dispatched if and only if it has no `q`; with one,
  nothing is dispatched, and what came before the `q` is left for the next command (`MainLoop.CommandArrivesIff`,
  `MainLoop.CommandIsLost`); input `MainLoop.QuitIsLost`.
- NETIF ADD reads at most 15 characters of an address and takes the rest for the next one
  (src/terminal_interface.c:1085), while the panel sends any text its own check accepts
  (TmsControlPanel/Form1.cs:394-404). Arguments reach their places when each fits
  (`PanelActions.AddDispatches`). A longer one is refused when its first 15 characters are no address
  (`PanelActions.LongAddressIsRefused`); when they are, an interface nobody asked for is added and reported OK
  (`PanelActions.LongAddressIsMisread`; input `PanelActions.LongFormIsMisread`, given what `ipaddr_aton` makes
  of its parts).
- Packets that arrive between the unprotected stores of an open (src/UDP_source.c:130-133) are counted
  nowhere. `SlotMachine.PacketsAreConserved` gives their number, which is zero if and only if none arrived
  there (`SlotMachine.NothingLostIff`); input `SlotMachine.PacketLostInOpen`.
- NETIF ADD of address 0.0.0.0 adds the interface and reports `ERR:add_failed`, because
  lwip-1.4.1/ports/hdk/lwiplib.c:512 answers with the address and src/net_manager.c:24 takes 0 for failure
  (exactly then: `NetManager.AddStartsWithoutSockets`); input `NetManager.ZeroAddressIsAdded`.
- The line editor's last branch (src/terminal_interface.c:722-732) is commented as "printable character" but
  accepts every byte left over. The screen is true if and only if every accepted byte is printable
  (`LineEditor.EchoKeepsScreenTrue`); input `LineEditor.ControlByteIsNotShown`.
- A forced refresh clears the signature first (TmsControlPanel/Form1.cs:177-195), which then equals that of an
  empty list. The screen shows the answer except exactly then (`Panel.RefreshShowsAnswer`); the board's own
  answer is never empty (`PanelRefresh.RefreshShowsBoard`), but a late answer to an edit is
  (`PanelRefresh.LateEditKeepsCards`), until the next answer of the board's own (`PanelRefresh.CardsAreRepaired`).

Check the whole project with `dafny verify dfyconfig.toml`.

## Model

| member | source | states |
|---|---|---|
| Registry.ResolveMakeId | src/UDP_source.c:22-46 | an id resolves to the slot it names if and only if that slot is in use under the same generation; equal ids name the same slot; 0xFFFF is never issued and never resolves |
| Registry.SocketsAreOwnedInOrder | src/UDP_source.c:298-345 | the derived list of an interface holds exactly its slots in use, once each, in slot order |
| Registry.OpenInsertsOne | src/UDP_source.c:106-139 | an open inserts one socket at the place of the lowest free slot; no other interface's list moves |
| Registry.PlanIff | src/UDP_source.c:91-142 | an open is refused with ERR_VAL exactly for no interface, with ERR_MEM exactly when no slot of sixteen is free or no pcb is left, with ERR_USE exactly when the port cannot be bound, and otherwise takes the lowest free slot |
| Registry.PlanHasOutcome | src/UDP_source.c:91-142 | error, slots afterwards and id of an open, field by field, for each cause |
| Registry.SocketsAreItsSlots | src/UDP_source.c:298-345 | the list of an interface is, in increasing order, exactly the sixteen slots that are in use and belong to it |
| Registry.CloseDeletesOne | src/UDP_source.c:144-155 | closing the k-th socket by its handle deletes just that element; no other list moves |
| Registry.CloseAllEmpties | src/UDP_source.c:157-173 | remove-all empties one interface's list and leaves every slot it does not own as it was |
| SlotMachine.RunKeepsSlotGood | src/UDP_source.c:50-285 | in every run each slot's mailbox, counters, generation and in-use flag agree with the history of the run |
| SlotMachine.PendingPosition | src/UDP_source.c:251-285 | the packet kept is the earliest handed to the slot since its box was last emptied by a poll, a close or an open |
| SlotMachine.CallbackTakes | src/UDP_source.c:251-285 | every packet for a slot in use is taken: an empty box gets its sender and first 256 bytes, a full one counts a drop; any other callback changes nothing |
| SlotMachine.PollReturnsFirstPacket | src/UDP_source.c:209-242 | a poll finds a message if and only if a packet was handed over since the box was last emptied, and it is the sender and first 256 bytes of the earliest such packet, never a mixture and never from an earlier incarnation |
| SlotMachine.PacketsAreConserved | src/UDP_source.c:127-133 | for every open socket, packets handed over equal those read, dropped, in the box, and an exact number lost between the unprotected stores; both counters are these numbers modulo 2^32 |
| SlotMachine.NothingLostIff | src/UDP_source.c:127-133 | no packet is lost if and only if none arrived between the in-use flag and the end of the open |
| SlotMachine.PacketLostInOpen | src/UDP_source.c:130-133 | a run from boot in which a packet handed to an open socket is neither read nor dropped nor in the box |
| SlotMachine.GenerationCounts | src/UDP_source.c:50-60 | a slot's generation is the number of its closings modulo 256, in every run |
| SlotMachine.HandleIssued | src/UDP_source.c:133-137 | when an open ends its slot is in use and the id is the slot's current handle |
| SlotMachine.HandleLifetime | src/UDP_source.c:34-60 | over all runs, an issued id resolves later if and only if its slot is in use and was closed a multiple of 256 times since |
| SlotMachine.RebindKeepsOwnership | src/UDP_source.c:66-84 | rebinding changes no owner, generation or in-use flag, and a bound slot stays bound |
| UdpSource.OpenIsOneStepForOwners | src/UDP_source.c:91-142 | however an open is interrupted between its stores, the ownership view ends as if it had run in one step |
| UdpSource.SocketRegistry.constructor | src/UDP_source.c:17 | all slots start free, unbound, with empty mailboxes |
| UdpSource.SocketRegistry.Callback | src/UDP_source.c:251-285 | one callback run copies, drops or ignores, on the slot it was registered for and no other |
| UdpSource.SocketRegistry.AddListener | src/UDP_source.c:91-142 | for every interrupting callback: the run of stores it amounts to, and for each cause (no interface, no free slot or pcb, port taken, success) the error, the slots and the id, in terms of slots and ports alone |
| UdpSource.SocketRegistry.PlacePcb | src/UDP_source.c:126-130 | the three stores up to the in-use flag, each interruptible |
| UdpSource.SocketRegistry.ResetCounters | src/UDP_source.c:131-133 | the three resets after the in-use flag, during which packets are already accepted |
| UdpSource.SocketRegistry.RemoveSlot | src/UDP_source.c:50-60 | frees one slot, empties its box and advances its generation; no other slot changes |
| UdpSource.SocketRegistry.ResolveId | src/UDP_source.c:34-46 | computes the slot of an id, or none |
| UdpSource.SocketRegistry.RemoveListener | src/UDP_source.c:144-155 | a stale id changes nothing; otherwise exactly the named slot is freed, for every callback between the check and the close |
| UdpSource.SocketRegistry.RemoveAllOnNetif | src/UDP_source.c:157-173 | the scan frees exactly the interface's slots in one critical section |
| UdpSource.SocketRegistry.NetifIpChanged | src/UDP_source.c:66-84 | the scan rebinds in slot order, each bind seeing the outcome of the ones before it, refusals ignored |
| UdpSource.SocketRegistry.PollRx | src/UDP_source.c:209-242 | the poll as a run: nothing for a stale id, else the message the machine observes, for every callback between the check and the read |
| UdpSource.SocketRegistry.CountSockets | src/UDP_source.c:298-312 | the number of elements of the derived list |
| UdpSource.SocketRegistry.GetSocket | src/UDP_source.c:314-345 | the k-th element's owner, port and a handle that resolves to it; the invalid triple for every larger position |
| UdpSource.SocketRegistry.GetLocalPort | src/UDP_source.c:287-295 | the bound port behind a handle, 0 when it does not resolve |
| NetManager.NoDanglingOwnerEver | src/net_manager.c:29-43 | in every run of commands each slot in use belongs to a listed interface, the physical interface stays listed, the list matches the alias pool, and no two bound pcbs clash |
| NetManager.ExecKeepsInv | src/terminal_interface.c:1078-1351 | each NETIF and SOCK command keeps that invariant |
| NetManager.DeleteRemovesExactlyOne | src/terminal_interface.c:1103-1120 | NETIF DEL succeeds if and only if the index is valid and not the physical interface; a refusal changes nothing; otherwise exactly that interface and its sockets are gone |
| NetManager.DeleteStatusIff | src/terminal_interface.c:1103-1120 | bad_index, remove_failed and OK of NETIF DEL, each if and only if its cause; a refusal changes nothing |
| NetManager.SetStatusIff | src/terminal_interface.c:1310-1351 | bad_index, bad_field and OK of NETIF SET, each if and only if its cause; a refusal changes nothing and OK changes exactly the named field |
| NetManager.CloseStatusIff | src/terminal_interface.c:1151-1176 | bad_index, bad_socket and OK of SOCK CLOSE, each if and only if its cause; a refusal changes nothing |
| NetManager.OpenSucceedsIff | src/terminal_interface.c:1123-1148 | on every board SOCK OPEN answers OK if and only if the index is listed, a slot is free, a pcb is left and no pcb holds the port at that address, at address 0, or anywhere when the address is 0; bad_index if and only if the index is bad; every other refusal is open_failed, and a refusal changes nothing |
| NetManager.MenuSetsIp | src/terminal_interface.c:149-162 | the menu changes the address of the chosen interface alone, to the typed one or to what it was, and rebinds as NETIF SET does |
| NetManager.AddStartsWithoutSockets | src/net_manager.c:19-27 | an alias that reuses a removed object starts without sockets; NETIF ADD reports failure if and only if seven aliases are in use or the address is 0, and in the second case the interface is added all the same |
| NetManager.AliasAddedKeepsInv | lwip-1.4.1/ports/hdk/lwiplib.c:476-516 | taking an unused alias object puts a new interface in the list and keeps the invariant |
| NetManager.NetIfRemoveKeepsInv | lwip-1.4.1/ports/hdk/lwiplib.c:518-535 | removal keeps the invariant and takes exactly the removed interface out of the list |
| NetManager.BindIsFree | lwip-1.4.1/src/core/udp.c:766-834 | a successful bind has a real port, the wanted address, and clashes with no other pcb |
| NetManager.RebindKeepsExclusive | src/UDP_source.c:74-82 | rebinding keeps every owner, generation and port and never makes two pcbs clash, refused or not |
| BoundAddresses.RebindReachesIff | src/UDP_source.c:66-84 | the scan brings every socket of the interface to the new address if and only if no pcb outside holds one of its ports there and no two of its sockets share a port |
| BoundAddresses.SetIpAgrees | src/terminal_interface.c:1331-1335 | on every board: after an address change all bound addresses agree if and only if that interface's sockets could move and the sockets of all others were right before |
| BoundAddresses.SameAddressIsFree | src/terminal_interface.c:156-160 | sockets that are at their interface's address can be rebound to it, as after a rejected menu input, whatever other interfaces' sockets are bound to |
| BoundAddresses.ExecAgrees | src/terminal_interface.c:1078-1351 | for every command on every board: bound addresses agree afterwards if and only if a condition on the board before it holds |
| BoundAddresses.BoundAddressesAgree | src/UDP_source.c:66-84 | over every run from boot: every open socket is at its interface's current address after each command if and only if no rebind of the run was refused |
| NetManager.OpenSocketsKeepPort | src/terminal_interface.c:1123-1176 | every command leaves a socket its owner, generation and port, or closes it by DEL or CLOSE |
| NetManager.PortSinceOpen | src/UDP_source.c:79-80 | over every run during which a slot stays open, its owner, generation and port do not change |
| BoundAddresses.RefusedRebindExists | src/UDP_source.c:79-80 | from boot a board is reached on which NETIF SET answers OK and a socket stays behind, blocked by another interface's socket |
| BoundAddresses.SharedPortExists | src/UDP_source.c:79-80 | from boot a board is reached on which nobody outside is in the way, NETIF SET answers OK, and one of two sockets on the same port stays behind |
| NetManager.ZeroAddressIsAdded | src/net_manager.c:19-27 | from boot NETIF ADD of 0.0.0.0 lists the interface and answers add_failed |
| Text.DecRoundTrip | src/terminal_interface.c:1058-1069 | decimal printing and reading are inverse |
| Text.DecCanonical | src/terminal_interface.c:1058-1069 | the ten digits, and no leading zero |
| Text.TryParseDec | TmsControlPanel/Protocol.cs:63-70 | the panel's integer parser reads back every printed number up to the int32 maximum, and no larger one |
| Text.TokensJoin | TmsControlPanel/Protocol.cs:61 | splitting a line printed with single spaces gives back its fields |
| Text.DottedForm | lwip-1.4.1/src/core/ipv4/ip_addr.c:276-312 | a dotted address has 7 to 15 characters, digits and dots only, so it fits the 16-byte buffers |
| Text.DottedDenotes | lwip-1.4.1/src/core/ipv4/ip_addr.c:276-312 | splitting the printed text at the dots gives four decimals below 256, most significant first, whose value is the address |
| Text.DottedInjective | lwip-1.4.1/src/core/ipv4/ip_addr.c:276-312 | distinct addresses have distinct texts |
| Protocol.ParseNetifList | TmsControlPanel/Protocol.cs:55-78 | the loop computes the fold of its line rule, whose meaning is given by EndToEnd.ListingRoundTrip |
| Protocol.ParsePing | TmsControlPanel/Protocol.cs:20-35 | the first PONG line decides; without one the attempt failed |
| Protocol.FindOwner | TmsControlPanel/Protocol.cs:72 | the first interface with the index, or none |
| Listing.NetifTokens | src/terminal_interface.c:1058-1061 | splitting a NETIF line gives back the six printed fields |
| Listing.SockTokens | src/terminal_interface.c:1066-1068 | splitting a SOCK line gives back the four printed fields |
| Listing.NetifFormat | src/terminal_interface.c:1058-1061 | the NETIF line field by field |
| Listing.SockFormat | src/terminal_interface.c:1066-1068 | the SOCK line field by field |
| Listing.PongTokens | src/terminal_interface.c:1212-1214 | splitting a PONG line gives back the six printed fields |
| Listing.PongFormat | src/terminal_interface.c:1212-1214 | the PONG line field by field |
| Listing.HexDenotes | src/ping.c:237-242 | the two hexadecimal digits of a MAC byte have its value |
| Listing.AtMostEight | lwip-1.4.1/ports/hdk/lwiplib.c:495-515 | the list never has more than the physical interface and seven aliases |
| CommandChannel.SplitterEqualsBatch | src/terminal_interface.c:1370-1388 | for every byte stream the dispatched lines are the stream split at CR or LF, empties dropped, pieces cut to 127 bytes, and the pending buffer is the cut of the unfinished piece |
| CommandChannel.LineEnds | src/terminal_interface.c:1370-1388 | a CR, an LF and a CR LF each end a line, of which the first 127 bytes count; an empty line is none |
| CommandChannel.OutputIsReply | src/terminal_interface.c:1041-1367 | the text of what a handler prints is a BEGIN line, its data lines and an END line, or the one ERR line |
| CommandChannel.ListingIsData | src/terminal_interface.c:1052-1072 | no line of a listing can be taken for part of the frame and none is cut by the 96-byte buffer |
| CommandChannel.PongIsData | src/terminal_interface.c:1211-1215 | no PONG line can be taken for part of the frame or is cut by the 96-byte buffer |
| CommandChannel.HostIsData | src/ping.c:237-242 | no "Host up" line can be taken for part of the frame |
| SerialManager.ChunkingIsIrrelevant | TmsControlPanel/SerialManager.cs:120-147 | where the driver cuts the stream into chunks makes no difference |
| SerialManager.NoiseIsIgnored | TmsControlPanel/SerialManager.cs:154-172 | blank lines and EVT lines change nothing but the event list |
| SerialManager.TrimCrIs | TmsControlPanel/SerialManager.cs:131-144 | all carriage returns at the end of a line are cut off and nothing else |
| SerialManager.EventsComeThrough | TmsControlPanel/SerialManager.cs:154-172 | among the lines of a reply the event handler gets the text after each EVT tag, once and in order, and nothing else |
| SerialManager.FreeText | TmsControlPanel/SerialManager.cs:154-172 | a line without a tag is reported as an event outside a block and collected inside one |
| SerialManager.TaggedText | TmsControlPanel/SerialManager.cs:199-206 | a line with another tag is collected inside a block and lost outside one |
| SerialManager.FramingTheorem | TmsControlPanel/SerialManager.cs:150-206 | the lines of one reply, with blank and EVT lines between them and in any chunks, complete the waiting command exactly once with the printed name, status and data |
| SerialManager.FeedIsSplit | TmsControlPanel/SerialManager.cs:131-144 | reading character by character processes exactly the finished lines of the whole text and keeps the unfinished one |
| SerialManager.OwnAnswerPlace | TmsControlPanel/SerialManager.cs:181-201 | whatever lines come before a reply, its response is handed over once, after theirs |
| SerialManager.OwnAnswerIff | TmsControlPanel/SerialManager.cs:181-201 | for every collector, every stray lines and every framed reply: the command gets exactly one result if and only if no stray line starts with END or ERR, and then it is its own |
| SerialManager.WholeLateReply | TmsControlPanel/SerialManager.cs:98-117 | a reply that arrives whole after its time-out completes the next command, whose own reply comes second |
| SerialManager.CutLateReply | TmsControlPanel/SerialManager.cs:98-117 | a block cut by a time-out completes the next command with exactly the data lines received before the time-out |
| MainLoop.CommandIsOneLine | src/terminal_interface.c:1370-1388 | a command sent with its CR becomes exactly one dispatched line, cut to 127 bytes |
| MainLoop.CommandArrivesIff | example/hdk/src/lwip_main.c:230-247 | for every command and whatever opened menus swallow beyond their line: exactly its line is dispatched if and only if it has no q, and with one nothing is dispatched |
| MainLoop.CommandIsLost | src/terminal_interface.c:42-78 | the menu swallows the rest of the command with its CR, and what came before the q stays pending for the next command |
| MainLoop.QuitIsLost | example/hdk/src/lwip_main.c:230-247 | a concrete UDP SEND that is lost |
| MainLoop.PayloadIs | example/hdk/src/lwip_main.c:212-220 | the printed payload is the first 64 bytes, read by the panel as ASCII |
| MainLoop.EventCompletesIff | example/hdk/src/lwip_main.c:202-221 | an event hands over as many results as its first 64 payload bytes have lines after the first that start with END or ERR; it leaves the command alone if and only if there is none |
| MainLoop.DatagramCompletesCommand | example/hdk/src/lwip_main.c:212-221 | a concrete datagram that completes a waiting command |
| SerialManager.Manager.BeginCommand | TmsControlPanel/SerialManager.cs:96-100 | a new command waits with no block open; collected lines are kept |
| SerialManager.Manager.Process | TmsControlPanel/SerialManager.cs:150-206 | the in-place line classifier is the specified one, in every branch |
| SerialManager.Manager.DataReceived | TmsControlPanel/SerialManager.cs:120-147 | the character loop is the specified reassembly, for every chunk |
| EndToEnd.EveryReplyIsFramed | src/terminal_interface.c:1354-1367 | for every line and every handler path the output is one well-formed frame or the unknown-command line |
| EndToEnd.EveryLineIsAnsweredOnce | TmsControlPanel/SerialManager.cs:120-206 | every dispatched line completes the waiting command exactly once with what its handler printed, through events and chunks |
| EndToEnd.ListingRoundTrip | TmsControlPanel/Protocol.cs:55-78 | parsing the lines of NETIF LIST gives back the board's interfaces in order, with indices, addresses and every socket's port |
| EndToEnd.ListingTellsTruth | TmsControlPanel/Protocol.cs:55-78 | what the panel parses denotes the board: 1-based position, and texts whose four octets are the address, mask and gateway, and per socket its position and the port of its slot |
| EndToEnd.ListedCount | src/terminal_interface.c:1058-1061 | each NETIF line carries the number of SOCK lines that follow it |
| EndToEnd.ListCommandEndToEnd | src/terminal_interface.c:1041-1075 | from the command line to the parsed list, through events and chunks |
| EndToEnd.PongRoundTrip | src/terminal_interface.c:1209-1216 | a ping answer is read back field by field; only a time beyond int32 would be read as 0 |
| EndToEnd.CloseArguments | src/terminal_interface.c:1158 | sscanf reads back the two numbers the panel printed |
| EndToEnd.DisplayedIsActedOn | TmsControlPanel/Form1.cs:345-348 | the delete button of a displayed socket closes the slot bound to the displayed port; the next listing is the old one minus that entry and nothing else changes |
| PanelActions.OpenedIsDisplayed | TmsControlPanel/Form1.cs:380-392 | the open button answers OK if and only if a slot is free, a pcb is left and the port is free at the interface's address; then the next listing has exactly the chosen port more, on the chosen interface, at the place of the lowest free slot, and otherwise the board is unchanged with open_failed |
| PanelActions.CloseUndoesOpen | TmsControlPanel/Form1.cs:345-392 | closing the socket just opened restores the listing |
| PanelActions.AddDispatches | TmsControlPanel/Form1.cs:394-405 | the three addresses the panel prints reach NETIF ADD in their places, when each fits the 15 characters the handler reads |
| PanelActions.LongAddressIsRefused | TmsControlPanel/Form1.cs:394-405 | a longer text is cut; when what remains is no address the board answers bad_args and does not change |
| PanelActions.LongAddressIsMisread | src/terminal_interface.c:1085-1100 | when the first 15 characters of a long text are an address, its rest becomes the mask and the mask the gateway, and the board answers as for that interface |
| PanelActions.LongFormIsMisread | src/terminal_interface.c:1085-1100 | a concrete hexadecimal text that is misread |
| PanelActions.DeleteUndoesAdd | TmsControlPanel/Form1.cs:332-405 | adding an interface and deleting the new card gives back exactly the old board; nothing is added if and only if the pool is full |
| PanelActions.AddedIsDisplayed | src/terminal_interface.c:1078-1100 | the next listing starts with the new interface, without sockets, and the others move down by one |
| PanelActions.EditIsDisplayed | TmsControlPanel/Form1.cs:350-378 | an edit answers OK and changes exactly the edited field of the next listing, even when a rebind was refused |
| Answers.PingAnswers | src/terminal_interface.c:1179-1223 | for every argument text: bad_args, bad_index and send_failed of PING each if and only if its cause, else OK, and the panel reads sender, number, length, round trip and time-to-live of the answer, or a failed attempt when none came |
| Answers.PanelPingAnswers | TmsControlPanel/Form1.cs:616 | the panel's own PING is read as it was meant |
| Answers.SendAnswers | src/terminal_interface.c:1259-1307 | for every argument text: OK of UDP SEND if and only if arguments, data, index, socket and send are good, and each of the five refusals if and only if its cause |
| Answers.PanelSendAnswers | TmsControlPanel/Form1.cs:533 | the panel's own UDP SEND is read as it was meant, with all of its data, when that does not start with white space |
| Answers.ScanAnswers | src/terminal_interface.c:1226-1243 | SCAN prints one line per host, in order, if and only if the index is listed, and bad_index otherwise |
| Answers.ArpResetAnswers | src/terminal_interface.c:1246-1256 | ARPRESET always answers OK |
| Answers.UnknownIff | src/terminal_interface.c:1354-1367 | a line is answered as unknown if and only if it is none of the ten commands; it then changes nothing |
| Answers.OpenArguments | src/terminal_interface.c:1123-1148 | SOCK OPEN refuses arguments that are not two numbers or whose port is not in 1..65535 |
| Answers.PortOutOfRange | src/terminal_interface.c:1123-1148 | a number out of the port range is bad_args and changes nothing |
| Answers.NoSuchIndex | src/terminal_interface.c:1103-1120 | NETIF DEL of a negative index or of no number at all is bad_index and changes nothing |
| Answers.UnreadableAddress | src/terminal_interface.c:1078-1351 | NETIF ADD and SET with an address that cannot be read answer bad_args and change nothing |
| Session.OwnReplyIff | TmsControlPanel/SerialManager.cs:181-201 | the first result comes from a line of the command's own reply if and only if no line before the reply starts with END or ERR, whatever follows |
| Session.EveryCommandGetsItsAnswer | TmsControlPanel/SerialManager.cs:89-206 | for every session with time-outs, events, halves of lines and late replies, and every command of it: it is completed by its own reply if and only if that arrives before the next command and no line before it starts with END or ERR, and then the response is what its handler printed on the board that all earlier commands left |
| Session.ResultsOfLines | TmsControlPanel/SerialManager.cs:89-206 | however commands and time-outs cut the stream, the names and statuses handed out are those of its lines, in order |
| Session.ResultsComeInOrder | TmsControlPanel/SerialManager.cs:89-206 | whenever commands start and time out, the i-th result of a session has the name and status of the board's i-th reply |
| Session.ResponseIsReplyTo | TmsControlPanel/SerialManager.cs:98-117 | the response of a command is the reply to the command whose number is the count of results handed out before it |
| Session.AnswersShift | TmsControlPanel/SerialManager.cs:98-117 | after one time-out every command gets the reply to the command before it, until one gets no result or two |
| Session.MissedReplyIsNext | TmsControlPanel/SerialManager.cs:98-117 | a reply that missed its exchange and arrives whole in the next one is, data included, the response of the next command, which then is not completed by its own |
| Session.SendCommand | src/terminal_interface.c:1370-1388 | the board as an object, fed the bytes of a command, ends with the board and output that the session theorems speak of |
| Firmware.DispatchKeepsInv | src/terminal_interface.c:1354-1367 | the interface and socket invariants survive every command line |
| Firmware.Device.constructor | lwip-1.4.1/ports/hdk/lwiplib.c:538-540 | the board starts with the physical interface alone |
| Firmware.Device.AddNetif | lwip-1.4.1/ports/hdk/lwiplib.c:476-516 | the pool scan takes the first unused alias; the result is net_if_add's, including failure for address 0 |
| Firmware.Device.RemoveNetif | src/net_manager.c:29-43 | guard, cascade and removal, in this order, amount to the specified removal |
| Firmware.Device.FindNetif | src/terminal_interface.c:1032-1038 | the interface at a 1-based position, NULL for every other int |
| Firmware.Device.SelectNetif | src/terminal_interface.c:807-821 | the menu's walk with a wrapping unsigned counter picks the same interface as the command channel's index, for every byte |
| Firmware.Device.PrintSockets | src/terminal_interface.c:1064-1070 | the loop prints one SOCK line per socket of the interface, in list order |
| Firmware.Device.PrintAllNetifs | src/terminal_interface.c:1052-1072 | the list walk prints exactly the specified listing |
| Firmware.Device.HandleNetifList | src/terminal_interface.c:1041-1075 | NETIF LIST prints the framed listing and changes nothing |
| Firmware.Device.HandleNetifAdd | src/terminal_interface.c:1078-1100 | board and output of NETIF ADD on every path |
| Firmware.Device.HandleNetifDel | src/terminal_interface.c:1103-1120 | board and output of NETIF DEL on every path |
| Firmware.Device.HandleNetifSet | src/terminal_interface.c:1310-1351 | board and output of NETIF SET on every path, with the rebind after an address change |
| Firmware.Device.HandleSockOpen | src/terminal_interface.c:1123-1148 | board and output of SOCK OPEN on every path, for every interrupting callback |
| Firmware.Device.HandleSockClose | src/terminal_interface.c:1151-1176 | board and output of SOCK CLOSE on every path, for every interrupting callback |
| Firmware.Device.MenuChangeIp | src/terminal_interface.c:149-162 | the menu's address change rebinds the sockets whether or not the typed address was accepted |
| Firmware.Device.HandlePing | src/terminal_interface.c:1179-1223 | output of PING on every path |
| Firmware.Device.HandleScan | src/terminal_interface.c:1226-1243 | output of SCAN for every list of hosts found |
| Firmware.Device.HandleUdpSend | src/terminal_interface.c:1259-1307 | output of UDP SEND on every path, in the order of its checks |
| Firmware.Device.CmdDispatch | src/terminal_interface.c:1354-1367 | every line goes to its handler; an unknown one prints the ERR line |
| Firmware.Device.CmdChannelFeed | src/terminal_interface.c:1370-1388 | one byte either extends the pending line or dispatches it; the invariants survive every byte and mailboxes and counters go through a run of SlotMachine |
| Firmware.Device.ReceiveByte | example/hdk/src/lwip_main.c:230-241 | one byte of the main loop: the menu key changes nothing, every other byte goes to the channel |
| Firmware.Device.ReceiveStream | src/terminal_interface.c:1370-1388 | for every stream without the menu key: board, pending line and whole output are those of its lines dispatched in order, and mailboxes and counters go through a run of SlotMachine |
| LineEditor.NextKey | src/terminal_interface.c:658-734 | decoding consumes at least one byte and never reads past the input; which bytes mean which key is stated by Typing.DecodeEncoded and Typing.OnlyCodesAreRead |
| Typing.DecodeEncoded | src/terminal_interface.c:658-734 | for every key sequence without Enter, its byte codes followed by CR or LF are decoded as exactly those keys, entered |
| Typing.OnlyCodesAreRead | src/terminal_interface.c:658-734 | conversely, the bytes consumed for a decoded key are one of its codes |
| Typing.TypedInTheMiddle | src/terminal_interface.c:693-700 | typing u and v, moving left once per byte of v and typing c gives u, c, v |
| Typing.TypedAfterMovingBack | src/terminal_interface.c:685-700 | moving right again places the next byte after what was passed |
| Typing.TypedAndRemoved | src/terminal_interface.c:670-713 | Backspace removes the byte before the cursor and Delete the one after it |
| Typing.TypedTooMuch | src/terminal_interface.c:723 | bytes beyond the room of the buffer are dropped, the first ones kept |
| Typing.TypeInTheMiddle | src/terminal_interface.c:649-737 | the array after the bytes of u, v, |v| times ESC [ D, c and CR is u, c, v and a terminator |
| LineEditor.KeyKeepsScreenTrue | src/terminal_interface.c:662-733 | after each key the terminal row shows the buffer from the prompt column and its cursor stands at the edit position |
| LineEditor.EchoKeepsScreenTrue | src/terminal_interface.c:649-737 | for every input the row shows text and cursor after each key if and only if every accepted byte is printable |
| LineEditor.EchoBytes | src/terminal_interface.c:662-733 | the bytes sent for each key |
| LineEditor.UnprintableBreaksScreen | src/terminal_interface.c:722-732 | an accepted control byte leaves the row and the buffer in disagreement |
| LineEditor.ControlByteIsNotShown | src/terminal_interface.c:722-732 | a concrete input with a stored but not shown byte |
| LineEditor.ShiftLeft | src/terminal_interface.c:675 | the loop removes one element in place and leaves the rest of the array |
| LineEditor.ShiftRight | src/terminal_interface.c:725 | the loop opens a gap in place and leaves the rest of the array |
| LineEditor.HandleBackspace | src/terminal_interface.c:670-683 | buffer and echo are those of the zipper's Backspace |
| LineEditor.HandleDelete | src/terminal_interface.c:702-713 | buffer and echo are those of the zipper's Delete |
| LineEditor.HandleChar | src/terminal_interface.c:723-732 | buffer and echo are those of the zipper's insertion; a full buffer ignores the byte |
| LineEditor.FetchInput | src/terminal_interface.c:649-737 | for every input and max_len of at least 1 the buffer holds the zipper's text with its terminator, the bytes sent are the zipper's echo, and nothing at or beyond max_len is touched |
| Clock.NoOverflowIff | src/ping.c:52 | ms times 9375 is the intended period if and only if ms is at most 458129 |
| Clock.OverIff | src/ping.c:53-56 | the guard has become false if and only if the true elapsed ticks modulo 2^32 are at least the period |
| Clock.NeverEarly | src/ping.c:53-56 | a wait that has run its period ends no earlier than the period, across counter wraps |
| Clock.EndsAtFirstSamplePast | src/ping.c:49-57 | with sampling gaps below 2^32 minus the period the wait ends exactly at the first sample past it |
| Clock.DelayMs | src/ping.c:49-57 | the loop ends at the first sample for which the guard fails, never early |
| Clock.WaitOrCtrlC | src/terminal_interface.c:887-901 | the loop ends at the first elapsed sample or Ctrl+C byte and says which; never early, and with small gaps at the first sample past the period |
| PingMachine.RunKeepsGood | src/ping.c:62-205 | in every run the flags, send time and result agree with the history of requests and replies |
| PingMachine.NeverBothFlags | src/ping.c:43-45 | s_waiting and s_reply_valid are never both set |
| PingMachine.OthersChangeNothing | src/ping.c:62-111 | a packet that is no Echo Reply (type 0) with identifier 0xAFAF, the latest number and a whole header behind a skippable IP header leaves the state as it was, and so does every packet when no request is open |
| PingMachine.ReportedIsTheReply | src/ping.c:181-205 | whatever a wait reports was heard after the latest send and before any timeout, is the first packet since with type 0, identifier 0xAFAF, the latest sequence number and a whole readable header, nothing was reported since that send, and the time is the floor of the true milliseconds |
| PingMachine.LookSeesTheReply | src/ping.c:187-199 | a wait sees the flag if and only if such a packet, in the same literal terms, has been heard |
| PingMachine.OldRepliesNeverMatch | src/ping.c:87-89 | a packet answering any of the previous 65535 requests never matches |
| PingMachine.RoundTripFitsInt | src/ping.c:97 | the reported time is at most 458129 ms, so the panel can read it |
| Ping.Driver.PingRecv | src/ping.c:62-111 | a packet is consumed if and only if a request is open and it is an Echo Reply to it with our identifier; one that is not consumed changes nothing |
| Ping.Driver.PingSend | src/ping.c:113-179 | a send is the machine's run of building, handing over and, when refused, giving up |
| Ping.Driver.PingWaitReply | src/ping.c:181-205 | a wait is a run of the machine for every arrival between its steps; success and timeout are what the machine observes; a timeout comes no earlier than the period and, with small gaps, at the first sample past it |
| PingCommand.Attempt | src/terminal_interface.c:1203-1220 | send and wait as the PING handler calls them are one run of the machine, and the outcome it prints is what the machine observed last |
| PingCommand.PanelReadsTheReply | TmsControlPanel/Protocol.cs:20-35 | in every run the printed line is read by the panel as sender, number, length, time-to-live and round trip of the first packet that answers the latest request |
| PingCommand.PingOnce | src/terminal_interface.c:1179-1223 | driver, handler and panel as one: after a PING the board prints one block, send_failed if and only if nothing was sent, from which the panel reads a failed attempt when the wait timed out and otherwise the first packet on the wire that answers the request |
| PingCommand.PingEndToEnd | TmsControlPanel/Form1.cs:616 | the waiting command of the panel is completed with that description, through events and chunks |
| PingStats.Tally | src/terminal_interface.c:951-1012 | on both sides the sum is the wrapped sum; without overflow received is at most sent, the extremes are attained bounds, the mean lies between them and the loss is 0 to 100, and 100 if and only if nothing was received |
| PingStats.LossInRange | TmsControlPanel/Form1.cs:651 | the loss is between 0 and 100, and 100 if and only if nothing was received |
| PingStats.LossIsPercentage | TmsControlPanel/Form1.cs:651 | the loss is the floor of a hundred times lost over sent |
| PingStats.OneForEach | src/terminal_interface.c:951-1012 | as many round trips are counted as attempts were answered |
| PingStats.RttsAreTheReplies | src/terminal_interface.c:951-1012 | the counted round trips are those of the answered attempts and no others |
| Panel.SignatureIsInjective | TmsControlPanel/Form1.cs:212-214 | for addresses of digits and dots two lists have the same signature if and only if indices, addresses and port lists agree; the signature is empty only for the empty list |
| Panel.RefreshShowsAnswer | TmsControlPanel/Form1.cs:183-210 | in every run a refresh shows the answer, except if and only if the signature was cleared, the answer is empty and something was on the screen |
| Panel.ForcedEmptyRefreshKeepsCards | TmsControlPanel/Form1.cs:177-195 | on an empty answer a forced refresh keeps the old cards, an ordinary one clears the screen |
| PanelRefresh.ListingHasTokens | lwip-1.4.1/src/core/ipv4/ip_addr.c:276-312 | the board's listing is never empty and its addresses are digits and dots |
| PanelRefresh.RefreshShowsBoard | TmsControlPanel/Form1.cs:183-210 | after every run of refreshes on answers with addresses of digits and dots, the board's own answer makes the screen show the board |
| PanelRefresh.EmptyAnswerArrives | TmsControlPanel/Form1.cs:350-378 | the late answer to an edit completes NETIF LIST with OK and an empty list |
| PanelRefresh.LateEditKeepsCards | TmsControlPanel/Form1.cs:350-378 | with that answer a forced refresh leaves every card of the earlier listing |
| PanelRefresh.CardsAreRepaired | TmsControlPanel/Form1.cs:183-210 | the next answer of the board's own makes the screen show the board again |
| Panel.Form.RefreshNetifs | TmsControlPanel/Form1.cs:183-210 | the in-place refresh is the specified one |
| Panel.Form.ForceRefresh | TmsControlPanel/Form1.cs:177-181 | the forced refresh clears the signature first |

## Left out

- NULL `socket_id` and `msg` arguments of the registry functions, and NULL addresses of `net_if_add`: no caller in the repository passes them.
- Ownership of pbufs: the callback's early return for a slot not in use frees nothing, but no pbuf is modelled.
- UDP SEND below its checks: `udp_source_data_send` is an input that succeeds or fails.
- `ipaddr_aton` is an arbitrary function from text to an optional address; sscanf and atoi work on unbounded integers, so a number that overflows a C int is read exactly.
- lwIP internals beyond `udp_bind`'s clash rule and the alias pool: the pcb pool and the port proposed for port 0 are inputs of an open, and pcbs outside the registry do not change during a run.
- `netif_add` inside `lwIPAliasAdd` always succeeds, and the core is ready.
- UdpSource.SocketRegistry.Callback: the callback runs to completion between two steps of the main loop; it is not itself interrupted, as on the single-core board.
- SCAN: the loop over addresses and ARP; the hosts found are an input, and `ERR:scan_failed` cannot occur because the interface is never NULL there.
- ARPRESET: the ARP tables; only its output is modelled.
- Cancellation, the command semaphore and threads of the panel: a time-out appears as the start of the next command, between two chunks; the results of one command are the list handed to its task, of which the first counts.
- Prefix tests of the panel compare characters, not the culture's collation.
- LineEditor.FetchInput: the bytes pending before the call are not part of the input; when the input ends before Enter the method returns where the firmware keeps waiting.
- The terminal is one row wide enough for prompt and text, without wrapping or UTF-8.
- Ping.Driver.PingWaitReply: follows as many polls as are given; one that is still waiting then is reported as pending.
- The endless mode of both ping commands: the statistics are about any finite number of attempts.
- Menu texts and the menu's other branches: of `read_terminal_line` the model has the address change and the choice of an interface; its socket and netif branches call the same registry operations as the command handlers.
- MainLoop.CommandArrivesIff: an opened menu swallows at least the rest of the line, since it reads one; how many bytes its draining and its further questions take after that is an arbitrary function.
- Session.EveryCommandGetsItsAnswer: among the lines of one reply only events and blank lines arrive, because a handler prints its block without returning to the main loop; before and after a reply any text may arrive.
- `ParseScan` and `src/netif_alias_filter.c`: not modelled, so nothing is said about the scan dialog or about which alias answers an ARP request; no other part of the model depends on them.
- Cards, dialogs and settings of the panel: the screen is the list the cards were last built from.
- Registers, interrupts and PHY access: the counter is time modulo 2^32, and a critical section is one step.
