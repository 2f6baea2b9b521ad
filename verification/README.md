# Slick verification models

Dafny models of the algorithmic core of the Slick middlebox controller and of the
tools that live in its tree, with proofs of what they keep and compute. `dafny verify
dfyconfig.toml` checks everything.

| file | what it models |
|---|---|
| `Common.dfy`, `LinkGraph.dfy` | notions shared by the models: options, sequences without repeats, blanks; connectedness over a list of links |
| `PathEngine.dfy` | walks over `adjacency`, the meaning of `path_map`, Floyd-Warshall relaxation, recursive path reconstruction |
| `L2Multi.dfy` | the `l2_multi_slick` state as a class: switches, adjacency, path cache, link events, path queries |
| `Steering.dfy`, `SteeringExact.dfy`, `PathInstaller.dfy`, `SteeringExamples.dfy` | pathlets through a middlebox chain, the packet journeys their rules produce, exactly when they arrive, `install_path`, and two chains with clashing hops |
| `Barriers.dfy` | release of delayed packets after OpenFlow barrier replies (section 5.3.7 of the OpenFlow Switch Specification 1.0.0) |
| `TrafficMatrix.dfy` | per-flow traffic matrices |
| `Reindent.dfy` | `reindent-pox.py`: the reindenting pass and its fixed point |
| `PosixPath.dfy`, `Scp.dfy` | `scp.py`: recursive put, the commands on the wire, and the receiver that interprets them |
| `Rendezvous.dfy` | `POXCore` component rendezvous with re-entrant callbacks |
| `Jellyfish.dfy`, `JellyfishBuilder.dfy`, `FatTree.dfy`, `TreeTopo.dfy` | the topology builders |
| `FlowTable.dfy`, `ControllerTables.dfy` | the controller's tables of element instances |
| `Destreamer.dfy` | `JSONDestreamer`: cutting messages out of a chunked stream |

Where the source updates objects step by step the model is a class whose methods carry
the loops of the source; each is proved against a function or a predicate on values, and
the lemmas are about those.

## How the state is represented

- A `Switch` is its datapath id. The nested default dictionaries `adjacency`, `path_map`
  and the traffic matrices are maps over pairs; an absent pair stands for the stored
  default `None`, which every reader modelled here treats alike.
- Dictionary and set iteration order is arbitrary: loops over them pick any remaining key.
- Random choices (`random.choice` in the Jellyfish builder) are input sequences of any
  length and content, so the results hold for every sequence of choices.
- Clock readings, RPC outcomes, discovery's link set, the tokenizer's statement table and
  the JSON decoder are parameters.

## Results that differ from what the code or its comments suggest

- Pathlets of one chain can overwrite each other's rules. Steering works exactly when hops
  with the same (switch, in-port) key agree on the way out, in both directions of travel, for
  every chain that does not end at a machine's place (`SteeringExact.SteeringDeliversIff`,
  `SteeringExact.ReverseSteeringDeliversIff`).
  `SteeringExamples.ClashSkipsMachines` gives two switches and two machines for which a later
  pathlet overwrites a rule of an earlier one and the packet skips both machines.
- A packet that comes back to a place goes on as it did the first time. A chain that uses one
  machine for two elements, next to each other or not, is therefore never steered, whatever the
  rules, unless the destination is a machine's place as well
  (`SteeringExact.TwiceNeverDelivered`, `SteeringExact.NeverDelivered`).
- `call_when_ready` takes an empty list, its default argument, for a single component that
  cannot be looked up: the call raises, the callback stays queued, and every later `register`
  raises, before a callback queued behind it is called although all it needs is registered. An
  empty tuple is never satisfied. Only a name, a set of names, or a list or tuple of at least one name can be
  (`Rendezvous.UsableIff`, `Rendezvous.EmptyArguments`, `Rendezvous.EmptyListBlocks`).
- The second Jellyfish loop may link two switches twice although the first one avoids it;
  `Jellyfish.SpliceDuplicatesIff` says exactly when,
  `JellyfishBuilder.FirstSpliceDuplicates` that the first splice does so whenever an end of its
  link is still listed, and `JellyfishBuilder.BuilderMayDuplicate` gives choices that do it.
- `switch_is_fully_connected` asks for links in both directions, which are never both made:
  it holds only for a switch that is alone on the list (`Jellyfish.FullyLinkedIffAlone`).
  Two switches with three or more ports each are therefore stuck after their only link and
  the builder never ends; for all other inputs some random choices end it
  (`JellyfishBuilder.StuckIffTwo`, `JellyfishBuilder.BuilderCanEndIff`).
- `get_elem_descs` returns every descriptor for an empty name, so the two queries by name
  agree exactly when the name is not empty or every live instance has the empty name
  (`ControllerTables.QueriesAgree`).
- Registering a machine a second time forgets what runs on it
  (`ControllerTables.MachineAgreesIff`).
- `remove_elem` leaves the machine table's entry behind when the remove message is not
  delivered; `ControllerTables.MacTableAgreesIff` says that otherwise
  the tables hold the same descriptors.
- `JSONDestreamer` delivers the same messages for any chunking if text that follows a message
  cannot change how it decodes. If such text can turn a message into an error or into another
  message, two chunkings deliver different messages (`Destreamer.UndeterminedDecoderDiffers`);
  a bare number at the top level of the stream is such a case.
- The fat tree uses all `k` ports of every switch exactly when `k` is even
  (`FatTree.PortsFilledIffEven`), and its dpids decode exactly when `k` is at most 255
  (`FatTree.TreeDecodesIff`).

## Model

| member | source | states |
|---|---|---|
| PathTable.RelaxStep | pox/ext/slick/l2_multi_slick.py:193-203 | one round of the triple loop through k keeps: every entry is the length of a real walk, no walk with interior in K + {k} beats the table, and every recorded intermediate is sound |
| PathTable.FinishedIsExact | pox/ext/slick/l2_multi_slick.py:178-203 | after all rounds an entry exists exactly for connected pairs, is the length of a shortest walk, and its intermediate is no endpoint and splits it into two shorter entries that add up |
| PathTable.RawPath | pox/ext/slick/l2_multi_slick.py:210-227 | reconstruction terminates with the stored distance as measure, gives None exactly when no walk exists, and otherwise distance minus one intermediates |
| PathTable.RawPathIsShortest | pox/ext/slick/l2_multi_slick.py:210-227 | the full path joins adjacent switches only, is a shortest walk, and repeats no switch |
| Graph.ShortestIsSimple | pox/ext/slick/l2_multi_slick.py:210-227 | a walk as long as the distance between its ends visits no switch twice |
| Graph.FirstAndLastMeeting | pox/ext/slick/l2_multi_slick.py:193-203 | a walk through K + {k} that leaves K splits at its first and last meeting with k into walks through K |
| L2Multi.LinkEventKeepsWiring | pox/ext/slick/l2_multi_slick.py:790-834 | any link event keeps adjacency symmetric, within known switches, and both ports of a connected pair the two ends of one link confirmed in both directions and not removed since |
| L2Multi.LinkEventMeans | pox/ext/slick/l2_multi_slick.py:806-830 | a removal cuts the pair in both directions, or joins it by a discovered two-way link if there is one; a new link whose reverse is known joins a pair that was not connected; no other pair changes |
| L2Multi.Replacement | pox/ext/slick/l2_multi_slick.py:815-823 | the link that replaces a removed one is discovered, joins the same switches, and exists in both directions; none is found only if there is none |
| L2Multi.Network.constructor | pox/ext/slick/l2_multi_slick.py:178-203 | the initial state satisfies the invariant |
| L2Multi.Network.ConnectionUp | pox/ext/slick/l2_multi_slick.py:853-861 | a new switch keeps the cache coherent although it is not cleared |
| L2Multi.Network.LinkEvent | pox/ext/slick/l2_multi_slick.py:790-834 | a removed link leaves no trace in adjacency unless a two-way link replaces it, a confirmed new one is there, every other pair is unchanged, and the cache is emptied; an unknown dpid changes nothing; the invariant (cache empty or exact, wiring symmetric and from links not removed) is kept |
| L2Multi.Network.SeedRow | pox/ext/slick/l2_multi_slick.py:185-191 | one switch's row holds its links at distance 1 and itself at 0 |
| L2Multi.Network.RelaxRow | pox/ext/slick/l2_multi_slick.py:195-203 | the inner loop relaxes one row in place and changes nothing else |
| L2Multi.Network.RelaxRound | pox/ext/slick/l2_multi_slick.py:193-203 | updating rows and columns in place equals relaxing every cell at once |
| L2Multi.Network.CalcPaths | pox/ext/slick/l2_multi_slick.py:178-203 | the table is exact for the current adjacency |
| L2Multi.Network.GetRawPath | pox/ext/slick/l2_multi_slick.py:210-227 | an empty cache is filled first, a filled one is used as it is; the answer is the reconstructed path |
| L2Multi.Network.Cooked | pox/ext/slick/l2_multi_slick.py:256-264 | for any walk the loop gives one hop per switch, each leaving and entering by the two ends of one adjacency, between the given first and final port |
| L2Multi.Network.CheckPath | pox/ext/slick/l2_multi_slick.py:230-242 | true exactly when consecutive hops are joined by the two ends of one adjacency |
| L2Multi.Network.GetPath | pox/ext/slick/l2_multi_slick.py:245-268 | None exactly when the switches are not connected; otherwise hops along a shortest walk without repeats, with real in and out ports, starting and ending on the given ports |
| Steering.GetPathlets | pox/ext/slick/routing/ShortestPathRouting.py:14-46 | one path answer per consecutive pair of source, machines, destination, all for the same adjacency |
| Steering.PathletKeysDistinct | pox/ext/slick/l2_multi_slick.py:245-268 | no two hops of one pathlet share a (switch, in-port) key |
| Steering.InForceIffNoClash | pox/ext/slick/l2_multi_slick.py:390-396 | every installed hop stays in force exactly when no two hops with one key disagree |
| Steering.InstalledInForce | pox/ext/slick/l2_multi_slick.py:390-396 | under each (switch, in-port) key the last installed hop is in force, and there are no other rules |
| Steering.AnswerCarries | pox/ext/slick/l2_multi_slick.py:245-268 | a pathlet between two different machine ports never sends a packet back out of the port it came in on |
| Steering.RunPathlet | pox/ext/slick/l2_multi_slick.py:390-396 | following a pathlet's rules over the wiring delivers the packet at its final port after as many steps as hops |
| Steering.RunChain | pox/ext/slick/routing/ShortestPathRouting.py:30-46 | a chain of pathlets whose rules are in force visits its machine ports in order |
| Steering.SteeringDelivers | pox/ext/slick/routing/ShortestPathRouting.py:30-46 | if no two hops clash, a packet entering at the source visits every middlebox in order and leaves at the destination, after as many steps as hops, whatever places repeat further apart |
| Steering.ReverseSteeringDelivers | pox/ext/slick/l2_multi_slick.py:605-610 | if the swapped hops do not clash, they carry traffic from destination to source through the same machines in reverse, whatever places repeat further apart |
| SteeringExact.OwnRules | pox/ext/slick/l2_multi_slick.py:390-396 | a packet on a pathlet that is next delivered at the pathlet's own end, where no other one ends, has found the rules of all the hops on the way in force |
| SteeringExact.DeliversIffEach | pox/ext/slick/l2_multi_slick.py:390-396 | whatever the rules and the chain, the chain is delivered exactly if each of its legs is |
| SteeringExact.NeverDelivered | pox/ext/slick/l2_multi_slick.py:665-677 | a chain that visits one place twice and goes on to different places is never delivered, whatever the rules |
| SteeringExact.TwiceNeverDelivered | pox/ext/slick/l2_multi_slick.py:665-677 | a chain that uses a machine or its source twice is never delivered, whatever the rules, unless its destination is a machine's place as well |
| SteeringExact.SteeringDeliversIff | pox/ext/slick/routing/ShortestPathRouting.py:30-46 | traffic visits every middlebox in order and leaves at the destination exactly when no two hops clash, for every chain whose destination is no machine's place, machines used twice included |
| SteeringExact.ReverseSteeringDeliversIff | pox/ext/slick/l2_multi_slick.py:605-610 | the swapped hops carry traffic back to the source exactly when they do not clash, for every chain whose source is no machine's place |
| PathInstaller.InstallPath | pox/ext/slick/l2_multi_slick.py:546-610 | pathlets are installed both ways until one is missing, which happens exactly if some consecutive pair is not connected, the last hop with a key being in force; otherwise traffic and answers visit every machine in order exactly if no two hops clash, where the place they end at is no machine's |
| SteeringExamples.ClashSkipsMachines | pox/ext/slick/l2_multi_slick.py:390-396 | a concrete chain with a clash for which the packet skips its machines |
| SteeringExamples.RevisitStillDelivers | pox/ext/slick/l2_multi_slick.py:390-396 | a concrete chain with a clash, whose destination is a machine's place as well, that visits every machine in order all the same |
| BarrierProtocol.SweepDropsExpired | pox/ext/slick/l2_multi_slick.py:321-331 | a sweep gives up exactly the live paths whose deadline has passed |
| BarrierProtocol.InstallKeepsSound | pox/ext/slick/l2_multi_slick.py:281-299 | installing a path, with the sweep of a crowded table, keeps the protocol invariant |
| BarrierProtocol.BarrierKeepsSound | pox/ext/slick/l2_multi_slick.py:304-319 | any barrier reply, unknown and duplicate ones included, keeps the protocol invariant |
| BarrierProtocol.RunKeepsSound | pox/ext/slick/l2_multi_slick.py:277-331 | the invariant holds after every sequence of installs, replies and sweeps |
| BarrierProtocol.StepSettles | pox/ext/slick/l2_multi_slick.py:281-331 | one event gives up a live path exactly if it sweeps past its deadline, and completes it exactly if it answers its last outstanding request |
| BarrierProtocol.RunExtends | pox/ext/slick/l2_multi_slick.py:281-299 | a run adds one path per install, with the held packet, the deadline and the requests of that install, and never changes those of older ones |
| BarrierProtocol.RunReplies | pox/ext/slick/l2_multi_slick.py:863-869 | the keys taken for answered are exactly those of the barrier replies of the run |
| BarrierProtocol.BarrierSafety | pox/ext/slick/l2_multi_slick.py:277-331 | in every interleaving path n is the one of the n-th install; a path completes at most once, never after being swept, and (unless swept) exactly when every request of its install was answered by a reply event; the table holds exactly the unanswered requests of live paths |
| Barriers.BarrierTable.ExpireWaitingPaths | pox/ext/slick/l2_multi_slick.py:321-331 | the object table after the sweep mirrors the swept protocol state |
| Barriers.BarrierTable.InstallPath | pox/ext/slick/l2_multi_slick.py:390-396 | the objects mirror the protocol state after an install step |
| Barriers.BarrierTable.HandleBarrierIn | pox/ext/slick/l2_multi_slick.py:863-869 | the objects mirror the reply step; a path completes exactly when the reply answers its last outstanding request, and its packet is released exactly if it holds one |
| TrafficMatrix.Bump | pox/ext/slick/l2_multi_slick.py:141-152 | every link the path crosses gains one, all others are unchanged |
| TrafficMatrix.Seed | pox/ext/slick/l2_multi_slick.py:153-162 | a new matrix holds one for every link of the path and nothing else |
| TrafficMatrix.Recorder.UpdateTm | pox/ext/slick/l2_multi_slick.py:131-162 | counts a packet exactly when it has a flow and a path with an intermediate switch; each matrix equals the number of counted packets of its flow that crossed each link |
| TrafficMatrix.PathBalance | pox/ext/slick/l2_multi_slick.py:131-162 | at every switch one path's links out and in balance up to its start and its end |
| TrafficMatrix.LogBalance | pox/ext/slick/l2_multi_slick.py:131-162 | over any run of counted packets, crossings out plus packets ended equal crossings in plus packets started |
| TrafficMatrix.Conservation | pox/ext/slick/l2_multi_slick.py:131-162 | in every reachable state a matrix's outgoing minus incoming counts at a switch equal packets started minus packets ended there |
| IndentText.RStripLine | pox/pox/tools/reindent-pox.py:140-151 | the backward scan strips exactly the trailing blanks, tabs and line ends |
| IndentText.GetLSpace | pox/pox/tools/reindent-pox.py:297-301 | the counting loop returns the number of leading blanks |
| IndentText.NormalizeCleans | pox/pox/tools/reindent-pox.py:155-174 | normalised lines are clean, and clean lines are exactly those that normalising leaves alone |
| IndentText.TabStops | pox/pox/tools/reindent-pox.py:165-166 | every character stands behind what its predecessors became: unchanged, or for a tab as one to eight blanks that end at a column divisible by eight |
| Reindent.ShiftKeepsText | pox/pox/tools/reindent-pox.py:228-242 | shifting a line changes leading blanks only, by exactly the wanted amount unless the line is blank or would start before column 0 |
| Reindent.PassIndents | pox/pox/tools/reindent-pox.py:185-243 | every real statement that was indented ends up at two spaces per level |
| Reindent.PassPlacesComments | pox/pox/tools/reindent-pox.py:194-221 | an indented comment ends at the column of the last earlier statement that was at its column; without one, at the next real statement's two spaces per level if that was at its column; else it moves as far as the last real statement before it, if there is one and there is room; else it stays |
| Reindent.PassMovesTogether | pox/pox/tools/reindent-pox.py:224-241 | every line of a statement keeps its distance from the first one, but never goes beyond column 0, and empty lines stay empty |
| Reindent.PassPlaces | pox/pox/tools/reindent-pox.py:185-242 | the three results above for the whole output; statements at column 0 and lines before the first statement stay |
| Reindent.PassKeepsText | pox/pox/tools/reindent-pox.py:176-243 | whatever the table, line k of the output has the text of line k of the program |
| Reindent.SettledIsFixed | pox/pox/tools/reindent-pox.py:185-243 | a pass over settled lines changes nothing, comment lines included, and maps every indentation to itself |
| Reindent.OutputIsSettled | pox/pox/tools/reindent-pox.py:176-243 | one run leaves settled lines |
| Reindent.Idempotent | pox/pox/tools/reindent-pox.py:28-30 | with the same statement table a second run reproduces the first one's output exactly |
| Reindent.UnchangedIffSettled | pox/pox/tools/reindent-pox.py:242-243 | a file is reported unchanged exactly when it is settled |
| Reindent.Reindenter.CommentIndent | pox/pox/tools/reindent-pox.py:194-221 | the dictionary lookup, the forward scan and the backward scan over the output so far give the target that `Reindent.PassPlacesComments` speaks of |
| Reindent.Reindenter.EmitSegment | pox/pox/tools/reindent-pox.py:224-241 | the emitted lines are the segment's lines shifted by the difference |
| Reindent.Reindenter.Run | pox/pox/tools/reindent-pox.py:176-243 | the loop computes the specified pass, every line stands where `Reindent.PassPlaces` says, and the result says whether the text changed |
| Reindent.RunTwice | pox/pox/tools/reindent-pox.py:28-30 | a second reindenter run on the output of a first one reports no change |
| Reindent.FileFixedPoint | pox/pox/tools/reindent-pox.py:28-30 | reading the written file back and reindenting it writes the same text |
| PosixPath.CommonIsParent | archive/scp.py/scp.py:148-165 | the directory of the character-level common prefix of two directories is their common parent |
| PosixPath.CommonDir | archive/scp.py/scp.py:148-165 | stepping from any directory below p to a child of p, the computed common directory is p |
| PosixPath.SplitUnder | archive/scp.py/scp.py:157-162 | one split step goes up exactly one component |
| PosixPath.SiblingsApart | archive/scp.py/scp.py:167-177 | subtrees of different children of a directory share no path |
| ScpText.ThreeFields | archive/scp.py/scp.py:245-262 | splitting a command line gives back the three fields it was made of |
| ScpText.DecimalRoundTrip | archive/scp.py/scp.py:125-146 | parsing a printed file size gives the size |
| ScpProtocol.WalkPreOrder | archive/scp.py/scp.py:167-177 | the walk visits directories in an order in which each next one is a child of an ancestor of the last |
| ScpProtocol.PopsClimb | archive/scp.py/scp.py:316-317 | n pop commands take the receiver n components up |
| ScpProtocol.EnterDir | archive/scp.py/scp.py:148-165 | the pops and the push sent between two visited directories take the receiver from the one to the other, creating it if needed |
| ScpProtocol.FileOutcome | archive/scp.py/scp.py:245-292 | after a file command the file holds what has come of its bytes, also when they are cut short or a failure is reported behind them; a directory of that name stays and the command fails |
| ScpProtocol.RecvFiles | archive/scp.py/scp.py:245-292 | the file commands of a directory store exactly its files |
| ScpProtocol.RecvDir | archive/scp.py/scp.py:214-232 | the commands of a directory's walk make the receiver hold exactly that tree besides what it had |
| ScpProtocol.RecvKeepsTree | archive/scp.py/scp.py:214-317 | whatever commands arrive and wherever they fail: every path lies in a directory, directories stay directories, and no path disappears |
| ScpProtocol.PutRoundTrip | archive/scp.py/scp.py:167-177 | the commands of a recursive put of one directory are turned back into the same tree of paths and contents |
| ScpClient.Sender.Chdir | archive/scp.py/scp.py:148-165 | the pop loop terminates and sends one pop per component above the target, then one push |
| ScpClient.Sender.SendData | archive/scp.py/scp.py:136-145 | the chunked sending loop sends the file's bytes and then the status byte |
| ScpClient.Sender.SendFiles | archive/scp.py/scp.py:125-146 | one command with its bytes per file, in order |
| ScpClient.Sender.SendRecursive | archive/scp.py/scp.py:167-177 | a recursive put sends the specified transcript |
| ScpClient.Receiver.RecvData | archive/scp.py/scp.py:264-282 | for any chunking of the channel exactly size bytes are read and the status byte is left |
| ScpClient.Receiver.RecvFileCmd | archive/scp.py/scp.py:245-292 | stores the bytes under the joined path, or reports the specified error and leaves what was written by then; too few bytes are reported as a reading loop that would not end |
| ScpClient.Receiver.RecvPushdCmd | archive/scp.py/scp.py:294-314 | enters the directory, creating it if absent, or reports the specified error and changes nothing |
| ScpClient.Receiver.RecvAllCmds | archive/scp.py/scp.py:214-232 | interprets commands until one fails or the channel closes; everything it has stays in a directory and no path disappears |
| ScpClient.Transfer | archive/scp.py/scp.py:53-86 | a sender and a receiver joined end to end reproduce the tree below the receive directory |
| Rendezvous.UsableIff | pox/pox/pox/core.py:402-416 | an argument makes an entry that some components satisfy exactly if it is a name, a set of names, or a list or tuple of at least one name |
| Rendezvous.EmptyArguments | pox/pox/pox/core.py:402-416 | an empty list raises whatever is registered, an empty tuple is never satisfied, an empty set is satisfied at once |
| Rendezvous.EmptyListBlocks | pox/pox/pox/core.py:402-477 | after a call with the default argument, a callback that waits behind it is not called although all it needs is registered |
| Rendezvous.NeverPoisoned | pox/pox/pox/core.py:437-477 | if every entry handed over names only what can be looked up, nothing raises |
| Rendezvous.POXCore.ProgramRegisters | pox/pox/pox/core.py:381-400 | a registration from outside a callback raises exactly if some waiter then does; otherwise it returns with nothing under way, every remaining waiter lacking a component, and everything before it unchanged in the order of events |
| Rendezvous.POXCore.ProgramWaits | pox/pox/pox/core.py:402-435 | the argument is normalised; the call raises exactly if looking the components up does; an entry that is satisfied is called, any other one waits; unless a waiter raises, nothing is under way afterwards and every waiter lacks a component |
| Rendezvous.POXCore.RegisterComponent | pox/pox/pox/core.py:381-400 | terminates for finite callbacks, raises exactly if a waiter then does, and otherwise leaves no satisfied waiter and loses none |
| Rendezvous.POXCore.AddWaiter | pox/pox/pox/core.py:417-435 | a new waiter is called at once if satisfied, and the call raises exactly if its components cannot be looked up; if nothing was satisfiable before, nothing is after, unless a waiter raises |
| Rendezvous.POXCore.TryWaiter | pox/pox/pox/core.py:437-465 | calls back exactly when the entry still waits and all its components are there, after taking it off the list; raises exactly when it still waits and they cannot be looked up; otherwise changes nothing |
| Rendezvous.POXCore.TryWaiters | pox/pox/pox/core.py:467-477 | terminates; raises exactly if a waiter then does, and otherwise every waiter lacks a component |
| Rendezvous.EachFiresOnce | pox/pox/pox/core.py:402-465 | in every run, every entry handed over has been called, is waiting or was not reached, as often as handed over, and in the order of events every call comes after the registration of each of its components; between the program's calls, unless a waiter raises, all were reached and each waiting one lacks a component |
| Rendezvous.OrderIndependence | pox/pox/pox/core.py:381-477 | two complete runs of the same operations in any order call the same callbacks, register the same components and leave the same entries waiting |
| Jellyfish.Handshake | mininet_scripts/topologies/jellyfish.py:154-159 | degrees sum to twice the links |
| Jellyfish.SpliceDegrees | mininet_scripts/topologies/jellyfish.py:218-225 | a splice adds one link, two to the spliced switch's degree, and preserves every other degree |
| Jellyfish.SpliceConnects | mininet_scripts/topologies/jellyfish.py:218-225 | a splice never disconnects connected switches |
| Jellyfish.SpliceDuplicatesIff | mininet_scripts/topologies/jellyfish.py:218-225 | a splice keeps links free of duplicates exactly when the switch was joined to neither end |
| Jellyfish.FullyLinkedIffAlone | mininet_scripts/topologies/jellyfish.py:180-186 | while no link is duplicated, a switch counts as fully connected exactly when no other switch is listed |
| Jellyfish.CountLinksWithSwitch | mininet_scripts/topologies/jellyfish.py:154-159 | the count is the switch's degree |
| Jellyfish.NotFullyConnected | mininet_scripts/topologies/jellyfish.py:118-126 | true exactly when some pair on the list is not linked |
| Jellyfish.SwitchIsFullyConnected | mininet_scripts/topologies/jellyfish.py:180-186 | true exactly when linked to every other listed switch in both directions |
| JellyfishBuilder.LinkSwitches | mininet_scripts/topologies/jellyfish.py:193-207 | for every sequence of choices: no self-links, no duplicates in either direction, no port limit exceeded; if the choices suffice, any two switches with a spare port each are linked |
| JellyfishBuilder.LinksCanEnd | mininet_scripts/topologies/jellyfish.py:193-207 | in every state of the first loop some choices end it |
| JellyfishBuilder.SpliceSwitches | mininet_scripts/topologies/jellyfish.py:211-227 | for every sequence of choices: the port limit and connectedness are kept, splices are at most half the total unused ports, the loop ends exactly when no listed switch wants a splice, and a stuck state never changes |
| JellyfishBuilder.PassCanSplice | mininet_scripts/topologies/jellyfish.py:211-227 | a pass can be given choices with which it splices, if some switch that wants a splice has a link to take the place of |
| JellyfishBuilder.NeverStuck | mininet_scripts/topologies/jellyfish.py:211-227 | with three switches or more, no state in which only full switches have left the list is stuck |
| JellyfishBuilder.StuckIffTwo | mininet_scripts/topologies/jellyfish.py:211-227 | where the first loop leaves more than one switch on the list, the second one is stuck exactly for two switches with three or more ports |
| JellyfishBuilder.CreateTopology | mininet_scripts/topologies/jellyfish.py:188-230 | both loops compute the specified run; no switch exceeds its ports and degrees sum to twice the links |
| JellyfishBuilder.BuilderCanEndIff | mininet_scripts/topologies/jellyfish.py:188-230 | some choices end the builder exactly when it is not given two switches with three or more ports each |
| JellyfishBuilder.FirstSpliceDuplicates | mininet_scripts/topologies/jellyfish.py:211-227 | the first splice duplicates a link whenever an end of the link it replaces is still listed |
| JellyfishBuilder.BuilderMayDuplicate | mininet_scripts/topologies/jellyfish.py:188-230 | choices for three switches with four ports each that link two switches twice |
| FatTree.DpidRoundTripIff | mininet_scripts/topologies/dctopo.py:238-264 | decoding undoes encoding exactly when every field is below 256 |
| FatTree.TreeDecodesIff | mininet_scripts/topologies/dctopo.py:238-264 | every node of the tree decodes from its dpid exactly when k is at most 255 |
| FatTree.DpidsDistinct | mininet_scripts/topologies/dctopo.py:238-264 | up to k = 255 no dpid is 0 and no two nodes share one |
| FatTree.PortMirrors | mininet_scripts/topologies/dctopo.py:365-421 | port(b, a) is port(a, b) with its halves exchanged, for any nodes and layers, the exception included |
| FatTree.PortsAreBijective | mininet_scripts/topologies/dctopo.py:365-421 | at every switch the port numbers map its neighbours one to one onto 1 .. degree |
| FatTree.DegreeCounts | mininet_scripts/topologies/dctopo.py:331-362 | every switch has exactly that many neighbours |
| FatTree.PortsFilledIffEven | mininet_scripts/topologies/dctopo.py:365-421 | every switch uses all ports 1 .. k exactly when k is even |
| FatTree.PortUpIffHigher | mininet_scripts/topologies/dctopo.py:118-124 | at edge and aggregation switches a port is up exactly when it leads one layer up |
| FatTree.LinkLayers | mininet_scripts/topologies/dctopo.py:331-362 | links join adjoining layers, and none is made in both directions |
| FatTree.Topo.constructor | mininet_scripts/topologies/dctopo.py:331-362 | the nested loops build exactly the nodes and links of the tree for any k, each link once, each node under one layer |
| FatTree.TreeSizes | mininet_scripts/topologies/dctopo.py:331-362 | for even k: k^3/4 hosts, k^2 edge and aggregation switches, (k/2)^2 cores |
| FatTree.LinkTotal | mininet_scripts/topologies/dctopo.py:331-362 | for even k: 3k^3/4 links |
| TreeTopo.SwitchCountClosed | mininet_scripts/topologies/topolib.py:79-92 | (fanout - 1) times the switches is fanout^depth - 1 |
| TreeTopo.Grafted | mininet_scripts/topologies/topolib.py:84-88 | hanging a finished tree below a node of another gives a tree: connected, one link fewer than nodes |
| TreeTopo.Topology.AddTree | mininet_scripts/topologies/topolib.py:79-92 | one call adds the stated numbers of switches and hosts and the links of a tree of them in which every switch has fanout children down to the leaf hosts |
| TreeTopo.Topology.AddHosts | mininet_scripts/topologies/topolib.py:94-98 | every switch gets one further host and the graph stays a tree |
| TreeTopo.Topology.constructor | mininet_scripts/topologies/topolib.py:66-77 | names are unique and consecutive, hosts number fanout^depth plus the switches, every switch has a host, and the whole is a tree |
| FlowTable.OverlapIff | pox/ext/slick/networkmaps.py:131-142 | two flowspaces overlap exactly when no field is fixed to different values |
| FlowTable.MatchesIff | pox/ext/slick/networkmaps.py:131-142 | a flowspace matches a flow exactly when the flow has its value in every field it fixes; each matches itself |
| FlowTable.FirstNamesOnce | pox/ext/slick/networkmaps.py:256-287 | the name list holds every installed name once |
| FlowTable.FirstNamesOrder | pox/ext/slick/networkmaps.py:256-287 | a name stands before another exactly as their first installations do |
| FlowTable.DeleteScanRemoves | pox/ext/slick/networkmaps.py:317-324 | deleting from the list being enumerated removes exactly the instance, because descriptors are unique |
| FlowTable.ReplicaSetsPartition | pox/ext/slick/networkmaps.py:435-449 | the replica sets together hold every instance's descriptor once |
| FlowTable.DescsOfPositions | pox/ext/slick/networkmaps.py:435-449 | a replica set lists the descriptors of all instances of its element in the order of their installation |
| FlowTable.ReplicaSetsDisjoint | pox/ext/slick/networkmaps.py:435-449 | two replica sets share no descriptor |
| FlowTable.FlowToElements.AddElement | pox/ext/slick/networkmaps.py:256-287 | the name list is the first-installation order of the history |
| FlowTable.FlowToElements.AddElementInstance | pox/ext/slick/networkmaps.py:289-315 | the instance is appended; the lists remain their history less what was removed exactly when the descriptor was neither removed before nor listed there |
| FlowTable.FlowToElements.RemoveElementInstance | pox/ext/slick/networkmaps.py:317-324 | exactly the instance leaves, from every flowspace |
| FlowTable.FlowToElements.Lookup | pox/ext/slick/networkmaps.py:394-410 | a matching flowspace is found exactly if there is one |
| FlowTable.FlowToElements.Get | pox/ext/slick/networkmaps.py:435-449 | the answer is the replica sets of matching flowspaces, empty if there is none; without overlaps they are those of the one flowspace the flow falls in, and of the flow itself if it is an installed flowspace |
| FlowTable.GetPartitions | pox/ext/slick/networkmaps.py:256-324 | in every reachable state: names in first-installation order, once each; instances in installation order; replica sets partition the live descriptors |
| Sequences.RemovedFirst | pox/ext/slick/networkmaps.py:67-75 | of several occurrences in a machine's list the first one goes |
| ControllerTables.ElementToMac.Remove | pox/ext/slick/networkmaps.py:67-75 | the first occurrence leaves the machine's list, and its absence is reported; an unknown machine gets an empty list |
| ControllerTables.ElementToMac.Get | pox/ext/slick/networkmaps.py:77-88 | a machine that lists the descriptor is found exactly if there is one |
| ControllerTables.ElementToApplication.Update | pox/ext/slick/networkmaps.py:523-527 | a descriptor already present keeps its record |
| ControllerTables.NetworkModel.AddPlacement | pox/ext/slick/NetworkModel.py:214-222 | both indexes gain the instance |
| ControllerTables.NetworkModel.RemovePlacement | pox/ext/slick/NetworkModel.py:224-229 | both indexes lose it |
| ControllerTables.NetworkModel.GetElementDescriptors | pox/ext/slick/NetworkModel.py:122-132 | exactly the descriptors in the name's bucket |
| ControllerTables.NetworkModel.GetElemDescs | pox/ext/slick/NetworkModel.py:312-321 | exactly the descriptors filed under the name, or all of them without a name or for an empty one, once each |
| ControllerTables.InstallAgrees | pox/ext/slick/slick_controller.py:376-391 | installing an instance keeps all tables in agreement |
| ControllerTables.RemoveAgrees | pox/ext/slick/slick_controller.py:439-452 | removing an instance keeps them in agreement, its machine entry being stale if the message was not delivered |
| ControllerTables.RemovalMeans | pox/ext/slick/slick_controller.py:439-452 | a removed instance alone stops being live, for good; the flow table, the application table and both placement indexes no longer mention it, and the machine table does exactly if its machine was not told |
| ControllerTables.InstallMeans | pox/ext/slick/slick_controller.py:376-391 | installing the first k elements of a chain makes exactly these live under the next k descriptors, with their own name, machine, flowspace and parameters |
| ControllerTables.Controller.GetUniqueElementDescriptor | pox/ext/slick/slick_controller.py:167-169 | an issued descriptor was never used before |
| ControllerTables.MachineAgreesIff | pox/ext/slick/networkmaps.py:60-65 | registering a machine keeps agreement exactly when it is new or its list was empty |
| ControllerTables.Controller.RegisterMachine | pox/ext/slick/slick_controller.py:216-218 | the machine's list is emptied; the tables agree afterwards exactly when nothing ran on it |
| ControllerTables.Controller.ApplyElem | pox/ext/slick/slick_controller.py:353-398 | a descriptor per element is issued; exactly the instances before the first undelivered message become live, each under its own descriptor, in every table |
| ControllerTables.Controller.RemoveElem | pox/ext/slick/slick_controller.py:439-452 | an unknown descriptor changes nothing; a live one leaves every table, its machine's entry only if the message was delivered, and no other instance is affected |
| ControllerTables.SameDescriptors | pox/ext/slick/slick_controller.py:353-398 | flow table, application table and both placement indexes always hold the same descriptors, all between 2 and the latest issued |
| ControllerTables.ExactlyOnce | pox/ext/slick/slick_controller.py:353-398 | a live descriptor stands at exactly one place of the flow table and one of the machine table |
| ControllerTables.MacTableAgreesIff | pox/ext/slick/slick_controller.py:439-447 | the machine table agrees with them exactly when every removal message was delivered |
| ControllerTables.QueriesAgree | pox/ext/slick/NetworkModel.py:312-321 | the two queries by name return the same descriptors exactly when the name is not empty or every live instance has the empty name |
| Destreamer.DrainThenAttach | pox/pox/tools/pox-log.py:61-72 | draining before more data arrives is the same as draining after it |
| Destreamer.LStripDrops | pox/pox/tools/pox-log.py:61-72 | exactly the leading blanks go |
| Destreamer.ChunkingDoesNotMatter | pox/pox/tools/pox-log.py:57-72 | any two chunkings of a text deliver the same messages and retain the same buffer |
| Destreamer.StreamDelivered | pox/pox/tools/pox-log.py:57-72 | messages written one behind the other with any blanks between them are delivered one by one, however the text is cut; undecodable text behind them is retained |
| Destreamer.UndeterminedDecoderDiffers | pox/pox/tools/pox-log.py:61-72 | if following text turns a message into an error or another message, two chunkings deliver different messages |
| Destreamer.JSONDestreamer.Push | pox/pox/tools/pox-log.py:61-72 | the loop delivers and retains what the specification says |

## Left out

- Sockets, pcap, SSH, sFlow, mininet start-up, plotting, JavaScript and `pox-pydoc.py`: I/O, user interface or wrappers over libraries that are not in the tree.
- `l2_multi_slick` packet handling: MAC learning and unlearning, flooding, hold-down after connection loss, and the deletion of flows on a link event; `LinkEvent` models the adjacency and the cache.
- Reads of `path_map` outside `_get_raw_path`: they insert default entries into an empty cache; the model has no such step.
- SteeringExact.SteeringDeliversIff: assumes one link per switch port and machines on ports without a link, which is physical wiring the controller does not check; where the destination is a machine's place as well, a clash may be harmless (`SteeringExamples.RevisitStillDelivers`), and only the sufficient half and the reduction to single legs (`SteeringExact.DeliversIffEach`) are stated.
- BarrierProtocol.BarrierSafety: assumes that transaction ids are new at each install, as the library's counter provides, and that a sweep reads the clock once; the listeners of `PathInstalled` are not modelled.
- Flow matrices are value records in a list, replaced rather than updated in place; the text dumps are not modelled.
- Reindent.Idempotent: takes the statement table of the second run to be that of the first; the tokenizer is not modelled, nor are backups and command-line options.
- ScpProtocol.PutRoundTrip: one base directory, names without blanks and slashes, no trailing slash on the base; file times, modes other than their parsing, confirmation bytes and symbolic links are not modelled, and a command arrives as one message.
- ScpClient.Receiver.RecvFileCmd: when the channel ends before all bytes of a file have come, the source's reading loop never ends; the model reports that as the failure `Endless`, the file holding the bytes that came.
- Rendezvous.OrderIndependence: is about runs in which no waiter that raises was met. Callbacks are finite trees of operations; one that raises of itself is one whose operations end there. Component names are strings. Events raised for listeners (`ComponentRegistered`) are not modelled.
- JellyfishBuilder.BuilderCanEndIff: says that some choices end the builder, not how likely they are; hosts and node identifiers are not modelled.
- Destreamer.UndeterminedDecoderDiffers: leaves out following text that changes only where a message ends.
- Destreamer.JSONDestreamer.Push: the callback only takes note of the message. One that raises ValueError would, in the source, be taken for an undecodable buffer and leave later messages waiting for the next push.
- Installing elements takes placement, file download and the shim's answers as inputs; MAC-to-IP entries, application objects and controller parameters are not modelled.
- FlowTable.FlowToElements.Get: with overlapping flowspaces the answer depends on dictionary order, so only its form is stated for them.
- Node options of the topologies (addresses, speeds, dpid strings, link bandwidth and delay): a node is a name and a layer.
- `get_updated_replicas`, `get_reverse_mb_locs`, `detect_loop`, `_create_element_copy` and `collect_garbage`: their evident purpose is not what the code does, so no property is stated.
- Placement by betweenness centrality and graph partitioning: library work.
