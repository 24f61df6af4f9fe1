# Verification of selected DarkflameServer components

A Dafny model of six components of the server, with the properties they are built for. Every value-level module
is a specification with its theorems; where the original changes objects in place, classes with the same fields
and loops are proved to compute that specification. `dafny verify dfyconfig.toml` checks everything.

* **Zone transfers** (`Ports`, `Instances`, `TransferLedger`, `TransferAnswers`, `InstanceService`, `InstancePorts`,
  `InstanceManager`, `ZoneInstanceManager`, `TransferSystem`, `TransferTargets`). The master's instances with their two
  queues, every packet that touches them, the timeout loop, and the servers that ask. Conservation of requests over
  whole runs, who gets a request and for how long, disjoint ports, and end-to-end faithfulness of the answers, also
  when server processes are replaced.
* **AMF3** (`AmfWire`, `AmfReferences`, `AmfBytes`, `AmfCodec`). The reader and the writer over a wire syntax in which
  entry order and string references are free (Adobe's AMF 3 specification, sections 1.3.1, 1.3.2 and 3.1 to 3.11). A
  tree is canonical if its integers are below 2^29, its lengths below 2^28, and its keys not empty.
* **Text** (`Unicode`, `UnicodeSyntax`, `Ldf`, `LdfGrammar`). UTF-8, UTF-16 and WTF-8 conversion, and the settings
  format printed and parsed with it: round trips, and what any bytes mean.
* **Teams** (`Teams`, `TeamInvariants`, `LocalTeams`, `TeamMembership`, `TeamEffects`, `TeamReplica`,
  `PlayerContainer`, `TeamManager`, `TeamFailures`). The chat server's teams, what every packet does to them, its
  broadcasts, and the copy that every world keeps.
* **Entities** (`NetworkIds`, `Ghosting`, `GhostSight`, `GhostManager`, `GridCells`, `GridContacts`, `PhysicsGrid`).
  Network ids, observer counts, who is shown what, and the physics grid with its contacts.
* **Pack checksum** (`Crc32`). `crc32b` against polynomial long division.

`Basics` holds the integer types and the notion of a list without repeats that they share.

Where the code and its documentation or evident intent differ, the model follows the code:

* `PushUTF16CodePoint` keeps eight of the ten high bits of a supplementary code point that section 2.1 of RFC 2781
  asks for, so conversion is exact below U+50000 only.
* `RedirectPendingRequests` copies pending affirmations without clearing them, and removing an instance that is
  not ready drops its pending requests. The ledger counts both.
* `GetFreePort` compares with the ports in use in order and can return a port in use when one lies below the base.
* `HandleTeamInviteResponse` does not look for another team of the player, `HandleTeamPromote` does not look for
  membership, and `AddMember` sends no broadcast when the newcomer or the leader is offline.
* The network id counter starts over after 65535; a count of 127 observers becomes zero when it is raised.
* Deleting an entity leaves its object id with the players that were shown it, and an entity that replaces another
  under its id becomes a candidate beside it.
* A response names the server by its address only, so the process that replaces another there can be handed its
  answers.
* Contacts are kept by object id, so movers that share one are told apart by none of the three lists.
* `HandleCell` compares with four of the eight neighbouring cells and only ever with static entities.
* `m_AffirmationTimeout` has no initial value in the original; the model starts it at zero, which the first frame
  sets it to for an instance without pending affirmations.

Inputs that come from elsewhere are parameters: configuration values, the zone table, positions, names already
resolved to player ids, and whether two shapes meet. Packets sent are entries of a list.

## Model

| member | source | states |
|---|---|---|
| `TransferLedger.NoRequestIsLost` | dMasterServer/InstanceManager.cpp:133-235 | Over every run in which only ready instances are removed, every accepted transfer request has been answered or is in a queue of a tracked instance. |
| `TransferLedger.Balance` | dMasterServer/InstanceManager.cpp:133-235 | Over every run, for each request with its zone: answered plus queued plus lost equals what was there before plus accepted plus copied by redirects. |
| `TransferLedger.StepBalance` | dMasterServer/MasterServer.cpp:387-523 | The same equation for one packet or frame, with what is copied and lost named exactly. |
| `TransferLedger.StepKeepsOrder` | dMasterServer/InstanceManager.cpp:149-190 | A ready instance never has pending requests and a not-ready one never has pending affirmations, whatever happens. |
| `TransferLedger.RemovalLosesWaiting` | dMasterServer/InstanceManager.cpp:133-147 | Removing an instance loses no request if and only if it has no pending requests; with some it is not ready. |
| `TransferLedger.UnreadyRemovalLosesRequest` | dMasterServer/InstanceManager.cpp:133-147 | A run of three packets in which an accepted request is neither answered nor queued any more. |
| `TransferLedger.ReadyRemovalsLoseNothing` | dMasterServer/InstanceManager.cpp:133-147 | No run that removes only ready instances loses a request. |
| `TransferLedger.AnswersWereAsked` | dMasterServer/InstanceManager.cpp:192-235 | What is answered or queued, after any number of redirects, was asked for with that zone and clone. |
| `TransferLedger.RedirectSparesSource` | dMasterServer/InstanceManager.cpp:220-264 | A redirect leaves the retired instance untouched, so the list being walked is not extended. |
| `TransferLedger.NothingDead` | dMasterServer/MasterServer.cpp:410-420 | The sweep for dead instances finds none between frames, since removal follows the flag at once. |
| `TransferAnswers.ReadyAnswersAll` | dMasterServer/InstanceManager.cpp:149-173 | When a world reports ready, the first instance in service with its ids is marked ready and has every waiting request answered in order, with its own map, instance id, clone and port; nothing else changes. |
| `TransferAnswers.AffirmAnswersOne` | dMasterServer/InstanceManager.cpp:192-218 | When a world confirms a transfer, the first waiting request of that id is answered so and waits no longer; nothing else changes. |
| `TransferAnswers.NewAnswersNameWorld` | dMasterServer/InstanceManager.cpp:149-218 | Whatever the event, each new answer is one of these two. |
| `TransferAnswers.AnswersNameTrackedWorlds` | dMasterServer/InstanceManager.cpp:149-218 | Over every run each answer names, by ids and port, a world that the master tracked, and that got ready or confirmed, when the answer was sent. |
| `InstanceService.RequestGoesWhereThereIsRoom` | dMasterServer/MasterServer.cpp:489-523 | A request goes to the first public instance of its zone and clone that is in service and below its soft cap, which is asked to confirm it if it is ready; nothing else changes. |
| `InstanceService.RequestStartsWorld` | dMasterServer/InstanceManager.cpp:32-72 | With room nowhere a world is started for it, with the next instance id, a free port and the caps of the zone table. |
| `InstanceService.NoRoomNoRequest` | dMasterServer/InstanceManager.cpp:247-262 | An instance at its soft cap, private or out of service never gets a request. |
| `InstanceService.FriendGoesBelowHardCap` | dMasterServer/InstanceManager.cpp:247-262 | A friend finds an instance below its hard cap, anybody else one below its soft cap. |
| `InstanceService.PlayersAreCounted` | dMasterServer/InstanceManager.cpp:103-121 | A player who comes or goes changes the count of the first instance in service with the ids by one, never below zero. |
| `InstanceService.ComingAndGoing` | dMasterServer/InstanceManager.cpp:103-121 | A player who comes and goes leaves everything as it was. |
| `InstanceService.FrameAges` | dMasterServer/MasterServer.cpp:386-408 | A frame counts an instance's unanswered confirmation, which a shut down instance before it may have sent it in that very frame, and shuts it down at the 900th. |
| `InstanceService.WaitsForConfirmation` | dMasterServer/MasterServer.cpp:386-408 | Through any number of frames short of the 900th a waiting instance stays as it is and keeps its requests. |
| `InstanceService.TimesOut` | dMasterServer/MasterServer.cpp:386-408 | With the 900th it is told to shut down, and every request that it was to confirm waits at another instance of the same zone and clone. |
| `InstanceService.FrameShutsDown` | dMasterServer/MasterServer.cpp:386-408 | A frame shuts an instance down if and only if it has waited for 899 frames and has something to confirm when its turn comes. |
| `InstanceService.IdleIsSpared` | dMasterServer/MasterServer.cpp:386-408 | So one with nothing to confirm when the frame begins is shut down only if it is sent a request in that frame after 899 frames of waiting. |
| `InstanceService.IdleIsShutDown` | dMasterServer/MasterServer.cpp:386-408 | Two worlds of one zone: one times out and hands its request to the other, idle one, which is shut down in the same frame. |
| `InstanceService.LostWorldIsErased` | dMasterServer/InstanceManager.cpp:133-147 | A world that disconnects is erased, the others stay in order, and all that it was to confirm waits at another one. |
| `InstanceService.UnknownWorldIsTracked` | dMasterServer/MasterServer.cpp:545-555 | A world that reports a port that no instance has is tracked at its address. |
| `InstanceService.KnownWorldGetsAddress` | dMasterServer/MasterServer.cpp:556-562 | A known one gets the address that it reports from. |
| `InstanceService.PrivateZoneIsStarted` | dMasterServer/InstanceManager.cpp:276-305 | A private instance is started for a password that none has. |
| `InstanceService.PrivateZoneIsShared` | dMasterServer/InstanceManager.cpp:276-281 | It is used again for the same password up to the first NUL. |
| `InstanceService.ShutdownIsNoted` | dMasterServer/MasterServer.cpp:787-800 | An instance that confirms its shutdown is out of service. |
| `Ports.FindFreePort` | dMasterServer/InstanceManager.cpp:84-101 | The search over the sorted ports in use computes the reference function. |
| `Ports.FreePortIsFree` | dMasterServer/InstanceManager.cpp:84-101 | The result is free if and only if no stray port lies below the least free lattice port, and is that port then. |
| `Ports.NewBlockIsDisjoint` | dMasterServer/InstanceManager.cpp:84-101 | With ports anywhere, the new three-port block overlaps none in use, if and only if besides no used port lies within two of that lattice port. |
| `Ports.LeastFreeExists` | dMasterServer/InstanceManager.cpp:84-101 | A least free port exists at most three times the number of instances above the base. |
| `Ports.LatticeIsKept` | dMasterServer/InstanceManager.cpp:84-101 | From distinct lattice ports the search gives the least free one and keeps them distinct lattice ports. |
| `Ports.LatticeBlocksAreDisjoint` | dMasterServer/InstanceManager.cpp:90-99 | Distinct lattice ports own disjoint three-port blocks. |
| `Ports.StrayPortsCollide` | dMasterServer/InstanceManager.cpp:84-101 | Off the lattice the search can return a port in use, or one whose block overlaps another. |
| `InstancePorts.StepKeepsPorts` | dMasterServer/MasterServer.cpp:525-584 | Every step keeps the ports distinct lattice ports if and only if it is not a world reporting a new port off the lattice. |
| `InstancePorts.BlocksStayDisjoint` | dMasterServer/InstanceManager.cpp:32-72 | Over every run with reported ports on the lattice the three-port blocks of all instances stay disjoint. |
| `InstanceManager.InstanceManager.FindInstance` | dMasterServer/InstanceManager.cpp:256-264 | The first public, live instance of the zone and clone with room, or none. |
| `InstanceManager.InstanceManager.FindInstanceById` | dMasterServer/InstanceManager.cpp:266-274 | The first public, live instance with this map and instance id, or none. |
| `InstanceManager.InstanceManager.GetInstanceBySysAddr` | dMasterServer/InstanceManager.cpp:237-245 | The first instance at the address, or none. |
| `InstanceManager.InstanceManager.FindPrivateInstance` | dMasterServer/InstanceManager.cpp:307-323 | Whether a private instance with this password exists. |
| `InstanceManager.InstanceManager.IsPortInUse` | dMasterServer/InstanceManager.cpp:74-82 | Whether some instance has the port. |
| `InstanceManager.InstanceManager.GetFreePort` | dMasterServer/InstanceManager.cpp:84-101 | Collects the ports and returns the free port of the reference function. |
| `InstanceManager.InstanceManager.GetInstance` | dMasterServer/InstanceManager.cpp:32-72 | Takes the abstract state to that of the reference function and returns the same instance. |
| `InstanceManager.InstanceManager.CreateInstance` | dMasterServer/InstanceManager.cpp:48-72 | The new instance, its port, id and caps, and the order to start its world. |
| `InstanceManager.InstanceManager.AddInstance` | dMasterServer/InstanceManager.cpp:127-131 | Appends the instance. |
| `InstanceManager.InstanceManager.ReadyInstance` | dMasterServer/InstanceManager.cpp:149-173 | Answers all pending requests in order, empties that queue and sets the flag. |
| `InstanceManager.InstanceManager.RequestAffirmation` | dMasterServer/InstanceManager.cpp:175-190 | Queues the request and asks the instance to confirm. |
| `InstanceManager.InstanceManager.AffirmTransfer` | dMasterServer/InstanceManager.cpp:192-218 | Answers and removes the first pending affirmation with the id, and nothing else. |
| `InstanceManager.InstanceManager.RedirectPendingRequests` | dMasterServer/InstanceManager.cpp:220-235 | Routes a copy of each pending affirmation as a new request, in order. |
| `InstanceManager.InstanceManager.RemoveInstance` | dMasterServer/InstanceManager.cpp:133-147 | Marks the instance, redirects, and erases it. |
| `InstanceManager.Instance.AddPlayer` | dMasterServer/InstanceManager.h:62 | One more client. |
| `InstanceManager.Instance.RemovePlayer` | dMasterServer/InstanceManager.h:63-68 | One client less, never below zero. |
| `InstanceManager.MasterServer.AgeInstances` | dMasterServer/MasterServer.cpp:387-408 | The timeout loop of a frame computes the reference function, although redirects append to the list. |
| `InstanceManager.MasterServer.RemoveDeadInstances` | dMasterServer/MasterServer.cpp:410-420 | The sweep computes the reference function, although removal shifts the list. |
| `InstanceManager.MasterServer.Frame` | dMasterServer/MasterServer.cpp:387-420 | One frame takes the abstract state where the reference function says. |
| `InstanceManager.MasterServer.HandleRequestZoneTransfer` | dMasterServer/MasterServer.cpp:489-523 | Routes the request to a ready or a starting instance. |
| `InstanceManager.MasterServer.HandlePrepZone` | dMasterServer/MasterServer.cpp:751-765 | Makes sure an instance of the zone exists. |
| `InstanceManager.MasterServer.HandleWorldReady` | dMasterServer/MasterServer.cpp:727-749 | Readies the instance with these ids, if it is tracked. |
| `InstanceManager.MasterServer.HandleAffirmResponse` | dMasterServer/MasterServer.cpp:767-785 | Affirms the transfer at the instance of the sender. |
| `InstanceManager.MasterServer.HandleDisconnect` | dMasterServer/MasterServer.cpp:427-457 | Removes the instance of the sender, if any. |
| `InstanceManager.MasterServer.HandleServerInfo` | dMasterServer/MasterServer.cpp:525-584 | Sets the address of a known world or starts tracking an unknown one. |
| `InstanceManager.MasterServer.HandlePlayerAdded` | dMasterServer/MasterServer.cpp:630-648 | One more client at that instance. |
| `InstanceManager.MasterServer.HandlePlayerRemoved` | dMasterServer/MasterServer.cpp:650-666 | One client less at that instance. |
| `InstanceManager.MasterServer.HandleCreatePrivateZone` | dMasterServer/MasterServer.cpp:668-690 | Starts a private instance for a new password, which ends at its first NUL. |
| `InstanceManager.MasterServer.HandleShutdownResponse` | dMasterServer/MasterServer.cpp:787-800 | Marks the instance of the sender as shutting down. |
| `InstanceManager.MasterServer.Handle` | dMasterServer/MasterServer.cpp:467-812 | Each packet and frame is the step of the state machine. |
| `ZoneInstanceManager.ZoneInstanceManager.RequestZoneTransfer` | dNet/ZoneInstanceManager.cpp:15-25 | Registers the callback under the next id, which it returns. |
| `ZoneInstanceManager.ZoneInstanceManager.HandleRequestZoneTransferResponse` | dNet/ZoneInstanceManager.cpp:27-57 | Runs and removes the first request with the id of the response, and no other. |
| `ZoneInstanceManager.CallbacksRunAtMostOnce` | dNet/ZoneInstanceManager.cpp:15-57 | For any order, loss or duplication of responses: callbacks run at most once, with their own id, and not while still registered. |
| `ZoneInstanceManager.OutstandingIdsAreDistinct` | dNet/ZoneInstanceManager.cpp:15-25 | Two outstanding requests share an id if and only if a multiple of 2^64 requests lies between them. |
| `ZoneInstanceManager.SmallIdsDetermineCallback` | dNet/ZoneInstanceManager.cpp:15-25 | Among the first 2^64 requests an id determines the request. |
| `TransferSystem.TransfersAreFaithful` | dMasterServer/InstanceManager.cpp:32-235 | In every reachable state of server processes, network and master together, processes replaced at their address included: all callbacks a process ran got what that very process asked for, if and only if no answer was delivered to it that answers requests of replaced processes only, under an id it was waiting for. |
| `TransferSystem.InvariantHolds` | dMasterServer/MasterServer.cpp:387-523 | The invariant behind it, for every state of every run. |
| `TransferSystem.HeardIsAsked` | dNet/ZoneInstanceManager.cpp:27-57 | The same for one delivery: the callback that runs asked for this answer, if and only if the answer is no such leftover. |
| `TransferSystem.FirstProcessIsFaithful` | dMasterServer/InstanceManager.cpp:32-235 | The first process at an address only ever gets its own answers; so does every process when none is replaced. |
| `TransferSystem.CallbacksRunOnce` | dNet/ZoneInstanceManager.cpp:27-57 | Leftovers or not, no process runs a callback twice. |
| `TransferSystem.RestartMisdirectsAnswer` | dMasterServer/InstanceManager.cpp:133-173 | A run of six events in which a replaced process asks for one zone and the new one, which asks for another, is sent to the first. |
| `TransferTargets.CallbacksLeadToTrackedWorlds` | dMasterServer/InstanceManager.cpp:149-218 | In every reachable state each callback was told the ids, and the port modulo 2^16, of a world that the master tracked, that had a request from its address, and that got ready or confirmed it. |
| `AmfReferences.ReferencesRoundTrip` | dCommon/AMFDeserialize.cpp:12-144 | For every entry order and every legal choice of references to earlier strings, an encoding followed by any bytes reads back as the tree and exactly those bytes, if and only if the tree is canonical. |
| `AmfReferences.ResolvedMeans` | dCommon/AMFDeserialize.cpp:103-119 | Spelling all references out changes what is read in nothing but the reader's table. |
| `AmfWire.RoundTrip` | dCommon/AMFDeserialize.cpp:12-144 | The same for what the writer sends, which spells every string out. |
| `AmfWire.ReadOfEmit` | dCommon/AMFDeserialize.cpp:12-144 | Reading the bytes of a wire tree gives its meaning under the string table, and the remaining bytes. |
| `AmfWire.SpellingMeans` | dCommon/AMFDeserialize.cpp:103-144 | A spelling of a canonical tree, in any entry order, means that tree. |
| `AmfWire.ReadIsCanonical` | dCommon/AMFDeserialize.cpp:12-152 | Whatever the bytes, what is read is a canonical tree. |
| `AmfWire.EncodingsArePrefixFree` | dCommon/AmfSerialize.cpp:8-54 | No encoding of a canonical tree is the beginning of an encoding of another. |
| `AmfWire.U29RoundTrip` | dCommon/AmfSerialize.cpp:56-91 | Every 32-bit number reads back modulo 2^29 and leaves the rest of the stream. |
| `AmfWire.U29Bounded` | dCommon/AMFDeserialize.cpp:81-101 | A number read is below 2^29. |
| `AmfWire.U29IsShortest` | dCommon/AmfSerialize.cpp:56-91 | Below 2^29 no other encoding of the number is as short as the one written. |
| `AmfBytes.MarkersMean` | dCommon/Amf3.h:11-15 | The bytes 0 to 3 stand for undefined, null, false and true. |
| `AmfBytes.OtherMarkersFail` | dCommon/AMFDeserialize.cpp:59-77 | The unused markers and the bytes beyond them fail, each in its way. |
| `AmfBytes.FourBytes` | dCommon/AMFDeserialize.cpp:81-101 | Three bytes with seven bits each and a fourth with eight, most significant first. |
| `AmfBytes.StringMeans` | dCommon/AMFDeserialize.cpp:103-119 | An odd number is twice the length of a string, which later ones can refer to unless it is empty. |
| `AmfBytes.ReferenceMeans` | dCommon/AMFDeserialize.cpp:103-119 | An even number is twice the position of an earlier string; there has to be one. |
| `AmfBytes.ArrayMeans` | dCommon/AMFDeserialize.cpp:127-144 | An array without keys: its size, the empty key, and so many elements. |
| `AmfBytes.OneKey` | dCommon/AMFDeserialize.cpp:127-144 | A key with its value, from the bytes. |
| `AmfBytes.LaterValue` | dCommon/AMFDeserialize.cpp:13-151 | What follows a value in the stream has no part in reading it. |
| `AmfBytes.CutIsNotRead` | dCommon/AMFDeserialize.cpp:13-151 | The bytes of a value that end too early, wherever they do, are no value. |
| `AmfCodec.AMFDeserialize.ReadU29` | dCommon/AMFDeserialize.cpp:81-101 | The loop over at most four bytes agrees with the specification in value, position and failure. |
| `AmfCodec.AMFDeserialize.ReadString` | dCommon/AMFDeserialize.cpp:103-119 | Inline and referenced strings, and the growing table. |
| `AmfCodec.AMFDeserialize.Read` | dCommon/AMFDeserialize.cpp:12-79 | Dispatch on the marker agrees with the specification. |
| `AmfCodec.AMFDeserialize.ReadAmfInteger` | dCommon/AMFDeserialize.cpp:150-152 | An integer value. |
| `AmfCodec.AMFDeserialize.ReadAmfDouble` | dCommon/AMFDeserialize.cpp:121-125 | Eight bytes, unchanged. |
| `AmfCodec.AMFDeserialize.ReadAmfArray` | dCommon/AMFDeserialize.cpp:127-144 | Size, associative part, dense part. |
| `AmfCodec.AMFDeserialize.ReadAssociative` | dCommon/AMFDeserialize.cpp:131-138 | Entries up to the empty key; a later entry for a key replaces the value. |
| `AmfCodec.AMFDeserialize.ReadDenseArray` | dCommon/AMFDeserialize.cpp:139-142 | The given number of values, in order. |
| `AmfCodec.WriteUInt29` | dCommon/AmfSerialize.cpp:56-91 | Appends the variable-length form, for every 32-bit number. |
| `AmfCodec.WriteFlagNumber` | dCommon/AmfSerialize.cpp:97-100 | Appends the number with its flag bit, modulo 2^32. |
| `AmfCodec.WriteAmfString` | dCommon/AmfSerialize.cpp:107-110 | Appends an inline string. |
| `AmfCodec.Write` | dCommon/AmfSerialize.cpp:8-54 | Appends a spelling of the value. |
| `AmfCodec.WriteArray` | dCommon/AmfSerialize.cpp:160-184 | Marker, size, both parts of an array. |
| `AmfCodec.WriteAssociative` | dCommon/AmfSerialize.cpp:164-175 | Appends every entry once, in whatever order the map is walked. |
| `AmfCodec.WriteDense` | dCommon/AmfSerialize.cpp:176-183 | Appends the dense part in order. |
| `AmfCodec.Transmit` | dCommon/AMFDeserialize.cpp:12-144 | Writing a tree and reading it back gives the tree and the bytes behind it, if and only if it is canonical. |
| `Unicode.DecodeEncode` | dCommon/GeneralUtils.cpp:53-196 | Decoding what was encoded folds every surrogate pair modulo 0x40000, for every 16-bit string. |
| `Unicode.Utf16RoundTrip` | dCommon/GeneralUtils.cpp:110-196 | A 16-bit string, ill-formed or not, survives if and only if its paired lead surrogates are below 0xD900. |
| `Unicode.Utf8RoundTrip` | dCommon/GeneralUtils.cpp:27-196 | A byte string survives if and only if it is WTF-8 with code points below U+50000 and no encoded pair. |
| `Unicode.WellFormedUtf8RoundTrip` | dCommon/GeneralUtils.cpp:53-196 | Well-formed UTF-8 by the syntax of section 4 of RFC 3629 survives if and only if all code points are below U+50000. |
| `UnicodeSyntax.EncodeIsInjective` | dCommon/GeneralUtils.cpp:172-196 | No two 16-bit strings have one encoding, so all that is lost is lost in decoding. |
| `UnicodeSyntax.PairIsEncoded` | dCommon/GeneralUtils.cpp:172-196 | A surrogate pair is encoded as its code point by section 2.1 of RFC 2781, with all of its bits. |
| `UnicodeSyntax.UnitIsEncoded` | dCommon/GeneralUtils.cpp:27-51 | Any other unit is encoded as itself, in the shortest form of section 3 of RFC 3629. |
| `UnicodeSyntax.FormIsDecoded` | dCommon/GeneralUtils.cpp:53-155 | A UTF-8 form, longer than needed or not, is decoded as its number: as one unit, as a pair with the low eight of ten high bits, or as U+FFFD beyond U+10FFFF. |
| `UnicodeSyntax.OtherByteIsReplaced` | dCommon/GeneralUtils.cpp:53-108 | A byte with which no form starts becomes U+FFFD, and decoding goes on with the next. |
| `Unicode.Utf8ToUtf16` | dCommon/GeneralUtils.cpp:144-153 | Terminates on all bytes; the output is the longest whole number of code points that fits. |
| `Unicode.Utf16ToWtf8` | dCommon/GeneralUtils.cpp:172-196 | The loop computes the encoding of the units looked at. |
| `Unicode.PushUtf16CodePoint` | dCommon/GeneralUtils.cpp:110-142 | Appends one or two units if they fit, and reports whether it did. |
| `Ldf.RoundTrip` | dCommon/LDFFormat.cpp:20-172 | Printing and parsing an entry gives it back if and only if its key is ASCII without NUL and '=' and its value has no NUL or folded pair. |
| `Ldf.ValueRoundTrip` | dCommon/LDFFormat.cpp:62-172 | The same for the value under its type number, integers and booleans unconditionally. |
| `Ldf.PrintedNumberParses` | dCommon/GeneralUtils.h:161-171 | The decimal form of a number in range parses to the number. |
| `Ldf.TryParse` | dCommon/GeneralUtils.h:161-171 | The trimming loop, then all of the rest has to be a number in range. |
| `Ldf.ParsedKey` | dCommon/LDFFormat.cpp:20-60 | The key of whatever is parsed is what stands before the first '='. |
| `Ldf.SplitKeyIsLost` | dCommon/LDFFormat.cpp:20-60 | An entry with '=' in its key never comes back. |
| `LdfGrammar.SettingIsSplit` | dCommon/LDFFormat.cpp:20-44 | Of any text with '=' and a later ':', the key is what stands before the first '=', the tag what stands before the next ':', and only the tags 0 and 13 allow for no value. |
| `LdfGrammar.OthersAreNull` | dCommon/LDFFormat.cpp:20-44 | Any other text is no setting. |
| `LdfGrammar.ParseIntMeans` | dCommon/GeneralUtils.h:161-171 | What the integer parser reads: white space, a minus sign for signed types, and decimal digits, in range; and nothing else. |
| `LdfGrammar.TagMeans` | dCommon/LDFFormat.cpp:46-53 | A tag is the number it begins with, after white space and a sign. |
| `LdfGrammar.BoolSetting` | dCommon/LDFFormat.cpp:115-133 | Tag 7 is true for `true` and for 1 to 255, false for `false` and for 0, and fails for anything else. |
| `LdfGrammar.U32Setting` | dCommon/LDFFormat.cpp:94-113 | Tag 5 is 1 for `true`, 0 for `false`, or a 32-bit numeral without sign. |
| `LdfGrammar.S32Setting` | dCommon/LDFFormat.cpp:63-72 | Tag 1 is a signed 32-bit numeral. |
| `LdfGrammar.U64Setting` | dCommon/LDFFormat.cpp:135-143 | Tag 8 is a 64-bit numeral without sign. |
| `LdfGrammar.ObjIdSetting` | dCommon/LDFFormat.cpp:145-153 | Tag 9 is a signed 64-bit numeral. |
| `LdfGrammar.Utf16Setting` | dCommon/LDFFormat.cpp:57-61 | Tag 0 is any text, converted to UTF-16. |
| `LdfGrammar.Utf8Setting` | dCommon/LDFFormat.cpp:155-159 | Tag 13 is the text up to its first NUL. |
| `LdfGrammar.UnknownTag` | dCommon/LDFFormat.cpp:161-171 | Any other tag but those of floating-point numbers fails. |
| `LdfGrammar.PartsOfString` | dCommon/LDFFormat.h:134-156 | The key with '=' and the tag with ':' are in front of the value exactly when asked for. |
| `Ldf.WidenAscii` | dCommon/GeneralUtils.cpp:156-168 | One unit per byte up to the size. |
| `Crc32.Crc32b` | dCommon/dClient/AssetManager.cpp:163-178 | The two nested loops compute the specification. |
| `Crc32.MaskSelectsGenerator` | dCommon/dClient/AssetManager.cpp:168-174 | The all-ones mask does what a branch on the top bit would. |
| `Crc32.GeneratorIsDivisor` | dCommon/dClient/AssetManager.cpp:174 | The constant of the source has exactly the terms of the generator of clause 3.2.9 of IEEE 802.3. |
| `Crc32.CrcIsRemainder` | dCommon/dClient/AssetManager.cpp:163-178 | The checksum is the remainder of long division of the message, shifted by 32, plus the shifted base, by the generator of clause 3.2.9 of IEEE 802.3. |
| `Crc32.RemainderIsLinear` | dCommon/dClient/AssetManager.cpp:163-178 | Remainders add up over GF(2). |
| `Crc32.BurstHasRemainder` | dCommon/dClient/AssetManager.cpp:163-178 | The generator divides no non-zero polynomial confined to 32 places. |
| `Crc32.BurstIsDetected` | dCommon/dClient/AssetManager.cpp:163-178 | Different messages of one length that agree outside a window of 32 bits get different checksums from any base. |
| `Crc32.ChainedCallsConcatenate` | dCommon/dClient/AssetManager.cpp:132-133 | A second call on the result of the first checks the concatenation. |
| `Crc32.FourByteDifferenceChangesPackName` | dCommon/dClient/AssetManager.cpp:132-133 | Equally long paths that differ only within four consecutive bytes name different pack entries. |
| `TeamReplica.CopyIsExact` | dGame/TeamManager.cpp:37-65 | Over every run, a world that has received everything shows exactly the teams of two or more, in member order and with the loot flag, if and only if no team is stale. |
| `TeamReplica.CopyAgreesUnlessStale` | dChatServer/PlayerContainer.cpp:210-256 | The same team by team: stale are the teams joined while the newcomer or the leader was offline and not announced since. |
| `TeamReplica.CopyIsExactWhenJoinsAreSeen` | dChatServer/PlayerContainer.cpp:210-371 | The copy is exact in every run in which newcomer and leader are online at each join. |
| `TeamReplica.StepFollows` | dChatServer/ChatPacketHandler.cpp:539-756 | The invariant between teams, broadcasts and staleness survives every packet. |
| `TeamReplica.TeamServerLeads` | dChatServer/PlayerContainer.cpp:118-184 | Assembling a team settles every team it touches, whoever is online. |
| `LocalTeams.TeamServerMeans` | dChatServer/PlayerContainer.cpp:158-184 | From teams without common members: the new team is the first four ids in order; the others are what leaving at once would make of them, in order, disbanding the touched ones left with at most one. |
| `LocalTeams.StepKeepsApart` | dChatServer/PlayerContainer.cpp:210-256 | Every packet keeps teams without common members, if and only if it is not an acceptance by somebody who is in another team. |
| `LocalTeams.RunKeepsApart` | dChatServer/ChatPacketHandler.cpp:579-610 | Over every run without such an acceptance nobody is in two teams. |
| `TeamInvariants.RunKeepsWellFormed` | dChatServer/PlayerContainer.cpp:186-329 | Over every run: team ids ascend below the counter, teams have one to four members, without repeats. |
| `TeamInvariants.StepKeepsWellFormed` | dChatServer/ChatPacketHandler.cpp:539-756 | The same for one packet. |
| `TeamInvariants.StepKeepsLeaders` | dChatServer/ChatPacketHandler.cpp:662-685 | Leaders stay members, if and only if the packet does not promote somebody from outside the team. |
| `TeamInvariants.RunKeepsLeaders` | dChatServer/ChatPacketHandler.cpp:662-685 | The same over every run without such a promotion. |
| `TeamMembership.TakenOutByTheEntitled` | dChatServer/ChatPacketHandler.cpp:612-756 | Nobody is taken out of a team but by leaving, by its leader, by a status request from another zone or in a team of one, by being listed when a world assembles a team, or because such a packet takes out all others. |
| `TeamMembership.BroughtInByConsent` | dChatServer/ChatPacketHandler.cpp:539-610 | Nobody is brought into a team but by an own packet or by being listed when a world assembles one. |
| `TeamEffects.KickMeans` | dChatServer/ChatPacketHandler.cpp:628-660 | A leader takes any other member out: the others stay in order, a team of fewer than two is dissolved, and the worlds are told both. |
| `TeamEffects.OthersKickNobody` | dChatServer/ChatPacketHandler.cpp:628-660 | Somebody who does not lead the own team takes nobody out, and neither does a leader who names the leader, nobody or a stranger. |
| `TeamEffects.LeaveMeans` | dChatServer/ChatPacketHandler.cpp:612-626 | A player who leaves is taken out in the same way, and the first who stays leads if the leader left. |
| `TeamEffects.StatusRequestElsewhereMeans` | dChatServer/ChatPacketHandler.cpp:716-722 | So is one who asks for the status of a local team from another map and clone. |
| `TeamEffects.LeftMeans` | dChatServer/PlayerContainer.cpp:258-294 | Who was taken out is no member of the team; everybody else is if there are two or more, and otherwise the team is gone. |
| `TeamEffects.KickedIsOut` | dChatServer/ChatPacketHandler.cpp:628-660 | Over every run after being kicked a player is not in the team until an own packet or a list brings the player into one. |
| `TeamEffects.LeaverIsOut` | dChatServer/ChatPacketHandler.cpp:612-626 | The same after leaving. |
| `TeamEffects.StatusRequestAnnounces` | dChatServer/ChatPacketHandler.cpp:724-755 | Otherwise the team is announced, twice if its leader is online, and stays as it is. |
| `TeamEffects.StatusRequestDissolves` | dChatServer/ChatPacketHandler.cpp:724-728 | A player alone in a team that no world has put together dissolves it. |
| `TeamEffects.PromotionMeans` | dChatServer/ChatPacketHandler.cpp:662-685 | After the leader promotes somebody online, that player leads, and nothing else changes; anybody else promotes nobody. |
| `TeamEffects.LootOptionMeans` | dChatServer/ChatPacketHandler.cpp:687-708 | After the leader chooses, the loot flag is the choice and is announced; anybody else chooses nothing. |
| `TeamEffects.InvitationFounds` | dChatServer/ChatPacketHandler.cpp:539-576 | An online player without a team who invites somebody gets one with the next id, alone in it and leading it, which is broadcast. |
| `TeamEffects.AcceptanceMeans` | dChatServer/ChatPacketHandler.cpp:579-610 | Who accepts becomes the last member of the leader's team if it has fewer than four, which is broadcast if both are online. |
| `TeamEffects.OtherResponsesDoNothing` | dChatServer/ChatPacketHandler.cpp:579-610 | Declining, or accepting where the leader has no team, changes nothing. |
| `TeamEffects.TeamlessDoNothing` | dChatServer/ChatPacketHandler.cpp:612-756 | Players without a team can neither leave, kick, promote, choose nor ask for anything. |
| `LocalTeams.TeamServerAnnounces` | dChatServer/PlayerContainer.cpp:118-184 | The worlds are told of the assembled team last, with its loot shared freely, and once more before if its leader is online. |
| `TeamFailures.SecondTeamIsJoined` | dChatServer/ChatPacketHandler.cpp:579-610 | A run after which a player is in two teams. |
| `TeamFailures.OutsiderLeads` | dChatServer/ChatPacketHandler.cpp:662-685 | A run after which a team is led by somebody who is not in it. |
| `TeamFailures.OfflineJoinLeavesCopyBehind` | dChatServer/PlayerContainer.cpp:224-228 | A run after which the worlds know nothing of a team of two. |
| `PlayerContainer.PlayerContainer.GetTeam` | dChatServer/PlayerContainer.cpp:200-208 | The first team with the member. |
| `PlayerContainer.PlayerContainer.AddMember` | dChatServer/PlayerContainer.cpp:210-256 | Four at most, no repeats, and a broadcast only if leader and newcomer are online. |
| `PlayerContainer.PlayerContainer.CreateTeam` | dChatServer/PlayerContainer.cpp:186-198 | A new team with the next id and its leader as member. |
| `PlayerContainer.PlayerContainer.PromoteMember` | dChatServer/PlayerContainer.cpp:296-306 | The new leader, member or not. |
| `PlayerContainer.PlayerContainer.DisbandTeam` | dChatServer/PlayerContainer.cpp:308-329 | The team is gone and its deletion broadcast. |
| `PlayerContainer.PlayerContainer.RemoveMember` | dChatServer/PlayerContainer.cpp:258-294 | Erasure, broadcast, and then dissolution or a new leader. |
| `PlayerContainer.PlayerContainer.TeamStatusUpdate` | dChatServer/PlayerContainer.cpp:331-353 | A broadcast if the leader is online. |
| `PlayerContainer.PlayerContainer.UpdateTeamsOnWorld` | dChatServer/PlayerContainer.cpp:355-371 | The broadcast itself. |
| `PlayerContainer.PlayerContainer.CreateLocalTeam` | dChatServer/PlayerContainer.cpp:158-184 | The loop over the list, removing from old teams on the way. |
| `PlayerContainer.PlayerContainer.InsertPlayer` | dChatServer/PlayerContainer.cpp:27-57 | The player is online in the zone; id zero never is. |
| `PlayerContainer.PlayerContainer.RemovePlayer` | dChatServer/PlayerContainer.cpp:59-96 | The player is offline; the team is unchanged. |
| `PlayerContainer.PlayerContainer.CreateTeamServer` | dChatServer/PlayerContainer.cpp:118-146 | Assembles the team, sets its zone and announces it. |
| `PlayerContainer.PlayerContainer.HandleTeamInvite` | dChatServer/ChatPacketHandler.cpp:539-576 | Founds a team for an online player without one. |
| `PlayerContainer.PlayerContainer.HandleTeamInviteResponse` | dChatServer/ChatPacketHandler.cpp:579-610 | Joins the leader's team or, failing that, the player's. |
| `PlayerContainer.PlayerContainer.HandleTeamLeave` | dChatServer/ChatPacketHandler.cpp:612-626 | Leaves the first team with the player. |
| `PlayerContainer.PlayerContainer.HandleTeamKick` | dChatServer/ChatPacketHandler.cpp:628-660 | Only by the leader, never the leader. |
| `PlayerContainer.PlayerContainer.HandleTeamPromote` | dChatServer/ChatPacketHandler.cpp:662-685 | Only by the leader. |
| `PlayerContainer.PlayerContainer.HandleTeamLootOption` | dChatServer/ChatPacketHandler.cpp:687-708 | Only by the leader; announced in any case. |
| `PlayerContainer.PlayerContainer.HandleTeamStatusRequest` | dChatServer/ChatPacketHandler.cpp:710-756 | Leaves from another zone, dissolves a team of one, or announces. |
| `TeamManager.TeamManager.GetTeam` | dGame/TeamManager.cpp:15-25 | A team with the member, if and only if there is one. |
| `TeamManager.TeamManager.UpdateTeam` | dGame/TeamManager.cpp:37-55 | Ignores unknown teams of one; keeps the turn of known teams. |
| `TeamManager.TeamManager.DeleteTeam` | dGame/TeamManager.cpp:57-65 | The team is gone, the others stay. |
| `TeamManager.TeamManager.GetNextLootOwner` | dGame/TeamManager.cpp:27-35 | The next member in turn. |
| `TeamManager.TeamManager.HandleChat` | dWorldServer/WorldServer.cpp:622-655 | A world's copy takes each broadcast as the specification says. |
| `TeamManager.OnceAround` | dGame/TeamManager.cpp:27-35 | As many pieces of loot as there are members go once around, in order, wherever the turn stood. |
| `NetworkIds.StepKeepsUnique` | dGame/EntityManager.cpp:323-340 | Ids in use stay distinct and off the free stack, which has no repeats, if and only if the counter is not asked for an id and arrives at one in use. |
| `NetworkIds.RunKeepsUnique` | dGame/EntityManager.cpp:323-340 | Ids are unique over every run in which the counter never arrives at one in use. |
| `NetworkIds.StepKeepsTight` | dGame/EntityManager.cpp:148-240 | Ids in use and free ids stay exactly 1 to the counter, if and only if the counter does not start over with ids in use and no entity with an id is replaced under its object id. |
| `NetworkIds.RunKeepsTight` | dGame/EntityManager.cpp:148-340 | The same over every run without these two. |
| `NetworkIds.StartingOverCollides` | dGame/EntityManager.cpp:329-340 | With all ids in use, the next two entities get no id and an id that is taken. |
| `NetworkIds.IdsRunOut` | dGame/EntityManager.cpp:329-340 | For every number of entities below 65536 a run after which their ids are 1 up to it and the counter is there. |
| `NetworkIds.LastSharesIdOfFirst` | dGame/EntityManager.cpp:329-340 | A run of 65537 entities after which the last has the id of the first. |
| `NetworkIds.DeletionMeans` | dGame/EntityManager.cpp:217-239 | Exactly the listed entities are gone, the others keep their ids, the ids of those gone are given back in the order of the list, and the list is empty. |
| `NetworkIds.DestroyedIsGone` | dGame/EntityManager.cpp:148-239 | At the end of any run, an entity that is destroyed is not registered after the next deletion. |
| `NetworkIds.ListingMeans` | dGame/EntityManager.cpp:148-166 | Destroying lists a registered entity, scheduling any, once, and nothing else changes. |
| `NetworkIds.LastGivenBackIsNext` | dGame/EntityManager.cpp:230-340 | The entity constructed next gets the id of the entity deleted last. |
| `NetworkIds.ConstructionMeans` | dGame/EntityManager.cpp:323-340 | With nothing given back the counter supplies the next id, modulo 2^16; an entity that has one keeps it. |
| `NetworkIds.EntityManager.CreateEntity` | dGame/EntityManager.cpp:125-131 | Registers an entity without an id. |
| `NetworkIds.EntityManager.ConstructEntity` | dGame/EntityManager.cpp:329-340 | Takes the last id given back or the next one of the counter. |
| `NetworkIds.EntityManager.Schedule` | dGame/EntityManager.cpp:589-593 | Lists the object id once. |
| `NetworkIds.EntityManager.DestroyEntity` | dGame/EntityManager.cpp:148-166 | Lists a registered entity for deletion. |
| `NetworkIds.EntityManager.DeleteScheduled` | dGame/EntityManager.cpp:217-239 | Deletes all that are listed and gives their ids back. |
| `Ghosting.StepKeepsCounted` | dGame/EntityManager.cpp:468-556 | With at most 127 players, candidates keep distinct ids and counts equal to the number of players shown them after every step, if and only if the step is not an entity becoming a candidate under an id that a player remembers or another candidate has. |
| `Ghosting.CandidateComesCounts` | dGame/EntityManager.cpp:342-345 | A new candidate leaves the counts right if and only if no player has its id among those shown, and the ids distinct if and only if no candidate has its id. |
| `Ghosting.UpdateCounts` | dGame/EntityManager.cpp:468-521 | Without that bound, a player's update keeps the counts right if and only if no count of 127 is raised. |
| `Ghosting.CheckCounts` | dGame/EntityManager.cpp:523-556 | During an entity's check the counts stay right from player to player, if and only if at no moment more than 127 players are shown it. |
| `Ghosting.SmallCrowdCounts` | dGame/EntityManager.cpp:523-556 | So with at most 127 players the check keeps the counts right. |
| `Ghosting.RunKeepsCounted` | dGame/EntityManager.cpp:468-556 | The counts are right over every run without such an arrival. |
| `Ghosting.RememberedIdMiscounts` | dGame/EntityManager.cpp:217-239 | A run in which an entity comes back under its id and is shown to a player it does not count. |
| `Ghosting.ListedIdMiscounts` | dGame/EntityManager.cpp:342-345 | A run in which two candidates have one id and only one of them counts the player. |
| `Ghosting.CrowdOverflows` | dGame/EntityManager.cpp:523-556 | A run in which an entity that 128 players are shown counts none. |
| `Ghosting.UpdatingTwice` | dGame/EntityManager.cpp:468-521 | A second update with nothing moved changes nothing, if and only if no candidate is both too far to stay shown and near enough to be shown, overrides and collected ones aside. |
| `Ghosting.NoFlickering` | dGame/EntityManager.cpp:468-521 | So never when the distance for hiding is at least the one for showing. |
| `Ghosting.UpdateFirstMeans` | dGame/EntityManager.cpp:480-520 | Each candidate is dealt with as it and the player were when the update began. |
| `GhostSight.UpdateShows` | dGame/EntityManager.cpp:468-521 | After an update a player is shown, of what it was shown, what is no farther than the hiding distance or anything if its view is overridden, and of the rest what is nearer than the showing distance and not collected. |
| `GhostSight.MovedPlayerIsJudged` | dGame/dComponents/GhostComponent.h:18 | A player is judged from where it has moved to, or from the point that overrides it. |
| `GhostSight.CheckShows` | dGame/EntityManager.cpp:523-556 | After an entity's check exactly those players are shown it who are near enough, overridden and collected or not. |
| `GhostSight.MovedCandidateIsJudged` | dGame/EntityManager.cpp:523-556 | An entity is judged from where it has moved to. |
| `GhostSight.CollectedIsNotShown` | dGame/EntityManager.cpp:501-512 | What a player has collected is not shown to it any more by an update. |
| `GhostSight.DistanceMeans` | dCommon/NiPoint3.inl:164-170 | Distance by Pythagoras, every axis counting alike. |
| `GhostSight.NoDistance` | dCommon/NiPoint3.inl:164-170 | Only the point itself is at no distance. |
| `GhostSight.GoingMeans` | dGame/dComponents/GhostComponent.cpp:9-18 | A player who goes takes one off the count of everything it was shown, and nothing else changes. |
| `Ghosting.GoingCounts` | dGame/dComponents/GhostComponent.cpp:9-18 | When a player goes and its ghost component is destroyed, the counts stay right. |
| `GhostManager.EntityManager.UpdateGhosting` | dGame/EntityManager.cpp:468-521 | The loop over candidates computes the reference function. |
| `GhostManager.EntityManager.UpdateOne` | dGame/EntityManager.cpp:480-519 | One candidate: the verdict is carried out. |
| `GhostManager.EntityManager.CheckGhosting` | dGame/EntityManager.cpp:523-556 | The loop over players computes the reference function. |
| `GhostManager.EntityManager.GetGhostCandidate` | dGame/EntityManager.cpp:558-566 | The first candidate with the id. |
| `GhostManager.EntityManager.AddCandidate` | dGame/EntityManager.cpp:342-345 | Appends an entity that is not listed, whatever its id; a listed one changes nothing. |
| `GhostManager.EntityManager.RemoveCandidate` | dGame/EntityManager.cpp:224-232 | Erases the candidate; players keep the id. |
| `GhostManager.EntityManager.RemovePlayer` | dGame/dComponents/GhostComponent.cpp:9-18 | The count of the first candidate of every id that the player was shown goes down by one. |
| `GhostManager.Entity.SetObservers` | dGame/Entity.cpp:1789-1795 | Wraps to a signed byte and cuts off at zero. |
| `PhysicsGrid.Grid.Add` | dPhysics/dpGrid.cpp:27-42 | A new entity is in the cell of its position, once, and among the gargantuan ones if it is one and none of them has its id. |
| `PhysicsGrid.Grid.Move` | dPhysics/dpGrid.cpp:44-72 | The entity is in the cell of the new position, once, and in no other; all others stay. |
| `PhysicsGrid.Grid.Delete` | dPhysics/dpGrid.cpp:74-94 | The entity, there or not, is in no cell afterwards and not among the gargantuan ones; all others stay in their cells, and of the gargantuan ones those with other ids. |
| `PhysicsGrid.SetPosition` | dPhysics/dpEntity.cpp:91-109 | Afterwards every entity is in exactly one cell, once, namely the clamped cell of its position. |
| `PhysicsGrid.SetGrid` | dPhysics/dpEntity.cpp:137-147 | The same when an entity enters the grid, which is gargantuan from then on if it is wider than a cell and is known as such if none of its id is. |
| `PhysicsGrid.Grid.Update` | dPhysics/dpGrid.cpp:96-159 | Contacts are what the comparisons that are due make of them. With no condition on ids: an entity's contacts with all it is compared with are as the shapes are, its others are as before, and its new and removed lists are without repeats and exactly the two differences, if and only if the movers of one id that it is compared with all touch it or all do not. |
| `PhysicsGrid.Grid.DistinctMoversAgree` | dPhysics/dpGrid.cpp:122-159 | That condition holds wherever no two entities that are not static share an id, whatever the ids of the static ones. |
| `PhysicsGrid.TwinMoversDisagree` | dPhysics/dpEntity.cpp:70-89 | A grid in which a frame leaves an entity with wrong contacts: of two movers of one id only one touches it. |
| `PhysicsGrid.TestsMeans` | dPhysics/dpEntity.cpp:70-76 | Entities with a shape are tested unless they share a group other than the dynamic one. |
| `PhysicsGrid.OneCommonGroup` | dPhysics/dpEntity.cpp:73-76 | Any other common group prevents the test. |
| `PhysicsGrid.Grid.WhoMeets` | dPhysics/dpGrid.cpp:122-159 | An awake mover is compared with the static entities of its own cell and with all gargantuan ones; static or sleeping entities move nothing, and only static ones are compared with. |
| `PhysicsGrid.NeighboursMeetOnce` | dPhysics/dpGrid.cpp:122-159 | Of two neighbouring cells exactly one is compared with the other, and cells that are no neighbours never are. |
| `PhysicsGrid.Grid.HandleCell` | dPhysics/dpGrid.cpp:122-159 | All that the movers of a cell are due to be compared with, and nothing else. |
| `PhysicsGrid.Grid.HandleMover` | dPhysics/dpGrid.cpp:129-157 | The own cell, four of eight neighbours, and the gargantuan ones. |
| `PhysicsGrid.Entity.CheckCollision` | dPhysics/dpEntity.cpp:70-89 | One comparison takes the contacts where the specification says. |
| `PhysicsGrid.TestComesFrom` | dPhysics/dpGrid.cpp:115-120 | Every test an entity was put to comes from a comparison in the trace. |
| `PhysicsGrid.Grid.UnmetIsUntested` | dPhysics/dpGrid.cpp:115-120 | An id that no entity due for comparison has is not tested. |
| `PhysicsGrid.Grid.MetIsTested` | dPhysics/dpGrid.cpp:115-120 | A pair that is due is tested, with the outcome that the shapes give. |
| `GridContacts.TestsSettle` | dPhysics/dpEntity.cpp:70-89 | After any tests, repeated ones included, contacts are as last seen and each change is reported once. |
| `GridContacts.DisagreeingTests` | dPhysics/dpEntity.cpp:70-89 | Two comparisons of one id with different outcomes report it as new and as removed or leave a contact, depending on their order. |
| `GridCells.SwapAndPopRemoves` | dPhysics/dpGrid.cpp:65-69 | Overwriting with the last element removes exactly one entity and keeps the others, without repeats. |
| `GridCells.MovePlaces` | dPhysics/dpGrid.cpp:61-72 | Removal and insertion move one entity from its cell to another. |
| `GridCells.NearbyIsNeighbouring` | dPhysics/dpGrid.cpp:29-34 | Coordinates that round to within one cell size of each other fall in the same or in neighbouring cells, also around the origin and beyond the rim. |
| `GridCells.CellMeans` | dPhysics/dpGrid.cpp:29-34 | Cells are counted from the middle of the grid in both directions, and what is beyond the rim is in the last one. |
| `GridCells.RoundMeans` | dPhysics/dpGrid.cpp:29-34 | Coordinates are rounded to the nearest whole number, halves away from zero. |

## Left out

- Packet layouts, RakNet, the database, process launching, logging and system messages to players.
- Master shutdown: once it has begun, requests for transfers are refused and all instances are asked to stop.
- Private zones: the response to `REQUEST_PRIVATE_ZONE` and its answers; creation and lookup are modelled.
- IP strings in instances and responses; an address stands for the connection.
- InstanceManager.InstanceManager.GetFreePort: ports are unbounded numbers, and sorting is by insertion instead of `std::sort`.
- Ports.FindFreePort: ports are unbounded numbers; the response packet's 16-bit port is modelled at the receiver.
- TransferSystem.TransfersAreFaithful: for at most 2^64 requests per process, after which ids repeat; a master that is replaced.
- TransferSystem.HeardIsAsked: for at most 2^64 requests per process, likewise.
- InstanceManager.InstanceManager.RedirectPendingRequests: for instances out of service, which both of its callers pass; a live one could be routed to itself while its list is being walked.
- AMF: `BitStream` reads past the end give an error here instead of stale values; the insertion interface of `Amf3.h` and the signed meaning of integers.
- LDF: float and double values, whose printing loses digits; out-of-range results of `strtol` and of the cast to the type enumeration.
- Crc32.FourByteDifferenceChangesPackName: names of different lengths, and differences spread over more than four bytes, may collide.
- PlayerContainer.PlayerContainer.CreateLocalTeam: lists with repeated ids, with which the original can go on with a team it has deleted.
- PlayerContainer.PlayerContainer.CreateTeamServer: the same, and the empty list, for which the original dereferences a null team.
- Messages of the chat server to players; the friend and ignore lists, and `m_PlayerCount`.
- Teams: the eight-bit member count and loot flag of the broadcast pass unchanged, as teams have four members at most.
- NetworkIds.EntityManager.DeleteScheduled: destructors that schedule further entities while the list is being walked.
- NetworkIds.EntityManager.CreateEntity: how object ids are made; entities replaced in the registry are not followed further.
- GhostManager.EntityManager.AddCandidate: an entity that is not listed but counts players; entities start at zero, are counted only while listed, and leave the list when they are deleted.
- Ghosting: packets that construct and destruct entities at a player, limbo constructions, and zones without ghosting.
- PhysicsGrid.Grid.Update: shapes and their geometry, which enter as a predicate; agreement with the all-pairs loop of `dpWorld`, which does not hold.
- PhysicsGrid.Grid.Add: `SetScale` after adding does not make an entity gargantuan, here as in the original; positions are reals and do not overflow.
- `Spawner`, trading, activities, components, navigation meshes, scripts and SQL, which have no stateful core of this kind or depend on code outside these files.
