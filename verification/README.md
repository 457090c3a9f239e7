# onvif_srvd, modelled and verified in Dafny

A model of the self-contained parts of an ONVIF camera daemon and proofs of what they promise:
a reference-counting smart pointer, IPv4 masks and prefixes, text printers and parsers, the
loading of the configuration into two registries, the handlers that answer from them, capability
advertisement, and several state machines over system calls (descriptors, daemonizing, camera
commands, file sending). `dafny verify dfyconfig.toml` checks everything.

Code that changes state is modelled by classes and methods with loops; each is proved equal to a
specification function, and the properties are proved about those functions, over all inputs and
all runs. What the environment decides (system call results, ioctl answers, send and read errors,
the values of uninitialised locals) enters as parameters, so every theorem holds for each choice.

| file | models |
|---|---|
| `Bits.dfy`, `Alignment.dfy` | w-bit unsigned words over the naturals; the ALIGNMENT macro |
| `Ipv4.dfy`, `ServerAddress.dfy` | masks, prefixes, byte order; choosing and reporting addresses |
| `Text.dfy`, `Mac.dfy`, `TimeZone.dfy`, `Template.dfy`, `Scan.dfy` | printers, parsers, `%s` substitution, stream extraction |
| `StreamProfiles.dfy`, `RtspStreams.dfy`, `Context.dfy`, `Config.dfy`, `Service.dfy` | builders, registries, `processing_cfg`, start-up |
| `KeyOrder.dfy`, `Media.dfy`, `Device.dfy` | `std::map` order, media and device handlers |
| `OsKernel.dfy`, `EthDev.dfy`, `DaemonProcess.dfy`, `Ptz.dfy`, `CopyFile.dfy` | descriptors, daemonizing, PTZ commands, file sending |
| `RefCount.dfy` | `GObjWrapper` |

## Where the code differs from its intent

The code is followed; each difference is made precise, with the exact condition and an input at
which the intent fails.

- Assigning a `GObjWrapper` to itself leaves it null and gives its reference away
  (`RefCount.SelfAssignLosesObject`); the counts stay balanced. With one holder the object is freed
  (`RefCount.SelfAssignExample`).
- The masked comparison is membership in the reported network exactly when the mask has no holes
  and the address read by SIOCGIFDSTADDR has the network part of the one read by SIOCGIFADDR
  (`ServerAddress.TestIsMembershipIffRegular`); `get_ip(uint32_t*)` and `get_ip(char*)` use
  different requests. It fails for the mask 255.0.255.0 (`ServerAddress.HoleExample`) and for
  10.0.0.1 facing 192.168.0.1 (`ServerAddress.PointToPointExample`).
- The order of the interfaces is irrelevant exactly when no two with different addresses have
  networks that meet (`ServerAddress.OrderMattersOnConflict`). Two addresses on one /24 network
  do (`ServerAddress.OverlapExample`).
- The minutes of the time zone are the offset modulo 60 seconds, so the text denotes the offset
  exactly when that is a whole number of hours (`TimeZone.UtcTextRoundTrip`). Five and a half hours
  print as `+05:00` (`TimeZone.HalfHourExample`).
- `set_hwaddr` accepts every text of 17 characters; where it scans no number it stores what its
  uninitialised locals held (`Mac.NothingScanned`).
- ALIGNMENT moves an aligned value up by a whole alignment (`Alignment.AlignmentIsNextMultiple`),
  8 to 12 for an alignment of 4 (`Alignment.AlignedExample`).
- `daemonize2` asks for a PID file only when its name is empty, which always fails: it daemonizes
  only with a name set, and never creates the file (`DaemonProcess.DaemonizedIff`). With the default
  settings it ends in failure although every call succeeds (`DaemonProcess.DefaultSettingsExample`).
- `StreamProfile::clear` keeps the error text and `RTSPStreamConfig::clear` also the test source;
  the reused builders behave like fresh ones all the same (`Config.AddProfiles`,
  `Config.AddStreams`).
- The setters' messages give 100-10000 as the range of the dimensions; 10000 is refused
  (`StreamProfiles.UpperBoundExample`).

## Model

| member | source | states |
|---|---|---|
| RefCount.StepBalanced | src/rtsp-streams.hpp:64-115 | every wrapper operation keeps each count equal to outside references plus pointing wrappers, and no ref or unref touches a freed object |
| RefCount.RunBalanced | src/rtsp-streams.hpp:60-117 | the same over every finite interleaving of constructions, assignments, destructions and outside activity |
| RefCount.DestroyAllReturnsToOutside | src/rtsp-streams.hpp:93-96 | after any run, destroying all wrappers in any order leaves exactly the outside references, and frees the objects without any |
| RefCount.ConstructionEffect | src/rtsp-streams.hpp:64-86 | pointers and counts after copy construction (one more reference), move construction (source null, no count changes) and construction from a raw pointer (one outside reference taken over) |
| RefCount.DestroyEffect | src/rtsp-streams.hpp:93-96 | the destructor gives back exactly the wrapper's reference, freeing the object if it was the last |
| RefCount.OutsideEffect | src/rtsp-streams.hpp:98-115 | what creating, referencing and unreferencing outside the wrappers does to the counts |
| RefCount.CopyAssignEffect | src/rtsp-streams.hpp:76-82 | copy assignment moves one reference from the old to the shared object and changes nothing else |
| RefCount.MoveAssignEffect | src/rtsp-streams.hpp:87-92 | move assignment hands the object over, nulls the source and releases only the old object |
| RefCount.SelfAssignLosesObject | src/rtsp-streams.hpp:76-92 | self-assignment, by copy or move, keeps the balance but nulls the wrapper |
| RefCount.SelfAssignExample | src/rtsp-streams.hpp:76-82 | the only holder of an object frees it by assigning itself |
| RefCount.GObjWrapper.DoCopyAssign | src/rtsp-streams.hpp:76-82 | the release-then-retain code on aliased objects is the specified step |
| RefCount.GObjWrapper.DoMoveAssign | src/rtsp-streams.hpp:87-92 | likewise with the exchange |
| RefCount.GObjWrapper.DoDestroy | src/rtsp-streams.hpp:93-96 | likewise for the destructor |
| RefCount.GObjWrapper.Copy | src/rtsp-streams.hpp:71-75 | likewise for copy construction |
| RefCount.GObjWrapper.Move | src/rtsp-streams.hpp:83-86 | likewise for move construction |
| Bits.AndBit | src/ServiceContext.cpp:210 | the modelled `&` sets a bit exactly when both operands have it |
| Bits.BitOfQuotient | src/ServiceContext.cpp:210 | bit i is the parity of the quotient by 2^i |
| Ipv4.GetMaskPrefix | src/eth_dev_param.cpp:273-288 | the shift loop terminates with the least shift that empties the host-order mask, at most 32 |
| Ipv4.PrefixIsLeastShift | src/eth_dev_param.cpp:281-285 | a shift empties the mask exactly when it is at least 32 minus the trailing zeros (0 for an empty mask) |
| Ipv4.PrefixOfNetmask | src/eth_dev_param.cpp:273-288 | the prefix length of the mask of n leading ones is n, for n from 0 to 32 |
| Ipv4.RebuildMask | src/eth_dev_param.cpp:273-288 | rebuilding the mask from its prefix length gives it back exactly when no clear bit lies above a set one |
| Ipv4.MaskingIgnoresByteOrder | src/ServiceContext.cpp:204-215 | the comparison in network byte order gives the answer of host byte order, on either kind of host |
| Ipv4.ContiguousMaskIsPrefix | src/ServiceContext.cpp:210 | under a contiguous mask, masked equality is equality of the quotients by 2^(32-p) |
| Ipv4.HoleyMaskIsNotPrefix | src/ServiceContext.cpp:210 | under any other mask two addresses the mask cannot tell apart lie in different networks of the reported length |
| Ipv4.NtohlOfBytes | src/eth_dev_param.cpp:279 | on either kind of host, the host-order value of a word holding a, b, c, d in network order is a·2^24 + b·2^16 + c·2^8 + d |
| Ipv4.EveryWordHoldsBytes | src/eth_dev_param.cpp:167 | every raw word holds four such bytes |
| Ipv4.SpellsExample | src/eth_dev_param.cpp:167 | 192.168.0.1 on a little-endian and on a big-endian host |
| ServerAddress.AddressTextSpells | src/eth_dev_param.cpp:153-171 | the text of an interface's address is the decimal text of its four bytes in network order, joined by dots, on either kind of host |
| Ipv4.DottedInjective | src/eth_dev_param.cpp:167 | different addresses have different dotted-decimal texts |
| ServerAddress.GetServerIpFromClientIp | src/ServiceContext.cpp:193-219 | a single interface always answers; otherwise the first one whose peer address agrees with the client's under its mask, in host order; 127.0.0.1 if there is none. The answer spells the four address bytes in network order |
| ServerAddress.ServerIpServesHost | src/ServiceContext.cpp:223-230 | the same for a client address given in host order and converted for the search |
| ServerAddress.SharesClientIff | src/ServiceContext.cpp:210 | some client matches two interfaces exactly when their addresses agree where both masks are set |
| ServerAddress.RegularNetworksMeetIff | src/ServiceContext.cpp:204-215 | networks of regular interfaces meet exactly when the addresses agree on the shorter reported prefix |
| ServerAddress.OrderMattersOnConflict | src/ServiceContext.cpp:204-218 | all permutations of the interfaces answer alike exactly when there is a single one or no two with different addresses have networks that meet |
| ServerAddress.OverlapExample | src/ServiceContext.cpp:204-218 | two addresses on one /24 network are answered by their order |
| ServerAddress.DisjointNetworksOrderIrrelevant | src/ServiceContext.cpp:204-218 | with pairwise disjoint networks the order is irrelevant |
| ServerAddress.GetNetworkInterfaces | src/ServiceDevice.cpp:443-479 | one record per interface, with its name, MAC text, the four address bytes in dotted decimal, and prefix length |
| ServerAddress.TestIsMembershipIffRegular | src/ServiceContext.cpp:206-210 | the test is membership in the reported address/prefix network, for all clients, exactly for a contiguous mask and equal network parts |
| ServerAddress.HoleExample | src/ServiceContext.cpp:210 | under 255.0.255.0 the test is not membership in the reported network |
| ServerAddress.PointToPointExample | src/eth_dev_param.cpp:182 | nor is it when the two address requests answer different networks |
| ServerAddress.ReportsDecideServer | src/ServiceDevice.cpp:470-473 | for such interfaces, equal Address/PrefixLength reports give every client the same server address |
| Mac.MacRoundTrip | src/eth_dev_param.cpp:403-475 | six bytes print as 17 characters and parse back to themselves, whatever the locals held |
| Mac.MacNormalForm | src/eth_dev_param.cpp:403-475 | printing the parse of a well-formed text gives its lower-case form, which is a fixed point |
| Mac.PrintedAt | src/eth_dev_param.cpp:471-472 | byte i is printed as two hexadecimal digits at place 3i, the high one first, with colons between |
| Mac.HexDigits | src/eth_dev_param.cpp:471-472 | the digits are 0-9 and lower-case a-f |
| Mac.NothingScanned | src/eth_dev_param.cpp:410-420 | a text that does not start like a number sets no byte: the stored ones are whatever the locals held |
| EthDev.CopyHwaddr | src/eth_dev_param.cpp:403-475 | what one open object prints, another accepts and turns back into the same six bytes |
| EthDev.EthDevParam.SetHwaddr | src/eth_dev_param.cpp:403-423 | accepted texts store the scanned bytes and return the ioctl result; anything else changes nothing |
| EthDev.EthDevParam.GetHwaddr | src/eth_dev_param.cpp:453-475 | an open Ethernet interface yields 17 characters, two lower-case hexadecimal digits for each byte in its place, that parse back to its bytes; otherwise -1 |
| EthDev.EthDevParam.Open | src/eth_dev_param.cpp:72-101 | the old socket is closed; a new one is held exactly on success, at the lowest free number |
| EthDev.EthDevParam.Close | src/eth_dev_param.cpp:105-113 | the socket, if any, is given back and the object is as new |
| EthDev.RunConserves | src/eth_dev_param.cpp:72-113 | in every run, interleaved with other descriptor traffic, the object is open exactly when it holds a socket, and the table is the others' descriptors plus that one |
| EthDev.RunFromStart | src/eth_dev_param.cpp:54-113 | from construction, closing after any run leaves what the others hold; its own calls never touch that |
| Template.SubstituteParts | src/ServiceContext.cpp:256-269 | the result is the text before the first `%s`, the replacement, the rest; no `%s`, no change |
| Template.SubstituteCount | src/ServiceContext.cpp:256-269 | for any non-empty replacement, the change in the number of `%s`, counting those made at the joins |
| Template.AddressSubstitution | src/ServiceContext.cpp:256-286 | a dotted-decimal address removes exactly one `%s` and creates none |
| TimeZone.TimeZoneText | src/ServiceContext.cpp:72-120 | the text for each of the six formats |
| TimeZone.HourFields | src/ServiceContext.cpp:86-109 | both forms decode; the hour is the offset in hours truncated toward zero, exactly negated in the GMT form |
| TimeZone.UtcSays | src/ServiceContext.cpp:74-93 | the exact text: a sign, minus only from a whole hour west, the hours and the seconds modulo 60 in two digits each, a colon between; and what it decodes to |
| TimeZone.UtcTextRoundTrip | src/ServiceContext.cpp:86-93 | reading the text back gives the offset exactly for whole hours |
| TimeZone.HalfHourExample | src/ServiceContext.cpp:86-93 | 19800 seconds print as +05:00, which reads as 18000 |
| Context.ServiceContext.GetTimeZone | src/ServiceContext.cpp:72-120 | with the stored format 0 to 5: the exact sign, hour and minute text for the offset (negated for GMT), which decodes to the truncated hours and to the offset exactly for whole hours; or the environment's text |
| Scan.ReadIntRoundTrip | src/ServiceContext.cpp:510-512 | the decimal text of every 32-bit int is extracted as that int |
| Scan.ReadNumber | src/ServiceContext.cpp:175-178 | for every text that is not blank: the signed decimal number after white space, kept within int; as unsigned, the greatest value for larger numbers and a minus sign modulo 2^32; no digits read as 0 |
| Scan.BlankIff | src/ServiceContext.cpp:510-512 | white space alone leaves the variable as it was |
| Scan.ReadUnsignedRoundTrip | src/ServiceContext.cpp:175-178 | the decimal text of n is extracted as n up to the greatest unsigned int, as that beyond |
| Scan.ReadNegatedUnsigned | src/ServiceContext.cpp:175-178 | the text of -n is extracted as 2^32 - n |
| Text.DecDigits | src/eth_dev_param.cpp:167 | digit k of a decimal text from the right is digit k of the number |
| Text.DecCanonical | src/eth_dev_param.cpp:167 | decimal texts have no leading zeros: every digit string without them is the text of its value |
| Text.DigitsInOrder | src/eth_dev_param.cpp:167 | the digits are 0 to 9 |
| StreamProfiles.StreamProfile.DoSetWidth | src/ServiceContext.cpp:507-524 | the width is set to the number read exactly when it is in 100..9999, otherwise only the error text; the text of n sets n |
| StreamProfiles.StreamProfile.DoSetHeight | src/ServiceContext.cpp:528-544 | likewise for the height |
| StreamProfiles.StreamProfile.DoSetType | src/ServiceContext.cpp:578-597 | JPEG, MPEG4 and H264 set 0, 1 and 2; any other text only sets the error text |
| StreamProfiles.StreamProfile.DoClear | src/ServiceContext.cpp:601-610 | everything but the error text is reset: names empty, numbers -1 |
| StreamProfiles.ReachableInRange | src/ServiceContext.cpp:492-610 | in every reachable state dimensions are -1 or in 100..9999 and the type is -1 or one of three |
| StreamProfiles.ReachableValid | src/ServiceContext.cpp:614-622 | hence a valid profile has in-range dimensions and a known encoding |
| StreamProfiles.UpperBoundExample | src/ServiceContext.cpp:515-517 | a width of 10000 is refused and 9999 accepted |
| Context.ServiceContext.SetTzFormat | src/ServiceContext.cpp:173-189 | accepted exactly when the number read is below 6, and then stored; the text of n is accepted exactly for n < 6 and stores n |
| Context.ServiceContext.AddProfile | src/ServiceContext.cpp:234-252 | valid profiles with new names are added under their names; a refusal changes only the error text, which names its reason |
| Context.ServiceContext.GetStreamUri | src/ServiceContext.cpp:256-269 | only the first `%s` is replaced, by the server address for the client |
| Context.ServiceContext.GetSnapshotUri | src/ServiceContext.cpp:273-286 | the same for snapshots |
| Context.ServiceContext.GetXAddr | src/ServiceContext.cpp:223-230 | http://, the server address for the client in host order, a colon and the port |
| Context.CheckServiceCtx | src/GSoapService.cpp:91-101 | throws exactly when interfaces, scopes or profiles are missing |
| RtspStreams.RTSPStream.AddStream | src/rtsp-streams.cpp:145-163 | complete streams with new URLs are added under their URLs; a refusal changes only the error text, which names its reason |
| Config.BuildValid | src/ServiceContext.cpp:492-622 | a build is valid exactly for a valid entry, and then holds each of its values and no error text |
| Config.NonBlankEntry | src/ServiceContext.cpp:510-512 | for non-blank dimension texts the uninitialised locals play no part |
| Config.AddProfiles | src/onvif_srvd.cpp:69-83 | the loop with one reused, cleared builder gives the registry of fresh builders |
| Config.LoadCompletesIff | src/onvif_srvd.cpp:69-83 | it completes exactly when every entry is valid and the names are pairwise distinct and new |
| Config.LoadedRegistry | src/onvif_srvd.cpp:69-83 | it then adds one profile per entry, under the entry's name, and nothing else |
| Config.LoadedProfilesClean | src/onvif_srvd.cpp:69-83 | stored profiles are keyed by their names, in range and without error text |
| Config.LoadOrderIrrelevant | src/onvif_srvd.cpp:69-83 | all permutations of a configuration are refused, or all give the same registry |
| Config.AddStreams | src/onvif_srvd.cpp:86-100 | the stream loop behaves as with fresh builders although clear() keeps the test source |
| Config.StreamsCompleteIff | src/onvif_srvd.cpp:86-100 | it completes exactly for complete streams with distinct new URLs, each then found under its URL with every value of its entry |
| Config.SaveDaemonInfo | src/onvif_srvd.cpp:31-40 | the settings are saved, each under its own field, exactly when PID file and log level are non-empty |
| Config.ProcessingCfg | src/onvif_srvd.cpp:24-101 | the daemon goes on exactly for an acceptable configuration, and otherwise leaves for the first reason in source order; then context, registries and descriptors are as configured |
| Service.StartUp | src/onvif_srvd.cpp:108-117 | after a successful load the service check throws exactly without scopes or profiles |
| Service.ServeProfile | src/onvif_srvd.cpp:59-83 | every configured profile is served with its dimensions and encoding, and with the one interface's address in its URI whoever asks; that interface is reported under its configured name |
| Service.ServeStream | src/onvif_srvd.cpp:86-100 | every configured stream is found under its URL with every configured value |
| KeyOrder.AscendingUnique | src/ServiceMedia.cpp:112-115 | the key order of a map is unique |
| KeyOrder.LessIffPrecedes | src/ServiceMedia.cpp:112-115 | the order of keys: a precedes b exactly when it is a proper beginning of b or has the smaller character where they first differ |
| Media.GetMediaServiceCapabilities | src/ServiceContext.cpp:348-367 | a snapshot URI is advertised exactly when some profile has one |
| Media.MediaService.GetProfiles | src/ServiceMedia.cpp:101-119 | every stored profile once, with its stored values, in lexicographic order of the tokens |
| Media.MediaService.GetVideoSources | src/ServiceMedia.cpp:35-53 | every stored profile's source once, with its dimensions, in lexicographic order of the tokens |
| Media.MediaService.GetProfile | src/ServiceMedia.cpp:78-97 | the stored profile's name, dimensions and encoding and the PTZ flag in every field of the record, or a fault |
| Media.MediaService.GetStreamUri | src/ServiceMedia.cpp:564-584 | the stored URL with its first `%s` replaced by the server address for the client in host order, or a fault |
| Media.MediaService.GetSnapshotUri | src/ServiceMedia.cpp:618-638 | likewise for the snapshot URL |
| Media.MediaService.GetCompatibleVideoEncoderConfigurations | src/ServiceMedia.cpp:368-385 | the stored profile's name, dimensions and encoding, or a fault |
| Media.MediaService.GetCompatibleVideoSourceConfigurations | src/ServiceMedia.cpp:389-406 | the stored profile's name and its dimensions as bounds, or a fault |
| Media.ListingTokens | src/ServiceContext.cpp:386-488 | entry j of both listings carries key j and the stored dimensions and encoding |
| Media.Coherent | src/ServiceMedia.cpp:35-119 | a token is listed exactly when it is stored, and its listing is the stored profile |
| Media.MediaService.AskAbout | src/ServiceMedia.cpp:78-638 | five handlers accept a token exactly when GetProfiles lists it, GetProfile returns the listed record, and both listings run in step and in lexicographic order |
| Device.DeviceService.GetCapabilities | src/ServiceDevice.cpp:317-369 | the device section is present exactly when nothing, All or Device is asked for; Media likewise; PTZ likewise and only if enabled; each with the service address for the client |
| Device.DeviceService.GetServices | src/ServiceDevice.cpp:20-71 | the services in order with namespaces, versions, addresses and capabilities; PTZ exactly if enabled |
| Device.AnswerOfUnion | src/ServiceDevice.cpp:329-365 | two non-empty requests put together are answered by the section-wise merge of their answers |
| Device.AskAgain | src/ServiceDevice.cpp:317-369 | calls of the handler: permuting or repeating categories changes nothing, nothing means All, joined requests are merged |
| Device.AskBothWays | src/ServiceDevice.cpp:20-369 | for All, both calls advertise the same services and addresses, PTZ in both or neither |
| DaemonProcess.Daemon.RedirectStdioToDevnull | src/daemon.cpp:390-406 | on success 0 to 2 are /dev/null and all others as before, whichever descriptor open returned |
| DaemonProcess.Daemon.CreatePidFile | src/daemon.cpp:418-454 | success exactly when every call succeeds, with the PID text in the file; no descriptor is left on failure |
| DaemonProcess.Daemon.SaveConfig | src/daemon.cpp:314-324 | the configuration is stored exactly when PID file and log level are non-empty, otherwise only the error text |
| DaemonProcess.Daemon.Daemonize2 | src/daemon.cpp:484-515 | the attempted steps and the exit code are those of the specification; daemonized is set only without an exit |
| DaemonProcess.RunExecutesPlan | src/daemon.cpp:484-515 | every run executes the configured plan up to its first failure |
| DaemonProcess.ExecuteShape | src/daemon.cpp:484-515 | only the last attempt can have failed |
| DaemonProcess.DaemonizedIff | src/daemon.cpp:484-515 | daemonized exactly when the PID file is named and every wanted call succeeds; then all wanted steps were taken |
| DaemonProcess.FullRun | src/daemon.cpp:484-515 | with everything wanted and successful: fork, umask, setsid, chdir, init callback, redirection, in this order |
| DaemonProcess.ExitCodes | src/daemon.cpp:463-515 | the exit code is 0 exactly in the parent of a successful fork, and 1 after any error |
| DaemonProcess.DefaultSettingsExample | src/daemon.cpp:503-504 | with the default settings the PID file step fails although every call succeeds |
| DaemonProcess.EarlierStepsDone | src/daemon.cpp:484-515 | a step is attempted only after all wanted earlier ones succeeded |
| DaemonProcess.AttemptsInOrder | src/daemon.cpp:484-515 | no step is attempted twice, and attempts follow the stage order |
| DaemonProcess.SetsidOnlyInChild | src/daemon.cpp:492-495 | setsid is attempted only in a forked child |
| DaemonProcess.ParentStopsAtFork | src/daemon.cpp:463-473 | the parent attempts nothing after the fork and leaves with success |
| DaemonProcess.InitOnce | src/daemon.cpp:508-509 | the init callback runs at most once |
| DaemonProcess.InitBeforeRedirect | src/daemon.cpp:506-512 | it runs before the standard streams are redirected |
| Ptz.PtzService.DoContinuousMove | src/ServicePTZ.cpp:288-318 | right for x > 0, left for x < 0, then up for y > 0, down for y < 0, once each; nothing for a missing vector |
| Ptz.PtzService.DoRelativeMove | src/ServicePTZ.cpp:322-360 | the same directions, each followed by a pause and a stop |
| Ptz.PtzService.Serve | src/ServicePTZ.cpp:288-389 | a sequence of requests issues the concatenated commands |
| Ptz.MovingIff | src/ServicePTZ.cpp:288-389 | the camera moves in a direction at the end exactly when some continuous move that way has no later stop or non-zero relative move |
| Ptz.RelativeMoveHaltsEachDirection | src/ServicePTZ.cpp:340-357 | every directional command of a relative move is followed by a pause and a stop before the next |
| Ptz.ServedRelativeMoveHalts | src/ServicePTZ.cpp:288-389 | the same for every relative move among the requests served, in the whole trace |
| CopyFile.CopyFile | src/GSoapService.cpp:143-172 | exactly the chunks of the readable bytes are sent, or those before the failing one; the content type is set and the file closed exactly once on every path that opened it |
| CopyFile.ChunksConcat | src/GSoapService.cpp:158-169 | the chunks make up exactly the bytes |
| CopyFile.ChunksPrefix | src/GSoapService.cpp:163-168 | the chunks sent before an error make up a prefix, n buffers long |
| CopyFile.ChunksFull | src/GSoapService.cpp:160 | no chunk is empty and all but the last fill the buffer |
| CopyFile.SendFile | src/GSoapService.cpp:143-172 | without send errors the client receives exactly what can be read, the whole file if all can be; in every case a prefix, nothing after a header error |
| Alignment.AlignmentIsNextMultiple | src/smacros.h:113-115 | the one multiple strictly above the value and at most one alignment above it; a whole alignment above exactly for aligned values |
| Alignment.AlignedExample | src/smacros.h:115 | 8 aligned to 4 becomes 12 |

## Left out

- gSOAP-generated types, dispatch and memory management; responses are plain records with the fields the code fills from its state.
- GStreamer set-up, threads, MQTT, logging, `libconfig` parsing and shell-based setters (gateway, address, hardware address from bytes).
- Empty handlers, constant capability tables, PTZ node data, presets and the home position: constants.
- The ownership of the pointer returned by `gst_rtsp_server_get_mount_points`: the library is not part of this model, so nothing is claimed about the whole `GStreamerRTSP` constructor.
- Copies of `Eth_Dev_Param` that share a descriptor; its destructor does nothing.
- Interfaces are described by what successful ioctls answer; an ioctl that fails after open() leaves an output unset in the source.
- `%x` items of more than eight digits in a MAC text, where the C standard leaves the value undefined: the model takes the number modulo 256.
- Strings with embedded NUL characters: configuration strings come from C strings.
- The descriptor limit and failures of dup2(), whose results the source ignores.
- Hour numbers beyond the range of int in the time-zone text.
- Read errors that go away again while a file is being sent: once reading stops short it stays there.
- The choice of the content type by file extension (`http_get`): constants.
- Device.DeviceService.GetCapabilities: the empty Network, Security, IO and StreamingCapabilities objects of the sections are not modelled.
- Device.DeviceService.GetServices: the constant device and PTZ capability tables are not modelled.
- PTZ coordinates are real numbers; a NaN fails both comparisons in the source, as zero does here.
- DaemonProcess.Daemon.Daemonize2: the init callback is only an event; what it does is not modelled.
