# OWON VDS2062 on Linux: a model in Dafny

Dafny models, with proofs, of the four parts of the repository that hold state:

* **The USB bridge** (`libusb/linux/LibusbJava.c`). `usb_get_busses` walks the C library's list of buses, each
  with a list of devices, each with configurations, interfaces, alternate settings and endpoints, and builds
  doubly linked Java objects. The objects are classes on the heap; the C structs, which are only read, are
  datatypes whose last list cell is the null pointer. `usb_open` finds the C device again by its struct address.
* **The SCPI link** (`scpi/`, `Server.java`, `ServerControl.java`): how a list of commands becomes one message, how
  the server takes it apart, the state machine of its select loop with many clients, its frames over sockets that
  take only part of a write, the Python reader, and both ends together over byte streams.
* **A channel** (`ChannelInfo.java`) against the registers of the device it is sent to, and its preferences.
* **Overlapping notices** (`KeepNoticeDialog.java`): threads that show and hide one dialog by a shared sum.

Code that changes state is a class or a method with loops; its contract ties the new state to a function of the
old one (`Step`, `Apply`, `Translation`), and the lemmas about whole runs are about that function. Bytes are
written as the characters with the same code.

| file | content |
|---|---|
| `UsbStructs.dfy`, `UsbWhole.dfy` | records of `usb.h` and their Java copies; when a copy is whole and where it stops |
| `UsbMirror.dfy` | the copy loops and the search |
| `Bytes.dfy`, `Requests.dfy` | `trim`, `split`, `rstrip`, join; a request on its way to the server |
| `Frames.dfy`, `TcpConnection.dfy` | the wire format of replies and the client's parser |
| `ServerControl.dfy` | frames and deep-memory replies over partial writes |
| `Server.dfy`, `ServerLoop.dfy` | the server as a state machine, and the thread that implements it |
| `Session.dfy`, `ScpiLink.dfy` | client and server together; the command list builders |
| `ChannelModel.dfy`, `ChannelInfo.dfy` | a channel as values; the channel object |
| `KeepNotice.dfy` | the notice threads |
| `Options.dfy` | the option type |

Results that differ from what one would expect of the code:

* A binary reply is not always read back. The client reads the header as a text line and strips it, so a payload
  whose length has a byte 0x0A, or a last byte among 9 to 13 and 32, comes back shorter and leaves bytes in the
  stream. `Frames.FrameRoundTrip` gives the exact condition.
* Once the server has read a request, a timeout of its call shifts the replies of all later calls by one, for good,
  whether the server has answered by then (`Session.RepliesLagByTimeouts`) or still works on it
  (`Session.TimeoutShiftsReplies`). If the server has not read it, the next request is glued to it
  (`Session.UnreadRequestsMerge`). After a timeout inside a frame the next call parses the payload of that frame as
  if it were a reply (`Session.CutFrameIsParsedAsReply`).
* A read of the server that takes only part of a request answers that part (`Session.CutRequestAnswersItsStart`).
* `k` data requests in one message cause `2k - 1` transfers (`Server.AdcTransfers`). A request that finds no data
  sends a header without its line feed, which swallows the next line (`Session.MissingDataSwallowsNextLine`).
* The flags that say which kind of reply is due are shared by all clients, so a client that asked for text can be
  served as if it had asked for data (`Server.PendingRepliesMixUp`). Of two clients whose replies are pending
  together, served in the order they asked, both get the right kind of reply exactly in two cases
  (`Server.BothServedRightExactly`): neither asks for data and the second asks for no deep memory; or only the first
  asks for data, and deep memory is asked for by the second or not by the first. A message that mixes data and deep
  memory leaves a flag behind (`Server.CycleClearsFlags`).
* One write that throws ends the server's loop for all clients, except within the deep-memory transfer
  (`ServerLoop.ServerThread.Listen`, `ServerControl.RemoteDmTransmit`).
* Saving and loading the preferences at the lowest voltage step turns the hidden band limit setting on
  (`ChannelModel.MaskedBandlimitIsLost`).
* Notices of zero length hide the dialog too early (`KeepNotice.ZeroTimesHideTooEarly`).

## Model

| member | source | states |
|---|---|---|
| UsbMirror.LibusbJava.UsbGetBusses | libusb/linux/LibusbJava.c:265-543 | for every list: a whole mirror of all buses and devices, linked both ways at both levels, if and only if no counted array is missing and no count negative; otherwise the buses before the first that lacks one whole, that one without devices, and one blank object ahead if there is a next bus; the error slot in each case |
| UsbMirror.StopExactly | libusb/linux/LibusbJava.c:380-493 | the copy stops at bus k for reason p if and only if, by the C fields alone, bus k is the first that lacks something and p is what it lacks first in the order of the loops |
| UsbWhole.LibraryExactly | libusb/linux/LibusbJava.c:380-493 | the buses copied whole are those before the first with a missing array or a negative count |
| UsbMirror.ErrorTells | libusb/linux/LibusbJava.c:385-448 | the error text for a missing configuration array and for a negative count, and none for the other missing arrays |
| UsbMirror.CopyDevices | libusb/linux/LibusbJava.c:321-530 | the fresh device objects of one bus, distinct, in order, doubly linked, each showing its C device and pointing at the bus object; or the first problem in traversal order |
| UsbMirror.FillDevice | libusb/linux/LibusbJava.c:348-377 | all fields of one device object; its configurations stay unset when the copy stops |
| UsbMirror.CopyConfigs | libusb/linux/LibusbJava.c:380-522 | the configuration array shows the C array field by field, with all arrays below it; stops exactly at the first null sub-array with a positive count |
| UsbMirror.CopyInterfaces | libusb/linux/LibusbJava.c:418-521 | the same for the interfaces of a configuration |
| UsbMirror.CopyAltsettings | libusb/linux/LibusbJava.c:439-520 | the same for alternate settings, whose count may be negative |
| UsbMirror.CopyEndpoints | libusb/linux/LibusbJava.c:480-517 | the same for endpoints |
| UsbMirror.FillBus | libusb/linux/LibusbJava.c:308-324 | a bus object gets its own fields before its devices, and its two device fields only when all devices were copied |
| UsbMirror.BusRound | libusb/linux/LibusbJava.c:292-537 | one round of the bus loop keeps the invariant of the growing list with the object allocated ahead |
| UsbMirror.LibusbJava.UsbOpen | libusb/linux/LibusbJava.c:550-572 | opens the first C device at the address the Java device carries; 0 and an error text when there is no list or no such device |
| UsbMirror.OpensItsOrigin | libusb/linux/LibusbJava.c:354-354 | with distinct struct addresses the Java device at position (i, j) of a whole or partial mirror leads back to exactly C device (i, j) |
| UsbStructs.FindInvertsAddress | libusb/linux/LibusbJava.c:562-569 | searching a device's address finds that device |
| UsbStructs.FindDeviceFinds | libusb/linux/LibusbJava.c:562-571 | the search finds the first device at the address, by bus and then by device, and misses only addresses at no position |
| UsbStructs.FirstAt | libusb/linux/LibusbJava.c:385-393 | the problem reported is the first one in the order of traversal |
| UsbStructs.SignedBitsRoundTrip | libusb/linux/LibusbJava.c:362-375 | unsigned C fields read back from signed Java fields, which differ from them by a whole number of wraps |
| Bytes.SplitInvertsJoin | scpi/src/scpi/scpilink.py:200-200 | splitting undoes joining exactly for members without a separator |
| Requests.PiecesAreAll | edited_source/com/owon/uppersoft/vds/socket/server/Server.java:131-137 | because of the appended `\r` no piece is dropped by the split |
| Bytes.DropEmptyTailParts | edited_source/com/owon/uppersoft/vds/socket/server/Server.java:158-158 | Java's split keeps the pieces up to the last that is not empty |
| Requests.LinesOfMessage | edited_source/com/owon/uppersoft/vds/socket/server/Server.java:183-204 | every call is dispatched as exactly the pieces of its command, in order |
| Requests.CommandRoundTrip | scpi/src/scpi/scpilink.py:17-19 | a joined command list arrives as that list, normalised; the empty list arrives as one empty line |
| Requests.NormalRemovesSpaceOnly | edited_source/com/owon/uppersoft/vds/socket/server/Server.java:194-204 | a line is its command without white space if and only if the trimmed ends are white space |
| Requests.NormalUnchanged | edited_source/com/owon/uppersoft/vds/socket/server/Server.java:194-204 | a command is dispatched as it stands if and only if it holds no white space and neither end is a control character |
| Frames.FrameRoundTrip | edited_source/com/owon/uppersoft/vds/socket/server/ServerControl.java:100-121 | a frame is read back, and exactly consumed, if and only if its length bytes hold no line feed and do not end in white space; else a shorter payload is returned and bytes stay behind |
| Frames.TextRoundTrip | edited_source/com/owon/uppersoft/vds/socket/server/Server.java:172-177 | a text line is read back if and only if it is not empty, holds no line feed, does not start with `#`, does not end in white space and fits a line |
| Frames.ReadInvertsPrint | scpi/src/scpi/tcpconnection.py:21-29 | the parser inverts the printer exactly on clean replies, whatever follows |
| Frames.ReadWaits | scpi/src/scpi/tcpconnection.py:21-29 | on every proper prefix of a clean reply the client waits |
| Frames.LineReadsAs | scpi/src/scpi/tcpconnection.py:21-29 | what every line that is no header reads as: without the white space at its end, or an exception if nothing else is there or it is too long |
| Frames.ReadCutsFront | scpi/src/scpi/tcpconnection.py:21-29 | whatever the stream holds, a reply is its first line, or exactly the announced bytes behind it, and the rest stays |
| Frames.FrameCutShort | scpi/src/scpi/tcpconnection.py:22-27 | a frame cut by the end of the stream raises, or is empty if it is cut within a header whose bytes are all zero so far; part of a payload is never returned |
| Frames.TextCutShort | scpi/src/scpi/tcpconnection.py:22-29 | a text cut by the end of the stream is returned as far as it goes, without white space at its end; with nothing else there it raises |
| Frames.CutShort | scpi/src/scpi/tcpconnection.py:21-29 | for every clean reply and every proper prefix of it at the end of the stream: the read never waits, and raises or returns only what was there |
| Frames.HeaderBytesAll | scpi/src/scpi/tcpconnection.py:22-24 | all four length bytes survive the line reading exactly for clean lengths, and otherwise the length shrinks |
| Frames.CancelInsideFrame | scpi/src/scpi/scpilink.py:21-25 | a read cancelled inside a frame leaves exactly the payload to be parsed next |
| Frames.NullHeaderSwallowsNextLine | scpi/src/scpi/tcpconnection.py:21-29 | a header without line feed takes the rest of the next line with it, whatever that line is, and reads as an empty payload |
| Session.MissingDataSwallowsNextLine | edited_source/com/owon/uppersoft/vds/socket/server/ServerControl.java:122-127 | a data request that finds no data is answered by such a header: the client hangs on it, and the next line the server sends is lost in it |
| TcpConnection.TCPConnection.Read | scpi/src/scpi/tcpconnection.py:21-29 | the stream reader implements the parser on open and on ended streams, consumes what it says, and raises when it does |
| ServerControl.SendChunks | edited_source/com/owon/uppersoft/vds/socket/server/ServerControl.java:113-120 | on every schedule that keeps making progress the loop ends; it has offered exactly the next block of at most 2048 bytes each time, and has emitted all the data unless a write threw, which was then the last |
| ServerControl.SocketChannel.ChunksEmitPrefix | edited_source/com/owon/uppersoft/vds/socket/server/ServerControl.java:113-120 | at every moment of the loop exactly a prefix of the data is out |
| ServerControl.WriteLargeData | edited_source/com/owon/uppersoft/vds/socket/server/ServerControl.java:100-128 | header as far as its writes went, then all the data, a proper frame if and only if no header write was partial; or exactly the writes up to the first that threw |
| ServerControl.RemoteDmTransmit | edited_source/com/owon/uppersoft/vds/socket/server/ServerControl.java:193-231 | the header and all the data if no write throws; the failure text, after the writes up to the first that throws, if one does; the failure text alone if there is no file |
| ServerControl.SendersAgree | edited_source/com/owon/uppersoft/vds/socket/server/ServerControl.java:113-121 | two whole transfers of the same data, in blocks of any two sizes on any two schedules, emit the same stream exactly when their headers go out |
| ServerControl.SendBothWays | edited_source/com/owon/uppersoft/vds/socket/server/ServerControl.java:206-221 | the chunked sender and the deep-memory sender on two channels: if the first sent a frame, the streams are equal exactly when no write of the second threw and its header went out |
| ServerControl.WriteDMData | edited_source/com/owon/uppersoft/vds/socket/server/ServerControl.java:130-170 | offline the one write is the offline text, online and local the saved line, online and remote without a file the failure text, and otherwise the transfer of the file; an exception of the last write goes on to the caller |
| ServerControl.DmBlocksTellMemory | edited_source/com/owon/uppersoft/vds/socket/server/ServerControl.java:144-169 | the writes of a deep-memory reply, told by the memory alone |
| Server.FlagsTellTheMessage | edited_source/com/owon/uppersoft/vds/socket/server/Server.java:220-243 | after a message the flags say whether it held data or deep-memory requests, and whether the last of the latter was remote |
| Server.RepliesMatchCommands | edited_source/com/owon/uppersoft/vds/socket/server/Server.java:183-218 | one answer per command in order; they can be cut apart if and only if no answer holds a separator |
| Server.PlainCommandsAreHandled | edited_source/com/owon/uppersoft/vds/socket/server/Server.java:183-218 | the pieces of the response to a list of plain commands are, one by one, what the handlers say to them, or the text for an unknown order |
| Server.TransferIsEchoed | edited_source/com/owon/uppersoft/vds/socket/server/Server.java:205-207 | a transfer request is dispatched as one line and echoed with a separator |
| Server.DeepEmission | edited_source/com/owon/uppersoft/vds/socket/server/ServerControl.java:144-169 | the bytes of a deep-memory reply, told by the memory at that moment |
| Server.AdcTransfers | edited_source/com/owon/uppersoft/vds/socket/server/Server.java:156-163 | `k` data requests lead to `2k - 1` transfers, the requests at the even places and empty strings between |
| Server.KeysInEveryRun | edited_source/com/owon/uppersoft/vds/socket/server/Server.java:102-181 | in every run with any number of clients each key reads with nothing attached or writes with a non-empty reply, and the remote flag implies the deep-memory flag |
| Server.StepTouchesOneKey | edited_source/com/owon/uppersoft/vds/socket/server/Server.java:102-181 | a step for one client leaves all other keys; a lost client has none, an accepted or answered one waits for a request, and one whose request gets a response has it attached and waits to be written to |
| Server.OneAtATimeInEveryRun | edited_source/com/owon/uppersoft/vds/socket/server/Server.java:137-179 | in every run with one pending reply at a time and no mixed message the flags are clear when nobody waits, and the reply kind is the one the message asks for |
| Server.CycleClearsFlags | edited_source/com/owon/uppersoft/vds/socket/server/Server.java:156-170 | one request answered from clear flags leaves them clear if and only if it is not mixed |
| Server.OwnBranchExactly | edited_source/com/owon/uppersoft/vds/socket/server/Server.java:151-170 | whatever flags stood before, a message gets its own kind of reply if and only if it asks for data, or no data flag stood and it asks for deep memory or that flag did not stand either |
| Server.SecondServedRightExactly | edited_source/com/owon/uppersoft/vds/socket/server/Server.java:151-178 | of two clients pending together, the second, answered first, gets its own kind of reply exactly under that condition on the two messages |
| Server.BothServedRightExactly | edited_source/com/owon/uppersoft/vds/socket/server/Server.java:151-178 | answered in order, two messages of any kinds both get their own kind of reply if and only if the second does not ask for data and either the first does and is not mixed unless the second asks for deep memory, or the first does not and the second asks for no deep memory |
| Server.PendingRepliesMixUp | edited_source/com/owon/uppersoft/vds/socket/server/Server.java:156-178 | a failing case: after another client asked for data, one that asked for text is served the data branch |
| Server.WideReplyIsEmission | edited_source/com/owon/uppersoft/vds/socket/server/Server.java:151-180 | the writes of any reply, on a socket that takes every write whole, come to the bytes the state machine emits |
| ServerLoop.ServerThread.Process | edited_source/com/owon/uppersoft/vds/socket/server/Server.java:102-181 | `process` does exactly one step of the state machine, keeps the shared buffer cleared, and on any schedule of partial writes makes exactly the writes of that step's reply, for deep memory those that the memory tells; if one throws, flags and keys stay as they were |
| ServerLoop.ServerThread.Listen | edited_source/com/owon/uppersoft/vds/socket/server/Server.java:79-100 | over any sequence of selections, with bytes coming in between them, the thread makes a run of the state machine; the chunks of the run and what is left in the inbox are exactly what came in from each client, in order, and a client that takes every write whole has been sent exactly what the run says; the first write that throws ends the loop |
| ServerLoop.ServerThread.Translate | edited_source/com/owon/uppersoft/vds/socket/server/Server.java:183-192 | the appended response is the joined answers of all pieces, and the flags follow all of them |
| ServerLoop.ByteBuffer.ReadFrom | edited_source/com/owon/uppersoft/vds/socket/server/Server.java:117-126 | a read takes as much as has arrived and fits |
| Session.EveryCallGetsItsReply | scpi/src/scpi/scpilink.py:14-25 | in every interleaving without timeouts, each request being read as a whole, the k-th call returns the k-th reply |
| Session.EveryCommandIsAnswered | scpi/src/scpi/scpilink.py:14-25 | in every run without timeouts a call with one command returns what the handlers, the data provider or the memory say to that command |
| Session.PlainCallsReturnHandled | scpi/src/scpi/scpilink.py:29-45 | with plain commands only, call k returns what the handlers say to it as the k-th line they get |
| Session.ListCallIsAnswered | scpi/src/scpi/scpilink.py:200-200 | a call with a list of plain commands returns a text whose pieces are what the handlers say to each |
| Session.NothingLeftBetweenCalls | scpi/src/scpi/tcpconnection.py:16-29 | and between calls every command has its reply and all streams are empty |
| Session.RepliesInReadingOrder | scpi/src/scpi/scpilink.py:14-25 | in every run, with calls and timeouts at any moments and reads that cut the requests anywhere, as long as what each read takes is admissible and no timeout cuts a frame: no call raises, and the replies are returned in the order of the server's reads, one for each call that returns |
| Session.RepliesLagByTimeouts | scpi/src/scpi/scpilink.py:21-25 | in every run whose calls wait only until the server has read the one before, call k returns the reply to the call as many places earlier as calls timed out before it, and none raises |
| Session.LateCommandIsAnswered | scpi/src/scpi/scpilink.py:21-25 | and what it returns is what the handlers, the data provider or the memory say to that earlier command |
| Session.TimeoutShiftsReplies | scpi/src/scpi/scpilink.py:21-25 | from any settled link: a call times out while the server works on it, and a second call made meanwhile returns the answer to the first, its own request still unread |
| Session.PendingCallCompletes | scpi/src/scpi/scpilink.py:17-19 | a pending call ends with its own reply once the server has taken its steps and the bytes have arrived |
| Session.EmissionIsAnswer | edited_source/com/owon/uppersoft/vds/socket/server/Server.java:151-180 | for an admissible request the write step emits exactly one printed reply |
| Session.OneCommandIsAnswered | edited_source/com/owon/uppersoft/vds/socket/server/Server.java:137-218 | the reply to one admissible command is what the handlers, the data provider or the memory say to it, named without the server's own functions |
| Session.UnreadRequestsMerge | edited_source/com/owon/uppersoft/vds/socket/server/Server.java:129-137 | for all commands: a call that times out before the server reads it is taken in one read with the next, as the pieces of both with the two at the seam run together, and the second call returns the one reply to that |
| Session.CutRequestAnswersItsStart | edited_source/com/owon/uppersoft/vds/socket/server/Server.java:112-137 | from any settled link: if the server's read takes the first n bytes of a request, the call returns the reply to those and the rest stays to be read as the next request |
| Session.CutFrameIsParsedAsReply | scpi/src/scpi/scpilink.py:21-25 | from any settled link: a call times out when its frame has arrived in part; the next call returns, raises or waits as the payload of that frame parses, its own request still unread |
| ScpiLink.OptionGetsItsAnswer | scpi/src/scpi/scpilink.py:202-214 | every option asked for finds at its place in the reply what the handlers say to its command |
| ScpiLink.NothingAskedIsOneLine | scpi/src/scpi/scpilink.py:207-214 | a getter without options still sends one empty line |
| ScpiLink.AddOrDelete | scpi/src/scpi/scpilink.py:61-67 | appends nothing, the add command or the delete command |
| ScpiLink.GetAquire | scpi/src/scpi/scpilink.py:202-214 | joins the commands of the options asked for, in order |
| ScpiLink.AquireSends | scpi/src/scpi/scpilink.py:202-214 | the command text for each choice of the options |
| ChannelModel.SyncedInEveryRun | edited_source/com/owon/uppersoft/dso/wf/ChannelInfo.java:347-477 | in every run of the operations the device's on/off, coupling, voltage and band-limit registers equal the getters |
| ChannelModel.ZeroIsSet | edited_source/com/owon/uppersoft/dso/wf/ChannelInfo.java:479-509 | a zero position within the range is taken as it is, any other as the nearer end; the device only on commit, the change reported, nothing else touched |
| ChannelModel.VoltageIsSet | edited_source/com/owon/uppersoft/dso/wf/ChannelInfo.java:437-446 | a step that exists is taken as it is, any other as the nearest; the position stays where the new range allows; no other setting changes |
| ChannelModel.VoltageIsSent | edited_source/com/owon/uppersoft/dso/wf/ChannelInfo.java:446-476 | which registers and reports a voltage change touches: the band limit only around the lowest step, the position only if it is followed up |
| ChannelModel.OthersAreSet | edited_source/com/owon/uppersoft/dso/wf/ChannelInfo.java:347-429 | band limit, coupling, inversion and on/off leave their argument in their setting, reach the device as told, and touch nothing else |
| ChannelModel.CouplingGoesRound | edited_source/com/owon/uppersoft/dso/wf/ChannelInfo.java:431-435 | the next coupling goes round the three there are |
| ChannelModel.LastSettingHolds | edited_source/com/owon/uppersoft/dso/wf/ChannelInfo.java:347-509 | in every run each setting shows the last operation of its kind, whatever other operations came since |
| ChannelModel.PositionInEveryRun | edited_source/com/owon/uppersoft/dso/wf/ChannelInfo.java:479-564 | in every run the zero position stays in the range of the current step |
| ChannelModel.DeltasInEveryRun | edited_source/com/owon/uppersoft/dso/wf/ChannelInfo.java:487-506 | in every run from any state the reported position changes add up to the net change |
| ChannelModel.DevicePositionInEveryRun | edited_source/com/owon/uppersoft/dso/wf/ChannelInfo.java:495-508 | the device holds the position of the last committing operation |
| ChannelModel.StepsInEveryRun | edited_source/com/owon/uppersoft/dso/wf/ChannelInfo.java:443-476 | the reported voltage steps form an unbroken path to the current step |
| ChannelModel.SaveLoadRoundTrip | edited_source/com/owon/uppersoft/dso/wf/ChannelInfo.java:171-208 | saving and loading keeps all persisted getters, is idempotent, and keeps the raw band limit if and only if it is not masked |
| ChannelModel.MaskedBandlimitIsLost | edited_source/com/owon/uppersoft/dso/wf/ChannelInfo.java:187-205 | some run of voltage changes tells the loaded channel from the saved one if and only if there are two steps, the lowest is set and the setting is off |
| ChannelModel.SaveLoadSettles | edited_source/com/owon/uppersoft/dso/wf/ChannelInfo.java:173-192 | whatever the preferences hold, one load and save settles them |
| ChannelModel.LoadedTakesPreferences | edited_source/com/owon/uppersoft/dso/wf/ChannelInfo.java:171-193 | loading takes the preferences as they are, but for the two defaults |
| ChannelInfo.ChannelInfo.CSetVoltage | edited_source/com/owon/uppersoft/dso/wf/ChannelInfo.java:437-477 | clamped step, new range and position, band limit sent again only around the lowest step, device and reports |
| ChannelInfo.ChannelInfo.CSetZero | edited_source/com/owon/uppersoft/dso/wf/ChannelInfo.java:479-509 | clamped position, reported change, device only on commit |
| ChannelInfo.ChannelInfo.CSetBandLimit | edited_source/com/owon/uppersoft/dso/wf/ChannelInfo.java:354-358 | the setting is stored and the effective limit sent |
| ChannelInfo.ChannelInfo.CSetOn | edited_source/com/owon/uppersoft/dso/wf/ChannelInfo.java:378-415 | switching on sends all five registers, switching off only one |
| ChannelInfo.ChannelInfo.CSetCoupling | edited_source/com/owon/uppersoft/dso/wf/ChannelInfo.java:422-429 | the coupling is stored and sent |
| ChannelInfo.ChannelInfo.SetVoltbaseIndex | edited_source/com/owon/uppersoft/dso/wf/ChannelInfo.java:543-564 | new step and range, and the position unless the preferences are being read |
| ChannelInfo.ChannelInfo.Load | edited_source/com/owon/uppersoft/dso/wf/ChannelInfo.java:171-193 | the settings the preferences describe, with the two defaults |
| ChannelInfo.ChannelInfo.Persist | edited_source/com/owon/uppersoft/dso/wf/ChannelInfo.java:195-208 | every setting is saved under its own name, the band limit as it is in effect |
| KeepNotice.RightInEveryRun | edited_source/com/owon/uppersoft/vds/ui/prompt/KeepNoticeDialog.java:114-140 | in every interleaving of positive times within int range the sum is that of the pending times and the dialog is shown exactly while a notice is pending |
| KeepNotice.LeaveIsRightExactly | edited_source/com/owon/uppersoft/vds/ui/prompt/KeepNoticeDialog.java:131-139 | without those bounds, a leaving thread leaves the dialog right if and only if it was the last or the remaining sum is a positive int |
| KeepNotice.RunIsRightExactly | edited_source/com/owon/uppersoft/vds/ui/prompt/KeepNoticeDialog.java:114-140 | for times of any size and sign, every state of a run is right if and only if each notice that comes keeps the sum within int and each that goes is the last or leaves a positive sum |
| KeepNotice.ZeroTimesHideTooEarly | edited_source/com/owon/uppersoft/vds/ui/prompt/KeepNoticeDialog.java:114-140 | two notices of zero length: the first to end hides the second |
| KeepNotice.KeepNoticeDialog.Show | edited_source/com/owon/uppersoft/vds/ui/prompt/KeepNoticeDialog.java:116-121 | the first critical section is the entering step |
| KeepNotice.KeepNoticeDialog.End | edited_source/com/owon/uppersoft/vds/ui/prompt/KeepNoticeDialog.java:131-139 | the second critical section is the leaving step |

## Left out

- UsbMirror.LibusbJava.UsbGetBusses: allocations succeed and the classes are loaded; the returns for a failing `NewObject` are not modelled, only the one for a negative array length is.
- The Java classes of the bridge are not in the repository; their objects are taken to be born with null and zero fields.
- UsbMirror.CopyConfigs: the descriptor objects and their arrays are values, so their identity is not captured; nothing else refers to them before the device's `config` field is set, and a device whose copy stops never gets them.
- UsbMirror.LibusbJava.UsbOpen: the C library's own `usb_open` is an uninterpreted function of the C device; the cast of an address to a long is the identity.
- ServerControl.WriteLargeData: asks for a schedule that keeps making progress, without which the source's loop does not end; what was emitted until then is `ServerControl.SocketChannel.ChunksEmitPrefix`.
- ServerLoop.ServerThread.Process: asks for a schedule that keeps making progress, as the senders do; a failing `accept`, `register` or `close` is not modelled.
- Session.EveryCallGetsItsReply: a request is in the server's socket as a whole when it is read and fits one read of 1024 bytes (`Session.CutRequestAnswersItsStart` is what happens otherwise), and the server's writes go out whole; replies are clean in the sense of `Frames.Clean`.
- Session.RepliesLagByTimeouts: a call made before the server has *read* the one before is outside, since the two are then one request (`Session.UnreadRequestsMerge`); `Session.RepliesInReadingOrder` covers it with replies counted by reads. Timeouts that cut through a frame are outside (`Session.CutFrameIsParsedAsReply`).
- ChannelModel.PositionInEveryRun: rests on `setZeroYLoc` of the waveform manager handing the position on to `c_setZero`, and on half ranges that are not negative; the integers are unbounded.
- ChannelInfo.ChannelInfo.CSetVoltage: asks for at least one voltage step, and the `d_` orders are taken to run their follow-up once, at once.
- Text outside ASCII: decoding and encoding are the identity.
- Command handlers, the trunk lookup and the data providers are functions of a clock and the line; the path taken out of a local deep-memory command and the saved file are inside such a function.
- The selector, accepting sockets, the debug console, starting and stopping the server, and its port.
- The other command list builders follow the pattern of the two modelled.
- The thin calls through to libusb, `usb_set_configuration` with its once-only flag, and `usb_strerror`.
- Labels, colours, amperes and frequency of a channel, its probe label, and setters that bypass the device.
- Painting, the message and the position of the notice dialog, and the unused fading.
