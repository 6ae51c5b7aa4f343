# Bluetooth serial-to-CSV app: a Dafny model of its sequential core

The app connects to a Bluetooth serial device over RFCOMM. It reads the byte
stream as newline-terminated text records and holds them in a log. It can
export the log into a file under a folder the user picks. This project models
the parts of that app that are plain logic rather than UI or platform calls,
and proves properties of them:

- **The line framer in the connect thread's read loop**, in module `Framer`.
  `ReadStep` is one pass of the loop on a decoded chunk. `Feed` folds the loop
  over a chunk sequence, and `ReadLoop` is the loop itself as a method.
  `FrameChunk` is the framer the loop evidently intends; see "Findings".
  `Framing` chooses which of the two framers the rest of the model runs.
- **The communicator state machine**, in modules `Communicator` and
  `BluetoothCommunicator`. Every public operation, broadcast receiver case and
  handler dispatch is a pure step on a `State` record. Posted messages queue
  in posting order on the communicator's own handler; this is the Android
  message queue. `HandleMessage` is the looper delivering the oldest message.
  A Java exception that would escape a step becomes a `Failure` carrying a
  `Fault`.
- **The device chooser list**, in module `DeviceChooserAdapter`. This is the
  map from a flat list position to a title row or a device row, and the
  append-only nearby list.
- **The export dialog**, in module `ExportDialog`. It covers the file-name
  guard, the empty-log guard, the file-exists guard, the target path, and the
  text written: each record followed by the line separator.
- **The folder chooser**, in modules `FolderChooser` and `Paths`. It covers
  the directory filter of `getDirsNameFrom`, including its dangling `else`,
  and the navigation by click and back. `Paths` gives `java.io.File`'s Unix
  reading of a path: the separator, `isAbsolute` and `getParent`.

`Wrappers` holds `Option` and `Result`. `Devices` holds the Bluetooth device
record.

The clock, the radio, the socket and the file system are inputs, not
effects. The Bluetooth adapter is an optional `Adapter` value, null when
Bluetooth is unsupported. Socket opening, output writes and file I/O take a
success/failure parameter. The file system is a map from existing paths to
their contents. A folder listing is a map from a directory path to its
entries.

## Model

| member | source | states |
|---|---|---|
| Framer.IndexOf | app/src/main/java/amplastudio/csvgenerator/fragments/bluetooth/communicator/BluetoothCommunicator.java:542 | `indexOf('\n')` is -1 exactly when the chunk has no newline; otherwise it is the position of the first newline |
| Framer.ReadStep | app/src/main/java/amplastudio/csvgenerator/fragments/bluetooth/communicator/BluetoothCommunicator.java:542-556 | a chunk without a newline emits nothing and is appended to the buffer. A chunk with one emits exactly one record, the buffer followed by the text before the first newline, and the buffer is cleared. No newline enters a record or the buffer |
| Framer.LeadingDelimiterEmitsPending | app/src/main/java/amplastudio/csvgenerator/fragments/bluetooth/communicator/BluetoothCommunicator.java:550-553 | a chunk starting with a newline emits the buffer unchanged, even when it is empty |
| Framer.TextAfterFirstDelimiterIsLost | app/src/main/java/amplastudio/csvgenerator/fragments/bluetooth/communicator/BluetoothCommunicator.java:548-556 | whatever follows the first newline of a chunk has no effect on the step |
| Framer.FrameWith | app/src/main/java/amplastudio/csvgenerator/fragments/bluetooth/communicator/BluetoothCommunicator.java:542-556 | the loop as written emits one record for a chunk with a newline and none otherwise; either framer keeps newlines out of its records and buffer |
| Framer.Feed | app/src/main/java/amplastudio/csvgenerator/fragments/bluetooth/communicator/BluetoothCommunicator.java:530-566 | as written, the number of records equals the number of chunks that hold a newline; no record or buffer holds a newline |
| Framer.Poll | app/src/main/java/amplastudio/csvgenerator/fragments/bluetooth/communicator/BluetoothCommunicator.java:541-556 | the imperative twin of `ReadStep`: the Java branches on `delimiterIndex`, written as statements, compute exactly that step |
| Framer.ReadLoop | app/src/main/java/amplastudio/csvgenerator/fragments/bluetooth/communicator/BluetoothCommunicator.java:521-566 | the loop's records and final buffer are those of the fold; there are at most as many records as chunks, and none holds a newline |
| Framer.TailsAreLost | app/src/main/java/amplastudio/csvgenerator/fragments/bluetooth/communicator/BluetoothCommunicator.java:548-556 | two chunks each holding a newline yield exactly the two texts before those newlines, whatever follows them |
| Framer.ChunkingChangesRecords | app/src/main/java/amplastudio/csvgenerator/fragments/bluetooth/communicator/BluetoothCommunicator.java:541-556 | "A\nB\n" in one chunk yields ["A"], while the same text in two chunks yields ["A", "B"] |
| Framer.HelloWorldAsWritten | app/src/main/java/amplastudio/csvgenerator/fragments/bluetooth/communicator/BluetoothCommunicator.java:541-556 | the chunks "HELLO\nWO" then "RLD\n" yield ["HELLO", "RLD"]; "WO" is lost |
| Framer.SplitLinesHaveNoDelimiter | app/src/main/java/amplastudio/csvgenerator/fragments/bluetooth/communicator/BluetoothCommunicator.java:548-556 | no piece of a split at newlines holds a newline |
| Framer.JoinSplit | app/src/main/java/amplastudio/csvgenerator/fragments/bluetooth/communicator/BluetoothCommunicator.java:548-556 | joining the pieces of a split with newlines gives the text back |
| Framer.SplitJoin | app/src/main/java/amplastudio/csvgenerator/fragments/bluetooth/communicator/BluetoothCommunicator.java:548-556 | splitting newline-free lines joined by newlines gives the lines back |
| Framer.SplitAppend | app/src/main/java/amplastudio/csvgenerator/fragments/bluetooth/communicator/BluetoothCommunicator.java:548-556 | splitting `x + y` gives the finished lines of `x`, then the split of `x`'s tail followed by `y` |
| Framer.FrameChunkLosesNothing | app/src/main/java/amplastudio/csvgenerator/fragments/bluetooth/communicator/BluetoothCommunicator.java:548-556 | the intended framer's records and buffer, joined by newlines, are exactly the buffer plus the chunk, and none holds a newline |
| Framer.FrameChunkAppend | app/src/main/java/amplastudio/csvgenerator/fragments/bluetooth/communicator/BluetoothCommunicator.java:548-556 | framing `c + y` in one go equals framing `c` and then `y` |
| Framer.ChunkingInvariant | app/src/main/java/amplastudio/csvgenerator/fragments/bluetooth/communicator/BluetoothCommunicator.java:530-566 | the intended framer folded over chunks equals framing their concatenation in one go, however the text is cut |
| Framer.LineAcrossChunks | app/src/main/java/amplastudio/csvgenerator/fragments/bluetooth/communicator/BluetoothCommunicator.java:548-556 | the intended framer joins a line that straddles two chunks into one record |
| Framer.HelloWorldIntended | app/src/main/java/amplastudio/csvgenerator/fragments/bluetooth/communicator/BluetoothCommunicator.java:541-556 | the intended framer turns "HELLO\nWO", "RLD\n" into ["HELLO", "WORLD"] |
| Communicator.NewCommunicator | app/src/main/java/amplastudio/csvgenerator/fragments/bluetooth/communicator/Communicator.java:15 | the no-argument constructor leaves the handler null and nothing queued |
| Communicator.NewCommunicatorWith | app/src/main/java/amplastudio/csvgenerator/fragments/bluetooth/communicator/Communicator.java:21-23 | the one-argument constructor installs the given handler, possibly null |
| Communicator.SendCallbackMessage | app/src/main/java/amplastudio/csvgenerator/fragments/bluetooth/communicator/Communicator.java:25-29 | with no handler nothing changes; otherwise the handler's queue gains exactly `Message(what, obj)` at its end, and every other queue is untouched |
| Communicator.SetHandlerForCallback | app/src/main/java/amplastudio/csvgenerator/fragments/bluetooth/communicator/Communicator.java:35-43 | the getter returns the handler just set, and no queue changes |
| Communicator.SetThenGet | app/src/main/java/amplastudio/csvgenerator/fragments/bluetooth/communicator/Communicator.java:35-43 | set then get gives the handler set; setting the old handler back restores the state |
| Communicator.TakeNext | app/src/main/java/amplastudio/csvgenerator/fragments/bluetooth/communicator/Communicator.java:27 | the looper takes the oldest message of a queue; nothing when the queue is empty |
| Communicator.SendAllAppends | app/src/main/java/amplastudio/csvgenerator/fragments/bluetooth/communicator/Communicator.java:25-29 | posting several messages appends them to the handler's queue in posting order, or changes nothing without a handler |
| BluetoothCommunicator.Construct | app/src/main/java/amplastudio/csvgenerator/fragments/bluetooth/communicator/BluetoothCommunicator.java:275-285 | the constructor installs the own handler and starts with no thread, no held data, no callback and an empty queue |
| BluetoothCommunicator.IsBluetoothEnabled | app/src/main/java/amplastudio/csvgenerator/fragments/bluetooth/communicator/BluetoothCommunicator.java:291-293 | true exactly when an adapter is present and enabled |
| BluetoothCommunicator.IsDiscovering | app/src/main/java/amplastudio/csvgenerator/fragments/bluetooth/communicator/BluetoothCommunicator.java:339-341 | true exactly when an adapter is present and scanning |
| BluetoothCommunicator.SetCallback | app/src/main/java/amplastudio/csvgenerator/fragments/bluetooth/communicator/BluetoothCommunicator.java:300-302 | only the callback changes |
| BluetoothCommunicator.Connect | app/src/main/java/amplastudio/csvgenerator/fragments/bluetooth/communicator/BluetoothCommunicator.java:353-368 | no adapter: false, and only BLUETOOTH_NOT_SUPPORTED is posted. Adapter disabled: false, and only BLUETOOTH_NOT_ENABLED is posted. Otherwise true, whether or not discovery started; discovery is on exactly when it started, and nothing else changes |
| BluetoothCommunicator.ConnectReportingStart | app/src/main/java/amplastudio/csvgenerator/fragments/bluetooth/communicator/BluetoothCommunicator.java:346-368 | the documented answer: true only when discovery is on, and with Bluetooth enabled true exactly when it is; the state is that of `connect` |
| BluetoothCommunicator.ConnectReportsUnstartedDiscovery | app/src/main/java/amplastudio/csvgenerator/fragments/bluetooth/communicator/BluetoothCommunicator.java:365-366 | with Bluetooth on and discovery failing to start, `connect` still answers true while the documented answer is false |
| BluetoothCommunicator.StopDiscovery | app/src/main/java/amplastudio/csvgenerator/fragments/bluetooth/communicator/BluetoothCommunicator.java:442-445 | fails with a null adapter exactly when there is none; otherwise discovery is off |
| BluetoothCommunicator.Disconnect | app/src/main/java/amplastudio/csvgenerator/fragments/bluetooth/communicator/BluetoothCommunicator.java:375-386 | with an adapter: no connect thread, discovery off, exactly one CONNECTION_CLOSED appended, and nothing else changes. Without an adapter: a null-adapter fault |
| BluetoothCommunicator.ReleaseData | app/src/main/java/amplastudio/csvgenerator/fragments/bluetooth/communicator/BluetoothCommunicator.java:401-403 | the held data is empty and nothing else changes |
| BluetoothCommunicator.SendData | app/src/main/java/amplastudio/csvgenerator/fragments/bluetooth/communicator/BluetoothCommunicator.java:410-415 | no thread: nothing happens. Streams not open: a null-stream fault. Otherwise the buffer is written, or an I/O error is swallowed |
| BluetoothCommunicator.StartListen | app/src/main/java/amplastudio/csvgenerator/fragments/bluetooth/communicator/BluetoothCommunicator.java:424-427 | a fresh connect thread for the device replaces any previous one, and only the thread changes |
| BluetoothCommunicator.OpenSocket | app/src/main/java/amplastudio/csvgenerator/fragments/bluetooth/communicator/BluetoothCommunicator.java:488-506 | CONNECTION_ATTEMPT is posted and the streams open. On failure CONNECTION_FAILED follows, the streams stay null and the thread is kept. Only the thread and the queue change. Nothing happens unless a socket is being opened |
| BluetoothCommunicator.OpenSocketDisablingListen | app/src/main/java/amplastudio/csvgenerator/fragments/bluetooth/communicator/BluetoothCommunicator.java:76-77 | the documented opener: the same events as `OpenSocket`, and a failed open also ends the read loop; only the thread and the queue change |
| BluetoothCommunicator.FailedOpenStillListens | app/src/main/java/amplastudio/csvgenerator/fragments/bluetooth/communicator/BluetoothCommunicator.java:496-499 | after a failed open the thread is kept, a link-up starts it, and its read loop runs on the null stream and faults |
| BluetoothCommunicator.FailedOpenStopsListening | app/src/main/java/amplastudio/csvgenerator/fragments/bluetooth/communicator/BluetoothCommunicator.java:130-132 | with listening disabled on a failed open, a later link-up never reads, whatever chunks arrive |
| BluetoothCommunicator.AclConnected | app/src/main/java/amplastudio/csvgenerator/fragments/bluetooth/communicator/BluetoothCommunicator.java:199-203 | the link flag is set, DEVICE_CONNECTED is appended and the thread is started; nothing else changes. A missing thread or one already started is a fault, each exactly in its case |
| BluetoothCommunicator.ReadAvailable | app/src/main/java/amplastudio/csvgenerator/fragments/bluetooth/communicator/BluetoothCommunicator.java:530-566 | a running loop on open streams applies the framer step and posts one DATA_RECEIVED per record, in order; only the thread buffer and the queue change. On null streams it faults; otherwise nothing happens |
| BluetoothCommunicator.ReadFails | app/src/main/java/amplastudio/csvgenerator/fragments/bluetooth/communicator/BluetoothCommunicator.java:532-564 | an I/O error on open streams ends the read loop and posts nothing; with null streams the uncaught NullPointerException comes first; a loop that is not running is unaffected |
| BluetoothCommunicator.ReadFailsEndsReading | app/src/main/java/amplastudio/csvgenerator/fragments/bluetooth/communicator/BluetoothCommunicator.java:532-564 | after an I/O error on open streams, no later chunk is read |
| BluetoothCommunicator.StoppedReadsNothing | app/src/main/java/amplastudio/csvgenerator/fragments/bluetooth/communicator/BluetoothCommunicator.java:532 | a loop that is not running reads nothing, whatever chunks are available |
| BluetoothCommunicator.AclDisconnected | app/src/main/java/amplastudio/csvgenerator/fragments/bluetooth/communicator/BluetoothCommunicator.java:205-209 | without an adapter, a null-adapter fault through `stopListen`. Otherwise the link flag drops, discovery is off, no thread is left, CONNECTION_LOST then CONNECTION_CLOSED are appended, and nothing else changes |
| BluetoothCommunicator.DeviceFoundBroadcast | app/src/main/java/amplastudio/csvgenerator/fragments/bluetooth/communicator/BluetoothCommunicator.java:225-228 | exactly one DEVICE_FOUND carrying the found device is appended, and nothing else changes |
| BluetoothCommunicator.DiscoveryFinishedBroadcast | app/src/main/java/amplastudio/csvgenerator/fragments/bluetooth/communicator/BluetoothCommunicator.java:230-232 | DISCOVERY_FINISHED is appended and the adapter is no longer scanning; nothing else changes |
| BluetoothCommunicator.GetPairedDevices | app/src/main/java/amplastudio/csvgenerator/fragments/bluetooth/communicator/BluetoothCommunicator.java:459-472 | null, after posting BLUETOOTH_NOT_SUPPORTED, without an adapter; null when nothing is bonded; otherwise exactly the bonded devices. Never a non-null empty array |
| BluetoothCommunicator.Dispatch | app/src/main/java/amplastudio/csvgenerator/fragments/bluetooth/communicator/BluetoothCommunicator.java:246-260 | a DATA_RECEIVED text is appended to the end of the held data; with a callback, exactly one action is appended: the message code with the new held data, the found device, or nothing. Nothing else changes |
| BluetoothCommunicator.HandleMessage | app/src/main/java/amplastudio/csvgenerator/fragments/bluetooth/communicator/BluetoothCommunicator.java:241-262 | the oldest message leaves the queue. A received text extends the held data, earlier entries stay, the reported action is that of `Dispatch`, and nothing else changes |
| BluetoothCommunicator.DisconnectTwice | app/src/main/java/amplastudio/csvgenerator/fragments/bluetooth/communicator/BluetoothCommunicator.java:375-386 | two disconnects post two CONNECTION_CLOSED |
| BluetoothCommunicator.DisconnectThenSendIsNoop | app/src/main/java/amplastudio/csvgenerator/fragments/bluetooth/communicator/BluetoothCommunicator.java:410-415 | `sendData` after `disconnect` changes nothing |
| BluetoothCommunicator.LinkDown | app/src/main/java/amplastudio/csvgenerator/fragments/bluetooth/communicator/BluetoothCommunicator.java:205-209 | link-down clears the flag, leaves no thread, and posts CONNECTION_LOST then CONNECTION_CLOSED |
| BluetoothCommunicator.LinkUp | app/src/main/java/amplastudio/csvgenerator/fragments/bluetooth/communicator/BluetoothCommunicator.java:199-203 | after a successful socket open, link-up sets the flag and posts CONNECTION_ATTEMPT then DEVICE_CONNECTED; the read loop runs on an empty buffer |
| BluetoothCommunicator.ReadAllFrames | app/src/main/java/amplastudio/csvgenerator/fragments/bluetooth/communicator/BluetoothCommunicator.java:521-566 | reading a chunk sequence posts exactly the framer's records, in order, and leaves the framer's buffer in the thread |
| BluetoothCommunicator.DrainAppendsTexts | app/src/main/java/amplastudio/csvgenerator/fragments/bluetooth/communicator/BluetoothCommunicator.java:246-260 | draining the queue appends the queued texts to the held data in queue order; earlier actions stay, and with a callback one action per message follows, as `Reports` describes |
| BluetoothCommunicator.Reports | app/src/main/java/amplastudio/csvgenerator/fragments/bluetooth/communicator/BluetoothCommunicator.java:246-260 | the i-th reported action carries the i-th message code, with the held data as of that message for DATA_RECEIVED, the device for DEVICE_FOUND, and no data otherwise |
| BluetoothCommunicator.ReportsCons | app/src/main/java/amplastudio/csvgenerator/fragments/bluetooth/communicator/BluetoothCommunicator.java:246-260 | handling a queue reports its first message, then the rest from the held data the first leaves |
| BluetoothCommunicator.RecordsReachHeldData | app/src/main/java/amplastudio/csvgenerator/fragments/bluetooth/communicator/BluetoothCommunicator.java:248-250 | once the looper catches up, the held data is the earlier data followed by the framer's records |
| BluetoothCommunicator.HeldDataIgnoresChunking | app/src/main/java/amplastudio/csvgenerator/fragments/bluetooth/communicator/BluetoothCommunicator.java:530-566 | with the intended framer, the held data depends only on the text read, not on how it was cut into chunks |
| DeviceChooserAdapter.ItemCount | app/src/main/java/amplastudio/csvgenerator/fragments/bluetooth/adapter/DeviceChooserAdapter.java:99-104 | the count is the length of the intended layout, and it is zero exactly when the paired array is null and nothing is nearby |
| DeviceChooserAdapter.BindRow | app/src/main/java/amplastudio/csvgenerator/fragments/bluetooth/adapter/DeviceChooserAdapter.java:56-96 | binding a counted position fails exactly for the last position when the paired array is non-null but empty and some device is nearby |
| DeviceChooserAdapter.BindRowFollowsLayout | app/src/main/java/amplastudio/csvgenerator/fragments/bluetooth/adapter/DeviceChooserAdapter.java:56-96 | with a null or non-empty paired array, every counted position binds to its layout row. Both title positions are right, and every paired and nearby index is in range |
| DeviceChooserAdapter.EmptyPairedArrayOverruns | app/src/main/java/amplastudio/csvgenerator/fragments/bluetooth/adapter/DeviceChooserAdapter.java:84-94 | an empty non-null paired array with one nearby device counts three rows, and the third reads index 1 of a one-element list |
| DeviceChooserAdapter.SetPairedDevices | app/src/main/java/amplastudio/csvgenerator/fragments/bluetooth/adapter/DeviceChooserAdapter.java:125-128 | the paired array is replaced and the nearby list kept |
| DeviceChooserAdapter.SetDevicesNearby | app/src/main/java/amplastudio/csvgenerator/fragments/bluetooth/adapter/DeviceChooserAdapter.java:142-145 | the nearby list is replaced, the getter returns it, and the paired array is kept |
| DeviceChooserAdapter.AddDeviceNearby | app/src/main/java/amplastudio/csvgenerator/fragments/bluetooth/adapter/DeviceChooserAdapter.java:151-154 | the device goes at the end, duplicates included, and earlier entries are unchanged |
| DeviceChooserAdapter.ClearDevicesNearbyList | app/src/main/java/amplastudio/csvgenerator/fragments/bluetooth/adapter/DeviceChooserAdapter.java:159-162 | the nearby list is empty and the paired array untouched |
| DeviceChooserAdapter.AddedDeviceIsLastRow | app/src/main/java/amplastudio/csvgenerator/fragments/bluetooth/adapter/DeviceChooserAdapter.java:151-154 | an added device is the new last row, and every row above keeps its binding |
| DeviceChooserAdapter.ClearedListShowsPairedOnly | app/src/main/java/amplastudio/csvgenerator/fragments/bluetooth/adapter/DeviceChooserAdapter.java:159-162 | after clearing, the list is the paired section alone |
| DeviceChooserAdapter.CommunicatorPairedDevicesBind | app/src/main/java/amplastudio/csvgenerator/fragments/bluetooth/communicator/BluetoothCommunicator.java:467 | paired devices from the communicator always give a list whose every position binds |
| Paths.Join | app/src/main/java/amplastudio/csvgenerator/fragments/ExportSerialStreamDialogFragment.java:104 | the path is the folder, one separator, then the name |
| Paths.Parent | app/src/main/java/amplastudio/csvgenerator/folderchooser/FolderChooserActivity.java:105 | the parent is shorter, and absolute when the path is. For an absolute path it is null exactly for "/", "/" for a top-level entry, and the text before the last separator otherwise; a relative path has none without a separator. What follows the parent is one separator and a name without one |
| Paths.ParentOfJoin | app/src/main/java/amplastudio/csvgenerator/folderchooser/FolderChooserActivity.java:130 | the parent of a folder joined with a plain name is that folder |
| ExportDialog.ExportText | app/src/main/java/amplastudio/csvgenerator/fragments/ExportSerialStreamDialogFragment.java:95-101 | the text is empty without records; otherwise it starts with the first record, then the separator |
| ExportDialog.ExportTextAppend | app/src/main/java/amplastudio/csvgenerator/fragments/ExportSerialStreamDialogFragment.java:95-101 | the text of a concatenated log is the concatenation of the texts |
| ExportDialog.ExportTextIsJoin | app/src/main/java/amplastudio/csvgenerator/fragments/ExportSerialStreamDialogFragment.java:95-101 | with a newline separator, the text is the records joined by newlines plus a final newline |
| ExportDialog.ExportedLinesAreRecords | app/src/main/java/amplastudio/csvgenerator/fragments/ExportSerialStreamDialogFragment.java:95-101 | newline-free records, exported and split at newlines, come back in order, followed by an empty tail |
| ExportDialog.BuildText | app/src/main/java/amplastudio/csvgenerator/fragments/ExportSerialStreamDialogFragment.java:95-101 | the string-builder loop produces the export text |
| ExportDialog.Export | app/src/main/java/amplastudio/csvgenerator/fragments/ExportSerialStreamDialogFragment.java:83-131 | an empty log exports nothing, and an existing file aborts the export untouched. Otherwise the file `folder/name` is created holding the text, or, when the stream fails, the part of the text written before the failure; the exported toast shows even when I/O fails. Existing files never change |
| ExportDialog.OnClick | app/src/main/java/amplastudio/csvgenerator/fragments/ExportSerialStreamDialogFragment.java:61-73 | an empty name only asks for a name, with no export and no dismiss; any other name exports and dismisses |
| ExportDialog.SecondExportFindsFile | app/src/main/java/amplastudio/csvgenerator/fragments/ExportSerialStreamDialogFragment.java:116-119 | exporting under the same name again finds the file and keeps the first contents |
| ExportDialog.HeldRecordsExportLineByLine | app/src/main/java/amplastudio/csvgenerator/fragments/ExportSerialStreamDialogFragment.java:86-101 | records read by the connect thread export as exactly one line each, in order |
| FolderChooser.KeptNamesAreKeptEntries | app/src/main/java/amplastudio/csvgenerator/folderchooser/FolderChooserActivity.java:149 | a name is kept exactly when a readable, visible directory of that name is listed |
| FolderChooser.CollectAsWrittenIsKeptNames | app/src/main/java/amplastudio/csvgenerator/folderchooser/FolderChooserActivity.java:151-155 | with the dangling `else`, an absolute parent yields every kept name in listing order, and a relative parent yields none |
| FolderChooser.CollectDirs | app/src/main/java/amplastudio/csvgenerator/folderchooser/FolderChooserActivity.java:146-158 | the loop with `continue` collects the names as written |
| FolderChooser.DirsNameFrom | app/src/main/java/amplastudio/csvgenerator/folderchooser/FolderChooserActivity.java:139-161 | a null listing or a relative path yields nothing. An absolute listed path yields its kept names, and every name returned is a readable, visible directory |
| FolderChooser.Show | app/src/main/java/amplastudio/csvgenerator/folderchooser/FolderChooserActivity.java:139-141 | every listing sets the current folder to the path asked for |
| FolderChooser.OnCreate | app/src/main/java/amplastudio/csvgenerator/folderchooser/FolderChooserActivity.java:68 | the chooser opens on the storage root with the root's kept names |
| FolderChooser.OnBackPressed | app/src/main/java/amplastudio/csvgenerator/folderchooser/FolderChooserActivity.java:102-109 | at the root it leaves the chooser; at "/" a null parent throws; otherwise it lists the parent, and both paths stay absolute |
| FolderChooser.OnClick | app/src/main/java/amplastudio/csvgenerator/folderchooser/FolderChooserActivity.java:130 | clicking lists `current/tag` |
| FolderChooser.OnCreateDirectoryRequest | app/src/main/java/amplastudio/csvgenerator/folderchooser/FolderChooserActivity.java:170-176 | the current folder is listed again |
| FolderChooser.BackUndoesClick | app/src/main/java/amplastudio/csvgenerator/folderchooser/FolderChooserActivity.java:105 | back after clicking a folder shows the folder it was opened from |

## Left out

- Threads, the `available()` polling, `Thread.join` and the looper are left out because they are concurrency. The read loop is a fold over the chunks it reads. The looper is `HandleMessage`, which delivers the oldest queued message.
- CONNECTION_ATTEMPT and CONNECTION_FAILED can come from a cancelled connect thread's opener and interleave with later events. `OpenSocket` runs only for the current thread.
- A DATA_RECEIVED callback hands the live held-data list to the callback. The model records a snapshot of it.
- The socket itself is left out because it is I/O: `createRfcommSocketToServiceRecord`, the RFCOMM UUID, `connect`, `read` and `close`. Their outcomes are boolean parameters, or an absent chunk.
- UTF-8 decoding of chunks is library behaviour, so chunks are already-decoded strings.
- `register` and `unregister` of the broadcast receivers, and `getHeldData` and `isConnected` as plain getters, are left out. They hold no logic beyond reading a field.
- `cancel()` is left out. It closes streams and swallows its own NullPointerException, so it has no effect on the state beyond dropping the thread.
- UI classes, view binding, toasts (other than which toast is shown), menus and listeners are left out. This includes `onDeviceChosen` dispatch in the device chooser and `setOnDeviceChosenListener`.
- `AppDataBase` is a SharedPreferences wrapper and is not part of this model. The export folder is a parameter.
- `hasEnoughSpace` is left out: its only call is commented out. Its comparison also reads inverted.
- Actual file bytes are left out, and so is `getBytes()` in the platform charset. The file holds the exported text, and a write that fails partway keeps a prefix of it counted in characters, not bytes.
- `Environment` is left out, and so is the branch of `onCreate` for storage that is not mounted (a toast, RESULT_CANCELED and `finish()`). The storage root is a parameter.
- Path normalisation is left out: paths are taken as already normalised, and `getAbsolutePath` of an absolute path is the path itself.
- A null nearby list handed to `setDevicesNearby` is left out, because sequences are never null.
- BluetoothCommunicator.StopListen: no contract of its own; it is `Disconnect`, and `LinkDown` states its effect through the ACL receiver.
- Communicator.GetHandlerForCallback: no contract of its own; `SetHandlerForCallback` and `SetThenGet` state what it returns.
- DeviceChooserAdapter.GetDevicesNearby: no contract of its own; it is a plain getter, and `SetDevicesNearby`, `AddDeviceNearby` and `ClearDevicesNearbyList` state what it returns.
- FolderChooser.OnClick: from the folder "/" the clicked path is "//name", which java.io.File would normalise to "/name"; the model keeps the doubled separator, because paths are taken as already normalised.

Where the code and its evident intent differ, the model follows the code:

- Only the first newline of a chunk closes a record, and the rest of the chunk is dropped. The intended framer, `Framer.FrameChunk`, is proved alongside it; see "Findings".
- `disconnect` is not idempotent in its events: every call posts CONNECTION_CLOSED. It also throws when there is no adapter, because `stopDiscovery` dereferences it unguarded.
- An I/O error in the read loop only ends the loop (`ReadFails`). No link-lost event is posted and no disconnect runs. CONNECTION_LOST comes only from the ACL-disconnected broadcast.
- A failed socket open posts CONNECTION_FAILED but keeps the connect thread, although that event is documented to disable data listening. A later link-up starts the thread, whose read loop then dies on the null input stream (`FailedOpenStillListens`). The documented opener, `BluetoothCommunicator.OpenSocketDisablingListen`, is proved alongside it; see "Findings".
- `connect` ignores the answer of `startDiscovery` and returns true whenever Bluetooth is on, although it is documented to answer whether discovery started. The documented answer, `BluetoothCommunicator.ConnectReportingStart`, is proved alongside it; see "Findings".

## Findings

| source | as written | input that shows it | evidently intended | confidence | as-written member | corrected member |
|---|---|---|---|---|---|---|
| app/src/main/java/amplastudio/csvgenerator/fragments/bluetooth/communicator/BluetoothCommunicator.java:548-556 | a chunk with a newline closes one record from the text before its first newline. The builder is then cleared, so the rest of the chunk is dropped | chunks "HELLO\nWO", "RLD\n" give ["HELLO", "RLD"] | every newline closes a record, and the text after the last one carries over, giving ["HELLO", "WORLD"] whatever the chunking | high, not executed | Framer.HelloWorldAsWritten | Framer.ChunkingInvariant |
| app/src/main/java/amplastudio/csvgenerator/fragments/bluetooth/communicator/BluetoothCommunicator.java:365-366 | `startDiscovery()` is called for its effect only and `connect` then returns true | Bluetooth enabled and `startDiscovery()` answering false: `connect` returns true with no discovery running | return whether discovery started, as the method's documentation says | medium, not executed | BluetoothCommunicator.ConnectReportsUnstartedDiscovery | BluetoothCommunicator.ConnectReportingStart |
| app/src/main/java/amplastudio/csvgenerator/fragments/bluetooth/communicator/BluetoothCommunicator.java:496-499 | the opener's IOException handler only posts CONNECTION_FAILED; the connect thread and its null streams stay | a failed open followed by ACL_CONNECTED: the thread starts and `inputStream.available()` throws a NullPointerException | data listening is disabled once the connection has failed, as the CONNECTION_FAILED documentation says | medium, not executed | BluetoothCommunicator.FailedOpenStillListens | BluetoothCommunicator.OpenSocketDisablingListen |
