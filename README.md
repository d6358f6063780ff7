# A verified model of the Direktil support packages

This project models, in Dafny, the core of the Direktil `pkg` repository. Four parts are covered.

- **The log subsystem** (`log/`). Named log streams buffer entries while file output is off. Once it is on, each stream writes every entry as a framed record to `/var/log/<name>.log`. When an entry falls in a new clock hour, the stream rotates the live file into `/var/log/archives/<name>.<hour>.log` and schedules its compression. A frame is the base 32 text (RFC 4648, section 6, padded) of a 13-byte header, then the payload, then a `'\n'` when the payload does not already end with one. The header holds the flags, the taint, a 24-bit big-endian length and the 64-bit big-endian UnixNano time. A reader parses frames back one at a time.
- **The cluster configuration** (`clustersconfig/`). This covers the hosts, groups, clusters, templates and certificate requests and their lookups, and the service addresses of a cluster. It also covers the `indent` template helper and the directory loader `FromDir`, which lists each sub-directory's YAML files and decodes them.
- **The local configuration** (`localconfig/`) and its lookups.
- **The sysfs filter** (`sysfs/`). It reports the devices of a class whose `uevent` file carries every requested `property=value` line.

The modules are:

- `Wrappers`, `Bytes` and `Seqs` (common.dfy): results, bytes, big-endian integers and sequence lemmas.
- `Text` (text.dfy): the `strings` helpers the sources call.
- `Lookup` (lookup.dfy): the first-match search every lookup shares.
- `Files` (files.dfy): the file system as a value — readable files, unreadable paths, glob answers — and the path functions.
- `Base32` (base32.dfy).
- `LogTaint` (taint.dfy).
- `LogEntry` (entry.dfy): the frame codec, with a `bytes.Buffer` class as reader and writer.
- `LogStream` (log.dfy): one stream as a `Log` class over a `FileSystem` class, each method proved equal to a step function on values.
- `LogRegistry` (registry.dfy): the `logs` map and the `logOutputEnabled` flag as a `Registry` class.
- `ClustersConfig` (clustersconfig.dfy).
- `ClustersDir` (dirstore.dfy).
- `LocalConfig` (localconfig.dfy).
- `Sysfs` (sysfs.dfy).

Several inputs are parameters of the model rather than computed by it:

- The YAML decoders, and `net.ParseCIDR`.
- The clock reading of `append`.
- The iteration order of Go's `logs` map.
- The answer `filepath.Glob` gives for each pattern.

## Model

| member | source | states |
|---|---|---|
| LogTaint.ColorOf | log/taint.go:18-33 | A taint has no colour exactly when it is Normal or above OK |
| LogTaint.ColorOfInverse | log/taint.go:7-33 | Each colour other than none comes from exactly one taint, the one TaintOf gives back |
| LogTaint.ColorOfInjective | log/taint.go:18-33 | Distinct named taints from Info to OK have distinct colours |
| Base32.SymbolValue | log/entry.go:47-55 | A byte is a base 32 symbol exactly for 'A'..'Z' and '2'..'7', and its value maps back to it |
| Base32.Encode | log/entry.go:47-55 | The encoding of n bytes is EncodedLen(n) characters |
| Base32.DecodeEncode | log/entry.go:47-81 | Decoding the encoding of any byte sequence gives it back |
| Base32.EncodePrintable | log/entry.go:55 | Every character of an encoding is a symbol or '=' padding |
| Base32.DecodeBlockEncodeBlock | log/entry.go:47-81 | One padded 8-character group decodes to the 1 to 5 bytes it encodes |
| LogEntry.Header | log/entry.go:30-44 | The raw header is always 13 bytes |
| LogEntry.FrameLayout | log/entry.go:47-64 | A frame is 24 header characters, the payload and a final newline, whether forced or the payload's own |
| LogEntry.FlagsRecordForcedNewline | log/entry.go:23-28 | The AppendNL bit is set exactly when the payload's last byte is not '\n' |
| LogEntry.LengthField | log/entry.go:33-35 | The three length bytes read big-endian give the length modulo 2^24 |
| LogEntry.TimeField | log/entry.go:36-43 | The eight time bytes read big-endian and wrapped to int64 give the time back |
| LogEntry.HeaderFields | log/entry.go:30-44 | The header stores the flags, the taint, the length modulo 2^24 and the exact time |
| LogEntry.EncodeFrame | log/entry.go:47-61 | The fresh array holds exactly the frame: encoded header, payload, forced newline |
| LogEntry.BufferRead | log/entry.go:75-114 | A read takes min(n, available) bytes into a zeroed slice and reports EOF only on an empty buffer when n > 0 |
| LogEntry.Buffer.Write | log/entry.go:63-64 | The written bytes are appended to the unread bytes and their count returned |
| LogEntry.Buffer.Read | log/entry.go:75-78 | A read on the buffer does what BufferRead says |
| LogEntry.WriteTo | log/entry.go:19-65 | The writer gains exactly the frame, and its length is returned |
| LogEntry.ReadBody | log/entry.go:84-117 | On success the payload read has the header's length, and the rest never grows |
| LogEntry.ReadWith | log/entry.go:68-119 | A read from an empty buffer returns EOF with count 0 and leaves the receiver unchanged; a successful read consumes at least one byte, and no read adds bytes |
| LogEntry.ReadFrom | log/entry.go:68-81 | The header read and decode, then ReadFields; the state reached equals the source's reader ReadSpec |
| LogEntry.ReadFields | log/entry.go:84-117 | The length and time shifted out of the decoded header, then the payload read, equal ReadBody |
| LogEntry.DecodeEntryHeader | log/entry.go:47-81 | The 24 header characters decode back to the 13 header bytes |
| LogEntry.ReadFrameBack | log/entry.go:68-119 | The source's reader restores the written entry from its frame and consumes one byte past the payload |
| LogEntry.ReadCorrectedFrameBack | log/entry.go:68-119 | With the single-bit flag test, a frame reads back exactly, whatever follows it |
| LogEntry.FramesAppend | log/log.go:242 | Writing one more entry appends its frame to the frames already written |
| LogEntry.ReadAllFrames | log/entry.go:68-119 | The source's reader reads a file of frames back in order when no payload but the last ends with '\n' |
| LogEntry.ReadAllCorrectedFrames | log/entry.go:97-100 | With the single-bit flag test, any file of frames reads back entry for entry |
| LogEntry.EncodedHeaderGroups | log/entry.go:47-55 | The encoded header is 21 symbols followed by 3 padding characters |
| LogEntry.LiteralReaderLosesAlignment | log/entry.go:97-100 | After a payload ending in '\n', the source's reader does not read the next frame back |
| LogEntry.MisalignedFrame | log/entry.go:75-81 | A frame read from its second byte yields no entry equal to it |
| LogEntry.ReadOwnFrame | log/entry.go:68-119 | Reading a buffer holding one frame gives the entry back with nothing unread |
| LogEntry.WriteThenRead | log/entry_test.go:9-38 | Writing an entry to an empty buffer and reading it back gives the same entry, no error and an empty buffer |
| LogStream.Bucket | log/log.go:211 | The hour text of an instant is the index of the clock hour it falls in |
| LogStream.BucketSameHour | log/log.go:211-215 | Two instants share an hour text exactly when they fall in the same hour |
| LogStream.Renamed | log/log.go:223-225 | A rename succeeds exactly when the source exists, and moves its bytes to the target |
| LogStream.Opened | log/log.go:233-240 | An open succeeds exactly on openable paths, and creates a missing file empty |
| LogStream.Closed | log/log.go:217-219 | Closing leaves a closed handle on the same path and succeeds only on an open one |
| LogStream.WriteEntryStep | log/log.go:210-245 | writeEntry changes neither writeToFile nor pending |
| LogStream.Deliver | log/log.go:194-202 | writeEntry plus the emergency fallback changes neither writeToFile nor pending |
| LogStream.DeliverWritesOrReports | log/log.go:194-245 | After the rotation, a delivered entry is either appended as its frame through an open handle on its hour, or reported lost on standard error with nothing else changed |
| LogStream.OpenThenAppend | log/log.go:233-242 | Opening the live file and then appending to it is the same as appending to it |
| LogStream.NewLogCoherent | log/log.go:41-61 | A new stream has no output and no hour |
| LogStream.StepsKeepCoherent | log/log.go:97-245 | Every step keeps the hour text empty whenever the stream has no output |
| LogStream.DeliverAllKeepsCoherent | log/log.go:97-107 | Delivering a sequence of entries keeps the stream coherent |
| LogStream.AppendBuffers | log/log.go:187-192 | With file output off, append adds exactly the entry, even one with an empty payload, to the end of pending and changes nothing else |
| LogStream.SameBucketAppends | log/log.go:210-245 | An entry in the hour of the open live file is appended to it as its frame |
| LogStream.SameBucketInOrder | log/log.go:194-245 | Entries of the current hour reach the live file as their frames in call order |
| LogStream.DeliverAllSplit | log/log.go:101-105 | Delivering a + b is delivering a and then b from the state a leaves |
| LogStream.DeliverAllCons | log/log.go:101-105 | Delivering a list is delivering its first entry and then the rest |
| LogStream.ClosedHandleReportsAll | log/log.go:101-105 | Through a closed handle, entries of its hour are each reported lost, in order, and no file changes |
| LogStream.FirstDeliveryOpens | log/log.go:210-245 | The first entry delivered to a stream without output opens the live file for its hour and appends its frame, reporting nothing |
| LogStream.EnableOpensLiveFile | log/log.go:97-107 | Enabling a stream without output, with pending entries of one hour, opens the live file for that hour and appends every pending frame to it in order, reporting nothing |
| LogStream.EnableSameHourReportsPending | log/log.go:97-107 | Enabling a disabled stream within the hour of its pending entries reports each of them lost, in order, and changes no file |
| LogStream.NewHourInOrder | log/log.go:101-105 | Through a closed handle, the first entry of a new hour rotates and the later entries of that hour are appended after it in order |
| LogStream.EnableNewHourRotates | log/log.go:97-107 | Enabling a disabled stream in a later hour reports the failed close, archives the live file and writes every pending frame to a fresh live file in order |
| LogStream.RotationOnNewHour | log/log.go:215-242 | A new hour archives the live file, schedules its compression and opens a fresh live file with just the new frame |
| LogStream.OpenFailureLosesEntry | log/log.go:194-240 | When the live file cannot be opened, the stream is left without output and the entry goes to the emergency log; from no output, that report is the only change to the disk |
| LogStream.DisableKeepsHandle | log/log.go:109-118 | Disabling closes the output but keeps the handle, the hour and pending |
| LogStream.ReenabledSameHourLoses | log/log.go:109-245 | Disabling and re-enabling within one hour leaves a closed handle, so the next entry is lost to the emergency log |
| LogStream.ReenabledNewHourRecovers | log/log.go:215-242 | Re-enabling in a later hour archives the live file with its old contents and opens a fresh one |
| LogStream.FileSystem.Rename | log/log.go:223-225 | The file system moves as Renamed says |
| LogStream.FileSystem.Open | log/log.go:233-240 | The file system opens as Opened says |
| LogStream.FileSystem.Append | log/log.go:242 | The file gains exactly the written bytes |
| LogStream.Log.constructor | log/log.go:49-52 | A new stream has its name, nothing pending and no output |
| LogStream.Log.WriteEntry | log/log.go:210-245 | The stream and the file system change as WriteEntryStep says |
| LogStream.Log.WriteTo | log/log.go:242 | The frame goes through the handle as WriteOut says |
| LogStream.Log.EmergencyLog | log/log.go:199-202 | Standard error gains exactly the lost entry |
| LogStream.Log.DeliverEntry | log/log.go:194-196 | The stream and the file system change as Deliver says |
| LogStream.Log.EnableFileOutput | log/log.go:97-107 | The stream and the file system change as EnableStep says, and every pending payload stays non-empty |
| LogStream.Log.DisableFileOutput | log/log.go:109-118 | The stream changes as DisableStep says |
| LogStream.Log.Append | log/log.go:160-197 | The stream and the file system change as AppendStep says for the entry built from now, taint and data; with file output off an empty payload is buffered |
| LogStream.Log.Write | log/log.go:205-208 | Append with the Normal taint, reporting len(b) and no error |
| LogRegistry.EnableAll | log/log.go:64-78 | Enabling a set of streams keeps the registered names, the buffers and the unopenable paths |
| LogRegistry.DisableAll | log/log.go:81-95 | Disabling keeps the registered names and the buffers |
| LogRegistry.GetIdempotent | log/log.go:41-61 | A second Get changes nothing, and the first adds at most the requested stream |
| LogRegistry.GetNewStream | log/log.go:48-58 | A new stream starts empty and is enabled when file output is on, without touching the disk |
| LogRegistry.SwitchesIdempotent | log/log.go:64-95 | EnableFiles and DisableFiles do nothing when the flag already has the target value |
| LogRegistry.DeliverLogDisk | log/log.go:210-245 | A stream's state after a step depends on which paths cannot be opened, not on file contents |
| LogRegistry.DeliverAllLogDisk | log/log.go:97-107 | The same, for a sequence of entries |
| LogRegistry.EnableAllLogs | log/log.go:72-74 | Each stream ends as if it alone had been enabled, whatever the map order |
| LogRegistry.EnableFilesEnablesAll | log/log.go:64-78 | EnableFiles turns on every stream and keeps every pending buffer |
| LogRegistry.DisableAllLogs | log/log.go:89-91 | Each stream ends as if it alone had been disabled, whatever the map order |
| LogRegistry.DisableFilesDisablesAll | log/log.go:81-95 | DisableFiles closes every output and clears every writeToFile, changing no file |
| LogRegistry.EnableAllSingle | log/log.go:72-74 | Enabling over one registered name is enableFileOutput on that stream alone |
| LogRegistry.EnableOneBuffered | log/log.go:97-107 | Enabling a new stream holding one entry opens its live file on the entry's hour and writes exactly that frame |
| LogRegistry.EnableFilesFlushesOne | log/log.go:64-78 | EnableFiles on a registry whose one stream buffered one entry switches it on and writes exactly that frame to the live file |
| LogRegistry.PrintThenEnable | log/log.go:41-78 | Get, a print through the returned handle while file output is off, then EnableFiles: the stream ends on, with the entry still pending, and the live file gains exactly its frame |
| LogRegistry.BufferEmptyPrint | log/log.go:187-192 | A new registry's one stream buffers an empty print while file output is off, and no file changes |
| LogRegistry.EmptyPrintThenGet | log/log.go:41-95 | After an empty print is buffered, Get returns the same stream and registers another, and DisableFiles with output off changes nothing |
| LogRegistry.Registry.constructor | log/log.go:21-26 | The registry starts empty with file output off |
| LogRegistry.Registry.Get | log/log.go:41-61 | Returns the registered stream, or registers a fresh one, as GetStep says, whatever the other streams have buffered |
| LogRegistry.Registry.Register | log/log.go:57 | The new stream is added under its name |
| LogRegistry.Registry.EnableOne | log/log.go:73 | The named stream changes as EnableStep says and the others do not |
| LogRegistry.Registry.DisableOne | log/log.go:90 | The named stream changes as DisableStep says and the others do not |
| LogRegistry.Registry.EnableFiles | log/log.go:64-78 | The registry changes as EnableFilesStep says |
| LogRegistry.Registry.EnableEach | log/log.go:72-74 | The loop leaves the streams and the disk as EnableAll says |
| LogRegistry.Registry.DisableFiles | log/log.go:81-95 | The registry changes as DisableFilesStep says, whatever the streams have buffered |
| LogRegistry.Registry.DisableEach | log/log.go:89-91 | The loop leaves the streams as DisableAll says |
| Lookup.FirstMatch | clustersconfig/clustersconfig.go:41-48 | None exactly when no element matches, otherwise a matching element of the sequence |
| ClustersConfig.Config.Host | clustersconfig/clustersconfig.go:41-48 | The first host with the name, or none when no host has it |
| ClustersConfig.Config.HostByIP | clustersconfig/clustersconfig.go:50-63 | The first host whose IP or one of whose other IPs matches, or none |
| ClustersConfig.Config.HostByMAC | clustersconfig/clustersconfig.go:65-76 | The first host whose lower-cased MAC equals the normalised query, or none |
| ClustersConfig.Config.Group | clustersconfig/clustersconfig.go:78-85 | The first group with the name, or none |
| ClustersConfig.Config.Cluster | clustersconfig/clustersconfig.go:87-94 | The first cluster with the name, or none |
| ClustersConfig.Config.ConfigTemplate | clustersconfig/clustersconfig.go:96-103 | The first config template with the name, or none |
| ClustersConfig.Config.StaticPodsTemplate | clustersconfig/clustersconfig.go:105-112 | The first static pods template with the name, or none |
| ClustersConfig.Config.CSR | clustersconfig/clustersconfig.go:114-121 | The first certificate request with the name, or none |
| ClustersConfig.Cluster.NthSvcIP | clustersconfig/clustersconfig.go:210-220 | Fails exactly when the services CIDR does not parse, and otherwise returns a fresh copy of the network address with n added to its last byte |
| ClustersConfig.Cluster.KubernetesSvcIP | clustersconfig/clustersconfig.go:202-204 | The first address after the network address |
| ClustersConfig.Cluster.DNSSvcIP | clustersconfig/clustersconfig.go:206-208 | The second address after the network address |
| ClustersConfig.SvcIPValue | clustersconfig/clustersconfig.go:216-217 | The address keeps its length and every byte but the last, and moves n past its 256-block start modulo 256 |
| ClustersConfig.SvcIPCompose | clustersconfig/clustersconfig.go:217 | Adding a then b is adding a + b modulo 256, and adding 0 changes nothing |
| ClustersConfig.DNSAfterKubernetes | clustersconfig/clustersconfig.go:202-208 | The DNS address is the one after the Kubernetes address, and the two differ |
| ClustersConfig.ReplaceLines | clustersconfig/clustersconfig.go:143 | Replacing every '\n' by '\n' plus the indent keeps the first line and indents every later one |
| ClustersConfig.IndentLines | clustersconfig/clustersconfig.go:142-145 | Every line of the indented text is the indent followed by the matching line of the input |
| ClustersConfig.HostByMACAlike | clustersconfig/clustersconfig.go:65-76 | Queries that differ only in letter case and '-' versus ':' find the same host |
| ClustersConfig.DashedMACNeverFound | clustersconfig/clustersconfig.go:67-70 | A host whose stored MAC contains '-' is never found by MAC |
| ClustersDir.ListNames | clustersconfig/dir.go:131-141 | At most one name per matched file, each non-empty and not starting with '.' |
| ClustersDir.DirStore.List | clustersconfig/dir.go:125-144 | The glob's error, or the filtered names of the matched files |
| ClustersDir.DirStore.Get | clustersconfig/dir.go:147-149 | Reads the key's YAML file under the directory |
| ClustersDir.DirStore.LoadAll | clustersconfig/dir.go:17-68 | Each listed name's file is read and decoded into a blank record with that name; the first error aborts |
| ClustersDir.DirStore.LoadTemplates | clustersconfig/dir.go:71-89 | Each listed file becomes a template named after it; the first error aborts |
| ClustersDir.DirStore.LoadedFailureStays | clustersconfig/dir.go:17-68 | Once a load fails, loading more names reports the same error |
| ClustersDir.DirStore.TemplatesFailureStays | clustersconfig/dir.go:71-89 | Once a template load fails, loading more names reports the same error |
| ClustersDir.FromDir | clustersconfig/dir.go:13-118 | The loop-by-loop load equals FromDirSpec: sections, then the SSL configuration, then the certificate requests |
| ClustersDir.ListNamesAppend | clustersconfig/dir.go:131-141 | Listing keeps the glob's order: the listing of a concatenation is the concatenation of the listings |
| ClustersDir.ListNamesFrom | clustersconfig/dir.go:133-140 | Every listed name is the trimmed base name of some matched file |
| ClustersDir.ListNamesOne | clustersconfig/dir.go:133-140 | One file is listed under its name exactly when that name is not hidden |
| ClustersDir.ListThenGet | clustersconfig/dir.go:126-149 | The name listed for a visible file reads that same file back through Get |
| ClustersDir.KeyPathOfJoin | clustersconfig/dir.go:147-149 | Get of dir/name opens root/dir/name.yaml |
| ClustersDir.HiddenYamlListed | clustersconfig/dir.go:133-138 | A file named just ".yaml" is listed under its directory's name |
| ClustersDir.CorrectedSkipsHidden | clustersconfig/dir.go:136-138 | With the base name tested before trimming, no hidden file is listed |
| ClustersDir.CorrectedAgrees | clustersconfig/dir.go:133-138 | The two listings agree on YAML files other than a bare ".yaml" |
| ClustersDir.BaseTrimYaml | clustersconfig/dir.go:133-134 | For such files, trimming and taking the base name commute |
| ClustersDir.LoadedInOrder | clustersconfig/dir.go:17-23 | A successful load has one record per name, in order, each decoded from that name's file |
| ClustersDir.LoadedFails | clustersconfig/dir.go:17-23 | A load fails exactly when some name's file cannot be read or decoded |
| ClustersDir.TemplatesInOrder | clustersconfig/dir.go:71-89 | A successful template load has one template per name, holding the raw file |
| ClustersDir.FromDirOptionalFiles | clustersconfig/dir.go:98-115 | Missing optional files leave their fields empty; other read errors and decoding errors abort |
| ClustersDir.FromDirListingFails | clustersconfig/dir.go:25-29 | A failing cluster listing aborts the load with its error |
| ClustersDir.FromDirContents | clustersconfig/dir.go:25-96 | A successful load holds one record per listed file of each section, in listing order and named after its file |
| LocalConfig.LocalConfig.ClusterByName | localconfig/localconfig.go:27-34 | The first cluster with the name, or none |
| LocalConfig.LocalConfig.HostByIP | localconfig/localconfig.go:36-45 | The first host one of whose IPs matches, or none |
| LocalConfig.LocalConfig.HostByMAC | localconfig/localconfig.go:47-60 | The first host with a lower-cased MAC equal to the normalised query, or none |
| LocalConfig.DashedHostNeverFound | localconfig/localconfig.go:47-60 | A host found by MAC has a stored MAC without '-' |
| LocalConfig.HostByMACAlike | localconfig/localconfig.go:48-49 | Queries that differ only in letter case and '-' versus ':' find the same host |
| Sysfs.Lines | sysfs/sysfs.go:28 | A file always has at least one line |
| Sysfs.Devices | sysfs/sysfs.go:20-52 | At most one device per matched file |
| Sysfs.DeviceByProperty | sysfs/sysfs.go:11-55 | The labelled loop computes DeviceByPropertySpec: none on a glob error, else the devices in file order |
| Sysfs.HasLine | sysfs/sysfs.go:38-44 | Found exactly when the filter is one of the lines |
| Sysfs.ReadDevName | sysfs/sysfs.go:30-35 | The DEVNAME loop computes DevName |
| Sysfs.DevNameLast | sysfs/sysfs.go:30-35 | The name is "" without a DEVNAME= line, else the rest of the last such line |
| Sysfs.DeviceKept | sysfs/sysfs.go:22-51 | A file contributes its device name exactly when it is readable and every filter is one of its lines |
| Sysfs.DevicesAppend | sysfs/sysfs.go:20-52 | The output follows file order |
| Sysfs.NoFiltersKeepsReadable | sysfs/sysfs.go:37-51 | With no filters every readable file contributes one entry |
| Sysfs.UnreadableSkipped | sysfs/sysfs.go:22-26 | An unreadable file contributes nothing |
| Sysfs.DeviceByPropertyResult | sysfs/sysfs.go:12-16 | The result is nil exactly when the glob fails, and otherwise has at most one name per file |
| Text.Lower | clustersconfig/clustersconfig.go:67 | Lower-casing maps each character through LowerChar and keeps the length |
| Text.Split | sysfs/sysfs.go:28 | At least one piece, none containing the separator |
| Text.JoinSplit | sysfs/sysfs.go:28 | Joining the pieces of a split restores the string |
| Text.SplitJoin | sysfs/sysfs.go:28 | Splitting a join of separator-free pieces gives the pieces back |
| Text.TrimSpaceSlice | sysfs/sysfs.go:28 | TrimSpace keeps a middle slice and removes only white space, from both ends |
| Text.TrimSuffix | clustersconfig/dir.go:133 | A present suffix is removed once, and otherwise the string is unchanged |
| Text.TrimSuffixConcat | clustersconfig/dir.go:133 | Trimming p from s + p gives s |
| Text.NormalizeMac | clustersconfig/clustersconfig.go:67 | The normalised query contains no '-' |
| Text.NormalizeMacAlike | clustersconfig/clustersconfig.go:67 | Spellings that differ only in letter case and '-' versus ':' normalise alike |
| Text.LowerIdempotent | clustersconfig/clustersconfig.go:70 | Lower-casing twice is lower-casing once |
| Files.ReadFile | sysfs/sysfs.go:22 | Succeeds exactly on readable files with their contents; the error says whether the file does not exist |
| Files.Base | clustersconfig/dir.go:134 | filepath.Base is never empty and holds no '/' except the root |
| Files.BaseOfJoin | clustersconfig/dir.go:134 | The base of dir/name is name |

## Left out

- Locking and goroutines: the package mutex, each stream's mutex, the `go` statement that starts compression, and the `go` statements that run each stream's `enableFileOutput` and `disableFileOutput` (log/log.go:74, 91). In the model every operation runs to completion before the next one, so EnableFiles and DisableFiles switch each stream before they return, whereas the source returns before any stream has been switched.
- log/compress.go: the model records only that a compression of the archived path was started.
- Time: `time.Now`, `Truncate` and the RFC 3339 format. The clock reading is a parameter, and an hour's text is modelled as the hour's index.
- The console: the echo of each entry, its colours and `SetConsole`.
- `StreamLines` and the formatting of `Print`, `Printf`, `Taint` and `Taintf`. These wrap `append` around `bufio` and `fmt`, which are not part of this model.
- LogEntry.DecodeHeader: for a header that is not valid base 32, or that decodes to more than 13 bytes, Go's partial decoder output is not modelled. The header is then left zero.
- LogEntry.DecodeHeader: 24 unpadded base 32 symbols decode to 15 bytes; Go then panics writing past the 13-byte header, and the model leaves the header zero instead.
- LogEntry.DecodeHeader: Go's decoder skips '\r' and '\n', so 16 symbols among 8 newlines are a valid header in Go that fills its first 10 bytes; the model decodes no newline and leaves that header zero.
- The debugging `fmt.Println` calls in `ReadFrom` (log/entry.go:79, 82) write to standard output and are not modelled.
- LogStream.Log.Append: requires a non-empty payload only while file output is on. Delivering the entry then writes it with `Entry.WriteTo`, to the file (log/log.go:242) or to standard error (log/log.go:200), which indexes the payload's last byte (log/entry.go:24), so the source panics on an empty one.
- LogStream.Log.Write: the same as LogStream.Log.Append. With file output off, an empty write (as `Print()` makes through `fmt.Fprint`) is buffered.
- LogStream.Log.EnableFileOutput: requires every pending payload to be non-empty, because delivering an empty one panics in the source (log/entry.go:24).
- The console echo of `append` also indexes the payload's last byte (log/log.go:179) and panics on an empty payload when a console is set; that panic is not modelled, as the console is not.
- LogEntry.EncodeFrame: requires a non-empty payload, because the source indexes the payload's last byte and panics otherwise.
- LogStream.WriteEntryStep: its own contract states only what it keeps. Its behaviour is stated by the lemmas SameBucketAppends, RotationOnNewHour, OpenFailureLosesEntry and ReenabledNewHourRecovers.
- LogStream.Deliver: its own contract states only what it keeps. Its outcome is stated by DeliverWritesOrReports.
- LogStream paths: a stream name is assumed to contain no '/', so the live and archive paths of different streams never coincide.
- Write errors through an open handle are not modelled: such a write always succeeds.
- Go's map iteration order: EnableFiles and DisableFiles visit streams in an `order` parameter. EnableAllLogs and DisableAllLogs show the result does not depend on it.
- YAML and JSON decoding: a parameter of ClustersDir, a decoder per record type that may fail.
- `net.ParseCIDR`: a parameter; its failure, on which the source panics, is the Failure outcome.
- clustersconfig/clustersconfig.go FromBytes, FromFile and SaveTo: YAML I/O.
- `Template.Execute` and its parsed-template cache: `text/template` is not part of this model. Only the `indent` helper it registers is modelled.
- `Vars` maps and other free-form fields: not modelled.
- `strings.ToLower`: modelled on ASCII letters only.
- Strings are character sequences; UTF-8 decoding is not modelled.
- `filepath.Join` is modelled on clean elements, dropping empty ones; `path.Split` and cleaning of unclean paths are not modelled.
- `filepath.Glob`: its answer per pattern is an input of the file system value; a pattern nothing is recorded for matches no file.
- The `log.Print` diagnostics of sysfs/sysfs.go are not modelled.
- nil versus empty slices: modelled as None versus an empty sequence where the source distinguishes them.
- localconfig/host.go, the cas package, and the config and color packages are not part of this model.

## Findings

| source | as written | input that shows it | evidently intended | confidence | as-written member | corrected member |
|---|---|---|---|---|---|---|
| log/entry.go:97-100 | `flags\|AppendNL != 0` holds for every flags byte, so the reader always asks for one byte past the payload | a file holding two frames whose first payload ends in '\n' | `flags&AppendNL != 0`: read the forced newline only when the writer added one | not executed | LogEntry.LiteralReaderLosesAlignment | LogEntry.ReadAllCorrectedFrames |
| clustersconfig/dir.go:133-138 | ".yaml" is trimmed before the base name is taken, so a hidden file named just ".yaml" yields its directory's name | the glob match "conf/clusters/.yaml" lists the name "clusters" | skip hidden files by testing the file's own base name | not executed | ClustersDir.HiddenYamlListed | ClustersDir.CorrectedSkipsHidden |

In the first row:

- The reader the source uses is ReadSpec, which is what LogEntry.ReadFrom does.
- After a payload ending in '\n', it takes the first character of the next frame's header as payload, so the next header does not decode.
- The proof uses the model's zero fill of a header that does not decode (MisalignedHeader, ZeroHeaderBody). Go would instead keep the first 10 decoded bytes of the shifted header; that decoding is not modelled.
- The corrected reader is ReadCorrected. ReadAllCorrectedFrames proves it reads any file of frames back entry for entry.

In the second row:

- ListNames is the listing as written, and FromDir uses it.
- ListNamesCorrected is the corrected listing. CorrectedAgrees shows it differs from ListNames only on such files.
