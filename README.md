# Sanctum EDR core, modelled in Dafny

Sanctum is a Windows endpoint-detection tool. It has two halves:

- a kernel driver that queues process events and answers IOCTLs;
- a user-mode engine that installs and drives that driver through the service control manager and keeps a table of running processes.

This project models the parts of both halves that compute something. Every Win32 and WDK call is replaced by its outcome, passed in as a parameter.

- `base.dfy` (`Base`): machine integer types, `Option`/`Result`, `Outcome` (done, failed, or an `unwrap` panic) and `Exit` (returned or panicked). It also holds little-endian `usize` bytes with their round trip.
- `utf8.dfy` (`Utf8`): the UTF-8 form of Rust strings (RFC 3629). Encoding and decoding are inverse on all inputs. This stands in for `str::from_utf8` and `as_bytes`.
- `ioctl_codes.dfy` (`IoctlCodes`): the `CTL_CODE` packing on 32-bit words and its field decoding. It also holds the control codes of both shared crates and the fixed-capacity `SancIoctlPing` message.
- `utils.dfy` (`DriverUtils`): UTF-16 (section 2.1 of RFC 2781) as built by `to_u16_vec`, and `create_unicode_string`.
- `driver_ipc.dfy` (`DriverIpc`): `ProcessStarted`, `ProcessTerminated` and `DriverMessages`, the three event vectors.
- `wdk.dfy` (`Wdk`): the `NTSTATUS` values used, the IRP with its nullable system buffer, and the stack location.
- `device_comms.dfy` (`DeviceComms`): the driver's message queue (`DriverMessagesWithMutex`), `IoctlBuffer`, and the IOCTL handlers. Among the handlers is the two-step protocol: drain the live queue into the cache, report its serialized length, then hand the cache over.
- `ioctls.dfy` (`Ioctls`): the standalone `ioctl_handler_ping`.
- `driver_manager.dfy` (`DriverManager`): `SanctumDriverManager`, the user-mode lifecycle state machine (`DriverState` plus an optional device handle), the service configuration it registers, and the IOCTL requests it issues.
- `sys_file_path.dfy` (`SysFilePath`): `get_sys_file_path` as written, and a corrected version.
- `core.dfy` (`EngineCore`): the engine's process table. Each poll batch removes terminated pids, then inserts created processes, rejecting duplicates. The table is seeded from a process snapshot.

Methods that change state are proved against specification functions. The queue methods are proved against `DriverMessages.Then`. The process-table loops are proved against `RemoveAll`, `InsertAll`, `Rejected` and `ApplyBatch`. The properties the source promises are then proved as lemmas about those functions.

`DriverMessages` is not defined in the files this model is built from. It is modelled from its use in driver/src/device_comms.rs:167-175. The `ProcessStarted` definition shown in shared_no_std/src/driver_ipc.rs:6-10 has three string fields. um_engine/src/core/core.rs:135-140 builds it with `pid` and `parent_pid` as `u64`, and core.rs:63 reads a termination's `pid`. The model follows core.rs.

## Model

| member | source | states |
|---|---|---|
| Base.UsizeRoundTrip | driver/src/device_comms.rs:379-388 | the 8 little-endian bytes the length handler copies out read back as the same `usize` |
| Base.FromLeBytes | um_engine/src/driver_manager/ioctl.rs:165-193 | any number below 256^k written as k little-endian bytes reads back unchanged |
| IoctlCodes.CtlCodeIsSum | shared_no_std/src/ioctl.rs:13-17 | with device type below 2^16, access below 4, function below 2^12 and method below 4, the OR of the shifted fields equals their sum |
| IoctlCodes.CtlCodeDecodes | shared_no_std/src/ioctl.rs:13-17 | each of the four fields decodes back exactly from a packed code |
| IoctlCodes.CtlCodeOfFields | shared/src/ioctl.rs:12-16 | every 32-bit code is the packing of its own decoded fields, which are in range |
| IoctlCodes.BufferedCodes | shared_no_std/src/ioctl.rs:7-29 | the three codes are 0x222000, 0x222004 and 0x222008; they are pairwise distinct; all have device type 34, METHOD_BUFFERED and FILE_ANY_ACCESS; their functions are 0x800, 0x801 and 0x802 |
| IoctlCodes.NeitherPingCode | shared/src/ioctl.rs:6-19 | this crate's ping code is 0x222003 (device 34, function 0x800, access 0, METHOD_NEITHER) and differs from the buffered ping code |
| IoctlCodes.NewPing | shared_no_std/src/ioctl.rs:46-55 | `new` is not received, has length 0 and capacity 256, and holds 256 zero bytes |
| IoctlCodes.DefaultPing | shared_no_std/src/ioctl.rs:58-61 | `Default::default()` is `new()` |
| IoctlCodes.TextOf | shared_no_std/src/ioctl.rs:36-44 | the message text exists exactly when `str_len` is within the buffer, and then has `str_len` bytes |
| IoctlCodes.FillPing | um_engine/src/driver_manager.rs:482-491 | a text over the capacity is refused; otherwise the message is received, has capacity 256 and text equal to the input, and is zero after it |
| DriverUtils.EncodeScalar | driver/src/utils.rs:13-17 | a code point below U+10000 is one unit equal to itself; any other is a high surrogate followed by a low surrogate |
| DriverUtils.DecodeEncode | driver/src/utils.rs:9-22 | decoding the UTF-16 encoding of any string gives the string back |
| DriverUtils.EncodeDecode | driver/src/utils.rs:9-22 | any unit sequence that decodes is the encoding of what it decodes to |
| DriverUtils.ToU16Vec | driver/src/utils.rs:9-22 | the buffer is the string's units in order plus one NUL, ends in 0, and everything before the NUL decodes to the string |
| DriverUtils.EncodeLength | driver/src/utils.rs:11-20 | the unit count is the character count plus one per character outside the BMP |
| DriverUtils.CreateUnicodeString | driver/src/utils.rs:42-77 | `None` exactly for an empty buffer; otherwise the buffer is kept |
| DriverUtils.UnicodeStringLengths | driver/src/utils.rs:66-74 | below 0x8000 units, `MaximumLength` is twice the unit count and `Length` twice the count without a trailing NUL; `Length <= MaximumLength`; they differ by 2 exactly when a NUL ends the buffer |
| DriverUtils.UnicodeStringWraps | driver/src/utils.rs:73-74 | a NUL-terminated buffer of 0x8000 units gets `MaximumLength` 0 and `Length` 0xFFFE |
| DriverUtils.CreateUnicodeStringChecked | driver/src/utils.rs:42-77 | refuses an empty buffer or one whose byte size does not fit 16 bits; otherwise gives the exact byte lengths with `Length <= MaximumLength` |
| DriverUtils.CreateUnicodeStringCasts | driver/src/utils.rs:66-74 | on every non-empty buffer, `MaximumLength` is twice the unit count and `Length` twice the count without a trailing NUL, each modulo 2^16 |
| DriverUtils.CheckedAgrees | driver/src/utils.rs:42-77 | wherever the byte size fits 16 bits, the corrected function gives the same result as the one as written |
| DriverUtils.UnicodeStringOfU16Vec | driver/src/utils.rs:20-74 | for `to_u16_vec(s)` passed to `create_unicode_string` as written, `Length` is twice the UTF-16 length of `s`, `MaximumLength` is `Length + 2`, and the first `Length` bytes decode to `s` |
| Utf8.EncodeScalar | driver/src/ioctls.rs:39 | a scalar takes one to four bytes, and one exactly when it is ASCII |
| Utf8.DecodeFirstEncodeScalar | driver/src/ioctls.rs:39 | the first scalar decoded from an encoded scalar followed by anything is that scalar, with its width |
| Utf8.DecodeEncode | driver/src/device_comms.rs:213-232 | `from_utf8` of the bytes of any string succeeds and gives the string |
| Utf8.EncodeDecode | driver/src/device_comms.rs:213-232 | bytes that `from_utf8` accepts are exactly the encoding of the resulting string |
| Utf8.EncodeAscii | um_engine/src/driver_manager.rs:482-491 | an ASCII string's bytes are its characters, one each |
| DriverIpc.DriverMessages.Then | driver/src/device_comms.rs:164-169 | appending batches vector by vector leaves nothing exactly when both batches are empty |
| DriverIpc.NoMessages | driver/src/device_comms.rs:19-27 | the default batch has three empty vectors |
| DriverIpc.ThenLaws | driver/src/device_comms.rs:164-169 | appending is associative, and the empty batch is neutral on both sides |
| Wdk.CopyMemory | driver/src/device_comms.rs:283-310 | the destination starts with the source bytes, and the bytes after them are unchanged |
| DeviceComms.SerializedLen | driver/src/device_comms.rs:171-185 | the length is that of the serialized bytes, or 0 when serialization fails |
| DeviceComms.DriverMessageQueue.constructor | driver/src/device_comms.rs:19-32 | a new queue is empty, holds no messages, and is valid (empty implies three empty vectors) |
| DeviceComms.DriverMessageQueue.AddMessageToQueue | driver/src/device_comms.rs:38-60 | above PASSIVE_LEVEL nothing changes; otherwise the message is appended to its own vector only and the queue is marked non-empty; validity is kept |
| DeviceComms.DriverMessageQueue.AddProcessCreationToQueue | driver/src/device_comms.rs:67-89 | as above, for the creations vector |
| DeviceComms.DriverMessageQueue.AddProcessTerminationToQueue | driver/src/device_comms.rs:96-118 | as above, for the terminations vector |
| DeviceComms.DriverMessageQueue.ExtractAll | driver/src/device_comms.rs:126-161 | returns data exactly when the level allows it and the queue is non-empty; that data is the old contents, and the queue is then empty; otherwise nothing changes |
| DeviceComms.DriverMessageQueue.AddExistingQueue | driver/src/device_comms.rs:164-186 | the queue becomes old contents then `q`, vector by vector, and is marked non-empty; `q` is left empty; the returned length is the serialized length of the new contents |
| DeviceComms.IoctlBuffer.constructor | driver/src/device_comms.rs:200-210 | a new buffer has length 0 and no data buffer |
| DeviceComms.IoctlBuffer.Receive | driver/src/device_comms.rs:244-272 | a null system buffer fails with STATUS_BUFFER_ALL_ZEROS and changes nothing; otherwise the buffer and the input length are taken from the IRP |
| DeviceComms.IoctlBuffer.GetBufToStr | driver/src/device_comms.rs:213-232 | a null buffer gives STATUS_BUFFER_ALL_ZEROS; zero length gives STATUS_UNSUCCESSFUL; otherwise the input is the UTF-8 decoding of the input bytes, or a panic when they are not UTF-8 |
| DeviceComms.IoctlBuffer.SendStr | driver/src/device_comms.rs:283-310 | sets STATUS_SUCCESS and `Information` to the byte length; with a buffer, it copies the bytes and leaves the rest unchanged; with none, it reports STATUS_UNSUCCESSFUL |
| DeviceComms.PingReplyBytes | driver/src/device_comms.rs:314-329 | the reply text is 13 bytes |
| DeviceComms.IoctlHandlerPing | driver/src/device_comms.rs:314-329 | gives the buffer errors of `receive` and `get_buf_to_str` with the IRP untouched; panics on non-UTF-8 input; otherwise returns success with `Information` 13, the reply bytes at the front of the buffer, and nothing else changed |
| DeviceComms.IoctlHandlerGetKernelMsgLen | driver/src/device_comms.rs:334-391 | NullPtr on a null buffer; DriverMessagePtrNull with no live queue; NoDataToSend, with nothing changed, when the live queue is empty or the level forbids it; otherwise the live queue ends empty and the cache is old cache then old live; a zero length is NoDataToSend; a non-zero length is written as 8 little-endian bytes with `Information` 8 |
| DeviceComms.IoctlHandlerSendKernelMsgsToUserland | driver/src/device_comms.rs:394-440 | the same null and empty guards; otherwise the cache is drained, and its serialization is copied to the buffer with `Information` equal to its length, or CouldNotSerialize is returned |
| DeviceComms.FetchKernelMessages | driver/src/device_comms.rs:334-440 | after the two calls both queues are empty; if the size call succeeds, the length it reported reads back as the size of the serialized old cache then old live, and exactly those bytes are delivered |
| DeviceComms.KernelPingReplyAscii | driver/src/device_comms.rs:472-482 | the kernel's struct-ping reply is 29 ASCII characters, within the 256-byte capacity |
| DeviceComms.IoctlHandlerPingReturnStruct | driver/src/device_comms.rs:443-498 | a null buffer gives STATUS_BUFFER_ALL_ZEROS and a non-UTF-8 text STATUS_UNSUCCESSFUL, both with the IRP and its buffer untouched; otherwise the reply is a received ping of capacity 256 holding "Msg received from the Kernel!" (`str_len` 29, zeros after), `Information` is the struct size, the first 280 bytes of the system buffer are the reply's bytes and the rest are unchanged; the IRP status is left alone |
| DeviceComms.SendPing | driver/src/device_comms.rs:472-495 | the filled ping carries the message, `Information` is the struct size, and the struct's bytes are copied over the front of the system buffer with the rest unchanged |
| Ioctls.IoctlHandlerPing | driver/src/ioctls.rs:6-69 | zero input length gives STATUS_BUFFER_TOO_SMALL before anything is written; a null buffer gives STATUS_BUFFER_ALL_ZEROS; the second null check never fires; non-UTF-8 input panics; otherwise STATUS_SUCCESS, `Information` 13, "Msg received!" in the first 13 bytes and no other byte changed |
| DriverManager.CodeValue | shared_no_std/src/ioctl.rs:22-29 | the IOCTLs the engine sends carry the codes 0x222000, 0x222004 and 0x222008 |
| DriverManager.PingResponseText | um_engine/src/driver_manager/ioctl.rs:118-133 | the answer is the decoding of exactly the first `bytes_returned` bytes when they are UTF-8, and "" otherwise |
| DriverManager.PingReplyReadsBack | um_engine/src/driver_manager/ioctl.rs:118-133 | a response whose first bytes are a reply's encoding, with that many bytes returned, reads back as the reply |
| DriverManager.WideName | um_engine/src/driver_manager.rs:59-67 | each name the manager stores is the name's UTF-16 with a NUL |
| DriverManager.WideNameIsEncoding | um_engine/src/driver_manager.rs:59-67 | a stored wide name is exactly the UTF-16 encoding plus a NUL |
| IoctlCodes.AsciiPing | um_engine/src/driver_manager.rs:482-491 | the message sent is received, has capacity 256, holds the text's bytes with zeros after them, has `str_len` equal to the text length, and decodes back to the text |
| DriverManager.SanctumDriverManager.constructor | um_engine/src/driver_manager.rs:79-85 | the names and path are stored, the handle is absent, and the state is Stopped |
| DriverManager.SanctumDriverManager.New | um_engine/src/driver_manager.rs:59-94 | a missing .sys file panics; otherwise the names are the wide forms of the constants and of the path, and the state is Started exactly when the device handle opens (Stopped otherwise) |
| DriverManager.SanctumDriverManager.InitHandleViaRegistry | um_engine/src/driver_manager.rs:302-325 | succeeds exactly when the device opens, and only then replaces the handle; the state is not written |
| DriverManager.SanctumDriverManager.InstallDriver | um_engine/src/driver_manager.rs:103-173 | no service manager panics; otherwise the service is registered with name and display name `svc_name`, a kernel driver, demand start, normal error control and `svc_path`; it returns on success, ERROR_DUPLICATE_SERVICE_NAME or ERROR_SERVICE_EXISTS and panics on any other error |
| DriverManager.SanctumDriverManager.StopDriver | um_engine/src/driver_manager.rs:224-259 | panics without a service manager; clears the handle only when ControlService succeeds; never writes the state |
| DriverManager.SanctumDriverManager.UninstallDriver | um_engine/src/driver_manager.rs:267-292 | panics without a service manager; the state becomes Uninstalled exactly when OpenServiceW and DeleteService both succeed, and is otherwise unchanged |
| DriverManager.SanctumDriverManager.EnsureHandle | um_engine/src/driver_manager/ioctl.rs:76-86 | an absent handle is retried once through the registry |
| DriverManager.SanctumDriverManager.IoctlCheckDriverCompatibility | um_engine/src/driver_manager/ioctl.rs:22-67 | with no handle after the retry it stops the driver and panics, issuing nothing; otherwise it issues one compatibility IOCTL and answers false on an error or zero bytes, and the driver's bool otherwise |
| DriverManager.SanctumDriverManager.StartDriver | um_engine/src/driver_manager.rs:180-216 | never writes the state; returns unchanged when the service cannot be opened or started; panics (after stopping the driver) when the compatibility check fails |
| DriverManager.SanctumDriverManager.IoctlPingDriver | um_engine/src/driver_manager/ioctl.rs:70-134 | with no handle it returns "" and issues nothing; otherwise it sends "Hello world" with a 256-byte reply buffer and returns "" on an IOCTL error, or the decoded first `bytes_returned` bytes |
| DriverManager.SanctumDriverManager.IoctlGetDriverMessages | um_engine/src/driver_manager/ioctl.rs:145-233 | with no handle, None and no IOCTL; a failed or zero size request gives None without a second IOCTL; the second request's buffer length is the reported size; an error or zero bytes gives None, otherwise the decoded batch (or None when decoding fails) |
| DriverManager.SanctumDriverManager.IoctlPingDriverWStruct | um_engine/src/driver_manager/ioctl.rs:237-302 | with no handle nothing is issued; otherwise one struct-ping IOCTL whose buffer is the struct size and whose message holds "Hello from usermode!" as the fill promises |
| SysFilePath.GetSysFilePath | um_engine/src/driver_manager.rs:662-682 | panics exactly when the length reaches MAX_PATH or is below 11 (the `usize` underflow); otherwise the first `len - 11` units of the module path, then "sanctum.sys", then NUL |
| SysFilePath.SysFilePathKeepsUm | um_engine/src/driver_manager.rs:678 | for a module path `dir` + "um_engine.exe", the kept prefix is `dir` + "um", not `dir` |
| SysFilePath.FindFolderEnd | um_engine/src/driver_manager.rs:678 | finds the position just after the last backslash before the length, or 0 |
| SysFilePath.GetSysFilePathInFolder | um_engine/src/driver_manager.rs:662-682 | panics exactly for a length of at least MAX_PATH or 0; otherwise the folder of the module path, then "sanctum.sys", then NUL |
| SysFilePath.FolderEndOfModulePath | um_engine/src/driver_manager.rs:662-682 | for a module path `dir` + `name`, with `dir` ending in a backslash and `name` free of them, the corrected path keeps exactly `dir` |
| EngineCore.Admit | um_engine/src/core/core.rs:142-151 | inserting a process adds its pid; existing entries keep their data; a new pid maps to the process |
| EngineCore.ProcessMonitor.Insert | um_engine/src/core/core.rs:142-145 | fails with DuplicatePid exactly when the pid is present, and then changes nothing; otherwise it adds the process |
| EngineCore.ProcessMonitor.RemoveProcess | um_engine/src/core/core.rs:63 | the table loses that pid and nothing else |
| EngineCore.ProcessMonitor.ExtendProcesses | um_engine/src/core/core.rs:41 | the table gains the other table's entries |
| EngineCore.RemoveAllIsDifference | um_engine/src/core/core.rs:60-65 | removing each terminated pid in turn leaves the table minus the terminated pids |
| EngineCore.InsertAllKeys | um_engine/src/core/core.rs:68-75 | inserting each creation in turn leaves the old pids plus the created pids |
| EngineCore.InsertAllKeepsExisting | um_engine/src/core/core.rs:68-75 | an existing entry is never overwritten by a creation |
| EngineCore.DuplicateIffPresent | um_engine/src/core/core.rs:69-74 | a creation is rejected exactly when its pid was in the table or in an earlier creation of the batch |
| EngineCore.InsertStep | um_engine/src/core/core.rs:69-74 | each creation extends the table by one insert, and is added to the failed list exactly when that insert is refused; later creations are still applied |
| EngineCore.InsertAllFirstWins | um_engine/src/core/core.rs:69-74 | a creation that is not a duplicate ends up in the table with its own data |
| EngineCore.BatchKeys | um_engine/src/core/core.rs:57-75 | after a batch the pids are (old minus terminated) plus created |
| EngineCore.BatchCreationApplied | um_engine/src/core/core.rs:58-75 | a creation whose pid was absent or terminated in the same batch, and is the first with that pid, is present with its data |
| EngineCore.TerminatedThenCreated | um_engine/src/core/core.rs:58-75 | a pid both terminated and created in one batch is present afterwards with the creation's data |
| EngineCore.TerminatedIsRemoved | um_engine/src/core/core.rs:60-65 | a terminated pid that is not re-created is absent afterwards |
| EngineCore.UntouchedPreserved | um_engine/src/core/core.rs:57-75 | a pid neither terminated nor created keeps its presence and its data |
| EngineCore.ApplyDriverResponse | um_engine/src/core/core.rs:57-75 | the table becomes the batch applied to it (unchanged with no response); the failed inserts are exactly the rejected creations |
| EngineCore.RemoveTerminations | um_engine/src/core/core.rs:60-65 | the loop removes the terminated pids one by one |
| EngineCore.InsertCreations | um_engine/src/core/core.rs:68-75 | the loop inserts the creations in order; the failed list is exactly the rejected ones |
| EngineCore.StartedOf | um_engine/src/core/core.rs:135-140 | a snapshot entry becomes a process with its pid, parent pid, name and an empty command line |
| EngineCore.SnapshotKeys | um_engine/src/core/core.rs:120-157 | the snapshot table's pids are exactly those of the entries whose names are UTF-8 |
| EngineCore.SnapshotFirstWins | um_engine/src/core/core.rs:142-154 | for a duplicate pid the first valid entry is kept, with its decoded name |
| EngineCore.SnapshotPassAsWritten | um_engine/src/core/core.rs:125-131 | one pass of the loop as written stays on the same entry exactly when its name is not UTF-8 |
| EngineCore.SnapshotAsWrittenHangs | um_engine/src/core/core.rs:126-156 | once the loop as written reaches an entry with a non-UTF-8 name, no number of passes moves it or changes the table |
| EngineCore.InvalidNameHangs | um_engine/src/core/core.rs:126-131 | a snapshot whose first name is the byte 0xFF never advances |
| EngineCore.SnapshotAllProcesses | um_engine/src/core/core.rs:98-163 | panics exactly when the snapshot cannot be taken; otherwise returns a new monitor holding the snapshot table |
| EngineCore.EmptyPollsKeepTable | um_engine/src/core/core.rs:57 | polls with no driver response leave the table unchanged |
| EngineCore.SnapshotAsWrittenOnValidNames | um_engine/src/core/core.rs:120-157 | when every name is UTF-8, the loop as written visits each entry once and builds exactly the snapshot table |
| EngineCore.SnapshotRunFrom | um_engine/src/core/core.rs:120-157 | from any entry, holding the table of the entries before it, the loop as written on valid names finishes with the whole snapshot table |
| EngineCore.StartCore | um_engine/src/core/core.rs:17-93 | panics exactly when the snapshot fails; otherwise the table after the modelled polls is the snapshot table with every batch applied in turn |

## Left out

- Win32 and WDK calls are not modelled, only their outcomes, which are parameters. These are CreateServiceW, OpenSCManagerW, StartServiceW, ControlService, DeleteService, CreateFileW, DeviceIoControl, GetModuleFileNameW, GetFileAttributesW, RtlCopyMemoryNonTemporal and the Toolhelp snapshot functions.
- The FAST_MUTEX and the `AtomicPtr` globals are left out. IRQL is an integer parameter. A missing global queue is a null reference.
- serde_json is a function parameter. The model does not fix its byte format or its length.
- The memory layout of `SancIoctlPing` is not modelled, because Rust's default representation leaves the field order to the compiler. The handler takes it as a parameter `layout` that gives 280 bytes for every ping.
- `ioctl_check_driver_compatibility` in driver/src/device_comms.rs:503-535 is not modelled. It relies on `check_driver_version` and `log_to_userland`, which are not part of this model.
- `SANC_SYS_FILE_LOCATION` is a parameter of `New`. The engine's own `to_u16_vec` is taken to be the driver's, which is modelled.
- The GET_MESSAGE_LEN and GET_MESSAGES control codes are not defined in the files modelled. They stay symbolic.
- Logging and printing are not modelled, except that a rejected creation is reported in the failed list.
- `ioctl_ping_driver` in um_engine/src/driver_manager.rs:393-458 is not modelled separately. It duplicates um_engine/src/driver_manager/ioctl.rs:70-134 but returns unit.
- `get_state` is left out; it only reads the state.
- The `ProcessMonitor` methods are not part of this model. `insert`, `remove_process` and `extend_processes` are modelled as map operations: an insert refused on a present pid, removal of a key, and a union where the other table wins.
- The 50 ms sleep and the endless poll loop of `start_core` are not modelled. The model covers any finite sequence of polls.
- `szExeFile` is taken as the bytes before its NUL.
- DeviceComms.IoctlHandlerPingReturnStruct: requires the incoming `str_len` to be at most 256. The source builds the text with `core::slice::from_raw_parts` on `version` and `str_len`, which checks no bounds. A larger `str_len` reads past `version`, and possibly past the system buffer: an out-of-bounds kernel read, whose result the model does not describe.
- DeviceComms.IoctlHandlerPingReturnStruct: requires a system buffer of at least 280 bytes. The source copies the whole struct without checking the output length.
- EngineCore.StartCore: composes the corrected snapshot. As written, `start_core` never reaches its polling loop when a process name is not UTF-8 (see Findings). On snapshots whose names are all UTF-8 the two snapshots agree, by EngineCore.SnapshotAsWrittenOnValidNames.
- DeviceComms.IoctlHandlerPing: requires a system buffer of at least 13 bytes. The source writes the 13-byte reply without checking the output length.
- Ioctls.IoctlHandlerPing: requires a system buffer of at least 13 bytes, for the same reason.
- DeviceComms.IoctlHandlerGetKernelMsgLen: requires a system buffer of at least 8 bytes. The source copies the `usize` without checking the output length.
- DeviceComms.IoctlHandlerSendKernelMsgsToUserland: requires the serialized cache to fit the system buffer. The source copies it without checking.
- DeviceComms.FetchKernelMessages: requires both buffers to exist and the data buffer to hold the batch. It composes the two handlers only for that case.
- DriverManager.SanctumDriverManager.IoctlPingDriver: requires the reply buffer to be the 256 bytes the source allocates.
- DriverManager.SanctumDriverManager.IoctlGetDriverMessages: requires the size reply to be 8 bytes and the data reply to have the reported size. These are the buffers the source allocates.
- DriverManager.SanctumDriverManager.IoctlPingDriverWStruct: does not state the printing of the driver's reply.
- SysFilePath.GetSysFilePath: models the `usize` underflow at the truncate as a panic (debug build). A release build would wrap instead, and `truncate` would then keep the whole buffer.

## Findings

| source | as written | input that shows it | evidently intended | confidence | as-written member | corrected member |
|---|---|---|---|---|---|---|
| driver/src/utils.rs:73-74 | `Length` and `MaximumLength` are cast with `as u16`, which keeps only the low 16 bits | a NUL-terminated buffer of 0x8000 units gives `MaximumLength` 0 and `Length` 0xFFFE | refuse buffers whose byte size does not fit 16 bits | medium, not executed | DriverUtils.UnicodeStringWraps | DriverUtils.CreateUnicodeStringChecked |
| um_engine/src/driver_manager.rs:678 | the module path is cut by 11 units, the length of "sanctum.sys" | module path `C:\x\um_engine.exe` (13-unit file name) gives `C:\x\umsanctum.sys` | keep the folder and replace the file name, giving `C:\x\sanctum.sys` | medium, latent: nothing in the source calls `get_sys_file_path`, and `new` uses `SANC_SYS_FILE_LOCATION` (um_engine/src/driver_manager.rs:66); not executed | SysFilePath.SysFilePathKeepsUm | SysFilePath.FolderEndOfModulePath |
| um_engine/src/core/core.rs:130 | a non-UTF-8 process name hits `continue`, which skips `Process32Next`, so the same entry is read again | a snapshot whose first entry's name is the byte 0xFF | skip that entry and move to the next | high, not executed | EngineCore.InvalidNameHangs | EngineCore.SnapshotAllProcesses |
