# A model of the SBI base extension and the IMA securityfs interface

This project models two components in Dafny and proves properties of them.

**The SBI base extension of the secure monitor's firmware**
(`opensbi-0.6/lib/sbi/sbi_ecall_base.c`). The ecall handler is modelled as
a total function of five inputs:
- the function id;
- the six argument registers;
- the table of registered extensions;
- the platform's build constants and CSRs;
- the secure monitor's enclave handlers.

It returns the status the caller sees and the value written through
`out_val`, if any. The function ids are parameters, each kept distinct.
The enclave handlers are function-valued parameters. Their `uintptr_t`
results are truncated to the `int` status explicitly. The spec-version
word is a 64-bit bit-vector.

**The IMA securityfs files** (`openeuler-kernel/security/integrity/ima/ima_fs.c`):
- **Measurement lists.** The binary and ASCII printers of the runtime
  measurement list write into a `SeqFile` class, which stands for the
  seq_file's output buffer. Each printer is proved to append exactly the
  record that a specification function defines. Each record is proved to
  decode back to the entry's PCR, SHA-1 digest and template name: the
  binary one through a little-endian header parser, the ASCII one through
  a decimal and hex reader. The `start`/`next` iterator is proved to visit
  every entry from the starting position once, in order.
- **Upload files.** The policy file and the two digest-list files share
  the open, write and release operations. Their shared state lives in a
  class `ImaFs`:
  - `ima_fs_flags`;
  - `valid_policy`;
  - the parser registration;
  - the policy inode's presence and write permission;
  - the log of policy actions.

  Each method is proved equal to a pure step function. These properties
  are proved of the step functions:
  - the write checks run in order;
  - writes succeed only through a parser;
  - write opens are exclusive;
  - a full upload cycle on a non-policy file, writes included, restores the state;
  - the policy is installed once unless CONFIG_IMA_WRITE_POLICY is set;
  - the parser registration implies a taken digest-list flag.

Files:
- `wrappers.dfy`: `Option`.
- `sbi_ecall_base.dfy`: module `SbiEcallBase`.
- `ima_encoding.dfy`: module `ImaEncoding`, the byte encodings and their
  decoders. These are little-endian 32-bit words, `%02x` hex and `%2d`
  decimal.
- `ima_measurements.dfy`: module `ImaMeasurements`.
- `ima_upload.dfy`: module `ImaUpload`.

## Model

| member | source | states |
|---|---|---|
| SbiEcallBase.Probe | opensbi-0.6/lib/sbi/sbi_ecall_base.c:19-36 | an unregistered id answers status 0 and out_val 0; a registered extension with a probe callback answers what the callback answers; one without answers status 0 and out_val 1 |
| SbiEcallBase.ProbeReportsRegistration | opensbi-0.6/lib/sbi/sbi_ecall_base.c:25-35 | when no extension has its own probe, probing always succeeds and out_val is 1 exactly for registered ids and 0 exactly for the others |
| SbiEcallBase.FuncIds.FindCase | opensbi-0.6/lib/sbi/sbi_ecall_base.c:53-102 | the case a switch selects carries the function id, and no case is selected only when no label carries the id |
| SbiEcallBase.SwitchOrderComplete | opensbi-0.6/lib/sbi/sbi_ecall_base.c:53-102 | every function of the extension has a case label in the switch |
| SbiEcallBase.DecodeNoneIffUnknown | opensbi-0.6/lib/sbi/sbi_ecall_base.c:53-102 | the default case is reached if and only if no case label equals the function id |
| SbiEcallBase.DecodeIdOf | opensbi-0.6/lib/sbi/sbi_ecall_base.c:53-102 | with pairwise-distinct labels, each function's id selects that function's case |
| SbiEcallBase.Handle | opensbi-0.6/lib/sbi/sbi_ecall_base.c:46-105 | an unknown function id returns SBI_ENOTSUPP and leaves out_val unwritten; out_val is written only by a recognised non-enclave call |
| SbiEcallBase.Call | opensbi-0.6/lib/sbi/sbi_ecall_base.c:53-99 | the enclave calls (SBI_MM_INIT to SBI_EXIT_ENCLAVE) never write out_val |
| SbiEcallBase.UnknownFuncNotSupported | opensbi-0.6/lib/sbi/sbi_ecall_base.c:100-101 | a function id that no case label carries yields exactly (SBI_ENOTSUPP, out_val unwritten) |
| SbiEcallBase.SpecVersionCall | opensbi-0.6/lib/sbi/sbi_ecall_base.c:54-60 | GET_SPEC_VERSION succeeds with status 0 and writes the version word of the configured major and minor numbers |
| SbiEcallBase.SpecVersionOutsideMajor | opensbi-0.6/lib/sbi/sbi_ecall_base.c:55-59 | outside bits 30:24 the version word equals the minor number: the masked major number touches no other bit |
| SbiEcallBase.SpecVersionMinor | opensbi-0.6/lib/sbi/sbi_ecall_base.c:55-59 | a minor number below 2^24 reads back from bits 23:0 of the version word |
| SbiEcallBase.SpecVersionMajor | opensbi-0.6/lib/sbi/sbi_ecall_base.c:55-59 | with a minor number below 2^24, the bits above 23 are the major number masked with 0x7f |
| SbiEcallBase.ImpIdCalls | opensbi-0.6/lib/sbi/sbi_ecall_base.c:61-66 | GET_IMP_ID and GET_IMP_VERSION return 0 and write SBI_OPENSBI_IMPID and OPENSBI_VERSION into out_val |
| SbiEcallBase.MachineIdCalls | opensbi-0.6/lib/sbi/sbi_ecall_base.c:67-75 | GET_MVENDORID, GET_MARCHID and GET_MIMPID return 0 and write the mvendorid, marchid and mimpid CSRs into out_val |
| SbiEcallBase.ProbeUsesFirstArgument | opensbi-0.6/lib/sbi/sbi_ecall_base.c:76-78 | PROBE_EXT answers the probe of the extension named in args[0], whatever extension id the call used |
| SbiEcallBase.PoolCallRouting | opensbi-0.6/lib/sbi/sbi_ecall_base.c:79-85 | SBI_MM_INIT and SBI_MEMORY_EXTEND pass (args[0], args[1]) to sm_mm_init and sm_mm_extend, return the handler's result truncated to int, and leave out_val unwritten |
| SbiEcallBase.AllocCreateRouting | opensbi-0.6/lib/sbi/sbi_ecall_base.c:86-91 | SBI_ALLOC_ENCLAVE_MM and SBI_CREATE_ENCLAVE pass args[0] alone and return the truncated result |
| SbiEcallBase.RunExitRouting | opensbi-0.6/lib/sbi/sbi_ecall_base.c:92-99 | SBI_RUN_ENCLAVE and SBI_EXIT_ENCLAVE pass args[5] as the register area and args[0] as the enclave id or return value |
| SbiEcallBase.HandleReadsOnlySlots015 | opensbi-0.6/lib/sbi/sbi_ecall_base.c:46-105 | the result depends only on args[0], args[1] and args[5] and not on the extension id of the call |
| SbiEcallBase.Truncate | opensbi-0.6/lib/sbi/sbi_ecall_base.c:80-98 | the int status agrees with the uintptr_t result modulo 2^32, and equals it below 2^31 |
| SbiEcallBase.TruncateSignExtended | opensbi-0.6/lib/sbi/sbi_ecall_base.c:80-98 | a monitor handler that returns any negative int code sign-extended to uintptr_t, such as (uintptr_t)-1, makes the call return that code unchanged |
| SbiEcallBase.BaseExtension | opensbi-0.6/lib/sbi/sbi_ecall_base.c:107-111 | ecall_base covers exactly the id SBI_EXT_BASE and has no probe callback |
| SbiEcallBase.ProbeBaseExtension | opensbi-0.6/lib/sbi/sbi_ecall_base.c:19-36 | once ecall_base is registered, probing SBI_EXT_BASE answers status 0 and out_val 1 |
| ImaEncoding.U32 | openeuler-kernel/security/integrity/ima/ima_fs.c:153-154 | the conversion of the int PCR to u32 is the identity on non-negative values below 2^32 and adds 2^32 to negative ones |
| ImaEncoding.Le32RoundTrip | openeuler-kernel/security/integrity/ima/ima_fs.c:153-175 | a 32-bit number written little-endian reads back as itself |
| ImaEncoding.FromLe32RoundTrip | openeuler-kernel/security/integrity/ima/ima_fs.c:153-175 | any four bytes read as a little-endian number are written back as the same bytes |
| ImaEncoding.HexByte | openeuler-kernel/security/integrity/ima/ima_fs.c:215-216 | "%02x" of a byte is two hex digits whose values, high nibble first, make up the byte |
| ImaEncoding.Hex | openeuler-kernel/security/integrity/ima/ima_fs.c:211-217 | the hex text of a byte string is twice as long and consists of hex digits only |
| ImaEncoding.ParseHex | openeuler-kernel/security/integrity/ima/ima_fs.c:211-217 | hex text is read back if and only if it has an even length and only hex digits, giving half as many bytes |
| ImaEncoding.UnHexHex | openeuler-kernel/security/integrity/ima/ima_fs.c:211-217 | reading back the hex text of any byte string gives that byte string |
| ImaEncoding.HexRoundTrip | openeuler-kernel/security/integrity/ima/ima_fs.c:211-217 | the digest printed by ima_print_digest is parsed back to the same digest |
| ImaEncoding.HexAt | openeuler-kernel/security/integrity/ima/ima_fs.c:215-216 | byte i of the digest is printed at text positions 2i and 2i+1 |
| ImaEncoding.Digits | openeuler-kernel/security/integrity/ima/ima_fs.c:237 | the decimal digits of a number are at least one digit long and carry no leading zero |
| ImaEncoding.DigitsRoundTrip | openeuler-kernel/security/integrity/ima/ima_fs.c:237 | the digits of any natural number read back as that number |
| ImaEncoding.FormatDecimalRoundTrip | openeuler-kernel/security/integrity/ima/ima_fs.c:237 | "%d" of any integer, negative ones included, reads back as that integer |
| ImaEncoding.FormatWidth2 | openeuler-kernel/security/integrity/ima/ima_fs.c:237 | "%2d" is at least two characters long, a single digit gets one leading space, and a value of two or more characters (10 and up, and every negative value) is printed unpadded as "%d" |
| ImaEncoding.FormatWidth2RoundTrip | openeuler-kernel/security/integrity/ima/ima_fs.c:237 | the padded PCR column reads back as the PCR number |
| ImaMeasurements.SeqFile.PutC | openeuler-kernel/security/integrity/ima/ima_fs.c:116-120 | seq_putc appends one byte to the buffer |
| ImaMeasurements.SeqFile.PutS | openeuler-kernel/security/integrity/ima/ima_fs.c:237-254 | seq_puts appends the string to the buffer |
| ImaMeasurements.ImaPutc | openeuler-kernel/security/integrity/ima/ima_fs.c:116-120 | ima_putc appends exactly the first datalen bytes of the data, in order |
| ImaMeasurements.ImaPrintDigest | openeuler-kernel/security/integrity/ima/ima_fs.c:211-217 | ima_print_digest appends the hex text of the first `size` digest bytes |
| ImaMeasurements.TemplateName | openeuler-kernel/security/integrity/ima/ima_fs.c:145-146 | the template's name is its descriptor name when that is non-empty, and its format string when the descriptor name is empty |
| ImaMeasurements.BinaryShowType | openeuler-kernel/security/integrity/ima/ima_fs.c:178-186 | a field is never shown as ASCII in the binary list; "d" of the "ima" template is shown without a length prefix and "n" of the "ima" template in the old string format, in both directions |
| ImaMeasurements.MeasurementsShow | openeuler-kernel/security/integrity/ima/ima_fs.c:130-190 | a NULL entry returns -1 and prints nothing; otherwise the call returns 0 and appends exactly the entry's binary record |
| ImaMeasurements.ShowBinaryFields | openeuler-kernel/security/integrity/ima/ima_fs.c:178-188 | the field loop appends each field's binary output, in field order |
| ImaMeasurements.HeaderRoundTrip | openeuler-kernel/security/integrity/ima/ima_fs.c:153-175 | a binary header decodes back to its PCR, digest, name and optional data length, whatever bytes follow it |
| ImaMeasurements.BinaryRecordLayout | openeuler-kernel/security/integrity/ima/ima_fs.c:145-188 | a binary record decodes to the entry's PCR as u32, SHA-1 digest, template name and data length (absent for "ima"), followed by exactly the fields' output |
| ImaMeasurements.AsciiMeasurementsShow | openeuler-kernel/security/integrity/ima/ima_fs.c:220-256 | a NULL entry returns -1 and prints nothing; otherwise the call returns 0 and appends exactly the entry's ASCII line |
| ImaMeasurements.ShowAsciiFields | openeuler-kernel/security/integrity/ima/ima_fs.c:246-253 | the field loop appends a space per field, followed by the field's ASCII form unless the field's data is empty |
| ImaMeasurements.AsciiFieldsOfEmptyData | openeuler-kernel/security/integrity/ima/ima_fs.c:246-253 | fields with no data print one space each and nothing else |
| ImaMeasurements.AsciiRecordLayout | openeuler-kernel/security/integrity/ima/ima_fs.c:236-254 | each ASCII line reads back as the entry's PCR, then a space, the 40 hex digits of its SHA-1 digest, a space and the template name, and ends with a newline |
| ImaMeasurements.MeasurementsStart | openeuler-kernel/security/integrity/ima/ima_fs.c:80-95 | start returns the entry at position pos, or NULL when pos is negative or past the end |
| ImaMeasurements.MeasurementsNext | openeuler-kernel/security/integrity/ima/ima_fs.c:97-110 | next advances the position by one and returns the following entry, or NULL after the last |
| ImaMeasurements.Traverse | openeuler-kernel/security/integrity/ima/ima_fs.c:80-110 | start followed by next until NULL visits every entry from pos on exactly once, in list order |
| ImaUpload.DentryFlag | openeuler-kernel/security/integrity/ima/ima_fs.c:427-437 | the policy file maps to IMA_POLICY_BUSY, the two digest-list files to IMA_DIGEST_LIST_DATA_BUSY, and every other file to IMA_FS_BUSY, each in both directions |
| ImaUpload.WriteChecksInOrder | openeuler-kernel/security/integrity/ima/ima_fs.c:356-378 | when one of the five request checks is the first to fail, the write returns that check's code (-EINVAL, -EFBIG, -ENOMEM, -EFAULT or -EINTR); only a write that passes all five reaches the dispatch, whose result it returns |
| ImaUpload.AbsolutePathReadsFile | openeuler-kernel/security/integrity/ima/ima_fs.c:380-381 | data starting with '/' is read as a file path whatever the target, the signed-policy setting or the writer |
| ImaUpload.DirectWritesGuarded | openeuler-kernel/security/integrity/ima/ima_fs.c:382-410 | direct policy rules are refused with -EACCES while a signed policy is required; direct digest lists are refused with -EACCES unless the writer is the parser; other files are refused with -EINVAL |
| ImaUpload.WriteSucceedsOnlyThroughParser | openeuler-kernel/security/integrity/ima/ima_fs.c:356-410 | a non-negative result means every check passed and the result is that of ima_read_file for data starting with '/', or, for any other data, that of ima_parse_add_rule on the policy file when no signed policy is required, or of ima_parse_compact_list (add or delete by file) when the writer is the parser |
| ImaUpload.WriteOtherFileRejected | openeuler-kernel/security/integrity/ima/ima_fs.c:407-410 | a write of a relative path to a file other than the three upload files always fails |
| ImaUpload.WriteTouchesOnlyValidPolicy | openeuler-kernel/security/integrity/ima/ima_fs.c:415-416 | a write changes only valid_policy; valid_policy is cleared exactly when a write to the policy file fails |
| ImaUpload.ReadOpenKeepsState | openeuler-kernel/security/integrity/ima/ima_fs.c:460-475 | an open without O_WRONLY never changes the state, and fails with -EACCES unless the target is the readable policy file |
| ImaUpload.ReadWriteOpenRefused | openeuler-kernel/security/integrity/ima/ima_fs.c:467-471 | an O_RDWR open of any upload file fails with -EACCES and changes nothing |
| ImaUpload.WriteOpenTakesFlag | openeuler-kernel/security/integrity/ima/ima_fs.c:476-483 | a write open succeeds if and only if the file's flag is free; it then sets that flag, registers the parser for a digest-list file opened by the parser, and changes nothing else; otherwise it returns -EBUSY and changes nothing |
| ImaUpload.WriteOpenExclusive | openeuler-kernel/security/integrity/ima/ima_fs.c:476-477 | after a successful write open, a second write open of any file with the same flag fails with -EBUSY |
| ImaUpload.ReleaseNonPolicyClearsFlag | openeuler-kernel/security/integrity/ima/ima_fs.c:502-508 | releasing a non-policy file that was opened for writing drops its flag, unregisters the parser for a digest-list file, and changes nothing else |
| ImaUpload.ReleaseInvalidPolicy | openeuler-kernel/security/integrity/ima/ima_fs.c:510-524 | releasing the policy file after a failed write or a failed policy check deletes the new rules, resets valid_policy and drops the flag |
| ImaUpload.ReleaseValidPolicy | openeuler-kernel/security/integrity/ima/ima_fs.c:526-535 | the exact new state after releasing a valid policy: the policy is installed (logged), and then, with neither configuration option, the file is removed (logged); with CONFIG_IMA_WRITE_POLICY only the policy flag is dropped; with CONFIG_IMA_READ_POLICY alone only the write permission is cleared; nothing else changes |
| ImaUpload.UploadCycleRestoresFlags | openeuler-kernel/security/integrity/ima/ima_fs.c:476-508 | when the file's flag is free and the parser registration implies a taken digest-list flag, a write open of a digest-list or other non-policy file, any number of writes to non-policy files, and the release leave the state exactly as before the open |
| ImaUpload.NonPolicyWritesKeepState | openeuler-kernel/security/integrity/ima/ima_fs.c:415-416 | any sequence of writes to files other than the policy file leaves the state unchanged |
| ImaUpload.PolicyBusyStep | openeuler-kernel/security/integrity/ima/ima_fs.c:476-535 | without CONFIG_IMA_WRITE_POLICY, a taken IMA_POLICY_BUSY survives every open, write and release except the release of a policy file opened with write access |
| ImaUpload.PolicyStaysBusy | openeuler-kernel/security/integrity/ima/ima_fs.c:476-535 | without CONFIG_IMA_WRITE_POLICY, IMA_POLICY_BUSY stays taken through any sequence of operations that releases no policy file opened with write access |
| ImaUpload.PolicyWrittenOnce | openeuler-kernel/security/integrity/ima/ima_fs.c:526-535 | without CONFIG_IMA_WRITE_POLICY, once a valid policy is installed, every write open of the policy file fails with -EBUSY, after any later sequence of operations that releases no policy writer |
| ImaUpload.OperationsKeepParserInvariant | openeuler-kernel/security/integrity/ima/ima_fs.c:479-508 | open, write and release all preserve "the parser is registered only while the digest-list flag is taken" |
| ImaUpload.ImaFs.constructor | openeuler-kernel/security/integrity/ima/ima_fs.c:52 | the boot state (valid_policy starts at 1, ima_fs_flags at zero): no flag taken, valid_policy set, no parser registered, the policy file present and writable |
| ImaUpload.ImaFs.Open | openeuler-kernel/security/integrity/ima/ima_fs.c:453-484 | ima_open_data_upload's result and new state are those of the open step specified above |
| ImaUpload.ImaFs.Write | openeuler-kernel/security/integrity/ima/ima_fs.c:349-419 | ima_write_data's result and new state are those of the write step specified above |
| ImaUpload.ImaFs.Release | openeuler-kernel/security/integrity/ima/ima_fs.c:493-536 | ima_release_data_upload's result and new state are those of the release step specified above |

## Left out

- The secure monitor's enclave handlers (sm_mm_init, sm_mm_extend, sm_alloc_enclave_mem, sm_create_enclave, sm_run_enclave, sm_exit_enclave) are function-valued parameters. Their code is not part of this model.
- The numeric function ids, SBI_ECALL_VERSION_MAJOR/MINOR, SBI_OPENSBI_IMPID, OPENSBI_VERSION and the mvendorid, marchid and mimpid CSRs are parameters, because their values come from headers and hardware outside this model.
- SbiEcallBase: the header constants that do not vary are fixed at their OpenSBI 0.6 values rather than taken as parameters: SBI_SPEC_VERSION_MAJOR_OFFSET 24 and SBI_SPEC_VERSION_MAJOR_MASK 0x7f (as literals in SpecVersion), SBI_EXT_BASE 0x10 and SBI_ENOTSUPP -2.
- sbi_ecall_find_extension is a map from extension id to extension. Extension registration and the dispatch through the `handle` field are not modelled.
- Extension probe callbacks are foreign functions of the probed id, fixed for each call. The `scratch` argument that sbi_ecall_base_probe passes on to a callback is not modelled, so a callback's dependence on it is folded into that function. The handler's `out_trap` argument is not modelled, because the handler does not use it.
- SbiEcallBase.Handle: the enclave cases' results are only as good as the monitor parameters. The model does not state what the monitor handlers do.
- The securityfs plumbing is not modelled: ima_fs_init, file creation and removal, the file_operations tables, seq_open, seq_read, seq_release, the policy seq_file operations, the htable counters (ima_show_htable_value) and the digest-list and parser-related files other than the three upload files.
- ima_read_file, ima_parse_add_rule, ima_parse_compact_list, ima_check_policy and the parser identity checks are parameters of the write, open and release operations.
- ima_update_policy, ima_delete_rules and securityfs_remove are recorded as entries in a log of policy actions. Their effects on the policy are not modelled.
- Concurrency is not modelled. The RCU list walk, ima_write_mutex and the atomic test_and_set_bit/clear_bit are single sequential steps. An interrupted mutex_lock_interruptible is a boolean input.
- vmalloc failure and copy_from_user failure are boolean inputs.
- Audit messages and kernel log output are left out.
- The template fields' own printers (field_show) are a function parameter of the field, the show format and the field data.
- ima_canonical_fmt is modelled as a little-endian host (cpu_to_le32 is the identity on the stored bytes), so the numbers are always written little-endian.
- Only the SHA-1 bank of the measurement entry's digests is printed, as in the source. Other banks are not modelled.
- The seq_file buffer is unbounded. Its overflow and the retry of a record that does not fit are not modelled.
- The written data is a byte string of the given length. The NUL terminator that ima_write_data appends, and any truncation of the data at an embedded NUL by the parsers, are not modelled.
- Releasing the policy file with CONFIG_IMA_READ_POLICY alone clears the inode's write permission. The model records this as a boolean and does not model the permission check of later opens.
- Operations on the policy file after it is removed are not modelled; the removal is recorded as a boolean.
- The policy file's read path returns the result of seq_open, which is an input.
- ImaUpload.PolicyWrittenOnce: the model does not track open file handles. It therefore takes as given that no later operation releases a policy file with write access. Such a release needs an earlier successful write open of the policy file, and the lemma shows that every such open fails.
