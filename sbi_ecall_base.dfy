/** The SBI base extension of the secure monitor's firmware: the ecall handler
    that lower privilege levels reach, its extension probe, and the extension
    descriptor. The handler is a total function of the function id, the six
    argument registers, the registered-extension table and the platform's
    build and hardware constants; it yields the status returned to the caller
    and, when it writes one, the value stored through `out_val`. */
module SbiEcallBase {
  import opened Wrappers

  /** `unsigned long` / `uintptr_t` on RV64. */
  type Word = bv64

  /** The C `int` the handler returns. */
  type Int32 = x: int | -0x8000_0000 <= x < 0x8000_0000

  /** SBI_ERR_NOT_SUPPORTED of the SBI specification v0.2. */
  const SBI_ENOTSUPP: Int32 := -2

  /** Extension id of the base extension (SBI specification v0.2, section 4). */
  const SBI_EXT_BASE: Word := 0x10

  /** The functions of the base extension, including the six enclave calls
      forwarded to the secure monitor. */
  datatype Func =
    | GetSpecVersion | GetImpId | GetImpVersion
    | GetMvendorid | GetMarchid | GetMimpid | ProbeExt
    | MmInit | MemoryExtend | AllocEnclaveMm | CreateEnclave
    | RunEnclave | ExitEnclave
  {
    /** The calls routed to the secure monitor's handlers. */
    predicate IsEnclaveCall() {
      MmInit? || MemoryExtend? || AllocEnclaveMm? || CreateEnclave? || RunEnclave? || ExitEnclave?
    }
  }

  /** The numeric function ids; their values live in headers that are not
      part of this model, so they are parameters. */
  datatype FuncIds = FuncIds(
    getSpecVersion: Word, getImpId: Word, getImpVersion: Word,
    getMvendorid: Word, getMarchid: Word, getMimpid: Word, probeExt: Word,
    mmInit: Word, memoryExtend: Word, allocEnclaveMm: Word, createEnclave: Word,
    runEnclave: Word, exitEnclave: Word)
  {
    function IdOf(f: Func): Word {
      match f
      case GetSpecVersion => getSpecVersion
      case GetImpId => getImpId
      case GetImpVersion => getImpVersion
      case GetMvendorid => getMvendorid
      case GetMarchid => getMarchid
      case GetMimpid => getMimpid
      case ProbeExt => probeExt
      case MmInit => mmInit
      case MemoryExtend => memoryExtend
      case AllocEnclaveMm => allocEnclaveMm
      case CreateEnclave => createEnclave
      case RunEnclave => runEnclave
      case ExitEnclave => exitEnclave
    }

    /** The case labels of a C switch are pairwise different. */
    predicate Distinct() {
      forall f: Func, g: Func :: IdOf(f) == IdOf(g) ==> f == g
    }

    /** The first of `order` whose id is `funcid`: how a switch picks its
        case when its labels are tried in turn. */
    function FindCase(order: seq<Func>, funcid: Word): (r: Option<Func>)
      ensures r.Some? ==> r.value in order && IdOf(r.value) == funcid
      ensures r.None? ==> forall f :: f in order ==> IdOf(f) != funcid
    {
      if order == [] then None
      else if IdOf(order[0]) == funcid then Some(order[0])
      else FindCase(order[1..], funcid)
    }

    /** Which case of the switch a function id selects; None is the
        default case. */
    function Decode(funcid: Word): (r: Option<Func>)
    {
      FindCase(SwitchOrder, funcid)
    }
  }

  /** The case labels in the order the source lists them. */
  const SwitchOrder: seq<Func> :=
    [GetSpecVersion, GetImpId, GetImpVersion, GetMvendorid, GetMarchid, GetMimpid, ProbeExt,
     MmInit, MemoryExtend, AllocEnclaveMm, CreateEnclave, RunEnclave, ExitEnclave]

  /** Every function of the extension has a case label. */
  lemma SwitchOrderComplete(f: Func)
    ensures f in SwitchOrder
  {
    match f
    case GetSpecVersion => assert SwitchOrder[0] == f;
    case GetImpId => assert SwitchOrder[1] == f;
    case GetImpVersion => assert SwitchOrder[2] == f;
    case GetMvendorid => assert SwitchOrder[3] == f;
    case GetMarchid => assert SwitchOrder[4] == f;
    case GetMimpid => assert SwitchOrder[5] == f;
    case ProbeExt => assert SwitchOrder[6] == f;
    case MmInit => assert SwitchOrder[7] == f;
    case MemoryExtend => assert SwitchOrder[8] == f;
    case AllocEnclaveMm => assert SwitchOrder[9] == f;
    case CreateEnclave => assert SwitchOrder[10] == f;
    case RunEnclave => assert SwitchOrder[11] == f;
    case ExitEnclave => assert SwitchOrder[12] == f;
  }

  /** Only an id that no case label carries reaches the default case. */
  lemma DecodeNoneIffUnknown(ids: FuncIds, funcid: Word)
    ensures ids.Decode(funcid).None? <==> forall f: Func :: ids.IdOf(f) != funcid
  {
    if ids.Decode(funcid).None? {
      forall f: Func ensures ids.IdOf(f) != funcid {
        SwitchOrderComplete(f);
      }
    }
  }

  /** With distinct labels every function id selects its own case. */
  lemma DecodeIdOf(ids: FuncIds, f: Func)
    requires ids.Distinct()
    ensures ids.Decode(ids.IdOf(f)) == Some(f)
  {
    DecodeNoneIffUnknown(ids, ids.IdOf(f));
    var g := ids.Decode(ids.IdOf(f)).value;
    assert ids.IdOf(g) == ids.IdOf(f);
  }

  /** What a call answers: its status and the value stored through
      `out_val`, or None when `out_val` is not written. */
  datatype Outcome = Outcome(ret: Int32, outVal: Option<Word>)

  /** A registered extension: the id range it claims and its optional
      probe callback (a foreign function of the probed extension id). */
  datatype Extension = Extension(extidStart: Word, extidEnd: Word, probe: Option<Word -> Outcome>)
  {
    predicate Covers(extid: Word) {
      extidStart <= extid <= extidEnd
    }
  }

  /** The result of sbi_ecall_find_extension for each id that has one. */
  type ExtensionTable = map<Word, Extension>

  /** Build constants and machine CSRs the handler reports: the SBI version
      implemented, SBI_OPENSBI_IMPID, OPENSBI_VERSION, mvendorid, marchid,
      mimpid. */
  datatype Platform = Platform(
    versionMajor: Word, versionMinor: Word, impId: Word, impVersion: Word,
    mvendorid: Word, marchid: Word, mimpid: Word)

  /** A `uintptr_t` as a number. */
  type UWord = x: int | 0 <= x < 0x1_0000_0000_0000_0000

  /** The secure monitor's handlers, whose bodies are not part of this
      model: sm_mm_init, sm_mm_extend, sm_alloc_enclave_mem,
      sm_create_enclave, sm_run_enclave(regs, eid), sm_exit_enclave(regs, retval). */
  datatype Monitor = Monitor(
    mmInit: (Word, Word) -> UWord,
    mmExtend: (Word, Word) -> UWord,
    allocEnclaveMem: Word -> UWord,
    createEnclave: Word -> UWord,
    runEnclave: (Word, Word) -> UWord,
    exitEnclave: (Word, Word) -> UWord)

  /** The spec-version word: the major number masked into bits 30:24,
      OR-ed with the minor number. SBI_SPEC_VERSION_MAJOR_OFFSET is 24 and
      SBI_SPEC_VERSION_MAJOR_MASK is 0x7f; bits 23:0 are the minor number
      (SBI specification v0.2, section 4.1). They are written as literals
      so that the shifts are by constant amounts. */
  function SpecVersion(major: Word, minor: Word): Word
  {
    ((major << 24) & (0x7f << 24)) | minor
  }

  /** The major number touches only bits 30:24: every other bit of the
      version word is the minor number's. */
  lemma SpecVersionOutsideMajor(major: Word, minor: Word)
    ensures SpecVersion(major, minor) & !(0x7f << 24) == minor & !(0x7f << 24)
  {
  }

  /** A minor number below 2^24 reads back from bits 23:0. */
  lemma SpecVersionMinor(major: Word, minor: Word)
    requires minor <= 0xff_ffff
    ensures SpecVersion(major, minor) & 0xff_ffff == minor
  {
  }

  /** With a minor number below 2^24, the bits above 23 are the low seven
      bits of the major number. */
  lemma SpecVersionMajor(major: Word, minor: Word)
    requires minor <= 0xff_ffff
    ensures SpecVersion(major, minor) >> 24 == major & 0x7f
  {
  }

  /** The conversion of a handler's `uintptr_t` result to the `int` status:
      the low 32 bits, read as two's complement. */
  function Truncate(x: UWord): (r: Int32)
    ensures r % 0x1_0000_0000 == x % 0x1_0000_0000
    ensures x < 0x8000_0000 ==> r == x
  {
    var low := x % 0x1_0000_0000;
    if low < 0x8000_0000 then low else low - 0x1_0000_0000
  }

  /** A handler that returns a negative `int` code, sign-extended to
      `uintptr_t` (such as `(uintptr_t)-1`), makes the call return that
      code unchanged. */
  lemma TruncateSignExtended(e: int)
    requires -0x8000_0000 <= e < 0
    ensures Truncate(0x1_0000_0000_0000_0000 + e) == e
  {
  }

  /** sbi_ecall_base_probe: whether `extid` is registered. */
  function Probe(table: ExtensionTable, extid: Word): (r: Outcome)
    ensures extid !in table ==> r == Outcome(0, Some(0))
    ensures extid in table ==> match table[extid].probe
                               case Some(probe) => r == probe(extid)
                               case None => r == Outcome(0, Some(1))
  {
    if extid !in table then Outcome(0, Some(0))
    else match table[extid].probe
      case Some(probe) => probe(extid)
      case None => Outcome(0, Some(1))
  }

  /** sbi_ecall_base_handler. `args` are the argument registers a0..a5;
      `extid` is the id the caller used, which the handler does not consult. */
  function Handle(ids: FuncIds, platform: Platform, table: ExtensionTable, sm: Monitor,
                  extid: Word, funcid: Word, args: seq<Word>): (r: Outcome)
    requires |args| == 6
    ensures ids.Decode(funcid).None? ==> r == Outcome(SBI_ENOTSUPP, None)
    ensures r.outVal.Some? ==> ids.Decode(funcid).Some? && !ids.Decode(funcid).value.IsEnclaveCall()
  {
    match ids.Decode(funcid)
    case None => Outcome(SBI_ENOTSUPP, None)
    case Some(f) => Call(f, platform, table, sm, args)
  }

  /** The case of sbi_ecall_base_handler's switch for a recognised
      function: the enclave calls never write `out_val`. */
  function Call(f: Func, platform: Platform, table: ExtensionTable, sm: Monitor, args: seq<Word>): (r: Outcome)
    requires |args| == 6
    ensures r.outVal.Some? ==> !f.IsEnclaveCall()
  {
    match f
    case GetSpecVersion => Outcome(0, Some(SpecVersion(platform.versionMajor, platform.versionMinor)))
    case GetImpId => Outcome(0, Some(platform.impId))
    case GetImpVersion => Outcome(0, Some(platform.impVersion))
    case GetMvendorid => Outcome(0, Some(platform.mvendorid))
    case GetMarchid => Outcome(0, Some(platform.marchid))
    case GetMimpid => Outcome(0, Some(platform.mimpid))
    case ProbeExt => Probe(table, args[0])
    case MmInit => Outcome(Truncate(sm.mmInit(args[0], args[1])), None)
    case MemoryExtend => Outcome(Truncate(sm.mmExtend(args[0], args[1])), None)
    case AllocEnclaveMm => Outcome(Truncate(sm.allocEnclaveMem(args[0])), None)
    case CreateEnclave => Outcome(Truncate(sm.createEnclave(args[0])), None)
    case RunEnclave => Outcome(Truncate(sm.runEnclave(args[5], args[0])), None)
    case ExitEnclave => Outcome(Truncate(sm.exitEnclave(args[5], args[0])), None)
  }

  /** An id outside every case label is refused with SBI_ENOTSUPP and
      leaves `out_val` alone, and only such ids are answered by the default. */
  lemma UnknownFuncNotSupported(ids: FuncIds, platform: Platform, table: ExtensionTable, sm: Monitor,
                                extid: Word, funcid: Word, args: seq<Word>)
    requires |args| == 6
    requires forall f: Func :: ids.IdOf(f) != funcid
    ensures Handle(ids, platform, table, sm, extid, funcid, args) == Outcome(SBI_ENOTSUPP, None)
  {
    DecodeNoneIffUnknown(ids, funcid);
  }

  /** GET_SPEC_VERSION succeeds and reports the encoded version word,
      whose layout SpecVersion states. */
  lemma SpecVersionCall(ids: FuncIds, platform: Platform, table: ExtensionTable, sm: Monitor,
                        extid: Word, args: seq<Word>)
    requires |args| == 6 && ids.Distinct()
    ensures Handle(ids, platform, table, sm, extid, ids.getSpecVersion, args)
            == Outcome(0, Some(SpecVersion(platform.versionMajor, platform.versionMinor)))
  {
    DecodeIdOf(ids, GetSpecVersion);
  }

  /** GET_IMP_ID and GET_IMP_VERSION succeed and report the
      implementation id and version. */
  lemma ImpIdCalls(ids: FuncIds, platform: Platform, table: ExtensionTable, sm: Monitor,
                   extid: Word, args: seq<Word>)
    requires |args| == 6 && ids.Distinct()
    ensures Handle(ids, platform, table, sm, extid, ids.getImpId, args) == Outcome(0, Some(platform.impId))
    ensures Handle(ids, platform, table, sm, extid, ids.getImpVersion, args) == Outcome(0, Some(platform.impVersion))
  {
    DecodeIdOf(ids, GetImpId);
    DecodeIdOf(ids, GetImpVersion);
  }

  /** GET_MVENDORID, GET_MARCHID and GET_MIMPID succeed and report the
      machine's vendor, architecture and implementation CSRs. */
  lemma MachineIdCalls(ids: FuncIds, platform: Platform, table: ExtensionTable, sm: Monitor,
                       extid: Word, args: seq<Word>)
    requires |args| == 6 && ids.Distinct()
    ensures Handle(ids, platform, table, sm, extid, ids.getMvendorid, args) == Outcome(0, Some(platform.mvendorid))
    ensures Handle(ids, platform, table, sm, extid, ids.getMarchid, args) == Outcome(0, Some(platform.marchid))
    ensures Handle(ids, platform, table, sm, extid, ids.getMimpid, args) == Outcome(0, Some(platform.mimpid))
  {
    DecodeIdOf(ids, GetMvendorid);
    DecodeIdOf(ids, GetMarchid);
    DecodeIdOf(ids, GetMimpid);
  }

  /** PROBE_EXT probes the extension named by args[0], whatever extension
      id the caller used. */
  lemma ProbeUsesFirstArgument(ids: FuncIds, platform: Platform, table: ExtensionTable, sm: Monitor,
                               extid: Word, args: seq<Word>)
    requires |args| == 6 && ids.Distinct()
    ensures Handle(ids, platform, table, sm, extid, ids.probeExt, args) == Probe(table, args[0])
  {
    DecodeIdOf(ids, ProbeExt);
  }

  /** For a table whose extensions have no probe callbacks, the probe
      answers 1 exactly for the registered ids, and always succeeds. */
  lemma ProbeReportsRegistration(table: ExtensionTable, extid: Word)
    requires forall id :: id in table ==> table[id].probe.None?
    ensures Probe(table, extid).ret == 0
    ensures Probe(table, extid).outVal == Some(1) <==> extid in table
    ensures Probe(table, extid).outVal == Some(0) <==> extid !in table
  {
  }

  /** The pool calls forward (args[0], args[1]) to the monitor, return the
      truncated handler result and leave `out_val` alone. */
  lemma PoolCallRouting(ids: FuncIds, platform: Platform, table: ExtensionTable, sm: Monitor,
                        extid: Word, args: seq<Word>)
    requires |args| == 6 && ids.Distinct()
    ensures Handle(ids, platform, table, sm, extid, ids.mmInit, args)
            == Outcome(Truncate(sm.mmInit(args[0], args[1])), None)
    ensures Handle(ids, platform, table, sm, extid, ids.memoryExtend, args)
            == Outcome(Truncate(sm.mmExtend(args[0], args[1])), None)
  {
    DecodeIdOf(ids, MmInit);
    DecodeIdOf(ids, MemoryExtend);
  }

  /** The allocation and creation calls forward args[0] alone. */
  lemma AllocCreateRouting(ids: FuncIds, platform: Platform, table: ExtensionTable, sm: Monitor,
                           extid: Word, args: seq<Word>)
    requires |args| == 6 && ids.Distinct()
    ensures Handle(ids, platform, table, sm, extid, ids.allocEnclaveMm, args)
            == Outcome(Truncate(sm.allocEnclaveMem(args[0])), None)
    ensures Handle(ids, platform, table, sm, extid, ids.createEnclave, args)
            == Outcome(Truncate(sm.createEnclave(args[0])), None)
  {
    DecodeIdOf(ids, AllocEnclaveMm);
    DecodeIdOf(ids, CreateEnclave);
  }

  /** Running and exiting an enclave pass args[5] as the register-save area
      and args[0] as the enclave id or return value. */
  lemma RunExitRouting(ids: FuncIds, platform: Platform, table: ExtensionTable, sm: Monitor,
                       extid: Word, args: seq<Word>)
    requires |args| == 6 && ids.Distinct()
    ensures Handle(ids, platform, table, sm, extid, ids.runEnclave, args)
            == Outcome(Truncate(sm.runEnclave(args[5], args[0])), None)
    ensures Handle(ids, platform, table, sm, extid, ids.exitEnclave, args)
            == Outcome(Truncate(sm.exitEnclave(args[5], args[0])), None)
  {
    DecodeIdOf(ids, RunEnclave);
    DecodeIdOf(ids, ExitEnclave);
  }

  /** The handler reads only the argument registers a0, a1 and a5, and
      never the extension id of the call. */
  lemma HandleReadsOnlySlots015(ids: FuncIds, platform: Platform, table: ExtensionTable, sm: Monitor,
                                extid: Word, extid': Word, funcid: Word, args: seq<Word>, args': seq<Word>)
    requires |args| == 6 && |args'| == 6
    requires args[0] == args'[0] && args[1] == args'[1] && args[5] == args'[5]
    ensures Handle(ids, platform, table, sm, extid, funcid, args)
            == Handle(ids, platform, table, sm, extid', funcid, args')
  {
  }

  /** The base extension descriptor `ecall_base`. It has no probe callback
      of its own, so probing it answers 1. */
  function BaseExtension(): (e: Extension)
    ensures forall id :: e.Covers(id) <==> id == SBI_EXT_BASE
    ensures e.probe.None?
  {
    Extension(SBI_EXT_BASE, SBI_EXT_BASE, None)
  }

  /** Once the base extension is registered, probing its id answers 1. */
  lemma ProbeBaseExtension(table: ExtensionTable)
    requires SBI_EXT_BASE in table && table[SBI_EXT_BASE] == BaseExtension()
    ensures Probe(table, SBI_EXT_BASE) == Outcome(0, Some(1))
  {
  }
}
