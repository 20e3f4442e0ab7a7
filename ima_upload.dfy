/** The IMA data-upload files of securityfs: the policy file and the two
    digest-list files. Opening one for writing takes its busy flag, writing
    validates the request and hands the data to a parser, and releasing
    drops the flag and, for the policy file, installs or discards the new
    policy.

    The state the operations share (ima_fs_flags, valid_policy, the
    parser registration, and the policy file's inode) is the class ImaFs;
    each of its methods is proved against a function on FsState, and the
    protocol's properties are lemmas about those functions. */
module ImaUpload {
  import opened ImaEncoding

  // ---------------------------------------------------------------------
  // Files, flags and constants

  /** The file an operation is on. */
  datatype Dentry = Policy | DigestListData | DigestListDataDel | OtherFile

  /** enum ima_fs_flags: the bits of ima_fs_flags. */
  datatype FsFlag = PolicyBusy | DigestListDataBusy | FsBusy

  /** ima_get_dentry_flag: the policy file and the digest-list files have
      flags of their own, and both digest-list files share one. */
  function DentryFlag(d: Dentry): (r: FsFlag)
    ensures r == PolicyBusy <==> d == Policy
    ensures r == DigestListDataBusy <==> d == DigestListData || d == DigestListDataDel
    ensures r == FsBusy <==> d == OtherFile
  {
    match d
    case Policy => PolicyBusy
    case DigestListData => DigestListDataBusy
    case DigestListDataDel => DigestListDataBusy
    case OtherFile => FsBusy
  }

  predicate IsDigestList(d: Dentry) {
    d == DigestListData || d == DigestListDataDel
  }

  const EPERM: int := 1
  const EINTR: int := 4
  const ENOMEM: int := 12
  const EACCES: int := 13
  const EFAULT: int := 14
  const EBUSY: int := 16
  const EINVAL: int := 22
  const EFBIG: int := 27

  /** The largest write accepted. */
  const MAX_WRITE: nat := 64 * 1024 * 1024 - 1

  const SLASH: byte := 0x2f

  type OpenFlags = bv32
  const O_RDONLY: OpenFlags := 0
  const O_WRONLY: OpenFlags := 1
  const O_RDWR: OpenFlags := 2
  const O_ACCMODE: OpenFlags := 3

  /** CONFIG_IMA_READ_POLICY and CONFIG_IMA_WRITE_POLICY. */
  datatype Config = Config(readPolicy: bool, writePolicy: bool)

  /** The policy actions the release path takes (ima_delete_rules,
      ima_update_policy, and securityfs_remove of the policy file). */
  datatype PolicyAction = DeleteRules | UpdatePolicy | RemovePolicyFile

  /** The state the upload files share. */
  datatype FsState = FsState(
    flags: set<FsFlag>,          // ima_fs_flags
    validPolicy: bool,           // valid_policy
    parserSet: bool,             // ima_set_parser / ima_unset_parser
    policyWritable: bool,        // S_IWUSR in the policy inode's mode
    policyRemoved: bool,         // the policy file was removed
    actions: seq<PolicyAction>)  // the policy actions taken, in order

  /** The result of an operation and the state after it. */
  datatype Step = Step(state: FsState, ret: int)

  // ---------------------------------------------------------------------
  // ima_write_data

  datatype DigestListOp = OpAdd | OpDel

  /** The parsers the write path hands data to; they are not part of this
      model, so they are given as functions from their arguments to their
      result. */
  datatype Parsers = Parsers(
    readFile: (seq<byte>, Dentry) -> int,              // ima_read_file
    parseAddRule: seq<byte> -> int,                   // ima_parse_add_rule
    parseCompactList: (nat, seq<byte>, DigestListOp) -> int)  // ima_parse_compact_list

  /** What the write path learns from its environment: whether vmalloc or
      copy_from_user fails, whether waiting for ima_write_mutex is
      interrupted, whether IMA_APPRAISE_POLICY is set, and whether the
      writer is the registered digest-list parser. */
  datatype WriteEnv = WriteEnv(
    allocFails: bool, copyFails: bool, lockInterrupted: bool,
    appraisePolicy: bool, currentIsParser: bool)

  /** The part of a write that runs under ima_write_mutex: an absolute
      path is read as a file whatever the target; otherwise the policy
      file takes a rule unless a signed policy is required, the digest-list
      files take a compact list from the parser only, and any other file
      refuses the write. */
  function Dispatch(d: Dentry, data: seq<byte>, env: WriteEnv, p: Parsers): int
  {
    if |data| > 0 && data[0] == SLASH then p.readFile(data, d)
    else if d == Policy then
      if env.appraisePolicy then -EACCES else p.parseAddRule(data)
    else if d == DigestListData then
      if !env.currentIsParser then -EACCES else p.parseCompactList(|data|, data, OpAdd)
    else if d == DigestListDataDel then
      if !env.currentIsParser then -EACCES else p.parseCompactList(|data|, data, OpDel)
    else -EINVAL
  }

  /** The result of ima_write_data: the request checks, in order, then the
      dispatch. */
  function WriteResult(d: Dentry, ppos: int, data: seq<byte>, env: WriteEnv, p: Parsers): int
  {
    if ppos != 0 then -EINVAL
    else if |data| > MAX_WRITE then -EFBIG
    else if env.allocFails then -ENOMEM
    else if env.copyFails then -EFAULT
    else if env.lockInterrupted then -EINTR
    else Dispatch(d, data, env, p)
  }

  /** ima_write_data: a failed write to the policy file marks the policy
      invalid; nothing else changes. */
  function WriteStep(s: FsState, d: Dentry, ppos: int, data: seq<byte>, env: WriteEnv, p: Parsers): Step
  {
    var r := WriteResult(d, ppos, data, env, p);
    Step(if d == Policy && r < 0 then s.(validPolicy := false) else s, r)
  }

  /** An absolute path is read as a file before any check of the target:
      the signed-policy requirement and the parser identity do not
      matter. */
  lemma AbsolutePathReadsFile(d: Dentry, data: seq<byte>, env1: WriteEnv, env2: WriteEnv, p: Parsers)
    requires |data| > 0 && data[0] == SLASH
    ensures Dispatch(d, data, env1, p) == Dispatch(d, data, env2, p) == p.readFile(data, d)
  {
  }

  /** Rules written directly to the policy file are refused while a signed
      policy is required; digest lists written directly are refused unless
      the writer is the registered parser. */
  lemma DirectWritesGuarded(d: Dentry, data: seq<byte>, env: WriteEnv, p: Parsers)
    requires !(|data| > 0 && data[0] == SLASH)
    ensures d == Policy && env.appraisePolicy ==> Dispatch(d, data, env, p) == -EACCES
    ensures IsDigestList(d) && !env.currentIsParser ==> Dispatch(d, data, env, p) == -EACCES
    ensures d == OtherFile ==> Dispatch(d, data, env, p) == -EINVAL
  {
  }

  /** Each check rejects a write exactly when every check before it passed. */
  lemma WriteChecksInOrder(d: Dentry, ppos: int, data: seq<byte>, env: WriteEnv, p: Parsers)
    ensures ppos != 0 ==> WriteResult(d, ppos, data, env, p) == -EINVAL
    ensures ppos == 0 && |data| > MAX_WRITE ==> WriteResult(d, ppos, data, env, p) == -EFBIG
    ensures ppos == 0 && |data| <= MAX_WRITE && env.allocFails ==> WriteResult(d, ppos, data, env, p) == -ENOMEM
    ensures ppos == 0 && |data| <= MAX_WRITE && !env.allocFails && env.copyFails
            ==> WriteResult(d, ppos, data, env, p) == -EFAULT
    ensures ppos == 0 && |data| <= MAX_WRITE && !env.allocFails && !env.copyFails && env.lockInterrupted
            ==> WriteResult(d, ppos, data, env, p) == -EINTR
    ensures ppos == 0 && |data| <= MAX_WRITE && !env.allocFails && !env.copyFails && !env.lockInterrupted
            ==> WriteResult(d, ppos, data, env, p) == Dispatch(d, data, env, p)
  {
  }

  /** A write succeeds only when it passed every check and a parser
      accepted it: the result is then the parser's own. */
  lemma WriteSucceedsOnlyThroughParser(d: Dentry, ppos: int, data: seq<byte>, env: WriteEnv, p: Parsers)
    requires WriteResult(d, ppos, data, env, p) >= 0
    ensures ppos == 0 && |data| <= MAX_WRITE
    ensures !env.allocFails && !env.copyFails && !env.lockInterrupted
    ensures var r := WriteResult(d, ppos, data, env, p);
            var absolute := |data| > 0 && data[0] == SLASH;
            || (absolute && r == p.readFile(data, d))
            || (!absolute && d == Policy && !env.appraisePolicy && r == p.parseAddRule(data))
            || (!absolute && IsDigestList(d) && env.currentIsParser
                && r == p.parseCompactList(|data|, data, if d == DigestListData then OpAdd else OpDel))
  {
    var r := WriteResult(d, ppos, data, env, p);
    assert r == Dispatch(d, data, env, p);
  }

  /** Writing to a file other than the three upload files, without an
      absolute path, always fails. */
  lemma WriteOtherFileRejected(ppos: int, data: seq<byte>, env: WriteEnv, p: Parsers)
    requires !(|data| > 0 && data[0] == SLASH)
    ensures WriteResult(OtherFile, ppos, data, env, p) < 0
  {
  }

  /** A write changes valid_policy only, and only by clearing it after a
      failed write to the policy file. */
  lemma WriteTouchesOnlyValidPolicy(s: FsState, d: Dentry, ppos: int, data: seq<byte>, env: WriteEnv, p: Parsers)
    ensures var t := WriteStep(s, d, ppos, data, env, p);
            && t.state.(validPolicy := s.validPolicy) == s
            && (t.state.validPolicy <==> s.validPolicy && !(d == Policy && t.ret < 0))
  {
  }

  // ---------------------------------------------------------------------
  // ima_open_data_upload

  /** What the open path learns from its environment: whether the caller
      has CAP_SYS_ADMIN, whether it is the digest-list parser
      (ima_check_current_is_parser), and what seq_open returns. */
  datatype OpenEnv = OpenEnv(capable: bool, isParser: bool, seqOpenResult: int)

  /** ima_open_data_upload. An open without O_WRONLY is a read: it is
      allowed only on the policy file with CONFIG_IMA_READ_POLICY, with
      access mode O_RDONLY and CAP_SYS_ADMIN, and takes no flag. An open
      with O_WRONLY takes the file's flag, or fails with -EBUSY when the
      flag is taken; a digest-list open by the parser registers it. */
  function OpenStep(s: FsState, cfg: Config, d: Dentry, fFlags: OpenFlags, env: OpenEnv): Step
  {
    var readAllowed := d == Policy && cfg.readPolicy;
    if fFlags & O_WRONLY == 0 then
      if !readAllowed then Step(s, -EACCES)
      else if fFlags & O_ACCMODE != O_RDONLY then Step(s, -EACCES)
      else if !env.capable then Step(s, -EPERM)
      else Step(s, env.seqOpenResult)
    else
      var flag := DentryFlag(d);
      if flag in s.flags then Step(s, -EBUSY)
      else
        var s' := s.(flags := s.flags + {flag});
        Step(if IsDigestList(d) && env.isParser then s'.(parserSet := true) else s', 0)
  }

  /** A read open never changes the state, and is refused unless the
      policy file may be read. */
  lemma ReadOpenKeepsState(s: FsState, cfg: Config, d: Dentry, fFlags: OpenFlags, env: OpenEnv)
    requires fFlags & O_WRONLY == 0
    ensures OpenStep(s, cfg, d, fFlags, env).state == s
    ensures !(d == Policy && cfg.readPolicy) ==> OpenStep(s, cfg, d, fFlags, env).ret == -EACCES
  {
  }

  /** O_RDWR has no O_WRONLY bit, so it takes the read path, where its
      access mode is refused: no upload file can be opened for reading
      and writing at once. */
  lemma ReadWriteOpenRefused(s: FsState, cfg: Config, d: Dentry, env: OpenEnv)
    ensures OpenStep(s, cfg, d, O_RDWR, env) == Step(s, -EACCES)
  {
  }

  /** A write open succeeds exactly when the file's flag is free, and then
      takes that flag and nothing else. */
  lemma WriteOpenTakesFlag(s: FsState, cfg: Config, d: Dentry, fFlags: OpenFlags, env: OpenEnv)
    requires fFlags & O_WRONLY != 0
    ensures var t := OpenStep(s, cfg, d, fFlags, env);
            && (t.ret == 0 <==> DentryFlag(d) !in s.flags)
            && (t.ret != 0 ==> t == Step(s, -EBUSY))
            && (t.ret == 0 ==>
                  && t.state.flags == s.flags + {DentryFlag(d)}
                  && t.state.parserSet == (s.parserSet || (IsDigestList(d) && env.isParser))
                  && t.state.(parserSet := s.parserSet, flags := s.flags) == s)
  {
  }

  /** Upload files are exclusive: once one is open for writing, a second
      write open of it, or of the other file sharing its flag, fails with
      -EBUSY until it is released. */
  lemma WriteOpenExclusive(s: FsState, cfg: Config, d1: Dentry, d2: Dentry,
                           f1: OpenFlags, f2: OpenFlags, env1: OpenEnv, env2: OpenEnv)
    requires f1 & O_WRONLY != 0 && f2 & O_WRONLY != 0
    requires DentryFlag(d1) == DentryFlag(d2)
    requires OpenStep(s, cfg, d1, f1, env1).ret == 0
    ensures var t := OpenStep(s, cfg, d1, f1, env1).state;
            OpenStep(t, cfg, d2, f2, env2) == Step(t, -EBUSY)
  {
    WriteOpenTakesFlag(s, cfg, d1, f1, env1);
  }

  // ---------------------------------------------------------------------
  // ima_release_data_upload

  /** ima_release_data_upload. A read-only file is simply released. A
      digest-list file unregisters the parser; every file but the policy
      file then drops its flag. For the policy file, a policy that is
      valid is checked once more (ima_check_policy, whose result is
      `checkPolicy`); an invalid one is deleted, valid_policy is reset and
      the flag dropped; a valid one is installed, and then, by
      configuration, the policy file is removed (neither option), its flag
      dropped (CONFIG_IMA_WRITE_POLICY), or its write permission removed
      (CONFIG_IMA_READ_POLICY only). */
  function ReleaseStep(s: FsState, cfg: Config, d: Dentry, fFlags: OpenFlags, checkPolicy: int): Step
  {
    var flag := DentryFlag(d);
    if fFlags & O_ACCMODE == O_RDONLY then Step(s, 0)
    else
      var s1 := if IsDigestList(d) then s.(parserSet := false) else s;
      if d != Policy then Step(s1.(flags := s1.flags - {flag}), 0)
      else
        var valid := s1.validPolicy && checkPolicy >= 0;
        if !valid then
          Step(s1.(actions := s1.actions + [DeleteRules], validPolicy := true, flags := s1.flags - {flag}), 0)
        else
          var s2 := s1.(actions := s1.actions + [UpdatePolicy]);
          if !cfg.writePolicy && !cfg.readPolicy then
            Step(s2.(actions := s2.actions + [RemovePolicyFile], policyRemoved := true), 0)
          else if cfg.writePolicy then Step(s2.(flags := s2.flags - {flag}), 0)
          else Step(s2.(policyWritable := false), 0)
  }

  /** Releasing a digest-list or other non-policy file opened for writing
      drops its flag, unregisters the parser for the digest-list files,
      and changes nothing else. */
  lemma ReleaseNonPolicyClearsFlag(s: FsState, cfg: Config, d: Dentry, fFlags: OpenFlags, checkPolicy: int)
    requires d != Policy && fFlags & O_ACCMODE != O_RDONLY
    ensures ReleaseStep(s, cfg, d, fFlags, checkPolicy)
            == Step(s.(flags := s.flags - {DentryFlag(d)},
                       parserSet := if IsDigestList(d) then false else s.parserSet), 0)
  {
  }

  /** Releasing the policy file after a failed write deletes the new rules,
      resets valid_policy and drops the flag, whatever the configuration. */
  lemma ReleaseInvalidPolicy(s: FsState, cfg: Config, fFlags: OpenFlags, checkPolicy: int)
    requires fFlags & O_ACCMODE != O_RDONLY
    requires !s.validPolicy || checkPolicy < 0
    ensures ReleaseStep(s, cfg, Policy, fFlags, checkPolicy)
            == Step(s.(actions := s.actions + [DeleteRules], validPolicy := true,
                       flags := s.flags - {PolicyBusy}), 0)
  {
  }

  /** Releasing the policy file with a valid policy installs it; the
      policy is written only once unless CONFIG_IMA_WRITE_POLICY is set:
      without it the flag stays taken (so any later write open fails with
      -EBUSY) and the file is either removed or made read-only. */
  lemma ReleaseValidPolicy(s: FsState, cfg: Config, fFlags: OpenFlags, checkPolicy: int)
    requires fFlags & O_ACCMODE != O_RDONLY
    requires s.validPolicy && checkPolicy >= 0
    ensures ReleaseStep(s, cfg, Policy, fFlags, checkPolicy)
            == Step(if !cfg.writePolicy && !cfg.readPolicy then
                      s.(actions := s.actions + [UpdatePolicy, RemovePolicyFile], policyRemoved := true)
                    else if cfg.writePolicy then
                      s.(actions := s.actions + [UpdatePolicy], flags := s.flags - {PolicyBusy})
                    else
                      s.(actions := s.actions + [UpdatePolicy], policyWritable := false), 0)
  {
  }

  // ---------------------------------------------------------------------
  // Sequences of operations

  /** One call on an upload file: an open, a write or a release. */
  datatype Op =
    | OpenOp(d: Dentry, fFlags: OpenFlags, env: OpenEnv)
    | WriteOp(d: Dentry, ppos: int, data: seq<byte>, wenv: WriteEnv, p: Parsers)
    | ReleaseOp(d: Dentry, fFlags: OpenFlags, checkPolicy: int)

  function Apply(s: FsState, cfg: Config, op: Op): Step
  {
    match op
    case OpenOp(d, fFlags, env) => OpenStep(s, cfg, d, fFlags, env)
    case WriteOp(d, ppos, data, wenv, p) => WriteStep(s, d, ppos, data, wenv, p)
    case ReleaseOp(d, fFlags, checkPolicy) => ReleaseStep(s, cfg, d, fFlags, checkPolicy)
  }

  /** The state after the operations, one after the other. */
  function Run(s: FsState, cfg: Config, ops: seq<Op>): FsState
    decreases |ops|
  {
    if ops == [] then s else Run(Apply(s, cfg, ops[0]).state, cfg, ops[1..])
  }

  /** Writes to files other than the policy file change nothing. */
  lemma {:induction false} NonPolicyWritesKeepState(s: FsState, cfg: Config, ops: seq<Op>)
    requires forall i :: 0 <= i < |ops| ==> ops[i].WriteOp? && ops[i].d != Policy
    ensures Run(s, cfg, ops) == s
    decreases |ops|
  {
    if ops != [] {
      NonPolicyWritesKeepState(s, cfg, ops[1..]);
    }
  }

  /** The full cycle on a digest-list or other non-policy file: a write
      open, any number of writes to non-policy files, and the release
      leave the state as it was before the open, if the file's flag was
      free and ParserInvariant held. */
  lemma UploadCycleRestoresFlags(s: FsState, cfg: Config, d: Dentry, fFlags: OpenFlags, env: OpenEnv,
                                 writes: seq<Op>, checkPolicy: int)
    requires d != Policy
    requires fFlags & O_WRONLY != 0
    requires DentryFlag(d) !in s.flags && ParserInvariant(s)
    requires forall i :: 0 <= i < |writes| ==> writes[i].WriteOp? && writes[i].d != Policy
    ensures var afterOpen := OpenStep(s, cfg, d, fFlags, env);
            && afterOpen.ret == 0
            && ReleaseStep(Run(afterOpen.state, cfg, writes), cfg, d, fFlags, checkPolicy) == Step(s, 0)
  {
    var afterOpen := OpenStep(s, cfg, d, fFlags, env);
    WriteOpenTakesFlag(s, cfg, d, fFlags, env);
    NonPolicyWritesKeepState(afterOpen.state, cfg, writes);
    assert afterOpen.state.flags - {DentryFlag(d)} == s.flags;
  }

  /** The release of a policy file opened with write access. */
  predicate ReleasesPolicyWriter(op: Op) {
    op.ReleaseOp? && op.d == Policy && op.fFlags & O_ACCMODE != O_RDONLY
  }

  /** Without CONFIG_IMA_WRITE_POLICY, only the release of a policy writer
      clears IMA_POLICY_BUSY. */
  lemma PolicyBusyStep(s: FsState, cfg: Config, op: Op)
    requires !cfg.writePolicy && PolicyBusy in s.flags && !ReleasesPolicyWriter(op)
    ensures PolicyBusy in Apply(s, cfg, op).state.flags
  {
  }

  lemma {:induction false} PolicyStaysBusy(s: FsState, cfg: Config, ops: seq<Op>)
    requires !cfg.writePolicy && PolicyBusy in s.flags
    requires forall i :: 0 <= i < |ops| ==> !ReleasesPolicyWriter(ops[i])
    ensures PolicyBusy in Run(s, cfg, ops).flags
    decreases |ops|
  {
    if ops != [] {
      PolicyBusyStep(s, cfg, ops[0]);
      PolicyStaysBusy(Apply(s, cfg, ops[0]).state, cfg, ops[1..]);
    }
  }

  /** Without CONFIG_IMA_WRITE_POLICY a valid policy is installed once:
      after the release that installs it, every write open of the policy
      file fails with -EBUSY. A file is released only after it was opened,
      and only a write open gives a policy file with write access, so no
      later operation releases a policy writer; the operations after the
      installing release are any that do not. */
  lemma PolicyWrittenOnce(s: FsState, cfg: Config, fFlags: OpenFlags, checkPolicy: int,
                          later: seq<Op>)
    requires !cfg.writePolicy
    requires PolicyBusy in s.flags
    requires fFlags & O_ACCMODE != O_RDONLY && s.validPolicy && checkPolicy >= 0
    requires forall i :: 0 <= i < |later| ==> !ReleasesPolicyWriter(later[i])
    ensures var t := ReleaseStep(s, cfg, Policy, fFlags, checkPolicy).state;
            forall i, f2: OpenFlags, env2 :: 0 <= i <= |later| && f2 & O_WRONLY != 0 ==>
              OpenStep(Run(t, cfg, later[..i]), cfg, Policy, f2, env2) == Step(Run(t, cfg, later[..i]), -EBUSY)
  {
    var t := ReleaseStep(s, cfg, Policy, fFlags, checkPolicy).state;
    ReleaseValidPolicy(s, cfg, fFlags, checkPolicy);
    forall i | 0 <= i <= |later|
      ensures PolicyBusy in Run(t, cfg, later[..i]).flags
    {
      PolicyStaysBusy(t, cfg, later[..i]);
    }
  }

  // ---------------------------------------------------------------------
  // The shared state

  /** The parser is registered only while a digest-list file is open for
      writing. */
  ghost predicate ParserInvariant(s: FsState) {
    s.parserSet ==> DigestListDataBusy in s.flags
  }

  /** Open, write and release all keep ParserInvariant. */
  lemma OperationsKeepParserInvariant(s: FsState, cfg: Config, d: Dentry, fFlags: OpenFlags,
                                      env: OpenEnv, checkPolicy: int,
                                      ppos: int, data: seq<byte>, wenv: WriteEnv, p: Parsers)
    requires ParserInvariant(s)
    ensures ParserInvariant(OpenStep(s, cfg, d, fFlags, env).state)
    ensures ParserInvariant(ReleaseStep(s, cfg, d, fFlags, checkPolicy).state)
    ensures ParserInvariant(WriteStep(s, d, ppos, data, wenv, p).state)
  {
  }

  /** ima_fs_flags, valid_policy, the parser registration and the policy
      inode, which the upload operations update in place. */
  class ImaFs {
    const cfg: Config
    var flags: set<FsFlag>
    var validPolicy: bool
    var parserSet: bool
    var policyWritable: bool
    var policyRemoved: bool
    var actions: seq<PolicyAction>

    function State(): FsState
      reads this
    {
      FsState(flags, validPolicy, parserSet, policyWritable, policyRemoved, actions)
    }

    /** The state at boot: no file open, valid_policy set, the policy file
        present and writable. */
    constructor (cfg: Config)
      ensures this.cfg == cfg
      ensures State() == FsState({}, true, false, true, false, [])
      ensures ParserInvariant(State())
    {
      this.cfg := cfg;
      flags := {};
      validPolicy := true;
      parserSet := false;
      policyWritable := true;
      policyRemoved := false;
      actions := [];
    }

    /** ima_open_data_upload */
    method Open(d: Dentry, fFlags: OpenFlags, env: OpenEnv) returns (r: int)
      modifies this
      ensures Step(State(), r) == OpenStep(old(State()), cfg, d, fFlags, env)
    {
      var readAllowed := d == Policy && cfg.readPolicy;
      if fFlags & O_WRONLY == 0 {
        if !readAllowed {
          return -EACCES;
        }
        if fFlags & O_ACCMODE != O_RDONLY {
          return -EACCES;
        }
        if !env.capable {
          return -EPERM;
        }
        return env.seqOpenResult;
      }
      var flag := DentryFlag(d);
      if flag in flags {
        return -EBUSY;
      }
      flags := flags + {flag};
      if d == DigestListData || d == DigestListDataDel {
        if env.isParser {
          parserSet := true;
        }
      }
      return 0;
    }

    /** ima_write_data */
    method Write(d: Dentry, ppos: int, data: seq<byte>, env: WriteEnv, p: Parsers) returns (r: int)
      modifies this
      ensures Step(State(), r) == WriteStep(old(State()), d, ppos, data, env, p)
    {
      r := -EINVAL;
      if ppos == 0 {
        r := -EFBIG;
        if |data| <= MAX_WRITE {
          r := -ENOMEM;
          if !env.allocFails {
            r := -EFAULT;
            if !env.copyFails {
              r := -EINTR;
              if !env.lockInterrupted {
                if |data| > 0 && data[0] == SLASH {
                  r := p.readFile(data, d);
                } else if d == Policy {
                  r := if env.appraisePolicy then -EACCES else p.parseAddRule(data);
                } else if d == DigestListData {
                  r := if !env.currentIsParser then -EACCES else p.parseCompactList(|data|, data, OpAdd);
                } else if d == DigestListDataDel {
                  r := if !env.currentIsParser then -EACCES else p.parseCompactList(|data|, data, OpDel);
                } else {
                  r := -EINVAL;
                }
              }
            }
          }
        }
      }
      if d == Policy && r < 0 {
        validPolicy := false;
      }
    }

    /** ima_release_data_upload */
    method Release(d: Dentry, fFlags: OpenFlags, checkPolicy: int) returns (r: int)
      modifies this
      ensures Step(State(), r) == ReleaseStep(old(State()), cfg, d, fFlags, checkPolicy)
    {
      var flag := DentryFlag(d);
      if fFlags & O_ACCMODE == O_RDONLY {
        return 0;
      }
      if d == DigestListData || d == DigestListDataDel {
        parserSet := false;
      }
      if d != Policy {
        flags := flags - {flag};
        return 0;
      }
      if validPolicy && checkPolicy < 0 {
        validPolicy := false;
      }
      if !validPolicy {
        actions := actions + [DeleteRules];
        validPolicy := true;
        flags := flags - {flag};
        return 0;
      }
      actions := actions + [UpdatePolicy];
      if !cfg.writePolicy && !cfg.readPolicy {
        actions := actions + [RemovePolicyFile];
        policyRemoved := true;
      } else if cfg.writePolicy {
        flags := flags - {flag};
      } else {
        policyWritable := false;
      }
      return 0;
    }
  }
}
