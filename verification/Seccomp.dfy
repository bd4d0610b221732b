/** The seccomp policy compiler of libkite/sandbox/bpf_linux.go: a classic BPF machine, the
    compiler that appends instructions with hand-computed forward jumps, and the policy the
    emitted program is meant to enforce.

    The denied list is a parameter, so the 8-bit jump fields matter: `ToU8` truncates exactly
    as the Go conversion does, and the results hold for lists of every length. */
module Seccomp {

  type u8 = x: int | 0 <= x < 0x100
  type u16 = x: int | 0 <= x < 0x1_0000
  type u32 = x: int | 0 <= x < 0x1_0000_0000

  // Instruction codes: BPF_LD|BPF_W|BPF_ABS, BPF_JMP|BPF_JEQ|BPF_K and BPF_RET|BPF_K.
  const LD_ABS: u16 := 0x20
  const JEQ_K: u16 := 0x15
  const RET_K: u16 := 0x06

  const RET_ALLOW: u32 := 0x7fff_0000
  const RET_ERRNO: u32 := 0x0005_0000
  const RET_LOG: u32 := 0x7ffc_0000
  const EPERM: u32 := 1
  const EINVAL: u32 := 22

  const AF_INET: u32 := 2
  const AF_INET6: u32 := 10
  const AF_NETLINK: u32 := 16
  const AF_PACKET: u32 := 17
  const DOMAINS: seq<u32> := [AF_INET, AF_INET6, AF_PACKET, AF_NETLINK]

  datatype SockFilter = SockFilter(code: u16, jt: u8, jf: u8, k: u32)

  function BpfStmt(code: u16, k: u32): SockFilter {
    SockFilter(code, 0, 0, k)
  }

  function BpfJump(code: u16, k: u32, jt: u8, jf: u8): SockFilter {
    SockFilter(code, jt, jf, k)
  }

  // ---------------------------------------------------------------- the machine

  /** The words of `struct seccomp_data` the filters load: offsets 0, 4 and 16. */
  datatype SeccompData = SeccompData(nr: u32, arch: u32, arg0: u32)

  datatype Outcome = Returned(action: u32) | Fault

  /** Executes `prog` from `pc` with accumulator `acc`. Running off the end, an unknown code
      and a load outside the modelled words are faults. */
  function Run(prog: seq<SockFilter>, d: SeccompData, pc: nat, acc: u32): Outcome
    decreases |prog| - pc
  {
    if pc >= |prog| then Fault
    else
      var insn := prog[pc];
      if insn.code == LD_ABS then
        if insn.k == 0 then Run(prog, d, pc + 1, d.nr)
        else if insn.k == 4 then Run(prog, d, pc + 1, d.arch)
        else if insn.k == 16 then Run(prog, d, pc + 1, d.arg0)
        else Fault
      else if insn.code == JEQ_K then
        Run(prog, d, pc + 1 + (if acc == insn.k then insn.jt else insn.jf), acc)
      else if insn.code == RET_K then Returned(insn.k)
      else Fault
  }

  // ---------------------------------------------------------------- platform, options, policy

  datatype Options = Options(blockNetwork: bool, noExec: bool, auditLog: bool)

  /** The kernel's numbers on one architecture. */
  datatype Platform = Platform(
    supported: bool, auditArch: u32,
    memory: seq<u32>,   // ptrace, process_vm_readv, process_vm_writev
    sysvIpc: seq<u32>,  // the twelve System V IPC calls
    exec: seq<u32>,     // execve, execveat
    kill: u32, socket: u32)

  function DeniedSyscalls(p: Platform, opts: Options): seq<u32> {
    p.memory + p.sysvIpc + (if opts.noExec then p.exec else [])
  }

  function DenyAction(opts: Options): u32 {
    if opts.auditLog then RET_LOG else RET_ERRNO + EPERM
  }

  /** What the filter is meant to decide, in the order of its documentation. */
  function Policy(p: Platform, denied: seq<u32>, opts: Options, d: SeccompData): u32 {
    if d.arch != p.auditArch then RET_ERRNO + EINVAL
    else if d.nr in denied then DenyAction(opts)
    else if d.nr == p.kill then (if d.arg0 == 0 then RET_ALLOW else DenyAction(opts))
    else if opts.blockNetwork && d.nr == p.socket then
      (if d.arg0 in DOMAINS then DenyAction(opts) else RET_ALLOW)
    else RET_ALLOW
  }

  /** How many denied entries the 8-bit jumps can serve. */
  function Bound(opts: Options): nat {
    if opts.blockNetwork then 246 else 252
  }

  /** The entries whose checks really reach the deny instruction. */
  function Effective(denied: seq<u32>, opts: Options): seq<u32> {
    if |denied| <= Bound(opts) then denied else denied[|denied| - Bound(opts)..]
  }

  // ---------------------------------------------------------------- the emitted code

  function TotalLen(n: nat, opts: Options): nat {
    4 + n + 3 + 2 + (if opts.blockNetwork then 6 else 0)
  }

  /** Go's uint8(x): the low eight bits. */
  function ToU8(x: int): u8 {
    x % 0x100
  }

  function Header(p: Platform): seq<SockFilter> {
    [BpfStmt(LD_ABS, 4), BpfJump(JEQ_K, p.auditArch, 1, 0), BpfStmt(RET_K, RET_ERRNO + EINVAL), BpfStmt(LD_ABS, 0)]
  }

  function DeniedCheck(denied: seq<u32>, i: nat, idxDeny: nat): SockFilter
    requires i < |denied|
  {
    BpfJump(JEQ_K, denied[i], ToU8(idxDeny - (4 + i + 1)), 0)
  }

  function DeniedChecks(denied: seq<u32>, count: nat, idxDeny: nat): seq<SockFilter>
    requires count <= |denied|
  {
    seq(count, i requires 0 <= i < count => DeniedCheck(denied, i, idxDeny))
  }

  /** `at` is the index of the first of the three instructions. */
  function KillChecks(p: Platform, at: nat, idxAllow: nat): seq<SockFilter> {
    [BpfJump(JEQ_K, p.kill, 0, 2), BpfStmt(LD_ABS, 16),
     BpfJump(JEQ_K, 0, ToU8(idxAllow - (at + 3)), ToU8(idxAllow + 1 - (at + 3)))]
  }

  function DomainChecks(at: nat, count: nat, idxDeny: nat): seq<SockFilter>
    requires count <= |DOMAINS|
  {
    seq(count, i requires 0 <= i < count => BpfJump(JEQ_K, DOMAINS[i], ToU8(idxDeny - (at + i + 1)), 0))
  }

  function SocketChecks(p: Platform, at: nat, idxAllow: nat): seq<SockFilter> {
    [BpfJump(JEQ_K, p.socket, 0, ToU8(idxAllow - (at + 1))), BpfStmt(LD_ABS, 16)]
    + DomainChecks(at + 2, 4, idxAllow + 1)
  }

  function Emitted(p: Platform, denied: seq<u32>, opts: Options): seq<SockFilter> {
    var n := |denied|;
    var idxAllow := TotalLen(n, opts) - 2;
    Header(p) + DeniedChecks(denied, n, idxAllow + 1) + KillChecks(p, 4 + n, idxAllow)
    + (if opts.blockNetwork then SocketChecks(p, 7 + n, idxAllow) else [])
    + [BpfStmt(RET_K, RET_ALLOW), BpfStmt(RET_K, DenyAction(opts))]
  }

  // ---------------------------------------------------------------- what the code does

  ghost predicate Enforces(prog: seq<SockFilter>, p: Platform, denied: seq<u32>, opts: Options) {
    forall d: SeccompData :: Run(prog, d, 0, 0) == Returned(Policy(p, denied, opts, d))
  }

  /** Every branch of every instruction that can execute lands inside the program. */
  predicate JumpsStayInside(prog: seq<SockFilter>) {
    forall i :: 0 <= i < |prog| && prog[i].code != RET_K ==>
      i + 1 + prog[i].jt < |prog| && i + 1 + prog[i].jf < |prog|
  }

  /** The instruction at each index of the emitted program. */
  ghost predicate Laid(prog: seq<SockFilter>, p: Platform, denied: seq<u32>, opts: Options) {
    var n := |denied|;
    var idxAllow := TotalLen(n, opts) - 2;
    && |prog| == TotalLen(n, opts)
    && prog[0] == BpfStmt(LD_ABS, 4)
    && prog[1] == BpfJump(JEQ_K, p.auditArch, 1, 0)
    && prog[2] == BpfStmt(RET_K, RET_ERRNO + EINVAL)
    && prog[3] == BpfStmt(LD_ABS, 0)
    && (forall i :: 4 <= i < 4 + n ==> prog[i] == DeniedCheck(denied, i - 4, idxAllow + 1))
    && prog[4 + n] == BpfJump(JEQ_K, p.kill, 0, 2)
    && prog[5 + n] == BpfStmt(LD_ABS, 16)
    && prog[6 + n] == BpfJump(JEQ_K, 0, idxAllow - (7 + n), idxAllow + 1 - (7 + n))
    && (opts.blockNetwork ==>
          && prog[7 + n] == BpfJump(JEQ_K, p.socket, 0, 5)
          && prog[8 + n] == BpfStmt(LD_ABS, 16)
          && prog[9 + n] == BpfJump(JEQ_K, AF_INET, 4, 0)
          && prog[10 + n] == BpfJump(JEQ_K, AF_INET6, 3, 0)
          && prog[11 + n] == BpfJump(JEQ_K, AF_PACKET, 2, 0)
          && prog[12 + n] == BpfJump(JEQ_K, AF_NETLINK, 1, 0))
    && prog[idxAllow] == BpfStmt(RET_K, RET_ALLOW)
    && prog[idxAllow + 1] == BpfStmt(RET_K, DenyAction(opts))
  }

  lemma EmittedIsLaid(p: Platform, denied: seq<u32>, opts: Options)
    ensures Laid(Emitted(p, denied, opts), p, denied, opts)
  {
    var n, idxAllow := |denied|, TotalLen(|denied|, opts) - 2;
    var checks := DeniedChecks(denied, n, idxAllow + 1);
    assert |checks| == n && forall i :: 0 <= i < n ==> checks[i] == DeniedCheck(denied, i, idxAllow + 1);
  }

  lemma LaidJumpsStayInside(prog: seq<SockFilter>, p: Platform, denied: seq<u32>, opts: Options)
    requires Laid(prog, p, denied, opts)
    ensures JumpsStayInside(prog)
  {
  }

  lemma RunTail(prog: seq<SockFilter>, p: Platform, denied: seq<u32>, opts: Options, d: SeccompData, acc: u32)
    requires Laid(prog, p, denied, opts)
    ensures Run(prog, d, |prog| - 2, acc) == Returned(RET_ALLOW)
    ensures Run(prog, d, |prog| - 1, acc) == Returned(DenyAction(opts))
  {
  }

  /** The six socket instructions. */
  lemma RunSocket(prog: seq<SockFilter>, p: Platform, denied: seq<u32>, opts: Options, d: SeccompData)
    requires Laid(prog, p, denied, opts) && opts.blockNetwork
    ensures Run(prog, d, 7 + |denied|, d.nr)
         == Returned(if d.nr == p.socket && d.arg0 in DOMAINS then DenyAction(opts) else RET_ALLOW)
  {
    var n := |denied|;
    RunTail(prog, p, denied, opts, d, d.nr);
    RunTail(prog, p, denied, opts, d, d.arg0);
    assert Run(prog, d, 12 + n, d.arg0) == Returned(if d.arg0 == AF_NETLINK then DenyAction(opts) else RET_ALLOW);
    assert Run(prog, d, 11 + n, d.arg0)
        == if d.arg0 == AF_PACKET then Returned(DenyAction(opts)) else Run(prog, d, 12 + n, d.arg0);
    assert Run(prog, d, 10 + n, d.arg0)
        == if d.arg0 == AF_INET6 then Returned(DenyAction(opts)) else Run(prog, d, 11 + n, d.arg0);
    assert Run(prog, d, 9 + n, d.arg0)
        == if d.arg0 == AF_INET then Returned(DenyAction(opts)) else Run(prog, d, 10 + n, d.arg0);
    assert Run(prog, d, 8 + n, d.nr) == Run(prog, d, 9 + n, d.arg0);
  }

  /** Everything after the denied checks. */
  lemma RunPastChecks(prog: seq<SockFilter>, p: Platform, denied: seq<u32>, opts: Options, d: SeccompData)
    requires Laid(prog, p, denied, opts) && d.arch == p.auditArch
    ensures Run(prog, d, 4 + |denied|, d.nr) == Returned(Policy(p, [], opts, d))
  {
    var n := |denied|;
    RunTail(prog, p, denied, opts, d, d.nr);
    RunTail(prog, p, denied, opts, d, d.arg0);
    if d.nr == p.kill {
      assert Run(prog, d, 5 + n, d.nr) == Run(prog, d, 6 + n, d.arg0);
    } else if opts.blockNetwork {
      RunSocket(prog, p, denied, opts, d);
    }
  }

  /** From the check at index `i` on, only the entries in reach count: a wrapped jump never
      skips past the first entry whose own jump fits. */
  lemma {:induction false} RunFromCheck(
    prog: seq<SockFilter>, p: Platform, denied: seq<u32>, opts: Options, d: SeccompData, i: nat)
    requires Laid(prog, p, denied, opts) && i <= |denied| && d.arch == p.auditArch
    ensures var first := if |denied| - Bound(opts) > i then |denied| - Bound(opts) else i;
      Run(prog, d, 4 + i, d.nr) == Returned(Policy(p, denied[first..], opts, d))
    decreases |denied| - i
  {
    var n := |denied|;
    if i == n {
      RunPastChecks(prog, p, denied, opts, d);
    } else {
      var idxDeny := |prog| - 1;
      assert prog[4 + i] == DeniedCheck(denied, i, idxDeny);
      if d.nr != denied[i] {
        RunFromCheck(prog, p, denied, opts, d, i + 1);
      } else if idxDeny - (5 + i) < 0x100 {
        RunTail(prog, p, denied, opts, d, d.nr);
      } else {
        var target := i + 1 + ToU8(idxDeny - (5 + i));
        assert target <= n - Bound(opts);
        RunFromCheck(prog, p, denied, opts, d, target);
      }
    }
  }

  /** Whatever the length of the denied list, the program enforces exactly the policy of its
      last `Bound` entries, it never faults, and no branch leaves it. */
  lemma EnforcesEffective(p: Platform, denied: seq<u32>, opts: Options)
    ensures Enforces(Emitted(p, denied, opts), p, Effective(denied, opts), opts)
    ensures JumpsStayInside(Emitted(p, denied, opts))
  {
    var prog := Emitted(p, denied, opts);
    EmittedIsLaid(p, denied, opts);
    LaidJumpsStayInside(prog, p, denied, opts);
    forall d: SeccompData ensures Run(prog, d, 0, 0) == Returned(Policy(p, Effective(denied, opts), opts, d)) {
      RunWhole(prog, p, denied, opts, d);
    }
  }

  lemma RunWhole(prog: seq<SockFilter>, p: Platform, denied: seq<u32>, opts: Options, d: SeccompData)
    requires Laid(prog, p, denied, opts)
    ensures Run(prog, d, 0, 0) == Returned(Policy(p, Effective(denied, opts), opts, d))
  {
    assert Run(prog, d, 0, 0) == Run(prog, d, 1, d.arch);
    if d.arch == p.auditArch {
      assert Run(prog, d, 1, d.arch) == Run(prog, d, 3, d.arch);
      assert Run(prog, d, 3, d.arch) == Run(prog, d, 4, d.nr);
      RunFromCheck(prog, p, denied, opts, d, 0);
      assert |denied| <= Bound(opts) ==> denied[0..] == denied;
    } else {
      assert Run(prog, d, 1, d.arch) == Run(prog, d, 2, d.arch);
    }
  }

  /** Exactly when the emitted program is the policy: every denied call must still occur among
      the last `Bound` entries. */
  lemma EnforcesPolicyIff(p: Platform, denied: seq<u32>, opts: Options)
    ensures Enforces(Emitted(p, denied, opts), p, denied, opts)
       <==> forall x :: x in denied ==> x in Effective(denied, opts)
  {
    var prog, last := Emitted(p, denied, opts), Effective(denied, opts);
    EnforcesEffective(p, denied, opts);
    if forall x :: x in denied ==> x in last {
      forall d: SeccompData ensures Policy(p, denied, opts, d) == Policy(p, last, opts, d) {
        assert d.nr in denied <==> d.nr in last;
      }
    } else {
      var x :| x in denied && x !in last;
      // A non-inet socket domain and the own process group are both allowed, so argument 0 tells.
      var d := SeccompData(x, p.auditArch, 0);
      assert Policy(p, last, opts, d) == RET_ALLOW != Policy(p, denied, opts, d);
    }
  }

  /** For a list without repetitions the condition is the length alone. */
  lemma DistinctListEnforcedIff(p: Platform, denied: seq<u32>, opts: Options)
    requires forall i, j :: 0 <= i < j < |denied| ==> denied[i] != denied[j]
    ensures Enforces(Emitted(p, denied, opts), p, denied, opts) <==> |denied| <= Bound(opts)
  {
    EnforcesPolicyIff(p, denied, opts);
    if |denied| > Bound(opts) {
      assert denied[0] in denied && denied[0] !in Effective(denied, opts);
    }
  }

  // ---------------------------------------------------------------- the compiler

  /** The body of BuildSeccompFilter for an arbitrary denied list. */
  method Assemble(p: Platform, deniedSyscalls: seq<u32>, opts: Options) returns (filter: seq<SockFilter>)
    ensures filter == Emitted(p, deniedSyscalls, opts)
    ensures |filter| == TotalLen(|deniedSyscalls|, opts)
    ensures JumpsStayInside(filter)
    ensures Enforces(filter, p, Effective(deniedSyscalls, opts), opts)
  {
    var totalLen := 4 + |deniedSyscalls| + 3 + 2;
    if opts.blockNetwork {
      totalLen := totalLen + 6;
    }
    var idxAllow := totalLen - 2;
    var idxDeny := totalLen - 1;

    filter := [];
    filter := filter + [BpfStmt(LD_ABS, 4)];
    filter := filter + [BpfJump(JEQ_K, p.auditArch, 1, 0)];
    filter := filter + [BpfStmt(RET_K, RET_ERRNO + EINVAL)];
    filter := filter + [BpfStmt(LD_ABS, 0)];
    assert filter == Header(p);

    for i := 0 to |deniedSyscalls|
      invariant filter == Header(p) + DeniedChecks(deniedSyscalls, i, idxDeny)
    {
      var cur := |filter|;
      var jt := ToU8(idxDeny - (cur + 1));
      filter := filter + [BpfJump(JEQ_K, deniedSyscalls[i], jt, 0)];
      assert DeniedChecks(deniedSyscalls, i + 1, idxDeny)
          == DeniedChecks(deniedSyscalls, i, idxDeny) + [DeniedCheck(deniedSyscalls, i, idxDeny)];
    }
    ghost var checked := filter;

    filter := filter + [BpfJump(JEQ_K, p.kill, 0, 2)];
    filter := filter + [BpfStmt(LD_ABS, 16)];
    var cur := |filter|;
    filter := filter + [BpfJump(JEQ_K, 0, ToU8(idxAllow - (cur + 1)), ToU8(idxDeny - (cur + 1)))];
    assert filter == checked + KillChecks(p, 4 + |deniedSyscalls|, idxAllow);

    if opts.blockNetwork {
      ghost var scoped := filter;
      cur := |filter|;
      filter := filter + [BpfJump(JEQ_K, p.socket, 0, ToU8(idxAllow - (cur + 1)))];
      filter := filter + [BpfStmt(LD_ABS, 16)];
      ghost var loaded := filter;
      for i := 0 to |DOMAINS|
        invariant filter == loaded + DomainChecks(cur + 2, i, idxDeny)
      {
        var c := |filter|;
        filter := filter + [BpfJump(JEQ_K, DOMAINS[i], ToU8(idxDeny - (c + 1)), 0)];
        assert filter == loaded + DomainChecks(cur + 2, i + 1, idxDeny);
      }
      assert filter == scoped + SocketChecks(p, 7 + |deniedSyscalls|, idxAllow);
    }

    filter := filter + [BpfStmt(RET_K, RET_ALLOW)];
    filter := filter + [BpfStmt(RET_K, DenyAction(opts))];
    assert filter == Emitted(p, deniedSyscalls, opts);
    EmittedIsLaid(p, deniedSyscalls, opts);
    EnforcesEffective(p, deniedSyscalls, opts);
  }

  datatype BuildResult = Built(filter: seq<SockFilter>) | UnsupportedArch

  /** The policy of the shipped lists, spelled out. */
  lemma PolicyIs(p: Platform, opts: Options, d: SeccompData)
    ensures Policy(p, DeniedSyscalls(p, opts), opts, d)
         == if d.arch != p.auditArch then 0x0005_0016
            else if || d.nr in p.memory || d.nr in p.sysvIpc || (opts.noExec && d.nr in p.exec)
                    || (d.nr == p.kill && d.arg0 != 0)
                    || (opts.blockNetwork && d.nr == p.socket && d.nr != p.kill && d.arg0 in {2, 10, 16, 17})
            then (if opts.auditLog then 0x7ffc_0000 else 0x0005_0001)
            else 0x7fff_0000
  {
    assert d.arg0 in DOMAINS <==> d.arg0 in {2, 10, 16, 17};
  }

  /** The shipped denied lists (15 entries, 17 with noExec) are well within the bound, so the
      filter that is installed decides exactly the documented policy: the wrong architecture gets
      EINVAL, what is denied EPERM or, for audits, a log entry only, and all else is allowed. */
  method BuildSeccompFilter(p: Platform, opts: Options) returns (r: BuildResult)
    requires |p.memory| == 3 && |p.sysvIpc| == 12 && |p.exec| == 2
    ensures r.UnsupportedArch? <==> !p.supported
    ensures r.Built? ==>
      && Enforces(r.filter, p, DeniedSyscalls(p, opts), opts)
      && JumpsStayInside(r.filter)
      && |r.filter| == 24 + (if opts.noExec then 2 else 0) + (if opts.blockNetwork then 6 else 0)
    ensures r.Built? ==> forall d: SeccompData ::
      Run(r.filter, d, 0, 0) == Returned(
        if d.arch != p.auditArch then 0x0005_0016
        else if || d.nr in p.memory || d.nr in p.sysvIpc || (opts.noExec && d.nr in p.exec)
                || (d.nr == p.kill && d.arg0 != 0)
                || (opts.blockNetwork && d.nr == p.socket && d.nr != p.kill && d.arg0 in {2, 10, 16, 17})
        then (if opts.auditLog then 0x7ffc_0000 else 0x0005_0001)
        else 0x7fff_0000)
    ensures r.Built? ==>
      && r.filter[0] == SockFilter(0x20, 0, 0, 4) && r.filter[1] == SockFilter(0x15, 1, 0, p.auditArch)
      && r.filter[2] == SockFilter(0x06, 0, 0, 0x0005_0016) && r.filter[3] == SockFilter(0x20, 0, 0, 0)
  {
    if !p.supported {
      return UnsupportedArch;
    }
    var deniedSyscalls := p.memory + p.sysvIpc;
    if opts.noExec {
      deniedSyscalls := deniedSyscalls + p.exec;
    }
    assert deniedSyscalls == DeniedSyscalls(p, opts);
    var filter := Assemble(p, deniedSyscalls, opts);
    forall d: SeccompData ensures Run(filter, d, 0, 0) == Returned(Policy(p, DeniedSyscalls(p, opts), opts, d)) {
    }
    forall d: SeccompData {
      PolicyIs(p, opts, d);
    }
    r := Built(filter);
  }
}
