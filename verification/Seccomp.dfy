/** Constants of the kernel interface and of the host that policies are built for. */
module Seccomp {
  import opened Bpf

  const RET_KILL: Word := 0
  const RET_ERRNO: Word := 0x0005_0000
  const RET_USER_NOTIF: Word := 0x7fc0_0000
  const RET_TRACE: Word := 0x7ff0_0000
  const RET_ALLOW: Word := 0x7fff_0000
  const RET_ACTION: Word := 0x7fff_0000
  const RET_DATA: Word := 0x0000_ffff

  const CLONE_UNTRACED: Word := 0x0080_0000
  const FILTER_FLAG_NEW_LISTENER: Word := 0x8
  const AT_EMPTY_PATH: Word := 0x1000
  const EXECVE_MAGIC: Word := 0x921c_2c34
  const AUDIT_ARCH_I386: Word := 0x4000_0003

  /** `sapi::cpu::kUnknown` and `sapi::cpu::kX86`. */
  const ARCH_UNKNOWN: Word := 0xcaf0
  const ARCH_X86: Word := 0xcaf2

  /** The low 16 bits of the value are put under the action, whose low bits are zero. */
  function Errno(error: Word): Word { RET_ERRNO + error % 0x1_0000 }

  function Trace(value: Word): Word { RET_TRACE + value % 0x1_0000 }

  datatype Host = X8664 | Ppc64le | Arm64 | Arm {
    /** `Syscall::GetHostArch`. */
    function Arch(): Word {
      match this
      case X8664 => 0xcaf1
      case Ppc64le => 0xcaf3
      case Arm64 => 0xcaf4
      case Arm => 0xcaf5
    }

    /** `Syscall::GetHostAuditArch`. */
    function AuditArch(): Word {
      match this
      case X8664 => 0xc000_003e
      case Ppc64le => 0xc000_0015
      case Arm64 => 0xc000_00b7
      case Arm => 0x4000_0028
    }

    function Ptrace(): Word {
      match this
      case X8664 => 101
      case Ppc64le => 26
      case Arm64 => 117
      case Arm => 26
    }

    function BpfNr(): Word {
      match this
      case X8664 => 321
      case Ppc64le => 361
      case Arm64 => 280
      case Arm => 386
    }

    function Clone(): Word {
      match this
      case X8664 => 56
      case Ppc64le => 120
      case Arm64 => 220
      case Arm => 120
    }

    function SeccompNr(): Word {
      match this
      case X8664 => 317
      case Ppc64le => 358
      case Arm64 => 277
      case Arm => 383
    }

    function Execveat(): Word {
      match this
      case X8664 => 322
      case Ppc64le => 362
      case Arm64 => 281
      case Arm => 387
    }
  }
}
