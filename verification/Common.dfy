// Small types shared by the models.
module Common {
  datatype Option<+T> = None | Some(value: T)

  // How one externally visible step ends. A step may report failure, or the
  // process may die, and in either case the effect may or may not have landed.
  datatype Fate = Fine | FailsBefore | FailsAfter | CrashBefore | CrashAfter {
    predicate Lands() {
      this == Fine || this == FailsAfter || this == CrashAfter
    }

    function Report(): Report {
      match this
      case Fine => Done
      case FailsBefore => Failed
      case FailsAfter => Failed
      case CrashBefore => Crashed
      case CrashAfter => Crashed
    }
  }

  // What the running process learns about a step (nothing, once it crashed).
  datatype Report = Done | Failed | Crashed
}
