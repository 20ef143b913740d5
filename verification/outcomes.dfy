/** Absence and failure, as the tool distinguishes them.
    `Option` is the source's `None`-or-object; `Result` adds the two ways a run can
    end early: `Abort` (the tool's own fatal exit, `funcs.ex` or `Logger.error_exit`)
    and `Crash` (a Python exception nobody catches, e.g. an AttributeError on None). */
module Outcomes {

  datatype Option<+T> = None | Some(value: T)

  datatype Result<+T> = Ok(value: T) | Abort(message: string) | Crash(reason: string)
}
