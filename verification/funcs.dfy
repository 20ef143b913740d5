/** gpau_objects/funcs.py: the positional argument reader shared by the record classes. */
module Funcs {
  import opened Outcomes
  import opened Values

  /** Python `args[index]`: a negative index counts from the end; outside
      `-len(args) .. len(args) - 1` it raises IndexError. */
  function PyIndex(args: seq<Value>, index: int): Result<Value>
  {
    if 0 <= index < |args| then Ok(args[index])
    else if -|args| <= index < 0 then Ok(args[|args| + index])
    else Crash("IndexError: tuple index out of range")
  }

  /** `get_arg(index, args)`: None once the index runs past the end, otherwise `args[index]`. */
  function GetArg(index: int, args: seq<Value>): (r: Result<Value>)
    ensures index >= 0 ==> r == Ok(Slot(index, args))
    ensures r.Crash? <==> index < -|args|
    ensures r.Abort? == false
  {
    if index >= |args| then Ok(VNone) else PyIndex(args, index)
  }

  /** A negative index reads from the end and fails only below `-len(args)`. */
  lemma NegativeIndex(args: seq<Value>, index: int)
    requires index < 0
    ensures -|args| <= index ==> GetArg(index, args) == Ok(args[|args| + index])
    ensures index < -|args| ==> GetArg(index, args).Crash?
  {
  }
}
