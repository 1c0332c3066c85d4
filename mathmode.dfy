/**
 * `MathModeTracker` (TexSoup/math_config.py): a stack of the math modes
 * entered so far, with two flags that `math_mode_track` brings in line
 * with the stack.  The class-level attributes of the source are the fields
 * of one tracker object.
 */
module MathMode {

  import opened Wrappers

  /** The top of a mode stack, or `None` when it is empty. */
  function Top<M>(stack: seq<M>): (r: Option<M>)
    ensures r.None? <==> stack == []
    ensures stack != [] ==> r == Some(stack[|stack| - 1])
  {
    if stack == [] then None else Some(stack[|stack| - 1])
  }

  /** `list.pop()` when the list is non-empty, and nothing otherwise. */
  function PopIfAny<M>(stack: seq<M>): (r: seq<M>)
    ensures stack != [] ==> r + [stack[|stack| - 1]] == stack
    ensures stack == [] ==> r == []
  {
    if stack == [] then [] else stack[..|stack| - 1]
  }

  /** Entering and then leaving a mode gives back the stack as it was. */
  lemma PopUndoesPush<M>(stack: seq<M>, m: M)
    ensures PopIfAny(stack + [m]) == stack
  {
    var s := stack + [m];
    assert s[..|s| - 1] == stack;
  }

  class MathModeTracker<M(==)> {
    var stack: seq<M>
    var inMathMode: bool
    var mathModeType: Option<M>

    /** The flags describe the stack: in math mode exactly when some mode is
        open, and the type is the innermost open mode. */
    predicate Synced()
      reads this
    {
      inMathMode == (stack != []) && mathModeType == Top(stack)
    }

    /** The class attributes as declared: an empty stack, yet `in_math_mode`
        starts out true. */
    constructor ()
      ensures stack == [] && inMathMode && mathModeType == None
      ensures !Synced()
    {
      stack := [];
      inMathMode := true;
      mathModeType := None;
    }

    /** `enter(m)`: push the mode and switch the flags to it. */
    method Enter(m: M)
      modifies this
      ensures stack == old(stack) + [m]
      ensures inMathMode && mathModeType == Some(m)
      ensures Synced()
    {
      stack := stack + [m];
      inMathMode := true;
      mathModeType := Some(m);
    }

    /** `exit()`: pop when there is something to pop; the flags stay. */
    method Exit()
      modifies this
      ensures stack == PopIfAny(old(stack))
      ensures inMathMode == old(inMathMode) && mathModeType == old(mathModeType)
    {
      if stack != [] {
        stack := stack[..|stack| - 1];
      }
    }

    /** `math_mode_track()`: read the flags off the stack. */
    method Track()
      modifies this
      ensures stack == old(stack)
      ensures Synced()
    {
      if stack != [] {
        inMathMode := true;
        mathModeType := Some(stack[|stack| - 1]);
      } else {
        inMathMode := false;
        mathModeType := None;
      }
    }

    /** `reset()`: leave math mode and forget every open mode. */
    method Reset()
      modifies this
      ensures stack == [] && !inMathMode && mathModeType == None
      ensures Synced()
    {
      inMathMode := false;
      mathModeType := None;
      if stack != [] {
        stack := [];
      }
    }
  }
}
