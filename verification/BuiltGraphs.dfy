/** The compiler simulation: the built graph computes what the bytecode computes. */
module BuiltGraphs {
  import opened Options
  import opened Values
  import opened Pipeline
  import opened Bytecodes
  import opened GraphBuilder

  ghost function Built(h: Host, pool: seq<ConstantValue>, bytes: seq<uint8>): State
    requires Complete(bytes, 0)
  {
    BuiltFrom(h, pool, INITIAL_STATE, bytes, 0)
  }

  function Ran(h: Host, mode: Unloaded, pool: seq<ConstantValue>, args: seq<Value>, bytes: seq<uint8>): Value
    requires Accepted(bytes, 0, false)
  {
    AcceptedCodeReturns(h, mode, pool, args, INITIAL_MACHINE, bytes, 0, false);
    RunFrom(h, mode, pool, args, INITIAL_MACHINE, bytes, 0, false).result.value
  }

  /** The compiler simulation, for every accepted code and all arguments: running the built graph
      is running the code on the machine that skips unloaded reads. */
  lemma BuiltGraphRunsTheCode(h: Host, pool: seq<ConstantValue>, args: seq<Value>, bytes: seq<uint8>)
    requires Accepted(bytes, 0, false)
    ensures StateOk(Built(h, pool, bytes))
    ensures Result(h, Built(h, pool, bytes).nodes, Built(h, pool, bytes).returnIds, args)
         == Ran(h, SkipInstruction, pool, args, bytes)
  {
    assert Simulates(h, args, INITIAL_STATE, INITIAL_MACHINE);
    BuildSimulates(h, pool, args, INITIAL_STATE, INITIAL_MACHINE, bytes, 0, false);
    AcceptedCodeReturns(h, SkipInstruction, pool, args, INITIAL_MACHINE, bytes, 0, false);
  }

  /** On code that loads the accumulator before reading it, that is the machine whose accumulator
      starts undefined. */
  lemma BuiltGraphRunsLoadedCode(h: Host, pool: seq<ConstantValue>, args: seq<Value>, bytes: seq<uint8>)
    requires Accepted(bytes, 0, false) && LoadedBeforeRead(bytes, 0, false)
    ensures StateOk(Built(h, pool, bytes))
    ensures Result(h, Built(h, pool, bytes).nodes, Built(h, pool, bytes).returnIds, args)
         == Ran(h, ReadUndefined, pool, args, bytes)
  {
    BuiltGraphRunsTheCode(h, pool, args, bytes);
    LoadedBeforeReadDecides(h, pool, args, INITIAL_MACHINE, bytes, 0, false);
  }

  /** Without that premise they differ: `Negate; Return` is NaN on the machine that reads
      undefined, and undefined as compiled. */
  lemma UnloadedReadDiffers(h: Host, pool: seq<ConstantValue>, args: seq<Value>)
    ensures Accepted([63, 0, 94], 0, false) && !LoadedBeforeRead([63, 0, 94], 0, false)
    ensures Ran(h, ReadUndefined, pool, args, [63, 0, 94]) == Number(NaN)
    ensures Ran(h, SkipInstruction, pool, args, [63, 0, 94]) == Undefined
  {
    var bytes: seq<uint8> := [63, 0, 94];
    assert Accepted(bytes, 3, true);
    assert Accepted(bytes, 2, false);
    assert Accepted(bytes, 0, false);
    var skipped := RunInstruction(h, SkipInstruction, pool, args, INITIAL_MACHINE, Bytecode.Negate, bytes, 1);
    var read := RunInstruction(h, ReadUndefined, pool, args, INITIAL_MACHINE, Bytecode.Negate, bytes, 1);
    assert RunFrom(h, SkipInstruction, pool, args, skipped, bytes, 2, false).result == Some(Undefined);
    assert RunFrom(h, ReadUndefined, pool, args, read, bytes, 2, false).result == Some(Number(NaN));
  }
}
