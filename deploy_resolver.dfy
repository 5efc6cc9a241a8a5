/** The two resolver sources the deploy helper generates: `micro_ops.cpp`,
    whose `get_micro_op_resolver` adds each op the model uses to a
    `MicroMutableOpResolver` sized for exactly those ops, and
    `micro_ops.h`, which declares that function. */
module DeployResolver {

  import opened DeployStrings
  import opened DeployNumbers

  const RESOLVER_TYPE: string := "tflite::MicroMutableOpResolver<"
  const SIGNATURE_REST: string := ">* get_micro_op_resolver(tflite::ErrorReporter* error_reporter)"
  const INCLUDE_RESOLVER: string := "#include \"tensorflow/lite/micro/micro_mutable_op_resolver.h\""
  const INCLUDE_COMMON: string := "#include \"tensorflow/lite/c/common.h\""
  const INCLUDE_REPORTER: string := "#include \"tensorflow/lite/micro/tflite_bridge/micro_error_reporter.h\""
  const INCLUDE_FREERTOS: string := "#include \"freertos/FreeRTOS.h\""
  const INCLUDE_TASK: string := "#include \"freertos/task.h\""
  const INCLUDE_OPS: string := "#include \"micro_ops.h\""
  const MODEL_COMMENT: string := "// Model: "
  const NEW_RESOLVER: string := "    auto* resolver = new tflite::MicroMutableOpResolver<"
  const NEW_RESOLVER_END: string := ">();"
  const ADD_CALL: string := "    if (resolver->"
  const ADD_CALL_END: string := "() != kTfLiteOk) {"
  const REPORT_CALL: string := "        error_reporter->Report(\""
  const REPORT_CALL_END: string := " failed\");"
  const DELETE_TASK: string := "        vTaskDelete(NULL);"
  const CLOSE_IF: string := "    }"
  const RETURN_RESOLVER: string := "    return resolver;"
  const CLOSE_FUNCTION: string := "}"
  const PRAGMA_ONCE: string := "#pragma once"

  /** The resolver function's signature for `count` ops. */
  function Signature(count: nat): string
  {
    RESOLVER_TYPE + Decimal(count) + SIGNATURE_REST
  }

  /** The eleven lines before the first op. */
  function CppHead(count: nat, modelPath: string): seq<string>
  {
    [ INCLUDE_RESOLVER, INCLUDE_COMMON, INCLUDE_REPORTER, INCLUDE_FREERTOS, INCLUDE_TASK, INCLUDE_OPS,
      "",
      MODEL_COMMENT + modelPath,
      Signature(count) + " {",
      NEW_RESOLVER + Decimal(count) + NEW_RESOLVER_END,
      "" ]
  }

  /** The five lines that add one op, stopping the FreeRTOS task when it fails. */
  function OpBlock(op: string): seq<string>
  {
    [ ADD_CALL + op + ADD_CALL_END,
      REPORT_CALL + op + REPORT_CALL_END,
      DELETE_TASK,
      CLOSE_IF,
      "" ]
  }

  function OpBlocks(ops: seq<string>): (lines: seq<string>)
    ensures |lines| == 5 * |ops|
  {
    if ops == [] then [] else OpBlocks(ops[..|ops| - 1]) + OpBlock(ops[|ops| - 1])
  }

  const CPP_TAIL: seq<string> := [RETURN_RESOLVER, CLOSE_FUNCTION]

  /** The lines of `micro_ops.cpp` for the methods `ops`. */
  function CppLines(ops: seq<string>, modelPath: string): seq<string>
  {
    CppHead(|ops|, modelPath) + OpBlocks(ops) + CPP_TAIL
  }

  /** `generate_micro_ops_cpp`: the lines built one by one and joined with
      newlines. */
  method GenerateMicroOpsCpp(ops: seq<string>, modelPath: string) returns (text: string)
    ensures text == Join(CppLines(ops, modelPath), "\n")
  {
    var lines := CppHead(|ops|, modelPath);
    for k := 0 to |ops|
      invariant lines == CppHead(|ops|, modelPath) + OpBlocks(ops[..k])
    {
      assert ops[..k + 1][..k] == ops[..k];
      var op := ops[k];
      ghost var before := lines;
      lines := lines + [ADD_CALL + op + ADD_CALL_END];
      lines := lines + [REPORT_CALL + op + REPORT_CALL_END];
      lines := lines + [DELETE_TASK];
      lines := lines + [CLOSE_IF];
      lines := lines + [""];
      assert lines == before + OpBlock(op);
    }
    assert ops[..|ops|] == ops;
    ghost var body := lines;
    lines := lines + [RETURN_RESOLVER];
    lines := lines + [CLOSE_FUNCTION];
    assert lines == body + CPP_TAIL;
    text := Join(lines, "\n");
  }

  /** Block `k` of the op blocks adds op `k`. */
  lemma {:induction false} OpBlocksSlice(ops: seq<string>, k: nat)
    requires k < |ops|
    ensures OpBlocks(ops)[5 * k .. 5 * k + 5] == OpBlock(ops[k])
  {
    var front := ops[..|ops| - 1];
    if k < |front| {
      OpBlocksSlice(front, k);
      assert front[k] == ops[k];
      assert OpBlocks(ops)[..5 * |front|] == OpBlocks(front);
    }
  }

  /** The layout of `micro_ops.cpp`: eleven lines of preamble whose
      resolver is sized with the number of ops, written in decimal, then
      five lines per op in the order given, then `return resolver;` and
      the closing brace. */
  lemma CppLayout(ops: seq<string>, modelPath: string)
    ensures var lines := CppLines(ops, modelPath);
      && |lines| == 11 + 5 * |ops| + 2
      && lines[8] == Signature(|ops|) + " {"
      && lines[9] == NEW_RESOLVER + Decimal(|ops|) + NEW_RESOLVER_END
      && AllDigits(Decimal(|ops|)) && Value(Decimal(|ops|), 10) == |ops|
      && (forall k :: 0 <= k < |ops| ==> lines[11 + 5 * k .. 16 + 5 * k] == OpBlock(ops[k]))
      && lines[11 + 5 * |ops| ..] == CPP_TAIL
  {
    var lines := CppLines(ops, modelPath);
    ValueOfNumeral(|ops|, 10);
    forall k | 0 <= k < |ops| ensures lines[11 + 5 * k .. 16 + 5 * k] == OpBlock(ops[k]) {
      OpBlocksSlice(ops, k);
      assert lines[11 .. 11 + 5 * |ops|] == OpBlocks(ops);
      assert lines[11 + 5 * k .. 16 + 5 * k] == OpBlocks(ops)[5 * k .. 5 * k + 5];
    }
  }

  /** The lines of `micro_ops.h` for `count` ops. */
  function HeaderLines(count: nat): seq<string>
  {
    [PRAGMA_ONCE, "", INCLUDE_RESOLVER, INCLUDE_REPORTER, "", Signature(count) + ";"]
  }

  /** `generate_micro_ops_header`. */
  function HeaderText(count: nat): string
  {
    Join(HeaderLines(count), "\n")
  }

  /** The header generated for the number of methods declares the very
      function the source file defines: the header's last line and the
      definition's opening line carry the same signature. */
  lemma HeaderDeclaresDefinition(ops: seq<string>, modelPath: string)
    ensures HeaderLines(|ops|)[5] == Signature(|ops|) + ";"
    ensures CppLines(ops, modelPath)[8] == Signature(|ops|) + " {"
  {
  }
}
