/** The decisions of the deploy helper's `main`: stop when the model is
    missing or the serial port is, grow the model partition only when the
    model outgrows it, and generate the resolver sources only when every
    op of the model has a resolver method. */
module DeployMain {

  import opened DeployStrings
  import opened DeployNumbers
  import opened DeployPartitions
  import opened DeployResolver

  /** What `main` reads from the command line, the environment and the
      files around it.  `opsMap` is the op table, loaded from the cached
      JSON or built from the header; `modelOps` are the model's op names
      in the order the set of them is iterated. */
  datatype Inputs = Inputs(
    modelPath: string,
    modelExists: bool,
    loadFromPartition: bool,
    port: Option<string>,
    modelSize: nat,
    partitionsCsv: seq<string>,
    opsMap: map<string, string>,
    modelOps: seq<string>)

  /** How a run ends: both resolver sources written, `exit(1)` after a
      message, or an exception. */
  datatype End = Generated(cpp: string, header: string) | Exited(message: string) | Raised(failure: Failure)

  /** A run: the rewritten partition table when it was rewritten, and how
      the run ended. */
  datatype Run = Run(partitionsCsv: Option<seq<string>>, end: End)

  const MISSING_PORT: string := "Error: --port is required when LOAD_MODEL_FROM_PARTITION=1"
  const UNSUPPORTED: string := "Unsupported ops detected:\n"

  function MissingModel(modelPath: string): string
  {
    "Model file " + modelPath + " does not exist."
  }

  /** `not port`: no `--port`, or an empty one. */
  predicate NoPort(port: Option<string>)
  {
    port.None? || port.value == []
  }

  /** The partition step: read the table, rewrite it only when the model is
      larger than the partition. */
  function Extend(modelSize: nat, csv: seq<string>): Result<Option<seq<string>>>
  {
    match ParsePartitions(csv)
    case Err(f) => Err(f)
    case Ok(p) =>
      if modelSize > p.size then
        match UpdateLines(modelSize, csv)
        case Err(f) => Err(f)
        case Ok(u) => Ok(Some(u))
      else Ok(None)
  }

  /** `[op for op in model_ops if op.upper() not in ops_map]`. */
  function Unresolved(modelOps: seq<string>, opsMap: map<string, string>): seq<string>
  {
    if modelOps == [] then []
    else (if Upper(modelOps[0]) in opsMap then [] else [modelOps[0]]) + Unresolved(modelOps[1..], opsMap)
  }

  /** `[ops_map[op.upper()] for op in model_ops]`. */
  function Mapped(modelOps: seq<string>, opsMap: map<string, string>): (methods: seq<string>)
    requires forall i :: 0 <= i < |modelOps| ==> Upper(modelOps[i]) in opsMap
    ensures |methods| == |modelOps|
    ensures forall i :: 0 <= i < |modelOps| ==> methods[i] == opsMap[Upper(modelOps[i])]
  {
    seq(|modelOps|, i requires 0 <= i < |modelOps| => opsMap[Upper(modelOps[i])])
  }

  /** The message listing ops as unsupported. */
  function Report(ops: seq<string>): string
  {
    UNSUPPORTED + Join(ops, "\n")
  }

  /** The op step as written: the message lists `model_ops`, every op of
      the model. */
  function ResolveAsWritten(modelPath: string, opsMap: map<string, string>, modelOps: seq<string>): End
  {
    if Unresolved(modelOps, opsMap) != [] then Exited(Report(modelOps))
    else
      UnresolvedMeaning(modelOps, opsMap);
      Generate(modelPath, Mapped(modelOps, opsMap))
  }

  /** The op step: stop with the unresolved ops, or generate both sources
      for the mapped methods. */
  function Resolve(modelPath: string, opsMap: map<string, string>, modelOps: seq<string>): End
  {
    var unresolved := Unresolved(modelOps, opsMap);
    if unresolved != [] then Exited(Report(unresolved))
    else
      UnresolvedMeaning(modelOps, opsMap);
      Generate(modelPath, Mapped(modelOps, opsMap))
  }

  function Generate(modelPath: string, methods: seq<string>): End
  {
    Generated(Join(CppLines(methods, modelPath), "\n"), HeaderText(|methods|))
  }

  /** The steps of `main` before the op step: the model check, the port
      check and, in partition mode, the partition table. */
  function Prepare(inputs: Inputs): Result<Option<seq<string>>>
  {
    if inputs.loadFromPartition then Extend(inputs.modelSize, inputs.partitionsCsv) else Ok(None)
  }

  /** `main` as written.  A missing model or a missing port stops the run
      before the partition table is read; the table is only touched in
      partition mode. */
  function Deploy(inputs: Inputs): (r: Run)
    ensures !inputs.modelExists ==> r == Run(None, Exited(MissingModel(inputs.modelPath)))
    ensures inputs.modelExists && inputs.loadFromPartition && NoPort(inputs.port) ==> r == Run(None, Exited(MISSING_PORT))
    ensures r.partitionsCsv.Some? ==> inputs.loadFromPartition
    ensures r.end.Generated? ==> Unresolved(inputs.modelOps, inputs.opsMap) == []
  {
    if !inputs.modelExists then Run(None, Exited(MissingModel(inputs.modelPath)))
    else if inputs.loadFromPartition && NoPort(inputs.port) then Run(None, Exited(MISSING_PORT))
    else
      match Prepare(inputs)
      case Err(f) => Run(None, Raised(f))
      case Ok(csv) => Run(csv, ResolveAsWritten(inputs.modelPath, inputs.opsMap, inputs.modelOps))
  }

  /** `main` with the corrected op step.  It differs from `main` as written
      only in the message that lists the unresolved ops. */
  function DeployCorrected(inputs: Inputs): (r: Run)
    ensures r.partitionsCsv == Deploy(inputs).partitionsCsv
    ensures r.end.Exited? <==> Deploy(inputs).end.Exited?
    ensures !r.end.Exited? ==> r.end == Deploy(inputs).end
    ensures r.end != Deploy(inputs).end ==>
      && r.end == Exited(Report(Unresolved(inputs.modelOps, inputs.opsMap)))
      && Deploy(inputs).end == Exited(Report(inputs.modelOps))
  {
    if !inputs.modelExists then Run(None, Exited(MissingModel(inputs.modelPath)))
    else if inputs.loadFromPartition && NoPort(inputs.port) then Run(None, Exited(MISSING_PORT))
    else
      match Prepare(inputs)
      case Err(f) => Run(None, Raised(f))
      case Ok(csv) => Run(csv, Resolve(inputs.modelPath, inputs.opsMap, inputs.modelOps))
  }

  // ------------------------------------------------------------ properties

  /** The unresolved ops are the model's ops, in order, whose upper-case
      name the table lacks, and only those. */
  lemma {:induction false} UnresolvedMeaning(modelOps: seq<string>, opsMap: map<string, string>)
    ensures forall op :: op in Unresolved(modelOps, opsMap) <==> op in modelOps && Upper(op) !in opsMap
    ensures Unresolved(modelOps, opsMap) == [] <==> forall i :: 0 <= i < |modelOps| ==> Upper(modelOps[i]) in opsMap
  {
    if modelOps != [] {
      UnresolvedMeaning(modelOps[1..], opsMap);
      assert modelOps == [modelOps[0]] + modelOps[1..];
      assert forall i :: 1 <= i < |modelOps| ==> modelOps[i] == modelOps[1..][i - 1];
    }
  }

  /** The partition table is rewritten exactly in partition mode, with the
      model and a port present, when the table reads, the model is larger
      than the partition and the rewrite succeeds; the new table then
      gives the partition the model's size at the same offset. */
  lemma TableRewrittenOnlyWhenLarger(inputs: Inputs)
    ensures Deploy(inputs).partitionsCsv.Some? <==>
      && inputs.modelExists && inputs.loadFromPartition && !NoPort(inputs.port)
      && ParsePartitions(inputs.partitionsCsv).Ok?
      && inputs.modelSize > ParsePartitions(inputs.partitionsCsv).value.size
      && UpdateLines(inputs.modelSize, inputs.partitionsCsv).Ok?
    ensures Deploy(inputs).partitionsCsv.Some? ==>
      && Deploy(inputs).partitionsCsv.value == UpdateLines(inputs.modelSize, inputs.partitionsCsv).value
      && ParsePartitions(Deploy(inputs).partitionsCsv.value)
        == Ok(Partition(ParsePartitions(inputs.partitionsCsv).value.offset, inputs.modelSize))
  {
    if Deploy(inputs).partitionsCsv.Some? {
      ParseAfterUpdate(inputs.modelSize, inputs.partitionsCsv);
    }
  }

  /** The resolver sources are generated exactly when the earlier steps
      passed and every op of the model is in the table; they then add the
      mapped methods, one per op of the model, in the model's order. */
  lemma GeneratedOnlyWhenResolved(inputs: Inputs)
    ensures Deploy(inputs).end.Generated? <==>
      && inputs.modelExists
      && !(inputs.loadFromPartition && NoPort(inputs.port))
      && (inputs.loadFromPartition ==> Extend(inputs.modelSize, inputs.partitionsCsv).Ok?)
      && forall i :: 0 <= i < |inputs.modelOps| ==> Upper(inputs.modelOps[i]) in inputs.opsMap
    ensures Deploy(inputs).end.Generated? ==>
      exists methods: seq<string> ::
        && |methods| == |inputs.modelOps|
        && (forall i :: 0 <= i < |methods| ==> methods[i] == inputs.opsMap[Upper(inputs.modelOps[i])])
        && Deploy(inputs).end == Generated(Join(CppLines(methods, inputs.modelPath), "\n"), HeaderText(|methods|))
  {
    UnresolvedMeaning(inputs.modelOps, inputs.opsMap);
    if Deploy(inputs).end.Generated? {
      var methods := Mapped(inputs.modelOps, inputs.opsMap);
      assert Deploy(inputs).end == Generated(Join(CppLines(methods, inputs.modelPath), "\n"), HeaderText(|methods|));
    }
  }

  /** An op outside the table stops the run with `exit(1)` before any
      resolver source is generated. */
  lemma UnresolvedOpStops(inputs: Inputs, i: nat)
    requires i < |inputs.modelOps| && Upper(inputs.modelOps[i]) !in inputs.opsMap
    ensures Deploy(inputs).end.Exited? || Deploy(inputs).end.Raised?
  {
    UnresolvedMeaning(inputs.modelOps, inputs.opsMap);
    assert inputs.modelOps[i] in Unresolved(inputs.modelOps, inputs.opsMap);
  }

  /** The report of the corrected op step lists the unresolved ops, one
      per line, and nothing else. */
  lemma ReportListsUnresolved(modelPath: string, opsMap: map<string, string>, modelOps: seq<string>)
    requires forall i :: 0 <= i < |modelOps| ==> '\n' !in modelOps[i]
    requires Resolve(modelPath, opsMap, modelOps).Exited?
    ensures var message := Resolve(modelPath, opsMap, modelOps).message;
      && StartsWith(message, UNSUPPORTED)
      && forall op :: op in Split(message[|UNSUPPORTED|..], '\n') <==> op in modelOps && Upper(op) !in opsMap
  {
    var unresolved := Unresolved(modelOps, opsMap);
    UnresolvedMeaning(modelOps, opsMap);
    var message := Report(unresolved);
    assert message[|UNSUPPORTED|..] == Join(unresolved, "\n");
    forall k | 0 <= k < |unresolved| ensures '\n' !in unresolved[k] {
      assert unresolved[k] in modelOps;
    }
    SplitJoin(unresolved, '\n');
  }

  /** As written, the report of an unsupported op also lists the supported
      ones: with `ADD` in the table and `FOO` not, it names both. */
  lemma AsWrittenReportListsSupportedOps(inputs: Inputs)
    requires inputs.modelExists && !inputs.loadFromPartition
    requires inputs.opsMap == map["ADD" := "AddAdd"] && inputs.modelOps == ["ADD", "FOO"]
    ensures var opsMap := map["ADD" := "AddAdd"];
      && Upper("ADD") in opsMap
      && Unresolved(["ADD", "FOO"], opsMap) == ["FOO"]
      && ResolveAsWritten("model.tflite", opsMap, ["ADD", "FOO"]) == Exited(Report(["ADD", "FOO"]))
    ensures Deploy(inputs).end == Exited(Report(["ADD", "FOO"]))
    ensures DeployCorrected(inputs).end == Exited(Report(["FOO"]))
  {
    var opsMap := map["ADD" := "AddAdd"];
    assert Upper("ADD") == "ADD";
    assert Upper("FOO") == "FOO";
    assert ["ADD", "FOO"][1..] == ["FOO"];
    assert ["FOO"][1..] == [];
    assert Unresolved(["FOO"], opsMap) == ["FOO"];
  }
}
