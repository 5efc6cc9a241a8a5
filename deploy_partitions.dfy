/** The deploy helper's reading and rewriting of the partition table: the
    line of the `tflite_model` partition gives the offset and size the
    model is flashed to, and its size field is rewritten when the model
    outgrows it. */
module DeployPartitions {

  import opened DeployStrings
  import opened DeployNumbers

  const PARTITION_NAME: string := "tflite_model"

  datatype Partition = Partition(offset: int, size: int)

  /** `line.strip().startswith(TFLITE_MODEL_PARTITION_NAME)`. */
  predicate Matches(line: string)
  {
    StartsWith(Strip(line), PARTITION_NAME)
  }

  /** The offset (field 3) and size (field 4) of a partition line, each
      read with `int(field, 16)`; the offset is read first. */
  function ParseLine(line: string): Result<Partition>
  {
    var parts := Fields(line);
    if |parts| < 4 then Err(IndexError)
    else match ParseHex(parts[3])
      case None => Err(ValueError)
      case Some(offset) =>
        if |parts| < 5 then Err(IndexError)
        else match ParseHex(parts[4])
          case None => Err(ValueError)
          case Some(size) => Ok(Partition(offset, size))
  }

  /** `parse_partitions_csv`: the first matching line decides. */
  function ParsePartitions(lines: seq<string>): Result<Partition>
  {
    if lines == [] then Err(RuntimeError)
    else if Matches(lines[0]) then ParseLine(lines[0])
    else ParsePartitions(lines[1..])
  }

  /** The result is the parse of the first matching line. */
  lemma {:induction false} ParsePartitionsAt(lines: seq<string>, i: nat)
    requires i < |lines| && Matches(lines[i])
    requires forall j :: 0 <= j < i ==> !Matches(lines[j])
    ensures ParsePartitions(lines) == ParseLine(lines[i])
  {
    if i > 0 {
      assert !Matches(lines[0]);
      assert forall j :: 0 <= j < i - 1 ==> lines[1..][j] == lines[j + 1];
      ParsePartitionsAt(lines[1..], i - 1);
    }
  }

  lemma ParseLineRaisesNoRuntimeError(line: string)
    ensures ParseLine(line) != Err(RuntimeError)
  {
  }

  /** `RuntimeError` is raised exactly when no line matches; otherwise
      there is a first matching line and its parse is the result. */
  lemma {:induction false} ParsePartitionsFinds(lines: seq<string>) returns (i: nat)
    ensures ParsePartitions(lines) == Err(RuntimeError) <==> forall j :: 0 <= j < |lines| ==> !Matches(lines[j])
    ensures ParsePartitions(lines) != Err(RuntimeError) ==>
      && i < |lines| && Matches(lines[i])
      && (forall j :: 0 <= j < i ==> !Matches(lines[j]))
      && ParsePartitions(lines) == ParseLine(lines[i])
  {
    i := 0;
    if lines != [] {
      if Matches(lines[0]) {
        ParseLineRaisesNoRuntimeError(lines[0]);
      } else {
        var k := ParsePartitionsFinds(lines[1..]);
        i := k + 1;
        assert forall j :: 0 <= j < |lines| - 1 ==> lines[1..][j] == lines[j + 1];
      }
    }
  }

  /** The loop of `parse_partitions_csv`. */
  method ParsePartitionsCsv(lines: seq<string>) returns (r: Result<Partition>)
    ensures r == ParsePartitions(lines)
  {
    var k := 0;
    while k < |lines|
      invariant 0 <= k <= |lines|
      invariant ParsePartitions(lines[k..]) == ParsePartitions(lines)
    {
      if Matches(lines[k]) {
        return ParseLine(lines[k]);
      }
      assert lines[k..][1..] == lines[k + 1..];
      k := k + 1;
    }
    return Err(RuntimeError);
  }

  /** The size field as the helper writes it: `f"0x{new_size:X}"`. */
  function SizeField(newSize: nat): string
  {
    "0x" + Hex(newSize)
  }

  /** One line of `update_partitions_csv`. */
  function UpdatedLine(newSize: nat, line: string): Result<string>
  {
    if !Matches(line) then Ok(line)
    else
      var parts := Fields(line);
      if |parts| < 5 then Err(IndexError)
      else Ok(Join(parts[4 := SizeField(newSize)], ", ") + "\n")
  }

  /** `update_partitions_csv` before the file is written: every line in
      order, the first failure aborting the whole rewrite. */
  function UpdateLines(newSize: nat, lines: seq<string>): Result<seq<string>>
  {
    if lines == [] then Ok([])
    else match UpdateLines(newSize, lines[..|lines| - 1])
      case Err(f) => Err(f)
      case Ok(front) => match UpdatedLine(newSize, lines[|lines| - 1])
        case Err(f) => Err(f)
        case Ok(l) => Ok(front + [l])
  }

  /** Once a prefix of the table fails, the whole rewrite fails the same
      way. */
  lemma {:induction false} UpdateLinesFailureSticks(newSize: nat, lines: seq<string>, k: nat)
    requires k <= |lines|
    requires UpdateLines(newSize, lines[..k]).Err?
    ensures UpdateLines(newSize, lines) == UpdateLines(newSize, lines[..k])
    decreases |lines|
  {
    if k < |lines| {
      var front := lines[..|lines| - 1];
      assert front[..k] == lines[..k];
      UpdateLinesFailureSticks(newSize, front, k);
    } else {
      assert lines[..k] == lines;
    }
  }

  /** The loop of `update_partitions_csv`. */
  method UpdatePartitionsCsv(newSize: nat, lines: seq<string>) returns (r: Result<seq<string>>)
    ensures r == UpdateLines(newSize, lines)
  {
    var updated: seq<string> := [];
    for k := 0 to |lines|
      invariant UpdateLines(newSize, lines[..k]) == Ok(updated)
    {
      assert lines[..k + 1][..k] == lines[..k];
      var line := lines[k];
      if Matches(line) {
        var parts := Fields(line);
        if |parts| < 5 {
          UpdateLinesFailureSticks(newSize, lines, k + 1);
          return Err(IndexError);
        }
        parts := parts[4 := SizeField(newSize)];
        updated := updated + [Join(parts, ", ") + "\n"];
      } else {
        updated := updated + [line];
      }
    }
    assert lines[..|lines|] == lines;
    return Ok(updated);
  }

  /** The rewrite goes line by line: it succeeds when every line does,
      and then line `i` of the result is the rewrite of line `i`. */
  lemma {:induction false} UpdateLinesLineByLine(newSize: nat, lines: seq<string>)
    ensures UpdateLines(newSize, lines).Ok? <==> forall i :: 0 <= i < |lines| ==> UpdatedLine(newSize, lines[i]).Ok?
    ensures UpdateLines(newSize, lines).Ok? ==>
      && |UpdateLines(newSize, lines).value| == |lines|
      && forall i :: 0 <= i < |lines| ==> Ok(UpdateLines(newSize, lines).value[i]) == UpdatedLine(newSize, lines[i])
  {
    if lines != [] {
      var front := lines[..|lines| - 1];
      UpdateLinesLineByLine(newSize, front);
      assert forall i :: 0 <= i < |front| ==> front[i] == lines[i];
    }
  }

  /** The first field of a matching line starts with the partition name. */
  lemma FirstFieldNamed(line: string)
    requires Matches(line)
    ensures StartsWith(Fields(line)[0], PARTITION_NAME)
  {
    var s := Strip(line);
    var name := PARTITION_NAME;
    var y := s[|name|..];
    assert s == name + y;
    assert ',' !in name;
    SplitPrefix(name, y, ',');
    var r := Split(y, ',');
    assert Split(s, ',')[0] == name + r[0];
    StripKeepsPrefix(name, r[0]);
  }

  /** The written size field is a clean field. */
  lemma SizeFieldIsClean(newSize: nat)
    ensures Clean(SizeField(newSize))
  {
    var f := SizeField(newSize);
    HexIsPlain(newSize);
    assert forall i :: 0 <= i < |f| ==> f[i] != ',';
    assert !IsSpace(f[0]) && !IsSpace(f[|f| - 1]);
    TrimmedAlready(f);
    TrimmedAlready(TrimRight(f));
  }

  /** The fields of a matching line with the size replaced. */
  function Resized(newSize: nat, line: string): seq<string>
    requires |Fields(line)| >= 5
  {
    Fields(line)[4 := SizeField(newSize)]
  }

  /** A rewritten line still names the partition, and its fields are the
      old ones with the size field replaced. */
  lemma RewrittenLine(newSize: nat, line: string)
    requires Matches(line) && |Fields(line)| >= 5
    ensures UpdatedLine(newSize, line) == Ok(Join(Resized(newSize, line), ", ") + "\n")
    ensures Matches(UpdatedLine(newSize, line).value)
    ensures Fields(UpdatedLine(newSize, line).value) == Resized(newSize, line)
  {
    RewrittenFields(newSize, line);
    RewrittenNamed(newSize, line);
  }

  lemma RewrittenFields(newSize: nat, line: string)
    requires |Fields(line)| >= 5
    ensures Fields(Join(Resized(newSize, line), ", ") + "\n") == Resized(newSize, line)
  {
    var parts := Resized(newSize, line);
    FieldsAreClean(line);
    SizeFieldIsClean(newSize);
    assert forall i :: 0 <= i < |parts| ==> Clean(parts[i]);
    FieldsOfJoin(parts);
  }

  lemma RewrittenNamed(newSize: nat, line: string)
    requires Matches(line) && |Fields(line)| >= 5
    ensures Matches(Join(Resized(newSize, line), ", ") + "\n")
  {
    var parts := Resized(newSize, line);
    FirstFieldNamed(line);
    var name := PARTITION_NAME;
    var z := parts[0][|name|..];
    var rest := z + ", " + Join(parts[1..], ", ") + "\n";
    assert parts[0] == name + z;
    assert Join(parts, ", ") + "\n" == name + rest;
    StripKeepsPrefix(name, rest);
  }

  /** What `update_partitions_csv` does to the table: it fails exactly
      when a matching line has fewer than five fields; otherwise the line
      count is kept, every other line is kept byte for byte, and each
      matching line keeps its fields except the size, which becomes
      `0x` and the new size in upper-case hexadecimal. */
  lemma UpdateLinesMeaning(newSize: nat, lines: seq<string>)
    ensures UpdateLines(newSize, lines).Ok? <==>
      forall i :: 0 <= i < |lines| && Matches(lines[i]) ==> |Fields(lines[i])| >= 5
    ensures UpdateLines(newSize, lines).Ok? ==>
      var u := UpdateLines(newSize, lines).value;
      && |u| == |lines|
      && (forall i :: 0 <= i < |lines| && !Matches(lines[i]) ==> u[i] == lines[i])
      && (forall i :: 0 <= i < |lines| && Matches(lines[i]) ==>
            Matches(u[i]) && Fields(u[i]) == Fields(lines[i])[4 := SizeField(newSize)])
  {
    UpdateLinesLineByLine(newSize, lines);
    forall i | 0 <= i < |lines| && Matches(lines[i]) && |Fields(lines[i])| >= 5
      ensures Matches(UpdatedLine(newSize, lines[i]).value)
      ensures Fields(UpdatedLine(newSize, lines[i]).value) == Fields(lines[i])[4 := SizeField(newSize)]
    {
      RewrittenLine(newSize, lines[i]);
    }
  }

  /** Reading a rewritten line gives its old offset and the new size. */
  lemma ParseRewrittenLine(newSize: nat, line: string)
    requires Matches(line) && ParseLine(line).Ok?
    ensures |Fields(line)| >= 5
    ensures ParseLine(UpdatedLine(newSize, line).value) == Ok(Partition(ParseLine(line).value.offset, newSize))
  {
    RewrittenLine(newSize, line);
    ParseHexOfHex(newSize);
  }

  /** Reading the rewritten table back gives the same offset and the new
      size. */
  lemma ParseAfterUpdate(newSize: nat, lines: seq<string>)
    requires ParsePartitions(lines).Ok?
    requires UpdateLines(newSize, lines).Ok?
    ensures ParsePartitions(UpdateLines(newSize, lines).value)
      == Ok(Partition(ParsePartitions(lines).value.offset, newSize))
  {
    var i := ParsePartitionsFinds(lines);
    var u := UpdateLines(newSize, lines).value;
    ParseRewrittenLine(newSize, lines[i]);
    UpdateLinesMeaning(newSize, lines);
    UpdateLinesLineByLine(newSize, lines);
    assert Ok(u[i]) == UpdatedLine(newSize, lines[i]);
    ParsePartitionsAt(u, i);
  }
}
