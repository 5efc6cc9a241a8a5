/** The op table the deploy helper builds from TFLite Micro's
    `micro_ops.h`: every `Register_<NAME>()` declaration in it names an op,
    and the op's resolver method is `Add` followed by the op name's
    `_`-separated words, capitalised. */
module DeployOps {

  import opened DeployStrings
  import opened DeployNumbers

  // ------------------------------------------------------------ the pattern
  // `TFLMRegistration\*? Register_(\w+)\(\);`, searched for in each line.

  const REGISTRATION: string := "TFLMRegistration"
  const REGISTER: string := " Register_"
  const CALL: string := "();"

  /** `\w` on ASCII text. */
  predicate IsWordChar(c: char)
  {
    'a' <= c <= 'z' || 'A' <= c <= 'Z' || '0' <= c <= '9' || c == '_'
  }

  /** The word characters of `s` from position `k` on, as many as there
      are. */
  function WordRun(s: string, k: nat): (w: string)
    requires k <= |s|
    ensures k + |w| <= |s|
    decreases |s| - k
  {
    if k < |s| && IsWordChar(s[k]) then [s[k]] + WordRun(s, k + 1) else []
  }

  /** The run is the longest stretch of word characters at `k`. */
  lemma {:induction false} WordRunIsLongest(s: string, k: nat)
    requires k <= |s|
    ensures var w := WordRun(s, k);
      && s[k..k + |w|] == w
      && (forall i :: 0 <= i < |w| ==> IsWordChar(w[i]))
      && (k + |w| == |s| || !IsWordChar(s[k + |w|]))
    decreases |s| - k
  {
    if k < |s| && IsWordChar(s[k]) {
      WordRunIsLongest(s, k + 1);
      var w := WordRun(s, k);
      assert s[k..k + |w|] == [s[k]] + s[k + 1..k + |w|];
    }
  }

  /** The capture of a match starting at `i`, if one starts there.  `\*?`
      takes the `*` when there is one (the space the pattern needs next
      cannot be a `*`), and `\w+` takes the longest run of word
      characters (the `(` the pattern needs next is not one, so a
      shorter run never matches). */
  function MatchAt(line: string, i: nat): Option<string>
    requires i <= |line|
  {
    if !StartsWith(line[i..], REGISTRATION) then None
    else
      var j := i + |REGISTRATION|;
      var j' := if j < |line| && line[j] == '*' then j + 1 else j;
      if !StartsWith(line[j'..], REGISTER) then None
      else
        var k := j' + |REGISTER|;
        var w := WordRun(line, k);
        if w != [] && StartsWith(line[k + |w|..], CALL) then Some(w) else None
  }

  /** `pattern.search(line)` from position `from` on: the leftmost match. */
  function Search(line: string, from: nat): Option<string>
    requires from <= |line|
    decreases |line| - from
  {
    if MatchAt(line, from).Some? then MatchAt(line, from)
    else if from == |line| then None
    else Search(line, from + 1)
  }

  /** The search finds nothing exactly when nothing matches from `from`
      on. */
  lemma {:induction false} SearchFindsNothing(line: string, from: nat)
    requires from <= |line|
    ensures Search(line, from).None? <==> forall j :: from <= j <= |line| ==> MatchAt(line, j).None?
    decreases |line| - from
  {
    if MatchAt(line, from).None? && from < |line| {
      SearchFindsNothing(line, from + 1);
    }
  }

  /** What the search finds is the leftmost match. */
  lemma {:induction false} SearchIsLeftmost(line: string, from: nat) returns (i: nat)
    requires from <= |line| && Search(line, from).Some?
    ensures from <= i <= |line| && MatchAt(line, i) == Search(line, from)
    ensures forall j :: from <= j < i ==> MatchAt(line, j).None?
    decreases |line| - from
  {
    i := from;
    if MatchAt(line, from).None? {
      var none := MatchAt(line, from);
      i := SearchIsLeftmost(line, from + 1);
      forall j | from <= j < i ensures MatchAt(line, j).None? {
        if j == from {
          assert MatchAt(line, j) == none;
        }
      }
    }
  }

  /** Every capture is a non-empty run of word characters. */
  lemma CaptureIsWord(line: string, i: nat)
    requires i <= |line| && MatchAt(line, i).Some?
    ensures var w := MatchAt(line, i).value;
      w != [] && forall c :: 0 <= c < |w| ==> IsWordChar(w[c])
  {
    var j := i + |REGISTRATION|;
    var j' := if j < |line| && line[j] == '*' then j + 1 else j;
    WordRunIsLongest(line, j' + |REGISTER|);
  }

  // ---------------------------------------------------------- method names

  /** One word of an op name as it appears in the method name; an empty
      word fails, as `word[0]` raises `IndexError`. */
  function CapWord(word: string): Result<string>
  {
    if word == [] then Err(IndexError)
    else if IsDigit(word[0]) then Ok([word[0]] + Capitalize(word[1..]))
    else Ok(Capitalize(word))
  }

  /** `''.join(...)` over the capitalised words, in order. */
  function CapWords(words: seq<string>): Result<string>
  {
    if words == [] then Ok([])
    else match CapWord(words[0])
      case Err(f) => Err(f)
      case Ok(c) => match CapWords(words[1..])
        case Err(f) => Err(f)
        case Ok(rest) => Ok(c + rest)
  }

  /** The method of `MicroMutableOpResolver` that adds op `op`. */
  function MethodName(op: string): Result<string>
  {
    match CapWords(Split(op, '_'))
    case Err(f) => Err(f)
    case Ok(body) => Ok("Add" + body)
  }

  /** The words laid end to end. */
  function Concat(words: seq<string>): string
  {
    if words == [] then [] else words[0] + Concat(words[1..])
  }

  /** `s` without the character `c`. */
  function Without(s: string, c: char): (t: string)
    ensures c !in t
  {
    if s == [] then [] else (if s[0] == c then [] else [s[0]]) + Without(s[1..], c)
  }

  /** The words of a split, laid end to end, are the text without its
      separators. */
  lemma {:induction false} ConcatSplit(s: string, sep: char)
    ensures Concat(Split(s, sep)) == Without(s, sep)
  {
    if s != [] {
      ConcatSplit(s[1..], sep);
      var r := Split(s[1..], sep);
      if s[0] == sep {
        assert Concat([[]] + r) == Concat(r);
      } else {
        var parts := [[s[0]] + r[0]] + r[1..];
        assert parts[1..] == r[1..];
        assert Concat(r) == r[0] + Concat(r[1..]);
      }
    }
  }

  /** Capitalising a word changes only its case. */
  lemma CapWordCase(word: string)
    requires word != []
    ensures Upper(CapWord(word).value) == Upper(word)
  {
    if IsDigit(word[0]) {
      UpperAppend([word[0]], Capitalize(word[1..]));
      UpperOfCapitalize(word[1..]);
      UpperAppend([word[0]], word[1..]);
      assert word == [word[0]] + word[1..];
    } else {
      UpperOfCapitalize(word);
    }
  }

  /** The words fail exactly when one is empty; otherwise they are the
      words laid end to end, up to case. */
  lemma {:induction false} CapWordsMeaning(words: seq<string>)
    ensures CapWords(words).Err? <==> [] in words
    ensures CapWords(words).Ok? ==> Upper(CapWords(words).value) == Upper(Concat(words))
  {
    if words != [] {
      CapWordsMeaning(words[1..]);
      assert words == [words[0]] + words[1..];
      if words[0] != [] && CapWords(words[1..]).Ok? {
        CapWordCase(words[0]);
        UpperAppend(CapWord(words[0]).value, CapWords(words[1..]).value);
        UpperAppend(words[0], Concat(words[1..]));
      }
    }
  }

  /** The method name is `Add` and the op name without its underscores,
      up to case; it fails exactly when the name has an empty word: it is
      empty, starts or ends with `_`, or has `__` in it. */
  lemma MethodNameMeaning(op: string)
    ensures MethodName(op).Err? <==> [] in Split(op, '_')
    ensures MethodName(op).Ok? ==>
      var name := MethodName(op).value;
      |name| >= 3 && name[..3] == "Add" && Upper(name[3..]) == Upper(Without(op, '_'))
  {
    CapWordsMeaning(Split(op, '_'));
    ConcatSplit(op, '_');
    if MethodName(op).Ok? {
      var name := MethodName(op).value;
      assert name[3..] == CapWords(Split(op, '_')).value;
    }
  }

  /** For example, `DEPTHWISE_CONV_2D` is added by
      `AddDepthwiseConv2D`. */
  lemma DepthwiseConv2D()
    ensures MethodName("DEPTHWISE_CONV_2D") == Ok("AddDepthwiseConv2D")
  {
    assert "Add" + "DepthwiseConv2D" == "AddDepthwiseConv2D";
    ExampleWords();
    ExampleCapWords();
    MethodNameOfWords("DEPTHWISE_CONV_2D", ["DEPTHWISE", "CONV", "2D"], "DepthwiseConv2D");
  }

  lemma MethodNameOfWords(op: string, words: seq<string>, body: string)
    requires Split(op, '_') == words && CapWords(words) == Ok(body)
    ensures MethodName(op) == Ok("Add" + body)
  {
  }

  lemma ExampleWords()
    ensures Split("DEPTHWISE_CONV_2D", '_') == ["DEPTHWISE", "CONV", "2D"]
  {
    var words := ["DEPTHWISE", "CONV", "2D"];
    assert words[1..] == ["CONV", "2D"];
    assert ["CONV", "2D"][1..] == ["2D"];
    assert Join(["2D"], "_") == "2D";
    assert Join(["CONV", "2D"], "_") == "CONV_2D";
    assert Join(words, "_") == "DEPTHWISE_CONV_2D";
    assert forall i :: 0 <= i < |words| ==> '_' !in words[i] by {
      assert '_' !in "DEPTHWISE" && '_' !in "CONV" && '_' !in "2D";
    }
    SplitJoin(words, '_');
  }

  lemma ExampleCapWords()
    ensures CapWords(["DEPTHWISE", "CONV", "2D"]) == Ok("DepthwiseConv2D")
  {
    CapitalizedWord("DEPTHWISE", "Depthwise");
    CapitalizedWord("CONV", "Conv");
    DigitWord();
    var last := ["2D"];
    assert last[0] == "2D" && last[1..] == [];
    assert "2D" + [] == "2D";
    assert CapWords(last) == Ok("2D");
    var two := ["CONV", "2D"];
    assert two[0] == "CONV" && two[1..] == last;
    assert "Conv" + "2D" == "Conv2D";
    assert CapWords(two) == Ok("Conv2D");
    var three := ["DEPTHWISE", "CONV", "2D"];
    assert three[0] == "DEPTHWISE" && three[1..] == two;
    assert "Depthwise" + "Conv2D" == "DepthwiseConv2D";
  }

  /** A word that starts with a digit keeps it and capitalises the rest. */
  lemma DigitWord()
    ensures CapWord("2D") == Ok("2D")
  {
    var w := "2D";
    assert w[0] == '2' && w[1..] == "D";
    assert Capitalize("D") == "D" by {
      assert "D"[1..] == [];
    }
    assert ['2'] + "D" == w;
  }

  /** An upper-case word with a letter first capitalises to `c` when `c`
      is its first letter and the rest in lower case. */
  lemma CapitalizedWord(word: string, c: string)
    requires word != [] && |c| == |word|
    requires 'A' <= word[0] <= 'Z' && c[0] == word[0]
    requires forall i :: 1 <= i < |word| ==> c[i] == ToLower(word[i])
    ensures CapWord(word) == Ok(c)
  {
    var rest := word[1..];
    assert c[1..] == Lower(rest) by {
      forall i | 0 <= i < |rest| ensures c[1..][i] == Lower(rest)[i] {
        assert rest[i] == word[i + 1];
      }
    }
    assert c == [ToUpper(word[0])] + c[1..];
    assert !IsDigit(word[0]);
  }

  // --------------------------------------------------------------- the map

  /** A header line declares op `key` (upper-cased). */
  predicate Declares(line: string, key: string)
  {
    Search(line, 0).Some? && Upper(Search(line, 0).value) == key
  }

  /** The op table of `parse_micro_ops_header`: one entry per declaring
      line, keyed by the upper-cased op name, a later line replacing an
      earlier one; a name with an empty word aborts the whole table. */
  function OpMap(lines: seq<string>): Result<map<string, string>>
  {
    if lines == [] then Ok(map[])
    else match OpMap(lines[..|lines| - 1])
      case Err(f) => Err(f)
      case Ok(m) =>
        var line := lines[|lines| - 1];
        match Search(line, 0)
        case None => Ok(m)
        case Some(op) => match MethodName(op)
          case Err(f) => Err(f)
          case Ok(name) => Ok(m[Upper(op) := name])
  }

  /** The loop of `parse_micro_ops_header`. */
  method ParseMicroOpsHeader(lines: seq<string>) returns (r: Result<map<string, string>>)
    ensures r == OpMap(lines)
  {
    var opMap: map<string, string> := map[];
    for k := 0 to |lines|
      invariant OpMap(lines[..k]) == Ok(opMap)
    {
      assert lines[..k + 1][..k] == lines[..k];
      var found := Search(lines[k], 0);
      if found.Some? {
        var opName := found.value;
        var methodName := MethodName(opName);
        if methodName.Err? {
          OpMapFailureSticks(lines, k + 1);
          return Err(methodName.failure);
        }
        opMap := opMap[Upper(opName) := methodName.value];
      }
    }
    assert lines[..|lines|] == lines;
    return Ok(opMap);
  }

  lemma {:induction false} OpMapFailureSticks(lines: seq<string>, k: nat)
    requires k <= |lines|
    requires OpMap(lines[..k]).Err?
    ensures OpMap(lines) == OpMap(lines[..k])
    decreases |lines|
  {
    if k < |lines| {
      var front := lines[..|lines| - 1];
      assert front[..k] == lines[..k];
      OpMapFailureSticks(front, k);
    } else {
      assert lines[..k] == lines;
    }
  }

  /** The line declares an op whose name has an empty word. */
  predicate Unnameable(line: string)
  {
    Search(line, 0).Some? && MethodName(Search(line, 0).value).Err?
  }

  /** The table fails exactly when a declared op name has an empty word. */
  lemma {:induction false} OpMapFails(lines: seq<string>)
    ensures OpMap(lines).Err? <==> exists i :: 0 <= i < |lines| && Unnameable(lines[i])
  {
    if lines != [] {
      OpMapFails(lines[..|lines| - 1]);
      OpMapFailsStep(lines);
    }
  }

  /** The table of one more line fails when the table before it did or
      when that line's name has an empty word. */
  lemma OpMapFailsStep(lines: seq<string>)
    requires lines != []
    requires var front := lines[..|lines| - 1];
      OpMap(front).Err? <==> exists i :: 0 <= i < |front| && Unnameable(front[i])
    ensures OpMap(lines).Err? <==> exists i :: 0 <= i < |lines| && Unnameable(lines[i])
  {
    var n := |lines| - 1;
    var front := lines[..n];
    assert OpMap(lines).Err? <==> OpMap(front).Err? || Unnameable(lines[n]);
    if OpMap(lines).Err? {
      if OpMap(front).Err? {
        var i :| 0 <= i < |front| && Unnameable(front[i]);
        assert front[i] == lines[i];
      } else {
        assert Unnameable(lines[n]);
      }
    } else {
      forall i | 0 <= i < |lines| ensures !Unnameable(lines[i]) {
        if i < n {
          assert front[i] == lines[i];
        }
      }
    }
  }

  /** The keys of the table are exactly the declared ops, upper-cased. */
  lemma OpMapKeys(lines: seq<string>)
    requires OpMap(lines).Ok?
    ensures forall key :: key in OpMap(lines).value <==> exists i :: 0 <= i < |lines| && Declares(lines[i], key)
  {
    forall key | key in OpMap(lines).value
      ensures exists i :: 0 <= i < |lines| && Declares(lines[i], key)
    {
      var i := OpMapKeyDeclared(lines, key);
    }
    forall key, i | 0 <= i < |lines| && Declares(lines[i], key)
      ensures key in OpMap(lines).value
    {
      OpMapDeclaredKey(lines, i, key);
    }
  }

  lemma {:induction false} OpMapKeyDeclared(lines: seq<string>, key: string) returns (i: nat)
    requires OpMap(lines).Ok? && key in OpMap(lines).value
    ensures i < |lines| && Declares(lines[i], key)
  {
    var front := lines[..|lines| - 1];
    if key in OpMap(front).value {
      i := OpMapKeyDeclared(front, key);
      assert front[i] == lines[i];
    } else {
      i := |lines| - 1;
    }
  }

  lemma {:induction false} OpMapDeclaredKey(lines: seq<string>, i: nat, key: string)
    requires OpMap(lines).Ok? && i < |lines| && Declares(lines[i], key)
    ensures key in OpMap(lines).value
  {
    var front := lines[..|lines| - 1];
    if i < |front| {
      assert front[i] == lines[i];
      OpMapDeclaredKey(front, i, key);
    }
  }

  /** The method stored for a key is the one of the last line declaring
      it. */
  lemma {:induction false} OpMapLastWins(lines: seq<string>, i: nat, key: string)
    requires OpMap(lines).Ok?
    requires i < |lines| && Declares(lines[i], key)
    requires forall j :: i < j < |lines| ==> !Declares(lines[j], key)
    ensures key in OpMap(lines).value
    ensures Ok(OpMap(lines).value[key]) == MethodName(Search(lines[i], 0).value)
  {
    var front := lines[..|lines| - 1];
    if i < |front| {
      assert forall j :: i < j < |front| ==> front[j] == lines[j];
      OpMapLastWins(front, i, key);
      assert !Declares(lines[|lines| - 1], key);
    }
  }
}
